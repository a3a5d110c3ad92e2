/**
 The read side of the WebUI client (surfaces/webui/src/api/client.ts) as a step system.

 `State` holds the module variables of the source: the authentication epoch, the read revision,
 the per-session epochs and revisions, the per-scope revisions, the result cache and the registry of
 shared in-flight transports. `Step` lists what can interleave; `Next` is one atomic turn of the
 event loop. The `log` is instrumentation: its indices are the clock the theorems speak about.
 */
module ReadCoherence {
  import opened DataScopes

  type TransportId = nat
  type ReaderId = nat

  /** `RequestAuthorizationStamp`. */
  datatype Stamp = Stamp(globalEpoch: nat, session: Session, sessionEpoch: nat)

  /** The cache key: stamp, session revision, scope revisions, and class, path and headers (`locator`). */
  datatype Key = Key(stamp: Stamp, sessionRevision: nat, revisions: map<Scope, nat>, locator: int)

  /** What a caller asks for; `ttl` is the positive-cache lifetime of the path, usually zero. */
  datatype Request = Request(session: Session, scopes: set<Scope>, locator: int, ttl: nat)

  /** A parsed response: the transport it came from, the sessions it mentions, and its content. */
  datatype Data = Data(origin: TransportId, refs: set<Session>, body: int)

  datatype Failure = Forbidden | NotFound | ServerError | OtherError | InvalidResponse | Timeout | Offline | StaleRead

  datatype Outcome = Value(data: Data) | Failed(failure: Failure, status: nat) | AbortedTransport

  /** `Resolved` is the promise with a result, `Settled` after its `finally` callback has run. */
  datatype Phase = Pending | Resolved(outcome: Outcome) | Settled(outcome: Outcome, at: nat)

  /** `SharedRead`; `start` is the log index at which the transport was created. */
  datatype Transport = Transport(start: nat, stamp: Stamp, scopes: set<Scope>, aborted: bool,
                                 subscribers: nat, phase: Phase)

  datatype Cached = Cached(data: Data, session: Session, scopes: set<Scope>, cacheUntil: int)

  /** A call of `readAtRevision` suspended on its shared transport. */
  datatype Reader = Reader(request: Request, key: Key, readRevision: nat, retry: bool, transport: TransportId)

  /** Where a served value came from. */
  datatype How = CacheHit | Transported | StaleFallback

  datatype Event =
    | Started(transport: TransportId)
    | Finished(transport: TransportId)
    | InvalidatedAll
    | Revoked(session: Session)
    | InvalidatedScopes(scopes: seq<Scope>)
    | Served(reader: ReaderId, request: Request, data: Data, how: How)

  datatype State = State(
    authEpoch: nat,
    readRevision: nat,
    sessionEpochs: map<Session, nat>,
    sessionRevisions: map<Session, nat>,
    scopeRevisions: map<Scope, nat>,
    cache: map<Key, Cached>,
    inFlight: map<Key, TransportId>,
    transports: seq<Transport>,
    readers: map<ReaderId, Reader>,
    log: seq<Event>)

  const Init := State(0, 0, map[], map[], map[], map[], map[], [], map[], [])

  /** Registry entries and readers name existing transports. */
  predicate WellFormed(s: State) {
    && (forall k <- s.inFlight :: s.inFlight[k] < |s.transports|)
    && (forall r <- s.readers :: s.readers[r].transport < |s.transports|)
  }

  /** `map.get(key) || 0`. */
  function Count<K>(m: map<K, nat>, k: K): nat {
    if k in m then m[k] else 0
  }

  function TakeStamp(s: State, session: Session): Stamp {
    Stamp(s.authEpoch, session, Count(s.sessionEpochs, session))
  }

  predicate StampIsCurrent(s: State, stamp: Stamp) {
    && stamp.globalEpoch == s.authEpoch
    && (stamp.session == "" || stamp.sessionEpoch == Count(s.sessionEpochs, stamp.session))
  }

  function SessionRevision(s: State, session: Session): nat {
    if session == "" then 0 else Count(s.sessionRevisions, session)
  }

  function TakeKey(s: State, request: Request): Key {
    Key(TakeStamp(s, request.session), SessionRevision(s, request.session),
        map scope | scope in request.scopes :: Count(s.scopeRevisions, scope), request.locator)
  }

  predicate ReadRevisionIsCurrent(s: State, r: Reader) {
    && r.readRevision == s.readRevision
    && (r.request.session == "" || r.key.sessionRevision == Count(s.sessionRevisions, r.request.session))
  }

  predicate ScopesAreCurrent(s: State, revisions: map<Scope, nat>) {
    forall scope <- revisions :: revisions[scope] == Count(s.scopeRevisions, scope)
  }

  // ----- Invalidation -----

  function AbortAll(ts: seq<Transport>, ids: set<TransportId>): (r: seq<Transport>)
    ensures |r| == |ts|
  {
    seq(|ts|, i requires 0 <= i < |ts| => if i in ids then ts[i].(aborted := true) else ts[i])
  }

  function IdsOf(inFlight: map<Key, TransportId>, keys: set<Key>): set<TransportId> {
    set k | k in keys && k in inFlight :: inFlight[k]
  }

  /** Aborts the transports registered under `doomed` and removes them from the registry. */
  function DropInFlight(s: State, doomed: set<Key>): (s': State)
    requires WellFormed(s)
    ensures WellFormed(s') && s.authEpoch <= s'.authEpoch
  {
    s.(inFlight := s.inFlight - doomed, transports := AbortAll(s.transports, IdsOf(s.inFlight, doomed)))
  }

  /** `invalidateApiReadCache`: the epoch moves on, and every revision map restarts at zero. */
  function InvalidateAll(s: State): (s': State)
    requires WellFormed(s)
    ensures WellFormed(s') && s.authEpoch <= s'.authEpoch
  {
    DropInFlight(s, s.inFlight.Keys).(
      authEpoch := s.authEpoch + 1, readRevision := s.readRevision + 1,
      sessionRevisions := map[], scopeRevisions := map[], cache := map[],
      log := s.log + [InvalidatedAll])
  }

  /** Stored results of the session, or mentioning it. */
  function RevokedResults(s: State, name: Session): set<Key> {
    set k | k in s.cache && (s.cache[k].session == name || name in s.cache[k].data.refs)
  }

  /** In-flight reads of the session, and every unscoped one. */
  function RevokedReads(s: State, name: Session): set<Key>
    requires WellFormed(s)
  {
    set k | k in s.inFlight && s.transports[s.inFlight[k]].stamp.session in {"", name}
  }

  /** `invalidateSessionAuthorization`. */
  function Revoke(s: State, session: Session): (s': State)
    requires WellFormed(s)
    ensures WellFormed(s') && s.authEpoch <= s'.authEpoch
  {
    var name := Trim(session);
    if name == "" then InvalidateAll(s)
    else
      DropInFlight(s, RevokedReads(s, name)).(
        sessionEpochs := s.sessionEpochs[name := Count(s.sessionEpochs, name) + 1],
        readRevision := s.readRevision + 1,
        sessionRevisions := s.sessionRevisions[name := Count(s.sessionRevisions, name) + 1],
        cache := s.cache - RevokedResults(s, name),
        log := s.log + [Revoked(name)])
  }

  /** One `dataScopeRevisions.set` per listed scope, repeated scopes counting twice. */
  function Bump(revisions: map<Scope, nat>, scopes: seq<Scope>): map<Scope, nat>
    decreases |scopes|
  {
    if scopes == [] then revisions
    else Bump(revisions[scopes[0] := Count(revisions, scopes[0]) + 1], scopes[1..])
  }

  /** Exactly the listed scopes get a greater revision, and none gets a smaller one. */
  lemma {:induction false} BumpRaisesTheListed(revisions: map<Scope, nat>, scopes: seq<Scope>)
    ensures forall x :: Count(Bump(revisions, scopes), x) >= Count(revisions, x)
    ensures forall x :: Count(Bump(revisions, scopes), x) > Count(revisions, x) <==> x in scopes
    decreases |scopes|
  {
    if scopes != [] {
      var bumped := revisions[scopes[0] := Count(revisions, scopes[0]) + 1];
      BumpRaisesTheListed(bumped, scopes[1..]);
      forall x ensures x in scopes <==> x == scopes[0] || x in scopes[1..] {}
      forall x ensures Count(bumped, x) == Count(revisions, x) + if x == scopes[0] then 1 else 0 {}
    }
  }

  function MatchingResults(s: State, scopes: seq<Scope>): set<Key> {
    set k | k in s.cache && AnyScopeMatches(scopes, s.cache[k].scopes)
  }

  function MatchingReads(s: State, scopes: seq<Scope>): set<Key>
    requires WellFormed(s)
  {
    set k | k in s.inFlight && AnyScopeMatches(scopes, s.transports[s.inFlight[k]].scopes)
  }

  /** `invalidateDataScopes`. */
  function InvalidateScopes(s: State, scopes: seq<Scope>): (s': State)
    requires WellFormed(s)
    ensures WellFormed(s') && s.authEpoch <= s'.authEpoch
  {
    if scopes == [] then s
    else
      DropInFlight(s, MatchingReads(s, scopes)).(
        scopeRevisions := Bump(s.scopeRevisions, scopes),
        cache := s.cache - MatchingResults(s, scopes),
        log := s.log + [InvalidatedScopes(scopes)])
  }

  // ----- One read -----

  function Serve(s: State, id: ReaderId, request: Request, data: Data, how: How): State {
    s.(log := s.log + [Served(id, request, data, how)])
  }

  /** Creates the shared transport for `key` and registers it. */
  function Create(s: State, key: Key): (s': State)
    requires WellFormed(s)
    ensures WellFormed(s') && s.authEpoch <= s'.authEpoch
  {
    var id := |s.transports|;
    s.(transports := s.transports + [Transport(|s.log|, key.stamp, key.revisions.Keys, false, 0, Pending)],
       inFlight := s.inFlight[key := id],
       log := s.log + [Started(id)])
  }

  /** The subscription half of `waitForSharedRead`. */
  function Attach(s: State, id: ReaderId, request: Request, key: Key, retry: bool, t: TransportId): (s': State)
    requires WellFormed(s) && t < |s.transports|
    ensures WellFormed(s') && s.authEpoch <= s'.authEpoch
  {
    s.(readers := s.readers[id := Reader(request, key, s.readRevision, retry, t)],
       transports := s.transports[t := s.transports[t].(subscribers := s.transports[t].subscribers + 1)])
  }

  /** `release`: the last subscriber to leave an unsettled transport aborts it. */
  function Detach(s: State, id: ReaderId): (s': State)
    requires WellFormed(s) && id in s.readers
    ensures WellFormed(s') && s.authEpoch <= s'.authEpoch
  {
    var t := s.readers[id].transport;
    var shared := s.transports[t];
    var left := if shared.subscribers == 0 then 0 else shared.subscribers - 1;
    var dead := shared.aborted || (left == 0 && !shared.phase.Settled?);
    s.(readers := s.readers - {id},
       transports := s.transports[t := shared.(subscribers := left, aborted := dead)])
  }

  /**
   The synchronous part of `readAtRevision`, up to its first suspension. A caller whose signal has already fired is
   turned away by `waitForSharedRead`, after the transport was looked up or created.
   */
  function Begin(s: State, id: ReaderId, request: Request, retry: bool, cancelled: bool, now: int): (s': State)
    requires WellFormed(s)
    ensures WellFormed(s') && s.authEpoch <= s'.authEpoch
  {
    var key := TakeKey(s, request);
    if request.ttl > 0 && key in s.cache && s.cache[key].cacheUntil >= now && StampIsCurrent(s, key.stamp) then
      Serve(s, id, request, s.cache[key].data, CacheHit)
    else if key in s.inFlight && !s.transports[s.inFlight[key]].aborted then
      if cancelled then s else Attach(s, id, request, key, retry, s.inFlight[key])
    else if cancelled then Create(s, key)
    else Attach(Create(s, key), id, request, key, retry, |s.transports|)
  }

  /** `invalidateRejectedAuthorization`. */
  function Reject(s: State, stamp: Stamp, status: nat): (s': State)
    requires WellFormed(s)
    ensures WellFormed(s') && s.authEpoch <= s'.authEpoch
  {
    if status == 403 && stamp.session != "" then Revoke(s, stamp.session)
    else if status == 401 then InvalidateAll(s)
    else s
  }

  /** The last part of the outer `catch`: rejected authorization, then the retained projection. */
  function Fail(s: State, id: ReaderId, r: Reader, failure: Failure, status: nat): (s': State)
    requires WellFormed(s)
    ensures WellFormed(s') && s.authEpoch <= s'.authEpoch
  {
    var s1 := if failure == Forbidden && StampIsCurrent(s, r.key.stamp)
              then Reject(s, r.key.stamp, if status == 0 then 403 else status) else s;
    var s2 := if failure == Forbidden then s1.(cache := s1.cache - {r.key}) else s1;
    if StampIsCurrent(s2, r.key.stamp) && r.key in s2.cache && failure in {Offline, ServerError, Timeout} then
      Serve(s2, id, r.request, s2.cache[r.key].data, StaleFallback)
    else s2
  }

  /** The outer `catch`: an error of a caller whose signal has fired is rethrown. */
  function Catch(s: State, id: ReaderId, r: Reader, failure: Failure, status: nat, cancelled: bool): (s': State)
    requires WellFormed(s)
    ensures WellFormed(s') && s.authEpoch <= s'.authEpoch
  {
    if cancelled then s else Fail(s, id, r, failure, status)
  }

  /**
   The continuation after `await waitForSharedRead`; the caller's signal may have fired since the promise resolved.
   */
  function Continue(s: State, id: ReaderId, r: Reader, outcome: Outcome, cancelled: bool, now: int): (s': State)
    requires WellFormed(s)
    ensures WellFormed(s') && s.authEpoch <= s'.authEpoch
  {
    match outcome
    case Value(data) =>
      if !StampIsCurrent(s, r.key.stamp) then Catch(s, id, r, Forbidden, 403, cancelled)
      else if !ReadRevisionIsCurrent(s, r) || !ScopesAreCurrent(s, r.key.revisions) then
        if r.retry then Begin(s, id, r.request, false, cancelled, now) else Catch(s, id, r, StaleRead, 0, cancelled)
      else
        var until := if r.request.ttl > 0 then now + r.request.ttl else 0;
        Serve(s.(cache := s.cache[r.key := Cached(data, r.request.session, r.request.scopes, until)]),
              id, r.request, data, Transported)
    case AbortedTransport =>
      // The three retry tests of the source differ only in the flag they share; without it the error is rethrown.
      if !cancelled && StampIsCurrent(s, r.key.stamp) && r.retry then Begin(s, id, r.request, false, false, now) else s
    case Failed(failure, status) => Catch(s, id, r, failure, status, cancelled)
  }

  datatype Step =
    | Read(id: ReaderId, request: Request, cancelled: bool, now: int)  // a caller enters `read`
    | Expire(transport: TransportId)                       // the deadline timer aborts a transport
    | Resolve(transport: TransportId, outcome: Outcome)    // fetch and parse finish, aborted or not
    | Settle(transport: TransportId)                       // the promise's `finally` callback
    | Resume(id: ReaderId, cancelled: bool, now: int)      // a subscriber's continuation
    | Cancel(id: ReaderId)                                 // the caller's own signal fires
    | Commit(scopes: seq<Scope>)                           // a write commits
    | Logout                                               // global authentication invalidation
    | RevokeSession(session: Session)

  function ExpireTransport(s: State, t: TransportId): (s': State)
    requires WellFormed(s) && t < |s.transports|
    ensures WellFormed(s') && s.authEpoch <= s'.authEpoch
  {
    s.(transports := s.transports[t := s.transports[t].(aborted := true)])
  }

  function ResolveTransport(s: State, t: TransportId, outcome: Outcome): (s': State)
    requires WellFormed(s) && t < |s.transports|
    ensures WellFormed(s') && s.authEpoch <= s'.authEpoch
  {
    var o := if outcome.Value? then Value(outcome.data.(origin := t)) else outcome;
    s.(transports := s.transports[t := s.transports[t].(phase := Resolved(o))])
  }

  function SettleTransport(s: State, t: TransportId): (s': State)
    requires WellFormed(s) && t < |s.transports| && s.transports[t].phase.Resolved?
    ensures WellFormed(s') && s.authEpoch <= s'.authEpoch
  {
    s.(transports := s.transports[t := s.transports[t].(phase := Settled(s.transports[t].phase.outcome, |s.log|))],
       inFlight := s.inFlight - (set k | k in s.inFlight && s.inFlight[k] == t),
       log := s.log + [Finished(t)])
  }

  /** One atomic turn; a step that is not enabled leaves the state alone. */
  function Next(s: State, step: Step): (s': State)
    requires WellFormed(s)
    ensures WellFormed(s') && s.authEpoch <= s'.authEpoch
  {
    match step
    case Read(id, request, cancelled, now) =>
      if id in s.readers then s else Begin(s, id, request, true, cancelled, now)
    case Expire(t) =>
      if t < |s.transports| then ExpireTransport(s, t) else s
    case Resolve(t, outcome) =>
      if t < |s.transports| && s.transports[t].phase.Pending? then ResolveTransport(s, t, outcome) else s
    case Settle(t) =>
      if t < |s.transports| && s.transports[t].phase.Resolved? then SettleTransport(s, t) else s
    case Resume(id, cancelled, now) =>
      if id in s.readers && s.transports[s.readers[id].transport].phase.Settled? then
        Continue(Detach(s, id), id, s.readers[id], s.transports[s.readers[id].transport].phase.outcome, cancelled, now)
      else s
    case Cancel(id) => if id in s.readers then Detach(s, id) else s
    case Commit(scopes) => InvalidateScopes(s, scopes)
    case Logout => InvalidateAll(s)
    case RevokeSession(session) => Revoke(s, session)
  }

  function Run(s: State, steps: seq<Step>): (s': State)
    requires WellFormed(s)
    ensures WellFormed(s') && s.authEpoch <= s'.authEpoch
    decreases |steps|
  {
    if steps == [] then s else Run(Next(s, steps[0]), steps[1..])
  }

  /** Some run leads from the one state to the other. */
  ghost predicate Leads(s: State, s': State)
    requires WellFormed(s)
  {
    exists steps :: Run(s, steps) == s'
  }

  ghost predicate Reachable(s: State)
    ensures Reachable(s) ==> WellFormed(s)
  {
    Leads(Init, s)
  }
}
