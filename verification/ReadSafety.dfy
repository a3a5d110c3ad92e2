/** The safety argument for the read protocol: an invariant of every turn, and the theorems over whole runs. */
module ReadSafety {
  import opened DataScopes
  import opened ReadCoherence

  // ----- What the log says -----

  /** The event invalidates some scope in `scopes`, or everything. */
  predicate Hits(e: Event, scopes: set<Scope>) {
    e.InvalidatedAll? || (e.InvalidatedScopes? && exists x :: x in e.scopes && x in scopes)
  }

  /** Nothing after index `start` has invalidated `scopes`. */
  ghost predicate Fresh(log: seq<Event>, start: nat, scopes: set<Scope>) {
    forall i :: start < i < |log| ==> !Hits(log[i], scopes)
  }

  /** No revocation after `start` concerns readers of `session`; an unscoped reader is concerned by every one. */
  ghost predicate Unrevoked(log: seq<Event>, start: nat, session: Session) {
    forall i :: start < i < |log| && log[i].Revoked? ==> session != "" && log[i].session != session
  }

  /**
   The fence for stored data: a revocation after the transport started is of another session, and for
   unscoped data it came after the transport had finished and names no session the data mentions.
   */
  ghost predicate Fenced(log: seq<Event>, t: Transport, session: Session, refs: set<Session>)
    requires t.phase.Settled?
  {
    forall i :: t.start < i < |log| && log[i].Revoked? ==>
      log[i].session != session && (session == "" ==> t.phase.at < i && log[i].session !in refs)
  }

  // ----- The invariant -----

  /** Every epoch and scope revision recorded in the key is the current one. */
  predicate KeyIsCurrent(s: State, k: Key) {
    StampIsCurrent(s, k.stamp) && ScopesAreCurrent(s, k.revisions)
  }

  ghost predicate TransportOk(s: State, t: TransportId)
    requires t < |s.transports|
  {
    var shared := s.transports[t];
    && shared.start < |s.log| && s.log[shared.start] == Started(t)
    && (shared.phase.Settled? ==> shared.start < shared.phase.at < |s.log| && s.log[shared.phase.at] == Finished(t))
    && (!shared.phase.Pending? && shared.phase.outcome.Value? ==> shared.phase.outcome.data.origin == t)
  }

  /** Each transport is logged as started and as finished at most once. */
  ghost predicate LogOk(s: State, i: nat)
    requires i < |s.log|
  {
    match s.log[i]
    case Started(t) => t < |s.transports| && s.transports[t].start == i
    case Finished(t) => t < |s.transports| && s.transports[t].phase.Settled? && s.transports[t].phase.at == i
    case Served(_, request, data, how) => ServedOk(s.log[..i], s.transports, request, data, how)
    case _ => true
  }

  ghost predicate ServedOk(log: seq<Event>, ts: seq<Transport>, request: Request, data: Data, how: How) {
    && data.origin < |ts| && ts[data.origin].phase.Settled? && ts[data.origin].phase.at < |log|
    && Fresh(log, ts[data.origin].start, request.scopes)
    && Fenced(log, ts[data.origin], request.session, data.refs)
    && (how == Transported ==> Unrevoked(log, ts[data.origin].start, request.session))
  }

  ghost predicate CacheOk(s: State, k: Key)
    requires k in s.cache
  {
    var c := s.cache[k];
    && c.session == k.stamp.session && c.scopes == k.revisions.Keys
    && KeyIsCurrent(s, k)
    && c.data.origin < |s.transports| && s.transports[c.data.origin].phase.Settled?
    && Fresh(s.log, s.transports[c.data.origin].start, c.scopes)
    && Fenced(s.log, s.transports[c.data.origin], c.session, c.data.refs)
  }

  ghost predicate FlightOk(s: State, k: Key)
    requires WellFormed(s) && k in s.inFlight
  {
    var t := s.transports[s.inFlight[k]];
    && t.stamp == k.stamp && t.scopes == k.revisions.Keys
    && KeyIsCurrent(s, k)
    && Fresh(s.log, t.start, t.scopes)
    && Unrevoked(s.log, t.start, t.stamp.session)
  }

  ghost predicate ReaderOk(s: State, r: Reader)
    requires r.transport < |s.transports|
  {
    var start := s.transports[r.transport].start;
    && r.key.stamp.session == r.request.session && r.key.revisions.Keys == r.request.scopes
    && r.key.stamp.globalEpoch <= s.authEpoch && r.readRevision <= s.readRevision
    && (r.key.stamp.globalEpoch == s.authEpoch ==>
          forall x <- r.key.revisions :: r.key.revisions[x] <= Count(s.scopeRevisions, x))
    && (r.key.stamp.globalEpoch == s.authEpoch && ScopesAreCurrent(s, r.key.revisions) ==>
          Fresh(s.log, start, r.request.scopes))
    && (r.readRevision == s.readRevision ==> Unrevoked(s.log, start, r.request.session))
  }

  ghost predicate Inv(s: State) {
    && WellFormed(s)
    && (forall t :: 0 <= t < |s.transports| ==> TransportOk(s, t))
    && (forall i :: 0 <= i < |s.log| ==> LogOk(s, i))
    && (forall k <- s.cache :: CacheOk(s, k))
    && (forall k <- s.inFlight :: FlightOk(s, k))
    && (forall id <- s.readers :: ReaderOk(s, s.readers[id]))
  }

  // ----- Frame lemmas -----

  /** Transports agree on everything the invariant looks at. */
  ghost predicate SameTransports(a: seq<Transport>, b: seq<Transport>) {
    && |a| <= |b|
    && forall t :: 0 <= t < |a| ==>
         a[t].start == b[t].start && a[t].stamp == b[t].stamp && a[t].scopes == b[t].scopes
         && (a[t].phase.Settled? ==> b[t].phase == a[t].phase)
  }

  lemma LogGrows(s: State, s': State)
    requires Inv(s) && WellFormed(s')
    requires s.log <= s'.log && SameTransports(s.transports, s'.transports)
    requires forall i :: |s.log| <= i < |s'.log| ==> LogOk(s', i)
    ensures forall i :: 0 <= i < |s'.log| ==> LogOk(s', i)
  {
    forall i | 0 <= i < |s.log| ensures LogOk(s', i) {
      assert LogOk(s, i);
      assert s'.log[..i] == s.log[..i];
      assert s'.log[i] == s.log[i];
    }
  }

  lemma TransportsKept(s: State, s': State)
    requires Inv(s) && s.log <= s'.log && |s'.transports| == |s.transports|
    requires forall t :: 0 <= t < |s.transports| ==>
               s'.transports[t].start == s.transports[t].start && s'.transports[t].phase == s.transports[t].phase
    ensures forall t :: 0 <= t < |s'.transports| ==> TransportOk(s', t)
  {
    forall t | 0 <= t < |s'.transports| ensures TransportOk(s', t) { assert TransportOk(s, t); }
  }

  lemma CacheKept(s: State, s': State, k: Key)
    requires Inv(s) && WellFormed(s') && s.log <= s'.log && SameTransports(s.transports, s'.transports)
    requires k in s.cache && k in s'.cache && s'.cache[k] == s.cache[k] && KeyIsCurrent(s', k)
    requires forall i :: |s.log| <= i < |s'.log| ==> !Hits(s'.log[i], s.cache[k].scopes)
    requires forall i :: |s.log| <= i < |s'.log| && s'.log[i].Revoked? ==>
               s'.log[i].session != s.cache[k].session && s'.log[i].session !in s.cache[k].data.refs
    ensures CacheOk(s', k)
  {
    var c := s.cache[k];
    assert CacheOk(s, k) && TransportOk(s, c.data.origin);
    assert forall i :: 0 <= i < |s.log| ==> s'.log[i] == s.log[i];
  }

  lemma FlightKept(s: State, s': State, k: Key)
    requires Inv(s) && WellFormed(s') && s.log <= s'.log && SameTransports(s.transports, s'.transports)
    requires k in s.inFlight && k in s'.inFlight && s'.inFlight[k] == s.inFlight[k] && KeyIsCurrent(s', k)
    requires forall i :: |s.log| <= i < |s'.log| ==> !Hits(s'.log[i], s.transports[s.inFlight[k]].scopes)
    requires forall i :: |s.log| <= i < |s'.log| && s'.log[i].Revoked? ==>
               k.stamp.session != "" && s'.log[i].session != k.stamp.session
    ensures FlightOk(s', k)
  {
    assert FlightOk(s, k);
    assert forall i :: 0 <= i < |s.log| ==> s'.log[i] == s.log[i];
  }

  /** Counters only grow, or the epoch moves on; an event that concerns the reader makes its stamp stale. */
  lemma ReaderKept(s: State, s': State, r: Reader)
    requires s.log <= s'.log && SameTransports(s.transports, s'.transports)
    requires r.transport < |s.transports| && ReaderOk(s, r)
    requires s.authEpoch <= s'.authEpoch && s.readRevision <= s'.readRevision
    requires s'.authEpoch == s.authEpoch ==> forall x :: Count(s.scopeRevisions, x) <= Count(s'.scopeRevisions, x)
    requires s'.readRevision == s.readRevision ==> forall i :: |s.log| <= i < |s'.log| ==> !s'.log[i].Revoked?
    requires s'.authEpoch == s.authEpoch
             && ScopesAreCurrent(s', r.key.revisions) && ScopesAreCurrent(s, r.key.revisions) ==>
               forall i :: |s.log| <= i < |s'.log| ==> !Hits(s'.log[i], r.request.scopes)
    ensures ReaderOk(s', r)
  {
    assert forall i :: 0 <= i < |s.log| ==> s'.log[i] == s.log[i];
    if r.key.stamp.globalEpoch == s'.authEpoch && ScopesAreCurrent(s', r.key.revisions) {
      forall x <- r.key.revisions ensures r.key.revisions[x] == Count(s.scopeRevisions, x) {
        assert r.key.revisions[x] == Count(s'.scopeRevisions, x);
      }
    }
  }

  // ----- Invalidations keep the invariant -----

  lemma InvalidateAllKeeps(s: State)
    requires Inv(s)
    ensures Inv(InvalidateAll(s))
  {
    var s' := InvalidateAll(s);
    LogGrows(s, s');
    TransportsKept(s, s');
    forall id <- s'.readers ensures ReaderOk(s', s'.readers[id]) { ReaderKept(s, s', s.readers[id]); }
  }

  /** The two dropping invalidations share this shape: tables shrink, transports keep their history. */
  ghost predicate Dropped(s: State, s': State) {
    && WellFormed(s) && WellFormed(s')
    && |s'.transports| == |s.transports| && SameTransports(s.transports, s'.transports)
    && (forall t :: 0 <= t < |s.transports| ==> s'.transports[t].phase == s.transports[t].phase)
    && s'.readers == s.readers && s'.authEpoch == s.authEpoch && |s'.log| == |s.log| + 1 && s.log <= s'.log
    && (forall k <- s'.cache :: k in s.cache && s'.cache[k] == s.cache[k])
    && (forall k <- s'.inFlight :: k in s.inFlight && s'.inFlight[k] == s.inFlight[k])
  }

  ghost predicate RevokedTo(s: State, name: Session, s': State) {
    && Dropped(s, s') && s'.log[|s.log|] == Revoked(name)
    && s'.sessionEpochs == s.sessionEpochs[name := Count(s.sessionEpochs, name) + 1]
    && s'.readRevision == s.readRevision + 1 && s'.scopeRevisions == s.scopeRevisions
    && (forall k <- s'.cache :: s.cache[k].session != name && name !in s.cache[k].data.refs)
    && (forall k <- s'.inFlight :: s.transports[s.inFlight[k]].stamp.session !in {"", name})
  }

  lemma RevokeEffect(s: State, session: Session)
    requires WellFormed(s) && Trim(session) != ""
    ensures RevokedTo(s, Trim(session), Revoke(s, session))
  {
  }

  lemma RevokedToKeepsKey(s: State, name: Session, s': State, k: Key)
    requires RevokedTo(s, name, s') && KeyIsCurrent(s, k) && k.stamp.session != name
    ensures KeyIsCurrent(s', k)
  {
  }

  lemma RevokedToKeepsCache(s: State, name: Session, s': State, k: Key)
    requires Inv(s) && RevokedTo(s, name, s') && k in s'.cache
    ensures CacheOk(s', k)
  {
    assert CacheOk(s, k);
    RevokedToKeepsKey(s, name, s', k);
    CacheKept(s, s', k);
  }

  lemma RevokedToKeepsFlight(s: State, name: Session, s': State, k: Key)
    requires Inv(s) && RevokedTo(s, name, s') && k in s'.inFlight
    ensures FlightOk(s', k)
  {
    assert FlightOk(s, k);
    FlightKept(s, s', k);
  }

  lemma RevokedToKeeps(s: State, name: Session, s': State)
    requires Inv(s) && RevokedTo(s, name, s')
    ensures Inv(s')
  {
    LogGrows(s, s');
    TransportsKept(s, s');
    forall k <- s'.cache ensures CacheOk(s', k) { RevokedToKeepsCache(s, name, s', k); }
    forall k <- s'.inFlight ensures FlightOk(s', k) { RevokedToKeepsFlight(s, name, s', k); }
    forall id <- s'.readers ensures ReaderOk(s', s'.readers[id]) { ReaderKept(s, s', s.readers[id]); }
  }

  lemma RevokeKeeps(s: State, session: Session)
    requires Inv(s)
    ensures Inv(Revoke(s, session))
  {
    if Trim(session) == "" {
      InvalidateAllKeeps(s);
    } else {
      RevokeEffect(s, session);
      RevokedToKeeps(s, Trim(session), Revoke(s, session));
    }
  }

  ghost predicate ScopesInvalidatedTo(s: State, scopes: seq<Scope>, s': State) {
    && Dropped(s, s') && s'.log[|s.log|] == InvalidatedScopes(scopes)
    && s'.sessionEpochs == s.sessionEpochs && s'.readRevision == s.readRevision
    && s'.scopeRevisions == Bump(s.scopeRevisions, scopes)
    && (forall k <- s'.cache :: !AnyScopeMatches(scopes, s.cache[k].scopes))
    && (forall k <- s'.inFlight :: !AnyScopeMatches(scopes, s.transports[s.inFlight[k]].scopes))
  }

  lemma InvalidateScopesEffect(s: State, scopes: seq<Scope>)
    requires WellFormed(s) && scopes != []
    ensures ScopesInvalidatedTo(s, scopes, InvalidateScopes(s, scopes))
  {
  }

  lemma ScopesInvalidatedToKeepsCache(s: State, scopes: seq<Scope>, s': State, k: Key)
    requires Inv(s) && ScopesInvalidatedTo(s, scopes, s') && k in s'.cache
    ensures CacheOk(s', k)
  {
    assert CacheOk(s, k);
    Untouched(s, scopes, s.cache[k].scopes);
    CacheKept(s, s', k);
  }

  lemma ScopesInvalidatedToKeepsFlight(s: State, scopes: seq<Scope>, s': State, k: Key)
    requires Inv(s) && ScopesInvalidatedTo(s, scopes, s') && k in s'.inFlight
    ensures FlightOk(s', k)
  {
    assert FlightOk(s, k);
    Untouched(s, scopes, s.transports[s.inFlight[k]].scopes);
    FlightKept(s, s', k);
  }

  /** A listed scope's revision moves past what any reader of this epoch recorded for it. */
  lemma ScopesInvalidatedToKeepsReader(s: State, scopes: seq<Scope>, s': State, r: Reader)
    requires Inv(s) && ScopesInvalidatedTo(s, scopes, s') && r.transport < |s.transports| && ReaderOk(s, r)
    ensures ReaderOk(s', r)
  {
    BumpRaisesTheListed(s.scopeRevisions, scopes);
    ReaderKept(s, s', r);
  }

  lemma ScopesInvalidatedToKeeps(s: State, scopes: seq<Scope>, s': State)
    requires Inv(s) && ScopesInvalidatedTo(s, scopes, s')
    ensures Inv(s')
  {
    LogGrows(s, s');
    TransportsKept(s, s');
    forall k <- s'.cache ensures CacheOk(s', k) { ScopesInvalidatedToKeepsCache(s, scopes, s', k); }
    forall k <- s'.inFlight ensures FlightOk(s', k) { ScopesInvalidatedToKeepsFlight(s, scopes, s', k); }
    forall id <- s'.readers ensures ReaderOk(s', s'.readers[id]) {
      ScopesInvalidatedToKeepsReader(s, scopes, s', s.readers[id]);
    }
  }

  lemma InvalidateScopesKeeps(s: State, scopes: seq<Scope>)
    requires Inv(s)
    ensures Inv(InvalidateScopes(s, scopes))
  {
    if scopes != [] {
      InvalidateScopesEffect(s, scopes);
      ScopesInvalidatedToKeeps(s, scopes, InvalidateScopes(s, scopes));
    }
  }

  /**
   Scopes that match none of the candidates are not among them, and their bump leaves the candidates' revisions alone.
   */
  lemma Untouched(s: State, scopes: seq<Scope>, candidates: set<Scope>)
    requires !AnyScopeMatches(scopes, candidates)
    ensures forall x | x in scopes :: x !in candidates
    ensures forall x | x in candidates :: Count(Bump(s.scopeRevisions, scopes), x) == Count(s.scopeRevisions, x)
  {
    BumpRaisesTheListed(s.scopeRevisions, scopes);
    forall x | x in scopes ensures x !in candidates {
      var i :| 0 <= i < |scopes| && scopes[i] == x;
      if x in candidates { assert DataScopeMatches(scopes[i], x); }
    }
  }

  // ----- Quiet turns: no counter moves and no invalidation is logged -----

  ghost predicate Quiet(s: State, s': State) {
    && WellFormed(s) && WellFormed(s') && SameTransports(s.transports, s'.transports)
    && s'.authEpoch == s.authEpoch && s'.sessionEpochs == s.sessionEpochs
    && s'.readRevision == s.readRevision && s'.scopeRevisions == s.scopeRevisions
    && s.log <= s'.log
    && forall i :: |s.log| <= i < |s'.log| ==> s'.log[i].Started? || s'.log[i].Finished? || s'.log[i].Served?
  }

  lemma QuietCache(s: State, s': State, k: Key)
    requires Inv(s) && Quiet(s, s') && k in s.cache && k in s'.cache && s'.cache[k] == s.cache[k]
    ensures CacheOk(s', k)
  {
    assert CacheOk(s, k);
    CacheKept(s, s', k);
  }

  lemma QuietFlight(s: State, s': State, k: Key)
    requires Inv(s) && Quiet(s, s') && k in s.inFlight && k in s'.inFlight && s'.inFlight[k] == s.inFlight[k]
    ensures FlightOk(s', k)
  {
    assert FlightOk(s, k);
    FlightKept(s, s', k);
  }

  lemma QuietKeeps(s: State, s': State)
    requires Inv(s) && Quiet(s, s')
    requires forall t :: 0 <= t < |s'.transports| ==> TransportOk(s', t)
    requires forall i :: |s.log| <= i < |s'.log| ==> LogOk(s', i)
    requires forall k <- s'.cache :: (k in s.cache && s'.cache[k] == s.cache[k]) || CacheOk(s', k)
    requires forall k <- s'.inFlight :: (k in s.inFlight && s'.inFlight[k] == s.inFlight[k]) || FlightOk(s', k)
    requires forall id <- s'.readers ::
               (id in s.readers && s'.readers[id] == s.readers[id]) || ReaderOk(s', s'.readers[id])
    ensures Inv(s')
  {
    LogGrows(s, s');
    forall k <- s'.cache ensures CacheOk(s', k) {
      if k in s.cache && s'.cache[k] == s.cache[k] { QuietCache(s, s', k); }
    }
    forall k <- s'.inFlight ensures FlightOk(s', k) {
      if k in s.inFlight && s'.inFlight[k] == s.inFlight[k] { QuietFlight(s, s', k); }
    }
    forall id <- s'.readers ensures ReaderOk(s', s'.readers[id]) {
      if id in s.readers && s'.readers[id] == s.readers[id] { ReaderKept(s, s', s.readers[id]); }
    }
  }

  lemma CreateKeeps(s: State, request: Request)
    requires Inv(s)
    ensures Inv(Create(s, TakeKey(s, request)))
  {
    var key := TakeKey(s, request);
    var s' := Create(s, key);
    forall t | 0 <= t < |s'.transports| ensures TransportOk(s', t) {
      if t < |s.transports| { assert TransportOk(s, t); }
    }
    assert FlightOk(s', key);
    QuietKeeps(s, s');
  }

  /** Changing who listens, or the abort flag, concerns no clause of the invariant. */
  lemma ListenersKeep(s: State, s': State)
    requires Inv(s) && WellFormed(s')
    requires s' == s.(transports := s'.transports, readers := s'.readers)
    requires |s'.transports| == |s.transports| && SameTransports(s.transports, s'.transports)
    requires forall t :: 0 <= t < |s.transports| ==> s'.transports[t].phase == s.transports[t].phase
    requires forall id <- s'.readers :: ReaderOk(s', s'.readers[id])
    ensures Inv(s')
  {
    TransportsKept(s, s');
    QuietKeeps(s, s');
  }

  /** A reader that joins a registered transport finds its key current and the transport fresh. */
  lemma NewReaderOk(s: State, request: Request, key: Key, retry: bool)
    requires Inv(s) && key == TakeKey(s, request) && key in s.inFlight
    ensures ReaderOk(s, Reader(request, key, s.readRevision, retry, s.inFlight[key]))
  {
    assert FlightOk(s, key);
  }

  lemma AttachKeepsReaders(s: State, id: ReaderId, request: Request, key: Key, retry: bool, r: ReaderId)
    requires Inv(s) && key == TakeKey(s, request) && key in s.inFlight
    requires r in Attach(s, id, request, key, retry, s.inFlight[key]).readers
    ensures var s' := Attach(s, id, request, key, retry, s.inFlight[key]); ReaderOk(s', s'.readers[r])
  {
    var s' := Attach(s, id, request, key, retry, s.inFlight[key]);
    NewReaderOk(s, request, key, retry);
    ReaderKept(s, s', s'.readers[r]);
  }

  lemma AttachKeeps(s: State, id: ReaderId, request: Request, key: Key, retry: bool)
    requires Inv(s) && key == TakeKey(s, request) && key in s.inFlight
    ensures Inv(Attach(s, id, request, key, retry, s.inFlight[key]))
  {
    var s' := Attach(s, id, request, key, retry, s.inFlight[key]);
    forall r <- s'.readers ensures ReaderOk(s', s'.readers[r]) {
      AttachKeepsReaders(s, id, request, key, retry, r);
    }
    ListenersKeep(s, s');
  }

  lemma ServeKeeps(s: State, id: ReaderId, request: Request, data: Data, how: How)
    requires Inv(s) && ServedOk(s.log, s.transports, request, data, how)
    ensures Inv(Serve(s, id, request, data, how))
  {
    var s' := Serve(s, id, request, data, how);
    assert s'.log[..|s.log|] == s.log;
    TransportsKept(s, s');
    QuietKeeps(s, s');
  }

  /** A stored entry may be served to any request with the entry's session and scopes. */
  lemma CachedMayBeServed(s: State, k: Key, request: Request, how: How)
    requires Inv(s) && k in s.cache && how != Transported
    requires request.session == k.stamp.session && request.scopes == k.revisions.Keys
    ensures ServedOk(s.log, s.transports, request, s.cache[k].data, how)
  {
    assert CacheOk(s, k) && TransportOk(s, s.cache[k].data.origin);
  }

  lemma OpenKeeps(s: State, id: ReaderId, request: Request, retry: bool)
    requires Inv(s)
    ensures Inv(Attach(Create(s, TakeKey(s, request)), id, request, TakeKey(s, request), retry, |s.transports|))
  {
    var key := TakeKey(s, request);
    CreateKeeps(s, request);
    AttachKeeps(Create(s, key), id, request, key, retry);
  }

  lemma BeginKeeps(s: State, id: ReaderId, request: Request, retry: bool, cancelled: bool, now: int)
    requires Inv(s)
    ensures Inv(Begin(s, id, request, retry, cancelled, now))
  {
    var key := TakeKey(s, request);
    if request.ttl > 0 && key in s.cache && s.cache[key].cacheUntil >= now && StampIsCurrent(s, key.stamp) {
      CachedMayBeServed(s, key, request, CacheHit);
      ServeKeeps(s, id, request, s.cache[key].data, CacheHit);
    } else if key in s.inFlight && !s.transports[s.inFlight[key]].aborted {
      if !cancelled { AttachKeeps(s, id, request, key, retry); }
    } else if cancelled {
      CreateKeeps(s, request);
    } else {
      OpenKeeps(s, id, request, retry);
    }
  }

  lemma CacheChangeKeeps(s: State, cache: map<Key, Cached>)
    requires Inv(s)
    requires forall k <- cache :: (k in s.cache && cache[k] == s.cache[k]) || CacheOk(s.(cache := cache), k)
    ensures Inv(s.(cache := cache))
  {
    TransportsKept(s, s.(cache := cache));
    QuietKeeps(s, s.(cache := cache));
  }

  lemma RejectKeeps(s: State, stamp: Stamp, status: nat)
    requires Inv(s)
    ensures Inv(Reject(s, stamp, status))
  {
    if status == 403 && stamp.session != "" { RevokeKeeps(s, stamp.session); }
    else if status == 401 { InvalidateAllKeeps(s); }
  }

  lemma FailKeeps(s: State, id: ReaderId, r: Reader, failure: Failure, status: nat)
    requires Inv(s) && r.key.stamp.session == r.request.session && r.key.revisions.Keys == r.request.scopes
    ensures Inv(Fail(s, id, r, failure, status))
  {
    var s1 := s;
    if failure == Forbidden {
      if StampIsCurrent(s, r.key.stamp) {
        RejectKeeps(s, r.key.stamp, if status == 0 then 403 else status);
        s1 := Reject(s, r.key.stamp, if status == 0 then 403 else status);
      }
      CacheChangeKeeps(s1, s1.cache - {r.key});
    } else if r.key in s.cache {
      CachedMayBeServed(s, r.key, r.request, StaleFallback);
      ServeKeeps(s, id, r.request, s.cache[r.key].data, StaleFallback);
    }
  }

  /** What a reader knows when all three currency tests pass: its transport is fresh and unrevoked. */
  lemma DeliverKeeps(s: State, id: ReaderId, r: Reader, data: Data, until: int)
    requires Inv(s) && r.transport < |s.transports| && ReaderOk(s, r)
    requires data.origin == r.transport && s.transports[r.transport].phase.Settled?
    requires StampIsCurrent(s, r.key.stamp) && ReadRevisionIsCurrent(s, r) && ScopesAreCurrent(s, r.key.revisions)
    ensures Inv(Serve(s.(cache := s.cache[r.key := Cached(data, r.request.session, r.request.scopes, until)]),
                      id, r.request, data, Transported))
  {
    assert TransportOk(s, r.transport);
    var cache := s.cache[r.key := Cached(data, r.request.session, r.request.scopes, until)];
    var s1 := s.(cache := cache);
    assert CacheOk(s1, r.key);
    CacheChangeKeeps(s, cache);
    ServeKeeps(s1, id, r.request, data, Transported);
  }

  lemma CatchKeeps(s: State, id: ReaderId, r: Reader, failure: Failure, status: nat, cancelled: bool)
    requires Inv(s) && r.key.stamp.session == r.request.session && r.key.revisions.Keys == r.request.scopes
    ensures Inv(Catch(s, id, r, failure, status, cancelled))
  {
    if !cancelled { FailKeeps(s, id, r, failure, status); }
  }

  lemma ValueKeeps(s: State, id: ReaderId, r: Reader, data: Data, cancelled: bool, now: int)
    requires Inv(s) && r.transport < |s.transports| && ReaderOk(s, r)
    requires s.transports[r.transport].phase.Settled? && s.transports[r.transport].phase.outcome == Value(data)
    ensures Inv(Continue(s, id, r, Value(data), cancelled, now))
  {
    if !StampIsCurrent(s, r.key.stamp) {
      CatchKeeps(s, id, r, Forbidden, 403, cancelled);
    } else if !ReadRevisionIsCurrent(s, r) || !ScopesAreCurrent(s, r.key.revisions) {
      if r.retry { BeginKeeps(s, id, r.request, false, cancelled, now); }
      else { CatchKeeps(s, id, r, StaleRead, 0, cancelled); }
    } else {
      assert TransportOk(s, r.transport);
      DeliverKeeps(s, id, r, data, if r.request.ttl > 0 then now + r.request.ttl else 0);
    }
  }

  lemma AbortedKeeps(s: State, id: ReaderId, r: Reader, cancelled: bool, now: int)
    requires Inv(s)
    ensures Inv(Continue(s, id, r, AbortedTransport, cancelled, now))
  {
    if !cancelled && StampIsCurrent(s, r.key.stamp) && r.retry { BeginKeeps(s, id, r.request, false, false, now); }
  }

  lemma ContinueKeeps(s: State, id: ReaderId, r: Reader, outcome: Outcome, cancelled: bool, now: int)
    requires Inv(s) && r.transport < |s.transports| && ReaderOk(s, r)
    requires s.transports[r.transport].phase.Settled? && s.transports[r.transport].phase.outcome == outcome
    ensures Inv(Continue(s, id, r, outcome, cancelled, now))
  {
    match outcome
    case Value(data) => ValueKeeps(s, id, r, data, cancelled, now);
    case AbortedTransport => AbortedKeeps(s, id, r, cancelled, now);
    case Failed(failure, status) => CatchKeeps(s, id, r, failure, status, cancelled);
  }

  lemma DetachKeeps(s: State, id: ReaderId)
    requires Inv(s) && id in s.readers
    ensures Inv(Detach(s, id)) && ReaderOk(Detach(s, id), s.readers[id])
  {
    var s' := Detach(s, id);
    forall r <- s.readers ensures ReaderOk(s', s.readers[r]) { ReaderKept(s, s', s.readers[r]); }
    ListenersKeep(s, s');
  }

  lemma ExpireKeeps(s: State, t: TransportId)
    requires Inv(s) && t < |s.transports|
    ensures Inv(ExpireTransport(s, t))
  {
    var s' := ExpireTransport(s, t);
    TransportsKept(s, s');
    QuietKeeps(s, s');
  }

  lemma ResolveKeeps(s: State, t: TransportId, outcome: Outcome)
    requires Inv(s) && t < |s.transports| && s.transports[t].phase.Pending?
    ensures Inv(ResolveTransport(s, t, outcome))
  {
    var s' := ResolveTransport(s, t, outcome);
    forall u | 0 <= u < |s'.transports| ensures TransportOk(s', u) { assert TransportOk(s, u); }
    QuietKeeps(s, s');
  }

  lemma SettleKeepsTransport(s: State, t: TransportId, u: TransportId)
    requires Inv(s) && t < |s.transports| && s.transports[t].phase.Resolved? && u < |s.transports|
    ensures TransportOk(SettleTransport(s, t), u)
  {
    assert TransportOk(s, u);
  }

  lemma SettleKeeps(s: State, t: TransportId)
    requires Inv(s) && t < |s.transports| && s.transports[t].phase.Resolved?
    ensures Inv(SettleTransport(s, t))
  {
    var s' := SettleTransport(s, t);
    forall u | 0 <= u < |s'.transports| ensures TransportOk(s', u) { SettleKeepsTransport(s, t, u); }
    QuietKeeps(s, s');
  }

  lemma ReadKeeps(s: State, id: ReaderId, request: Request, cancelled: bool, now: int)
    requires Inv(s)
    ensures Inv(Next(s, Read(id, request, cancelled, now)))
  {
    if id !in s.readers { BeginKeeps(s, id, request, true, cancelled, now); }
  }

  lemma ResumeKeeps(s: State, id: ReaderId, cancelled: bool, now: int)
    requires Inv(s)
    ensures Inv(Next(s, Resume(id, cancelled, now)))
  {
    if id in s.readers && s.transports[s.readers[id].transport].phase.Settled? {
      DetachKeeps(s, id);
      ContinueKeeps(Detach(s, id), id, s.readers[id], s.transports[s.readers[id].transport].phase.outcome,
                    cancelled, now);
    }
  }

  lemma TransportTurnKeeps(s: State, step: Step)
    requires Inv(s) && (step.Expire? || step.Resolve? || step.Settle?)
    ensures Inv(Next(s, step))
  {
    match step
    case Expire(t) => if t < |s.transports| { ExpireKeeps(s, t); }
    case Resolve(t, outcome) => if t < |s.transports| && s.transports[t].phase.Pending? { ResolveKeeps(s, t, outcome); }
    case Settle(t) => if t < |s.transports| && s.transports[t].phase.Resolved? { SettleKeeps(s, t); }
  }

  lemma CancelKeeps(s: State, id: ReaderId)
    requires Inv(s)
    ensures Inv(Next(s, Cancel(id)))
  {
    if id in s.readers { DetachKeeps(s, id); }
  }

  lemma NextKeeps(s: State, step: Step)
    requires Inv(s)
    ensures Inv(Next(s, step))
  {
    match step
    case Read(id, request, cancelled, now) => ReadKeeps(s, id, request, cancelled, now);
    case Resume(id, cancelled, now) => ResumeKeeps(s, id, cancelled, now);
    case Cancel(id) => CancelKeeps(s, id);
    case Expire(_) => TransportTurnKeeps(s, step);
    case Resolve(_, _) => TransportTurnKeeps(s, step);
    case Settle(_) => TransportTurnKeeps(s, step);
    case Commit(scopes) => InvalidateScopesKeeps(s, scopes);
    case Logout => InvalidateAllKeeps(s);
    case RevokeSession(session) => RevokeKeeps(s, session);
  }

  lemma {:induction false} RunKeeps(s: State, steps: seq<Step>)
    requires Inv(s)
    ensures Inv(Run(s, steps))
    decreases |steps|
  {
    if steps != [] {
      NextKeeps(s, steps[0]);
      RunKeeps(Next(s, steps[0]), steps[1..]);
    }
  }
}
