/**
 What reads get (surfaces/webui/src/api/client.ts, `readAtRevision`): when a stored result is served, when a transport
 is shared, what a completed or failed transport leads to, and what each invalidation drops. The safety statements would
 hold of a client that never answers.
 */
module ReadProgress {
  import opened DataScopes
  import opened ReadCoherence
  import opened ReadSafety
  import opened ReadTheorems

  // ----- Where a read starts -----

  /** A stored result is fresh enough to be served without asking. */
  predicate Stored(s: State, request: Request, now: int) {
    var k := TakeKey(s, request);
    request.ttl > 0 && k in s.cache && now <= s.cache[k].cacheUntil
  }

  /** A transport is under way for the same key, and nobody has given it up. */
  predicate UnderWay(s: State, request: Request)
    requires WellFormed(s)
  {
    var k := TakeKey(s, request);
    k in s.inFlight && !s.transports[s.inFlight[k]].aborted
  }

  lemma TakenStampIsCurrent(s: State, request: Request)
    ensures StampIsCurrent(s, TakeKey(s, request).stamp)
  {
  }

  lemma FreshResultsAreServed(s: State, id: ReaderId, request: Request, cancelled: bool, now: int)
    requires WellFormed(s) && id !in s.readers && Stored(s, request, now)
    ensures Next(s, Read(id, request, cancelled, now))
         == s.(log := s.log + [Served(id, request, s.cache[TakeKey(s, request)].data, CacheHit)])
  {
    TakenStampIsCurrent(s, request);
  }

  /** The read waits on transport `t` of the new state, unless its caller has given up. */
  predicate WaitsOn(s: State, s': State, id: ReaderId, request: Request, t: TransportId, cancelled: bool) {
    && (id in s'.readers <==> !cancelled)
    && (!cancelled ==> s'.readers[id] == Reader(request, TakeKey(s, request), s.readRevision, true, t))
  }

  lemma ReadsJoin(s: State, id: ReaderId, request: Request, cancelled: bool, now: int)
    requires WellFormed(s) && id !in s.readers && !Stored(s, request, now) && UnderWay(s, request)
    ensures var s' := Next(s, Read(id, request, cancelled, now));
            && s'.log == s.log && |s'.transports| == |s.transports| && s'.cache == s.cache && s'.inFlight == s.inFlight
            && WaitsOn(s, s', id, request, s.inFlight[TakeKey(s, request)], cancelled)
  {
    TakenStampIsCurrent(s, request);
  }

  lemma ReadsStart(s: State, id: ReaderId, request: Request, cancelled: bool, now: int)
    requires WellFormed(s) && id !in s.readers && !Stored(s, request, now) && !UnderWay(s, request)
    ensures var s', t := Next(s, Read(id, request, cancelled, now)), |s.transports|;
            && s'.log == s.log + [Started(t)] && |s'.transports| == t + 1 && s'.cache == s.cache
            && s'.inFlight == s.inFlight[TakeKey(s, request) := t]
            && WaitsOn(s, s', id, request, t, cancelled)
  {
    TakenStampIsCurrent(s, request);
  }

  /**
   A read is served from the store exactly when there is a fresh result. Otherwise it starts a transport exactly when
   none is under way, and waits on the one there is then, unless its caller has already given up.
   */
  lemma ReadStartsIff(s: State, id: ReaderId, request: Request, cancelled: bool, now: int)
    requires WellFormed(s) && id !in s.readers
    ensures var s', k := Next(s, Read(id, request, cancelled, now)), TakeKey(s, request);
            if Stored(s, request, now) then
              s'.log == s.log + [Served(id, request, s.cache[k].data, CacheHit)] && s'.inFlight == s.inFlight
            else
              && s'.log == (if UnderWay(s, request) then s.log else s.log + [Started(|s.transports|)])
              && k in s'.inFlight && WaitsOn(s, s', id, request, s'.inFlight[k], cancelled)
              && s'.inFlight[k] == (if UnderWay(s, request) then s.inFlight[k] else |s.transports|)
  {
    if Stored(s, request, now) { FreshResultsAreServed(s, id, request, cancelled, now); }
    else if UnderWay(s, request) { ReadsJoin(s, id, request, cancelled, now); }
    else { ReadsStart(s, id, request, cancelled, now); }
  }

  // ----- What a settled transport leads to -----

  /** What the store keeps of an answer. */
  function Kept(request: Request, data: Data, now: int): Cached {
    Cached(data, request.session, request.scopes, if request.ttl > 0 then now + request.ttl else 0)
  }

  /** The reader of a settled transport, about to go on. */
  predicate GoesOn(s: State, id: ReaderId, outcome: Outcome)
    requires WellFormed(s)
  {
    id in s.readers && s.transports[s.readers[id].transport].phase.Settled?
    && s.transports[s.readers[id].transport].phase.outcome == outcome
  }

  /** Nothing the reader depends on has been invalidated since it asked. */
  predicate UpToDate(s: State, r: Reader) {
    StampIsCurrent(s, r.key.stamp) && ReadRevisionIsCurrent(s, r) && ScopesAreCurrent(s, r.key.revisions)
  }

  /** No event from index `n` on hands a transport's answer to anybody. */
  predicate NothingDelivered(log: seq<Event>, n: nat) {
    forall j :: n <= j < |log| && log[j].Served? ==> log[j].how != Transported
  }

  lemma OneEventMore(log: seq<Event>, e: Event)
    requires e.Served? ==> e.how != Transported
    ensures NothingDelivered(log + [e], |log|)
  {
  }

  lemma BeginServes(s: State, id: ReaderId, request: Request, retry: bool, cancelled: bool, now: int)
    requires WellFormed(s) && Stored(s, request, now)
    ensures Begin(s, id, request, retry, cancelled, now).log
         == s.log + [Served(id, request, s.cache[TakeKey(s, request)].data, CacheHit)]
  {
    TakenStampIsCurrent(s, request);
  }

  lemma BeginJoins(s: State, id: ReaderId, request: Request, retry: bool, cancelled: bool, now: int)
    requires WellFormed(s) && !Stored(s, request, now) && UnderWay(s, request)
    ensures Begin(s, id, request, retry, cancelled, now).log == s.log
  {
    TakenStampIsCurrent(s, request);
  }

  lemma BeginStarts(s: State, id: ReaderId, request: Request, retry: bool, cancelled: bool, now: int)
    requires WellFormed(s) && !Stored(s, request, now) && !UnderWay(s, request)
    ensures Begin(s, id, request, retry, cancelled, now).log == s.log + [Started(|s.transports|)]
  {
    TakenStampIsCurrent(s, request);
  }

  lemma BeginDeliversNothing(s: State, id: ReaderId, request: Request, retry: bool, cancelled: bool, now: int)
    requires WellFormed(s)
    ensures NothingDelivered(Begin(s, id, request, retry, cancelled, now).log, |s.log|)
  {
    if Stored(s, request, now) {
      BeginServes(s, id, request, retry, cancelled, now);
      OneEventMore(s.log, Served(id, request, s.cache[TakeKey(s, request)].data, CacheHit));
    } else if UnderWay(s, request) {
      BeginJoins(s, id, request, retry, cancelled, now);
    } else {
      BeginStarts(s, id, request, retry, cancelled, now);
      OneEventMore(s.log, Started(|s.transports|));
    }
  }

  lemma RejectDeliversNothing(s: State, stamp: Stamp, status: nat)
    requires WellFormed(s)
    ensures NothingDelivered(Reject(s, stamp, status).log, |s.log|) && |s.log| <= |Reject(s, stamp, status).log|
  {
  }

  lemma FailDeliversNothing(s: State, id: ReaderId, r: Reader, failure: Failure, status: nat)
    requires WellFormed(s)
    ensures NothingDelivered(Fail(s, id, r, failure, status).log, |s.log|)
  {
    RejectDeliversNothing(s, r.key.stamp, if status == 0 then 403 else status);
  }

  lemma StaleValuesAreNotDelivered(s: State, id: ReaderId, r: Reader, data: Data, cancelled: bool, now: int)
    requires WellFormed(s) && !UpToDate(s, r)
    ensures NothingDelivered(Continue(s, id, r, Value(data), cancelled, now).log, |s.log|)
  {
    if !StampIsCurrent(s, r.key.stamp) { FailDeliversNothing(s, id, r, Forbidden, 403); }
    else if r.retry { BeginDeliversNothing(s, id, r.request, false, cancelled, now); }
    else { FailDeliversNothing(s, id, r, StaleRead, 0); }
  }

  lemma CurrentValuesAreDelivered(s: State, id: ReaderId, r: Reader, data: Data, cancelled: bool, now: int)
    requires WellFormed(s) && UpToDate(s, r)
    ensures var s' := Continue(s, id, r, Value(data), cancelled, now);
            && s'.log == s.log + [Served(id, r.request, data, Transported)]
            && s'.cache == s.cache[r.key := Kept(r.request, data, now)]
  {
  }

  lemma GoingOn(s: State, id: ReaderId, outcome: Outcome, cancelled: bool, now: int)
    requires WellFormed(s) && GoesOn(s, id, outcome)
    ensures Next(s, Resume(id, cancelled, now)) == Continue(Detach(s, id), id, s.readers[id], outcome, cancelled, now)
    ensures Detach(s, id).log == s.log && Detach(s, id).cache == s.cache
    ensures UpToDate(Detach(s, id), s.readers[id]) <==> UpToDate(s, s.readers[id])
    ensures StampIsCurrent(Detach(s, id), s.readers[id].key.stamp) <==> StampIsCurrent(s, s.readers[id].key.stamp)
  {
  }

  /** A value is handed on exactly while nothing has been invalidated, signal or not, and is stored then. */
  lemma ValuesAreDeliveredIff(s: State, id: ReaderId, data: Data, cancelled: bool, now: int)
    requires WellFormed(s) && GoesOn(s, id, Value(data))
    ensures var s', r := Next(s, Resume(id, cancelled, now)), s.readers[id];
            if UpToDate(s, r) then
              && s'.log == s.log + [Served(id, r.request, data, Transported)]
              && s'.cache == s.cache[r.key := Kept(r.request, data, now)]
            else NothingDelivered(s'.log, |s.log|)
  {
    GoingOn(s, id, Value(data), cancelled, now);
    if UpToDate(s, s.readers[id]) {
      CurrentValuesAreDelivered(Detach(s, id), id, s.readers[id], data, cancelled, now);
    } else {
      StaleValuesAreNotDelivered(Detach(s, id), id, s.readers[id], data, cancelled, now);
    }
  }

  /** A value that came too late makes the reader ask once more, if its stamp is current and it has not done so yet. */
  lemma StaleValuesAreAskedForAgainIff(s: State, id: ReaderId, data: Data, cancelled: bool, now: int)
    requires WellFormed(s) && GoesOn(s, id, Value(data)) && !UpToDate(s, s.readers[id])
    requires StampIsCurrent(s, s.readers[id].key.stamp)
    ensures var r := s.readers[id];
            Next(s, Resume(id, cancelled, now))
            == if r.retry then Begin(Detach(s, id), id, r.request, false, cancelled, now) else Detach(s, id)
  {
    GoingOn(s, id, Value(data), cancelled, now);
  }

  /** The failures that fall back on what was read before. */
  const FALLBACKS := {Offline, ServerError, Timeout}

  /**
   A failed transport serves what is stored exactly if the server could not be reached, was too late or failed, the
   stamp is current, something is stored, and the caller has not given up.
   */
  lemma FailuresFallBackIff(s: State, id: ReaderId, failure: Failure, status: nat, cancelled: bool, now: int)
    requires WellFormed(s) && GoesOn(s, id, Failed(failure, status)) && failure != Forbidden
    ensures var s', r := Next(s, Resume(id, cancelled, now)), s.readers[id];
            s'.cache == s.cache &&
            s'.log == if !cancelled && failure in FALLBACKS && StampIsCurrent(s, r.key.stamp) && r.key in s.cache
                      then s.log + [Served(id, r.request, s.cache[r.key].data, StaleFallback)] else s.log
  {
  }

  /** A refusal revokes the session, or everyone, if the reader's stamp is current; its stored result is gone anyway. */
  lemma RefusalsRevoke(s: State, id: ReaderId, status: nat, now: int)
    requires WellFormed(s) && GoesOn(s, id, Failed(Forbidden, status))
    ensures var s', r := Next(s, Resume(id, false, now)), s.readers[id];
            var session := r.key.stamp.session;
            && r.key !in s'.cache
            && s'.log == s.log +
               if !StampIsCurrent(s, r.key.stamp) then []
               else if status in {0, 403} && session != "" then
                 [if Trim(session) == "" then InvalidatedAll else Revoked(Trim(session))]
               else if status == 401 then [InvalidatedAll] else []
  {
  }

  /** A caller that has given up gets nothing from a failure and causes nothing. */
  lemma GivenUpFailuresAreSilent(s: State, id: ReaderId, failure: Failure, status: nat, now: int)
    requires WellFormed(s) && GoesOn(s, id, Failed(failure, status))
    ensures Next(s, Resume(id, true, now)) == Detach(s, id)
  {
  }

  /** An aborted transport is tried again once, unless the caller has given up or the stamp is no longer current. */
  lemma AbortedReadsRetryIff(s: State, id: ReaderId, cancelled: bool, now: int)
    requires WellFormed(s) && GoesOn(s, id, AbortedTransport)
    ensures var r := s.readers[id];
            Next(s, Resume(id, cancelled, now))
            == if !cancelled && StampIsCurrent(s, r.key.stamp) && r.retry
               then Begin(Detach(s, id), id, r.request, false, false, now) else Detach(s, id)
  {
  }

  // ----- An undisturbed read -----

  /** The turns of a read that nothing interferes with. */
  function Undisturbed(id: ReaderId, request: Request, t: TransportId, data: Data, now: int): seq<Step> {
    [Read(id, request, false, now), Resolve(t, Value(data)), Settle(t), Resume(id, false, now)]
  }

  lemma RunOneMore(s: State, steps: seq<Step>, step: Step, all: seq<Step>)
    requires WellFormed(s) && all == steps + [step]
    ensures Run(s, all) == Next(Run(s, steps), step)
  {
    RunExtends(s, steps, step);
  }

  lemma RunFourMore(s: State, p: seq<Step>, q: seq<Step>, r: seq<Step>, all: seq<Step>, a: Step, b: Step, c: Step,
                    d: Step)
    requires WellFormed(s) && p == [] + [a] && q == p + [b] && r == q + [c] && all == r + [d]
    ensures Run(s, all) == Next(Next(Next(Next(s, a), b), c), d)
  {
    RunOneMore(s, [], a, p);
    RunOneMore(s, p, b, q);
    RunOneMore(s, q, c, r);
    RunOneMore(s, r, d, all);
  }

  lemma RunFour(s: State, a: Step, b: Step, c: Step, d: Step)
    requires WellFormed(s)
    ensures Run(s, [a, b, c, d]) == Next(Next(Next(Next(s, a), b), c), d)
  {
    RunFourMore(s, [a], [a, b], [a, b, c], [a, b, c, d], a, b, c, d);
  }

  /** A new reader waits on a transport that was just made for it. */
  ghost predicate FreshlyWaiting(s: State, s1: State, id: ReaderId, request: Request, phase: Phase) {
    var t, k := |s.transports|, TakeKey(s, request);
    && WellFormed(s1) && |s1.transports| == t + 1
    && s1.transports[t] == Transport(|s.log|, k.stamp, k.revisions.Keys, false, 1, phase)
    && id in s1.readers && s1.readers[id] == Reader(request, k, s.readRevision, true, t)
    && s1.authEpoch == s.authEpoch && s1.readRevision == s.readRevision && s1.sessionEpochs == s.sessionEpochs
    && s1.sessionRevisions == s.sessionRevisions && s1.scopeRevisions == s.scopeRevisions && s1.cache == s.cache
  }

  lemma ReadWaits(s: State, id: ReaderId, request: Request, now: int)
    requires WellFormed(s) && id !in s.readers && !Stored(s, request, now) && !UnderWay(s, request)
    ensures FreshlyWaiting(s, Next(s, Read(id, request, false, now)), id, request, Pending)
    ensures Next(s, Read(id, request, false, now)).log == s.log + [Started(|s.transports|)]
  {
    TakenStampIsCurrent(s, request);
  }

  lemma TransportResolves(s: State, s1: State, id: ReaderId, request: Request, data: Data)
    requires FreshlyWaiting(s, s1, id, request, Pending) && data.origin == |s.transports|
    ensures FreshlyWaiting(s, Next(s1, Resolve(|s.transports|, Value(data))), id, request, Resolved(Value(data)))
    ensures Next(s1, Resolve(|s.transports|, Value(data))).log == s1.log
  {
  }

  lemma TransportSettles(s: State, s1: State, id: ReaderId, request: Request, data: Data)
    requires FreshlyWaiting(s, s1, id, request, Resolved(Value(data)))
    ensures FreshlyWaiting(s, Next(s1, Settle(|s.transports|)), id, request, Settled(Value(data), |s1.log|))
    ensures Next(s1, Settle(|s.transports|)).log == s1.log + [Finished(|s.transports|)]
  {
  }

  lemma WaiterIsUpToDate(s: State, s1: State, id: ReaderId, request: Request, phase: Phase)
    requires FreshlyWaiting(s, s1, id, request, phase)
    ensures UpToDate(s1, s1.readers[id])
  {
    TakenStampIsCurrent(s, request);
  }

  lemma KeyStays(s: State, s1: State, request: Request)
    requires s1.authEpoch == s.authEpoch && s1.sessionEpochs == s.sessionEpochs
    requires s1.sessionRevisions == s.sessionRevisions && s1.scopeRevisions == s.scopeRevisions
    ensures TakeKey(s1, request) == TakeKey(s, request)
  {
  }

  lemma DeliveryKeepsCounters(s: State, id: ReaderId, data: Data, now: int)
    requires WellFormed(s) && GoesOn(s, id, Value(data)) && UpToDate(s, s.readers[id])
    ensures var s' := Next(s, Resume(id, false, now));
            && s'.authEpoch == s.authEpoch && s'.sessionEpochs == s.sessionEpochs
            && s'.sessionRevisions == s.sessionRevisions && s'.scopeRevisions == s.scopeRevisions
  {
    GoingOn(s, id, Value(data), false, now);
  }

  lemma ReaderGetsIt(s: State, s1: State, id: ReaderId, request: Request, data: Data, at: nat, now: int)
    requires FreshlyWaiting(s, s1, id, request, Settled(Value(data), at))
    ensures var s' := Next(s1, Resume(id, false, now));
            && s'.log == s1.log + [Served(id, request, data, Transported)]
            && s'.cache == s.cache[TakeKey(s, request) := Kept(request, data, now)]
            && TakeKey(s', request) == TakeKey(s, request)
  {
    WaiterIsUpToDate(s, s1, id, request, Settled(Value(data), at));
    ValuesAreDeliveredIff(s1, id, data, false, now);
    DeliveryKeepsCounters(s1, id, data, now);
    KeyStays(s1, Next(s1, Resume(id, false, now)), request);
    KeyStays(s, s1, request);
  }

  /**
   From any state, a read that is not in the store and not under way starts a transport, and once that has answered and
   nothing interfered it is served the answer, which is stored under the key it asked with.
   */
  lemma UndisturbedReadsAreServed(s: State, id: ReaderId, request: Request, data: Data, now: int)
    requires WellFormed(s) && id !in s.readers && !Stored(s, request, now) && !UnderWay(s, request)
    requires data.origin == |s.transports|
    ensures var t, s' := |s.transports|, Run(s, Undisturbed(id, request, |s.transports|, data, now));
            && s'.log == s.log + [Started(t)] + [Finished(t)] + [Served(id, request, data, Transported)]
            && s'.cache == s.cache[TakeKey(s, request) := Kept(request, data, now)]
            && TakeKey(s', request) == TakeKey(s, request)
  {
    var t := |s.transports|;
    RunFour(s, Read(id, request, false, now), Resolve(t, Value(data)), Settle(t), Resume(id, false, now));
    ReadWaits(s, id, request, now);
    var s1 := Next(s, Read(id, request, false, now));
    TransportResolves(s, s1, id, request, data);
    var s2 := Next(s1, Resolve(t, Value(data)));
    TransportSettles(s, s2, id, request, data);
    ReaderGetsIt(s, Next(s2, Settle(t)), id, request, data, |s2.log|, now);
  }

  /** A second read within the lifetime is then served the same from the store, and one after it is not. */
  lemma AnswersAreReusedIff(s: State, id: ReaderId, request: Request, data: Data, now: int, later: int)
    requires WellFormed(s) && id !in s.readers && !Stored(s, request, now) && !UnderWay(s, request)
    requires data.origin == |s.transports| && now <= later
    ensures Stored(Run(s, Undisturbed(id, request, |s.transports|, data, now)), request, later)
       <==> request.ttl > 0 && later <= now + request.ttl
  {
    UndisturbedReadsAreServed(s, id, request, data, now);
  }

  // ----- What an invalidation drops -----

  /** `s'` has the results that stay, and the transports under way that stay; the others are aborted. */
  ghost predicate KeepsExactly(s: State, s': State, result: Key -> bool, flight: Key -> bool)
    requires WellFormed(s)
  {
    && (forall k :: k in s'.cache <==> k in s.cache && result(k))
    && (forall k <- s'.cache :: k in s.cache && s'.cache[k] == s.cache[k])
    && (forall k :: k in s'.inFlight <==> k in s.inFlight && flight(k))
    && (forall k <- s'.inFlight :: k in s.inFlight && s'.inFlight[k] == s.inFlight[k])
    && |s'.transports| == |s.transports|
    && forall t :: 0 <= t < |s.transports| ==>
         s'.transports[t] == if GivenUp(s, flight, t) then s.transports[t].(aborted := true) else s.transports[t]
  }

  ghost predicate GivenUp(s: State, flight: Key -> bool, t: TransportId) {
    exists k :: k in s.inFlight && !flight(k) && s.inFlight[k] == t
  }

  lemma DroppingKeeps(s: State, s': State, doomed: set<Key>, result: Key -> bool, flight: Key -> bool)
    requires WellFormed(s) && forall k <- s.inFlight :: k in doomed <==> !flight(k)
    requires s'.transports == DropInFlight(s, doomed).transports && s'.inFlight == DropInFlight(s, doomed).inFlight
    requires forall k :: k in s'.cache <==> k in s.cache && result(k)
    requires forall k <- s'.cache :: k in s.cache && s'.cache[k] == s.cache[k]
    ensures KeepsExactly(s, s', result, flight)
  {
    forall t ensures t in IdsOf(s.inFlight, doomed) <==> GivenUp(s, flight, t) {
      if t in IdsOf(s.inFlight, doomed) {
        var k :| k in doomed && k in s.inFlight && s.inFlight[k] == t;
        assert !flight(k);
      }
    }
  }

  /** A write drops the results and reads whose scopes it matches, and no others. */
  lemma WritesDropExactly(s: State, scopes: seq<Scope>)
    requires WellFormed(s)
    ensures KeepsExactly(s, Next(s, Commit(scopes)),
                         (k: Key) => k in s.cache && !AnyScopeMatches(scopes, s.cache[k].scopes),
                         (k: Key) => k in s.inFlight && s.inFlight[k] < |s.transports|
                                     && !AnyScopeMatches(scopes, s.transports[s.inFlight[k]].scopes))
  {
    var doomed := if scopes == [] then {} else MatchingReads(s, scopes);
    if scopes == [] { assert DropInFlight(s, {}) == s by { NothingToDrop(s); } }
    DroppingKeeps(s, Next(s, Commit(scopes)), doomed,
                  (k: Key) => k in s.cache && !AnyScopeMatches(scopes, s.cache[k].scopes),
                  (k: Key) => k in s.inFlight && s.inFlight[k] < |s.transports|
                              && !AnyScopeMatches(scopes, s.transports[s.inFlight[k]].scopes));
  }

  lemma NothingToDrop(s: State)
    requires WellFormed(s)
    ensures DropInFlight(s, {}) == s
  {
    assert IdsOf(s.inFlight, {}) == {};
    assert AbortAll(s.transports, {}) == s.transports;
    assert s.inFlight - {} == s.inFlight;
  }

  /** The result is neither of the session nor mentions it. */
  predicate ResultIsForeign(s: State, name: Session, k: Key) {
    k in s.cache && s.cache[k].session != name && name !in s.cache[k].data.refs
  }

  /** The read is of some other session. */
  predicate ReadIsForeign(s: State, name: Session, k: Key) {
    && k in s.inFlight && s.inFlight[k] < |s.transports|
    && s.transports[s.inFlight[k]].stamp.session != "" && s.transports[s.inFlight[k]].stamp.session != name
  }

  lemma RevocationDrops(s: State, session: Session, name: Session, s': State)
    requires WellFormed(s) && name == Trim(session) && name != "" && s' == Next(s, RevokeSession(session))
    ensures s'.transports == DropInFlight(s, RevokedReads(s, name)).transports
    ensures s'.inFlight == DropInFlight(s, RevokedReads(s, name)).inFlight
    ensures s'.cache == s.cache - RevokedResults(s, name)
  {
  }

  /** A revocation drops the session's results and those that mention it, its reads and all unscoped ones, no others. */
  lemma RevocationsDropExactly(s: State, session: Session)
    requires WellFormed(s) && Trim(session) != ""
    ensures KeepsExactly(s, Next(s, RevokeSession(session)), (k: Key) => ResultIsForeign(s, Trim(session), k),
                         (k: Key) => ReadIsForeign(s, Trim(session), k))
  {
    var name, s' := Trim(session), Next(s, RevokeSession(session));
    RevocationDrops(s, session, name, s');
    DroppingKeeps(s, s', RevokedReads(s, name), (k: Key) => ResultIsForeign(s, name, k),
                  (k: Key) => ReadIsForeign(s, name, k));
  }

  /** A global invalidation drops everything. */
  lemma LogoutDropsEverything(s: State)
    requires WellFormed(s)
    ensures KeepsExactly(s, Next(s, Logout), (k: Key) => false, (k: Key) => false)
  {
    DroppingKeeps(s, Next(s, Logout), s.inFlight.Keys, (k: Key) => false, (k: Key) => false);
  }

  // ----- What an invalidation makes stale -----

  /** A global invalidation moves both counters on and starts all revisions over; session epochs stay. */
  lemma LogoutMovesTheCounters(s: State)
    requires WellFormed(s)
    ensures var s' := Next(s, Logout);
            && s'.authEpoch == s.authEpoch + 1 && s'.readRevision == s.readRevision + 1
            && s'.sessionRevisions == map[] && s'.scopeRevisions == map[] && s'.sessionEpochs == s.sessionEpochs
            && s'.readers == s.readers && s'.log == s.log + [InvalidatedAll]
  {
  }

  /** A revocation moves the read revision on, and the epoch and the revision of its session only. */
  lemma RevocationMovesTheCounters(s: State, session: Session, other: Session)
    requires WellFormed(s) && Trim(session) != ""
    ensures var s', moved := Next(s, RevokeSession(session)), if other == Trim(session) then 1 else 0;
            && s'.authEpoch == s.authEpoch && s'.readRevision == s.readRevision + 1
            && Count(s'.sessionEpochs, other) == Count(s.sessionEpochs, other) + moved
            && Count(s'.sessionRevisions, other) == Count(s.sessionRevisions, other) + moved
            && s'.scopeRevisions == s.scopeRevisions && s'.readers == s.readers
            && s'.log == s.log + [Revoked(Trim(session))]
  {
  }

  /** A write moves each scope's revision on as often as it lists the scope, and nothing else. */
  lemma WritesMoveTheCounters(s: State, scopes: seq<Scope>, scope: Scope)
    requires WellFormed(s)
    ensures var s' := Next(s, Commit(scopes));
            && Count(s'.scopeRevisions, scope) == Count(s.scopeRevisions, scope) + multiset(scopes)[scope]
            && s'.authEpoch == s.authEpoch && s'.readRevision == s.readRevision && s'.sessionEpochs == s.sessionEpochs
            && s'.sessionRevisions == s.sessionRevisions && s'.readers == s.readers
            && s'.log == if scopes == [] then s.log else s.log + [InvalidatedScopes(scopes)]
  {
    BumpCounts(s.scopeRevisions, scopes, scope);
  }

  lemma {:induction false} BumpCounts(revisions: map<Scope, nat>, scopes: seq<Scope>, scope: Scope)
    ensures Count(Bump(revisions, scopes), scope) == Count(revisions, scope) + multiset(scopes)[scope]
    decreases |scopes|
  {
    if scopes != [] {
      assert scopes == [scopes[0]] + scopes[1..];
      BumpCounts(revisions[scopes[0] := Count(revisions, scopes[0]) + 1], scopes[1..], scope);
    }
  }

  /** Whether a stamp is current depends on its epochs alone. */
  lemma StampFollowsTheEpochs(s: State, s': State, stamp: Stamp, moved: nat)
    requires StampIsCurrent(s, stamp) && s'.authEpoch == s.authEpoch
    requires Count(s'.sessionEpochs, stamp.session) == Count(s.sessionEpochs, stamp.session) + moved
    ensures StampIsCurrent(s', stamp) <==> stamp.session == "" || moved == 0
  {
  }

  /** A current stamp stays so through writes. */
  lemma StampsOutliveWrites(s: State, stamp: Stamp, scopes: seq<Scope>)
    requires WellFormed(s) && StampIsCurrent(s, stamp)
    ensures StampIsCurrent(Next(s, Commit(scopes)), stamp)
  {
    WritesMoveTheCounters(s, scopes, "");
    StampFollowsTheEpochs(s, Next(s, Commit(scopes)), stamp, 0);
  }

  /** No current stamp stays so through a global invalidation. */
  lemma StampsEndAtTheLogout(s: State, stamp: Stamp)
    requires WellFormed(s) && StampIsCurrent(s, stamp)
    ensures !StampIsCurrent(Next(s, Logout), stamp)
  {
    LogoutMovesTheCounters(s);
  }

  /** A current stamp outlives the revocation of an id exactly when that names a session, and another one. */
  lemma StampsOutliveRevocationsIff(s: State, stamp: Stamp, session: Session)
    requires WellFormed(s) && StampIsCurrent(s, stamp)
    ensures StampIsCurrent(Next(s, RevokeSession(session)), stamp)
       <==> Trim(session) != "" && stamp.session != Trim(session)
  {
    if Trim(session) != "" {
      RevocationMovesTheCounters(s, session, stamp.session);
      StampFollowsTheEpochs(s, Next(s, RevokeSession(session)), stamp, if stamp.session == Trim(session) then 1 else 0);
    } else {
      BlankRevocationIsALogout(s, session);
      StampsEndAtTheLogout(s, stamp);
    }
  }

  /** Revoking a blank id is a global invalidation. */
  lemma BlankRevocationIsALogout(s: State, session: Session)
    requires WellFormed(s) && Trim(session) == ""
    ensures Next(s, RevokeSession(session)) == Next(s, Logout)
  {
  }

  /** A value for a stale stamp ends the read: nothing is served, started or asked again. */
  lemma StaleStampsEndTheRead(s: State, id: ReaderId, data: Data, cancelled: bool, now: int)
    requires WellFormed(s) && GoesOn(s, id, Value(data)) && !StampIsCurrent(s, s.readers[id].key.stamp)
    ensures var s' := Next(s, Resume(id, cancelled, now));
            s'.log == s.log && id !in s'.readers && s'.inFlight == s.inFlight
  {
    GoingOn(s, id, Value(data), cancelled, now);
  }

  // ----- Transports -----

  /** A transport that settles leaves the registry wherever it is still listed, and its outcome stays. */
  lemma SettlingUnregisters(s: State, t: TransportId)
    requires WellFormed(s) && t < |s.transports| && s.transports[t].phase.Resolved?
    ensures var s' := Next(s, Settle(t));
            && (forall k :: k in s'.inFlight <==> k in s.inFlight && s.inFlight[k] != t)
            && (forall k <- s'.inFlight :: s'.inFlight[k] == s.inFlight[k])
            && s'.transports[t].phase == Settled(s.transports[t].phase.outcome, |s.log|)
            && s'.log == s.log + [Finished(t)]
  {
  }

  /** The deadline aborts a transport, which no later read joins. */
  lemma ExpiredTransportsAreNotJoined(s: State, t: TransportId, request: Request)
    requires WellFormed(s) && t < |s.transports|
    ensures var s' := Next(s, Expire(t));
            && s'.transports[t] == s.transports[t].(aborted := true) && s'.log == s.log && s'.inFlight == s.inFlight
            && (UnderWay(s', request) <==>
                  UnderWay(s, request) && s.inFlight[TakeKey(s, request)] != t)
  {
  }
}
