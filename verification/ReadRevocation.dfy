/**
 Whom a revocation fences. `invalidateSessionAuthorization` trims its argument, while session ids taken from a path or
 a query keep their white space (surfaces/webui/src/api/client.ts).
 */
module ReadRevocation {
  import opened DataScopes
  import opened ReadCoherence
  import opened ReadSafety
  import opened ReadTheorems
  import opened ReadStaleness

  /** Nothing in flight at index `i` was served to `session` later, or is stored for it. */
  ghost predicate NothingPasses(s: State, i: nat, session: Session) {
    && (forall j :: i < j < |s.log| && s.log[j].Served? && s.log[j].request.session == session ==>
          !InFlightAt(s.log, s.log[j].data.origin, i))
    && (forall k <- s.cache :: k.stamp.session == session ==> !InFlightAt(s.log, s.cache[k].data.origin, i))
  }

  /** Revoking `x` in any reachable state, whatever happens afterwards, keeps from `session` all that was in flight. */
  ghost predicate RevokingFences(x: Session, session: Session) {
    forall s, s' :: Reachable(s) && Leads(Next(s, RevokeSession(x)), s') ==> NothingPasses(s', |s.log|, session)
  }

  // ----- The log only grows -----

  lemma OneMore(log: seq<Event>, e: Event)
    ensures log <= log + [e]
  {
  }

  lemma BeginLog(s: State, id: ReaderId, request: Request, retry: bool, cancelled: bool, now: int)
    requires WellFormed(s)
    ensures s.log <= Begin(s, id, request, retry, cancelled, now).log
  {
    var key := TakeKey(s, request);
    if request.ttl > 0 && key in s.cache && s.cache[key].cacheUntil >= now && StampIsCurrent(s, key.stamp) {
      OneMore(s.log, Served(id, request, s.cache[key].data, CacheHit));
    } else if !(key in s.inFlight && !s.transports[s.inFlight[key]].aborted) {
      OneMore(s.log, Started(|s.transports|));
    }
  }

  /** What a revocation logs. */
  function Revocation(session: Session): Event {
    if Trim(session) == "" then InvalidatedAll else Revoked(Trim(session))
  }

  lemma RevokeLog(s: State, session: Session)
    requires WellFormed(s)
    ensures Next(s, RevokeSession(session)).log == Revoke(s, session).log == s.log + [Revocation(session)]
  {
  }

  lemma NextEvent(log: seq<Event>, e: Event, log': seq<Event>)
    requires log + [e] <= log'
    ensures |log| < |log'| && log'[|log|] == e
  {
    assert (log + [e])[|log|] == e;
  }

  lemma RejectLog(s: State, stamp: Stamp, status: nat)
    requires WellFormed(s)
    ensures s.log <= Reject(s, stamp, status).log
  {
    if status == 403 && stamp.session != "" { RevokeLog(s, stamp.session); }
  }

  lemma FailLog(s: State, id: ReaderId, r: Reader, failure: Failure, status: nat)
    requires WellFormed(s)
    ensures s.log <= Fail(s, id, r, failure, status).log
  {
    if failure == Forbidden {
      RejectLog(s, r.key.stamp, if status == 0 then 403 else status);
    } else if r.key in s.cache {
      OneMore(s.log, Served(id, r.request, s.cache[r.key].data, StaleFallback));
    }
  }

  lemma CatchLog(s: State, id: ReaderId, r: Reader, failure: Failure, status: nat, cancelled: bool)
    requires WellFormed(s)
    ensures s.log <= Catch(s, id, r, failure, status, cancelled).log
  {
    FailLog(s, id, r, failure, status);
  }

  lemma ContinueLog(s: State, id: ReaderId, r: Reader, outcome: Outcome, cancelled: bool, now: int)
    requires WellFormed(s)
    ensures s.log <= Continue(s, id, r, outcome, cancelled, now).log
  {
    match outcome
    case Value(data) =>
      if !StampIsCurrent(s, r.key.stamp) { CatchLog(s, id, r, Forbidden, 403, cancelled); }
      else if !ReadRevisionIsCurrent(s, r) || !ScopesAreCurrent(s, r.key.revisions) {
        if r.retry { BeginLog(s, id, r.request, false, cancelled, now); }
        else { CatchLog(s, id, r, StaleRead, 0, cancelled); }
      } else { OneMore(s.log, Served(id, r.request, data, Transported)); }
    case AbortedTransport =>
      if !cancelled && StampIsCurrent(s, r.key.stamp) && r.retry { BeginLog(s, id, r.request, false, false, now); }
    case Failed(failure, status) => CatchLog(s, id, r, failure, status, cancelled);
  }

  lemma ResumeLog(s: State, id: ReaderId, cancelled: bool, now: int)
    requires WellFormed(s) && id in s.readers && s.transports[s.readers[id].transport].phase.Settled?
    ensures s.log <= Next(s, Resume(id, cancelled, now)).log
  {
    ContinueLog(Detach(s, id), id, s.readers[id], s.transports[s.readers[id].transport].phase.outcome, cancelled, now);
  }

  lemma TransportTurnLog(s: State, step: Step)
    requires WellFormed(s) && (step.Expire? || step.Resolve? || step.Settle? || step.Cancel?)
    ensures s.log <= Next(s, step).log
  {
  }

  lemma InvalidationLog(s: State, step: Step)
    requires WellFormed(s) && (step.Commit? || step.Logout?)
    ensures s.log <= Next(s, step).log
  {
  }

  lemma NextLog(s: State, step: Step)
    requires WellFormed(s)
    ensures s.log <= Next(s, step).log
  {
    match step
    case Read(id, request, cancelled, now) => BeginLog(s, id, request, true, cancelled, now);
    case Resume(id, cancelled, now) =>
      if id in s.readers && s.transports[s.readers[id].transport].phase.Settled? { ResumeLog(s, id, cancelled, now); }
    case Expire(_) => TransportTurnLog(s, step);
    case Resolve(_, _) => TransportTurnLog(s, step);
    case Settle(_) => TransportTurnLog(s, step);
    case Cancel(_) => TransportTurnLog(s, step);
    case Commit(_) => InvalidationLog(s, step);
    case Logout => InvalidationLog(s, step);
    case RevokeSession(session) => RevokeLog(s, session);
  }

  lemma {:induction false} RunLog(s: State, steps: seq<Step>)
    requires WellFormed(s)
    ensures s.log <= Run(s, steps).log
    decreases |steps|
  {
    if steps != [] {
      NextLog(s, steps[0]);
      RunLog(Next(s, steps[0]), steps[1..]);
    }
  }

  lemma RunOn(s: State, step: Step, s': State)
    requires Reachable(s) && Leads(Next(s, step), s')
    ensures Reachable(s') && Next(s, step).log <= s'.log
  {
    var s1 := Next(s, step);
    var steps :| Run(s1, steps) == s';
    ReachableExtends(s, step, s1);
    ReachableRuns(s1, steps);
    RunLog(s1, steps);
  }

  // ----- The fence holds -----

  lemma AfterRevoking(s: State, x: Session, s': State)
    requires Reachable(s) && Leads(Next(s, RevokeSession(x)), s')
    ensures Reachable(s') && |s.log| < |s'.log|
    ensures s'.log[|s.log|] == Revocation(x)
  {
    RevokeLog(s, x);
    RunOn(s, RevokeSession(x), s');
    NextEvent(s.log, Revocation(x), s'.log);
  }

  lemma StartedLaterWasNotInFlight(log: seq<Event>, t: TransportId, i: int, j: int)
    requires StartedBetween(log, t, i, j)
    ensures !InFlightAt(log, t, i)
  {
  }

  /** A global invalidation lets nothing pass to any session. */
  lemma NothingPassesAGlobalInvalidation(s: State, i: nat, session: Session)
    requires Reachable(s) && i < |s.log| && s.log[i] == InvalidatedAll
    ensures NothingPasses(s, i, session)
  {
    forall j | i < j < |s.log| && s.log[j].Served? ensures !InFlightAt(s.log, s.log[j].data.origin, i) {
      ServedDataIsCoherent(s, i, j);
      StartedLaterWasNotInFlight(s.log, s.log[j].data.origin, i, j);
    }
    forall k <- s.cache ensures !InFlightAt(s.log, s.cache[k].data.origin, i) {
      ReachableHolds(s);
      assert CacheOk(s, k) && TransportOk(s, s.cache[k].data.origin);
      StartIsUnique(s, s.cache[k].data.origin);
    }
  }

  lemma NothingPassesARevocation(s: State, i: nat, session: Session)
    requires Reachable(s) && i < |s.log| && s.log[i].Revoked? && session in {"", s.log[i].session}
    ensures NothingPasses(s, i, session)
  {
    forall j | i < j < |s.log| && s.log[j].Served? && s.log[j].request.session == session
      ensures !InFlightAt(s.log, s.log[j].data.origin, i)
    {
      RevocationFencesServedData(s, i, j);
    }
    forall k <- s.cache | k.stamp.session == session ensures !InFlightAt(s.log, s.cache[k].data.origin, i) {
      RevocationFencesTheCache(s, i, k);
    }
  }

  // ----- The fence is passed: the states of the failing run -----

  /** A session has been revoked while a read of another one waits. */
  function AfterRevocation(name: Session, session: Session, scopes: set<Scope>): State {
    AfterRead(session, scopes, Pending).(sessionEpochs := map[name := 1], readRevision := 1,
      sessionRevisions := map[name := 1], log := [Started(0), Revoked(name)])
  }

  /** Then a second read has joined the transport. */
  function AfterJoin(name: Session, session: Session, scopes: set<Scope>, phase: Phase): State {
    AfterRevocation(name, session, scopes).(transports := [Shared(session, scopes, false, 2, phase)],
      readers := map[0 := Waiter(session, scopes, 0), 1 := Waiter(session, scopes, 1)])
  }

  /** The transport has settled. */
  function AfterAnswer(name: Session, session: Session, scopes: set<Scope>): State {
    AfterJoin(name, session, scopes, Settled(Value(Answer()), 2)).(inFlight := map[],
      log := [Started(0), Revoked(name), Finished(0)])
  }

  lemma DroppingNothing(s: State)
    requires WellFormed(s)
    ensures DropInFlight(s, {}) == s
  {
    assert IdsOf(s.inFlight, {}) == {};
    assert AbortAll(s.transports, {}) == s.transports;
    assert s.inFlight - {} == s.inFlight;
  }

  lemma NothingToForget(s: State, name: Session)
    requires s.cache == map[]
    ensures s.cache - RevokedResults(s, name) == s.cache
  {
  }

  /** A first revocation that concerns no read and no result moves the counters on and logs itself. */
  lemma RevokingNobody(s: State, x: Session, name: Session)
    requires WellFormed(s) && name == Trim(x) && name != "" && RevokedReads(s, name) == {} && s.cache == map[]
    requires s.sessionEpochs == map[] && s.sessionRevisions == map[]
    ensures Next(s, RevokeSession(x))
         == s.(sessionEpochs := map[name := 1], readRevision := s.readRevision + 1, sessionRevisions := map[name := 1],
               log := s.log + [Revoked(name)])
  {
    DroppingNothing(s);
    NothingToForget(s, name);
  }

  lemma RevokingMissesTheRead(x: Session, name: Session, session: Session, scopes: set<Scope>)
    requires name == Trim(x) && name != "" && session !in {"", name}
    ensures WellFormed(AfterRead(session, scopes, Pending))
    ensures Next(AfterRead(session, scopes, Pending), RevokeSession(x)) == AfterRevocation(name, session, scopes)
  {
    RevokingNobody(AfterRead(session, scopes, Pending), x, name);
  }

  lemma SecondReadJoins(name: Session, session: Session, scopes: set<Scope>)
    requires session != name
    ensures WellFormed(AfterRevocation(name, session, scopes))
    ensures Next(AfterRevocation(name, session, scopes), Read(1, Asks(session, scopes), false, 0))
         == AfterJoin(name, session, scopes, Pending)
  {
    assert TakeKey(AfterRevocation(name, session, scopes), Asks(session, scopes)) == FirstKey(session, scopes);
  }

  lemma AnswerCompletes(name: Session, session: Session, scopes: set<Scope>)
    ensures var s, answer := AfterJoin(name, session, scopes, Pending), Value(Answer());
            WellFormed(s) && Next(s, Resolve(0, answer)) == AfterJoin(name, session, scopes, Resolved(answer))
  {
  }

  lemma TransportCompletes(name: Session, session: Session, scopes: set<Scope>)
    ensures var s := AfterJoin(name, session, scopes, Resolved(Value(Answer())));
            WellFormed(s) && Next(s, Settle(0)) == AfterAnswer(name, session, scopes)
  {
  }

  /** The second reader goes on, and the first one still waits. */
  function AfterLeaving(name: Session, session: Session, scopes: set<Scope>): State {
    AfterAnswer(name, session, scopes).(
      transports := [Shared(session, scopes, false, 1, Settled(Value(Answer()), 2))],
      readers := map[0 := Waiter(session, scopes, 0)])
  }

  lemma SecondReadLeaves(name: Session, session: Session, scopes: set<Scope>)
    ensures WellFormed(AfterAnswer(name, session, scopes))
    ensures Detach(AfterAnswer(name, session, scopes), 1) == AfterLeaving(name, session, scopes)
  {
    assert AfterAnswer(name, session, scopes).readers - {1} == map[0 := Waiter(session, scopes, 0)];
  }

  lemma SecondReadDelivers(name: Session, session: Session, scopes: set<Scope>)
    requires session != name
    ensures WellFormed(AfterLeaving(name, session, scopes))
    ensures Continue(AfterLeaving(name, session, scopes), 1, Waiter(session, scopes, 1), Value(Answer()), false, 0).log
         == [Started(0), Revoked(name), Finished(0), Served(1, Asks(session, scopes), Answer(), Transported)]
  {
  }

  lemma SecondReadIsServed(name: Session, session: Session, scopes: set<Scope>)
    requires session != name
    ensures WellFormed(AfterAnswer(name, session, scopes))
    ensures Next(AfterAnswer(name, session, scopes), Resume(1, false, 0)).log
         == [Started(0), Revoked(name), Finished(0), Served(1, Asks(session, scopes), Answer(), Transported)]
  {
    SecondReadLeaves(name, session, scopes);
    SecondReadDelivers(name, session, scopes);
  }

  lemma LeadsExtends(s: State, s1: State, step: Step, s2: State)
    requires WellFormed(s) && Leads(s, s1) && s2 == Next(s1, step)
    ensures Leads(s, s2)
  {
    var steps :| Run(s, steps) == s1;
    RunExtends(s, steps, step);
  }

  lemma LeadsToAnswer(name: Session, session: Session, scopes: set<Scope>)
    requires session != name
    ensures WellFormed(AfterRevocation(name, session, scopes))
    ensures Leads(AfterRevocation(name, session, scopes), AfterAnswer(name, session, scopes))
  {
    var s, joined := AfterRevocation(name, session, scopes), AfterJoin(name, session, scopes, Pending);
    var answered := AfterJoin(name, session, scopes, Resolved(Value(Answer())));
    assert Run(s, []) == s;
    SecondReadJoins(name, session, scopes);
    LeadsExtends(s, s, Read(1, Asks(session, scopes), false, 0), joined);
    AnswerCompletes(name, session, scopes);
    LeadsExtends(s, joined, Resolve(0, Value(Answer())), answered);
    TransportCompletes(name, session, scopes);
    LeadsExtends(s, answered, Settle(0), AfterAnswer(name, session, scopes));
  }

  /**
   A read of any session but the revoked one that joins a transport in flight at the revocation is served its value.
   */
  lemma OtherSessionsPass(x: Session, session: Session, scopes: set<Scope>) returns (s: State, s': State)
    requires Trim(x) != "" && session !in {"", Trim(x)}
    ensures Reachable(s) && s.log == [Started(0)] && Leads(Next(s, RevokeSession(x)), s')
    ensures s'.log == [Started(0), Revoked(Trim(x)), Finished(0),
                       Served(1, Asks(session, scopes), Answer(), Transported)]
  {
    var name := Trim(x);
    s := AfterRead(session, scopes, Pending);
    ReadStarts(session, scopes);
    RevokingMissesTheRead(x, name, session, scopes);
    LeadsToAnswer(name, session, scopes);
    SecondReadIsServed(name, session, scopes);
    s' := Next(AfterAnswer(name, session, scopes), Resume(1, false, 0));
    LeadsExtends(AfterRevocation(name, session, scopes), AfterAnswer(name, session, scopes), Resume(1, false, 0), s');
  }

  // ----- What follows -----

  /** Revoking `x` fences the trimmed session, unscoped reads and, for a blank `x`, everyone; and no one else. */
  lemma RevokingFencesIff(x: Session, session: Session)
    ensures RevokingFences(x, session) <==> Trim(x) == "" || session in {"", Trim(x)}
  {
    if Trim(x) == "" || session in {"", Trim(x)} {
      forall s, s' | Reachable(s) && Leads(Next(s, RevokeSession(x)), s')
        ensures NothingPasses(s', |s.log|, session)
      {
        AfterRevoking(s, x, s');
        if Trim(x) == "" { NothingPassesAGlobalInvalidation(s', |s.log|, session); }
        else { NothingPassesARevocation(s', |s.log|, session); }
      }
    } else {
      var s, s' := OtherSessionsPass(x, session, {});
      assert s'.log[0] == Started(0) && s'.log[3].request.session == session;
      assert InFlightAt(s'.log, s'.log[3].data.origin, 1);
      assert !NothingPasses(s', |s.log|, session);
    }
  }

  /** So a revocation fences the very id it names exactly when that id has no outer white space, or nothing else. */
  lemma RevokingFencesItselfIff(x: Session)
    ensures RevokingFences(x, x) <==> Trim(x) in {x, ""}
  {
    RevokingFencesIff(x, x);
    assert x == "" ==> Trim(x) == "";
  }

  /** With a space in front, revoking an id fences the id without it, and not the id itself. */
  lemma PaddedIdsAreNotFenced(x: Session)
    requires x != "" && Trim(x) == x
    ensures RevokingFences(" " + x, x) && !RevokingFences(" " + x, " " + x)
  {
    assert (" " + x)[1..] == x;
    assert Trim(" " + x) == x;
    RevokingFencesIff(" " + x, x);
    RevokingFencesIff(" " + x, " " + x);
    assert |" " + x| > |x|;
  }
}
