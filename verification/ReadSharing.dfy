/** Sharing one transport among several readers: who keeps it alive. */
module ReadSharing {
  import opened DataScopes
  import opened ReadCoherence

  function Waiting(s: State, t: TransportId): set<ReaderId> {
    set id | id in s.readers && s.readers[id].transport == t
  }

  /** An unsettled transport counts exactly its waiting readers. */
  ghost predicate Counted(s: State) {
    forall t :: 0 <= t < |s.transports| && !s.transports[t].phase.Settled? ==>
                  s.transports[t].subscribers == |Waiting(s, t)|
  }

  ghost predicate Inv(s: State) {
    WellFormed(s) && Counted(s)
  }

  /** Nobody subscribes, leaves or settles. */
  ghost predicate SameListeners(s: State, s': State) {
    && s'.readers == s.readers && |s'.transports| == |s.transports|
    && forall t :: 0 <= t < |s.transports| ==>
         s'.transports[t].subscribers == s.transports[t].subscribers
         && (s.transports[t].phase.Settled? ==> s'.transports[t].phase.Settled?)
  }

  lemma SameListenersKeep(s: State, s': State)
    requires Inv(s) && WellFormed(s') && SameListeners(s, s')
    ensures Inv(s')
  {
    forall t | 0 <= t < |s'.transports| && !s'.transports[t].phase.Settled?
      ensures s'.transports[t].subscribers == |Waiting(s', t)|
    {
      assert Waiting(s', t) == Waiting(s, t);
    }
  }

  lemma DropKeeps(s: State, doomed: set<Key>, s': State)
    requires WellFormed(s)
    requires s'.readers == s.readers && s'.transports == DropInFlight(s, doomed).transports
    ensures SameListeners(s, s')
  {
  }

  lemma InvalidateAllKeeps(s: State)
    requires WellFormed(s)
    ensures SameListeners(s, InvalidateAll(s))
  {
    DropKeeps(s, s.inFlight.Keys, InvalidateAll(s));
  }

  lemma RevokeKeeps(s: State, session: Session)
    requires WellFormed(s)
    ensures SameListeners(s, Revoke(s, session))
  {
    if Trim(session) == "" {
      InvalidateAllKeeps(s);
    } else {
      DropKeeps(s, RevokedReads(s, Trim(session)), Revoke(s, session));
    }
  }

  lemma InvalidateScopesKeeps(s: State, scopes: seq<Scope>)
    requires WellFormed(s)
    ensures SameListeners(s, InvalidateScopes(s, scopes))
  {
    if scopes != [] { DropKeeps(s, MatchingReads(s, scopes), InvalidateScopes(s, scopes)); }
  }

  lemma FailKeeps(s: State, id: ReaderId, r: Reader, failure: Failure, status: nat)
    requires Inv(s)
    ensures Inv(Fail(s, id, r, failure, status))
  {
    RevokeKeeps(s, r.key.stamp.session);
    InvalidateAllKeeps(s);
    SameListenersKeep(s, Fail(s, id, r, failure, status));
  }

  lemma AttachKeeps(s: State, id: ReaderId, request: Request, key: Key, retry: bool, t: TransportId)
    requires Inv(s) && id !in s.readers && t < |s.transports|
    ensures Inv(Attach(s, id, request, key, retry, t))
  {
    var s' := Attach(s, id, request, key, retry, t);
    forall u | 0 <= u < |s'.transports| && !s'.transports[u].phase.Settled?
      ensures s'.transports[u].subscribers == |Waiting(s', u)|
    {
      WaitingAfterAttach(s, id, request, key, retry, t, u);
    }
  }

  lemma WaitingAfterAttach(s: State, id: ReaderId, request: Request, key: Key, retry: bool, t: TransportId,
      u: TransportId)
    requires WellFormed(s) && id !in s.readers && t < |s.transports|
    ensures |Waiting(Attach(s, id, request, key, retry, t), u)| == |Waiting(s, u)| + if u == t then 1 else 0
  {
    var s' := Attach(s, id, request, key, retry, t);
    forall r ensures r in Waiting(s', u) <==> r in Waiting(s, u) || (u == t && r == id) {}
    OneMoreWaits(Waiting(s, u), Waiting(s', u), id, u == t);
  }

  lemma OneMoreWaits(w: set<ReaderId>, w': set<ReaderId>, id: ReaderId, joins: bool)
    requires id !in w && forall r :: r in w' <==> r in w || (joins && r == id)
    ensures |w'| == |w| + if joins then 1 else 0
  {
    assert w' == if joins then w + {id} else w;
  }

  lemma DetachKeeps(s: State, id: ReaderId)
    requires Inv(s) && id in s.readers
    ensures Inv(Detach(s, id))
  {
    var s' := Detach(s, id);
    forall u | 0 <= u < |s'.transports| && !s'.transports[u].phase.Settled?
      ensures s'.transports[u].subscribers == |Waiting(s', u)|
    {
      assert Waiting(s', u) == if u == s.readers[id].transport then Waiting(s, u) - {id} else Waiting(s, u);
      assert id in Waiting(s, s.readers[id].transport);
    }
  }

  lemma CreateKeeps(s: State, key: Key)
    requires Inv(s)
    ensures Inv(Create(s, key))
  {
    var s' := Create(s, key);
    forall u | 0 <= u < |s'.transports| && !s'.transports[u].phase.Settled?
      ensures s'.transports[u].subscribers == |Waiting(s', u)|
    {
      assert Waiting(s', u) == if u == |s.transports| then {} else Waiting(s, u);
    }
  }

  lemma BeginKeeps(s: State, id: ReaderId, request: Request, retry: bool, cancelled: bool, now: int)
    requires Inv(s) && id !in s.readers
    ensures Inv(Begin(s, id, request, retry, cancelled, now))
  {
    var key := TakeKey(s, request);
    if request.ttl > 0 && key in s.cache && s.cache[key].cacheUntil >= now && StampIsCurrent(s, key.stamp) {
      SameListenersKeep(s, Begin(s, id, request, retry, cancelled, now));
    } else if key in s.inFlight && !s.transports[s.inFlight[key]].aborted {
      if !cancelled { AttachKeeps(s, id, request, key, retry, s.inFlight[key]); }
    } else {
      CreateKeeps(s, key);
      if !cancelled { AttachKeeps(Create(s, key), id, request, key, retry, |s.transports|); }
    }
  }

  lemma CatchKeeps(s: State, id: ReaderId, r: Reader, failure: Failure, status: nat, cancelled: bool)
    requires Inv(s)
    ensures Inv(Catch(s, id, r, failure, status, cancelled))
  {
    if !cancelled { FailKeeps(s, id, r, failure, status); }
  }

  lemma ContinueKeeps(s: State, id: ReaderId, r: Reader, outcome: Outcome, cancelled: bool, now: int)
    requires Inv(s) && id !in s.readers
    ensures Inv(Continue(s, id, r, outcome, cancelled, now))
  {
    match outcome
    case Value(data) =>
      if !StampIsCurrent(s, r.key.stamp) { CatchKeeps(s, id, r, Forbidden, 403, cancelled); }
      else if !ReadRevisionIsCurrent(s, r) || !ScopesAreCurrent(s, r.key.revisions) {
        if r.retry { BeginKeeps(s, id, r.request, false, cancelled, now); }
        else { CatchKeeps(s, id, r, StaleRead, 0, cancelled); }
      } else { SameListenersKeep(s, Continue(s, id, r, outcome, cancelled, now)); }
    case AbortedTransport =>
      if !cancelled && StampIsCurrent(s, r.key.stamp) && r.retry { BeginKeeps(s, id, r.request, false, false, now); }
    case Failed(failure, status) => CatchKeeps(s, id, r, failure, status, cancelled);
  }

  lemma ExpireKeeps(s: State, t: TransportId)
    requires Inv(s) && t < |s.transports|
    ensures Inv(ExpireTransport(s, t))
  {
    SameListenersKeep(s, ExpireTransport(s, t));
  }

  lemma ResolveKeeps(s: State, t: TransportId, outcome: Outcome)
    requires Inv(s) && t < |s.transports| && s.transports[t].phase.Pending?
    ensures Inv(ResolveTransport(s, t, outcome))
  {
    SameListenersKeep(s, ResolveTransport(s, t, outcome));
  }

  lemma SettleKeeps(s: State, t: TransportId)
    requires Inv(s) && t < |s.transports| && s.transports[t].phase.Resolved?
    ensures Inv(SettleTransport(s, t))
  {
    SameListenersKeep(s, SettleTransport(s, t));
  }

  lemma TransportTurnKeeps(s: State, step: Step)
    requires Inv(s) && (step.Expire? || step.Resolve? || step.Settle?)
    ensures Inv(Next(s, step))
  {
    match step
    case Expire(t) => if t < |s.transports| { ExpireKeeps(s, t); }
    case Resolve(t, outcome) => if t < |s.transports| && s.transports[t].phase.Pending? { ResolveKeeps(s, t, outcome); }
    case Settle(t) => if t < |s.transports| && s.transports[t].phase.Resolved? { SettleKeeps(s, t); }
  }

  lemma CommitKeeps(s: State, scopes: seq<Scope>)
    requires Inv(s)
    ensures Inv(InvalidateScopes(s, scopes))
  {
    InvalidateScopesKeeps(s, scopes);
    SameListenersKeep(s, InvalidateScopes(s, scopes));
  }

  lemma LogoutKeeps(s: State)
    requires Inv(s)
    ensures Inv(InvalidateAll(s))
  {
    InvalidateAllKeeps(s);
    SameListenersKeep(s, InvalidateAll(s));
  }

  lemma RevokeSessionKeeps(s: State, session: Session)
    requires Inv(s)
    ensures Inv(Revoke(s, session))
  {
    RevokeKeeps(s, session);
    SameListenersKeep(s, Revoke(s, session));
  }

  lemma ReadKeeps(s: State, id: ReaderId, request: Request, cancelled: bool, now: int)
    requires Inv(s)
    ensures Inv(Next(s, Read(id, request, cancelled, now)))
  {
    if id !in s.readers { BeginKeeps(s, id, request, true, cancelled, now); }
  }

  lemma ResumeKeeps(s: State, id: ReaderId, cancelled: bool, now: int)
    requires Inv(s)
    ensures Inv(Next(s, Resume(id, cancelled, now)))
  {
    if id in s.readers && s.transports[s.readers[id].transport].phase.Settled? {
      DetachKeeps(s, id);
      ContinueKeeps(Detach(s, id), id, s.readers[id], s.transports[s.readers[id].transport].phase.outcome,
                    cancelled, now);
    }
  }

  lemma CancelKeeps(s: State, id: ReaderId)
    requires Inv(s)
    ensures Inv(Next(s, Cancel(id)))
  {
    if id in s.readers { DetachKeeps(s, id); }
  }

  lemma NextKeeps(s: State, step: Step)
    requires Inv(s)
    ensures Inv(Next(s, step))
  {
    match step
    case Read(id, request, cancelled, now) => ReadKeeps(s, id, request, cancelled, now);
    case Resume(id, cancelled, now) => ResumeKeeps(s, id, cancelled, now);
    case Cancel(id) => CancelKeeps(s, id);
    case Expire(_) => TransportTurnKeeps(s, step);
    case Resolve(_, _) => TransportTurnKeeps(s, step);
    case Settle(_) => TransportTurnKeeps(s, step);
    case Commit(scopes) => CommitKeeps(s, scopes);
    case Logout => LogoutKeeps(s);
    case RevokeSession(session) => RevokeSessionKeeps(s, session);
  }

  lemma {:induction false} RunKeeps(s: State, steps: seq<Step>)
    requires Inv(s)
    ensures Inv(Run(s, steps))
    decreases |steps|
  {
    if steps != [] {
      NextKeeps(s, steps[0]);
      RunKeeps(Next(s, steps[0]), steps[1..]);
    }
  }

  lemma OnlyMember(w: set<ReaderId>, id: ReaderId)
    requires id in w
    ensures |w| == 1 <==> w == {id}
  {
    assert |w - {id}| == |w| - 1;
    if |w| == 1 { assert w == (w - {id}) + {id}; }
  }

  lemma CancelAborts(s: State, id: ReaderId)
    requires WellFormed(s) && id in s.readers
    requires var t := s.transports[s.readers[id].transport]; !t.aborted && !t.phase.Settled?
    ensures var t := s.readers[id].transport;
            Next(s, Cancel(id)).transports[t].aborted <==> s.transports[t].subscribers <= 1
  {
  }

  lemma WaitersAreCounted(s: State, id: ReaderId)
    requires Inv(s) && id in s.readers && !s.transports[s.readers[id].transport].phase.Settled?
    ensures var t := s.readers[id].transport; s.transports[t].subscribers <= 1 <==> Waiting(s, t) == {id}
  {
    OnlyMember(Waiting(s, s.readers[id].transport), id);
  }

  /**
   In every reachable state, a caller that gives up aborts the shared transport exactly when no other reader waits on
   it.
   */
  lemma CancelAbortsOnlyForTheLast(s: State, id: ReaderId)
    requires Reachable(s) && id in s.readers
    requires var t := s.transports[s.readers[id].transport]; !t.aborted && !t.phase.Settled?
    ensures var t := s.readers[id].transport; Next(s, Cancel(id)).transports[t].aborted <==> Waiting(s, t) == {id}
  {
    var steps :| Run(Init, steps) == s;
    RunKeeps(Init, steps);
    CancelAborts(s, id);
    WaitersAreCounted(s, id);
  }
}
