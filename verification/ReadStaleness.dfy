/** Where coherence ends: a write whose scopes match a read's scopes, and none of whose scopes is in the read's list. */
module ReadStaleness {
  import opened DataScopes
  import opened ReadCoherence
  import opened ReadSafety
  import opened ReadTheorems

  // ----- The states of the failing run -----

  /** The key of a read as long as nothing about it was invalidated. */
  function FirstKey(session: Session, scopes: set<Scope>): Key {
    Key(Stamp(0, session, 0), 0, map c | c in scopes :: 0, 0)
  }

  function Asks(session: Session, scopes: set<Scope>): Request {
    Request(session, scopes, 0, 0)
  }

  function Answer(): Data {
    Data(0, {}, 0)
  }

  function Shared(session: Session, scopes: set<Scope>, aborted: bool, subscribers: nat, phase: Phase): Transport {
    Transport(0, Stamp(0, session, 0), scopes, aborted, subscribers, phase)
  }

  function Waiter(session: Session, scopes: set<Scope>, readRevision: nat): Reader {
    Reader(Asks(session, scopes), FirstKey(session, scopes), readRevision, true, 0)
  }

  /** The read is waiting for its transport, in a given phase. */
  function AfterRead(session: Session, scopes: set<Scope>, phase: Phase): State {
    Init.(inFlight := map[FirstKey(session, scopes) := 0], transports := [Shared(session, scopes, false, 1, phase)],
          readers := map[0 := Waiter(session, scopes, 0)], log := [Started(0)])
  }

  /** Then a write has committed: the transport is aborted and unregistered, but no revision of the read is bumped. */
  function AfterCommit(ws: seq<Scope>, session: Session, scopes: set<Scope>, phase: Phase): State {
    Init.(scopeRevisions := Bump(map[], ws), transports := [Shared(session, scopes, true, 1, phase)],
          readers := map[0 := Waiter(session, scopes, 0)], log := [Started(0), InvalidatedScopes(ws)])
  }

  /** The transport has settled, and its reader has not resumed. */
  function AfterSettle(ws: seq<Scope>, session: Session, scopes: set<Scope>): State {
    AfterCommit(ws, session, scopes, Settled(Value(Answer()), 2)).(
      log := [Started(0), InvalidatedScopes(ws), Finished(0)])
  }

  /** The reader goes on, as the only one. */
  function AfterDetach(ws: seq<Scope>, session: Session, scopes: set<Scope>): State {
    AfterSettle(ws, session, scopes).(
      transports := [Shared(session, scopes, true, 0, Settled(Value(Answer()), 2))], readers := map[])
  }

  // ----- Its steps -----

  lemma ReadStarts(session: Session, scopes: set<Scope>)
    ensures Reachable(AfterRead(session, scopes, Pending))
  {
    assert Run(Init, []) == Init;
    assert TakeKey(Init, Asks(session, scopes)) == FirstKey(session, scopes);
    assert FirstKey(session, scopes).revisions.Keys == scopes;
    ReachableExtends(Init, Read(0, Asks(session, scopes), false, 0), AfterRead(session, scopes, Pending));
  }

  lemma AnswerArrives(session: Session, scopes: set<Scope>)
    ensures Reachable(AfterRead(session, scopes, Resolved(Value(Answer()))))
  {
    ReadStarts(session, scopes);
    ReachableExtends(AfterRead(session, scopes, Pending), Resolve(0, Value(Answer())),
                     AfterRead(session, scopes, Resolved(Value(Answer()))));
  }

  lemma CommitDropsTheRead(ws: seq<Scope>, session: Session, scopes: set<Scope>, phase: Phase)
    requires AnyScopeMatches(ws, scopes)
    ensures WellFormed(AfterRead(session, scopes, phase))
    ensures Next(AfterRead(session, scopes, phase), Commit(ws)) == AfterCommit(ws, session, scopes, phase)
  {
    var s := AfterRead(session, scopes, phase);
    assert MatchingReads(s, ws) == {FirstKey(session, scopes)};
    assert IdsOf(s.inFlight, {FirstKey(session, scopes)}) == {0};
  }

  lemma WriteCommits(ws: seq<Scope>, session: Session, scopes: set<Scope>)
    requires AnyScopeMatches(ws, scopes)
    ensures Reachable(AfterCommit(ws, session, scopes, Resolved(Value(Answer()))))
  {
    var answered := Resolved(Value(Answer()));
    AnswerArrives(session, scopes);
    CommitDropsTheRead(ws, session, scopes, answered);
    ReachableExtends(AfterRead(session, scopes, answered), Commit(ws), AfterCommit(ws, session, scopes, answered));
  }

  lemma SettlingLeavesTheRegistry(ws: seq<Scope>, session: Session, scopes: set<Scope>)
    ensures var s := AfterCommit(ws, session, scopes, Resolved(Value(Answer())));
            WellFormed(s) && Next(s, Settle(0)) == AfterSettle(ws, session, scopes)
  {
  }

  lemma TransportSettles(ws: seq<Scope>, session: Session, scopes: set<Scope>)
    requires AnyScopeMatches(ws, scopes)
    ensures Reachable(AfterSettle(ws, session, scopes))
  {
    var s := AfterCommit(ws, session, scopes, Resolved(Value(Answer())));
    WriteCommits(ws, session, scopes);
    SettlingLeavesTheRegistry(ws, session, scopes);
    ReachableExtends(s, Settle(0), AfterSettle(ws, session, scopes));
  }

  lemma ReaderDetaches(ws: seq<Scope>, session: Session, scopes: set<Scope>)
    ensures WellFormed(AfterSettle(ws, session, scopes))
    ensures Detach(AfterSettle(ws, session, scopes), 0) == AfterDetach(ws, session, scopes)
  {
    var s := AfterSettle(ws, session, scopes);
    assert s.readers - {0} == map[];
  }

  lemma ReaderResumes(ws: seq<Scope>, session: Session, scopes: set<Scope>)
    ensures WellFormed(AfterSettle(ws, session, scopes)) && WellFormed(AfterDetach(ws, session, scopes))
    ensures Next(AfterSettle(ws, session, scopes), Resume(0, false, 0))
         == Continue(AfterDetach(ws, session, scopes), 0, Waiter(session, scopes, 0), Value(Answer()), false, 0)
  {
    ReaderDetaches(ws, session, scopes);
  }

  lemma RevisionsStayCurrent(ws: seq<Scope>, session: Session, scopes: set<Scope>)
    requires forall w :: w in ws ==> w !in scopes
    ensures ScopesAreCurrent(AfterDetach(ws, session, scopes), FirstKey(session, scopes).revisions)
  {
    BumpRaisesTheListed(map[], ws);
    forall c <- scopes ensures Count(Bump(map[], ws), c) == 0 {
      assert Count(map[], c) == 0;
    }
  }

  lemma ReaderIsServed(ws: seq<Scope>, session: Session, scopes: set<Scope>)
    requires forall w :: w in ws ==> w !in scopes
    ensures WellFormed(AfterDetach(ws, session, scopes))
    ensures Continue(AfterDetach(ws, session, scopes), 0, Waiter(session, scopes, 0), Value(Answer()), false, 0).log
         == [Started(0), InvalidatedScopes(ws), Finished(0), Served(0, Asks(session, scopes), Answer(), Transported)]
  {
    RevisionsStayCurrent(ws, session, scopes);
  }

  lemma StaleRun(ws: seq<Scope>, session: Session, scopes: set<Scope>) returns (s: State)
    requires AnyScopeMatches(ws, scopes) && forall w :: w in ws ==> w !in scopes
    ensures Reachable(s)
    ensures s.log == [Started(0), InvalidatedScopes(ws), Finished(0),
                      Served(0, Asks(session, scopes), Answer(), Transported)]
  {
    var settled := AfterSettle(ws, session, scopes);
    TransportSettles(ws, session, scopes);
    ReaderResumes(ws, session, scopes);
    ReaderIsServed(ws, session, scopes);
    s := Next(settled, Resume(0, false, 0));
    ReachableExtends(settled, Resume(0, false, 0), s);
  }

  // ----- What follows -----

  /**
   A write that matches a read's scopes and lists none of them lets a value through whose transport started before
   the write committed: the answer was there, and its reader had not yet resumed.
   */
  lemma UnlistedMatchMayServeStaleData(ws: seq<Scope>, session: Session, scopes: set<Scope>) returns (s: State)
    requires AnyScopeMatches(ws, scopes) && forall w :: w in ws ==> w !in scopes
    ensures Reachable(s) && |s.log| == 4
    ensures s.log[1] == InvalidatedScopes(ws)
    ensures s.log[3] == Served(0, Asks(session, scopes), Answer(), Transported)
    ensures !StartedBetween(s.log, Answer().origin, 1, 3)
  {
    s := StaleRun(ws, session, scopes);
    assert s.log[0] == Started(0);
  }

  /** In every run, what a read of these scopes is served after such a write comes from a transport started later. */
  ghost predicate CoherentAfter(ws: seq<Scope>, session: Session, scopes: set<Scope>) {
    forall s, i: nat, j: nat ::
      Reachable(s) && i < j < |s.log| && s.log[i] == InvalidatedScopes(ws) && s.log[j].Served?
      && s.log[j].request.session == session && s.log[j].request.scopes == scopes ==>
        StartedBetween(s.log, s.log[j].data.origin, i, j)
  }

  /** Matched reads are coherent after a write exactly when one of the written scopes is in the read's list. */
  lemma MatchedReadsAreCoherentIff(ws: seq<Scope>, session: Session, scopes: set<Scope>)
    requires AnyScopeMatches(ws, scopes)
    ensures CoherentAfter(ws, session, scopes) <==> exists w :: w in ws && w in scopes
  {
    if w :| w in ws && w in scopes {
      forall s, i: nat, j: nat | Reachable(s) && i < j < |s.log| && s.log[i] == InvalidatedScopes(ws)
                                 && s.log[j].Served? && s.log[j].request.scopes == scopes
        ensures StartedBetween(s.log, s.log[j].data.origin, i, j)
      {
        ServedDataIsCoherent(s, i, j);
      }
    } else {
      var s := UnlistedMatchMayServeStaleData(ws, session, scopes);
    }
  }

  lemma ProperMatchIsUnlisted(w: Scope, c: Scope)
    requires DataScopeMatches(w, c) && w != c
    ensures AnyScopeMatches([w], Elements([c])) && forall x :: x in [w] ==> x !in Elements([c])
  {
    OneMatchIsEnough([w], 0, c, Elements([c]));
  }

  /** For every pair of nested domains the generated scopes let such a stale value through. */
  lemma NestedDomainsMayServeStaleData(readPath: string, writePath: string)
    requires ReadDataScopes(readPath, "", "") == ["domain:" + Domain(readPath)]
    requires WriteInvalidationScopes(writePath, "", "") == ["domain:" + Domain(writePath)]
    requires Nests(writePath, "", readPath, "")
    ensures var ws, scopes := WriteInvalidationScopes(writePath, "", ""), Elements(ReadDataScopes(readPath, "", ""));
            AnyScopeMatches(ws, scopes) && !CoherentAfter(ws, "", scopes)
  {
    var w, c := "domain:" + Domain(writePath), "domain:" + Domain(readPath);
    NestedDomainsMatch(writePath, readPath);
    ProperMatchIsUnlisted(w, c);
    MatchedReadsAreCoherentIff([w], "", Elements([c]));
  }

  /** So do the scopes of a write to a session itself, for every session that continues its name with a colon. */
  lemma NestedSessionsMayServeStaleData(writePath: string, session: Session, readPath: string, readSuffix: string,
                                        readSession: Session)
    requires session != "" && Nests(writePath, session, readPath, readSession)
    requires !IsProjectionNeutralControlWrite(writePath)
    ensures var ws := WriteInvalidationScopes(writePath, "", session);
            var scopes := Elements(ReadDataScopes(readPath, readSuffix, readSession));
            AnyScopeMatches(ws, scopes) && !CoherentAfter(ws, readSession, scopes)
  {
    var ws := WriteInvalidationScopes(writePath, "", session);
    NestedSessionIsUnlisted(ws, session, readPath, readSuffix, readSession);
    MatchedReadsAreCoherentIff(ws, readSession, Elements(ReadDataScopes(readPath, readSuffix, readSession)));
  }
}
