/** What the read protocol promises over every run from the initial state. */
module ReadTheorems {
  import opened DataScopes
  import opened ReadCoherence
  import opened ReadSafety

  /** `t` was started, once, at an index strictly between `i` and `j`. */
  ghost predicate StartedBetween(log: seq<Event>, t: TransportId, i: int, j: int) {
    && (exists k :: 0 <= k < |log| && log[k] == Started(t))
    && (forall k :: 0 <= k < |log| && log[k] == Started(t) ==> i < k < j)
  }

  /** At index `i` the transport had started and had not finished. */
  ghost predicate InFlightAt(log: seq<Event>, t: TransportId, i: int) {
    && (exists k :: 0 <= k < i && k < |log| && log[k] == Started(t))
    && (forall k :: 0 <= k < i && k < |log| ==> log[k] != Finished(t))
  }

  lemma LeadsKeeps(s: State, s': State)
    requires Inv(s) && Leads(s, s')
    ensures Inv(s')
  {
    var steps :| Run(s, steps) == s';
    RunKeeps(s, steps);
  }

  lemma ReachableHolds(s: State)
    requires Reachable(s)
    ensures Inv(s)
  {
    LeadsKeeps(Init, s);
  }

  lemma StartIsUnique(s: State, t: TransportId)
    requires Inv(s) && t < |s.transports|
    ensures forall k :: 0 <= k < |s.log| && s.log[k] == Started(t) ==> k == s.transports[t].start
    ensures s.transports[t].start < |s.log| && s.log[s.transports[t].start] == Started(t)
  {
    assert TransportOk(s, t);
    forall k | 0 <= k < |s.log| && s.log[k] == Started(t) ensures k == s.transports[t].start {
      assert LogOk(s, k);
    }
  }

  /**
   Coherence: whatever is served, from the cache, from a joined or an own transport, or as a stale fallback,
   comes from a transport started after the last invalidation of any of the read's scopes and after the last
   global invalidation.
   */
  lemma ServedDataIsCoherent(s: State, i: nat, j: nat)
    requires Reachable(s) && i < j < |s.log|
    requires s.log[j].Served? && Hits(s.log[i], s.log[j].request.scopes)
    ensures StartedBetween(s.log, s.log[j].data.origin, i, j)
  {
    ReachableHolds(s);
    assert LogOk(s, j);
    var t := s.log[j].data.origin;
    StartIsUnique(s, t);
    assert s.log[..j][i] == s.log[i];
    assert TransportOk(s, t);
  }

  /**
   The same for prefix matching, on the scopes the client generates itself, for a write and a read of any sessions or
   none: a write invalidates every read whose scope list it matches, unless the read's domain or session nests in the
   written one.
   */
  lemma GeneratedScopesAreCoherent(s: State, i: nat, j: nat, writePath: string, writeSuffix: string,
                                   writeSession: Session, readPath: string, readSuffix: string, readSession: Session)
    requires Reachable(s) && i < j < |s.log| && !Nests(writePath, writeSession, readPath, readSession)
    requires s.log[j].Served? && s.log[j].request.scopes == Elements(ReadDataScopes(readPath, readSuffix, readSession))
    requires s.log[i] == InvalidatedScopes(WriteInvalidationScopes(writePath, writeSuffix, writeSession))
    requires AnyScopeMatches(WriteInvalidationScopes(writePath, writeSuffix, writeSession), s.log[j].request.scopes)
    ensures StartedBetween(s.log, s.log[j].data.origin, i, j)
  {
    var scopes := WriteInvalidationScopes(writePath, writeSuffix, writeSession);
    var w, c :| 0 <= w < |scopes| && c in s.log[j].request.scopes && DataScopeMatches(scopes[w], c);
    AnyMatchIsMember(writePath, writeSuffix, writeSession, readPath, readSuffix, readSession, scopes[w], c);
    ServedDataIsCoherent(s, i, j);
  }

  /** A write without a session leaves the results, transports and revisions of every session's reads alone. */
  lemma UnscopedWritesSpareSessions(s: State, writePath: string, writeSuffix: string, readPath: string,
                                    readSuffix: string, session: Session, k: Key)
    requires WellFormed(s) && session != ""
    requires k.revisions.Keys == Elements(ReadDataScopes(readPath, readSuffix, session))
    ensures var s' := Next(s, Commit(WriteInvalidationScopes(writePath, writeSuffix, "")));
            && (k in s.cache && s.cache[k].scopes == k.revisions.Keys ==> k in s'.cache)
            && (k in s.inFlight && s.transports[s.inFlight[k]].scopes == k.revisions.Keys ==> k in s'.inFlight)
            && (ScopesAreCurrent(s, k.revisions) <==> ScopesAreCurrent(s', k.revisions))
  {
    var scopes := WriteInvalidationScopes(writePath, writeSuffix, "");
    forall w, c | w in scopes && c in k.revisions.Keys ensures !DataScopeMatches(w, c) {
      ReadScopesOfSession(readPath, readSuffix, session, c);
      UnscopedWritesMissSessions(writePath, writeSuffix, session, w, c);
    }
    assert !AnyScopeMatches(scopes, k.revisions.Keys);
    Untouched(s, scopes, k.revisions.Keys);
  }

  // ----- Runs -----

  lemma {:induction false} RunExtends(s: State, steps: seq<Step>, step: Step)
    requires WellFormed(s)
    ensures Run(s, steps + [step]) == Next(Run(s, steps), step)
    decreases |steps|
  {
    var longer := steps + [step];
    if steps == [] {
      assert longer == [step] && longer[1..] == [];
      assert Run(s, longer) == Run(Next(s, step), []);
    } else {
      assert longer[0] == steps[0] && longer[1..] == steps[1..] + [step];
      RunExtends(Next(s, steps[0]), steps[1..], step);
    }
  }

  lemma ReachableExtends(s: State, step: Step, s': State)
    requires Reachable(s) && s' == Next(s, step)
    ensures Reachable(s')
  {
    var steps :| Run(Init, steps) == s;
    RunExtends(Init, steps, step);
  }

  lemma {:induction false} ReachableRuns(s: State, steps: seq<Step>)
    requires Reachable(s)
    ensures Reachable(Run(s, steps))
    decreases |steps|
  {
    if steps != [] {
      ReachableExtends(s, steps[0], Next(s, steps[0]));
      ReachableRuns(Next(s, steps[0]), steps[1..]);
    }
  }

  // ----- Revocation -----

  /**
   The revocation fence. After session `x` is revoked, a value served to `x` comes from a transport started
   later; a value served to an unscoped read does too, unless it is a stored result that was complete before
   the revocation and does not mention `x`. In particular a transport in flight at the revocation serves neither.
   */
  lemma RevocationFencesServedData(s: State, i: nat, j: nat)
    requires Reachable(s) && i < j < |s.log|
    requires s.log[i].Revoked? && s.log[j].Served? && s.log[j].request.session in {"", s.log[i].session}
    ensures !InFlightAt(s.log, s.log[j].data.origin, i)
    ensures var e := s.log[j];
            || StartedBetween(s.log, e.data.origin, i, j)
            || (e.request.session == "" && e.how != Transported && s.log[i].session !in e.data.refs)
  {
    ReachableHolds(s);
    assert LogOk(s, j);
    var t := s.log[j].data.origin;
    StartIsUnique(s, t);
    assert s.log[..j][i] == s.log[i];
    assert TransportOk(s, t);
    if s.transports[t].start < i {
      assert s.log[s.transports[t].phase.at] == Finished(t);
    }
  }

  /**
   No cache entry of the revoked session, or of unscoped reads, comes from a transport in flight at the revocation.
   */
  lemma RevocationFencesTheCache(s: State, i: nat, k: Key)
    requires Reachable(s) && i < |s.log| && s.log[i].Revoked?
    requires k in s.cache && k.stamp.session in {"", s.log[i].session}
    ensures !InFlightAt(s.log, s.cache[k].data.origin, i)
  {
    ReachableHolds(s);
    assert CacheOk(s, k);
    var t := s.cache[k].data.origin;
    StartIsUnique(s, t);
    assert TransportOk(s, t);
    if s.transports[t].start < i {
      assert s.log[s.transports[t].phase.at] == Finished(t);
    }
  }

  // ----- No ABA -----

  lemma OldKeysAreDead(s: State, k: Key)
    requires Inv(s) && k.stamp.globalEpoch < s.authEpoch
    ensures !StampIsCurrent(s, k.stamp) && k !in s.cache && k !in s.inFlight
    ensures forall request :: TakeKey(s, request) != k
  {
    assert k in s.cache ==> CacheOk(s, k);
    assert k in s.inFlight ==> FlightOk(s, k);
  }

  /** A key taken before a global invalidation is never current, registered, cached or taken again. */
  lemma OldKeysNeverReturn(s: State, s': State, k: Key)
    requires Reachable(s) && k.stamp.globalEpoch <= s.authEpoch && Leads(Next(s, Logout), s')
    ensures !StampIsCurrent(s', k.stamp) && k !in s'.cache && k !in s'.inFlight
    ensures forall request :: TakeKey(s', request) != k
  {
    ReachableHolds(s);
    NextKeeps(s, Logout);
    LeadsKeeps(Next(s, Logout), s');
    EpochNeverFalls(Next(s, Logout), s');
    OldKeysAreDead(s', k);
  }

  lemma EpochNeverFalls(s: State, s': State)
    requires WellFormed(s) && Leads(s, s')
    ensures s.authEpoch <= s'.authEpoch
  {
  }

  /** The revisions alone do return: an invalidation followed by a global one restores the recorded revision. */
  lemma RevisionsAloneReturn(scope: Scope)
    ensures var k := TakeKey(Init, Request("", {scope}, 0, 0));
            var s1 := Next(Init, Commit([scope]));
            !ScopesAreCurrent(s1, k.revisions) && ScopesAreCurrent(Next(s1, Logout), k.revisions)
  {
    var k := TakeKey(Init, Request("", {scope}, 0, 0));
    var s1 := Next(Init, Commit([scope]));
    BumpRaisesTheListed(map[], [scope]);
    assert scope in [scope];
    assert scope in k.revisions;
  }
}
