/**
 A visit to a lane: lookup with pruning, locking, unlocking and leaving, and what each turn achieves
 (crates/edge-adapters/src/message_sidecar.rs and source_sidecar.rs). The safety statements would hold of a registry
 that never hands out a lane.
 */
module LaneProgress {
  import opened Wrappers
  import opened LaneRegistry

  // ----- Pruning -----

  function PruneTurns(t: Task, keys: seq<Key>): seq<Step> {
    seq(|keys|, i requires 0 <= i < |keys| => Prune(t, keys[i]))
  }

  /** The registry without the listed keys whose lane is dead. */
  function Pruned(s: State, keys: set<Key>): map<Key, LaneId> {
    map k | k in s.registry && (k !in keys || Upgradable(s, k)) :: s.registry[k]
  }

  function Members(keys: seq<Key>): set<Key> {
    set k | k in keys
  }

  predicate Distinct(keys: seq<Key>) {
    forall i, j :: 0 <= i < j < |keys| ==> keys[i] != keys[j]
  }

  /** Looking at entries in any order removes exactly the dead ones and changes nothing else. */
  lemma {:induction false} PruningKeepsTheLive(s: State, t: Task, key: Key, todo: set<Key>, keys: seq<Key>)
    requires Of(s, t) == Pruning(key, todo) && Distinct(keys) && Members(keys) <= todo
    ensures Run(s, PruneTurns(t, keys))
         == s.(registry := Pruned(s, Members(keys)), tasks := s.tasks[t := Pruning(key, todo - Members(keys))])
    decreases |keys|
  {
    if keys == [] {
      PruneNothing(s, t, key, todo);
      assert PruneTurns(t, keys) == [] && Members(keys) == {};
    } else {
      var init, last := keys[..|keys| - 1], keys[|keys| - 1];
      MembersOfOneMore(init, last, keys);
      PruningKeepsTheLive(s, t, key, todo, init);
      LastPrune(s, t, init, last, keys);
      PruneOneMore(s, t, key, todo, Members(init), last);
    }
  }

  lemma LastPrune(s: State, t: Task, init: seq<Key>, last: Key, keys: seq<Key>)
    requires keys == init + [last]
    ensures Run(s, PruneTurns(t, keys)) == Next(Run(s, PruneTurns(t, init)), Prune(t, last))
  {
    assert PruneTurns(t, keys)[..|keys| - 1] == PruneTurns(t, init);
  }

  lemma PruneNothing(s: State, t: Task, key: Key, todo: set<Key>)
    requires Of(s, t) == Pruning(key, todo)
    ensures s == s.(registry := Pruned(s, {}), tasks := s.tasks[t := Pruning(key, todo - {})])
  {
    assert Pruned(s, {}) == s.registry && todo - {} == todo;
    assert s.tasks[t := Pruning(key, todo)] == s.tasks;
  }

  lemma MembersOfOneMore(init: seq<Key>, last: Key, keys: seq<Key>)
    requires keys == init + [last] && Distinct(keys)
    ensures Members(keys) == Members(init) + {last} && last !in Members(init) && Distinct(init)
  {
    assert keys[|init|] == last && forall i :: 0 <= i < |init| ==> init[i] == keys[i];
    forall i | 0 <= i < |init| ensures init[i] != last { assert init[i] == keys[i]; }
    forall k ensures k in keys <==> k in init || k == last {
      if k in init {
        var i :| 0 <= i < |init| && init[i] == k;
        assert keys[i] == k;
      }
      if k == last { assert keys[|init|] == k; }
    }
  }

  lemma PruneOneMore(s: State, t: Task, key: Key, todo: set<Key>, done: set<Key>, k: Key)
    requires Of(s, t) == Pruning(key, todo) && k in todo && k !in done
    ensures Next(s.(registry := Pruned(s, done), tasks := s.tasks[t := Pruning(key, todo - done)]), Prune(t, k))
         == s.(registry := Pruned(s, done + {k}), tasks := s.tasks[t := Pruning(key, todo - (done + {k}))])
  {
    var s1 := s.(registry := Pruned(s, done), tasks := s.tasks[t := Pruning(key, todo - done)]);
    assert Upgradable(s1, k) <==> Upgradable(s, k);
    assert Pruned(s, done + {k}) == if Upgradable(s, k) then s1.registry else s1.registry - {k};
    assert todo - (done + {k}) == (todo - done) - {k};
  }

  // ----- Runs -----

  lemma {:induction false} RunAppends(s: State, a: seq<Step>, b: seq<Step>)
    ensures Run(s, a + b) == Run(Run(s, a), b)
    decreases |b|
  {
    if b == [] {
      assert a + b == a;
    } else {
      var init, last := b[..|b| - 1], b[|b| - 1];
      RunAppends(s, a, init);
      assert (a + b)[..|a + b| - 1] == a + init && (a + b)[|a + b| - 1] == last;
    }
  }

  lemma RunOne(s: State, a: Step)
    ensures Run(s, [a]) == Next(s, a)
  {
    assert [a][..0] == [];
    assert Run(s, []) == s;
  }

  // ----- Looking up -----

  /** All turns of a lookup under the registry's mutex; the last does nothing if the key has a live lane. */
  function LookupTurns(t: Task, key: Key, keys: seq<Key>, l: LaneId): seq<Step> {
    [Enter(t, key)] + PruneTurns(t, keys) + [Lookup(t)] + [Create(t, l)]
  }

  /** The lane a key has, or the new one. */
  function LaneFor(s: State, key: Key, l: LaneId): LaneId {
    if Upgradable(s, key) then s.registry[key] else l
  }

  /** That lane with one more reference. */
  function Joined(s: State, t: Task, key: Key, l: LaneId): Lane
    requires Upgradable(s, key) ==> s.registry[key] in s.lanes
  {
    if Upgradable(s, key) then s.lanes[s.registry[key]].(refs := s.lanes[s.registry[key]].refs + {t})
    else Lane(key, {t}, None)
  }

  /** The entries have been looked over: the registry is pruned, and nothing else has changed. */
  predicate LookedOver(s: State, pruned: State, t: Task, key: Key) {
    && pruned.mutex == Some(t) && pruned.lanes == s.lanes && pruned.registry == Pruned(s, s.registry.Keys)
    && pruned.tasks == s.tasks[t := Pruning(key, {})]
  }

  lemma EntriesAreLookedOver(s: State, t: Task, key: Key, keys: seq<Key>)
    requires Of(s, t).Idle? && s.mutex.None? && Distinct(keys) && Members(keys) == s.registry.Keys
    ensures LookedOver(s, Run(Next(s, Enter(t, key)), PruneTurns(t, keys)), t, key)
  {
    var entered := Next(s, Enter(t, key));
    PruningKeepsTheLive(entered, t, key, s.registry.Keys, keys);
    assert Pruned(entered, s.registry.Keys) == Pruned(s, s.registry.Keys);
    assert s.registry.Keys - Members(keys) == {};
  }

  lemma LiveEntryIsFound(s: State, pruned: State, t: Task, key: Key, l: LaneId)
    requires LookedOver(s, pruned, t, key) && Upgradable(s, key)
    ensures var s' := Next(Next(pruned, Lookup(t)), Create(t, l));
            && Of(s', t) == Holding(key, s.registry[key]) && s'.mutex.None?
            && s'.lanes == s.lanes[s.registry[key] := Joined(s, t, key, l)]
            && s'.registry == Pruned(s, s.registry.Keys)
            && forall u :: u != t ==> Of(s', u) == Of(s, u)
  {
  }

  lemma NewLaneIsMade(s: State, pruned: State, t: Task, key: Key, l: LaneId)
    requires LookedOver(s, pruned, t, key) && !Upgradable(s, key) && l !in s.lanes
    ensures var s' := Next(Next(pruned, Lookup(t)), Create(t, l));
            && Of(s', t) == Holding(key, l) && s'.mutex.None?
            && s'.lanes == s.lanes[l := Lane(key, {t}, None)]
            && s'.registry == Pruned(s, s.registry.Keys)[key := l]
            && forall u :: u != t ==> Of(s', u) == Of(s, u)
  {
  }

  /**
   A task that finds the registry's mutex free and looks every entry over leaves with the key's live lane, or with a new
   one if there is none; dead lanes are gone from the registry, and the mutex is free again.
   */
  lemma LookupHandsOutTheLane(s: State, t: Task, key: Key, keys: seq<Key>, l: LaneId)
    requires Of(s, t).Idle? && s.mutex.None? && l !in s.lanes
    requires Distinct(keys) && Members(keys) == s.registry.Keys
    ensures var s', lane := Run(s, LookupTurns(t, key, keys, l)), LaneFor(s, key, l);
            && Of(s', t) == Holding(key, lane) && s'.mutex.None?
            && s'.lanes == s.lanes[lane := Joined(s, t, key, l)]
            && s'.registry == Pruned(s, s.registry.Keys)[key := lane]
            && forall u :: u != t ==> Of(s', u) == Of(s, u)
  {
    var entered := Next(s, Enter(t, key));
    var pruned := Run(entered, PruneTurns(t, keys));
    RunOne(s, Enter(t, key));
    RunAppends(s, [Enter(t, key)], PruneTurns(t, keys));
    EntriesAreLookedOver(s, t, key, keys);
    RunAppends(s, [Enter(t, key)] + PruneTurns(t, keys), [Lookup(t)]);
    RunOne(pruned, Lookup(t));
    RunAppends(s, [Enter(t, key)] + PruneTurns(t, keys) + [Lookup(t)], [Create(t, l)]);
    RunOne(Next(pruned, Lookup(t)), Create(t, l));
    if Upgradable(s, key) {
      LiveEntryIsFound(s, pruned, t, key, l);
      assert Pruned(s, s.registry.Keys)[key := s.registry[key]] == Pruned(s, s.registry.Keys);
    } else {
      NewLaneIsMade(s, pruned, t, key, l);
    }
  }

  // ----- Locking and leaving -----

  /** A task that has its lane gets the lock exactly when nobody holds it. */
  lemma LockSucceedsIff(s: State, t: Task)
    requires Reachable(s) && Of(s, t).Holding?
    ensures Of(s, t).lane in s.lanes
    ensures var l := Of(s, t).lane;
            Next(s, Lock(t))
            == if s.lanes[l].holder.Some? then s
               else With(s.(lanes := s.lanes[l := s.lanes[l].(holder := Some(t))]), t, Locked(Of(s, t).key, l))
  {
    ReachableHolds(s);
    assert HoldsWell(s, t);
  }

  /** Unlocking leaves the lane without a holder, so that any other task that has it gets the lock next. */
  lemma UnlockLetsTheNextIn(s: State, t: Task, u: Task)
    requires Reachable(s) && Of(s, t).Locked? && u != t && Of(s, u).Holding? && Of(s, u).lane == Of(s, t).lane
    ensures Next(s, Lock(u)) == s
    ensures var s' := Next(Next(s, Unlock(t)), Lock(u));
            && Of(s', t) == Holding(Of(s, t).key, Of(s, t).lane) && Of(s', u) == Locked(Of(s, u).key, Of(s, u).lane)
  {
    ReachableHolds(s);
    assert HoldsWell(s, t) && HoldsWell(s, u);
  }

  /** Leaving gives the reference back and nothing else; the lane is dead exactly if it was the last one. */
  lemma LeavingGivesTheReferenceBack(s: State, t: Task)
    requires Reachable(s) && Of(s, t).Holding?
    ensures var l, s' := Of(s, t).lane, Next(s, Drop(t));
            && Of(s', t).Idle? && l in s.lanes && s'.registry == s.registry && s'.mutex == s.mutex
            && s'.lanes == s.lanes[l := s.lanes[l].(refs := s.lanes[l].refs - {t})]
            && (Alive(s', l) <==> s.lanes[l].refs != {t})
  {
    ReachableHolds(s);
    assert HoldsWell(s, t);
  }

  /** A whole visit. */
  function VisitTurns(t: Task, key: Key, keys: seq<Key>, l: LaneId): seq<Step> {
    LookupTurns(t, key, keys, l) + [Lock(t)]
  }

  /** A visit to a lane that nobody holds ends inside it. */
  lemma VisitGetsIn(s: State, t: Task, key: Key, keys: seq<Key>, l: LaneId)
    requires Reachable(s) && Of(s, t).Idle? && s.mutex.None? && l !in s.lanes
    requires Distinct(keys) && Members(keys) == s.registry.Keys
    requires Upgradable(s, key) ==> s.lanes[s.registry[key]].holder.None?
    ensures Of(Run(s, VisitTurns(t, key, keys, l)), t) == Locked(key, LaneFor(s, key, l))
  {
    LookupHandsOutTheLane(s, t, key, keys, l);
    RunAppends(s, LookupTurns(t, key, keys, l), [Lock(t)]);
    RunOne(Run(s, LookupTurns(t, key, keys, l)), Lock(t));
  }
}
