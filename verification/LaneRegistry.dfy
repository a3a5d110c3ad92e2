/**
 Per-key lanes in a map of weak references that is pruned on every lookup
 (crates/edge-adapters/src/message_sidecar.rs, `SessionLaneRegistry`, and crates/edge-adapters/src/source_sidecar.rs,
 `ResourceLaneRegistry`). A lookup runs under the registry's mutex in several steps; dropping a lane does not take
 that mutex and may fall between them.
 */
module LaneRegistry {
  import opened Wrappers

  type Task = int
  type Key = int
  type LaneId = int

  datatype TaskState =
    | Idle
    | Pruning(key: Key, todo: set<Key>)
    | Missing(key: Key)
    | Holding(key: Key, lane: LaneId)
    | Locked(key: Key, lane: LaneId)

  /** `refs` are the tasks holding a strong reference; the lane is alive while there are any. */
  datatype Lane = Lane(key: Key, refs: set<Task>, holder: Option<Task>)

  datatype State = State(mutex: Option<Task>, registry: map<Key, LaneId>, lanes: map<LaneId, Lane>,
                         tasks: map<Task, TaskState>)

  datatype Step =
    | Enter(task: Task, key: Key)
    | Prune(task: Task, key: Key)
    | Lookup(task: Task)
    | Create(task: Task, lane: LaneId)
    | Lock(task: Task)
    | Unlock(task: Task)
    | Drop(task: Task)

  function Of(s: State, t: Task): TaskState {
    if t in s.tasks then s.tasks[t] else Idle
  }

  predicate Alive(s: State, l: LaneId) {
    l in s.lanes && s.lanes[l].refs != {}
  }

  /** `Weak::upgrade` of the key's entry would succeed. */
  predicate Upgradable(s: State, key: Key) {
    key in s.registry && Alive(s, s.registry[key])
  }

  function With(s: State, t: Task, state: TaskState): State {
    s.(tasks := s.tasks[t := state])
  }

  // ----- The steps -----

  function OnEnter(s: State, t: Task, key: Key): State {
    if Of(s, t).Idle? && s.mutex.None? then With(s.(mutex := Some(t)), t, Pruning(key, s.registry.Keys)) else s
  }

  /** `retain` looks at one entry. */
  function OnPrune(s: State, t: Task, key: Key): State {
    var state := Of(s, t);
    if !state.Pruning? || key !in state.todo then s
    else
      var kept := if Upgradable(s, key) then s.registry else s.registry - {key};
      With(s.(registry := kept), t, Pruning(state.key, state.todo - {key}))
  }

  function OnLookup(s: State, t: Task): State {
    var state := Of(s, t);
    if !state.Pruning? || state.todo != {} then s
    else if Upgradable(s, state.key) then
      var l := s.registry[state.key];
      With(s.(mutex := None, lanes := s.lanes[l := s.lanes[l].(refs := s.lanes[l].refs + {t})]), t,
          Holding(state.key, l))
    else With(s, t, Missing(state.key))
  }

  function OnCreate(s: State, t: Task, l: LaneId): State {
    var state := Of(s, t);
    if !state.Missing? || l in s.lanes then s
    else
      With(s.(mutex := None, lanes := s.lanes[l := Lane(state.key, {t}, None)], registry := s.registry[state.key := l]),
           t, Holding(state.key, l))
  }

  function OnLock(s: State, t: Task): State {
    var state := Of(s, t);
    if !state.Holding? || state.lane !in s.lanes || s.lanes[state.lane].holder.Some? then s
    else With(s.(lanes := s.lanes[state.lane := s.lanes[state.lane].(holder := Some(t))]), t,
        Locked(state.key, state.lane))
  }

  function OnUnlock(s: State, t: Task): State {
    var state := Of(s, t);
    if !state.Locked? || state.lane !in s.lanes then s
    else With(s.(lanes := s.lanes[state.lane := s.lanes[state.lane].(holder := None)]), t,
        Holding(state.key, state.lane))
  }

  /** After unlocking, or while waiting for the lock when the task is cancelled. */
  function OnDrop(s: State, t: Task): State {
    var state := Of(s, t);
    if !state.Holding? || state.lane !in s.lanes then s
    else With(s.(lanes := s.lanes[state.lane := s.lanes[state.lane].(refs := s.lanes[state.lane].refs - {t})]), t, Idle)
  }

  function Next(s: State, step: Step): State {
    match step
    case Enter(t, key) => OnEnter(s, t, key)
    case Prune(t, key) => OnPrune(s, t, key)
    case Lookup(t) => OnLookup(s, t)
    case Create(t, l) => OnCreate(s, t, l)
    case Lock(t) => OnLock(s, t)
    case Unlock(t) => OnUnlock(s, t)
    case Drop(t) => OnDrop(s, t)
  }

  function Run(s: State, steps: seq<Step>): State {
    if steps == [] then s else Next(Run(s, steps[..|steps| - 1]), steps[|steps| - 1])
  }

  function Start(): State {
    State(None, map[], map[], map[])
  }

  // ----- The invariant -----

  predicate Holds(s: State, t: Task, l: LaneId) {
    var state := Of(s, t);
    (state.Holding? || state.Locked?) && state.lane == l
  }

  /** Entries are filed under their lane's key, and every live lane has its entry. */
  predicate Filed(s: State) {
    && (forall k <- s.registry :: s.registry[k] in s.lanes && s.lanes[s.registry[k]].key == k)
    && (forall l <- s.lanes :: s.lanes[l].refs != {} ==> Entry(s, s.lanes[l].key, l))
  }

  predicate Entry(s: State, key: Key, l: LaneId) {
    key in s.registry && s.registry[key] == l
  }

  /** A task holding a lane is among its references, and a task that locked it is its holder. */
  predicate HoldsWell(s: State, t: Task) {
    var state := Of(s, t);
    && (state.Holding? || state.Locked? ==>
         state.lane in s.lanes && t in s.lanes[state.lane].refs && s.lanes[state.lane].key == state.key)
    && (state.Locked? ==> state.lane in s.lanes && s.lanes[state.lane].holder == Some(t))
  }

  predicate HeldWell(s: State, l: LaneId)
    requires l in s.lanes
  {
    && (forall t <- s.lanes[l].refs :: Holds(s, t, l))
    && (s.lanes[l].holder.Some? ==> Of(s, s.lanes[l].holder.value) == Locked(s.lanes[l].key, l))
  }

  /** Only the task in the registry's mutex is looking up, and once it missed its key nothing revives the lane. */
  predicate LooksUpWell(s: State, t: Task) {
    && (Of(s, t).Pruning? || Of(s, t).Missing? ==> s.mutex == Some(t))
    && (Of(s, t).Missing? ==> !Upgradable(s, Of(s, t).key))
  }

  ghost predicate Inv(s: State) {
    && Filed(s)
    && (forall t :: HoldsWell(s, t))
    && (forall l <- s.lanes :: HeldWell(s, l))
    && (forall t :: LooksUpWell(s, t))
  }

  lemma EnterKeeps(s: State, t: Task, key: Key)
    requires Inv(s)
    ensures Inv(OnEnter(s, t, key))
  {
    var s' := OnEnter(s, t, key);
    forall u ensures HoldsWell(s', u) { assert HoldsWell(s, u) && HoldsWell(s, t); }
    forall u ensures LooksUpWell(s', u) { assert LooksUpWell(s, u) && LooksUpWell(s, t); }
  }

  lemma PruneKeeps(s: State, t: Task, key: Key)
    requires Inv(s)
    ensures Inv(OnPrune(s, t, key))
  {
    var s' := OnPrune(s, t, key);
    forall u ensures HoldsWell(s', u) { assert HoldsWell(s, u) && HoldsWell(s, t); }
    forall u ensures LooksUpWell(s', u) { assert LooksUpWell(s, u) && LooksUpWell(s, t); }
  }

  lemma LookupKeepsTask(s: State, t: Task, u: Task)
    requires Inv(s)
    ensures HoldsWell(OnLookup(s, t), u) && LooksUpWell(OnLookup(s, t), u)
  {
    assert HoldsWell(s, u) && HoldsWell(s, t);
    assert LooksUpWell(s, u) && LooksUpWell(s, t);
  }

  lemma LookupKeeps(s: State, t: Task)
    requires Inv(s)
    ensures Inv(OnLookup(s, t))
  {
    forall u ensures HoldsWell(OnLookup(s, t), u) && LooksUpWell(OnLookup(s, t), u) { LookupKeepsTask(s, t, u); }
  }

  lemma CreateKeepsTask(s: State, t: Task, l: LaneId, u: Task)
    requires Inv(s)
    ensures HoldsWell(OnCreate(s, t, l), u) && LooksUpWell(OnCreate(s, t, l), u)
  {
    assert HoldsWell(s, u) && HoldsWell(s, t);
    assert LooksUpWell(s, u) && LooksUpWell(s, t);
  }

  lemma CreateKeeps(s: State, t: Task, l: LaneId)
    requires Inv(s)
    ensures Inv(OnCreate(s, t, l))
  {
    assert HoldsWell(s, t) && LooksUpWell(s, t);
    forall u ensures HoldsWell(OnCreate(s, t, l), u) && LooksUpWell(OnCreate(s, t, l), u) {
      CreateKeepsTask(s, t, l, u);
    }
  }

  lemma LockKeeps(s: State, t: Task)
    requires Inv(s)
    ensures Inv(OnLock(s, t))
  {
    var s' := OnLock(s, t);
    forall u ensures HoldsWell(s', u) { assert HoldsWell(s, u) && HoldsWell(s, t); }
    forall u ensures LooksUpWell(s', u) { assert LooksUpWell(s, u) && LooksUpWell(s, t); }
  }

  lemma UnlockKeeps(s: State, t: Task)
    requires Inv(s)
    ensures Inv(OnUnlock(s, t))
  {
    var s' := OnUnlock(s, t);
    forall u ensures HoldsWell(s', u) { assert HoldsWell(s, u) && HoldsWell(s, t); }
    forall u ensures LooksUpWell(s', u) { assert LooksUpWell(s, u) && LooksUpWell(s, t); }
  }

  lemma DropKeeps(s: State, t: Task)
    requires Inv(s)
    ensures Inv(OnDrop(s, t))
  {
    var s' := OnDrop(s, t);
    forall u ensures HoldsWell(s', u) { assert HoldsWell(s, u) && HoldsWell(s, t); }
    forall u ensures LooksUpWell(s', u) { assert LooksUpWell(s, u) && LooksUpWell(s, t); }
  }

  lemma NextKeeps(s: State, step: Step)
    requires Inv(s)
    ensures Inv(Next(s, step))
  {
    match step
    case Enter(t, key) => EnterKeeps(s, t, key);
    case Prune(t, key) => PruneKeeps(s, t, key);
    case Lookup(t) => LookupKeeps(s, t);
    case Create(t, l) => CreateKeeps(s, t, l);
    case Lock(t) => LockKeeps(s, t);
    case Unlock(t) => UnlockKeeps(s, t);
    case Drop(t) => DropKeeps(s, t);
  }

  lemma {:induction false} RunKeeps(s: State, steps: seq<Step>)
    requires Inv(s)
    ensures Inv(Run(s, steps))
  {
    if steps != [] {
      RunKeeps(s, steps[..|steps| - 1]);
      NextKeeps(Run(s, steps[..|steps| - 1]), steps[|steps| - 1]);
    }
  }

  ghost predicate Reachable(s: State) {
    exists steps :: Run(Start(), steps) == s
  }

  lemma ReachableHolds(s: State)
    requires Reachable(s)
    ensures Inv(s)
  {
    var steps :| Run(Start(), steps) == s;
    RunKeeps(Start(), steps);
  }

  // ----- What holds in every reachable state -----

  /** A key has at most one live lane, and the registry finds it. */
  lemma OneLiveLanePerKey(s: State, l: LaneId, m: LaneId)
    requires Reachable(s) && Alive(s, l) && Alive(s, m) && s.lanes[l].key == s.lanes[m].key
    ensures l == m && Entry(s, s.lanes[l].key, l)
  {
    ReachableHolds(s);
  }

  /** The task holds a lane of the key, locked or waiting for the lock. */
  predicate InLane(s: State, t: Task, key: Key) {
    (Of(s, t).Holding? || Of(s, t).Locked?) && Of(s, t).key == key
  }

  /** Tasks that hold a lane of the same key hold the same lane. */
  lemma SameKeySameLane(s: State, t: Task, u: Task, key: Key)
    requires Reachable(s) && InLane(s, t, key) && InLane(s, u, key)
    ensures Of(s, t).lane == Of(s, u).lane
  {
    ReachableHolds(s);
    assert HoldsWell(s, t) && HoldsWell(s, u);
  }

  /** Two tasks are never inside the lane of one key together. */
  lemma SameKeyNeverOverlaps(s: State, t: Task, u: Task)
    requires Reachable(s) && Of(s, t).Locked? && Of(s, u).Locked? && Of(s, t).key == Of(s, u).key
    ensures t == u
  {
    ReachableHolds(s);
    SameKeySameLane(s, t, u, Of(s, t).key);
    assert HoldsWell(s, t) && HoldsWell(s, u);
  }

  // ----- The registry in the source's own form -----

  /** `strong` counts the strong references; the registry's own reference is weak. */
  class LaneObject {
    var strong: nat
    constructor ()
      ensures strong == 1
    {
      strong := 1;
    }
  }

  method Pick<T>(items: set<T>) returns (item: T)
    requires items != {}
    ensures item in items
  {
    item :| item in items;
  }

  class SessionLaneRegistry {
    var lanes: map<Key, LaneObject>

    ghost predicate Valid()
      reads this
    {
      forall j, k :: j in lanes && k in lanes && j != k ==> lanes[j] != lanes[k]
    }

    constructor ()
      ensures Valid() && lanes == map[]
    {
      lanes := map[];
    }

    /** `retain` keeps exactly the lanes that are still referenced. */
    method Retain()
      modifies this
      ensures lanes == map k | k in old(lanes) && old(lanes)[k].strong > 0 :: old(lanes)[k]
    {
      var todo: set<Key> := lanes.Keys;
      while todo != {}
        invariant todo <= old(lanes).Keys
        invariant lanes == map k | k in old(lanes) && (k in todo || old(lanes)[k].strong > 0) :: old(lanes)[k]
        decreases |todo|
      {
        var k := Pick(todo);
        if lanes[k].strong == 0 { lanes := lanes - {k}; }
        todo := todo - {k};
      }
    }

    /** The live lane of the key, or a new one; every other live lane stays filed, and dead ones are gone. */
    method Lane(key: Key) returns (lane: LaneObject)
      requires Valid()
      modifies this, lanes.Values
      ensures Valid() && key in lanes && lanes[key] == lane
      ensures if key in old(lanes) && old(lanes[key].strong > 0)
              then lane == old(lanes[key]) && lane.strong == old(lanes[key].strong) + 1
              else fresh(lane) && lane.strong == 1
      ensures forall k :: k != key ==> (k in lanes <==> k in old(lanes) && old(lanes)[k].strong > 0)
      ensures forall k :: k in old(lanes) && k != key ==>
                old(lanes)[k].strong == old(lanes[k].strong) && (k in lanes ==> lanes[k] == old(lanes)[k])
    {
      Retain();
      if key in lanes {
        lane := lanes[key];
        lane.strong := lane.strong + 1;
        return;
      }
      lane := new LaneObject();
      lanes := lanes[key := lane];
    }
  }
}
