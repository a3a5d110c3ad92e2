/**
 Building the activity tree (surfaces/webui/src/adapters/executionActivity.ts, `activityTree` and
 `wouldCreateCycle`). Parents come from the activities' own pointers or, without one, from relations; pointers may
 dangle or run in circles.
 */
module ActivityForest {
  import Events = ActivityEvents
  import opened SortedLists

  /** Activity ids are only compared; `NONE` is the empty string, which also stands for an absent parent. */
  type ActivityId = int
  type PointerMap = map<ActivityId, ActivityId>
  const NONE: ActivityId := 0

  /** An activity is known by its event, which carries its id and its place among siblings. */
  datatype Activity = Activity(event: Events.Event, pointer: ActivityId)
  datatype Kind = Contains | DelegatedTo | Invoked | OtherKind
  datatype Relation = Relation(kind: Kind, to: ActivityId, source: ActivityId)

  /** Each id's parent pointer and event, and the parent its first nesting relation names. */
  datatype Graph = Graph(nodes: PointerMap, events: map<ActivityId, Events.Event>, relationParents: PointerMap)

  datatype Tree = Tree(id: ActivityId, children: seq<Tree>)

  // ----- The maps the source fills first -----

  /** A later activity with the same id replaces an earlier one. */
  function Pointers(activities: seq<Activity>): PointerMap {
    if activities == [] then map[]
    else
      var last := activities[|activities| - 1];
      Pointers(activities[..|activities| - 1])[last.event.id := last.pointer]
  }

  function EventsOf(activities: seq<Activity>): map<ActivityId, Events.Event> {
    if activities == [] then map[]
    else
      var last := activities[|activities| - 1];
      EventsOf(activities[..|activities| - 1])[last.event.id := last.event]
  }

  /** Map order: where each id was first inserted. */
  function Order(activities: seq<Activity>): seq<ActivityId> {
    if activities == [] then []
    else
      var before := Order(activities[..|activities| - 1]);
      var last := activities[|activities| - 1].event.id;
      if last in before then before else before + [last]
  }

  /** The first nesting relation to an activity counts. */
  function RelationParents(relations: seq<Relation>): PointerMap {
    if relations == [] then map[]
    else
      var before := RelationParents(relations[..|relations| - 1]);
      var last := relations[|relations| - 1];
      if last.kind.OtherKind? || last.to in before then before else before[last.to := last.source]
  }

  function GraphOf(activities: seq<Activity>, relations: seq<Relation>): Graph {
    Graph(Pointers(activities), EventsOf(activities), RelationParents(relations))
  }

  predicate Distinct(s: seq<ActivityId>) {
    forall i, j :: 0 <= i < j < |s| ==> s[i] != s[j]
  }

  /** `order` lists the nodes, and every node has its event. */
  ghost predicate Lists(g: Graph, order: seq<ActivityId>) {
    && Distinct(order) && (forall x :: x in order <==> x in g.nodes)
    && forall x <- g.nodes :: x in g.events && g.events[x].id == x
  }

  lemma {:induction false} OrderListsNodes(activities: seq<Activity>, relations: seq<Relation>)
    ensures Lists(GraphOf(activities, relations), Order(activities))
  {
    if activities != [] { OrderListsNodes(activities[..|activities| - 1], relations); }
  }

  // ----- Which links the source makes -----

  /** `parentId`. */
  function Effective(g: Graph, x: ActivityId): ActivityId
    requires x in g.nodes
  {
    if g.nodes[x] != NONE then g.nodes[x] else if x in g.relationParents then g.relationParents[x] else NONE
  }

  /** One step of `wouldCreateCycle`: along parent pointers only, to the end at the empty id. */
  function Up(nodes: PointerMap, y: ActivityId): ActivityId {
    if y in nodes then nodes[y] else NONE
  }

  /** Within `n` steps the walk from `y` comes to an end, before it meets the child. */
  predicate EndsWithin(nodes: PointerMap, y: ActivityId, child: ActivityId, n: nat)
    decreases n
  {
    y == NONE || (y != child && n > 0 && EndsWithin(nodes, Up(nodes, y), child, n - 1))
  }

  ghost predicate Ends(nodes: PointerMap, parent: ActivityId, child: ActivityId) {
    exists n: nat :: EndsWithin(nodes, parent, child, n)
  }

  /** The activity becomes a child of its effective parent; otherwise it becomes a root. */
  ghost predicate Linked(g: Graph, x: ActivityId)
    requires x in g.nodes
  {
    Effective(g, x) in g.nodes && Effective(g, x) != x && Ends(g.nodes, Effective(g, x), x)
  }

  ghost function Roots(g: Graph, order: seq<ActivityId>): seq<ActivityId>
    requires forall x <- order :: x in g.nodes
  {
    if order == [] then []
    else
      var x := order[|order| - 1];
      Roots(g, order[..|order| - 1]) + if Linked(g, x) then [] else [x]
  }

  ghost function Children(g: Graph, order: seq<ActivityId>, parent: ActivityId): seq<ActivityId>
    requires forall x <- order :: x in g.nodes
  {
    if order == [] then []
    else
      var x := order[|order| - 1];
      Children(g, order[..|order| - 1], parent) + if Linked(g, x) && Effective(g, x) == parent then [x] else []
  }

  // ----- The order among siblings -----

  predicate Earlier(g: Graph, x: ActivityId, y: ActivityId) {
    x in g.events && y in g.events && Events.Before(g.events[x], g.events[y])
  }

  function ByEvent(g: Graph): (ActivityId, ActivityId) -> bool {
    (x, y) => Earlier(g, x, y)
  }

  /** How the source arranges siblings. */
  function Arrange(g: Graph): seq<ActivityId> -> seq<ActivityId> {
    s => Sort(s, ByEvent(g))
  }

  /** Nested lists from `ids` down, `depth` levels deep, each arranged before it is shown. */
  ghost function Trees(g: Graph, order: seq<ActivityId>, arrange: seq<ActivityId> -> seq<ActivityId>,
                       ids: seq<ActivityId>, depth: nat): seq<Tree>
    requires forall x <- order :: x in g.nodes
    decreases depth, |ids|
  {
    if ids == [] || depth == 0 then []
    else
      [Tree(ids[0], Trees(g, order, arrange, arrange(Children(g, order, ids[0])), depth - 1))]
      + Trees(g, order, arrange, ids[1..], depth)
  }

  /** The trees the source returns. */
  ghost function Forest(g: Graph, order: seq<ActivityId>): seq<Tree>
    requires forall x <- order :: x in g.nodes
  {
    Trees(g, order, Arrange(g), Arrange(g)(Roots(g, order)), |g.nodes|)
  }

  function Flatten(trees: seq<Tree>): seq<ActivityId> {
    if trees == [] then [] else [trees[0].id] + Flatten(trees[0].children) + Flatten(trees[1..])
  }

  // ----- Each activity is in exactly one list -----

  function Count(s: seq<ActivityId>, x: ActivityId): nat {
    if s == [] then 0 else (if s[0] == x then 1 else 0) + Count(s[1..], x)
  }

  lemma {:induction false} CountSplits(a: seq<ActivityId>, b: seq<ActivityId>, x: ActivityId)
    ensures Count(a + b, x) == Count(a, x) + Count(b, x)
  {
    if a == [] {
      assert a + b == b;
    } else {
      assert (a + b)[1..] == a[1..] + b;
      CountSplits(a[1..], b, x);
    }
  }

  lemma CountOne(y: ActivityId, x: ActivityId)
    ensures Count([y], x) == if x == y then 1 else 0
  {
    assert [y][1..] == [];
  }

  lemma {:induction false} RootsCount(g: Graph, order: seq<ActivityId>, x: ActivityId)
    requires Distinct(order) && forall y <- order :: y in g.nodes
    ensures Count(Roots(g, order), x) == if x in order && !Linked(g, x) then 1 else 0
  {
    if order != [] {
      var init, last := order[..|order| - 1], order[|order| - 1];
      RootsCount(g, init, x);
      CountOne(last, x);
      CountSplits(Roots(g, init), if Linked(g, last) then [] else [last], x);
      assert order == init + [last];
    }
  }

  lemma {:induction false} ChildrenCount(g: Graph, order: seq<ActivityId>, parent: ActivityId, x: ActivityId)
    requires Distinct(order) && forall y <- order :: y in g.nodes
    ensures Count(Children(g, order, parent), x)
         == if x in order && Linked(g, x) && Effective(g, x) == parent then 1 else 0
  {
    if order != [] {
      var init, last := order[..|order| - 1], order[|order| - 1];
      ChildrenCount(g, init, parent, x);
      CountOne(last, x);
      CountSplits(Children(g, init, parent), if Linked(g, last) && Effective(g, last) == parent then [last] else [], x);
      assert order == init + [last];
    }
  }

  lemma {:induction false} InsertCounts(s: seq<ActivityId>, e: ActivityId, before: (ActivityId, ActivityId) -> bool,
      x: ActivityId)
    ensures Count(Insert(s, e, before), x) == Count([e] + s, x)
  {
    assert ([e] + s)[1..] == s;
    if s != [] && !before(e, s[0]) {
      InsertCounts(s[1..], e, before, x);
      assert ([e] + s[1..])[1..] == s[1..];
      assert ([s[0]] + Insert(s[1..], e, before))[1..] == Insert(s[1..], e, before);
    }
  }

  /** Sorting moves siblings about; it neither drops nor repeats one. */
  lemma {:induction false} SortCounts(s: seq<ActivityId>, before: (ActivityId, ActivityId) -> bool, x: ActivityId)
    ensures Count(Sort(s, before), x) == Count(s, x)
  {
    if s != [] {
      var init, last := s[..|s| - 1], s[|s| - 1];
      SortCounts(init, before, x);
      InsertCounts(Sort(init, before), last, before, x);
      CountSplits([last], Sort(init, before), x);
      CountSplits(init, [last], x);
      assert s == init + [last];
    }
  }

  // ----- What the returned tree shows -----

  /** How often the first `depth` steps up from an activity are in a list. */
  ghost function Hits(g: Graph, ids: seq<ActivityId>, x: ActivityId, depth: nat): nat
    requires x in g.nodes
    decreases depth
  {
    if depth == 0 then 0
    else Count(ids, x) + if Linked(g, x) then Hits(g, ids, Effective(g, x), depth - 1) else 0
  }

  lemma {:induction false} HitsSplit(g: Graph, a: seq<ActivityId>, b: seq<ActivityId>, x: ActivityId, depth: nat)
    requires x in g.nodes
    ensures Hits(g, a + b, x, depth) == Hits(g, a, x, depth) + Hits(g, b, x, depth)
    decreases depth
  {
    if depth > 0 {
      CountSplits(a, b, x);
      if Linked(g, x) { HitsSplit(g, a, b, Effective(g, x), depth - 1); }
    }
  }

  lemma {:induction false} HitsChildren(g: Graph, order: seq<ActivityId>, p: ActivityId, x: ActivityId, depth: nat)
    requires Lists(g, order) && x in g.nodes
    ensures Hits(g, Children(g, order, p), x, depth)
         == if Linked(g, x) then Hits(g, [p], Effective(g, x), depth) else 0
    decreases depth
  {
    if depth > 0 {
      ChildrenCount(g, order, p, x);
      if Linked(g, x) {
        CountOne(p, Effective(g, x));
        HitsChildren(g, order, p, Effective(g, x), depth - 1);
      }
    }
  }

  ghost predicate KeepsCounts(arrange: seq<ActivityId> -> seq<ActivityId>) {
    forall s, x :: Count(arrange(s), x) == Count(s, x)
  }

  lemma {:induction false} HitsArranged(g: Graph, arrange: seq<ActivityId> -> seq<ActivityId>, s: seq<ActivityId>,
                                        x: ActivityId, depth: nat)
    requires KeepsCounts(arrange) && x in g.nodes
    ensures Hits(g, arrange(s), x, depth) == Hits(g, s, x, depth)
    decreases depth
  {
    if depth > 0 && Linked(g, x) { HitsArranged(g, arrange, s, Effective(g, x), depth - 1); }
  }

  lemma ArrangeKeepsCounts(g: Graph)
    ensures KeepsCounts(Arrange(g))
  {
    forall s: seq<ActivityId>, x: ActivityId ensures Count(Arrange(g)(s), x) == Count(s, x) {
      SortCounts(s, ByEvent(g), x);
    }
  }

  lemma {:induction false} HitsNothing(g: Graph, x: ActivityId, depth: nat)
    requires x in g.nodes
    ensures Hits(g, [], x, depth) == 0
    decreases depth
  {
    if depth > 0 && Linked(g, x) { HitsNothing(g, Effective(g, x), depth - 1); }
  }

  lemma FirstTree(g: Graph, order: seq<ActivityId>, arrange: seq<ActivityId> -> seq<ActivityId>, ids: seq<ActivityId>,
                  depth: nat)
    requires depth > 0 && ids != [] && forall x <- order :: x in g.nodes
    ensures Trees(g, order, arrange, ids, depth)
         == [Tree(ids[0], Trees(g, order, arrange, arrange(Children(g, order, ids[0])), depth - 1))]
            + Trees(g, order, arrange, ids[1..], depth)
  {
  }

  lemma {:induction false} TreesCount(g: Graph, order: seq<ActivityId>, arrange: seq<ActivityId> -> seq<ActivityId>,
                                      ids: seq<ActivityId>, x: ActivityId, depth: nat)
    requires Lists(g, order) && KeepsCounts(arrange) && x in g.nodes
    ensures Count(Flatten(Trees(g, order, arrange, ids, depth)), x) == Hits(g, ids, x, depth)
    decreases depth, |ids|
  {
    if depth == 0 {
    } else if ids == [] {
      HitsNothing(g, x, depth);
    } else {
      var p, rest, siblings := ids[0], ids[1..], Children(g, order, ids[0]);
      FirstTree(g, order, arrange, ids, depth);
      TreesCount(g, order, arrange, arrange(siblings), x, depth - 1);
      HitsArranged(g, arrange, siblings, x, depth - 1);
      TreesCount(g, order, arrange, rest, x, depth);
      TreesStep(g, order, p, rest, Trees(g, order, arrange, arrange(siblings), depth - 1),
                Trees(g, order, arrange, rest, depth), x, depth);
      assert ids == [p] + rest;
    }
  }

  lemma TreesStep(g: Graph, order: seq<ActivityId>, p: ActivityId, rest: seq<ActivityId>, below: seq<Tree>,
                  after: seq<Tree>, x: ActivityId, depth: nat)
    requires Lists(g, order) && x in g.nodes && depth > 0
    requires Count(Flatten(below), x) == Hits(g, Children(g, order, p), x, depth - 1)
    requires Count(Flatten(after), x) == Hits(g, rest, x, depth)
    ensures Count(Flatten([Tree(p, below)] + after), x) == Hits(g, [p] + rest, x, depth)
  {
    assert ([Tree(p, below)] + after)[1..] == after;
    CountSplits([p] + Flatten(below), Flatten(after), x);
    CountSplits([p], Flatten(below), x);
    HitsChildren(g, order, p, x, depth - 1);
    HitsSplit(g, [p], rest, x, depth);
  }

  /** Fewer than `depth` links lead from the activity to a root. */
  ghost predicate RootWithin(g: Graph, x: ActivityId, depth: nat)
    requires x in g.nodes
    decreases depth
  {
    depth > 0 && (Linked(g, x) ==> RootWithin(g, Effective(g, x), depth - 1))
  }

  lemma {:induction false} RootsHit(g: Graph, order: seq<ActivityId>, x: ActivityId, depth: nat)
    requires Lists(g, order) && x in g.nodes
    ensures Hits(g, Roots(g, order), x, depth) == if RootWithin(g, x, depth) then 1 else 0
    decreases depth
  {
    if depth > 0 {
      RootsCount(g, order, x);
      if Linked(g, x) { RootsHit(g, order, Effective(g, x), depth - 1); }
    }
  }

  /** The forest shows an activity once if links lead from it to a root, and not at all if they do not. */
  lemma ShownOnceIff(g: Graph, order: seq<ActivityId>, x: ActivityId)
    requires Lists(g, order) && x in g.nodes
    ensures Count(Flatten(Forest(g, order)), x) == if RootWithin(g, x, |g.nodes|) then 1 else 0
  {
    ArrangeKeepsCounts(g);
    TreesCount(g, order, Arrange(g), Arrange(g)(Roots(g, order)), x, |g.nodes|);
    HitsArranged(g, Arrange(g), Roots(g, order), x, |g.nodes|);
    RootsHit(g, order, x, |g.nodes|);
  }

  // ----- Cycles -----

  /** The nodes of a cycle of effective parents. */
  predicate IsCycle(g: Graph, c: seq<ActivityId>) {
    && |c| >= 2 && Distinct(c)
    && (forall i :: 0 <= i < |c| ==> c[i] in g.nodes)
    && (forall i :: 0 <= i < |c| - 1 ==> Effective(g, c[i]) == c[i + 1])
    && Effective(g, c[|c| - 1]) == c[0]
  }

  /** The source's walk ends here: no pointer of its own, or the empty id. */
  predicate Stops(g: Graph, y: ActivityId)
    requires y in g.nodes
  {
    y == NONE || g.nodes[y] == NONE
  }

  /** A cycle of effective parents that two or more relation-derived links are part of. */
  predicate TwoStops(g: Graph, c: seq<ActivityId>)
    requires IsCycle(g, c)
  {
    exists i, j :: 0 <= i < j < |c| && Stops(g, c[i]) && Stops(g, c[j])
  }

  ghost predicate HasUndetectedCycle(g: Graph) {
    exists c :: IsCycle(g, c) && TwoStops(g, c)
  }

  /** From the `k`th node of a cycle the walk ends at the next stop, if the head does not come first. */
  lemma {:induction false} WalkEndsAtStop(g: Graph, c: seq<ActivityId>, k: nat, j: nat)
    requires IsCycle(g, c) && 1 <= k <= j < |c| && Stops(g, c[j])
    ensures EndsWithin(g.nodes, c[k], c[0], j - k + 1)
    decreases j - k
  {
    if !Stops(g, c[k]) { WalkEndsAtStop(g, c, k + 1, j); }
  }

  /** Without a stop the walk keeps to the cycle until it meets the head. */
  lemma {:induction false} WalkMeetsHead(g: Graph, c: seq<ActivityId>, k: nat, n: nat)
    requires IsCycle(g, c) && 1 <= k < |c| && forall j :: 1 <= j < |c| ==> !Stops(g, c[j])
    ensures !EndsWithin(g.nodes, c[k], c[0], n)
    decreases n
  {
    if n > 0 {
      if k < |c| - 1 {
        WalkMeetsHead(g, c, k + 1, n - 1);
      } else {
        assert Up(g.nodes, c[k]) == c[0] != NONE;
      }
    }
  }

  lemma StopLinksHead(g: Graph, c: seq<ActivityId>, k: nat)
    requires IsCycle(g, c) && 1 <= k < |c| && Stops(g, c[k])
    ensures Linked(g, c[0])
  {
    WalkEndsAtStop(g, c, 1, k);
  }

  lemma NoStopDropsHead(g: Graph, c: seq<ActivityId>)
    requires IsCycle(g, c) && forall k :: 1 <= k < |c| ==> !Stops(g, c[k])
    ensures !Linked(g, c[0])
  {
    forall n: nat ensures !EndsWithin(g.nodes, c[1], c[0], n) {
      WalkMeetsHead(g, c, 1, n);
    }
    assert Effective(g, c[0]) == c[1];
  }

  function Rotated(c: seq<ActivityId>, i: nat): seq<ActivityId>
    requires i < |c|
  {
    c[i..] + c[..i]
  }

  lemma RotatedIsCycle(g: Graph, c: seq<ActivityId>, i: nat)
    requires IsCycle(g, c) && i < |c|
    ensures IsCycle(g, Rotated(c, i)) && Rotated(c, i)[0] == c[i]
  {
    var r := Rotated(c, i);
    forall j | 0 <= j < |r| ensures r[j] == if j < |c| - i then c[i + j] else c[j - (|c| - i)] {}
  }

  /** On a cycle, a link is kept exactly when the walk stops at another of its nodes. */
  lemma CycleLinkKeptIff(g: Graph, c: seq<ActivityId>, i: nat)
    requires IsCycle(g, c) && i < |c|
    ensures Linked(g, c[i]) <==> exists k :: 0 <= k < |c| && k != i && Stops(g, c[k])
  {
    RotatedIsCycle(g, c, i);
    var r := Rotated(c, i);
    if k :| 0 <= k < |c| && k != i && Stops(g, c[k]) {
      var j := if k > i then k - i else k + |c| - i;
      assert r[j] == c[k];
      StopLinksHead(g, r, j);
    } else {
      forall j | 1 <= j < |r| ensures !Stops(g, r[j]) {
        var k := if i + j < |c| then i + j else i + j - |c|;
        assert r[j] == c[k];
      }
      NoStopDropsHead(g, r);
    }
  }

  /** So all of a cycle's links are kept exactly when it has two stops. */
  lemma CycleKeptIff(g: Graph, c: seq<ActivityId>)
    requires IsCycle(g, c)
    ensures (forall i :: 0 <= i < |c| ==> Linked(g, c[i])) <==> TwoStops(g, c)
  {
    if TwoStops(g, c) {
      var i, j :| 0 <= i < j < |c| && Stops(g, c[i]) && Stops(g, c[j]);
      forall k | 0 <= k < |c| ensures Linked(g, c[k]) {
        CycleLinkKeptIff(g, c, k);
        assert i != k || j != k;
      }
    }
    if forall i :: 0 <= i < |c| ==> Linked(g, c[i]) {
      CycleLinkKeptIff(g, c, 0);
      var j :| 0 <= j < |c| && j != 0 && Stops(g, c[j]);
      CycleLinkKeptIff(g, c, j);
      var k :| 0 <= k < |c| && k != j && Stops(g, c[k]);
      assert 0 <= (if j < k then j else k) < (if j < k then k else j) < |c|;
    }
  }

  // ----- From a kept cycle no root is reached, and only from there -----

  lemma {:induction false} KeptCycleHasNoRoot(g: Graph, c: seq<ActivityId>, i: nat, depth: nat)
    requires IsCycle(g, c) && TwoStops(g, c) && i < |c|
    ensures !RootWithin(g, c[i], depth)
    decreases depth
  {
    if depth > 0 {
      CycleKeptIff(g, c);
      KeptCycleHasNoRoot(g, c, if i == |c| - 1 then 0 else i + 1, depth - 1);
    }
  }

  lemma {:induction false} DistinctFits(s: seq<ActivityId>, all: set<ActivityId>)
    requires Distinct(s) && forall x <- s :: x in all
    ensures |s| <= |all|
  {
    if s != [] {
      assert s[0] in s;
      assert |all - {s[0]}| == |all| - 1;
      DistinctFits(s[1..], all - {s[0]});
    }
  }

  /** A chain of links, climbing from its first node. */
  ghost predicate Chain(g: Graph, path: seq<ActivityId>) {
    && path != [] && Distinct(path)
    && (forall i :: 0 <= i < |path| ==> path[i] in g.nodes)
    && (forall i :: 0 <= i < |path| - 1 ==> Linked(g, path[i]) && Effective(g, path[i]) == path[i + 1])
  }

  lemma ChainFits(g: Graph, path: seq<ActivityId>)
    requires Chain(g, path)
    ensures |path| <= |g.nodes|
  {
    DistinctFits(path, g.nodes.Keys);
    assert |g.nodes| == |g.nodes.Keys|;
  }

  lemma {:induction false} EndlessChainCloses(g: Graph, path: seq<ActivityId>) returns (c: seq<ActivityId>)
    requires Chain(g, path) && |path| <= |g.nodes|
    requires !RootWithin(g, path[|path| - 1], |g.nodes| + 1 - |path|)
    ensures IsCycle(g, c) && TwoStops(g, c)
    decreases |g.nodes| - |path|
  {
    var last := path[|path| - 1];
    var next := Effective(g, last);
    if a :| 0 <= a < |path| && path[a] == next {
      c := path[a..];
      ClosedChainIsCycle(g, path, a);
      CycleKeptIff(g, c);
    } else {
      var longer := path + [next];
      assert Chain(g, longer);
      ChainFits(g, longer);
      c := EndlessChainCloses(g, longer);
    }
  }

  lemma ClosedChainIsCycle(g: Graph, path: seq<ActivityId>, a: nat)
    requires Chain(g, path) && a < |path|
    requires Linked(g, path[|path| - 1]) && Effective(g, path[|path| - 1]) == path[a]
    ensures IsCycle(g, path[a..]) && forall i :: 0 <= i < |path[a..]| ==> Linked(g, path[a..][i])
  {
    var c := path[a..];
    assert forall i :: 0 <= i < |c| ==> c[i] == path[a + i];
    assert Effective(g, c[|c| - 1]) != c[|c| - 1];
  }

  lemma EveryRootIsNear(g: Graph, x: ActivityId)
    requires x in g.nodes && !HasUndetectedCycle(g)
    ensures RootWithin(g, x, |g.nodes|)
  {
    if !RootWithin(g, x, |g.nodes|) {
      assert Chain(g, [x]);
      ChainFits(g, [x]);
      var c := EndlessChainCloses(g, [x]);
    }
  }

  /** The forest shows every activity exactly once if and only if no cycle of parents has two relation-derived links. */
  lemma EachActivityIsShownOnceIff(activities: seq<Activity>, relations: seq<Relation>)
    ensures var g, order := GraphOf(activities, relations), Order(activities);
            (forall x <- order :: x in g.nodes)
            && ((forall x <- order :: Count(Flatten(Forest(g, order)), x) == 1) <==> !HasUndetectedCycle(g))
  {
    var g, order := GraphOf(activities, relations), Order(activities);
    OrderListsNodes(activities, relations);
    forall x <- order
      ensures Count(Flatten(Forest(g, order)), x) == if RootWithin(g, x, |g.nodes|) then 1 else 0
    {
      ShownOnceIff(g, order, x);
    }
    if HasUndetectedCycle(g) {
      var c :| IsCycle(g, c) && TwoStops(g, c);
      KeptCycleHasNoRoot(g, c, 0, |g.nodes|);
      assert c[0] in order;
    } else {
      forall x <- order ensures RootWithin(g, x, |g.nodes|) {
        EveryRootIsNear(g, x);
      }
    }
  }

  /** Pointers alone, dangling or cyclic, always make a forest. */
  lemma PointersAloneMakeAForest(activities: seq<Activity>, relations: seq<Relation>)
    requires forall r <- relations :: r.kind.OtherKind?
    requires forall a <- activities :: a.event.id != NONE
    ensures !HasUndetectedCycle(GraphOf(activities, relations))
  {
    var g := GraphOf(activities, relations);
    OnlyNesting(relations);
    IdsOfNodes(activities);
    if HasUndetectedCycle(g) {
      var c :| IsCycle(g, c) && TwoStops(g, c);
      var i, j :| 0 <= i < j < |c| && Stops(g, c[i]) && Stops(g, c[j]);
      StopHasARelation(g, c, i);
    }
  }

  lemma StopHasARelation(g: Graph, c: seq<ActivityId>, i: nat)
    requires IsCycle(g, c) && i < |c| - 1 && Stops(g, c[i]) && NONE !in g.nodes
    ensures c[i] in g.relationParents
  {
    assert Effective(g, c[i]) == c[i + 1] && c[i + 1] in g.nodes;
  }

  lemma {:induction false} OnlyNesting(relations: seq<Relation>)
    requires forall r <- relations :: r.kind.OtherKind?
    ensures RelationParents(relations) == map[]
  {
    if relations != [] {
      assert relations[|relations| - 1] in relations;
      OnlyNesting(relations[..|relations| - 1]);
    }
  }

  lemma {:induction false} IdsOfNodes(activities: seq<Activity>)
    requires forall a <- activities :: a.event.id != NONE
    ensures NONE !in Pointers(activities)
  {
    if activities != [] {
      assert activities[|activities| - 1] in activities;
      IdsOfNodes(activities[..|activities| - 1]);
    }
  }

  /** Two activities, each contained in the other by a relation, are both lost. */
  lemma TwoRelationLinksLoseBoth(one: Events.Event, two: Events.Event)
    requires one.id == 1 && two.id == 2
    ensures var activities := [Activity(one, NONE), Activity(two, NONE)];
            var g := GraphOf(activities, [Relation(Contains, 2, 1), Relation(Contains, 1, 2)]);
            Order(activities) == [1, 2] && g.nodes == map[1 := NONE, 2 := NONE] && Forest(g, [1, 2]) == []
  {
    var activities := [Activity(one, NONE), Activity(two, NONE)];
    var relations := [Relation(Contains, 2, 1), Relation(Contains, 1, 2)];
    PairOf(activities[0], activities[1]);
    PairOf(relations[0], relations[1]);
    SingleNode(activities[0]);
    assert RelationParents([relations[0]]) == map[2 := 1];
    var g := GraphOf(activities, relations);
    assert g.nodes == map[1 := NONE, 2 := NONE] && g.relationParents == map[2 := 1, 1 := 2];
    var c := [1, 2];
    assert IsCycle(g, c) && Stops(g, c[0]) && Stops(g, c[1]);
    CycleKeptIff(g, c);
    NoRootsBelow(g, c);
  }

  lemma NoRootsBelow(g: Graph, c: seq<ActivityId>)
    requires |c| == 2 && (forall x <- c :: x in g.nodes) && forall i :: 0 <= i < |c| ==> Linked(g, c[i])
    ensures Forest(g, c) == []
  {
    PairOf(c[0], c[1]);
    assert c == [c[0], c[1]];
    assert Roots(g, [c[0]]) == [];
    assert Roots(g, c) == [];
  }

  lemma SingleNode(a: Activity)
    ensures Pointers([a]) == map[a.event.id := a.pointer] && Order([a]) == [a.event.id]
  {
    assert [a][..0] == [];
    assert Order([a]) == [] + [a.event.id];
  }

  lemma PairOf<T>(a: T, b: T)
    ensures [a, b][..1] == [a] && [a][..0] == []
  {
  }

  // ----- Sibling lists are in the order of the events -----

  lemma ByEventIsStrict(g: Graph)
    ensures StrictOrder(ByEvent(g))
  {
  }

  lemma {:induction false} OncePerListMeansDistinct(s: seq<ActivityId>)
    requires forall x :: Count(s, x) <= 1
    ensures Distinct(s)
  {
    if s != [] {
      forall x ensures Count(s[1..], x) <= 1 { assert Count(s, x) <= 1; }
      OncePerListMeansDistinct(s[1..]);
      assert Count(s, s[0]) <= 1;
      CountsMembers(s[1..], s[0]);
      assert s == [s[0]] + s[1..];
    }
  }

  lemma {:induction false} CountsMembers(s: seq<ActivityId>, x: ActivityId)
    ensures Count(s, x) > 0 <==> x in s
  {
    if s != [] { CountsMembers(s[1..], x); }
  }

  lemma {:induction false} ListedAreNodes(g: Graph, order: seq<ActivityId>, parent: ActivityId)
    requires forall y <- order :: y in g.nodes
    ensures forall x <- Children(g, order, parent) :: x in g.nodes && Linked(g, x) && Effective(g, x) == parent
    ensures forall x <- Roots(g, order) :: x in g.nodes && !Linked(g, x)
  {
    if order != [] {
      assert order[|order| - 1] in order;
      ListedAreNodes(g, order[..|order| - 1], parent);
    }
  }

  /** The children of every node, and the roots, come in the one order of their events. */
  lemma SiblingsAreSorted(g: Graph, order: seq<ActivityId>, parent: ActivityId)
    requires Lists(g, order)
    ensures StrictlySorted(Sort(Children(g, order, parent), ByEvent(g)), ByEvent(g))
    ensures StrictlySorted(Sort(Roots(g, order), ByEvent(g)), ByEvent(g))
  {
    forall x ensures Count(Children(g, order, parent), x) <= 1 { ChildrenCount(g, order, parent, x); }
    forall x ensures Count(Roots(g, order), x) <= 1 { RootsCount(g, order, x); }
    ListedAreNodes(g, order, parent);
    NodesSort(g, order, Children(g, order, parent));
    NodesSort(g, order, Roots(g, order));
  }

  lemma NodesSort(g: Graph, order: seq<ActivityId>, s: seq<ActivityId>)
    requires Lists(g, order) && (forall x <- s :: x in g.nodes) && forall x :: Count(s, x) <= 1
    ensures StrictlySorted(Sort(s, ByEvent(g)), ByEvent(g))
  {
    OncePerListMeansDistinct(s);
    ByEventIsStrict(g);
    forall i, j | 0 <= i < j < |s| ensures ByEvent(g)(s[i], s[j]) || ByEvent(g)(s[j], s[i]) {
      assert s[i] in s && s[j] in s;
      assert g.events[s[i]].id == s[i] && g.events[s[j]].id == s[j];
    }
    SortSorts(s, ByEvent(g));
  }

  // ----- The builder in the source's own form -----

  /** A set of ids that the walk never leaves, without the empty id, has no end. */
  lemma {:induction false} ClosedSetNeverEnds(nodes: PointerMap, y: ActivityId, child: ActivityId,
                                              closed: set<ActivityId>, n: nat)
    requires y in closed && NONE !in closed && forall z <- closed :: Up(nodes, z) in closed
    ensures !EndsWithin(nodes, y, child, n)
    decreases n
  {
    if n > 0 { ClosedSetNeverEnds(nodes, Up(nodes, y), child, closed, n - 1); }
  }

  /** The visited ids but the child: none of them empty, and each leading to another or to the cursor. */
  predicate Trail(nodes: PointerMap, visited: set<ActivityId>, child: ActivityId, cursor: ActivityId) {
    && child in visited
    && forall z <- visited - {child} :: z != NONE && Up(nodes, z) in visited - {child} + {cursor}
  }

  lemma RevisitNeverEnds(nodes: PointerMap, visited: set<ActivityId>, child: ActivityId, cursor: ActivityId)
    requires Trail(nodes, visited, child, cursor) && cursor in visited && cursor != NONE
    ensures !Ends(nodes, cursor, child)
  {
    forall n: nat ensures !EndsWithin(nodes, cursor, child, n) {
      if cursor != child { ClosedSetNeverEnds(nodes, cursor, child, visited - {child}, n); }
    }
  }

  /** One turn of the loop moves the question up by one pointer. */
  lemma TurnMovesUp(nodes: PointerMap, visited: set<ActivityId>, child: ActivityId, cursor: ActivityId)
    requires Trail(nodes, visited, child, cursor) && cursor !in visited && cursor != NONE
    ensures Trail(nodes, visited + {cursor}, child, Up(nodes, cursor))
    ensures Ends(nodes, cursor, child) <==> Ends(nodes, Up(nodes, cursor), child)
  {
    if n: nat :| EndsWithin(nodes, cursor, child, n) {
      assert EndsWithin(nodes, Up(nodes, cursor), child, n - 1);
    }
    if n: nat :| EndsWithin(nodes, Up(nodes, cursor), child, n) {
      assert EndsWithin(nodes, cursor, child, n + 1);
    }
  }

  lemma GrowsWithin(visited: set<ActivityId>, y: ActivityId, all: set<ActivityId>)
    requires y in all && y !in visited
    ensures |all - (visited + {y})| < |all - visited|
  {
    assert all - visited == (all - (visited + {y})) + {y};
  }

  /** The ids a walk can meet. */
  function Ids(nodes: PointerMap): set<ActivityId> {
    nodes.Keys + nodes.Values + {NONE}
  }

  lemma UpStaysIn(nodes: PointerMap, y: ActivityId)
    ensures Up(nodes, y) in Ids(nodes)
  {
  }

  method WouldCreateCycle(nodes: PointerMap, parentId: ActivityId, childId: ActivityId) returns (cycle: bool)
    ensures cycle <==> !Ends(nodes, parentId, childId)
  {
    var visited, cursor := {childId}, parentId;
    ghost var all := Ids(nodes) + {parentId};
    while cursor != NONE
      invariant Trail(nodes, visited, childId, cursor) && cursor in all
      invariant Ends(nodes, cursor, childId) <==> Ends(nodes, parentId, childId)
      decreases |all - visited|
    {
      if cursor in visited {
        RevisitNeverEnds(nodes, visited, childId, cursor);
        return true;
      }
      GrowsWithin(visited, cursor, all);
      TurnMovesUp(nodes, visited, childId, cursor);
      UpStaysIn(nodes, cursor);
      visited := visited + {cursor};
      cursor := Up(nodes, cursor);
    }
    assert EndsWithin(nodes, cursor, childId, 0);
    return false;
  }

  method CollectNodes(activities: seq<Activity>)
    returns (nodes: PointerMap, events: map<ActivityId, Events.Event>, order: seq<ActivityId>)
    ensures nodes == Pointers(activities) && events == EventsOf(activities) && order == Order(activities)
  {
    nodes, events, order := map[], map[], [];
    for i := 0 to |activities|
      invariant nodes == Pointers(activities[..i]) && events == EventsOf(activities[..i])
      invariant order == Order(activities[..i])
    {
      assert activities[..i + 1][..i] == activities[..i];
      var a := activities[i];
      nodes, events := nodes[a.event.id := a.pointer], events[a.event.id := a.event];
      if a.event.id !in order { order := order + [a.event.id]; }
    }
    assert activities[..|activities|] == activities;
  }

  method CollectRelationParents(relations: seq<Relation>) returns (parents: PointerMap)
    ensures parents == RelationParents(relations)
  {
    parents := map[];
    for i := 0 to |relations|
      invariant parents == RelationParents(relations[..i])
    {
      assert relations[..i + 1][..i] == relations[..i];
      if relations[i].kind.OtherKind? { continue; }
      if relations[i].to !in parents { parents := parents[relations[i].to := relations[i].source]; }
    }
    assert relations[..|relations|] == relations;
  }

  type ChildLists = map<ActivityId, seq<ActivityId>>

  /** The lists after some of the nodes have been placed. */
  ghost predicate Placed(g: Graph, order: seq<ActivityId>, roots: seq<ActivityId>, children: ChildLists)
    requires forall x <- order :: x in g.nodes
  {
    roots == Roots(g, order) && AreChildren(g, order, children)
  }

  ghost predicate AreChildren(g: Graph, order: seq<ActivityId>, children: ChildLists)
    requires forall x <- order :: x in g.nodes
  {
    children.Keys == g.nodes.Keys && forall p <- children :: children[p] == Children(g, order, p)
  }

  lemma PlaceRoot(g: Graph, order: seq<ActivityId>, x: ActivityId, roots: seq<ActivityId>, children: ChildLists)
    requires x in g.nodes && (forall y <- order :: y in g.nodes)
    requires Placed(g, order, roots, children) && !Linked(g, x)
    ensures Placed(g, order + [x], roots + [x], children)
  {
    assert (order + [x])[..|order|] == order;
    forall p ensures Children(g, order + [x], p) == Children(g, order, p) + [] {}
  }

  lemma PlaceChild(g: Graph, order: seq<ActivityId>, x: ActivityId, roots: seq<ActivityId>, children: ChildLists)
    requires x in g.nodes && (forall y <- order :: y in g.nodes)
    requires Placed(g, order, roots, children) && Linked(g, x)
    ensures Effective(g, x) in children
    ensures Placed(g, order + [x], roots, children[Effective(g, x) := children[Effective(g, x)] + [x]])
  {
    assert (order + [x])[..|order|] == order;
    assert Roots(g, order + [x]) == Roots(g, order) + [];
    forall p
      ensures Children(g, order + [x], p) == Children(g, order, p) + if Effective(g, x) == p then [x] else []
    {}
  }

  method Links(g: Graph, x: ActivityId) returns (linked: bool)
    requires x in g.nodes
    ensures linked == Linked(g, x)
  {
    var parentId := Effective(g, x);
    if parentId !in g.nodes || parentId == x { return false; }
    var cycle := WouldCreateCycle(g.nodes, parentId, x);
    return !cycle;
  }

  /** The linking loop. */
  method LinkNodes(g: Graph, order: seq<ActivityId>) returns (roots: seq<ActivityId>, children: ChildLists)
    requires forall x <- order :: x in g.nodes
    ensures Placed(g, order, roots, children)
  {
    roots, children := [], map x <- g.nodes :: [];
    for i := 0 to |order|
      invariant Placed(g, order[..i], roots, children)
    {
      var x := order[i];
      assert order[..i + 1] == order[..i] + [x];
      var linked := Links(g, x);
      if linked {
        PlaceChild(g, order[..i], x, roots, children);
        children := children[Effective(g, x) := children[Effective(g, x)] + [x]];
      } else {
        PlaceRoot(g, order[..i], x, roots, children);
        roots := roots + [x];
      }
    }
    assert order[..|order|] == order;
  }

  /** `path` climbs to a root from the list's parent; for the roots themselves it is empty. */
  ghost predicate Hangs(g: Graph, items: seq<ActivityId>, path: seq<ActivityId>) {
    forall x <- items :: Chain(g, [x] + path) && !Linked(g, ([x] + path)[|path|])
  }

  lemma ChildrenHang(g: Graph, order: seq<ActivityId>, x: ActivityId, path: seq<ActivityId>)
    requires forall y <- order :: y in g.nodes
    requires Chain(g, [x] + path) && !Linked(g, ([x] + path)[|path|])
    ensures Hangs(g, Children(g, order, x), [x] + path)
  {
    var longer := [x] + path;
    ListedAreNodes(g, order, x);
    forall y <- Children(g, order, x) ensures Chain(g, [y] + longer) && !Linked(g, ([y] + longer)[|longer|]) {
      ChainGrows(g, longer, y);
    }
  }

  lemma ChainGrows(g: Graph, path: seq<ActivityId>, y: ActivityId)
    requires Chain(g, path) && !Linked(g, path[|path| - 1])
    requires y in g.nodes && Linked(g, y) && Effective(g, y) == path[0]
    ensures Chain(g, [y] + path) && ([y] + path)[|path|] == path[|path| - 1]
  {
    var longer := [y] + path;
    forall i | 0 <= i < |path| ensures path[i] != y {
      if i < |path| - 1 { assert path[i + 1] != path[0]; }
    }
    assert forall i :: 0 < i < |longer| ==> longer[i] == path[i - 1];
  }

  lemma RootsHang(g: Graph, order: seq<ActivityId>)
    requires forall y <- order :: y in g.nodes
    ensures Hangs(g, Roots(g, order), [])
  {
    ListedAreNodes(g, order, NONE);
    forall x <- Roots(g, order) ensures Chain(g, [x] + []) && !Linked(g, ([x] + [])[0]) {
      assert [x] + [] == [x];
    }
  }

  ghost predicate KeepsMembers(arrange: seq<ActivityId> -> seq<ActivityId>) {
    forall s, x :: x in arrange(s) <==> x in s
  }

  lemma ArrangeKeepsMembers(g: Graph)
    ensures KeepsMembers(Arrange(g))
  {
    forall s: seq<ActivityId>, x: ActivityId ensures x in Arrange(g)(s) <==> x in s {
      SortKeeps(s, ByEvent(g));
    }
  }

  lemma HangsArranged(g: Graph, arrange: seq<ActivityId> -> seq<ActivityId>, items: seq<ActivityId>,
      path: seq<ActivityId>)
    requires KeepsMembers(arrange) && Hangs(g, items, path)
    ensures Hangs(g, arrange(items), path)
  {
    forall x <- arrange(items) ensures Chain(g, [x] + path) && !Linked(g, ([x] + path)[|path|]) {
      assert x in items;
    }
  }

  lemma TreesOfNext(g: Graph, order: seq<ActivityId>, arrange: seq<ActivityId> -> seq<ActivityId>, ids: seq<ActivityId>,
                    i: nat, depth: nat, trees: seq<Tree>, below: seq<Tree>)
    requires (forall y <- order :: y in g.nodes) && i < |ids| && depth > 0
    requires below == Trees(g, order, arrange, arrange(Children(g, order, ids[i])), depth - 1)
    ensures trees + [Tree(ids[i], below)] + Trees(g, order, arrange, ids[i + 1..], depth)
         == trees + Trees(g, order, arrange, ids[i..], depth)
  {
    assert ids[i..][0] == ids[i] && ids[i..][1..] == ids[i + 1..];
  }

  /** What `sort` needs to know of one item: there is room below it, and its children hang from it. */
  lemma ItemHangs(g: Graph, order: seq<ActivityId>, items: seq<ActivityId>, i: nat, path: seq<ActivityId>)
    requires (forall y <- order :: y in g.nodes) && Hangs(g, items, path) && i < |items|
    ensures items[i] in g.nodes && |path| < |g.nodes| && Hangs(g, Children(g, order, items[i]), [items[i]] + path)
  {
    assert items[i] in items;
    assert ([items[i]] + path)[0] == items[i];
    ChainFits(g, [items[i]] + path);
    ChildrenHang(g, order, items[i], path);
  }

  /**
   `sort`: arranges a list, then the lists below each of its items. It ends because every list hangs from a root.
   */
  method SortTrees(g: Graph, ghost order: seq<ActivityId>, arrange: seq<ActivityId> -> seq<ActivityId>,
                   children: ChildLists, items: seq<ActivityId>, ghost path: seq<ActivityId>)
    returns (trees: seq<Tree>)
    requires (forall y <- order :: y in g.nodes) && KeepsMembers(arrange) && AreChildren(g, order, children)
    requires Hangs(g, items, path) && |path| <= |g.nodes|
    ensures trees == Trees(g, order, arrange, arrange(items), |g.nodes| - |path|)
    decreases |g.nodes| - |path|
  {
    var sorted := arrange(items);
    HangsArranged(g, arrange, items, path);
    trees := [];
    ghost var depth := |g.nodes| - |path|;
    ghost var all := Trees(g, order, arrange, sorted, depth);
    assert sorted[0..] == sorted;
    for i := 0 to |sorted|
      invariant trees + Trees(g, order, arrange, sorted[i..], depth) == all
    {
      ItemHangs(g, order, sorted, i, path);
      var below := SortTrees(g, order, arrange, children, children[sorted[i]], [sorted[i]] + path);
      TreesOfNext(g, order, arrange, sorted, i, depth, trees, below);
      trees := trees + [Tree(sorted[i], below)];
    }
  }

  /** The second half: links every node, then sorts the trees. */
  method LinkAndSort(g: Graph, order: seq<ActivityId>) returns (trees: seq<Tree>)
    requires forall x <- order :: x in g.nodes
    ensures trees == Forest(g, order)
  {
    var roots, children := LinkNodes(g, order);
    RootsHang(g, order);
    ArrangeKeepsMembers(g);
    trees := SortTrees(g, order, Arrange(g), children, roots, []);
  }

  method ActivityTree(activities: seq<Activity>, relations: seq<Relation>) returns (trees: seq<Tree>)
    ensures var g, order := GraphOf(activities, relations), Order(activities);
            (forall x <- order :: x in g.nodes) && trees == Forest(g, order)
  {
    var nodes, events, order := CollectNodes(activities);
    var relationParents := CollectRelationParents(relations);
    var g := Graph(nodes, events, relationParents);
    OrderListsNodes(activities, relations);
    trees := LinkAndSort(g, order);
  }
}
