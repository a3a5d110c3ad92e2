/**
 Folding the mission graph to its strategic nodes (surfaces/webui/src/adapters/missionControlGraph.ts): parents,
 retained nodes, the host that stands for each node, the folded edges, and what stays reachable from the root.
 */
module MissionGraph {

  type NodeId = string

  /** Absent identifiers are empty strings, as the source reads them. */
  datatype Node = Node(id: NodeId, kind: string, taskId: string, teamId: string)

  datatype Edge = Edge(id: string, from: NodeId, to: NodeId, kind: string)

  const STRATEGIC_KINDS := {"mission", "session", "task", "execution", "team", "agent"}

  predicate Owns(e: Edge) {
    e.kind == "contains" || e.kind == "delegated_to"
  }

  function Ids(nodes: seq<Node>): set<NodeId> {
    set n | n in nodes :: n.id
  }

  // ----- Retention -----

  /** `canonicalParents`: the first owning edge into a node decides. */
  function Parents(edges: seq<Edge>): map<NodeId, NodeId> {
    if edges == [] then map[]
    else
      var before := Parents(edges[..|edges| - 1]);
      var e := edges[|edges| - 1];
      if Owns(e) && e.to !in before then before[e.to := e.from] else before
  }

  /** The edge at `i` is the first one that owns `n`. */
  predicate FirstOwner(edges: seq<Edge>, i: nat, n: NodeId)
    requires i < |edges|
  {
    Owns(edges[i]) && edges[i].to == n && forall j :: 0 <= j < i ==> !(Owns(edges[j]) && edges[j].to == n)
  }

  /** A node's parent is where the first edge comes from that contains the node or delegates to it. */
  lemma {:induction false} ParentIsTheFirstOwner(edges: seq<Edge>, n: NodeId)
    ensures n in Parents(edges) <==> exists i :: 0 <= i < |edges| && edges[i].to == n
                                                 && (edges[i].kind == "contains" || edges[i].kind == "delegated_to")
    ensures forall i :: 0 <= i < |edges| && FirstOwner(edges, i, n) ==>
                          n in Parents(edges) && Parents(edges)[n] == edges[i].from
  {
    if edges != [] {
      var init, last := edges[..|edges| - 1], edges[|edges| - 1];
      ParentIsTheFirstOwner(init, n);
      assert forall i :: 0 <= i < |init| ==> init[i] == edges[i];
      if n in Parents(init) {
        var i :| 0 <= i < |init| && init[i].to == n && Owns(init[i]);
        assert edges[i] == init[i];
      }
      forall i | 0 <= i < |edges| && FirstOwner(edges, i, n)
        ensures n in Parents(edges) && Parents(edges)[n] == edges[i].from
      {
        if i < |init| { assert FirstOwner(init, i, n); }
      }
    }
  }

  predicate Contains(s: string, part: string) {
    part <= s || (s != "" && Contains(s[1..], part))
  }

  predicate IsInternalTeamRoleTask(taskId: string, teamId: string) {
    Contains(taskId, ":task:") && ("runtime-team:" <= taskId || (teamId != "" && teamId + ":task:" <= taskId))
  }

  function InternalTaskIds(nodes: seq<Node>): set<NodeId> {
    set n | n in nodes && n.kind in {"team", "agent"} && n.taskId != "" && IsInternalTeamRoleTask(n.taskId, n.teamId)
      :: "task:" + n.taskId
  }

  predicate Retains(nodes: seq<Node>, parents: map<NodeId, NodeId>, n: Node) {
    && n.kind in STRATEGIC_KINDS
    && !(n.kind == "task" && n.id in InternalTaskIds(nodes))
    && !(n.kind == "execution" && n.id in parents)
  }

  function RetainedIds(nodes: seq<Node>, parents: map<NodeId, NodeId>): (ids: set<NodeId>)
    ensures ids <= Ids(nodes)
  {
    set n | n in nodes && Retains(nodes, parents, n) :: n.id
  }

  // ----- Hosts -----

  /** `resolveStrategicHost` from `current` with some nodes already visited; empty if there is no host. */
  function Host(current: NodeId, retained: set<NodeId>, parents: map<NodeId, NodeId>, visited: set<NodeId>): NodeId
    decreases parents.Keys - visited, if current == "" then 0 else 1
  {
    if current == "" || current in visited then ""
    else if current in retained then current
    else Host(if current in parents then parents[current] else "", retained, parents, visited + {current})
  }

  /** The same without the visited set: the first retained node within `k` parent steps. */
  function FirstRetained(n: NodeId, retained: set<NodeId>, parents: map<NodeId, NodeId>, k: nat): NodeId
    decreases k
  {
    if n == "" then ""
    else if n in retained then n
    else if k == 0 || n !in parents then ""
    else FirstRetained(parents[n], retained, parents, k - 1)
  }

  /** From inside a parent-closed set without retained nodes no host is ever found. */
  lemma {:induction false} ClosedSetHasNoHost(n: NodeId, retained: set<NodeId>, parents: map<NodeId, NodeId>,
                                              closed: set<NodeId>, k: nat)
    requires n in closed && closed !! retained
    requires forall v :: v in closed ==> v in parents && parents[v] in closed
    ensures FirstRetained(n, retained, parents, k) == ""
    decreases k
  {
    if k > 0 { ClosedSetHasNoHost(parents[n], retained, parents, closed, k - 1); }
  }

  /** The loop's visited set never hides a host that parent steps can reach. */
  lemma {:induction false} HostIsFirstRetained(n: NodeId, retained: set<NodeId>, parents: map<NodeId, NodeId>,
                                               visited: set<NodeId>, k: nat)
    requires FirstRetained(n, retained, parents, k) != ""
    requires visited !! retained
    requires forall v :: v in visited ==> v in parents && parents[v] in visited + {n}
    ensures Host(n, retained, parents, visited) == FirstRetained(n, retained, parents, k)
    decreases k
  {
    if n in visited {
      assert visited + {n} == visited;
      ClosedSetHasNoHost(n, retained, parents, visited, k);
    }
    if n !in retained { HostIsFirstRetained(parents[n], retained, parents, visited + {n}, k - 1); }
  }

  // ----- Folded edges and reachability -----

  function Fold(edges: seq<Edge>, ids: set<NodeId>, retained: set<NodeId>, parents: map<NodeId, NodeId>): seq<Edge> {
    if edges == [] then []
    else
      var e := edges[0];
      var from := if e.from in ids then Host(e.from, retained, parents, {}) else "";
      var to := if e.to in ids then Host(e.to, retained, parents, {}) else "";
      (if from == "" || to == "" || from == to || from !in retained || to !in retained then []
       else [Edge(e.id, from, to, e.kind)])
      + Fold(edges[1..], ids, retained, parents)
  }

  /** One step along an edge, or against a `contributes` edge. */
  predicate Joins(e: Edge, a: NodeId, b: NodeId) {
    (e.from == a && e.to == b) || (e.kind == "contributes" && e.to == a && e.from == b)
  }

  ghost predicate Step(edges: seq<Edge>, a: NodeId, b: NodeId) {
    exists i :: 0 <= i < |edges| && Joins(edges[i], a, b)
  }

  ghost predicate Path(edges: seq<Edge>, path: seq<NodeId>) {
    path != [] && forall i :: 0 <= i < |path| - 1 ==> Step(edges, path[i], path[i + 1])
  }

  ghost predicate Joined(edges: seq<Edge>, a: NodeId, b: NodeId) {
    exists path :: Path(edges, path) && path[0] == a && path[|path| - 1] == b
  }

  ghost predicate Closed(edges: seq<Edge>, s: set<NodeId>) {
    forall i, a, b :: 0 <= i < |edges| && Joins(edges[i], a, b) && a in s ==> b in s
  }

  lemma ClosedUnderOneMore(edges: seq<Edge>, i: nat, s: set<NodeId>)
    requires i < |edges| && Closed(edges[..i], s)
    requires forall a, b :: Joins(edges[i], a, b) && a in s ==> b in s
    ensures Closed(edges[..i + 1], s)
  {
    var more := edges[..i + 1];
    assert forall j :: 0 <= j < i ==> more[j] == edges[..i][j];
  }

  lemma {:induction false} ClosedContainsPaths(edges: seq<Edge>, s: set<NodeId>, path: seq<NodeId>)
    requires Closed(edges, s) && Path(edges, path) && path[0] in s
    ensures path[|path| - 1] in s
  {
    if |path| > 1 {
      var i :| 0 <= i < |edges| && Joins(edges[i], path[0], path[1]);
      assert forall j :: 0 <= j < |path| - 2 ==> Step(edges, path[1..][j], path[1..][j + 1]) by {
        forall j | 0 <= j < |path| - 2 ensures Step(edges, path[1..][j], path[1..][j + 1]) {
          assert Step(edges, path[j + 1], path[j + 1 + 1]);
        }
      }
      ClosedContainsPaths(edges, s, path[1..]);
    }
  }

  lemma ClosedContainsJoined(edges: seq<Edge>, s: set<NodeId>, root: NodeId)
    requires Closed(edges, s) && root in s
    ensures forall x :: Joined(edges, root, x) ==> x in s
  {
    forall x | Joined(edges, root, x) ensures x in s {
      var path :| Path(edges, path) && path[0] == root && path[|path| - 1] == x;
      ClosedContainsPaths(edges, s, path);
    }
  }

  lemma JoinedIsReflexive(edges: seq<Edge>, a: NodeId)
    ensures Joined(edges, a, a)
  {
    assert Path(edges, [a]) && [a][0] == a && [a][|[a]| - 1] == a;
  }

  lemma JoinedExtends(edges: seq<Edge>, root: NodeId, a: NodeId, b: NodeId)
    requires Joined(edges, root, a) && Step(edges, a, b)
    ensures Joined(edges, root, b)
  {
    var path :| Path(edges, path) && path[0] == root && path[|path| - 1] == a;
    var longer := path + [b];
    forall i | 0 <= i < |longer| - 1 ensures Step(edges, longer[i], longer[i + 1]) {
      if i < |path| - 1 { assert Step(edges, path[i], path[i + 1]); }
    }
    assert Path(edges, longer) && longer[0] == root && longer[|longer| - 1] == b;
  }

  /** What an edge adds to a set joined to the root. */
  lemma EdgeExtends(edges: seq<Edge>, i: nat, root: NodeId, a: NodeId, b: NodeId)
    requires i < |edges| && Joins(edges[i], a, b) && Joined(edges, root, a)
    ensures Joined(edges, root, b) && b in Endpoints(edges)
  {
    assert edges[i] in edges;
    JoinedExtends(edges, root, a, b);
  }

  // ----- Folding preserves reachability -----

  /** A parent link comes from an owning edge. */
  lemma {:induction false} ParentIsAnEdge(edges: seq<Edge>, n: NodeId)
    requires n in Parents(edges)
    ensures exists i :: 0 <= i < |edges| && Owns(edges[i]) && edges[i].to == n && edges[i].from == Parents(edges)[n]
  {
    var before := edges[..|edges| - 1];
    if n in Parents(before) {
      ParentIsAnEdge(before, n);
      var i :| 0 <= i < |before| && Owns(before[i]) && before[i].to == n && before[i].from == Parents(before)[n];
      assert edges[i] == before[i];
    } else {
      assert edges[|edges| - 1].to == n;
    }
  }

  /** An edge between nodes with different hosts survives, between the hosts. */
  lemma {:induction false} FoldKeepsEdge(edges: seq<Edge>, ids: set<NodeId>, retained: set<NodeId>,
                                         parents: map<NodeId, NodeId>, i: nat)
    requires i < |edges| && edges[i].from in ids && edges[i].to in ids
    requires var a := Host(edges[i].from, retained, parents, {}); var b := Host(edges[i].to, retained, parents, {});
             a != "" && b != "" && a != b && a in retained && b in retained
    ensures Step(Fold(edges, ids, retained, parents),
                 Host(edges[i].from, retained, parents, {}), Host(edges[i].to, retained, parents, {}))
  {
    var a := Host(edges[i].from, retained, parents, {});
    var b := Host(edges[i].to, retained, parents, {});
    var all := Fold(edges, ids, retained, parents);
    var rest := Fold(edges[1..], ids, retained, parents);
    if i == 0 {
      assert Joins(all[0], a, b);
    } else {
      FoldKeepsEdge(edges[1..], ids, retained, parents, i - 1);
      var j :| 0 <= j < |rest| && Joins(rest[j], a, b);
      assert all[|all| - |rest| + j] == rest[j];
    }
  }

  /** `chain` climbs from its first node through graph nodes to the root. */
  ghost predicate ClimbsTo(chain: seq<NodeId>, root: NodeId, ids: set<NodeId>, parents: map<NodeId, NodeId>) {
    && chain != [] && chain[|chain| - 1] == root
    && (forall i :: 0 <= i < |chain| ==> chain[i] != "" && chain[i] in ids)
    && (forall i :: 0 <= i < |chain| - 1 ==> chain[i] in parents && parents[chain[i]] == chain[i + 1])
  }

  /** A retained node whose parent's host is joined to the root is joined to it. */
  lemma RetainedNodeIsJoined(edges: seq<Edge>, ids: set<NodeId>, retained: set<NodeId>, root: NodeId, n: NodeId,
                             above: NodeId)
    requires n in Parents(edges) && n in ids && Parents(edges)[n] in ids && n in retained && n != ""
    requires above == Host(Parents(edges)[n], retained, Parents(edges), {}) && above != "" && above in retained
    requires Host(n, retained, Parents(edges), {}) == n
    requires Joined(Fold(edges, ids, retained, Parents(edges)), root, above)
    ensures Joined(Fold(edges, ids, retained, Parents(edges)), root, n)
  {
    ParentIsAnEdge(edges, n);
    var i :| 0 <= i < |edges| && Owns(edges[i]) && edges[i].to == n && edges[i].from == Parents(edges)[n];
    if above != n {
      FoldKeepsEdge(edges, ids, retained, Parents(edges), i);
      JoinedExtends(Fold(edges, ids, retained, Parents(edges)), root, above, n);
    }
  }

  lemma RestClimbs(chain: seq<NodeId>, root: NodeId, ids: set<NodeId>, parents: map<NodeId, NodeId>)
    requires ClimbsTo(chain, root, ids, parents) && |chain| > 1
    ensures ClimbsTo(chain[1..], root, ids, parents)
    ensures chain[0] in parents && parents[chain[0]] == chain[1] && chain[1] in ids && chain[0] in ids
  {
    var rest := chain[1..];
    assert forall i :: 0 <= i < |rest| ==> rest[i] == chain[i + 1];
  }

  /** A chain to a retained root passes a retained node. */
  lemma {:induction false} ChainFindsHost(chain: seq<NodeId>, root: NodeId, ids: set<NodeId>,
                                          parents: map<NodeId, NodeId>, retained: set<NodeId>)
    requires ClimbsTo(chain, root, ids, parents) && root in retained
    ensures var host := FirstRetained(chain[0], retained, parents, |chain| - 1);
            host != "" && host in retained && Host(chain[0], retained, parents, {}) == host
    decreases |chain|
  {
    if |chain| > 1 {
      RestClimbs(chain, root, ids, parents);
      ChainFindsHost(chain[1..], root, ids, parents, retained);
    }
    HostIsFirstRetained(chain[0], retained, parents, {}, |chain| - 1);
  }

  lemma {:induction false} ChainIsJoined(chain: seq<NodeId>, root: NodeId, edges: seq<Edge>, ids: set<NodeId>,
                                         retained: set<NodeId>)
    requires ClimbsTo(chain, root, ids, Parents(edges)) && root in retained
    ensures Joined(Fold(edges, ids, retained, Parents(edges)), root, Host(chain[0], retained, Parents(edges), {}))
    decreases |chain|
  {
    ChainFindsHost(chain, root, ids, Parents(edges), retained);
    if |chain| == 1 {
      JoinedIsReflexive(Fold(edges, ids, retained, Parents(edges)), root);
    } else {
      RestClimbs(chain, root, ids, Parents(edges));
      ChainFindsHost(chain[1..], root, ids, Parents(edges), retained);
      ChainIsJoined(chain[1..], root, edges, ids, retained);
      if chain[0] in retained {
        RetainedNodeIsJoined(edges, ids, retained, root, chain[0], Host(chain[1], retained, Parents(edges), {}));
      }
    }
  }

  /** Along a chain to a retained root every node has a host, and all the hosts are joined to the root. */
  lemma HostsOnAChainAreJoined(nodes: seq<Node>, edges: seq<Edge>, root: NodeId, chain: seq<NodeId>)
    requires var parents := Parents(edges);
             ClimbsTo(chain, root, Ids(nodes), parents) && root in RetainedIds(nodes, parents)
    ensures var parents := Parents(edges); var retained := RetainedIds(nodes, parents);
            var host := FirstRetained(chain[0], retained, parents, |chain| - 1);
            && host != "" && host in retained && Host(chain[0], retained, parents, {}) == host
            && Joined(Fold(edges, Ids(nodes), retained, parents), root, host)
  {
    var retained := RetainedIds(nodes, Parents(edges));
    ChainFindsHost(chain, root, Ids(nodes), Parents(edges), retained);
    ChainIsJoined(chain, root, edges, Ids(nodes), retained);
  }

  // ----- The adapter in the source's own form -----

  method CanonicalParents(edges: seq<Edge>) returns (parents: map<NodeId, NodeId>)
    ensures parents == Parents(edges)
  {
    parents := map[];
    for i := 0 to |edges|
      invariant parents == Parents(edges[..i])
    {
      assert edges[..i + 1][..i] == edges[..i];
      if Owns(edges[i]) && edges[i].to !in parents {
        parents := parents[edges[i].to := edges[i].from];
      }
    }
    assert edges[..|edges|] == edges;
  }

  method ResolveStrategicHost(nodeId: NodeId, retained: set<NodeId>, parents: map<NodeId, NodeId>)
      returns (host: NodeId)
    ensures host == Host(nodeId, retained, parents, {})
  {
    var current := nodeId;
    var visited: set<NodeId> := {};
    while current != "" && current !in visited
      invariant Host(current, retained, parents, visited) == Host(nodeId, retained, parents, {})
      decreases parents.Keys - visited, if current == "" then 0 else 1
    {
      if current in retained { return current; }
      visited := visited + {current};
      current := if current in parents then parents[current] else "";
    }
    return "";
  }

  function Endpoints(edges: seq<Edge>): set<NodeId> {
    (set e | e in edges :: e.from) + (set e | e in edges :: e.to)
  }

  /** The fixpoint loop computes exactly the nodes joined to the root. */
  method ReachableStrategicNodes(root: NodeId, edges: seq<Edge>) returns (reachable: set<NodeId>)
    ensures forall x :: x in reachable <==> Joined(edges, root, x)
  {
    reachable := {root};
    JoinedIsReflexive(edges, root);
    var changed := true;
    while changed
      invariant root in reachable && reachable <= Endpoints(edges) + {root}
      invariant forall x :: x in reachable ==> Joined(edges, root, x)
      invariant !changed ==> Closed(edges, reachable)
      decreases Endpoints(edges) + {root} - reachable, changed
    {
      changed := false;
      ghost var before := reachable;
      for i := 0 to |edges|
        invariant before <= reachable <= Endpoints(edges) + {root}
        invariant forall x :: x in reachable ==> Joined(edges, root, x)
        invariant changed <==> before != reachable
        invariant !changed ==> Closed(edges[..i], reachable)
      {
        var e := edges[i];
        if e.from in reachable && e.to !in reachable {
          EdgeExtends(edges, i, root, e.from, e.to);
          reachable := reachable + {e.to};
          changed := true;
        }
        if e.kind == "contributes" && e.to in reachable && e.from !in reachable {
          EdgeExtends(edges, i, root, e.to, e.from);
          reachable := reachable + {e.from};
          changed := true;
        }
        if !changed { ClosedUnderOneMore(edges, i, reachable); }
      }
      assert edges[..|edges|] == edges;
    }
    ClosedContainsJoined(edges, reachable, root);
  }

  function Select(nodes: seq<Node>, ids: set<NodeId>): seq<Node> {
    if nodes == [] then [] else (if nodes[0].id in ids then [nodes[0]] else []) + Select(nodes[1..], ids)
  }

  lemma {:induction false} SelectKeeps(nodes: seq<Node>, ids: set<NodeId>)
    ensures forall n :: n in Select(nodes, ids) <==> n in nodes && n.id in ids
    ensures |Select(nodes, ids)| <= |nodes|
  {
    if nodes != [] {
      SelectKeeps(nodes[1..], ids);
      assert nodes == [nodes[0]] + nodes[1..];
    }
  }

  /** The folded edges of a graph. */
  function FoldedEdges(nodes: seq<Node>, edges: seq<Edge>): seq<Edge> {
    Fold(edges, Ids(nodes), RetainedIds(nodes, Parents(edges)), Parents(edges))
  }

  /** A node is to be shown when it is retained and joined to the mission's root by folded edges. */
  ghost predicate Shown(missionId: string, nodes: seq<Node>, edges: seq<Edge>, n: Node) {
    n in nodes && n.id in RetainedIds(nodes, Parents(edges)) &&
        Joined(FoldedEdges(nodes, edges), "mission:" + missionId, n.id)
  }

  /** The view holds exactly the nodes to be shown, in graph order. */
  ghost predicate IsView(missionId: string, nodes: seq<Node>, edges: seq<Edge>, view: seq<Node>) {
    && (forall n :: n in view <==> Shown(missionId, nodes, edges, n))
    && exists ids :: view == Select(nodes, ids)
  }

  lemma {:induction false} SelectTwice(nodes: seq<Node>, a: set<NodeId>, b: set<NodeId>)
    ensures Select(Select(nodes, a), b) == Select(nodes, a * b)
  {
    if nodes != [] {
      SelectTwice(nodes[1..], a, b);
      var rest := Select(nodes[1..], a);
      if nodes[0].id in a {
        assert ([nodes[0]] + rest)[1..] == rest;
      } else {
        assert [] + rest == rest && [] + Select(rest, b) == Select(rest, b);
      }
    }
  }

  /** `adaptMissionControlGraph`, as far as nodes and folded edges go. */
  method AdaptMissionControlGraph(missionId: string, nodes: seq<Node>, edges: seq<Edge>)
    returns (view: seq<Node>, folded: seq<Edge>, omitted: nat)
    ensures IsView(missionId, nodes, edges, view)
    ensures folded == FoldedEdges(nodes, edges)
    ensures omitted + |view| == |Select(nodes, RetainedIds(nodes, Parents(edges)))|
  {
    var parents := CanonicalParents(edges);
    var retained := RetainedIds(nodes, parents);
    folded := Fold(edges, Ids(nodes), retained, parents);
    var reachable := ReachableStrategicNodes("mission:" + missionId, folded);
    var candidates := Select(nodes, retained);
    view := Select(candidates, reachable);
    SelectTwice(nodes, retained, reachable);
    SelectKeeps(nodes, retained);
    SelectKeeps(candidates, reachable);
    omitted := |candidates| - |view|;
  }

  lemma {:induction false} FoldStaysRetained(edges: seq<Edge>, ids: set<NodeId>, retained: set<NodeId>,
      parents: map<NodeId, NodeId>)
    ensures forall i :: 0 <= i < |Fold(edges, ids, retained, parents)| ==>
              Fold(edges, ids, retained, parents)[i].from in retained &&
                  Fold(edges, ids, retained, parents)[i].to in retained
  {
    if edges != [] { FoldStaysRetained(edges[1..], ids, retained, parents); }
  }

  /**
   Folding preserves reachability: a retained node whose parent chain climbs through graph nodes to the mission root
   is shown, provided the root itself is retained, as a node of kind "mission" is; without its root nothing is shown.
   */
  lemma ChainedNodesAreShownIffRootIsRetained(missionId: string, nodes: seq<Node>, edges: seq<Edge>,
                                              chain: seq<NodeId>, n: Node)
    requires n in nodes && n.id in RetainedIds(nodes, Parents(edges))
    requires ClimbsTo(chain, "mission:" + missionId, Ids(nodes), Parents(edges)) && chain[0] == n.id
    ensures Shown(missionId, nodes, edges, n) <==> "mission:" + missionId in RetainedIds(nodes, Parents(edges))
  {
    var root := "mission:" + missionId;
    var retained := RetainedIds(nodes, Parents(edges));
    var folded := FoldedEdges(nodes, edges);
    if root in retained {
      HostsOnAChainAreJoined(nodes, edges, root, chain);
    } else {
      FoldStaysRetained(edges, Ids(nodes), retained, Parents(edges));
      if Joined(folded, root, n.id) {
        var path :| Path(folded, path) && path[0] == root && path[|path| - 1] == n.id;
        ClosedContainsPaths(folded, {root}, path);
      }
    }
  }

  /** A session right below a root of another kind: the root is not retained, and the session is not shown. */
  lemma UnretainedRootHidesItsNodes()
    ensures var root, session := Node("mission:m", "note", "", ""), Node("s", "session", "", "");
            var edges := [Edge("e", "mission:m", "s", "contains")];
            session.id in RetainedIds([root, session], Parents(edges)) && !Shown("m", [root, session], edges, session)
  {
    var root, session := Node("mission:m", "note", "", ""), Node("s", "session", "", "");
    var nodes, edges := [root, session], [Edge("e", "mission:m", "s", "contains")];
    assert edges[..0] == [];
    assert Parents(edges) == map["s" := "mission:m"];
    assert nodes[0] == root && nodes[1] == session;
    assert Retains(nodes, Parents(edges), session) && session in nodes;
    var chain := ["s", "mission:m"];
    assert "mission:" + "m" == "mission:m";
    assert ClimbsTo(chain, "mission:m", Ids(nodes), Parents(edges)) by {
      assert root in nodes && "mission:m" in Ids(nodes) && "s" in Ids(nodes);
    }
    assert "mission:m" !in RetainedIds(nodes, Parents(edges)) by {
      assert "s"[0] != "mission:m"[0];
    }
    ChainedNodesAreShownIffRootIsRetained("m", nodes, edges, chain, session);
  }

  lemma MissionRootsAreRetained(missionId: string, nodes: seq<Node>, parents: map<NodeId, NodeId>, n: Node)
    requires n in nodes && n.id == "mission:" + missionId && n.kind == "mission"
    ensures "mission:" + missionId in RetainedIds(nodes, parents)
  {
    assert Retains(nodes, parents, n);
  }
}
