/**
 Which nodes the mission graph keeps and which edges it follows, without the predicates it is computed with
 (surfaces/webui/src/adapters/missionControlGraph.ts).
 */
module MissionRules {
  import opened MissionGraph

  // ----- Nodes that are kept -----

  predicate OccursAt(s: string, part: string, k: nat) {
    k + |part| <= |s| && s[k..k + |part|] == part
  }

  lemma OccursLater(s: string, part: string, k: nat)
    requires s != "" && k > 0
    ensures OccursAt(s[1..], part, k - 1) <==> OccursAt(s, part, k)
  {
    if k + |part| <= |s| { assert s[1..][k - 1..k - 1 + |part|] == s[k..k + |part|]; }
  }

  lemma {:induction false} ContainsIff(s: string, part: string)
    ensures Contains(s, part) <==> exists k: nat :: OccursAt(s, part, k)
  {
    if part <= s {
      assert OccursAt(s, part, 0);
    } else if s != "" {
      var rest := s[1..];
      ContainsIff(rest, part);
      if k: nat :| OccursAt(rest, part, k) { OccursLater(s, part, k + 1); }
      if k: nat :| OccursAt(s, part, k) {
        assert k > 0;
        OccursLater(s, part, k);
      }
    }
  }

  ghost predicate Begins(s: string, head: string) {
    exists tail :: s == head + tail
  }

  ghost predicate HasInside(s: string, part: string) {
    exists head, tail :: s == head + (part + tail)
  }

  lemma BeginsIff(s: string, head: string)
    ensures head <= s <==> Begins(s, head)
  {
    if head <= s { assert s == head + s[|head|..]; }
  }

  lemma HasInsideIff(s: string, part: string)
    ensures Contains(s, part) <==> HasInside(s, part)
  {
    ContainsIff(s, part);
    if k: nat :| OccursAt(s, part, k) {
      assert s == s[..k] + (part + s[k + |part|..]);
    }
    if head, tail :| s == head + (part + tail) {
      assert OccursAt(s, part, |head|);
    }
  }

  /** A task of a team's inner roles: numbered below a team run, or below the team itself. */
  ghost predicate IsRoleTask(taskId: string, teamId: string) {
    && HasInside(taskId, ":task:")
    && (Begins(taskId, "runtime-team:") || (teamId != "" && Begins(taskId, teamId + ":task:")))
  }

  lemma RoleTaskIff(taskId: string, teamId: string)
    ensures IsInternalTeamRoleTask(taskId, teamId) <==> IsRoleTask(taskId, teamId)
  {
    HasInsideIff(taskId, ":task:");
    BeginsIff(taskId, "runtime-team:");
    BeginsIff(taskId, teamId + ":task:");
  }

  /** Some team or agent runs this task as one of its inner roles. */
  ghost predicate HiddenTask(nodes: seq<Node>, id: NodeId) {
    exists m :: m in nodes && (m.kind == "team" || m.kind == "agent") && m.taskId != "" && id == "task:" + m.taskId
                && IsRoleTask(m.taskId, m.teamId)
  }

  /**
   A node is kept exactly when its kind is strategic, it is not the task of an inner role, and it is not an execution
   that some edge contains or delegates to.
   */
  lemma NodeIsKeptIff(nodes: seq<Node>, edges: seq<Edge>, n: Node)
    ensures Retains(nodes, Parents(edges), n)
       <==> && (n.kind == "mission" || n.kind == "session" || n.kind == "task" || n.kind == "execution"
                || n.kind == "team" || n.kind == "agent")
            && (n.kind == "task" ==> !HiddenTask(nodes, n.id))
            && (n.kind == "execution" ==>
                  !exists i :: 0 <= i < |edges| && edges[i].to == n.id
                               && (edges[i].kind == "contains" || edges[i].kind == "delegated_to"))
  {
    ParentIsTheFirstOwner(edges, n.id);
    forall m: Node ensures IsInternalTeamRoleTask(m.taskId, m.teamId) <==> IsRoleTask(m.taskId, m.teamId) {
      RoleTaskIff(m.taskId, m.teamId);
    }
    assert n.id in InternalTaskIds(nodes) <==> HiddenTask(nodes, n.id);
  }

  // ----- Edges that are folded -----

  /** The folded edge of `e`: between the hosts of its ends, which differ, with its id and kind. */
  predicate Folds(e: Edge, folded: Edge, ids: set<NodeId>, retained: set<NodeId>, parents: map<NodeId, NodeId>) {
    var from, to := Host(e.from, retained, parents, {}), Host(e.to, retained, parents, {});
    && e.from in ids && e.to in ids && from != to && from != "" && to != "" && from in retained && to in retained
    && folded == Edge(e.id, from, to, e.kind)
  }

  /** The folded edges are exactly those of the graph's edges between nodes with different hosts. */
  lemma {:induction false} FoldIff(edges: seq<Edge>, ids: set<NodeId>, retained: set<NodeId>,
                                   parents: map<NodeId, NodeId>, f: Edge)
    ensures f in Fold(edges, ids, retained, parents)
       <==> exists i :: 0 <= i < |edges| && Folds(edges[i], f, ids, retained, parents)
  {
    if edges != [] {
      var rest := edges[1..];
      FoldIff(rest, ids, retained, parents, f);
      FoldOneMore(edges, ids, retained, parents, f);
      if i :| 0 <= i < |rest| && Folds(rest[i], f, ids, retained, parents) { assert edges[i + 1] == rest[i]; }
      if i :| 0 <= i < |edges| && Folds(edges[i], f, ids, retained, parents) {
        if i > 0 { assert rest[i - 1] == edges[i]; }
      }
    }
  }

  lemma FoldOneMore(edges: seq<Edge>, ids: set<NodeId>, retained: set<NodeId>, parents: map<NodeId, NodeId>, f: Edge)
    requires edges != []
    ensures f in Fold(edges, ids, retained, parents)
       <==> Folds(edges[0], f, ids, retained, parents) || f in Fold(edges[1..], ids, retained, parents)
  {
  }

  // ----- Edges that are followed -----

  /** What contributes to a node joined to the root is joined too, and so is what such a node has an edge to. */
  lemma EdgesAreFollowed(edges: seq<Edge>, i: nat, root: NodeId)
    requires i < |edges|
    ensures Joined(edges, root, edges[i].from) ==> Joined(edges, root, edges[i].to)
    ensures edges[i].kind == "contributes" && Joined(edges, root, edges[i].to) ==> Joined(edges, root, edges[i].from)
  {
    if Joined(edges, root, edges[i].from) {
      EdgeExtends(edges, i, root, edges[i].from, edges[i].to);
    }
    if edges[i].kind == "contributes" && Joined(edges, root, edges[i].to) {
      EdgeExtends(edges, i, root, edges[i].to, edges[i].from);
    }
  }

  /** A node other than the root that no edge leads to, and that contributes to nothing, is not joined to it. */
  lemma OtherEdgesAreNotFollowedBack(edges: seq<Edge>, root: NodeId, n: NodeId)
    requires n != root
    requires forall i :: 0 <= i < |edges| ==>
               edges[i].to != n && (edges[i].from == n ==> edges[i].kind != "contributes")
    ensures !Joined(edges, root, n)
  {
    var others := set x: NodeId | x in Endpoints(edges) + {root} && x != n;
    if path :| Path(edges, path) && path[0] == root && path[|path| - 1] == n {
      assert Closed(edges, others) by {
        forall i, a, b | 0 <= i < |edges| && Joins(edges[i], a, b) && a in others ensures b in others {
          assert edges[i] in edges;
        }
      }
      ClosedContainsPaths(edges, others, path);
    }
  }
}
