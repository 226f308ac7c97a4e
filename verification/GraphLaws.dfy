/** What neighbours and paths are, in terms of the two ends of each edge and of the records on the way. */
module GraphLaws {
  import opened Wrappers
  import opened GraphModel
  import opened GraphRepository

  // ----- one step -----

  predicate HasType(allowed: Option<set<EdgeType>>, t: EdgeType) {
    allowed == None || t in allowed.value
  }

  /** Asking for no types, or for an empty list of them, asks for all. */
  lemma TypesAskedFor(edgeTypes: Option<seq<EdgeType>>, t: EdgeType)
    ensures HasType(AllowedTypes(edgeTypes), t) <==>
            edgeTypes == None || edgeTypes == Some([]) || t in edgeTypes.value
  {
  }

  /** Two ids are linked iff they are the two ends of an edge of an allowed type, whichever is its source. */
  lemma LinkedByEnds(edges: seq<Edge>, allowed: Option<set<EdgeType>>, u: Id, v: Id)
    ensures Linked(edges, allowed, u, v) <==>
            exists e <- edges :: HasType(allowed, e.edgeType) && {e.source, e.target} == {u, v}
  {
    if Linked(edges, allowed, u, v) {
      var e :| e in edges && e.IsAllowed(allowed) && e.Touches(u) && e.Other(u) == v;
      EndsMeet(e, u, v);
    }
    if e :| e in edges && HasType(allowed, e.edgeType) && {e.source, e.target} == {u, v} {
      EndsMeet(e, u, v);
      assert e.IsAllowed(allowed) && e.Touches(u) && e.Other(u) == v;
    }
  }

  lemma EndsMeet(e: Edge, u: Id, v: Id)
    ensures e.Touches(u) && e.Other(u) == v <==> {e.source, e.target} == {u, v}
  {
    var ends := {e.source, e.target};
    if ends == {u, v} {
      assert u in ends && v in ends && e.source in {u, v} && e.target in {u, v};
    }
  }

  lemma LinkedSymmetric(edges: seq<Edge>, allowed: Option<set<EdgeType>>, u: Id, v: Id)
    requires Linked(edges, allowed, u, v)
    ensures Linked(edges, allowed, v, u)
  {
    LinkedByEnds(edges, allowed, u, v);
    LinkedByEnds(edges, allowed, v, u);
    assert {u, v} == {v, u};
  }

  // ----- distance -----

  function Reversed<T>(s: seq<T>): (r: seq<T>)
    ensures |r| == |s| && forall i :: 0 <= i < |s| ==> r[i] == s[|s| - 1 - i]
  {
    seq(|s|, i requires 0 <= i < |s| => s[|s| - 1 - i])
  }

  lemma WalkBack(edges: seq<Edge>, allowed: Option<set<EdgeType>>, u: Id, v: Id, w: seq<Id>)
    requires WalkBetween(edges, allowed, u, v, w)
    ensures WalkBetween(edges, allowed, v, u, Reversed(w))
  {
    var back := Reversed(w);
    forall i, j | 0 <= i < j < |back| && j == i + 1
      ensures Linked(edges, allowed, back[i], back[j])
    {
      assert Linked(edges, allowed, w[|w| - 1 - j], w[|w| - 1 - i]);
      LinkedSymmetric(edges, allowed, w[|w| - 1 - j], w[|w| - 1 - i]);
    }
  }

  lemma DistanceBack(edges: seq<Edge>, allowed: Option<set<EdgeType>>, a: Id, b: Id, d: nat)
    requires AtDistance(edges, allowed, a, b, d)
    ensures AtDistance(edges, allowed, b, a, d)
  {
    var w :| WalkBetween(edges, allowed, a, b, w) && |w| == d + 1;
    WalkBack(edges, allowed, a, b, w);
    forall w | WalkBetween(edges, allowed, b, a, w)
      ensures |w| >= d + 1
    {
      WalkBack(edges, allowed, b, a, w);
    }
  }

  /** Distance does not depend on the direction of the edges. */
  lemma DistanceSymmetric(edges: seq<Edge>, allowed: Option<set<EdgeType>>, a: Id, b: Id, d: nat)
    ensures AtDistance(edges, allowed, a, b, d) <==> AtDistance(edges, allowed, b, a, d)
  {
    if AtDistance(edges, allowed, a, b, d) {
      DistanceBack(edges, allowed, a, b, d);
    }
    if AtDistance(edges, allowed, b, a, d) {
      DistanceBack(edges, allowed, b, a, d);
    }
  }

  /** One step away are exactly the other ends of the edges at an id. */
  lemma OneStepAway(edges: seq<Edge>, allowed: Option<set<EdgeType>>, root: Id, v: Id)
    ensures AtDistance(edges, allowed, root, v, 1) <==>
            root != v && exists e <- edges :: HasType(allowed, e.edgeType) && {e.source, e.target} == {root, v}
  {
    LinkedByEnds(edges, allowed, root, v);
    if AtDistance(edges, allowed, root, v, 1) {
      var w :| WalkBetween(edges, allowed, root, v, w) && |w| == 2;
      assert Linked(edges, allowed, w[0], w[1]);
      assert root == v ==> WalkBetween(edges, allowed, root, v, [root]);
    } else if root != v && Linked(edges, allowed, root, v) {
      assert WalkBetween(edges, allowed, root, v, [root, v]);
    }
  }

  /** An answer for depth 1 holds exactly the recorded ids at the other ends of allowed edges, outgoing and incoming. */
  lemma DirectNeighbors(nodes: NodeTable, edges: seq<Edge>, allowed: Option<set<EdgeType>>, root: Id,
                        found: seq<Node>, n: Node)
    requires AreNeighbors(nodes, edges, allowed, root, 1, found)
    ensures n in found <==>
            n.id in nodes && n == nodes[n.id] && n.id != root &&
            exists e <- edges :: HasType(allowed, e.edgeType) && {e.source, e.target} == {root, n.id}
  {
    OneStepAway(edges, allowed, root, n.id);
    assert n in found <==> IsNeighbor(nodes, edges, allowed, root, 1, n);
  }

  /** At any depth each recorded end of an allowed edge is in the answer for the other end. */
  lemma EndsAreNeighbors(nodes: NodeTable, edges: seq<Edge>, allowed: Option<set<EdgeType>>, e: Edge, root: Id, v: Id,
                         depth: int, found: seq<Node>)
    requires AreNeighbors(nodes, edges, allowed, root, depth, found) && depth >= 1
    requires e in edges && HasType(allowed, e.edgeType) && {e.source, e.target} == {root, v} && root != v && v in nodes
    ensures nodes[v] in found
  {
    OneStepAway(edges, allowed, root, v);
    assert IsNeighbor(nodes, edges, allowed, root, depth, nodes[v]);
  }

  /** Who is found around whom is symmetric. */
  lemma NeighborsMutual(nodes: NodeTable, edges: seq<Edge>, allowed: Option<set<EdgeType>>, a: Id, b: Id, depth: int,
                        aroundA: seq<Node>, aroundB: seq<Node>)
    requires a in nodes && b in nodes
    requires AreNeighbors(nodes, edges, allowed, a, depth, aroundA)
    requires AreNeighbors(nodes, edges, allowed, b, depth, aroundB)
    ensures nodes[b] in aroundA <==> nodes[a] in aroundB
  {
    forall d: nat
      ensures AtDistance(edges, allowed, a, b, d) <==> AtDistance(edges, allowed, b, a, d)
    {
      DistanceSymmetric(edges, allowed, a, b, d);
    }
    assert nodes[b] in aroundA <==> IsNeighbor(nodes, edges, allowed, a, depth, nodes[b]);
    assert nodes[a] in aroundB <==> IsNeighbor(nodes, edges, allowed, b, depth, nodes[a]);
  }

  // ----- edges of one key, and owners -----

  /** Two edges share their place in the dictionary iff they agree in source, target and type. */
  lemma SameKeyIs(e: Edge, f: Edge)
    ensures e.SameKey(f) <==> (e.source, e.target, e.edgeType) == (f.source, f.target, f.edgeType)
  {
  }

  /** An overview without a limit holds the recorded nodes whose `user_id` property names the user, and the edges
      between two of these. */
  lemma OverviewOfUser(nodes: NodeTable, edges: seq<Edge>, user: string, overview: Overview, n: Node, e: Edge)
    requires IsSubgraph(nodes, edges, user, overview) && user != ""
    ensures n in overview.nodes <==>
            n.id in nodes && n == nodes[n.id] && "user_id" in n.properties && n.properties["user_id"] == user
    ensures e in overview.edges <==>
            e in edges && e.source in nodes && e.target in nodes &&
            nodes[e.source] in overview.nodes && nodes[e.target] in overview.nodes
  {
  }

  // ----- paths -----

  /** Two consecutive ids of a simple path are the two ends of the edge between them. */
  lemma StepsAreEnds(edges: seq<Edge>, source: Id, path: seq<Edge>, n: nat)
    requires IsSimplePath(edges, source, path) && n < |path|
    ensures {Trace(source, path)[n], Trace(source, path)[n + 1]} == {path[n].source, path[n].target}
  {
    TraceStep(source, path, n);
    EndsMeet(path[n], Trace(source, path)[n], Trace(source, path)[n + 1]);
  }

  /** The records are those at the positions `at` of the ids, in order and leaving out no recorded id. */
  ghost predicate PickedAt(nodes: NodeTable, ids: seq<Id>, records: seq<Node>, at: seq<nat>) {
    |at| == |records| && (forall j, k :: 0 <= j < k < |at| ==> at[j] < at[k]) &&
    (forall k :: 0 <= k < |at| ==> at[k] < |ids| && ids[at[k]] in nodes && records[k] == nodes[ids[at[k]]]) &&
    (forall i: nat {:trigger i in at} :: i < |ids| && ids[i] in nodes ==> i in at)
  }

  lemma {:induction false} RecordsPicked(nodes: NodeTable, ids: seq<Id>) returns (at: seq<nat>)
    ensures PickedAt(nodes, ids, Records(nodes, ids), at)
  {
    if ids == [] {
      at := [];
    } else {
      var rest := RecordsPicked(nodes, ids[1..]);
      var moved := PickedLater(nodes, ids, Records(nodes, ids[1..]), rest);
      if ids[0] in nodes {
        at := [0] + moved;
        PickedFirst(nodes, ids, Records(nodes, ids[1..]), moved);
      } else {
        at := moved;
      }
    }
  }

  lemma PickedFirst(nodes: NodeTable, ids: seq<Id>, records: seq<Node>, at: seq<nat>)
    requires ids != [] && ids[0] in nodes && PickedAfterFirst(nodes, ids, records, at)
    ensures PickedAt(nodes, ids, [nodes[ids[0]]] + records, [0] + at)
  {
    var longer, more := [0] + at, [nodes[ids[0]]] + records;
    assert forall k :: 0 < k < |longer| ==> longer[k] == at[k - 1] && more[k] == records[k - 1];
    assert longer[0] == 0 && more[0] == nodes[ids[0]];
    ZeroAdded(at);
  }

  lemma ZeroAdded(at: seq<nat>)
    ensures forall i: nat :: i == 0 || i in at ==> i in [0] + at
  {
    assert ([0] + at)[0] == 0;
  }

  ghost predicate PickedAfterFirst(nodes: NodeTable, ids: seq<Id>, records: seq<Node>, at: seq<nat>) {
    |at| == |records| && (forall j, k :: 0 <= j < k < |at| ==> at[j] < at[k]) &&
    (forall k :: 0 <= k < |at| ==> 0 < at[k] < |ids| && ids[at[k]] in nodes && records[k] == nodes[ids[at[k]]]) &&
    (forall i: nat {:trigger i in at} :: 0 < i < |ids| && ids[i] in nodes ==> i in at)
  }

  lemma PickedLater(nodes: NodeTable, ids: seq<Id>, records: seq<Node>, rest: seq<nat>) returns (at: seq<nat>)
    requires ids != [] && PickedAt(nodes, ids[1..], records, rest)
    ensures PickedAfterFirst(nodes, ids, records, at)
  {
    at := seq(|rest|, k requires 0 <= k < |rest| => rest[k] + 1);
    forall i | 0 < i < |ids| && ids[i] in nodes
      ensures i in at
    {
      assert i - 1 in rest;
      var k :| 0 <= k < |rest| && rest[k] == i - 1;
      assert at[k] == i;
    }
  }

  /** A path found comes with the records of the ids it visits, in the order in which its edges lead from one to the
      next, and without those that are not recorded. */
  lemma FoundInVisitingOrder(nodes: NodeTable, edges: seq<Edge>, source: Id, target: Id, maxDepth: int,
                             found: seq<GraphPath>, p: GraphPath) returns (at: seq<nat>)
    requires ListsAnswers(nodes, edges, source, target, maxDepth, [], found) && p in found
    ensures PickedAt(nodes, Trace(source, p.edges), p.nodes, at)
    ensures forall n :: 0 <= n < |p.edges| ==>
              {Trace(source, p.edges)[n], Trace(source, p.edges)[n + 1]} == {p.edges[n].source, p.edges[n].target}
  {
    at := RecordsPicked(nodes, Trace(source, p.edges));
    forall n | 0 <= n < |p.edges|
      ensures {Trace(source, p.edges)[n], Trace(source, p.edges)[n + 1]} == {p.edges[n].source, p.edges[n].target}
    {
      StepsAreEnds(edges, source, p.edges, n);
    }
  }

  lemma {:induction false} IncreasingStays(at: seq<nat>, k: nat)
    requires k < |at| && forall i, j :: 0 <= i < j < |at| ==> at[i] < at[j]
    ensures at[k] >= k
  {
    if k > 0 {
      IncreasingStays(at, k - 1);
    }
  }

  lemma {:induction false} NothingSkipped(at: seq<nat>, k: nat, n: nat)
    requires k < |at| && (forall i, j :: 0 <= i < j < |at| ==> at[i] < at[j]) && forall i: nat :: i < n ==> i in at
    requires k < n
    ensures at[k] == k
    decreases k
  {
    IncreasingStays(at, k);
    assert k in at;
    var j :| 0 <= j < |at| && at[j] == k;
    if j < k {
      NothingSkipped(at, j, n);
    }
  }

  /** When everything on the way is recorded, each id has its record at its place. */
  lemma FoundComplete(nodes: NodeTable, edges: seq<Edge>, source: Id, target: Id, maxDepth: int,
                      found: seq<GraphPath>, p: GraphPath)
    requires ListsAnswers(nodes, edges, source, target, maxDepth, [], found) && p in found
    requires forall id <- Trace(source, p.edges) :: id in nodes
    ensures |p.nodes| == |p.edges| + 1
    ensures forall k :: 0 <= k < |p.nodes| ==> p.nodes[k] == nodes[Trace(source, p.edges)[k]]
  {
    var at := FoundInVisitingOrder(nodes, edges, source, target, maxDepth, found, p);
    AllPicked(nodes, Trace(source, p.edges), p.nodes, at);
  }

  lemma AllPicked(nodes: NodeTable, ids: seq<Id>, records: seq<Node>, at: seq<nat>)
    requires PickedAt(nodes, ids, records, at) && forall id <- ids :: id in nodes
    ensures |records| == |ids| && forall k :: 0 <= k < |ids| ==> records[k] == nodes[ids[k]]
  {
    LastPicked(at, |ids|);
    forall k | 0 <= k < |ids|
      ensures records[k] == nodes[ids[k]]
    {
      NothingSkipped(at, k, |ids|);
    }
  }

  lemma LastPicked(at: seq<nat>, n: nat)
    requires (forall i, j :: 0 <= i < j < |at| ==> at[i] < at[j]) && forall i: nat :: i < n ==> i in at
    requires forall k :: 0 <= k < |at| ==> at[k] < n
    ensures |at| == n
  {
    if |at| > n {
      IncreasingStays(at, n);
    } else if |at| < n {
      assert n - 1 in at;
      var j :| 0 <= j < |at| && at[j] == n - 1;
      NothingSkipped(at, j, n);
    }
  }
}
