/** The knowledge graph as values: nodes, edges, and what its traversals mean.

    Edges carry a direction but are walked both ways. They may name ids for which no node is recorded. */
module GraphModel {
  import opened Wrappers

  /** Ids are only ever compared. */
  datatype Id = Id(text: string)

  datatype NodeType = Memory | Goal | Skill | Project | Preference | Fact

  datatype EdgeType =
    RelatedTo | Supports | UsedIn | DependsOn | DerivedFrom | Reinforces | Contradicts | Supersedes |
    PromotedFrom | ClusterMember

  datatype Node = Node(id: Id, nodeType: NodeType, nodeLabel: string, properties: map<string, string>) {
    /** The owner's id as text, "" when the node has none. */
    function Owner(): string {
      if "user_id" in properties then properties["user_id"] else ""
    }
  }

  datatype Edge = Edge(source: Id, target: Id, edgeType: EdgeType, weight: real, properties: map<string, string>) {
    predicate Touches(v: Id) {
      source == v || target == v
    }

    /** The end of the edge that one reaches when leaving `v`. */
    function Other(v: Id): Id {
      if source == v then target else source
    }

    predicate SameKey(e: Edge) {
      source == e.source && target == e.target && edgeType == e.edgeType
    }

    predicate IsAllowed(allowed: Option<set<EdgeType>>) {
      allowed.None? || edgeType in allowed.value
    }
  }

  datatype GraphPath = GraphPath(nodes: seq<Node>, edges: seq<Edge>)

  type NodeTable = nodes: map<Id, Node> | forall id <- nodes :: nodes[id].id == id witness map[]

  ghost predicate NoDuplicates<T>(s: seq<T>) {
    forall i, j :: 0 <= i < j < |s| ==> s[i] != s[j]
  }

  // ----- the edge dictionary: values in insertion order, at most one for each key -----

  ghost predicate DistinctKeys(edges: seq<Edge>) {
    forall i, j :: 0 <= i < j < |edges| ==> !edges[i].SameKey(edges[j])
  }

  /** Assigning to a dictionary keeps the place of a key that is already there and appends a new key. */
  function Put(edges: seq<Edge>, e: Edge): seq<Edge> {
    if edges == [] then [e]
    else if edges[0].SameKey(e) then [e] + edges[1..]
    else [edges[0]] + Put(edges[1..], e)
  }

  lemma {:induction false} PutMembers(edges: seq<Edge>, e: Edge)
    requires DistinctKeys(edges)
    ensures DistinctKeys(Put(edges, e))
    ensures forall x :: x in Put(edges, e) <==> x == e || (x in edges && !x.SameKey(e))
  {
    if edges != [] {
      var rest := edges[1..];
      assert edges == [edges[0]] + rest;
      PutMembers(rest, e);
      if edges[0].SameKey(e) {
        assert forall x <- rest :: !x.SameKey(e);
      } else {
        assert forall x <- Put(rest, e) :: !edges[0].SameKey(x);
      }
    }
  }

  lemma {:induction false} PutPresent(edges: seq<Edge>, e: Edge)
    requires DistinctKeys(edges) && e in edges
    ensures Put(edges, e) == edges
  {
    assert edges == [edges[0]] + edges[1..];
    if !edges[0].SameKey(e) {
      PutPresent(edges[1..], e);
    } else {
      assert e == edges[0];
    }
  }

  // ----- distance -----

  /** One step along an allowed edge, in either direction. */
  ghost predicate Linked(edges: seq<Edge>, allowed: Option<set<EdgeType>>, u: Id, v: Id) {
    exists e :: e in edges && e.IsAllowed(allowed) && e.Touches(u) && e.Other(u) == v
  }

  /** A walk: consecutive ids are linked. Ids without a node record may occur anywhere. */
  ghost predicate IsWalk(edges: seq<Edge>, allowed: Option<set<EdgeType>>, w: seq<Id>) {
    |w| > 0 && forall i, j :: 0 <= i < j < |w| && j == i + 1 ==> Linked(edges, allowed, w[i], w[j])
  }

  ghost predicate WalkBetween(edges: seq<Edge>, allowed: Option<set<EdgeType>>, root: Id, v: Id, w: seq<Id>) {
    IsWalk(edges, allowed, w) && w[0] == root && w[|w| - 1] == v
  }

  /** `v` is `d` steps from `root`: some walk takes `d` steps, none takes fewer. */
  ghost predicate AtDistance(edges: seq<Edge>, allowed: Option<set<EdgeType>>, root: Id, v: Id, d: nat) {
    (exists w :: WalkBetween(edges, allowed, root, v, w) && |w| == d + 1) &&
    (forall w :: WalkBetween(edges, allowed, root, v, w) ==> |w| >= d + 1)
  }

  /** Any id other than the root that can be reached lies at an end of an edge. */
  function Endpoints(edges: seq<Edge>): set<Id> {
    (set e | e in edges :: e.source) + (set e | e in edges :: e.target)
  }

  /** The ids at most `k` steps away, layer by layer. */
  ghost predicate InBall(edges: seq<Edge>, allowed: Option<set<EdgeType>>, root: Id, v: Id, k: nat)
    decreases k
  {
    if k == 0 then v == root
    else
      InBall(edges, allowed, root, v, k - 1) ||
      exists u {:trigger InBall(edges, allowed, root, u, k - 1), Linked(edges, allowed, u, v)} ::
        InBall(edges, allowed, root, u, k - 1) && Linked(edges, allowed, u, v)
  }

  lemma {:induction false} BallMonotone(edges: seq<Edge>, allowed: Option<set<EdgeType>>, root: Id, v: Id, j: nat,
                                        k: nat)
    requires j <= k && InBall(edges, allowed, root, v, j)
    ensures InBall(edges, allowed, root, v, k)
    decreases k
  {
    if j < k {
      BallMonotone(edges, allowed, root, v, j, k - 1);
    }
  }

  ghost predicate WalkWithin(edges: seq<Edge>, allowed: Option<set<EdgeType>>, root: Id, v: Id, k: nat) {
    exists w :: WalkBetween(edges, allowed, root, v, w) && |w| <= k + 1
  }

  /** The layers are what walks say they are: `v` is in the ball of `k` iff a walk of at most `k` steps ends there. */
  lemma {:induction false} BallIsWalks(edges: seq<Edge>, allowed: Option<set<EdgeType>>, root: Id, k: nat, v: Id)
    ensures InBall(edges, allowed, root, v, k) <==> WalkWithin(edges, allowed, root, v, k)
  {
    if InBall(edges, allowed, root, v, k) {
      WalkFromBall(edges, allowed, root, k, v);
    }
    if WalkWithin(edges, allowed, root, v, k) {
      var w :| WalkBetween(edges, allowed, root, v, w) && |w| <= k + 1;
      WalkStaysInBall(edges, allowed, root, w);
      BallMonotone(edges, allowed, root, v, |w| - 1, k);
    }
  }

  lemma {:induction false} WalkFromBall(edges: seq<Edge>, allowed: Option<set<EdgeType>>, root: Id, k: nat, v: Id)
    requires InBall(edges, allowed, root, v, k)
    ensures WalkWithin(edges, allowed, root, v, k)
  {
    if k == 0 {
      assert WalkBetween(edges, allowed, root, v, [root]);
    } else if InBall(edges, allowed, root, v, k - 1) {
      WalkFromBall(edges, allowed, root, k - 1, v);
    } else {
      var u :| InBall(edges, allowed, root, u, k - 1) && Linked(edges, allowed, u, v);
      WalkFromBall(edges, allowed, root, k - 1, u);
      WalkExtend(edges, allowed, root, u, v, k - 1);
    }
  }

  lemma WalkExtend(edges: seq<Edge>, allowed: Option<set<EdgeType>>, root: Id, u: Id, v: Id, k: nat)
    requires WalkWithin(edges, allowed, root, u, k) && Linked(edges, allowed, u, v)
    ensures WalkWithin(edges, allowed, root, v, k + 1)
  {
    var w :| WalkBetween(edges, allowed, root, u, w) && |w| <= k + 1;
    var longer := w + [v];
    forall i, j | 0 <= i < j < |longer| && j == i + 1
      ensures Linked(edges, allowed, longer[i], longer[j])
    {
      if j < |w| {
        assert Linked(edges, allowed, w[i], w[j]);
      }
    }
    assert WalkBetween(edges, allowed, root, v, longer);
  }

  lemma {:induction false} WalkStaysInBall(edges: seq<Edge>, allowed: Option<set<EdgeType>>, root: Id, w: seq<Id>)
    requires IsWalk(edges, allowed, w) && w[0] == root
    ensures InBall(edges, allowed, root, w[|w| - 1], |w| - 1)
    decreases |w|
  {
    if |w| > 1 {
      var shorter := w[..|w| - 1];
      assert forall i :: 0 <= i < |shorter| ==> shorter[i] == w[i];
      WalkStaysInBall(edges, allowed, root, shorter);
      assert Linked(edges, allowed, w[|w| - 2], w[|w| - 1]);
    }
  }

  /** First seen in layer `d` means at distance `d`. */
  ghost predicate InLayer(edges: seq<Edge>, allowed: Option<set<EdgeType>>, root: Id, v: Id, d: nat) {
    InBall(edges, allowed, root, v, d) && (d > 0 ==> !InBall(edges, allowed, root, v, d - 1))
  }

  lemma {:induction false} LayerIsDistance(edges: seq<Edge>, allowed: Option<set<EdgeType>>, root: Id, v: Id, d: nat)
    ensures InLayer(edges, allowed, root, v, d) <==> AtDistance(edges, allowed, root, v, d)
  {
    BallIsWalks(edges, allowed, root, d, v);
    if d > 0 {
      BallIsWalks(edges, allowed, root, d - 1, v);
    }
    if InLayer(edges, allowed, root, v, d) {
      var w :| WalkBetween(edges, allowed, root, v, w) && |w| <= d + 1;
      assert |w| == d + 1;
    }
  }

  lemma LayersDisjoint(edges: seq<Edge>, allowed: Option<set<EdgeType>>, root: Id, v: Id, c: nat, d: nat)
    requires InLayer(edges, allowed, root, v, c) && InBall(edges, allowed, root, v, d)
    ensures c <= d
  {
    if d < c {
      BallMonotone(edges, allowed, root, v, d, c - 1);
    }
  }

  // ----- simple paths -----

  /** The ids visited when the edges of `path` are taken one after the other from `source`. */
  ghost function Trace(source: Id, path: seq<Edge>): (ids: seq<Id>)
    ensures |ids| == |path| + 1 && ids[0] == source
  {
    if path == [] then [source]
    else
      var ids := Trace(source, path[..|path| - 1]);
      ids + [path[|path| - 1].Other(ids[|path| - 1])]
  }

  lemma {:induction false} TracePrefix(source: Id, path: seq<Edge>, k: nat)
    requires k <= |path|
    ensures Trace(source, path)[..k + 1] == Trace(source, path[..k])
    decreases |path|
  {
    if k == |path| {
      assert path[..k] == path;
    } else {
      var shorter := path[..|path| - 1];
      TracePrefix(source, shorter, k);
      assert shorter[..k] == path[..k];
    }
  }

  lemma TraceStep(source: Id, path: seq<Edge>, n: nat)
    requires n < |path|
    ensures Trace(source, path)[n + 1] == path[n].Other(Trace(source, path)[n])
  {
    TracePrefix(source, path, n);
    TracePrefix(source, path, n + 1);
    var longer := path[..n + 1];
    assert longer[..|longer| - 1] == path[..n];
    assert Trace(source, longer)[n + 1] == longer[n].Other(Trace(source, path[..n])[n]);
  }

  /** Each edge leaves the id the previous one arrived at, and no id is visited twice. */
  ghost predicate IsSimplePath(edges: seq<Edge>, source: Id, path: seq<Edge>) {
    (forall i :: 0 <= i < |path| ==> path[i] in edges && path[i].Touches(Trace(source, path)[i])) &&
    NoDuplicates(Trace(source, path))
  }

  /** What path search is asked for: a simple path of 1 to `maxDepth` edges from `source` to `target`. */
  ghost predicate IsAnswer(edges: seq<Edge>, source: Id, target: Id, maxDepth: int, path: seq<Edge>) {
    1 <= |path| <= maxDepth && IsSimplePath(edges, source, path) && Trace(source, path)[|path|] == target
  }

  lemma SimplePathExtend(edges: seq<Edge>, source: Id, path: seq<Edge>, e: Edge)
    requires IsSimplePath(edges, source, path) && e in edges && e.Touches(Trace(source, path)[|path|])
    requires e.Other(Trace(source, path)[|path|]) !in Trace(source, path)
    ensures IsSimplePath(edges, source, path + [e])
    ensures Trace(source, path + [e]) == Trace(source, path) + [e.Other(Trace(source, path)[|path|])]
  {
    var longer := path + [e];
    assert longer[..|longer| - 1] == path;
  }

  /** No simple path returns to where it started, so asking for paths from an id to itself gives none. */
  lemma SimplePathLeavesSource(edges: seq<Edge>, source: Id, path: seq<Edge>)
    requires IsSimplePath(edges, source, path) && path != []
    ensures Trace(source, path)[|path|] != source
  {
    assert Trace(source, path)[0] == source;
  }

  /** The recorded nodes among `ids`, in order. */
  function Records(nodes: NodeTable, ids: seq<Id>): seq<Node> {
    if ids == [] then []
    else if ids[0] in nodes then [nodes[ids[0]]] + Records(nodes, ids[1..])
    else Records(nodes, ids[1..])
  }

  /** One edge comes before another in the dictionary. */
  ghost predicate Earlier(edges: seq<Edge>, e: Edge, f: Edge) {
    exists a, b :: 0 <= a < b < |edges| && edges[a] == e && edges[b] == f
  }

  /** Two paths go the same way for a while, and then the first takes the earlier edge. */
  ghost predicate Before(edges: seq<Edge>, p: seq<Edge>, q: seq<Edge>) {
    exists n :: 0 <= n < |p| && n < |q| && p[..n] == q[..n] && Earlier(edges, p[n], q[n])
  }

  /** Depth-first order. */
  ghost predicate InOrder(edges: seq<Edge>, found: seq<GraphPath>) {
    forall i, j :: 0 <= i < j < |found| ==> Before(edges, found[i].edges, found[j].edges)
  }

  /** What path search returns: each answer once, with the records of the ids it visits. */
  ghost predicate ListsAnswers(nodes: NodeTable, edges: seq<Edge>, source: Id, target: Id, maxDepth: int,
                               prefix: seq<Edge>, found: seq<GraphPath>) {
    (forall p <- found ::
       IsAnswer(edges, source, target, maxDepth, p.edges) && prefix <= p.edges &&
       p.nodes == Records(nodes, Trace(source, p.edges))) &&
    (forall path :: IsAnswer(edges, source, target, maxDepth, path) && prefix <= path ==>
       exists p <- found :: p.edges == path) &&
    (forall i, j :: 0 <= i < j < |found| ==> found[i].edges != found[j].edges)
  }
}
