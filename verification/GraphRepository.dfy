/** The in-memory graph backend: node and edge dictionaries changed in place, and the traversals over them. */
module GraphRepository {
  import opened Wrappers
  import opened GraphModel
  import opened TextOrder

  /** An entry of the search queue. */
  datatype Stop = Stop(id: Id, dist: nat)

  datatype Overview = Overview(nodes: seq<Node>, edges: seq<Edge>)

  class Repository {
    var nodes: NodeTable
    var edges: seq<Edge>

    ghost predicate Valid()
      reads this
    {
      DistinctKeys(edges)
    }

    constructor ()
      ensures Valid() && nodes == map[] && edges == []
    {
      nodes, edges := map[], [];
    }

    // ----- updates -----

    /** Creating, updating and upserting a node all overwrite the record under its id. */
    method UpsertNode(node: Node)
      requires Valid()
      modifies this`nodes
      ensures Valid() && nodes == old(nodes)[node.id := node]
    {
      nodes := nodes[node.id := node];
    }

    method CreateEdge(e: Edge)
      requires Valid()
      modifies this`edges
      ensures Valid() && edges == Put(old(edges), e)
      ensures forall x :: x in edges <==> x == e || (x in old(edges) && !x.SameKey(e))
    {
      PutMembers(edges, e);
      edges := Put(edges, e);
    }

    /** Deleting a node leaves no edge at its id, recorded or not, and keeps all others in their order. */
    method DeleteNode(id: Id)
      requires Valid()
      modifies this
      ensures Valid() && nodes == old(nodes) - {id}
      ensures edges == Sieve(old(edges), (e: Edge) => !e.Touches(id))
      ensures forall e :: e in edges <==> e in old(edges) && e.source != id && e.target != id
    {
      nodes := nodes - {id};
      SieveMembers(edges, (e: Edge) => !e.Touches(id));
      edges := Sieve(edges, (e: Edge) => !e.Touches(id));
    }

    method DeleteEdge(source: Id, target: Id, edgeType: EdgeType)
      requires Valid()
      modifies this`edges
      ensures Valid()
      ensures edges == Sieve(old(edges), (e: Edge) =>
                               !(e.source == source && e.target == target && e.edgeType == edgeType))
      ensures forall e :: e in edges <==>
                e in old(edges) && !(e.source == source && e.target == target && e.edgeType == edgeType)
    {
      var other := (e: Edge) => !(e.source == source && e.target == target && e.edgeType == edgeType);
      SieveMembers(edges, other);
      edges := Sieve(edges, other);
    }

    // ----- traversal -----

    /** The allowed edges at `id`, in dictionary order. */
    method Adjacent(id: Id, allowed: Option<set<EdgeType>>) returns (result: seq<Edge>)
      ensures result == AdjacentEdges(edges, id, allowed)
    {
      result := [];
      for i := 0 to |edges|
        invariant result == AdjacentEdges(edges[..i], id, allowed)
      {
        assert edges[..i + 1] == edges[..i] + [edges[i]];
        if edges[i].Touches(id) && edges[i].IsAllowed(allowed) {
          result := result + [edges[i]];
        }
      }
      assert edges[..|edges|] == edges;
    }

    /** Breadth-first search. Returns each recorded node other than the root that is at most `depth` steps
        away over allowed edges, once, nearest first. An empty list of edge types allows every type. */
    method FindNeighbors(root: Id, depth: int, edgeTypes: Option<seq<EdgeType>>) returns (found: seq<Node>)
      requires Valid()
      ensures AreNeighbors(nodes, edges, AllowedTypes(edgeTypes), root, depth, found)
    {
      var allowed := AllowedTypes(edgeTypes);
      var visited: set<Id> := {root};
      var frontier: seq<Stop> := [Stop(root, 0)];
      found := [];
      ghost var seen: map<Id, nat> := map[root := 0];
      StartSearch(nodes, edges, allowed, root, depth);
      ghost var reachable := {root} + Endpoints(edges);
      while frontier != []
        invariant seen.Keys == visited
        invariant Searching(nodes, edges, allowed, root, depth, seen, frontier, found)
        decreases reachable - visited, |frontier|
      {
        ghost var novel;
        var Stop(current, dist) := frontier[0];
        if dist >= depth {
          SkipTooFar(nodes, edges, allowed, root, depth, seen, frontier, found);
          frontier := frontier[1..];
          continue;
        }
        BeginExpanding(nodes, edges, allowed, root, depth, seen, frontier, found);
        visited, frontier, found, seen, novel :=
          VisitAround(root, depth, allowed, current, dist, visited, frontier[1..], found, seen);
        SeenReachable(edges, allowed, root, seen, depth);
      }
      SearchIsExact(nodes, edges, allowed, root, depth, seen, found);
    }

    /** Visits the neighbours of the id at the head of the queue; the inner loop of the search.
        `novel` is an id that was new, if there was one. */
    method VisitAround(ghost root: Id, ghost depth: int, allowed: Option<set<EdgeType>>, current: Id, dist: nat,
                       visited0: set<Id>, frontier0: seq<Stop>, found0: seq<Node>, ghost seen0: map<Id, nat>)
      returns (visited: set<Id>, frontier: seq<Stop>, found: seq<Node>, ghost seen: map<Id, nat>,
               ghost novel: Option<Id>)
      requires seen0.Keys == visited0
      requires Expanding(nodes, edges, allowed, root, depth, current, dist, seen0, frontier0, found0)
      ensures visited0 <= visited == seen.Keys
      ensures if novel.Some? then novel.value in visited && novel.value !in visited0 else frontier == frontier0
      ensures Searching(nodes, edges, allowed, root, depth, seen, frontier, found)
    {
      visited, frontier, found, seen, novel := visited0, frontier0, found0, seen0, None;
      var adjacent := Adjacent(current, allowed);
      for k := 0 to |adjacent|
        invariant visited0 <= visited == seen.Keys
        invariant if novel.Some? then novel.value in visited && novel.value !in visited0 else frontier == frontier0
        invariant Expanding(nodes, edges, allowed, root, depth, current, dist, seen, frontier, found)
        invariant OtherEnds(adjacent[..k], current) <= visited
      {
        var other := adjacent[k].Other(current);
        assert Linked(edges, allowed, current, other) by {
          AdjacentMember(edges, current, allowed, adjacent[k]);
        }
        OtherEndsNext(adjacent, current, k);
        if other in visited {
          continue;
        }
        VisitNew(nodes, edges, allowed, root, depth, current, dist, seen, frontier, found, other);
        visited := visited + {other};
        found := found + if other in nodes then [nodes[other]] else [];
        frontier := frontier + [Stop(other, dist + 1)];
        seen := seen[other := dist + 1];
        novel := Some(other);
      }
      AllExplored(edges, allowed, seen, current);
      EndExpanding(nodes, edges, allowed, root, depth, current, dist, seen, frontier, found);
    }

    /** One owner's nodes, in no particular order, and the edges among them. With a limit only the first nodes in the
        order of their ids are taken. */
    method GetSubgraph(user: string, limit: Option<int>) returns (overview: Overview, ghost chosen: set<Id>)
      requires Valid()
      ensures IsCut(OwnedIds(nodes, user), limit, chosen) && IsOverview(nodes, edges, chosen, overview)
      ensures limit.None? ==> IsSubgraph(nodes, edges, user, overview)
    {
      var ids := OwnedIds(nodes, user);
      var taken := Cut(ids, limit);
      var inside := Inside(taken);
      SieveMembers(edges, inside);
      var records := Values(map id | id in taken :: nodes[id]);
      overview := Overview(records, Sieve(edges, inside));
      chosen := taken;
      if limit.None? {
        CutAll(ids, taken);
      }
    }

    /** As many nodes as the owner's overview lists, or all of them. */
    method CountNodes(user: Option<string>) returns (count: nat)
      ensures user.None? ==> count == |nodes|
      ensures user.Some? ==> forall overview ::
                IsSubgraph(nodes, edges, user.value, overview) ==> count == |overview.nodes|
    {
      if user.None? {
        return |nodes.Keys|;
      }
      var ids := OwnedIds(nodes, user.value);
      count := |ids|;
      forall overview | IsSubgraph(nodes, edges, user.value, overview)
        ensures count == |overview.nodes|
      {
        RecordsOf(nodes, overview.nodes, ids);
      }
    }

    /** As many edges as the owner's overview lists, or all of them. */
    method CountEdges(user: Option<string>) returns (count: nat)
      requires Valid()
      ensures user.None? ==> count == |edges|
      ensures user.Some? ==> forall overview ::
                IsSubgraph(nodes, edges, user.value, overview) ==> count == |overview.edges|
    {
      if user.None? {
        return |edges|;
      }
      var inside := Inside(OwnedIds(nodes, user.value));
      count := 0;
      for i := 0 to |edges|
        invariant count == |Sieve(edges[..i], inside)|
      {
        assert edges[..i + 1][..i] == edges[..i];
        if inside(edges[i]) {
          count := count + 1;
        }
      }
      assert edges[..|edges|] == edges;
      forall overview | IsSubgraph(nodes, edges, user.value, overview)
        ensures count == |overview.edges|
      {
        EdgesInside(nodes, edges, user.value, overview);
      }
    }

    // ----- path search -----

    /** All simple paths of at most `maxDepth` edges between two ids, in depth-first order; none unless the source is
        recorded. */
    method FindPaths(source: Id, target: Id, maxDepth: int) returns (paths: seq<GraphPath>)
      requires Valid()
      ensures source in nodes ==> ListsAnswers(nodes, edges, source, target, maxDepth, [], paths)
      ensures source !in nodes || source == target ==> paths == []
      ensures InOrder(edges, paths)
    {
      paths := [];
      if source in nodes {
        paths := Dfs(source, target, maxDepth, source, [source], []);
      }
      if source == target && paths != [] {
        assert paths[0] in paths;
        SimplePathLeavesSource(edges, source, paths[0].edges);
      }
    }

    /** Extends the path taken so far in every way that leads to an answer. `found` is what one call appends. */
    method Dfs(ghost source: Id, target: Id, maxDepth: int, current: Id, visited: seq<Id>, taken: seq<Edge>)
      returns (found: seq<GraphPath>)
      requires Valid()
      requires Arrived(edges, source, target, current, visited, taken) && (|taken| <= maxDepth + 1 || taken == [])
      ensures ListsAnswers(nodes, edges, source, target, maxDepth, taken, found) && InOrder(edges, found)
      decreases maxDepth + 1 - |taken|, 1
    {
      if |taken| > maxDepth {
        NothingTooLong(nodes, edges, source, target, maxDepth, taken);
        return [];
      }
      if current == target && taken != [] {
        OnlyItself(nodes, edges, source, target, maxDepth, taken);
        return [GraphPath(Records(nodes, visited), taken)];
      }
      found := TakeEdges(source, target, maxDepth, current, visited, taken);
      AllVia(nodes, edges, source, target, maxDepth, taken, found);
    }

    /** Takes each edge at the last id in turn; the loop of the search. */
    method TakeEdges(ghost source: Id, target: Id, maxDepth: int, current: Id, visited: seq<Id>, taken: seq<Edge>)
      returns (found: seq<GraphPath>)
      requires Valid()
      requires Arrived(edges, source, target, current, visited, taken)
      requires |taken| <= maxDepth && (current == target ==> taken == [])
      ensures OrderedVia(nodes, edges, source, target, maxDepth, taken, AdjacentEdges(edges, current, None), found)
      decreases maxDepth + 1 - |taken|, 0
    {
      found := [];
      var adjacent := Adjacent(current, None);
      for k := 0 to |adjacent|
        invariant OrderedVia(nodes, edges, source, target, maxDepth, taken, adjacent[..k], found)
      {
        var e := adjacent[k];
        var other := e.Other(current);
        if other in visited {
          NothingVia(nodes, edges, source, target, maxDepth, taken, adjacent, k, found);
          continue;
        }
        ArriveNext(edges, source, target, current, visited, taken, e);
        var more := Dfs(source, target, maxDepth, other, visited + [other], taken + [e]);
        NextVia(nodes, edges, source, target, maxDepth, taken, adjacent, k, found, more);
        found := found + more;
      }
      assert adjacent[..|adjacent|] == adjacent;
    }
  }

  method Values(nodes: NodeTable) returns (records: seq<Node>)
    ensures forall n :: n in records <==> n.id in nodes && n == nodes[n.id]
    ensures DistinctIds(records)
  {
    records := [];
    var rest := nodes.Keys;
    while rest != {}
      invariant rest <= nodes.Keys
      invariant forall n :: n in records <==> n.id in nodes.Keys - rest && n == nodes[n.id]
      invariant DistinctIds(records)
    {
      var id :| id in rest;
      assert forall n <- records :: n.id != id;
      records := records + [nodes[id]];
      rest := rest - {id};
    }
  }

  lemma {:induction false} SizeOf<T>(s: seq<T>)
    requires NoDuplicates(s)
    ensures |set x | x in s| == |s|
  {
    if s == [] {
      assert (set x | x in s) == {};
    } else {
      var front, last := s[..|s| - 1], s[|s| - 1];
      SizeOf(front);
      assert (set x | x in s) == (set x | x in front) + {last};
    }
  }

  lemma SameLength<T>(a: seq<T>, b: seq<T>)
    requires NoDuplicates(a) && NoDuplicates(b) && forall x :: x in a <==> x in b
    ensures |a| == |b|
  {
    SizeOf(a);
    SizeOf(b);
    assert (set x | x in a) == (set x | x in b);
  }

  function Inside(ids: set<Id>): Edge -> bool {
    (e: Edge) => e.source in ids && e.target in ids
  }

  lemma EdgesInside(nodes: NodeTable, edges: seq<Edge>, user: string, overview: Overview)
    requires DistinctKeys(edges) && IsSubgraph(nodes, edges, user, overview)
    ensures |Sieve(edges, Inside(OwnedIds(nodes, user)))| == |overview.edges|
  {
    var inside := Inside(OwnedIds(nodes, user));
    SieveMembers(edges, inside);
    SameLength(Sieve(edges, inside), overview.edges);
  }

  /** A list with one record for each of the ids is as long as there are ids. */
  lemma {:induction false} RecordsOf(nodes: NodeTable, records: seq<Node>, ids: set<Id>)
    requires DistinctIds(records) && forall id <- ids :: id in nodes
    requires forall n :: n in records <==> n.id in ids && n == nodes[n.id]
    ensures |records| == |ids|
  {
    if records == [] {
      assert forall id <- ids :: nodes[id] in records;
      assert ids == {};
    } else {
      var front, last := records[..|records| - 1], records[|records| - 1];
      assert records == front + [last];
      assert forall n <- front :: n.id != last.id;
      RecordsOf(nodes, front, ids - {last.id});
    }
  }

  ghost predicate DistinctIds(records: seq<Node>) {
    forall i, j :: 0 <= i < j < |records| ==> records[i].id != records[j].id
  }

  function OwnedIds(nodes: NodeTable, user: string): set<Id> {
    set id | id in nodes && OwnedBy(nodes, id, user)
  }

  /** The recorded nodes among some ids, once each, and the edges with both ends among them. */
  ghost predicate IsOverview(nodes: NodeTable, edges: seq<Edge>, ids: set<Id>, overview: Overview) {
    (forall n :: n in overview.nodes <==> n.id in nodes && n.id in ids && n == nodes[n.id]) &&
    DistinctIds(overview.nodes) &&
    (forall e :: e in overview.edges <==> e in edges && e.source in ids && e.target in ids) &&
    DistinctKeys(overview.edges)
  }

  predicate OwnedBy(nodes: NodeTable, id: Id, user: string) {
    id in nodes && nodes[id].Owner() == user
  }

  ghost predicate IsSubgraph(nodes: NodeTable, edges: seq<Edge>, user: string, overview: Overview) {
    (forall n :: n in overview.nodes <==> OwnedBy(nodes, n.id, user) && n == nodes[n.id]) &&
    DistinctIds(overview.nodes) &&
    (forall e :: e in overview.edges <==> InSubgraph(nodes, edges, user, e)) &&
    DistinctKeys(overview.edges)
  }

  ghost predicate InSubgraph(nodes: NodeTable, edges: seq<Edge>, user: string, e: Edge) {
    e in edges && OwnedBy(nodes, e.source, user) && OwnedBy(nodes, e.target, user)
  }

  function AllowedTypes(edgeTypes: Option<seq<EdgeType>>): Option<set<EdgeType>> {
    if edgeTypes.Some? && edgeTypes.value != [] then Some(set t | t in edgeTypes.value) else None
  }

  /** The elements that pass the test, in order. */
  function Sieve<T>(s: seq<T>, keep: T -> bool): seq<T> {
    if s == [] then []
    else Sieve(s[..|s| - 1], keep) + if keep(s[|s| - 1]) then [s[|s| - 1]] else []
  }

  lemma {:induction false} SieveMembers(edges: seq<Edge>, keep: Edge -> bool)
    requires DistinctKeys(edges)
    ensures DistinctKeys(Sieve(edges, keep)) && NoDuplicates(Sieve(edges, keep))
    ensures forall e :: e in Sieve(edges, keep) <==> e in edges && keep(e)
  {
    if edges != [] {
      var front, last := edges[..|edges| - 1], edges[|edges| - 1];
      assert edges == front + [last];
      SieveMembers(front, keep);
      assert forall x <- front :: !x.SameKey(last);
    }
  }

  lemma SeenReachable(edges: seq<Edge>, allowed: Option<set<EdgeType>>, root: Id, seen: map<Id, nat>, depth: int)
    requires Layered(edges, allowed, root, seen, depth)
    ensures seen.Keys <= {root} + Endpoints(edges)
  {
    forall v <- seen
      ensures v in {root} + Endpoints(edges)
    {
      if v != root {
        assert InLayer(edges, allowed, root, v, seen[v]);
        var u :| InBall(edges, allowed, root, u, seen[v] - 1) && Linked(edges, allowed, u, v);
        var e :| e in edges && e.IsAllowed(allowed) && e.Touches(u) && e.Other(u) == v;
      }
    }
  }

  /** The answer to a neighbour query, in terms of walks. */
  ghost predicate AreNeighbors(nodes: NodeTable, edges: seq<Edge>, allowed: Option<set<EdgeType>>, root: Id, depth: int,
                               found: seq<Node>) {
    (forall n :: n in found <==> IsNeighbor(nodes, edges, allowed, root, depth, n)) &&
    NoDuplicates(found) &&
    (forall i, j, c: nat, d: nat |
       0 <= i < j < |found| && AtDistance(edges, allowed, root, found[i].id, c) &&
       AtDistance(edges, allowed, root, found[j].id, d) :: c <= d)
  }

  /** A recorded node, not the root, between 1 and `depth` steps away. */
  ghost predicate IsNeighbor(nodes: NodeTable, edges: seq<Edge>, allowed: Option<set<EdgeType>>, root: Id, depth: int,
                             n: Node) {
    n.id in nodes && n == nodes[n.id] && n.id != root &&
    exists d: nat :: 1 <= d <= depth && AtDistance(edges, allowed, root, n.id, d)
  }

  function AdjacentEdges(edges: seq<Edge>, id: Id, allowed: Option<set<EdgeType>>): seq<Edge> {
    Sieve(edges, (e: Edge) => e.Touches(id) && e.IsAllowed(allowed))
  }

  lemma {:induction false} AdjacentMember(edges: seq<Edge>, id: Id, allowed: Option<set<EdgeType>>, e: Edge)
    ensures e in AdjacentEdges(edges, id, allowed) <==> e in edges && e.Touches(id) && e.IsAllowed(allowed)
  {
    if edges != [] {
      AdjacentMember(edges[..|edges| - 1], id, allowed, e);
      assert edges == edges[..|edges| - 1] + [edges[|edges| - 1]];
    }
  }

  // ----- breadth-first search: what holds between two turns of the loop -----

  /** `seen` maps each visited id to its distance. */
  ghost predicate Layered(edges: seq<Edge>, allowed: Option<set<EdgeType>>, root: Id, seen: map<Id, nat>, depth: int) {
    root in seen &&
    forall v <- seen :: InLayer(edges, allowed, root, v, seen[v]) && (seen[v] <= depth || seen[v] == 0)
  }

  ghost predicate Explored(edges: seq<Edge>, allowed: Option<set<EdgeType>>, seen: map<Id, nat>, u: Id) {
    forall v {:trigger Linked(edges, allowed, u, v)} :: Linked(edges, allowed, u, v) ==> v in seen
  }

  /** The queue holds visited ids with their distance; distances do not decrease and span at most two layers. */
  ghost predicate Queued(frontier: seq<Stop>, seen: map<Id, nat>, low: nat) {
    (forall i :: 0 <= i < |frontier| ==>
       frontier[i].id in seen && seen[frontier[i].id] == frontier[i].dist && low <= frontier[i].dist <= low + 1) &&
    (forall i, j :: 0 <= i < j < |frontier| ==> frontier[i].dist <= frontier[j].dist)
  }

  ghost predicate Waiting(frontier: seq<Stop>, v: Id) {
    exists q <- frontier :: q.id == v
  }

  ghost predicate Settled(edges: seq<Edge>, allowed: Option<set<EdgeType>>, seen: map<Id, nat>,
                          frontier: seq<Stop>, depth: int) {
    forall v <- seen :: Waiting(frontier, v) || seen[v] >= depth || Explored(edges, allowed, seen, v)
  }

  /** As Settled, apart from the id that is being expanded. */
  ghost predicate SettledBut(edges: seq<Edge>, allowed: Option<set<EdgeType>>, seen: map<Id, nat>,
                             frontier: seq<Stop>, depth: int, current: Id) {
    forall v <- seen ::
      v == current || Waiting(frontier, v) || seen[v] >= depth || Explored(edges, allowed, seen, v)
  }

  ghost predicate Covered(edges: seq<Edge>, allowed: Option<set<EdgeType>>, root: Id, seen: map<Id, nat>, k: nat) {
    forall v {:trigger v in seen, InBall(edges, allowed, root, v, k)} ::
      InBall(edges, allowed, root, v, k) ==> v in seen
  }

  /** The result so far: the visited nodes on record except the root, once each, in order of distance. */
  ghost predicate Collected(nodes: NodeTable, root: Id, seen: map<Id, nat>, found: seq<Node>) {
    (forall n :: n in found <==> n.id in nodes && n == nodes[n.id] && n.id != root && n.id in seen) &&
    NoDuplicates(found) &&
    (forall i, j :: 0 <= i < j < |found| ==> seen[found[i].id] <= seen[found[j].id])
  }

  /** What holds whenever the loop looks at the queue. */
  ghost predicate Searching(nodes: NodeTable, edges: seq<Edge>, allowed: Option<set<EdgeType>>, root: Id, depth: int,
                            seen: map<Id, nat>, frontier: seq<Stop>, found: seq<Node>) {
    Layered(edges, allowed, root, seen, depth) && Settled(edges, allowed, seen, frontier, depth) &&
    Collected(nodes, root, seen, found) &&
    (frontier != [] ==>
       Queued(frontier, seen, frontier[0].dist) && Covered(edges, allowed, root, seen, frontier[0].dist) &&
       forall v <- seen :: seen[v] <= frontier[0].dist + 1)
  }

  /** What holds while the neighbours of `current`, in layer `dist`, are being visited. */
  ghost predicate Expanding(nodes: NodeTable, edges: seq<Edge>, allowed: Option<set<EdgeType>>, root: Id, depth: int,
                            current: Id, dist: nat, seen: map<Id, nat>, frontier: seq<Stop>, found: seq<Node>) {
    Layered(edges, allowed, root, seen, depth) && Collected(nodes, root, seen, found) &&
    current in seen && seen[current] == dist < depth &&
    SettledBut(edges, allowed, seen, frontier, depth, current) &&
    Queued(frontier, seen, dist) && Covered(edges, allowed, root, seen, dist) &&
    forall v <- seen :: seen[v] <= dist + 1
  }

  lemma StillWaiting(frontier: seq<Stop>, v: Id)
    requires frontier != [] && Waiting(frontier, v) && v != frontier[0].id
    ensures Waiting(frontier[1..], v)
  {
    var q :| q in frontier && q.id == v;
    assert q in frontier[1..];
  }

  /** Ids at the depth limit are dropped from the queue; only ids of that layer can follow. */
  lemma SkipTooFar(nodes: NodeTable, edges: seq<Edge>, allowed: Option<set<EdgeType>>, root: Id, depth: int,
                   seen: map<Id, nat>, frontier: seq<Stop>, found: seq<Node>)
    requires Searching(nodes, edges, allowed, root, depth, seen, frontier, found)
    requires frontier != [] && frontier[0].dist >= depth
    ensures Searching(nodes, edges, allowed, root, depth, seen, frontier[1..], found)
  {
    forall v <- seen | Waiting(frontier, v) && v != frontier[0].id
      ensures Waiting(frontier[1..], v)
    {
      StillWaiting(frontier, v);
    }
    assert forall q <- frontier :: q.dist == frontier[0].dist;
  }

  lemma BeginExpanding(nodes: NodeTable, edges: seq<Edge>, allowed: Option<set<EdgeType>>, root: Id, depth: int,
                       seen: map<Id, nat>, frontier: seq<Stop>, found: seq<Node>)
    requires Searching(nodes, edges, allowed, root, depth, seen, frontier, found)
    requires frontier != [] && frontier[0].dist < depth
    ensures Expanding(nodes, edges, allowed, root, depth, frontier[0].id, frontier[0].dist, seen, frontier[1..], found)
  {
    forall v <- seen | Waiting(frontier, v) && v != frontier[0].id
      ensures Waiting(frontier[1..], v)
    {
      StillWaiting(frontier, v);
    }
  }

  lemma VisitNew(nodes: NodeTable, edges: seq<Edge>, allowed: Option<set<EdgeType>>, root: Id, depth: int,
                 current: Id, dist: nat, seen: map<Id, nat>, frontier: seq<Stop>, found: seq<Node>, other: Id)
    requires Expanding(nodes, edges, allowed, root, depth, current, dist, seen, frontier, found)
    requires other !in seen && Linked(edges, allowed, current, other)
    ensures Expanding(nodes, edges, allowed, root, depth, current, dist, seen[other := dist + 1],
                      frontier + [Stop(other, dist + 1)], found + if other in nodes then [nodes[other]] else [])
  {
    LayerNew(edges, allowed, root, seen, depth, current, dist, other);
    SettleNew(edges, allowed, seen, frontier, depth, current, Stop(other, dist + 1));
    QueueNew(frontier, seen, Stop(other, dist + 1), dist);
    CollectNew(nodes, root, seen, found, other, dist + 1);
    CoverGrows(edges, allowed, root, seen, dist, other, dist + 1);
  }

  lemma CoverGrows(edges: seq<Edge>, allowed: Option<set<EdgeType>>, root: Id, seen: map<Id, nat>, k: nat, other: Id,
                   d: nat)
    requires Covered(edges, allowed, root, seen, k)
    ensures Covered(edges, allowed, root, seen[other := d], k)
  {
  }

  /** A new neighbour of an id in layer `dist` is in layer `dist + 1`. */
  lemma LayerNew(edges: seq<Edge>, allowed: Option<set<EdgeType>>, root: Id, seen: map<Id, nat>, depth: int,
                 current: Id, dist: nat, other: Id)
    requires Layered(edges, allowed, root, seen, depth) && Covered(edges, allowed, root, seen, dist)
    requires current in seen && seen[current] == dist < depth
    requires other !in seen && Linked(edges, allowed, current, other)
    ensures Layered(edges, allowed, root, seen[other := dist + 1], depth)
  {
    assert InLayer(edges, allowed, root, other, dist + 1);
  }

  lemma SettleNew(edges: seq<Edge>, allowed: Option<set<EdgeType>>, seen: map<Id, nat>, frontier: seq<Stop>,
                  depth: int, current: Id, stop: Stop)
    requires SettledBut(edges, allowed, seen, frontier, depth, current) && stop.id !in seen
    ensures SettledBut(edges, allowed, seen[stop.id := stop.dist], frontier + [stop], depth, current)
  {
    var seen', frontier' := seen[stop.id := stop.dist], frontier + [stop];
    forall v <- seen' | v != current && !Waiting(frontier', v)
      ensures seen'[v] >= depth || Explored(edges, allowed, seen', v)
    {
      if v == stop.id || Waiting(frontier, v) {
        WaitingGrows(frontier, v, stop);
      }
    }
  }

  lemma QueueNew(frontier: seq<Stop>, seen: map<Id, nat>, stop: Stop, low: nat)
    requires Queued(frontier, seen, low) && stop.id !in seen && stop.dist == low + 1
    ensures Queued(frontier + [stop], seen[stop.id := stop.dist], low)
  {
  }

  lemma WaitingGrows(frontier: seq<Stop>, v: Id, q: Stop)
    requires Waiting(frontier, v) || v == q.id
    ensures Waiting(frontier + [q], v)
  {
    if v == q.id {
      assert q in frontier + [q];
    } else {
      var p :| p in frontier && p.id == v;
      assert p in frontier + [q];
    }
  }

  lemma CollectNew(nodes: NodeTable, root: Id, seen: map<Id, nat>, found: seq<Node>, other: Id, dist: nat)
    requires Collected(nodes, root, seen, found) && root in seen && other !in seen
    requires forall v <- seen :: seen[v] <= dist
    ensures Collected(nodes, root, seen[other := dist], found + if other in nodes then [nodes[other]] else [])
  {
    var found' := found + if other in nodes then [nodes[other]] else [];
    assert forall n <- found :: n in found && n.id in seen;
    assert forall i :: 0 <= i < |found| ==> found'[i] == found[i] && found[i] in found;
    forall n: Node
      ensures n in found' <==> n.id in nodes && n == nodes[n.id] && n.id != root && n.id in seen[other := dist]
    {
      assert n in found' <==> n in found || (other in nodes && n == nodes[other]);
    }
  }

  ghost function OtherEnds(adjacent: seq<Edge>, v: Id): set<Id> {
    if adjacent == [] then {} else OtherEnds(adjacent[..|adjacent| - 1], v) + {adjacent[|adjacent| - 1].Other(v)}
  }

  lemma OtherEndsNext(adjacent: seq<Edge>, v: Id, k: nat)
    requires k < |adjacent|
    ensures OtherEnds(adjacent[..k + 1], v) == OtherEnds(adjacent[..k], v) + {adjacent[k].Other(v)}
  {
    assert adjacent[..k + 1][..k] == adjacent[..k];
  }

  lemma {:induction false} OtherEndOf(adjacent: seq<Edge>, v: Id, e: Edge)
    requires e in adjacent
    ensures e.Other(v) in OtherEnds(adjacent, v)
  {
    var front := adjacent[..|adjacent| - 1];
    if e in front {
      OtherEndOf(front, v, e);
    }
  }

  lemma AllExplored(edges: seq<Edge>, allowed: Option<set<EdgeType>>, seen: map<Id, nat>, u: Id)
    requires var adjacent := AdjacentEdges(edges, u, allowed); OtherEnds(adjacent[..|adjacent|], u) <= seen.Keys
    ensures Explored(edges, allowed, seen, u)
  {
    var adjacent := AdjacentEdges(edges, u, allowed);
    assert adjacent[..|adjacent|] == adjacent;
    forall v | Linked(edges, allowed, u, v)
      ensures v in seen
    {
      var e :| e in edges && e.IsAllowed(allowed) && e.Touches(u) && e.Other(u) == v;
      AdjacentMember(edges, u, allowed, e);
      OtherEndOf(adjacent, u, e);
    }
  }

  lemma EndExpanding(nodes: NodeTable, edges: seq<Edge>, allowed: Option<set<EdgeType>>, root: Id, depth: int,
                     current: Id, dist: nat, seen: map<Id, nat>, frontier: seq<Stop>, found: seq<Node>)
    requires Expanding(nodes, edges, allowed, root, depth, current, dist, seen, frontier, found)
    requires Explored(edges, allowed, seen, current)
    ensures Searching(nodes, edges, allowed, root, depth, seen, frontier, found)
  {
    if frontier != [] && frontier[0].dist == dist + 1 {
      forall v | Waiting(frontier, v)
        ensures v in seen && seen[v] > dist
      {
        var i :| 0 <= i < |frontier| && frontier[i].id == v;
        assert frontier[0].dist <= frontier[i].dist;
      }
      CoverStep(edges, allowed, root, seen, depth, dist);
    }
  }

  /** Once every id up to layer `k` is explored, layer `k + 1` is visited too. */
  lemma CoverStep(edges: seq<Edge>, allowed: Option<set<EdgeType>>, root: Id, seen: map<Id, nat>, depth: int, k: nat)
    requires Layered(edges, allowed, root, seen, depth) && Covered(edges, allowed, root, seen, k)
    requires forall v <- seen :: seen[v] <= k ==> Explored(edges, allowed, seen, v)
    ensures Covered(edges, allowed, root, seen, k + 1)
  {
    forall v | InBall(edges, allowed, root, v, k + 1)
      ensures v in seen
    {
      if !InBall(edges, allowed, root, v, k) {
        var u :| InBall(edges, allowed, root, u, k) && Linked(edges, allowed, u, v);
        LayersDisjoint(edges, allowed, root, u, seen[u], k);
      }
    }
  }

  /** With nothing left waiting, everything within `k <= depth` steps has been visited. */
  lemma {:induction false} CoverAll(edges: seq<Edge>, allowed: Option<set<EdgeType>>, root: Id, seen: map<Id, nat>,
                                    depth: int, k: nat)
    requires Layered(edges, allowed, root, seen, depth) && Settled(edges, allowed, seen, [], depth)
    requires k == 0 || k <= depth
    ensures Covered(edges, allowed, root, seen, k)
  {
    if k > 0 {
      CoverAll(edges, allowed, root, seen, depth, k - 1);
      CoverStep(edges, allowed, root, seen, depth, k - 1);
    }
  }

  /** The finished search answers the question in terms of walks. */
  lemma FoundByDistance(nodes: NodeTable, edges: seq<Edge>, allowed: Option<set<EdgeType>>, root: Id,
                        seen: map<Id, nat>, depth: int, found: seq<Node>, n: Node)
    requires Layered(edges, allowed, root, seen, depth) && Settled(edges, allowed, seen, [], depth)
    requires Collected(nodes, root, seen, found)
    ensures n in found <==> IsNeighbor(nodes, edges, allowed, root, depth, n)
  {
    if n in found {
      LayerIsDistance(edges, allowed, root, n.id, seen[n.id]);
    }
    if d: nat :| 1 <= d <= depth && AtDistance(edges, allowed, root, n.id, d) {
      LayerIsDistance(edges, allowed, root, n.id, d);
      CoverAll(edges, allowed, root, seen, depth, d);
    }
  }

  lemma FoundInOrder(edges: seq<Edge>, allowed: Option<set<EdgeType>>, root: Id, seen: map<Id, nat>, depth: int,
                     v: Id, d: nat)
    requires Layered(edges, allowed, root, seen, depth) && v in seen && AtDistance(edges, allowed, root, v, d)
    ensures seen[v] == d
  {
    LayerIsDistance(edges, allowed, root, v, d);
    LayersDisjoint(edges, allowed, root, v, d, seen[v]);
    LayersDisjoint(edges, allowed, root, v, seen[v], d);
  }

  lemma StartSearch(nodes: NodeTable, edges: seq<Edge>, allowed: Option<set<EdgeType>>, root: Id, depth: int)
    ensures Searching(nodes, edges, allowed, root, depth, map[root := 0], [Stop(root, 0)], [])
  {
    assert Stop(root, 0) in [Stop(root, 0)];
  }

  lemma SearchIsExact(nodes: NodeTable, edges: seq<Edge>, allowed: Option<set<EdgeType>>, root: Id, depth: int,
                      seen: map<Id, nat>, found: seq<Node>)
    requires Searching(nodes, edges, allowed, root, depth, seen, [], found)
    ensures AreNeighbors(nodes, edges, allowed, root, depth, found)
  {
    forall n: Node
      ensures n in found <==> IsNeighbor(nodes, edges, allowed, root, depth, n)
    {
      FoundByDistance(nodes, edges, allowed, root, seen, depth, found, n);
    }
    forall i, j, c: nat, d: nat |
      0 <= i < j < |found| && AtDistance(edges, allowed, root, found[i].id, c) &&
      AtDistance(edges, allowed, root, found[j].id, d)
      ensures c <= d
    {
      assert found[i] in found && found[j] in found;
      FoundInOrder(edges, allowed, root, seen, depth, found[i].id, c);
      FoundInOrder(edges, allowed, root, seen, depth, found[j].id, d);
    }
  }

  // ----- depth-first search -----

  /** The answers that continue `prefix` with one of the edges `first`. */
  ghost predicate ListsVia(nodes: NodeTable, edges: seq<Edge>, source: Id, target: Id, maxDepth: int,
                           prefix: seq<Edge>, first: seq<Edge>, found: seq<GraphPath>) {
    (forall p <- found ::
       IsAnswer(edges, source, target, maxDepth, p.edges) && Continues(prefix, first, p.edges) &&
       p.nodes == Records(nodes, Trace(source, p.edges))) &&
    (forall path :: IsAnswer(edges, source, target, maxDepth, path) && Continues(prefix, first, path) ==>
       exists p <- found :: p.edges == path) &&
    (forall i, j :: 0 <= i < j < |found| ==> found[i].edges != found[j].edges)
  }

  ghost predicate Continues(prefix: seq<Edge>, first: seq<Edge>, path: seq<Edge>) {
    |prefix| < |path| && prefix <= path && path[|prefix|] in first
  }

  ghost predicate OrderedVia(nodes: NodeTable, edges: seq<Edge>, source: Id, target: Id, maxDepth: int,
                             prefix: seq<Edge>, first: seq<Edge>, found: seq<GraphPath>) {
    ListsVia(nodes, edges, source, target, maxDepth, prefix, first, found) && InOrder(edges, found)
  }

  /** The search has taken a simple path to `current`, and has not been at the target before. */
  ghost predicate Arrived(edges: seq<Edge>, source: Id, target: Id, current: Id, visited: seq<Id>, taken: seq<Edge>) {
    IsSimplePath(edges, source, taken) && visited == Trace(source, taken) && current == visited[|taken|] &&
    (source == target || target !in visited[..|taken|])
  }

  lemma ArriveNext(edges: seq<Edge>, source: Id, target: Id, current: Id, visited: seq<Id>, taken: seq<Edge>, e: Edge)
    requires Arrived(edges, source, target, current, visited, taken) && (current == target ==> taken == [])
    requires e in AdjacentEdges(edges, current, None) && e.Other(current) !in visited
    ensures Arrived(edges, source, target, e.Other(current), visited + [e.Other(current)], taken + [e])
  {
    AdjacentMember(edges, current, None, e);
    SimplePathExtend(edges, source, taken, e);
    var longer := visited + [e.Other(current)];
    assert longer[..|taken + [e]|] == visited == visited[..|taken|] + [current];
  }

  /** One more turn of the loop over the adjacent edges. */
  lemma NextVia(nodes: NodeTable, edges: seq<Edge>, source: Id, target: Id, maxDepth: int, taken: seq<Edge>,
                adjacent: seq<Edge>, k: nat, found: seq<GraphPath>, more: seq<GraphPath>)
    requires DistinctKeys(edges)
    requires k < |adjacent| && adjacent == AdjacentEdges(edges, Trace(source, taken)[|taken|], None)
    requires OrderedVia(nodes, edges, source, target, maxDepth, taken, adjacent[..k], found)
    requires ListsAnswers(nodes, edges, source, target, maxDepth, taken + [adjacent[k]], more) && InOrder(edges, more)
    ensures OrderedVia(nodes, edges, source, target, maxDepth, taken, adjacent[..k + 1], found + more)
  {
    BranchesInOrder(edges, Trace(source, taken)[|taken|], taken, adjacent, k, found, more);
    MoreVia(nodes, edges, source, target, maxDepth, taken, adjacent, k, found, more);
  }

  lemma EarlierGrows(edges: seq<Edge>, last: Edge, e: Edge, f: Edge)
    requires Earlier(edges, e, f) || (e in edges && f == last)
    ensures Earlier(edges + [last], e, f)
  {
    var more := edges + [last];
    if Earlier(edges, e, f) {
      var a, b :| 0 <= a < b < |edges| && edges[a] == e && edges[b] == f;
      assert more[a] == e && more[b] == f;
    } else {
      var a :| 0 <= a < |edges| && edges[a] == e;
      assert more[a] == e && more[|edges|] == f;
    }
  }

  /** Sifting keeps the order. */
  lemma {:induction false} SieveInOrder(edges: seq<Edge>, keep: Edge -> bool, i: nat, j: nat)
    requires i < j < |Sieve(edges, keep)|
    ensures Earlier(edges, Sieve(edges, keep)[i], Sieve(edges, keep)[j])
  {
    var front, last := edges[..|edges| - 1], edges[|edges| - 1];
    var before := Sieve(front, keep);
    assert edges == front + [last];
    if j < |before| {
      SieveInOrder(front, keep, i, j);
    } else {
      SieveFrom(front, keep, before[i]);
    }
    EarlierGrows(front, last, Sieve(edges, keep)[i], Sieve(edges, keep)[j]);
  }

  lemma {:induction false} SieveFrom(edges: seq<Edge>, keep: Edge -> bool, e: Edge)
    requires e in Sieve(edges, keep)
    ensures e in edges
  {
    var front := edges[..|edges| - 1];
    if e in Sieve(front, keep) {
      SieveFrom(front, keep, e);
    }
  }

  /** The answers over one adjacent edge come after those over the earlier ones. */
  lemma BranchesInOrder(edges: seq<Edge>, current: Id, taken: seq<Edge>, adjacent: seq<Edge>, k: nat,
                        found: seq<GraphPath>, more: seq<GraphPath>)
    requires k < |adjacent| && adjacent == AdjacentEdges(edges, current, None)
    requires InOrder(edges, found) && forall p <- found :: Continues(taken, adjacent[..k], p.edges)
    requires InOrder(edges, more) && forall p <- more :: taken + [adjacent[k]] <= p.edges
    ensures InOrder(edges, found + more)
  {
    var all := found + more;
    forall i, j | 0 <= i < j < |all|
      ensures Before(edges, all[i].edges, all[j].edges)
    {
      if j < |found| {
        assert all[i] == found[i] && all[j] == found[j];
      } else if |found| <= i {
        assert all[i] == more[i - |found|] && all[j] == more[j - |found|];
      } else {
        assert all[i] in found && all[j] in more;
        BranchInOrder(edges, current, taken, adjacent, k, all[i].edges, all[j].edges);
      }
    }
  }

  lemma BranchInOrder(edges: seq<Edge>, current: Id, taken: seq<Edge>, adjacent: seq<Edge>, k: nat, p: seq<Edge>,
                      q: seq<Edge>)
    requires k < |adjacent| && adjacent == AdjacentEdges(edges, current, None)
    requires Continues(taken, adjacent[..k], p) && taken + [adjacent[k]] <= q
    ensures Before(edges, p, q)
  {
    var n := |taken|;
    var i :| 0 <= i < k && adjacent[i] == p[n];
    SieveInOrder(edges, (e: Edge) => e.Touches(current) && e.IsAllowed(None), i, k);
    assert p[..n] == taken == q[..n] && q[n] == adjacent[k];
  }

  lemma NothingTooLong(nodes: NodeTable, edges: seq<Edge>, source: Id, target: Id, maxDepth: int, taken: seq<Edge>)
    requires |taken| > maxDepth
    ensures ListsAnswers(nodes, edges, source, target, maxDepth, taken, [])
  {
  }

  /** A simple path that has reached the target goes nowhere else that ends at the target. */
  lemma OnlyItself(nodes: NodeTable, edges: seq<Edge>, source: Id, target: Id, maxDepth: int, taken: seq<Edge>)
    requires IsAnswer(edges, source, target, maxDepth, taken)
    ensures ListsAnswers(nodes, edges, source, target, maxDepth, taken,
                         [GraphPath(Records(nodes, Trace(source, taken)), taken)])
  {
    var only := GraphPath(Records(nodes, Trace(source, taken)), taken);
    forall path | IsAnswer(edges, source, target, maxDepth, path) && taken <= path
      ensures exists p <- [only] :: p.edges == path
    {
      TracePrefix(source, path, |taken|);
      assert path[..|taken|] == taken;
      assert Trace(source, path)[|taken|] == Trace(source, taken)[|taken|];
      assert |path| == |taken|;
      assert only in [only] && path == taken;
    }
  }

  /** An edge back to a visited id starts no continuation. */
  lemma NothingVia(nodes: NodeTable, edges: seq<Edge>, source: Id, target: Id, maxDepth: int, taken: seq<Edge>,
                   adjacent: seq<Edge>, k: nat, found: seq<GraphPath>)
    requires k < |adjacent| && ListsVia(nodes, edges, source, target, maxDepth, taken, adjacent[..k], found)
    requires adjacent[k].Other(Trace(source, taken)[|taken|]) in Trace(source, taken)
    ensures ListsVia(nodes, edges, source, target, maxDepth, taken, adjacent[..k + 1], found)
  {
    assert forall x <- adjacent[..k] :: x in adjacent[..k + 1];
    forall path | IsAnswer(edges, source, target, maxDepth, path) && Continues(taken, adjacent[..k + 1], path)
      ensures Continues(taken, adjacent[..k], path)
    {
      OtherwiseVia(edges, source, path, taken, adjacent, k);
    }
  }

  lemma OtherwiseVia(edges: seq<Edge>, source: Id, path: seq<Edge>, taken: seq<Edge>, adjacent: seq<Edge>, k: nat)
    requires k < |adjacent| && IsSimplePath(edges, source, path) && Continues(taken, adjacent[..k + 1], path)
    requires adjacent[k].Other(Trace(source, taken)[|taken|]) in Trace(source, taken)
    ensures Continues(taken, adjacent[..k], path)
  {
    NextOnPath(edges, source, path, taken);
    assert adjacent[..k + 1] == adjacent[..k] + [adjacent[k]];
  }

  /** The id after the prefix is new. */
  lemma NextOnPath(edges: seq<Edge>, source: Id, path: seq<Edge>, taken: seq<Edge>)
    requires IsSimplePath(edges, source, path) && taken <= path && |taken| < |path|
    ensures path[|taken|] in edges && path[|taken|].Touches(Trace(source, taken)[|taken|])
    ensures path[|taken|].Other(Trace(source, taken)[|taken|]) !in Trace(source, taken)
  {
    var n, ids := |taken|, Trace(source, path);
    assert path[..n] == taken;
    TracePrefix(source, path, n);
    TraceStep(source, path, n);
    assert Trace(source, taken)[n] == ids[n];
    assert forall i :: 0 <= i <= n ==> Trace(source, taken)[i] == ids[i] != ids[n + 1];
  }

  /** Adding the answers that go on with one adjacent edge to those that go on with an earlier one. */
  lemma MoreVia(nodes: NodeTable, edges: seq<Edge>, source: Id, target: Id, maxDepth: int, taken: seq<Edge>,
                adjacent: seq<Edge>, k: nat, found: seq<GraphPath>, more: seq<GraphPath>)
    requires DistinctKeys(edges)
    requires k < |adjacent| && adjacent == AdjacentEdges(edges, Trace(source, taken)[|taken|], None)
    requires ListsVia(nodes, edges, source, target, maxDepth, taken, adjacent[..k], found)
    requires ListsAnswers(nodes, edges, source, target, maxDepth, taken + [adjacent[k]], more)
    ensures ListsVia(nodes, edges, source, target, maxDepth, taken, adjacent[..k + 1], found + more)
  {
    var e := adjacent[k];
    assert e !in adjacent[..k] by {
      var current := Trace(source, taken)[|taken|];
      SieveMembers(edges, (e: Edge) => e.Touches(current) && e.IsAllowed(None));
    }
    assert adjacent[..k + 1] == adjacent[..k] + [e];
    JoinVia(nodes, edges, source, target, maxDepth, taken, adjacent[..k], e, found, more);
  }

  lemma JoinVia(nodes: NodeTable, edges: seq<Edge>, source: Id, target: Id, maxDepth: int, taken: seq<Edge>,
                first: seq<Edge>, e: Edge, found: seq<GraphPath>, more: seq<GraphPath>)
    requires ListsVia(nodes, edges, source, target, maxDepth, taken, first, found) && e !in first
    requires ListsAnswers(nodes, edges, source, target, maxDepth, taken + [e], more)
    ensures ListsVia(nodes, edges, source, target, maxDepth, taken, first + [e], found + more)
  {
    JoinDistinct(taken, first, e, found, more);
    assert forall p <- more :: p.edges[|taken|] == e && Continues(taken, first + [e], p.edges);
    forall path | IsAnswer(edges, source, target, maxDepth, path) && Continues(taken, first + [e], path)
      ensures exists p <- found + more :: p.edges == path
    {
      EitherWay(taken, first, e, path);
      if Continues(taken, first, path) {
        var p :| p in found && p.edges == path;
        assert p in found + more;
      } else {
        var p :| p in more && p.edges == path;
        assert p in found + more;
      }
    }
  }

  lemma EitherWay(taken: seq<Edge>, first: seq<Edge>, e: Edge, path: seq<Edge>)
    requires Continues(taken, first + [e], path)
    ensures Continues(taken, first, path) || taken + [e] <= path
  {
  }

  /** Paths that go on differently are different. */
  lemma JoinDistinct(taken: seq<Edge>, first: seq<Edge>, e: Edge, found: seq<GraphPath>, more: seq<GraphPath>)
    requires e !in first
    requires forall p <- found :: Continues(taken, first, p.edges)
    requires forall p <- more :: taken + [e] <= p.edges
    requires forall i, j :: 0 <= i < j < |found| ==> found[i].edges != found[j].edges
    requires forall i, j :: 0 <= i < j < |more| ==> more[i].edges != more[j].edges
    ensures forall i, j :: 0 <= i < j < |found + more| ==> (found + more)[i].edges != (found + more)[j].edges
  {
    var all := found + more;
    forall i, j | 0 <= i < j < |all|
      ensures all[i].edges != all[j].edges
    {
      if i < |found| <= j {
        assert all[i] in found && all[j] in more;
        assert all[j].edges[|taken|] == e;
      }
    }
  }

  lemma ProperPrefix<T>(p: seq<T>, q: seq<T>)
    requires p <= q && p != q
    ensures |p| < |q|
  {
  }

  /** An answer that is more than its prefix goes on with an adjacent edge. */
  lemma GoesOn(edges: seq<Edge>, source: Id, path: seq<Edge>, taken: seq<Edge>)
    requires IsSimplePath(edges, source, path) && taken <= path && |taken| < |path|
    ensures Continues(taken, AdjacentEdges(edges, Trace(source, taken)[|taken|], None), path)
  {
    NextOnPath(edges, source, path, taken);
    AdjacentMember(edges, Trace(source, taken)[|taken|], None, path[|taken|]);
  }

  /** With every adjacent edge tried, all continuations have been listed. */
  lemma AllVia(nodes: NodeTable, edges: seq<Edge>, source: Id, target: Id, maxDepth: int, taken: seq<Edge>,
               found: seq<GraphPath>)
    requires IsSimplePath(edges, source, taken) && (Trace(source, taken)[|taken|] != target || taken == [])
    requires ListsVia(nodes, edges, source, target, maxDepth, taken,
                      AdjacentEdges(edges, Trace(source, taken)[|taken|], None), found)
    ensures ListsAnswers(nodes, edges, source, target, maxDepth, taken, found)
  {
    forall path | IsAnswer(edges, source, target, maxDepth, path) && taken <= path
      ensures Continues(taken, AdjacentEdges(edges, Trace(source, taken)[|taken|], None), path)
    {
      assert path != taken;
      ProperPrefix(taken, path);
      GoesOn(edges, source, path, taken);
    }
  }
}
