/** Logical backup of some owners' subgraphs, and restore by upserts. */
module GraphBackup {
  import opened Wrappers
  import opened GraphModel
  import opened GraphRepository

  const SNAPSHOT_VERSION := 1

  datatype Snapshot = Snapshot(version: int, nodes: seq<Node>, edges: seq<Edge>)

  /** Upserting a list of nodes, one after the other. */
  function UpsertAll(nodes: NodeTable, records: seq<Node>): NodeTable {
    if records == [] then nodes
    else UpsertAll(nodes, records[..|records| - 1])[records[|records| - 1].id := records[|records| - 1]]
  }

  function PutAll(edges: seq<Edge>, added: seq<Edge>): seq<Edge> {
    if added == [] then edges else Put(PutAll(edges, added[..|added| - 1]), added[|added| - 1])
  }

  /** The snapshot holds each exported owner's nodes and the edges inside one owner's subgraph. */
  ghost predicate IsExport(nodes: NodeTable, edges: seq<Edge>, users: seq<string>, snapshot: Snapshot) {
    snapshot.version == SNAPSHOT_VERSION &&
    (forall n :: n in snapshot.nodes <==> exists user <- users :: OwnedBy(nodes, n.id, user) && n == nodes[n.id]) &&
    DistinctIds(snapshot.nodes) &&
    (forall e :: e in snapshot.edges <==> exists user <- users :: InSubgraph(nodes, edges, user, e)) &&
    DistinctKeys(snapshot.edges)
  }

  function Exported(nodes: NodeTable, users: seq<string>): NodeTable {
    map id | id in nodes && nodes[id].Owner() in users :: nodes[id]
  }

  ghost predicate AreExported(nodes: NodeTable, edges: seq<Edge>, users: seq<string>, exported: seq<Edge>) {
    forall e :: e in exported <==> exists user <- users :: InSubgraph(nodes, edges, user, e)
  }

  // ----- upserts in a row -----

  lemma {:induction false} UpsertAllHas(nodes: NodeTable, records: seq<Node>, n: Node)
    requires DistinctIds(records) && n in records
    ensures n.id in UpsertAll(nodes, records) && UpsertAll(nodes, records)[n.id] == n
  {
    var front, last := records[..|records| - 1], records[|records| - 1];
    if n != last {
      assert n in front;
      UpsertAllHas(nodes, front, n);
      assert n.id != last.id;
    }
  }

  lemma {:induction false} UpsertAllKeeps(nodes: NodeTable, records: seq<Node>, id: Id)
    requires forall n <- records :: n.id != id
    ensures id in UpsertAll(nodes, records) <==> id in nodes
    ensures id in nodes ==> UpsertAll(nodes, records)[id] == nodes[id]
  {
    if records != [] {
      assert records[|records| - 1] in records;
      UpsertAllKeeps(nodes, records[..|records| - 1], id);
    }
  }

  /** Exactly the records are new or replaced. */
  lemma UpsertAllEntries(nodes: NodeTable, records: seq<Node>)
    requires DistinctIds(records)
    ensures forall n <- records :: n.id in UpsertAll(nodes, records) && UpsertAll(nodes, records)[n.id] == n
    ensures forall id ::
              (forall n <- records :: n.id != id) ==>
                (id in UpsertAll(nodes, records) <==> id in nodes) &&
                (id in nodes ==> UpsertAll(nodes, records)[id] == nodes[id])
  {
    forall n | n in records
      ensures n.id in UpsertAll(nodes, records) && UpsertAll(nodes, records)[n.id] == n
    {
      UpsertAllHas(nodes, records, n);
    }
    forall id | forall n <- records :: n.id != id
      ensures id in UpsertAll(nodes, records) <==> id in nodes
      ensures id in nodes ==> UpsertAll(nodes, records)[id] == nodes[id]
    {
      UpsertAllKeeps(nodes, records, id);
    }
  }

  /** Later edges win over earlier ones of the same key; all others stay. */
  lemma {:induction false} PutAllMembers(edges: seq<Edge>, added: seq<Edge>)
    requires DistinctKeys(edges) && DistinctKeys(added)
    ensures DistinctKeys(PutAll(edges, added))
    ensures forall e :: e in PutAll(edges, added) <==>
              e in added || (e in edges && forall a <- added :: !e.SameKey(a))
  {
    if added != [] {
      var front, last := added[..|added| - 1], added[|added| - 1];
      assert added == front + [last];
      PutAllMembers(edges, front);
      PutMembers(PutAll(edges, front), last);
      assert forall a <- front :: !a.SameKey(last);
    }
  }

  lemma {:induction false} PutAllPresent(edges: seq<Edge>, added: seq<Edge>)
    requires DistinctKeys(edges) && forall a <- added :: a in edges
    ensures PutAll(edges, added) == edges
  {
    if added != [] {
      PutAllPresent(edges, added[..|added| - 1]);
      PutPresent(edges, added[|added| - 1]);
    }
  }

  lemma SameKeySameEdge(edges: seq<Edge>, a: Edge, b: Edge)
    requires DistinctKeys(edges) && a in edges && b in edges && a.SameKey(b)
    ensures a == b
  {
  }

  // ----- one more owner -----

  lemma ExportNodes(nodes: NodeTable, edges: seq<Edge>, users: seq<string>, user: string, overview: Overview)
    requires IsSubgraph(nodes, edges, user, overview)
    ensures UpsertAll(Exported(nodes, users), overview.nodes) == Exported(nodes, users + [user])
  {
    var result := UpsertAll(Exported(nodes, users), overview.nodes);
    UpsertAllEntries(Exported(nodes, users), overview.nodes);
    forall id
      ensures id in result <==> id in Exported(nodes, users + [user])
      ensures id in result ==> result[id] == nodes[id]
    {
      if OwnedBy(nodes, id, user) {
        assert nodes[id] in overview.nodes;
      }
    }
  }

  lemma ExportEdges(nodes: NodeTable, edges: seq<Edge>, users: seq<string>, exported: seq<Edge>, user: string,
                    overview: Overview)
    requires DistinctKeys(edges) && IsSubgraph(nodes, edges, user, overview)
    requires DistinctKeys(exported) && AreExported(nodes, edges, users, exported)
    ensures DistinctKeys(PutAll(exported, overview.edges))
    ensures AreExported(nodes, edges, users + [user], PutAll(exported, overview.edges))
  {
    PutAllMembers(exported, overview.edges);
    forall e
      ensures e in PutAll(exported, overview.edges) <==>
              exists u <- users + [user] :: InSubgraph(nodes, edges, u, e)
    {
      if e in exported && exists a <- overview.edges :: e.SameKey(a) {
        var a :| a in overview.edges && e.SameKey(a);
        SameKeySameEdge(edges, e, a);
      }
      if u :| u in users + [user] && InSubgraph(nodes, edges, u, e) {
        assert u in users || u == user;
      }
      if InSubgraph(nodes, edges, user, e) {
        assert user in users + [user];
      }
      if u :| u in users && InSubgraph(nodes, edges, u, e) {
        assert u in users + [user];
      }
    }
  }

  // ----- the round trip -----

  lemma NodeRestored(nodes: NodeTable, edges: seq<Edge>, users: seq<string>, snapshot: Snapshot, user: string, id: Id)
    requires IsExport(nodes, edges, users, snapshot) && user in users
    ensures var nodes' := UpsertAll(map[], snapshot.nodes);
            (OwnedBy(nodes', id, user) <==> OwnedBy(nodes, id, user)) &&
            (OwnedBy(nodes, id, user) ==> nodes'[id] == nodes[id])
  {
    UpsertAllEntries(map[], snapshot.nodes);
    if OwnedBy(nodes, id, user) {
      assert nodes[id] in snapshot.nodes;
    }
  }

  /** Restoring an export into an empty graph reproduces every exported owner's subgraph. */
  lemma RoundTrip(nodes: NodeTable, edges: seq<Edge>, users: seq<string>, snapshot: Snapshot, user: string,
                  overview: Overview)
    requires DistinctKeys(edges) && IsExport(nodes, edges, users, snapshot) && user in users
    ensures IsSubgraph(nodes, edges, user, overview) <==>
            IsSubgraph(UpsertAll(map[], snapshot.nodes), PutAll([], snapshot.edges), user, overview)
  {
    var nodes', edges' := UpsertAll(map[], snapshot.nodes), PutAll([], snapshot.edges);
    forall id
      ensures OwnedBy(nodes', id, user) <==> OwnedBy(nodes, id, user)
      ensures OwnedBy(nodes, id, user) ==> nodes'[id] == nodes[id]
    {
      NodeRestored(nodes, edges, users, snapshot, user, id);
    }
    forall e
      ensures InSubgraph(nodes', edges', user, e) <==> InSubgraph(nodes, edges, user, e)
    {
      EdgeRestored(nodes, edges, users, snapshot, user, e);
    }
    SameSubgraph(nodes, edges, nodes', edges', user, overview);
  }

  lemma EdgeRestored(nodes: NodeTable, edges: seq<Edge>, users: seq<string>, snapshot: Snapshot, user: string, e: Edge)
    requires IsExport(nodes, edges, users, snapshot) && user in users
    ensures InSubgraph(UpsertAll(map[], snapshot.nodes), PutAll([], snapshot.edges), user, e) <==>
            InSubgraph(nodes, edges, user, e)
  {
    PutAllMembers([], snapshot.edges);
    assert e in PutAll([], snapshot.edges) <==> e in snapshot.edges;
    NodeRestored(nodes, edges, users, snapshot, user, e.source);
    NodeRestored(nodes, edges, users, snapshot, user, e.target);
  }

  lemma SameSubgraph(nodes: NodeTable, edges: seq<Edge>, nodes': NodeTable, edges': seq<Edge>, user: string,
                     overview: Overview)
    requires forall id :: OwnedBy(nodes', id, user) <==> OwnedBy(nodes, id, user)
    requires forall id :: OwnedBy(nodes, id, user) && OwnedBy(nodes', id, user) ==> nodes'[id] == nodes[id]
    requires forall e :: InSubgraph(nodes', edges', user, e) <==> InSubgraph(nodes, edges, user, e)
    ensures IsSubgraph(nodes, edges, user, overview) <==> IsSubgraph(nodes', edges', user, overview)
  {
  }

  /** Restoring the same export once more changes nothing, whatever the graph held before. */
  lemma RestoreIsIdempotent(nodes: NodeTable, edges: seq<Edge>, users: seq<string>, snapshot: Snapshot,
                            nodes0: NodeTable, edges0: seq<Edge>)
    requires DistinctKeys(edges0) && IsExport(nodes, edges, users, snapshot)
    ensures var nodes1, edges1 := UpsertAll(nodes0, snapshot.nodes), PutAll(edges0, snapshot.edges);
            UpsertAll(nodes1, snapshot.nodes) == nodes1 && PutAll(edges1, snapshot.edges) == edges1
  {
    PutAllMembers(edges0, snapshot.edges);
    PutAllPresent(PutAll(edges0, snapshot.edges), snapshot.edges);
    UpsertAllEntries(nodes0, snapshot.nodes);
    UpsertAllPresent(UpsertAll(nodes0, snapshot.nodes), snapshot.nodes);
  }

  lemma {:induction false} UpsertAllPresent(nodes: NodeTable, records: seq<Node>)
    requires forall n <- records :: n.id in nodes && nodes[n.id] == n
    ensures UpsertAll(nodes, records) == nodes
  {
    if records != [] {
      UpsertAllPresent(nodes, records[..|records| - 1]);
    }
  }

  class Backup {
    const graph: Repository

    constructor (graph: Repository)
      ensures this.graph == graph
    {
      this.graph := graph;
    }

    method Export(users: seq<string>) returns (snapshot: Snapshot)
      requires graph.Valid()
      ensures IsExport(graph.nodes, graph.edges, users, snapshot)
    {
      var nodes: NodeTable := map[];
      var edges: seq<Edge> := [];
      for i := 0 to |users|
        invariant nodes == Exported(graph.nodes, users[..i])
        invariant DistinctKeys(edges) && AreExported(graph.nodes, graph.edges, users[..i], edges)
      {
        var overview, _ := graph.GetSubgraph(users[i], None);
        ExportNodes(graph.nodes, graph.edges, users[..i], users[i], overview);
        ExportEdges(graph.nodes, graph.edges, users[..i], edges, users[i], overview);
        assert users[..i + 1] == users[..i] + [users[i]];
        nodes := UpsertAll(nodes, overview.nodes);
        edges := PutAll(edges, overview.edges);
      }
      assert users[..|users|] == users;
      var records := Values(nodes);
      snapshot := Snapshot(SNAPSHOT_VERSION, records, edges);
    }

    /** Refuses a snapshot of another version; otherwise upserts everything in it. */
    method Restore(snapshot: Snapshot) returns (restored: Option<(nat, nat)>)
      requires graph.Valid()
      modifies graph
      ensures graph.Valid()
      ensures snapshot.version != SNAPSHOT_VERSION ==> restored.None? && unchanged(graph)
      ensures snapshot.version == SNAPSHOT_VERSION ==>
                restored == Some((|snapshot.nodes|, |snapshot.edges|)) &&
                graph.nodes == UpsertAll(old(graph.nodes), snapshot.nodes) &&
                graph.edges == PutAll(old(graph.edges), snapshot.edges)
    {
      if snapshot.version != SNAPSHOT_VERSION {
        return None;
      }
      for i := 0 to |snapshot.nodes|
        invariant graph.Valid() && graph.edges == old(graph.edges)
        invariant graph.nodes == UpsertAll(old(graph.nodes), snapshot.nodes[..i])
      {
        graph.UpsertNode(snapshot.nodes[i]);
        assert snapshot.nodes[..i + 1][..i] == snapshot.nodes[..i];
      }
      assert snapshot.nodes[..|snapshot.nodes|] == snapshot.nodes;
      for i := 0 to |snapshot.edges|
        invariant graph.Valid() && graph.nodes == UpsertAll(old(graph.nodes), snapshot.nodes)
        invariant graph.edges == PutAll(old(graph.edges), snapshot.edges[..i])
      {
        graph.CreateEdge(snapshot.edges[i]);
        assert snapshot.edges[..i + 1][..i] == snapshot.edges[..i];
      }
      assert snapshot.edges[..|snapshot.edges|] == snapshot.edges;
      return Some((|snapshot.nodes|, |snapshot.edges|));
    }
  }
}
