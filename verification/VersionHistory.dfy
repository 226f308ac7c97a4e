/** What the snapshots of a memory hold, over whole runs. */
module VersionHistory {
  import opened Wrappers
  import opened Ids
  import opened Lifecycle
  import opened MemoryStatus
  import opened MemoryUseCases

  // ----- histories only grow -----

  /** The memory `m` is either still at its version and unchanged in content, or the snapshot of its version holds
      its content. */
  ghost predicate Preserved(m: Memory, w: World, id: MemoryId) {
    id in w.table && w.table[id].kind == m.kind &&
    var m', h := w.table[id], History(w.versions, id);
    if m'.version == m.version then m'.content == m.content
    else
      1 <= m.version < m'.version && m.version <= |h| && h[m.version - 1].number == m.version &&
      h[m.version - 1].content == m.content && h[m.version - 1].kind == m.kind
  }

  lemma PreservedStep(m: Memory, w: World, w': World, id: MemoryId)
    requires Preserved(m, w, id) && Numbered(w, id) && w.table[id].version >= 1
    requires id in w'.table && Edited(w, w', id)
    ensures Preserved(m, w', id)
  {
  }

  /** Snapshot k holds the content and the kind that the memory had while it was at version k. */
  lemma {:induction false} SnapshotHolds(worlds: seq<World>, requests: seq<Request>, i: nat, j: nat, id: MemoryId)
    requires IsRun(worlds, requests) && i <= j <= |requests| && id in worlds[i].table
    ensures Preserved(worlds[i].table[id], worlds[j], id)
    decreases j
  {
    if i < j {
      SnapshotHolds(worlds, requests, i, j - 1, id);
      RunStep(worlds, requests, j - 1, id);
      PreservedStep(worlds[i].table[id], worlds[j - 1], worlds[j], id);
    }
  }

  /** A snapshot once taken stays in its place. */
  ghost predicate Recorded(s: Snapshot, w: World, id: MemoryId) {
    id in w.table && 1 <= s.number <= |History(w.versions, id)| && History(w.versions, id)[s.number - 1] == s
  }

  lemma RecordedStep(s: Snapshot, w: World, w': World, id: MemoryId)
    requires Recorded(s, w, id) && id in w'.table && Edited(w, w', id)
    ensures Recorded(s, w', id)
  {
  }

  /** The edit that ends a version records all of the memory as it was then, for good. */
  lemma {:induction false} SnapshotIsCapture(worlds: seq<World>, requests: seq<Request>, e: nat, j: nat, id: MemoryId)
    returns (reason: Option<string>)
    requires IsRun(worlds, requests) && e < j <= |requests| && id in worlds[e].table
    requires id in worlds[e + 1].table && worlds[e + 1].table[id].version != worlds[e].table[id].version
    ensures Recorded(Capture(worlds[e].table[id], reason), worlds[j], id)
    decreases j
  {
    if e + 1 < j {
      reason := SnapshotIsCapture(worlds, requests, e, j - 1, id);
      RunStep(worlds, requests, j - 1, id);
      RecordedStep(Capture(worlds[e].table[id], reason), worlds[j - 1], worlds[j], id);
    } else {
      RunStep(worlds, requests, e, id);
      reason := JustRecorded(worlds[e], worlds[j], id);
    }
  }

  lemma JustRecorded(w: World, w': World, id: MemoryId) returns (reason: Option<string>)
    requires id in w.table && Numbered(w, id) && w.table[id].version >= 1
    requires id in w'.table && Edited(w, w', id) && w'.table[id].version != w.table[id].version
    ensures Recorded(Capture(w.table[id], reason), w', id)
  {
    reason :| History(w'.versions, id) == History(w.versions, id) + [Capture(w.table[id], reason)];
  }

  // ----- metadata -----

  /** A request that changes the metadata within a version: a reinforcement that succeeds and comes with evidence. */
  predicate LeavesEvidence(w: World, q: Request, id: MemoryId) {
    q.MaintenanceRequest? && q.id == id && q.op.Reinforce? && q.evidence.Some? &&
    var m := Load(w, id);
    m.Some? && (q.caller.None? || m.value.user == q.caller.value) && m.value.score.Reinforced(q.op.step).Valid()
  }

  /** What a request makes of the metadata within a version. */
  ghost predicate MetadataKept(w: World, w': World, q: Request, id: MemoryId)
    requires id in w.table
  {
    id in w'.table && w'.table[id].version == w.table[id].version ==>
      w'.table[id].metadata ==
      if LeavesEvidence(w, q, id) then q.evidence.value else w.table[id].metadata
  }

  lemma MetadataUpdated(w: World, q: Request, id: MemoryId)
    requires q.UpdateRequest? && q.id == id && id in w.table && w.table[id].id == id
    ensures MetadataKept(w, Execute(w, q).world, q, id)
  {
    var m := w.table[id];
    VersionCountsEdits(m, Update(if q.newContent.Some? then q.newContent.value else m.content, q.newMetadata));
  }

  lemma MetadataDeleted(w: World, q: Request, id: MemoryId)
    requires q.DeleteRequest? && q.id == id && id in w.table && w.table[id].id == id
    ensures MetadataKept(w, Execute(w, q).world, q, id)
  {
    VersionCountsEdits(w.table[id], Delete);
  }

  lemma MetadataMaintained(w: World, q: Request, id: MemoryId)
    requires q.MaintenanceRequest? && q.id == id && id in w.table && w.table[id].id == id && !q.op.Update?
    ensures MetadataKept(w, Execute(w, q).world, q, id)
  {
    VersionCountsEdits(w.table[id], q.op);
  }

  lemma MetadataStep(w: World, q: Request, id: MemoryId)
    requires Inv(w) && Admissible(w, q) && id in w.table
    ensures MetadataKept(w, Execute(w, q).world, q, id)
  {
    assert Numbered(w, id) && Numbered(w, q.id);
    if q.id != id {
      OthersUntouched(w, q, id);
    } else {
      match q
      case UpdateRequest(_, _, _, _, _) => MetadataUpdated(w, q, id);
      case DeleteRequest(_, _) => MetadataDeleted(w, q, id);
      case MaintenanceRequest(_, _, _, _) => MetadataMaintained(w, q, id);
      case CreateRequest(_, _, _, _, _, _, _) =>
    }
  }

  lemma RunKeepsMetadata(worlds: seq<World>, requests: seq<Request>, i: nat, id: MemoryId)
    requires IsRun(worlds, requests) && i < |requests| && id in worlds[i].table
    ensures MetadataKept(worlds[i], worlds[i + 1], requests[i], id)
  {
    InvOnRuns(worlds, requests, i);
    assert StepAt(worlds, requests, i);
    MetadataStep(worlds[i], requests[i], id);
  }

  /** The metadata left by the requests from `i` to `j` on top of what was there. */
  ghost function MetadataAfter(worlds: seq<World>, requests: seq<Request>, i: nat, j: nat, id: MemoryId)
    : map<string, string>
    requires |worlds| == |requests| + 1 && i <= j <= |requests| && id in worlds[i].table
    decreases j
  {
    if i == j then worlds[i].table[id].metadata
    else if LeavesEvidence(worlds[j - 1], requests[j - 1], id) then requests[j - 1].evidence.value
    else MetadataAfter(worlds, requests, i, j - 1, id)
  }

  /** Versions only count up. */
  lemma {:induction false} VersionGrows(worlds: seq<World>, requests: seq<Request>, i: nat, j: nat, id: MemoryId)
    requires IsRun(worlds, requests) && i <= j <= |requests| && id in worlds[i].table
    ensures id in worlds[j].table && worlds[i].table[id].version <= worlds[j].table[id].version
    decreases j
  {
    if i < j {
      VersionGrows(worlds, requests, i, j - 1, id);
      RunStep(worlds, requests, j - 1, id);
    }
  }

  /** While the version stays, the metadata is the last evidence left, or else what it was. */
  lemma {:induction false} MetadataWithinVersion(worlds: seq<World>, requests: seq<Request>, i: nat, j: nat,
                                                 id: MemoryId)
    requires IsRun(worlds, requests) && i <= j <= |requests| && id in worlds[i].table
    requires id in worlds[j].table ==> worlds[j].table[id].version == worlds[i].table[id].version
    ensures id in worlds[j].table && worlds[j].table[id].metadata == MetadataAfter(worlds, requests, i, j, id)
    decreases j
  {
    if i < j {
      VersionGrows(worlds, requests, i, j - 1, id);
      VersionGrows(worlds, requests, j - 1, j, id);
      MetadataWithinVersion(worlds, requests, i, j - 1, id);
      RunKeepsMetadata(worlds, requests, j - 1, id);
    }
  }

  /** The snapshot of a version holds the metadata that the last reinforcement within the version left as evidence, or
      else that of any earlier moment of the version; its kind and status are those of the moment of the edit. */
  lemma SnapshotMetadata(worlds: seq<World>, requests: seq<Request>, i: nat, e: nat, j: nat, id: MemoryId)
    requires IsRun(worlds, requests) && i <= e < j <= |requests| && id in worlds[i].table && id in worlds[e].table
    requires worlds[e].table[id].version == worlds[i].table[id].version
    requires id in worlds[e + 1].table && worlds[e + 1].table[id].version != worlds[e].table[id].version
    ensures var m, h := worlds[e].table[id], History(worlds[j].versions, id);
            1 <= m.version <= |h| && h[m.version - 1].kind == m.kind && h[m.version - 1].status == m.status &&
            h[m.version - 1].metadata == MetadataAfter(worlds, requests, i, e, id)
  {
    var reason := SnapshotIsCapture(worlds, requests, e, j, id);
    MetadataWithinVersion(worlds, requests, i, e, id);
  }

  lemma {:induction false} NoEvidence(worlds: seq<World>, requests: seq<Request>, i: nat, e: nat, id: MemoryId)
    requires |worlds| == |requests| + 1 && i <= e <= |requests| && id in worlds[i].table
    requires forall k :: i <= k < e ==> !LeavesEvidence(worlds[k], requests[k], id)
    ensures MetadataAfter(worlds, requests, i, e, id) == worlds[i].table[id].metadata
    decreases e
  {
    if i < e {
      NoEvidence(worlds, requests, i, e - 1, id);
    }
  }

  /** So a snapshot holds the metadata of a moment of its version if no reinforcement leaves evidence from then to the
      edit. */
  lemma SnapshotHoldsMetadata(worlds: seq<World>, requests: seq<Request>, i: nat, e: nat, j: nat, id: MemoryId)
    requires IsRun(worlds, requests) && i <= e < j <= |requests| && id in worlds[i].table && id in worlds[e].table
    requires worlds[e].table[id].version == worlds[i].table[id].version
    requires id in worlds[e + 1].table && worlds[e + 1].table[id].version != worlds[e].table[id].version
    requires forall k :: i <= k < e ==> !LeavesEvidence(worlds[k], requests[k], id)
    ensures var v, h := worlds[i].table[id].version, History(worlds[j].versions, id);
            1 <= v <= |h| && h[v - 1].metadata == worlds[i].table[id].metadata
  {
    SnapshotMetadata(worlds, requests, i, e, j, id);
    NoEvidence(worlds, requests, i, e, id);
  }

  /** A run of three requests. */
  lemma ThreeSteps(a: Request, b: Request, c: Request) returns (worlds: seq<World>)
    requires var w0 := World(map[], []);
             var w1 := Execute(w0, a).world;
             var w2 := Execute(w1, b).world;
             Admissible(w0, a) && Admissible(w1, b) && Admissible(w2, c)
    ensures |worlds| == 4 && IsRun(worlds, [a, b, c])
    ensures worlds[1] == Execute(World(map[], []), a).world && worlds[2] == Execute(worlds[1], b).world
    ensures worlds[3] == Execute(worlds[2], c).world
  {
    var w0 := World(map[], []);
    var w1 := Execute(w0, a).world;
    var w2 := Execute(w1, b).world;
    worlds := [w0, w1, w2, Execute(w2, c).world];
    var requests := [a, b, c];
    assert StepAt(worlds, requests, 0) && StepAt(worlds, requests, 1) && StepAt(worlds, requests, 2);
  }

  lemma NewMemory(id: MemoryId, user: string, content: string, kind: string)
    requires !Blank(content)
    ensures var w := Execute(World(map[], []), CreateRequest(id, user, content, kind, map[], None, None)).world;
            id in w.table && w.table[id] == Memory(id, user, content, kind, Active, NEUTRAL, map[], 1, false, 0)
  {
  }

  lemma Evidenced(w: World, id: MemoryId, evidence: map<string, string>)
    requires id in w.table && w.table[id].id == id && w.table[id].status == Active && w.table[id].score == NEUTRAL
    ensures LeavesEvidence(w, MaintenanceRequest(id, None, Reinforce(None), Some(evidence)), id)
    ensures var w' := Execute(w, MaintenanceRequest(id, None, Reinforce(None), Some(evidence))).world;
            id in w'.table &&
            w'.table[id] == w.table[id].(score := NEUTRAL.Reinforced(None), metadata := evidence)
  {
  }

  lemma Rewritten(w: World, id: MemoryId, content: string)
    requires id in w.table && w.table[id].id == id && w.table[id].status == Active && !Blank(content)
    ensures var w' := Execute(w, UpdateRequest(id, w.table[id].user, Some(content), None, None)).world;
            id in w'.table && w'.table[id].version == w.table[id].version + 1
  {
  }

  /** With one it need not: a memory is created without metadata and reinforced, and the snapshot of its first version
      holds the evidence. */
  lemma EvidenceSlipsIn(id: MemoryId, user: string, content: string, kind: string, evidence: map<string, string>)
    returns (worlds: seq<World>, requests: seq<Request>)
    requires !Blank(content) && evidence != map[]
    ensures IsRun(worlds, requests) && |requests| == 3 && id in worlds[1].table
    ensures worlds[1].table[id].version == 1 && worlds[1].table[id].metadata == map[]
    ensures var h := History(worlds[3].versions, id);
            |h| >= 1 && h[0].metadata == evidence != worlds[1].table[id].metadata
  {
    var create := CreateRequest(id, user, content, kind, map[], None, None);
    var reinforce := MaintenanceRequest(id, None, Reinforce(None), Some(evidence));
    var update := UpdateRequest(id, user, Some(content), None, None);
    requests := [create, reinforce, update];
    worlds := ThreeSteps(create, reinforce, update);
    NewMemory(id, user, content, kind);
    Evidenced(worlds[1], id, evidence);
    Rewritten(worlds[2], id, content);
    var reason := SnapshotIsCapture(worlds, requests, 2, 3, id);
  }
}
