/** The use cases on stored memories, with the version history that updates leave behind. */
module MemoryUseCases {
  import opened Wrappers
  import opened Ids
  import opened MemoryStatus
  import opened Lifecycle
  import Tokens

  /** A snapshot of a memory's content, taken before an edit. */
  datatype Snapshot = Snapshot(memory: MemoryId, number: nat, content: string, kind: string, status: Status,
                               metadata: map<string, string>, reason: Option<string>)

  function Capture(m: Memory, reason: Option<string>): Snapshot {
    Snapshot(m.id, m.version, m.content, m.kind, m.status, m.metadata, reason)
  }

  datatype World = World(table: map<MemoryId, Memory>, versions: seq<Snapshot>)

  datatype Request =
    | CreateRequest(id: MemoryId, user: string, content: string, kind: string, metadata: map<string, string>,
                    importance: Option<real>, confidence: Option<real>)
    | UpdateRequest(id: MemoryId, user: string, newContent: Option<string>, newMetadata: Option<map<string, string>>,
                    reason: Option<string>)
    | DeleteRequest(id: MemoryId, user: string)
    | MaintenanceRequest(id: MemoryId, caller: Option<string>, op: Op, evidence: Option<map<string, string>>)

  /** Deleted memories are not found. */
  function Load(w: World, id: MemoryId): Option<Memory> {
    if id in w.table && w.table[id].status != Deleted then Some(w.table[id]) else None
  }

  function GetOr(o: Option<real>, default: real): real {
    if o.Some? then o.value else default
  }

  function InitialScore(importance: Option<real>, confidence: Option<real>): Score {
    if importance.None? && confidence.None? then NEUTRAL
    else
      NEUTRAL.(importance := GetOr(importance, NEUTRAL.importance),
               confidence := GetOr(confidence, NEUTRAL.confidence))
  }

  /** The new world and the error; after an error the transaction is rolled back. */
  datatype Response = Response(world: World, error: Option<Error>)

  function Refuse(w: World, error: Error): Response {
    Response(w, Some(error))
  }

  function Store(w: World, r: Result, versions: seq<Snapshot>): Response {
    if r.error.Some? then Refuse(w, r.error.value)
    else Response(World(w.table[r.memory.id := r.memory], versions), None)
  }

  /** A reinforcement may leave evidence in the metadata, without a new version. */
  function Annotated(r: Result, op: Op, evidence: Option<map<string, string>>): Result {
    if r.error.None? && op.Reinforce? && evidence.Some? then r.(memory := r.memory.(metadata := evidence.value)) else r
  }

  function Execute(w: World, q: Request): Response {
    match q
    case CreateRequest(id, user, content, kind, metadata, importance, confidence) =>
      var score := InitialScore(importance, confidence);
      if !score.Valid() then Refuse(w, InvalidScore)
      else if Blank(content) then Refuse(w, Validation)
      else
        var m := Memory(id, user, content, kind, Active, score, metadata, 1, false, 0);
        Response(w.(table := w.table[id := m]), None)
    case UpdateRequest(id, user, content, metadata, reason) =>
      if content.None? && metadata.None? then Refuse(w, Validation)
      else
        var m := Load(w, id);
        if m.None? || m.value.user != user then Refuse(w, NotFound)
        else
          var newContent := if content.Some? then content.value else m.value.content;
          Store(w, Apply(m.value, Update(newContent, metadata)), w.versions + [Capture(m.value, reason)])
    case DeleteRequest(id, user) =>
      var m := Load(w, id);
      if m.None? || m.value.user != user then Refuse(w, NotFound)
      else Store(w, Apply(m.value, Delete), w.versions)
    case MaintenanceRequest(id, caller, op, evidence) =>
      var m := Load(w, id);
      if m.None? || (caller.Some? && m.value.user != caller.value) then Refuse(w, NotFound)
      else Store(w, Annotated(Apply(m.value, op), op, evidence), w.versions)
  }

  /** New ids are unused; maintenance changes scores, states and evidence, never content. */
  predicate Admissible(w: World, q: Request) {
    match q
    case CreateRequest(id, _, _, _, _, _, _) => id !in w.table
    case MaintenanceRequest(_, _, op, _) => !op.Update? && !op.Delete?
    case _ => true
  }

  /** One of the maintenance operations on a loaded memory. */
  method Perform(memory: MemoryObject, op: Op) returns (error: Option<Error>)
    requires !op.Update? && !op.Delete?
    modifies memory
    ensures Performed(old(memory.View()), old(memory.events), op, memory.View(), memory.events, error)
  {
    match op {
      case Reinforce(step) => error := memory.ReinforceBy(step);
      case Decay(factor) => error := memory.DecayBy(factor);
      case Promote(threshold) => error := memory.PromoteAbove(threshold);
      case Archive => error := memory.MoveToArchive();
      case Restore => error := memory.BringBack();
      case Supersede => error := memory.SupersedeByNewer();
      case Forget => error := memory.AgeOut();
    }
  }

  class Repository {
    var table: map<MemoryId, Memory>
    var versions: seq<Snapshot>

    function View(): World
      reads this
    {
      World(table, versions)
    }

    constructor ()
      ensures View() == World(map[], [])
    {
      table, versions := map[], [];
    }

    /** `id` is the id generated for the new memory. */
    method CreateMemory(id: MemoryId, user: string, content: string, kind: string, metadata: map<string, string>,
                        importance: Option<real>, confidence: Option<real>)
      returns (error: Option<Error>)
      modifies this
      ensures Response(View(), error) ==
              Execute(old(View()), CreateRequest(id, user, content, kind, metadata, importance, confidence))
    {
      var score := InitialScore(importance, confidence);
      if !score.Valid() {
        return Some(InvalidScore);
      }
      if Tokens.Strip(content) == "" {
        return Some(Validation);
      }
      table := table[id := Memory(id, user, content, kind, Active, score, metadata, 1, false, 0)];
      return None;
    }

    method UpdateMemory(id: MemoryId, user: string, content: Option<string>, metadata: Option<map<string, string>>,
                        reason: Option<string>)
      returns (error: Option<Error>)
      requires id in table ==> table[id].id == id
      modifies this
      ensures Response(View(), error) == Execute(old(View()), UpdateRequest(id, user, content, metadata, reason))
    {
      if content.None? && metadata.None? {
        return Some(Validation);
      }
      if id !in table || table[id].status == Deleted || table[id].user != user {
        return Some(NotFound);
      }
      var memory := new MemoryObject(table[id]);
      var captured := versions + [Capture(table[id], reason)];
      error := memory.UpdateContent(if content.Some? then content.value else memory.content, metadata);
      if error == None {
        table := table[id := memory.View()];
        versions := captured;
      }
    }

    method DeleteMemory(id: MemoryId, user: string) returns (error: Option<Error>)
      requires id in table ==> table[id].id == id
      modifies this
      ensures Response(View(), error) == Execute(old(View()), DeleteRequest(id, user))
    {
      if id !in table || table[id].status == Deleted || table[id].user != user {
        return Some(NotFound);
      }
      var memory := new MemoryObject(table[id]);
      error := memory.Tombstone();
      if error == None {
        table := table[id := memory.View()];
      }
    }

    /** What the maintenance services do to one memory: load it, perform an operation on it, store it. */
    method MaintainMemory(id: MemoryId, caller: Option<string>, op: Op, evidence: Option<map<string, string>>)
      returns (error: Option<Error>)
      requires id in table ==> table[id].id == id
      requires !op.Update? && !op.Delete?
      modifies this
      ensures Response(View(), error) == Execute(old(View()), MaintenanceRequest(id, caller, op, evidence))
    {
      if id !in table || table[id].status == Deleted || (caller.Some? && table[id].user != caller.value) {
        return Some(NotFound);
      }
      var memory := new MemoryObject(table[id]);
      error := Perform(memory, op);
      if error == None {
        if op.Reinforce? && evidence.Some? {
          memory.metadata := evidence.value;
        }
        table := table[id := memory.View()];
      }
    }
  }

  // ----- runs -----

  ghost predicate StepAt(worlds: seq<World>, requests: seq<Request>, i: nat)
    requires i < |requests| == |worlds| - 1
  {
    Admissible(worlds[i], requests[i]) && worlds[i + 1] == Execute(worlds[i], requests[i]).world
  }

  ghost predicate IsRun(worlds: seq<World>, requests: seq<Request>) {
    |worlds| == |requests| + 1 && worlds[0] == World(map[], []) &&
    forall i :: 0 <= i < |requests| ==> StepAt(worlds, requests, i)
  }

  /** The snapshots of one memory, oldest first. */
  function History(versions: seq<Snapshot>, id: MemoryId): seq<Snapshot> {
    if versions == [] then []
    else
      var last := versions[|versions| - 1];
      History(versions[..|versions| - 1], id) + if last.memory == id then [last] else []
  }

  lemma HistoryNext(versions: seq<Snapshot>, s: Snapshot, id: MemoryId)
    ensures History(versions + [s], id) == History(versions, id) + if s.memory == id then [s] else []
  {
    assert (versions + [s])[..|versions|] == versions;
  }

  lemma {:induction false} HistoryOf(versions: seq<Snapshot>, id: MemoryId)
    requires forall s <- versions :: s.memory != id
    ensures History(versions, id) == []
  {
    if versions != [] {
      assert versions[|versions| - 1] in versions;
      HistoryOf(versions[..|versions| - 1], id);
    }
  }

  /** The history of a memory at version v is numbered 1 to v - 1. */
  ghost predicate Numbered(w: World, id: MemoryId) {
    if id in w.table then
      var h := History(w.versions, id);
      |h| == w.table[id].version - 1 && forall k :: 0 <= k < |h| ==> h[k].number == k + 1
    else forall s <- w.versions :: s.memory != id
  }

  ghost predicate Inv(w: World) {
    forall id ::
      Numbered(w, id) && (id in w.table ==> w.table[id].id == id && Sound(w.table[id]))
  }

  /** Storing one memory, with at most one new snapshot of it, leaves the others and their histories alone. */
  lemma StoreLeavesOthers(w: World, r: Result, snapshots: seq<Snapshot>, id: MemoryId)
    requires r.memory.id != id && |snapshots| <= 1 && forall s <- snapshots :: s.memory != id
    ensures Untouched(w, Store(w, r, w.versions + snapshots).world, id)
  {
    if |snapshots| == 1 {
      assert snapshots == [snapshots[0]] && snapshots[0] in snapshots;
      HistoryNext(w.versions, snapshots[0], id);
    } else {
      assert w.versions + snapshots == w.versions;
    }
  }

  ghost predicate Untouched(w: World, w': World, id: MemoryId) {
    (id in w'.table <==> id in w.table) && (id in w.table ==> w'.table[id] == w.table[id]) &&
    History(w'.versions, id) == History(w.versions, id) &&
    ((forall s <- w.versions :: s.memory != id) ==> forall s <- w'.versions :: s.memory != id)
  }

  /** An edit comes with one snapshot of what it changes, any other operation with none. */
  ghost predicate Accompanies(snapshots: seq<Snapshot>, m: Memory, op: Op) {
    if op.Update? then |snapshots| == 1 && snapshots == [Capture(m, snapshots[0].reason)] else snapshots == []
  }

  /** What a request for a stored memory comes down to: nothing, or storing the result of one operation, for an edit
      together with one snapshot. */
  lemma ExecuteStores(w: World, q: Request)
    returns (op: Op, evidence: Option<map<string, string>>, snapshots: seq<Snapshot>)
    requires q.id in w.table && Admissible(w, q)
    ensures var m, w' := w.table[q.id], Execute(w, q).world;
            w' == w || w' == Store(w, Annotated(Apply(m, op), op, evidence), w.versions + snapshots).world
    ensures Accompanies(snapshots, w.table[q.id], op)
  {
    var m := w.table[q.id];
    op, evidence, snapshots := Delete, None, [];
    assert w.versions + [] == w.versions;
    match q
    case UpdateRequest(_, _, content, metadata, reason) =>
      op := Update(if content.Some? then content.value else m.content, metadata);
      snapshots := [Capture(m, reason)];
    case DeleteRequest(_, _) =>
    case MaintenanceRequest(_, _, maintenance, left) =>
      op, evidence := maintenance, left;
  }

  /** A request for another memory leaves this one and its history alone. */
  lemma OthersUntouched(w: World, q: Request, id: MemoryId)
    requires q.id in w.table ==> w.table[q.id].id == q.id
    requires q.id != id && Admissible(w, q)
    ensures Untouched(w, Execute(w, q).world, id)
  {
    if q.id in w.table {
      var op, evidence, snapshots := ExecuteStores(w, q);
      VersionCountsEdits(w.table[q.id], op);
      StoreLeavesOthers(w, Annotated(Apply(w.table[q.id], op), op, evidence), snapshots, id);
    }
  }

  /** An edit appends the snapshot of what was there, metadata included, and counts the version up; nothing else changes
      the content, the version or the history. */
  ghost predicate Edited(w: World, w': World, id: MemoryId)
    requires id in w.table && id in w'.table
  {
    var m, m' := w.table[id], w'.table[id];
    m'.kind == m.kind &&
    ((m'.version == m.version && m'.content == m.content &&
      History(w'.versions, id) == History(w.versions, id)) ||
     (m'.version == m.version + 1 &&
      exists reason :: History(w'.versions, id) == History(w.versions, id) + [Capture(m, reason)]))
  }

  ghost predicate StepsSoundly(w: World, w': World, id: MemoryId)
    requires id in w.table
  {
    id in w'.table && w'.table[id].id == id && Sound(w'.table[id]) && Edited(w, w', id)
  }

  lemma StoreSteps(w: World, op: Op, evidence: Option<map<string, string>>, snapshots: seq<Snapshot>, id: MemoryId)
    requires id in w.table && w.table[id].id == id && Sound(w.table[id])
    requires Accompanies(snapshots, w.table[id], op)
    ensures StepsSoundly(w, Store(w, Annotated(Apply(w.table[id], op), op, evidence), w.versions + snapshots).world, id)
  {
    SoundStep(w.table[id], op);
    VersionCountsEdits(w.table[id], op);
    if op.Update? {
      HistoryNext(w.versions, snapshots[0], id);
    } else {
      assert w.versions + [] == w.versions;
    }
  }

  /** A request leaves each memory sound, and edits it at most once. */
  lemma StepOn(w: World, q: Request, id: MemoryId)
    requires Inv(w) && Admissible(w, q) && id in w.table
    ensures StepsSoundly(w, Execute(w, q).world, id)
  {
    assert Numbered(w, id) && Numbered(w, q.id);
    if q.id != id {
      OthersUntouched(w, q, id);
    } else {
      var op, evidence, snapshots := ExecuteStores(w, q);
      StoreSteps(w, op, evidence, snapshots, id);
    }
  }

  /** A history that grows with the version keeps its numbering. */
  lemma NumberedStep(w: World, w': World, id: MemoryId)
    requires Numbered(w, id) && id in w.table && StepsSoundly(w, w', id)
    ensures Numbered(w', id)
  {
  }

  lemma InvStep(w: World, q: Request)
    requires Inv(w) && Admissible(w, q)
    ensures Inv(Execute(w, q).world)
  {
    var w' := Execute(w, q).world;
    forall id
      ensures Numbered(w', id) && (id in w'.table ==> w'.table[id].id == id && Sound(w'.table[id]))
    {
      assert Numbered(w, id);
      if id in w.table {
        StepOn(w, q, id);
        NumberedStep(w, w', id);
      } else {
        NewSteps(w, q, id);
      }
    }
  }

  /** A memory that is not there yet has no history, also when it is created. */
  lemma NewSteps(w: World, q: Request, id: MemoryId)
    requires Inv(w) && Admissible(w, q) && id !in w.table
    ensures var w' := Execute(w, q).world;
            Numbered(w', id) && (id in w'.table ==> w'.table[id].id == id && Sound(w'.table[id]))
  {
    assert Numbered(w, id) && Numbered(w, q.id);
    if q.id != id {
      OthersUntouched(w, q, id);
    } else {
      HistoryOf(w.versions, id);
    }
  }

  lemma {:induction false} InvOnRuns(worlds: seq<World>, requests: seq<Request>, i: nat)
    requires IsRun(worlds, requests) && i <= |requests|
    ensures Inv(worlds[i])
  {
    if i > 0 {
      InvOnRuns(worlds, requests, i - 1);
      assert StepAt(worlds, requests, i - 1);
      InvStep(worlds[i - 1], requests[i - 1]);
    }
  }

  /** A step of a run, seen from one memory. */
  lemma RunStep(worlds: seq<World>, requests: seq<Request>, i: nat, id: MemoryId)
    requires IsRun(worlds, requests) && i < |requests| && id in worlds[i].table
    ensures worlds[i].table[id].id == id && Numbered(worlds[i], id) && worlds[i].table[id].version >= 1
    ensures StepsSoundly(worlds[i], worlds[i + 1], id)
  {
    InvOnRuns(worlds, requests, i);
    assert Numbered(worlds[i], id) && StepAt(worlds, requests, i);
    StepOn(worlds[i], requests[i], id);
  }

  /** In every run: the snapshots of a memory at version v are numbered 1 to v - 1, once each and in order; its
      priority is 1 if it is promoted and else 0; its score and total stay in the unit interval. */
  lemma HistoryNumbered(worlds: seq<World>, requests: seq<Request>, i: nat, id: MemoryId)
    requires IsRun(worlds, requests) && i <= |requests| && id in worlds[i].table
    ensures var m, h := worlds[i].table[id], History(worlds[i].versions, id);
            |h| == m.version - 1 && (forall k :: 0 <= k < |h| ==> h[k].number == k + 1) &&
            m.priority == (if m.isPromoted then 1 else 0) &&
            m.score.Valid() && 0.0 <= m.score.Total() <= 1.0
  {
    InvOnRuns(worlds, requests, i);
    assert Numbered(worlds[i], id);
    TotalInUnit(worlds[i].table[id].score);
  }

  /** After deletion every request for the memory is refused and changes nothing. */
  lemma DeletedIsGone(w: World, q: Request)
    requires q.id in w.table && w.table[q.id].status == Deleted && Admissible(w, q)
    ensures Execute(w, q).world == w && Execute(w, q).error.Some?
  {
  }
}
