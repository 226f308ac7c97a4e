/** What requests write into stored memories, and what a memory holds after any run of them. */
module MemoryEdits {
  import opened Wrappers
  import opened Ids
  import opened Lifecycle
  import opened MemoryStatus
  import opened MemoryUseCases

  function Given<T>(o: Option<T>, other: T): T {
    if o.Some? then o.value else other
  }

  // ----- one request -----

  /** An update is carried out iff it asks for something, its caller owns the stored memory, and the content it leaves
      is not blank. */
  lemma UpdateSucceeds(w: World, q: Request)
    requires q.UpdateRequest?
    ensures Execute(w, q).error == None <==>
            (q.newContent.Some? || q.newMetadata.Some?) && q.id in w.table && w.table[q.id].status != Deleted &&
            w.table[q.id].user == q.user && !Blank(Given(q.newContent, w.table[q.id].content))
  {
  }

  /** Then the stored memory has the content and the metadata that were asked for, or else those it had, at the next
      version, and is otherwise as before. */
  lemma UpdateWrites(w: World, q: Request)
    requires q.UpdateRequest? && Execute(w, q).error == None && (q.id in w.table ==> w.table[q.id].id == q.id)
    ensures q.id in w.table && q.id in Execute(w, q).world.table
    ensures var m, m' := w.table[q.id], Execute(w, q).world.table[q.id];
            m'.content == Given(q.newContent, m.content) && m'.metadata == Given(q.newMetadata, m.metadata) &&
            m'.version == m.version + 1 && m'.status == m.status && m'.kind == m.kind && m'.score == m.score &&
            m'.isPromoted == m.isPromoted && m'.priority == m.priority && m'.user == m.user && m'.id == m.id
    ensures var m := w.table[q.id];
            Execute(w, q).world.versions ==
            w.versions + [Snapshot(q.id, m.version, m.content, m.kind, m.status, m.metadata, q.reason)]
  {
  }

  /** A creation is carried out iff its scores are in the unit interval and its content is not blank. */
  lemma CreateSucceeds(w: World, q: Request)
    requires q.CreateRequest?
    ensures Execute(w, q).error == None <==>
            0.0 <= Given(q.importance, 0.5) <= 1.0 && 0.0 <= Given(q.confidence, 0.5) <= 1.0 && !Blank(q.content)
  {
  }

  /** Then an active memory of the caller is stored under the new id, at version 1. */
  lemma CreateWrites(w: World, q: Request)
    requires q.CreateRequest? && Execute(w, q).error == None
    ensures q.id in Execute(w, q).world.table
    ensures var m := Execute(w, q).world.table[q.id];
            m.id == q.id && m.user == q.user && m.content == q.content && m.kind == q.kind &&
            m.metadata == q.metadata && m.status == Active && m.version == 1 && !m.isPromoted && m.priority == 0 &&
            m.score.importance == Given(q.importance, 0.5) && m.score.confidence == Given(q.confidence, 0.5) &&
            m.score.utility == 0.5 && m.score.frequency == 0.0 && m.score.recency == 1.0
  {
  }

  /** A deletion leaves a tombstone with everything else as it was. */
  lemma DeleteWrites(w: World, q: Request)
    requires q.DeleteRequest? && Execute(w, q).error == None && (q.id in w.table ==> w.table[q.id].id == q.id)
    ensures q.id in w.table && q.id in Execute(w, q).world.table && w.table[q.id].user == q.user
    ensures w.table[q.id].status != Deleted
    ensures Execute(w, q).world.table[q.id] == w.table[q.id].(status := Deleted)
  {
  }

  /** A stored memory that is not deleted, for its owner or for the system. */
  predicate Reachable(w: World, id: MemoryId, caller: Option<string>) {
    id in w.table && w.table[id].status != Deleted && (caller.None? || caller == Some(w.table[id].user))
  }

  /** Which maintenance is carried out. */
  lemma MaintenanceSucceeds(w: World, q: Request)
    requires q.MaintenanceRequest? && Admissible(w, q) && (q.id in w.table ==> w.table[q.id].score.Valid())
    ensures Execute(w, q).error == None <==>
            Reachable(w, q.id, q.caller) &&
            var m := w.table[q.id];
            match q.op
            case Reinforce(step) =>
              m.score.frequency + Given(step, 0.1) >= 0.0 && m.score.utility + Given(step, 0.1) >= 0.0
            case Decay(factor) => 0.0 <= factor <= 1.0
            case Promote(threshold) =>
              m.status == Active && !m.isPromoted && m.score.Total() >= Given(threshold, 0.65)
            case Archive => m.status == Active
            case Restore => m.status != Active
            case Supersede => m.status == Active
            case Forget => m.status != Forgotten
            case _ => false
  {
  }

  /** What maintenance writes. */
  lemma MaintenanceWrites(w: World, q: Request)
    requires q.MaintenanceRequest? && Execute(w, q).error == None && Admissible(w, q)
    requires q.id in w.table ==> w.table[q.id].id == q.id
    ensures q.id in w.table && q.id in Execute(w, q).world.table
    ensures var m, m' := w.table[q.id], Execute(w, q).world.table[q.id];
            match q.op
            case Reinforce(step) =>
              Reused(m.score, m'.score, Given(step, 0.1)) &&
              m' == m.(score := m'.score, metadata := Given(q.evidence, m.metadata))
            case Decay(factor) =>
              m'.score == m.score.(recency := m.score.recency * factor) && m' == m.(score := m'.score)
            case Promote(_) => !m.isPromoted && m' == m.(isPromoted := true, priority := m.priority + 1)
            case Archive => m.status == Active && m' == m.(status := Archived)
            case Restore => m.status != Active && m' == m.(status := Active)
            case Supersede => m.status == Active && m' == m.(status := Superseded)
            case Forget => m.status != Forgotten && m' == m.(status := Forgotten)
            case _ => false
  {
    match q.op
    case Reinforce(step) =>
      ReinforcedIsReused(w.table[q.id].score, step);
    case _ =>
  }

  /** Use and utility go up by the step as far as one, and the memory counts as just used. */
  predicate Reused(s: Score, s': Score, step: real) {
    Raised(s.frequency, s'.frequency, step) && Raised(s.utility, s'.utility, step) && s'.recency == 1.0 &&
    s'.importance == s.importance && s'.confidence == s.confidence
  }

  predicate Raised(x: real, x': real, step: real) {
    x' <= 1.0 && x' <= x + step && (x' == 1.0 || x' == x + step)
  }

  lemma ReinforcedIsReused(s: Score, step: Option<real>)
    ensures Reused(s, s.Reinforced(step), Given(step, 0.1))
  {
  }

  // ----- runs -----

  /** The content a request writes, if it is carried out. */
  ghost function ContentWritten(w: World, q: Request): Option<string> {
    if Execute(w, q).error.Some? then None
    else
      match q
      case CreateRequest(_, _, content, _, _, _, _) => Some(content)
      case UpdateRequest(_, _, content, _, _) => content
      case _ => None
  }

  ghost function MetadataWritten(w: World, q: Request): Option<map<string, string>> {
    if Execute(w, q).error.Some? then None
    else
      match q
      case CreateRequest(_, _, _, _, metadata, _, _) => Some(metadata)
      case UpdateRequest(_, _, _, metadata, _) => metadata
      case MaintenanceRequest(_, _, op, evidence) => if op.Reinforce? then evidence else None
      case _ => None
  }

  /** What was written last to a memory in the first `i` requests. */
  ghost function LastContent(worlds: seq<World>, requests: seq<Request>, i: nat, id: MemoryId): Option<string>
    requires i <= |requests| < |worlds|
  {
    if i == 0 then None
    else
      var q, before := requests[i - 1], LastContent(worlds, requests, i - 1, id);
      if q.id == id && ContentWritten(worlds[i - 1], q).Some? then ContentWritten(worlds[i - 1], q) else before
  }

  ghost function LastMetadata(worlds: seq<World>, requests: seq<Request>, i: nat, id: MemoryId)
    : Option<map<string, string>>
    requires i <= |requests| < |worlds|
  {
    if i == 0 then None
    else
      var q, before := requests[i - 1], LastMetadata(worlds, requests, i - 1, id);
      if q.id == id && MetadataWritten(worlds[i - 1], q).Some? then MetadataWritten(worlds[i - 1], q) else before
  }

  function Stored(w: World, id: MemoryId): Option<Memory> {
    if id in w.table then Some(w.table[id]) else None
  }

  /** One request, seen from the memory it names: refused, or what it says is written. */
  ghost predicate Wrote(before: Option<Memory>, after: Option<Memory>, content: Option<string>,
                        metadata: Option<map<string, string>>) {
    if before.None? && after.None? then content.None? && metadata.None?
    else
      after.Some? && (before.Some? || (content.Some? && metadata.Some?)) &&
      after.value.content == (if content.Some? then content.value else before.value.content) &&
      after.value.metadata == (if metadata.Some? then metadata.value else before.value.metadata)
  }

  lemma RequestWrites(w: World, q: Request)
    requires Admissible(w, q) && (q.id in w.table ==> w.table[q.id].id == q.id)
    ensures Wrote(Stored(w, q.id), Stored(Execute(w, q).world, q.id), ContentWritten(w, q), MetadataWritten(w, q))
  {
    if Execute(w, q).error.Some? {
      RefusedChangesNothing(w, q);
    } else {
      match q
      case CreateRequest(_, _, _, _, _, _, _) => CreateWrites(w, q);
      case UpdateRequest(_, _, _, _, _) => UpdateWrites(w, q);
      case DeleteRequest(_, _) => DeleteWrites(w, q);
      case MaintenanceRequest(_, _, _, _) => MaintenanceWrites(w, q);
    }
  }

  /** Whatever is refused changes nothing. */
  lemma RefusedChangesNothing(w: World, q: Request)
    requires Execute(w, q).error.Some?
    ensures Execute(w, q).world == w
  {
  }

  /** In every run a memory holds the content that was written last: by the last update that was carried out and gave
      one, or else by its creation. */
  lemma {:induction false} HoldsLastContent(worlds: seq<World>, requests: seq<Request>, i: nat, id: MemoryId)
    requires IsRun(worlds, requests) && i <= |requests|
    ensures LastContent(worlds, requests, i, id) ==
            if id in worlds[i].table then Some(worlds[i].table[id].content) else None
  {
    if i > 0 {
      HoldsLastContent(worlds, requests, i - 1, id);
      StepWrites(worlds, requests, i - 1, id);
    }
  }

  /** And the metadata that were written last: by such an update, by evidence, or by its creation. */
  lemma {:induction false} HoldsLastMetadata(worlds: seq<World>, requests: seq<Request>, i: nat, id: MemoryId)
    requires IsRun(worlds, requests) && i <= |requests|
    ensures LastMetadata(worlds, requests, i, id) ==
            if id in worlds[i].table then Some(worlds[i].table[id].metadata) else None
  {
    if i > 0 {
      HoldsLastMetadata(worlds, requests, i - 1, id);
      StepWrites(worlds, requests, i - 1, id);
    }
  }

  lemma StepWrites(worlds: seq<World>, requests: seq<Request>, i: nat, id: MemoryId)
    requires IsRun(worlds, requests) && i < |requests|
    ensures var w, w', q := worlds[i], worlds[i + 1], requests[i];
            if q.id == id then Wrote(Stored(w, id), Stored(w', id), ContentWritten(w, q), MetadataWritten(w, q))
            else Stored(w', id) == Stored(w, id)
  {
    InvOnRuns(worlds, requests, i);
    assert StepAt(worlds, requests, i);
    var w, q := worlds[i], requests[i];
    assert Numbered(w, q.id);
    if q.id == id {
      RequestWrites(w, q);
    } else {
      OthersUntouched(w, q, id);
    }
  }
}
