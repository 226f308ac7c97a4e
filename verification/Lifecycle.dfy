/** The memory aggregate: scores, state transitions and what each operation does, as values. */
module Lifecycle {
  import opened Wrappers
  import opened Ids
  import opened Rounding
  import opened MemoryStatus
  import Tokens

  // ----- scores -----

  datatype Score = Score(importance: real, utility: real, frequency: real, recency: real, confidence: real) {
    predicate Valid() {
      0.0 <= importance <= 1.0 && 0.0 <= utility <= 1.0 && 0.0 <= frequency <= 1.0 && 0.0 <= recency <= 1.0 &&
      0.0 <= confidence <= 1.0
    }

    function Weighted(): real {
      0.30 * importance + 0.25 * utility + 0.20 * frequency + 0.15 * recency + 0.10 * confidence
    }

    function Total(): real {
      Round4(Min(1.0, Max(0.0, Weighted())))
    }

    function Reinforced(step: Option<real>): Score {
      var delta := if step.Some? then step.value else 0.10;
      this.(frequency := Min(1.0, frequency + delta), utility := Min(1.0, utility + delta), recency := 1.0)
    }

    function Decayed(factor: real): Score {
      this.(recency := recency * factor)
    }
  }

  const NEUTRAL := Score(0.5, 0.5, 0.0, 1.0, 0.5)

  const PROMOTION_THRESHOLD := 0.65

  function Min(a: real, b: real): real {
    if a < b then a else b
  }

  function Max(a: real, b: real): real {
    if a < b then b else a
  }

  /** The weights add up to one, so the total stays in the unit interval without any clamping. */
  lemma TotalInUnit(s: Score)
    requires s.Valid()
    ensures 0.0 <= s.Weighted() <= 1.0 && s.Total() == Round4(s.Weighted()) && 0.0 <= s.Total() <= 1.0
  {
    Round4InUnit(s.Weighted());
  }

  /** What each signal is worth on its own. */
  lemma SignalsAlone()
    ensures Score(1.0, 0.0, 0.0, 0.0, 0.0).Total() == 0.3 && Score(0.0, 1.0, 0.0, 0.0, 0.0).Total() == 0.25
    ensures Score(0.0, 0.0, 1.0, 0.0, 0.0).Total() == 0.2 && Score(0.0, 0.0, 0.0, 1.0, 0.0).Total() == 0.15
    ensures Score(0.0, 0.0, 0.0, 0.0, 1.0).Total() == 0.1
  {
  }

  lemma Product(a: real, f: real)
    requires 0.0 <= a && 0.0 <= f <= 1.0
    ensures 0.0 <= a * f <= a
  {
    assert a - a * f == a * (1.0 - f);
  }

  /** The total never falls when components rise. */
  lemma TotalMonotone(a: Score, b: Score)
    requires a.Valid() && b.Valid()
    requires a.importance <= b.importance && a.utility <= b.utility && a.frequency <= b.frequency &&
             a.recency <= b.recency && a.confidence <= b.confidence
    ensures a.Total() <= b.Total()
  {
    TotalInUnit(a);
    TotalInUnit(b);
    Round4Monotone(a.Weighted(), b.Weighted());
  }

  /** Reuse never lowers the total. */
  lemma ReinforcingRaises(s: Score, step: Option<real>)
    requires s.Valid() && (step.Some? ==> step.value >= 0.0)
    ensures s.Reinforced(step).Valid() && s.Total() <= s.Reinforced(step).Total()
  {
    TotalMonotone(s, s.Reinforced(step));
  }

  lemma DecayedRecency(s: Score, factor: real) returns (r: real)
    requires s.Valid() && 0.0 <= factor <= 1.0
    ensures s.Decayed(factor) == s.(recency := r) && 0.0 <= r <= s.recency
  {
    r := s.recency * factor;
    Product(s.recency, factor);
  }

  /** Idleness never raises it. */
  lemma DecayingLowers(s: Score, factor: real)
    requires s.Valid() && 0.0 <= factor <= 1.0
    ensures s.Decayed(factor).Valid() && s.Decayed(factor).Total() <= s.Total()
  {
    var r := DecayedRecency(s, factor);
    TotalMonotone(s.(recency := r), s);
  }

  // ----- the aggregate -----

  datatype Memory = Memory(id: MemoryId, user: string, content: string, kind: string, status: Status, score: Score,
                           metadata: map<string, string>, version: nat, isPromoted: bool, priority: nat)

  datatype Error = InvalidState | Validation | InvalidScore | NotFound

  /** The new state, and either an error, in which case nothing has changed, or the event emitted, if any. */
  datatype Result = Result(memory: Memory, error: Option<Error>, emitted: Option<EventKind>)

  datatype Op =
    | Update(content: string, metadata: Option<map<string, string>>)
    | Reinforce(step: Option<real>)
    | Decay(factor: real)
    | Promote(threshold: Option<real>)
    | Archive
    | Restore
    | Supersede
    | Forget
    | Delete

  predicate Blank(content: string) {
    Tokens.Strip(content) == ""
  }

  function Failed(m: Memory, error: Error): Result {
    Result(m, Some(error), None)
  }

  function Done(m: Memory, emitted: Option<EventKind>): Result {
    Result(m, None, emitted)
  }

  function TransitionTo(m: Memory, target: Status, emitted: Option<EventKind>): Result {
    if CanTransition(m.status, target) then Done(m.(status := target), emitted) else Failed(m, InvalidState)
  }

  function Apply(m: Memory, op: Op): Result {
    match op
    case Update(content, metadata) =>
      if m.status == Deleted then Failed(m, InvalidState)
      else if Blank(content) then Failed(m, Validation)
      else
        Done(m.(content := content,
                metadata := if metadata.Some? then metadata.value else m.metadata,
                version := m.version + 1),
             Some(MemoryUpdated))
    case Reinforce(step) =>
      if m.status == Deleted then Failed(m, InvalidState)
      else if !m.score.Reinforced(step).Valid() then Failed(m, InvalidScore)
      else Done(m.(score := m.score.Reinforced(step)), Some(MemoryReinforced))
    case Decay(factor) =>
      if m.status == Deleted then Failed(m, InvalidState)
      else if !(0.0 <= factor <= 1.0) then Failed(m, InvalidScore)
      else Done(m.(score := m.score.Decayed(factor)), Some(MemoryDecayed))
    case Promote(threshold) =>
      var limit := if threshold.Some? then threshold.value else PROMOTION_THRESHOLD;
      if m.status != Active || m.isPromoted || m.score.Total() < limit then Failed(m, InvalidState)
      else Done(m.(isPromoted := true, priority := m.priority + 1), Some(MemoryPromoted))
    case Archive => TransitionTo(m, Archived, Some(MemoryArchived))
    case Restore => TransitionTo(m, Active, None)
    case Supersede => TransitionTo(m, Superseded, Some(MemorySuperseded))
    case Forget => TransitionTo(m, Forgotten, Some(MemoryForgotten))
    case Delete => TransitionTo(m, Deleted, Some(MemoryDeleted))
  }

  /** What every operation keeps. */
  predicate Sound(m: Memory) {
    m.score.Valid() && !Blank(m.content) && m.version >= 1 && m.priority == if m.isPromoted then 1 else 0
  }

  lemma SoundStep(m: Memory, op: Op)
    requires Sound(m)
    ensures Sound(Apply(m, op).memory)
  {
    if op.Decay? && 0.0 <= op.factor <= 1.0 {
      var r := DecayedRecency(m.score, op.factor);
    }
  }

  /** What a successful operation announces. */
  lemma EmitsItsEvent(m: Memory, op: Op)
    requires Apply(m, op).error == None
    ensures Apply(m, op).emitted ==
            match op
            case Update(_, _) => Some(MemoryUpdated)
            case Reinforce(_) => Some(MemoryReinforced)
            case Decay(_) => Some(MemoryDecayed)
            case Promote(_) => Some(MemoryPromoted)
            case Archive => Some(MemoryArchived)
            case Restore => None
            case Supersede => Some(MemorySuperseded)
            case Forget => Some(MemoryForgotten)
            case Delete => Some(MemoryDeleted)
  {
  }

  /** A failed operation changes nothing and emits nothing. */
  lemma FailureChangesNothing(m: Memory, op: Op)
    requires Apply(m, op).error.Some?
    ensures Apply(m, op) == Failed(m, Apply(m, op).error.value)
  {
  }

  /** Deletion is final: whatever is tried afterwards fails and changes nothing. */
  lemma DeletedIsFinal(m: Memory, op: Op)
    requires m.status == Deleted
    ensures Apply(m, op).memory == m && Apply(m, op).error == Some(InvalidState)
  {
  }

  /** Content and metadata change only together with the version, by one. */
  lemma VersionCountsEdits(m: Memory, op: Op)
    ensures var m' := Apply(m, op).memory;
            m'.id == m.id && m'.user == m.user && m'.kind == m.kind &&
            if op.Update? && Apply(m, op).error == None then m'.version == m.version + 1
            else m'.version == m.version && m'.content == m.content && m'.metadata == m.metadata
  {
  }

  /** Restoring undoes archiving, superseding and forgetting of an active memory. */
  lemma RestoreUndoes(m: Memory, op: Op)
    requires m.status == Active && (op.Archive? || op.Supersede? || op.Forget?)
    ensures var gone := Apply(m, op);
            gone.error == None && gone.memory.status != Active && Apply(gone.memory, Restore) == Done(m, None)
  {
  }

  /** A memory is promoted at most once, and stays promoted. */
  lemma PromotedForGood(m: Memory, op: Op)
    requires m.isPromoted
    ensures Apply(m, op).memory.isPromoted && Apply(m, op).memory.priority == m.priority
    ensures op.Promote? ==> Apply(m, op).error == Some(InvalidState)
  {
  }

  /** Reuse never costs a memory its promotion. */
  lemma ReuseKeepsPromotable(m: Memory, step: Option<real>, threshold: Option<real>)
    requires m.score.Valid() && (step.Some? ==> step.value >= 0.0) && Apply(m, Promote(threshold)).error == None
    ensures Apply(m, Reinforce(step)).error == None
    ensures Apply(Apply(m, Reinforce(step)).memory, Promote(threshold)).error == None
  {
    ReinforcingRaises(m.score, step);
  }

  function ReinforcedTimes(s: Score, k: nat): Score {
    if k == 0 then s else ReinforcedTimes(s, k - 1).Reinforced(None)
  }

  lemma {:induction false} StaysValid(k: nat)
    ensures ReinforcedTimes(NEUTRAL, k).Valid()
    ensures k >= 4 ==> ReinforcedTimes(NEUTRAL, k).Total() >= ReinforcedTimes(NEUTRAL, 4).Total()
  {
    if k > 0 {
      StaysValid(k - 1);
      ReinforcingRaises(ReinforcedTimes(NEUTRAL, k - 1), None);
    }
  }

  lemma NeutralTotals()
    ensures NEUTRAL.Total() == 0.475 && ReinforcedTimes(NEUTRAL, 1).Total() == 0.52
    ensures ReinforcedTimes(NEUTRAL, 2).Total() == 0.565 && ReinforcedTimes(NEUTRAL, 3).Total() == 0.61
    ensures ReinforcedTimes(NEUTRAL, 4).Total() == 0.655
  {
  }

  /** A new memory without signals can be promoted as soon as it has been reused four times. */
  lemma FourReusesPromote(m: Memory, k: nat)
    requires m.status == Active && !m.isPromoted && m.score == ReinforcedTimes(NEUTRAL, k)
    ensures Apply(m, Promote(None)).error == None <==> k >= 4
  {
    NeutralTotals();
    StaysValid(k);
  }

  // ----- the aggregate as an object -----

  class MemoryObject {
    const id: MemoryId
    const user: string
    const kind: string
    var content: string
    var status: Status
    var score: Score
    var metadata: map<string, string>
    var version: nat
    var isPromoted: bool
    var priority: nat
    var events: seq<EventKind>

    function View(): Memory
      reads this
    {
      Memory(id, user, content, kind, status, score, metadata, version, isPromoted, priority)
    }

    /** A stored memory, brought back. */
    constructor (m: Memory)
      ensures View() == m && events == []
    {
      id, user, kind, content, status, score := m.id, m.user, m.kind, m.content, m.status, m.score;
      metadata, version, isPromoted, priority, events := m.metadata, m.version, m.isPromoted, m.priority, [];
    }

    method UpdateContent(newContent: string, newMetadata: Option<map<string, string>>) returns (error: Option<Error>)
      modifies this
      ensures Performed(old(View()), old(events), Update(newContent, newMetadata), View(), events, error)
    {
      if status == Deleted {
        return Some(InvalidState);
      }
      if Tokens.Strip(newContent) == "" {
        return Some(Validation);
      }
      content := newContent;
      if newMetadata.Some? {
        metadata := newMetadata.value;
      }
      version := version + 1;
      events := events + [MemoryUpdated];
      return None;
    }

    method ReinforceBy(step: Option<real>) returns (error: Option<Error>)
      modifies this
      ensures Performed(old(View()), old(events), Reinforce(step), View(), events, error)
    {
      if status == Deleted {
        return Some(InvalidState);
      }
      var reinforced := score.Reinforced(step);
      if !reinforced.Valid() {
        return Some(InvalidScore);
      }
      score := reinforced;
      events := events + [MemoryReinforced];
      return None;
    }

    method DecayBy(factor: real) returns (error: Option<Error>)
      modifies this
      ensures Performed(old(View()), old(events), Decay(factor), View(), events, error)
    {
      if status == Deleted {
        return Some(InvalidState);
      }
      if !(0.0 <= factor <= 1.0) {
        return Some(InvalidScore);
      }
      score := score.Decayed(factor);
      events := events + [MemoryDecayed];
      return None;
    }

    method PromoteAbove(threshold: Option<real>) returns (error: Option<Error>)
      modifies this
      ensures Performed(old(View()), old(events), Promote(threshold), View(), events, error)
    {
      if status != Active || isPromoted {
        return Some(InvalidState);
      }
      var limit := if threshold.Some? then threshold.value else PROMOTION_THRESHOLD;
      if !(score.Total() >= limit) {
        return Some(InvalidState);
      }
      isPromoted := true;
      priority := priority + 1;
      events := events + [MemoryPromoted];
      return None;
    }

    method TransitionStatus(target: Status) returns (error: Option<Error>)
      modifies this`status
      ensures error == if CanTransition(old(status), target) then None else Some(InvalidState)
      ensures status == if error == None then target else old(status)
    {
      if !CanTransition(status, target) {
        return Some(InvalidState);
      }
      status := target;
      return None;
    }

    method MoveToArchive() returns (error: Option<Error>)
      modifies this
      ensures Performed(old(View()), old(events), Archive, View(), events, error)
    {
      error := TransitionStatus(Archived);
      if error == None {
        events := events + [MemoryArchived];
      }
    }

    /** Emits no event. */
    method BringBack() returns (error: Option<Error>)
      modifies this
      ensures Performed(old(View()), old(events), Restore, View(), events, error)
    {
      error := TransitionStatus(Active);
    }

    method SupersedeByNewer() returns (error: Option<Error>)
      modifies this
      ensures Performed(old(View()), old(events), Supersede, View(), events, error)
    {
      error := TransitionStatus(Superseded);
      if error == None {
        events := events + [MemorySuperseded];
      }
    }

    method AgeOut() returns (error: Option<Error>)
      modifies this
      ensures Performed(old(View()), old(events), Forget, View(), events, error)
    {
      error := TransitionStatus(Forgotten);
      if error == None {
        events := events + [MemoryForgotten];
      }
    }

    method Tombstone() returns (error: Option<Error>)
      modifies this
      ensures Performed(old(View()), old(events), Delete, View(), events, error)
    {
      error := TransitionStatus(Deleted);
      if error == None {
        events := events + [MemoryDeleted];
      }
    }
  }

  /** The new state and the error are those of the operation; a success appends the event it emits. */
  predicate Performed(before: Memory, eventsBefore: seq<EventKind>, op: Op, after: Memory, events: seq<EventKind>,
                      error: Option<Error>) {
    var r := Apply(before, op);
    after == r.memory && error == r.error &&
    events == eventsBefore + if r.emitted.Some? then [r.emitted.value] else []
  }
}
