/** The lifecycle states of a memory and the events its operations emit. */
module MemoryStatus {
  datatype Status = Active | Archived | Superseded | Forgotten | Deleted

  /** The transition table; Deleted is terminal. */
  function Allowed(from: Status): set<Status> {
    match from
    case Active => {Archived, Superseded, Forgotten, Deleted}
    case Archived => {Active, Forgotten, Deleted}
    case Superseded => {Active, Forgotten, Deleted}
    case Forgotten => {Active, Deleted}
    case Deleted => {}
  }

  predicate CanTransition(from: Status, to: Status) {
    to in Allowed(from)
  }

  datatype EventKind =
    | MemoryCreated | MemoryUpdated | MemoryArchived | MemoryDeleted | MemoryPromoted | MemoryReinforced
    | MemoryDecayed | MemorySuperseded | MemoryForgotten
}
