/** Identifiers are only ever compared. */
module Ids {
  datatype MemoryId = MemoryId(uuid: string)
}
