/** The memory entities that travel between tiers. Times are seconds on one clock. */
module MemoryTypes {

  import opened Options

  /** Identifiers are only ever compared. */
  type Uuid = int

  datatype MemoryType = Episodic | Semantic | Procedural | Preference

  datatype MemoryScope = PrivateScope | SharedScope | GlobalScope

  /** Importance at or above which a PRIVATE entry is also written to GLOBAL. */
  const PROMOTION_THRESHOLD: real := 0.9

  datatype MemoryEntry = MemoryEntry(
    id: Uuid,
    memoryType: MemoryType,
    content: string,
    scope: MemoryScope,
    poolName: Option<string>,
    importance: real,
    pinned: bool,
    createdAt: real,
    lastAccessedAt: real,
    archived: bool
  ) {
    predicate ShouldPromoteToGlobal() {
      importance >= PROMOTION_THRESHOLD && scope.PrivateScope?
    }
  }
}
