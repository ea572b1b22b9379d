/** One memory database behind one connection: the row table, the lazily created vector index, the
    embedding-model pin, and what of them is committed. */
module SqliteStore {
  import opened Options
  import opened MemoryTypes
  import opened StableSort

  type Vector = seq<real>

  /** A row keeps the embedding column next to the entry's other fields. */
  datatype Row = Row(entry: MemoryEntry, embedding: Option<Vector>)

  type Rows = map<Uuid, Row>

  /** The width is fixed when the index is created: creating an index that exists leaves it as it is, and a vector of
      another width is refused. */
  datatype Index = Index(width: nat, vectors: map<Uuid, Vector>)

  /** `index` is absent until the first embedded write creates it; `pin` holds the dimension of the model. */
  datatype Db = Db(rows: Rows, index: Option<Index>, pin: Option<nat>) {
    function Indexed(): set<Uuid> {
      VectorsOf(this).Keys
    }

    /** A pinned database has an index, and every vector in it has the index's width. */
    ghost predicate Valid() {
      && (forall id :: id in rows ==> rows[id].entry.id == id)
      && (pin.Some? ==> index.Some?)
      && (index.Some? ==> forall id :: id in index.value.vectors ==> |index.value.vectors[id]| == index.value.width)
    }

    /** No id in the index lacks its row. */
    predicate IndexSound() {
      Indexed() <= rows.Keys
    }

    predicate Paired() {
      index.Some? <==> pin.Some?
    }

    /** The index takes the vectors of the pinned model. */
    predicate WidthIsPin() {
      pin.Some? && index.Some? ==> index.value.width == pin.value
    }
  }

  function VectorsOf(db: Db): map<Uuid, Vector> {
    if db.index.Some? then db.index.value.vectors else map[]
  }

  const EMPTY := Db(map[], None, None)

  /** The database as the connection sees it and as it is committed. The driver opens a transaction before the
      first statement that changes a row, and it stays open until a commit, a rollback, or the connection is closed.
      A store found corrupt is quarantined for good. */
  datatype Conn = Conn(visible: Db, committed: Db, open: bool, quarantined: bool) {
    ghost predicate Valid() {
      && visible.Valid() && committed.Valid()
      && (!open ==> visible == committed)
      && (committed.pin.Some? ==> visible.pin == committed.pin)
      && (committed.index.Some? ==> visible.index.Some? && visible.index.value.width == committed.index.value.width)
    }
  }

  const FRESH := Conn(EMPTY, EMPTY, false, false)

  /** A row-changing statement that succeeded, and one that failed. */
  function Changed(c: Conn, db: Db): Conn {
    c.(visible := db, open := true)
  }

  function Begun(c: Conn): Conn {
    c.(open := true)
  }

  function Committed(c: Conn): Conn {
    c.(committed := c.visible, open := false)
  }

  function RolledBack(c: Conn): Conn {
    c.(visible := c.committed, open := false)
  }

  /** A failure recognised as corruption closes the connection, which drops the open transaction. */
  function Failed(c: Conn, corrupt: bool): Conn {
    if corrupt then RolledBack(c).(quarantined := true) else c
  }

  // ---------------------------------------------------------------------------
  // Writes
  // ---------------------------------------------------------------------------

  /** A healthy embedder: its dimension, and the normalised vector it has for the entry being written. */
  datatype Embedder = Embedder(dimensions: nat, vector: Vector)

  /** The statement at which a write fails, if it gets there. Only the row's own statements translate the
      error, and so notice corruption. */
  datatype WriteFault =
    | NoWriteFault
    | MetaReadFails
    | CreateFails
    | PinFails
    | RowFails(corrupt: bool)
    | RowCommitFails(corrupt: bool)
    | DropFails
    | InsertFails
    | BumpFails
    | VectorCommitFails

  datatype WriteOutcome = Written | DimensionMismatch | StorageError | CorruptError

  predicate DimensionsAgree(db: Db, e: Embedder) {
    |e.vector| == e.dimensions && (db.pin.Some? ==> |e.vector| == db.pin.value)
  }

  /** Creating the index is no row change: outside a transaction it commits at once. */
  function WithIndex(c: Conn, width: nat): Conn {
    if c.visible.index.Some? then c
    else
      var db := c.visible.(index := Some(Index(width, map[])));
      if c.open then c.(visible := db) else c.(visible := db, committed := db)
  }

  function WithPin(c: Conn, dimensions: nat): Conn {
    Changed(c, c.visible.(pin := Some(dimensions)))
  }

  function WithRow(c: Conn, entry: MemoryEntry, embedding: Option<Vector>): Conn {
    Changed(c, c.visible.(rows := c.visible.rows[entry.id := Row(entry, embedding)]))
  }

  function WithVector(c: Conn, id: Uuid, v: Vector): Conn
    requires c.visible.index.Some?
  {
    var index := c.visible.index.value;
    Changed(c, c.visible.(index := Some(index.(vectors := index.vectors[id := v]))))
  }

  /** The first embedding creates the index and pins the model. */
  predicate Pins(c: Conn, embedder: Option<Embedder>) {
    embedder.Some? && DimensionsAgree(c.visible, embedder.value) && c.visible.pin.None?
  }

  function PinStage(c: Conn, dimensions: nat, fault: WriteFault): (Conn, bool) {
    if fault.CreateFails? then (c, false)
    else if fault.PinFails? then (Begun(WithIndex(c, dimensions)), false)
    else (WithPin(WithIndex(c, dimensions), dimensions), true)
  }

  function RowStage(c: Conn, entry: MemoryEntry, embedding: Option<Vector>, fault: WriteFault): (Conn, bool) {
    if fault.RowFails? then (Failed(Begun(c), fault.corrupt), false)
    else if fault.RowCommitFails? then (Failed(WithRow(c, entry, embedding), fault.corrupt), false)
    else (Committed(WithRow(c, entry, embedding)), true)
  }

  /** The index refuses a vector of another width. */
  predicate Inserts(db: Db, v: Vector, fault: WriteFault) {
    !fault.DropFails? && !fault.InsertFails? && db.index.Some? && |v| == db.index.value.width
  }

  /** The index has no upsert: a vector is replaced by deleting and inserting. */
  function VectorStage(c: Conn, id: Uuid, v: Vector, fault: WriteFault): (Conn, bool) {
    if fault.DropFails? || c.visible.index.None? then (Begun(c), false)
    else if !Inserts(c.visible, v, fault) then (Changed(c, WithoutVectors(c.visible, {id})), false)
    else if fault.BumpFails? || fault.VectorCommitFails? then (WithVector(c, id, v), false)
    else (Committed(WithVector(c, id, v)), true)
  }

  /** An embedded write up to the commit of its row. Other tasks may use the connection after it. */
  function StartState(c: Conn, entry: MemoryEntry, e: Embedder, fault: WriteFault): (Conn, bool) {
    if c.quarantined || fault.MetaReadFails? || !DimensionsAgree(c.visible, e) then (c, false)
    else
      var pinned := if c.visible.pin.None? then PinStage(c, e.dimensions, fault) else (c, true);
      if pinned.1 then RowStage(pinned.0, entry, Some(e.vector), fault) else pinned
  }

  /** The rest of an embedded write; on a connection closed meanwhile it fails at once. */
  function FinishState(c: Conn, id: Uuid, v: Vector, fault: WriteFault): (Conn, bool) {
    if c.quarantined then (c, false) else VectorStage(c, id, v, fault)
  }

  /** The connection after a write that nothing comes between, and whether the write completed. */
  function WriteState(c: Conn, entry: MemoryEntry, stored: Option<Vector>, embedder: Option<Embedder>,
                      fault: WriteFault): (Conn, bool) {
    match embedder
    case None => if c.quarantined || fault.MetaReadFails? then (c, false) else RowStage(c, entry, stored, fault)
    case Some(e) =>
      var started := StartState(c, entry, e, fault);
      if started.1 then FinishState(started.0, entry.id, e.vector, fault) else started
  }

  function WriteReported(c: Conn, entry: MemoryEntry, stored: Option<Vector>, embedder: Option<Embedder>,
                         fault: WriteFault): WriteOutcome {
    if WriteState(c, entry, stored, embedder, fault).1 then Written
    else if WriteState(c, entry, stored, embedder, fault).0.quarantined then CorruptError
    else if !fault.MetaReadFails? && embedder.Some? && !DimensionsAgree(c.visible, embedder.value) then
      DimensionMismatch
    else StorageError
  }

  // ---------------------------------------------------------------------------
  // Deletes
  // ---------------------------------------------------------------------------

  function Archive(row: Row): Row {
    row.(entry := row.entry.(archived := true))
  }

  function WithoutVectors(db: Db, ids: set<Uuid>): Db {
    if db.index.Some? then db.(index := Some(db.index.value.(vectors := VectorsOf(db) - ids))) else db
  }

  function WithoutRows(db: Db, ids: set<Uuid>): Db {
    db.(rows := db.rows - ids)
  }

  function PurgeState(db: Db, ids: set<Uuid>): Db {
    WithoutVectors(WithoutRows(db, ids), ids)
  }

  function ArchiveState(db: Db, ids: set<Uuid>): Db {
    db.(rows := map id | id in db.rows :: if id in ids then Archive(db.rows[id]) else db.rows[id])
  }

  /** The statement at which a delete or a prune fails, if it gets there: the reads before anything changes,
      the statement on the rows, the look for the index, the `n`-th statement on the index, or the commit. */
  datatype EraseFault =
    | NoEraseFault
    | ReadFails(corrupt: bool)
    | RowsFail(corrupt: bool)
    | ProbeFails(corrupt: bool)
    | VectorFails(n: nat, corrupt: bool)
    | CommitFails(corrupt: bool)

  function Members<T>(s: seq<T>): set<T> {
    set x | x in s
  }

  /** The rows in one statement; then, in a purge, their vectors one by one; then the commit. */
  function Erase(c: Conn, ids: seq<Uuid>, purge: bool, fault: EraseFault): (Conn, bool) {
    if fault.RowsFail? then (Failed(Begun(c), fault.corrupt), false)
    else if !purge then Finish(Changed(c, ArchiveState(c.visible, Members(ids))), fault)
    else
      var c1 := Changed(c, WithoutRows(c.visible, Members(ids)));
      if fault.ProbeFails? then (Failed(c1, fault.corrupt), false)
      else if c.visible.index.None? then Finish(c1, fault)
      else if fault.VectorFails? && fault.n < |ids| then
        (Failed(Changed(c1, WithoutVectors(c1.visible, Members(ids[..fault.n]))), fault.corrupt), false)
      else Finish(Changed(c1, WithoutVectors(c1.visible, Members(ids))), fault)
  }

  function Finish(c: Conn, fault: EraseFault): (Conn, bool) {
    if fault.CommitFails? then (Failed(c, fault.corrupt), false) else (Committed(c), true)
  }

  /** A hard delete that finds no row does not look at the index. */
  function DeleteState(c: Conn, id: Uuid, hard: bool, fault: EraseFault): (Conn, bool) {
    if c.quarantined then (c, false)
    else if id in c.visible.rows then Erase(c, [id], hard, fault)
    else if fault.RowsFail? then (Failed(Begun(c), fault.corrupt), false)
    else Finish(Begun(c), fault)
  }

  // ---------------------------------------------------------------------------
  // Reads, and the edge table on the same connection
  // ---------------------------------------------------------------------------

  function Touched(e: MemoryEntry, now: real): MemoryEntry {
    e.(lastAccessedAt := now)
  }

  function TouchedRows(rows: Rows, ids: set<Uuid>, now: real): Rows {
    map id | id in rows :: if id in ids then rows[id].(entry := Touched(rows[id].entry, now)) else rows[id]
  }

  /** The statement at which a read fails. The bookkeeping after the query does not look for corruption. */
  datatype ReadFault = NoReadFault | QueryFails(corrupt: bool) | TouchFails | TouchCommitFails

  /** A refreshing read resets the clock of the rows it returned, in a statement and a commit of its own. */
  function RecordState(c: Conn, refresh: bool, read: set<Uuid>, now: real, fault: ReadFault): (Conn, bool) {
    if c.quarantined then (c, false)
    else if !refresh || read == {} then (c, true)
    else if fault.TouchFails? then (Begun(c), false)
    else
      var touched := Changed(c, c.visible.(rows := TouchedRows(c.visible.rows, read, now)));
      if fault.TouchCommitFails? then (touched, false) else (Committed(touched), true)
  }

  function ReadState(c: Conn, refresh: bool, read: set<Uuid>, now: real, fault: ReadFault): (Conn, bool) {
    if !c.quarantined && fault.QueryFails? then (Failed(c, fault.corrupt), false)
    else RecordState(c, refresh, read, now, fault)
  }

  /** What the edge store's `upsert` of so many rows does to the tables here, failing at a statement or not. */
  function UpsertEdgesState(c: Conn, edges: nat, failsAt: nat): (Conn, bool) {
    if c.quarantined then (c, false)
    else if edges == 0 then (c, true)
    else if failsAt <= edges then (Begun(c), false)
    else (Committed(c), true)
  }

  /** What `replace_source` does to them. Statement 0 is `BEGIN`, which fails inside a transaction left open; and its
      failure rolls that transaction back. */
  function ReplaceEdgesState(c: Conn, edges: nat, failsAt: nat): (Conn, bool) {
    if c.quarantined then (c, false)
    else if c.open || failsAt <= edges + 2 then (RolledBack(c), false)
    else (Committed(c), true)
  }

  // ---------------------------------------------------------------------------
  // Pruning
  // ---------------------------------------------------------------------------

  datatype PrunePolicy = PrunePolicy(minImportance: Option<real>, maxEntries: Option<int>, purge: bool)

  datatype PruneReport = PruneReport(scanned: nat, archived: nat, purged: nat)

  predicate Prunable(row: Row) {
    !row.entry.pinned && !row.entry.archived
  }

  function Active(rows: Rows): set<Uuid> {
    set id | id in rows && Prunable(rows[id])
  }

  /** Non-pinned rows strictly below the floor; a purge also reaches rows archived earlier. */
  function BelowFloor(rows: Rows, floor: real, includeArchived: bool): set<Uuid> {
    set id | id in rows && !rows[id].entry.pinned && rows[id].entry.importance < floor
             && (includeArchived || !rows[id].entry.archived)
  }

  predicate Better(a: Row, b: Row) {
    || a.entry.importance > b.entry.importance
    || (a.entry.importance == b.entry.importance && a.entry.lastAccessedAt > b.entry.lastAccessedAt)
  }

  /** The active rows by importance, then recency; rows that tie on both come in any order. */
  ghost predicate IsCapOrder(order: seq<Uuid>, rows: Rows) {
    && Distinct(order)
    && (forall id :: id in order <==> id in Active(rows))
    && (forall i, j :: 0 <= i < j < |order| && order[i] in rows && order[j] in rows ==>
          !Better(rows[order[j]], rows[order[i]]))
  }

  /** A negative SQL offset counts as zero. */
  function Offset(cap: int): nat {
    if cap < 0 then 0 else cap
  }

  function OverCap(order: seq<Uuid>, cap: int): seq<Uuid> {
    if Offset(cap) <= |order| then order[Offset(cap)..] else []
  }

  function FloorVictims(rows: Rows, policy: PrunePolicy): set<Uuid> {
    if policy.minImportance.Some? then BelowFloor(rows, policy.minImportance.value, policy.purge) else {}
  }

  function CapVictims(order: seq<Uuid>, policy: PrunePolicy): set<Uuid> {
    if policy.maxEntries.Some? then set id | id in OverCap(order, policy.maxEntries.value) else {}
  }

  function Victims(rows: Rows, order: seq<Uuid>, policy: PrunePolicy): set<Uuid> {
    FloorVictims(rows, policy) + CapVictims(order, policy)
  }

  /** What a prune that nothing disturbs makes of the tables. */
  function PruneState(db: Db, order: seq<Uuid>, policy: PrunePolicy): Db {
    var victims := Victims(db.rows, order, policy);
    if policy.purge then PurgeState(db, victims) else ArchiveState(db, victims)
  }

  function PruneReported(db: Db, order: seq<Uuid>, policy: PrunePolicy): PruneReport {
    var n := |Victims(db.rows, order, policy)|;
    PruneReport(|Active(db.rows)|, if policy.purge then 0 else n, if policy.purge then n else 0)
  }

  /** The victims as the set happens to list them. */
  ghost predicate IsListing(ids: seq<Uuid>, victims: set<Uuid>) {
    Distinct(ids) && Members(ids) == victims
  }

  /** The connection after a prune, and whether it completed. Without victims it only commits. */
  function PruneConn(c: Conn, ids: seq<Uuid>, purge: bool, fault: EraseFault): (Conn, bool) {
    if c.quarantined then (c, false)
    else if fault.ReadFails? then (Failed(c, fault.corrupt), false)
    else if ids == [] then Finish(c, fault)
    else Erase(c, ids, purge, fault)
  }

  // ---------------------------------------------------------------------------
  // The adapter
  // ---------------------------------------------------------------------------

  class MemoryDatabase {
    var visible: Db
    var committed: Db
    var open: bool
    var quarantined: bool

    function View(): Conn
      reads this
    {
      Conn(visible, committed, open, quarantined)
    }

    constructor ()
      ensures View() == FRESH
    {
      visible, committed, open, quarantined := EMPTY, EMPTY, false, false;
    }

    method Execute(db: Db)
      modifies this
      ensures View() == Changed(old(View()), db)
    {
      visible, open := db, true;
    }

    method Commit()
      modifies this
      ensures View() == Committed(old(View()))
    {
      committed, open := visible, false;
    }

    /** Translates a driver error: corruption closes the connection and quarantines the store. */
    method Fail(corrupt: bool)
      modifies this
      ensures View() == Failed(old(View()), corrupt)
    {
      if corrupt {
        visible, open, quarantined := committed, false, true;
      }
    }

    /** The row half of a write, in its own transaction. */
    method WriteRow(entry: MemoryEntry, embedding: Option<Vector>, fault: WriteFault) returns (ok: bool)
      modifies this
      ensures (View(), ok) == RowStage(old(View()), entry, embedding, fault)
    {
      if fault.RowFails? {
        open := true;
        Fail(fault.corrupt);
        return false;
      }
      Execute(visible.(rows := visible.rows[entry.id := Row(entry, embedding)]));
      if fault.RowCommitFails? {
        Fail(fault.corrupt);
        return false;
      }
      Commit();
      ok := true;
    }

    method CreateAndPin(dimensions: nat, fault: WriteFault) returns (ok: bool)
      modifies this
      ensures (View(), ok) == PinStage(old(View()), dimensions, fault)
    {
      if fault.CreateFails? {
        return false;
      }
      if visible.index.None? {
        visible := visible.(index := Some(Index(dimensions, map[])));
        if !open {
          committed := visible;
        }
      }
      if fault.PinFails? {
        open := true;
        return false;
      }
      Execute(visible.(pin := Some(dimensions)));
      ok := true;
    }

    /** The vector half, which translates no error. */
    method WriteVector(id: Uuid, v: Vector, fault: WriteFault) returns (ok: bool)
      modifies this
      ensures (View(), ok) == VectorStage(old(View()), id, v, fault)
    {
      if fault.DropFails? || visible.index.None? {
        open := true;
        return false;
      }
      ghost var before := VectorsOf(visible);
      Execute(WithoutVectors(visible, {id}));
      var index := visible.index.value;
      if fault.InsertFails? || |v| != index.width {
        return false;
      }
      Execute(visible.(index := Some(index.(vectors := index.vectors[id := v]))));
      assert (before - {id})[id := v] == before[id := v];
      if fault.BumpFails? || fault.VectorCommitFails? {
        return false;
      }
      Commit();
      ok := true;
    }

    /** An embedded write up to the commit of its row. */
    method StartWrite(entry: MemoryEntry, e: Embedder, fault: WriteFault) returns (ok: bool)
      modifies this
      ensures (View(), ok) == StartState(old(View()), entry, e, fault)
    {
      if quarantined || fault.MetaReadFails? {
        return false;
      }
      if |e.vector| != e.dimensions || (visible.pin.Some? && |e.vector| != visible.pin.value) {
        return false;
      }
      if visible.pin.None? {
        ok := CreateAndPin(e.dimensions, fault);
        if !ok {
          return;
        }
      }
      ok := WriteRow(entry, Some(e.vector), fault);
    }

    /** The rest of it. */
    method FinishWrite(id: Uuid, v: Vector, fault: WriteFault) returns (ok: bool)
      modifies this
      ensures (View(), ok) == FinishState(old(View()), id, v, fault)
    {
      if quarantined {
        return false;
      }
      ok := WriteVector(id, v, fault);
    }

    /** Row first, then the vector. Without an embedder the row is stored alone, with whatever embedding the
        caller's entry carries. */
    method Write(entry: MemoryEntry, stored: Option<Vector>, embedder: Option<Embedder>, fault: WriteFault)
      returns (outcome: WriteOutcome)
      modifies this
      ensures View() == WriteState(old(View()), entry, stored, embedder, fault).0
      ensures outcome == WriteReported(old(View()), entry, stored, embedder, fault)
    {
      if quarantined {
        return CorruptError;
      }
      if fault.MetaReadFails? {
        return StorageError;
      }
      var ok;
      if embedder.None? {
        ok := WriteRow(entry, stored, fault);
      } else if !DimensionsAgree(visible, embedder.value) {
        return DimensionMismatch;
      } else {
        ok := StartWrite(entry, embedder.value, fault);
        if ok {
          ok := FinishWrite(entry.id, embedder.value.vector, fault);
        }
      }
      outcome := if ok then Written else if quarantined then CorruptError else StorageError;
    }

    method CommitOrFail(fault: EraseFault) returns (ok: bool)
      modifies this
      ensures (View(), ok) == Finish(old(View()), fault)
    {
      if fault.CommitFails? {
        Fail(fault.corrupt);
        return false;
      }
      Commit();
      ok := true;
    }

    /** The index has no delete trigger, so vectors are cleared one by one. */
    method ClearVectors(ids: seq<Uuid>, fault: EraseFault) returns (ok: bool)
      requires visible.index.Some? && open
      modifies this
      ensures ok == !(fault.VectorFails? && fault.n < |ids|)
      ensures View() == Changed(old(View()), WithoutVectors(old(visible), Members(if ok then ids else ids[..fault.n])))
    {
      ghost var index := VectorsOf(visible);
      assert index - Members(ids[..0]) == index;
      for i := 0 to |ids|
        invariant fault.VectorFails? ==> i <= fault.n
        invariant View() == Changed(old(View()), WithoutVectors(old(visible), Members(ids[..i])))
      {
        if fault.VectorFails? && fault.n == i {
          return false;
        }
        MembersSnoc(ids, i);
        assert (index - Members(ids[..i])) - {ids[i]} == index - Members(ids[..i + 1]);
        Execute(WithoutVectors(visible, {ids[i]}));
      }
      assert ids[..|ids|] == ids;
      ok := true;
    }

    method EraseRows(ids: seq<Uuid>, purge: bool, fault: EraseFault) returns (ok: bool)
      modifies this
      ensures (View(), ok) == Erase(old(View()), ids, purge, fault)
    {
      if fault.RowsFail? {
        open := true;
        Fail(fault.corrupt);
        return false;
      }
      if purge {
        Execute(WithoutRows(visible, Members(ids)));
        if fault.ProbeFails? {
          Fail(fault.corrupt);
          return false;
        }
        if visible.index.Some? {
          ok := ClearVectors(ids, fault);
          if !ok {
            Fail(fault.corrupt);
            return false;
          }
        }
      } else {
        Execute(ArchiveState(visible, Members(ids)));
      }
      ok := CommitOrFail(fault);
    }

    method Delete(id: Uuid, hard: bool, fault: EraseFault) returns (ok: bool, removed: bool)
      modifies this
      ensures (View(), ok) == DeleteState(old(View()), id, hard, fault)
      ensures ok ==> removed == (id in old(visible.rows))
    {
      if quarantined {
        return false, false;
      }
      removed := id in visible.rows;
      if removed {
        ok := EraseRows([id], hard, fault);
        return;
      }
      open := true;
      if fault.RowsFail? {
        Fail(fault.corrupt);
        return false, false;
      }
      ok := CommitOrFail(fault);
    }

    /** The bookkeeping after a read, which commits whatever transaction it finds open. */
    method RecordRead(refresh: bool, read: set<Uuid>, now: real, fault: ReadFault) returns (ok: bool)
      modifies this
      ensures (View(), ok) == RecordState(old(View()), refresh, read, now, fault)
    {
      if quarantined {
        return false;
      }
      if refresh && read != {} {
        if fault.TouchFails? {
          open := true;
          return false;
        }
        Execute(visible.(rows := TouchedRows(visible.rows, read, now)));
        if fault.TouchCommitFails? {
          return false;
        }
        Commit();
      }
      ok := true;
    }

    /** The rows below the floor, and those beyond the cap. */
    method FindVictims(policy: PrunePolicy, order: seq<Uuid>) returns (victims: set<Uuid>)
      ensures victims == Victims(visible.rows, order, policy)
    {
      victims := {};
      if policy.minImportance.Some? {
        victims := victims + BelowFloor(visible.rows, policy.minImportance.value, policy.purge);
      }
      if policy.maxEntries.Some? {
        var over := Collect(OverCap(order, policy.maxEntries.value));
        victims := victims + over;
      }
    }

    /** `order` is the order in which the database lists the active rows for the cap, `ids` the one in which
        the victims come out of their set. */
    method Prune(policy: PrunePolicy, order: seq<Uuid>, ids: seq<Uuid>, fault: EraseFault)
      returns (ok: bool, report: PruneReport)
      requires IsCapOrder(order, visible.rows) && IsListing(ids, Victims(visible.rows, order, policy))
      modifies this
      ensures (View(), ok) == PruneConn(old(View()), ids, policy.purge, fault)
      ensures ok ==> report == PruneReported(old(visible), order, policy)
    {
      report := PruneReport(0, 0, 0);
      if quarantined {
        return false, report;
      }
      if fault.ReadFails? {
        Fail(fault.corrupt);
        return false, report;
      }
      var scanned := |Active(visible.rows)|;
      var victims := FindVictims(policy, order);
      if ids == [] {
        ok := CommitOrFail(fault);
      } else {
        ok := EraseRows(ids, policy.purge, fault);
      }
      report := if policy.purge then PruneReport(scanned, 0, |victims|) else PruneReport(scanned, |victims|, 0);
    }
  }

  lemma MembersSnoc<T>(s: seq<T>, i: nat)
    requires i < |s|
    ensures Members(s[..i + 1]) == Members(s[..i]) + {s[i]}
  {
    assert s[..i + 1] == s[..i] + [s[i]];
  }

  /** `set.update` over fetched rows. */
  method Collect(ids: seq<Uuid>) returns (found: set<Uuid>)
    ensures found == set id | id in ids
  {
    found := {};
    for i := 0 to |ids|
      invariant found == set id | id in ids[..i]
    {
      assert ids[..i + 1] == ids[..i] + [ids[i]];
      found := found + {ids[i]};
    }
    assert ids[..|ids|] == ids;
  }
}
