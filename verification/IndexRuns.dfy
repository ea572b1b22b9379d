/** The database over runs of everything that uses its connection, failing anywhere: whether the vector index
    matches the row table, whether it takes the pinned model's vectors, and what becomes of a failed purge. */
module IndexRuns {
  import opened Options
  import opened MemoryTypes
  import opened SqliteStore
  import PruneTheorems

  /** One use of the connection. Nothing comes between its statements, except that a write may be a start and, some
      uses later, a finish: other tasks run while its vector waits for the row's commit. */
  datatype DbOp =
    | WriteOp(entry: MemoryEntry, stored: Option<Vector>, embedder: Option<Embedder>, writeFault: WriteFault)
    | StartOp(entry: MemoryEntry, e: Embedder, writeFault: WriteFault)
    | FinishOp(id: Uuid, v: Vector, writeFault: WriteFault)
    | DeleteOp(id: Uuid, hard: bool, fault: EraseFault)
    | PruneOp(policy: PrunePolicy, order: seq<Uuid>, ids: seq<Uuid>, fault: EraseFault)
    | ReadOp(refresh: bool, read: set<Uuid>, now: real, readFault: ReadFault)
    | UpsertEdgesOp(edges: nat, failsAt: nat)
    | ReplaceEdgesOp(edges: nat, failsAt: nat)

  /** The connection afterwards, and whether the operation completed. */
  function Result(c: Conn, op: DbOp): (Conn, bool) {
    match op
    case WriteOp(entry, stored, embedder, fault) => WriteState(c, entry, stored, embedder, fault)
    case StartOp(entry, e, fault) => StartState(c, entry, e, fault)
    case FinishOp(id, v, fault) => FinishState(c, id, v, fault)
    case DeleteOp(id, hard, fault) => DeleteState(c, id, hard, fault)
    case PruneOp(policy, order, ids, fault) => PruneConn(c, ids, policy.purge, fault)
    case ReadOp(refresh, read, now, fault) => ReadState(c, refresh, read, now, fault)
    case UpsertEdgesOp(edges, failsAt) => UpsertEdgesState(c, edges, failsAt)
    case ReplaceEdgesOp(edges, failsAt) => ReplaceEdgesState(c, edges, failsAt)
  }

  function Apply(c: Conn, op: DbOp): Conn {
    Result(c, op).0
  }

  /** A prune works on the victims it found. */
  ghost predicate LegalOp(c: Conn, op: DbOp) {
    op.PruneOp? ==>
      && IsCapOrder(op.order, c.visible.rows)
      && IsListing(op.ids, Victims(c.visible.rows, op.order, op.policy))
  }

  ghost predicate Legal(c: Conn, ops: seq<DbOp>)
    decreases |ops|
  {
    ops != [] ==> LegalOp(c, ops[0]) && Legal(Apply(c, ops[0]), ops[1..])
  }

  function Run(c: Conn, ops: seq<DbOp>): Conn
    decreases |ops|
  {
    if ops == [] then c else Run(Apply(c, ops[0]), ops[1..])
  }

  // ---------------------------------------------------------------------------
  // What every run keeps
  // ---------------------------------------------------------------------------

  /** `b` has kept what pin and index width `a` had committed. */
  ghost predicate KeepsSettings(a: Conn, b: Conn) {
    && (a.committed.pin.Some? ==> b.committed.pin == a.committed.pin)
    && (a.committed.index.Some? ==>
          b.committed.index.Some? && b.committed.index.value.width == a.committed.index.value.width)
  }

  lemma PinStageKeeps(c: Conn, dimensions: nat, fault: WriteFault)
    requires c.Valid() && c.visible.pin.None?
    ensures PinStage(c, dimensions, fault).0.Valid() && KeepsSettings(c, PinStage(c, dimensions, fault).0)
  {
  }

  lemma RowStageKeeps(c: Conn, entry: MemoryEntry, embedding: Option<Vector>, fault: WriteFault)
    requires c.Valid()
    ensures RowStage(c, entry, embedding, fault).0.Valid()
    ensures KeepsSettings(c, RowStage(c, entry, embedding, fault).0)
  {
  }

  lemma VectorStageKeeps(c: Conn, id: Uuid, v: Vector, fault: WriteFault)
    requires c.Valid()
    ensures VectorStage(c, id, v, fault).0.Valid() && KeepsSettings(c, VectorStage(c, id, v, fault).0)
  {
  }

  lemma StartKeeps(c: Conn, entry: MemoryEntry, e: Embedder, fault: WriteFault)
    requires c.Valid()
    ensures StartState(c, entry, e, fault).0.Valid() && KeepsSettings(c, StartState(c, entry, e, fault).0)
  {
    if !c.quarantined && !fault.MetaReadFails? && DimensionsAgree(c.visible, e) {
      if c.visible.pin.None? {
        PinStageKeeps(c, e.dimensions, fault);
      }
      var pinned := if c.visible.pin.None? then PinStage(c, e.dimensions, fault) else (c, true);
      if pinned.1 {
        RowStageKeeps(pinned.0, entry, Some(e.vector), fault);
      }
    }
  }

  lemma WriteKeeps(c: Conn, entry: MemoryEntry, stored: Option<Vector>, embedder: Option<Embedder>,
                   fault: WriteFault)
    requires c.Valid()
    ensures WriteState(c, entry, stored, embedder, fault).0.Valid()
    ensures KeepsSettings(c, WriteState(c, entry, stored, embedder, fault).0)
  {
    if embedder.None? {
      RowStageKeeps(c, entry, stored, fault);
    } else {
      StartKeeps(c, entry, embedder.value, fault);
      VectorStageKeeps(StartState(c, entry, embedder.value, fault).0, entry.id, embedder.value.vector, fault);
    }
  }

  lemma ErasedTablesValid(db: Db, ids: set<Uuid>)
    requires db.Valid()
    ensures WithoutRows(db, ids).Valid() && WithoutVectors(db, ids).Valid() && ArchiveState(db, ids).Valid()
  {
  }

  /** Both have the same pin, and an index of the same width if any. */
  predicate SameSettings(a: Db, b: Db) {
    && a.pin == b.pin && (a.index.Some? <==> b.index.Some?)
    && (a.index.Some? ==> a.index.value.width == b.index.value.width)
  }

  lemma EraseSettings(c: Conn, ids: seq<Uuid>, purge: bool, fault: EraseFault)
    ensures var r := Erase(c, ids, purge, fault).0;
            && (SameSettings(r.visible, c.visible) || SameSettings(r.visible, c.committed))
            && (SameSettings(r.committed, c.visible) || SameSettings(r.committed, c.committed))
            && (r.visible == r.committed || SameSettings(r.visible, c.visible))
  {
  }

  lemma SettingsKept(a: Conn, b: Conn)
    requires a.Valid() && b.visible.Valid() && b.committed.Valid() && (!b.open ==> b.visible == b.committed)
    requires SameSettings(b.committed, a.visible) || SameSettings(b.committed, a.committed)
    requires b.visible == b.committed || (SameSettings(b.visible, a.visible) && b.committed == a.committed)
    ensures b.Valid() && KeepsSettings(a, b)
  {
  }

  lemma EraseTables(c: Conn, ids: seq<Uuid>, purge: bool, fault: EraseFault)
    requires c.Valid()
    ensures var r := Erase(c, ids, purge, fault).0;
            && r.visible.Valid() && r.committed.Valid() && (!r.open ==> r.visible == r.committed)
            && (r.visible == r.committed || r.committed == c.committed)
  {
    ErasedTablesValid(c.visible, Members(ids));
    ErasedTablesValid(WithoutRows(c.visible, Members(ids)), Members(ids));
    if fault.VectorFails? && fault.n < |ids| {
      ErasedTablesValid(WithoutRows(c.visible, Members(ids)), Members(ids[..fault.n]));
    }
  }

  lemma EraseKeeps(c: Conn, ids: seq<Uuid>, purge: bool, fault: EraseFault)
    requires c.Valid()
    ensures Erase(c, ids, purge, fault).0.Valid() && KeepsSettings(c, Erase(c, ids, purge, fault).0)
  {
    EraseSettings(c, ids, purge, fault);
    EraseTables(c, ids, purge, fault);
    SettingsKept(c, Erase(c, ids, purge, fault).0);
  }

  lemma DeleteKeeps(c: Conn, id: Uuid, hard: bool, fault: EraseFault)
    requires c.Valid()
    ensures DeleteState(c, id, hard, fault).0.Valid() && KeepsSettings(c, DeleteState(c, id, hard, fault).0)
  {
    EraseKeeps(c, [id], hard, fault);
  }

  lemma PruneKeeps(c: Conn, ids: seq<Uuid>, purge: bool, fault: EraseFault)
    requires c.Valid()
    ensures PruneConn(c, ids, purge, fault).0.Valid() && KeepsSettings(c, PruneConn(c, ids, purge, fault).0)
  {
    EraseKeeps(c, ids, purge, fault);
  }

  lemma ReadKeeps(c: Conn, refresh: bool, read: set<Uuid>, now: real, fault: ReadFault)
    requires c.Valid()
    ensures var after := ReadState(c, refresh, read, now, fault).0;
            after.Valid() && KeepsSettings(c, after)
  {
  }

  lemma ApplyKeeps(c: Conn, op: DbOp)
    requires c.Valid()
    ensures Apply(c, op).Valid() && KeepsSettings(c, Apply(c, op))
  {
    match op
    case WriteOp(entry, stored, embedder, fault) => WriteKeeps(c, entry, stored, embedder, fault);
    case StartOp(entry, e, fault) => StartKeeps(c, entry, e, fault);
    case FinishOp(id, v, fault) => VectorStageKeeps(c, id, v, fault);
    case DeleteOp(id, hard, fault) => DeleteKeeps(c, id, hard, fault);
    case PruneOp(policy, order, ids, fault) => PruneKeeps(c, ids, policy.purge, fault);
    case ReadOp(refresh, read, now, fault) => ReadKeeps(c, refresh, read, now, fault);
    case UpsertEdgesOp(edges, failsAt) =>
    case ReplaceEdgesOp(edges, failsAt) =>
  }

  /** Over every run with any failures: rows sit under their own id, every vector has the width of its index, and
      outside a transaction the connection sees what is committed. */
  lemma {:induction false} RunKeepsValid(c: Conn, ops: seq<DbOp>)
    requires c.Valid()
    ensures Run(c, ops).Valid()
    decreases |ops|
  {
    if ops != [] {
      ApplyKeeps(c, ops[0]);
      RunKeepsValid(Apply(c, ops[0]), ops[1..]);
    }
  }

  /** A committed pin is for good, and so is the width of a committed index: no operation, failing or not, changes or
      clears either. */
  lemma {:induction false} PinIsPermanent(c: Conn, ops: seq<DbOp>)
    requires c.Valid()
    ensures c.committed.pin.Some? ==> Run(c, ops).committed.pin == c.committed.pin == Run(c, ops).visible.pin
    ensures c.committed.index.Some? ==>
              && Run(c, ops).committed.index.Some? && Run(c, ops).visible.index.Some?
              && Run(c, ops).committed.index.value.width == c.committed.index.value.width
              && Run(c, ops).visible.index.value.width == c.committed.index.value.width
    decreases |ops|
  {
    if ops != [] {
      ApplyKeeps(c, ops[0]);
      PinIsPermanent(Apply(c, ops[0]), ops[1..]);
    }
  }

  // ---------------------------------------------------------------------------
  // Vectors without a row
  // ---------------------------------------------------------------------------

  function Orphans(db: Db): set<Uuid> {
    db.Indexed() - db.rows.Keys
  }

  /** The ids whose rows go while their vectors stay: the purge got past its row statement, and failed at the
      index, without the connection being closed. */
  function LeftBehind(c: Conn, ids: seq<Uuid>, fault: EraseFault): set<Uuid> {
    match fault
    case ProbeFails(false) => Members(ids) * c.visible.Indexed()
    case VectorFails(n, false) => if n < |ids| then (Members(ids) - Members(ids[..n])) * c.visible.Indexed() else {}
    case _ => {}
  }

  /** The ids an operation leaves with a vector and no row: those a failed purge leaves behind, and that of a write
      whose row went before its vector came. */
  function Stranded(c: Conn, op: DbOp): set<Uuid> {
    if c.quarantined then {}
    else
      match op
      case FinishOp(id, v, fault) => if Inserts(c.visible, v, fault) && id !in c.visible.rows then {id} else {}
      case DeleteOp(id, hard, fault) => if hard && id in c.visible.rows then LeftBehind(c, [id], fault) else {}
      case PruneOp(policy, order, ids, fault) => if policy.purge then LeftBehind(c, ids, fault) else {}
      case _ => {}
  }

  /** The id whose row an operation writes, or whose old vector it drops. */
  function Rewritten(c: Conn, op: DbOp): set<Uuid> {
    match op
    case WriteOp(entry, _, _, _) => if entry.id in Apply(c, op).visible.rows then {entry.id} else {}
    case StartOp(entry, _, _) => if entry.id in Apply(c, op).visible.rows then {entry.id} else {}
    case FinishOp(id, _, fault) => if fault.DropFails? then {} else {id}
    case _ => {}
  }

  /** The operation takes the connection back to what is committed: a replacement of edges that fails, as it does
      whenever it finds a transaction open, or the discovery of corruption. */
  predicate Drops(c: Conn, op: DbOp) {
    && !c.quarantined
    && (Apply(c, op).quarantined || (op.ReplaceEdgesOp? && !Result(c, op).1))
  }

  lemma EraseOrphans(c: Conn, ids: seq<Uuid>, purge: bool, fault: EraseFault)
    requires c.Valid() && !c.quarantined && Members(ids) <= c.visible.rows.Keys
    requires !Erase(c, ids, purge, fault).0.quarantined
    ensures Orphans(Erase(c, ids, purge, fault).0.visible)
         == Orphans(c.visible) + (if purge then LeftBehind(c, ids, fault) else {})
  {
    if purge && fault.VectorFails? && fault.n < |ids| {
      assert Members(ids[..fault.n]) <= Members(ids);
    }
  }

  /** `b` differs from `a` at most in the row and the vector of `id`; that row stays, and without it the vector
      does not change. */
  ghost predicate OnlyAt(a: Db, b: Db, id: Uuid) {
    && a.rows.Keys <= b.rows.Keys <= a.rows.Keys + {id}
    && a.Indexed() - {id} == b.Indexed() - {id}
    && (id !in b.rows ==> b.Indexed() == a.Indexed())
    && (forall x :: x != id && x in a.rows ==> b.rows[x] == a.rows[x])
    && (forall x :: x != id && x in VectorsOf(a) && x in VectorsOf(b) ==> VectorsOf(b)[x] == VectorsOf(a)[x])
  }

  lemma OnlyAtTwice(a: Db, b: Db, c: Db, id: Uuid)
    requires OnlyAt(a, b, id) && OnlyAt(b, c, id)
    ensures OnlyAt(a, c, id)
  {
    forall x | x != id && x in VectorsOf(a) && x in VectorsOf(c)
      ensures VectorsOf(c)[x] == VectorsOf(a)[x]
    {
      assert x in a.Indexed() - {id} && x in b.Indexed() - {id};
    }
  }

  lemma PinStageOnlyAt(c: Conn, dimensions: nat, fault: WriteFault, id: Uuid)
    ensures OnlyAt(c.visible, PinStage(c, dimensions, fault).0.visible, id)
  {
  }

  lemma RowStageOnlyAt(c: Conn, entry: MemoryEntry, embedding: Option<Vector>, fault: WriteFault)
    requires !RowStage(c, entry, embedding, fault).0.quarantined
    ensures OnlyAt(c.visible, RowStage(c, entry, embedding, fault).0.visible, entry.id)
  {
  }

  lemma VectorStageOnlyAt(c: Conn, id: Uuid, v: Vector, fault: WriteFault)
    requires id in c.visible.rows
    ensures OnlyAt(c.visible, VectorStage(c, id, v, fault).0.visible, id)
  {
  }

  lemma StartOnlyAt(c: Conn, entry: MemoryEntry, e: Embedder, fault: WriteFault)
    requires !StartState(c, entry, e, fault).0.quarantined
    ensures OnlyAt(c.visible, StartState(c, entry, e, fault).0.visible, entry.id)
    ensures StartState(c, entry, e, fault).1 ==> entry.id in StartState(c, entry, e, fault).0.visible.rows
  {
    if !fault.MetaReadFails? && DimensionsAgree(c.visible, e) {
      var pinned := if c.visible.pin.None? then PinStage(c, e.dimensions, fault) else (c, true);
      PinStageOnlyAt(c, e.dimensions, fault, entry.id);
      if pinned.1 {
        var rowed := RowStage(pinned.0, entry, Some(e.vector), fault);
        RowStageOnlyAt(pinned.0, entry, Some(e.vector), fault);
        OnlyAtTwice(c.visible, pinned.0.visible, rowed.0.visible, entry.id);
      }
    }
  }

  lemma WriteOnlyAt(c: Conn, entry: MemoryEntry, stored: Option<Vector>, embedder: Option<Embedder>, fault: WriteFault)
    requires !WriteState(c, entry, stored, embedder, fault).0.quarantined
    ensures OnlyAt(c.visible, WriteState(c, entry, stored, embedder, fault).0.visible, entry.id)
  {
    if embedder.None? {
      if !fault.MetaReadFails? {
        RowStageOnlyAt(c, entry, stored, fault);
      }
    } else {
      StartOnlyAt(c, entry, embedder.value, fault);
      var started := StartState(c, entry, embedder.value, fault);
      if started.1 {
        VectorStageOnlyAt(started.0, entry.id, embedder.value.vector, fault);
        OnlyAtTwice(c.visible, started.0.visible,
                    VectorStage(started.0, entry.id, embedder.value.vector, fault).0.visible, entry.id);
      }
    }
  }

  lemma OrphansOnlyAt(a: Db, b: Db, id: Uuid)
    requires OnlyAt(a, b, id)
    ensures Orphans(b) == Orphans(a) - (if id in b.rows then {id} else {})
  {
    forall x | x != id
      ensures x in Orphans(b) <==> x in Orphans(a)
    {
      assert x in a.Indexed() - {id} <==> x in b.Indexed() - {id};
    }
  }

  lemma FinishOrphans(c: Conn, id: Uuid, v: Vector, fault: WriteFault)
    requires !c.quarantined
    ensures Orphans(FinishState(c, id, v, fault).0.visible)
         == Orphans(c.visible) - Rewritten(c, FinishOp(id, v, fault)) + Stranded(c, FinishOp(id, v, fault))
  {
  }

  /** Exactly how the vectors without a row change, while the connection keeps its transaction: a purge that fails at
      the index adds those it left behind, a vector that comes after its row went is added, writing the row or
      dropping the vector again takes one away, and nothing else does either. */
  lemma OrphansExactly(c: Conn, op: DbOp)
    requires c.Valid() && LegalOp(c, op) && !Drops(c, op)
    ensures !c.quarantined ==> Orphans(Apply(c, op).visible) == Orphans(c.visible) - Rewritten(c, op) + Stranded(c, op)
    ensures c.quarantined ==> Apply(c, op) == c
  {
    QuarantineRollsBack(c, op);
    if !c.quarantined {
      match op
      case WriteOp(entry, stored, embedder, fault) =>
        WriteOnlyAt(c, entry, stored, embedder, fault);
        OrphansOnlyAt(c.visible, WriteState(c, entry, stored, embedder, fault).0.visible, entry.id);
      case StartOp(entry, e, fault) =>
        StartOnlyAt(c, entry, e, fault);
        OrphansOnlyAt(c.visible, StartState(c, entry, e, fault).0.visible, entry.id);
      case FinishOp(id, v, fault) => FinishOrphans(c, id, v, fault);
      case DeleteOp(id, hard, fault) =>
        if id in c.visible.rows {
          EraseOrphans(c, [id], hard, fault);
        }
      case PruneOp(policy, order, ids, fault) => PruneOrphans(c, policy, order, ids, fault);
      case ReadOp(refresh, read, now, fault) => assert Apply(c, op).visible.rows.Keys == c.visible.rows.Keys;
      case UpsertEdgesOp(edges, failsAt) =>
      case ReplaceEdgesOp(edges, failsAt) =>
    }
  }

  lemma PruneOrphans(c: Conn, policy: PrunePolicy, order: seq<Uuid>, ids: seq<Uuid>, fault: EraseFault)
    requires c.Valid() && !c.quarantined && LegalOp(c, PruneOp(policy, order, ids, fault))
    requires !PruneConn(c, ids, policy.purge, fault).0.quarantined
    ensures Orphans(PruneConn(c, ids, policy.purge, fault).0.visible)
         == Orphans(c.visible) + Stranded(c, PruneOp(policy, order, ids, fault))
  {
    PruneTheorems.VictimsInTable(c.visible.rows, order, policy);
    if ids == [] {
      assert Members(ids) == {};
    } else if !fault.ReadFails? {
      EraseOrphans(c, ids, policy.purge, fault);
    }
  }

  ghost predicate SoundEverywhere(c: Conn) {
    c.visible.IndexSound() && c.committed.IndexSound()
  }

  lemma NoOrphansIsSound(db: Db)
    ensures db.IndexSound() <==> Orphans(db) == {}
  {
    forall id | id in db.Indexed() && id !in db.rows
      ensures id in Orphans(db)
    {
    }
  }

  lemma StartCommitsSound(c: Conn, entry: MemoryEntry, e: Embedder, fault: WriteFault)
    requires c.Valid() && SoundEverywhere(c)
    ensures SoundEverywhere(StartState(c, entry, e, fault).0)
    ensures StartState(c, entry, e, fault).1 ==> entry.id in StartState(c, entry, e, fault).0.visible.rows
  {
  }

  lemma FinishCommitsSound(c: Conn, id: Uuid, v: Vector, fault: WriteFault)
    requires SoundEverywhere(c) && id in c.visible.rows
    ensures SoundEverywhere(VectorStage(c, id, v, fault).0)
  {
  }

  lemma WriteCommitsSound(c: Conn, entry: MemoryEntry, stored: Option<Vector>, embedder: Option<Embedder>,
                          fault: WriteFault)
    requires c.Valid() && SoundEverywhere(c)
    ensures SoundEverywhere(WriteState(c, entry, stored, embedder, fault).0)
  {
    if embedder.Some? {
      StartCommitsSound(c, entry, embedder.value, fault);
      var started := StartState(c, entry, embedder.value, fault);
      if started.1 {
        FinishCommitsSound(started.0, entry.id, embedder.value.vector, fault);
      }
    }
  }

  lemma EraseCommitsSound(c: Conn, ids: seq<Uuid>, purge: bool, fault: EraseFault)
    requires c.Valid() && SoundEverywhere(c)
    ensures Erase(c, ids, purge, fault).0.committed.IndexSound()
  {
  }

  /** Whatever an operation that strands nothing commits is as sound as what the connection saw. */
  lemma CommitsSound(c: Conn, op: DbOp)
    requires c.Valid() && SoundEverywhere(c) && Stranded(c, op) == {}
    ensures Apply(c, op).committed.IndexSound()
  {
    match op
    case WriteOp(entry, stored, embedder, fault) => WriteCommitsSound(c, entry, stored, embedder, fault);
    case StartOp(entry, e, fault) => StartCommitsSound(c, entry, e, fault);
    case FinishOp(id, v, fault) => FinishStrandsNothing(c, id, v, fault);
    case DeleteOp(id, hard, fault) => EraseCommitsSound(c, [id], hard, fault);
    case PruneOp(policy, order, ids, fault) => EraseCommitsSound(c, ids, policy.purge, fault);
    case ReadOp(refresh, read, now, fault) => ReadCommitsSound(c, refresh, read, now, fault);
    case UpsertEdgesOp(edges, failsAt) =>
    case ReplaceEdgesOp(edges, failsAt) =>
  }

  lemma FinishStrandsNothing(c: Conn, id: Uuid, v: Vector, fault: WriteFault)
    requires SoundEverywhere(c) && Stranded(c, FinishOp(id, v, fault)) == {}
    ensures FinishState(c, id, v, fault).0.committed.IndexSound()
  {
    assert id in {id};
  }

  lemma ReadCommitsSound(c: Conn, refresh: bool, read: set<Uuid>, now: real, fault: ReadFault)
    requires SoundEverywhere(c)
    ensures SoundEverywhere(ReadState(c, refresh, read, now, fault).0)
  {
  }

  /** A quarantined store answers nothing; one just found corrupt, and one rolled back, is at what was committed. */
  lemma QuarantineRollsBack(c: Conn, op: DbOp)
    ensures c.quarantined ==> Apply(c, op) == c
    ensures Drops(c, op) ==> Apply(c, op).visible == Apply(c, op).committed && !Apply(c, op).open
  {
  }

  lemma StepSoundExactly(c: Conn, op: DbOp)
    requires c.Valid() && SoundEverywhere(c) && LegalOp(c, op)
    ensures SoundEverywhere(Apply(c, op)) <==> Stranded(c, op) == {}
  {
    QuarantineRollsBack(c, op);
    NoOrphansIsSound(c.visible);
    NoOrphansIsSound(Apply(c, op).visible);
    if Drops(c, op) {
      DroppedStrandsNothing(c, op);
    } else {
      OrphansExactly(c, op);
    }
    if Stranded(c, op) == {} {
      CommitsSound(c, op);
    }
  }

  lemma DroppedStrandsNothing(c: Conn, op: DbOp)
    requires LegalOp(c, op) && Drops(c, op)
    ensures Stranded(c, op) == {}
  {
    if op.PruneOp? && op.ids == [] {
      assert Members(op.ids) == {};
    }
  }

  /** Before and after every operation of the run. */
  ghost predicate SoundThroughout(c: Conn, ops: seq<DbOp>)
    decreases |ops|
  {
    SoundEverywhere(c) && (ops != [] ==> SoundThroughout(Apply(c, ops[0]), ops[1..]))
  }

  ghost predicate NoneStranded(c: Conn, ops: seq<DbOp>)
    decreases |ops|
  {
    ops != [] ==> Stranded(c, ops[0]) == {} && NoneStranded(Apply(c, ops[0]), ops[1..])
  }

  /** Over every run, failing anywhere: the index never holds an id without a row, seen or committed, if and only if
      no hard delete or purge of an indexed id failed at the index after its row was gone, and no write found its
      own row gone when it came to the vector. */
  lemma {:induction false} IndexSoundExactly(c: Conn, ops: seq<DbOp>)
    requires c.Valid() && SoundEverywhere(c) && Legal(c, ops)
    ensures SoundThroughout(c, ops) <==> NoneStranded(c, ops)
    decreases |ops|
  {
    if ops != [] {
      var next := Apply(c, ops[0]);
      ApplyKeeps(c, ops[0]);
      StepSoundExactly(c, ops[0]);
      if SoundEverywhere(next) {
        IndexSoundExactly(next, ops[1..]);
      }
    }
  }

  /** A hard delete between the halves of a write strands its vector although no statement fails. */
  lemma DeleteBetweenHalvesStrands(c: Conn, entry: MemoryEntry, e: Embedder)
    requires c.Valid() && !c.quarantined && TakesVectorsOf(c.visible, e)
    ensures var started := Apply(c, StartOp(entry, e, NoWriteFault));
            var deleted := Apply(started, DeleteOp(entry.id, true, NoEraseFault));
            var (finished, ok) := Result(deleted, FinishOp(entry.id, e.vector, NoWriteFault));
            ok && entry.id in finished.committed.Indexed() && entry.id !in finished.committed.rows
  {
    var started := Apply(c, StartOp(entry, e, NoWriteFault));
    StartReachesIndex(c, entry, e);
    var deleted := Apply(started, DeleteOp(entry.id, true, NoEraseFault));
    assert entry.id in Members([entry.id]);
    assert deleted.visible.index.value.width == started.visible.index.value.width && entry.id !in deleted.visible.rows;
  }

  // ---------------------------------------------------------------------------
  // Index and pin
  // ---------------------------------------------------------------------------

  ghost predicate PairedEverywhere(c: Conn) {
    c.visible.Paired() && c.committed.Paired()
  }

  function EmbedderOf(op: DbOp): Option<Embedder> {
    match op
    case WriteOp(_, _, embedder, _) => embedder
    case StartOp(_, e, _) => Some(e)
    case _ => None
  }

  /** A first embedded write that creates the index and stops before the pin is committed with it. Outside a
      transaction the index commits alone, so anything up to the row's commit is too early to stop. */
  predicate HalfPins(c: Conn, op: DbOp) {
    && (op.WriteOp? || op.StartOp?)
    && !c.quarantined && Pins(c, EmbedderOf(op)) && c.visible.index.None?
    && (op.writeFault.PinFails? || (!c.open && (op.writeFault.RowFails? || op.writeFault.RowCommitFails?)))
  }

  /** Both databases have an index and a pin exactly where the others do. */
  predicate SameShape(a: Db, b: Db) {
    (a.index.Some? <==> b.index.Some?) && (a.pin.Some? <==> b.pin.Some?)
  }

  lemma RowStageShape(c: Conn, entry: MemoryEntry, embedding: Option<Vector>, fault: WriteFault)
    ensures var r := RowStage(c, entry, embedding, fault);
            && (r.1 <==> !fault.RowFails? && !fault.RowCommitFails?)
            && (r.1 ==> SameShape(r.0.visible, c.visible) && SameShape(r.0.committed, c.visible))
            && (!r.1 ==> SameShape(r.0.committed, c.committed))
            && (!r.1 && !fault.corrupt ==> SameShape(r.0.visible, c.visible))
            && (!r.1 && fault.corrupt ==> SameShape(r.0.visible, c.committed))
  {
  }

  lemma VectorStageShape(c: Conn, id: Uuid, v: Vector, fault: WriteFault)
    ensures var r := VectorStage(c, id, v, fault).0;
            && SameShape(r.visible, c.visible)
            && (SameShape(r.committed, c.visible) || SameShape(r.committed, c.committed))
  {
  }

  lemma StartPairedExactly(c: Conn, entry: MemoryEntry, e: Embedder, fault: WriteFault)
    requires c.Valid() && PairedEverywhere(c)
    ensures PairedEverywhere(StartState(c, entry, e, fault).0) <==> !HalfPins(c, StartOp(entry, e, fault))
  {
    if !c.quarantined && !fault.MetaReadFails? && DimensionsAgree(c.visible, e) {
      var pinned := if c.visible.pin.None? then PinStage(c, e.dimensions, fault) else (c, true);
      if pinned.1 {
        RowStageShape(pinned.0, entry, Some(e.vector), fault);
      }
    }
  }

  lemma WritePairedExactly(c: Conn, entry: MemoryEntry, stored: Option<Vector>, embedder: Option<Embedder>,
                           fault: WriteFault)
    requires c.Valid() && PairedEverywhere(c)
    ensures PairedEverywhere(WriteState(c, entry, stored, embedder, fault).0)
            <==> !HalfPins(c, WriteOp(entry, stored, embedder, fault))
  {
    if embedder.None? {
      RowStageShape(c, entry, stored, fault);
    } else {
      StartPairedExactly(c, entry, embedder.value, fault);
      var started := StartState(c, entry, embedder.value, fault);
      if started.1 {
        VectorStageShape(started.0, entry.id, embedder.value.vector, fault);
      }
    }
  }

  lemma EraseShape(c: Conn, ids: seq<Uuid>, purge: bool, fault: EraseFault)
    ensures var r := Erase(c, ids, purge, fault).0;
            && (SameShape(r.visible, c.visible) || SameShape(r.visible, c.committed))
            && (SameShape(r.committed, c.visible) || SameShape(r.committed, c.committed))
  {
  }

  lemma StepPairedExactly(c: Conn, op: DbOp)
    requires c.Valid() && PairedEverywhere(c)
    ensures PairedEverywhere(Apply(c, op)) <==> !HalfPins(c, op)
  {
    match op
    case WriteOp(entry, stored, embedder, fault) => WritePairedExactly(c, entry, stored, embedder, fault);
    case StartOp(entry, e, fault) => StartPairedExactly(c, entry, e, fault);
    case FinishOp(id, v, fault) => VectorStageShape(c, id, v, fault);
    case DeleteOp(id, hard, fault) => EraseShape(c, [id], hard, fault);
    case PruneOp(policy, order, ids, fault) => EraseShape(c, ids, policy.purge, fault);
    case ReadOp(refresh, read, now, fault) =>
    case UpsertEdgesOp(edges, failsAt) =>
    case ReplaceEdgesOp(edges, failsAt) =>
  }

  ghost predicate PairedThroughout(c: Conn, ops: seq<DbOp>)
    decreases |ops|
  {
    PairedEverywhere(c) && (ops != [] ==> PairedThroughout(Apply(c, ops[0]), ops[1..]))
  }

  ghost predicate NoneHalfPins(c: Conn, ops: seq<DbOp>)
    decreases |ops|
  {
    ops != [] ==> !HalfPins(c, ops[0]) && NoneHalfPins(Apply(c, ops[0]), ops[1..])
  }

  /** Over every run, failing anywhere: there is an index exactly when there is a pin, seen and committed, if
      and only if no first embedded write stopped between creating the one and committing the other. */
  lemma {:induction false} IndexPairedExactly(c: Conn, ops: seq<DbOp>)
    requires c.Valid() && PairedEverywhere(c)
    ensures PairedThroughout(c, ops) <==> NoneHalfPins(c, ops)
    decreases |ops|
  {
    if ops != [] {
      var next := Apply(c, ops[0]);
      ApplyKeeps(c, ops[0]);
      StepPairedExactly(c, ops[0]);
      if PairedEverywhere(next) {
        IndexPairedExactly(next, ops[1..]);
      }
    }
  }

  // ---------------------------------------------------------------------------
  // The width of the index
  // ---------------------------------------------------------------------------

  ghost predicate WidthIsPinEverywhere(c: Conn) {
    c.visible.WidthIsPin() && c.committed.WidthIsPin()
  }

  /** The index, once there, has the embedder's dimension; and so has the pin. */
  predicate TakesVectorsOf(db: Db, e: Embedder) {
    DimensionsAgree(db, e) && (db.index.Some? ==> db.index.value.width == e.dimensions)
  }

  lemma StartReachesIndex(c: Conn, entry: MemoryEntry, e: Embedder)
    requires c.Valid() && !c.quarantined && DimensionsAgree(c.visible, e)
    ensures var (after, ok) := StartState(c, entry, e, NoWriteFault);
            && ok && !after.quarantined && after.visible.index.Some? && entry.id in after.visible.rows
            && after.visible.index.value.width
               == (if c.visible.index.Some? then c.visible.index.value.width else e.dimensions)
  {
  }

  /** An undisturbed embedded write completes if and only if pin and index both take the embedder's vectors. */
  lemma CompletesExactly(c: Conn, entry: MemoryEntry, stored: Option<Vector>, e: Embedder)
    requires c.Valid() && !c.quarantined
    ensures WriteState(c, entry, stored, Some(e), NoWriteFault).1 <==> TakesVectorsOf(c.visible, e)
  {
    if DimensionsAgree(c.visible, e) {
      StartReachesIndex(c, entry, e);
    }
  }

  /** A write that pins a model to an index of another width, made by a first write that stopped half-way; unless
      corruption closes the connection before it is committed. */
  predicate Mispins(c: Conn, op: DbOp) {
    && (op.WriteOp? || op.StartOp?)
    && !c.quarantined && Pins(c, EmbedderOf(op))
    && c.visible.index.Some? && c.visible.index.value.width != EmbedderOf(op).value.dimensions
    && !op.writeFault.MetaReadFails? && !op.writeFault.CreateFails? && !op.writeFault.PinFails?
    && !(op.writeFault.RowFails? && op.writeFault.corrupt) && !(op.writeFault.RowCommitFails? && op.writeFault.corrupt)
  }

  lemma StartWidthExactly(c: Conn, entry: MemoryEntry, e: Embedder, fault: WriteFault)
    requires c.Valid() && WidthIsPinEverywhere(c)
    ensures WidthIsPinEverywhere(StartState(c, entry, e, fault).0) <==> !Mispins(c, StartOp(entry, e, fault))
  {
  }

  lemma VectorStageSettings(c: Conn, id: Uuid, v: Vector, fault: WriteFault)
    ensures var r := VectorStage(c, id, v, fault).0;
            && SameSettings(r.visible, c.visible)
            && (SameSettings(r.committed, c.visible) || SameSettings(r.committed, c.committed))
  {
  }

  lemma WriteWidthExactly(c: Conn, entry: MemoryEntry, stored: Option<Vector>, embedder: Option<Embedder>,
                          fault: WriteFault)
    requires c.Valid() && WidthIsPinEverywhere(c)
    ensures WidthIsPinEverywhere(WriteState(c, entry, stored, embedder, fault).0)
            <==> !Mispins(c, WriteOp(entry, stored, embedder, fault))
  {
    if embedder.Some? {
      StartWidthExactly(c, entry, embedder.value, fault);
      var started := StartState(c, entry, embedder.value, fault);
      if started.1 {
        VectorStageSettings(started.0, entry.id, embedder.value.vector, fault);
      }
    }
  }

  lemma StepWidthExactly(c: Conn, op: DbOp)
    requires c.Valid() && WidthIsPinEverywhere(c)
    ensures WidthIsPinEverywhere(Apply(c, op)) <==> !Mispins(c, op)
  {
    match op
    case WriteOp(entry, stored, embedder, fault) => WriteWidthExactly(c, entry, stored, embedder, fault);
    case StartOp(entry, e, fault) => StartWidthExactly(c, entry, e, fault);
    case FinishOp(id, v, fault) => VectorStageSettings(c, id, v, fault);
    case DeleteOp(id, hard, fault) => EraseSettings(c, [id], hard, fault);
    case PruneOp(policy, order, ids, fault) => EraseSettings(c, ids, policy.purge, fault);
    case ReadOp(refresh, read, now, fault) =>
    case UpsertEdgesOp(edges, failsAt) =>
    case ReplaceEdgesOp(edges, failsAt) =>
  }

  ghost predicate WidthIsPinThroughout(c: Conn, ops: seq<DbOp>)
    decreases |ops|
  {
    WidthIsPinEverywhere(c) && (ops != [] ==> WidthIsPinThroughout(Apply(c, ops[0]), ops[1..]))
  }

  ghost predicate NoneMispins(c: Conn, ops: seq<DbOp>)
    decreases |ops|
  {
    ops != [] ==> !Mispins(c, ops[0]) && NoneMispins(Apply(c, ops[0]), ops[1..])
  }

  /** Over every run, failing anywhere: the index has the pinned dimension throughout, seen and committed, if and only
      if no embedder of another dimension pinned an index left without a pin. */
  lemma {:induction false} WidthIsPinExactly(c: Conn, ops: seq<DbOp>)
    requires c.Valid() && WidthIsPinEverywhere(c)
    ensures WidthIsPinThroughout(c, ops) <==> NoneMispins(c, ops)
    decreases |ops|
  {
    if ops != [] {
      var next := Apply(c, ops[0]);
      ApplyKeeps(c, ops[0]);
      StepWidthExactly(c, ops[0]);
      if WidthIsPinEverywhere(next) {
        WidthIsPinExactly(next, ops[1..]);
      }
    }
  }

  /** A run in which no first write stops half-way has no index to pin wrongly. */
  lemma {:induction false} NoHalfPinNoMispin(c: Conn, ops: seq<DbOp>)
    requires c.Valid() && PairedEverywhere(c) && NoneHalfPins(c, ops)
    ensures NoneMispins(c, ops)
    decreases |ops|
  {
    if ops != [] {
      ApplyKeeps(c, ops[0]);
      StepPairedExactly(c, ops[0]);
      NoHalfPinNoMispin(Apply(c, ops[0]), ops[1..]);
    }
  }

  /** The two steps: a first write of one width that fails at the pin, and a write of another width, whose row is
      stored and whose vector is refused. */
  lemma HalfPinThenOtherWidth(first: MemoryEntry, e1: Embedder, second: MemoryEntry, e2: Embedder)
    requires DimensionsAgree(EMPTY, e1) && DimensionsAgree(EMPTY, e2) && e1.dimensions != e2.dimensions
    ensures var half := Apply(FRESH, WriteOp(first, None, Some(e1), PinFails));
            var (after, ok) := Result(half, WriteOp(second, None, Some(e2), NoWriteFault));
            && !ok && second.id in after.committed.rows && after.committed.pin == Some(e2.dimensions)
            && !after.committed.WidthIsPin()
  {
    StartReachesIndex(Apply(FRESH, WriteOp(first, None, Some(e1), PinFails)), second, e2);
  }

  /** Once such a pin is committed no embedded write completes again, whatever happens before it. */
  lemma WrongWidthIsForGood(c: Conn, ops: seq<DbOp>, op: DbOp)
    requires c.Valid() && !c.committed.WidthIsPin()
    requires op.WriteOp? && op.embedder.Some?
    ensures !Result(Run(c, ops), op).1
  {
    RunKeepsValid(c, ops);
    PinIsPermanent(c, ops);
    RefusesOtherWidth(Run(c, ops), op);
  }

  lemma RefusesOtherWidth(c: Conn, op: DbOp)
    requires c.Valid() && !c.visible.WidthIsPin() && op.WriteOp? && op.embedder.Some?
    ensures !Result(c, op).1
  {
  }

  // ---------------------------------------------------------------------------
  // What becomes of an open transaction
  // ---------------------------------------------------------------------------

  /** The operation commits: it gets to its commit, and the commit succeeds. A write with an embedder commits its row
      by itself. */
  predicate Commits(c: Conn, op: DbOp) {
    match op
    case WriteOp(_, stored, embedder, fault) =>
      if embedder.Some? then StartState(c, op.entry, embedder.value, fault).1 else Result(c, op).1
    case ReadOp(refresh, read, _, _) => refresh && read != {} && Result(c, op).1
    case UpsertEdgesOp(edges, _) => edges > 0 && Result(c, op).1
    case _ => Result(c, op).1
  }

  /** The operation is not about this id. */
  predicate LeavesAlone(op: DbOp, id: Uuid) {
    match op
    case WriteOp(entry, _, _, _) => entry.id != id
    case StartOp(entry, _, _) => entry.id != id
    case FinishOp(x, _, _) => x != id
    case _ => true
  }

  /** The row is gone from the connection's view, but not yet from the database. */
  predicate RemovalPending(c: Conn, id: Uuid) {
    !c.quarantined && c.open && id in c.committed.rows && id !in c.visible.rows
  }

  lemma StartSettles(c: Conn, entry: MemoryEntry, e: Embedder, fault: WriteFault, id: Uuid)
    requires c.Valid() && RemovalPending(c, id) && entry.id != id
    ensures var (after, ok) := StartState(c, entry, e, fault);
            && (ok ==> id !in after.committed.rows && id !in after.visible.rows && !after.quarantined)
            && (ok && id in VectorsOf(c.visible) ==> id in VectorsOf(after.committed) && id in VectorsOf(after.visible))
            && (!ok && !after.quarantined ==> RemovalPending(after, id))
            && (!ok && after.quarantined ==> id in after.committed.rows && after.visible == after.committed)
  {
  }

  lemma FinishSettles(c: Conn, x: Uuid, v: Vector, fault: WriteFault, id: Uuid)
    requires x != id && !c.quarantined
    ensures var (after, ok) := VectorStage(c, x, v, fault);
            && !after.quarantined
            && (id in after.visible.rows <==> id in c.visible.rows)
            && (id in VectorsOf(after.visible) <==> id in VectorsOf(c.visible))
            && after.committed == (if ok then after.visible else c.committed)
            && (!ok ==> after.open)
  {
  }

  lemma EraseSettles(c: Conn, ids: seq<Uuid>, purge: bool, fault: EraseFault, id: Uuid)
    requires RemovalPending(c, id) && id !in Members(ids)
    ensures var (after, ok) := Erase(c, ids, purge, fault);
            && (ok ==> id !in after.committed.rows)
            && (ok && id in VectorsOf(c.visible) ==> id in VectorsOf(after.committed))
            && (!ok && !after.quarantined ==> RemovalPending(after, id))
            && (!ok && after.quarantined ==> id in after.committed.rows && after.visible == after.committed)
  {
    if fault.VectorFails? && fault.n < |ids| {
      assert Members(ids[..fault.n]) <= Members(ids);
    }
  }

  /** A purge that fails after its row statement, its store not found corrupt, leaves the removal of every committed
      victim pending. */
  lemma FailedPurgePends(c: Conn, policy: PrunePolicy, order: seq<Uuid>, ids: seq<Uuid>, fault: EraseFault, id: Uuid)
    requires c.Valid() && !c.quarantined && LegalOp(c, PruneOp(policy, order, ids, fault)) && policy.purge
    requires !PruneConn(c, ids, true, fault).1 && !PruneConn(c, ids, true, fault).0.quarantined
    requires PruneTheorems.RowsGone(ids, fault) && id in ids && id in c.committed.rows
    ensures RemovalPending(PruneConn(c, ids, true, fault).0, id)
  {
    assert id in Members(ids);
  }

  /** A hard delete that fails at the index does so too; the next write of any other entry commits the vector without
      its row. */
  lemma NextWriteCommitsTheOrphan(c: Conn, id: Uuid, entry: MemoryEntry, stored: Option<Vector>)
    requires c.Valid() && !c.quarantined && id in c.visible.rows && id in c.visible.Indexed() && entry.id != id
    ensures var failed := Apply(c, DeleteOp(id, true, ProbeFails(false)));
            var later := Apply(failed, WriteOp(entry, stored, None, NoWriteFault));
            && failed.committed == c.committed
            && id in later.committed.Indexed() && id !in later.committed.rows
  {
    assert id in Members([id]);
  }

  /** The next operation on a connection whose failed purge or delete left a removal pending settles it, or not: one
      that commits makes it final, with the vector where that was left; a replacement of edges and the discovery of
      corruption undo it; any other leaves it pending. */
  lemma SettledExactly(c: Conn, op: DbOp, id: Uuid)
    requires c.Valid() && LegalOp(c, op) && RemovalPending(c, id) && LeavesAlone(op, id)
    ensures var after := Apply(c, op);
            && (Commits(c, op) <==> id !in after.committed.rows)
            && (Commits(c, op) && id in VectorsOf(c.visible) ==> id in VectorsOf(after.committed))
            && (Drops(c, op) <==> id in after.visible.rows)
            && (!Commits(c, op) && !Drops(c, op) <==> RemovalPending(after, id))
  {
    match op
    case WriteOp(entry, stored, embedder, fault) =>
      if embedder.Some? {
        StartSettles(c, entry, embedder.value, fault, id);
        var started := StartState(c, entry, embedder.value, fault);
        if started.1 {
          FinishSettles(started.0, entry.id, embedder.value.vector, fault, id);
        }
      }
    case StartOp(entry, e, fault) => StartSettles(c, entry, e, fault, id);
    case FinishOp(x, v, fault) => FinishSettles(c, x, v, fault, id);
    case DeleteOp(x, hard, fault) =>
      if x in c.visible.rows {
        EraseSettles(c, [x], hard, fault, id);
      }
    case PruneOp(policy, order, ids, fault) =>
      PruneTheorems.VictimsInTable(c.visible.rows, order, policy);
      if ids != [] && !fault.ReadFails? {
        EraseSettles(c, ids, policy.purge, fault, id);
      }
    case ReadOp(refresh, read, now, fault) =>
    case UpsertEdgesOp(edges, failsAt) =>
    case ReplaceEdgesOp(edges, failsAt) =>
  }

  ghost predicate AllLeaveAlone(ops: seq<DbOp>, id: Uuid) {
    forall i :: 0 <= i < |ops| ==> LeavesAlone(ops[i], id)
  }

  ghost predicate PendingThroughout(c: Conn, ops: seq<DbOp>, id: Uuid)
    decreases |ops|
  {
    RemovalPending(c, id) && (ops != [] ==> PendingThroughout(Apply(c, ops[0]), ops[1..], id))
  }

  ghost predicate NoneSettles(c: Conn, ops: seq<DbOp>)
    decreases |ops|
  {
    ops != [] ==> !Commits(c, ops[0]) && !Drops(c, ops[0]) && NoneSettles(Apply(c, ops[0]), ops[1..])
  }

  /** Over any run of operations on other ids: the removal stays pending exactly as long as nothing commits and
      nothing rolls back. */
  lemma {:induction false} PendingExactly(c: Conn, ops: seq<DbOp>, id: Uuid)
    requires c.Valid() && Legal(c, ops) && RemovalPending(c, id) && AllLeaveAlone(ops, id)
    ensures PendingThroughout(c, ops, id) <==> NoneSettles(c, ops)
    decreases |ops|
  {
    if ops != [] {
      var next := Apply(c, ops[0]);
      ApplyKeeps(c, ops[0]);
      SettledExactly(c, ops[0], id);
      if RemovalPending(next, id) {
        assert forall i :: 0 <= i < |ops[1..]| ==> ops[1..][i] == ops[i + 1];
        PendingExactly(next, ops[1..], id);
      }
    }
  }

  // ---------------------------------------------------------------------------
  // One write
  // ---------------------------------------------------------------------------

  lemma WrittenIsCommitted(c: Conn, entry: MemoryEntry, stored: Option<Vector>, embedder: Option<Embedder>,
                           fault: WriteFault)
    ensures var (after, ok) := WriteState(c, entry, stored, embedder, fault);
            && (ok ==>
                  && after.visible == after.committed && !after.open
                  && entry.id in after.visible.rows && after.visible.rows[entry.id].entry == entry)
            && (ok && embedder.Some? ==>
                  && entry.id in VectorsOf(after.visible)
                  && after.visible.rows[entry.id].embedding == Some(VectorsOf(after.visible)[entry.id]))
  {
  }

  /** A write that succeeds is committed with its vector, a refused one changes nothing, and unless the store
      is found corrupt no other row and no other vector changes, wherever it fails. */
  lemma WriteTouchesOnlyItsRow(c: Conn, entry: MemoryEntry, stored: Option<Vector>, embedder: Option<Embedder>,
                               fault: WriteFault)
    ensures var after := WriteState(c, entry, stored, embedder, fault).0;
            var outcome := WriteReported(c, entry, stored, embedder, fault);
            && (outcome.Written? ==>
                  && after.visible == after.committed && !after.open
                  && entry.id in after.visible.rows && after.visible.rows[entry.id].entry == entry)
            && (outcome.Written? && embedder.Some? ==>
                  && after.visible.index.Some? && entry.id in after.visible.index.value.vectors
                  && after.visible.index.value.vectors[entry.id] == embedder.value.vector
                  && after.visible.rows[entry.id].embedding == Some(embedder.value.vector))
            && (outcome.Written? && embedder.None? ==>
                  after.visible.rows[entry.id].embedding == stored && after.visible.index == c.visible.index)
            && (!c.quarantined && !fault.MetaReadFails? ==>
                  (outcome.DimensionMismatch? <==>
                    embedder.Some? && (|embedder.value.vector| != embedder.value.dimensions
                                       || (c.visible.pin.Some? && |embedder.value.vector| != c.visible.pin.value))))
            && (outcome.DimensionMismatch? ==> after == c)
            && (!after.quarantined ==> OnlyAt(c.visible, after.visible, entry.id))
  {
    WrittenIsCommitted(c, entry, stored, embedder, fault);
    if !WriteState(c, entry, stored, embedder, fault).0.quarantined {
      WriteOnlyAt(c, entry, stored, embedder, fault);
    }
  }

  /** The write failed at or before the commit of its row. */
  predicate FailsEarly(c: Conn, embedder: Option<Embedder>, fault: WriteFault) {
    || fault.MetaReadFails? || fault.RowFails? || fault.RowCommitFails?
    || (embedder.Some?
        && (|| |embedder.value.vector| != embedder.value.dimensions
            || (c.visible.pin.Some? && |embedder.value.vector| != c.visible.pin.value)
            || (c.visible.pin.None? && (fault.CreateFails? || fault.PinFails?))))
  }

  lemma EarlyExactly(c: Conn, entry: MemoryEntry, e: Embedder, fault: WriteFault)
    requires c.Valid() && !c.quarantined
    ensures var (after, ok) := StartState(c, entry, e, fault);
            && (ok <==> !FailsEarly(c, Some(e), fault))
            && (!ok ==> after.committed.rows == c.committed.rows)
            && (ok ==>
                  && !after.quarantined && after.visible == after.committed
                  && after.visible.rows == c.visible.rows[entry.id := Row(entry, Some(e.vector))]
                  && VectorsOf(after.visible) == VectorsOf(c.visible))
  {
  }

  /** How far a write got that did not complete. Without an embedder, or with one if it failed before the commit of the
      row, it has committed no row. Later the row is committed, embedding and all, and no vector is. */
  lemma FailedWriteExactly(c: Conn, entry: MemoryEntry, stored: Option<Vector>, embedder: Option<Embedder>,
                           fault: WriteFault)
    requires c.Valid() && !c.quarantined && !WriteState(c, entry, stored, embedder, fault).1
    ensures var after := WriteState(c, entry, stored, embedder, fault).0;
            && (embedder.None? ==> FailsEarly(c, embedder, fault))
            && (FailsEarly(c, embedder, fault) ==> after.committed.rows == c.committed.rows)
            && (!FailsEarly(c, embedder, fault) ==>
                  && !after.quarantined
                  && after.committed.rows == c.visible.rows[entry.id := Row(entry, Some(embedder.value.vector))]
                  && VectorsOf(after.committed) == VectorsOf(c.visible))
  {
    if embedder.Some? {
      EarlyExactly(c, entry, embedder.value, fault);
    }
  }

  /** What a read leaves: no row appears, disappears or changes but in the access time of those read, which only a
      refreshing read sets, and then commits. A read that fails without corruption commits nothing. */
  lemma ReadExactly(c: Conn, refresh: bool, read: set<Uuid>, now: real, fault: ReadFault, id: Uuid)
    requires !c.quarantined
    ensures var (after, ok) := ReadState(c, refresh, read, now, fault);
            && (fault.NoReadFault? ==> ok)
            && (ok && (!refresh || read == {}) ==> after == c)
            && (ok && refresh && read != {} ==>
                  && after.committed == after.visible && !after.open && !after.quarantined
                  && after.visible.index == c.visible.index && after.visible.pin == c.visible.pin
                  && (id in after.visible.rows <==> id in c.visible.rows)
                  && (id in c.visible.rows && id !in read ==> after.visible.rows[id] == c.visible.rows[id])
                  && (id in c.visible.rows && id in read ==>
                        && after.visible.rows[id].embedding == c.visible.rows[id].embedding
                        && after.visible.rows[id].entry == c.visible.rows[id].entry.(lastAccessedAt := now)))
            && (!ok ==> after.committed == c.committed)
  {
  }

  /** An undisturbed delete is committed. It touches nothing but its id; a hard one removes the row and its vector, a
      soft one marks the row archived; and where there is no row there is no change. A delete that fails commits
      nothing. */
  lemma DeleteExactly(c: Conn, id: Uuid, hard: bool, fault: EraseFault, other: Uuid)
    requires !c.quarantined
    ensures var (after, ok) := DeleteState(c, id, hard, fault);
            && (!ok ==> after.committed == c.committed)
            && (fault.NoEraseFault? ==> ok)
            && (ok ==>
                  && after.committed == after.visible && !after.open && !after.quarantined
                  && after.visible.pin == c.visible.pin
                  && (id !in c.visible.rows ==> after.visible == c.visible)
                  && (id in c.visible.rows && hard ==>
                        id !in after.visible.rows && id !in VectorsOf(after.visible))
                  && (id in c.visible.rows && !hard ==>
                        && id in after.visible.rows && after.visible.index == c.visible.index
                        && after.visible.rows[id].embedding == c.visible.rows[id].embedding
                        && after.visible.rows[id].entry == c.visible.rows[id].entry.(archived := true))
                  && (other != id ==>
                        && (other in after.visible.rows <==> other in c.visible.rows)
                        && (other in c.visible.rows ==> after.visible.rows[other] == c.visible.rows[other])
                        && (other in VectorsOf(after.visible) <==> other in VectorsOf(c.visible))
                        && (other in VectorsOf(c.visible) ==>
                              VectorsOf(after.visible)[other] == VectorsOf(c.visible)[other])))
  {
    assert Members([id]) == {id};
  }

  /** The index entry of an id is the embedding its row carries. */
  ghost predicate Agrees(db: Db, id: Uuid) {
    id in VectorsOf(db) ==> id in db.rows && db.rows[id].embedding == Some(VectorsOf(db)[id])
  }

  /** When a completed write leaves row and vector in agreement: always with an embedder; without one,
      exactly when the id had no vector yet or the entry still carries that very vector. Otherwise the
      index keeps answering with the vector of the replaced content. */
  lemma WriteAgreesExactly(c: Conn, entry: MemoryEntry, stored: Option<Vector>, embedder: Option<Embedder>,
                           fault: WriteFault)
    requires WriteReported(c, entry, stored, embedder, fault).Written?
    ensures Agrees(WriteState(c, entry, stored, embedder, fault).0.visible, entry.id)
            <==> (embedder.Some? || entry.id !in VectorsOf(c.visible) || stored == Some(VectorsOf(c.visible)[entry.id]))
  {
  }
}
