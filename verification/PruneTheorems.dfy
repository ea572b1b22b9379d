/** What a prune leaves behind, when nothing disturbs it and when it fails. */
module PruneTheorems {
  import opened Options
  import opened MemoryTypes
  import opened Sets
  import opened StableSort
  import opened SqliteStore

  /** Victims are non-pinned rows of the table. */
  lemma VictimsAreRows(rows: Rows, order: seq<Uuid>, policy: PrunePolicy)
    requires IsCapOrder(order, rows)
    ensures forall id :: id in Victims(rows, order, policy) ==> id in rows && !rows[id].entry.pinned
  {
    forall id | id in CapVictims(order, policy)
      ensures id in Active(rows)
    {
      assert id in order;
    }
  }

  /** No pinned row is touched, every other row outside the victim set is untouched too, and the victims
      are gone or archived. */
  lemma PruneTouchesOnlyVictims(db: Db, order: seq<Uuid>, policy: PrunePolicy, id: Uuid)
    requires IsCapOrder(order, db.rows) && id in db.rows
    ensures var after := PruneState(db, order, policy);
            if id in Victims(db.rows, order, policy) then
              && !db.rows[id].entry.pinned
              && (if policy.purge then id !in after.rows
                  else id in after.rows && after.rows[id] == Archive(db.rows[id]))
            else id in after.rows && after.rows[id] == db.rows[id]
  {
    VictimsAreRows(db.rows, order, policy);
  }

  /** Which active rows stay active: exactly those that meet the floor and rank inside the cap. */
  lemma SurvivorsExactly(db: Db, order: seq<Uuid>, policy: PrunePolicy, id: Uuid)
    requires IsCapOrder(order, db.rows)
    ensures id in Active(PruneState(db, order, policy).rows)
            <==> (&& id in Active(db.rows)
                  && (policy.minImportance.Some? ==> db.rows[id].entry.importance >= policy.minImportance.value)
                  && (policy.maxEntries.Some? ==> id in Slice(order, Offset(policy.maxEntries.value))))
  {
    if id in Active(db.rows) {
      PruneTouchesOnlyVictims(db, order, policy, id);
      assert id in order;
      if policy.maxEntries.Some? {
        SplitAtCap(order, policy.maxEntries.value, id);
      }
    }
  }

  lemma SplitAtCap(order: seq<Uuid>, cap: int, id: Uuid)
    requires Distinct(order) && id in order
    ensures id in OverCap(order, cap) <==> id !in Slice(order, Offset(cap))
  {
    if Offset(cap) <= |order| {
      SplitDistinct(order, Offset(cap), id);
    }
  }

  lemma SplitDistinct<T>(s: seq<T>, n: nat, x: T)
    requires Distinct(s) && x in s && n <= |s|
    ensures x in s[n..] <==> x !in s[..n]
  {
    var m :| 0 <= m < |s| && s[m] == x;
    if m < n {
      assert s[..n][m] == x;
      forall j | 0 <= j < |s[n..]|
        ensures s[n..][j] != x
      {
        assert s[n..][j] == s[n + j];
      }
    } else {
      assert s[n..][m - n] == x;
    }
  }

  /** The cap bounds the live store. */
  lemma CapHolds(db: Db, order: seq<Uuid>, policy: PrunePolicy)
    requires IsCapOrder(order, db.rows) && policy.maxEntries.Some?
    ensures |Active(PruneState(db, order, policy).rows)| <= Offset(policy.maxEntries.value)
  {
    var kept := Slice(order, Offset(policy.maxEntries.value));
    var keptSet := set id | id in kept;
    forall id | id in Active(PruneState(db, order, policy).rows)
      ensures id in keptSet
    {
      SurvivorsExactly(db, order, policy, id);
    }
    SubsetSize(Active(PruneState(db, order, policy).rows), keptSet);
    SetOfSeqSize(kept);
  }

  /** Every row the cap removes ranks no higher than every row that stays active. */
  lemma CapRemovesTheLowest(db: Db, order: seq<Uuid>, policy: PrunePolicy, gone: Uuid, kept: Uuid)
    requires IsCapOrder(order, db.rows) && policy.maxEntries.Some?
    requires gone in CapVictims(order, policy)
    requires kept in Active(PruneState(db, order, policy).rows)
    ensures gone in db.rows && kept in db.rows
    ensures var g, k := db.rows[gone].entry, db.rows[kept].entry;
            || g.importance < k.importance
            || (g.importance == k.importance && g.lastAccessedAt <= k.lastAccessedAt)
  {
    SurvivorsExactly(db, order, policy, kept);
    var cap := Offset(policy.maxEntries.value);
    var i :| 0 <= i < |Slice(order, cap)| && Slice(order, cap)[i] == kept;
    var over := OverCap(order, policy.maxEntries.value);
    var j :| 0 <= j < |over| && over[j] == gone;
    assert order[i] == kept && order[cap + j] == gone && i < cap;
    assert gone in order && kept in order;
  }

  /** The live rows that rank strictly above an entry, by importance and then by recency. */
  function LiveAbove(rows: Rows, e: MemoryEntry): set<Uuid> {
    set i | i in rows && !rows[i].entry.pinned && !rows[i].entry.archived
            && (rows[i].entry.importance > e.importance
                || (rows[i].entry.importance == e.importance && rows[i].entry.lastAccessedAt > e.lastAccessedAt))
  }

  /** The other live rows that rank above it or tie with it. */
  function LiveNotUnder(rows: Rows, id: Uuid, e: MemoryEntry): set<Uuid> {
    set i | i in rows && i != id && !rows[i].entry.pinned && !rows[i].entry.archived
            && (rows[i].entry.importance > e.importance
                || (rows[i].entry.importance == e.importance && rows[i].entry.lastAccessedAt >= e.lastAccessedAt))
  }

  /** A row's place in the listing lies between the two counts, whichever way ties are listed. */
  lemma PlaceInOrder(rows: Rows, order: seq<Uuid>, at: nat)
    requires IsCapOrder(order, rows) && at < |order| && order[at] in rows
    ensures |LiveAbove(rows, rows[order[at]].entry)| <= at <= |LiveNotUnder(rows, order[at], rows[order[at]].entry)|
  {
    var id, ahead := order[at], set i | i in order[..at];
    var e := rows[id].entry;
    forall i | i in LiveAbove(rows, e)
      ensures i in ahead
    {
      assert i in Active(rows);
      var m :| 0 <= m < |order| && order[m] == i;
      assert m < at;
      assert order[..at][m] == i;
    }
    forall i | i in ahead
      ensures i in LiveNotUnder(rows, id, e)
    {
      var m :| 0 <= m < at && order[m] == i;
      assert i in order && order[m] in rows && !Better(rows[order[at]], rows[order[m]]);
    }
    SetOfSeqSize(order[..at]);
    SubsetSize(LiveAbove(rows, e), ahead);
    SubsetSize(ahead, LiveNotUnder(rows, id, e));
  }

  /** The cap's victims among the rows it counts, without the listing: a row goes if as many as the cap allows rank
      above it, and stays if fewer than that even tie with it. Between the two the listing of the ties decides. */
  lemma CapExactly(rows: Rows, order: seq<Uuid>, policy: PrunePolicy, id: Uuid)
    requires IsCapOrder(order, rows) && id in rows && policy.maxEntries.Some?
    ensures rows[id].entry.pinned || rows[id].entry.archived ==> id !in CapVictims(order, policy)
    ensures !rows[id].entry.pinned && !rows[id].entry.archived ==>
              && (policy.maxEntries.value <= |LiveAbove(rows, rows[id].entry)| ==> id in CapVictims(order, policy))
              && (|LiveNotUnder(rows, id, rows[id].entry)| < policy.maxEntries.value ==>
                    id !in CapVictims(order, policy))
  {
    if id in order {
      var at :| 0 <= at < |order| && order[at] == id;
      PlaceInOrder(rows, order, at);
      AtCap(order, policy.maxEntries.value, at);
    } else {
      assert id !in Active(rows);
      assert id in CapVictims(order, policy) ==> id in order;
    }
  }

  lemma AtCap(order: seq<Uuid>, cap: int, at: nat)
    requires Distinct(order) && at < |order|
    ensures order[at] in OverCap(order, cap) <==> cap <= at
  {
    SplitAtCap(order, cap, order[at]);
    if cap <= at {
      assert OverCap(order, cap)[at - Offset(cap)] == order[at];
    } else {
      assert Slice(order, Offset(cap))[at] == order[at];
    }
  }

  /** The row is untouched. */
  predicate Stays(db: Db, after: Db, id: Uuid) {
    && id in db.rows && id in after.rows && after.rows[id] == db.rows[id]
    && (id in VectorsOf(after) <==> id in VectorsOf(db))
  }

  /** The row is deleted with its vector, or only marked. */
  predicate Goes(db: Db, after: Db, id: Uuid, purge: bool) {
    && id in db.rows
    && if purge then id !in after.rows && id !in VectorsOf(after)
       else
         && id in after.rows && after.rows[id].embedding == db.rows[id].embedding
         && after.rows[id].entry == db.rows[id].entry.(archived := true)
         && (id in VectorsOf(after) <==> id in VectorsOf(db))
  }

  /** What a prune makes of every row. A pinned row stays. One below the floor goes, an archived one only in a purge.
      Of the live rows that meet the floor, one goes if as many as the cap allows rank above it and stays if fewer
      even tie with it; without a cap they stay. An archived row the floor does not reach stays. */
  lemma PruneExactly(db: Db, order: seq<Uuid>, policy: PrunePolicy, id: Uuid)
    requires IsCapOrder(order, db.rows) && id in db.rows
    ensures var after, e, cap := PruneState(db, order, policy), db.rows[id].entry, policy.maxEntries;
            var low := && policy.minImportance.Some? && e.importance < policy.minImportance.value
                       && (policy.purge || !e.archived);
            && (e.pinned ==> Stays(db, after, id))
            && (!e.pinned && low ==> Goes(db, after, id, policy.purge))
            && (!low && (e.archived || cap.None?) ==> Stays(db, after, id))
            && (!e.pinned && !e.archived && cap.Some? && cap.value <= |LiveAbove(db.rows, e)| ==>
                  Goes(db, after, id, policy.purge))
            && (!low && cap.Some? && |LiveNotUnder(db.rows, id, e)| < cap.value ==> Stays(db, after, id))
  {
    PruneTouchesOnlyVictims(db, order, policy, id);
    if policy.maxEntries.Some? {
      CapExactly(db.rows, order, policy, id);
    }
    VectorsAfterPrune(db, order, policy, id);
  }

  lemma VectorsAfterPrune(db: Db, order: seq<Uuid>, policy: PrunePolicy, id: Uuid)
    ensures id in VectorsOf(PruneState(db, order, policy))
            <==> id in VectorsOf(db) && !(policy.purge && id in Victims(db.rows, order, policy))
  {
  }

  lemma ArchiveVictimsAreActive(rows: Rows, order: seq<Uuid>, policy: PrunePolicy)
    requires IsCapOrder(order, rows) && !policy.purge
    ensures Victims(rows, order, policy) <= Active(rows)
  {
    forall id | id in Victims(rows, order, policy)
      ensures id in Active(rows)
    {
      assert id in CapVictims(order, policy) ==> id in order;
    }
  }

  /** A purge's report adds up: `purged` rows are gone, none is reported archived. */
  lemma PurgeReportAddsUp(db: Db, order: seq<Uuid>, policy: PrunePolicy)
    requires IsCapOrder(order, db.rows) && policy.purge
    ensures var report := PruneReported(db, order, policy);
            && report == PruneReport(|Active(db.rows)|, 0, |Victims(db.rows, order, policy)|)
            && PruneState(db, order, policy).rows == db.rows - Victims(db.rows, order, policy)
            && |db.rows - Victims(db.rows, order, policy)| == |db.rows| - report.purged
  {
    VictimsInTable(db.rows, order, policy);
    PurgeCounts(db, order, policy);
  }

  lemma PurgeCounts(db: Db, order: seq<Uuid>, policy: PrunePolicy)
    requires policy.purge && Victims(db.rows, order, policy) <= db.rows.Keys
    ensures PruneState(db, order, policy).rows == db.rows - Victims(db.rows, order, policy)
    ensures |db.rows - Victims(db.rows, order, policy)| == |db.rows| - PruneReported(db, order, policy).purged
  {
    RemovedCount(db.rows, Victims(db.rows, order, policy));
  }

  lemma VictimsInTable(rows: Rows, order: seq<Uuid>, policy: PrunePolicy)
    requires IsCapOrder(order, rows)
    ensures Victims(rows, order, policy) <= rows.Keys
  {
    forall id | id in Victims(rows, order, policy)
      ensures id in rows.Keys
    {
      assert id in CapVictims(order, policy) ==> id in order;
    }
  }

  /** An archiving prune's report adds up: `archived` of the `scanned` active rows stopped being active,
      and no row is gone. */
  lemma ArchiveReportAddsUp(db: Db, order: seq<Uuid>, policy: PrunePolicy)
    requires IsCapOrder(order, db.rows) && !policy.purge
    ensures var report := PruneReported(db, order, policy);
            && report == PruneReport(|Active(db.rows)|, |Victims(db.rows, order, policy)|, 0)
            && |Active(PruneState(db, order, policy).rows)| == report.scanned - report.archived
            && PruneState(db, order, policy).rows.Keys == db.rows.Keys
  {
    ArchiveVictimsAreActive(db.rows, order, policy);
    ArchivedCount(db, Victims(db.rows, order, policy));
  }

  lemma RemovedCount(rows: Rows, victims: set<Uuid>)
    requires victims <= rows.Keys
    ensures |rows - victims| == |rows| - |victims|
  {
    assert rows.Keys == (rows - victims).Keys + victims;
    assert |rows - victims| == |(rows - victims).Keys| && |rows| == |rows.Keys|;
  }

  lemma ArchivedCount(db: Db, victims: set<Uuid>)
    requires victims <= Active(db.rows)
    ensures |Active(ArchiveState(db, victims).rows)| == |Active(db.rows)| - |victims|
  {
    var after := ArchiveState(db, victims);
    forall id
      ensures id in Active(after.rows) <==> id in Active(db.rows) && id !in victims
    {
    }
    assert Active(db.rows) == Active(after.rows) + victims;
  }

  /** Idempotence: pruning again by the same policy, in any order the database may list rows, finds no
      victim and changes nothing. */
  lemma SecondPruneIsIdle(db: Db, order: seq<Uuid>, order2: seq<Uuid>, policy: PrunePolicy)
    requires IsCapOrder(order, db.rows)
    requires IsCapOrder(order2, PruneState(db, order, policy).rows)
    ensures var after := PruneState(db, order, policy);
            && Victims(after.rows, order2, policy) == {}
            && PruneState(after, order2, policy) == after
            && PruneReported(after, order2, policy) == PruneReport(|Active(after.rows)|, 0, 0)
  {
    var after := PruneState(db, order, policy);
    forall id
      ensures id !in FloorVictims(after.rows, policy)
    {
      FloorVictimsGone(db, order, policy, id);
    }
    assert FloorVictims(after.rows, policy) == {};
    CapVictimsGone(db, order, order2, policy);
    NoVictimsNoChange(after, order2, policy);
  }

  lemma CapVictimsGone(db: Db, order: seq<Uuid>, order2: seq<Uuid>, policy: PrunePolicy)
    requires IsCapOrder(order, db.rows)
    requires IsCapOrder(order2, PruneState(db, order, policy).rows)
    ensures CapVictims(order2, policy) == {}
  {
    if policy.maxEntries.Some? {
      CapHolds(db, order, policy);
      SetOfSeqSize(order2);
      OrderIsActive(order2, PruneState(db, order, policy).rows);
    }
  }

  lemma OrderIsActive(order: seq<Uuid>, rows: Rows)
    requires IsCapOrder(order, rows)
    ensures (set id | id in order) == Active(rows)
  {
    forall id
      ensures id in (set x | x in order) <==> id in Active(rows)
    {
      assert id in order <==> id in Active(rows);
    }
  }

  lemma FloorVictimsGone(db: Db, order: seq<Uuid>, policy: PrunePolicy, id: Uuid)
    requires IsCapOrder(order, db.rows)
    ensures id !in FloorVictims(PruneState(db, order, policy).rows, policy)
  {
    if id in db.rows {
      PruneTouchesOnlyVictims(db, order, policy, id);
    }
  }

  lemma NoVictimsNoChange(db: Db, order: seq<Uuid>, policy: PrunePolicy)
    requires Victims(db.rows, order, policy) == {}
    ensures PruneState(db, order, policy) == db
  {
    if policy.purge {
      assert db.rows - {} == db.rows;
      assert VectorsOf(db) - {} == VectorsOf(db);
    } else {
      assert ArchiveState(db, {}).rows == db.rows;
    }
  }

  // ---------------------------------------------------------------------------
  // When a prune fails
  // ---------------------------------------------------------------------------

  /** The fault is one the prune gets to. */
  predicate Reached(c: Conn, ids: seq<Uuid>, purge: bool, fault: EraseFault) {
    match fault
    case NoEraseFault => false
    case ReadFails(_) => true
    case RowsFail(_) => ids != []
    case ProbeFails(_) => ids != [] && purge
    case VectorFails(n, _) => purge && c.visible.index.Some? && n < |ids|
    case CommitFails(_) => true
  }

  /** The row statement went through, so the victims are already gone or archived. */
  predicate RowsGone(ids: seq<Uuid>, fault: EraseFault) {
    ids != [] && !fault.ReadFails? && !fault.RowsFail?
  }

  lemma EraseCompletes(c: Conn, ids: seq<Uuid>, purge: bool, fault: EraseFault)
    requires ids != [] && !fault.ReadFails?
    ensures var (after, ok) := Erase(c, ids, purge, fault);
            && (ok <==> !Reached(c, ids, purge, fault))
            && (ok ==> after == Committed(Changed(c, if purge then PurgeState(c.visible, Members(ids))
                                                     else ArchiveState(c.visible, Members(ids)))))
  {
  }

  /** A prune completes if and only if its store is not quarantined and it reaches no fault; and then what it
      makes of the tables is committed. */
  lemma PruneCompletesExactly(c: Conn, order: seq<Uuid>, ids: seq<Uuid>, policy: PrunePolicy, fault: EraseFault)
    requires IsListing(ids, Victims(c.visible.rows, order, policy))
    ensures var (after, ok) := PruneConn(c, ids, policy.purge, fault);
            && (ok <==> !c.quarantined && !Reached(c, ids, policy.purge, fault))
            && (ok ==>
                  var db := PruneState(c.visible, order, policy);
                  after == Conn(db, db, false, false))
  {
    if !c.quarantined && !fault.ReadFails? {
      if ids == [] {
        assert Members(ids) == {};
        NoVictimsNoChange(c.visible, order, policy);
      } else {
        EraseCompletes(c, ids, policy.purge, fault);
      }
    }
  }

  /** What the rows are after a failed prune whose connection is still open. */
  lemma FailedEraseRows(c: Conn, ids: seq<Uuid>, purge: bool, fault: EraseFault)
    requires ids != [] && !Erase(c, ids, purge, fault).1 && !Erase(c, ids, purge, fault).0.quarantined
    ensures var after := Erase(c, ids, purge, fault).0;
            && after.committed == c.committed && after.open
            && (fault.RowsFail? ==> after.visible == c.visible)
            && (!fault.RowsFail? ==>
                  after.visible.rows == if purge then c.visible.rows - Members(ids)
                                        else ArchiveState(c.visible, Members(ids)).rows)
  {
  }

  /** A failed prune commits nothing. If it was corruption the connection is back at what was committed.
      Otherwise nothing is rolled back: no pinned row and no other row but a victim is touched, the victims are
      already gone, or archived, exactly if their one statement went through, and the tables are as they were
      exactly if it did not. */
  lemma FailedPruneExactly(c: Conn, order: seq<Uuid>, ids: seq<Uuid>, policy: PrunePolicy, fault: EraseFault)
    requires !c.quarantined && IsCapOrder(order, c.visible.rows)
    requires IsListing(ids, Victims(c.visible.rows, order, policy))
    requires !PruneConn(c, ids, policy.purge, fault).1
    ensures var after := PruneConn(c, ids, policy.purge, fault).0;
            && after.committed == c.committed
            && (after.quarantined ==> after.visible == c.committed)
            && (!after.quarantined ==>
                  && after.visible.rows == (if RowsGone(ids, fault) then PruneState(c.visible, order, policy).rows
                                            else c.visible.rows)
                  && (after.visible == c.visible <==> !RowsGone(ids, fault)))
  {
    var after := PruneConn(c, ids, policy.purge, fault).0;
    if !fault.ReadFails? && ids != [] {
      FailedEraseKeepsCommitted(c, ids, policy.purge, fault);
      if !after.quarantined {
        FailedEraseRows(c, ids, policy.purge, fault);
        VictimsChange(c.visible, order, ids, policy);
      }
    }
  }

  lemma FailedEraseKeepsCommitted(c: Conn, ids: seq<Uuid>, purge: bool, fault: EraseFault)
    requires !c.quarantined && !Erase(c, ids, purge, fault).1
    ensures var after := Erase(c, ids, purge, fault).0;
            after.committed == c.committed && (after.quarantined ==> after.visible == c.committed)
  {
  }

  lemma VictimsChange(db: Db, order: seq<Uuid>, ids: seq<Uuid>, policy: PrunePolicy)
    requires IsCapOrder(order, db.rows) && ids != [] && IsListing(ids, Victims(db.rows, order, policy))
    ensures PruneState(db, order, policy).rows != db.rows
  {
    var id := ids[0];
    assert id in Members(ids);
    VictimsAreRows(db.rows, order, policy);
    PruneTouchesOnlyVictims(db, order, policy, id);
    if !policy.purge {
      ArchiveVictimsAreActive(db.rows, order, policy);
    }
  }

  /** What a failed purge took from the connection's view is committed by the next write that succeeds. */
  lemma NextWriteCommitsTheRest(c: Conn, order: seq<Uuid>, ids: seq<Uuid>, policy: PrunePolicy, fault: EraseFault,
                                entry: MemoryEntry, stored: Option<Vector>, victim: Uuid)
    requires !c.quarantined && IsCapOrder(order, c.visible.rows)
    requires IsListing(ids, Victims(c.visible.rows, order, policy)) && policy.purge
    requires !PruneConn(c, ids, policy.purge, fault).1 && RowsGone(ids, fault)
    requires !PruneConn(c, ids, policy.purge, fault).0.quarantined
    requires victim in ids && victim != entry.id
    ensures var failed := PruneConn(c, ids, policy.purge, fault).0;
            victim !in WriteState(failed, entry, stored, None, NoWriteFault).0.committed.rows
  {
    FailedPruneExactly(c, order, ids, policy, fault);
    assert victim in Members(ids);
    assert victim !in PruneState(c.visible, order, policy).rows;
  }
}
