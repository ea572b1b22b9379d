/** A store-wide prune: every tier whose backend can prune does, and the reports are added up. */
module FederationPrune {
  import opened Options
  import opened MemoryTypes
  import opened StableSort
  import opened Router
  import opened SqliteStore
  import PruneTheorems

  /** The databases of the tiers that can prune. A tier without one is read-only. */
  type Databases = map<Tier, Conn>

  /** How one database goes through its prune: the order it lists active rows in, the order in which the
      victims come out of their set, and the statement that fails, if one does. */
  datatype Job = Job(order: seq<Uuid>, ids: seq<Uuid>, fault: EraseFault)

  type Jobs = map<Tier, Job>

  datatype FederatedReport = FederatedReport(scanned: nat, archived: nat, purged: nat, tiers: nat)

  datatype PruneOutcome = Pruned(report: FederatedReport) | PruneRaised

  ghost predicate JobFits(c: Conn, j: Job, policy: PrunePolicy) {
    && IsCapOrder(j.order, c.visible.rows)
    && IsListing(j.ids, Victims(c.visible.rows, j.order, policy))
  }

  ghost predicate JobsFit(dbs: Databases, jobs: Jobs, policy: PrunePolicy) {
    forall t :: t in dbs ==> t in jobs && JobFits(dbs[t], jobs[t], policy)
  }

  function PrunableTiers(tiers: seq<Tier>, dbs: Databases): seq<Tier> {
    if tiers == [] then []
    else
      var last := tiers[|tiers| - 1];
      PrunableTiers(tiers[..|tiers| - 1], dbs) + (if last in dbs then [last] else [])
  }

  function OnePruned(c: Conn, j: Job, policy: PrunePolicy): Conn {
    PruneConn(c, j.ids, policy.purge, j.fault).0
  }

  /** The prune of one tier raises. */
  predicate Raises(c: Conn, j: Job, policy: PrunePolicy) {
    !PruneConn(c, j.ids, policy.purge, j.fault).1
  }

  /** The databases once each of `tiers` has been through its prune. */
  function AllPruned(dbs: Databases, tiers: seq<Tier>, jobs: Jobs, policy: PrunePolicy): Databases {
    map t | t in dbs :: if t in tiers && t in jobs then OnePruned(dbs[t], jobs[t], policy) else dbs[t]
  }

  predicate AnyRaises(dbs: Databases, tiers: seq<Tier>, jobs: Jobs, policy: PrunePolicy) {
    exists t :: t in tiers && t in dbs && t in jobs && Raises(dbs[t], jobs[t], policy)
  }

  function AddReport(r: FederatedReport, p: PruneReport): FederatedReport {
    FederatedReport(r.scanned + p.scanned, r.archived + p.archived, r.purged + p.purged, r.tiers + 1)
  }

  function Total(dbs: Databases, tiers: seq<Tier>, jobs: Jobs, policy: PrunePolicy): FederatedReport {
    if tiers == [] then FederatedReport(0, 0, 0, 0)
    else
      var t := tiers[|tiers| - 1];
      var before := Total(dbs, tiers[..|tiers| - 1], jobs, policy);
      if t in dbs && t in jobs then AddReport(before, PruneReported(dbs[t].visible, jobs[t].order, policy)) else before
  }

  class FederatedStores {
    const router: MemoryRouter
    var dbs: Databases

    constructor (router: MemoryRouter, dbs: Databases)
      ensures this.router == router && this.dbs == dbs
    {
      this.router, this.dbs := router, dbs;
    }

    /** The prunes run side by side; one that raises makes the whole call raise, but undoes no other. */
    method Prune(policy: PrunePolicy, jobs: Jobs) returns (outcome: PruneOutcome)
      requires router.Valid() && JobsFit(dbs, jobs, policy)
      modifies this`dbs
      ensures var tiers := PrunableTiers(router.View().AllTiers(), old(dbs));
              && dbs == AllPruned(old(dbs), tiers, jobs, policy)
              && outcome == if AnyRaises(old(dbs), tiers, jobs, policy) then PruneRaised
                            else Pruned(Total(old(dbs), tiers, jobs, policy))
    {
      var all := router.AllTiers();
      var tiers := Prunable(all);
      AllTiersDistinct(router.View());
      PrunableExactly(all, dbs);
      outcome := PruneEach(tiers, policy, jobs);
    }

    /** The tiers that have a database to prune, in routing order. */
    method Prunable(all: seq<Tier>) returns (tiers: seq<Tier>)
      ensures tiers == PrunableTiers(all, dbs)
    {
      tiers := [];
      for i := 0 to |all|
        invariant tiers == PrunableTiers(all[..i], dbs)
      {
        assert all[..i + 1][..i] == all[..i];
        if all[i] in dbs {
          tiers := tiers + [all[i]];
        }
      }
      assert all[..|all|] == all;
    }

    method PruneEach(tiers: seq<Tier>, policy: PrunePolicy, jobs: Jobs) returns (outcome: PruneOutcome)
      requires Distinct(tiers) && JobsFit(dbs, jobs, policy) && forall t :: t in tiers ==> t in dbs
      modifies this`dbs
      ensures dbs == AllPruned(old(dbs), tiers, jobs, policy)
      ensures outcome == if AnyRaises(old(dbs), tiers, jobs, policy) then PruneRaised
                         else Pruned(Total(old(dbs), tiers, jobs, policy))
    {
      var report := FederatedReport(0, 0, 0, 0);
      var raised := false;
      NoTiersNoChange(dbs, jobs, policy);
      assert tiers[..0] == [];
      for i := 0 to |tiers|
        invariant dbs == AllPruned(old(dbs), tiers[..i], jobs, policy)
        invariant raised <==> AnyRaises(old(dbs), tiers[..i], jobs, policy)
        invariant !raised ==> report == Total(old(dbs), tiers[..i], jobs, policy)
      {
        var t := tiers[i];
        assert t in tiers && t !in tiers[..i];
        OneMoreTier(old(dbs), tiers, jobs, policy, i);
        var c, j := dbs[t], jobs[t];
        if Raises(c, j, policy) {
          raised := true;
        } else {
          report := AddReport(report, PruneReported(c.visible, j.order, policy));
        }
        dbs := dbs[t := OnePruned(c, j, policy)];
      }
      assert tiers[..|tiers|] == tiers;
      outcome := if raised then PruneRaised else Pruned(report);
    }
  }

  lemma NoTiersNoChange(dbs: Databases, jobs: Jobs, policy: PrunePolicy)
    ensures AllPruned(dbs, [], jobs, policy) == dbs
  {
  }

  lemma OneMoreTier(dbs: Databases, tiers: seq<Tier>, jobs: Jobs, policy: PrunePolicy, i: nat)
    requires i < |tiers| && tiers[i] in dbs && tiers[i] in jobs && tiers[i] !in tiers[..i]
    ensures var t, before := tiers[i], AllPruned(dbs, tiers[..i], jobs, policy);
            && before[t] == dbs[t]
            && AllPruned(dbs, tiers[..i + 1], jobs, policy) == before[t := OnePruned(dbs[t], jobs[t], policy)]
            && (AnyRaises(dbs, tiers[..i + 1], jobs, policy) <==>
                  AnyRaises(dbs, tiers[..i], jobs, policy) || Raises(dbs[t], jobs[t], policy))
            && Total(dbs, tiers[..i + 1], jobs, policy)
               == AddReport(Total(dbs, tiers[..i], jobs, policy), PruneReported(dbs[t].visible, jobs[t].order, policy))
  {
    var t := tiers[i];
    assert tiers[..i + 1] == tiers[..i] + [t] && tiers[..i + 1][..i] == tiers[..i];
    assert t in tiers[..i + 1];
  }

  lemma {:induction false} PrunableExactly(tiers: seq<Tier>, dbs: Databases)
    ensures forall t :: t in PrunableTiers(tiers, dbs) <==> t in tiers && t in dbs
    ensures Distinct(tiers) ==> Distinct(PrunableTiers(tiers, dbs))
  {
    if tiers != [] {
      var init, last := tiers[..|tiers| - 1], tiers[|tiers| - 1];
      PrunableExactly(init, dbs);
      assert tiers == init + [last];
      if Distinct(tiers) {
        assert last !in init;
      }
    }
  }

  // ---------------------------------------------------------------------------
  // What a store-wide prune does
  // ---------------------------------------------------------------------------

  /** All the rows the connections of the given tiers see, and those of them still active. */
  function RowCount(dbs: Databases, tiers: seq<Tier>): nat {
    if tiers == [] then 0
    else
      var t := tiers[|tiers| - 1];
      RowCount(dbs, tiers[..|tiers| - 1]) + (if t in dbs then |dbs[t].visible.rows| else 0)
  }

  function ActiveCount(dbs: Databases, tiers: seq<Tier>): nat {
    if tiers == [] then 0
    else
      var t := tiers[|tiers| - 1];
      ActiveCount(dbs, tiers[..|tiers| - 1]) + (if t in dbs then |Active(dbs[t].visible.rows)| else 0)
  }

  lemma OneTierAddsUp(db: Db, order: seq<Uuid>, policy: PrunePolicy)
    requires IsCapOrder(order, db.rows)
    ensures var r, after := PruneReported(db, order, policy), PruneState(db, order, policy);
            && r.scanned == |Active(db.rows)|
            && |after.rows| == |db.rows| - r.purged
            && (!policy.purge ==> |Active(after.rows)| == r.scanned - r.archived)
  {
    if policy.purge {
      PruneTheorems.PurgeReportAddsUp(db, order, policy);
    } else {
      PruneTheorems.ArchiveReportAddsUp(db, order, policy);
      assert |PruneState(db, order, policy).rows| == |PruneState(db, order, policy).rows.Keys|;
      assert |db.rows| == |db.rows.Keys|;
    }
  }

  /** Every tier of the list has been through its own prune. */
  ghost predicate EachPruned(dbs: Databases, after: Databases, tiers: seq<Tier>, jobs: Jobs, policy: PrunePolicy) {
    && JobsFit(dbs, jobs, policy) && dbs.Keys == after.Keys
    && (forall t :: t in tiers ==> t in dbs && after[t].visible == PruneState(dbs[t].visible, jobs[t].order, policy))
  }

  lemma {:induction false} RowsAddUp(dbs: Databases, after: Databases, tiers: seq<Tier>, jobs: Jobs,
                                     policy: PrunePolicy)
    requires EachPruned(dbs, after, tiers, jobs, policy)
    ensures RowCount(after, tiers) == RowCount(dbs, tiers) - Total(dbs, tiers, jobs, policy).purged
  {
    if tiers != [] {
      var init, t := tiers[..|tiers| - 1], tiers[|tiers| - 1];
      assert t in tiers && forall x :: x in init ==> x in tiers;
      RowsAddUp(dbs, after, init, jobs, policy);
      OneTierAddsUp(dbs[t].visible, jobs[t].order, policy);
    }
  }

  lemma {:induction false} ScannedAddsUp(dbs: Databases, tiers: seq<Tier>, jobs: Jobs, policy: PrunePolicy)
    requires JobsFit(dbs, jobs, policy) && forall t :: t in tiers ==> t in dbs
    ensures var total := Total(dbs, tiers, jobs, policy);
            total.tiers == |tiers| && total.scanned == ActiveCount(dbs, tiers)
  {
    if tiers != [] {
      var init, t := tiers[..|tiers| - 1], tiers[|tiers| - 1];
      assert t in tiers && forall x :: x in init ==> x in tiers;
      ScannedAddsUp(dbs, init, jobs, policy);
      OneTierAddsUp(dbs[t].visible, jobs[t].order, policy);
    }
  }

  lemma {:induction false} ActivesAddUp(dbs: Databases, after: Databases, tiers: seq<Tier>, jobs: Jobs,
                                        policy: PrunePolicy)
    requires EachPruned(dbs, after, tiers, jobs, policy) && !policy.purge
    ensures ActiveCount(after, tiers) == ActiveCount(dbs, tiers) - Total(dbs, tiers, jobs, policy).archived
  {
    if tiers != [] {
      var init, t := tiers[..|tiers| - 1], tiers[|tiers| - 1];
      assert t in tiers && forall x :: x in init ==> x in tiers;
      ActivesAddUp(dbs, after, init, jobs, policy);
      OneTierAddsUp(dbs[t].visible, jobs[t].order, policy);
    }
  }

  lemma CompletedTier(dbs: Databases, tiers: seq<Tier>, jobs: Jobs, policy: PrunePolicy, t: Tier)
    requires JobsFit(dbs, jobs, policy) && !AnyRaises(dbs, tiers, jobs, policy) && t in tiers && t in dbs
    ensures var db := PruneState(dbs[t].visible, jobs[t].order, policy);
            AllPruned(dbs, tiers, jobs, policy)[t] == Conn(db, db, false, false)
  {
    assert !Raises(dbs[t], jobs[t], policy);
    PruneTheorems.PruneCompletesExactly(dbs[t], jobs[t].order, jobs[t].ids, policy, jobs[t].fault);
  }

  /** The report of a store-wide prune that completes adds up over the whole store, whatever transactions were left
      open before: it counts the active rows the connections saw, the rows that are gone, and the rows that were
      archived instead; and what they see now is committed. */
  lemma FederatedReportAddsUp(dbs: Databases, top: Topology, jobs: Jobs, policy: PrunePolicy)
    requires JobsFit(dbs, jobs, policy) && !AnyRaises(dbs, PrunableTiers(top.AllTiers(), dbs), jobs, policy)
    ensures var tiers := PrunableTiers(top.AllTiers(), dbs);
            var total := Total(dbs, tiers, jobs, policy);
            var after := AllPruned(dbs, tiers, jobs, policy);
            && total.tiers == |tiers|
            && total.scanned == ActiveCount(dbs, tiers)
            && RowCount(after, tiers) == RowCount(dbs, tiers) - total.purged
            && (!policy.purge ==> ActiveCount(after, tiers) == ActiveCount(dbs, tiers) - total.archived)
            && (forall t :: t in tiers ==> t in after && after[t].visible == after[t].committed)
  {
    var tiers := PrunableTiers(top.AllTiers(), dbs);
    var after := AllPruned(dbs, tiers, jobs, policy);
    PrunableExactly(top.AllTiers(), dbs);
    forall t | t in tiers
      ensures after[t].visible == after[t].committed == PruneState(dbs[t].visible, jobs[t].order, policy)
    {
      CompletedTier(dbs, tiers, jobs, policy, t);
    }
    RowsAddUp(dbs, after, tiers, jobs, policy);
    ScannedAddsUp(dbs, tiers, jobs, policy);
    if !policy.purge {
      ActivesAddUp(dbs, after, tiers, jobs, policy);
    }
  }

  /** One tier of a store-wide prune. A tier that raises has committed nothing. While its connection stays open
      no pinned row and no other row but a victim changes in its view, and the victims are gone or archived there
      exactly if their one statement went through. */
  lemma FederatedPruneTouchesOnlyVictims(dbs: Databases, tiers: seq<Tier>, jobs: Jobs, policy: PrunePolicy, t: Tier,
                                         id: Uuid)
    requires JobsFit(dbs, jobs, policy) && t in dbs && !dbs[t].quarantined && id in dbs[t].visible.rows
    ensures var c, j, after := dbs[t], jobs[t], AllPruned(dbs, tiers, jobs, policy)[t];
            && (t !in tiers ==> after == c)
            && (t in tiers && Raises(c, j, policy) ==>
                  && after.committed == c.committed
                  && (after.quarantined ==> after.visible == c.committed)
                  && (!after.quarantined ==> (after.visible == c.visible <==> !PruneTheorems.RowsGone(j.ids, j.fault))))
            && (c.visible.rows[id].entry.pinned || id !in Victims(c.visible.rows, j.order, policy) ==>
                  after.quarantined || (id in after.visible.rows && after.visible.rows[id] == c.visible.rows[id]))
  {
    var c, j := dbs[t], jobs[t];
    PruneTheorems.PruneTouchesOnlyVictims(c.visible, j.order, policy, id);
    if Raises(c, j, policy) {
      PruneTheorems.FailedPruneExactly(c, j.order, j.ids, policy, j.fault);
    } else {
      PruneTheorems.PruneCompletesExactly(c, j.order, j.ids, policy, j.fault);
    }
  }

  lemma {:induction false} NothingToReport(dbs: Databases, tiers: seq<Tier>, jobs: Jobs, policy: PrunePolicy)
    requires forall t :: t in tiers && t in dbs && t in jobs ==>
               Victims(dbs[t].visible.rows, jobs[t].order, policy) == {}
    ensures Total(dbs, tiers, jobs, policy).archived == 0 && Total(dbs, tiers, jobs, policy).purged == 0
  {
    if tiers != [] {
      assert tiers[|tiers| - 1] in tiers && forall x :: x in tiers[..|tiers| - 1] ==> x in tiers;
      NothingToReport(dbs, tiers[..|tiers| - 1], jobs, policy);
    }
  }

  /** After a store-wide prune that completed, a second one by the same policy changes no table, failing or
      not, and reports nothing removed. */
  lemma SecondFederatedPruneIsIdle(dbs: Databases, tiers: seq<Tier>, jobs: Jobs, again: Jobs, policy: PrunePolicy)
    requires JobsFit(dbs, jobs, policy) && !AnyRaises(dbs, tiers, jobs, policy)
    requires JobsFit(AllPruned(dbs, tiers, jobs, policy), again, policy)
    ensures var after := AllPruned(dbs, tiers, jobs, policy);
            && (forall t :: t in tiers && t in dbs ==> SameTables(AllPruned(after, tiers, again, policy)[t], after[t]))
            && Total(after, tiers, again, policy).archived == 0
            && Total(after, tiers, again, policy).purged == 0
  {
    var after := AllPruned(dbs, tiers, jobs, policy);
    forall t | t in tiers && t in dbs
      ensures SameTables(AllPruned(after, tiers, again, policy)[t], after[t])
      ensures Victims(after[t].visible.rows, again[t].order, policy) == {}
    {
      TierIsIdle(dbs, tiers, jobs, again, policy, t);
    }
    NothingToReport(after, tiers, again, policy);
  }

  predicate SameTables(a: Conn, b: Conn) {
    a.visible == b.visible && a.committed == b.committed
  }

  lemma TierIsIdle(dbs: Databases, tiers: seq<Tier>, jobs: Jobs, again: Jobs, policy: PrunePolicy, t: Tier)
    requires JobsFit(dbs, jobs, policy) && !AnyRaises(dbs, tiers, jobs, policy)
    requires JobsFit(AllPruned(dbs, tiers, jobs, policy), again, policy)
    requires t in tiers && t in dbs
    ensures var after := AllPruned(dbs, tiers, jobs, policy);
            && SameTables(AllPruned(after, tiers, again, policy)[t], after[t])
            && Victims(after[t].visible.rows, again[t].order, policy) == {}
  {
    var c := AllPruned(dbs, tiers, jobs, policy)[t];
    CompletedTier(dbs, tiers, jobs, policy, t);
    assert JobFits(c, again[t], policy);
    PruneTheorems.SecondPruneIsIdle(dbs[t].visible, jobs[t].order, again[t].order, policy);
    NoVictimsOnlyCommit(c, again[t], policy);
  }

  lemma NoVictimsOnlyCommit(c: Conn, j: Job, policy: PrunePolicy)
    requires JobFits(c, j, policy) && Victims(c.visible.rows, j.order, policy) == {} && c.visible == c.committed
    ensures SameTables(OnePruned(c, j, policy), c)
  {
    NoMembers(j.ids);
  }

  lemma NoMembers<T>(s: seq<T>)
    ensures s == [] <==> Members(s) == {}
  {
    assert s != [] ==> s[0] in Members(s);
  }

  lemma PurgeTakesBelowFloor(c: Conn, j: Job, policy: PrunePolicy, floor: real, id: Uuid)
    requires JobFits(c, j, policy) && !Raises(c, j, policy)
    requires policy.purge && policy.minImportance == Some(floor)
    requires id in c.visible.rows && !c.visible.rows[id].entry.pinned && c.visible.rows[id].entry.importance < floor
    ensures id !in OnePruned(c, j, policy).committed.rows
  {
    PruneTheorems.PruneCompletesExactly(c, j.order, j.ids, policy, j.fault);
    assert id in Victims(c.visible.rows, j.order, policy);
  }

  lemma GlobalIsPrunable(dbs: Databases, top: Topology)
    requires top.hasGlobal && GLOBAL_TIER in dbs
    ensures GLOBAL_TIER in PrunableTiers(top.AllTiers(), dbs)
  {
    assert top.AllTiers()[|top.AllTiers()| - 1] == GLOBAL_TIER;
    PrunableExactly(top.AllTiers(), dbs);
  }

  /** A prune does reach GLOBAL, where a delete by id is refused: an unpinned GLOBAL row below the floor goes. */
  lemma PruneReachesGlobal(dbs: Databases, top: Topology, jobs: Jobs, policy: PrunePolicy, floor: real, id: Uuid)
    requires top.hasGlobal && GLOBAL_TIER in dbs && JobsFit(dbs, jobs, policy)
    requires !Raises(dbs[GLOBAL_TIER], jobs[GLOBAL_TIER], policy)
    requires policy.purge && policy.minImportance == Some(floor)
    requires var rows := dbs[GLOBAL_TIER].visible.rows;
             id in rows && !rows[id].entry.pinned && rows[id].entry.importance < floor
    ensures id !in AllPruned(dbs, PrunableTiers(top.AllTiers(), dbs), jobs, policy)[GLOBAL_TIER].committed.rows
  {
    GlobalIsPrunable(dbs, top);
    PurgeTakesBelowFloor(dbs[GLOBAL_TIER], jobs[GLOBAL_TIER], policy, floor, id);
  }
}
