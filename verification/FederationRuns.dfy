/** What holds over whole runs of federation writes and deletes, with any tier failing at any time. */
module FederationRuns {
  import opened Options
  import opened MemoryTypes
  import opened Router
  import opened Federation
  import StableSort

  datatype Op =
    | WriteOp(entry: MemoryEntry, legs: WriteLegs)
    | ForgetOp(id: Uuid, hard: bool, fault: ForgetFault)

  function Apply(s: FederationState, op: Op): FederationState
    requires s.Valid()
  {
    match op
    case WriteOp(entry, legs) => WriteState(s, entry, legs)
    case ForgetOp(id, hard, fault) => ForgetState(s, id, hard, fault)
  }

  lemma ApplyValid(s: FederationState, op: Op)
    requires s.Valid()
    ensures Apply(s, op).Valid()
    ensures Apply(s, op).topology == s.topology && Apply(s, op).capabilities == s.capabilities
  {
    if op.WriteOp? {
      var r := s.topology.RouteWrite(op.entry);
      if r.Routed? {
        TargetsRegistered(s, op.entry);
        ApplyLegsKeys(s.stores, r.tiers, op.entry, op.legs);
      }
    }
  }

  ghost function Run(s: FederationState, ops: seq<Op>): (r: FederationState)
    requires s.Valid()
    ensures r.Valid() && r.topology == s.topology
    decreases |ops|
  {
    if ops == [] then s
    else
      ApplyValid(s, ops[0]);
      Run(Apply(s, ops[0]), ops[1..])
  }

  // ---------------------------------------------------------------------------
  // One write, tier by tier
  // ---------------------------------------------------------------------------

  lemma {:induction false} ApplyLegsKeys(stores: map<Tier, Store>, targets: seq<Tier>, entry: MemoryEntry,
                                         legs: WriteLegs)
    requires forall t :: t in targets ==> t in stores
    ensures ApplyLegs(stores, targets, entry, legs).Keys == stores.Keys
  {
    if targets != [] {
      ApplyLegsKeys(stores, targets[..|targets| - 1], entry, legs);
    }
  }

  /** Exactly what a fan-out leaves in one store, whatever the other legs did. */
  lemma {:induction false} ApplyLegsAt(stores: map<Tier, Store>, targets: seq<Tier>, entry: MemoryEntry,
                                       legs: WriteLegs, t: Tier)
    requires forall x :: x in targets ==> x in stores
    requires t in stores
    ensures t in ApplyLegs(stores, targets, entry, legs)
    ensures ApplyLegs(stores, targets, entry, legs)[t]
            == if t in targets && Commits(legs(t)) then stores[t][entry.id := PayloadFor(t, entry)] else stores[t]
  {
    if targets != [] {
      var init, last := targets[..|targets| - 1], targets[|targets| - 1];
      ApplyLegsAt(stores, init, entry, legs, t);
      ApplyLegsKeys(stores, init, entry, legs);
      assert targets == init + [last];
      assert t in targets <==> t in init || t == last;
    }
  }

  lemma WriteStateAt(s: FederationState, entry: MemoryEntry, legs: WriteLegs, t: Tier)
    requires s.Valid() && s.topology.RouteWrite(entry).Routed? && t in s.stores
    ensures t in WriteState(s, entry, legs).stores
    ensures WriteState(s, entry, legs).stores[t]
            == if t in s.topology.RouteWrite(entry).tiers && Commits(legs(t))
               then s.stores[t][entry.id := PayloadFor(t, entry)] else s.stores[t]
  {
    TargetsRegistered(s, entry);
    ApplyLegsAt(s.stores, s.topology.RouteWrite(entry).tiers, entry, legs, t);
  }

  lemma PrivateRoute(s: FederationState, entry: MemoryEntry)
    requires s.Valid() && entry.scope.PrivateScope?
    ensures PRIVATE_TIER in s.stores
    ensures GLOBAL_TIER in s.stores <==> s.topology.hasGlobal
    ensures s.topology.RouteWrite(entry)
            == Routed(if entry.importance >= 0.9 && GLOBAL_TIER in s.stores then [PRIVATE_TIER, GLOBAL_TIER]
                      else [PRIVATE_TIER])
  {
    FixedTiers(s.topology);
    PrivateRouteOf(s.topology, entry);
  }

  lemma PrivateRouteOf(top: Topology, entry: MemoryEntry)
    requires entry.scope.PrivateScope?
    ensures top.RouteWrite(entry)
            == Routed(if entry.importance >= 0.9 && top.hasGlobal then [PRIVATE_TIER, GLOBAL_TIER] else [PRIVATE_TIER])
  {
    assert [PRIVATE_TIER] + [GLOBAL_TIER] == [PRIVATE_TIER, GLOBAL_TIER];
    assert [PRIVATE_TIER] + [] == [PRIVATE_TIER];
  }

  lemma FixedTiers(top: Topology)
    ensures PRIVATE_TIER in top.AllTiers()
    ensures GLOBAL_TIER in top.AllTiers() <==> top.hasGlobal
  {
    var all, pools := top.AllTiers(), top.PoolTiers();
    assert all[0] == PRIVATE_TIER;
    if top.hasGlobal {
      assert all[|all| - 1] == GLOBAL_TIER;
    } else {
      assert GLOBAL_TIER !in pools;
      assert all == [PRIVATE_TIER] + pools;
    }
  }

  /** Every tier's wrapper reports the scope the router wrapped it for. */
  ghost predicate WrappersHonest(legs: WriteLegs) {
    forall t: Tier :: legs(t).LegFailed? ==> legs(t).scope == t.scope
  }

  lemma VerdictOnPrivateLegs(entry: MemoryEntry, legs: WriteLegs, promoted: bool)
    requires entry.scope.PrivateScope? && WrappersHonest(legs)
    ensures Verdict(if promoted then [PRIVATE_TIER, GLOBAL_TIER] else [PRIVATE_TIER], entry, legs, [])
            == match legs(PRIVATE_TIER)
               case LegFailed(_, _) => WriteReport(MemoryWriteError, [])
               case Escaped(_) => WriteReport(UnexpectedError, [])
               case Stored =>
                 if !promoted || legs(GLOBAL_TIER).Stored? then WriteReport(WriteReturned, [])
                 else if legs(GLOBAL_TIER).Escaped? then WriteReport(UnexpectedError, [])
                 else WriteReport(WriteReturned, [DegradedEvent(GLOBAL_TIER, PromoteOperation)])
  {
    var both := [PRIVATE_TIER, GLOBAL_TIER];
    assert both[1..] == [GLOBAL_TIER] && [GLOBAL_TIER][1..] == [] && [PRIVATE_TIER][1..] == [];
    if legs(PRIVATE_TIER).Stored? && promoted {
      assert Verdict(both, entry, legs, []) == Verdict([GLOBAL_TIER], entry, legs, []);
      if legs(GLOBAL_TIER).LegFailed? {
        var event := DegradedEvent(GLOBAL_TIER, PromoteOperation);
        assert Verdict([GLOBAL_TIER], entry, legs, []) == Verdict([], entry, legs, [] + [event]);
        assert [] + [event] == [event];
      }
    }
  }

  /** A PRIVATE write returns normally only if the private store now holds exactly that entry; and a
      failing GLOBAL leg never turns a stored private write into an error. */
  lemma PrivateWriteIsDurable(s: FederationState, entry: MemoryEntry, legs: WriteLegs)
    requires s.Valid() && entry.scope.PrivateScope? && WrappersHonest(legs)
    ensures var report := WriteReported(s, entry, legs);
            var after := WriteState(s, entry, legs);
            && PRIVATE_TIER in s.stores && PRIVATE_TIER in after.stores
            && (report.verdict.WriteReturned?
                ==> after.stores[PRIVATE_TIER] == s.stores[PRIVATE_TIER][entry.id := entry])
            && (legs(PRIVATE_TIER).LegFailed? ==> report == WriteReport(MemoryWriteError, []))
            && (legs(PRIVATE_TIER).Stored? && !legs(GLOBAL_TIER).Escaped? ==> report.verdict.WriteReturned?)
  {
    PrivateRoute(s, entry);
    WriteStateAt(s, entry, legs, PRIVATE_TIER);
    VerdictOnPrivateLegs(entry, legs, entry.importance >= 0.9 && GLOBAL_TIER in s.stores);
  }

  /** Promotion, exactly: GLOBAL receives a rewritten copy under the same id when the entry is important
      enough, a global tier exists and its leg commits; a failed leg is reported as a paused promotion. */
  lemma PromotionExactly(s: FederationState, entry: MemoryEntry, legs: WriteLegs)
    requires s.Valid() && entry.scope.PrivateScope? && WrappersHonest(legs)
    requires GLOBAL_TIER in s.stores
    ensures var after := WriteState(s, entry, legs);
            && GLOBAL_TIER in after.stores
            && after.stores[GLOBAL_TIER]
               == (if entry.importance >= 0.9 && Commits(legs(GLOBAL_TIER))
                   then s.stores[GLOBAL_TIER][entry.id := entry.(scope := GlobalScope, poolName := None)]
                   else s.stores[GLOBAL_TIER])
    ensures var report := WriteReported(s, entry, legs);
            report.verdict.WriteReturned?
            ==> report.degraded == if entry.importance >= 0.9 && legs(GLOBAL_TIER).LegFailed?
                                   then [DegradedEvent(GLOBAL_TIER, PromoteOperation)] else []
  {
    PrivateRoute(s, entry);
    WriteStateAt(s, entry, legs, GLOBAL_TIER);
    VerdictOnPrivateLegs(entry, legs, entry.importance >= 0.9);
  }

  /** Every failure is reported under the scope its tier's wrapper has. */
  ghost predicate Consistent(legs: WriteLegs, labels: Tier -> MemoryScope) {
    forall t: Tier :: legs(t).LegFailed? ==> legs(t).scope == labels(t)
  }

  predicate StoredPrivately(s: FederationState, entry: MemoryEntry) {
    PRIVATE_TIER in s.stores && entry.id in s.stores[PRIVATE_TIER] && s.stores[PRIVATE_TIER][entry.id] == entry
  }

  /** Whatever its legs come to, a write that returns normally has stored the entry. */
  ghost predicate DurableWhenReturned(s: FederationState, entry: MemoryEntry, labels: Tier -> MemoryScope)
    requires s.Valid()
  {
    forall legs: WriteLegs :: Consistent(legs, labels) && WriteReported(s, entry, legs).verdict.WriteReturned? ==>
      StoredPrivately(WriteState(s, entry, legs), entry)
  }

  lemma ReturnedPastPrivate(targets: seq<Tier>, entry: MemoryEntry, legs: WriteLegs)
    requires targets != [] && Verdict(targets, entry, legs, []).verdict.WriteReturned?
    ensures legs(targets[0]).Stored? || (legs(targets[0]).LegFailed? && !legs(targets[0]).scope.PrivateScope?)
  {
  }

  /** The legs of a write whose private leg alone fails, unnoticed. */
  function LosingLegs(labels: Tier -> MemoryScope): WriteLegs {
    (t: Tier) => if t == PRIVATE_TIER then LegFailed(labels(t), false) else Stored
  }

  lemma LosingLegsReturn(entry: MemoryEntry, labels: Tier -> MemoryScope, promoted: bool)
    requires entry.scope.PrivateScope? && !labels(PRIVATE_TIER).PrivateScope?
    ensures Verdict(if promoted then [PRIVATE_TIER, GLOBAL_TIER] else [PRIVATE_TIER], entry, LosingLegs(labels), [])
            .verdict.WriteReturned?
  {
    var both, legs := [PRIVATE_TIER, GLOBAL_TIER], LosingLegs(labels);
    assert both[1..] == [GLOBAL_TIER] && [GLOBAL_TIER][1..] == [] && [PRIVATE_TIER][1..] == [];
    var event := DegradedEvent(PRIVATE_TIER, WriteOperation);
    assert [] + [event] == [event];
    assert Verdict(both, entry, legs, []) == Verdict([GLOBAL_TIER], entry, legs, [event]);
    assert Verdict([PRIVATE_TIER], entry, legs, []) == Verdict([], entry, legs, [event]);
    assert Verdict([GLOBAL_TIER], entry, legs, [event]) == Verdict([], entry, legs, [event]);
  }

  lemma PrivateLabelIsDurable(s: FederationState, entry: MemoryEntry, labels: Tier -> MemoryScope, legs: WriteLegs)
    requires s.Valid() && entry.scope.PrivateScope? && labels(PRIVATE_TIER).PrivateScope?
    requires Consistent(legs, labels) && WriteReported(s, entry, legs).verdict.WriteReturned?
    ensures StoredPrivately(WriteState(s, entry, legs), entry)
  {
    PrivateRoute(s, entry);
    ReturnedPastPrivate(s.topology.RouteWrite(entry).tiers, entry, legs);
    WriteStateAt(s, entry, legs, PRIVATE_TIER);
  }

  lemma AnotherLabelLoses(s: FederationState, entry: MemoryEntry, labels: Tier -> MemoryScope)
    requires s.Valid() && entry.scope.PrivateScope? && !StoredPrivately(s, entry)
    requires !labels(PRIVATE_TIER).PrivateScope?
    ensures Consistent(LosingLegs(labels), labels)
    ensures WriteReported(s, entry, LosingLegs(labels)).verdict.WriteReturned?
    ensures !StoredPrivately(WriteState(s, entry, LosingLegs(labels)), entry)
  {
    PrivateRoute(s, entry);
    LosingLegsReturn(entry, labels, entry.importance >= 0.9 && GLOBAL_TIER in s.stores);
    WriteStateAt(s, entry, LosingLegs(labels), PRIVATE_TIER);
  }

  /** A PRIVATE write that returns normally has stored an entry not stored before, whatever fails and whatever the
      other tiers' wrappers say, if and only if the private tier's wrapper reports failures as PRIVATE. */
  lemma DurableExactly(s: FederationState, entry: MemoryEntry, labels: Tier -> MemoryScope)
    requires s.Valid() && entry.scope.PrivateScope? && !StoredPrivately(s, entry)
    ensures DurableWhenReturned(s, entry, labels) <==> labels(PRIVATE_TIER).PrivateScope?
  {
    if labels(PRIVATE_TIER).PrivateScope? {
      forall legs: WriteLegs | Consistent(legs, labels) && WriteReported(s, entry, legs).verdict.WriteReturned?
        ensures StoredPrivately(WriteState(s, entry, legs), entry)
      {
        PrivateLabelIsDurable(s, entry, labels, legs);
      }
    } else {
      AnotherLabelLoses(s, entry, labels);
    }
  }

  function LabelsOf(r: Registry): Tier -> MemoryScope {
    (t: Tier) => r.Label(t)
  }

  /** In terms of the adapters a router is given: whatever pools are registered, and registered again, the private
      adapter must have come bare, or wrapped for PRIVATE already. */
  lemma PrivateAdapterExactly(s: FederationState, entry: MemoryEntry, private: Adapter, global: Option<Adapter>,
                              pools: seq<Registration>)
    requires s.Valid() && entry.scope.PrivateScope? && !StoredPrivately(s, entry)
    requires s.topology == RegisterAll(NewRegistry(private, global), pools).top
    ensures DurableWhenReturned(s, entry, LabelsOf(RegisterAll(NewRegistry(private, global), pools)))
            <==> private.Bare? || private.scope.PrivateScope?
  {
    RegistrationsExactly(private, global, pools, PRIVATE_TIER);
    DurableExactly(s, entry, LabelsOf(RegisterAll(NewRegistry(private, global), pools)));
  }

  // ---------------------------------------------------------------------------
  // Writes, scope by scope
  // ---------------------------------------------------------------------------

  /** The stores after one of them was written, or not; every other is as it was. */
  ghost predicate OnlyStoreWritten(s: FederationState, after: FederationState, t: Tier, entry: MemoryEntry,
                                   leg: LegOutcome) {
    && after == s.(stores := after.stores) && after.stores.Keys == s.stores.Keys && t in s.stores
    && after.stores[t] == (if leg.Stored? || leg.committed then s.stores[t][entry.id := entry] else s.stores[t])
    && (forall x :: x in s.stores && x != t ==> after.stores[x] == s.stores[x])
  }

  /** What a write to one tier alone comes to: a failure under the label PRIVATE is fatal, under another it is one
      degraded write of that tier, and any other exception escapes. */
  function OneTierReport(t: Tier, leg: LegOutcome): WriteReport {
    match leg
    case Stored => WriteReport(WriteReturned, [])
    case LegFailed(scope, _) =>
      if scope == PrivateScope then WriteReport(MemoryWriteError, [])
      else WriteReport(WriteReturned, [DegradedEvent(t, WriteOperation)])
    case Escaped(_) => WriteReport(UnexpectedError, [])
  }

  lemma OneLegApplied(stores: map<Tier, Store>, entry: MemoryEntry, legs: WriteLegs, t: Tier)
    requires t in stores && t.scope == entry.scope
    ensures ApplyLegs(stores, [t], entry, legs)
         == if legs(t).Stored? || legs(t).committed then stores[t := stores[t][entry.id := entry]] else stores
  {
    assert [t][..0] == [];
  }

  lemma OneLegVerdict(entry: MemoryEntry, legs: WriteLegs, t: Tier)
    requires t.scope == entry.scope
    ensures Verdict([t], entry, legs, []) == OneTierReport(t, legs(t))
  {
    assert [t][1..] == [] && [] + [DegradedEvent(t, WriteOperation)] == [DegradedEvent(t, WriteOperation)];
  }

  lemma OneTargetWrite(s: FederationState, entry: MemoryEntry, legs: WriteLegs, t: Tier)
    requires s.Valid() && s.topology.RouteWrite(entry) == Routed([t]) && t.scope == entry.scope
    ensures OnlyStoreWritten(s, WriteState(s, entry, legs), t, entry, legs(t))
    ensures WriteReported(s, entry, legs) == OneTierReport(t, legs(t))
  {
    TargetsRegistered(s, entry);
    assert t in [t];
    OneLegApplied(s.stores, entry, legs, t);
    OneLegVerdict(entry, legs, t);
  }

  /** A SHARED entry goes to the pool it names, unchanged, and nowhere else; without a name, or with one that no pool
      has, the write raises and changes nothing. */
  lemma SharedWriteExactly(s: FederationState, entry: MemoryEntry, legs: WriteLegs)
    requires s.Valid() && entry.scope == SharedScope
    ensures var after, report := WriteState(s, entry, legs), WriteReported(s, entry, legs);
            if entry.poolName.Some? && entry.poolName.value in s.topology.pools then
              var pool := Tier(SharedScope, entry.poolName);
              OnlyStoreWritten(s, after, pool, entry, legs(pool)) && report == OneTierReport(pool, legs(pool))
            else after == s && report == WriteReport(RoutingRaised, [])
  {
    if entry.poolName.Some? && entry.poolName.value in s.topology.pools {
      OneTargetWrite(s, entry, legs, PoolTier(entry.poolName.value));
    }
  }

  /** A GLOBAL entry goes to the global tier and nowhere else; without one the write raises and changes nothing. */
  lemma GlobalWriteExactly(s: FederationState, entry: MemoryEntry, legs: WriteLegs)
    requires s.Valid() && entry.scope == GlobalScope
    ensures var after, report := WriteState(s, entry, legs), WriteReported(s, entry, legs);
            if s.topology.hasGlobal then
              var global := Tier(GlobalScope, None);
              OnlyStoreWritten(s, after, global, entry, legs(global)) && report == OneTierReport(global, legs(global))
            else after == s && report == WriteReport(RoutingRaised, [])
  {
    if s.topology.hasGlobal {
      OneTargetWrite(s, entry, legs, GLOBAL_TIER);
    }
  }

  /** A PRIVATE entry goes to the private tier, unchanged, and from importance 0.9 on as a rewritten copy to the global
      tier, if there is one; and nowhere else. */
  lemma PrivateWriteExactly(s: FederationState, entry: MemoryEntry, legs: WriteLegs, t: Tier)
    requires s.Valid() && entry.scope == PrivateScope && t in s.stores
    ensures var after := WriteState(s, entry, legs);
            var written := legs(t).Stored? || legs(t).committed;
            && after == s.(stores := after.stores) && after.stores.Keys == s.stores.Keys
            && after.stores[t]
               == (if written && t == Tier(PrivateScope, None) then s.stores[t][entry.id := entry]
                   else if written && t == Tier(GlobalScope, None) && entry.importance >= 0.9 then
                     s.stores[t][entry.id := entry.(scope := GlobalScope, poolName := None)]
                   else s.stores[t])
  {
    PrivateRoute(s, entry);
    TargetsRegistered(s, entry);
    WriteStateAt(s, entry, legs, t);
    ApplyLegsKeys(s.stores, s.topology.RouteWrite(entry).tiers, entry, legs);
  }

  // ---------------------------------------------------------------------------
  // Scope separation
  // ---------------------------------------------------------------------------

  /** Each store files entries under their own id, holds only its own scope, and a pool only its own. */
  ghost predicate ScopeSeparated(s: FederationState) {
    forall t, id :: t in s.stores && id in s.stores[t] ==> Belongs(t, id, s.stores[t][id])
  }

  ghost predicate Belongs(t: Tier, id: Uuid, e: MemoryEntry) {
    && e.id == id
    && e.scope == t.scope
    && (t.scope.SharedScope? ==> e.poolName == t.poolName)
  }

  lemma PayloadBelongs(s: FederationState, entry: MemoryEntry, t: Tier)
    requires s.topology.RouteWrite(entry).Routed? && t in s.topology.RouteWrite(entry).tiers
    ensures Belongs(t, entry.id, PayloadFor(t, entry))
  {
  }

  lemma ApplyKeepsScopes(s: FederationState, op: Op)
    requires s.Valid() && ScopeSeparated(s)
    ensures ScopeSeparated(Apply(s, op))
  {
    if op.WriteOp? {
      var r := s.topology.RouteWrite(op.entry);
      if r.Routed? {
        TargetsRegistered(s, op.entry);
        ApplyLegsKeys(s.stores, r.tiers, op.entry, op.legs);
        forall t, id | t in Apply(s, op).stores && id in Apply(s, op).stores[t]
          ensures Belongs(t, id, Apply(s, op).stores[t][id])
        {
          ApplyLegsAt(s.stores, r.tiers, op.entry, op.legs, t);
          if t in r.tiers {
            PayloadBelongs(s, op.entry, t);
          }
        }
      }
    } else {
      forall t, id | t in Apply(s, op).stores && id in Apply(s, op).stores[t]
        ensures Belongs(t, id, Apply(s, op).stores[t][id])
      {
        assert Belongs(t, id, s.stores[t][id]);
      }
    }
  }

  /** Over every run, with any failures, no entry ever sits in a store of another scope or pool. */
  lemma {:induction false} RunKeepsScopes(s: FederationState, ops: seq<Op>)
    requires s.Valid() && ScopeSeparated(s)
    ensures ScopeSeparated(Run(s, ops))
    decreases |ops|
  {
    if ops != [] {
      ApplyValid(s, ops[0]);
      ApplyKeepsScopes(s, ops[0]);
      RunKeepsScopes(Apply(s, ops[0]), ops[1..]);
    }
  }

  /** A delete leaves the GLOBAL store exactly as it was, whatever the outcome. */
  lemma ForgetNeverTouchesGlobal(s: FederationState, id: Uuid, hard: bool, fault: ForgetFault)
    requires s.Valid() && GLOBAL_TIER in s.stores
    ensures GLOBAL_TIER in ForgetState(s, id, hard, fault).stores
    ensures ForgetState(s, id, hard, fault).stores[GLOBAL_TIER] == s.stores[GLOBAL_TIER]
  {
  }

  /** Over every run GLOBAL loses nothing: an id once promoted or written there stays resolvable. */
  lemma {:induction false} RunNeverLosesGlobal(s: FederationState, ops: seq<Op>)
    requires s.Valid() && GLOBAL_TIER in s.stores
    ensures GLOBAL_TIER in Run(s, ops).stores
    ensures s.stores[GLOBAL_TIER].Keys <= Run(s, ops).stores[GLOBAL_TIER].Keys
    decreases |ops|
  {
    if ops != [] {
      var next := Apply(s, ops[0]);
      ApplyValid(s, ops[0]);
      if ops[0].WriteOp? {
        var r := s.topology.RouteWrite(ops[0].entry);
        if r.Routed? {
          TargetsRegistered(s, ops[0].entry);
          ApplyLegsAt(s.stores, r.tiers, ops[0].entry, ops[0].legs, GLOBAL_TIER);
        }
      } else {
        ForgetNeverTouchesGlobal(s, ops[0].id, ops[0].hard, ops[0].fault);
      }
      RunNeverLosesGlobal(next, ops[1..]);
    }
  }

  // ---------------------------------------------------------------------------
  // Repeated deletes
  // ---------------------------------------------------------------------------

  function Holders(s: FederationState, id: Uuid): set<Tier> {
    set t | t in s.stores && Holds(s, t, id)
  }

  function ForgetHard(s: FederationState, id: Uuid): FederationState {
    ForgetState(s, id, true, NoFault)
  }

  function HardOutcome(s: FederationState, id: Uuid): ForgetOutcome {
    ForgetReported(s, id, true, NoFault)
  }

  lemma NoFaultNoFailure(s: FederationState, id: Uuid)
    ensures !LookupFails(s, s.topology.AllTiers(), id, NoFault)
  {
    LookupFailsOnlyOnLookupFault(s, s.topology.AllTiers(), id, NoFault);
  }

  /** A successful hard delete takes exactly the owning tier out of the holders; every other answer
      leaves the federation untouched. */
  lemma HardForgetShrinks(s: FederationState, id: Uuid)
    requires s.Valid()
    ensures ForgetHard(s, id).Valid() && ForgetHard(s, id).topology == s.topology
    ensures match HardOutcome(s, id)
            case Forgotten(t, hard) =>
              hard && t in Holders(s, id) && Holders(ForgetHard(s, id), id) == Holders(s, id) - {t}
            case BackendError => false
            case _ => ForgetHard(s, id) == s
  {
    NoFaultNoFailure(s, id);
    OwnerHolds(s, s.topology.AllTiers(), id);
  }

  /** The first tier in routing order that holds the id and will not give it up. */
  function Blocker(s: FederationState, tiers: seq<Tier>, id: Uuid): Option<Tier> {
    if tiers == [] then None
    else if Holds(s, tiers[0], id) && !Deletable(s, tiers[0]) then Some(tiers[0])
    else Blocker(s, tiers[1..], id)
  }

  function FinalAnswer(blocker: Option<Tier>): ForgetOutcome {
    match blocker
    case None => NotFound
    case Some(t) => Refusal(t)
  }

  lemma {:induction false} BlockerSurvives(s: FederationState, s': FederationState, tiers: seq<Tier>, id: Uuid,
                                           gone: Tier)
    requires s'.capabilities == s.capabilities
    requires forall t :: t in tiers ==> (Holds(s', t, id) <==> Holds(s, t, id) && t != gone)
    requires Deletable(s, gone)
    ensures Blocker(s', tiers, id) == Blocker(s, tiers, id)
  {
    if tiers != [] {
      BlockerSurvives(s, s', tiers[1..], id, gone);
    }
  }

  lemma {:induction false} OwnerThenBlocker(s: FederationState, tiers: seq<Tier>, id: Uuid)
    ensures var owner := OwningTier(s, tiers, id);
            owner.None? || !Deletable(s, owner.value) ==> Blocker(s, tiers, id) == owner
  {
    if tiers != [] {
      OwnerThenBlocker(s, tiers[1..], id);
    }
  }

  /** What the id comes to when every tier that may delete it has. */
  function Settled(s: FederationState, id: Uuid): ForgetOutcome {
    FinalAnswer(Blocker(s, s.topology.AllTiers(), id))
  }

  lemma UnforgottenIsFinal(s: FederationState, id: Uuid)
    requires !HardOutcome(s, id).Forgotten?
    ensures HardOutcome(s, id) == Settled(s, id)
    ensures ForgetHard(s, id) == s
  {
    NoFaultNoFailure(s, id);
    OwnerThenBlocker(s, s.topology.AllTiers(), id);
  }

  lemma ForgottenKeepsBlocker(s: FederationState, id: Uuid)
    requires s.Valid() && HardOutcome(s, id).Forgotten?
    ensures ForgetHard(s, id).Valid()
    ensures Settled(ForgetHard(s, id), id) == Settled(s, id)
    ensures |Holders(ForgetHard(s, id), id)| < |Holders(s, id)|
  {
    HardForgetShrinks(s, id);
    var next, t := ForgetHard(s, id), HardOutcome(s, id).tier;
    assert Holders(next, id) + {t} == Holders(s, id);
    assert |Holders(next, id) + {t}| == |Holders(next, id)| + 1;
    forall x | x in s.topology.AllTiers()
      ensures Holds(next, x, id) <==> Holds(s, x, id) && x != t
    {
      assert x in Holders(next, id) <==> x in Holders(s, id) && x != t;
    }
    BlockerSurvives(s, next, s.topology.AllTiers(), id, t);
  }

  // ---------------------------------------------------------------------------
  // Repeated deletes with a failing backend
  // ---------------------------------------------------------------------------

  function ForgetOnce(s: FederationState, id: Uuid, fault: ForgetFault): FederationState {
    ForgetState(s, id, true, fault)
  }

  function Outcome(s: FederationState, id: Uuid, fault: ForgetFault): ForgetOutcome {
    ForgetReported(s, id, true, fault)
  }

  /** One hard delete takes the id from its owning tier, unless the call fails before or the delete itself fails
      without taking effect. */
  predicate Takes(s: FederationState, id: Uuid, fault: ForgetFault) {
    DeletableOwner(s, id, fault).Some? && (fault.DeleteRaises? ==> fault.committed)
  }

  /** A fault only ever stops the delete of the tier that would have been deleted from. */
  lemma FaultyForget(s: FederationState, id: Uuid, fault: ForgetFault)
    requires s.Valid()
    ensures ForgetOnce(s, id, fault) == if Takes(s, id, fault) then ForgetHard(s, id) else s
    ensures Takes(s, id, fault) ==> HardOutcome(s, id).Forgotten?
    ensures Outcome(s, id, fault).Forgotten? ==>
              Takes(s, id, fault) && Outcome(s, id, fault) == HardOutcome(s, id)
    ensures !Outcome(s, id, fault).Forgotten? && !Outcome(s, id, fault).BackendError? ==> !Takes(s, id, fault)
    ensures fault.NoFault? && HardOutcome(s, id).Forgotten? ==> Takes(s, id, fault)
  {
    NoFaultNoFailure(s, id);
    OwnerHolds(s, s.topology.AllTiers(), id);
    LookupFailsOnlyOnLookupFault(s, s.topology.AllTiers(), id, fault);
  }

  /** What one hard delete does under any fault: it takes exactly one holder away, or changes nothing; an answer
      of "forgotten" means it took the owner; and what the id comes to in the end stays the same. */
  lemma ForgetOnceExactly(s: FederationState, id: Uuid, fault: ForgetFault)
    requires s.Valid()
    ensures var next := ForgetOnce(s, id, fault);
            && next.Valid() && Settled(next, id) == Settled(s, id)
            && Holders(next, id) <= Holders(s, id)
            && |Holders(next, id)| == |Holders(s, id)| - (if Takes(s, id, fault) then 1 else 0)
            && (!Takes(s, id, fault) ==> next == s)
            && (Outcome(s, id, fault).Forgotten? ==>
                  && Outcome(s, id, fault).tier in Holders(s, id)
                  && Holders(next, id) == Holders(s, id) - {Outcome(s, id, fault).tier})
  {
    FaultyForget(s, id, fault);
    if Takes(s, id, fault) {
      ForgottenKeepsBlocker(s, id);
      HardForgetShrinks(s, id);
      var t := HardOutcome(s, id).tier;
      assert Holders(s, id) == (Holders(s, id) - {t}) + {t};
    }
  }

  /** A sequence of hard deletes of one id, each under its own fault. */
  function ForgetAll(s: FederationState, id: Uuid, faults: seq<ForgetFault>): FederationState
    decreases |faults|
  {
    if faults == [] then s else ForgetAll(ForgetOnce(s, id, faults[0]), id, faults[1..])
  }

  function Taken(s: FederationState, id: Uuid, faults: seq<ForgetFault>): nat
    decreases |faults|
  {
    if faults == [] then 0
    else (if Takes(s, id, faults[0]) then 1 else 0) + Taken(ForgetOnce(s, id, faults[0]), id, faults[1..])
  }

  /** Over any sequence of hard deletes and faults the holders never grow, and as many are gone as calls took
      effect: no call removes two, and none is lost between calls. */
  lemma {:induction false} HoldersAddUp(s: FederationState, id: Uuid, faults: seq<ForgetFault>)
    requires s.Valid()
    ensures ForgetAll(s, id, faults).Valid()
    ensures Holders(ForgetAll(s, id, faults), id) <= Holders(s, id)
    ensures |Holders(ForgetAll(s, id, faults), id)| + Taken(s, id, faults) == |Holders(s, id)|
    decreases |faults|
  {
    if faults != [] {
      ForgetOnceExactly(s, id, faults[0]);
      HoldersAddUp(ForgetOnce(s, id, faults[0]), id, faults[1..]);
    }
  }

  function FaultFree(faults: seq<ForgetFault>): nat {
    if faults == [] then 0 else (if faults[0].NoFault? then 1 else 0) + FaultFree(faults[1..])
  }

  lemma {:induction false} RestStays(s: FederationState, id: Uuid, faults: seq<ForgetFault>)
    requires s.Valid() && !HardOutcome(s, id).Forgotten?
    ensures ForgetAll(s, id, faults) == s
    decreases |faults|
  {
    if faults != [] {
      FaultyForget(s, id, faults[0]);
      RestStays(s, id, faults[1..]);
    }
  }

  lemma NoHoldersNothingForgotten(s: FederationState, id: Uuid)
    requires s.Valid() && |Holders(s, id)| == 0
    ensures !HardOutcome(s, id).Forgotten?
  {
    HardForgetShrinks(s, id);
  }

  /** Once as many calls as there are holders have gone undisturbed, whatever failed in between, the id is
      settled: the answer is then decided by the first tier, in routing order, that may not delete it, or
      not-found when there is none. */
  lemma {:induction false} RepeatedForgetSettles(s: FederationState, id: Uuid, faults: seq<ForgetFault>)
    requires s.Valid() && FaultFree(faults) >= |Holders(s, id)|
    ensures HardOutcome(ForgetAll(s, id, faults), id) == Settled(s, id)
    decreases |faults|
  {
    if !HardOutcome(s, id).Forgotten? {
      RestStays(s, id, faults);
      UnforgottenIsFinal(s, id);
    } else if faults == [] {
      NoHoldersNothingForgotten(s, id);
    } else {
      FaultyForget(s, id, faults[0]);
      ForgetOnceExactly(s, id, faults[0]);
      RepeatedForgetSettles(ForgetOnce(s, id, faults[0]), id, faults[1..]);
    }
  }

  // ---------------------------------------------------------------------------
  // Promoted entries and soft deletes
  // ---------------------------------------------------------------------------

  /** An id resolves to its most local copy: the first tier in routing order that can look it up and has it. */
  lemma {:induction false} OwnerIsFirst(s: FederationState, tiers: seq<Tier>, id: Uuid, k: nat)
    requires k < |tiers| && Holds(s, tiers[k], id) && forall j :: 0 <= j < k ==> !Holds(s, tiers[j], id)
    ensures OwningTier(s, tiers, id) == Some(tiers[k])
  {
    if k > 0 {
      OwnerIsFirst(s, tiers[1..], id, k - 1);
    }
  }

  lemma GetIsMostLocal(s: FederationState, id: Uuid, k: nat)
    requires var tiers := s.topology.AllTiers();
             k < |tiers| && Holds(s, tiers[k], id) && forall j :: 0 <= j < k ==> !Holds(s, tiers[j], id)
    ensures Get(s, id) == Some(s.stores[s.topology.AllTiers()[k]][id])
  {
    OwnerIsFirst(s, s.topology.AllTiers(), id, k);
  }

  /** Some shared pool that can be looked into has the id. */
  ghost predicate PoolHolds(s: FederationState, id: Uuid) {
    exists name :: name in s.topology.pools && Holds(s, PoolTier(name), id)
  }

  /** After a promoted entry's private copy is deleted the id still resolves, to its GLOBAL copy, whose deletion
      is refused, if and only if no pool has the id. */
  lemma PromotedIdOutlivesItsPrivateCopy(s: FederationState, entry: MemoryEntry, legs: WriteLegs)
    requires s.Valid() && s.topology.hasGlobal
    requires s.capabilities[PRIVATE_TIER] == Capability(true, true) && s.capabilities[GLOBAL_TIER].canGet
    requires entry.scope.PrivateScope? && entry.importance >= 0.9
    requires legs(PRIVATE_TIER).Stored? && legs(GLOBAL_TIER).Stored?
    ensures var written := WriteState(s, entry, legs);
            var after := ForgetHard(written, entry.id);
            && Get(written, entry.id) == Some(entry)
            && HardOutcome(written, entry.id) == Forgotten(PRIVATE_TIER, true)
            && (HardOutcome(after, entry.id).GlobalDeleteRefused? <==> !PoolHolds(s, entry.id))
            && (!PoolHolds(s, entry.id) ==>
                  Get(after, entry.id) == Some(entry.(scope := GlobalScope, poolName := None)))
  {
    var written := WriteState(s, entry, legs);
    PromotedCopies(s, entry, legs);
    PrivateIsDeletedFirst(written, entry.id);
    var after := ForgetHard(written, entry.id);
    PoolsUntouched(s, entry, legs, after);
    if PoolHolds(s, entry.id) {
      PoolComesFirst(after, entry.id);
    } else {
      GlobalComesLast(after, entry.id);
    }
  }

  lemma PromotedCopies(s: FederationState, entry: MemoryEntry, legs: WriteLegs)
    requires s.Valid() && s.topology.hasGlobal && entry.scope.PrivateScope? && entry.importance >= 0.9
    requires legs(PRIVATE_TIER).Stored? && legs(GLOBAL_TIER).Stored?
    ensures var written := WriteState(s, entry, legs);
            && written.Valid() && written.topology == s.topology && written.capabilities == s.capabilities
            && written.stores.Keys == s.stores.Keys
            && PRIVATE_TIER in written.stores && GLOBAL_TIER in written.stores
            && entry.id in written.stores[PRIVATE_TIER] && written.stores[PRIVATE_TIER][entry.id] == entry
            && entry.id in written.stores[GLOBAL_TIER]
            && written.stores[GLOBAL_TIER][entry.id] == entry.(scope := GlobalScope, poolName := None)
  {
    FixedTiers(s.topology);
    PrivateRoute(s, entry);
    WriteStateAt(s, entry, legs, PRIVATE_TIER);
    WriteStateAt(s, entry, legs, GLOBAL_TIER);
    ApplyValid(s, WriteOp(entry, legs));
  }

  lemma PrivateIsDeletedFirst(s: FederationState, id: Uuid)
    requires s.Valid() && PRIVATE_TIER in s.capabilities && s.capabilities[PRIVATE_TIER] == Capability(true, true)
    requires PRIVATE_TIER in s.stores && id in s.stores[PRIVATE_TIER]
    ensures Get(s, id) == Some(s.stores[PRIVATE_TIER][id])
    ensures HardOutcome(s, id) == Forgotten(PRIVATE_TIER, true)
    ensures ForgetHard(s, id) == s.(stores := s.stores[PRIVATE_TIER := s.stores[PRIVATE_TIER] - {id}])
  {
    assert s.topology.AllTiers()[0] == PRIVATE_TIER;
    NoFaultNoFailure(s, id);
    OwnerIsFirst(s, s.topology.AllTiers(), id, 0);
  }

  /** Neither the write nor the delete touches what a pool holds. */
  lemma PoolsUntouched(s: FederationState, entry: MemoryEntry, legs: WriteLegs, after: FederationState)
    requires s.Valid() && entry.scope.PrivateScope?
    requires after.topology == s.topology && after.capabilities == s.capabilities
    requires forall t :: t != PRIVATE_TIER && t in s.stores ==>
               t in after.stores && t in WriteState(s, entry, legs).stores &&
               after.stores[t] == WriteState(s, entry, legs).stores[t]
    requires forall t :: t in after.stores ==> t in s.stores
    ensures PoolHolds(after, entry.id) <==> PoolHolds(s, entry.id)
  {
    PrivateRoute(s, entry);
    forall name | name in s.topology.pools
      ensures Holds(after, PoolTier(name), entry.id) <==> Holds(s, PoolTier(name), entry.id)
    {
      if PoolTier(name) in s.stores {
        WriteStateAt(s, entry, legs, PoolTier(name));
      }
    }
  }

  lemma PoolComesFirst(s: FederationState, id: Uuid)
    requires PoolHolds(s, id) && PRIVATE_TIER in s.stores && id !in s.stores[PRIVATE_TIER]
    ensures !HardOutcome(s, id).GlobalDeleteRefused?
  {
    var tiers := s.topology.AllTiers();
    var name :| name in s.topology.pools && Holds(s, PoolTier(name), id);
    var i :| 0 <= i < |s.topology.pools| && s.topology.pools[i] == name;
    assert tiers[i + 1] == PoolTier(name);
    NoFaultNoFailure(s, id);
    var k := FirstHolder(s, tiers, id, i + 1);
    OwnerIsFirst(s, tiers, id, k);
    TiersBeforeGlobal(s.topology, k, i + 1);
  }

  lemma TiersBeforeGlobal(top: Topology, k: nat, i: nat)
    requires k <= i <= |top.pools|
    ensures i < |top.AllTiers()| && !top.AllTiers()[k].scope.GlobalScope?
  {
    assert k > 0 ==> top.AllTiers()[k] == PoolTier(top.pools[k - 1]);
  }

  /** The first holder is no later than any holder. */
  lemma {:induction false} FirstHolder(s: FederationState, tiers: seq<Tier>, id: Uuid, i: nat) returns (k: nat)
    requires i < |tiers| && Holds(s, tiers[i], id)
    ensures k <= i && Holds(s, tiers[k], id) && forall j :: 0 <= j < k ==> !Holds(s, tiers[j], id)
    decreases i
  {
    if j :| 0 <= j < i && Holds(s, tiers[j], id) {
      k := FirstHolder(s, tiers, id, j);
    } else {
      k := i;
    }
  }

  lemma GlobalComesLast(s: FederationState, id: Uuid)
    requires !PoolHolds(s, id) && s.topology.hasGlobal
    requires PRIVATE_TIER in s.stores && id !in s.stores[PRIVATE_TIER]
    requires GLOBAL_TIER in s.stores && id in s.stores[GLOBAL_TIER]
    requires GLOBAL_TIER in s.capabilities && s.capabilities[GLOBAL_TIER].canGet
    ensures Get(s, id) == Some(s.stores[GLOBAL_TIER][id])
    ensures HardOutcome(s, id) == GlobalDeleteRefused
  {
    var tiers := s.topology.AllTiers();
    var last := |tiers| - 1;
    assert tiers[last] == GLOBAL_TIER;
    forall j | 0 <= j < last
      ensures !Holds(s, tiers[j], id)
    {
      if j > 0 {
        assert tiers[j] == PoolTier(s.topology.pools[j - 1]);
        assert s.topology.pools[j - 1] in s.topology.pools;
      }
    }
    NoFaultNoFailure(s, id);
    OwnerIsFirst(s, tiers, id, last);
  }

  /** A delete by id, spelled out for the first tier that can look the id up and has it: never from GLOBAL, not from
      a tier that may not delete, and otherwise the entry goes, or stays behind archived, in that tier alone. */
  lemma ForgetExactly(s: FederationState, id: Uuid, hard: bool, k: nat)
    requires s.Valid()
    requires var tiers := s.topology.AllTiers();
             k < |tiers| && Holds(s, tiers[k], id) && forall j :: 0 <= j < k ==> !Holds(s, tiers[j], id)
    ensures var t := s.topology.AllTiers()[k];
            var after, outcome := ForgetState(s, id, hard, NoFault), ForgetReported(s, id, hard, NoFault);
            if t.scope == GlobalScope then after == s && outcome == GlobalDeleteRefused
            else if !s.capabilities[t].canDelete then after == s && outcome == ReadOnlyTierDelete(t)
            else
              && outcome == Forgotten(t, hard)
              && after == s.(stores := s.stores[t := if hard then s.stores[t] - {id}
                                                     else s.stores[t][id := s.stores[t][id].(archived := true)]])
  {
    NoFaultNoFailure(s, id);
    OwnerIsFirst(s, s.topology.AllTiers(), id, k);
  }

  /** An id no tier can look up is not found, and nothing changes. */
  lemma ForgetNothing(s: FederationState, id: Uuid, hard: bool)
    requires s.Valid() && forall t :: t in s.topology.AllTiers() ==> !Holds(s, t, id)
    ensures ForgetState(s, id, hard, NoFault) == s && ForgetReported(s, id, hard, NoFault) == NotFound
  {
    NoFaultNoFailure(s, id);
    OwnerHolds(s, s.topology.AllTiers(), id);
  }

  /** The `k`-th tier is the first that can look the id up and has it. */
  ghost predicate ResolvesAt(s: FederationState, id: Uuid, k: nat) {
    var tiers := s.topology.AllTiers();
    k < |tiers| && Holds(s, tiers[k], id) && forall j :: 0 <= j < k ==> !Holds(s, tiers[j], id)
  }

  lemma ForgottenExactly(s: FederationState, id: Uuid, hard: bool, k: nat)
    requires s.Valid() && ResolvesAt(s, id, k)
    ensures var t := s.topology.AllTiers()[k];
            ForgetReported(s, id, hard, NoFault).Forgotten? <==> t.scope != GlobalScope && s.capabilities[t].canDelete
  {
    ForgetExactly(s, id, hard, k);
  }

  lemma FailedLookup(s: FederationState, id: Uuid, hard: bool, fault: ForgetFault)
    requires LookupFails(s, s.topology.AllTiers(), id, fault)
    ensures ForgetState(s, id, hard, fault) == s && ForgetReported(s, id, hard, fault) == BackendError
  {
  }

  /** With the lookup undisturbed, what remains is what the delete itself meets. */
  lemma SoundLookup(s: FederationState, id: Uuid, hard: bool, fault: ForgetFault)
    requires !LookupFails(s, s.topology.AllTiers(), id, fault)
    requires !LookupFails(s, s.topology.AllTiers(), id, NoFault)
    ensures !fault.DeleteRaises? ==>
              && ForgetState(s, id, hard, fault) == ForgetState(s, id, hard, NoFault)
              && ForgetReported(s, id, hard, fault) == ForgetReported(s, id, hard, NoFault)
    ensures fault.DeleteRaises? ==>
              && ForgetState(s, id, hard, fault) == (if fault.committed then ForgetState(s, id, hard, NoFault) else s)
              && ForgetReported(s, id, hard, fault)
                 == (if ForgetReported(s, id, hard, NoFault).Forgotten? then BackendError
                     else ForgetReported(s, id, hard, NoFault))
  {
  }

  /** A backend that raises while the id is looked up, in a tier no later than the one that resolves it, makes a delete
      fail and changes nothing; one in a later tier, or without a lookup, is never asked. */
  lemma LookupFaultExactly(s: FederationState, id: Uuid, hard: bool, k: nat, at: nat)
    requires s.Valid() && ResolvesAt(s, id, k) && at < |s.topology.AllTiers()|
    ensures var raising := s.topology.AllTiers()[at];
            var fault := LookupRaises(raising);
            && raising in s.capabilities
            && ForgetState(s, id, hard, fault)
               == (if s.capabilities[raising].canGet && at <= k then s else ForgetState(s, id, hard, NoFault))
            && ForgetReported(s, id, hard, fault)
               == (if s.capabilities[raising].canGet && at <= k then BackendError
                   else ForgetReported(s, id, hard, NoFault))
  {
    var tiers := s.topology.AllTiers();
    assert tiers[at] in tiers;
    LookupFailsExactly(s, tiers, id, LookupRaises(tiers[at]), k, at);
    NoFaultNoFailure(s, id);
    if s.capabilities[tiers[at]].canGet && at <= k {
      FailedLookup(s, id, hard, LookupRaises(tiers[at]));
    } else {
      SoundLookup(s, id, hard, LookupRaises(tiers[at]));
    }
  }

  /** A backend that raises from the delete makes it fail, with the entry gone, or archived, or not, as it went; where
      the delete is refused it is never asked. */
  lemma DeleteFaultExactly(s: FederationState, id: Uuid, hard: bool, committed: bool, k: nat)
    requires s.Valid() && ResolvesAt(s, id, k)
    ensures var t := s.topology.AllTiers()[k];
            var allowed := t.scope != GlobalScope && s.capabilities[t].canDelete;
            && ForgetState(s, id, hard, DeleteRaises(committed))
               == (if committed then ForgetState(s, id, hard, NoFault) else s)
            && ForgetReported(s, id, hard, DeleteRaises(committed))
               == (if allowed then BackendError else ForgetReported(s, id, hard, NoFault))
  {
    NoFaultNoFailure(s, id);
    LookupFailsExactly(s, s.topology.AllTiers(), id, DeleteRaises(committed), k, k);
    SoundLookup(s, id, hard, DeleteRaises(committed));
    ForgottenExactly(s, id, hard, k);
  }

  lemma {:induction false} LookupFailsExactly(s: FederationState, tiers: seq<Tier>, id: Uuid, fault: ForgetFault,
                                              k: nat, at: nat)
    requires StableSort.Distinct(tiers) && (forall t :: t in tiers ==> t in s.capabilities)
    requires k < |tiers| && Holds(s, tiers[k], id) && forall j :: 0 <= j < k ==> !Holds(s, tiers[j], id)
    requires fault.LookupRaises? ==> at < |tiers| && fault.tier == tiers[at]
    ensures LookupFails(s, tiers, id, fault)
            <==> fault.LookupRaises? && s.capabilities[fault.tier].canGet && at <= k
  {
    if fault.LookupRaises? && at > 0 {
      assert fault.tier != tiers[0];
    }
    if k > 0 && !(fault.LookupRaises? && at == 0) {
      LookupFailsExactly(s, tiers[1..], id, fault, k - 1, if at > 0 then at - 1 else 0);
    } else if k > 0 && LookupFails(s, tiers[1..], id, fault) && !s.capabilities[fault.tier].canGet {
      SilentTierNeverFails(s, tiers[1..], id, fault);
    }
    if k > 0 && fault.LookupRaises? && at == 0 && !s.capabilities[fault.tier].canGet {
      SilentTierNeverFails(s, tiers, id, fault);
    }
  }

  lemma {:induction false} SilentTierNeverFails(s: FederationState, tiers: seq<Tier>, id: Uuid, fault: ForgetFault)
    requires fault.LookupRaises? && fault.tier in s.capabilities && !s.capabilities[fault.tier].canGet
    ensures !LookupFails(s, tiers, id, fault)
  {
    if tiers != [] {
      SilentTierNeverFails(s, tiers[1..], id, fault);
    }
  }

  function SoftOutcome(s: FederationState, id: Uuid): ForgetOutcome {
    ForgetReported(s, id, false, NoFault)
  }

  function ForgetSoft(s: FederationState, id: Uuid): FederationState {
    ForgetState(s, id, false, NoFault)
  }

  lemma SoftForgetArchives(s: FederationState, id: Uuid)
    requires s.Valid() && SoftOutcome(s, id).Forgotten?
    ensures var t := SoftOutcome(s, id).tier;
            && t in s.stores && id in s.stores[t]
            && OwningTier(s, s.topology.AllTiers(), id) == Some(t) && Deletable(s, t)
            && ForgetSoft(s, id) == s.(stores := s.stores[t := s.stores[t][id := s.stores[t][id].(archived := true)]])
  {
    NoFaultNoFailure(s, id);
    OwnerHolds(s, s.topology.AllTiers(), id);
  }

  /** A soft delete only archives: the same id is found, and archived again, on every later call. */
  lemma SoftForgetNeverSettles(s: FederationState, id: Uuid)
    requires s.Valid() && SoftOutcome(s, id).Forgotten?
    ensures var next := ForgetSoft(s, id);
            && Holders(next, id) == Holders(s, id)
            && SoftOutcome(next, id) == SoftOutcome(s, id)
            && ForgetSoft(next, id) == next
  {
    SoftForgetArchives(s, id);
    var next, t := ForgetSoft(s, id), SoftOutcome(s, id).tier;
    assert forall x :: Holds(next, x, id) <==> Holds(s, x, id);
    SameHoldersSameOwner(s, next, s.topology.AllTiers(), id);
    SoftForgetAgain(next, id, t);
  }

  lemma SoftForgetAgain(s: FederationState, id: Uuid, t: Tier)
    requires OwningTier(s, s.topology.AllTiers(), id) == Some(t) && Deletable(s, t)
    requires t in s.stores && id in s.stores[t] && s.stores[t][id].archived
    ensures SoftOutcome(s, id) == Forgotten(t, false) && ForgetSoft(s, id) == s
  {
    NoFaultNoFailure(s, id);
    assert DeleteFrom(s.stores[t], id, false) == s.stores[t];
  }

  lemma {:induction false} SameHoldersSameOwner(s: FederationState, s': FederationState, tiers: seq<Tier>, id: Uuid)
    requires forall t :: t in tiers ==> (Holds(s', t, id) <==> Holds(s, t, id))
    ensures OwningTier(s', tiers, id) == OwningTier(s, tiers, id)
  {
    if tiers != [] {
      SameHoldersSameOwner(s, s', tiers[1..], id);
    }
  }
}
