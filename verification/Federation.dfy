/** The federation: fan-out writes, merged reads, and deletes routed to the owning tier. */
module Federation {
  import opened Options
  import opened MemoryTypes
  import opened Decay
  import opened Router

  type Store = map<Uuid, MemoryEntry>

  /** What one tier's leg of a write came to. A failed leg may still have committed: a timeout cancels
      the wait, not a commit that already happened. `scope` is the scope the tier's wrapper reports. */
  datatype LegOutcome =
    | Stored
    | LegFailed(scope: MemoryScope, committed: bool)
    | Escaped(committed: bool)

  datatype MemoryOperation = WriteOperation | PromoteOperation

  datatype DegradedEvent = DegradedEvent(tier: Tier, operation: MemoryOperation)

  datatype WriteVerdict =
    | WriteReturned
    | RoutingRaised
    | MemoryWriteError
    | UnexpectedError

  datatype WriteReport = WriteReport(verdict: WriteVerdict, degraded: seq<DegradedEvent>)

  datatype Capability = Capability(canGet: bool, canDelete: bool)

  /** A backend error that surfaces from a by-id lookup or from the delete itself. A delete that raises may
      have taken the entry from the backend's own view: nothing rolls it back. */
  datatype ForgetFault = NoFault | LookupRaises(tier: Tier) | DeleteRaises(committed: bool)

  datatype ForgetOutcome =
    | NotFound
    | Forgotten(tier: Tier, hard: bool)
    | GlobalDeleteRefused
    | ReadOnlyTierDelete(tier: Tier)
    | BackendError

  type WriteLegs = Tier -> LegOutcome

  datatype FederationState = FederationState(
    topology: Topology,
    stores: map<Tier, Store>,
    capabilities: map<Tier, Capability>
  ) {
    ghost predicate Valid() {
      && topology.Valid()
      && (forall t :: t in topology.AllTiers() <==> t in stores)
      && stores.Keys == capabilities.Keys
    }
  }

  // ---------------------------------------------------------------------------
  // Write
  // ---------------------------------------------------------------------------

  function PayloadFor(tier: Tier, entry: MemoryEntry): MemoryEntry {
    if tier.scope == entry.scope then entry else entry.(scope := tier.scope, poolName := None)
  }

  predicate Commits(outcome: LegOutcome) {
    outcome.Stored? || outcome.committed
  }

  function ApplyLegs(stores: map<Tier, Store>, targets: seq<Tier>, entry: MemoryEntry, legs: WriteLegs):
    map<Tier, Store>
    requires forall t :: t in targets ==> t in stores
  {
    if targets == [] then stores
    else
      var t := targets[|targets| - 1];
      var before := ApplyLegs(stores, targets[..|targets| - 1], entry, legs);
      if Commits(legs(t)) && t in before then before[t := before[t][entry.id := PayloadFor(t, entry)]] else before
  }

  /** The result loop: the first fatal leg raises; degradable failures before it are reported. */
  function Verdict(targets: seq<Tier>, entry: MemoryEntry, legs: WriteLegs, degraded: seq<DegradedEvent>): WriteReport {
    if targets == [] then WriteReport(WriteReturned, degraded)
    else
      match legs(targets[0])
      case Stored => Verdict(targets[1..], entry, legs, degraded)
      case LegFailed(scope, _) =>
        if scope.PrivateScope? then WriteReport(MemoryWriteError, degraded)
        else
          var operation := if targets[0].scope != entry.scope then PromoteOperation else WriteOperation;
          Verdict(targets[1..], entry, legs, degraded + [DegradedEvent(targets[0], operation)])
      case Escaped(_) => WriteReport(UnexpectedError, degraded)
  }

  function WriteState(s: FederationState, entry: MemoryEntry, legs: WriteLegs): FederationState
    requires s.Valid()
  {
    match s.topology.RouteWrite(entry)
    case RoutingError => s
    case Routed(targets) =>
      TargetsRegistered(s, entry);
      s.(stores := ApplyLegs(s.stores, targets, entry, legs))
  }

  function WriteReported(s: FederationState, entry: MemoryEntry, legs: WriteLegs): WriteReport {
    match s.topology.RouteWrite(entry)
    case RoutingError => WriteReport(RoutingRaised, [])
    case Routed(targets) => Verdict(targets, entry, legs, [])
  }

  lemma PoolTierRegistered(top: Topology, name: string)
    requires name in top.pools
    ensures PoolTier(name) in top.AllTiers()
  {
    var i :| 0 <= i < |top.pools| && top.pools[i] == name;
    assert top.AllTiers()[i + 1] == PoolTier(name);
  }

  lemma TargetsRegistered(s: FederationState, entry: MemoryEntry)
    requires s.Valid()
    ensures var r := s.topology.RouteWrite(entry);
            r.Routed? ==> forall t :: t in r.tiers ==> t in s.stores
  {
    var top := s.topology;
    assert top.AllTiers()[0] == PRIVATE_TIER;
    if top.hasGlobal {
      assert top.AllTiers()[|top.AllTiers()| - 1] == GLOBAL_TIER;
    }
    if entry.scope.SharedScope? && entry.poolName.Some? && entry.poolName.value in top.pools {
      PoolTierRegistered(top, entry.poolName.value);
    }
  }

  // ---------------------------------------------------------------------------
  // Lookup and delete
  // ---------------------------------------------------------------------------

  predicate Holds(s: FederationState, tier: Tier, id: Uuid) {
    && tier in s.stores && tier in s.capabilities
    && s.capabilities[tier].canGet
    && id in s.stores[tier]
  }

  /** The first tier in routing order whose backend resolves the id. */
  function OwningTier(s: FederationState, tiers: seq<Tier>, id: Uuid): Option<Tier> {
    if tiers == [] then None
    else if Holds(s, tiers[0], id) then Some(tiers[0])
    else OwningTier(s, tiers[1..], id)
  }

  function Get(s: FederationState, id: Uuid): Option<MemoryEntry> {
    match OwningTier(s, s.topology.AllTiers(), id)
    case None => None
    case Some(t) => if Holds(s, t, id) then Some(s.stores[t][id]) else None
  }

  function DeleteFrom(store: Store, id: Uuid, hard: bool): Store {
    if id !in store then store
    else if hard then store - {id}
    else store[id := store[id].(archived := true)]
  }

  /** The lookup reaches a raising backend before any tier that holds the id. */
  predicate LookupFails(s: FederationState, tiers: seq<Tier>, id: Uuid, fault: ForgetFault) {
    && tiers != []
    && (if fault == LookupRaises(tiers[0]) && tiers[0] in s.capabilities && s.capabilities[tiers[0]].canGet then true
        else !Holds(s, tiers[0], id) && LookupFails(s, tiers[1..], id, fault))
  }

  /** The owner of the id when nothing raises on the way to it and it may be deleted from. */
  function DeletableOwner(s: FederationState, id: Uuid, fault: ForgetFault): Option<Tier> {
    if LookupFails(s, s.topology.AllTiers(), id, fault) then None
    else
      match OwningTier(s, s.topology.AllTiers(), id)
      case None => None
      case Some(t) => if Deletable(s, t) then Some(t) else None
  }

  predicate Deletable(s: FederationState, t: Tier) {
    !t.scope.GlobalScope? && t in s.capabilities && s.capabilities[t].canDelete
  }

  function Refusal(t: Tier): ForgetOutcome {
    if t.scope.GlobalScope? then GlobalDeleteRefused else ReadOnlyTierDelete(t)
  }

  function ForgetReported(s: FederationState, id: Uuid, hard: bool, fault: ForgetFault): ForgetOutcome {
    if LookupFails(s, s.topology.AllTiers(), id, fault) then BackendError
    else
      match OwningTier(s, s.topology.AllTiers(), id)
      case None => NotFound
      case Some(t) =>
        if !Deletable(s, t) then Refusal(t)
        else if fault.DeleteRaises? then BackendError
        else Forgotten(t, hard)
  }

  function ForgetState(s: FederationState, id: Uuid, hard: bool, fault: ForgetFault): FederationState {
    match DeletableOwner(s, id, fault)
    case None => s
    case Some(t) =>
      if t in s.stores && (!fault.DeleteRaises? || fault.committed) then
        s.(stores := s.stores[t := DeleteFrom(s.stores[t], id, hard)])
      else s
  }

  // ---------------------------------------------------------------------------
  // Merged reads
  // ---------------------------------------------------------------------------

  function Ids(s: seq<MemoryEntry>): set<Uuid> {
    set e | e in s :: e.id
  }

  /** `dict.setdefault` in arrival order: the first copy of each id stays. */
  function Absorb(merged: seq<MemoryEntry>, arriving: seq<MemoryEntry>): seq<MemoryEntry>
    decreases |arriving|
  {
    if arriving == [] then merged
    else if arriving[0].id in Ids(merged) then Absorb(merged, arriving[1..])
    else Absorb(merged + [arriving[0]], arriving[1..])
  }

  function Flatten(answers: seq<seq<MemoryEntry>>): seq<MemoryEntry> {
    if answers == [] then [] else answers[0] + Flatten(answers[1..])
  }

  function Merge(answers: seq<seq<MemoryEntry>>): seq<MemoryEntry> {
    Absorb([], Flatten(answers))
  }

  /** The clock, profiles and weights one read ranks with. */
  datatype RankContext = RankContext(weights: MemoryWeights, profiles: ProfileMap, now: real, half: real -> real)

  datatype SearchResult = Found(entries: seq<MemoryEntry>) | SearchRoutingError

  /** One answer per tier; a tier that failed answers with nothing. */
  type Answers = Tier -> seq<MemoryEntry>

  function AnswersOf(tiers: seq<Tier>, answer: Answers): seq<seq<MemoryEntry>> {
    seq(|tiers|, i requires 0 <= i < |tiers| => answer(tiers[i]))
  }

  function Search(top: Topology, query: MemoryQuery, answer: Answers, ctx: RankContext): SearchResult {
    match top.RouteRead(query)
    case RoutingError => SearchRoutingError
    case Routed(tiers) =>
      Found(Rank(Merge(AnswersOf(tiers, answer)), query.limit, ctx.weights, ctx.profiles, ctx.now, ctx.half))
  }

  function Browse(top: Topology, query: MemoryQuery, answer: Answers, ctx: RankContext): SearchResult {
    match top.RouteRead(query)
    case RoutingError => SearchRoutingError
    case Routed(tiers) =>
      Found(OrderByImportance(Merge(AnswersOf(tiers, answer)), query.limit, ctx.profiles, ctx.now, ctx.half))
  }

  // ---------------------------------------------------------------------------
  // The imperative federation
  // ---------------------------------------------------------------------------

  class MemoryFederation {
    const router: MemoryRouter
    const capabilities: map<Tier, Capability>
    var stores: map<Tier, Store>

    function State(): FederationState
      reads this, router
    {
      FederationState(router.View(), stores, capabilities)
    }

    ghost predicate Valid()
      reads this, router
    {
      router.Valid() && State().Valid()
    }

    constructor (router: MemoryRouter, stores: map<Tier, Store>, capabilities: map<Tier, Capability>)
      requires router.Valid() && FederationState(router.View(), stores, capabilities).Valid()
      ensures Valid() && State() == FederationState(router.View(), stores, capabilities)
    {
      this.router, this.stores, this.capabilities := router, stores, capabilities;
    }

    /** All legs run to an outcome first; only then are the results inspected in routing order. */
    method Write(entry: MemoryEntry, legs: WriteLegs) returns (report: WriteReport)
      requires Valid()
      modifies this`stores
      ensures Valid()
      ensures State() == WriteState(old(State()), entry, legs)
      ensures report == WriteReported(old(State()), entry, legs)
    {
      var routing := router.View().RouteWrite(entry);
      if routing.RoutingError? {
        return WriteReport(RoutingRaised, []);
      }
      TargetsRegistered(State(), entry);
      RunLegs(routing.tiers, entry, legs);
      report := Judge(routing.tiers, entry, legs);
    }

    method RunLegs(targets: seq<Tier>, entry: MemoryEntry, legs: WriteLegs)
      requires forall t :: t in targets ==> t in stores
      modifies this`stores
      ensures stores == ApplyLegs(old(stores), targets, entry, legs) && stores.Keys == old(stores).Keys
    {
      for i := 0 to |targets|
        invariant stores == ApplyLegs(old(stores), targets[..i], entry, legs)
        invariant stores.Keys == old(stores).Keys
      {
        var t := targets[i];
        assert targets[..i + 1][..i] == targets[..i];
        if Commits(legs(t)) {
          stores := stores[t := stores[t][entry.id := PayloadFor(t, entry)]];
        }
      }
      assert targets[..|targets|] == targets;
    }

    /** What the caller learns, once every leg has come to its outcome. */
    method Judge(targets: seq<Tier>, entry: MemoryEntry, legs: WriteLegs) returns (report: WriteReport)
      ensures report == Verdict(targets, entry, legs, [])
    {
      var degraded: seq<DegradedEvent> := [];
      for i := 0 to |targets|
        invariant Verdict(targets, entry, legs, []) == Verdict(targets[i..], entry, legs, degraded)
      {
        match legs(targets[i]) {
          case Stored =>
          case LegFailed(scope, _) =>
            if scope.PrivateScope? {
              return WriteReport(MemoryWriteError, degraded);
            }
            var operation := if targets[i].scope != entry.scope then PromoteOperation else WriteOperation;
            degraded := degraded + [DegradedEvent(targets[i], operation)];
          case Escaped(_) =>
            return WriteReport(UnexpectedError, degraded);
        }
      }
      report := WriteReport(WriteReturned, degraded);
    }

    /** Probes the tiers one after another and stops at the first hit. */
    method FindOwningTier(id: Uuid, fault: ForgetFault) returns (raised: bool, owner: Option<Tier>)
      requires Valid()
      ensures raised == LookupFails(State(), State().topology.AllTiers(), id, fault)
      ensures !raised ==> owner == OwningTier(State(), State().topology.AllTiers(), id)
    {
      var tiers := router.AllTiers();
      for i := 0 to |tiers|
        invariant LookupFails(State(), tiers, id, fault) == LookupFails(State(), tiers[i..], id, fault)
        invariant OwningTier(State(), tiers, id) == OwningTier(State(), tiers[i..], id)
      {
        assert tiers[i] in State().topology.AllTiers();
        if capabilities[tiers[i]].canGet {
          if fault == LookupRaises(tiers[i]) {
            return true, None;
          }
          if id in stores[tiers[i]] {
            return false, Some(tiers[i]);
          }
        }
      }
      return false, None;
    }

    method Forget(id: Uuid, hard: bool, fault: ForgetFault) returns (outcome: ForgetOutcome)
      requires Valid()
      modifies this`stores
      ensures Valid()
      ensures State() == ForgetState(old(State()), id, hard, fault)
      ensures outcome == ForgetReported(old(State()), id, hard, fault)
    {
      var t, refusal := FindDeletable(id, fault);
      if t.None? {
        return refusal;
      }
      OwnerHolds(State(), State().topology.AllTiers(), id);
      Remove(t.value, id, hard, fault);
      outcome := if fault.DeleteRaises? then BackendError else Forgotten(t.value, hard);
    }

    /** The tier to delete from, or why there is none. */
    method FindDeletable(id: Uuid, fault: ForgetFault) returns (t: Option<Tier>, refusal: ForgetOutcome)
      requires Valid()
      ensures t == DeletableOwner(State(), id, fault)
      ensures t.None? ==> forall hard :: refusal == ForgetReported(State(), id, hard, fault)
    {
      var raised, owner := FindOwningTier(id, fault);
      OwnerHolds(State(), State().topology.AllTiers(), id);
      if raised {
        return None, BackendError;
      }
      if owner.None? {
        return None, NotFound;
      }
      if owner.value.scope.GlobalScope? {
        return None, GlobalDeleteRefused;
      }
      if !capabilities[owner.value].canDelete {
        return None, ReadOnlyTierDelete(owner.value);
      }
      return owner, NotFound;
    }

    /** The delete of one backend, which may raise, having taken effect or not. */
    method Remove(t: Tier, id: Uuid, hard: bool, fault: ForgetFault)
      requires Valid() && t in stores
      modifies this`stores
      ensures Valid()
      ensures stores == if !fault.DeleteRaises? || fault.committed
                        then old(stores)[t := DeleteFrom(old(stores)[t], id, hard)] else old(stores)
    {
      if !fault.DeleteRaises? || fault.committed {
        stores := stores[t := DeleteFrom(stores[t], id, hard)];
      }
    }

    method SearchTiers(query: MemoryQuery, answer: Answers, ctx: RankContext) returns (r: SearchResult)
      ensures r == Search(router.View(), query, answer, ctx)
    {
      var routing := router.View().RouteRead(query);
      if routing.RoutingError? {
        return SearchRoutingError;
      }
      var merged := GatherMerged(routing.tiers, answer);
      r := Found(Rank(merged, query.limit, ctx.weights, ctx.profiles, ctx.now, ctx.half));
    }

    method BrowseTiers(query: MemoryQuery, answer: Answers, ctx: RankContext) returns (r: SearchResult)
      ensures r == Browse(router.View(), query, answer, ctx)
    {
      var routing := router.View().RouteRead(query);
      if routing.RoutingError? {
        return SearchRoutingError;
      }
      var merged := GatherMerged(routing.tiers, answer);
      r := Found(OrderByImportance(merged, query.limit, ctx.profiles, ctx.now, ctx.half));
    }

    /** The copy of the id in the first tier that has one. */
    method GetById(id: Uuid, fault: ForgetFault) returns (raised: bool, entry: Option<MemoryEntry>)
      requires Valid()
      ensures raised == LookupFails(State(), State().topology.AllTiers(), id, fault)
      ensures !raised ==> entry == Get(State(), id)
    {
      var failed, owner := FindOwningTier(id, fault);
      OwnerHolds(State(), State().topology.AllTiers(), id);
      if failed || owner.None? {
        return failed, None;
      }
      return false, Some(stores[owner.value][id]);
    }

    /** Tiers are merged in routing order; `ids` is the key set of the dict being filled. */
    method GatherMerged(tiers: seq<Tier>, answer: Answers) returns (merged: seq<MemoryEntry>)
      ensures merged == Merge(AnswersOf(tiers, answer))
    {
      merged := [];
      var ids: set<Uuid> := {};
      ghost var answers := AnswersOf(tiers, answer);
      for i := 0 to |tiers|
        invariant ids == Ids(merged)
        invariant Merge(answers) == Absorb(merged, Flatten(answers[i..]))
      {
        var result := answer(tiers[i]);
        for j := 0 to |result|
          invariant ids == Ids(merged)
          invariant Merge(answers) == Absorb(merged, result[j..] + Flatten(answers[i + 1..]))
        {
          ghost var pending := result[j..] + Flatten(answers[i + 1..]);
          assert pending[0] == result[j] && pending[1..] == result[j + 1..] + Flatten(answers[i + 1..]);
          if result[j].id !in ids {
            IdsAppend(merged, result[j]);
            merged := merged + [result[j]];
            ids := ids + {result[j].id};
          }
        }
        assert result[|result|..] + Flatten(answers[i + 1..]) == Flatten(answers[i + 1..]);
      }
    }
  }

  lemma IdsAppend(s: seq<MemoryEntry>, e: MemoryEntry)
    ensures Ids(s + [e]) == Ids(s) + {e.id}
  {
    assert forall x :: x in s + [e] <==> x in s || x == e;
    forall id | id in Ids(s) + {e.id}
      ensures id in Ids(s + [e])
    {
      if id != e.id {
        var x :| x in s && x.id == id;
        assert x in s + [e];
      } else {
        assert e in s + [e];
      }
    }
  }

  lemma {:induction false} LookupFailsOnlyOnLookupFault(s: FederationState, tiers: seq<Tier>, id: Uuid,
                                                        fault: ForgetFault)
    ensures LookupFails(s, tiers, id, fault) ==> fault.LookupRaises?
  {
    if tiers != [] {
      LookupFailsOnlyOnLookupFault(s, tiers[1..], id, fault);
    }
  }

  lemma {:induction false} OwnerHolds(s: FederationState, tiers: seq<Tier>, id: Uuid)
    ensures var o := OwningTier(s, tiers, id);
            match o
            case None => forall t :: t in tiers ==> !Holds(s, t, id)
            case Some(t) => t in tiers && Holds(s, t, id)
  {
    if tiers != [] && !Holds(s, tiers[0], id) {
      OwnerHolds(s, tiers[1..], id);
      assert tiers == [tiers[0]] + tiers[1..];
    }
  }
}
