/** Routing decisions and the ranking of merged candidates. */
module Router {
  import opened Options
  import opened MemoryTypes
  import opened StableSort
  import opened Decay

  datatype MemoryWeights = MemoryWeights(episodic: real, semantic: real, procedural: real, preference: real) {
    function ForType(t: MemoryType): real {
      match t
      case Episodic => episodic
      case Semantic => semantic
      case Procedural => procedural
      case Preference => preference
    }
  }

  /** The routing and truncation half of a query; its metadata filters act inside each backend. */
  datatype MemoryQuery = MemoryQuery(scope: Option<MemoryScope>, poolName: Option<string>, limit: int)

  /** A registered backend, named by the scope it serves and, for a shared pool, the pool's name. */
  datatype Tier = Tier(scope: MemoryScope, poolName: Option<string>)

  const PRIVATE_TIER := Tier(PrivateScope, None)
  const GLOBAL_TIER := Tier(GlobalScope, None)

  function PoolTier(name: string): Tier {
    Tier(SharedScope, Some(name))
  }

  function PoolOtherThan(tier: Tier): string -> bool {
    (name: string) => PoolTier(name) != tier
  }

  datatype Routing = Routed(tiers: seq<Tier>) | RoutingError

  /** Which tiers exist. The private tier always does; `pools` keeps the dict's insertion order. */
  datatype Topology = Topology(pools: seq<string>, hasGlobal: bool) {

    ghost predicate Valid() {
      Distinct(pools)
    }

    function PoolTiers(): seq<Tier> {
      seq(|pools|, i requires 0 <= i < |pools| => PoolTier(pools[i]))
    }

    function AllTiers(): seq<Tier> {
      [PRIVATE_TIER] + PoolTiers() + (if hasGlobal then [GLOBAL_TIER] else [])
    }

    function RequirePool(name: Option<string>): Routing {
      if name.Some? && name.value in pools then Routed([PoolTier(name.value)]) else RoutingError
    }

    function RouteWrite(entry: MemoryEntry): Routing {
      match entry.scope
      case PrivateScope =>
        Routed([PRIVATE_TIER] + if entry.ShouldPromoteToGlobal() && hasGlobal then [GLOBAL_TIER] else [])
      case SharedScope => RequirePool(entry.poolName)
      case GlobalScope => if hasGlobal then Routed([GLOBAL_TIER]) else RoutingError
    }

    function RouteRead(query: MemoryQuery): Routing {
      match query.scope
      case None => Routed(AllTiers())
      case Some(PrivateScope) => Routed([PRIVATE_TIER])
      case Some(GlobalScope) => Routed(if hasGlobal then [GLOBAL_TIER] else [])
      case Some(SharedScope) => if query.poolName.Some? then RequirePool(query.poolName) else Routed(PoolTiers())
    }

    function Without(tier: Tier): Topology {
      Topology(Filter(pools, PoolOtherThan(tier)), hasGlobal && tier != GLOBAL_TIER)
    }
  }

  lemma AllTiersDistinct(top: Topology)
    requires top.Valid()
    ensures var tiers := top.AllTiers();
            && Distinct(tiers)
            && |tiers| == 1 + |top.pools| + (if top.hasGlobal then 1 else 0)
            && tiers[0] == Tier(PrivateScope, None)
            && (forall i :: 0 <= i < |top.pools| ==> tiers[1 + i] == Tier(SharedScope, Some(top.pools[i])))
            && (top.hasGlobal ==> tiers[|tiers| - 1] == Tier(GlobalScope, None))
  {
  }

  /** The query asks for this tier: by no scope at all, or by its scope and, where it names a pool, its name. */
  predicate AsksFor(query: MemoryQuery, t: Tier) {
    || query.scope == None
    || (query.scope == Some(t.scope)
        && (t.scope == SharedScope && query.poolName.Some? ==> t.poolName == query.poolName))
  }

  function Asks(query: MemoryQuery): Tier -> bool {
    (t: Tier) => AsksFor(query, t)
  }

  lemma FilterTiers(top: Topology, query: MemoryQuery)
    ensures Filter(top.AllTiers(), Asks(query))
         == (if AsksFor(query, PRIVATE_TIER) then [PRIVATE_TIER] else [])
            + Filter(top.PoolTiers(), Asks(query))
            + (if top.hasGlobal && AsksFor(query, GLOBAL_TIER) then [GLOBAL_TIER] else [])
  {
    var global := if top.hasGlobal then [GLOBAL_TIER] else [];
    FilterConcat([PRIVATE_TIER] + top.PoolTiers(), global, Asks(query));
    FilterConcat([PRIVATE_TIER], top.PoolTiers(), Asks(query));
  }

  lemma PoolsAsked(top: Topology, query: MemoryQuery)
    requires top.Valid()
    ensures query.scope != None && query.scope != Some(SharedScope) ==> Filter(top.PoolTiers(), Asks(query)) == []
    ensures query.scope == None || (query.scope == Some(SharedScope) && query.poolName == None) ==>
              Filter(top.PoolTiers(), Asks(query)) == top.PoolTiers()
    ensures query.scope == Some(SharedScope) && query.poolName.Some? && query.poolName.value in top.pools ==>
              Filter(top.PoolTiers(), Asks(query)) == [PoolTier(query.poolName.value)]
  {
    var pools, asks := top.PoolTiers(), Asks(query);
    if query.scope == None || (query.scope == Some(SharedScope) && query.poolName == None) {
      FilterAll(pools, asks);
    } else if query.scope != Some(SharedScope) {
      FilterNone(pools, asks);
    } else if query.poolName.value in top.pools {
      var at :| 0 <= at < |top.pools| && top.pools[at] == query.poolName.value;
      FilterOne(pools, asks, at);
    }
  }

  /** A read fails exactly when it names a pool nobody registered, and otherwise reaches exactly the registered tiers
      it asks for, in the order of all tiers. */
  lemma ReadRouteExactly(top: Topology, query: MemoryQuery)
    requires top.Valid()
    ensures top.RouteRead(query)
         == if query.scope == Some(SharedScope) && query.poolName.Some? && query.poolName.value !in top.pools
            then RoutingError
            else Routed(Filter(top.AllTiers(), Asks(query)))
  {
    FilterTiers(top, query);
    PoolsAsked(top, query);
  }

  predicate Registered(top: Topology, t: Tier) {
    || t == PRIVATE_TIER
    || (top.hasGlobal && t == GLOBAL_TIER)
    || (t.scope.SharedScope? && t.poolName.Some? && t.poolName.value in top.pools)
  }

  lemma TiersExactly(top: Topology, t: Tier)
    ensures t in top.AllTiers() <==> Registered(top, t)
  {
    var pools := top.PoolTiers();
    if t.scope.SharedScope? && t.poolName.Some? && t.poolName.value in top.pools {
      var i :| 0 <= i < |top.pools| && top.pools[i] == t.poolName.value;
      assert pools[i] == t;
    }
    if t in pools {
      var i :| 0 <= i < |pools| && pools[i] == t;
      assert t == PoolTier(top.pools[i]);
    }
    assert t in top.AllTiers() <==> t in [PRIVATE_TIER] || t in pools || (top.hasGlobal && t == GLOBAL_TIER);
  }

  /** A backend, bare or inside a resilient tier that reports failures under a scope of its own. */
  datatype Adapter = Bare(backend: int) | Wrapped(backend: int, scope: MemoryScope)

  /** A bare backend is wrapped for the scope it is registered under; a wrapped one is taken as it is. */
  function Wrap(a: Adapter, scope: MemoryScope): Adapter {
    match a
    case Bare(backend) => Wrapped(backend, scope)
    case Wrapped(_, _) => a
  }

  /** The topology with the wrapped backend of every tier. */
  datatype Registry = Registry(top: Topology, adapters: map<Tier, Adapter>) {

    ghost predicate Valid() {
      && top.Valid()
      && (forall t :: Registered(top, t) <==> t in adapters)
      && (forall t :: t in adapters ==> adapters[t].Wrapped?)
    }

    /** Registering an existing name replaces its backend in place; a new name joins at the end. */
    function Register(name: string, adapter: Adapter): Registry {
      Registry(if name in top.pools then top else Topology(top.pools + [name], top.hasGlobal),
               adapters[PoolTier(name) := Wrap(adapter, SharedScope)])
    }

    /** The scope under which the tier's failures are reported. */
    function Label(t: Tier): MemoryScope {
      if t in adapters && adapters[t].Wrapped? then adapters[t].scope else t.scope
    }
  }

  function NewRegistry(private: Adapter, global: Option<Adapter>): Registry {
    var wrapped := map[PRIVATE_TIER := Wrap(private, PrivateScope)];
    Registry(Topology([], global.Some?),
             if global.Some? then wrapped[GLOBAL_TIER := Wrap(global.value, GlobalScope)] else wrapped)
  }

  datatype Registration = Registration(name: string, adapter: Adapter)

  function RegisterAll(r: Registry, pools: seq<Registration>): Registry {
    if pools == [] then r
    else
      var last := pools[|pools| - 1];
      RegisterAll(r, pools[..|pools| - 1]).Register(last.name, last.adapter)
  }

  /** The adapter a pool was registered with last. */
  function LastFor(pools: seq<Registration>, name: string): Option<Adapter> {
    if pools == [] then None
    else
      var last := pools[|pools| - 1];
      if last.name == name then Some(last.adapter) else LastFor(pools[..|pools| - 1], name)
  }

  /** No later registration is for the same pool. */
  predicate LastAt(pools: seq<Registration>, i: nat)
    requires i < |pools|
  {
    forall j :: i < j < |pools| ==> pools[j].name != pools[i].name
  }

  lemma {:induction false} LastForExactly(pools: seq<Registration>, i: nat)
    requires i < |pools| && LastAt(pools, i)
    ensures LastFor(pools, pools[i].name) == Some(pools[i].adapter)
  {
    if i < |pools| - 1 {
      assert pools[..|pools| - 1][i] == pools[i];
      LastForExactly(pools[..|pools| - 1], i);
    }
  }

  /** The tier's adapter is the given one, and reports under the tier's scope unless it came wrapped. */
  predicate Serves(r: Registry, t: Tier, given: Adapter) {
    && t in r.adapters
    && r.adapters[t] == match given
                        case Bare(backend) => Wrapped(backend, t.scope)
                        case Wrapped(backend, scope) => Wrapped(backend, scope)
  }

  /** No earlier registration is for the same pool. */
  predicate FirstAt(pools: seq<Registration>, i: nat)
    requires i < |pools|
  {
    forall j :: 0 <= j < i ==> pools[j].name != pools[i].name
  }

  /** Pools keep the order in which they were first registered, and each keeps the adapter registered for it last. */
  lemma {:induction false} PoolsKeepTheirPlace(private: Adapter, global: Option<Adapter>, pools: seq<Registration>)
    ensures var r := RegisterAll(NewRegistry(private, global), pools);
            && (forall i :: 0 <= i < |pools| ==> pools[i].name in r.top.pools)
            && (forall i :: 0 <= i < |pools| && LastAt(pools, i) ==>
                  Serves(r, Tier(SharedScope, Some(pools[i].name)), pools[i].adapter))
            && (forall m, n :: 0 <= m < n < |r.top.pools| ==>
                  exists i, j :: 0 <= i < j < |pools| && FirstAt(pools, i) && FirstAt(pools, j)
                                 && pools[i].name == r.top.pools[m] && pools[j].name == r.top.pools[n])
  {
    var r := RegisterAll(NewRegistry(private, global), pools);
    var places := PlacesOf(private, global, pools);
    forall i | 0 <= i < |pools| && LastAt(pools, i)
      ensures Serves(r, Tier(SharedScope, Some(pools[i].name)), pools[i].adapter)
    {
      LastForExactly(pools, i);
      RegistrationsExactly(private, global, pools, PoolTier(pools[i].name));
      assert PoolTier(pools[i].name) in r.adapters;
    }
    forall m, n | 0 <= m < n < |r.top.pools|
      ensures exists i, j :: 0 <= i < j < |pools| && FirstAt(pools, i) && FirstAt(pools, j)
                             && pools[i].name == r.top.pools[m] && pools[j].name == r.top.pools[n]
    {
      assert FirstAt(pools, places[m]) && FirstAt(pools, places[n]);
    }
  }

  /** Where each pool of the router was first registered. */
  ghost predicate ArePlaces(places: seq<nat>, names: seq<string>, pools: seq<Registration>) {
    && |places| == |names|
    && (forall m :: 0 <= m < |places| ==>
          places[m] < |pools| && FirstAt(pools, places[m]) && pools[places[m]].name == names[m])
    && (forall m, n :: 0 <= m < n < |places| ==> places[m] < places[n])
    && (forall i :: 0 <= i < |pools| ==> pools[i].name in names)
  }

  lemma {:induction false} PlacesOf(private: Adapter, global: Option<Adapter>, pools: seq<Registration>)
    returns (places: seq<nat>)
    ensures ArePlaces(places, RegisterAll(NewRegistry(private, global), pools).top.pools, pools)
  {
    if pools == [] {
      places := [];
    } else {
      var init, last := pools[..|pools| - 1], pools[|pools| - 1];
      places := PlacesOf(private, global, init);
      var names := RegisterAll(NewRegistry(private, global), init).top.pools;
      PlacesGrow(places, names, init, last);
      if last.name !in names {
        places := places + [|init|];
      }
      assert pools == init + [last];
    }
  }

  lemma PlacesGrow(places: seq<nat>, names: seq<string>, init: seq<Registration>, last: Registration)
    requires ArePlaces(places, names, init)
    ensures last.name in names ==> ArePlaces(places, names, init + [last])
    ensures last.name !in names ==> ArePlaces(places + [|init|], names + [last.name], init + [last])
  {
    var pools := init + [last];
    forall m | 0 <= m < |places|
      ensures FirstAt(pools, places[m])
    {
      assert FirstAt(init, places[m]);
    }
    forall i | 0 <= i < |pools|
      ensures pools[i].name in names + [last.name]
      ensures i < |init| ==> pools[i].name in names
    {
      if i < |init| {
        assert init[i].name in names;
      }
    }
    if last.name !in names {
      forall j | 0 <= j < |init|
        ensures pools[j].name != last.name
      {
        assert init[j].name in names;
      }
      assert FirstAt(pools, |init|);
    }
  }

  lemma RegisterKeepsValid(r: Registry, name: string, adapter: Adapter)
    requires r.Valid()
    ensures r.Register(name, adapter).Valid()
  {
    var next := r.Register(name, adapter);
    forall t
      ensures Registered(next.top, t) <==> t in next.adapters
    {
      assert Registered(r.top, t) <==> t in r.adapters;
    }
  }

  /** After any registrations every tier has one adapter and no other has: the private and the global one as given
      at the start, each pool the last one registered for it, wrapped for its scope unless it came wrapped. */
  lemma {:induction false} RegistrationsExactly(private: Adapter, global: Option<Adapter>, pools: seq<Registration>,
                                                t: Tier)
    ensures var r := RegisterAll(NewRegistry(private, global), pools);
            && r.Valid() && r.top.hasGlobal == global.Some?
            && (t in r.top.AllTiers() <==> t in r.adapters)
            && Serves(r, PRIVATE_TIER, private)
            && (global.Some? ==> Serves(r, GLOBAL_TIER, global.value))
            && (forall name ::
                  && (PoolTier(name) in r.adapters <==> LastFor(pools, name).Some?)
                  && (PoolTier(name) in r.adapters ==> Serves(r, PoolTier(name), LastFor(pools, name).value)))
  {
    if pools != [] {
      var init, last := pools[..|pools| - 1], pools[|pools| - 1];
      RegistrationsExactly(private, global, init, t);
      RegisterKeepsValid(RegisterAll(NewRegistry(private, global), init), last.name, last.adapter);
    }
    TiersExactly(RegisterAll(NewRegistry(private, global), pools).top, t);
  }

  class MemoryRouter {
    var pools: seq<string>
    var adapters: map<Tier, Adapter>
    const hasGlobal: bool
    const weights: MemoryWeights
    const profiles: ProfileMap

    function View(): Topology
      reads this
    {
      Topology(pools, hasGlobal)
    }

    function Tiers(): Registry
      reads this
    {
      Registry(View(), adapters)
    }

    ghost predicate Valid()
      reads this
    {
      Tiers().Valid()
    }

    constructor (private: Adapter, global: Option<Adapter>, weights: MemoryWeights, profiles: ProfileMap)
      ensures Valid() && Tiers() == NewRegistry(private, global)
      ensures this.weights == weights && this.profiles == profiles
    {
      this.pools, this.hasGlobal := [], global.Some?;
      this.weights, this.profiles := weights, profiles;
      var wrapped := map[PRIVATE_TIER := Wrap(private, PrivateScope)];
      adapters := if global.Some? then wrapped[GLOBAL_TIER := Wrap(global.value, GlobalScope)] else wrapped;
    }

    method RegisterPool(name: string, adapter: Adapter)
      requires Valid()
      modifies this`pools, this`adapters
      ensures Valid() && Tiers() == old(Tiers()).Register(name, adapter)
    {
      RegisterKeepsValid(Tiers(), name, adapter);
      if name !in pools {
        pools := pools + [name];
      }
      adapters := adapters[PoolTier(name) := Wrap(adapter, SharedScope)];
    }

    /** Every tier listed has its adapter. */
    method AllTiers() returns (tiers: seq<Tier>)
      requires Valid()
      ensures tiers == View().AllTiers()
      ensures forall t :: t in tiers <==> t in adapters
    {
      tiers := [PRIVATE_TIER];
      for i := 0 to |pools|
        invariant tiers == [PRIVATE_TIER] + View().PoolTiers()[..i]
      {
        tiers := tiers + [PoolTier(pools[i])];
      }
      if hasGlobal {
        tiers := tiers + [GLOBAL_TIER];
      }
      forall t
        ensures t in View().AllTiers() <==> t in adapters
      {
        TiersExactly(View(), t);
      }
    }
  }

  // ---------------------------------------------------------------------------
  // Ranking
  // ---------------------------------------------------------------------------

  function BrowseKey(profiles: ProfileMap, now: real, half: real -> real): MemoryEntry -> SortKey {
    (e: MemoryEntry) =>
      SortKey(e.pinned, EffectiveImportance(e, profiles.For(e.memoryType), now, half), e.lastAccessedAt)
  }

  function RankKey(weights: MemoryWeights, profiles: ProfileMap, now: real, half: real -> real):
    MemoryEntry -> SortKey
  {
    (e: MemoryEntry) => Scaled(BrowseKey(profiles, now, half)(e), weights.ForType(e.memoryType))
  }

  function Live(profiles: ProfileMap, now: real, half: real -> real): MemoryEntry -> bool {
    (e: MemoryEntry) => !ShouldConsolidate(e, profiles.For(e.memoryType), now, half)
  }

  function Rank(entries: seq<MemoryEntry>, limit: int, weights: MemoryWeights, profiles: ProfileMap, now: real,
                half: real -> real): seq<MemoryEntry> {
    Slice(SortDesc(Filter(entries, Live(profiles, now, half)), RankKey(weights, profiles, now, half)), limit)
  }

  function OrderByImportance(entries: seq<MemoryEntry>, limit: int, profiles: ProfileMap, now: real,
                             half: real -> real): seq<MemoryEntry> {
    Slice(SortDesc(entries, BrowseKey(profiles, now, half)), limit)
  }

  lemma RankSpec(entries: seq<MemoryEntry>, limit: int, weights: MemoryWeights, profiles: ProfileMap, now: real,
                 half: real -> real)
    ensures IsTop(Rank(entries, limit, weights, profiles, now, half), entries,
                  Live(profiles, now, half), RankKey(weights, profiles, now, half), limit)
  {
    FilterSortSlice(entries, Live(profiles, now, half), RankKey(weights, profiles, now, half), limit);
  }

  /** The entry's score times the weight of its type. */
  function WeightedScore(e: MemoryEntry, weights: MemoryWeights, profiles: ProfileMap, now: real,
                         half: real -> real): real {
    match e.memoryType
    case Episodic => EffectiveImportance(e, profiles.episodic, now, half) * weights.episodic
    case Semantic => EffectiveImportance(e, profiles.semantic, now, half) * weights.semantic
    case Procedural => EffectiveImportance(e, profiles.procedural, now, half) * weights.procedural
    case Preference => EffectiveImportance(e, profiles.preference, now, half) * weights.preference
  }

  /** An entry may stand before another: pinned before unpinned, then the higher score, then the later access. */
  predicate MayPrecede(a: MemoryEntry, scoreA: real, b: MemoryEntry, scoreB: real) {
    || (a.pinned && !b.pinned)
    || (a.pinned == b.pinned && scoreA > scoreB)
    || (a.pinned == b.pinned && scoreA == scoreB && a.lastAccessedAt >= b.lastAccessedAt)
  }

  /** The entry's score has fallen below what its type is kept in retrieval for. */
  predicate AgedOut(e: MemoryEntry, profiles: ProfileMap, now: real, half: real -> real) {
    match e.memoryType
    case Episodic => ShouldConsolidate(e, profiles.episodic, now, half)
    case Semantic => ShouldConsolidate(e, profiles.semantic, now, half)
    case Procedural => ShouldConsolidate(e, profiles.procedural, now, half)
    case Preference => ShouldConsolidate(e, profiles.preference, now, half)
  }

  lemma RankKeyScores(weights: MemoryWeights, profiles: ProfileMap, now: real, half: real -> real)
    ensures forall e :: RankKey(weights, profiles, now, half)(e)
                     == SortKey(e.pinned, WeightedScore(e, weights, profiles, now, half), e.lastAccessedAt)
    ensures forall e :: Live(profiles, now, half)(e) == !AgedOut(e, profiles, now, half)
  {
    forall e: MemoryEntry
      ensures RankKey(weights, profiles, now, half)(e)
           == SortKey(e.pinned, WeightedScore(e, weights, profiles, now, half), e.lastAccessedAt)
    {
      ScaledScore(e, weights, profiles, now, half);
      var key, w := BrowseKey(profiles, now, half)(e), weights.ForType(e.memoryType);
      assert key == SortKey(e.pinned, EffectiveImportance(e, profiles.For(e.memoryType), now, half), e.lastAccessedAt);
      assert RankKey(weights, profiles, now, half)(e) == Scaled(key, w);
      assert Scaled(key, w) == SortKey(e.pinned, key.score * w, e.lastAccessedAt);
    }
  }

  lemma ScaledScore(e: MemoryEntry, weights: MemoryWeights, profiles: ProfileMap, now: real, half: real -> real)
    ensures WeightedScore(e, weights, profiles, now, half)
         == EffectiveImportance(e, profiles.For(e.memoryType), now, half) * weights.ForType(e.memoryType)
  {
  }

  /** Nothing aged out is ranked; what is stands in the order of pin, weighted score and last access; and nothing
      live that was left out might stand before something kept only by more than a tie. */
  lemma RankedByWeightedScore(entries: seq<MemoryEntry>, limit: int, weights: MemoryWeights, profiles: ProfileMap,
                              now: real, half: real -> real)
    ensures var r := Rank(entries, limit, weights, profiles, now, half);
            && (forall i :: 0 <= i < |r| ==> r[i] in entries && !AgedOut(r[i], profiles, now, half))
            && (forall i, j :: 0 <= i < j < |r| ==>
                  MayPrecede(r[i], WeightedScore(r[i], weights, profiles, now, half),
                             r[j], WeightedScore(r[j], weights, profiles, now, half)))
            && (forall x, y :: x in r && y in entries && y !in r && !AgedOut(y, profiles, now, half) ==>
                  MayPrecede(x, WeightedScore(x, weights, profiles, now, half),
                             y, WeightedScore(y, weights, profiles, now, half)))
  {
    var r, key := Rank(entries, limit, weights, profiles, now, half), RankKey(weights, profiles, now, half);
    RankSpec(entries, limit, weights, profiles, now, half);
    RankKeyScores(weights, profiles, now, half);
    forall i | 0 <= i < |r|
      ensures r[i] in entries
    {
      assert r[i] in multiset(r);
    }
  }

  /** A listing stands in the order of pin, score without weights, and last access. */
  lemma BrowsedByScore(entries: seq<MemoryEntry>, limit: int, profiles: ProfileMap, now: real, half: real -> real,
                       i: nat, j: nat)
    requires i < j < |OrderByImportance(entries, limit, profiles, now, half)|
    ensures var r, ones := OrderByImportance(entries, limit, profiles, now, half), MemoryWeights(1.0, 1.0, 1.0, 1.0);
            MayPrecede(r[i], WeightedScore(r[i], ones, profiles, now, half),
                       r[j], WeightedScore(r[j], ones, profiles, now, half))
  {
    SortSlice(entries, BrowseKey(profiles, now, half), limit);
    RankKeyScores(MemoryWeights(1.0, 1.0, 1.0, 1.0), profiles, now, half);
  }

  function Everything(): MemoryEntry -> bool {
    (e: MemoryEntry) => true
  }

  lemma {:induction false} FilterEverything(entries: seq<MemoryEntry>)
    ensures Filter(entries, Everything()) == entries
  {
    if entries != [] {
      FilterEverything(entries[1..]);
    }
  }

  /** A listing is the top of all entries, aged out or not; with room for everything it shows everything. */
  lemma BrowseShowsEverything(entries: seq<MemoryEntry>, limit: int, profiles: ProfileMap, now: real,
                              half: real -> real)
    ensures var r := OrderByImportance(entries, limit, profiles, now, half);
            && IsTop(r, entries, Everything(), BrowseKey(profiles, now, half), limit)
            && |r| == SliceLength(|entries|, limit)
            && (limit >= |entries| ==> multiset(r) == multiset(entries))
  {
    FilterEverything(entries);
    FilterSortSlice(entries, Everything(), BrowseKey(profiles, now, half), limit);
    SortSlice(entries, BrowseKey(profiles, now, half), limit);
  }

  function AsMap(p: ProfileMap): map<MemoryType, DecayProfile> {
    map[Episodic := p.episodic, Semantic := p.semantic, Procedural := p.procedural, Preference := p.preference]
  }

  /** `decay_sorted` is the weightless view of the router's ranking: equal positive weights change
      nothing but the scale of the scores. */
  lemma EqualWeightsRankLikeDecaySorted(entries: seq<MemoryEntry>, w: real, profiles: ProfileMap, now: real,
                                        half: real -> real)
    requires w > 0.0
    ensures Rank(entries, |entries|, MemoryWeights(w, w, w, w), profiles, now, half)
            == DecaySorted(entries, AsMap(profiles), now, half)
  {
    var weights := MemoryWeights(w, w, w, w);
    var m := AsMap(profiles);
    var keep1, keep2 := Live(profiles, now, half), StillFresh(m, now, half);
    var key1, key2 := RankKey(weights, profiles, now, half), DecayKey(m, now, half);
    forall i | 0 <= i < |entries|
      ensures key1(entries[i]) == Scaled(key2(entries[i]), w)
    {
      var e := entries[i];
      assert weights.ForType(e.memoryType) == w && m[e.memoryType] == profiles.For(e.memoryType);
      assert key2(e) == BrowseKey(profiles, now, half)(e);
    }
    ScalingKeepsOrder(entries, key2, key1, w);
    SameRanking(entries, keep1, keep2, key1, key2);
    FilterShrinks(entries, keep1);
    SortDescMembers(Filter(entries, keep1), key1);
  }
}
