/** A federated search against its specification: distinct ids, the most-local copy of each, ranked;
    and a failed tier is indistinguishable from an unregistered one. */
module FederatedSearch {
  import opened Options
  import opened MemoryTypes
  import opened StableSort
  import opened Router
  import opened Federation

  // ---------------------------------------------------------------------------
  // Merging
  // ---------------------------------------------------------------------------

  ghost predicate DistinctIds(s: seq<MemoryEntry>) {
    forall i, j :: 0 <= i < j < |s| ==> s[i].id != s[j].id
  }

  /** The reference notion of "most-local copy": the first entry with the id in arrival order. */
  function FirstWithId(s: seq<MemoryEntry>, id: Uuid): Option<MemoryEntry> {
    if s == [] then None
    else if s[0].id == id then Some(s[0])
    else FirstWithId(s[1..], id)
  }

  lemma {:induction false} FirstWithIdConcat(s: seq<MemoryEntry>, t: seq<MemoryEntry>, id: Uuid)
    ensures FirstWithId(s + t, id) == if FirstWithId(s, id).Some? then FirstWithId(s, id) else FirstWithId(t, id)
  {
    if s == [] {
      assert s + t == t;
    } else {
      assert (s + t)[1..] == s[1..] + t;
      FirstWithIdConcat(s[1..], t, id);
    }
  }

  lemma {:induction false} FirstWithIdIffPresent(s: seq<MemoryEntry>, id: Uuid)
    ensures FirstWithId(s, id).Some? <==> id in Ids(s)
    ensures FirstWithId(s, id).Some? ==> FirstWithId(s, id).value in s && FirstWithId(s, id).value.id == id
  {
    if s != [] {
      FirstWithIdIffPresent(s[1..], id);
      assert s == [s[0]] + s[1..];
      assert s[0] in s;
      if id in Ids(s) && s[0].id != id {
        var e :| e in s && e.id == id;
        assert e in s[1..];
      }
    }
  }

  lemma {:induction false} AbsorbSpec(merged: seq<MemoryEntry>, arriving: seq<MemoryEntry>, id: Uuid)
    requires DistinctIds(merged)
    ensures DistinctIds(Absorb(merged, arriving))
    ensures FirstWithId(Absorb(merged, arriving), id) == FirstWithId(merged + arriving, id)
    decreases |arriving|
  {
    if arriving == [] {
      assert merged + arriving == merged;
    } else {
      var e := arriving[0];
      FirstWithIdConcat(merged, arriving, id);
      FirstWithIdIffPresent(merged, id);
      if e.id in Ids(merged) {
        AbsorbSpec(merged, arriving[1..], id);
        FirstWithIdConcat(merged, arriving[1..], id);
      } else {
        forall i | 0 <= i < |merged|
          ensures merged[i].id != e.id
        {
          assert merged[i] in merged;
        }
        AbsorbSpec(merged + [e], arriving[1..], id);
        assert merged + [e] + arriving[1..] == merged + arriving;
      }
    }
  }

  /** The merged candidates hold each id once, as the copy from the first routed tier that returned it,
      and miss none. */
  lemma MergeIsFirstCopyPerId(answers: seq<seq<MemoryEntry>>)
    ensures DistinctIds(Merge(answers))
    ensures forall id :: FirstWithId(Merge(answers), id) == FirstWithId(Flatten(answers), id)
  {
    forall id
      ensures FirstWithId(Merge(answers), id) == FirstWithId(Flatten(answers), id)
    {
      AbsorbSpec([], Flatten(answers), id);
      assert [] + Flatten(answers) == Flatten(answers);
    }
    AbsorbSpec([], Flatten(answers), 0);
  }

  lemma {:induction false} DistinctEntryIsFirst(s: seq<MemoryEntry>, e: MemoryEntry)
    requires DistinctIds(s) && e in s
    ensures FirstWithId(s, e.id) == Some(e)
  {
    if s[0] != e {
      var i :| 0 <= i < |s| && s[i] == e;
      assert s[1..][i - 1] == e;
      DistinctEntryIsFirst(s[1..], e);
    }
  }

  /** The tier an answer comes from: no earlier routed tier returned the id. */
  lemma {:induction false} FirstCopyComesFromFirstTier(answers: seq<seq<MemoryEntry>>, id: Uuid, k: nat)
    requires k < |answers|
    requires forall i :: 0 <= i < k ==> id !in Ids(answers[i])
    requires id in Ids(answers[k])
    ensures FirstWithId(Flatten(answers), id) == FirstWithId(answers[k], id)
  {
    FirstWithIdConcat(answers[0], Flatten(answers[1..]), id);
    FirstWithIdIffPresent(answers[0], id);
    if k > 0 {
      FirstCopyComesFromFirstTier(answers[1..], id, k - 1);
    }
  }

  lemma SubBagOfDistinct(r: seq<MemoryEntry>, s: seq<MemoryEntry>)
    requires DistinctIds(s) && multiset(r) <= multiset(s)
    ensures DistinctIds(r) && forall e :: e in r ==> e in s
  {
    forall e | e in r
      ensures e in s
    {
      assert e in multiset(r);
      assert e in multiset(s);
    }
    forall i, j | 0 <= i < j < |r|
      ensures r[i].id != r[j].id
    {
      assert r[i] in s && r[j] in s;
      if r[i].id == r[j].id {
        DistinctEntryIsFirst(s, r[i]);
        DistinctEntryIsFirst(s, r[j]);
        TwoOccurrences(r, i, j);
        OneOccurrence(s, r[i]);
        assert false;
      }
    }
  }

  lemma TwoOccurrences(r: seq<MemoryEntry>, i: nat, j: nat)
    requires i < j < |r| && r[i] == r[j]
    ensures multiset(r)[r[i]] >= 2
  {
    assert r == r[..i] + [r[i]] + r[i + 1..j] + [r[j]] + r[j + 1..];
  }

  lemma {:induction false} OneOccurrence(s: seq<MemoryEntry>, e: MemoryEntry)
    requires DistinctIds(s)
    ensures multiset(s)[e] <= 1
  {
    if s != [] {
      assert s == [s[0]] + s[1..];
      OneOccurrence(s[1..], e);
      if s[0] == e && e in s[1..] {
        var i :| 1 <= i < |s| && s[i] == e;
        assert false;
      }
    }
  }

  // ---------------------------------------------------------------------------
  // The whole search
  // ---------------------------------------------------------------------------

  /** The ids whose first copy is live. */
  function LiveIds(arrived: seq<MemoryEntry>, live: MemoryEntry -> bool): set<Uuid> {
    set e | e in arrived && FirstWithId(arrived, e.id) == Some(e) && live(e) :: e.id
  }

  lemma IdsOfDistinct(s: seq<MemoryEntry>)
    requires DistinctIds(s)
    ensures |Ids(s)| == |s|
  {
    var ids := seq(|s|, i requires 0 <= i < |s| => s[i].id);
    SetOfSeqSize(ids);
    forall id
      ensures id in Ids(s) <==> id in ids
    {
      if id in ids {
        var i :| 0 <= i < |ids| && ids[i] == id;
        assert s[i] in s;
      }
      if e :| e in s && e.id == id {
        var i :| 0 <= i < |s| && s[i] == e;
        assert ids[i] == id;
      }
    }
    assert (set id | id in ids) == Ids(s);
  }

  lemma FilterDistinctIds(s: seq<MemoryEntry>, keep: MemoryEntry -> bool)
    requires DistinctIds(s)
    ensures DistinctIds(Filter(s, keep))
  {
    FilterOfMultiset(s, keep);
    SubBagOfDistinct(Filter(s, keep), s);
  }

  /** As many candidates survive as there are ids whose first copy is live. */
  lemma LiveCount(answers: seq<seq<MemoryEntry>>, live: MemoryEntry -> bool)
    ensures |Filter(Merge(answers), live)| == |LiveIds(Flatten(answers), live)|
  {
    var merged, arrived := Merge(answers), Flatten(answers);
    MergeIsFirstCopyPerId(answers);
    FilterDistinctIds(merged, live);
    IdsOfDistinct(Filter(merged, live));
    forall id
      ensures id in Ids(Filter(merged, live)) <==> id in LiveIds(arrived, live)
    {
      LiveIdExactly(answers, live, id);
    }
    assert Ids(Filter(merged, live)) == LiveIds(arrived, live);
  }

  lemma LiveIdExactly(answers: seq<seq<MemoryEntry>>, live: MemoryEntry -> bool, id: Uuid)
    ensures id in Ids(Filter(Merge(answers), live)) <==> id in LiveIds(Flatten(answers), live)
  {
    var merged, arrived := Merge(answers), Flatten(answers);
    MergeIsFirstCopyPerId(answers);
    FirstWithIdIffPresent(merged, id);
    FirstWithIdIffPresent(arrived, id);
    var first := FirstWithId(arrived, id);
    if first.Some? {
      FilterMember(merged, live, first.value);
    }
    forall e | e in Filter(merged, live) && e.id == id
      ensures first == Some(e) && live(e)
    {
      FilterMember(merged, live, e);
      DistinctEntryIsFirst(merged, e);
    }
  }

  /** The search answer: entries under distinct ids, each the first routed copy of its id, none aged out, best
      first; as many as there are ids with a live first copy, cut to the limit; and no live candidate left out
      sorts strictly above one returned. */
  lemma SearchRefinesSpecification(top: Topology, query: MemoryQuery, answer: Answers, ctx: RankContext)
    requires top.RouteRead(query).Routed?
    ensures var arrived := Flatten(AnswersOf(top.RouteRead(query).tiers, answer));
            var live := Live(ctx.profiles, ctx.now, ctx.half);
            var key := RankKey(ctx.weights, ctx.profiles, ctx.now, ctx.half);
            var r := Search(top, query, answer, ctx).entries;
            && DistinctIds(r)
            && Descending(r, key)
            && |r| == SliceLength(|LiveIds(arrived, live)|, query.limit)
            && (forall e :: e in r ==> FirstWithId(arrived, e.id) == Some(e) && live(e))
            && (forall e: MemoryEntry, o: MemoryEntry ::
                  e in r && FirstWithId(arrived, o.id) == Some(o) && o !in r && live(o) ==> !Above(key(o), key(e)))
  {
    var answers := AnswersOf(top.RouteRead(query).tiers, answer);
    var merged := Merge(answers);
    var r := Search(top, query, answer, ctx).entries;
    RankSpec(merged, query.limit, ctx.weights, ctx.profiles, ctx.now, ctx.half);
    LiveCount(answers, Live(ctx.profiles, ctx.now, ctx.half));
    MergeIsFirstCopyPerId(answers);
    SubBagOfDistinct(r, merged);
    forall e | e in r
      ensures FirstWithId(Flatten(answers), e.id) == Some(e)
    {
      DistinctEntryIsFirst(merged, e);
    }
    forall o: MemoryEntry | FirstWithId(Flatten(answers), o.id) == Some(o)
      ensures o in merged
    {
      FirstWithIdIffPresent(merged, o.id);
    }
  }

  /** A read fails exactly when it names a pool that nobody registered: neither a tier that fails nor a missing global
      tier makes it fail. */
  lemma AnswersExactly(top: Topology, query: MemoryQuery, answer: Answers, ctx: RankContext)
    requires top.Valid()
    ensures var unknown := query.scope == Some(SharedScope) && query.poolName.Some?
                           && query.poolName.value !in top.pools;
            && (Search(top, query, answer, ctx) == SearchRoutingError <==> unknown)
            && (Browse(top, query, answer, ctx) == SearchRoutingError <==> unknown)
  {
    ReadRouteExactly(top, query);
  }

  /** A search never returns an entry that a browse over the same answers, with room for all, hides. */
  lemma BrowseContainsSearch(top: Topology, query: MemoryQuery, answer: Answers, ctx: RankContext)
    requires top.RouteRead(query).Routed?
    requires query.limit >= |Merge(AnswersOf(top.RouteRead(query).tiers, answer))|
    ensures var shown := Browse(top, query, answer, ctx).entries;
            && (forall e :: e in Search(top, query, answer, ctx).entries ==> e in shown)
            && multiset(shown) == multiset(Merge(AnswersOf(top.RouteRead(query).tiers, answer)))
  {
    var merged := Merge(AnswersOf(top.RouteRead(query).tiers, answer));
    RankSpec(merged, query.limit, ctx.weights, ctx.profiles, ctx.now, ctx.half);
    BrowseShowsEverything(merged, query.limit, ctx.profiles, ctx.now, ctx.half);
    var found, shown := Search(top, query, answer, ctx).entries, Browse(top, query, answer, ctx).entries;
    forall e | e in found
      ensures e in shown
    {
      assert e in multiset(found);
      assert e in multiset(merged);
      assert e in multiset(shown);
    }
  }

  // ---------------------------------------------------------------------------
  // Failed tier = unregistered tier
  // ---------------------------------------------------------------------------

  function Failing(answer: Answers, failed: Tier): Answers {
    (t: Tier) => if t == failed then [] else answer(t)
  }

  function OtherThan(gone: Tier): Tier -> bool {
    (t: Tier) => t != gone
  }

  function Except(tiers: seq<Tier>, gone: Tier): seq<Tier> {
    Filter(tiers, OtherThan(gone))
  }

  lemma {:induction false} FlattenIgnoresFailed(tiers: seq<Tier>, answer: Answers, failed: Tier)
    ensures Flatten(AnswersOf(tiers, Failing(answer, failed))) == Flatten(AnswersOf(Except(tiers, failed), answer))
  {
    if tiers != [] {
      FlattenIgnoresFailed(tiers[1..], answer, failed);
      assert AnswersOf(tiers, Failing(answer, failed))[1..] == AnswersOf(tiers[1..], Failing(answer, failed));
      var kept := Except(tiers[1..], failed);
      if tiers[0] != failed {
        assert ([tiers[0]] + kept)[1..] == kept;
        assert AnswersOf([tiers[0]] + kept, answer)[1..] == AnswersOf(kept, answer);
      }
    }
  }

  lemma {:induction false} PoolTiersExcept(names: seq<string>, failed: Tier)
    ensures Except(Topology(names, false).PoolTiers(), failed)
            == Topology(Filter(names, PoolOtherThan(failed)), false).PoolTiers()
  {
    if names != [] {
      var tiers := Topology(names, false).PoolTiers();
      PoolTiersExcept(names[1..], failed);
      assert tiers[1..] == Topology(names[1..], false).PoolTiers();
      assert tiers[0] == PoolTier(names[0]);
      var kept := Filter(names[1..], PoolOtherThan(failed));
      var keptAll := Filter(names, PoolOtherThan(failed));
      assert PoolTier(names[0]) != failed ==> keptAll == [names[0]] + kept;
      assert Topology([names[0]] + kept, false).PoolTiers()
             == [PoolTier(names[0])] + Topology(kept, false).PoolTiers();
    }
  }

  lemma AllTiersExcept(top: Topology, failed: Tier)
    requires failed != PRIVATE_TIER
    ensures Except(top.AllTiers(), failed) == top.Without(failed).AllTiers()
  {
    PoolTiersExcept(top.pools, failed);
    var keep := OtherThan(failed);
    var last := if top.hasGlobal then [GLOBAL_TIER] else [];
    FilterConcat([PRIVATE_TIER] + top.PoolTiers(), last, keep);
    FilterConcat([PRIVATE_TIER], top.PoolTiers(), keep);
    assert Filter([PRIVATE_TIER], keep) == [PRIVATE_TIER];
    assert [GLOBAL_TIER][1..] == [];
  }

  /** The one read for which failing and being unregistered differ: a query that names the pool. */
  predicate NamesPool(query: MemoryQuery, tier: Tier) {
    query.scope == Some(SharedScope) && query.poolName.Some? && tier == PoolTier(query.poolName.value)
  }

  /** A federation with a failed pool or GLOBAL tier answers exactly like the same federation with that
      tier unregistered, except when the query names the failed pool: then it answers nothing where the
      unregistered pool is a routing error. */
  lemma FailedTierIsUnregistered(top: Topology, query: MemoryQuery, answer: Answers, ctx: RankContext, failed: Tier)
    requires failed in top.AllTiers() && failed != PRIVATE_TIER
    ensures Search(top, query, Failing(answer, failed), ctx) == Search(top.Without(failed), query, answer, ctx)
            <==> !NamesPool(query, failed)
  {
    var r := top.RouteRead(query);
    if NamesPool(query, failed) {
      UnregisteredPoolGone(top, query.poolName.value);
      PoolNameRegistered(top, query.poolName.value);
    } else if query.scope.Some? && query.scope.value.SharedScope? && query.poolName.Some? {
      OtherPoolsStay(top, failed, query.poolName.value);
      if r.Routed? {
        FlattenIgnoresFailed(r.tiers, answer, failed);
        ExceptOne(PoolTier(query.poolName.value), failed);
      }
    } else {
      FlattenIgnoresFailed(r.tiers, answer, failed);
      UnpinnedReadsSkipTheTier(top, query, failed);
    }
  }

  lemma ExceptOne(t: Tier, gone: Tier)
    ensures Except([t], gone) == if t == gone then [] else [t]
  {
    var keep, one := OtherThan(gone), [t];
    assert one[1..] == [] && keep(t) == (t != gone);
    assert Filter(one, keep) == if keep(one[0]) then [one[0]] + Filter(one[1..], keep) else Filter(one[1..], keep);
  }

  lemma UnpinnedReadsSkipTheTier(top: Topology, query: MemoryQuery, failed: Tier)
    requires failed in top.AllTiers() && failed != PRIVATE_TIER
    requires query.scope == Some(SharedScope) ==> query.poolName.None?
    ensures top.RouteRead(query).Routed?
    ensures top.Without(failed).RouteRead(query) == Routed(Except(top.RouteRead(query).tiers, failed))
  {
    match query.scope
    case None => AllTiersExcept(top, failed);
    case Some(PrivateScope) => ExceptOne(PRIVATE_TIER, failed);
    case Some(GlobalScope) => ExceptOne(GLOBAL_TIER, failed);
    case Some(SharedScope) => PoolsExcept(top, failed);
  }

  lemma PoolsExcept(top: Topology, failed: Tier)
    ensures top.Without(failed).PoolTiers() == Except(top.PoolTiers(), failed)
  {
    PoolTiersExcept(top.pools, failed);
    assert top.PoolTiers() == Topology(top.pools, false).PoolTiers();
    var rest := top.Without(failed);
    assert rest.PoolTiers() == Topology(rest.pools, false).PoolTiers();
  }

  lemma UnregisteredPoolGone(top: Topology, name: string)
    ensures name !in top.Without(PoolTier(name)).pools
  {
    FilterMember(top.pools, PoolOtherThan(PoolTier(name)), name);
  }

  lemma PoolNameRegistered(top: Topology, name: string)
    requires PoolTier(name) in top.AllTiers()
    ensures name in top.pools
  {
    var all := top.AllTiers();
    var i :| 0 <= i < |all| && all[i] == PoolTier(name);
    assert 1 <= i < 1 + |top.pools|;
    assert top.pools[i - 1] == name;
  }

  lemma OtherPoolsStay(top: Topology, failed: Tier, name: string)
    requires failed != PoolTier(name)
    ensures name in top.Without(failed).pools <==> name in top.pools
  {
    FilterMember(top.pools, PoolOtherThan(failed), name);
  }
}
