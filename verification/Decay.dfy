/** Retrieval-time decay: a score computed from age, never a change to the stored importance. */
module Decay {
  import opened Options
  import opened MemoryTypes
  import opened Multiples
  import opened StableSort

  datatype DecayStrategy = Exponential | Linear | NoDecay

  datatype DecayProfile = DecayProfile(
    strategy: DecayStrategy,
    halfLifeDays: real,
    minImportance: real,
    refreshOnAccess: bool,
    consolidationThreshold: real
  )

  /** A profile for every memory type, as the router's merged profile dict always holds. */
  datatype ProfileMap = ProfileMap(episodic: DecayProfile, semantic: DecayProfile,
                                   procedural: DecayProfile, preference: DecayProfile) {
    function For(t: MemoryType): DecayProfile {
      match t
      case Episodic => episodic
      case Semantic => semantic
      case Procedural => procedural
      case Preference => preference
    }

    function With(t: MemoryType, p: DecayProfile): ProfileMap {
      match t
      case Episodic => this.(episodic := p)
      case Semantic => this.(semantic := p)
      case Procedural => this.(procedural := p)
      case Preference => this.(preference := p)
    }
  }

  const SECONDS_PER_DAY: real := 86400.0

  const EPISODIC_DEFAULT := DecayProfile(Exponential, 14.0, 0.05, true, 0.25)
  const SEMANTIC_DEFAULT := DecayProfile(Exponential, 180.0, 0.2, true, 0.1)
  const PROCEDURAL_DEFAULT := DecayProfile(Exponential, 365.0, 0.3, true, 0.05)
  const PREFERENCE_DEFAULT := DecayProfile(Exponential, 60.0, 0.15, true, 0.2)

  const DEFAULT_DECAY_PROFILES :=
    ProfileMap(EPISODIC_DEFAULT, SEMANTIC_DEFAULT, PROCEDURAL_DEFAULT, PREFERENCE_DEFAULT)

  const WORLD_PROFILE := DecayProfile(NoDecay, 0.0, 1.0, true, 0.2)

  // ---------------------------------------------------------------------------
  // The curve `0.5 ** x`
  // ---------------------------------------------------------------------------

  /** `half` behaves like `x => 0.5 ** x`: the exponential laws that determine it. Every decay
      theorem below holds for any such function. */
  ghost predicate IsHalfPower(half: real -> real) {
    && half(0.0) == 1.0
    && half(1.0) == 0.5
    && (forall x :: half(x) > 0.0)
    && (forall x, y :: TurnsSumsIntoProducts(half, x, y))
    && (forall x, y :: Falls(half, x, y))
  }

  ghost predicate Falls(half: real -> real, x: real, y: real) {
    x < y ==> half(x) > half(y)
  }

  ghost predicate TurnsSumsIntoProducts(half: real -> real, x: real, y: real) {
    half(x + y) == half(x) * half(y)
  }

  lemma HalfAtTwo(half: real -> real)
    requires IsHalfPower(half)
    ensures half(2.0) == 0.25
  {
    assert TurnsSumsIntoProducts(half, 1.0, 1.0);
  }

  // ---------------------------------------------------------------------------
  // decay.py
  // ---------------------------------------------------------------------------

  function Max(a: real, b: real): real {
    if a >= b then a else b
  }

  function Reference(entry: MemoryEntry, profile: DecayProfile): real {
    if profile.refreshOnAccess then entry.lastAccessedAt else entry.createdAt
  }

  function AgeDays(entry: MemoryEntry, profile: DecayProfile, now: real): real {
    Max(0.0, (now - Reference(entry, profile)) / SECONDS_PER_DAY)
  }

  predicate Exempt(entry: MemoryEntry, profile: DecayProfile) {
    entry.pinned || profile.strategy.NoDecay? || profile.halfLifeDays <= 0.0
  }

  /** The exponent of the curve: how many half-lives have passed. */
  function HalfLivesElapsed(entry: MemoryEntry, profile: DecayProfile, now: real): real
    requires profile.halfLifeDays > 0.0
  {
    AgeDays(entry, profile, now) / profile.halfLifeDays
  }

  /** The share of the stored importance left after `k` half-lives, before the floor applies. */
  function Retention(strategy: DecayStrategy, k: real, half: real -> real): real {
    if strategy.Linear? then Max(0.0, 1.0 - 0.5 * k) else half(k)
  }

  /** The score of an entry that decays, before the floor. */
  function Unfloored(entry: MemoryEntry, profile: DecayProfile, now: real, half: real -> real): real
    requires profile.halfLifeDays > 0.0
  {
    entry.importance * Retention(profile.strategy, HalfLivesElapsed(entry, profile, now), half)
  }

  function EffectiveImportance(entry: MemoryEntry, profile: DecayProfile, now: real, half: real -> real): real {
    if Exempt(entry, profile) then entry.importance
    else Max(profile.minImportance, Unfloored(entry, profile, now, half))
  }

  predicate ShouldConsolidate(entry: MemoryEntry, profile: DecayProfile, now: real, half: real -> real) {
    && !entry.pinned
    && !profile.strategy.NoDecay?
    && EffectiveImportance(entry, profile, now, half) < profile.consolidationThreshold
  }

  function DecayKey(profiles: map<MemoryType, DecayProfile>, now: real, half: real -> real): MemoryEntry -> SortKey {
    (e: MemoryEntry) =>
      SortKey(e.pinned,
              if e.memoryType in profiles then EffectiveImportance(e, profiles[e.memoryType], now, half)
              else e.importance,
              e.lastAccessedAt)
  }

  function StillFresh(profiles: map<MemoryType, DecayProfile>, now: real, half: real -> real): MemoryEntry -> bool {
    (e: MemoryEntry) =>
      e.memoryType !in profiles || !ShouldConsolidate(e, profiles[e.memoryType], now, half)
  }

  /** `decay_sorted`: a type without a profile never decays. */
  function DecaySorted(entries: seq<MemoryEntry>, profiles: map<MemoryType, DecayProfile>, now: real,
                       half: real -> real): seq<MemoryEntry> {
    SortDesc(Filter(entries, StillFresh(profiles, now, half)), DecayKey(profiles, now, half))
  }

  /** A key missing from `card` is a half-life the card leaves unset. */
  method ResolveDecayProfiles(card: map<MemoryType, real>, world: bool) returns (resolved: ProfileMap)
    ensures world ==> forall t :: resolved.For(t) == WORLD_PROFILE
    ensures world ==> forall t :: resolved.For(t).strategy == NoDecay
    ensures !world ==> forall t :: resolved.For(t) == CardProfile(card, t)
  {
    if world {
      return ProfileMap(WORLD_PROFILE, WORLD_PROFILE, WORLD_PROFILE, WORLD_PROFILE);
    }
    resolved := DEFAULT_DECAY_PROFILES;
    var order := [Episodic, Semantic, Procedural, Preference];
    for i := 0 to |order|
      invariant forall k :: 0 <= k < i ==> resolved.For(order[k]) == CardProfile(card, order[k])
    {
      if order[i] in card {
        resolved := resolved.With(order[i], DEFAULT_DECAY_PROFILES.For(order[i]).(halfLifeDays := card[order[i]]));
      } else {
        resolved := resolved.With(order[i], DEFAULT_DECAY_PROFILES.For(order[i]));
      }
    }
    forall t
      ensures resolved.For(t) == CardProfile(card, t)
    {
      assert order[0] == Episodic && order[1] == Semantic && order[2] == Procedural && order[3] == Preference;
    }
  }

  /** The system default for the type, with the card's half-life where it sets one. */
  function CardProfile(card: map<MemoryType, real>, t: MemoryType): DecayProfile {
    var base := DEFAULT_DECAY_PROFILES.For(t);
    if t in card then base.(halfLifeDays := card[t]) else base
  }

  // ---------------------------------------------------------------------------
  // What time does to the score
  // ---------------------------------------------------------------------------

  lemma QuotientGrows(a: real, b: real, d: real)
    requires d > 0.0 && a <= b
    ensures a / d <= b / d
  {
  }

  lemma MaxMono(floor: real, x: real, y: real)
    requires x <= y || x <= floor
    ensures Max(floor, x) <= Max(floor, y)
  {
  }

  lemma ElapsedGrows(entry: MemoryEntry, profile: DecayProfile, t1: real, t2: real)
    requires t1 <= t2 && profile.halfLifeDays > 0.0
    ensures 0.0 <= HalfLivesElapsed(entry, profile, t1) <= HalfLivesElapsed(entry, profile, t2)
  {
    QuotientGrows(AgeDays(entry, profile, t1), AgeDays(entry, profile, t2), profile.halfLifeDays);
    QuotientGrows(0.0, AgeDays(entry, profile, t1), profile.halfLifeDays);
  }

  lemma RetentionShrinks(strategy: DecayStrategy, k1: real, k2: real, half: real -> real)
    requires IsHalfPower(half) && 0.0 <= k1 <= k2
    ensures 0.0 <= Retention(strategy, k2, half) <= Retention(strategy, k1, half)
  {
    assert half(k1) > 0.0 && half(k2) > 0.0;
    if k1 < k2 {
      assert Falls(half, k1, k2);
    }
  }

  lemma RetentionFalls(entry: MemoryEntry, profile: DecayProfile, t1: real, t2: real, half: real -> real)
    requires IsHalfPower(half) && t1 <= t2 && profile.halfLifeDays > 0.0
    ensures Retention(profile.strategy, HalfLivesElapsed(entry, profile, t2), half)
         <= Retention(profile.strategy, HalfLivesElapsed(entry, profile, t1), half)
  {
    ElapsedGrows(entry, profile, t1, t2);
    RetentionShrinks(profile.strategy, HalfLivesElapsed(entry, profile, t1),
                     HalfLivesElapsed(entry, profile, t2), half);
  }

  /** Of two entries of one importance the one that has kept the larger share scores higher. */
  lemma UnflooredOrder(a: MemoryEntry, ta: real, b: MemoryEntry, tb: real, profile: DecayProfile, half: real -> real)
    requires profile.halfLifeDays > 0.0 && a.importance == b.importance >= 0.0
    requires Retention(profile.strategy, HalfLivesElapsed(a, profile, ta), half)
          <= Retention(profile.strategy, HalfLivesElapsed(b, profile, tb), half)
    ensures Unfloored(a, profile, ta, half) <= Unfloored(b, profile, tb, half)
  {
    ScaleLessEq(Retention(profile.strategy, HalfLivesElapsed(a, profile, ta), half),
                Retention(profile.strategy, HalfLivesElapsed(b, profile, tb), half), a.importance);
  }

  lemma UnflooredFalls(entry: MemoryEntry, profile: DecayProfile, t1: real, t2: real, half: real -> real)
    requires IsHalfPower(half) && t1 <= t2 && profile.halfLifeDays > 0.0 && entry.importance >= 0.0
    ensures Unfloored(entry, profile, t2, half) <= Unfloored(entry, profile, t1, half)
  {
    RetentionFalls(entry, profile, t1, t2, half);
    UnflooredOrder(entry, t2, entry, t1, profile, half);
  }

  /** With nonnegative importance the score never rises as time passes. */
  lemma ScoreNeverRises(entry: MemoryEntry, profile: DecayProfile, t1: real, t2: real, half: real -> real)
    requires IsHalfPower(half) && t1 <= t2 && entry.importance >= 0.0
    ensures EffectiveImportance(entry, profile, t2, half) <= EffectiveImportance(entry, profile, t1, half)
  {
    if !Exempt(entry, profile) {
      UnflooredFalls(entry, profile, t1, t2, half);
    }
  }

  /** Ageing out is permanent for as long as the entry is not accessed again. */
  lemma AgedOutForever(entry: MemoryEntry, profile: DecayProfile, t1: real, t2: real, half: real -> real)
    requires IsHalfPower(half) && t1 <= t2 && entry.importance >= 0.0
    requires ShouldConsolidate(entry, profile, t1, half)
    ensures ShouldConsolidate(entry, profile, t2, half)
  {
    ScoreNeverRises(entry, profile, t1, t2, half);
  }

  /** How many half-lives the span from `t1` to `t2` is. */
  function SpanHalfLives(profile: DecayProfile, t1: real, t2: real): real
    requires profile.halfLifeDays > 0.0
  {
    (t2 - t1) / SECONDS_PER_DAY / profile.halfLifeDays
  }

  lemma QuotientAdds(x: real, d: real, h: real)
    requires h > 0.0
    ensures (x + d) / h == x / h + d / h
  {
  }

  lemma ElapsedAdds(e: MemoryEntry, profile: DecayProfile, t1: real, t2: real)
    requires t1 <= t2 && profile.halfLifeDays > 0.0 && Reference(e, profile) <= t1
    ensures HalfLivesElapsed(e, profile, t2) == HalfLivesElapsed(e, profile, t1) + SpanHalfLives(profile, t1, t2)
  {
    var x := (t1 - Reference(e, profile)) / SECONDS_PER_DAY;
    var d := (t2 - t1) / SECONDS_PER_DAY;
    assert AgeDays(e, profile, t1) == x && AgeDays(e, profile, t2) == x + d;
    QuotientAdds(x, d, profile.halfLifeDays);
  }

  /** Between two instants every exponential share shrinks by the same factor. */
  lemma ShareShrinksBy(e: MemoryEntry, profile: DecayProfile, t1: real, t2: real, half: real -> real)
    returns (r: real)
    requires IsHalfPower(half) && t1 <= t2 && profile.halfLifeDays > 0.0 && Reference(e, profile) <= t1
    ensures r > 0.0 && half(HalfLivesElapsed(e, profile, t1)) == r
    ensures half(HalfLivesElapsed(e, profile, t2)) == r * half(SpanHalfLives(profile, t1, t2))
  {
    ElapsedAdds(e, profile, t1, t2);
    r := half(HalfLivesElapsed(e, profile, t1));
    assert TurnsSumsIntoProducts(half, HalfLivesElapsed(e, profile, t1), SpanHalfLives(profile, t1, t2));
  }

  lemma ShrunkScore(e: MemoryEntry, profile: DecayProfile, t1: real, t2: real, r: real, f: real, d: real,
                    half: real -> real)
    requires !Exempt(e, profile) && profile.strategy.Exponential? && d == e.importance * r
    requires half(HalfLivesElapsed(e, profile, t1)) == r && half(HalfLivesElapsed(e, profile, t2)) == r * f
    ensures EffectiveImportance(e, profile, t1, half) == Max(profile.minImportance, d)
    ensures EffectiveImportance(e, profile, t2, half) == Max(profile.minImportance, d * f)
  {
    ExponentialScore(e, profile, t1, half);
    ExponentialScore(e, profile, t2, half);
    Regroup(e.importance, r, f);
  }

  lemma ExponentialScore(e: MemoryEntry, profile: DecayProfile, t: real, half: real -> real)
    requires !Exempt(e, profile) && profile.strategy.Exponential?
    ensures EffectiveImportance(e, profile, t, half)
         == Max(profile.minImportance, e.importance * half(HalfLivesElapsed(e, profile, t)))
  {
  }

  lemma Regroup(x: real, r: real, f: real)
    ensures x * (r * f) == x * r * f
  {
  }

  /** Shrinking two floored scores by one factor keeps their order. */
  lemma CommonFactorKeepsOrder(floor: real, da: real, db: real, f: real)
    requires da >= 0.0 && db >= 0.0 && 0.0 <= f <= 1.0
    requires Max(floor, da) <= Max(floor, db)
    ensures Max(floor, da * f) <= Max(floor, db * f)
  {
    ShrunkenOrder(floor, da, db, f);
    MaxMono(floor, da * f, db * f);
  }

  lemma ShrunkenOrder(floor: real, da: real, db: real, f: real)
    requires da >= 0.0 && 0.0 <= f <= 1.0
    requires da <= db || da <= floor
    ensures da * f <= db * f || da * f <= floor
  {
    if da <= db {
      ScaleLessEq(da, db, f);
    } else {
      assert da * (1.0 - f) >= 0.0;
    }
  }

  lemma FactorAtMostOne(profile: DecayProfile, t1: real, t2: real, half: real -> real)
    requires IsHalfPower(half) && t1 <= t2 && profile.halfLifeDays > 0.0
    ensures 0.0 < half(SpanHalfLives(profile, t1, t2)) <= 1.0
  {
    QuotientGrows(0.0, (t2 - t1) / SECONDS_PER_DAY, profile.halfLifeDays);
    if 0.0 < SpanHalfLives(profile, t1, t2) {
      assert Falls(half, 0.0, SpanHalfLives(profile, t1, t2));
    }
  }

  /** The scores of two entries whose shares shrink by one factor keep their order, floor or not. */
  lemma SharesKeepOrder(a: MemoryEntry, b: MemoryEntry, profile: DecayProfile, t1: real, t2: real,
                        ra: real, rb: real, f: real, half: real -> real)
    requires BothDecay(a, b, profile) && profile.strategy.Exponential? && ra > 0.0 && rb > 0.0 && 0.0 <= f <= 1.0
    requires half(HalfLivesElapsed(a, profile, t1)) == ra && half(HalfLivesElapsed(a, profile, t2)) == ra * f
    requires half(HalfLivesElapsed(b, profile, t1)) == rb && half(HalfLivesElapsed(b, profile, t2)) == rb * f
    requires Below(a, b, profile, t1, half)
    ensures Below(a, b, profile, t2, half)
  {
    var da, db := a.importance * ra, b.importance * rb;
    ScaleLessEq(0.0, ra, a.importance);
    ScaleLessEq(0.0, rb, b.importance);
    ShrunkScore(a, profile, t1, t2, ra, f, da, half);
    ShrunkScore(b, profile, t1, t2, rb, f, db, half);
    CommonFactorKeepsOrder(profile.minImportance, da, db, f);
  }

  /** Exponential decay never strictly inverts two unpinned entries judged under one profile, as long
      as neither reference timestamp lies in the future when the comparison is first made. */
  lemma ExponentialKeepsOrder(a: MemoryEntry, b: MemoryEntry, profile: DecayProfile, t1: real, t2: real,
                              half: real -> real)
    requires IsHalfPower(half) && t1 <= t2
    requires profile.strategy.Exponential? && !a.pinned && !b.pinned
    requires a.importance >= 0.0 && b.importance >= 0.0
    requires Reference(a, profile) <= t1 && Reference(b, profile) <= t1
    requires EffectiveImportance(a, profile, t1, half) <= EffectiveImportance(b, profile, t1, half)
    ensures EffectiveImportance(a, profile, t2, half) <= EffectiveImportance(b, profile, t2, half)
  {
    if profile.halfLifeDays > 0.0 {
      FactorAtMostOne(profile, t1, t2, half);
      var ra := ShareShrinksBy(a, profile, t1, t2, half);
      var rb := ShareShrinksBy(b, profile, t1, t2, half);
      SharesKeepOrder(a, b, profile, t1, t2, ra, rb, half(SpanHalfLives(profile, t1, t2)), half);
    }
  }

  const LINEAR_TEN_DAYS := DecayProfile(Linear, 10.0, 0.0, false, 0.0)

  /** Under linear decay a more important entry that has been decaying for longer can fall behind. */
  lemma LinearInverts(half: real -> real)
    ensures exists a: MemoryEntry, b: MemoryEntry, t1, t2 ::
              && t1 <= t2 && !a.pinned && !b.pinned && a.importance >= 0.0 && b.importance >= 0.0
              && Reference(a, LINEAR_TEN_DAYS) <= t1 && Reference(b, LINEAR_TEN_DAYS) <= t1
              && EffectiveImportance(a, LINEAR_TEN_DAYS, t1, half) > EffectiveImportance(b, LINEAR_TEN_DAYS, t1, half)
              && EffectiveImportance(a, LINEAR_TEN_DAYS, t2, half) < EffectiveImportance(b, LINEAR_TEN_DAYS, t2, half)
  {
    var day := SECONDS_PER_DAY;
    var a := MemoryEntry(0, Episodic, "", PrivateScope, None, 1.0, false, 0.0, 0.0, false);
    var b := a.(importance := 0.5, createdAt := 8.0 * day);
    var t1, t2 := 8.0 * day, 18.0 * day;
    assert EffectiveImportance(a, LINEAR_TEN_DAYS, t1, half) == 0.6;
    assert EffectiveImportance(b, LINEAR_TEN_DAYS, t1, half) == 0.5;
    assert EffectiveImportance(a, LINEAR_TEN_DAYS, t2, half) == 0.1;
    assert EffectiveImportance(b, LINEAR_TEN_DAYS, t2, half) == 0.25;
  }

  /** So can, under exponential decay, an entry beside one stamped in the future, which does not decay yet. */
  lemma FutureTimestampInverts(half: real -> real)
    requires IsHalfPower(half)
    ensures exists a: MemoryEntry, b: MemoryEntry, t1, t2 ::
              && t1 <= t2 && !a.pinned && !b.pinned && a.importance >= 0.0 && b.importance >= 0.0
              && EffectiveImportance(a, EPISODIC_DEFAULT, t1, half) > EffectiveImportance(b, EPISODIC_DEFAULT, t1, half)
              && EffectiveImportance(a, EPISODIC_DEFAULT, t2, half) < EffectiveImportance(b, EPISODIC_DEFAULT, t2, half)
  {
    var fortnight := 14.0 * SECONDS_PER_DAY;
    var a := MemoryEntry(0, Episodic, "", PrivateScope, None, 1.0, false, 0.0, 0.0, false);
    var b := a.(importance := 0.9, lastAccessedAt := fortnight);
    assert EffectiveImportance(a, EPISODIC_DEFAULT, 0.0, half) == 1.0;
    assert EffectiveImportance(b, EPISODIC_DEFAULT, 0.0, half) == 0.9;
    assert EffectiveImportance(a, EPISODIC_DEFAULT, fortnight, half) == 0.5;
    assert EffectiveImportance(b, EPISODIC_DEFAULT, fortnight, half) == 0.9;
  }

  // ---------------------------------------------------------------------------
  // When one entry stays below another for good
  // ---------------------------------------------------------------------------

  /** `a` scores no higher than `b` at every time from `t1` on. */
  ghost predicate StaysBelow(a: MemoryEntry, b: MemoryEntry, profile: DecayProfile, t1: real, half: real -> real) {
    forall t :: t1 <= t ==> Below(a, b, profile, t, half)
  }

  predicate Below(a: MemoryEntry, b: MemoryEntry, profile: DecayProfile, t: real, half: real -> real) {
    EffectiveImportance(a, profile, t, half) <= EffectiveImportance(b, profile, t, half)
  }

  /** Two entries that decay, under one profile. */
  ghost predicate BothDecay(a: MemoryEntry, b: MemoryEntry, profile: DecayProfile) {
    !Exempt(a, profile) && !Exempt(b, profile) && a.importance >= 0.0 && b.importance >= 0.0
  }

  /** An entry stamped in the future keeps its score until then. */
  lemma FutureScoreStands(e: MemoryEntry, profile: DecayProfile, t1: real, t2: real, half: real -> real)
    requires t1 <= Reference(e, profile) && t2 <= Reference(e, profile)
    ensures EffectiveImportance(e, profile, t1, half) == EffectiveImportance(e, profile, t2, half)
  {
  }

  /** While `a` stands or has not begun to decay, `b` only loses ground; so it is enough to look at the end. */
  lemma BelowUntilDecay(a: MemoryEntry, b: MemoryEntry, profile: DecayProfile, t: real, start: real,
                        half: real -> real)
    requires IsHalfPower(half) && BothDecay(a, b, profile)
    requires t <= start && (t < start ==> start <= Reference(a, profile))
    requires Below(a, b, profile, start, half)
    ensures Below(a, b, profile, t, half)
  {
    if t < start {
      FutureScoreStands(a, profile, t, start, half);
      ScoreNeverRises(b, profile, t, start, half);
    }
  }

  /** While `b` stands, it only gains ground. */
  lemma BelowWhileOtherStands(a: MemoryEntry, b: MemoryEntry, profile: DecayProfile, start: real, t: real,
                              half: real -> real)
    requires IsHalfPower(half) && BothDecay(a, b, profile)
    requires start <= t <= Reference(b, profile) && Below(a, b, profile, start, half)
    ensures Below(a, b, profile, t, half)
  {
    FutureScoreStands(b, profile, start, t, half);
    ScoreNeverRises(a, profile, start, t, half);
  }

  /** The first time from `t1` on at which `a` is decaying. */
  function DecayStart(a: MemoryEntry, profile: DecayProfile, t1: real): real {
    Max(t1, Reference(a, profile))
  }

  /** Under exponential decay one comparison settles the order for good: the one made when the lower entry has begun
      to decay. */
  lemma ExponentialOrderExactly(a: MemoryEntry, b: MemoryEntry, profile: DecayProfile, t1: real, half: real -> real)
    requires IsHalfPower(half) && BothDecay(a, b, profile) && profile.strategy.Exponential?
    ensures StaysBelow(a, b, profile, t1, half) <==> Below(a, b, profile, DecayStart(a, profile, t1), half)
  {
    var start := DecayStart(a, profile, t1);
    if Below(a, b, profile, start, half) {
      forall t | t1 <= t
        ensures Below(a, b, profile, t, half)
      {
        if t <= start {
          BelowUntilDecay(a, b, profile, t, start, half);
        } else if t <= Reference(b, profile) {
          BelowWhileOtherStands(a, b, profile, start, t, half);
        } else {
          var both := Max(start, Reference(b, profile));
          if start < both {
            BelowWhileOtherStands(a, b, profile, start, both, half);
          }
          ExponentialKeepsOrder(a, b, profile, both, t, half);
        }
      }
    }
  }

  /** The share of its importance an entry loses per second under linear decay. */
  function LinearRate(profile: DecayProfile): real
    requires profile.halfLifeDays > 0.0
  {
    0.5 / (SECONDS_PER_DAY * profile.halfLifeDays)
  }

  /** What a linear score can fall to: scores are never negative. */
  function Bottom(profile: DecayProfile): real {
    Max(0.0, profile.minImportance)
  }

  /** When a linear score reaches its bottom; at once if there is nothing to lose. */
  function BottomTime(e: MemoryEntry, profile: DecayProfile): real
    requires profile.halfLifeDays > 0.0
  {
    if e.importance == 0.0 then Reference(e, profile)
    else
      RateTimesSpan(profile, 0.0);
      Reference(e, profile) + (1.0 - Bottom(profile) / e.importance) / LinearRate(profile)
  }

  /** The line a linear score follows from its reference time to its bottom. */
  function Line(e: MemoryEntry, profile: DecayProfile, t: real): real
    requires profile.halfLifeDays > 0.0
  {
    e.importance * (1.0 - LinearRate(profile) * (t - Reference(e, profile)))
  }

  lemma RateTimesSpan(profile: DecayProfile, d: real)
    requires profile.halfLifeDays > 0.0
    ensures LinearRate(profile) > 0.0
    ensures 0.5 * (d / SECONDS_PER_DAY / profile.halfLifeDays) == LinearRate(profile) * d
  {
    var h := profile.halfLifeDays;
    var q := d / SECONDS_PER_DAY / h;
    assert q * h * SECONDS_PER_DAY == d;
    assert LinearRate(profile) * (SECONDS_PER_DAY * h) == 0.5;
    assert LinearRate(profile) * d == LinearRate(profile) * (SECONDS_PER_DAY * h) * q;
  }

  lemma LinearScore(e: MemoryEntry, profile: DecayProfile, t: real, half: real -> real)
    requires profile.strategy.Linear? && !Exempt(e, profile) && e.importance >= 0.0
    requires Reference(e, profile) <= t
    ensures EffectiveImportance(e, profile, t, half) == Max(Bottom(profile), Line(e, profile, t))
  {
    var d := t - Reference(e, profile);
    RateTimesSpan(profile, d);
    assert AgeDays(e, profile, t) == d / SECONDS_PER_DAY;
    assert 0.5 * HalfLivesElapsed(e, profile, t) == LinearRate(profile) * d;
    var share := 1.0 - LinearRate(profile) * d;
    ScaledMax(e.importance, share);
  }

  lemma ScaledMax(x: real, share: real)
    requires x >= 0.0
    ensures x * Max(0.0, share) == Max(0.0, x * share)
  {
    if share >= 0.0 {
      ScaleLessEq(0.0, share, x);
    } else {
      ScaleLessEq(share, 0.0, x);
    }
  }

  /** `s` is the value at `t` of the line of this slope that falls to `floor` at `zero`. */
  predicate OnLine(floor: real, slope: real, zero: real, t: real, s: real) {
    s == floor + slope * (zero - t)
  }

  lemma LineFromBottom(e: MemoryEntry, profile: DecayProfile, slope: real, t: real)
    requires profile.halfLifeDays > 0.0 && e.importance > 0.0 && slope == e.importance * LinearRate(profile)
    ensures slope > 0.0 && OnLine(Bottom(profile), slope, BottomTime(e, profile), t, Line(e, profile, t))
  {
    RateTimesSpan(profile, 0.0);
    FallsToBottom(e.importance, LinearRate(profile), Bottom(profile), Reference(e, profile), t);
  }

  lemma FallsToBottom(x: real, r: real, floor: real, ref: real, t: real)
    requires x > 0.0 && r > 0.0
    ensures x * r > 0.0
    ensures OnLine(floor, x * r, ref + (1.0 - floor / x) / r, t, x * (1.0 - r * (t - ref)))
  {
    var share := floor / x;
    var left := (1.0 - share) / r;
    assert x * share == floor;
    assert r * left == 1.0 - share;
    assert x * r * left == x * (r * left) == x - x * share;
    assert x * r * (ref + left - t) == x * r * (ref - t) + x * r * left;
    assert x * (1.0 - r * (t - ref)) == x + x * r * (ref - t);
  }

  lemma AboveBottomExactly(e: MemoryEntry, profile: DecayProfile, t: real)
    requires profile.halfLifeDays > 0.0 && e.importance > 0.0
    ensures Line(e, profile, t) > Bottom(profile) <==> t < BottomTime(e, profile)
  {
    var slope := e.importance * LinearRate(profile);
    LineFromBottom(e, profile, slope, t);
    AboveFloorExactly(Bottom(profile), slope, BottomTime(e, profile), t, Line(e, profile, t));
  }

  lemma AboveFloorExactly(floor: real, slope: real, zero: real, t: real, s: real)
    requires slope > 0.0 && OnLine(floor, slope, zero, t, s)
    ensures s > floor <==> t < zero
  {
    if zero <= t {
      ScaleLessEq(zero - t, 0.0, slope);
    }
  }

  /** Between its reference time and its bottom a score follows its line. */
  lemma ScoreFollowsLine(e: MemoryEntry, profile: DecayProfile, slope: real, t: real, half: real -> real)
    requires profile.strategy.Linear? && !Exempt(e, profile) && e.importance > 0.0
    requires slope == e.importance * LinearRate(profile)
    requires Reference(e, profile) <= t < BottomTime(e, profile)
    ensures slope > 0.0
    ensures OnLine(Bottom(profile), slope, BottomTime(e, profile), t, EffectiveImportance(e, profile, t, half))
  {
    LinearScore(e, profile, t, half);
    AboveBottomExactly(e, profile, t);
    LineFromBottom(e, profile, slope, t);
  }

  /** A score above the bottom reaches it later, and not before the entry begins to decay. */
  lemma HighScoreBeforeBottom(e: MemoryEntry, profile: DecayProfile, t: real, half: real -> real)
    requires IsHalfPower(half) && profile.strategy.Linear? && !Exempt(e, profile) && e.importance >= 0.0
    requires EffectiveImportance(e, profile, t, half) > Bottom(profile)
    ensures e.importance > 0.0 && t < BottomTime(e, profile) && Reference(e, profile) <= BottomTime(e, profile)
  {
    var ref := Reference(e, profile);
    if e.importance == 0.0 {
      WorthlessScore(e, profile, t, half);
    } else if t < ref {
      FutureScoreStands(e, profile, t, ref, half);
      LinearScore(e, profile, ref, half);
      AboveBottomExactly(e, profile, ref);
    } else {
      ScoreNeverRises(e, profile, ref, t, half);
      LinearScore(e, profile, ref, half);
      LinearScore(e, profile, t, half);
      AboveBottomExactly(e, profile, ref);
      AboveBottomExactly(e, profile, t);
    }
  }

  lemma AtLeastBottom(e: MemoryEntry, profile: DecayProfile, t: real, half: real -> real)
    requires IsHalfPower(half) && !Exempt(e, profile) && e.importance >= 0.0
    ensures EffectiveImportance(e, profile, t, half) >= Bottom(profile)
  {
    ScoreIsNonnegative(e, profile, t, half);
  }

  lemma AlongLine(floor: real, r: real, zero: real, x: real, y: real, atX: real, atY: real)
    requires OnLine(floor, r, zero, x, atX) && OnLine(floor, r, zero, y, atY)
    ensures atY == atX - r * (y - x)
  {
    ScaledDifference(r, zero - x, y - x);
    assert zero - y == (zero - x) - (y - x);
  }

  lemma SteeperFallsFurther(ra: real, rb: real, d: real, aX: real, bX: real, aY: real, bY: real)
    requires ra >= rb && d >= 0.0 && aX <= bX
    requires aY == aX - ra * d && bY == bX - rb * d
    ensures aY <= bY
  {
    ScaleLessEq(rb, ra, d);
  }

  lemma FlatterIsBelow(floor: real, ra: real, leftA: real, rb: real, leftB: real)
    requires 0.0 < ra <= rb && 0.0 <= leftA <= leftB
    ensures floor + ra * leftA <= floor + rb * leftB
  {
    ScaleLessEq(leftA, leftB, rb);
    ScaleLessEq(ra, rb, leftA);
  }

  lemma ScaledDifference(r: real, p: real, q: real)
    ensures r * (p - q) == r * p - r * q
  {
  }

  /** If the lower of two lines falls to the floor first, they do not cross before that. */
  lemma NoCrossing(floor: real, ra: real, za: real, rb: real, zb: real, x: real, y: real,
                   aX: real, bX: real, aY: real, bY: real)
    requires ra > 0.0 && rb > 0.0 && x <= y <= za <= zb
    requires OnLine(floor, ra, za, x, aX) && OnLine(floor, rb, zb, x, bX) && aX <= bX
    requires OnLine(floor, ra, za, y, aY) && OnLine(floor, rb, zb, y, bY)
    ensures aY <= bY
  {
    if ra >= rb {
      AlongLine(floor, ra, za, x, y, aX, aY);
      AlongLine(floor, rb, zb, x, y, bX, bY);
      SteeperFallsFurther(ra, rb, y - x, aX, bX, aY, bY);
    } else {
      FlatterIsBelow(floor, ra, za - y, rb, zb - y);
    }
  }

  /** Past both reference times, and with the lower score to bottom out first. */
  lemma LinesKeepOrder(a: MemoryEntry, b: MemoryEntry, profile: DecayProfile, both: real, t: real, half: real -> real)
    requires IsHalfPower(half) && BothDecay(a, b, profile) && profile.strategy.Linear?
    requires a.importance > 0.0 && b.importance > 0.0
    requires Reference(a, profile) <= both && Reference(b, profile) <= both
    requires both <= t < BottomTime(a, profile) <= BottomTime(b, profile)
    requires Below(a, b, profile, both, half)
    ensures Below(a, b, profile, t, half)
  {
    var ra, rb := a.importance * LinearRate(profile), b.importance * LinearRate(profile);
    ScoreFollowsLine(a, profile, ra, both, half);
    ScoreFollowsLine(b, profile, rb, both, half);
    ScoreFollowsLine(a, profile, ra, t, half);
    ScoreFollowsLine(b, profile, rb, t, half);
    NoCrossing(Bottom(profile), ra, BottomTime(a, profile), rb, BottomTime(b, profile), both, t,
               EffectiveImportance(a, profile, both, half), EffectiveImportance(b, profile, both, half),
               EffectiveImportance(a, profile, t, half), EffectiveImportance(b, profile, t, half));
  }

  lemma LinearStaysBelow(a: MemoryEntry, b: MemoryEntry, profile: DecayProfile, start: real, t: real,
                         half: real -> real)
    requires IsHalfPower(half) && BothDecay(a, b, profile) && profile.strategy.Linear?
    requires Reference(a, profile) <= start <= t && Below(a, b, profile, start, half)
    requires EffectiveImportance(a, profile, start, half) > Bottom(profile)
    requires BottomTime(a, profile) <= BottomTime(b, profile)
    ensures Below(a, b, profile, t, half)
  {
    HighScoreBeforeBottom(a, profile, start, half);
    HighScoreBeforeBottom(b, profile, start, half);
    if t >= BottomTime(a, profile) {
      LinearScore(a, profile, t, half);
      AboveBottomExactly(a, profile, t);
      AtLeastBottom(b, profile, t, half);
    } else if t <= Reference(b, profile) {
      BelowWhileOtherStands(a, b, profile, start, t, half);
    } else {
      var both := Max(start, Reference(b, profile));
      if start < both {
        BelowWhileOtherStands(a, b, profile, start, both, half);
      }
      LinesKeepOrder(a, b, profile, both, t, half);
    }
  }

  lemma LinearOvertakes(a: MemoryEntry, b: MemoryEntry, profile: DecayProfile, start: real, half: real -> real)
    returns (t: real)
    requires IsHalfPower(half) && BothDecay(a, b, profile) && profile.strategy.Linear?
    requires Reference(a, profile) <= start && Below(a, b, profile, start, half)
    requires EffectiveImportance(a, profile, start, half) > Bottom(profile)
    requires BottomTime(a, profile) > BottomTime(b, profile)
    ensures start <= t && !Below(a, b, profile, t, half)
  {
    HighScoreBeforeBottom(a, profile, start, half);
    HighScoreBeforeBottom(b, profile, start, half);
    t := BottomTime(b, profile);
    LinearScore(a, profile, t, half);
    LinearScore(b, profile, t, half);
    AboveBottomExactly(a, profile, t);
    AboveBottomExactly(b, profile, t);
  }

  /** Under linear decay the lower of two entries stays below exactly if it is below when it has begun to decay, and
      by then sits at the bottom or gets there no later than the other: otherwise it overtakes. */
  lemma LinearOrderExactly(a: MemoryEntry, b: MemoryEntry, profile: DecayProfile, t1: real, half: real -> real)
    requires IsHalfPower(half) && BothDecay(a, b, profile) && profile.strategy.Linear?
    ensures var start := DecayStart(a, profile, t1);
            StaysBelow(a, b, profile, t1, half) <==>
              && Below(a, b, profile, start, half)
              && (EffectiveImportance(a, profile, start, half) == Bottom(profile)
                  || BottomTime(a, profile) <= BottomTime(b, profile))
  {
    var start := DecayStart(a, profile, t1);
    AtLeastBottom(a, profile, start, half);
    if Below(a, b, profile, start, half) {
      if EffectiveImportance(a, profile, start, half) == Bottom(profile) {
        AtBottomStaysBelow(a, b, profile, t1, half);
      } else if BottomTime(a, profile) <= BottomTime(b, profile) {
        forall t | t1 <= t
          ensures Below(a, b, profile, t, half)
        {
          if t <= start {
            BelowUntilDecay(a, b, profile, t, start, half);
          } else {
            LinearStaysBelow(a, b, profile, start, t, half);
          }
        }
      } else {
        var t := LinearOvertakes(a, b, profile, start, half);
      }
    }
  }

  lemma AtBottomStaysBelow(a: MemoryEntry, b: MemoryEntry, profile: DecayProfile, t1: real, half: real -> real)
    requires IsHalfPower(half) && BothDecay(a, b, profile)
    requires var start := DecayStart(a, profile, t1);
             && Below(a, b, profile, start, half)
             && EffectiveImportance(a, profile, start, half) == Bottom(profile)
    ensures StaysBelow(a, b, profile, t1, half)
  {
    var start := DecayStart(a, profile, t1);
    forall t | t1 <= t
      ensures Below(a, b, profile, t, half)
    {
      if t <= start {
        BelowUntilDecay(a, b, profile, t, start, half);
      } else {
        ScoreNeverRises(a, profile, start, t, half);
        AtLeastBottom(b, profile, t, half);
      }
    }
  }

  /** No entry of nonnegative importance is ever aged out. */
  ghost predicate NeverAgesOut(profile: DecayProfile, half: real -> real) {
    forall e: MemoryEntry, now :: e.importance >= 0.0 ==> !ShouldConsolidate(e, profile, now, half)
  }

  /** Exactly which profiles can never age anything out. Above a positive threshold the floor only protects a
      profile that has a positive half-life: without one the stored importance is returned before the floor
      applies. */
  lemma NeverAgesOutExactly(profile: DecayProfile, half: real -> real)
    requires IsHalfPower(half)
    ensures NeverAgesOut(profile, half)
            <==> (profile.strategy.NoDecay?
                  || profile.consolidationThreshold <= 0.0
                  || (profile.halfLifeDays > 0.0 && profile.minImportance >= profile.consolidationThreshold))
  {
    if profile.strategy.NoDecay? {
    } else if profile.consolidationThreshold <= 0.0 {
      forall e: MemoryEntry, now | e.importance >= 0.0
        ensures !ShouldConsolidate(e, profile, now, half)
      {
        ScoreIsNonnegative(e, profile, now, half);
      }
    } else if profile.halfLifeDays <= 0.0 || profile.minImportance < profile.consolidationThreshold {
      var e := MemoryEntry(0, Episodic, "", PrivateScope, None, 0.0, false, 0.0, 0.0, false);
      WorthlessScore(e, profile, 0.0, half);
      assert ShouldConsolidate(e, profile, 0.0, half);
    }
  }

  lemma ScoreIsNonnegative(e: MemoryEntry, profile: DecayProfile, now: real, half: real -> real)
    requires IsHalfPower(half) && e.importance >= 0.0
    ensures EffectiveImportance(e, profile, now, half) >= 0.0
  {
    if !Exempt(e, profile) {
      ElapsedGrows(e, profile, now, now);
      var k := HalfLivesElapsed(e, profile, now);
      RetentionShrinks(profile.strategy, k, k, half);
      ScaleLessEq(0.0, e.importance, Retention(profile.strategy, k, half));
    }
  }

  /** An entry of no importance scores the floor, or nothing where the floor does not apply. */
  lemma WorthlessScore(e: MemoryEntry, profile: DecayProfile, now: real, half: real -> real)
    requires e.importance == 0.0
    ensures EffectiveImportance(e, profile, now, half)
         == if Exempt(e, profile) then 0.0 else Max(profile.minImportance, 0.0)
  {
    if !Exempt(e, profile) {
      TimesZero(Retention(profile.strategy, HalfLivesElapsed(e, profile, now), half));
    }
  }

  lemma TimesZero(r: real)
    ensures 0.0 * r == 0.0
  {
  }

  /** When an exponential entry leaves retrieval: strictly past `k` half-lives, once its importance
      times `0.5 ** k` is at the threshold and the floor lies below the threshold. */
  lemma AgesOutAfter(entry: MemoryEntry, profile: DecayProfile, k: real, now: real, half: real -> real)
    requires IsHalfPower(half)
    requires profile.strategy.Exponential? && profile.halfLifeDays > 0.0 && !entry.pinned
    requires profile.minImportance < profile.consolidationThreshold && 0.0 < profile.consolidationThreshold
    requires 0.0 <= entry.importance && entry.importance * half(k) <= profile.consolidationThreshold
    requires HalfLivesElapsed(entry, profile, now) > k
    ensures ShouldConsolidate(entry, profile, now, half)
  {
    var x := HalfLivesElapsed(entry, profile, now);
    assert Falls(half, k, x) && half(x) > 0.0;
    if entry.importance > 0.0 {
      assert entry.importance * (half(k) - half(x)) > 0.0;
    } else {
      assert entry.importance * half(x) == 0.0;
    }
  }

  /** An EPISODIC entry of importance at most 1 is gone at every time past two half-lives, whatever
      positive half-life the card chose; with full importance it is still there at exactly two. */
  lemma EpisodicGoneAfterTwoHalfLives(entry: MemoryEntry, halfLife: real, now: real, half: real -> real)
    requires IsHalfPower(half) && halfLife > 0.0 && !entry.pinned && 0.0 <= entry.importance <= 1.0
    ensures var p := EPISODIC_DEFAULT.(halfLifeDays := halfLife);
            && (HalfLivesElapsed(entry, p, now) > 2.0 ==> ShouldConsolidate(entry, p, now, half))
            && (HalfLivesElapsed(entry, p, now) == 2.0 && entry.importance == 1.0
                ==> !ShouldConsolidate(entry, p, now, half))
  {
    var p := EPISODIC_DEFAULT.(halfLifeDays := halfLife);
    HalfAtTwo(half);
    if HalfLivesElapsed(entry, p, now) > 2.0 {
      AgesOutAfter(entry, p, 2.0, now, half);
    }
  }

  // ---------------------------------------------------------------------------
  // The curve in figures
  // ---------------------------------------------------------------------------

  /** The moment `k` half-lives after the entry's clock was last set: by its last access where the profile lets an
      access do that, by its creation otherwise. */
  function After(k: real, e: MemoryEntry, profile: DecayProfile): real {
    (if profile.refreshOnAccess then e.lastAccessedAt else e.createdAt) + k * profile.halfLifeDays * 86400.0
  }

  lemma ElapsedAfter(e: MemoryEntry, profile: DecayProfile, k: real)
    requires profile.halfLifeDays > 0.0
    ensures HalfLivesElapsed(e, profile, After(k, e, profile)) == Max(0.0, k)
  {
    var days := k * profile.halfLifeDays;
    assert (After(k, e, profile) - Reference(e, profile)) / 86400.0 == days;
    UndoProduct(k, profile.halfLifeDays);
    if k >= 0.0 {
      ScaleLessEq(0.0, k, profile.halfLifeDays);
    } else {
      ScaleLessEq(k, 0.0, profile.halfLifeDays);
      assert days <= 0.0;
    }
  }

  lemma UndoProduct(q: real, d: real)
    requires d > 0.0
    ensures (q * d) / d == q
  {
  }

  /** At every moment, counted in half-lives of 86400-second days: an exponential entry has kept `0.5 ** k` of its
      importance, a linear one loses half of it per half-life, neither falls below the floor, and nothing is lost
      before the clock starts. A pin, a profile without decay or one without a half-life keeps the importance, and the
      first two keep the entry in retrieval. */
  lemma ScoreAfterHalfLives(e: MemoryEntry, profile: DecayProfile, k: real, half: real -> real)
    ensures e.pinned || profile.strategy == NoDecay || profile.halfLifeDays <= 0.0 ==>
              forall now :: EffectiveImportance(e, profile, now, half) == e.importance
    ensures e.pinned || profile.strategy == NoDecay ==> forall now :: !ShouldConsolidate(e, profile, now, half)
    ensures !e.pinned && profile.halfLifeDays > 0.0 ==>
              var score := EffectiveImportance(e, profile, After(k, e, profile), half);
              var left := if k <= 0.0 then 0.0 else k;
              && (profile.strategy == Exponential ==> score == Max(profile.minImportance, e.importance * half(left)))
              && (profile.strategy == Linear && k <= 0.0 ==> score == Max(profile.minImportance, e.importance))
              && (profile.strategy == Linear && 0.0 <= k <= 2.0 ==>
                    score == Max(profile.minImportance, e.importance - e.importance * k / 2.0))
              && (profile.strategy == Linear && 2.0 <= k ==> score == Max(profile.minImportance, 0.0))
  {
    if profile.halfLifeDays > 0.0 && profile.strategy == Linear {
      ElapsedAfter(e, profile, k);
      LinearShare(e.importance, if k <= 0.0 then 0.0 else k);
    } else if profile.halfLifeDays > 0.0 {
      ElapsedAfter(e, profile, k);
    }
  }

  lemma LinearShare(x: real, k: real)
    ensures x * Max(0.0, 1.0 - 0.5 * k) == if k >= 2.0 then 0.0 else x - x * k / 2.0
  {
    if k >= 2.0 {
      TimesZero(x);
    } else {
      assert x * (1.0 - 0.5 * k) == x - x * (0.5 * k);
    }
  }

  /** One half-life halves an unpinned entry on either curve, as far as the floor allows. */
  lemma HalfLifeHalves(e: MemoryEntry, profile: DecayProfile, half: real -> real)
    requires IsHalfPower(half) && !e.pinned && profile.halfLifeDays > 0.0 && profile.strategy != NoDecay
    ensures EffectiveImportance(e, profile, After(1.0, e, profile), half)
         == Max(profile.minImportance, e.importance / 2.0)
  {
    ScoreAfterHalfLives(e, profile, 1.0, half);
  }

  /** The least importance that memories of the type stay in retrieval with. */
  function AgedOutBelow(t: MemoryType): real {
    match t
    case Episodic => 0.25
    case Semantic => 0.1
    case Procedural => 0.05
    case Preference => 0.2
  }

  /** What a type's score never falls below by age. */
  function NeverBelow(t: MemoryType): real {
    match t
    case Episodic => 0.05
    case Semantic => 0.2
    case Procedural => 0.3
    case Preference => 0.15
  }

  /** What the card sets the type's half-life to, or else two weeks, six months, a year or two months. */
  function HalfLifeOn(card: map<MemoryType, real>, t: MemoryType): real {
    if t in card then card[t]
    else
      match t
      case Episodic => 14.0
      case Semantic => 180.0
      case Procedural => 365.0
      case Preference => 60.0
  }

  lemma CardFigures(card: map<MemoryType, real>, t: MemoryType)
    ensures CardProfile(card, t)
         == DecayProfile(Exponential, HalfLifeOn(card, t), NeverBelow(t), true, AgedOutBelow(t))
  {
  }

  lemma ScoreInFigures(e: MemoryEntry, days: real, floor: real, threshold: real, k: real, half: real -> real)
    requires !e.pinned && k >= 0.0
    ensures var profile := DecayProfile(Exponential, days, floor, true, threshold);
            var now := e.lastAccessedAt + k * days * 86400.0;
            var score := if days <= 0.0 then e.importance else Max(floor, e.importance * half(k));
            && EffectiveImportance(e, profile, now, half) == score
            && (ShouldConsolidate(e, profile, now, half) <==> score < threshold)
  {
    var profile := DecayProfile(Exponential, days, floor, true, threshold);
    var now := e.lastAccessedAt + k * days * 86400.0;
    ScoreAfterHalfLives(e, profile, k, half);
    assert now == After(k, e, profile);
    assert days <= 0.0 ==> EffectiveImportance(e, profile, now, half) == e.importance;
  }

  /** An entry under any card, `k` half-lives of its type after its last access: its score, and exactly when it has
      aged out. A type whose floor lies above its threshold only ever ages out under a card that takes its half-life
      away. */
  lemma CardScores(e: MemoryEntry, card: map<MemoryType, real>, k: real, half: real -> real)
    requires !e.pinned && k >= 0.0
    ensures var days, profile := HalfLifeOn(card, e.memoryType), CardProfile(card, e.memoryType);
            var now := e.lastAccessedAt + k * days * 86400.0;
            var score := if days <= 0.0 then e.importance
                         else Max(NeverBelow(e.memoryType), e.importance * half(k));
            && EffectiveImportance(e, profile, now, half) == score
            && (ShouldConsolidate(e, profile, now, half) <==> score < AgedOutBelow(e.memoryType))
            && (days > 0.0 && (e.memoryType == Semantic || e.memoryType == Procedural) ==>
                  !ShouldConsolidate(e, profile, now, half))
  {
    var t := e.memoryType;
    CardFigures(card, t);
    ScoreInFigures(e, HalfLifeOn(card, t), NeverBelow(t), AgedOutBelow(t), k, half);
  }
}
