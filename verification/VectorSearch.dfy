/** Semantic and hybrid retrieval over a vector index and a row table. */
module VectorSearch {
  import opened Options
  import opened MemoryTypes
  import opened Multiples
  import opened Sets
  import opened StableSort

  type RowFilter = MemoryEntry -> bool

  type Table = map<Uuid, MemoryEntry>

  /** Rows are stored under their own id. */
  ghost predicate TableValid(table: Table) {
    forall id :: id in table ==> table[id].id == id
  }

  // ---------------------------------------------------------------------------
  // Semantic search: over-fetch neighbours, filter, re-sort, truncate
  // ---------------------------------------------------------------------------

  const MIN_CANDIDATES := 50

  function CandidateCount(limit: int, multiplier: int): int {
    if limit * multiplier >= MIN_CANDIDATES then limit * multiplier else MIN_CANDIDATES
  }

  function IndexOf(ids: seq<Uuid>, id: Uuid): nat {
    if ids == [] || ids[0] == id then 0 else 1 + IndexOf(ids[1..], id)
  }

  /** Ascending KNN rank as a descending key. */
  function KnnKey(knn: seq<Uuid>): MemoryEntry -> SortKey {
    (e: MemoryEntry) => SortKey(false, -(IndexOf(knn, e.id) as real), 0.0)
  }

  /** What `SELECT ... WHERE id IN (...) AND <filters>` may return: the right rows, in any order. */
  ghost predicate FetchedByIds(rows: seq<MemoryEntry>, table: Table, ids: seq<Uuid>, passes: RowFilter) {
    && Distinct(rows)
    && forall e :: e in rows <==> e.id in ids && e.id in table && table[e.id] == e && passes(e)
  }

  function SemanticSearch(knn: seq<Uuid>, rows: seq<MemoryEntry>, limit: int): seq<MemoryEntry> {
    Slice(SortDesc(rows, KnnKey(knn)), limit)
  }

  /** The reference answer over any list of ids: their rows that pass the filter, in that order. */
  function PassingRows(ids: seq<Uuid>, table: Table, passes: RowFilter): seq<MemoryEntry> {
    if ids == [] then []
    else
      (if ids[0] in table && passes(table[ids[0]]) then [table[ids[0]]] else [])
      + PassingRows(ids[1..], table, passes)
  }

  lemma {:induction false} PassingRowsConcat(a: seq<Uuid>, b: seq<Uuid>, table: Table, passes: RowFilter)
    ensures PassingRows(a + b, table, passes) == PassingRows(a, table, passes) + PassingRows(b, table, passes)
  {
    if a == [] {
      assert a + b == b;
    } else {
      assert (a + b)[1..] == a[1..] + b;
      PassingRowsConcat(a[1..], b, table, passes);
    }
  }

  lemma {:induction false} PassingRowsMember(ids: seq<Uuid>, table: Table, passes: RowFilter, e: MemoryEntry)
    requires TableValid(table)
    ensures e in PassingRows(ids, table, passes) <==> e.id in ids && e.id in table && table[e.id] == e && passes(e)
  {
    if ids != [] {
      PassingRowsMember(ids[1..], table, passes, e);
      assert e.id in ids <==> e.id == ids[0] || e.id in ids[1..];
      var head := if ids[0] in table && passes(table[ids[0]]) then [table[ids[0]]] else [];
      assert e in PassingRows(ids, table, passes) <==> e in head || e in PassingRows(ids[1..], table, passes);
    }
  }

  lemma {:induction false} IndexOfAt(ids: seq<Uuid>, i: nat)
    requires Distinct(ids) && i < |ids|
    ensures IndexOf(ids, ids[i]) == i
  {
    if i > 0 {
      IndexOfAt(ids[1..], i - 1);
    }
  }

  /** The passing rows are listed in rank order, each rank once. */
  lemma PassingRowsFrom(ids: seq<Uuid>, from: nat, table: Table, passes: RowFilter)
    requires from < |ids|
    ensures PassingRows(ids[from..], table, passes)
         == (if ids[from] in table && passes(table[ids[from]]) then [table[ids[from]]] else [])
            + PassingRows(ids[from + 1..], table, passes)
  {
    assert ids[from..][1..] == ids[from + 1..];
  }

  /** The rows come in the order of their ids, from this position on. */
  ghost predicate InIdOrder(ids: seq<Uuid>, from: nat, rows: seq<MemoryEntry>) {
    && (forall i :: 0 <= i < |rows| ==> from <= IndexOf(ids, rows[i].id))
    && (forall i, j :: 0 <= i < j < |rows| ==> IndexOf(ids, rows[i].id) < IndexOf(ids, rows[j].id))
  }

  lemma InIdOrderCons(ids: seq<Uuid>, from: nat, e: MemoryEntry, rest: seq<MemoryEntry>)
    requires IndexOf(ids, e.id) == from && InIdOrder(ids, from + 1, rest)
    ensures InIdOrder(ids, from, [e] + rest)
  {
  }

  lemma {:induction false} PassingRowsRanked(ids: seq<Uuid>, from: nat, table: Table, passes: RowFilter)
    requires TableValid(table) && Distinct(ids) && from <= |ids|
    ensures InIdOrder(ids, from, PassingRows(ids[from..], table, passes))
    decreases |ids| - from
  {
    if from < |ids| {
      PassingRowsRanked(ids, from + 1, table, passes);
      PassingRowsFrom(ids, from, table, passes);
      if ids[from] in table && passes(table[ids[from]]) {
        IndexOfAt(ids, from);
        InIdOrderCons(ids, from, table[ids[from]], PassingRows(ids[from + 1..], table, passes));
      }
    }
  }

  lemma PassingRowsSorted(ids: seq<Uuid>, table: Table, passes: RowFilter)
    requires TableValid(table) && Distinct(ids)
    ensures Descending(PassingRows(ids, table, passes), KnnKey(ids))
    ensures DistinctKeys(PassingRows(ids, table, passes), KnnKey(ids))
  {
    var r := PassingRows(ids, table, passes);
    assert ids[0..] == ids;
    PassingRowsRanked(ids, 0, table, passes);
  }

  /** The arbitrary order rows come back in does not matter: re-sorting by KNN rank gives exactly the
      passing rows of the candidates, nearest first. */
  lemma FetchOrderIrrelevant(knn: seq<Uuid>, rows: seq<MemoryEntry>, table: Table, passes: RowFilter)
    requires TableValid(table) && Distinct(knn) && FetchedByIds(rows, table, knn, passes)
    ensures SortDesc(rows, KnnKey(knn)) == PassingRows(knn, table, passes)
  {
    var r := PassingRows(knn, table, passes);
    PassingRowsSorted(knn, table, passes);
    forall e
      ensures e in r <==> e in rows
    {
      PassingRowsMember(knn, table, passes, e);
    }
    SameMembersSort(rows, r, KnnKey(knn));
  }

  /** The `k` nearest ids of an index whose ids are listed nearest first. */
  function Nearest(index: seq<Uuid>, k: int): seq<Uuid> {
    Slice(index, if k >= 0 then k else 0)
  }

  /** Filter-after-KNN against filter-before-KNN: the search returns the `limit` nearest passing entries
      of the whole index exactly when `limit` of the `k` candidates pass or nothing beyond them does. */
  lemma FilterAfterKnn(index: seq<Uuid>, table: Table, passes: RowFilter, rows: seq<MemoryEntry>, limit: int, k: int)
    requires TableValid(table) && Distinct(index) && limit >= 0
    requires FetchedByIds(rows, table, Nearest(index, k), passes)
    ensures SemanticSearch(Nearest(index, k), rows, limit) == Slice(PassingRows(index, table, passes), limit)
            <==> (|PassingRows(Nearest(index, k), table, passes)| >= limit
                  || PassingRows(index[|Nearest(index, k)|..], table, passes) == [])
  {
    var knn := Nearest(index, k);
    var beyond := index[|knn|..];
    assert index == knn + beyond;
    FetchOrderIrrelevant(knn, rows, table, passes);
    PassingRowsConcat(knn, beyond, table, passes);
    var near, far := PassingRows(knn, table, passes), PassingRows(beyond, table, passes);
    SliceConcat(near, far, limit);
    assert Slice(near, limit) + [] == Slice(near, limit);
  }

  /** The candidates are the nearest fifty, or the nearest `limit * multiplier` where that is more. */
  lemma CandidatesExactly(index: seq<Uuid>, limit: int, multiplier: int)
    ensures var knn := Nearest(index, CandidateCount(limit, multiplier));
            var wanted := if limit * multiplier > 50 then limit * multiplier else 50;
            knn <= index && |knn| == if wanted < |index| then wanted else |index|
  {
  }

  /** An index no larger than the candidate pool always gets the full answer. */
  lemma SmallIndexIsExact(index: seq<Uuid>, table: Table, passes: RowFilter, rows: seq<MemoryEntry>, limit: int,
                          multiplier: int)
    requires TableValid(table) && Distinct(index) && limit >= 0
    requires |index| <= CandidateCount(limit, multiplier)
    requires FetchedByIds(rows, table, Nearest(index, CandidateCount(limit, multiplier)), passes)
    ensures SemanticSearch(Nearest(index, CandidateCount(limit, multiplier)), rows, limit)
            == Slice(PassingRows(index, table, passes), limit)
  {
    var k := CandidateCount(limit, multiplier);
    assert Nearest(index, k) == index && index[|index|..] == [];
    FilterAfterKnn(index, table, passes, rows, limit, k);
  }

  // ---------------------------------------------------------------------------
  // Hybrid fusion
  // ---------------------------------------------------------------------------

  /** One leg's higher-is-better relevance per surviving candidate. */
  type Scores = map<Uuid, real>

  ghost predicate IsLowest(s: Scores, lo: real) {
    (exists k :: k in s && s[k] == lo) && forall k :: k in s ==> lo <= s[k]
  }

  ghost predicate IsHighest(s: Scores, hi: real) {
    (exists k :: k in s && s[k] == hi) && forall k :: k in s ==> s[k] <= hi
  }

  lemma {:induction false} ExtremesOver(s: Scores, keys: set<Uuid>) returns (a: Uuid, b: Uuid)
    requires keys != {} && keys <= s.Keys
    ensures a in keys && b in keys
    ensures forall k :: k in keys ==> s[a] <= s[k] <= s[b]
    decreases |keys|
  {
    var k := Pick(keys);
    if keys == {k} {
      a, b := k, k;
    } else {
      a, b := ExtremesOver(s, keys - {k});
      a := if s[k] < s[a] then k else a;
      b := if s[k] > s[b] then k else b;
    }
  }

  lemma ExtremesExist(s: Scores) returns (lo: real, hi: real)
    requires s.Keys != {}
    ensures IsLowest(s, lo) && IsHighest(s, hi)
  {
    var a, b := ExtremesOver(s, s.Keys);
    lo, hi := s[a], s[b];
  }

  ghost function Lowest(s: Scores): (lo: real)
    requires s.Keys != {}
    ensures IsLowest(s, lo)
  {
    assert exists lo :: IsLowest(s, lo) by {
      var lo, hi := ExtremesExist(s);
    }
    var lo :| IsLowest(s, lo);
    lo
  }

  ghost function Highest(s: Scores): (hi: real)
    requires s.Keys != {}
    ensures IsHighest(s, hi)
  {
    assert exists hi :: IsHighest(s, hi) by {
      var lo, hi := ExtremesExist(s);
    }
    var hi :| IsHighest(s, hi);
    hi
  }

  /** `_minmax` at one key. */
  ghost function MinMax(s: Scores, id: Uuid): real
    requires id in s
  {
    Rescale(s[id], Lowest(s), Highest(s))
  }

  /** A leg where every score ties is uniformly relevant. */
  function Rescale(x: real, lo: real, hi: real): real {
    if hi == lo then 1.0 else (x - lo) / (hi - lo)
  }

  lemma RescaleRange(x: real, y: real, lo: real, hi: real)
    requires lo <= x <= y <= hi
    ensures 0.0 <= Rescale(x, lo, hi) <= Rescale(y, lo, hi) <= 1.0
    ensures Rescale(hi, lo, hi) == 1.0
  {
    if lo < hi {
      var d := hi - lo;
      DivideOrdered(0.0, x - lo, d);
      DivideOrdered(x - lo, y - lo, d);
      DivideOrdered(y - lo, d, d);
    }
  }

  lemma DivideOrdered(x: real, y: real, d: real)
    requires d > 0.0 && x <= y
    ensures x / d <= y / d
    ensures d / d == 1.0 && 0.0 / d == 0.0
  {
  }

  /** Normalised scores lie in `[0, 1]` and keep the leg's order; the best is 1. */
  lemma MinMaxRange(s: Scores, a: Uuid, b: Uuid)
    requires a in s && b in s && s[a] <= s[b]
    ensures 0.0 <= MinMax(s, a) <= MinMax(s, b) <= 1.0
    ensures s[b] == Highest(s) ==> MinMax(s, b) == 1.0
  {
    RescaleRange(s[a], s[b], Lowest(s), Highest(s));
  }

  function Affine(s: Scores, scale: real, shift: real): Scores {
    map k | k in s :: Move(s[k], scale, shift)
  }

  function Move(x: real, scale: real, shift: real): real {
    scale * x + shift
  }

  lemma MoveOrdered(x: real, y: real, scale: real, shift: real)
    requires scale > 0.0 && x <= y
    ensures Move(x, scale, shift) <= Move(y, scale, shift)
  {
    ScaleLessEq(x, y, scale);
  }

  lemma AffineBounds(s: Scores, scale: real, shift: real)
    requires s.Keys != {} && scale > 0.0
    ensures IsLowest(Affine(s, scale, shift), Move(Lowest(s), scale, shift))
    ensures IsHighest(Affine(s, scale, shift), Move(Highest(s), scale, shift))
  {
    var t := Affine(s, scale, shift);
    var lo, hi := Lowest(s), Highest(s);
    var l :| l in s && s[l] == lo;
    var h :| h in s && s[h] == hi;
    assert l in t && h in t;
    forall k | k in t
      ensures Move(lo, scale, shift) <= t[k] <= Move(hi, scale, shift)
    {
      MoveOrdered(lo, s[k], scale, shift);
      MoveOrdered(s[k], hi, scale, shift);
    }
  }

  lemma ExtremesUnique(s: Scores, lo: real, hi: real)
    requires s.Keys != {} && IsLowest(s, lo) && IsHighest(s, hi)
    ensures Lowest(s) == lo && Highest(s) == hi
  {
  }

  lemma RescaleIgnoresAffine(x: real, lo: real, hi: real, scale: real, shift: real)
    requires scale > 0.0 && lo <= hi
    ensures Rescale(Move(x, scale, shift), Move(lo, scale, shift), Move(hi, scale, shift)) == Rescale(x, lo, hi)
  {
    var d := hi - lo;
    assert (scale * hi + shift) - (scale * lo + shift) == scale * d;
    assert (scale * x + shift) - (scale * lo + shift) == scale * (x - lo);
    if d > 0.0 {
      CancelScale(x - lo, d, scale);
    }
  }

  lemma CancelScale(x: real, d: real, f: real)
    requires d > 0.0 && f > 0.0
    ensures f * d > 0.0 && (f * x) / (f * d) == x / d
  {
    Positive(f, d);
    var q := x / d;
    assert q * d == x;
    assert f * x == q * (f * d);
    UndoProduct(q, f * d);
  }

  lemma Positive(x: real, y: real)
    requires x > 0.0 && y > 0.0
    ensures x * y > 0.0
  {
  }

  lemma UndoProduct(q: real, d: real)
    requires d > 0.0
    ensures (q * d) / d == q
  {
  }

  /** Normalisation cancels any positive scaling and any shift, ties included. */
  lemma MinMaxIgnoresScale(s: Scores, scale: real, shift: real, id: Uuid)
    requires scale > 0.0 && id in s
    ensures MinMax(Affine(s, scale, shift), id) == MinMax(s, id)
  {
    AffineBounds(s, scale, shift);
    ExtremesUnique(Affine(s, scale, shift), Move(Lowest(s), scale, shift), Move(Highest(s), scale, shift));
    RescaleIgnoresAffine(s[id], Lowest(s), Highest(s), scale, shift);
  }

  datatype FusionWeights = FusionWeights(vector: real, bm25: real)

  /** The adapter's constructor: weights are normalised to sum 1, and a total not above zero is refused. */
  function NormaliseWeights(vector: real, bm25: real): Option<FusionWeights> {
    var total := vector + bm25;
    if total <= 0.0 then None else Some(FusionWeights(vector / total, bm25 / total))
  }

  lemma NormalisedWeightsSumToOne(vector: real, bm25: real)
    requires vector >= 0.0 && bm25 >= 0.0 && vector + bm25 > 0.0
    ensures var w := NormaliseWeights(vector, bm25).value;
            w.vector >= 0.0 && w.bm25 >= 0.0 && w.vector + w.bm25 == 1.0
  {
    var total := vector + bm25;
    DivideOrdered(0.0, vector, total);
    DivideOrdered(0.0, bm25, total);
    assert vector / total + bm25 / total == total / total;
  }

  /** The constructor refuses exactly a total that is not positive, and keeps the proportion of the weights. */
  lemma NormalisedExactly(vector: real, bm25: real)
    ensures var w := NormaliseWeights(vector, bm25);
            && (w.Some? <==> vector + bm25 > 0.0)
            && (w.Some? ==> w.value.vector * (vector + bm25) == vector && w.value.bm25 * (vector + bm25) == bm25)
  {
  }

  /** The two legs' raw scores per id, smaller is better; an id may be missing from either. */
  datatype Legs = Legs(distances: Scores, bm25: Scores)

  /** A leg's raw scores over the surviving ids, negated so that higher is better. */
  function Relevance(raw: Scores, survivors: seq<MemoryEntry>): Scores {
    map e | e in survivors && e.id in raw :: e.id := -raw[e.id]
  }

  /** An id the leg did not find contributes nothing. */
  ghost function LegScore(raw: Scores, survivors: seq<MemoryEntry>, id: Uuid): real {
    var relevance := Relevance(raw, survivors);
    if id in relevance then MinMax(relevance, id) else 0.0
  }

  function Blend(w: FusionWeights, v: real, b: real): real {
    w.vector * v + w.bm25 * b
  }

  ghost function Fused(w: FusionWeights, legs: Legs, survivors: seq<MemoryEntry>, id: Uuid): real {
    Blend(w, LegScore(legs.distances, survivors, id), LegScore(legs.bm25, survivors, id))
  }

  ghost function FusedKey(w: FusionWeights, legs: Legs, survivors: seq<MemoryEntry>): MemoryEntry -> SortKey {
    (e: MemoryEntry) => SortKey(false, Fused(w, legs, survivors, e.id), 0.0)
  }

  ghost function HybridRank(w: FusionWeights, legs: Legs, survivors: seq<MemoryEntry>, limit: int): seq<MemoryEntry> {
    Slice(SortDesc(survivors, FusedKey(w, legs, survivors)), limit)
  }

  /** The leg found the id, and the row survived the filter. */
  ghost predicate FoundAlive(raw: Scores, survivors: seq<MemoryEntry>, id: Uuid) {
    id in raw && exists i :: 0 <= i < |survivors| && survivors[i].id == id
  }

  /** Everything the leg found that survived lies between these two raw scores, and both occur. */
  ghost predicate Between(raw: Scores, survivors: seq<MemoryEntry>, near: Uuid, far: Uuid) {
    && FoundAlive(raw, survivors, near) && FoundAlive(raw, survivors, far)
    && forall id :: FoundAlive(raw, survivors, id) ==> raw[near] <= raw[id] <= raw[far]
  }

  /** What the leg contributes for an id: nothing where it did not find it, all where everything it found ties, and
      otherwise how far from the farthest it is, as a share of the way to the nearest. */
  ghost predicate LegShare(raw: Scores, survivors: seq<MemoryEntry>, id: Uuid, share: real) {
    if !FoundAlive(raw, survivors, id) then share == 0.0
    else
      exists near, far :: Between(raw, survivors, near, far)
        && if raw[near] == raw[far] then share == 1.0
           else share == (raw[far] - raw[id]) / (raw[far] - raw[near])
  }

  lemma RelevantExactly(raw: Scores, survivors: seq<MemoryEntry>, id: Uuid)
    ensures id in Relevance(raw, survivors) <==> FoundAlive(raw, survivors, id)
    ensures FoundAlive(raw, survivors, id) ==> Relevance(raw, survivors)[id] == -raw[id]
  {
    if i :| id in raw && 0 <= i < |survivors| && survivors[i].id == id {
      assert survivors[i] in survivors;
    }
  }

  lemma LegExtremes(raw: Scores, survivors: seq<MemoryEntry>, near: Uuid, far: Uuid)
    requires Between(raw, survivors, near, far)
    ensures Relevance(raw, survivors).Keys != {}
    ensures Lowest(Relevance(raw, survivors)) == -raw[far] && Highest(Relevance(raw, survivors)) == -raw[near]
  {
    var relevance := Relevance(raw, survivors);
    RelevantExactly(raw, survivors, near);
    RelevantExactly(raw, survivors, far);
    forall id | id in relevance
      ensures -raw[far] <= relevance[id] <= -raw[near]
    {
      RelevantExactly(raw, survivors, id);
    }
    ExtremesUnique(relevance, -raw[far], -raw[near]);
  }

  lemma LegBetween(raw: Scores, survivors: seq<MemoryEntry>, id: Uuid) returns (near: Uuid, far: Uuid)
    requires FoundAlive(raw, survivors, id)
    ensures Between(raw, survivors, near, far)
  {
    var relevance := Relevance(raw, survivors);
    RelevantExactly(raw, survivors, id);
    far, near := ExtremesOver(relevance, relevance.Keys);
    forall id
      ensures id in relevance <==> FoundAlive(raw, survivors, id)
      ensures id in relevance ==> relevance[id] == -raw[id]
    {
      RelevantExactly(raw, survivors, id);
    }
  }

  lemma LegScoreAt(raw: Scores, survivors: seq<MemoryEntry>, near: Uuid, far: Uuid, id: Uuid)
    requires Between(raw, survivors, near, far) && FoundAlive(raw, survivors, id)
    ensures LegScore(raw, survivors, id)
         == if raw[near] == raw[far] then 1.0 else (raw[far] - raw[id]) / (raw[far] - raw[near])
  {
    RelevantExactly(raw, survivors, id);
    LegExtremes(raw, survivors, near, far);
  }

  /** A leg scores every id in exactly one way. */
  lemma LegScoreExactly(raw: Scores, survivors: seq<MemoryEntry>, id: Uuid, share: real)
    ensures LegShare(raw, survivors, id, share) <==> LegScore(raw, survivors, id) == share
  {
    RelevantExactly(raw, survivors, id);
    if FoundAlive(raw, survivors, id) {
      var near, far := LegBetween(raw, survivors, id);
      LegScoreAt(raw, survivors, near, far, id);
      if LegShare(raw, survivors, id, share) {
        var a, b :| Between(raw, survivors, a, b)
          && if raw[a] == raw[b] then share == 1.0 else share == (raw[b] - raw[id]) / (raw[b] - raw[a]);
        LegScoreAt(raw, survivors, a, b, id);
      }
    }
  }

  /** Both legs' shares of an entry, weighted and added. */
  ghost predicate HybridScore(w: FusionWeights, legs: Legs, survivors: seq<MemoryEntry>, e: MemoryEntry, score: real) {
    exists v, b :: LegShare(legs.distances, survivors, e.id, v) && LegShare(legs.bm25, survivors, e.id, b)
                   && Weighted(w, v, b, score)
  }

  ghost predicate Weighted(w: FusionWeights, v: real, b: real, score: real) {
    score == w.vector * v + w.bm25 * b
  }

  lemma SharesDecide(w: FusionWeights, legs: Legs, survivors: seq<MemoryEntry>, e: MemoryEntry, v: real, b: real,
                     score: real)
    requires LegShare(legs.distances, survivors, e.id, v) && LegShare(legs.bm25, survivors, e.id, b)
    requires Weighted(w, v, b, score)
    ensures Fused(w, legs, survivors, e.id) == score
  {
    LegIsShare(legs.distances, survivors, e.id, v);
    LegIsShare(legs.bm25, survivors, e.id, b);
    BlendOf(w, v, b);
  }

  lemma LegIsShare(raw: Scores, survivors: seq<MemoryEntry>, id: Uuid, share: real)
    requires LegShare(raw, survivors, id, share)
    ensures LegScore(raw, survivors, id) == share
  {
    LegScoreExactly(raw, survivors, id, share);
  }

  lemma ShareIsLeg(raw: Scores, survivors: seq<MemoryEntry>, id: Uuid) returns (share: real)
    ensures LegShare(raw, survivors, id, share)
  {
    share := LegScore(raw, survivors, id);
    LegScoreExactly(raw, survivors, id, share);
  }

  lemma BlendOf(w: FusionWeights, v: real, b: real)
    ensures Blend(w, v, b) == w.vector * v + w.bm25 * b
  {
  }

  lemma HybridScoreIs(w: FusionWeights, legs: Legs, survivors: seq<MemoryEntry>, e: MemoryEntry, score: real)
    requires HybridScore(w, legs, survivors, e, score)
    ensures Fused(w, legs, survivors, e.id) == score
  {
    var x, y :| LegShare(legs.distances, survivors, e.id, x) && LegShare(legs.bm25, survivors, e.id, y)
                && Weighted(w, x, y, score);
    SharesDecide(w, legs, survivors, e, x, y, score);
  }

  /** Every entry has exactly one score. */
  lemma HybridScoreExactly(w: FusionWeights, legs: Legs, survivors: seq<MemoryEntry>, e: MemoryEntry)
    ensures exists score :: HybridScore(w, legs, survivors, e, score)
    ensures forall p, q :: HybridScore(w, legs, survivors, e, p) && HybridScore(w, legs, survivors, e, q) ==> p == q
  {
    var v := ShareIsLeg(legs.distances, survivors, e.id);
    var b := ShareIsLeg(legs.bm25, survivors, e.id);
    assert Weighted(w, v, b, w.vector * v + w.bm25 * b);
    assert HybridScore(w, legs, survivors, e, w.vector * v + w.bm25 * b);
    forall p, q | HybridScore(w, legs, survivors, e, p) && HybridScore(w, legs, survivors, e, q)
      ensures p == q
    {
      HybridScoreIs(w, legs, survivors, e, p);
      HybridScoreIs(w, legs, survivors, e, q);
    }
  }

  /** The hybrid answer: survivors only, as many as the limit takes, the higher scores first, and none left out that
      scores higher than one kept. */
  lemma HybridExactly(w: FusionWeights, legs: Legs, survivors: seq<MemoryEntry>, limit: int)
    ensures var r := HybridRank(w, legs, survivors, limit);
            && multiset(r) <= multiset(survivors) && |r| == SliceLength(|survivors|, limit)
            && (forall i, j, p, q ::
                  0 <= i < j < |r| && HybridScore(w, legs, survivors, r[i], p)
                  && HybridScore(w, legs, survivors, r[j], q)
                  ==> p >= q)
            && (forall x, y, p, q ::
                  x in r && y in survivors && y !in r && HybridScore(w, legs, survivors, x, p)
                  && HybridScore(w, legs, survivors, y, q)
                  ==> p >= q)
  {
    var r, key := HybridRank(w, legs, survivors, limit), FusedKey(w, legs, survivors);
    SortSlice(survivors, key, limit);
    SortDescMembers(survivors, key);
    forall i, j, p, q | 0 <= i < j < |r| && HybridScore(w, legs, survivors, r[i], p)
                        && HybridScore(w, legs, survivors, r[j], q)
      ensures p >= q
    {
      HybridScoreIs(w, legs, survivors, r[i], p);
      HybridScoreIs(w, legs, survivors, r[j], q);
      assert !Above(key(r[j]), key(r[i]));
    }
    forall x, y, p, q | x in r && y in survivors && y !in r && HybridScore(w, legs, survivors, x, p)
                        && HybridScore(w, legs, survivors, y, q)
      ensures p >= q
    {
      HybridScoreIs(w, legs, survivors, x, p);
      HybridScoreIs(w, legs, survivors, y, q);
      SliceKeepsTheTop(survivors, key, limit, x, y);
    }
  }

  lemma LegScoreInUnit(raw: Scores, survivors: seq<MemoryEntry>, id: Uuid)
    ensures 0.0 <= LegScore(raw, survivors, id) <= 1.0
  {
    var relevance := Relevance(raw, survivors);
    if id in relevance {
      MinMaxRange(relevance, id, id);
    }
  }

  lemma BlendInUnit(w: FusionWeights, v: real, b: real)
    requires w.vector >= 0.0 && w.bm25 >= 0.0 && w.vector + w.bm25 == 1.0
    requires 0.0 <= v <= 1.0 && 0.0 <= b <= 1.0
    ensures 0.0 <= Blend(w, v, b) <= 1.0
  {
    var p, q := w.vector * v, w.bm25 * b;
    ShareOf(w.vector, v, p);
    ShareOf(w.bm25, b, q);
    assert Blend(w, v, b) == p + q;
  }

  lemma ShareOf(w: real, x: real, p: real)
    requires w >= 0.0 && 0.0 <= x <= 1.0 && p == w * x
    ensures 0.0 <= p <= w
  {
    ScaleLessEq(0.0, x, w);
    ScaleLessEq(x, 1.0, w);
  }

  lemma BlendMonotone(w: FusionWeights, v1: real, b1: real, v2: real, b2: real)
    requires w.vector >= 0.0 && w.bm25 >= 0.0 && v1 <= v2 && b1 <= b2
    ensures Blend(w, v1, b1) <= Blend(w, v2, b2)
  {
    ScaleLessEq(v1, v2, w.vector);
    ScaleLessEq(b1, b2, w.bm25);
  }

  /** With nonnegative weights every fused score lies in `[0, 1]`. */
  lemma FusedInUnit(w: FusionWeights, legs: Legs, survivors: seq<MemoryEntry>, id: Uuid)
    requires w.vector >= 0.0 && w.bm25 >= 0.0 && w.vector + w.bm25 == 1.0
    ensures 0.0 <= Fused(w, legs, survivors, id) <= 1.0
  {
    LegScoreInUnit(legs.distances, survivors, id);
    LegScoreInUnit(legs.bm25, survivors, id);
    BlendInUnit(w, LegScore(legs.distances, survivors, id), LegScore(legs.bm25, survivors, id));
  }

  /** `b` is no worse than `a` on a leg: found if `a` is, and then with a score no larger. */
  predicate NoWorse(raw: Scores, a: Uuid, b: Uuid) {
    a in raw ==> b in raw && raw[b] <= raw[a]
  }

  lemma LegScoreMonotone(raw: Scores, survivors: seq<MemoryEntry>, a: MemoryEntry, b: MemoryEntry)
    requires a in survivors && b in survivors && NoWorse(raw, a.id, b.id)
    ensures LegScore(raw, survivors, a.id) <= LegScore(raw, survivors, b.id)
  {
    var relevance := Relevance(raw, survivors);
    if a.id in raw {
      MinMaxRange(relevance, a.id, b.id);
    } else {
      LegScoreInUnit(raw, survivors, b.id);
    }
  }

  /** A candidate no worse on both legs never scores lower. */
  lemma FusedMonotone(w: FusionWeights, legs: Legs, survivors: seq<MemoryEntry>, a: MemoryEntry, b: MemoryEntry)
    requires w.vector >= 0.0 && w.bm25 >= 0.0
    requires a in survivors && b in survivors
    requires NoWorse(legs.distances, a.id, b.id) && NoWorse(legs.bm25, a.id, b.id)
    ensures Fused(w, legs, survivors, a.id) <= Fused(w, legs, survivors, b.id)
  {
    LegScoreMonotone(legs.distances, survivors, a, b);
    LegScoreMonotone(legs.bm25, survivors, a, b);
    BlendMonotone(w, LegScore(legs.distances, survivors, a.id), LegScore(legs.bm25, survivors, a.id),
                  LegScore(legs.distances, survivors, b.id), LegScore(legs.bm25, survivors, b.id));
  }

  lemma RelevanceOfAffine(raw: Scores, survivors: seq<MemoryEntry>, scale: real, shift: real)
    requires scale > 0.0
    ensures Relevance(Affine(raw, scale, shift), survivors) == Affine(Relevance(raw, survivors), scale, -shift)
  {
    var left := Relevance(Affine(raw, scale, shift), survivors);
    var right := Affine(Relevance(raw, survivors), scale, -shift);
    forall id | id in left
      ensures id in right && right[id] == left[id]
    {
      assert id in Relevance(raw, survivors);
      assert -Move(raw[id], scale, shift) == Move(-raw[id], scale, -shift);
    }
    forall id | id in right
      ensures id in left
    {
      var e :| e in survivors && e.id in raw && e.id == id;
      assert e.id in Affine(raw, scale, shift);
    }
  }

  lemma LegScoreIgnoresScale(raw: Scores, survivors: seq<MemoryEntry>, scale: real, shift: real, id: Uuid)
    requires scale > 0.0
    ensures LegScore(Affine(raw, scale, shift), survivors, id) == LegScore(raw, survivors, id)
  {
    RelevanceOfAffine(raw, survivors, scale, shift);
    if id in Relevance(raw, survivors) {
      MinMaxIgnoresScale(Relevance(raw, survivors), scale, -shift, id);
    }
  }

  lemma FusedIgnoresScales(w: FusionWeights, legs: Legs, survivors: seq<MemoryEntry>,
                           scaleV: real, shiftV: real, scaleB: real, shiftB: real, id: Uuid)
    requires scaleV > 0.0 && scaleB > 0.0
    ensures Fused(w, Legs(Affine(legs.distances, scaleV, shiftV), Affine(legs.bm25, scaleB, shiftB)), survivors, id)
            == Fused(w, legs, survivors, id)
  {
    LegScoreIgnoresScale(legs.distances, survivors, scaleV, shiftV, id);
    LegScoreIgnoresScale(legs.bm25, survivors, scaleB, shiftB, id);
  }

  /** The hybrid answer does not depend on the unit or origin either leg measures in. */
  lemma HybridIgnoresScales(w: FusionWeights, legs: Legs, survivors: seq<MemoryEntry>, limit: int,
                            scaleV: real, shiftV: real, scaleB: real, shiftB: real)
    requires scaleV > 0.0 && scaleB > 0.0
    ensures HybridRank(w, Legs(Affine(legs.distances, scaleV, shiftV), Affine(legs.bm25, scaleB, shiftB)),
                       survivors, limit)
            == HybridRank(w, legs, survivors, limit)
  {
    var moved := Legs(Affine(legs.distances, scaleV, shiftV), Affine(legs.bm25, scaleB, shiftB));
    forall i | 0 <= i < |survivors|
      ensures FusedKey(w, moved, survivors)(survivors[i]) == FusedKey(w, legs, survivors)(survivors[i])
    {
      FusedIgnoresScales(w, legs, survivors, scaleV, shiftV, scaleB, shiftB, survivors[i].id);
    }
    SortSameOrder(survivors, FusedKey(w, moved, survivors), FusedKey(w, legs, survivors));
  }

  /** Every fused score, over all legs, survivors and ids, lies in `[0, 1]`. */
  ghost predicate AlwaysInUnit(w: FusionWeights) {
    forall legs: Legs, survivors: seq<MemoryEntry>, id: Uuid :: 0.0 <= Fused(w, legs, survivors, id) <= 1.0
  }

  /** The fused scores always lie in `[0, 1]` if and only if neither weight is negative. */
  lemma InUnitExactly(w: FusionWeights)
    requires w.vector + w.bm25 == 1.0
    ensures AlwaysInUnit(w) <==> w.vector >= 0.0 && w.bm25 >= 0.0
  {
    if w.vector >= 0.0 && w.bm25 >= 0.0 {
      forall legs: Legs, survivors: seq<MemoryEntry>, id: Uuid
        ensures 0.0 <= Fused(w, legs, survivors, id) <= 1.0
      {
        FusedInUnit(w, legs, survivors, id);
      }
    } else {
      var e := MemoryEntry(0, Episodic, "", PrivateScope, None, 0.0, false, 0.0, 0.0, false);
      OneLegScores(w, e);
      var near: Scores := map[e.id := 0.0];
      assert Fused(w, Legs(near, map[]), [e], e.id) == w.vector;
      assert Fused(w, Legs(map[], near), [e], e.id) == w.bm25;
    }
  }

  /** A single candidate found by one leg scores that leg's weight. */
  lemma OneLegScores(w: FusionWeights, e: MemoryEntry)
    ensures var near: Scores := map[e.id := 0.0];
            && Fused(w, Legs(near, map[]), [e], e.id) == w.vector
            && Fused(w, Legs(map[], near), [e], e.id) == w.bm25
  {
    var near: Scores := map[e.id := 0.0];
    var relevance := Relevance(near, [e]);
    assert e in [e] && e.id in relevance;
    assert forall k :: k in relevance ==> relevance[k] == 0.0;
    ExtremesUnique(relevance, 0.0, 0.0);
    assert LegScore(near, [e], e.id) == 1.0;
    assert LegScore(map[], [e], e.id) == 0.0;
    BlendOfOne(w);
  }

  lemma BlendOfOne(w: FusionWeights)
    ensures Blend(w, 1.0, 0.0) == w.vector && Blend(w, 0.0, 1.0) == w.bm25
  {
  }

  /** The constructor checks the total only. The adapter it lets through keeps its scores in `[0, 1]` if and only
      if neither configured weight is negative. */
  lemma ConfiguredWeightsExactly(vector: real, bm25: real)
    requires NormaliseWeights(vector, bm25).Some?
    ensures AlwaysInUnit(NormaliseWeights(vector, bm25).value) <==> vector >= 0.0 && bm25 >= 0.0
  {
    var total := vector + bm25;
    var w := NormaliseWeights(vector, bm25).value;
    ShareSign(vector, total);
    ShareSign(bm25, total);
    assert vector / total + bm25 / total == total / total;
    InUnitExactly(w);
  }

  lemma ShareSign(x: real, total: real)
    requires total > 0.0
    ensures x / total >= 0.0 <==> x >= 0.0
  {
    UndoProduct(x / total, total);
  }
}
