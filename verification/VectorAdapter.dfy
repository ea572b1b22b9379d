/** Searches over one database with a vector index: which path serves a query, what it returns, and what
    reading does to the database. */
module VectorAdapter {
  import opened Options
  import opened MemoryTypes
  import opened Sets
  import opened StableSort
  import opened SqliteStore
  import opened Decay
  import opened VectorSearch

  datatype RetrievalMode = KEYWORD | SEMANTIC | HYBRID

  datatype Query = Query(mode: RetrievalMode, hasUsableText: bool, limit: int)

  /** What a search finds around it: the extension, the database's pinned dimension, and the dimension of the
      query vector made by a healthy embedder that matches the pin. */
  datatype Situation = Situation(vecOk: bool, pin: Option<nat>, queryDimensions: Option<nat>)

  datatype Path = KeywordPath | SemanticPath | HybridPath

  /** Semantic retrieval needs everything at once; whatever is missing, the keyword path answers. */
  predicate VectorsUsable(q: Query, s: Situation) {
    && s.vecOk && !q.mode.KEYWORD? && q.hasUsableText
    && s.pin.Some? && s.queryDimensions.Some? && s.queryDimensions.value == s.pin.value
  }

  function PathFor(q: Query, s: Situation): Path {
    if !VectorsUsable(q, s) then KeywordPath else if q.mode.HYBRID? then HybridPath else SemanticPath
  }

  /** The entries of a row table. */
  function Entries(rows: Rows): Table {
    map id | id in rows :: rows[id].entry
  }

  function IdsOf(entries: seq<MemoryEntry>): set<Uuid> {
    set e | e in entries :: e.id
  }

  function RankKey(rank: map<Uuid, nat>): MemoryEntry -> SortKey {
    (e: MemoryEntry) => SortKey(false, if e.id in rank then -(rank[e.id] as real) else 0.0, 0.0)
  }

  function Or0(scores: Scores, id: Uuid): real {
    if id in scores then scores[id] else 0.0
  }

  /** The closure the hybrid search sorts by. */
  function BlendKey(w: FusionWeights, vnorm: Scores, bnorm: Scores): MemoryEntry -> SortKey {
    (e: MemoryEntry) => SortKey(false, Blend(w, Or0(vnorm, e.id), Or0(bnorm, e.id)), 0.0)
  }

  /** What the index, the keyword index and the row table have for one query: the indexed ids nearest first
      with their distances, the keyword candidates with theirs, and the rows as the filtered fetch lists them. */
  datatype Hits = Hits(index: seq<Uuid>, distances: Scores, bm25: Scores, fetched: seq<MemoryEntry>,
                       keyword: seq<MemoryEntry>)

  class VectorAdapter {
    const multiplier: int
    const weights: FusionWeights
    const refreshOnAccess: bool
    const db: MemoryDatabase

    constructor (multiplier: int, weights: FusionWeights, refreshOnAccess: bool, db: MemoryDatabase)
      ensures this.multiplier == multiplier && this.weights == weights && this.refreshOnAccess == refreshOnAccess
      ensures this.db == db
    {
      this.multiplier, this.weights, this.refreshOnAccess, this.db := multiplier, weights, refreshOnAccess, db;
    }

    /** Reading resets the stored clock of what was read, and commits; the answer keeps the clocks it was read with,
        and is lost if that fails. */
    method RecordRead(read: seq<MemoryEntry>, now: real, fault: ReadFault) returns (ok: bool)
      modifies db
      ensures (db.View(), ok) == RecordState(old(db.View()), refreshOnAccess, IdsOf(read), now, fault)
    {
      ok := db.RecordRead(refreshOnAccess, IdsOf(read), now, fault);
    }

    /** The candidates' ranks are put in a dict, the fetched rows sorted by it, and the list cut. */
    method Semantic(index: seq<Uuid>, fetched: seq<MemoryEntry>, limit: int, ghost passes: RowFilter)
      returns (entries: seq<MemoryEntry>)
      requires Distinct(index)
      requires FetchedByIds(fetched, Entries(db.visible.rows),
                            Nearest(index, CandidateCount(limit, multiplier)), passes)
      ensures entries == SemanticSearch(Nearest(index, CandidateCount(limit, multiplier)), fetched, limit)
    {
      var knn := Nearest(index, CandidateCount(limit, multiplier));
      assert Distinct(knn);
      var rank: map<Uuid, nat> := map[];
      for i := 0 to |knn|
        invariant rank.Keys == set id | id in knn[..i]
        invariant forall k :: 0 <= k < i ==> knn[k] in rank && rank[knn[k]] == k
      {
        assert knn[..i + 1] == knn[..i] + [knn[i]];
        rank := rank[knn[i] := i];
      }
      entries := SortDesc(fetched, RankKey(rank));
      RanksSortAlike(knn, rank, fetched);
      entries := Slice(entries, limit);
    }

    /** Both legs are normalised over the rows that survived the filter, then blended. */
    method Hybrid(legs: Legs, fetched: seq<MemoryEntry>, limit: int) returns (entries: seq<MemoryEntry>)
      ensures entries == HybridRank(weights, legs, fetched, limit)
    {
      var vnorm := NormalisedLeg(legs.distances, fetched);
      var bnorm := NormalisedLeg(legs.bm25, fetched);
      entries := SortDesc(fetched, BlendKey(weights, vnorm, bnorm));
      BlendsSortAlike(weights, legs, fetched, vnorm, bnorm);
      entries := Slice(entries, limit);
    }

    /** The path is chosen, its queries run, what it found is ranked, and the read is recorded. Only the keyword
        path looks whether a failing query means corruption. */
    method Search(q: Query, s: Situation, hits: Hits, now: real, fault: ReadFault, ghost passes: RowFilter)
      returns (ok: bool, entries: seq<MemoryEntry>)
      requires Distinct(hits.index)
      requires PathFor(q, s).SemanticPath? ==>
                 FetchedByIds(hits.fetched, Entries(db.visible.rows),
                              Nearest(hits.index, CandidateCount(q.limit, multiplier)), passes)
      modifies db
      ensures !old(db.quarantined) && fault.QueryFails? ==>
                && !ok
                && db.View() == (if PathFor(q, s).KeywordPath? then Failed(old(db.View()), fault.corrupt)
                                 else old(db.View()))
      ensures old(db.quarantined) ==> !ok && db.View() == old(db.View())
      ensures !old(db.quarantined) && !fault.QueryFails? ==>
                (db.View(), ok) == RecordState(old(db.View()), refreshOnAccess, IdsOf(entries), now, fault)
      ensures !old(db.quarantined) && !fault.QueryFails? ==>
                if !s.vecOk || q.mode == KEYWORD || !q.hasUsableText || s.pin == None || s.queryDimensions != s.pin
                then entries == hits.keyword
                else if q.mode == SEMANTIC then
                  entries
                  == SemanticSearch(Nearest(hits.index, CandidateCount(q.limit, multiplier)), hits.fetched, q.limit)
                else entries == HybridRank(weights, Legs(hits.distances, hits.bm25), hits.fetched, q.limit)
    {
      if db.quarantined {
        return false, [];
      }
      var vectors := false;
      if s.vecOk && !q.mode.KEYWORD? && q.hasUsableText {
        if s.pin.Some? {
          if s.queryDimensions.Some? {
            vectors := s.queryDimensions.value == s.pin.value;
          }
        }
      }
      if fault.QueryFails? {
        if !vectors {
          db.Fail(fault.corrupt);
        }
        return false, [];
      }
      if !vectors {
        entries := hits.keyword;
      } else if q.mode.HYBRID? {
        entries := Hybrid(Legs(hits.distances, hits.bm25), hits.fetched, q.limit);
      } else {
        entries := Semantic(hits.index, hits.fetched, q.limit, passes);
      }
      ok := RecordRead(entries, now, fault);
    }
  }

  /** One leg, negated and normalised over the rows that survived. */
  method NormalisedLeg(raw: Scores, survivors: seq<MemoryEntry>) returns (norm: Scores)
    ensures forall id :: Or0(norm, id) == LegScore(raw, survivors, id)
  {
    norm := MinMaxScores(Relevance(raw, survivors));
  }

  lemma BlendsSortAlike(w: FusionWeights, legs: Legs, survivors: seq<MemoryEntry>, vnorm: Scores, bnorm: Scores)
    requires forall id :: Or0(vnorm, id) == LegScore(legs.distances, survivors, id)
    requires forall id :: Or0(bnorm, id) == LegScore(legs.bm25, survivors, id)
    ensures SortDesc(survivors, BlendKey(w, vnorm, bnorm)) == SortDesc(survivors, FusedKey(w, legs, survivors))
  {
    forall k | 0 <= k < |survivors|
      ensures BlendKey(w, vnorm, bnorm)(survivors[k]) == FusedKey(w, legs, survivors)(survivors[k])
    {
      BlendIsFused(w, legs, survivors, vnorm, bnorm, survivors[k]);
    }
    SortSameOrder(survivors, BlendKey(w, vnorm, bnorm), FusedKey(w, legs, survivors));
  }

  lemma BlendIsFused(w: FusionWeights, legs: Legs, survivors: seq<MemoryEntry>, vnorm: Scores, bnorm: Scores,
                     e: MemoryEntry)
    requires Or0(vnorm, e.id) == LegScore(legs.distances, survivors, e.id)
    requires Or0(bnorm, e.id) == LegScore(legs.bm25, survivors, e.id)
    ensures BlendKey(w, vnorm, bnorm)(e) == FusedKey(w, legs, survivors)(e)
  {
  }

  lemma RanksSortAlike(knn: seq<Uuid>, rank: map<Uuid, nat>, fetched: seq<MemoryEntry>)
    requires Distinct(knn)
    requires forall k :: 0 <= k < |knn| ==> knn[k] in rank && rank[knn[k]] == k
    requires forall e :: e in fetched ==> e.id in knn
    ensures SortDesc(fetched, RankKey(rank)) == SortDesc(fetched, KnnKey(knn))
  {
    forall k | 0 <= k < |fetched|
      ensures RankKey(rank)(fetched[k]) == KnnKey(knn)(fetched[k])
    {
      assert fetched[k] in fetched;
      var i :| 0 <= i < |knn| && knn[i] == fetched[k].id;
      IndexOfAt(knn, i);
    }
    SortSameOrder(fetched, RankKey(rank), KnnKey(knn));
  }

  /** `_minmax` over a whole leg. */
  method MinMaxScores(s: Scores) returns (r: Scores)
    ensures r.Keys == s.Keys
    ensures forall id :: id in s ==> r[id] == MinMax(s, id)
  {
    if s.Keys == {} {
      return map[];
    }
    var first := PickOne(s.Keys);
    var lo, hi := s[first], s[first];
    var pending := s.Keys - {first};
    while pending != {}
      invariant pending <= s.Keys
      invariant exists k :: k in s && s[k] == lo
      invariant exists k :: k in s && s[k] == hi
      invariant forall k :: k in s && k !in pending ==> lo <= s[k] <= hi
      decreases |pending|
    {
      var k := PickOne(pending);
      if s[k] < lo {
        lo := s[k];
      }
      if s[k] > hi {
        hi := s[k];
      }
      pending := pending - {k};
    }
    ExtremesUnique(s, lo, hi);
    r := map id | id in s :: Rescale(s[id], lo, hi);
  }

  // ---------------------------------------------------------------------------
  // Reading and decay
  // ---------------------------------------------------------------------------

  lemma TouchedElapsed(e: MemoryEntry, profile: DecayProfile, now: real, later: real)
    requires e.lastAccessedAt <= now && profile.halfLifeDays > 0.0
    ensures 0.0 <= HalfLivesElapsed(Touched(e, now), profile, later) <= HalfLivesElapsed(e, profile, later)
  {
    QuotientGrows(AgeDays(Touched(e, now), profile, later), AgeDays(e, profile, later), profile.halfLifeDays);
    QuotientGrows(0.0, AgeDays(Touched(e, now), profile, later), profile.halfLifeDays);
  }

  lemma TouchedUnfloored(e: MemoryEntry, profile: DecayProfile, now: real, later: real, half: real -> real)
    requires IsHalfPower(half) && e.lastAccessedAt <= now && profile.halfLifeDays > 0.0 && e.importance >= 0.0
    ensures Unfloored(e, profile, later, half) <= Unfloored(Touched(e, now), profile, later, half)
  {
    TouchedRetention(e, profile, now, later, half);
    UnflooredOrder(e, later, Touched(e, now), later, profile, half);
  }

  lemma TouchedRetention(e: MemoryEntry, profile: DecayProfile, now: real, later: real, half: real -> real)
    requires IsHalfPower(half) && e.lastAccessedAt <= now && profile.halfLifeDays > 0.0
    ensures Retention(profile.strategy, HalfLivesElapsed(e, profile, later), half)
         <= Retention(profile.strategy, HalfLivesElapsed(Touched(e, now), profile, later), half)
  {
    TouchedElapsed(e, profile, now, later);
    RetentionShrinks(profile.strategy, HalfLivesElapsed(Touched(e, now), profile, later),
                     HalfLivesElapsed(e, profile, later), half);
  }

  /** Being read never lowers an entry's score at any later time, so it never makes it age out sooner. */
  lemma ReadingNeverLowers(e: MemoryEntry, profile: DecayProfile, now: real, later: real, half: real -> real)
    requires IsHalfPower(half) && e.lastAccessedAt <= now && e.importance >= 0.0
    ensures EffectiveImportance(e, profile, later, half) <= EffectiveImportance(Touched(e, now), profile, later, half)
    ensures ShouldConsolidate(Touched(e, now), profile, later, half) ==> ShouldConsolidate(e, profile, later, half)
  {
    if !Exempt(e, profile) {
      TouchedUnfloored(e, profile, now, later, half);
    }
  }

  /** A refreshing profile starts an entry's clock again when it is read: at that moment its score is its
      full importance, whatever its age was. */
  lemma ReadingRestarts(e: MemoryEntry, profile: DecayProfile, now: real, half: real -> real)
    requires IsHalfPower(half) && profile.refreshOnAccess
    ensures EffectiveImportance(Touched(e, now), profile, now, half)
         == if Exempt(e, profile) then e.importance else Max(profile.minImportance, e.importance)
  {
    if !Exempt(e, profile) {
      ZeroAge(Touched(e, now), profile, now);
      assert Retention(profile.strategy, 0.0, half) == 1.0;
    }
  }

  lemma ZeroAge(e: MemoryEntry, profile: DecayProfile, now: real)
    requires profile.halfLifeDays > 0.0 && Reference(e, profile) == now
    ensures HalfLivesElapsed(e, profile, now) == 0.0
  {
  }

  /** Only the clock of the rows read moves, and the answer itself is what was stored before the read. */
  lemma ReadingOnlyTouches(knn: seq<Uuid>, fetched: seq<MemoryEntry>, rows: Rows, passes: RowFilter, limit: int,
                           now: real, id: Uuid)
    requires FetchedByIds(fetched, Entries(rows), knn, passes)
    ensures var read := SemanticSearch(knn, fetched, limit);
            var after := TouchedRows(rows, IdsOf(read), now);
            && after.Keys == rows.Keys
            && (forall e :: e in read ==>
                  e.id in rows && rows[e.id].entry == e && after[e.id].entry == Touched(e, now))
            && (id in rows ==> after[id].entry.(lastAccessedAt := rows[id].entry.lastAccessedAt) == rows[id].entry)
            && (id in rows ==> after[id].embedding == rows[id].embedding)
            && (id in rows && after[id] != rows[id] ==> id in IdsOf(read))
  {
    var read := SemanticSearch(knn, fetched, limit);
    SortSlice(fetched, KnnKey(knn), limit);
    forall e | e in read
      ensures e in fetched && e.id in IdsOf(read)
    {
      assert e in multiset(read);
    }
  }
}
