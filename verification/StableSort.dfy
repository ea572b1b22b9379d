/** Python's `sorted(..., key=..., reverse=True)` and list slicing, shared by every ranking in the
    memory stack. The sort is stable: elements whose keys tie keep their input order. */
module StableSort {

  /** A Python key tuple `(pinned, score, recency)`, compared left to right with `False < True`. */
  datatype SortKey = SortKey(pinned: bool, score: real, recency: real)

  predicate Above(a: SortKey, b: SortKey) {
    if a.pinned != b.pinned then a.pinned
    else if a.score != b.score then a.score > b.score
    else a.recency > b.recency
  }

  function Insert<T>(x: T, s: seq<T>, key: T -> SortKey): seq<T> {
    if s == [] then [x]
    else if Above(key(s[0]), key(x)) then [s[0]] + Insert(x, s[1..], key)
    else [x] + s
  }

  function SortDesc<T>(s: seq<T>, key: T -> SortKey): seq<T> {
    if s == [] then [] else Insert(s[0], SortDesc(s[1..], key), key)
  }

  /** How many of `n` elements `s[:limit]` keeps: a negative bound counts from the end, an oversized one is clipped. */
  function SliceLength(n: nat, limit: int): (r: nat)
    ensures r <= n
  {
    if limit >= n then n
    else if limit >= 0 then limit
    else if n + limit >= 0 then n + limit
    else 0
  }

  /** `s[:limit]` */
  function Slice<T>(s: seq<T>, limit: int): (r: seq<T>)
    ensures r <= s && |r| == SliceLength(|s|, limit)
  {
    if limit >= |s| then s
    else if limit >= 0 then s[..limit]
    else if |s| + limit >= 0 then s[..|s| + limit]
    else []
  }

  /** A limit that is not negative keeps that many from the front, or all; a negative one drops as many from the end. */
  lemma SliceExactly<T>(s: seq<T>, n: int)
    requires n >= 0
    ensures Slice(s, n) == if n <= |s| then s[..n] else s
    ensures n > 0 ==> Slice(s, -n) == if n <= |s| then s[..|s| - n] else []
  {
  }

  /** Cutting a concatenation cuts its first part, then what is left of the second. */
  lemma SliceConcat<T>(s: seq<T>, t: seq<T>, limit: nat)
    ensures Slice(s + t, limit) == Slice(s, limit) + Slice(t, if |s| >= limit then 0 else limit - |s|)
  {
  }

  /** `[x for x in s if keep(x)]` */
  function Filter<T>(s: seq<T>, keep: T -> bool): seq<T> {
    if s == [] then []
    else if keep(s[0]) then [s[0]] + Filter(s[1..], keep)
    else Filter(s[1..], keep)
  }

  lemma {:induction false} FilterMember<T>(s: seq<T>, keep: T -> bool, x: T)
    ensures x in Filter(s, keep) <==> x in s && keep(x)
  {
    if s != [] {
      FilterMember(s[1..], keep, x);
      assert s == [s[0]] + s[1..];
    }
  }

  lemma {:induction false} FilterShrinks<T>(s: seq<T>, keep: T -> bool)
    ensures |Filter(s, keep)| <= |s|
  {
    if s != [] {
      FilterShrinks(s[1..], keep);
    }
  }

  lemma {:induction false} FilterConcat<T>(s: seq<T>, t: seq<T>, keep: T -> bool)
    ensures Filter(s + t, keep) == Filter(s, keep) + Filter(t, keep)
  {
    if s == [] {
      assert s + t == t;
    } else {
      FilterConcat(s[1..], t, keep);
      assert s + t == [s[0]] + (s[1..] + t);
    }
  }

  lemma {:induction false} FilterAll<T>(s: seq<T>, keep: T -> bool)
    requires forall i :: 0 <= i < |s| ==> keep(s[i])
    ensures Filter(s, keep) == s
  {
    if s != [] {
      FilterAll(s[1..], keep);
    }
  }

  lemma {:induction false} FilterNone<T>(s: seq<T>, keep: T -> bool)
    requires forall i :: 0 <= i < |s| ==> !keep(s[i])
    ensures Filter(s, keep) == []
  {
    if s != [] {
      FilterNone(s[1..], keep);
    }
  }

  lemma {:induction false} FilterOne<T>(s: seq<T>, keep: T -> bool, at: nat)
    requires at < |s| && forall i :: 0 <= i < |s| ==> (keep(s[i]) <==> i == at)
    ensures Filter(s, keep) == [s[at]]
  {
    if at == 0 {
      FilterNone(s[1..], keep);
    } else {
      FilterOne(s[1..], keep, at - 1);
    }
  }

  ghost predicate Distinct<T>(s: seq<T>) {
    forall i, j :: 0 <= i < j < |s| ==> s[i] != s[j]
  }

  lemma {:induction false} SetOfSeqSize<T>(s: seq<T>)
    ensures |set x | x in s| <= |s|
    ensures Distinct(s) ==> |set x | x in s| == |s|
  {
    if s != [] {
      var tail := s[1..];
      SetOfSeqSize(tail);
      var all, rest := set x | x in s, set x | x in tail;
      assert s == [s[0]] + tail;
      assert all == {s[0]} + rest;
      if Distinct(s) {
        assert s[0] !in tail;
      }
    }
  }

  ghost predicate Descending<T>(s: seq<T>, key: T -> SortKey) {
    forall i, j :: 0 <= i < j < |s| ==> !Above(key(s[j]), key(s[i]))
  }

  /** The elements of `s` whose key is exactly `k`, in order. */
  ghost function Tied<T>(s: seq<T>, key: T -> SortKey, k: SortKey): seq<T> {
    if s == [] then []
    else if key(s[0]) == k then [s[0]] + Tied(s[1..], key, k)
    else Tied(s[1..], key, k)
  }

  /** Both sequences carry the same elements, tie group by tie group, in the same order. */
  ghost predicate SameTies<T>(a: seq<T>, b: seq<T>, key: T -> SortKey) {
    forall k :: Tied(a, key, k) == Tied(b, key, k)
  }

  lemma {:induction false} TiedMembers<T>(s: seq<T>, key: T -> SortKey, k: SortKey)
    ensures forall x :: x in Tied(s, key, k) <==> x in s && key(x) == k
  {
    if s != [] {
      TiedMembers(s[1..], key, k);
      assert s == [s[0]] + s[1..];
    }
  }

  lemma TiedCons<T>(x: T, s: seq<T>, key: T -> SortKey, k: SortKey)
    ensures Tied([x] + s, key, k) == (if key(x) == k then [x] else []) + Tied(s, key, k)
  {
    assert ([x] + s)[1..] == s;
  }

  lemma {:induction false} InsertMembers<T>(x: T, s: seq<T>, key: T -> SortKey)
    ensures multiset(Insert(x, s, key)) == multiset([x] + s)
  {
    if s != [] && Above(key(s[0]), key(x)) {
      InsertMembers(x, s[1..], key);
      assert s == [s[0]] + s[1..];
    }
  }

  lemma {:induction false} InsertDescending<T>(x: T, s: seq<T>, key: T -> SortKey)
    requires Descending(s, key)
    ensures Descending(Insert(x, s, key), key)
  {
    if s != [] && Above(key(s[0]), key(x)) {
      var tail := Insert(x, s[1..], key);
      InsertDescending(x, s[1..], key);
      InsertMembers(x, s[1..], key);
      forall j | 0 <= j < |tail|
        ensures !Above(key(tail[j]), key(s[0]))
      {
        assert tail[j] in multiset(tail);
        assert tail[j] in [x] + s[1..];
        var m :| 0 <= m < |[x] + s[1..]| && ([x] + s[1..])[m] == tail[j];
        assert m > 0 ==> s[m] == tail[j];
      }
    }
  }

  lemma {:induction false} InsertStable<T>(x: T, s: seq<T>, key: T -> SortKey, k: SortKey)
    ensures Tied(Insert(x, s, key), key, k) == Tied([x] + s, key, k)
  {
    TiedCons(x, s, key, k);
    if s != [] && Above(key(s[0]), key(x)) {
      InsertStable(x, s[1..], key, k);
      TiedCons(x, s[1..], key, k);
      TiedCons(s[0], Insert(x, s[1..], key), key, k);
    }
  }

  lemma {:induction false} SortDescMembers<T>(s: seq<T>, key: T -> SortKey)
    ensures multiset(SortDesc(s, key)) == multiset(s)
    ensures |SortDesc(s, key)| == |s|
  {
    if s != [] {
      SortDescMembers(s[1..], key);
      InsertMembers(s[0], SortDesc(s[1..], key), key);
      assert s == [s[0]] + s[1..];
    }
    assert |multiset(SortDesc(s, key))| == |SortDesc(s, key)|;
  }

  lemma {:induction false} SortDescStable<T>(s: seq<T>, key: T -> SortKey, k: SortKey)
    ensures Tied(SortDesc(s, key), key, k) == Tied(s, key, k)
  {
    if s != [] {
      SortDescStable(s[1..], key, k);
      InsertStable(s[0], SortDesc(s[1..], key), key, k);
      TiedCons(s[0], SortDesc(s[1..], key), key, k);
    }
  }

  lemma {:induction false} SortDescDescending<T>(s: seq<T>, key: T -> SortKey)
    ensures Descending(SortDesc(s, key), key)
  {
    if s != [] {
      SortDescDescending(s[1..], key);
      InsertDescending(s[0], SortDesc(s[1..], key), key);
    }
  }

  /** Sortedness plus stability pins the result down completely. */
  lemma {:induction false} DescendingUnique<T>(a: seq<T>, b: seq<T>, key: T -> SortKey)
    requires Descending(a, key) && Descending(b, key)
    requires SameTies(a, b, key)
    ensures a == b
    decreases |a|
  {
    if a == [] || b == [] {
      if a != [] {
        assert Tied(a, key, key(a[0])) != Tied(b, key, key(a[0]));
      } else if b != [] {
        assert Tied(a, key, key(b[0])) != Tied(b, key, key(b[0]));
      }
    } else {
      HeadsAgree(a, b, key);
      forall k
        ensures Tied(a[1..], key, k) == Tied(b[1..], key, k)
      {
        assert Tied(a, key, k) == Tied(b, key, k);
        if key(a[0]) == k {
          assert Tied(a, key, k)[1..] == Tied(a[1..], key, k);
          assert Tied(b, key, k)[1..] == Tied(b[1..], key, k);
        }
      }
      DescendingUnique(a[1..], b[1..], key);
    }
  }

  lemma HeadsAgree<T>(a: seq<T>, b: seq<T>, key: T -> SortKey)
    requires a != [] && b != [] && Descending(a, key) && Descending(b, key)
    requires SameTies(a, b, key)
    ensures a[0] == b[0]
  {
    TiedMembers(b, key, key(a[0]));
    TiedMembers(a, key, key(b[0]));
    assert a[0] in Tied(a, key, key(a[0])) && b[0] in Tied(b, key, key(b[0]));
    assert a[0] in Tied(b, key, key(a[0])) && b[0] in Tied(a, key, key(b[0]));
    var i :| 0 <= i < |b| && b[i] == a[0];
    var j :| 0 <= j < |a| && a[j] == b[0];
    assert key(a[0]) == key(b[0]);
    assert Tied(a, key, key(a[0]))[0] == a[0] && Tied(b, key, key(a[0]))[0] == b[0];
  }

  /** A sequence is the sorted form of `s` exactly when it is descending and keeps every tie group. */
  lemma SortDescCharacterised<T>(s: seq<T>, r: seq<T>, key: T -> SortKey)
    ensures r == SortDesc(s, key) <==> Descending(r, key) && SameTies(r, s, key)
  {
    SortDescDescending(s, key);
    forall k
      ensures Tied(SortDesc(s, key), key, k) == Tied(s, key, k)
    {
      SortDescStable(s, key, k);
    }
    if Descending(r, key) && SameTies(r, s, key) {
      DescendingUnique(r, SortDesc(s, key), key);
    }
  }

  /** Two key functions that rank every pair of elements of `s` alike. */
  ghost predicate SameOrder<T>(s: seq<T>, key1: T -> SortKey, key2: T -> SortKey) {
    forall i, j :: 0 <= i < |s| && 0 <= j < |s| ==>
      Above(key1(s[i]), key1(s[j])) == Above(key2(s[i]), key2(s[j]))
  }

  lemma {:induction false} InsertSameOrder<T>(x: T, s: seq<T>, key1: T -> SortKey, key2: T -> SortKey)
    requires forall i :: 0 <= i < |s| ==> Above(key1(s[i]), key1(x)) == Above(key2(s[i]), key2(x))
    ensures Insert(x, s, key1) == Insert(x, s, key2)
  {
    if s != [] && Above(key1(s[0]), key1(x)) {
      InsertSameOrder(x, s[1..], key1, key2);
    }
  }

  /** Only the pairwise order of the keys matters to the result. */
  lemma {:induction false} SortSameOrder<T>(s: seq<T>, key1: T -> SortKey, key2: T -> SortKey)
    requires SameOrder(s, key1, key2)
    ensures SortDesc(s, key1) == SortDesc(s, key2)
  {
    if s != [] {
      var rest := SortDesc(s[1..], key1);
      SortSameOrder(s[1..], key1, key2);
      SortDescMembers(s[1..], key1);
      forall i | 0 <= i < |rest|
        ensures Above(key1(rest[i]), key1(s[0])) == Above(key2(rest[i]), key2(s[0]))
      {
        assert rest[i] in multiset(rest);
        assert rest[i] in s[1..];
        var j :| 0 <= j < |s[1..]| && s[1..][j] == rest[i];
        assert s[j + 1] == rest[i];
      }
      InsertSameOrder(s[0], rest, key1, key2);
    }
  }

  /** Truncating a descending list never drops something that belongs above a kept element. */
  lemma SliceKeepsTheTop<T>(s: seq<T>, key: T -> SortKey, limit: int, x: T, y: T)
    requires x in Slice(SortDesc(s, key), limit)
    requires y in s && y !in Slice(SortDesc(s, key), limit)
    ensures !Above(key(y), key(x))
  {
    SortDescMembers(s, key);
    SortDescDescending(s, key);
    var all := SortDesc(s, key);
    var r := Slice(all, limit);
    assert y in multiset(all);
    var i :| 0 <= i < |r| && r[i] == x;
    var j :| 0 <= j < |all| && all[j] == y;
    assert all[i] == x && |r| <= j;
  }

  lemma {:induction false} FilterOfMultiset<T>(s: seq<T>, keep: T -> bool)
    ensures multiset(Filter(s, keep)) <= multiset(s)
  {
    if s != [] {
      FilterOfMultiset(s[1..], keep);
      assert s == [s[0]] + s[1..];
    }
  }

  lemma {:induction false} FilterSame<T>(s: seq<T>, f: T -> bool, g: T -> bool)
    requires forall i :: 0 <= i < |s| ==> f(s[i]) == g(s[i])
    ensures Filter(s, f) == Filter(s, g)
  {
    if s != [] {
      FilterSame(s[1..], f, g);
    }
  }

  /** What filter, sort, truncate amounts to: nothing invented or repeated, nothing unwanted, best
      first, and no wanted element left out sorts strictly above one that was kept. */
  ghost predicate IsTop<T(!new)>(r: seq<T>, s: seq<T>, keep: T -> bool, key: T -> SortKey, limit: int) {
    && multiset(r) <= multiset(s)
    && |r| == |Slice(Filter(s, keep), limit)|
    && Descending(r, key)
    && (forall x :: x in r ==> keep(x))
    && (forall x, y :: x in r && y in s && y !in r && keep(y) ==> !Above(key(y), key(x)))
  }

  lemma FilterSortSlice<T(!new)>(s: seq<T>, keep: T -> bool, key: T -> SortKey, limit: int)
    ensures IsTop(Slice(SortDesc(Filter(s, keep), key), limit), s, keep, key, limit)
  {
    var kept := Filter(s, keep);
    var r := Slice(SortDesc(kept, key), limit);
    SortSlice(kept, key, limit);
    FilterOfMultiset(s, keep);
    SortDescMembers(kept, key);
    forall x | x in r
      ensures keep(x)
    {
      assert x in multiset(r);
      assert x in kept;
      FilterMember(s, keep, x);
    }
    forall x, y | x in r && y in s && y !in r && keep(y)
      ensures !Above(key(y), key(x))
    {
      FilterMember(s, keep, y);
      SliceKeepsTheTop(kept, key, limit, x, y);
    }
  }

  lemma SortSlice<T>(s: seq<T>, key: T -> SortKey, limit: int)
    ensures var r := Slice(SortDesc(s, key), limit);
            && Descending(r, key)
            && multiset(r) <= multiset(s)
            && (limit >= |s| ==> multiset(r) == multiset(s))
  {
    SortDescMembers(s, key);
    SortDescDescending(s, key);
    var all := SortDesc(s, key);
    SlicePart(all, limit);
    PrefixDescending(all, |Slice(all, limit)|, key);
  }

  lemma SlicePart<T>(s: seq<T>, limit: int)
    ensures multiset(Slice(s, limit)) <= multiset(s)
  {
    var r := Slice(s, limit);
    assert s == r + s[|r|..];
  }

  lemma PrefixDescending<T>(s: seq<T>, n: nat, key: T -> SortKey)
    requires n <= |s| && Descending(s, key)
    ensures Descending(s[..n], key)
  {
  }

  function Scaled(k: SortKey, w: real): SortKey {
    k.(score := k.score * w)
  }

  lemma ScalingKeepsOrder<T>(s: seq<T>, key: T -> SortKey, scaled: T -> SortKey, w: real)
    requires w > 0.0
    requires forall i :: 0 <= i < |s| ==> scaled(s[i]) == Scaled(key(s[i]), w)
    ensures SameOrder(s, scaled, key)
  {
    forall i, j | 0 <= i < |s| && 0 <= j < |s|
      ensures Above(scaled(s[i]), scaled(s[j])) == Above(key(s[i]), key(s[j]))
    {
      ScalingKeepsComparison(key(s[i]).score, key(s[j]).score, w);
    }
  }

  lemma ScalingKeepsComparison(a: real, b: real, w: real)
    requires w > 0.0
    ensures (a * w > b * w) == (a > b) && (a * w == b * w) == (a == b)
  {
    if a > b {
      assert (a - b) * w > 0.0;
    } else if a < b {
      assert (b - a) * w > 0.0;
    }
  }

  /** A filter that agrees everywhere and keys that order every pair alike give the same ranking. */
  lemma SameRanking<T>(s: seq<T>, keep1: T -> bool, keep2: T -> bool, key1: T -> SortKey, key2: T -> SortKey)
    requires forall i :: 0 <= i < |s| ==> keep1(s[i]) == keep2(s[i])
    requires SameOrder(s, key1, key2)
    ensures SortDesc(Filter(s, keep1), key1) == SortDesc(Filter(s, keep2), key2)
  {
    FilterSame(s, keep1, keep2);
    var kept := Filter(s, keep1);
    forall i, j | 0 <= i < |kept| && 0 <= j < |kept|
      ensures Above(key1(kept[i]), key1(kept[j])) == Above(key2(kept[i]), key2(kept[j]))
    {
      FilterMember(s, keep1, kept[i]);
      FilterMember(s, keep1, kept[j]);
      var a :| 0 <= a < |s| && s[a] == kept[i];
      var b :| 0 <= b < |s| && s[b] == kept[j];
    }
    SortSameOrder(kept, key1, key2);
  }

  /** No two positions share a key. */
  ghost predicate DistinctKeys<T>(s: seq<T>, key: T -> SortKey) {
    forall i, j :: 0 <= i < j < |s| ==> key(s[i]) != key(s[j])
  }

  lemma {:induction false} TiedIsSingleton<T>(s: seq<T>, key: T -> SortKey, x: T)
    requires DistinctKeys(s, key) && x in s
    ensures Tied(s, key, key(x)) == [x]
  {
    if s[0] == x {
      forall i | 0 <= i < |s[1..]|
        ensures key(s[1..][i]) != key(x)
      {
        assert s[1..][i] == s[i + 1];
      }
      TiedEmpty(s[1..], key, key(x));
    } else {
      var i :| 0 <= i < |s| && s[i] == x;
      assert s[1..][i - 1] == x;
      TiedIsSingleton(s[1..], key, x);
    }
  }

  lemma {:induction false} TiedEmpty<T>(s: seq<T>, key: T -> SortKey, k: SortKey)
    requires forall i :: 0 <= i < |s| ==> key(s[i]) != k
    ensures Tied(s, key, k) == []
  {
    if s != [] {
      TiedEmpty(s[1..], key, k);
    }
  }

  lemma KeysAsDistinct<T>(s: seq<T>, r: seq<T>, key: T -> SortKey)
    requires Distinct(s) && DistinctKeys(r, key) && forall x :: x in s <==> x in r
    ensures DistinctKeys(s, key)
  {
    forall i, j | 0 <= i < j < |s|
      ensures key(s[i]) != key(s[j])
    {
      assert s[i] in r && s[j] in r;
      var a :| 0 <= a < |r| && r[a] == s[i];
      var b :| 0 <= b < |r| && r[b] == s[j];
      assert a != b;
    }
  }

  /** When keys identify elements, a descending list is the sorted form of any listing of its members. */
  lemma SameMembersSort<T>(s: seq<T>, r: seq<T>, key: T -> SortKey)
    requires Distinct(s) && DistinctKeys(r, key) && Descending(r, key)
    requires forall x :: x in s <==> x in r
    ensures SortDesc(s, key) == r
  {
    KeysAsDistinct(s, r, key);
    forall k
      ensures Tied(r, key, k) == Tied(s, key, k)
    {
      if i :| 0 <= i < |r| && key(r[i]) == k {
        assert r[i] in s;
        TiedIsSingleton(r, key, r[i]);
        TiedIsSingleton(s, key, r[i]);
      } else {
        TiedEmpty(r, key, k);
        forall i | 0 <= i < |s|
          ensures key(s[i]) != k
        {
          assert s[i] in r;
        }
        TiedEmpty(s, key, k);
      }
    }
    SortDescCharacterised(s, r, key);
  }
}
