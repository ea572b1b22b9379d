/** The edge table of the memory graph, and its two writers: insert-or-replace, and replacement of everything
    one producer has written. */
module Edges {
  import opened MemoryTypes

  /** The primary key. */
  datatype Key = Key(src: Uuid, dst: Uuid, relation: string)

  datatype Attributes = Attributes(confidence: real, source: string, createdAt: int)

  datatype Edge = Edge(key: Key, attributes: Attributes)

  type Table = map<Key, Attributes>

  datatype WriteResult = Written(rows: nat) | StorageError

  /** `INSERT OR REPLACE`, row after row: a later row with the same key wins. */
  function Inserted(t: Table, rows: seq<Edge>): Table {
    if rows == [] then t
    else
      var last := rows[|rows| - 1];
      Inserted(t, rows[..|rows| - 1])[last.key := last.attributes]
  }

  function WithoutSource(t: Table, source: string): Table {
    map k | k in t && t[k].source != source :: t[k]
  }

  function Replaced(t: Table, source: string, rows: seq<Edge>): Table {
    Inserted(WithoutSource(t, source), rows)
  }

  function Keys(rows: seq<Edge>): set<Key> {
    set e | e in rows :: e.key
  }

  /** What the database does with the statements of one call: fail at statement number `failsAt`, if it gets
      there. */
  datatype Database = Database(failsAt: nat)

  class EdgeStore {
    /** The table as this connection sees it, and as it would be read back after a crash. */
    var edges: Table
    var committed: Table
    /** A transaction is opened by the first write, and stays open until it is committed or rolled back. */
    var inTransaction: bool

    ghost predicate Valid()
      reads this
    {
      !inTransaction ==> edges == committed
    }

    constructor ()
      ensures Valid() && edges == map[] && committed == map[] && !inTransaction
    {
      edges, committed, inTransaction := map[], map[], false;
    }

    /** A failure is not rolled back: the rows before it stay in the open transaction. */
    method Upsert(rows: seq<Edge>, db: Database) returns (r: WriteResult)
      requires Valid()
      modifies this
      ensures Valid()
      ensures rows == [] ==>
                && r == Written(0) && edges == old(edges)
                && committed == old(committed) && inTransaction == old(inTransaction)
      ensures rows != [] && db.failsAt > |rows| ==>
                r == Written(|rows|) && !inTransaction && edges == committed == Inserted(old(edges), rows)
      ensures rows != [] && db.failsAt <= |rows| ==>
                && r == StorageError && inTransaction
                && edges == Inserted(old(edges), rows[..db.failsAt]) && committed == old(committed)
    {
      if rows == [] {
        return Written(0);
      }
      inTransaction := true;
      for i := 0 to |rows|
        invariant i <= db.failsAt && inTransaction
        invariant edges == Inserted(old(edges), rows[..i]) && committed == old(committed)
      {
        if i == db.failsAt {
          return StorageError;
        }
        assert rows[..i + 1][..i] == rows[..i];
        edges := edges[rows[i].key := rows[i].attributes];
      }
      assert rows[..|rows|] == rows;
      if db.failsAt == |rows| {
        return StorageError;
      }
      committed, inTransaction := edges, false;
      r := Written(|rows|);
    }

    /** All or nothing. Statement 0 is `BEGIN`, which a transaction left open makes fail; statement 1 the
        deletion; then the rows; then the commit. */
    method ReplaceSource(source: string, rows: seq<Edge>, db: Database) returns (r: WriteResult)
      requires Valid()
      modifies this
      ensures Valid() && !inTransaction && edges == committed
      ensures r.Written? <==> !old(inTransaction) && db.failsAt > |rows| + 2
      ensures r.Written? ==> r.rows == |rows| && edges == Replaced(old(edges), source, rows)
      ensures r.StorageError? ==> edges == old(committed)
    {
      if inTransaction || db.failsAt <= 1 {
        edges, inTransaction := committed, false;
        return StorageError;
      }
      inTransaction := true;
      edges := WithoutSource(edges, source);
      for i := 0 to |rows|
        invariant i + 2 <= db.failsAt && inTransaction
        invariant edges == Inserted(WithoutSource(old(edges), source), rows[..i]) && committed == old(committed)
      {
        if db.failsAt == i + 2 {
          edges, inTransaction := committed, false;
          return StorageError;
        }
        assert rows[..i + 1][..i] == rows[..i];
        edges := edges[rows[i].key := rows[i].attributes];
      }
      assert rows[..|rows|] == rows;
      if db.failsAt == |rows| + 2 {
        edges, inTransaction := committed, false;
        return StorageError;
      }
      committed, inTransaction := edges, false;
      r := Written(|rows|);
    }

    /** The ids next to `node`: the other ends of its outgoing edges, then of its incoming ones, in the order
        the database returned the rows, each once. */
    method Neighbors(node: Uuid, outgoing: seq<Key>, incoming: seq<Key>) returns (order: seq<Uuid>)
      requires forall k :: k in outgoing <==> k in edges && k.src == node
      requires forall k :: k in incoming <==> k in edges && k.dst == node
      ensures forall i, j :: 0 <= i < j < |order| ==> order[i] != order[j]
      ensures forall x :: x in order <==> exists k :: k in edges && Joins(k, node, x)
      ensures exists n :: 0 <= n <= |order| && OutgoingFirst(edges, node, order, n)
    {
      var seen: set<Uuid> := {};
      order := [];
      for i := 0 to |outgoing|
        invariant seen == set x | x in order
        invariant forall x :: x in order <==> exists p :: 0 <= p < i && outgoing[p].dst == x
        invariant forall p, q :: 0 <= p < q < |order| ==> order[p] != order[q]
      {
        var other := outgoing[i].dst;
        if other !in seen {
          seen, order := seen + {other}, order + [other];
        }
      }
      ghost var firsts := order;
      assert firsts[..|firsts|] == firsts;
      assert OutgoingFirst(edges, node, firsts, |firsts|) by {
        forall x | x in firsts
          ensures exists k :: k in edges && k.src == node && k.dst == x
        {
          var p :| 0 <= p < |outgoing| && outgoing[p].dst == x;
          assert outgoing[p] in outgoing;
        }
        forall k | k in edges && k.src == node
          ensures k.dst in firsts
        {
          assert k in outgoing;
          var p :| 0 <= p < |outgoing| && outgoing[p] == k;
        }
      }
      for i := 0 to |incoming|
        invariant firsts <= order
        invariant seen == set x | x in order
        invariant forall x :: x in order <==> x in firsts || exists p :: 0 <= p < i && incoming[p].src == x
        invariant forall p, q :: 0 <= p < q < |order| ==> order[p] != order[q]
      {
        var other := incoming[i].src;
        if other !in seen {
          seen, order := seen + {other}, order + [other];
        }
      }
      forall x
        ensures x in order <==> exists k :: k in edges && Joins(k, node, x)
      {
        if x in order {
          if x !in firsts {
            var p :| 0 <= p < |incoming| && incoming[p].src == x;
            assert incoming[p] in incoming && Joins(incoming[p], node, x);
          }
        }
        if k :| k in edges && Joins(k, node, x) {
          if k.dst == node && k.src == x {
            assert k in incoming;
            var p :| 0 <= p < |incoming| && incoming[p] == k;
          }
        }
      }
      assert order[..|firsts|] == firsts;
      assert OutgoingFirst(edges, node, order, |firsts|);
    }
  }

  predicate Joins(k: Key, node: Uuid, x: Uuid) {
    (k.src == node && k.dst == x) || (k.dst == node && k.src == x)
  }

  /** The first `n` of `order` are exactly the nodes `node` refers to. */
  ghost predicate OutgoingFirst(edges: Table, node: Uuid, order: seq<Uuid>, n: nat)
    requires n <= |order|
  {
    && (forall k :: k in edges && k.src == node ==> k.dst in order[..n])
    && (forall x :: x in order[..n] ==> exists k :: k in edges && k.src == node && k.dst == x)
  }

  // ---------------------------------------------------------------------------
  // Replacing a producer's edges
  // ---------------------------------------------------------------------------

  lemma {:induction false} InsertedExactly(t: Table, rows: seq<Edge>)
    ensures Inserted(t, rows).Keys == t.Keys + Keys(rows)
    ensures forall k :: k in t && k !in Keys(rows) ==> Inserted(t, rows)[k] == t[k]
    ensures forall k :: k in Keys(rows) ==> Edge(k, Inserted(t, rows)[k]) in rows
  {
    if rows != [] {
      var init, last := rows[..|rows| - 1], rows[|rows| - 1];
      InsertedExactly(t, init);
      assert rows == init + [last];
      assert Keys(rows) == Keys(init) + {last.key};
    }
  }

  /** Of several rows with one key the last is stored. */
  lemma {:induction false} LastRowWins(t: Table, rows: seq<Edge>, i: nat)
    requires i < |rows| && forall j :: i < j < |rows| ==> rows[j].key != rows[i].key
    ensures rows[i].key in Inserted(t, rows) && Inserted(t, rows)[rows[i].key] == rows[i].attributes
  {
    if i < |rows| - 1 {
      LastRowWins(t, rows[..|rows| - 1], i);
    }
  }

  ghost predicate AllFrom(rows: seq<Edge>, source: string) {
    forall e :: e in rows ==> e.attributes.source == source
  }

  /** Afterwards the producer's edges are exactly the rows it gave, keyed as it gave them, and everything else
      in the table was there before. */
  lemma ReplacedExactly(t: Table, source: string, rows: seq<Edge>, k: Key)
    requires AllFrom(rows, source)
    ensures var after := Replaced(t, source, rows);
            && (k in after && after[k].source == source <==> k in Keys(rows))
            && (k in Keys(rows) ==> Edge(k, after[k]) in rows)
            && (k in after && after[k].source != source ==> k in t && t[k] == after[k])
  {
    InsertedExactly(WithoutSource(t, source), rows);
    if k in Keys(rows) {
      assert Edge(k, Replaced(t, source, rows)[k]) in rows;
    }
  }

  /** Another producer's edge survives exactly when its key is not rewritten. */
  lemma SurvivesExactly(t: Table, source: string, rows: seq<Edge>, k: Key)
    requires AllFrom(rows, source) && k in t && t[k].source != source
    ensures var after := Replaced(t, source, rows);
            k in after && after[k] == t[k] <==> k !in Keys(rows)
  {
    ReplacedExactly(t, source, rows, k);
    InsertedExactly(WithoutSource(t, source), rows);
  }

  /** An overwritten edge is not given back: once the producer drops the key, nothing holds it any more. */
  lemma OverwrittenIsLost(t: Table, source: string, rows: seq<Edge>, later: seq<Edge>, k: Key)
    requires AllFrom(rows, source) && AllFrom(later, source)
    requires k in Keys(rows) && k !in Keys(later)
    ensures k !in Replaced(Replaced(t, source, rows), source, later)
  {
    ReplacedExactly(t, source, rows, k);
    InsertedExactly(WithoutSource(Replaced(t, source, rows), source), later);
  }

  ghost predicate SameUpToTime(s: Table, t: Table) {
    && s.Keys == t.Keys
    && (forall k :: k in s ==> s[k].(createdAt := 0) == t[k].(createdAt := 0))
  }

  /** Rows that agree up to their time stamps: same keys, and one set of attributes for each key. */
  ghost predicate SameRows(rows: seq<Edge>, again: seq<Edge>) {
    && Keys(rows) == Keys(again)
    && (forall d, e :: d in rows && e in again && d.key == e.key ==>
          d.attributes.(createdAt := 0) == e.attributes.(createdAt := 0))
  }

  /** Replacing twice with the same rows is replacing once, up to time stamps. */
  lemma ReplaceTwiceIsOnce(t: Table, source: string, rows: seq<Edge>, again: seq<Edge>)
    requires AllFrom(rows, source) && AllFrom(again, source) && SameRows(rows, again)
    ensures SameUpToTime(Replaced(Replaced(t, source, rows), source, again), Replaced(t, source, rows))
  {
    var once := Replaced(t, source, rows);
    var twice := Replaced(once, source, again);
    InsertedExactly(WithoutSource(t, source), rows);
    InsertedExactly(WithoutSource(once, source), again);
    forall k
      ensures k in once <==> k in twice
      ensures k in once ==> twice[k].(createdAt := 0) == once[k].(createdAt := 0)
    {
      ReplacedExactly(t, source, rows, k);
      ReplacedExactly(once, source, again, k);
      if k in Keys(rows) {
        assert Edge(k, once[k]) in rows && Edge(k, twice[k]) in again;
      }
    }
  }
}
