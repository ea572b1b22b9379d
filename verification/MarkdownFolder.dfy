/** A folder of notes served through an index cache: a scan re-reads only the files whose time stamp or size
    has changed. */
module MarkdownFolder {
  import opened Options
  import opened StableSort

  /** A file as one scan finds it. */
  datatype File = File(
    path: string,
    hidden: bool,       // the file or a directory above it starts with a dot
    markdown: bool,
    symlink: bool,
    ignored: bool,      // matches an ignore pattern
    statable: bool,
    mtime: real,
    ctime: real,
    size: nat,
    readable: bool,
    text: string
  )

  /** A parsed note. Everything in its entry is a function of these four. */
  datatype Doc = Doc(path: string, text: string, createdAt: real, modifiedAt: real)

  datatype CacheItem = CacheItem(mtime: real, size: nat, doc: Doc)

  type Index = map<string, CacheItem>

  predicate Eligible(f: File, maxBytes: nat) {
    !f.hidden && f.markdown && !f.symlink && !f.ignored && f.statable && f.size <= maxBytes
  }

  function DocOf(f: File): Doc {
    Doc(f.path, f.text, f.ctime, f.mtime)
  }

  /** The files of a folder that are notes, in the order the walk meets them. */
  function Discovered(folder: seq<File>, maxBytes: nat): seq<File> {
    if folder == [] then []
    else
      var last := folder[|folder| - 1];
      Discovered(folder[..|folder| - 1], maxBytes) + (if Eligible(last, maxBytes) then [last] else [])
  }

  /** Reading one file, given the index it is looked up in. */
  function Read(view: Index, f: File): Option<Doc> {
    if f.path in view && view[f.path].mtime == f.mtime && view[f.path].size == f.size then Some(view[f.path].doc)
    else if f.readable then Some(DocOf(f))
    else None
  }

  /** A scan that looks the `k`-th file up in `views[k]`: another scan may install its index in between. */
  function ScanDocs(views: seq<Index>, files: seq<File>): seq<Doc>
    requires |views| == |files|
  {
    if files == [] then []
    else
      var n := |files| - 1;
      var doc := Read(views[n], files[n]);
      ScanDocs(views[..n], files[..n]) + (if doc.Some? then [doc.value] else [])
  }

  function ScanIndex(views: seq<Index>, files: seq<File>): Index
    requires |views| == |files|
  {
    if files == [] then map[]
    else
      var n := |files| - 1;
      var doc := Read(views[n], files[n]);
      var before := ScanIndex(views[..n], files[..n]);
      if doc.Some? then before[files[n].path := CacheItem(files[n].mtime, files[n].size, doc.value)] else before
  }

  function Throughout(index: Index, n: nat): seq<Index> {
    seq(n, _ => index)
  }

  /** What reading every note afresh gives. */
  function FullParse(files: seq<File>): seq<Doc> {
    if files == [] then []
    else
      var last := files[|files| - 1];
      FullParse(files[..|files| - 1]) + (if last.readable then [DocOf(last)] else [])
  }

  // ---------------------------------------------------------------------------
  // Queries
  // ---------------------------------------------------------------------------

  /** The filters and the relevance of a query, the importance and pin a note's front matter gives it. */
  datatype Query = Query(
    matches: Doc -> bool,
    relevance: Doc -> int,
    importance: Doc -> real,
    pinned: Doc -> bool,
    limit: int
  )

  /** Python's order on strings. */
  predicate Less(a: string, b: string) {
    if b == "" then false
    else if a == "" then true
    else if a[0] != b[0] then a[0] < b[0]
    else Less(a[1..], b[1..])
  }

  /** Pinned notes first, then relevance, importance and recency, highest first, then the path. */
  predicate Before(q: Query, a: Doc, b: Doc) {
    if q.pinned(a) != q.pinned(b) then q.pinned(a)
    else if q.relevance(a) != q.relevance(b) then q.relevance(a) > q.relevance(b)
    else if q.importance(a) != q.importance(b) then q.importance(a) > q.importance(b)
    else if a.modifiedAt != b.modifiedAt then a.modifiedAt > b.modifiedAt
    else Less(a.path, b.path)
  }

  function Placed(q: Query, x: Doc, s: seq<Doc>): seq<Doc> {
    if s == [] then [x] else if Before(q, s[0], x) then [s[0]] + Placed(q, x, s[1..]) else [x] + s
  }

  function Ranked(q: Query, s: seq<Doc>): seq<Doc> {
    if s == [] then [] else Placed(q, s[0], Ranked(q, s[1..]))
  }

  function FilterAndRank(docs: seq<Doc>, q: Query): seq<Doc> {
    Slice(Ranked(q, Filter(docs, q.matches)), q.limit)
  }

  class MarkdownFolderAdapter {
    const maxFileBytes: nat
    var index: Index

    constructor (maxFileBytes: nat)
      ensures this.maxFileBytes == maxFileBytes && index == map[]
    {
      this.maxFileBytes := maxFileBytes;
      index := map[];
    }

    method Discover(folder: seq<File>) returns (found: seq<File>)
      ensures found == Discovered(folder, maxFileBytes)
    {
      found := [];
      for i := 0 to |folder|
        invariant found == Discovered(folder[..i], maxFileBytes)
      {
        assert folder[..i + 1][..i] == folder[..i];
        var f := folder[i];
        if f.hidden || !f.markdown || f.symlink || f.ignored || !f.statable || f.size > maxFileBytes {
          continue;
        }
        found := found + [f];
      }
      assert folder[..|folder|] == folder;
    }

    /** The new index replaces the old one in one step, at the end. */
    method Rescan(folder: seq<File>) returns (docs: seq<Doc>)
      modifies this`index
      ensures var files := Discovered(folder, maxFileBytes);
              var views := Throughout(old(index), |files|);
              docs == ScanDocs(views, files) && index == ScanIndex(views, files)
    {
      var files := Discover(folder);
      ghost var views := Throughout(index, |files|);
      var newIndex: Index := map[];
      docs := [];
      for i := 0 to |files|
        invariant index == old(index)
        invariant docs == ScanDocs(views[..i], files[..i]) && newIndex == ScanIndex(views[..i], files[..i])
      {
        assert files[..i + 1][..i] == files[..i] && views[..i + 1][..i] == views[..i];
        var f := files[i];
        var doc;
        if f.path in index && index[f.path].mtime == f.mtime && index[f.path].size == f.size {
          doc := index[f.path].doc;
        } else {
          if !f.readable {
            continue;
          }
          doc := DocOf(f);
        }
        newIndex := newIndex[f.path := CacheItem(f.mtime, f.size, doc)];
        docs := docs + [doc];
      }
      assert files[..|files|] == files && views[..|files|] == views;
      index := newIndex;
    }

    method Search(folder: seq<File>, q: Query) returns (r: seq<Doc>)
      modifies this`index
      ensures var files := Discovered(folder, maxFileBytes);
              var views := Throughout(old(index), |files|);
              r == FilterAndRank(ScanDocs(views, files), q) && index == ScanIndex(views, files)
    {
      var docs := Rescan(folder);
      r := FilterAndRank(docs, q);
    }
  }

  // ---------------------------------------------------------------------------
  // The cache
  // ---------------------------------------------------------------------------

  /** A walk meets each path once. */
  ghost predicate DistinctPaths(files: seq<File>) {
    forall i, j :: 0 <= i < j < |files| ==> files[i].path != files[j].path
  }

  /** Discovered are exactly the visible Markdown files that are no links, match no ignore pattern, can be looked up
      and are not too large, each path once if the walk meets each once. */
  lemma {:induction false} DiscoveredExactly(folder: seq<File>, maxBytes: nat, f: File)
    ensures f in Discovered(folder, maxBytes) <==>
              && f in folder && f.markdown && f.statable && f.size <= maxBytes
              && !(f.hidden || f.symlink || f.ignored)
    ensures DistinctPaths(folder) ==> DistinctPaths(Discovered(folder, maxBytes))
  {
    if folder != [] {
      var init, last := folder[..|folder| - 1], folder[|folder| - 1];
      assert folder == init + [last];
      forall g: File
        ensures g in Discovered(init, maxBytes) <==> g in init && Eligible(g, maxBytes)
      {
        DiscoveredExactly(init, maxBytes, g);
      }
      DiscoveredExactly(init, maxBytes, f);
      if DistinctPaths(folder) {
        assert DistinctPaths(init);
        forall g | g in Discovered(init, maxBytes)
          ensures g.path != last.path
        {
          var i :| 0 <= i < |init| && init[i] == g;
          assert folder[i].path != folder[|init|].path;
        }
      }
    }
  }

  /** Reading every note afresh gives, for each readable file, its path and text, created when its inode last changed
      and modified when its content did. */
  lemma {:induction false} FullParseExactly(files: seq<File>, d: Doc)
    ensures d in FullParse(files) <==>
              exists f :: f in files && f.readable && d == Doc(f.path, f.text, f.ctime, f.mtime)
  {
    if files != [] {
      var init, last := files[..|files| - 1], files[|files| - 1];
      FullParseExactly(init, d);
      assert files == init + [last];
      if f :| f in files && f.readable && d == Doc(f.path, f.text, f.ctime, f.mtime) {
        assert f in init || f == last;
      }
    }
  }

  /** What the index says about this file, if it is asked, is what reading the file would say. */
  predicate Fresh(view: Index, f: File) {
    f.path in view && view[f.path].mtime == f.mtime && view[f.path].size == f.size ==>
      f.readable && view[f.path].doc == DocOf(f)
  }

  ghost predicate AllFresh(views: seq<Index>, files: seq<File>)
    requires |views| == |files|
  {
    forall k :: 0 <= k < |files| ==> Fresh(views[k], files[k])
  }

  /** Cached items sit under their own path. */
  ghost predicate Keyed(index: Index) {
    forall p :: p in index ==> index[p].doc.path == p
  }

  lemma {:induction false} ScanIsKeyed(views: seq<Index>, files: seq<File>)
    requires |views| == |files|
    requires forall k :: 0 <= k < |files| ==> Keyed(views[k])
    ensures Keyed(ScanIndex(views, files))
  {
    if files != [] {
      ScanIsKeyed(views[..|files| - 1], files[..|files| - 1]);
      assert Keyed(views[|files| - 1]);
    }
  }

  lemma {:induction false} PathsOfScan(views: seq<Index>, files: seq<File>, d: Doc)
    requires |views| == |files|
    requires forall k :: 0 <= k < |files| ==> Keyed(views[k])
    requires d in ScanDocs(views, files)
    ensures exists k :: 0 <= k < |files| && files[k].path == d.path && Read(views[k], files[k]) == Some(d)
  {
    var n := |files| - 1;
    assert Keyed(views[n]);
    if Read(views[n], files[n]) != Some(d) {
      PathsOfScan(views[..n], files[..n], d);
      var k :| 0 <= k < n && files[..n][k].path == d.path && Read(views[..n][k], files[..n][k]) == Some(d);
      assert files[k].path == d.path && Read(views[k], files[k]) == Some(d);
    }
  }

  lemma {:induction false} PathsOfParse(files: seq<File>, d: Doc)
    requires d in FullParse(files)
    ensures exists k :: 0 <= k < |files| && files[k].readable && DocOf(files[k]) == d
  {
    var n := |files| - 1;
    if !(files[n].readable && DocOf(files[n]) == d) {
      PathsOfParse(files[..n], d);
      var k :| 0 <= k < n && files[..n][k].readable && DocOf(files[..n][k]) == d;
      assert files[k].readable && DocOf(files[k]) == d;
    }
  }

  lemma {:induction false} FreshScanIsFullParse(views: seq<Index>, files: seq<File>)
    requires |views| == |files| && AllFresh(views, files)
    ensures ScanDocs(views, files) == FullParse(files)
  {
    if files != [] {
      var n := |files| - 1;
      assert AllFresh(views[..n], files[..n]) by {
        forall k | 0 <= k < n
          ensures Fresh(views[..n][k], files[..n][k])
        {
          assert Fresh(views[k], files[k]);
        }
      }
      FreshScanIsFullParse(views[..n], files[..n]);
      assert Fresh(views[n], files[n]);
    }
  }

  lemma {:induction false} FullParseScanIsFresh(views: seq<Index>, files: seq<File>)
    requires |views| == |files| && DistinctPaths(files)
    requires forall k :: 0 <= k < |files| ==> Keyed(views[k])
    requires ScanDocs(views, files) == FullParse(files)
    ensures AllFresh(views, files)
  {
    if files != [] {
      var n := |files| - 1;
      var scanned, parsed := ScanDocs(views[..n], files[..n]), FullParse(files[..n]);
      var doc := Read(views[n], files[n]);
      assert Keyed(views[n]);
      LastDocAgrees(views, files, scanned, parsed);
      FullParseScanIsFresh(views[..n], files[..n]);
      forall k | 0 <= k < |files|
        ensures Fresh(views[k], files[k])
      {
        if k < n {
          assert Fresh(views[..n][k], files[..n][k]);
        }
      }
    }
  }

  /** Both lists say of the last file what they say, and nothing about its path before. */
  lemma LastDocAgrees(views: seq<Index>, files: seq<File>, scanned: seq<Doc>, parsed: seq<Doc>)
    requires |views| == |files| > 0 && DistinctPaths(files)
    requires forall k :: 0 <= k < |files| ==> Keyed(views[k])
    requires scanned == ScanDocs(views[..|files| - 1], files[..|files| - 1])
    requires parsed == FullParse(files[..|files| - 1])
    requires ScanDocs(views, files) == FullParse(files)
    ensures Read(views[|files| - 1], files[|files| - 1])
         == if files[|files| - 1].readable then Some(DocOf(files[|files| - 1])) else None
    ensures scanned == parsed
  {
    var n := |files| - 1;
    var f, doc := files[n], Read(views[n], files[n]);
    assert Keyed(views[n]);
    var whole := ScanDocs(views, files);
    assert whole == scanned + (if doc.Some? then [doc.value] else []);
    assert whole == parsed + (if f.readable then [DocOf(f)] else []);
    if doc.Some? && !f.readable {
      assert doc.value in parsed by {
        assert parsed[|parsed| - 1] == whole[|scanned|] == doc.value;
      }
      PathsOfParse(files[..n], doc.value);
      assert false;
    }
    assert |scanned| == |parsed|;
    assert whole[..|scanned|] == scanned && whole[..|parsed|] == parsed;
  }

  /** A scan gives what reading every note afresh would give, exactly when every cached item it uses is still true. */
  lemma ScanExactly(views: seq<Index>, files: seq<File>)
    requires |views| == |files| && DistinctPaths(files)
    requires forall k :: 0 <= k < |files| ==> Keyed(views[k])
    ensures ScanDocs(views, files) == FullParse(files) <==> AllFresh(views, files)
  {
    if AllFresh(views, files) {
      FreshScanIsFullParse(views, files);
    }
    if ScanDocs(views, files) == FullParse(files) {
      FullParseScanIsFresh(views, files);
    }
  }

  /** The index holds an item for a path exactly when the scan gave a note there, with the stamp it was seen
      with: it comes from one complete scan. */
  lemma {:induction false} IndexExactly(views: seq<Index>, files: seq<File>, p: string)
    requires |views| == |files| && DistinctPaths(files)
    ensures var index := ScanIndex(views, files);
            && (p in index ==> exists k :: 0 <= k < |files| && ItemFor(views, files, k, p, index[p]))
            && (forall k :: 0 <= k < |files| && files[k].path == p && Read(views[k], files[k]).Some? ==> p in index)
  {
    if files != [] {
      var n := |files| - 1;
      var before := ScanIndex(views[..n], files[..n]);
      IndexExactly(views[..n], files[..n], p);
      if Read(views[n], files[n]).Some? && files[n].path == p {
        assert ItemFor(views, files, n, p, ScanIndex(views, files)[p]);
      } else if p in before {
        var k :| 0 <= k < n && ItemFor(views[..n], files[..n], k, p, before[p]);
        assert ItemFor(views, files, k, p, before[p]);
      }
      forall k | 0 <= k < |files| && files[k].path == p && Read(views[k], files[k]).Some?
        ensures p in ScanIndex(views, files)
      {
        if k < n {
          assert files[..n][k].path == p && Read(views[..n][k], files[..n][k]).Some?;
        }
      }
    }
  }

  predicate ItemFor(views: seq<Index>, files: seq<File>, k: nat, p: string, item: CacheItem)
    requires |views| == |files| && k < |files|
  {
    files[k].path == p && Read(views[k], files[k]).Some? &&
    item == CacheItem(files[k].mtime, files[k].size, Read(views[k], files[k]).value)
  }

  // ---------------------------------------------------------------------------
  // One scan after another
  // ---------------------------------------------------------------------------

  /** From one state of the folder to the next, no note keeps its stamp while its content, its creation time
      or its readability changes. */
  ghost predicate Honest(earlier: seq<File>, later: seq<File>) {
    forall f, g :: f in earlier && g in later && f.path == g.path
                   && f.mtime == g.mtime && f.size == g.size && f.readable ==>
      g.readable && DocOf(g) == DocOf(f)
  }

  ghost predicate WellWalked(history: seq<seq<File>>) {
    forall k :: 0 <= k < |history| ==> DistinctPaths(history[k])
  }

  /** The index after scanning each state of the folder in turn. */
  function IndexAfter(history: seq<seq<File>>): Index {
    if history == [] then map[]
    else
      var files := history[|history| - 1];
      ScanIndex(Throughout(IndexAfter(history[..|history| - 1]), |files|), files)
  }

  function ScanAt(history: seq<seq<File>>, k: nat): seq<Doc>
    requires k < |history|
  {
    ScanDocs(Throughout(IndexAfter(history[..k]), |history[k]|), history[k])
  }

  ghost predicate AllScansRight(history: seq<seq<File>>) {
    forall k :: 0 <= k < |history| ==> ScanAt(history, k) == FullParse(history[k])
  }

  ghost predicate AllHonest(history: seq<seq<File>>) {
    forall k :: 0 < k < |history| ==> Honest(history[k - 1], history[k])
  }

  lemma {:induction false} IndexIsKeyed(history: seq<seq<File>>)
    ensures Keyed(IndexAfter(history))
  {
    if history != [] {
      var files := history[|history| - 1];
      IndexIsKeyed(history[..|history| - 1]);
      ScanIsKeyed(Throughout(IndexAfter(history[..|history| - 1]), |files|), files);
    }
  }

  lemma HonestMeansFresh(views: seq<Index>, files: seq<File>, g: File)
    requires |views| == |files| && DistinctPaths(files) && AllFresh(views, files)
    requires forall f :: f in files && f.path == g.path && f.mtime == g.mtime && f.size == g.size && f.readable ==>
               g.readable && DocOf(g) == DocOf(f)
    ensures Fresh(ScanIndex(views, files), g)
  {
    var index := ScanIndex(views, files);
    IndexExactly(views, files, g.path);
    if g.path in index {
      var j :| 0 <= j < |files| && ItemFor(views, files, j, g.path, index[g.path]);
      assert Fresh(views[j], files[j]);
      assert files[j] in files;
    }
  }

  lemma FreshMeansHonest(views: seq<Index>, files: seq<File>, i: nat, g: File)
    requires |views| == |files| && DistinctPaths(files) && AllFresh(views, files)
    requires i < |files| && files[i].readable && files[i].path == g.path
    requires files[i].mtime == g.mtime && files[i].size == g.size
    requires Fresh(ScanIndex(views, files), g)
    ensures g.readable && DocOf(g) == DocOf(files[i])
  {
    IndexExactly(views, files, g.path);
    assert Fresh(views[i], files[i]) && Read(views[i], files[i]).Some?;
    var j :| 0 <= j < |files| && ItemFor(views, files, j, g.path, ScanIndex(views, files)[g.path]);
    assert i == j;
  }

  /** After a right scan the index is the folder's own notes: the next scan is right exactly when the folder
      has been honest in between. */
  lemma NextScanExactly(views: seq<Index>, files: seq<File>, later: seq<File>)
    requires |views| == |files| && DistinctPaths(files) && AllFresh(views, files)
    ensures AllFresh(Throughout(ScanIndex(views, files), |later|), later) <==> Honest(files, later)
  {
    var next := Throughout(ScanIndex(views, files), |later|);
    if Honest(files, later) {
      forall k | 0 <= k < |later|
        ensures Fresh(next[k], later[k])
      {
        assert later[k] in later;
        HonestMeansFresh(views, files, later[k]);
      }
    }
    if AllFresh(next, later) {
      forall f, g | f in files && g in later && f.path == g.path && f.mtime == g.mtime && f.size == g.size && f.readable
        ensures g.readable && DocOf(g) == DocOf(f)
      {
        var i :| 0 <= i < |files| && files[i] == f;
        var k :| 0 <= k < |later| && later[k] == g;
        assert Fresh(next[k], later[k]);
        FreshMeansHonest(views, files, i, g);
      }
    }
  }

  lemma ScansSnoc(before: seq<seq<File>>, files: seq<File>)
    ensures AllScansRight(before + [files]) <==>
              AllScansRight(before) && ScanAt(before + [files], |before|) == FullParse(files)
  {
    var history := before + [files];
    forall k | 0 <= k < |before|
      ensures ScanAt(history, k) == ScanAt(before, k) && history[k] == before[k]
    {
      assert history[..k] == before[..k];
    }
    assert history[|before|] == files;
    if AllScansRight(history) {
      forall k | 0 <= k < |before|
        ensures ScanAt(before, k) == FullParse(before[k])
      {
        assert ScanAt(history, k) == FullParse(history[k]);
      }
    }
  }

  lemma HonestSnoc(before: seq<seq<File>>, files: seq<File>)
    ensures AllHonest(before + [files]) <==>
              AllHonest(before) && (before != [] ==> Honest(before[|before| - 1], files))
  {
    var history := before + [files];
    if AllHonest(history) {
      forall k | 0 < k < |before|
        ensures Honest(before[k - 1], before[k])
      {
        assert Honest(history[k - 1], history[k]);
      }
      if before != [] {
        assert Honest(history[|before| - 1], history[|before|]);
      }
    }
  }

  /** Over any sequence of edits and scans, every scan gives what a full read would give, exactly when no note
      ever changes between two scans without its time stamp or size showing it. */
  lemma {:induction false} IncrementalExactly(history: seq<seq<File>>)
    requires WellWalked(history)
    ensures AllScansRight(history) <==> AllHonest(history)
  {
    if history != [] {
      var before, files := history[..|history| - 1], history[|history| - 1];
      assert history == before + [files];
      assert WellWalked(before);
      IncrementalExactly(before);
      OneMoreScan(before, files);
    }
  }

  lemma OneMoreScan(before: seq<seq<File>>, files: seq<File>)
    requires WellWalked(before + [files]) && (AllScansRight(before) <==> AllHonest(before))
    ensures AllScansRight(before + [files]) <==> AllHonest(before + [files])
  {
    ScansSnoc(before, files);
    HonestSnoc(before, files);
    if AllScansRight(before) {
      LastScanExactly(before, files);
    }
  }

  lemma LastScanExactly(before: seq<seq<File>>, files: seq<File>)
    requires WellWalked(before + [files]) && AllScansRight(before)
    ensures ScanAt(before + [files], |before|) == FullParse(files)
            <==> (before != [] ==> Honest(before[|before| - 1], files))
  {
    LastStep(before + [files]);
    if before != [] {
      LastScanIsRight(before, files);
    }
  }

  lemma LastScanIsRight(before: seq<seq<File>>, files: seq<File>)
    requires before != [] && AllScansRight(before)
    ensures ScanAt(before + [files], |before| - 1) == FullParse(before[|before| - 1])
  {
    var n := |before| - 1;
    assert ScanAt(before, n) == FullParse(before[n]);
    assert (before + [files])[..n] == before[..n];
  }

  lemma LastStep(history: seq<seq<File>>)
    requires WellWalked(history) && history != []
    ensures var n := |history| - 1;
            n == 0 ==> ScanAt(history, n) == FullParse(history[n])
    ensures var n := |history| - 1;
            n > 0 && ScanAt(history, n - 1) == FullParse(history[n - 1]) ==>
              (ScanAt(history, n) == FullParse(history[n]) <==> Honest(history[n - 1], history[n]))
  {
    var n := |history| - 1;
    var index := IndexAfter(history[..n]);
    var views := Throughout(index, |history[n]|);
    IndexIsKeyed(history[..n]);
    ScanExactly(views, history[n]);
    if n > 0 {
      assert history[..n][..n - 1] == history[..n - 1];
      var earlier := Throughout(IndexAfter(history[..n - 1]), |history[n - 1]|);
      IndexIsKeyed(history[..n - 1]);
      ScanExactly(earlier, history[n - 1]);
      if AllFresh(earlier, history[n - 1]) {
        NextScanExactly(earlier, history[n - 1], history[n]);
      }
    }
  }

  /** A file edited in place, with its size kept and its time stamp set back, is served as it was. */
  lemma StaleExample(path: string, mtime: real, ctime: real)
    ensures var before := File(path, false, true, false, false, true, mtime, ctime, 1, true, "a");
            var after := before.(text := "b");
            ScanAt([[before], [after]], 1) == [DocOf(before)] != FullParse([after])
  {
    var before := File(path, false, true, false, false, true, mtime, ctime, 1, true, "a");
    var after := before.(text := "b");
    var history := [[before], [after]];
    assert history[..1] == [[before]] && [[before]][..0] == [];
    ScanOne(map[], before);
    var index := IndexAfter(history[..1]);
    assert Throughout(IndexAfter([]), |[before]|) == Throughout(map[], 1);
    assert index == map[path := CacheItem(mtime, 1, DocOf(before))];
    ScanOne(index, after);
    assert history[1] == [after] && Read(index, after) == Some(DocOf(before));
    ParseOne(after);
    assert DocOf(before).text[0] == 'a' && DocOf(after).text[0] == 'b';
  }

  lemma ParseOne(f: File)
    requires f.readable
    ensures FullParse([f]) == [DocOf(f)]
  {
    assert [f][..0] == [];
  }

  lemma ScanOne(view: Index, f: File)
    ensures var doc, views := Read(view, f), Throughout(view, 1);
            && ScanDocs(views, [f]) == (if doc.Some? then [doc.value] else [])
            && ScanIndex(views, [f])
               == (if doc.Some? then map[f.path := CacheItem(f.mtime, f.size, doc.value)] else map[])
  {
    var views := Throughout(view, 1);
    assert views[..0] == [] && [f][..0] == [] && views[0] == view;
  }

  // ---------------------------------------------------------------------------
  // Overlapping scans
  // ---------------------------------------------------------------------------

  /** One installed index: the files its scan met, and for each the earlier installation whose index was in
      place when the file was looked up (`0` is the empty index a new adapter starts with). */
  datatype Installation = Installation(files: seq<File>, sawAt: seq<nat>)

  /** Scans run in worker threads and may overlap: a scan sees any indexes installed before its own. */
  ghost predicate Overlapping(run: seq<Installation>) {
    forall k :: 0 <= k < |run| ==>
      && |run[k].sawAt| == |run[k].files|
      && (forall j :: 0 <= j < |run[k].sawAt| ==> run[k].sawAt[j] <= k)
  }

  /** The index in place after `n` installations. */
  function Installed(run: seq<Installation>, n: nat): Index
    requires n <= |run|
    requires forall k :: 0 <= k < |run| ==> |run[k].sawAt| == |run[k].files|
    requires forall k, j :: 0 <= k < |run| && 0 <= j < |run[k].sawAt| ==> run[k].sawAt[j] <= k
    decreases n, 0
  {
    if n == 0 then map[] else ScanIndex(ViewsOf(run, n - 1), run[n - 1].files)
  }

  function ViewsOf(run: seq<Installation>, k: nat): (views: seq<Index>)
    requires k < |run|
    requires forall k :: 0 <= k < |run| ==> |run[k].sawAt| == |run[k].files|
    requires forall k, j :: 0 <= k < |run| && 0 <= j < |run[k].sawAt| ==> run[k].sawAt[j] <= k
    ensures |views| == |run[k].files|
    decreases k, 1
  {
    seq(|run[k].files|, j requires 0 <= j < |run[k].files| => Installed(run, run[k].sawAt[j]))
  }

  /** A time stamp and a size determine what a path holds, whenever it is looked at. */
  ghost predicate StampsDetermine(run: seq<Installation>) {
    forall a, b :: 0 <= a < |run| && 0 <= b < |run| ==> Honest(run[a].files, run[b].files)
  }

  /** The item is what some scan read from the file it stands for. */
  ghost predicate Backed(run: seq<Installation>, p: string, item: CacheItem) {
    exists a, f :: 0 <= a < |run| && f in run[a].files && f.readable && f.path == p &&
                   item == CacheItem(f.mtime, f.size, DocOf(f))
  }

  lemma {:induction false} InstalledIsBacked(run: seq<Installation>, n: nat)
    requires n <= |run| && Overlapping(run) && StampsDetermine(run)
    requires forall k :: 0 <= k < |run| ==> DistinctPaths(run[k].files)
    ensures forall p :: p in Installed(run, n) ==> Backed(run, p, Installed(run, n)[p])
    decreases n, 0
  {
    if n > 0 {
      var views, files := ViewsOf(run, n - 1), run[n - 1].files;
      ViewsAreFresh(run, n - 1);
      forall p | p in Installed(run, n)
        ensures Backed(run, p, Installed(run, n)[p])
      {
        IndexExactly(views, files, p);
        var k :| 0 <= k < |files| && ItemFor(views, files, k, p, Installed(run, n)[p]);
        assert Fresh(views[k], files[k]);
        assert files[k] in run[n - 1].files;
      }
    }
  }

  lemma {:induction false} ViewsAreFresh(run: seq<Installation>, k: nat)
    requires k < |run| && Overlapping(run) && StampsDetermine(run)
    requires forall k :: 0 <= k < |run| ==> DistinctPaths(run[k].files)
    ensures AllFresh(ViewsOf(run, k), run[k].files)
    decreases k, 1
  {
    forall j | 0 <= j < |run[k].files|
      ensures Fresh(ViewsOf(run, k)[j], run[k].files[j])
    {
      InstalledIsBacked(run, run[k].sawAt[j]);
      BackedIsFresh(run, Installed(run, run[k].sawAt[j]), k, run[k].files[j]);
    }
  }

  lemma BackedIsFresh(run: seq<Installation>, view: Index, k: nat, g: File)
    requires StampsDetermine(run) && k < |run| && g in run[k].files
    requires g.path in view ==> Backed(run, g.path, view[g.path])
    ensures Fresh(view, g)
  {
    if g.path in view {
      var item := view[g.path];
      var a, f :| 0 <= a < |run| && f in run[a].files && f.readable && f.path == g.path &&
                  item == CacheItem(f.mtime, f.size, DocOf(f));
      SameStampSameDoc(run[a].files, run[k].files, f, g);
    }
  }

  lemma SameStampSameDoc(earlier: seq<File>, later: seq<File>, f: File, g: File)
    requires Honest(earlier, later) && f in earlier && g in later && f.path == g.path && f.readable
    ensures f.mtime == g.mtime && f.size == g.size ==> g.readable && DocOf(g) == DocOf(f)
  {
  }

  /** However scans overlap, each gives what reading its own files afresh would give. */
  lemma OverlappingScansAreRight(run: seq<Installation>, k: nat)
    requires k < |run| && Overlapping(run) && StampsDetermine(run)
    requires forall k :: 0 <= k < |run| ==> DistinctPaths(run[k].files)
    ensures ScanDocs(ViewsOf(run, k), run[k].files) == FullParse(run[k].files)
  {
    ViewsAreFresh(run, k);
    FreshScanIsFullParse(ViewsOf(run, k), run[k].files);
  }

  // ---------------------------------------------------------------------------
  // Ranking
  // ---------------------------------------------------------------------------

  lemma {:induction false} LessIsTotal(a: string, b: string)
    ensures !(Less(a, b) && Less(b, a))
    ensures Less(a, b) || Less(b, a) || a == b
    ensures Less(a, b) ==> a != b
  {
    if a != "" && b != "" {
      LessIsTotal(a[1..], b[1..]);
      assert a == [a[0]] + a[1..] && b == [b[0]] + b[1..];
    }
  }

  lemma {:induction false} LessIsTransitive(a: string, b: string, c: string)
    requires Less(a, b) && Less(b, c)
    ensures Less(a, c)
  {
    if a != "" && a[0] == b[0] == c[0] {
      LessIsTransitive(a[1..], b[1..], c[1..]);
    }
  }

  lemma BeforeIsTransitive(q: Query, a: Doc, b: Doc, c: Doc)
    requires Before(q, a, b) && Before(q, b, c)
    ensures Before(q, a, c)
  {
    if Less(a.path, b.path) && Less(b.path, c.path) {
      LessIsTransitive(a.path, b.path, c.path);
    }
  }

  lemma BeforeIsTotal(q: Query, a: Doc, b: Doc)
    ensures !(Before(q, a, b) && Before(q, b, a))
    ensures a.path != b.path ==> Before(q, a, b) || Before(q, b, a)
  {
    LessIsTotal(a.path, b.path);
  }

  /** One path is listed before another: it is a proper beginning of it, or has the smaller character where they first
      differ. */
  ghost predicate ListedBefore(a: string, b: string) {
    || (a <= b && |a| < |b|)
    || exists k :: 0 <= k < |a| && k < |b| && a[..k] == b[..k] && a[k] < b[k]
  }

  lemma ListedBeforeCons(c: char, a: string, b: string)
    ensures ListedBefore([c] + a, [c] + b) <==> ListedBefore(a, b)
  {
    var a', b' := [c] + a, [c] + b;
    assert a'[1..] == a && b'[1..] == b;
    if k :| 0 <= k < |a| && k < |b| && a[..k] == b[..k] && a[k] < b[k] {
      assert a'[..k + 1] == [c] + a[..k] && b'[..k + 1] == [c] + b[..k];
      assert a'[k + 1] < b'[k + 1];
    }
    if k :| 0 <= k < |a'| && k < |b'| && a'[..k] == b'[..k] && a'[k] < b'[k] {
      assert a[..k - 1] == a'[..k][1..] && b[..k - 1] == b'[..k][1..];
      assert a[k - 1] < b[k - 1];
    }
  }

  lemma FirstDiffers(a: string, b: string)
    requires a != "" && b != "" && a[0] != b[0]
    ensures ListedBefore(a, b) <==> a[0] < b[0]
  {
    assert a[..0] == b[..0];
    forall k | 0 < k < |a| && k < |b|
      ensures a[..k] != b[..k]
    {
      assert a[..k][0] == a[0] && b[..k][0] == b[0];
    }
  }

  lemma {:induction false} LessExactly(a: string, b: string)
    ensures Less(a, b) <==> ListedBefore(a, b)
  {
    if a != "" && b != "" && a[0] == b[0] {
      LessExactly(a[1..], b[1..]);
      ListedBeforeCons(a[0], a[1..], b[1..]);
      assert a == [a[0]] + a[1..] && b == [a[0]] + b[1..];
    } else if a != "" && b != "" {
      FirstDiffers(a, b);
    }
  }

  /** A note belongs before another: first by pin, then by how often the terms occur, by importance and by recency, the
      higher first, and at last by path. */
  ghost predicate BelongsBefore(q: Query, a: Doc, b: Doc) {
    || (q.pinned(a) && !q.pinned(b))
    || (q.pinned(a) == q.pinned(b)
        && (|| q.relevance(a) > q.relevance(b)
            || (q.relevance(a) == q.relevance(b)
                && (|| q.importance(a) > q.importance(b)
                    || (q.importance(a) == q.importance(b)
                        && (|| a.modifiedAt > b.modifiedAt
                            || (a.modifiedAt == b.modifiedAt && ListedBefore(a.path, b.path))))))))
  }

  lemma BeforeExactly(q: Query, a: Doc, b: Doc)
    ensures Before(q, a, b) <==> BelongsBefore(q, a, b)
  {
    LessExactly(a.path, b.path);
  }

  ghost predicate DistinctNotes(docs: seq<Doc>) {
    forall i, j :: 0 <= i < j < |docs| ==> docs[i].path != docs[j].path
  }

  ghost predicate InOrder(q: Query, s: seq<Doc>) {
    forall i, j :: 0 <= i < j < |s| ==> Before(q, s[i], s[j])
  }

  lemma {:induction false} PlacedMembers(q: Query, x: Doc, s: seq<Doc>)
    ensures forall y :: y in Placed(q, x, s) <==> y == x || y in s
  {
    if s != [] {
      PlacedMembers(q, x, s[1..]);
      assert s == [s[0]] + s[1..];
    }
  }

  lemma {:induction false} PlacedInOrder(q: Query, x: Doc, s: seq<Doc>)
    requires InOrder(q, s) && forall y :: y in s ==> y.path != x.path
    ensures InOrder(q, Placed(q, x, s))
  {
    if s != [] {
      var head := s[0];
      BeforeIsTotal(q, head, x);
      assert s == [head] + s[1..];
      if Before(q, head, x) {
        PlacedInOrder(q, x, s[1..]);
        PlacedMembers(q, x, s[1..]);
        var tail := Placed(q, x, s[1..]);
        forall j | 0 <= j < |tail|
          ensures Before(q, head, tail[j])
        {
          assert tail[j] in tail;
          if tail[j] != x {
            var i :| 0 <= i < |s[1..]| && s[1..][i] == tail[j];
            assert Before(q, s[0], s[i + 1]);
          }
        }
      } else {
        forall j | 0 <= j < |s|
          ensures Before(q, x, s[j])
        {
          if j > 0 {
            BeforeIsTransitive(q, x, head, s[j]);
          }
        }
      }
    }
  }

  lemma {:induction false} RankedExactly(q: Query, s: seq<Doc>)
    requires DistinctNotes(s)
    ensures forall y :: y in Ranked(q, s) <==> y in s
    ensures InOrder(q, Ranked(q, s))
  {
    if s != [] {
      assert DistinctNotes(s[1..]);
      RankedExactly(q, s[1..]);
      PlacedMembers(q, s[0], Ranked(q, s[1..]));
      assert s == [s[0]] + s[1..];
      forall y | y in s[1..]
        ensures y.path != s[0].path
      {
        var i :| 0 <= i < |s[1..]| && s[1..][i] == y;
        assert s[i + 1] == y;
      }
      PlacedInOrder(q, s[0], Ranked(q, s[1..]));
    }
  }

  ghost predicate SameNotes(a: seq<Doc>, b: seq<Doc>) {
    forall y :: y in a <==> y in b
  }

  /** There is one way only to put the same notes in order. */
  lemma {:induction false} OrderIsUnique(q: Query, a: seq<Doc>, b: seq<Doc>)
    requires InOrder(q, a) && InOrder(q, b) && SameNotes(a, b)
    ensures a == b
  {
    assert b != [] ==> b[0] in b;
    if a != [] {
      assert a[0] in a && a[0] in b;
      assert b[0] in b && b[0] in a;
      HeadsAgree(q, a, b);
      forall y
        ensures y in a[1..] <==> y in b[1..]
      {
        TailMembers(q, a, y);
        TailMembers(q, b, y);
      }
      OrderIsUnique(q, a[1..], b[1..]);
      assert a == [a[0]] + a[1..] && b == [b[0]] + b[1..];
    }
  }

  lemma HeadsAgree(q: Query, a: seq<Doc>, b: seq<Doc>)
    requires InOrder(q, a) && InOrder(q, b) && a != [] && b != [] && a[0] in b && b[0] in a
    ensures a[0] == b[0]
  {
    var i :| 0 <= i < |b| && b[i] == a[0];
    var j :| 0 <= j < |a| && a[j] == b[0];
    BeforeIsTotal(q, a[0], b[0]);
  }

  lemma TailMembers(q: Query, s: seq<Doc>, y: Doc)
    requires InOrder(q, s) && s != []
    ensures y in s[1..] <==> y in s && y != s[0]
  {
    assert s == [s[0]] + s[1..];
    if y in s[1..] {
      var i :| 0 <= i < |s[1..]| && s[1..][i] == y;
      assert Before(q, s[0], s[i + 1]);
      BeforeIsTotal(q, s[0], y);
    }
  }

  lemma {:induction false} FilterKeepsDistinct(docs: seq<Doc>, keep: Doc -> bool)
    requires DistinctNotes(docs)
    ensures DistinctNotes(Filter(docs, keep))
  {
    if docs != [] {
      assert DistinctNotes(docs[1..]);
      FilterKeepsDistinct(docs[1..], keep);
      forall y | y in Filter(docs[1..], keep)
        ensures y.path != docs[0].path
      {
        FilterMember(docs[1..], keep, y);
        var i :| 0 <= i < |docs[1..]| && docs[1..][i] == y;
        assert docs[i + 1] == y;
      }
    }
  }

  /** The answer does not depend on the order in which the walk met the files. */
  lemma SearchIgnoresWalkOrder(q: Query, docs: seq<Doc>, walked: seq<Doc>)
    requires DistinctNotes(docs) && DistinctNotes(walked) && SameNotes(docs, walked)
    ensures FilterAndRank(docs, q) == FilterAndRank(walked, q)
  {
    var a, b := Filter(docs, q.matches), Filter(walked, q.matches);
    FilterKeepsDistinct(docs, q.matches);
    FilterKeepsDistinct(walked, q.matches);
    RankedExactly(q, a);
    RankedExactly(q, b);
    forall y
      ensures y in Ranked(q, a) <==> y in Ranked(q, b)
    {
      FilterMember(docs, q.matches, y);
      FilterMember(walked, q.matches, y);
    }
    OrderIsUnique(q, Ranked(q, a), Ranked(q, b));
  }

  lemma {:induction false} PlacedLength(q: Query, x: Doc, s: seq<Doc>)
    ensures |Placed(q, x, s)| == |s| + 1
  {
    if s != [] {
      PlacedLength(q, x, s[1..]);
    }
  }

  lemma {:induction false} RankedLength(q: Query, s: seq<Doc>)
    ensures |Ranked(q, s)| == |s|
  {
    if s != [] {
      RankedLength(q, s[1..]);
      PlacedLength(q, s[0], Ranked(q, s[1..]));
    }
  }

  /** Filtering and ranking lose and repeat no matching note. */
  lemma RankedCount(q: Query, docs: seq<Doc>)
    requires DistinctNotes(docs)
    ensures |Ranked(q, Filter(docs, q.matches))| == |set d | d in docs && q.matches(d)|
  {
    var kept := Filter(docs, q.matches);
    RankedLength(q, kept);
    FilterKeepsDistinct(docs, q.matches);
    SetOfSeqSize(kept);
    forall d
      ensures d in kept <==> d in docs && q.matches(d)
    {
      FilterMember(docs, q.matches, d);
    }
    assert (set d | d in kept) == (set d | d in docs && q.matches(d));
  }

  /** Only matching notes are returned, in order, all of them up to the limit, and every matching note left out ranks
      below all that are returned. */
  lemma SearchReturnsTheBest(q: Query, docs: seq<Doc>, x: Doc, y: Doc)
    requires DistinctNotes(docs)
    ensures var r := FilterAndRank(docs, q);
            && (forall i, j :: 0 <= i < j < |r| ==> BelongsBefore(q, r[i], r[j]))
            && |r| == SliceLength(|set d | d in docs && q.matches(d)|, q.limit)
            && (x in r ==> x in docs && q.matches(x))
            && (x in r && y in docs && q.matches(y) && y !in r ==> BelongsBefore(q, x, y))
  {
    var ranked, r := Ranked(q, Filter(docs, q.matches)), FilterAndRank(docs, q);
    FilterKeepsDistinct(docs, q.matches);
    RankedExactly(q, Filter(docs, q.matches));
    RankedCount(q, docs);
    FilterMember(docs, q.matches, x);
    FilterMember(docs, q.matches, y);
    assert r == ranked[..|r|];
    if x in r && y in docs && q.matches(y) && y !in r {
      var i :| 0 <= i < |r| && r[i] == x;
      var j :| 0 <= j < |ranked| && ranked[j] == y;
      assert j >= |r|;
      BeforeExactly(q, x, y);
    }
    forall i, j | 0 <= i < j < |r|
      ensures BelongsBefore(q, r[i], r[j])
    {
      BeforeExactly(q, r[i], r[j]);
    }
  }

  // ---------------------------------------------------------------------------
  // Two walks of one folder
  // ---------------------------------------------------------------------------

  /** The walks met the same files, each path once, in whatever order. */
  ghost predicate SameFolder(a: seq<File>, b: seq<File>) {
    DistinctPaths(a) && DistinctPaths(b) && forall f :: f in a <==> f in b
  }

  lemma DiscoveredTheSame(a: seq<File>, b: seq<File>, maxBytes: nat)
    requires SameFolder(a, b)
    ensures SameFolder(Discovered(a, maxBytes), Discovered(b, maxBytes))
  {
    forall f: File
      ensures f in Discovered(a, maxBytes) <==> f in Discovered(b, maxBytes)
      ensures DistinctPaths(Discovered(a, maxBytes)) && DistinctPaths(Discovered(b, maxBytes))
    {
      DiscoveredExactly(a, maxBytes, f);
      DiscoveredExactly(b, maxBytes, f);
    }
    var any := File("", false, false, false, false, false, 0.0, 0.0, 0, false, "");
    DiscoveredExactly(a, maxBytes, any);
    DiscoveredExactly(b, maxBytes, any);
  }

  /** What one scan over one index gives. */
  function Scanned(index: Index, files: seq<File>): seq<Doc> {
    ScanDocs(Throughout(index, |files|), files)
  }

  lemma ThroughoutPrefix(index: Index, n: nat, k: nat)
    requires k <= n
    ensures Throughout(index, n)[..k] == Throughout(index, k)
  {
  }

  lemma ScannedSnoc(index: Index, init: seq<File>, f: File)
    ensures Scanned(index, init + [f])
         == Scanned(index, init) + (if Read(index, f).Some? then [Read(index, f).value] else [])
  {
    ThroughoutPrefix(index, |init| + 1, |init|);
    assert (init + [f])[..|init|] == init;
  }

  lemma {:induction false} ScannedExactly(index: Index, files: seq<File>, d: Doc)
    ensures d in Scanned(index, files) <==> exists f :: f in files && Read(index, f) == Some(d)
  {
    if files != [] {
      var init, last := files[..|files| - 1], files[|files| - 1];
      ScannedExactly(index, init, d);
      ScannedSnoc(index, init, last);
      assert files == init + [last];
    }
  }

  /** A scan of distinct paths yields distinct notes. */
  lemma {:induction false} ScannedAreDistinct(index: Index, files: seq<File>)
    requires Keyed(index) && DistinctPaths(files)
    ensures DistinctNotes(Scanned(index, files))
  {
    if files != [] {
      var n := |files| - 1;
      var views := Throughout(index, |files|);
      ThroughoutPrefix(index, |files|, n);
      assert views[..n] == Throughout(index, n);
      ScannedAreDistinct(index, files[..n]);
      forall d | d in Scanned(index, files[..n])
        ensures d.path != files[n].path
      {
        PathsOfScan(Throughout(index, n), files[..n], d);
        var k :| 0 <= k < n && files[..n][k].path == d.path;
        assert files[k].path == d.path;
      }
    }
  }

  /** The index a scan over one index leaves. */
  function Reindexed(index: Index, files: seq<File>): Index {
    ScanIndex(Throughout(index, |files|), files)
  }

  lemma ReindexedStep(index: Index, init: seq<File>, f: File)
    ensures Reindexed(index, init + [f])
         == if Read(index, f).None? then Reindexed(index, init)
            else Reindexed(index, init)[f.path := CacheItem(f.mtime, f.size, Read(index, f).value)]
  {
    ThroughoutPrefix(index, |init| + 1, |init|);
    assert (init + [f])[..|init|] == init;
  }

  lemma {:induction false} ReindexedExactly(index: Index, files: seq<File>, p: string)
    requires DistinctPaths(files)
    ensures p in Reindexed(index, files) <==> exists f :: f in files && f.path == p && Read(index, f).Some?
    ensures forall f :: f in files && f.path == p && Read(index, f).Some? ==>
              Reindexed(index, files)[p] == CacheItem(f.mtime, f.size, Read(index, f).value)
  {
    if files != [] {
      var n := |files| - 1;
      var init, last := files[..n], files[n];
      assert files == init + [last];
      ReindexedExactly(index, init, p);
      ReindexedStep(index, init, last);
      LastPathIsNew(files);
    }
  }

  lemma LastPathIsNew(files: seq<File>)
    requires files != [] && DistinctPaths(files)
    ensures forall f :: f in files[..|files| - 1] ==> f.path != files[|files| - 1].path
  {
  }

  /** A search gives one answer, and leaves one index, however the walk lists the folder. */
  lemma WalkOrderIsIrrelevant(index: Index, a: seq<File>, b: seq<File>, maxBytes: nat, q: Query)
    requires Keyed(index) && SameFolder(a, b)
    ensures var fa, fb := Discovered(a, maxBytes), Discovered(b, maxBytes);
            && FilterAndRank(Scanned(index, fa), q) == FilterAndRank(Scanned(index, fb), q)
            && Reindexed(index, fa) == Reindexed(index, fb)
  {
    var fa, fb := Discovered(a, maxBytes), Discovered(b, maxBytes);
    DiscoveredTheSame(a, b, maxBytes);
    ScannedAreDistinct(index, fa);
    ScannedAreDistinct(index, fb);
    forall d
      ensures d in Scanned(index, fa) <==> d in Scanned(index, fb)
    {
      ScannedExactly(index, fa, d);
      ScannedExactly(index, fb, d);
    }
    SearchIgnoresWalkOrder(q, Scanned(index, fa), Scanned(index, fb));
    IndexIgnoresWalkOrder(index, fa, fb);
  }

  lemma IndexIgnoresWalkOrder(index: Index, a: seq<File>, b: seq<File>)
    requires SameFolder(a, b)
    ensures Reindexed(index, a) == Reindexed(index, b)
  {
    var ia, ib := Reindexed(index, a), Reindexed(index, b);
    forall p
      ensures p in ia <==> p in ib
      ensures p in ia ==> ia[p] == ib[p]
    {
      ReindexedExactly(index, a, p);
      ReindexedExactly(index, b, p);
      if p in ia {
        var f :| f in a && f.path == p && Read(index, f).Some?;
        assert f in b;
      }
    }
  }
}
