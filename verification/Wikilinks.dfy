/** From the links in a folder's notes to edges of the memory graph. */
module Wikilinks {
  import opened Options
  import opened MemoryTypes
  import opened Edges

  const WIKILINK_RELATION := "references"
  const WIKILINK_SOURCE := "wikilink"

  /** A scanned note: the lower-cased stem of its file name, its lower-cased path without the extension, and
      the cleaned, lower-cased targets of its links, in order. A target that cleans to nothing is "". */
  datatype Note = Note(id: Uuid, stem: string, path: string, links: seq<string>)

  datatype Resolution = Resolved(note: Note) | Dangling | Ambiguous

  /** `target.lstrip("/")`. */
  function StripSlashes(target: string): string {
    if target != "" && target[0] == '/' then StripSlashes(target[1..]) else target
  }

  function WithStem(notes: seq<Note>, stem: string): seq<Note> {
    if notes == [] then []
    else
      var last := notes[|notes| - 1];
      WithStem(notes[..|notes| - 1], stem) + (if last.stem == stem then [last] else [])
  }

  function LastWithPath(notes: seq<Note>, path: string): Option<Note> {
    if notes == [] then None
    else if notes[|notes| - 1].path == path then Some(notes[|notes| - 1])
    else LastWithPath(notes[..|notes| - 1], path)
  }

  /** A bare name must be the stem of one note only. A path-qualified name stands for the last note with that
      path. */
  function ResolutionOf(notes: seq<Note>, target: string): Resolution {
    var key := StripSlashes(target);
    if '/' in key then
      var note := LastWithPath(notes, key);
      if note.None? then Dangling else Resolved(note.value)
    else
      var candidates := WithStem(notes, key);
      if |candidates| == 1 then Resolved(candidates[0]) else if candidates == [] then Dangling else Ambiguous
  }

  /** The two dictionaries of a resolver, as they stand after `notes`. */
  ghost predicate Indexed(notes: seq<Note>, byStem: map<string, seq<Note>>, byPath: map<string, Note>) {
    && (forall s :: (s in byStem <==> WithStem(notes, s) != []) && (s in byStem ==> byStem[s] == WithStem(notes, s)))
    && (forall p ::
          && (p in byPath <==> LastWithPath(notes, p).Some?)
          && (p in byPath ==> Some(byPath[p]) == LastWithPath(notes, p)))
  }

  lemma IndexedSnoc(notes: seq<Note>, byStem: map<string, seq<Note>>, byPath: map<string, Note>, note: Note)
    requires Indexed(notes, byStem, byPath)
    ensures Indexed(notes + [note],
                    byStem[note.stem := (if note.stem in byStem then byStem[note.stem] else []) + [note]],
                    byPath[note.path := note])
  {
    assert (notes + [note])[..|notes|] == notes;
  }

  class Resolver {
    var byStem: map<string, seq<Note>>
    var byPath: map<string, Note>
    ghost var notes: seq<Note>

    ghost predicate Valid()
      reads this
    {
      Indexed(notes, byStem, byPath)
    }

    constructor (notes: seq<Note>)
      ensures Valid() && this.notes == notes
    {
      this.notes := [];
      byStem, byPath := map[], map[];
      new;
      for i := 0 to |notes|
        invariant this.notes == notes[..i] && Valid()
      {
        var note := notes[i];
        IndexedSnoc(this.notes, byStem, byPath, note);
        byStem := byStem[note.stem := (if note.stem in byStem then byStem[note.stem] else []) + [note]];
        byPath := byPath[note.path := note];
        this.notes := this.notes + [note];
      }
    }

    method Resolve(target: string) returns (r: Resolution)
      requires Valid()
      ensures r == ResolutionOf(notes, target)
    {
      var key := StripSlashes(target);
      if '/' in key {
        return if key in byPath then Resolved(byPath[key]) else Dangling;
      }
      var matches := if key in byStem then byStem[key] else [];
      if |matches| == 1 {
        return Resolved(matches[0]);
      }
      r := if |matches| > 1 then Ambiguous else Dangling;
    }
  }

  /** One occurrence of a link. */
  datatype Link = Link(src: Uuid, target: string)

  datatype Kind = FOUND | RESOLVED | DANGLING | AMBIGUOUS

  datatype Tally = Tally(linksFound: nat, resolved: nat, dangling: nat, ambiguous: nat)

  datatype Report = Report(notesScanned: nat, tally: Tally, edgesWritten: nat)

  datatype ReindexResult = Reindexed(report: Report) | StoreFailed

  /** The occurrences in one note whose target does not clean to nothing. */
  function LinksOf(src: Uuid, targets: seq<string>): seq<Link> {
    if targets == [] then []
    else
      var last := targets[|targets| - 1];
      LinksOf(src, targets[..|targets| - 1]) + (if last != "" then [Link(src, last)] else [])
  }

  function AllLinks(notes: seq<Note>): seq<Link> {
    if notes == [] then []
    else
      var last := notes[|notes| - 1];
      AllLinks(notes[..|notes| - 1]) + LinksOf(last.id, last.links)
  }

  predicate IsA(r: Resolution, kind: Kind) {
    match kind
    case FOUND => true
    case RESOLVED => r.Resolved?
    case DANGLING => r.Dangling?
    case AMBIGUOUS => r.Ambiguous?
  }

  function Count(all: seq<Note>, links: seq<Link>, kind: Kind): nat {
    if links == [] then 0
    else
      var last := links[|links| - 1];
      Count(all, links[..|links| - 1], kind) + (if IsA(ResolutionOf(all, last.target), kind) then 1 else 0)
  }

  /** The link leads from its note to another one. */
  predicate Leads(all: seq<Note>, l: Link, dst: Uuid) {
    var r := ResolutionOf(all, l.target);
    r.Resolved? && r.note.id == dst && l.src != dst
  }

  predicate LeadsSomewhere(all: seq<Note>, l: Link) {
    var r := ResolutionOf(all, l.target);
    r.Resolved? && l.src != r.note.id
  }

  /** The pairs of notes joined by some link. */
  function Pairs(all: seq<Note>, links: seq<Link>): set<(Uuid, Uuid)> {
    set l | l in links && LeadsSomewhere(all, l) :: (l.src, ResolutionOf(all, l.target).note.id)
  }

  function EdgeFor(pair: (Uuid, Uuid), stamp: int): Edge {
    Edge(Key(pair.0, pair.1, WIKILINK_RELATION), Attributes(1.0, WIKILINK_SOURCE, stamp))
  }

  /** One edge for each pair. */
  ghost predicate EdgesFor(edges: seq<Edge>, pairs: set<(Uuid, Uuid)>, stamp: int) {
    && |edges| == |pairs|
    && (forall e :: e in edges <==> exists p :: p in pairs && e == EdgeFor(p, stamp))
  }

  ghost predicate Tallied(all: seq<Note>, links: seq<Link>, t: Tally) {
    && t.linksFound == Count(all, links, FOUND)
    && t.resolved == Count(all, links, RESOLVED)
    && t.dangling == Count(all, links, DANGLING)
    && t.ambiguous == Count(all, links, AMBIGUOUS)
  }

  lemma CountSnoc(all: seq<Note>, links: seq<Link>, l: Link, kind: Kind)
    ensures Count(all, links + [l], kind)
         == Count(all, links, kind) + (if IsA(ResolutionOf(all, l.target), kind) then 1 else 0)
  {
    assert (links + [l])[..|links|] == links;
  }

  lemma PairsSnoc(all: seq<Note>, links: seq<Link>, l: Link)
    ensures Pairs(all, links + [l])
         == Pairs(all, links) + (if LeadsSomewhere(all, l) then {(l.src, ResolutionOf(all, l.target).note.id)} else {})
  {
    assert forall m :: m in links + [l] <==> m in links || m == l;
  }

  lemma TalliedSnoc(all: seq<Note>, links: seq<Link>, l: Link, t: Tally)
    requires Tallied(all, links, t)
    ensures var r := ResolutionOf(all, l.target);
            var found := t.(linksFound := t.linksFound + 1);
            Tallied(all, links + [l], match r
                                      case Resolved(_) => found.(resolved := t.resolved + 1)
                                      case Dangling => found.(dangling := t.dangling + 1)
                                      case Ambiguous => found.(ambiguous := t.ambiguous + 1))
  {
    CountSnoc(all, links, l, FOUND);
    CountSnoc(all, links, l, RESOLVED);
    CountSnoc(all, links, l, DANGLING);
    CountSnoc(all, links, l, AMBIGUOUS);
  }

  /** How far a pass over the links has come, after `done`. */
  ghost predicate Progress(all: seq<Note>, done: seq<Link>, tally: Tally, seen: set<(Uuid, Uuid)>, found: seq<Edge>,
                           stamp: int) {
    Tallied(all, done, tally) && seen == Pairs(all, done) && EdgesFor(found, seen, stamp)
  }

  /** The links dealt with once the first `j` targets of a note have been. */
  function DoneUpTo(done: seq<Link>, src: Uuid, targets: seq<string>, j: nat): seq<Link>
    requires j <= |targets|
  {
    done + LinksOf(src, targets[..j])
  }

  lemma DoneUpToNext(done: seq<Link>, src: Uuid, targets: seq<string>, j: nat)
    requires j < |targets|
    ensures DoneUpTo(done, src, targets, j + 1)
         == if targets[j] == "" then DoneUpTo(done, src, targets, j)
            else DoneUpTo(done, src, targets, j) + [Link(src, targets[j])]
  {
    assert targets[..j + 1][..j] == targets[..j];
  }

  lemma AllLinksSnoc(notes: seq<Note>, i: nat)
    requires i < |notes|
    ensures AllLinks(notes[..i + 1]) == AllLinks(notes[..i]) + LinksOf(notes[i].id, notes[i].links)
  {
    assert notes[..i + 1][..i] == notes[..i];
  }

  class WikilinkEdgeExtractor {
    const edges: EdgeStore

    constructor (edges: EdgeStore)
      ensures this.edges == edges
    {
      this.edges := edges;
    }

    /** Resolves one occurrence: counts it, and makes an edge of it if it joins a new pair. */
    method Follow(resolver: Resolver, link: Link, stamp: int, tally: Tally, seen: set<(Uuid, Uuid)>, found: seq<Edge>,
                  ghost done: seq<Link>)
      returns (tally': Tally, seen': set<(Uuid, Uuid)>, found': seq<Edge>)
      requires resolver.Valid() && Progress(resolver.notes, done, tally, seen, found, stamp)
      ensures Progress(resolver.notes, done + [link], tally', seen', found', stamp)
    {
      TalliedSnoc(resolver.notes, done, link, tally);
      PairsSnoc(resolver.notes, done, link);
      seen', found' := seen, found;
      tally' := tally.(linksFound := tally.linksFound + 1);
      var r := resolver.Resolve(link.target);
      if r.Ambiguous? {
        tally' := tally'.(ambiguous := tally.ambiguous + 1);
      } else if r.Dangling? {
        tally' := tally'.(dangling := tally.dangling + 1);
      } else {
        tally' := tally'.(resolved := tally.resolved + 1);
        if r.note.id != link.src {
          seen', found' := Join((link.src, r.note.id), stamp, seen, found);
        }
      }
    }

    /** An edge for a pair not joined before. */
    method Join(pair: (Uuid, Uuid), stamp: int, seen: set<(Uuid, Uuid)>, found: seq<Edge>)
      returns (seen': set<(Uuid, Uuid)>, found': seq<Edge>)
      requires EdgesFor(found, seen, stamp)
      ensures seen' == seen + {pair} && EdgesFor(found', seen', stamp)
    {
      seen', found' := seen, found;
      if pair in seen {
        return;
      }
      seen' := seen + {pair};
      found' := found + [EdgeFor(pair, stamp)];
    }

    /** Follows the links of one note. */
    method FollowAll(resolver: Resolver, note: Note, stamp: int, tally: Tally, seen: set<(Uuid, Uuid)>,
                     found: seq<Edge>, ghost done: seq<Link>)
      returns (tally': Tally, seen': set<(Uuid, Uuid)>, found': seq<Edge>)
      requires resolver.Valid() && Progress(resolver.notes, done, tally, seen, found, stamp)
      ensures Progress(resolver.notes, done + LinksOf(note.id, note.links), tally', seen', found', stamp)
    {
      tally', seen', found' := tally, seen, found;
      assert DoneUpTo(done, note.id, note.links, 0) == done;
      for j := 0 to |note.links|
        invariant Progress(resolver.notes, DoneUpTo(done, note.id, note.links, j), tally', seen', found', stamp)
      {
        DoneUpToNext(done, note.id, note.links, j);
        if note.links[j] != "" {
          tally', seen', found' := Follow(resolver, Link(note.id, note.links[j]), stamp, tally', seen', found',
                                          DoneUpTo(done, note.id, note.links, j));
        }
      }
      assert note.links[..|note.links|] == note.links;
    }

    /** Scans the notes, resolves every link, and rewrites the whole set of wikilink edges. */
    method Reindex(notes: seq<Note>, stamp: int, db: Database) returns (r: ReindexResult, ghost written: seq<Edge>)
      requires edges.Valid()
      modifies edges
      ensures edges.Valid()
      ensures EdgesFor(written, Pairs(notes, AllLinks(notes)), stamp)
      ensures r.Reindexed? <==> !old(edges.inTransaction) && db.failsAt > |written| + 2
      ensures r.Reindexed? ==>
                && edges.edges == Replaced(old(edges.edges), WIKILINK_SOURCE, written) == edges.committed
                && r.report.notesScanned == |notes|
                && Tallied(notes, AllLinks(notes), r.report.tally)
                && r.report.edgesWritten == |Pairs(notes, AllLinks(notes))|
      ensures r.StoreFailed? ==> edges.edges == edges.committed == old(edges.committed)
    {
      var tally, found := CollectEdges(notes, stamp);
      written := found;
      var outcome := edges.ReplaceSource(WIKILINK_SOURCE, found, db);
      r := match outcome
           case StorageError => StoreFailed
           case Written(n) => Reindexed(Report(|notes|, tally, n));
    }

    /** The two nested loops of a re-index. */
    method CollectEdges(notes: seq<Note>, stamp: int) returns (tally: Tally, found: seq<Edge>)
      ensures Tallied(notes, AllLinks(notes), tally)
      ensures EdgesFor(found, Pairs(notes, AllLinks(notes)), stamp)
    {
      var resolver := new Resolver(notes);
      var seen: set<(Uuid, Uuid)> := {};
      tally, found := Tally(0, 0, 0, 0), [];
      assert notes[..0] == [];
      for i := 0 to |notes|
        invariant resolver.Valid() && resolver.notes == notes
        invariant Progress(notes, AllLinks(notes[..i]), tally, seen, found, stamp)
      {
        AllLinksSnoc(notes, i);
        tally, seen, found := FollowAll(resolver, notes[i], stamp, tally, seen, found, AllLinks(notes[..i]));
      }
      assert notes[..|notes|] == notes;
    }
  }

  // ---------------------------------------------------------------------------
  // What a re-index leaves behind
  // ---------------------------------------------------------------------------

  /** Every occurrence is counted once: resolved, dangling or ambiguous. */
  lemma {:induction false} TallyAddsUp(all: seq<Note>, links: seq<Link>)
    ensures Count(all, links, FOUND) == |links|
    ensures Count(all, links, FOUND)
         == Count(all, links, RESOLVED) + Count(all, links, DANGLING) + Count(all, links, AMBIGUOUS)
  {
    if links != [] {
      TallyAddsUp(all, links[..|links| - 1]);
    }
  }

  ghost function At(all: seq<Note>, links: seq<Link>, kind: Kind): set<int> {
    set i | 0 <= i < |links| && IsA(ResolutionOf(all, links[i].target), kind)
  }

  lemma AtLast(all: seq<Note>, links: seq<Link>, kind: Kind)
    requires links != []
    ensures var n := |links| - 1;
            var last := if IsA(ResolutionOf(all, links[n].target), kind) then {n} else {};
            && At(all, links, kind) == At(all, links[..n], kind) + last
            && n !in At(all, links[..n], kind)
  {
    var n := |links| - 1;
    forall i | 0 <= i < n
      ensures links[..n][i] == links[i]
    {
    }
  }

  lemma {:induction false} CountIsAt(all: seq<Note>, links: seq<Link>, kind: Kind)
    ensures Count(all, links, kind) == |At(all, links, kind)|
  {
    if links != [] {
      var n := |links| - 1;
      CountIsAt(all, links[..n], kind);
      AtLast(all, links, kind);
    }
  }

  /** Each count is the number of occurrences that came out that way. */
  lemma CountExactly(all: seq<Note>, links: seq<Link>)
    ensures Count(all, links, RESOLVED) == |set i | 0 <= i < |links| && ResolutionOf(all, links[i].target).Resolved?|
    ensures Count(all, links, DANGLING) == |set i | 0 <= i < |links| && ResolutionOf(all, links[i].target).Dangling?|
    ensures Count(all, links, AMBIGUOUS)
         == |set i | 0 <= i < |links| && ResolutionOf(all, links[i].target).Ambiguous?|
  {
    CountIsAt(all, links, RESOLVED);
    CountIsAt(all, links, DANGLING);
    CountIsAt(all, links, AMBIGUOUS);
    assert At(all, links, RESOLVED) == set i | 0 <= i < |links| && ResolutionOf(all, links[i].target).Resolved?;
    assert At(all, links, DANGLING) == set i | 0 <= i < |links| && ResolutionOf(all, links[i].target).Dangling?;
    assert At(all, links, AMBIGUOUS) == set i | 0 <= i < |links| && ResolutionOf(all, links[i].target).Ambiguous?;
  }

  lemma {:induction false} LinksOfExactly(src: Uuid, targets: seq<string>, l: Link)
    ensures l in LinksOf(src, targets) <==> l.src == src && l.target != "" && l.target in targets
  {
    if targets != [] {
      LinksOfExactly(src, targets[..|targets| - 1], l);
      assert targets == targets[..|targets| - 1] + [targets[|targets| - 1]];
    }
  }

  lemma {:induction false} AllLinksExactly(notes: seq<Note>, l: Link)
    ensures l in AllLinks(notes) <==> exists n :: n in notes && n.id == l.src && l.target != "" && l.target in n.links
  {
    if notes != [] {
      var init, last := notes[..|notes| - 1], notes[|notes| - 1];
      AllLinksExactly(init, l);
      LinksOfExactly(last.id, last.links, l);
      assert notes == init + [last];
    }
  }

  /** Some link written in the note `a` leads to the note `b`. */
  ghost predicate Linked(notes: seq<Note>, a: Uuid, b: Uuid) {
    exists n, t :: n in notes && t in n.links && t != "" && n.id == a && Leads(notes, Link(a, t), b)
  }

  lemma LinkedExactly(notes: seq<Note>, a: Uuid, b: Uuid)
    ensures Linked(notes, a, b) <==>
              && a != b
              && exists n, t, m :: n in notes && n.id == a && t in n.links && t != ""
                                   && ResolutionOf(notes, t) == Resolved(m) && m.id == b
  {
    if n, t :| n in notes && t in n.links && t != "" && n.id == a && Leads(notes, Link(a, t), b) {
      assert ResolutionOf(notes, t) == Resolved(ResolutionOf(notes, t).note);
    }
    if n, t, m :| n in notes && n.id == a && t in n.links && t != "" && ResolutionOf(notes, t) == Resolved(m)
                  && m.id == b && a != b {
      assert Leads(notes, Link(a, t), b);
    }
  }

  lemma PairsAreLinked(notes: seq<Note>, a: Uuid, b: Uuid)
    ensures (a, b) in Pairs(notes, AllLinks(notes)) <==> Linked(notes, a, b)
  {
    if (a, b) in Pairs(notes, AllLinks(notes)) {
      var l :| l in AllLinks(notes) && LeadsSomewhere(notes, l) &&
               (a, b) == (l.src, ResolutionOf(notes, l.target).note.id);
      AllLinksExactly(notes, l);
      var n :| n in notes && n.id == l.src && l.target in n.links;
      assert Leads(notes, Link(a, l.target), b);
    }
    if Linked(notes, a, b) {
      var n, t :| n in notes && t in n.links && t != "" && n.id == a && Leads(notes, Link(a, t), b);
      AllLinksExactly(notes, Link(a, t));
      assert Link(a, t) in AllLinks(notes) && LeadsSomewhere(notes, Link(a, t));
    }
  }

  lemma EdgesComeFromExtractor(edges: seq<Edge>, pairs: set<(Uuid, Uuid)>, stamp: int)
    requires EdgesFor(edges, pairs, stamp)
    ensures AllFrom(edges, WIKILINK_SOURCE)
    ensures forall k :: k in Keys(edges) <==> k.relation == WIKILINK_RELATION && (k.src, k.dst) in pairs
  {
    forall k
      ensures k in Keys(edges) <==> k.relation == WIKILINK_RELATION && (k.src, k.dst) in pairs
    {
      if k in Keys(edges) {
        var e :| e in edges && e.key == k;
        var p :| p in pairs && e == EdgeFor(p, stamp);
        assert p == (k.src, k.dst);
      }
      if k.relation == WIKILINK_RELATION && (k.src, k.dst) in pairs {
        assert EdgeFor((k.src, k.dst), stamp) in edges;
        assert EdgeFor((k.src, k.dst), stamp).key == k;
      }
    }
  }

  /** After a re-index the wikilink edges in the store are exactly the pairs of different notes joined by some
      link that resolves, as `references` edges stamped with this pass. */
  lemma StoredEdgesAreTheLinks(notes: seq<Note>, t: Table, written: seq<Edge>, stamp: int, k: Key)
    requires EdgesFor(written, Pairs(notes, AllLinks(notes)), stamp)
    ensures var after := Replaced(t, WIKILINK_SOURCE, written);
            && (k in after && after[k].source == "wikilink" <==>
                  && k.relation == "references" && k.src != k.dst
                  && exists n, t, m :: n in notes && n.id == k.src && t in n.links && t != ""
                                       && ResolutionOf(notes, t) == Resolved(m) && m.id == k.dst)
            && (k in after && after[k].source == "wikilink" ==> after[k] == Attributes(1.0, "wikilink", stamp))
  {
    LinkedExactly(notes, k.src, k.dst);
    var pairs := Pairs(notes, AllLinks(notes));
    EdgesComeFromExtractor(written, pairs, stamp);
    ReplacedExactly(t, WIKILINK_SOURCE, written, k);
    PairsAreLinked(notes, k.src, k.dst);
    if k in Keys(written) {
      var e := Edge(k, Replaced(t, WIKILINK_SOURCE, written)[k]);
      var p :| p in pairs && e == EdgeFor(p, stamp);
    }
  }

  /** Any other producer's edge survives a re-index exactly when it is not a `references` edge between two
      notes that a link now joins. */
  lemma OthersSurviveExactly(notes: seq<Note>, t: Table, written: seq<Edge>, stamp: int, k: Key)
    requires EdgesFor(written, Pairs(notes, AllLinks(notes)), stamp)
    requires k in t && t[k].source != WIKILINK_SOURCE
    ensures var after := Replaced(t, WIKILINK_SOURCE, written);
            k in after && after[k] == t[k] <==> !(k.relation == WIKILINK_RELATION && Linked(notes, k.src, k.dst))
  {
    EdgesComeFromExtractor(written, Pairs(notes, AllLinks(notes)), stamp);
    SurvivesExactly(t, WIKILINK_SOURCE, written, k);
    PairsAreLinked(notes, k.src, k.dst);
  }

  /** Re-indexing an unchanged folder changes nothing but the time stamps. */
  lemma ReindexTwiceIsOnce(notes: seq<Note>, t: Table, written: seq<Edge>, stamp: int, again: seq<Edge>, later: int)
    requires EdgesFor(written, Pairs(notes, AllLinks(notes)), stamp)
    requires EdgesFor(again, Pairs(notes, AllLinks(notes)), later)
    ensures SameUpToTime(Replaced(Replaced(t, WIKILINK_SOURCE, written), WIKILINK_SOURCE, again),
                         Replaced(t, WIKILINK_SOURCE, written))
  {
    var pairs := Pairs(notes, AllLinks(notes));
    EdgesComeFromExtractor(written, pairs, stamp);
    EdgesComeFromExtractor(again, pairs, later);
    forall d, e | d in written && e in again && d.key == e.key
      ensures d.attributes.(createdAt := 0) == e.attributes.(createdAt := 0)
    {
      var p :| p in pairs && d == EdgeFor(p, stamp);
      var q :| q in pairs && e == EdgeFor(q, later);
    }
    assert Keys(written) == Keys(again);
    ReplaceTwiceIsOnce(t, WIKILINK_SOURCE, written, again);
  }

  /** Another producer's edge between two linked notes is lost for good when the link goes. */
  lemma OverwrittenReferenceIsLost(notes: seq<Note>, edited: seq<Note>, t: Table, written: seq<Edge>, stamp: int,
                                   again: seq<Edge>, later: int, a: Uuid, b: Uuid)
    requires EdgesFor(written, Pairs(notes, AllLinks(notes)), stamp)
    requires EdgesFor(again, Pairs(edited, AllLinks(edited)), later)
    requires Linked(notes, a, b) && !Linked(edited, a, b)
    ensures Key(a, b, WIKILINK_RELATION) !in Replaced(Replaced(t, WIKILINK_SOURCE, written), WIKILINK_SOURCE, again)
  {
    EdgesComeFromExtractor(written, Pairs(notes, AllLinks(notes)), stamp);
    EdgesComeFromExtractor(again, Pairs(edited, AllLinks(edited)), later);
    PairsAreLinked(notes, a, b);
    PairsAreLinked(edited, a, b);
    OverwrittenIsLost(t, WIKILINK_SOURCE, written, again, Key(a, b, WIKILINK_RELATION));
  }

  // ---------------------------------------------------------------------------
  // Resolution
  // ---------------------------------------------------------------------------

  /** Only slashes in front are stripped, and all of them. */
  lemma {:induction false} StripSlashesExactly(target: string) returns (n: nat)
    ensures n <= |target| && StripSlashes(target) == target[n..]
    ensures forall i :: 0 <= i < n ==> target[i] == '/'
    ensures n < |target| ==> target[n] != '/'
  {
    n := 0;
    if target != "" && target[0] == '/' {
      n := StripSlashesExactly(target[1..]);
      n := n + 1;
    }
  }

  /** `n` is a note the target could stand for. */
  predicate Candidate(n: Note, target: string) {
    var key := StripSlashes(target);
    if '/' in key then n.path == key else n.stem == key
  }

  lemma {:induction false} WithStemExactly(notes: seq<Note>, stem: string)
    ensures |WithStem(notes, stem)| <= |notes|
    ensures forall n :: n in WithStem(notes, stem) <==> n in notes && n.stem == stem
    ensures forall i, j :: 0 <= i < j < |notes| && notes[i].stem == notes[j].stem == stem ==>
              |WithStem(notes, stem)| > 1
  {
    if notes != [] {
      var init, last := notes[..|notes| - 1], notes[|notes| - 1];
      WithStemExactly(init, stem);
      assert notes == init + [last];
      forall i, j | 0 <= i < j < |notes| && notes[i].stem == notes[j].stem == stem
        ensures |WithStem(notes, stem)| > 1
      {
        assert notes[i] == init[i] && init[i] in WithStem(init, stem);
        if j < |init| {
          assert init[j].stem == stem;
        }
      }
    }
  }

  lemma {:induction false} LastWithPathExactly(notes: seq<Note>, path: string)
    ensures var n := LastWithPath(notes, path);
            && (n.None? ==> forall m :: m in notes ==> m.path != path)
            && (n.Some? ==> exists i :: 0 <= i < |notes| && notes[i] == n.value && LastAt(notes, path, i))
  {
    if notes != [] {
      var init, last := notes[..|notes| - 1], notes[|notes| - 1];
      LastWithPathExactly(init, path);
      assert notes == init + [last];
      if last.path == path {
        assert LastAt(notes, path, |init|);
      } else if LastWithPath(init, path).Some? {
        var i :| 0 <= i < |init| && init[i] == LastWithPath(init, path).value && LastAt(init, path, i);
        assert LastAt(notes, path, i);
      }
    }
  }

  predicate LastAt(notes: seq<Note>, path: string, i: nat)
    requires i < |notes|
  {
    notes[i].path == path && forall j :: i < j < |notes| ==> notes[j].path != path
  }

  /** A target dangles exactly when no note could be meant. */
  lemma DanglingExactly(notes: seq<Note>, target: string)
    ensures ResolutionOf(notes, target).Dangling? <==> forall n :: n in notes ==> !Candidate(n, target)
    ensures ResolutionOf(notes, target).Resolved? ==>
              ResolutionOf(notes, target).note in notes && Candidate(ResolutionOf(notes, target).note, target)
  {
    var key := StripSlashes(target);
    if '/' in key {
      LastWithPathExactly(notes, key);
      var n := LastWithPath(notes, key);
      if n.Some? {
        assert n.value in notes && Candidate(n.value, target);
      } else {
        assert forall m :: m in notes ==> (Candidate(m, target) <==> m.path == key);
      }
    } else {
      WithStemExactly(notes, key);
      if WithStem(notes, key) != [] {
        assert WithStem(notes, key)[0] in WithStem(notes, key);
      }
    }
  }

  /** No two notes could be meant. */
  predicate Unique(notes: seq<Note>, target: string) {
    forall i, j :: 0 <= i < j < |notes| ==> !(Candidate(notes[i], target) && Candidate(notes[j], target))
  }

  /** A target that could mean two notes is refused exactly when it is a bare name. */
  lemma RefusedExactly(notes: seq<Note>, target: string)
    ensures ResolutionOf(notes, target).Ambiguous? <==> '/' !in StripSlashes(target) && !Unique(notes, target)
  {
    var key := StripSlashes(target);
    WithStemExactly(notes, key);
    if '/' in key {
    } else if Unique(notes, target) {
      UniqueStem(notes, key);
    } else {
      var i, j :| 0 <= i < j < |notes| && Candidate(notes[i], target) && Candidate(notes[j], target);
      assert notes[i].stem == notes[j].stem == key;
    }
  }

  lemma {:induction false} UniqueStem(notes: seq<Note>, stem: string)
    requires forall i, j :: 0 <= i < j < |notes| ==> !(notes[i].stem == stem && notes[j].stem == stem)
    ensures |WithStem(notes, stem)| <= 1
  {
    if notes != [] {
      var init, last := notes[..|notes| - 1], notes[|notes| - 1];
      assert forall i, j :: 0 <= i < j < |init| ==> init[i] == notes[i] && init[j] == notes[j];
      UniqueStem(init, stem);
      WithStemExactly(init, stem);
      if WithStem(init, stem) != [] {
        var n := WithStem(init, stem)[0];
        assert n in WithStem(init, stem);
        var i :| 0 <= i < |init| && init[i] == n;
        assert notes[i].stem == stem && notes[|init|] == last;
      }
    }
  }

  /** A path-qualified target is guessed at: it is never ambiguous, and stands for the last of its candidates. */
  lemma PathsAreGuessed(notes: seq<Note>, target: string, i: nat)
    requires '/' in StripSlashes(target)
    requires i < |notes| && LastAt(notes, StripSlashes(target), i)
    ensures ResolutionOf(notes, target) == Resolved(notes[i])
  {
    var key := StripSlashes(target);
    LastWithPathExactly(notes, key);
    assert notes[i] in notes;
    var j :| 0 <= j < |notes| && notes[j] == LastWithPath(notes, key).value && LastAt(notes, key, j);
    assert i == j;
  }

  /** `n.md` beside `n.markdown`: the bare link is refused as ambiguous, the path-qualified one is not. */
  lemma TwoExtensionsExample(first: Uuid, second: Uuid)
    ensures var notes := [Note(first, "n", "d/n", []), Note(second, "n", "d/n", [])];
            && ResolutionOf(notes, "n").Ambiguous?
            && ResolutionOf(notes, "d/n") == Resolved(notes[1])
  {
    var notes := [Note(first, "n", "d/n", []), Note(second, "n", "d/n", [])];
    assert StripSlashes("n") == "n" && StripSlashes("d/n") == "d/n";
    assert "d/n"[1] == '/';
    assert Candidate(notes[0], "n") && Candidate(notes[1], "n");
    RefusedExactly(notes, "n");
    PathsAreGuessed(notes, "d/n", 1);
  }
}
