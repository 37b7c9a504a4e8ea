/** The docs site's client-side search: scoring index entries against a query,
    the stable sort by score, the de-duplication by page and anchor, the cap
    of twelve results, and the keyboard selection of the search dialog. */
module DocsSearch {
  import opened Text
  import opened Wrappers

  // ---------------------------------------------------------------- data

  datatype EntryKind = Page | Section

  /** An entry of search-index.json; absent optional fields are None. */
  datatype IndexEntry = IndexEntry(
    kind: EntryKind, slug: string, title: string,
    description: Option<string>, content: Option<string>,
    section: Option<string>, sectionAnchor: Option<string>,
    excerpt: Option<string>, level: Option<int>)

  datatype SearchResult = SearchResult(
    kind: EntryKind, title: string, slug: string, excerpt: string,
    section: Option<string>, sectionAnchor: Option<string>)

  /** A result with the score it was ranked by. */
  datatype Scored = Scored(result: SearchResult, score: int)

  /** `s || ""` on an optional string. */
  function OrEmpty(s: Option<string>): string {
    if s.Some? then s.value else ""
  }

  // ---------------------------------------------------------------- scoring

  predicate TitleHit(e: IndexEntry, query: string) {
    Contains(Lower(e.title), query)
  }

  predicate DescriptionHit(e: IndexEntry, query: string) {
    Contains(Lower(OrEmpty(e.description)), query)
  }

  /** Page content is lowercased when the index is built, so it is searched
      as it is. */
  predicate ContentHit(e: IndexEntry, query: string) {
    Contains(OrEmpty(e.content), query)
  }

  predicate SectionHit(e: IndexEntry, query: string) {
    Contains(Lower(OrEmpty(e.section)), query)
  }

  /** Whether searchDocs keeps the entry for the (lowercased) query. */
  predicate IsHit(e: IndexEntry, query: string) {
    if e.kind.Page? then TitleHit(e, query) || DescriptionHit(e, query) || ContentHit(e, query)
    else SectionHit(e, query)
  }

  /** The object searchDocs pushes for a hit. */
  function Candidate(e: IndexEntry, query: string): (c: Scored)
    ensures c.result.slug == e.slug && c.result.title == e.title && c.result.kind == e.kind
    ensures e.kind == Page ==> c.result.sectionAnchor.None?
  {
    if e.kind.Page? then
      Scored(SearchResult(Page, e.title, e.slug, OrEmpty(e.description), None, None),
             if TitleHit(e, query) then 20 else if DescriptionHit(e, query) then 8 else 3)
    else
      Scored(SearchResult(Section, e.title, e.slug, OrEmpty(e.excerpt), e.section, e.sectionAnchor),
             if e.level == Some(2) then 15 else 10)
  }

  /** A title hit outranks a description hit, which outranks a content-only
      hit; a level-2 section outranks a deeper one, and every section sits
      between a title hit and a description hit. */
  lemma CandidateScores(e: IndexEntry, query: string)
    ensures e.kind == Page ==> (Candidate(e, query).score == 20 <==> TitleHit(e, query))
    ensures e.kind == Page ==>
              (Candidate(e, query).score == 8 <==> !TitleHit(e, query) && DescriptionHit(e, query))
    ensures e.kind == Page ==>
              (Candidate(e, query).score == 3 <==> !TitleHit(e, query) && !DescriptionHit(e, query))
    ensures e.kind == Section ==> (Candidate(e, query).score == 15 <==> e.level == Some(2))
    ensures e.kind == Section ==> 8 < Candidate(e, query).score < 20
  {
  }

  /** The `scored` array after the loop over `index`. */
  function ScoreAll(index: seq<IndexEntry>, query: string): (s: seq<Scored>)
    ensures |s| <= |index|
  {
    if index == [] then []
    else
      var last := index[|index| - 1];
      ScoreAll(index[..|index| - 1], query) + (if IsHit(last, query) then [Candidate(last, query)] else [])
  }

  /** Every scored candidate comes from a hit. */
  lemma {:induction false} ScoreAllSound(index: seq<IndexEntry>, query: string, i: int) returns (k: int)
    requires 0 <= i < |ScoreAll(index, query)|
    ensures 0 <= k < |index| && IsHit(index[k], query) && ScoreAll(index, query)[i] == Candidate(index[k], query)
  {
    var init := index[..|index| - 1];
    if i < |ScoreAll(init, query)| {
      k := ScoreAllSound(init, query, i);
      assert init[k] == index[k];
    } else {
      k := |index| - 1;
    }
  }

  /** Every hit is scored. */
  lemma {:induction false} ScoreAllComplete(index: seq<IndexEntry>, query: string, k: int)
    requires 0 <= k < |index| && IsHit(index[k], query)
    ensures Candidate(index[k], query) in multiset(ScoreAll(index, query))
  {
    var init := index[..|index| - 1];
    if k < |index| - 1 {
      ScoreAllComplete(init, query, k);
      assert init[k] == index[k];
    }
  }

  // ---------------------------------------------------------------- sorting

  predicate NonIncreasing(s: seq<Scored>) {
    forall i, j :: 0 <= i < j < |s| ==> s[i].score >= s[j].score
  }

  /** Places x before the first element that does not outscore it. */
  function Insert(x: Scored, t: seq<Scored>): (r: seq<Scored>)
    ensures multiset(r) == multiset(t) + multiset{x}
  {
    if t == [] || t[0].score <= x.score then [x] + t
    else
      assert t == [t[0]] + t[1..];
      [t[0]] + Insert(x, t[1..])
  }

  /** `scored.sort((a, b) => b.score - a.score)`: JavaScript's sort is stable,
      and this insertion sort is one stable sort by descending score. */
  function SortByScore(s: seq<Scored>): (r: seq<Scored>)
    ensures multiset(r) == multiset(s)
  {
    if s == [] then []
    else
      assert s == [s[0]] + s[1..];
      Insert(s[0], SortByScore(s[1..]))
  }

  lemma {:induction false} InsertSorted(x: Scored, t: seq<Scored>)
    requires NonIncreasing(t)
    ensures NonIncreasing(Insert(x, t))
  {
    if t != [] && t[0].score > x.score {
      InsertSorted(x, t[1..]);
      InsertBounded(x, t[1..], t[0].score);
    }
  }

  lemma {:induction false} InsertBounded(x: Scored, t: seq<Scored>, b: int)
    requires x.score <= b && forall j :: 0 <= j < |t| ==> t[j].score <= b
    ensures forall j :: 0 <= j < |Insert(x, t)| ==> Insert(x, t)[j].score <= b
  {
    if t != [] && t[0].score > x.score {
      InsertBounded(x, t[1..], b);
    }
  }

  /** The sorted candidates are in non-increasing score order. */
  lemma {:induction false} SortSorted(s: seq<Scored>)
    ensures NonIncreasing(SortByScore(s))
  {
    if s != [] {
      SortSorted(s[1..]);
      InsertSorted(s[0], SortByScore(s[1..]));
    }
  }

  /** The elements with score v, in order. */
  function WithScore(s: seq<Scored>, v: int): seq<Scored> {
    if s == [] then []
    else (if s[0].score == v then [s[0]] else []) + WithScore(s[1..], v)
  }

  lemma {:induction false} InsertWithScore(x: Scored, t: seq<Scored>, v: int)
    ensures WithScore(Insert(x, t), v) == (if x.score == v then [x] else []) + WithScore(t, v)
  {
    if t == [] || t[0].score <= x.score {
      assert ([x] + t)[1..] == t;
    } else {
      InsertWithScore(x, t[1..], v);
      assert ([t[0]] + Insert(x, t[1..]))[1..] == Insert(x, t[1..]);
    }
  }

  /** The sort is stable: elements of equal score keep their order. */
  lemma {:induction false} SortStable(s: seq<Scored>, v: int)
    ensures WithScore(SortByScore(s), v) == WithScore(s, v)
  {
    if s != [] {
      SortStable(s[1..], v);
      InsertWithScore(s[0], SortByScore(s[1..]), v);
    }
  }

  // ---------------------------------------------------------------- de-duplication

  /** `r.slug + (r.sectionAnchor || "")` */
  function Key(r: SearchResult): string {
    r.slug + OrEmpty(r.sectionAnchor)
  }

  /** The keys of a sequence of candidates: the `seen` set. */
  function Keys(s: seq<Scored>): set<string> {
    if s == [] then {} else Keys(s[..|s| - 1]) + {Key(s[|s| - 1].result)}
  }

  lemma {:induction false} KeysIndex(s: seq<Scored>, key: string)
    ensures key in Keys(s) <==> exists p :: 0 <= p < |s| && Key(s[p].result) == key
  {
    if s != [] {
      var init := s[..|s| - 1];
      KeysIndex(init, key);
      if key in Keys(init) {
        var p :| 0 <= p < |init| && Key(init[p].result) == key;
        assert s[p] == init[p];
      }
      if exists p :: 0 <= p < |s| && Key(s[p].result) == key {
        var p :| 0 <= p < |s| && Key(s[p].result) == key;
        if p < |init| {
          assert init[p] == s[p];
        }
      }
    }
  }

  /** The `deduped` array: each candidate whose key was not seen before. */
  function Dedup(s: seq<Scored>): (d: seq<Scored>)
    ensures |d| <= |s|
  {
    if s == [] then []
    else
      var init := s[..|s| - 1];
      var last := s[|s| - 1];
      if Key(last.result) in Keys(init) then Dedup(init) else Dedup(init) + [last]
  }

  /** De-duplication keeps every key exactly once. */
  lemma {:induction false} DedupKeys(s: seq<Scored>)
    ensures Keys(Dedup(s)) == Keys(s)
    ensures forall i, j :: 0 <= i < j < |Dedup(s)| ==> Key(Dedup(s)[i].result) != Key(Dedup(s)[j].result)
  {
    if s != [] {
      var init := s[..|s| - 1];
      DedupKeys(init);
      var d := Dedup(init);
      if Key(s[|s| - 1].result) !in Keys(init) {
        assert (d + [s[|s| - 1]])[..|d|] == d;
        KeysIndex(d, Key(s[|s| - 1].result));
      }
    }
  }

  /** Each kept candidate is the first one with its key, and the kept ones
      keep their order: `pos` gives their positions in `s`. */
  lemma {:induction false} DedupPositions(s: seq<Scored>) returns (pos: seq<int>)
    ensures |pos| == |Dedup(s)|
    ensures forall j :: 0 <= j < |pos| ==> 0 <= pos[j] < |s| && s[pos[j]] == Dedup(s)[j]
    ensures forall i, j :: 0 <= i < j < |pos| ==> pos[i] < pos[j]
    ensures forall j, p :: 0 <= j < |pos| && 0 <= p < pos[j] ==> Key(s[p].result) != Key(s[pos[j]].result)
  {
    if s == [] {
      pos := [];
    } else {
      var init := s[..|s| - 1];
      var last := s[|s| - 1];
      var prev := DedupPositions(init);
      assert forall p :: 0 <= p < |init| ==> init[p] == s[p];
      if Key(last.result) in Keys(init) {
        pos := prev;
      } else {
        KeysIndex(init, Key(last.result));
        pos := prev + [|s| - 1];
      }
    }
  }

  // ---------------------------------------------------------------- searchDocs

  function Results(s: seq<Scored>): (rs: seq<SearchResult>)
    ensures |rs| == |s| && forall i :: 0 <= i < |s| ==> rs[i] == s[i].result
  {
    seq(|s|, i requires 0 <= i < |s| => s[i].result)
  }

  /** The candidates that survive sorting and de-duplication. */
  function Ranked(index: seq<IndexEntry>, q: string): seq<Scored> {
    Dedup(SortByScore(ScoreAll(index, Lower(q))))
  }

  /** searchDocs: the first twelve ranked results. */
  function Search(index: seq<IndexEntry>, q: string): (rs: seq<SearchResult>)
    ensures |rs| <= 12 && |rs| <= |Ranked(index, q)|
    ensures rs == Results(Ranked(index, q))[..|rs|]
    ensures |rs| < 12 ==> rs == Results(Ranked(index, q))
  {
    var all := Results(Ranked(index, q));
    if |all| <= 12 then all else all[..12]
  }

  /** searchDocs, as the component runs it: score into `scored`, sort, then
      de-duplicate through the `seen` set, and cut at twelve. */
  method SearchDocs(index: seq<IndexEntry>, q: string) returns (results: seq<SearchResult>)
    ensures results == Search(index, q)
  {
    var query := Lower(q);
    var scored := CollectScored(index, query);
    scored := SortByScore(scored);
    var deduped := DedupResults(scored);
    results := if |deduped| <= 12 then deduped else deduped[..12];
  }

  /** The scoring loop of searchDocs. */
  method CollectScored(index: seq<IndexEntry>, query: string) returns (scored: seq<Scored>)
    ensures scored == ScoreAll(index, query)
  {
    scored := [];
    for i := 0 to |index|
      invariant scored == ScoreAll(index[..i], query)
    {
      assert index[..i + 1][..i] == index[..i];
      var entry := index[i];
      if entry.kind.Page? {
        var titleHit := Contains(Lower(entry.title), query);
        var descHit := Contains(Lower(OrEmpty(entry.description)), query);
        var contentHit := Contains(OrEmpty(entry.content), query);
        if titleHit || descHit || contentHit {
          scored := scored + [Scored(SearchResult(Page, entry.title, entry.slug, OrEmpty(entry.description), None, None),
                                     if titleHit then 20 else if descHit then 8 else 3)];
        }
      } else {
        var sectionHit := Contains(Lower(OrEmpty(entry.section)), query);
        if sectionHit {
          scored := scored + [Scored(SearchResult(Section, entry.title, entry.slug, OrEmpty(entry.excerpt), entry.section, entry.sectionAnchor),
                                     if entry.level == Some(2) then 15 else 10)];
        }
      }
    }
    assert index[..|index|] == index;
  }

  /** The de-duplication loop of searchDocs, with its `seen` set. */
  method DedupResults(scored: seq<Scored>) returns (deduped: seq<SearchResult>)
    ensures deduped == Results(Dedup(scored))
  {
    var seen: set<string> := {};
    deduped := [];
    for i := 0 to |scored|
      invariant seen == Keys(scored[..i])
      invariant deduped == Results(Dedup(scored[..i]))
    {
      assert scored[..i + 1][..i] == scored[..i];
      var r := scored[i];
      var key := r.result.slug + OrEmpty(r.result.sectionAnchor);
      if key !in seen {
        seen := seen + {key};
        deduped := deduped + [r.result];
      }
    }
    assert scored[..|scored|] == scored;
  }

  // ---------------------------------------------------------------- what searchDocs promises

  /** No two results share a page-and-anchor key. */
  lemma SearchDistinct(index: seq<IndexEntry>, q: string)
    ensures var rs := Search(index, q);
            forall i, j :: 0 <= i < j < |rs| ==> Key(rs[i]) != Key(rs[j])
  {
    DedupKeys(SortByScore(ScoreAll(index, Lower(q))));
  }

  /** Every result is the candidate of an entry that the lowercased query hits. */
  lemma SearchSound(index: seq<IndexEntry>, q: string, i: int) returns (k: int)
    requires 0 <= i < |Search(index, q)|
    ensures 0 <= k < |index| && IsHit(index[k], Lower(q))
    ensures Search(index, q)[i] == Candidate(index[k], Lower(q)).result
  {
    var scored := ScoreAll(index, Lower(q));
    var sorted := SortByScore(scored);
    var pos := DedupPositions(sorted);
    var c := sorted[pos[i]];
    assert c in multiset(scored) by {
      assert c in multiset(sorted);
    }
    var p :| 0 <= p < |scored| && scored[p] == c;
    k := ScoreAllSound(index, Lower(q), p);
  }

  /** Results come in non-increasing score order. */
  lemma RankedOrder(index: seq<IndexEntry>, q: string)
    ensures NonIncreasing(Ranked(index, q))
  {
    var sorted := SortByScore(ScoreAll(index, Lower(q)));
    SortSorted(ScoreAll(index, Lower(q)));
    var pos := DedupPositions(sorted);
  }

  /** The result kept for a key has the highest score of all hits with that
      key, and it is the first candidate with that key after sorting. */
  lemma RankedBest(index: seq<IndexEntry>, q: string, i: int, k: int)
    requires 0 <= i < |Ranked(index, q)| && 0 <= k < |index| && IsHit(index[k], Lower(q))
    requires Key(Candidate(index[k], Lower(q)).result) == Key(Ranked(index, q)[i].result)
    ensures Candidate(index[k], Lower(q)).score <= Ranked(index, q)[i].score
  {
    var scored := ScoreAll(index, Lower(q));
    var sorted := SortByScore(scored);
    SortSorted(scored);
    var pos := DedupPositions(sorted);
    var c := Candidate(index[k], Lower(q));
    ScoreAllComplete(index, Lower(q), k);
    assert c in multiset(sorted);
    var p :| 0 <= p < |sorted| && sorted[p] == c;
    assert pos[i] <= p;
  }

  /** Every key of a hit is kept before the cut at twelve. */
  lemma RankedCoversHits(index: seq<IndexEntry>, q: string, k: int)
    requires 0 <= k < |index| && IsHit(index[k], Lower(q))
    ensures Key(Candidate(index[k], Lower(q)).result) in Keys(Ranked(index, q))
  {
    var scored := ScoreAll(index, Lower(q));
    var sorted := SortByScore(scored);
    DedupKeys(sorted);
    var c := Candidate(index[k], Lower(q));
    ScoreAllComplete(index, Lower(q), k);
    assert c in multiset(sorted);
    var p :| 0 <= p < |sorted| && sorted[p] == c;
    KeysIndex(sorted, Key(c.result));
  }

  // ---------------------------------------------------------------- the dialog

  /** What the query effect leaves: the results and the selected index.
      `loaded` is the fetched index, None when loading failed. */
  function QueryChanged(query: string, loaded: Option<seq<IndexEntry>>): (r: (seq<SearchResult>, int))
    ensures r.1 == 0
    ensures |query| < 2 ==> r.0 == []
    ensures |query| >= 2 && loaded.Some? ==> r.0 == Search(loaded.value, query)
    ensures loaded.None? ==> r.0 == []
  {
    if |query| < 2 || loaded.None? then ([], 0) else (Search(loaded.value, query), 0)
  }

  /** handleSelect's target: `/docs` or `/docs/<slug>`, then `#<anchor>` when
      the result has a non-empty anchor. */
  function Href(r: SearchResult): (h: string)
    ensures StartsWith(h, "/docs")
  {
    var base := if r.slug != "" then "/docs/" + r.slug else "/docs";
    if OrEmpty(r.sectionAnchor) != "" then base + "#" + r.sectionAnchor.value else base
  }

  lemma HrefShape(r: SearchResult)
    ensures OrEmpty(r.sectionAnchor) == "" ==> Href(r) == (if r.slug == "" then "/docs" else "/docs/" + r.slug)
    ensures OrEmpty(r.sectionAnchor) != "" ==> EndsWith(Href(r), "#" + r.sectionAnchor.value)
    ensures '#' !in r.slug ==> ('#' in Href(r) <==> OrEmpty(r.sectionAnchor) != "")
  {
    var base := if r.slug != "" then "/docs/" + r.slug else "/docs";
    assert '#' !in "/docs/" && '#' !in "/docs";
    if OrEmpty(r.sectionAnchor) != "" {
      var h := base + "#" + r.sectionAnchor.value;
      assert h[|base|] == '#';
      assert h[|h| - |"#" + r.sectionAnchor.value|..] == "#" + r.sectionAnchor.value;
    }
  }

  datatype KeyPress = ArrowDown | ArrowUp | Enter | OtherKey

  /** What a key press does: the new selected index, and the result opened. */
  datatype KeyOutcome = KeyOutcome(selected: int, target: Option<string>)

  /** The dialog's handleKeyDown. */
  function HandleKey(key: KeyPress, selected: int, results: seq<SearchResult>): (o: KeyOutcome)
    ensures key != Enter ==> o.target.None?
    ensures key == Enter ==> o.selected == selected
  {
    match key
    case ArrowDown => KeyOutcome(if selected + 1 < |results| - 1 then selected + 1 else |results| - 1, None)
    case ArrowUp => KeyOutcome(if selected - 1 > 0 then selected - 1 else 0, None)
    case Enter =>
      if 0 <= selected < |results| then KeyOutcome(selected, Some(Href(results[selected])))
      else KeyOutcome(selected, None)
    case OtherKey => KeyOutcome(selected, None)
  }

  /** The arrows move by one and stop at the ends; a selection inside the
      results stays inside; Enter opens the selected result, and only when
      there is one. */
  lemma KeySelection(key: KeyPress, selected: int, results: seq<SearchResult>)
    ensures key == ArrowUp ==> HandleKey(key, selected, results).selected >= 0
    ensures key == ArrowUp && selected >= 1 ==> HandleKey(key, selected, results).selected == selected - 1
    ensures key == ArrowDown ==> HandleKey(key, selected, results).selected <= |results| - 1
    ensures key == ArrowDown && selected < |results| - 1 ==> HandleKey(key, selected, results).selected == selected + 1
    ensures 0 <= selected < |results| ==> 0 <= HandleKey(key, selected, results).selected < |results|
    ensures key == Enter ==>
              HandleKey(key, selected, results).target == (if 0 <= selected < |results| then Some(Href(results[selected])) else None)
  {
  }
}
