/** The breadcrumb trail above a docs page: one crumb per path segment, each
    linking to the path up to that segment, labelled with the segment's
    words capitalised. */
module Breadcrumbs {
  import opened Text
  import opened Wrappers

  /** `.filter(Boolean)` over strings: the non-empty ones, in order. */
  function NonEmpty(parts: seq<string>): (r: seq<string>)
    ensures |r| <= |parts|
    ensures forall k :: 0 <= k < |r| ==> r[k] != ""
  {
    if parts == [] then []
    else (if parts[0] == "" then [] else [parts[0]]) + NonEmpty(parts[1..])
  }

  /** The non-empty `/`-separated segments of a path. */
  function Segments(path: string): seq<string> {
    NonEmpty(Split(path, '/'))
  }

  lemma {:induction false} NonEmptyPieces(parts: seq<string>, c: char)
    requires forall k :: 0 <= k < |parts| ==> c !in parts[k]
    ensures forall k :: 0 <= k < |NonEmpty(parts)| ==> c !in NonEmpty(parts)[k]
  {
    if parts != [] {
      NonEmptyPieces(parts[1..], c);
      var head := if parts[0] == "" then [] else [parts[0]];
      assert forall k :: 0 <= k < |head| ==> head[k] == parts[0];
    }
  }

  /** Segments are non-empty and hold no `/`. */
  lemma SegmentsShape(path: string)
    ensures forall k :: 0 <= k < |Segments(path)| ==> Segments(path)[k] != "" && '/' !in Segments(path)[k]
  {
    SplitPieces(path, '/');
    NonEmptyPieces(Split(path, '/'), '/');
  }

  lemma {:induction false} NonEmptyKeeps(parts: seq<string>)
    requires forall k :: 0 <= k < |parts| ==> parts[k] != ""
    ensures NonEmpty(parts) == parts
  {
    if parts != [] {
      NonEmptyKeeps(parts[1..]);
    }
  }

  /** A path written as `/` followed by non-empty segments joined by `/`
      gives back those segments. */
  lemma SegmentsOfCanonical(segs: seq<string>)
    requires segs != []
    requires forall k :: 0 <= k < |segs| ==> segs[k] != "" && '/' !in segs[k]
    ensures Segments("/" + Join(segs, "/")) == segs
  {
    var parts := [""] + segs;
    assert parts[0] == "" && parts[1..] == segs;
    assert Join(parts, "/") == "/" + Join(segs, "/");
    assert forall k :: 1 <= k < |parts| ==> parts[k] == segs[k - 1];
    SplitJoin(parts, '/');
    assert NonEmpty(parts) == NonEmpty(segs);
    NonEmptyKeeps(segs);
  }

  /** `word.charAt(0).toUpperCase() + word.slice(1)` */
  function Capitalize(word: string): (r: string)
    ensures |r| == |word|
  {
    if word == [] then [] else [UpperChar(word[0])] + word[1..]
  }

  function CapitalizeAll(words: seq<string>): (r: seq<string>)
    ensures |r| == |words|
    ensures forall k :: 0 <= k < |words| ==> r[k] == Capitalize(words[k])
  {
    if words == [] then [] else [Capitalize(words[0])] + CapitalizeAll(words[1..])
  }

  /** A crumb's label: the words between `-`, capitalised, joined by spaces. */
  function Label(segment: string): string {
    Join(CapitalizeAll(Split(segment, '-')), " ")
  }

  /** The label character by character: `-` becomes a space, a character
      at the start or after `-` is uppercased, the rest is kept. */
  function LabelChars(s: string): (r: string)
    ensures |r| == |s|
  {
    seq(|s|, k requires 0 <= k < |s| =>
      if s[k] == '-' then ' ' else if k == 0 || s[k - 1] == '-' then UpperChar(s[k]) else s[k])
  }

  lemma LabelCharsWord(p: string)
    requires '-' !in p
    ensures LabelChars(p) == Capitalize(p)
  {
    if p != [] {
      assert forall k :: 0 <= k < |p| ==> p[k] != '-' by {
        forall k | 0 <= k < |p| ensures p[k] != '-' {
          assert p[k] in p;
        }
      }
    }
  }

  lemma LabelCharsStep(p: string, t: string)
    requires '-' !in p
    ensures LabelChars(p + "-" + t) == LabelChars(p) + " " + LabelChars(t)
  {
    var s := p + "-" + t;
    var l := LabelChars(p) + " " + LabelChars(t);
    assert forall k :: 0 <= k < |p| ==> s[k] == p[k] && p[k] != '-' by {
      forall k | 0 <= k < |p| ensures s[k] == p[k] && p[k] != '-' {
        assert p[k] in p;
      }
    }
    assert forall k :: |p| < k < |s| ==> s[k] == t[k - |p| - 1];
    assert forall k :: 0 <= k < |s| ==> LabelChars(s)[k] == l[k];
  }

  lemma {:induction false} LabelOfWords(words: seq<string>)
    requires |words| >= 1 && forall k :: 0 <= k < |words| ==> '-' !in words[k]
    ensures Join(CapitalizeAll(words), " ") == LabelChars(Join(words, "-"))
  {
    if |words| == 1 {
      LabelCharsWord(words[0]);
    } else {
      LabelOfWords(words[1..]);
      LabelCharsWord(words[0]);
      LabelCharsStep(words[0], Join(words[1..], "-"));
      assert CapitalizeAll(words)[1..] == CapitalizeAll(words[1..]);
    }
  }

  /** The label is the segment with `-` turned into spaces and each word's
      first character uppercased; so it is as long as the segment. */
  lemma LabelIsChars(segment: string)
    ensures Label(segment) == LabelChars(segment)
    ensures |Label(segment)| == |segment|
  {
    SplitPieces(segment, '-');
    LabelOfWords(Split(segment, '-'));
    JoinSplit(segment, '-');
  }

  /** Once lowercased for display, the capitalisation is gone: the shown
      label is the lowercased segment with `-` turned into spaces. */
  lemma ShownLabel(segment: string)
    ensures Lower(Label(segment)) == seq(|segment|, k requires 0 <= k < |segment| =>
                                         if segment[k] == '-' then ' ' else LowerChar(segment[k]))
  {
    LabelIsChars(segment);
  }

  datatype Crumb = Crumb(href: string, caption: string)

  /** `"/" + segments.slice(0, index + 1).join("/")` */
  function CrumbHref(segs: seq<string>, i: int): string
    requires 0 <= i < |segs|
  {
    "/" + Join(segs[..i + 1], "/")
  }

  /** The breadcrumbs of a path; None for `/` and `/docs`, which render none. */
  function BreadcrumbsOf(path: string): (r: Option<seq<Crumb>>)
    ensures r.None? <==> path == "/" || path == "/docs"
    ensures r.Some? ==> |r.value| == |Segments(path)|
  {
    if path == "/" || path == "/docs" then None
    else
      var segs := Segments(path);
      Some(seq(|segs|, i requires 0 <= i < |segs| => Crumb(CrumbHref(segs, i), Label(segs[i]))))
  }

  lemma {:induction false} JoinSnoc(ps: seq<string>, x: string, sep: string)
    requires ps != []
    ensures Join(ps + [x], sep) == Join(ps, sep) + sep + x
  {
    if |ps| > 1 {
      JoinSnoc(ps[1..], x, sep);
      assert (ps + [x])[1..] == ps[1..] + [x];
    }
  }

  /** Each crumb's address is the previous one's followed by `/` and its
      own segment. */
  lemma HrefExtends(path: string, i: int)
    requires BreadcrumbsOf(path).Some? && 0 < i < |BreadcrumbsOf(path).value|
    ensures var cs := BreadcrumbsOf(path).value;
            cs[i].href == cs[i - 1].href + "/" + Segments(path)[i]
            && cs[i - 1].href <= cs[i].href
  {
    var segs := Segments(path);
    JoinSnoc(segs[..i], segs[i], "/");
    assert segs[..i + 1] == segs[..i] + [segs[i]];
  }

  /** The first crumb links to `/` and the first segment. */
  lemma FirstHref(path: string)
    requires BreadcrumbsOf(path).Some? && |BreadcrumbsOf(path).value| > 0
    ensures BreadcrumbsOf(path).value[0].href == "/" + Segments(path)[0]
  {
    assert Segments(path)[..1] == [Segments(path)[0]];
  }

  /** For a path written as `/` and its segments, there is one crumb per
      segment and the last crumb links to the path itself. */
  lemma LastHref(segs: seq<string>)
    requires segs != []
    requires forall k :: 0 <= k < |segs| ==> segs[k] != "" && '/' !in segs[k]
    requires "/" + Join(segs, "/") != "/docs"
    ensures BreadcrumbsOf("/" + Join(segs, "/")).Some?
    ensures |BreadcrumbsOf("/" + Join(segs, "/")).value| == |segs|
    ensures BreadcrumbsOf("/" + Join(segs, "/")).value[|segs| - 1].href == "/" + Join(segs, "/")
  {
    SegmentsOfCanonical(segs);
    assert segs[..|segs|] == segs;
    JoinStart(segs);
  }

  lemma JoinStart(segs: seq<string>)
    requires segs != [] && segs[0] != ""
    ensures Join(segs, "/") != [] && Join(segs, "/")[0] == segs[0][0]
  {
  }

  /** How a crumb is shown: its lowercased label, with a link unless it is
      the last crumb. */
  datatype Shown = Shown(text: string, link: Option<string>)

  function Render(crumbs: seq<Crumb>): (r: seq<Shown>)
    ensures |r| == |crumbs|
  {
    seq(|crumbs|, i requires 0 <= i < |crumbs| =>
      Shown(Lower(crumbs[i].caption), if i == |crumbs| - 1 then None else Some(crumbs[i].href)))
  }

  /** Only the last crumb is shown without a link, every other one links
      to its own address, and every shown label is lowercase. */
  lemma RenderLinks(crumbs: seq<Crumb>, i: int)
    requires 0 <= i < |crumbs|
    ensures Render(crumbs)[i].link.None? <==> i == |crumbs| - 1
    ensures Render(crumbs)[i].link.Some? ==> Render(crumbs)[i].link.value == crumbs[i].href
    ensures IsLowerStr(Render(crumbs)[i].text)
  {
    LowerIsLower(crumbs[i].caption);
  }
}
