/** The build step that writes the docs site's search index: for every `.mdx`
    page one page entry, then one section entry per level-2 or level-3
    heading, with a URL anchor and an excerpt of the text below the heading.
    Directory listing and front-matter parsing are inputs: each file is
    given with its name, its front-matter title and description, and its
    body. */
module SearchIndex {
  import opened Text
  import opened Wrappers
  import opened DocsSearch

  // ---------------------------------------------------------------- headings

  /** The characters JavaScript's `.` refuses to match. */
  predicate IsLineTerminator(c: char) {
    c == '\n' || c == '\r' || c == '\U{2028}' || c == '\U{2029}'
  }

  predicate NoTerminator(s: string) {
    forall j :: 0 <= j < |s| ==> !IsLineTerminator(s[j])
  }

  /** The number of leading `#`. */
  function HashRun(s: string): (n: nat)
    ensures n <= |s| && (forall j :: 0 <= j < n ==> s[j] == '#') && (n == |s| || s[n] != '#')
  {
    if s != [] && s[0] == '#' then 1 + HashRun(s[1..]) else 0
  }

  /** The number of leading blanks. */
  function SpaceRun(s: string): (n: nat)
    ensures n <= |s| && (forall j :: 0 <= j < n ==> IsSpace(s[j])) && (n == |s| || !IsSpace(s[n]))
  {
    if s != [] && IsSpace(s[0]) then 1 + SpaceRun(s[1..]) else 0
  }

  /** `line.match(/^(#{2,3})\s+(.+)$/)`: the level and the second group. The
      blanks are taken greedily; when they run to the end of the line the
      last one is given back to `(.+)`. */
  function MatchHeading(line: string): (m: Option<(nat, string)>)
    ensures m.Some? ==> (m.value.0 == 2 || m.value.0 == 3) && m.value.0 < |line|
    ensures m.Some? ==> (forall j :: 0 <= j < m.value.0 ==> line[j] == '#') && IsSpace(line[m.value.0])
    ensures m.Some? ==> m.value.1 != "" && NoTerminator(m.value.1) && EndsWith(line, m.value.1)
    ensures m.Some? ==> |line| - |m.value.1| > m.value.0
  {
    var r := HashRun(line);
    if r != 2 && r != 3 then None
    else
      var k := SpaceRun(line[r..]);
      if k == 0 then None
      else if r + k < |line| then
        if NoTerminator(line[r + k..]) then
          assert IsSpace(line[r..][0]);
          Some((r, line[r + k..]))
        else None
      else if k >= 2 && !IsLineTerminator(line[|line| - 1]) then
        assert IsSpace(line[r..][0]);
        assert line[|line| - 1..] == [line[|line| - 1]];
        Some((r, line[|line| - 1..]))
      else None
  }

  /** A line starting with four `#` is never a heading. */
  lemma FourHashesNoHeading(line: string)
    requires StartsWith(line, "####")
    ensures MatchHeading(line).None?
  {
    assert line[..4] == "####";
    assert line[0] == '#' && line[1] == '#' && line[2] == '#' && line[3] == '#';
  }

  /** `##` or `###`, blanks, then text without a line terminator that does
      not start with a blank, is matched with that level and that text. */
  lemma HeadingComplete(hashes: string, ws: string, body: string)
    requires hashes == "##" || hashes == "###"
    requires ws != [] && AllSpace(ws)
    requires body != [] && !IsSpace(body[0]) && NoTerminator(body)
    ensures MatchHeading(hashes + ws + body) == Some((|hashes|, body))
  {
    var line := hashes + ws + body;
    assert line[|hashes|] == ws[0];
    assert forall j :: 0 <= j < |hashes| ==> line[j] == hashes[j] == '#';
    HashRunIs(line, |hashes|);
    var rest := line[|hashes|..];
    assert rest == ws + body by {
      assert line == hashes + (ws + body);
    }
    assert rest[|ws|] == body[0];
    SpaceRunIs(rest, |ws|);
    assert rest[|ws|..] == body;
    assert line[|hashes| + |ws|..] == body by {
      assert line == (hashes + ws) + body;
    }
  }

  lemma HashRunIs(s: string, n: nat)
    requires n < |s| && (forall j :: 0 <= j < n ==> s[j] == '#') && s[n] != '#'
    ensures HashRun(s) == n
  {
  }

  lemma SpaceRunIs(s: string, n: nat)
    requires n < |s| && (forall j :: 0 <= j < n ==> IsSpace(s[j])) && !IsSpace(s[n])
    ensures SpaceRun(s) == n
  {
  }

  /** `s.replace(/[*_`]/g, "")` and its relatives: s without the given characters. */
  function Remove(s: string, bad: set<char>): (r: string)
    ensures forall j :: 0 <= j < |r| ==> r[j] !in bad
    ensures |r| <= |s|
  {
    if s == [] then [] else (if s[0] in bad then [] else [s[0]]) + Remove(s[1..], bad)
  }

  lemma {:induction false} RemoveNone(s: string, bad: set<char>)
    requires forall j :: 0 <= j < |s| ==> s[j] !in bad
    ensures Remove(s, bad) == s
  {
    if s != [] {
      RemoveNone(s[1..], bad);
      assert [s[0]] + s[1..] == s;
    }
  }

  const Emphasis: set<char> := {'*', '_', '`'}

  /** `text.replace(/[*_`]/g, "").trim()` */
  function CleanText(s: string): (t: string)
    ensures forall j :: 0 <= j < |t| ==> t[j] !in Emphasis
    ensures t == [] || (!IsSpace(t[0]) && !IsSpace(t[|t| - 1]))
  {
    var r := Remove(s, Emphasis);
    StripAvoids(r, Emphasis);
    Strip(r)
  }

  /** Stripping keeps a character set out of a string that had none. */
  lemma StripAvoids(s: string, bad: set<char>)
    requires forall j :: 0 <= j < |s| ==> s[j] !in bad
    ensures forall j :: 0 <= j < |Strip(s)| ==> Strip(s)[j] !in bad
  {
    var a := TrimStart(s);
    var b := TrimEnd(a);
    TrimStartSuffix(s);
    TrimEndPrefix(a);
    assert forall j :: 0 <= j < |b| ==> b[j] == a[j] == s[j + |s| - |a|];
  }

  // ---------------------------------------------------------------- anchors

  predicate AnchorChar(c: char) {
    'a' <= c <= 'z' || '0' <= c <= '9'
  }

  /** Drops leading characters outside [a-z0-9]. */
  function SkipNonAnchor(s: string): (r: string)
    ensures |r| <= |s| && (r == [] || AnchorChar(r[0]))
  {
    if s != [] && !AnchorChar(s[0]) then SkipNonAnchor(s[1..]) else s
  }

  /** `s.replace(/[^a-z0-9]+/g, "-")`: every maximal run outside [a-z0-9]
      becomes one `-`. */
  function Collapse(s: string): (r: string)
    ensures (s == []) == (r == [])
    ensures s != [] ==> (r[0] == '-' <==> !AnchorChar(s[0]))
    ensures forall j :: 0 <= j < |r| ==> AnchorChar(r[j]) || r[j] == '-'
    ensures forall j :: 0 <= j < |r| - 1 ==> !(r[j] == '-' && r[j + 1] == '-')
    decreases |s|
  {
    if s == [] then []
    else if AnchorChar(s[0]) then
      var rest := Collapse(s[1..]);
      assert forall j :: 1 <= j < |rest| + 1 ==> ([s[0]] + rest)[j] == rest[j - 1];
      [s[0]] + rest
    else
      var t := SkipNonAnchor(s[1..]);
      var rest := Collapse(t);
      assert forall j :: 1 <= j < |rest| + 1 ==> ("-" + rest)[j] == rest[j - 1];
      "-" + rest
  }

  /** `.replace(/^-|-$/g, "")` */
  function TrimDashes(s: string): string {
    var a := if s != [] && s[0] == '-' then s[1..] else s;
    if a != [] && a[|a| - 1] == '-' then a[..|a| - 1] else a
  }

  /** The anchor of a heading text. */
  function Anchor(text: string): string {
    TrimDashes(Collapse(Lower(text)))
  }

  /** An anchor holds only [a-z0-9-], never starts or ends with `-`, and
      never holds `--`. */
  lemma AnchorShape(text: string)
    ensures var a := Anchor(text);
            (forall j :: 0 <= j < |a| ==> AnchorChar(a[j]) || a[j] == '-')
            && (a != [] ==> a[0] != '-' && a[|a| - 1] != '-')
            && (forall j :: 0 <= j < |a| - 1 ==> !(a[j] == '-' && a[j + 1] == '-'))
  {
    TrimDashesShape(Collapse(Lower(text)));
  }

  predicate DashShape(c: string) {
    (forall j :: 0 <= j < |c| ==> AnchorChar(c[j]) || c[j] == '-')
    && (forall j :: 0 <= j < |c| - 1 ==> !(c[j] == '-' && c[j + 1] == '-'))
  }

  /** Any slice of a string of that shape keeps the shape. */
  lemma DashShapeSlice(c: string, lo: nat, hi: nat)
    requires lo <= hi <= |c| && DashShape(c)
    ensures DashShape(c[lo..hi])
  {
    var s := c[lo..hi];
    assert forall j :: 0 <= j < |s| ==> s[j] == c[lo + j];
  }

  lemma TrimDashesShape(c: string)
    requires forall j :: 0 <= j < |c| ==> AnchorChar(c[j]) || c[j] == '-'
    requires forall j :: 0 <= j < |c| - 1 ==> !(c[j] == '-' && c[j + 1] == '-')
    ensures var a := TrimDashes(c);
            (forall j :: 0 <= j < |a| ==> AnchorChar(a[j]) || a[j] == '-')
            && (a != [] ==> a[0] != '-' && a[|a| - 1] != '-')
            && (forall j :: 0 <= j < |a| - 1 ==> !(a[j] == '-' && a[j + 1] == '-'))
  {
    assert DashShape(c);
    var lo := if c != [] && c[0] == '-' then 1 else 0;
    var a := c[lo..];
    var hi := if a != [] && a[|a| - 1] == '-' then |c| - 1 else |c|;
    assert TrimDashes(c) == c[lo..hi];
    DashShapeSlice(c, lo, hi);
    var b := c[lo..hi];
    if b != [] {
      assert b[0] == c[lo];
      assert b[|b| - 1] == c[hi - 1];
      if lo == 1 {
        assert c[1] != '-';
      }
      if hi == |c| - 1 {
        assert c[|c| - 2] != '-';
      }
    }
  }

  /** What extractHeadings records of one heading. */
  datatype Heading = Heading(text: string, level: nat, anchor: string)

  function MakeHeading(m: (nat, string)): Heading {
    var text := CleanText(m.1);
    Heading(text, m.0, Anchor(text))
  }

  /** The headings of a list of lines, in order. */
  function HeadingsOf(lines: seq<string>): (hs: seq<Heading>)
    ensures |hs| <= |lines|
    ensures forall j :: 0 <= j < |hs| ==> hs[j].level == 2 || hs[j].level == 3
  {
    if lines == [] then []
    else
      var m := MatchHeading(lines[|lines| - 1]);
      HeadingsOf(lines[..|lines| - 1]) + (if m.Some? then [MakeHeading(m.value)] else [])
  }

  /** Every heading comes from a line that matches the heading pattern. */
  lemma {:induction false} HeadingsSound(lines: seq<string>, i: int) returns (k: int)
    requires 0 <= i < |HeadingsOf(lines)|
    ensures 0 <= k < |lines| && MatchHeading(lines[k]).Some?
    ensures HeadingsOf(lines)[i] == MakeHeading(MatchHeading(lines[k]).value)
  {
    var init := lines[..|lines| - 1];
    if i < |HeadingsOf(init)| {
      k := HeadingsSound(init, i);
      assert init[k] == lines[k];
    } else {
      k := |lines| - 1;
    }
  }

  /** Heading texts are trimmed and hold no `*`, `_` or backtick; anchors
      have the shape AnchorShape states. */
  lemma HeadingsClean(lines: seq<string>, i: int)
    requires 0 <= i < |HeadingsOf(lines)|
    ensures var h := HeadingsOf(lines)[i];
            (forall j :: 0 <= j < |h.text| ==> h.text[j] !in Emphasis)
            && (h.text == [] || (!IsSpace(h.text[0]) && !IsSpace(h.text[|h.text| - 1])))
            && h.anchor == Anchor(h.text)
  {
    var k := HeadingsSound(lines, i);
  }

  /** extractHeadings */
  method ExtractHeadings(content: string) returns (headings: seq<Heading>)
    ensures headings == HeadingsOf(Split(content, '\n'))
  {
    var lines := Split(content, '\n');
    headings := [];
    for i := 0 to |lines|
      invariant headings == HeadingsOf(lines[..i])
    {
      assert lines[..i + 1][..i] == lines[..i];
      var m := MatchHeading(lines[i]);
      if m.Some? {
        var text := CleanText(m.value.1);
        var anchor := Anchor(text);
        headings := headings + [Heading(text, m.value.0, anchor)];
      }
    }
    assert lines[..|lines|] == lines;
  }

  // ---------------------------------------------------------------- excerpts

  const MaxExcerpt := 110

  /** The characters removed from an excerpt. */
  const Markup: set<char> := {'*', '_', '`', '[', ']'}

  const Ellipsis := "\U{2026}"

  /** `l.replace(/^#{2,3}\s+/, "")` */
  function DropHeadingMark(l: string): string {
    var r := HashRun(l);
    if (r == 2 || r == 3) && r < |l| && IsSpace(l[r]) then TrimStart(l[r..]) else l
  }

  /** The text findIndex compares with the heading. */
  function LineText(l: string): string {
    CleanText(DropHeadingMark(l))
  }

  /** The text of every line. */
  function LineTexts(lines: seq<string>): (ts: seq<string>)
    ensures |ts| == |lines|
  {
    seq(|lines|, i requires 0 <= i < |lines| => LineText(lines[i]))
  }

  /** `findIndex` over the line texts: the first index holding the heading. */
  function FindHeading(texts: seq<string>, heading: string): (idx: Option<nat>)
    ensures idx.Some? ==> idx.value < |texts|
  {
    if texts == [] then None
    else if texts[0] == heading then Some(0)
    else
      var f := FindHeading(texts[1..], heading);
      if f.Some? then Some(f.value + 1) else None
  }

  /** The lookup answers the first line whose text is the heading, and
      nothing when no line has it. */
  lemma {:induction false} FindHeadingFirst(texts: seq<string>, heading: string)
    ensures var idx := FindHeading(texts, heading);
            (idx.Some? ==> texts[idx.value] == heading
                           && forall j :: 0 <= j < idx.value ==> texts[j] != heading)
            && (idx.None? ==> forall j :: 0 <= j < |texts| ==> texts[j] != heading)
  {
    if texts != [] && texts[0] != heading {
      FindHeadingFirst(texts[1..], heading);
      assert forall j :: 1 <= j < |texts| ==> texts[j] == texts[1..][j - 1];
    }
  }

  /** The line of a heading gives back the heading's own text. */
  lemma HeadingLineText(line: string)
    requires MatchHeading(line).Some?
    ensures LineText(line) == MakeHeading(MatchHeading(line).value).text
  {
    var r := HashRun(line);
    var rest := line[r..];
    var k := SpaceRun(rest);
    TrimStartIsSkip(rest, k);
    if k == |rest| {
      var m := MatchHeading(line).value;
      assert |m.1| == 1 && IsSpace(m.1[0]);
      var c := Remove(m.1, Emphasis);
      assert c == m.1 || c == [];
    }
  }

  lemma TrimStartIsSkip(s: string, k: nat)
    requires k <= |s| && (forall j :: 0 <= j < k ==> IsSpace(s[j])) && (k == |s| || !IsSpace(s[k]))
    ensures TrimStart(s) == s[k..]
  {
    if k > 0 {
      TrimStartIsSkip(s[1..], k - 1);
    }
  }

  /** So the excerpt lookup for a heading finds the heading's own line or
      an earlier line with the same text. */
  lemma HeadingFound(lines: seq<string>, i: int)
    requires 0 <= i < |lines| && MatchHeading(lines[i]).Some?
    ensures var text := MakeHeading(MatchHeading(lines[i]).value).text;
            FindHeading(LineTexts(lines), text).Some? && FindHeading(LineTexts(lines), text).value <= i
  {
    HeadingLineText(lines[i]);
    FindHeadingAtMost(LineTexts(lines), MakeHeading(MatchHeading(lines[i]).value).text, i);
  }

  lemma {:induction false} FindHeadingAtMost(texts: seq<string>, heading: string, i: int)
    requires 0 <= i < |texts| && texts[i] == heading
    ensures FindHeading(texts, heading).Some? && FindHeading(texts, heading).value <= i
  {
    if texts[0] != heading {
      FindHeadingAtMost(texts[1..], heading, i - 1);
    }
  }

  /** A line the excerpt may be taken from: not empty, not starting with
      `#` (a heading), three backticks (a code fence) or `|` (a table row). */
  predicate Qualifies(line: string) {
    line != "" && line[0] != '#' && line[0] != '|'
    && !(|line| >= 3 && line[0] == '`' && line[1] == '`' && line[2] == '`')
  }

  /** The first `n` characters, `s.slice(0, n)`. */
  function Take(s: string, n: nat): (r: string)
    ensures |r| <= n && r <= s
    ensures |s| <= n ==> r == s
  {
    if |s| <= n then s else s[..n]
  }

  /** The excerpt as line 38 of the script writes it: the ellipsis depends on
      the length of the line before the markup is removed. */
  function ExcerptAsWritten(line: string): (e: string)
    ensures |e| <= MaxExcerpt + 1
  {
    Take(Remove(line, Markup), MaxExcerpt) + (if |line| > MaxExcerpt then Ellipsis else "")
  }

  /** The ellipsis is appended exactly when the line is longer than 110. */
  lemma AsWrittenEllipsis(line: string)
    ensures var e := ExcerptAsWritten(line);
            (|line| > MaxExcerpt ==> e == Take(Remove(line, Markup), MaxExcerpt) + Ellipsis)
            && (|line| <= MaxExcerpt ==> e == Remove(line, Markup))
  {
  }

  /** ...so a line of 111 characters with one `*` shows its whole text and
      still ends in the ellipsis, though nothing was cut. */
  lemma EllipsisWithoutCut(text: string)
    requires |text| == MaxExcerpt && forall j :: 0 <= j < |text| ==> text[j] !in Markup
    ensures var line := "*" + text;
            Remove(line, Markup) == text && ExcerptAsWritten(line) == text + Ellipsis
  {
    var line := "*" + text;
    assert line[1..] == text;
    RemoveNone(text, Markup);
  }

  lemma EllipsisWithoutCutExample()
    ensures ExcerptAsWritten("*" + seq(MaxExcerpt, _ => 'a')) == seq(MaxExcerpt, _ => 'a') + Ellipsis
  {
    EllipsisWithoutCut(seq(MaxExcerpt, _ => 'a'));
  }

  /** The excerpt as evidently intended: the ellipsis marks text that was
      cut. The index below keeps the rule as written. */
  function Excerpt(line: string): (e: string)
    ensures |e| <= MaxExcerpt + 1
  {
    var text := Remove(line, Markup);
    Take(text, MaxExcerpt) + (if |text| > MaxExcerpt then Ellipsis else "")
  }

  /** The excerpt is the whole cleaned text when it fits, else its first 110
      characters and the ellipsis. */
  lemma ExcerptTruncates(line: string)
    ensures var text := Remove(line, Markup);
            Excerpt(line) == (if |text| <= MaxExcerpt then text else text[..MaxExcerpt] + Ellipsis)
  {
  }

  /** The two rules differ only on a line whose cleaned text fits in 110
      characters while the line itself does not; there the rule as written
      adds an ellipsis that the intended rule leaves out. */
  lemma AsWrittenDiffers(line: string)
    ensures ExcerptAsWritten(line) != Excerpt(line) <==>
              |Remove(line, Markup)| <= MaxExcerpt < |line|
    ensures ExcerptAsWritten(line) != Excerpt(line) ==>
              ExcerptAsWritten(line) == Excerpt(line) + Ellipsis
  {
    var text := Remove(line, Markup);
    if |text| <= MaxExcerpt < |line| {
      assert |ExcerptAsWritten(line)| == |Excerpt(line)| + 1;
    }
  }

  /** The loop of getHeadingExcerpt over lines i..end-1. */
  function ExcerptScan(lines: seq<string>, i: int, end: int): string
    requires 0 <= i && end <= |lines|
    decreases end - i
  {
    if i >= end then ""
    else
      var line := Strip(lines[i]);
      if Qualifies(line) then ExcerptAsWritten(line) else ExcerptScan(lines, i + 1, end)
  }

  /** getHeadingExcerpt as a function of the content. */
  function HeadingExcerpt(content: string, heading: string): string {
    LinesExcerpt(Split(content, '\n'), heading)
  }

  /** getHeadingExcerpt once the content is split into lines. */
  function LinesExcerpt(lines: seq<string>, heading: string): string {
    var idx := FindHeading(LineTexts(lines), heading);
    if idx.None? then ""
    else ExcerptScan(lines, idx.value + 1, if idx.value + 6 < |lines| then idx.value + 6 else |lines|)
  }

  /** getHeadingExcerpt */
  method GetHeadingExcerpt(content: string, heading: string) returns (excerpt: string)
    ensures excerpt == HeadingExcerpt(content, heading)
  {
    var lines := Split(content, '\n');
    excerpt := LinesScan(lines, heading);
  }

  /** getHeadingExcerpt after the split: find the heading, scan the five
      lines after it. */
  method LinesScan(lines: seq<string>, heading: string) returns (excerpt: string)
    ensures excerpt == LinesExcerpt(lines, heading)
  {
    var idx := FindHeading(LineTexts(lines), heading);
    if idx.None? {
      return "";
    }
    var end := if idx.value + 6 < |lines| then idx.value + 6 else |lines|;
    excerpt := ScanExcerpt(lines, idx.value + 1, end);
  }

  /** The loop of getHeadingExcerpt, returning at the first qualifying line. */
  method ScanExcerpt(lines: seq<string>, start: int, end: int) returns (excerpt: string)
    requires 0 <= start && end <= |lines|
    ensures excerpt == ExcerptScan(lines, start, end)
  {
    var i := start;
    while i < end
      invariant start <= i
      invariant ExcerptScan(lines, i, end) == ExcerptScan(lines, start, end)
      decreases end - i
    {
      var line := Strip(lines[i]);
      if Qualifies(line) {
        return ExcerptAsWritten(line);
      }
      i := i + 1;
    }
    return "";
  }

  /** The excerpt is empty when no line has the heading's text; otherwise it
      is that of the first qualifying line among the five after the line
      found, or empty when none of them qualifies. That excerpt is the
      cleaned line cut to 110 characters, followed by the ellipsis exactly
      when the trimmed line is longer than 110. */
  lemma ExcerptSource(content: string, heading: string) returns (j: int)
    ensures FindHeading(LineTexts(Split(content, '\n')), heading).None? ==> HeadingExcerpt(content, heading) == ""
    ensures var lines := Split(content, '\n');
            var idx := FindHeading(LineTexts(lines), heading);
            idx.Some? ==>
              if j < 0 then
                HeadingExcerpt(content, heading) == ""
                && forall n :: idx.value < n <= idx.value + 5 && n < |lines| ==> !Qualifies(Strip(lines[n]))
              else
                idx.value < j <= idx.value + 5 && j < |lines| && Qualifies(Strip(lines[j]))
                && (forall n :: idx.value < n < j ==> !Qualifies(Strip(lines[n])))
                && HeadingExcerpt(content, heading) == ExcerptAsWritten(Strip(lines[j]))
                && HeadingExcerpt(content, heading)
                   == Take(Remove(Strip(lines[j]), Markup), MaxExcerpt)
                      + (if |Strip(lines[j])| > MaxExcerpt then Ellipsis else "")
  {
    var lines := Split(content, '\n');
    var idx := FindHeading(LineTexts(lines), heading);
    j := -1;
    if idx.Some? {
      var end := if idx.value + 6 < |lines| then idx.value + 6 else |lines|;
      j := ScanFacts(lines, idx.value + 1, end);
    }
  }

  lemma {:induction false} ScanFacts(lines: seq<string>, i: int, end: int) returns (j: int)
    requires 0 <= i && end <= |lines|
    ensures j < 0 ==> ExcerptScan(lines, i, end) == "" && forall n :: i <= n < end ==> !Qualifies(Strip(lines[n]))
    ensures j >= 0 ==> i <= j < end && Qualifies(Strip(lines[j])) && ExcerptScan(lines, i, end) == ExcerptAsWritten(Strip(lines[j]))
    ensures j >= 0 ==> forall n :: i <= n < j ==> !Qualifies(Strip(lines[n]))
    decreases end - i
  {
    if i >= end {
      j := -1;
    } else if Qualifies(Strip(lines[i])) {
      j := i;
    } else {
      j := ScanFacts(lines, i + 1, end);
    }
  }

  // ---------------------------------------------------------------- buildIndex

  /** A file of the docs directory, with its parsed front matter. */
  datatype DocFile = DocFile(name: string, title: Option<string>, description: Option<string>, content: string)

  const ContentLimit := 8000

  /** `file.replace(/\.mdx$/, "")`, then `index` becomes the empty slug. */
  function RealSlug(name: string): (s: string)
    requires EndsWith(name, ".mdx")
  {
    var slug := name[..|name| - 4];
    if slug == "index" then "" else slug
  }

  /** `data.title || slug` */
  function PageTitle(f: DocFile): string
    requires EndsWith(f.name, ".mdx")
  {
    if OrEmpty(f.title) != "" then f.title.value else f.name[..|f.name| - 4]
  }

  function PageEntry(f: DocFile): IndexEntry
    requires EndsWith(f.name, ".mdx")
  {
    IndexEntry(Page, RealSlug(f.name), PageTitle(f), Some(OrEmpty(f.description)),
               Some(Take(Lower(f.content), ContentLimit)), None, None, None, None)
  }

  function SectionEntry(f: DocFile, h: Heading): IndexEntry
    requires EndsWith(f.name, ".mdx")
  {
    IndexEntry(Section, RealSlug(f.name), PageTitle(f), None, None,
               Some(h.text), Some(h.anchor), Some(HeadingExcerpt(f.content, h.text)), Some(h.level))
  }

  function SectionEntries(f: DocFile, hs: seq<Heading>): (es: seq<IndexEntry>)
    requires EndsWith(f.name, ".mdx")
    ensures |es| == |hs|
  {
    if hs == [] then [] else SectionEntries(f, hs[..|hs| - 1]) + [SectionEntry(f, hs[|hs| - 1])]
  }

  /** The entries one `.mdx` file contributes: its page, then its sections. */
  function FileEntries(f: DocFile): seq<IndexEntry>
    requires EndsWith(f.name, ".mdx")
  {
    [PageEntry(f)] + SectionEntries(f, HeadingsOf(Split(f.content, '\n')))
  }

  /** The whole index: the entries of every `.mdx` file, in listing order. */
  function IndexOf(files: seq<DocFile>): seq<IndexEntry> {
    if files == [] then []
    else
      var last := files[|files| - 1];
      IndexOf(files[..|files| - 1]) + (if EndsWith(last.name, ".mdx") then FileEntries(last) else [])
  }

  /** buildIndex, without writing the file. */
  method BuildIndex(files: seq<DocFile>) returns (index: seq<IndexEntry>)
    ensures index == IndexOf(files)
  {
    index := [];
    for i := 0 to |files|
      invariant index == IndexOf(files[..i])
    {
      assert files[..i + 1][..i] == files[..i];
      var file := files[i];
      if EndsWith(file.name, ".mdx") {
        var entries := IndexFile(file);
        index := index + entries;
      }
    }
    assert files[..|files|] == files;
  }

  /** The entries buildIndex pushes for one `.mdx` file. */
  method IndexFile(file: DocFile) returns (entries: seq<IndexEntry>)
    requires EndsWith(file.name, ".mdx")
    ensures entries == FileEntries(file)
  {
    var slug := file.name[..|file.name| - 4];
    var realSlug := if slug == "index" then "" else slug;
    var title := if OrEmpty(file.title) != "" then file.title.value else slug;
    var page := IndexEntry(Page, realSlug, title, Some(OrEmpty(file.description)),
                           Some(Take(Lower(file.content), ContentLimit)), None, None, None, None);
    assert realSlug == RealSlug(file.name) && title == PageTitle(file);
    assert page == PageEntry(file);
    var headings := ExtractHeadings(file.content);
    var sections := IndexSections(file, headings);
    entries := [page] + sections;
  }

  /** The loop that pushes one section entry per heading. */
  method IndexSections(file: DocFile, headings: seq<Heading>) returns (sections: seq<IndexEntry>)
    requires EndsWith(file.name, ".mdx")
    ensures sections == SectionEntries(file, headings)
  {
    var slug := file.name[..|file.name| - 4];
    var realSlug := if slug == "index" then "" else slug;
    var title := if OrEmpty(file.title) != "" then file.title.value else slug;
    assert realSlug == RealSlug(file.name) && title == PageTitle(file);
    sections := [];
    for j := 0 to |headings|
      invariant sections == SectionEntries(file, headings[..j])
    {
      assert headings[..j + 1][..j] == headings[..j];
      var h := headings[j];
      var excerpt := GetHeadingExcerpt(file.content, h.text);
      var entry := IndexEntry(Section, realSlug, title, None, None, Some(h.text), Some(h.anchor), Some(excerpt), Some(h.level));
      assert entry == SectionEntry(file, h);
      sections := sections + [entry];
    }
    assert headings[..|headings|] == headings;
  }

  /** A page entry carries the slug without `.mdx` (`index` as the empty
      slug), the title or the file name, and at most 8000 lowercased
      characters of the body. */
  lemma PageEntryShape(f: DocFile)
    requires EndsWith(f.name, ".mdx")
    ensures var e := PageEntry(f);
            e.kind == Page
            && (f.name == "index.mdx" ==> e.slug == "")
            && (f.name != "index.mdx" ==> e.slug + ".mdx" == f.name)
            && (OrEmpty(f.title) == "" ==> e.title + ".mdx" == f.name)
            && |e.content.value| <= ContentLimit && IsLowerStr(e.content.value)
            && e.content.value <= Lower(f.content)
  {
    var slug := f.name[..|f.name| - 4];
    assert f.name[|f.name| - 4..] == ".mdx";
    assert slug + ".mdx" == f.name;
    LowerIsLower(f.content);
    if f.name == "index.mdx" {
      assert slug == "index";
    }
  }

  /** Every section entry is found by a search for its own heading text. */
  lemma SectionFindable(f: DocFile, h: Heading)
    requires EndsWith(f.name, ".mdx")
    ensures IsHit(SectionEntry(f, h), Lower(h.text))
  {
    LowerIsLower(h.text);
  }

  /** The index grows file by file: an `.mdx` file adds its own entries at
      the end, any other file adds nothing. */
  lemma IndexOfAppend(files: seq<DocFile>, f: DocFile)
    ensures IndexOf(files + [f]) == IndexOf(files) + (if EndsWith(f.name, ".mdx") then FileEntries(f) else [])
  {
    assert (files + [f])[..|files|] == files;
  }

  /** A file contributes its page entry, then one section entry per
      heading, in the order of the headings. */
  lemma FileEntriesShape(f: DocFile, j: int)
    requires EndsWith(f.name, ".mdx") && 0 <= j < |HeadingsOf(Split(f.content, '\n'))|
    ensures |FileEntries(f)| == 1 + |HeadingsOf(Split(f.content, '\n'))|
    ensures FileEntries(f)[0] == PageEntry(f)
    ensures FileEntries(f)[j + 1] == SectionEntry(f, HeadingsOf(Split(f.content, '\n'))[j])
  {
    SectionEntriesAt(f, HeadingsOf(Split(f.content, '\n')), j);
  }

  lemma {:induction false} SectionEntriesAt(f: DocFile, hs: seq<Heading>, j: int)
    requires EndsWith(f.name, ".mdx") && 0 <= j < |hs|
    ensures SectionEntries(f, hs)[j] == SectionEntry(f, hs[j])
  {
    if j < |hs| - 1 {
      SectionEntriesAt(f, hs[..|hs| - 1], j);
    }
  }
}
