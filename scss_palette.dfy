/** The generated `material_colors.scss` palette file: one `$name: #RRGGBB;`
    declaration per colour role and a `$darkmode: True|False;` flag. The same
    line pattern and fill loop are used by the Chromium theme manager and,
    twice, by the VS Code settings generator. A file is given as its lines;
    None stands for a file that does not exist. */
module ScssPalette {
  import opened Text
  import opened Wrappers
  import opened HexColor

  /** The regex class \w, ASCII part: a str pattern also takes the Unicode
      letters and digits, which are not modelled. */
  predicate IsWordChar(c: char) {
    'a' <= c <= 'z' || 'A' <= c <= 'Z' || '0' <= c <= '9' || c == '_'
  }

  /** The regex class \s of a str pattern: the characters str.isspace accepts,
      which are \t to \r, \x1c to \x1f, space, \x85, \xa0, U+1680,
      U+2000 to U+200A, U+2028, U+2029, U+202F, U+205F and U+3000. */
  predicate IsRegexSpace(c: char) {
    IsSpace(c) || '\U{1C}' <= c <= '\U{1F}' || c == '\U{85}' || c == '\U{A0}' || c == '\U{1680}'
    || '\U{2000}' <= c <= '\U{200A}' || c == '\U{2028}' || c == '\U{2029}' || c == '\U{202F}'
    || c == '\U{205F}' || c == '\U{3000}'
  }

  predicate AllRegexSpace(s: string) {
    forall i :: 0 <= i < |s| ==> IsRegexSpace(s[i])
  }

  predicate AllWord(s: string) {
    forall i :: 0 <= i < |s| ==> IsWordChar(s[i])
  }

  /** End of the longest run of word characters starting at i. */
  function WordEnd(s: string, i: nat): (e: nat)
    requires i <= |s|
    ensures i <= e <= |s|
    ensures forall k :: i <= k < e ==> IsWordChar(s[k])
    ensures e == |s| || !IsWordChar(s[e])
    decreases |s| - i
  {
    if i < |s| && IsWordChar(s[i]) then WordEnd(s, i + 1) else i
  }

  /** End of the longest run of \s characters starting at i. */
  function SpaceEnd(s: string, i: nat): (e: nat)
    requires i <= |s|
    ensures i <= e <= |s|
    ensures forall k :: i <= k < e ==> IsRegexSpace(s[k])
    ensures e == |s| || !IsRegexSpace(s[e])
    decreases |s| - i
  {
    if i < |s| && IsRegexSpace(s[i]) then SpaceEnd(s, i + 1) else i
  }

  lemma {:induction false} WordEndAt(s: string, i: nat, j: nat)
    requires i <= j < |s| && (forall k :: i <= k < j ==> IsWordChar(s[k])) && !IsWordChar(s[j])
    ensures WordEnd(s, i) == j
    decreases j - i
  {
    if i < j {
      WordEndAt(s, i + 1, j);
    }
  }

  lemma {:induction false} SpaceEndAt(s: string, i: nat, j: nat)
    requires i <= j < |s| && (forall k :: i <= k < j ==> IsRegexSpace(s[k])) && !IsRegexSpace(s[j])
    ensures SpaceEnd(s, i) == j
    decreases j - i
  {
    if i < j {
      SpaceEndAt(s, i + 1, j);
    }
  }

  /** re.match(r"\$(\w+):\s*(#[A-Fa-f0-9]{6});", s): the match is anchored at
      the start only, so anything may follow the ';'. Yields (name, value). */
  function MatchColorDecl(s: string): Option<(string, string)> {
    if |s| == 0 || s[0] != '$' then None
    else
      var e := WordEnd(s, 1);
      if e == 1 || e == |s| || s[e] != ':' then None
      else
        var w := SpaceEnd(s, e + 1);
        if w + 8 <= |s| && IsHexColor(s[w..w + 7]) && s[w + 7] == ';' then
          Some((s[1..e], s[w..w + 7]))
        else None
  }

  /** s begins with `$name:`, `\s` characters, a `#RRGGBB` value and `;`. */
  ghost predicate Declares(s: string, name: string, blanks: string, value: string) {
    |name| >= 1 && AllWord(name) && AllRegexSpace(blanks) && IsHexColor(value)
    && StartsWith(s, "$" + name + ":" + blanks + value + ";")
  }

  /** Every match is such a declaration... */
  lemma MatchColorDeclSound(s: string)
    requires MatchColorDecl(s).Some?
    ensures exists blanks :: Declares(s, MatchColorDecl(s).value.0, blanks, MatchColorDecl(s).value.1)
  {
    var e := WordEnd(s, 1);
    var w := SpaceEnd(s, e + 1);
    DeclaresAt(s, e, w);
  }

  /** The pieces a match finds form a declaration. */
  lemma DeclaresAt(s: string, e: nat, w: nat)
    requires 1 < e < w + 1 && w + 8 <= |s| && s[0] == '$' && s[e] == ':' && s[w + 7] == ';'
    requires forall k :: 1 <= k < e ==> IsWordChar(s[k])
    requires forall k :: e + 1 <= k < w ==> IsRegexSpace(s[k])
    requires IsHexColor(s[w..w + 7])
    ensures Declares(s, s[1..e], s[e + 1..w], s[w..w + 7])
  {
    var name, blanks, value := s[1..e], s[e + 1..w], s[w..w + 7];
    SliceSplit(s, 1, e);
    SliceSplit(s, e, e + 1);
    SliceSplit(s, e + 1, w);
    SliceSplit(s, w, w + 7);
    SliceSplit(s, w + 7, w + 8);
    assert s[..1] == "$" && s[e..e + 1] == ":" && s[w + 7..w + 8] == ";";
    assert s[..w + 8] == "$" + name + ":" + blanks + value + ";";
    assert forall i :: 0 <= i < |blanks| ==> blanks[i] == s[e + 1 + i];
    assert forall i :: 0 <= i < |name| ==> name[i] == s[1 + i];
  }

  lemma SliceSplit(s: string, j: nat, k: nat)
    requires j <= k <= |s|
    ensures s[..k] == s[..j] + s[j..k]
  {
  }

  /** ...and every such declaration matches, with its own name and value. */
  lemma MatchColorDeclComplete(s: string, name: string, blanks: string, value: string)
    requires Declares(s, name, blanks, value)
    ensures MatchColorDecl(s) == Some((name, value))
  {
    var d := "$" + name + ":" + blanks + value + ";";
    var e := 1 + |name|;
    assert s[1..e] == name by { assert d[1..e] == name; }
    assert s[e] == d[e] == ':';
    var w := e + 1 + |blanks|;
    assert s[e + 1..w] == blanks by { assert d[e + 1..w] == blanks; }
    assert s[w..w + 7] == value by { assert d[w..w + 7] == value; }
    assert s[w + 7] == d[w + 7] == ';';
    assert forall k :: 1 <= k < e ==> s[k] == name[k - 1];
    assert forall k :: e + 1 <= k < w ==> s[k] == blanks[k - e - 1];
    MatchAt(s, e, w);
  }

  /** The matcher, on a line whose pieces sit at known places. */
  lemma MatchAt(s: string, e: nat, w: nat)
    requires 1 < e < w + 1 && w + 8 <= |s| && s[0] == '$' && s[e] == ':' && s[w + 7] == ';'
    requires forall k :: 1 <= k < e ==> IsWordChar(s[k])
    requires forall k :: e + 1 <= k < w ==> IsRegexSpace(s[k])
    requires IsHexColor(s[w..w + 7])
    ensures MatchColorDecl(s) == Some((s[1..e], s[w..w + 7]))
  {
    WordEndAt(s, 1, e);
    assert s[w] == s[w..w + 7][0];
    SpaceEndAt(s, e + 1, w);
  }

  /** re.match(r"\$darkmode:\s*(True|False);", s) */
  function MatchDarkFlag(s: string): Option<bool> {
    if !StartsWith(s, "$darkmode:") then None
    else
      var w := SpaceEnd(s, 10);
      if StartsWith(s[w..], "True;") then Some(true)
      else if StartsWith(s[w..], "False;") then Some(false)
      else None
  }

  lemma MatchDarkFlagExact(s: string, blanks: string, flag: bool)
    requires AllRegexSpace(blanks)
    ensures MatchDarkFlag("$darkmode:" + blanks + (if flag then "True;" else "False;") + s) == Some(flag)
  {
    var t := "$darkmode:" + blanks + (if flag then "True;" else "False;") + s;
    assert t[10 + |blanks|] == (if flag then 'T' else 'F');
    SpaceEndAt(t, 10, 10 + |blanks|);
    assert t[10 + |blanks|..] == (if flag then "True;" else "False;") + s;
  }

  /** The colour a stripped line declares, if any. */
  function LineDecl(line: string): Option<(string, string)> {
    MatchColorDecl(Strip(line))
  }

  /** The declaration found on each line, in file order. */
  function Decls(lines: seq<string>): (ds: seq<Option<(string, string)>>)
    ensures |ds| == |lines| && forall i :: 0 <= i < |lines| ==> ds[i] == LineDecl(lines[i])
  {
    seq(|lines|, i requires 0 <= i < |lines| => LineDecl(lines[i]))
  }

  /** The palette after recording the declarations in order: each one sets
      its name, so a later declaration of the same name wins. */
  function Fold(ds: seq<Option<(string, string)>>): map<string, string> {
    if ds == [] then map[]
    else
      var m := Fold(ds[..|ds| - 1]);
      var d := ds[|ds| - 1];
      if d.Some? then m[d.value.0 := d.value.1] else m
  }

  /** parse_scss_colors' result for a file of `lines`. */
  function ColorsOf(lines: seq<string>): map<string, string> {
    Fold(Decls(lines))
  }

  /** Whether line i declares `name`. */
  predicate DeclaresName(lines: seq<string>, i: int, name: string)
    requires 0 <= i < |lines|
  {
    var d := LineDecl(lines[i]);
    d.Some? && d.value.0 == name
  }

  /** Every value in a parsed palette is a `#RRGGBB` colour. */
  predicate ValidPalette(m: map<string, string>) {
    forall k :: k in m ==> IsHexColor(m[k])
  }

  lemma MatchColorDeclValue(s: string)
    requires MatchColorDecl(s).Some?
    ensures IsHexColor(MatchColorDecl(s).value.1) && |MatchColorDecl(s).value.0| >= 1
  {
  }

  lemma {:induction false} FoldValid(ds: seq<Option<(string, string)>>)
    requires forall i :: 0 <= i < |ds| && ds[i].Some? ==> IsHexColor(ds[i].value.1)
    ensures ValidPalette(Fold(ds))
  {
    if ds != [] {
      FoldValid(ds[..|ds| - 1]);
    }
  }

  lemma ColorsOfValid(lines: seq<string>)
    ensures ValidPalette(ColorsOf(lines))
  {
    var ds := Decls(lines);
    forall i | 0 <= i < |ds| && ds[i].Some?
      ensures IsHexColor(ds[i].value.1)
    {
      MatchColorDeclValue(Strip(lines[i]));
    }
    FoldValid(ds);
  }

  lemma {:induction false} FoldDomain(ds: seq<Option<(string, string)>>, name: string)
    ensures name in Fold(ds) <==> exists i :: 0 <= i < |ds| && ds[i].Some? && ds[i].value.0 == name
  {
    if ds != [] {
      var init := ds[..|ds| - 1];
      FoldDomain(init, name);
      assert forall i :: 0 <= i < |init| ==> init[i] == ds[i];
    }
  }

  lemma {:induction false} FoldLastWins(ds: seq<Option<(string, string)>>, name: string, i: int)
    requires 0 <= i < |ds| && ds[i].Some? && ds[i].value.0 == name
    requires forall j :: i < j < |ds| ==> ds[j].None? || ds[j].value.0 != name
    ensures name in Fold(ds) && Fold(ds)[name] == ds[i].value.1
  {
    var init := ds[..|ds| - 1];
    if i < |ds| - 1 {
      assert forall j :: 0 <= j < |init| ==> init[j] == ds[j];
      FoldLastWins(init, name, i);
    }
  }

  /** A name is in the palette exactly when some line declares it... */
  lemma ColorsOfDomain(lines: seq<string>, name: string)
    ensures name in ColorsOf(lines) <==> exists i :: 0 <= i < |lines| && DeclaresName(lines, i, name)
  {
    var ds := Decls(lines);
    FoldDomain(ds, name);
    assert forall i :: 0 <= i < |lines| ==> (DeclaresName(lines, i, name) <==> ds[i].Some? && ds[i].value.0 == name);
  }

  /** ...and its value is the one on the last line that declares it. */
  lemma ColorsOfLastWins(lines: seq<string>, name: string, i: int)
    requires 0 <= i < |lines| && DeclaresName(lines, i, name)
    requires forall j :: i < j < |lines| ==> !DeclaresName(lines, j, name)
    ensures name in ColorsOf(lines) && ColorsOf(lines)[name] == LineDecl(lines[i]).value.1
  {
    var ds := Decls(lines);
    assert forall j :: 0 <= j < |lines| ==> (DeclaresName(lines, j, name) <==> ds[j].Some? && ds[j].value.0 == name);
    FoldLastWins(ds, name, i);
  }

  /** parse_scss_colors: read the lines in order and record every declaration;
      a missing file gives the empty palette. */
  method ParseScssColors(file: Option<seq<string>>) returns (colors: map<string, string>)
    ensures file.None? ==> colors == map[]
    ensures file.Some? ==> colors == ColorsOf(file.value)
    ensures ValidPalette(colors)
  {
    colors := map[];
    if file.None? {
      return;
    }
    var lines := file.value;
    ghost var ds := Decls(lines);
    for i := 0 to |lines|
      invariant colors == Fold(ds[..i])
    {
      assert ds[..i + 1][..i] == ds[..i];
      var m := LineDecl(lines[i]);
      if m.Some? {
        colors := colors[m.value.0 := m.value.1];
      }
    }
    assert ds[..|lines|] == ds;
    ColorsOfValid(lines);
  }
}
