/** The SDDM login theme synchroniser: it reads the Material You palette and
    the shell's config, rewrites the `key=value` lines of the theme's
    `theme.conf`, and decides whether the wallpaper is a video whose first
    frame must be extracted. Files are given as values; a JSON file is
    Missing, Unparseable or Parsed. */
module SddmSync {
  import opened Text
  import opened Wrappers
  import opened JsonValue

  // ---------------------------------------------------------------- colors.json

  /** The keys theme.conf uses, the palette roles they are read from, and the
      value used when a role is absent. */
  const ThemeKeys: seq<string> := [
    "primaryColor", "onPrimaryColor", "surfaceColor", "surfaceContainerColor",
    "onSurfaceColor", "onSurfaceVariantColor", "backgroundColor", "errorColor"]
  const RoleKeys: seq<string> := [
    "primary", "on_primary", "surface", "surface_container",
    "on_surface", "on_surface_variant", "background", "error"]
  const RoleDefaults: seq<string> := [
    "#cba6f7", "#1e1e2e", "#1e1e2e", "#181825", "#cdd6f4", "#9399b2", "#1e1e2e", "#f38ba8"]

  /** The eight theme entries read from one palette object. */
  function ThemeFrom(palette: map<string, Json>): (t: seq<(string, Json)>)
    ensures |t| == 8
    ensures forall i :: 0 <= i < 8 ==> t[i].0 == ThemeKeys[i]
    ensures forall i :: 0 <= i < 8 && RoleKeys[i] in palette ==> t[i].1 == palette[RoleKeys[i]]
    ensures forall i :: 0 <= i < 8 && RoleKeys[i] !in palette ==> t[i].1 == JStr(RoleDefaults[i])
  {
    seq(8, i requires 0 <= i < 8 => (ThemeKeys[i], Field(palette, RoleKeys[i], JStr(RoleDefaults[i]))))
  }

  /** What read_colors gives: None, the theme entries, or an exception (the
      document is not valid JSON, or an object is expected where the
      document has something else). */
  datatype ColorsRead = NoColors | ColorsRaised | Palette(entries: seq<(string, Json)>)

  /** The `colors` object of a document, if it is one. */
  function Nested(root: map<string, Json>): Json {
    Field(root, "colors", JObj(map[]))
  }

  /** read_colors */
  function ReadColors(file: JsonFile): (r: ColorsRead)
    ensures r.Palette? ==> |r.entries| == 8 && forall i :: 0 <= i < 8 ==> r.entries[i].0 == ThemeKeys[i]
    ensures file.Missing? ==> r.NoColors?
    ensures r.ColorsRaised? <==>
              file.Unparseable?
              || (file.Parsed? && (!file.doc.JObj? || !Nested(file.doc.fields).JObj?
                  || (var dark := Field(Nested(file.doc.fields).fields, "dark", JObj(map[]));
                      Truthy(dark) && !dark.JObj?)))
  {
    match file
    case Missing => NoColors
    case Unparseable => ColorsRaised
    case Parsed(root) =>
      if !root.JObj? then ColorsRaised
      else
        var colors := Nested(root.fields);
        if !colors.JObj? then ColorsRaised
        else
          var dark := Field(colors.fields, "dark", JObj(map[]));
          if !Truthy(dark) then
            if "primary" in root.fields || "on_surface" in root.fields then Palette(ThemeFrom(root.fields))
            else NoColors
          else if dark.JObj? then Palette(ThemeFrom(dark.fields))
          else ColorsRaised
  }

  /** A non-empty nested `colors.dark` object is used even when the root also
      carries flat roles. */
  lemma NestedPreferred(root: map<string, Json>, dark: map<string, Json>)
    requires Nested(root).JObj? && "dark" in Nested(root).fields && Nested(root).fields["dark"] == JObj(dark)
    requires |dark| > 0
    ensures ReadColors(Parsed(JObj(root))) == Palette(ThemeFrom(dark))
  {
  }

  /** Without a nested palette the root is used only when it has `primary` or
      `on_surface`; otherwise there are no colours. */
  lemma FlatNeedsMarker(root: map<string, Json>)
    requires Nested(root).JObj? && !Truthy(Field(Nested(root).fields, "dark", JObj(map[])))
    ensures ReadColors(Parsed(JObj(root))).Palette? <==> "primary" in root || "on_surface" in root
    ensures ReadColors(Parsed(JObj(root))).Palette? ==> ReadColors(Parsed(JObj(root))).entries == ThemeFrom(root)
    ensures ReadColors(Parsed(JObj(root))).NoColors? <==> !("primary" in root || "on_surface" in root)
  {
  }

  // ---------------------------------------------------------------- config.json

  /** `(config.get(key, {}) or {})` as a dict: None when the file is missing
      or unreadable, or when the lookup would raise. */
  function Section(config: JsonFile, key: string): (s: Option<map<string, Json>>)
    ensures s.Some? ==> config.Parsed? && config.doc.JObj?
  {
    if !config.Parsed? || !config.doc.JObj? then None
    else
      var v := Field(config.doc.fields, key, JObj(map[]));
      if !Truthy(v) then Some(map[])
      else if v.JObj? then Some(v.fields)
      else None
  }

  const FilePrefix := "file://"

  /** read_wallpaper: background.wallpaperPath with one `file://` removed,
      if it names an existing file. Every failure gives None. */
  function ReadWallpaper(config: JsonFile, isFile: string -> bool): (r: Option<string>)
    ensures r.Some? ==> r.value != "" && isFile(r.value)
  {
    var sec := Section(config, "background");
    if sec.None? then None
    else
      var p := Field(sec.value, "wallpaperPath", JStr(""));
      if !p.JStr? then None
      else
        var path := if StartsWith(p.s, FilePrefix) then p.s[7..] else p.s;
        if path != "" && isFile(path) then Some(path) else None
  }

  /** Exactly one `file://` is removed, whatever follows it. */
  lemma WallpaperStripsOnePrefix(config: JsonFile, isFile: string -> bool, rest: string)
    requires Section(config, "background").Some?
    requires Field(Section(config, "background").value, "wallpaperPath", JStr("")) == JStr(FilePrefix + rest)
    requires rest != "" && isFile(rest)
    ensures ReadWallpaper(config, isFile) == Some(rest)
  {
    assert (FilePrefix + rest)[7..] == rest;
  }

  /** A path without the prefix is kept as it is. */
  lemma WallpaperPlainPath(config: JsonFile, isFile: string -> bool, path: string)
    requires Section(config, "background").Some?
    requires Field(Section(config, "background").value, "wallpaperPath", JStr("")) == JStr(path)
    requires !StartsWith(path, FilePrefix)
    ensures ReadWallpaper(config, isFile) == (if path != "" && isFile(path) then Some(path) else None)
  {
  }

  /** read_material_shape_chars: the text "true" or "false" for the
      truthiness of lock.materialShapeChars, "false" on any failure. */
  function ReadMaterialShapeChars(config: JsonFile): (r: string)
    ensures r == "true" || r == "false"
    ensures r == "true" <==> (Section(config, "lock").Some?
                             && Truthy(Field(Section(config, "lock").value, "materialShapeChars", JBool(false))))
  {
    var sec := Section(config, "lock");
    if sec.None? then "false"
    else if Truthy(Field(sec.value, "materialShapeChars", JBool(false))) then "true"
    else "false"
  }

  // ---------------------------------------------------------------- theme.conf

  /** A dict in insertion order. */
  type Assoc = seq<(string, string)>

  predicate UniqueKeys(r: Assoc) {
    forall i, j :: 0 <= i < j < |r| ==> r[i].0 != r[j].0
  }

  /** d[key] = value: replace in place, or append a new key. */
  function SetKey(r: Assoc, key: string, value: string): (s: Assoc)
    ensures (key, value) in s
    ensures forall e :: e in s && e.0 != key ==> e in r
    ensures forall e :: e in r && e.0 != key ==> e in s
    ensures UniqueKeys(r) ==> UniqueKeys(s)
  {
    if r == [] then [(key, value)]
    else if r[0].0 == key then [(key, value)] + r[1..]
    else [r[0]] + SetKey(r[1..], key, value)
  }

  /** `remaining` before the rewrite: the colours plus materialShapeChars. */
  function Pending(colors: Assoc, shapeChars: string): (r: Assoc)
    ensures ("materialShapeChars", shapeChars) in r
  {
    SetKey(colors, "materialShapeChars", shapeChars)
  }

  function Render(e: (string, string)): string {
    e.0 + "=" + e.1
  }

  function RenderAll(r: Assoc): (s: seq<string>)
    ensures |s| == |r| && forall i :: 0 <= i < |r| ==> s[i] == Render(r[i])
  {
    seq(|r|, i requires 0 <= i < |r| => Render(r[i]))
  }

  /** The stripped line starts with `key=`. */
  predicate Matches(line: string, key: string) {
    StartsWith(Strip(line), key + "=")
  }

  /** The first pending key that a stripped line starts with. */
  function FirstMatch(s: string, r: Assoc): (f: Option<nat>)
    ensures f.Some? ==> f.value < |r| && StartsWith(s, r[f.value].0 + "=")
    ensures f.Some? ==> forall k :: 0 <= k < f.value ==> !StartsWith(s, r[k].0 + "=")
    ensures f.None? ==> forall k :: 0 <= k < |r| ==> !StartsWith(s, r[k].0 + "=")
  {
    if r == [] then None
    else if StartsWith(s, r[0].0 + "=") then Some(0)
    else
      var f := FirstMatch(s, r[1..]);
      if f.Some? then Some(f.value + 1) else None
  }

  /** One pass of the outer loop: the line and the pending keys after it. */
  function Step(line: string, r: Assoc): (string, Assoc) {
    var f := FirstMatch(Strip(line), r);
    if f.Some? then (Render(r[f.value]), r[..f.value] + r[f.value + 1..]) else (line, r)
  }

  /** The outer loop over `lines`: the new lines and the keys left pending. */
  function Rewrite(lines: seq<string>, r: Assoc): (w: (seq<string>, Assoc))
    ensures |w.0| == |lines|
  {
    if lines == [] then ([], r)
    else
      var prev := Rewrite(lines[..|lines| - 1], r);
      var next := Step(lines[|lines| - 1], prev.1);
      (prev.0 + [next.0], next.1)
  }

  /** update_theme_conf's new lines: the rewritten lines, then one `key=value`
      per key still pending. */
  function Updated(lines: seq<string>, r: Assoc): (u: seq<string>)
    ensures |u| == |lines| + |Rewrite(lines, r).1|
  {
    var w := Rewrite(lines, r);
    w.0 + RenderAll(w.1)
  }

  /** The file content after the rewrite. */
  function NewContent(content: string, r: Assoc): string {
    Join(Updated(Split(content, '\n'), r), "\n")
  }

  /** The inner loop of update_theme_conf: the first pending key the
      stripped line starts with. */
  method FindPending(stripped: string, remaining: Assoc) returns (found: Option<nat>)
    ensures found == FirstMatch(stripped, remaining)
  {
    var j := 0;
    while j < |remaining|
      invariant 0 <= j <= |remaining|
      invariant forall k :: 0 <= k < j ==> !StartsWith(stripped, remaining[k].0 + "=")
    {
      if StartsWith(stripped, remaining[j].0 + "=") {
        return Some(j);
      }
      j := j + 1;
    }
    return None;
  }

  /** Sequence facts, proved once for any element type. */
  lemma SnocLast<T>(s: seq<T>)
    requires |s| > 0
    ensures s[..|s| - 1] + [s[|s| - 1]] == s
  {
  }

  lemma ConsTail<T>(s: seq<T>)
    requires |s| > 0
    ensures [s[0]] + s[1..] == s
  {
  }

  lemma ConsAppend<T>(a: seq<T>, b: seq<T>)
    requires |a| > 0
    ensures a + b == [a[0]] + (a[1..] + b)
  {
  }

  lemma AppendAssoc<T>(x: seq<T>, y: seq<T>, z: seq<T>)
    ensures (x + y) + z == x + (y + z)
  {
  }

  lemma ConsSnoc<T>(s: seq<T>, x: T)
    requires |s| > 0
    ensures [s[0]] + (s[1..] + [x]) == s + [x]
  {
  }

  lemma RenderAllSnoc(r: Assoc, k: int)
    requires 0 <= k < |r|
    ensures RenderAll(r[..k + 1]) == RenderAll(r[..k]) + [Render(r[k])]
  {
  }

  lemma RewriteSnoc(lines: seq<string>, i: int, r: Assoc)
    requires 0 <= i < |lines|
    ensures Rewrite(lines[..i + 1], r)
         == (Rewrite(lines[..i], r).0 + [Step(lines[i], Rewrite(lines[..i], r).1).0],
             Step(lines[i], Rewrite(lines[..i], r).1).1)
  {
    assert lines[..i + 1][..i] == lines[..i];
  }

  /** The outer loop of update_theme_conf: each line either claims the first
      pending key it starts with, and is replaced by `key=value`, or is kept. */
  method RewritePass(lines: seq<string>, pending: Assoc) returns (newLines: seq<string>, remaining: Assoc)
    ensures (newLines, remaining) == Rewrite(lines, pending)
  {
    remaining := pending;
    newLines := [];
    for i := 0 to |lines|
      invariant newLines == Rewrite(lines[..i], pending).0
      invariant remaining == Rewrite(lines[..i], pending).1
    {
      RewriteSnoc(lines, i, pending);
      var line := lines[i];
      var found := FindPending(Strip(line), remaining);
      if found.Some? {
        var j := found.value;
        newLines := newLines + [Render(remaining[j])];
        remaining := remaining[..j] + remaining[j + 1..];
      } else {
        newLines := newLines + [line];
      }
    }
    assert lines[..|lines|] == lines;
  }

  /** The closing loop of update_theme_conf: one `key=value` line per key
      still pending, in order. */
  method AppendPending(kept: seq<string>, remaining: Assoc) returns (newLines: seq<string>)
    ensures newLines == kept + RenderAll(remaining)
  {
    newLines := kept;
    for k := 0 to |remaining|
      invariant newLines == kept + RenderAll(remaining[..k])
    {
      RenderAllSnoc(remaining, k);
      newLines := newLines + [Render(remaining[k])];
    }
    assert remaining[..|remaining|] == remaining;
  }

  /** update_theme_conf. The content it writes is `content`; `ok` is False
      when theme.conf does not exist or writing it fails. */
  method UpdateThemeConf(conf: Option<string>, colors: Assoc, shapeChars: string, writeSucceeds: bool)
    returns (ok: bool, content: Option<string>)
    ensures conf.None? ==> !ok && content.None?
    ensures conf.Some? ==> content == Some(NewContent(conf.value, Pending(colors, shapeChars))) && ok == writeSucceeds
  {
    if conf.None? {
      return false, None;
    }
    var lines := Split(conf.value, '\n');
    var rewritten, remaining := RewritePass(lines, Pending(colors, shapeChars));
    var newLines := AppendPending(rewritten, remaining);
    return writeSucceeds, Some(Join(newLines, "\n"));
  }

  // ------------------------------------------------- what the rewrite does

  /** No line of `ls` matches `key`. */
  predicate NoMatch(ls: seq<string>, key: string) {
    forall i :: 0 <= i < |ls| ==> !Matches(ls[i], key)
  }

  /** The pending keys, in order, that no line of `ls` matches. */
  function Unmatched(r: Assoc, ls: seq<string>): Assoc {
    if r == [] then []
    else (if NoMatch(ls, r[0].0) then [r[0]] else []) + Unmatched(r[1..], ls)
  }

  /** Unmatched keeps exactly the entries no line matches... */
  lemma {:induction false} UnmatchedMembers(r: Assoc, ls: seq<string>)
    ensures forall e :: e in Unmatched(r, ls) <==> e in r && NoMatch(ls, e.0)
  {
    if r != [] {
      UnmatchedMembers(r[1..], ls);
      ConsTail(r);
    }
  }

  /** ...and keeps keys distinct. */
  lemma {:induction false} UnmatchedUnique(r: Assoc, ls: seq<string>)
    requires UniqueKeys(r)
    ensures UniqueKeys(Unmatched(r, ls))
  {
    if r != [] {
      var t := r[1..];
      UnmatchedUnique(t, ls);
      if NoMatch(ls, r[0].0) {
        UnmatchedMembers(t, ls);
        var rest := Unmatched(t, ls);
        forall e | e in rest
          ensures e.0 != r[0].0
        {
          var k :| 0 <= k < |t| && t[k] == e;
          assert r[k + 1] == e;
        }
        ConsUnique(r[0], rest);
      }
    }
  }

  lemma ConsUnique(x: (string, string), u: Assoc)
    requires UniqueKeys(u) && forall e :: e in u ==> e.0 != x.0
    ensures UniqueKeys([x] + u)
  {
    var v := [x] + u;
    forall i, j | 0 <= i < j < |v|
      ensures v[i].0 != v[j].0
    {
      if i == 0 {
        assert v[j] == u[j - 1];
        assert u[j - 1] in u;
      } else {
        assert v[i] == u[i - 1] && v[j] == u[j - 1];
      }
    }
  }

  /** Keys of theme.conf: distinct, starting with a non-blank, without `=`,
      and neither keys nor values hold a line break. */
  predicate WellFormed(r: Assoc) {
    UniqueKeys(r)
    && forall i :: 0 <= i < |r| ==>
         |r[i].0| > 0 && !IsSpace(r[i].0[0]) && '=' !in r[i].0 && '\n' !in r[i].0 && '\n' !in r[i].1
  }

  /** Line i of the result: the first line that matches a pending key becomes
      `key=value`; every other line is kept. */
  function Expected(lines: seq<string>, i: int, r: Assoc): string
    requires 0 <= i < |lines|
  {
    var f := FirstMatch(Strip(lines[i]), r);
    if f.Some? && NoMatch(lines[..i], r[f.value].0) then Render(r[f.value]) else lines[i]
  }

  /** A line starts with `key=` for at most one key without `=`. */
  lemma PrefixKeys(s: string, k1: string, k2: string)
    requires '=' !in k1 && '=' !in k2
    requires StartsWith(s, k1 + "=") && StartsWith(s, k2 + "=")
    ensures k1 == k2
  {
    KeyPrefix(s, k1);
    KeyPrefix(s, k2);
  }

  lemma KeyPrefix(s: string, k: string)
    requires StartsWith(s, k + "=")
    ensures |k| < |s| && s[|k|] == '=' && s[..|k|] == k
    ensures forall j :: 0 <= j < |k| ==> k[j] == s[j]
  {
    assert s[..|k| + 1] == k + "=";
    assert s[..|k|] == (k + "=")[..|k|] == k;
  }

  /** A rendered entry matches its own key... */
  lemma RenderMatches(e: (string, string))
    requires |e.0| > 0 && !IsSpace(e.0[0])
    ensures Matches(Render(e), e.0)
  {
    var s := Render(e);
    assert s[|e.0|] == '=' && s[0] == e.0[0];
    StripKeepsPrefix(s, |e.0|);
    assert s[..|e.0| + 1] == e.0 + "=";
  }

  /** ...and no other key. */
  lemma RenderMatchesOnly(e: (string, string), key: string)
    requires |e.0| > 0 && !IsSpace(e.0[0]) && '=' !in e.0 && '=' !in key
    ensures Matches(Render(e), key) <==> key == e.0
  {
    RenderMatches(e);
    if Matches(Render(e), key) {
      PrefixKeys(Strip(Render(e)), key, e.0);
    }
  }

  /** With unique keys, the only pending index matching a line is the first. */
  lemma FirstMatchIs(s: string, r: Assoc, p: int)
    requires WellFormed(r) && 0 <= p < |r| && StartsWith(s, r[p].0 + "=")
    ensures FirstMatch(s, r) == Some(p)
  {
    var f := FirstMatch(s, r);
    PrefixKeys(s, r[f.value].0, r[p].0);
  }

  lemma {:induction false} UnmatchedExt(r: Assoc, ls1: seq<string>, ls2: seq<string>)
    requires forall i :: 0 <= i < |r| ==> (NoMatch(ls1, r[i].0) <==> NoMatch(ls2, r[i].0))
    ensures Unmatched(r, ls1) == Unmatched(r, ls2)
  {
    if r != [] {
      UnmatchedExt(r[1..], ls1, ls2);
    }
  }

  function RemoveKey(r: Assoc, key: string): Assoc {
    if r == [] then [] else (if r[0].0 == key then [] else [r[0]]) + RemoveKey(r[1..], key)
  }

  lemma {:induction false} RemoveAtIsRemoveKey(r: Assoc, q: int)
    requires UniqueKeys(r) && 0 <= q < |r|
    ensures r[..q] + r[q + 1..] == RemoveKey(r, r[q].0)
  {
    if q == 0 {
      RemoveAbsent(r[1..], r[0].0);
    } else {
      RemoveAtIsRemoveKey(r[1..], q - 1);
      assert r[1..][..q - 1] + r[1..][q..] == (r[..q] + r[q + 1..])[1..];
    }
  }

  lemma {:induction false} RemoveAbsent(r: Assoc, key: string)
    requires forall i :: 0 <= i < |r| ==> r[i].0 != key
    ensures RemoveKey(r, key) == r
  {
    if r != [] {
      RemoveAbsent(r[1..], key);
    }
  }

  lemma {:induction false} UnmatchedAddLine(r: Assoc, ls: seq<string>, line: string, key: string)
    requires forall i :: 0 <= i < |r| ==> (Matches(line, r[i].0) <==> r[i].0 == key)
    ensures Unmatched(r, ls + [line]) == RemoveKey(Unmatched(r, ls), key)
  {
    if r != [] {
      UnmatchedAddLine(r[1..], ls, line, key);
      NoMatchSnoc(ls, line, r[0].0);
      var head := if NoMatch(ls, r[0].0) then [r[0]] else [];
      assert Unmatched(r, ls) == head + Unmatched(r[1..], ls);
      RemoveKeyAppend(head, Unmatched(r[1..], ls), key);
    }
  }

  lemma {:induction false} RemoveKeyAppend(a: Assoc, b: Assoc, key: string)
    ensures RemoveKey(a + b, key) == RemoveKey(a, key) + RemoveKey(b, key)
  {
    if a == [] {
      assert a + b == b;
    } else {
      var t := a[1..];
      ConsAppend(a, b);
      ConsTail(a);
      RemoveKeyAppend(t, b, key);
      RemoveKeyCons(a[0], t + b, key);
      RemoveKeyCons(a[0], t, key);
      AppendAssoc(if a[0].0 == key then [] else [a[0]], RemoveKey(t, key), RemoveKey(b, key));
    }
  }

  lemma RemoveKeyCons(e: (string, string), r: Assoc, key: string)
    ensures RemoveKey([e] + r, key) == (if e.0 == key then [] else [e]) + RemoveKey(r, key)
  {
    assert ([e] + r)[1..] == r;
  }

  /** The keys of `r` that a line matches are exactly `x`. */
  predicate OnlyMatch(r: Assoc, line: string, x: string) {
    forall i :: 0 <= i < |r| ==> (Matches(line, r[i].0) <==> r[i].0 == x)
  }

  /** NoMatch over one more line. */
  lemma NoMatchSnoc(ls: seq<string>, line: string, key: string)
    ensures NoMatch(ls + [line], key) <==> NoMatch(ls, key) && !Matches(line, key)
  {
    assert (ls + [line])[|ls|] == line;
    assert forall i :: 0 <= i < |ls| ==> (ls + [line])[i] == ls[i];
  }

  /** A line matching no key of `r` leaves the pending keys as they are. */
  lemma StepUnclaimed(r: Assoc, ls: seq<string>, line: string)
    requires forall i :: 0 <= i < |r| && Matches(line, r[i].0) ==> !NoMatch(ls, r[i].0)
    ensures FirstMatch(Strip(line), Unmatched(r, ls)).None?
    ensures Unmatched(r, ls + [line]) == Unmatched(r, ls)
  {
    UnmatchedMembers(r, ls);
    var u := Unmatched(r, ls);
    forall k | 0 <= k < |u|
      ensures !StartsWith(Strip(line), u[k].0 + "=")
    {
      assert u[k] in u;
    }
    forall i | 0 <= i < |r|
      ensures NoMatch(ls + [line], r[i].0) <==> NoMatch(ls, r[i].0)
    {
      NoMatchSnoc(ls, line, r[i].0);
    }
    UnmatchedExt(r, ls + [line], ls);
  }

  /** The first line matching a pending key claims it. */
  lemma StepClaims(r: Assoc, ls: seq<string>, line: string, p: int)
    requires WellFormed(r) && 0 <= p < |r| && NoMatch(ls, r[p].0) && OnlyMatch(r, line, r[p].0)
    ensures var u := Unmatched(r, ls);
      var g := FirstMatch(Strip(line), u);
      g.Some? && u[g.value] == r[p]
      && u[..g.value] + u[g.value + 1..] == Unmatched(r, ls + [line])
  {
    UnmatchedMembers(r, ls);
    UnmatchedUnique(r, ls);
    var u := Unmatched(r, ls);
    var s := Strip(line);
    var x := r[p].0;
    assert r[p] in u;
    var q :| 0 <= q < |u| && u[q] == r[p];
    var g := FirstMatch(s, u);
    assert g.Some?;
    assert u[g.value] in r;
    PrefixKeys(s, u[g.value].0, x);
    assert u[g.value] == r[p];
    RemoveAtIsRemoveKey(u, g.value);
    assert u[..g.value] + u[g.value + 1..] == RemoveKey(u, x);
    forall i | 0 <= i < |r|
      ensures Matches(line, r[i].0) <==> r[i].0 == x
    {
    }
    UnmatchedAddLine(r, ls, line, x);
  }

  /** One step of the loop, when the pending keys are those no earlier line
      matched. */
  lemma StepLemma(r: Assoc, ls: seq<string>, line: string)
    requires WellFormed(r)
    ensures var st := Step(line, Unmatched(r, ls));
      st.0 == Expected(ls + [line], |ls|, r) && st.1 == Unmatched(r, ls + [line])
  {
    var s := Strip(line);
    var all := ls + [line];
    assert all[..|ls|] == ls && all[|ls|] == line;
    var f := FirstMatch(s, r);
    if f.None? {
      StepUnclaimed(r, ls, line);
    } else {
      var p := f.value;
      var x := r[p].0;
      forall i | 0 <= i < |r|
        ensures Matches(line, r[i].0) <==> r[i].0 == x
      {
        if Matches(line, r[i].0) {
          PrefixKeys(s, r[i].0, x);
        }
      }
      if NoMatch(ls, x) {
        StepClaims(r, ls, line, p);
      } else {
        StepUnclaimed(r, ls, line);
      }
    }
  }

  /** The rewritten lines, one per input line, are the Expected ones, and the
      keys left pending are exactly those that no line matched. */
  lemma {:induction false} RewriteCharacterised(lines: seq<string>, r: Assoc)
    requires WellFormed(r)
    ensures var w := Rewrite(lines, r);
      w.1 == Unmatched(r, lines) && forall i :: 0 <= i < |lines| ==> w.0[i] == Expected(lines, i, r)
  {
    if lines == [] {
      UnmatchedAll(r);
    } else {
      var n := |lines| - 1;
      var init := lines[..n];
      var last := lines[n];
      var w := Rewrite(init, r);
      var st := Step(last, w.1);
      assert Rewrite(lines, r) == (w.0 + [st.0], st.1);
      RewriteCharacterised(init, r);
      StepAt(r, lines);
      forall i | 0 <= i < |lines|
        ensures Rewrite(lines, r).0[i] == Expected(lines, i, r)
      {
        if i < n {
          ExpectedPrefix(lines, n, i, r);
          assert (w.0 + [st.0])[i] == w.0[i];
        } else {
          assert (w.0 + [st.0])[i] == st.0;
        }
      }
    }
  }

  lemma StepAt(r: Assoc, lines: seq<string>)
    requires WellFormed(r) && |lines| > 0
    ensures var n := |lines| - 1;
      var st := Step(lines[n], Unmatched(r, lines[..n]));
      st.0 == Expected(lines, n, r) && st.1 == Unmatched(r, lines)
  {
    var n := |lines| - 1;
    StepLemma(r, lines[..n], lines[n]);
    SnocLast(lines);
  }

  lemma ExpectedPrefix(lines: seq<string>, n: int, i: int, r: Assoc)
    requires 0 <= i < n <= |lines|
    ensures Expected(lines[..n], i, r) == Expected(lines, i, r)
  {
    assert lines[..n][..i] == lines[..i];
    assert lines[..n][i] == lines[i];
  }

  lemma {:induction false} UnmatchedAll(r: Assoc)
    ensures Unmatched(r, []) == r
  {
    if r != [] {
      UnmatchedAll(r[1..]);
      ConsTail(r);
    }
  }

  /** The result has one line per input line plus one per key that no
      stripped line starts with; those keys are appended at the end as
      `key=value`, in their dict order. */
  lemma UpdatedShape(lines: seq<string>, r: Assoc)
    requires WellFormed(r)
    ensures var u := Updated(lines, r);
      |u| == |lines| + |Unmatched(r, lines)|
      && u[|lines|..] == RenderAll(Unmatched(r, lines))
      && forall i :: 0 <= i < |lines| ==> u[i] == Expected(lines, i, r)
  {
    RewriteCharacterised(lines, r);
  }

  /** The length and tail part of UpdatedShape. */
  lemma UpdatedTail(lines: seq<string>, r: Assoc)
    requires WellFormed(r)
    ensures |Updated(lines, r)| == |lines| + |Unmatched(r, lines)|
    ensures Updated(lines, r)[|lines|..] == RenderAll(Unmatched(r, lines))
  {
    UpdatedShape(lines, r);
  }

  /** A line that matches no pending key is copied verbatim; the first line
      matching a key is replaced by `key=value`; any later line matching the
      same key is copied verbatim. */
  lemma RewriteLines(lines: seq<string>, r: Assoc, i: int)
    requires WellFormed(r) && 0 <= i < |lines|
    ensures (forall p :: 0 <= p < |r| ==> !Matches(lines[i], r[p].0)) ==> Updated(lines, r)[i] == lines[i]
    ensures forall p :: 0 <= p < |r| && Matches(lines[i], r[p].0) && NoMatch(lines[..i], r[p].0) ==>
              Updated(lines, r)[i] == Render(r[p])
    ensures forall p, j :: 0 <= p < |r| && 0 <= j < i && Matches(lines[i], r[p].0) && Matches(lines[j], r[p].0) ==>
              Updated(lines, r)[i] == lines[i]
  {
    UpdatedShape(lines, r);
    forall p | 0 <= p < |r| && Matches(lines[i], r[p].0)
      ensures FirstMatch(Strip(lines[i]), r) == Some(p)
    {
      FirstMatchIs(Strip(lines[i]), r, p);
    }
    forall p, j | 0 <= p < |r| && 0 <= j < i && Matches(lines[j], r[p].0)
      ensures !NoMatch(lines[..i], r[p].0)
    {
      assert lines[..i][j] == lines[j];
    }
  }

  /** Rewriting preserves which keys each original line matches. */
  lemma MatchPreserved(lines: seq<string>, r: Assoc, i: int, key: string)
    requires WellFormed(r) && 0 <= i < |lines| && '=' !in key
    ensures Matches(Updated(lines, r)[i], key) <==> Matches(lines[i], key)
  {
    UpdatedShape(lines, r);
    var f := FirstMatch(Strip(lines[i]), r);
    if f.Some? && NoMatch(lines[..i], r[f.value].0) {
      var e := r[f.value];
      RenderMatchesOnly(e, key);
      if Matches(lines[i], key) {
        PrefixKeys(Strip(lines[i]), key, e.0);
      }
    }
  }

  /** An appended line matches its own key and no other. */
  lemma AppendedMatches(lines: seq<string>, r: Assoc, k: int, key: string)
    requires WellFormed(r) && |lines| <= k < |lines| + |Unmatched(r, lines)| && '=' !in key
    ensures |Updated(lines, r)| == |lines| + |Unmatched(r, lines)|
    ensures Updated(lines, r)[k] == Render(Unmatched(r, lines)[k - |lines|])
    ensures Matches(Updated(lines, r)[k], key) <==> key == Unmatched(r, lines)[k - |lines|].0
  {
    UnmatchedMembers(r, lines);
    var u := Updated(lines, r);
    var left := Unmatched(r, lines);
    var m := k - |lines|;
    UpdatedTail(lines, r);
    assert u[k] == u[|lines|..][m];
    assert left[m] in left;
    var p :| 0 <= p < |r| && r[p] == left[m];
    RenderMatchesOnly(left[m], key);
  }

  /** After one run every pending key is matched by some line. */
  lemma AllKeysClaimed(lines: seq<string>, r: Assoc)
    requires WellFormed(r)
    ensures Unmatched(r, Updated(lines, r)) == []
  {
    UnmatchedMembers(r, lines);
    var u := Updated(lines, r);
    var left := Unmatched(r, lines);
    var n := |lines|;
    UpdatedTail(lines, r);
    forall p | 0 <= p < |r|
      ensures !NoMatch(u, r[p].0)
    {
      var e := r[p];
      if NoMatch(lines, e.0) {
        assert e in left;
        var m :| 0 <= m < |left| && left[m] == e;
        AppendedMatches(lines, r, n + m, e.0);
        assert Matches(u[n + m], e.0);
      } else {
        var i :| 0 <= i < n && Matches(lines[i], e.0);
        MatchPreserved(lines, r, i, e.0);
        assert Matches(u[i], e.0);
      }
    }
    NoneUnmatched(r, u);
  }

  lemma NoneUnmatched(r: Assoc, ls: seq<string>)
    requires forall p :: 0 <= p < |r| ==> !NoMatch(ls, r[p].0)
    ensures Unmatched(r, ls) == []
  {
    UnmatchedMembers(r, ls);
  }

  /** Running the rewrite on its own output changes nothing. */
  lemma UpdatedIdempotent(lines: seq<string>, r: Assoc)
    requires WellFormed(r)
    ensures Updated(Updated(lines, r), r) == Updated(lines, r)
  {
    var u := Updated(lines, r);
    var n := |lines|;
    UpdatedTail(lines, r);
    AllKeysClaimed(lines, r);
    RewriteCharacterised(u, r);
    var w := Rewrite(u, r);
    forall i | 0 <= i < |u|
      ensures w.0[i] == u[i]
    {
      if i < n {
        ExpectedStable(lines, r, i);
      } else {
        var p := AppendedEntry(lines, r, i);
        ExpectedFresh(u, i, r, p);
      }
    }
    assert w.0 == u;
    assert RenderAll(w.1) == [];
  }

  /** A line keeps its Expected value when the lines up to it match the
      same keys as the lines it was computed from. */
  lemma ExpectedSame(ls: seq<string>, us: seq<string>, i: int, r: Assoc)
    requires 0 <= i < |ls| && i < |us| && us[i] == Expected(ls, i, r)
    requires forall j, p :: 0 <= j <= i && 0 <= p < |r| ==> (Matches(us[j], r[p].0) <==> Matches(ls[j], r[p].0))
    ensures Expected(us, i, r) == us[i]
  {
    FirstMatchSame(Strip(us[i]), Strip(ls[i]), r);
    var f := FirstMatch(Strip(us[i]), r);
    if f.Some? {
      var key := r[f.value].0;
      assert NoMatch(us[..i], key) <==> NoMatch(ls[..i], key) by {
        assert forall j :: 0 <= j < i ==> us[..i][j] == us[j] && ls[..i][j] == ls[j];
      }
    }
  }

  lemma {:induction false} FirstMatchSame(a: string, b: string, r: Assoc)
    requires forall p :: 0 <= p < |r| ==> (StartsWith(a, r[p].0 + "=") <==> StartsWith(b, r[p].0 + "="))
    ensures FirstMatch(a, r) == FirstMatch(b, r)
  {
    if r != [] {
      FirstMatchSame(a, b, r[1..]);
    }
  }

  /** A rendered entry that no earlier line matches is its own Expected value. */
  lemma ExpectedFresh(us: seq<string>, k: int, r: Assoc, p: int)
    requires WellFormed(r) && 0 <= k < |us| && 0 <= p < |r| && us[k] == Render(r[p])
    requires forall j :: 0 <= j < k ==> !Matches(us[j], r[p].0)
    ensures Expected(us, k, r) == us[k]
  {
    RenderMatches(r[p]);
    FirstMatchIs(Strip(us[k]), r, p);
    assert NoMatch(us[..k], r[p].0) by {
      assert forall j :: 0 <= j < k ==> us[..k][j] == us[j];
    }
  }

  /** In the second run an original line ends up as it did in the first. */
  lemma ExpectedStable(lines: seq<string>, r: Assoc, i: int)
    requires WellFormed(r) && 0 <= i < |lines|
    ensures |Updated(lines, r)| >= |lines|
    ensures Expected(Updated(lines, r), i, r) == Updated(lines, r)[i]
  {
    var u := Updated(lines, r);
    UpdatedShape(lines, r);
    forall j, p | 0 <= j <= i && 0 <= p < |r|
      ensures Matches(u[j], r[p].0) <==> Matches(lines[j], r[p].0)
    {
      MatchPreserved(lines, r, j, r[p].0);
    }
    ExpectedSame(lines, u, i, r);
  }

  /** An appended line renders a pending entry that no earlier line matches. */
  lemma AppendedEntry(lines: seq<string>, r: Assoc, k: int) returns (p: int)
    requires WellFormed(r) && |lines| <= k < |lines| + |Unmatched(r, lines)|
    ensures |Updated(lines, r)| == |lines| + |Unmatched(r, lines)|
    ensures 0 <= p < |r| && Updated(lines, r)[k] == Render(r[p])
    ensures forall j :: 0 <= j < k ==> !Matches(Updated(lines, r)[j], r[p].0)
  {
    UnmatchedMembers(r, lines);
    var e := Unmatched(r, lines)[k - |lines|];
    AppendedMatches(lines, r, k, e.0);
    assert e in Unmatched(r, lines);
    p :| 0 <= p < |r| && r[p] == e;
    AppendedFirst(lines, r, k);
  }

  /** No line before an appended one matches its key. */
  lemma AppendedFirst(lines: seq<string>, r: Assoc, k: int)
    requires WellFormed(r) && |lines| <= k < |lines| + |Unmatched(r, lines)|
    ensures |Updated(lines, r)| == |lines| + |Unmatched(r, lines)|
    ensures forall j :: 0 <= j < k ==> !Matches(Updated(lines, r)[j], Unmatched(r, lines)[k - |lines|].0)
  {
    UpdatedTail(lines, r);
    forall j | 0 <= j < k
      ensures !Matches(Updated(lines, r)[j], Unmatched(r, lines)[k - |lines|].0)
    {
      if j < |lines| {
        OriginalMisses(lines, r, k, j);
      } else {
        AppendedMisses(lines, r, j, k);
      }
    }
  }

  lemma OriginalMisses(lines: seq<string>, r: Assoc, k: int, j: int)
    requires WellFormed(r) && |lines| <= k < |lines| + |Unmatched(r, lines)| && 0 <= j < |lines|
    ensures |Updated(lines, r)| >= |lines|
    ensures !Matches(Updated(lines, r)[j], Unmatched(r, lines)[k - |lines|].0)
  {
    UnmatchedMembers(r, lines);
    var e := Unmatched(r, lines)[k - |lines|];
    assert e in Unmatched(r, lines);
    assert e in r;
    var p :| 0 <= p < |r| && r[p] == e;
    MatchPreserved(lines, r, j, e.0);
  }

  lemma AppendedMisses(lines: seq<string>, r: Assoc, j: int, k: int)
    requires WellFormed(r) && |lines| <= j < k < |lines| + |Unmatched(r, lines)|
    ensures |Updated(lines, r)| == |lines| + |Unmatched(r, lines)|
    ensures !Matches(Updated(lines, r)[j], Unmatched(r, lines)[k - |lines|].0)
  {
    UnmatchedMembers(r, lines);
    UnmatchedUnique(r, lines);
    var left := Unmatched(r, lines);
    var e := left[k - |lines|];
    assert e in left;
    var p :| 0 <= p < |r| && r[p] == e;
    AppendedMatches(lines, r, j, e.0);
    assert left[j - |lines|].0 != e.0;
  }

  /** The written file, read back and rewritten again, is written the same. */
  lemma NewContentIdempotent(content: string, r: Assoc)
    requires WellFormed(r)
    ensures NewContent(NewContent(content, r), r) == NewContent(content, r)
  {
    var lines := Split(content, '\n');
    SplitPieces(content, '\n');
    UpdatedTail(lines, r);
    var u := Updated(lines, r);
    forall k | 0 <= k < |u|
      ensures '\n' !in u[k]
    {
      if k < |lines| {
        OriginalNoBreak(lines, r, k);
      } else {
        AppendedNoBreak(lines, r, k);
      }
    }
    SplitJoin(u, '\n');
    UpdatedIdempotent(lines, r);
  }

  /** No line of the result holds a line break when no input line does. */
  lemma OriginalNoBreak(lines: seq<string>, r: Assoc, k: int)
    requires WellFormed(r) && 0 <= k < |lines| && '\n' !in lines[k]
    ensures |Updated(lines, r)| >= |lines|
    ensures '\n' !in Updated(lines, r)[k]
  {
    UpdatedShape(lines, r);
    var f := FirstMatch(Strip(lines[k]), r);
    if f.Some? {
      RenderNoBreak(r[f.value]);
    }
  }

  lemma AppendedNoBreak(lines: seq<string>, r: Assoc, k: int)
    requires WellFormed(r) && |lines| <= k < |lines| + |Unmatched(r, lines)|
    ensures |Updated(lines, r)| == |lines| + |Unmatched(r, lines)|
    ensures '\n' !in Updated(lines, r)[k]
  {
    UnmatchedMembers(r, lines);
    var e := Unmatched(r, lines)[k - |lines|];
    AppendedMatches(lines, r, k, e.0);
    assert e in Unmatched(r, lines);
    var p :| 0 <= p < |r| && r[p] == e;
    RenderNoBreak(e);
  }

  lemma RenderNoBreak(e: (string, string))
    requires '\n' !in e.0 && '\n' !in e.1
    ensures '\n' !in Render(e)
  {
    assert Render(e) == e.0 + "=" + e.1;
  }

  /** The colours read from a palette, with materialShapeChars added, are
      well formed whenever no value holds a line break. */
  lemma PendingWellFormed(colors: Assoc, shapeChars: string)
    requires |colors| == 8 && forall i :: 0 <= i < 8 ==> colors[i].0 == ThemeKeys[i] && '\n' !in colors[i].1
    requires '\n' !in shapeChars
    ensures WellFormed(Pending(colors, shapeChars))
  {
    PendingKeys();
    SetKeyAbsent(colors, "materialShapeChars", shapeChars);
    var s := colors + [("materialShapeChars", shapeChars)];
    assert forall i :: 0 <= i < 9 ==> s[i].0 == (ThemeKeys + ["materialShapeChars"])[i];
  }

  /** The nine keys of theme.conf the script writes are distinct and well formed. */
  lemma PendingKeys()
    ensures forall i, j :: 0 <= i < j < 9 ==> (ThemeKeys + ["materialShapeChars"])[i] != (ThemeKeys + ["materialShapeChars"])[j]
    ensures forall i :: 0 <= i < 9 ==> var k := (ThemeKeys + ["materialShapeChars"])[i];
              |k| > 0 && !IsSpace(k[0]) && '=' !in k && '\n' !in k
  {
    PendingKeysDistinct(ThemeKeys + ["materialShapeChars"]);
    PendingKeysShape(ThemeKeys + ["materialShapeChars"]);
  }

  lemma PendingKeysDistinct(pk: seq<string>)
    requires pk == ThemeKeys + ["materialShapeChars"]
    ensures forall i, j :: 0 <= i < j < 9 ==> pk[i] != pk[j]
  {
    assert forall i :: 0 <= i < 9 ==> |pk[i]| >= 10;
    assert forall i, j :: 0 <= i < j < 9 ==> |pk[i]| != |pk[j]| || pk[i][0] != pk[j][0] || pk[i][2] != pk[j][2];
  }

  lemma PendingKeysShape(pk: seq<string>)
    requires pk == ThemeKeys + ["materialShapeChars"]
    ensures forall i :: 0 <= i < 9 ==> |pk[i]| > 0 && !IsSpace(pk[i][0]) && '=' !in pk[i] && '\n' !in pk[i]
  {
    assert forall i :: 0 <= i < 9 ==> |pk[i]| >= 10 && (pk[i][0] == 'p' || pk[i][0] == 'o' || pk[i][0] == 's' || pk[i][0] == 'b' || pk[i][0] == 'e' || pk[i][0] == 'm');
  }

  lemma {:induction false} SetKeyAbsent(r: Assoc, key: string, value: string)
    requires forall i :: 0 <= i < |r| ==> r[i].0 != key
    ensures SetKey(r, key, value) == r + [(key, value)]
  {
    if r != [] {
      SetKeyAbsent(r[1..], key, value);
      ConsSnoc(r, (key, value));
    }
  }

  // ---------------------------------------------------------------- wallpaper

  const VideoExtensions: set<string> := {".mp4", ".mkv", ".webm", ".avi", ".mov", ".gif", ".webp"}

  /** Index of the last occurrence of c, or -1. */
  function RFind(s: string, c: char): (r: int)
    ensures -1 <= r < |s|
    ensures r >= 0 ==> s[r] == c
    ensures forall k :: r < k < |s| ==> s[k] != c
    decreases |s|
  {
    if s == [] then -1
    else if s[|s| - 1] == c then |s| - 1
    else RFind(s[..|s| - 1], c)
  }

  /** os.path.splitext(p)[1]: from the last `.` of the last component, unless
      that component is only dots up to it (a hidden file has no extension). */
  function Extension(p: string): (e: string)
    ensures e == [] || (e[0] == '.' && EndsWith(p, e) && '/' !in e && '.' !in e[1..])
  {
    var sep := RFind(p, '/');
    var dot := RFind(p, '.');
    if dot > sep && exists k :: sep + 1 <= k < dot && p[k] != '.' then
      assert p[dot..][1..] == p[dot + 1..];
      p[dot..]
    else ""
  }

  /** The `ext in VIDEO_EXTENSIONS` test of update_background. */
  predicate IsVideo(path: string) {
    Lower(Extension(path)) in VideoExtensions
  }

  /** Any file name followed by a video extension in any letter case is a
      video... */
  lemma VideoByExtension(stem: string, ext: string)
    requires |stem| > 0 && stem[|stem| - 1] != '/' && stem[|stem| - 1] != '.'
    requires Lower(ext) in VideoExtensions
    ensures IsVideo(stem + ext)
  {
    var p := stem + ext;
    var l := Lower(ext);
    assert ext[0] == '.' by { assert l[0] == LowerChar(ext[0]) == '.'; }
    assert forall k :: 0 <= k < |ext| ==> ext[k] != '/' by {
      assert forall k :: 0 <= k < |ext| ==> l[k] == LowerChar(ext[k]) && l[k] != '/';
    }
    assert forall k :: 1 <= k < |ext| ==> ext[k] != '.' by {
      assert forall k :: 1 <= k < |ext| ==> l[k] == LowerChar(ext[k]) && l[k] != '.';
    }
    var dot := RFind(p, '.');
    assert p[|stem|] == '.';
    assert dot == |stem|;
    assert RFind(p, '/') < |stem| - 1 + 1;
    assert p[|stem| - 1] != '.' && p[|stem| - 1] != '/';
    assert RFind(p, '/') < |stem| - 1;
    assert p[dot..] == ext;
  }

  /** ...but a hidden file named after one is not: it has no extension. */
  lemma HiddenFileNotVideo(dir: string, ext: string)
    requires ext in VideoExtensions
    ensures !IsVideo(dir + "/" + ext)
  {
    VideoExtShape(ext);
    var p := dir + "/" + ext;
    assert p[|dir|] == '/' && p[|dir| + 1] == '.';
    forall k | |dir| + 1 < k < |p|
      ensures p[k] != '/' && p[k] != '.'
    {
      assert p[k] == ext[k - |dir| - 1];
    }
    assert RFind(p, '/') == |dir|;
    assert RFind(p, '.') == |dir| + 1;
    assert Extension(p) == "";
  }

  lemma VideoExtShape(ext: string)
    requires ext in VideoExtensions
    ensures |ext| >= 2 && ext[0] == '.'
    ensures forall k :: 0 < k < |ext| ==> ext[k] != '.' && ext[k] != '/'
  {
  }
}
