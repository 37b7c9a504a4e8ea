/** The VS Code settings injector: it builds `workbench.colorCustomizations`
    from the Material You colours (with terminal colours taken from the SCSS
    palette), builds TextMate syntax rules, and writes both into the user's
    settings document, leaving every other setting as it was. */
module VscodeSettings {
  import opened Text
  import opened Wrappers
  import opened HexColor
  import opened ScssPalette
  import opened JsonValue

  function Get(colors: map<string, string>, key: string, default: string): string {
    if key in colors then colors[key] else default
  }

  /** The tokens generate_vscode_colors reads from colors.json. */
  datatype Tokens = Tokens(
    bg: string, fg: string, surface: string, surfaceLow: string, surfaceStd: string,
    surfaceHigh: string, surfaceHighest: string, surfaceVariant: string, onSurface: string,
    onSurfaceVariant: string, outline: string, outlineVariant: string, primary: string,
    onPrimary: string, primaryContainer: string, onPrimaryContainer: string, secondary: string,
    tertiary: string, error: string)

  /** Background: background, else surface, else #080809. */
  function Background(colors: map<string, string>): (bg: string)
    ensures "background" in colors ==> bg == colors["background"]
    ensures "background" !in colors && "surface" in colors ==> bg == colors["surface"]
    ensures "background" !in colors && "surface" !in colors ==> bg == "#080809"
  {
    Get(colors, "background", Get(colors, "surface", "#080809"))
  }

  /** Foreground: onBackground, else onSurface, else #e3dfd9. */
  function Foreground(colors: map<string, string>): (fg: string)
    ensures "onBackground" in colors ==> fg == colors["onBackground"]
    ensures "onBackground" !in colors && "onSurface" in colors ==> fg == colors["onSurface"]
    ensures "onBackground" !in colors && "onSurface" !in colors ==> fg == "#e3dfd9"
  {
    Get(colors, "onBackground", Get(colors, "onSurface", "#e3dfd9"))
  }

  function ResolveTokens(colors: map<string, string>): Tokens {
    Tokens(
      Background(colors),
      Foreground(colors),
      Get(colors, "surface", "#080809"),
      Get(colors, "surface_container_low", "#0c0c0e"),
      Get(colors, "surface_container", "#121115"),
      Get(colors, "surface_container_high", "#1a191d"),
      Get(colors, "surface_container_highest", "#232126"),
      Get(colors, "surface_variant", "#2a282e"),
      Get(colors, "onSurface", "#e3dfd9"),
      Get(colors, "onSurfaceVariant", "#c4bfb8"),
      Get(colors, "outline", "#5c5862"),
      Get(colors, "outline_variant", "#3a363e"),
      Get(colors, "primary", "#d4b796"),
      Get(colors, "onPrimary", "#241c14"),
      Get(colors, "primary_container", "#33281d"),
      Get(colors, "onPrimaryContainer", "#eddccb"),
      Get(colors, "secondary", "#ccc2b2"),
      Get(colors, "tertiary", "#b8cbb8"),
      Get(colors, "error", "#ffb4ab"))
  }

  /** Colour customizations as entries in insertion order. */
  type Entries = seq<(string, string)>

  /** The sixteen ANSI slots, filled from term0 .. term15 of the SCSS palette. */
  const AnsiNames: seq<string> := [
    "terminal.ansiBlack", "terminal.ansiRed", "terminal.ansiGreen", "terminal.ansiYellow",
    "terminal.ansiBlue", "terminal.ansiMagenta", "terminal.ansiCyan", "terminal.ansiWhite",
    "terminal.ansiBrightBlack", "terminal.ansiBrightRed", "terminal.ansiBrightGreen",
    "terminal.ansiBrightYellow", "terminal.ansiBrightBlue", "terminal.ansiBrightMagenta",
    "terminal.ansiBrightCyan", "terminal.ansiBrightWhite"]

  const AnsiDefaults: seq<string> := [
    "#000000", "#CC241D", "#98971A", "#D79921", "#458588", "#B16286", "#689D6A", "#A89984",
    "#928374", "#FB4934", "#B8BB26", "#FABD2F", "#83A598", "#D3869B", "#8EC07C", "#EBDBB2"]

  /** The palette name of ANSI slot i: term0 .. term15. */
  function TermKey(i: nat): string {
    "term" + Decimal(i)
  }

  function AnsiEntries(term: map<string, string>): (es: Entries)
    ensures |es| == 16
    ensures forall i :: 0 <= i < 16 ==> es[i] == (AnsiNames[i], Get(term, TermKey(i), AnsiDefaults[i]))
  {
    seq(16, i requires 0 <= i < 16 => (AnsiNames[i], Get(term, TermKey(i), AnsiDefaults[i])))
  }

  /** The colour customization keys the groups below write. */
  const FocusBorder := "focusBorder"
  const ForegroundKey := "foreground"
  const DisabledForeground := "disabledForeground"
  const WidgetShadow := "widget.shadow"
  const SelectionBackground := "selection.background"
  const DescriptionForeground := "descriptionForeground"
  const ErrorForeground := "errorForeground"
  const IconForeground := "icon.foreground"
  const ExtensionButtonProminentForeground := "extensionButton.prominentForeground"
  const ExtensionButtonProminentBackground := "extensionButton.prominentBackground"
  const ExtensionButtonProminentHoverBackground := "extensionButton.prominentHoverBackground"
  const TerminalBackground := "terminal.background"
  const TerminalForeground := "terminal.foreground"
  const TerminalSelectionBackground := "terminal.selectionBackground"
  const TerminalCursorBackground := "terminalCursor.background"
  const TerminalCursorForeground := "terminalCursor.foreground"
  const DebugToolBarBackground := "debugToolBar.background"
  const DebugToolBarBorder := "debugToolBar.border"
  const EditorStackFrameHighlightBackground := "editor.stackFrameHighlightBackground"
  const EditorFocusedStackFrameHighlightBackground := "editor.focusedStackFrameHighlightBackground"
  const GitDecorationAddedResourceForeground := "gitDecoration.addedResourceForeground"
  const GitDecorationModifiedResourceForeground := "gitDecoration.modifiedResourceForeground"
  const GitDecorationDeletedResourceForeground := "gitDecoration.deletedResourceForeground"
  const GitDecorationUntrackedResourceForeground := "gitDecoration.untrackedResourceForeground"
  const GitDecorationIgnoredResourceForeground := "gitDecoration.ignoredResourceForeground"
  const GitDecorationConflictingResourceForeground := "gitDecoration.conflictingResourceForeground"
  const GitDecorationSubmoduleResourceForeground := "gitDecoration.submoduleResourceForeground"
  const EditorSnippetTabstopHighlightBackground := "editor.snippetTabstopHighlightBackground"
  const EditorSnippetTabstopHighlightBorder := "editor.snippetTabstopHighlightBorder"
  const EditorSnippetFinalTabstopHighlightBackground := "editor.snippetFinalTabstopHighlightBackground"
  const EditorSnippetFinalTabstopHighlightBorder := "editor.snippetFinalTabstopHighlightBorder"

  function BaseGroup(t: Tokens): Entries {
    [ (FocusBorder, t.primary),
      (ForegroundKey, t.fg),
      (DisabledForeground, t.onSurfaceVariant + "80"),
      (WidgetShadow, "#00000060"),
      (SelectionBackground, t.primary + "60"),
      (DescriptionForeground, t.onSurfaceVariant),
      (ErrorForeground, t.error),
      (IconForeground, t.onSurface) ]
  }

  function ExtensionGroup(t: Tokens): Entries {
    [ (ExtensionButtonProminentForeground, t.onPrimary),
      (ExtensionButtonProminentBackground, t.primary),
      (ExtensionButtonProminentHoverBackground, t.primary + "dd") ]
  }

  /** The integrated terminal block: its background and foreground are term0
      and term15 when the palette has them, else the resolved background and
      foreground. */
  function TerminalGroup(t: Tokens, term: map<string, string>): Entries {
    [ (TerminalBackground, Get(term, "term0", t.bg)),
      (TerminalForeground, Get(term, "term15", t.fg)) ]
    + AnsiEntries(term)
    + [ (TerminalSelectionBackground, t.primary + "40"),
        (TerminalCursorBackground, t.bg),
        (TerminalCursorForeground, t.primary) ]
  }

  function DebugGroup(t: Tokens): Entries {
    [ (DebugToolBarBackground, t.surfaceHigh),
      (DebugToolBarBorder, t.outline),
      (EditorStackFrameHighlightBackground, t.tertiary + "30"),
      (EditorFocusedStackFrameHighlightBackground, t.tertiary + "50") ]
  }

  function GitGroup(t: Tokens): Entries {
    [ (GitDecorationAddedResourceForeground, t.tertiary),
      (GitDecorationModifiedResourceForeground, t.secondary),
      (GitDecorationDeletedResourceForeground, t.error),
      (GitDecorationUntrackedResourceForeground, t.tertiary + "cc"),
      (GitDecorationIgnoredResourceForeground, t.onSurfaceVariant + "80"),
      (GitDecorationConflictingResourceForeground, t.error),
      (GitDecorationSubmoduleResourceForeground, t.secondary) ]
  }

  function SnippetGroup(t: Tokens): Entries {
    [ (EditorSnippetTabstopHighlightBackground, t.primary + "30"),
      (EditorSnippetTabstopHighlightBorder, t.primary),
      (EditorSnippetFinalTabstopHighlightBackground, t.tertiary + "30"),
      (EditorSnippetFinalTabstopHighlightBorder, t.tertiary) ]
  }

  /** The modelled part of generate_vscode_colors' result. */
  function ColorEntries(t: Tokens, term: map<string, string>): Entries {
    BaseGroup(t) + ExtensionGroup(t) + TerminalGroup(t, term) + DebugGroup(t) + GitGroup(t) + SnippetGroup(t)
  }

  /** generate_vscode_colors: the SCSS palette is parsed by the shared loop (a
      missing file leaves it empty) and the entries are built from it. */
  method GenerateVscodeColors(colors: map<string, string>, scss: Option<seq<string>>) returns (es: Entries)
    ensures es == ColorEntries(ResolveTokens(colors), if scss.None? then map[] else ColorsOf(scss.value))
  {
    var term := ParseScssColors(scss);
    es := ColorEntries(ResolveTokens(colors), term);
  }

  /** terminal.background is term0 when parsed, else the background; and
      terminal.foreground is term15 when parsed, else the foreground. */
  lemma TerminalBackdrop(colors: map<string, string>, term: map<string, string>)
    ensures var es := ColorEntries(ResolveTokens(colors), term);
      (TerminalBackground, if "term0" in term then term["term0"] else Background(colors)) in es
      && (TerminalForeground, if "term15" in term then term["term15"] else Foreground(colors)) in es
  {
    var t := ResolveTokens(colors);
    var tg := TerminalGroup(t, term);
    assert tg[0] == (TerminalBackground, Get(term, "term0", t.bg));
    assert tg[1] == (TerminalForeground, Get(term, "term15", t.fg));
  }

  /** With no SCSS palette every ANSI slot takes its literal default. */
  lemma MissingScssDefaults(colors: map<string, string>)
    ensures forall i :: 0 <= i < 16 ==> (AnsiNames[i], AnsiDefaults[i]) in ColorEntries(ResolveTokens(colors), map[])
  {
    var t := ResolveTokens(colors);
    var a := AnsiEntries(map[]);
    forall i | 0 <= i < 16
      ensures (AnsiNames[i], AnsiDefaults[i]) in ColorEntries(t, map[])
    {
      assert a[i] == (AnsiNames[i], AnsiDefaults[i]);
      assert TerminalGroup(t, map[])[2 + i] == a[i];
    }
  }

  /** A palette that defines term0 .. term15 fills every ANSI slot. */
  lemma FullScssFillsSlots(colors: map<string, string>, term: map<string, string>)
    requires forall i :: 0 <= i < 16 ==> TermKey(i) in term
    ensures forall i :: 0 <= i < 16 ==> (AnsiNames[i], term[TermKey(i)]) in ColorEntries(ResolveTokens(colors), term)
  {
    var t := ResolveTokens(colors);
    var a := AnsiEntries(term);
    forall i | 0 <= i < 16
      ensures (AnsiNames[i], term[TermKey(i)]) in ColorEntries(t, term)
    {
      assert a[i] == (AnsiNames[i], term[TermKey(i)]);
      assert TerminalGroup(t, term)[2 + i] == a[i];
    }
  }

  /** The translucent entries: key, base colour and two-digit alpha. */
  function Translucent(t: Tokens): seq<(string, string, string)> {
    [ (DisabledForeground, t.onSurfaceVariant, "80"),
      (SelectionBackground, t.primary, "60"),
      (ExtensionButtonProminentHoverBackground, t.primary, "dd"),
      (TerminalSelectionBackground, t.primary, "40"),
      (EditorStackFrameHighlightBackground, t.tertiary, "30"),
      (EditorFocusedStackFrameHighlightBackground, t.tertiary, "50"),
      (GitDecorationUntrackedResourceForeground, t.tertiary, "cc"),
      (GitDecorationIgnoredResourceForeground, t.onSurfaceVariant, "80"),
      (EditorSnippetTabstopHighlightBackground, t.primary, "30"),
      (EditorSnippetFinalTabstopHighlightBackground, t.tertiary, "30") ]
  }

  /** `#RRGGBBAA`: a colour with an alpha channel. */
  predicate IsAlphaColor(s: string) {
    |s| == 9 && s[0] == '#' && forall i :: 1 <= i < 9 ==> IsHexDigit(s[i])
  }

  /** Appending a two-digit alpha to a `#RRGGBB` colour gives `#RRGGBBAA`,
      from which the colour is its first seven characters. */
  lemma AlphaSuffix(base: string, alpha: string)
    requires IsHexColor(base) && |alpha| == 2 && IsHexDigit(alpha[0]) && IsHexDigit(alpha[1])
    ensures IsAlphaColor(base + alpha) && (base + alpha)[..7] == base
  {
    assert (base + alpha)[..7] == base;
  }

  /** Translucent entry i appears in the colour map as its base colour
      followed by its two-digit hex alpha. */
  lemma TranslucentEntry(t: Tokens, term: map<string, string>, i: int)
    requires 0 <= i < |Translucent(t)|
    ensures var e := Translucent(t)[i];
      (e.0, e.1 + e.2) in ColorEntries(t, term)
      && |e.2| == 2 && IsHexDigit(e.2[0]) && IsHexDigit(e.2[1])
  {
    var e := Translucent(t)[i];
    var b, x, tg, d, g, sn := BaseGroup(t), ExtensionGroup(t), TerminalGroup(t, term), DebugGroup(t), GitGroup(t), SnippetGroup(t);
    assert ColorEntries(t, term) == b + x + tg + d + g + sn;
    if i < 2 {
      assert (e.0, e.1 + e.2) in b;
    } else if i == 2 {
      assert (e.0, e.1 + e.2) in x;
    } else if i == 3 {
      assert tg[18] == (e.0, e.1 + e.2);
    } else if i < 6 {
      assert (e.0, e.1 + e.2) in d;
    } else if i < 8 {
      assert (e.0, e.1 + e.2) in g;
    } else {
      assert (e.0, e.1 + e.2) in sn;
    }
  }

  /** Every translucent entry appears in the colour map as its base colour
      followed by a two-digit hex alpha. */
  lemma TranslucentEntries(t: Tokens, term: map<string, string>)
    ensures var tr := Translucent(t);
      forall i :: 0 <= i < |tr| ==>
        (tr[i].0, tr[i].1 + tr[i].2) in ColorEntries(t, term)
        && |tr[i].2| == 2 && IsHexDigit(tr[i].2[0]) && IsHexDigit(tr[i].2[1])
  {
    forall i | 0 <= i < |Translucent(t)|
      ensures var e := Translucent(t)[i];
        (e.0, e.1 + e.2) in ColorEntries(t, term) && |e.2| == 2 && IsHexDigit(e.2[0]) && IsHexDigit(e.2[1])
    {
      TranslucentEntry(t, term, i);
    }
  }

  /** One TextMate rule of editor.tokenColorCustomizations. */
  datatype Rule = Rule(scope: seq<string>, foreground: string, fontStyle: Option<string>)

  /** generate_vscode_syntax: the 31 rules, coloured from six tokens. The
      SCSS terminal colours it is also given are not used. */
  function SyntaxRules(colors: map<string, string>): (rules: seq<Rule>)
    ensures |rules| == 31
  {
    var primary := Get(colors, "primary", "#d4b796");
    var secondary := Get(colors, "secondary", "#ccc2b2");
    var tertiary := Get(colors, "tertiary", "#b8cbb8");
    var error := Get(colors, "error", "#ffb4ab");
    var onSurface := Get(colors, "onSurface", "#e3dfd9");
    var onSurfaceVariant := Get(colors, "onSurfaceVariant", "#c4bfb8");
    [ Rule(["comment", "punctuation.definition.comment"], onSurfaceVariant + "cc", Some("italic")),
      Rule(["keyword", "storage.type", "storage.modifier"], secondary, None),
      Rule(["keyword.control"], secondary, Some("")),
      Rule(["keyword.operator"], secondary, None),
      Rule(["constant", "constant.language", "constant.character"], tertiary, None),
      Rule(["constant.numeric"], tertiary, None),
      Rule(["constant.other.color"], tertiary, None),
      Rule(["string"], tertiary, None),
      Rule(["string.regexp"], tertiary, None),
      Rule(["punctuation.definition.string"], tertiary, None),
      Rule(["entity.name.function", "support.function"], primary, None),
      Rule(["meta.function-call"], primary, None),
      Rule(["entity.name.type", "entity.name.class", "support.type", "support.class"], primary, None),
      Rule(["entity.other.inherited-class"], primary, Some("italic")),
      Rule(["variable", "variable.other"], onSurface, None),
      Rule(["variable.language"], error, Some("italic")),
      Rule(["variable.parameter"], onSurface, None),
      Rule(["variable.other.property", "support.variable.property"], secondary, None),
      Rule(["entity.other.attribute-name"], secondary, None),
      Rule(["entity.name.tag"], primary, None),
      Rule(["punctuation.definition.tag"], primary, None),
      Rule(["punctuation"], onSurface, None),
      Rule(["punctuation.separator", "punctuation.terminator"], onSurfaceVariant, None),
      Rule(["markup.heading"], primary, Some("bold")),
      Rule(["markup.bold"], onSurface, Some("bold")),
      Rule(["markup.italic"], onSurface, Some("italic")),
      Rule(["markup.underline.link"], primary, Some("underline")),
      Rule(["markup.inline.raw"], tertiary, None),
      Rule(["markup.list"], secondary, None),
      Rule(["invalid"], error, None),
      Rule(["invalid.deprecated"], error, Some("italic")) ]
  }

  /** Every rule is coloured by one of the six tokens (the comment rule by
      its translucent variant) and names at least one scope. */
  lemma SyntaxRulesColours(colors: map<string, string>)
    ensures var rules := SyntaxRules(colors);
      var palette := {Get(colors, "primary", "#d4b796"), Get(colors, "secondary", "#ccc2b2"),
                      Get(colors, "tertiary", "#b8cbb8"), Get(colors, "error", "#ffb4ab"),
                      Get(colors, "onSurface", "#e3dfd9"), Get(colors, "onSurfaceVariant", "#c4bfb8"),
                      Get(colors, "onSurfaceVariant", "#c4bfb8") + "cc"};
      forall i :: 0 <= i < |rules| ==> rules[i].foreground in palette && |rules[i].scope| >= 1
  {
  }

  function RuleJson(r: Rule): Json {
    var settings := map["foreground" := JStr(r.foreground)];
    JObj(map[
      "scope" := JArr(seq(|r.scope|, i requires 0 <= i < |r.scope| => JStr(r.scope[i]))),
      "settings" := JObj(if r.fontStyle.Some? then settings["fontStyle" := JStr(r.fontStyle.value)] else settings)])
  }

  function RulesJson(rules: seq<Rule>): (j: Json)
    ensures j.JArr? && |j.items| == |rules|
  {
    JArr(seq(|rules|, i requires 0 <= i < |rules| => RuleJson(rules[i])))
  }

  /** A dict built from entries in order: a later entry for a key wins. */
  function ToMap(es: Entries): (m: map<string, string>)
    ensures forall k :: k in m <==> exists i :: 0 <= i < |es| && es[i].0 == k
  {
    if es == [] then map[]
    else
      var m := ToMap(es[..|es| - 1]);
      assert forall i :: 0 <= i < |es| - 1 ==> es[..|es| - 1][i] == es[i];
      m[es[|es| - 1].0 := es[|es| - 1].1]
  }

  const ColorsKey := "workbench.colorCustomizations"
  const TokensKey := "editor.tokenColorCustomizations"

  /** The settings document after the two assignments of merge_settings_json. */
  function Merged(settings: map<string, Json>, colorsDoc: Json, rulesDoc: Json): (r: map<string, Json>)
    ensures r.Keys == settings.Keys + {ColorsKey, TokensKey}
    ensures r[ColorsKey] == colorsDoc
    ensures r[TokensKey] == JObj(map["textMateRules" := rulesDoc])
    ensures forall k :: k in settings && k != ColorsKey && k != TokensKey ==> r[k] == settings[k]
  {
    settings[ColorsKey := colorsDoc][TokensKey := JObj(map["textMateRules" := rulesDoc])]
  }

  /** Merging again with the same inputs changes nothing. */
  lemma MergedIdempotent(settings: map<string, Json>, colorsDoc: Json, rulesDoc: Json)
    ensures Merged(Merged(settings, colorsDoc, rulesDoc), colorsDoc, rulesDoc) == Merged(settings, colorsDoc, rulesDoc)
  {
    var once := Merged(settings, colorsDoc, rulesDoc);
    var twice := Merged(once, colorsDoc, rulesDoc);
    assert forall k :: k in twice ==> twice[k] == once[k];
  }

  /** What merge_settings_json did: wrote the document (after moving an
      unparseable file to `.json.backup` when `backedUp`), or raised because
      the existing document is valid JSON but not an object or because the
      write failed. */
  datatype MergeOutcome = Written(settings: map<string, Json>, backedUp: bool) | Raised

  /** The document that is merged into: the parsed object, or an empty one
      when the file is missing or unparseable. */
  function StartingDoc(file: JsonFile): map<string, Json>
    requires !file.Parsed? || file.doc.JObj?
  {
    if file.Parsed? then file.doc.fields else map[]
  }

  /** merge_settings_json; `writeSucceeds` is whether writing settings.json
      back succeeds, which the script does not catch. */
  method MergeSettingsJson(file: JsonFile, colorsDoc: Json, rulesDoc: Json, writeSucceeds: bool)
    returns (out: MergeOutcome)
    ensures out.Raised? <==> (file.Parsed? && !file.doc.JObj?) || !writeSucceeds
    ensures out.Written? ==> out.settings == Merged(StartingDoc(file), colorsDoc, rulesDoc)
    ensures out.Written? ==> (out.backedUp <==> file.Unparseable?)
  {
    var settings: map<string, Json>;
    var backedUp := false;
    match file {
      case Missing =>
        settings := map[];
      case Unparseable =>
        backedUp := true;
        settings := map[];
      case Parsed(doc) =>
        if !doc.JObj? {
          return Raised;
        }
        settings := doc.fields;
    }
    settings := settings[ColorsKey := colorsDoc];
    settings := settings[TokensKey := JObj(map["textMateRules" := rulesDoc])];
    if !writeSucceeds {
      return Raised;
    }
    return Written(settings, backedUp);
  }

  /** A second run over the document the first run wrote gives that document
      back and makes no backup. */
  lemma SecondRunStable(file: JsonFile, colorsDoc: Json, rulesDoc: Json)
    requires !file.Parsed? || file.doc.JObj?
    ensures var first := Merged(StartingDoc(file), colorsDoc, rulesDoc);
      Merged(StartingDoc(Parsed(JObj(first))), colorsDoc, rulesDoc) == first
  {
    MergedIdempotent(StartingDoc(file), colorsDoc, rulesDoc);
  }

  /** What generate_vscode_theme did. */
  datatype ThemeRun = NoColors | RunRaised | Applied(settings: map<string, Json>, backedUp: bool)

  /** generate_vscode_theme: False when colors.json is missing; an error
      when it is not valid JSON or not an object (only FileNotFoundError is
      caught), or when merging raises; otherwise the colour map and the rules
      are merged into the settings document. The SCSS palette is read twice,
      once here and once inside generate_vscode_colors. */
  method GenerateVscodeTheme(colorsFile: JsonFile, scss: Option<seq<string>>, settingsFile: JsonFile,
                             writeSucceeds: bool)
    returns (run: ThemeRun)
    ensures colorsFile.Missing? <==> run.NoColors?
    ensures run.RunRaised? <==>
              colorsFile.Unparseable? || (colorsFile.Parsed? && !colorsFile.doc.JObj?)
              || (colorsFile.Parsed? && colorsFile.doc.JObj?
                  && ((settingsFile.Parsed? && !settingsFile.doc.JObj?) || !writeSucceeds))
    ensures run.Applied? ==>
      colorsFile.Parsed? && colorsFile.doc.JObj? &&
      var colors := StrFields(colorsFile.doc.fields);
      var term := if scss.None? then map[] else ColorsOf(scss.value);
      run.settings == Merged(StartingDoc(settingsFile),
                             StrObject(ToMap(ColorEntries(ResolveTokens(colors), term))),
                             RulesJson(SyntaxRules(colors)))
  {
    if colorsFile.Missing? {
      return NoColors;
    }
    if colorsFile.Unparseable? || !colorsFile.doc.JObj? {
      return RunRaised;
    }
    var colors := StrFields(colorsFile.doc.fields);
    var termColors := ParseScssColors(scss);
    var entries := GenerateVscodeColors(colors, scss);
    var rules := SyntaxRules(colors);
    var out := MergeSettingsJson(settingsFile, StrObject(ToMap(entries)), RulesJson(rules), writeSucceeds);
    if out.Raised? {
      return RunRaised;
    }
    return Applied(out.settings, out.backedUp);
  }
}
