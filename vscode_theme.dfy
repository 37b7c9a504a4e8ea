/** The VS Code workbench theme builder: colour roles are read from the
    generated palette (values lower-cased), missing roles fall back to fixed
    defaults, the background's luminance decides between a dark and a light
    theme, and a few entries are computed by lightening, darkening or mixing
    RGB channels. Python's floats are modelled as exact reals, and `int()` of a
    non-negative real as its floor. */
module VscodeTheme {
  import opened Text
  import opened Wrappers
  import opened HexColor
  import opened JsonValue

  lemma FloorBetween(x: real, lo: int, hi: int)
    requires lo as real <= x <= hi as real
    ensures lo <= x.Floor <= hi
  {
  }

  /** A non-negative x scaled by d in [0, 1] stays in [0, x]; the product
      is passed as p so that callers name it as their own terms write it. */
  lemma ScaleBounds(x: real, d: real, p: real)
    requires 0.0 <= x && 0.0 <= d <= 1.0 && p == x * d
    ensures 0.0 <= p <= x
  {
  }

  /** c + (255 - c) * delta: blending towards white. */
  function Lighten(c: real, delta: real): real {
    c + (255.0 - c) * delta
  }

  /** c * (1 - (-delta)): blending towards black. */
  function Darken(c: real, delta: real): real {
    c * (1.0 - -delta)
  }

  lemma LightenBounds(c: real, delta: real)
    requires 0.0 <= c <= 255.0 && 0.0 < delta <= 1.0
    ensures c <= Lighten(c, delta) <= 255.0
  {
    ScaleBounds(255.0 - c, delta, (255.0 - c) * delta);
  }

  lemma DarkenBounds(c: real, delta: real)
    requires 0.0 <= c && -1.0 <= delta <= 0.0
    ensures 0.0 <= Darken(c, delta) <= c
  {
    ScaleBounds(c, 1.0 - -delta, c * (1.0 - -delta));
  }

  /** One channel of _adjust_lightness: a positive delta lightens, any other
      darkens, and int() truncates the non-negative result. */
  function AdjustChannel(c: Byte, delta: real): (v: int)
    requires -1.0 <= delta <= 1.0
  {
    if delta > 0.0 then Lighten(c as real, delta).Floor else Darken(c as real, delta).Floor
  }

  /** Lightening never lowers a channel nor passes 255; darkening never
      raises one nor goes below 0. */
  lemma AdjustChannelBounds(c: Byte, delta: real)
    requires -1.0 <= delta <= 1.0
    ensures 0 <= AdjustChannel(c, delta) <= 255
    ensures delta > 0.0 ==> c <= AdjustChannel(c, delta)
    ensures delta <= 0.0 ==> AdjustChannel(c, delta) <= c
  {
    if delta > 0.0 {
      LightenBounds(c as real, delta);
      FloorBetween(Lighten(c as real, delta), c, 255);
    } else {
      DarkenBounds(c as real, delta);
      FloorBetween(Darken(c as real, delta), 0, c);
    }
  }

  function AdjustRgb(c: Rgb, delta: real): (r: Rgb)
    requires -1.0 <= delta <= 1.0
    ensures delta > 0.0 ==> c.r <= r.r && c.g <= r.g && c.b <= r.b
    ensures delta <= 0.0 ==> r.r <= c.r && r.g <= c.g && r.b <= c.b
  {
    AdjustChannelBounds(c.r, delta);
    AdjustChannelBounds(c.g, delta);
    AdjustChannelBounds(c.b, delta);
    Rgb(AdjustChannel(c.r, delta), AdjustChannel(c.g, delta), AdjustChannel(c.b, delta))
  }

  /** Adjusting by 0 darkens by nothing: every channel is kept. */
  lemma AdjustRgbZero(c: Rgb)
    ensures AdjustRgb(c, 0.0) == c
  {
    assert Darken(c.r as real, 0.0) == c.r as real;
    assert Darken(c.g as real, 0.0) == c.g as real;
    assert Darken(c.b as real, 0.0) == c.b as real;
  }

  /** _adjust_lightness: None where _hex_to_rgb raises. */
  function AdjustLightness(color: string, delta: real): (r: Option<string>)
    requires -1.0 <= delta <= 1.0
    ensures r.Some? <==> Parses(color)
    ensures r.Some? ==> IsLowerHexColor(r.value)
  {
    var c := HexToRgb(color);
    if c.None? then None else Some(FormatRgb(AdjustRgb(c.value, delta)))
  }

  /** Adjusting by 0 gives the colour back, normalised to lower case. */
  lemma AdjustByZero(color: string)
    requires IsHexColor(color)
    ensures AdjustLightness(color, 0.0) == Some(Lower(color))
  {
    FormatParse(color);
    AdjustRgbZero(HexToRgb(color).value);
  }

  /** The result parses back to the adjusted channels of the input, so
      lightening raises and darkening lowers every channel. */
  lemma AdjustDecodes(color: string, delta: real)
    requires -1.0 <= delta <= 1.0 && Parses(color)
    ensures AdjustLightness(color, delta).Some?
    ensures HexToRgb(AdjustLightness(color, delta).value) == Some(AdjustRgb(HexToRgb(color).value, delta))
  {
    ParseFormat(AdjustRgb(HexToRgb(color).value, delta));
  }

  /** a * (1 - w) + b * w */
  function Blend(a: real, b: real, w: real): real {
    a * (1.0 - w) + b * w
  }

  lemma BlendForms(a: real, b: real, w: real)
    ensures Blend(a, b, w) == a + (b - a) * w
    ensures Blend(a, b, w) == b + (a - b) * (1.0 - w)
  {
  }

  /** The blend lies between its two ends. */
  lemma BlendBounds(a: real, b: real, w: real)
    requires 0.0 <= w <= 1.0
    ensures a <= b ==> a <= Blend(a, b, w) <= b
    ensures b <= a ==> b <= Blend(a, b, w) <= a
  {
    BlendForms(a, b, w);
    if a <= b {
      ScaleBounds(b - a, w, (b - a) * w);
    } else {
      ScaleBounds(a - b, 1.0 - w, (a - b) * (1.0 - w));
    }
  }

  /** int(a * (1 - w) + b * w) */
  function MixChannel(a: Byte, b: Byte, w: real): (v: int)
    requires 0.0 <= w <= 1.0
  {
    Blend(a as real, b as real, w).Floor
  }

  /** A mixed channel lies between the two inputs. */
  lemma MixChannelBounds(a: Byte, b: Byte, w: real)
    requires 0.0 <= w <= 1.0
    ensures (a <= b ==> a <= MixChannel(a, b, w) <= b) && (b <= a ==> b <= MixChannel(a, b, w) <= a)
  {
    BlendBounds(a as real, b as real, w);
    if a <= b {
      FloorBetween(Blend(a as real, b as real, w), a, b);
    } else {
      FloorBetween(Blend(a as real, b as real, w), b, a);
    }
  }

  function MixRgb(a: Rgb, b: Rgb, w: real): (m: Rgb)
    requires 0.0 <= w <= 1.0
  {
    MixChannelBounds(a.r, b.r, w);
    MixChannelBounds(a.g, b.g, w);
    MixChannelBounds(a.b, b.b, w);
    Rgb(MixChannel(a.r, b.r, w), MixChannel(a.g, b.g, w), MixChannel(a.b, b.b, w))
  }

  predicate Between(x: int, a: int, b: int) {
    (a <= x <= b) || (b <= x <= a)
  }

  /** Every mixed channel lies between the two colours' channels. */
  lemma MixRgbBetween(a: Rgb, b: Rgb, w: real)
    requires 0.0 <= w <= 1.0
    ensures var m := MixRgb(a, b, w);
      Between(m.r, a.r, b.r) && Between(m.g, a.g, b.g) && Between(m.b, a.b, b.b)
  {
    MixChannelBounds(a.r, b.r, w);
    MixChannelBounds(a.g, b.g, w);
    MixChannelBounds(a.b, b.b, w);
  }

  /** Weight 0 gives the first colour, weight 1 the second. */
  lemma MixRgbEnds(a: Rgb, b: Rgb)
    ensures MixRgb(a, b, 0.0) == a && MixRgb(a, b, 1.0) == b
  {
    assert Blend(a.r as real, b.r as real, 0.0) == a.r as real && Blend(a.r as real, b.r as real, 1.0) == b.r as real;
    assert Blend(a.g as real, b.g as real, 0.0) == a.g as real && Blend(a.g as real, b.g as real, 1.0) == b.g as real;
    assert Blend(a.b as real, b.b as real, 0.0) == a.b as real && Blend(a.b as real, b.b as real, 1.0) == b.b as real;
  }

  /** _mix: None where either colour fails to parse. */
  function Mix(a: string, b: string, w: real): (r: Option<string>)
    requires 0.0 <= w <= 1.0
    ensures r.Some? <==> Parses(a) && Parses(b)
    ensures r.Some? ==> IsLowerHexColor(r.value)
  {
    var ca := HexToRgb(a);
    var cb := HexToRgb(b);
    if ca.None? || cb.None? then None else Some(FormatRgb(MixRgb(ca.value, cb.value, w)))
  }

  /** Mixing with weight 0 gives the first colour, with weight 1 the second
      (both lower-cased). */
  lemma MixEnds(a: string, b: string)
    requires IsHexColor(a) && IsHexColor(b)
    ensures Mix(a, b, 0.0) == Some(Lower(a))
    ensures Mix(a, b, 1.0) == Some(Lower(b))
  {
    FormatParse(a);
    FormatParse(b);
    MixRgbEnds(HexToRgb(a).value, HexToRgb(b).value);
  }

  /** luminance = (0.299 r + 0.587 g + 0.114 b) / 255; dark below 0.5. */
  predicate IsDark(bg: Rgb) {
    (0.299 * bg.r as real + 0.587 * bg.g as real + 0.114 * bg.b as real) / 255.0 < 0.5
  }

  /** The same test in integer weights. */
  lemma IsDarkInteger(bg: Rgb)
    ensures IsDark(bg) <==> 299 * bg.r + 587 * bg.g + 114 * bg.b < 127500
  {
  }

  /** What _load_colors hands to main: the FileNotFoundError that main
      catches, an exception main does not catch, or the palette. */
  datatype Loaded = NotFound | LoadRaised | Loaded(colors: map<string, string>)

  /** Whether every field of an object is a string, so `v.lower()` applies. */
  predicate AllStrings(fields: map<string, Json>) {
    forall k :: k in fields ==> fields[k].JStr?
  }

  /** _load_colors: NotFound where the file does not exist. json.load raises
      on a file that is not JSON, `data.items()` on a root that is not an
      object, and `v.lower()` on a value that is not a string; otherwise
      every value is lower-cased under its own key. */
  function LoadColors(file: JsonFile): (r: Loaded)
    ensures r.NotFound? <==> file.Missing?
    ensures r.LoadRaised? <==>
      file.Unparseable? || (file.Parsed? && (!file.doc.JObj? || !AllStrings(file.doc.fields)))
    ensures r.Loaded? ==>
      (file.Parsed? && file.doc.JObj? && r.colors.Keys == file.doc.fields.Keys
       && forall k :: k in r.colors ==>
            r.colors[k] == Lower(file.doc.fields[k].s) && IsLowerStr(r.colors[k]))
  {
    match file
    case Missing => NotFound
    case Unparseable => LoadRaised
    case Parsed(doc) =>
      if !doc.JObj? || !AllStrings(doc.fields) then LoadRaised
      else
        var m := map k | k in doc.fields :: Lower(doc.fields[k].s);
        assert forall k :: k in m ==> IsLowerStr(m[k]) by {
          forall k | k in m ensures IsLowerStr(m[k]) { LowerIsLower(doc.fields[k].s); }
        }
        Loaded(m)
  }

  /** A file holding an object of lower-case strings loads as exactly that
      palette, so loading what a load produced changes nothing. */
  lemma LoadColorsStable(m: map<string, string>)
    requires forall k :: k in m ==> IsLowerStr(m[k])
    ensures LoadColors(Parsed(StrObject(m))) == Loaded(m)
  {
    var r := LoadColors(Parsed(StrObject(m)));
    forall k | k in m ensures r.colors[k] == m[k] {
      LowerOfLower(m[k]);
    }
  }

  function Get(colors: map<string, string>, key: string, default: string): string {
    if key in colors then colors[key] else default
  }

  /** The colour roles _build_vscode_theme reads, each resolved with
      colors.get(role, default). */
  datatype Roles = Roles(
    background: string, surface: string, surfaceContainer: string, surfaceContainerHigh: string,
    surfaceContainerHighest: string, surfaceBright: string, foreground: string, onSurface: string,
    onSurfaceVariant: string, primary: string, onPrimary: string, primaryContainer: string,
    onPrimaryContainer: string, secondary: string, secondaryContainer: string, tertiary: string,
    error: string, onError: string, errorContainer: string, outline: string, outlineVariant: string)

  function ResolveRoles(colors: map<string, string>): Roles {
    Roles(
      Get(colors, "background", "#1e1e2e"),
      Get(colors, "surface", "#1e1e2e"),
      Get(colors, "surface_container", "#313244"),
      Get(colors, "surface_container_high", "#45475a"),
      Get(colors, "surface_container_highest", "#585b70"),
      Get(colors, "surface_bright", "#313244"),
      Get(colors, "on_background", "#cdd6f4"),
      Get(colors, "on_surface", "#cdd6f4"),
      Get(colors, "on_surface_variant", "#bac2de"),
      Get(colors, "primary", "#cba6f7"),
      Get(colors, "on_primary", "#1e1e2e"),
      Get(colors, "primary_container", "#45475a"),
      Get(colors, "on_primary_container", "#f5c2e7"),
      Get(colors, "secondary", "#f5c2e7"),
      Get(colors, "secondary_container", "#45475a"),
      Get(colors, "tertiary", "#94e2d5"),
      Get(colors, "error", "#f38ba8"),
      Get(colors, "on_error", "#1e1e2e"),
      Get(colors, "error_container", "#45475a"),
      Get(colors, "outline", "#6c7086"),
      Get(colors, "outline_variant", "#45475a"))
  }

  /** The roles that are parsed as RGB while the theme is built (for the
      luminance test, the lightened, darkened and mixed entries, and the
      translucent rgba() entries). If any of them fails to parse, the build
      raises. */
  predicate RolesParse(r: Roles) {
    Parses(r.background) && Parses(r.surface) && Parses(r.surfaceContainer) && Parses(r.primary)
    && Parses(r.primaryContainer) && Parses(r.error) && Parses(r.tertiary) && Parses(r.outline)
  }

  predicate BuildSucceeds(colors: map<string, string>) {
    RolesParse(ResolveRoles(colors))
  }

  /** A theme's "colors" object as its entries in insertion order, which is
      the order json.dump writes them in. The model keeps a subset of the
      entries, in the order the dict literal gives them. */
  type Entries = seq<(string, string)>

  datatype Theme = Theme(name: string, kind: string, colors: Entries, tokenColors: seq<string>)

  /** Entries copied straight from resolved roles. */
  function BaseEntries(r: Roles): (es: Entries)
    ensures |es| == 6
  {
    [ ("foreground", r.foreground),
      ("background", r.background),
      ("editor.foreground", r.foreground),
      ("editor.background", r.surface),
      ("editorCursor.foreground", r.primary),
      ("editorCursor.background", r.background) ]
  }

  /** The keys of the computed entries, in order, with their values. */
  function ComputedLayout(inlayHint: string, debugging: string, prominentHover: string, warning: string,
                          orange: string, hover: string, extensionHover: string): (es: Entries)
    ensures |es| == 7
  {
    [ ("editorInlayHint.background", inlayHint),
      ("statusBar.debuggingBackground", debugging),
      ("statusBarItem.prominentHoverBackground", prominentHover),
      ("inputValidation.warningBackground", warning),
      ("charts.orange", orange),
      ("button.hoverBackground", hover),
      ("extensionButton.prominentHoverBackground", extensionHover) ]
  }

  /** The computed entries for the two lightness steps of the theme. */
  function ComputedWith(r: Roles, small: real, medium: real): (es: Entries)
    requires RolesParse(r) && -1.0 <= small <= 1.0 && -1.0 <= medium <= 1.0
    ensures |es| == 7
  {
    ComputedLayout(
      AdjustLightness(r.surface, small).value,
      Mix(r.error, r.surfaceContainer, 0.5).value,
      AdjustLightness(r.primaryContainer, small).value,
      Mix(r.tertiary, r.surfaceContainer, 0.3).value,
      Mix(r.error, r.tertiary, 0.5).value,
      AdjustLightness(r.primary, medium).value,
      AdjustLightness(r.primary, medium).value)
  }

  /** Entries computed by channel arithmetic: lightened by 0.05 and 0.08 in a
      dark theme, darkened by as much in a light one. */
  function ComputedEntries(r: Roles, dark: bool): (es: Entries)
    requires RolesParse(r)
    ensures |es| == 7
  {
    if dark then ComputedWith(r, 0.05, 0.08) else ComputedWith(r, -0.05, -0.08)
  }

  /** The keys of the terminal block, in order, with their values. */
  function TerminalLayout(
    background: string, foreground: string, black: string, white: string, red: string,
    green: string, yellow: string, blue: string, magenta: string, cyan: string,
    brightBlack: string, brightWhite: string, brightRed: string, brightGreen: string, brightYellow: string,
    brightBlue: string, brightMagenta: string, brightCyan: string, cursor: string, cursorBackground: string): (es: Entries)
    ensures |es| == 20
  {
    [
      ("terminal.background", background),
      ("terminal.foreground", foreground),
      ("terminal.ansiBlack", black),
      ("terminal.ansiWhite", white),
      ("terminal.ansiRed", red),
      ("terminal.ansiGreen", green),
      ("terminal.ansiYellow", yellow),
      ("terminal.ansiBlue", blue),
      ("terminal.ansiMagenta", magenta),
      ("terminal.ansiCyan", cyan),
      ("terminal.ansiBrightBlack", brightBlack),
      ("terminal.ansiBrightWhite", brightWhite),
      ("terminal.ansiBrightRed", brightRed),
      ("terminal.ansiBrightGreen", brightGreen),
      ("terminal.ansiBrightYellow", brightYellow),
      ("terminal.ansiBrightBlue", brightBlue),
      ("terminal.ansiBrightMagenta", brightMagenta),
      ("terminal.ansiBrightCyan", brightCyan),
      ("terminalCursor.foreground", cursor),
      ("terminalCursor.background", cursorBackground) ]
  }

  /** The terminal block: term1..term6 and term9..term14 from the palette,
      each with its role or literal fallback. */
  function TerminalEntries(colors: map<string, string>, r: Roles, dark: bool): (es: Entries)
    ensures |es| == 20
  {
    TerminalLayout(
      r.background,
      r.foreground,
      if dark then "#000000" else r.foreground,
      if dark then "#ffffff" else r.background,
      Get(colors, "term1", r.error),
      Get(colors, "term2", "#a6e3a1"),
      Get(colors, "term3", "#f9e2af"),
      Get(colors, "term4", "#89b4fa"),
      Get(colors, "term5", r.secondary),
      Get(colors, "term6", r.tertiary),
      r.outline,
      if dark then r.onSurface else r.background,
      Get(colors, "term9", r.error),
      Get(colors, "term10", "#a6e3a1"),
      Get(colors, "term11", "#f9e2af"),
      Get(colors, "term12", "#89b4fa"),
      Get(colors, "term13", r.secondary),
      Get(colors, "term14", r.tertiary),
      r.primary,
      r.background)
  }

  /** The modelled entries of the theme's "colors" object, for roles
      resolved from the palette: the base entries, the three computed entries
      the dict lists before the terminal block, the terminal block, and the
      four computed entries it lists after. */
  function ThemeColors(colors: map<string, string>, r: Roles, dark: bool): (es: Entries)
    requires RolesParse(r)
    ensures |es| == 33
  {
    Layout(BaseEntries(r), ComputedEntries(r, dark), TerminalEntries(colors, r, dark))
  }

  /** Base entries, the first three computed ones, the terminal block, the
      remaining computed ones. */
  function Layout(base: Entries, computed: Entries, terminal: Entries): (es: Entries)
    requires |computed| == 7
    ensures |es| == |base| + 7 + |terminal|
  {
    base + computed[..3] + terminal + computed[3..]
  }

  /** Where each block sits in the theme's entries. */
  lemma ThemeColorsParts(colors: map<string, string>, r: Roles, dark: bool)
    requires RolesParse(r)
    ensures forall k :: 0 <= k < 6 ==> ThemeColors(colors, r, dark)[k] == BaseEntries(r)[k]
    ensures forall k :: 0 <= k < 3 ==> ThemeColors(colors, r, dark)[6 + k] == ComputedEntries(r, dark)[k]
    ensures forall k :: 0 <= k < 20 ==> ThemeColors(colors, r, dark)[9 + k] == TerminalEntries(colors, r, dark)[k]
    ensures forall k :: 3 <= k < 7 ==> ThemeColors(colors, r, dark)[26 + k] == ComputedEntries(r, dark)[k]
  {
    LayoutIndex(ThemeColors(colors, r, dark), BaseEntries(r), ComputedEntries(r, dark), TerminalEntries(colors, r, dark));
  }

  lemma LayoutIndex(es: Entries, base: Entries, computed: Entries, terminal: Entries)
    requires |base| == 6 && |computed| == 7 && |terminal| == 20
    requires es == Layout(base, computed, terminal)
    ensures forall k :: 0 <= k < 6 ==> es[k] == base[k]
    ensures forall k :: 0 <= k < 3 ==> es[6 + k] == computed[k]
    ensures forall k :: 0 <= k < 20 ==> es[9 + k] == terminal[k]
    ensures forall k :: 3 <= k < 7 ==> es[26 + k] == computed[k]
  {
  }

  predicate AllValuesHex(es: Entries) {
    forall i :: 0 <= i < |es| ==> IsHexColor(es[i].1)
  }

  /** The theme built from resolved roles: dark or light by the
      background's luminance. */
  function ThemeFor(colors: map<string, string>, r: Roles): (t: Theme)
    requires RolesParse(r)
    ensures t.name == "iNiR Material" && t.tokenColors == []
    ensures t.kind == "dark" <==> IsDark(HexToRgb(r.background).value)
    ensures t.kind == "light" <==> !IsDark(HexToRgb(r.background).value)
  {
    var dark := IsDark(HexToRgb(r.background).value);
    Theme("iNiR Material", if dark then "dark" else "light", ThemeColors(colors, r, dark), [])
  }

  /** _build_vscode_theme: None where a parsed role is not a colour (the
      ValueError escapes); otherwise a theme whose type is "dark" exactly when
      the background is dark, and whose tokenColors list is empty. */
  function BuildVscodeTheme(colors: map<string, string>): (t: Option<Theme>)
    ensures t.Some? <==> BuildSucceeds(colors)
    ensures t.Some? ==>
      (t.value.name == "iNiR Material" && t.value.tokenColors == []
       && (t.value.kind == "dark" <==> IsDark(HexToRgb(ResolveRoles(colors).background).value))
       && (t.value.kind == "light" <==> !IsDark(HexToRgb(ResolveRoles(colors).background).value)))
  {
    if !BuildSucceeds(colors) then None
    else Some(ThemeFor(colors, ResolveRoles(colors)))
  }

  /** A palette holding only `#rrggbb` values. */
  predicate AllHex(colors: map<string, string>) {
    forall k :: k in colors ==> IsHexColor(colors[k])
  }

  lemma GetHex(colors: map<string, string>, key: string, default: string)
    requires AllHex(colors) && IsHexColor(default)
    ensures IsHexColor(Get(colors, key, default))
  {
  }

  predicate RolesHex(r: Roles) {
    IsHexColor(r.background) && IsHexColor(r.surface) && IsHexColor(r.surfaceContainer)
    && IsHexColor(r.foreground) && IsHexColor(r.onSurface) && IsHexColor(r.primary)
    && IsHexColor(r.primaryContainer) && IsHexColor(r.secondary) && IsHexColor(r.tertiary)
    && IsHexColor(r.error) && IsHexColor(r.outline)
  }

  lemma ResolveRolesHex(colors: map<string, string>)
    requires AllHex(colors)
    ensures RolesHex(ResolveRoles(colors))
  {
    GetHex(colors, "background", "#1e1e2e");
    GetHex(colors, "surface", "#1e1e2e");
    GetHex(colors, "surface_container", "#313244");
    GetHex(colors, "on_background", "#cdd6f4");
    GetHex(colors, "on_surface", "#cdd6f4");
    GetHex(colors, "primary", "#cba6f7");
    GetHex(colors, "primary_container", "#45475a");
    GetHex(colors, "secondary", "#f5c2e7");
    GetHex(colors, "tertiary", "#94e2d5");
    GetHex(colors, "error", "#f38ba8");
    GetHex(colors, "outline", "#6c7086");
  }

  /** Roles that are all `#rrggbb` colours parse, so the build goes through. */
  lemma RolesHexParse(r: Roles)
    requires RolesHex(r)
    ensures RolesParse(r)
  {
    HexColorParses(r.background);
    HexColorParses(r.surface);
    HexColorParses(r.surfaceContainer);
    HexColorParses(r.primary);
    HexColorParses(r.primaryContainer);
    HexColorParses(r.error);
    HexColorParses(r.tertiary);
    HexColorParses(r.outline);
  }

  lemma TerminalLayoutHex(
    background: string, foreground: string, black: string, white: string, red: string,
    green: string, yellow: string, blue: string, magenta: string, cyan: string,
    brightBlack: string, brightWhite: string, brightRed: string, brightGreen: string, brightYellow: string,
    brightBlue: string, brightMagenta: string, brightCyan: string, cursor: string, cursorBackground: string)
    requires IsHexColor(background) && IsHexColor(foreground) && IsHexColor(black) && IsHexColor(white) && IsHexColor(red)
    requires IsHexColor(green) && IsHexColor(yellow) && IsHexColor(blue) && IsHexColor(magenta) && IsHexColor(cyan)
    requires IsHexColor(brightBlack) && IsHexColor(brightWhite) && IsHexColor(brightRed) && IsHexColor(brightGreen) && IsHexColor(brightYellow)
    requires IsHexColor(brightBlue) && IsHexColor(brightMagenta) && IsHexColor(brightCyan) && IsHexColor(cursor) && IsHexColor(cursorBackground)
    ensures AllValuesHex(TerminalLayout(
      background, foreground, black, white, red,
      green, yellow, blue, magenta, cyan,
      brightBlack, brightWhite, brightRed, brightGreen, brightYellow,
      brightBlue, brightMagenta, brightCyan, cursor, cursorBackground))
  {
  }

  lemma TerminalEntriesHex(colors: map<string, string>, r: Roles, dark: bool)
    requires AllHex(colors) && RolesHex(r)
    ensures AllValuesHex(TerminalEntries(colors, r, dark))
  {
    GetHex(colors, "term1", r.error);
    GetHex(colors, "term2", "#a6e3a1");
    GetHex(colors, "term3", "#f9e2af");
    GetHex(colors, "term4", "#89b4fa");
    GetHex(colors, "term5", r.secondary);
    GetHex(colors, "term6", r.tertiary);
    GetHex(colors, "term9", r.error);
    GetHex(colors, "term10", "#a6e3a1");
    GetHex(colors, "term11", "#f9e2af");
    GetHex(colors, "term12", "#89b4fa");
    GetHex(colors, "term13", r.secondary);
    GetHex(colors, "term14", r.tertiary);
    assert IsHexColor("#000000") && IsHexColor("#ffffff");
    TerminalLayoutHex(
      r.background,
      r.foreground,
      if dark then "#000000" else r.foreground,
      if dark then "#ffffff" else r.background,
      Get(colors, "term1", r.error),
      Get(colors, "term2", "#a6e3a1"),
      Get(colors, "term3", "#f9e2af"),
      Get(colors, "term4", "#89b4fa"),
      Get(colors, "term5", r.secondary),
      Get(colors, "term6", r.tertiary),
      r.outline,
      if dark then r.onSurface else r.background,
      Get(colors, "term9", r.error),
      Get(colors, "term10", "#a6e3a1"),
      Get(colors, "term11", "#f9e2af"),
      Get(colors, "term12", "#89b4fa"),
      Get(colors, "term13", r.secondary),
      Get(colors, "term14", r.tertiary),
      r.primary,
      r.background);
  }

  lemma ComputedLayoutHex(inlayHint: string, debugging: string, prominentHover: string, warning: string,
                          orange: string, hover: string, extensionHover: string)
    requires IsLowerHexColor(inlayHint) && IsLowerHexColor(debugging) && IsLowerHexColor(prominentHover)
    requires IsLowerHexColor(warning) && IsLowerHexColor(orange) && IsLowerHexColor(hover)
    requires IsLowerHexColor(extensionHover)
    ensures AllValuesHex(ComputedLayout(inlayHint, debugging, prominentHover, warning, orange, hover, extensionHover))
  {
    LowerHexIsHex(inlayHint);
    LowerHexIsHex(debugging);
    LowerHexIsHex(prominentHover);
    LowerHexIsHex(warning);
    LowerHexIsHex(orange);
    LowerHexIsHex(hover);
    LowerHexIsHex(extensionHover);
  }

  lemma ComputedWithHex(r: Roles, small: real, medium: real)
    requires RolesParse(r) && -1.0 <= small <= 1.0 && -1.0 <= medium <= 1.0
    ensures AllValuesHex(ComputedWith(r, small, medium))
  {
    ComputedLayoutHex(
      AdjustLightness(r.surface, small).value,
      Mix(r.error, r.surfaceContainer, 0.5).value,
      AdjustLightness(r.primaryContainer, small).value,
      Mix(r.tertiary, r.surfaceContainer, 0.3).value,
      Mix(r.error, r.tertiary, 0.5).value,
      AdjustLightness(r.primary, medium).value,
      AdjustLightness(r.primary, medium).value);
  }

  /** Every computed entry is a `#rrggbb` colour. */
  lemma ComputedEntriesHex(r: Roles, dark: bool)
    requires RolesParse(r)
    ensures AllValuesHex(ComputedEntries(r, dark))
  {
    if dark {
      ComputedWithHex(r, 0.05, 0.08);
    } else {
      ComputedWithHex(r, -0.05, -0.08);
    }
  }

  lemma AppendHex(a: Entries, b: Entries)
    requires AllValuesHex(a) && AllValuesHex(b)
    ensures AllValuesHex(a + b)
  {
    forall i | 0 <= i < |a + b| ensures IsHexColor((a + b)[i].1) {
      if i >= |a| {
        assert (a + b)[i] == b[i - |a|];
      }
    }
  }

  lemma BaseEntriesHex(r: Roles)
    requires RolesHex(r)
    ensures AllValuesHex(BaseEntries(r))
  {
  }

  lemma Append4Hex(a: Entries, b: Entries, c: Entries, d: Entries)
    requires AllValuesHex(a) && AllValuesHex(b) && AllValuesHex(c) && AllValuesHex(d)
    ensures AllValuesHex(a + b + c + d)
  {
    AppendHex(a, b);
    AppendHex(a + b, c);
    AppendHex(a + b + c, d);
  }

  lemma SplitHex(es: Entries, i: nat)
    requires i <= |es| && AllValuesHex(es)
    ensures AllValuesHex(es[..i]) && AllValuesHex(es[i..])
  {
    assert forall k :: 0 <= k < |es| - i ==> es[i..][k] == es[i + k];
  }

  lemma ThemeColorsHex(colors: map<string, string>, r: Roles, dark: bool)
    requires AllHex(colors) && RolesHex(r) && RolesParse(r)
    ensures AllValuesHex(ThemeColors(colors, r, dark))
  {
    BaseEntriesHex(r);
    ComputedEntriesHex(r, dark);
    TerminalEntriesHex(colors, r, dark);
    var c := ComputedEntries(r, dark);
    SplitHex(c, 3);
    Append4Hex(BaseEntries(r), c[..3], TerminalEntries(colors, r, dark), c[3..]);
    assert ThemeColors(colors, r, dark) == Layout(BaseEntries(r), c, TerminalEntries(colors, r, dark));
  }

  /** A palette holding only `#rrggbb` values always builds, and every
      modelled theme entry is then a `#rrggbb` colour. */
  lemma HexPaletteBuilds(colors: map<string, string>)
    requires AllHex(colors)
    ensures BuildSucceeds(colors)
    ensures AllValuesHex(BuildVscodeTheme(colors).value.colors)
  {
    ResolveRolesHex(colors);
    var r := ResolveRoles(colors);
    RolesHexParse(r);
    var dark := IsDark(HexToRgb(r.background).value);
    ThemeColorsHex(colors, r, dark);
    BuildColors(colors);
  }

  lemma BuildColors(colors: map<string, string>)
    requires BuildSucceeds(colors)
    ensures BuildVscodeTheme(colors).Some?
    ensures var r := ResolveRoles(colors);
            BuildVscodeTheme(colors).value.colors == ThemeColors(colors, r, IsDark(HexToRgb(r.background).value))
  {
  }

  /** The default background #1e1e2e is (30, 30, 46), a dark colour. */
  lemma DefaultBackgroundDark()
    ensures HexToRgb("#1e1e2e") == Some(Rgb(30, 30, 46))
    ensures IsDark(Rgb(30, 30, 46))
  {
    HexColorParses("#1e1e2e");
    assert "#1e1e2e"[1..] == "1e1e2e";
    IsDarkInteger(Rgb(30, 30, 46));
  }

  lemma {:induction false} EmptyRoles()
    ensures ResolveRoles(map[]) == Roles(
      "#1e1e2e", "#1e1e2e", "#313244", "#45475a", "#585b70", "#313244", "#cdd6f4", "#cdd6f4",
      "#bac2de", "#cba6f7", "#1e1e2e", "#45475a", "#f5c2e7", "#f5c2e7", "#45475a", "#94e2d5",
      "#f38ba8", "#1e1e2e", "#45475a", "#6c7086", "#45475a")
  {
  }

  lemma EmptyPaletteDark()
    ensures BuildSucceeds(map[])
    ensures BuildVscodeTheme(map[]).value.kind == "dark"
  {
    ResolveRolesHex(map[]);
    RolesHexParse(ResolveRoles(map[]));
    EmptyRoles();
    DefaultBackgroundDark();
  }

  lemma EmptyPaletteSlots()
    ensures var r := ResolveRoles(map[]);
      var es := TerminalEntries(map[], r, true);
      es[0] == ("terminal.background", "#1e1e2e")
      && es[1] == ("terminal.foreground", "#cdd6f4")
      && es[4] == ("terminal.ansiRed", "#f38ba8")
      && es[8] == ("terminal.ansiMagenta", "#f5c2e7")
      && es[11] == ("terminal.ansiBrightWhite", "#cdd6f4")
      && BaseEntries(r)[4] == ("editorCursor.foreground", "#cba6f7")
  {
    EmptyRoles();
  }

  /** With nothing in the palette every role takes its default: the default
      background is dark, and the terminal slots fall back through the role
      chain (term1 to the default error colour, term5 to the default
      secondary colour). */
  lemma EmptyPaletteTheme()
    ensures BuildSucceeds(map[])
    ensures var t := BuildVscodeTheme(map[]).value;
      t.kind == "dark"
      && t.colors[9] == ("terminal.background", "#1e1e2e")
      && t.colors[10] == ("terminal.foreground", "#cdd6f4")
      && t.colors[4] == ("editorCursor.foreground", "#cba6f7")
      && t.colors[13] == ("terminal.ansiRed", "#f38ba8")
      && t.colors[17] == ("terminal.ansiMagenta", "#f5c2e7")
      && t.colors[20] == ("terminal.ansiBrightWhite", "#cdd6f4")
  {
    EmptyPaletteDark();
    EmptyPaletteSlots();
    ThemeColorsParts(map[], ResolveRoles(map[]), true);
  }

  lemma HoverEntry(r: Roles, dark: bool)
    requires RolesParse(r)
    ensures ComputedEntries(r, dark)[5] == ("button.hoverBackground", AdjustLightness(r.primary, if dark then 0.08 else -0.08).value)
  {
  }

  /** HoverFollowsKind for roles already resolved. */
  lemma ThemeForHover(colors: map<string, string>, r: Roles)
    requires RolesParse(r)
    ensures var t := ThemeFor(colors, r);
      var p := HexToRgb(r.primary).value;
      t.colors[31].0 == "button.hoverBackground"
      && var hover := HexToRgb(t.colors[31].1);
      hover.Some?
      && (t.kind == "dark" ==> p.r <= hover.value.r && p.g <= hover.value.g && p.b <= hover.value.b)
      && (t.kind == "light" ==> hover.value.r <= p.r && hover.value.g <= p.g && hover.value.b <= p.b)
  {
    var dark := IsDark(HexToRgb(r.background).value);
    AdjustDecodes(r.primary, if dark then 0.08 else -0.08);
    HoverSlot(colors, r, dark);
  }

  lemma HoverSlot(colors: map<string, string>, r: Roles, dark: bool)
    requires RolesParse(r)
    ensures ThemeColors(colors, r, dark)[31] == ("button.hoverBackground", AdjustLightness(r.primary, if dark then 0.08 else -0.08).value)
  {
    HoverEntry(r, dark);
    ThemeColorsParts(colors, r, dark);
    assert ThemeColors(colors, r, dark)[26 + 5] == ComputedEntries(r, dark)[5];
  }

  /** The hover colours move away from the background: lighter than the
      primary colour in a dark theme, darker in a light one. */
  lemma HoverFollowsKind(colors: map<string, string>)
    requires BuildSucceeds(colors)
    ensures var t := BuildVscodeTheme(colors).value;
      var p := HexToRgb(ResolveRoles(colors).primary).value;
      |t.colors| > 31 && t.colors[31].0 == "button.hoverBackground"
      && var hover := HexToRgb(t.colors[31].1);
      hover.Some?
      && (t.kind == "dark" ==> p.r <= hover.value.r && p.g <= hover.value.g && p.b <= hover.value.b)
      && (t.kind == "light" ==> hover.value.r <= p.r && hover.value.g <= p.g && hover.value.b <= p.b)
  {
    ThemeForHover(colors, ResolveRoles(colors));
  }
}
