/** The Chromium GM3 theme manager: it reads the generated palette, picks a
    seed colour and hands each installed Chromium-family browser one command
    line carrying `--set-user-color=R,G,B` and `--set-color-scheme=dark|light`.
    Which binaries are on PATH and what a command invocation does are inputs. */
module ChromiumTheme {
  import opened Text
  import opened Wrappers
  import opened HexColor
  import opened ScssPalette

  /** The names in BROWSER_REGISTRY, in order. */
  const RegistryNames: seq<string> := ["chromium", "brave"]

  /** BROWSER_REGISTRY.get(name)["binary"]: each registered browser runs the
      binary of its own name. */
  function BinaryOf(name: string): (b: Option<string>)
    ensures b.Some? <==> name in RegistryNames
    ensures b.Some? ==> b.value == name
  {
    if name == "chromium" then Some("chromium")
    else if name == "brave" then Some("brave")
    else None
  }

  /** is_browser_installed: a registered browser whose binary `shutil.which`
      finds; `onPath` is the set of binaries found. */
  predicate IsBrowserInstalled(name: string, onPath: set<string>) {
    var b := BinaryOf(name);
    b.Some? && b.value in onPath
  }

  lemma UnknownNotInstalled(name: string, onPath: set<string>)
    requires name !in RegistryNames
    ensures !IsBrowserInstalled(name, onPath)
  {
  }

  /** `sub` is obtained from `s` by dropping elements, keeping their order. */
  predicate IsSubsequence<T(==)>(sub: seq<T>, s: seq<T>)
    decreases |s|
  {
    if sub == [] then true
    else if s == [] then false
    else if sub[0] == s[0] then IsSubsequence(sub[1..], s[1..])
    else IsSubsequence(sub, s[1..])
  }

  function FilterInstalled(names: seq<string>, onPath: set<string>): (r: seq<string>)
    ensures forall n :: n in r <==> n in names && IsBrowserInstalled(n, onPath)
    ensures IsSubsequence(r, names)
  {
    if names == [] then []
    else if IsBrowserInstalled(names[0], onPath) then [names[0]] + FilterInstalled(names[1..], onPath)
    else FilterInstalled(names[1..], onPath)
  }

  /** get_installed_browsers: the registry names whose binary is installed,
      in registry order. */
  function InstalledBrowsers(onPath: set<string>): (r: seq<string>)
    ensures forall n :: n in r <==> IsBrowserInstalled(n, onPath)
    ensures IsSubsequence(r, RegistryNames)
  {
    FilterInstalled(RegistryNames, onPath)
  }

  function Lookup(colors: map<string, string>, key: string, default: string): string {
    if key in colors then colors[key] else default
  }

  /** The seed: primary_paletteKeyColor, else primary, else #458588. */
  function SeedColor(colors: map<string, string>): (seed: string)
    ensures "primary_paletteKeyColor" in colors ==> seed == colors["primary_paletteKeyColor"]
    ensures "primary_paletteKeyColor" !in colors && "primary" in colors ==> seed == colors["primary"]
    ensures "primary_paletteKeyColor" !in colors && "primary" !in colors ==> seed == "#458588"
  {
    Lookup(colors, "primary_paletteKeyColor", Lookup(colors, "primary", "#458588"))
  }

  lemma SeedColorValid(colors: map<string, string>)
    requires ValidPalette(colors)
    ensures IsHexColor(SeedColor(colors)) && HexToRgb(SeedColor(colors)).Some?
  {
    var s := SeedColor(colors);
    if "primary_paletteKeyColor" !in colors && "primary" !in colors {
      assert IsHexColor(s);
    }
    HexColorParses(s);
  }

  function SchemeToken(darkmode: bool): (t: string)
    ensures t == "dark" <==> darkmode
    ensures t == "light" <==> !darkmode
  {
    if darkmode then "dark" else "light"
  }

  /** f"{r},{g},{b}" */
  function RgbArg(c: Rgb): string {
    Decimal(c.r) + "," + Decimal(c.g) + "," + Decimal(c.b)
  }

  /** The single invocation carrying both GM3 switches. */
  function Gm3Command(binary: string, c: Rgb, darkmode: bool): (cmd: seq<string>)
    ensures |cmd| == 4 && cmd[0] == binary && cmd[1] == "--no-startup-window"
    ensures cmd[2] == "--set-user-color=" + RgbArg(c)
    ensures cmd[3] == "--set-color-scheme=" + SchemeToken(darkmode)
  {
    [binary, "--no-startup-window", "--set-user-color=" + RgbArg(c), "--set-color-scheme=" + SchemeToken(darkmode)]
  }

  lemma NoCommaInDecimal(n: nat)
    ensures ',' !in Decimal(n)
  {
  }

  /** The user-colour switch can be read back: its value splits at ',' into
      three decimal numbers that are the seed's channels. */
  lemma UserColorRoundTrip(binary: string, c: Rgb, darkmode: bool)
    ensures var cmd := Gm3Command(binary, c, darkmode);
      var prefix := "--set-user-color=";
      prefix <= cmd[2] &&
      Split(cmd[2][|prefix|..], ',') == [Decimal(c.r), Decimal(c.g), Decimal(c.b)]
  {
    var prefix := "--set-user-color=";
    var arg := Gm3Command(binary, c, darkmode)[2];
    assert arg[|prefix|..] == RgbArg(c);
    NoCommaInDecimal(c.r);
    NoCommaInDecimal(c.g);
    NoCommaInDecimal(c.b);
    var parts := [Decimal(c.r), Decimal(c.g), Decimal(c.b)];
    assert Join(parts, [',']) == RgbArg(c) by {
      assert Join(parts[1..], [',']) == Decimal(c.g) + [','] + Join(parts[2..], [',']);
    }
    SplitJoin(parts, ',');
  }

  /** What one subprocess.run of the command turned out to be. */
  datatype RunOutcome = Exited(code: int) | BinaryNotFound | TimedOut | OtherError

  /** What apply_gm3_theme did: refused an unknown browser, raised on a seed
      colour that is not hex (the ValueError escapes), or ran `cmd`. */
  datatype ApplyResult = UnknownBrowser | BadSeed | Invoked(cmd: seq<string>, ok: bool)

  predicate Applied(r: ApplyResult) {
    r.Invoked? && r.ok
  }

  /** apply_gm3_theme: True exactly when the command ran and exited with 0. */
  function ApplyGm3Theme(name: string, colors: map<string, string>, darkmode: bool,
                         run: seq<string> -> RunOutcome): (r: ApplyResult)
    ensures BinaryOf(name).None? <==> r.UnknownBrowser?
    ensures r.Invoked? ==>
      (HexToRgb(SeedColor(colors)).Some?
       && r.cmd == Gm3Command(BinaryOf(name).value, HexToRgb(SeedColor(colors)).value, darkmode)
       && (r.ok <==> run(r.cmd) == Exited(0)))
    ensures r.BadSeed? <==> BinaryOf(name).Some? && HexToRgb(SeedColor(colors)).None?
  {
    var binary := BinaryOf(name);
    if binary.None? then UnknownBrowser
    else
      var rgb := HexToRgb(SeedColor(colors));
      if rgb.None? then BadSeed
      else
        var cmd := Gm3Command(binary.value, rgb.value, darkmode);
        Invoked(cmd, run(cmd) == Exited(0))
  }

  /** A parsed palette always yields a usable seed, so a registered browser
      is always invoked. */
  lemma ApplyNeverBadSeed(name: string, colors: map<string, string>, darkmode: bool,
                          run: seq<string> -> RunOutcome)
    requires ValidPalette(colors)
    ensures !ApplyGm3Theme(name, colors, darkmode, run).BadSeed?
  {
    SeedColorValid(colors);
  }

  /** The report entry for one requested browser. */
  function Outcome(b: string, colors: map<string, string>, darkmode: bool, onPath: set<string>,
                   run: seq<string> -> RunOutcome): bool
  {
    IsBrowserInstalled(b, onPath) && Applied(ApplyGm3Theme(b, colors, darkmode, run))
  }

  /** The flag of the first `$darkmode:` line, if any. */
  function FirstDarkFlag(lines: seq<string>): Option<bool> {
    if lines == [] then None
    else
      var m := MatchDarkFlag(Strip(lines[0]));
      if m.Some? then m else FirstDarkFlag(lines[1..])
  }

  lemma {:induction false} FirstDarkFlagAt(lines: seq<string>, i: int)
    requires 0 <= i < |lines| && MatchDarkFlag(Strip(lines[i])).Some?
    requires forall j :: 0 <= j < i ==> MatchDarkFlag(Strip(lines[j])).None?
    ensures FirstDarkFlag(lines) == MatchDarkFlag(Strip(lines[i]))
  {
    if i > 0 {
      assert forall j :: 0 <= j < i - 1 ==> lines[1..][j] == lines[j + 1];
      FirstDarkFlagAt(lines[1..], i - 1);
    }
  }

  lemma {:induction false} FirstDarkFlagNone(lines: seq<string>)
    requires forall j :: 0 <= j < |lines| ==> MatchDarkFlag(Strip(lines[j])).None?
    ensures FirstDarkFlag(lines) == None
  {
    if lines != [] {
      assert forall j :: 0 <= j < |lines| - 1 ==> lines[1..][j] == lines[j + 1];
      FirstDarkFlagNone(lines[1..]);
    }
  }

  /** get_darkmode: the first flag line decides; no flag line, or no file,
      means dark. */
  method GetDarkmode(file: Option<seq<string>>) returns (dark: bool)
    ensures file.None? ==> dark
    ensures file.Some? ==> dark == FirstDarkFlag(file.value).GetOr(true)
  {
    if file.None? {
      return true;
    }
    var lines := file.value;
    for i := 0 to |lines|
      invariant forall j :: 0 <= j < i ==> MatchDarkFlag(Strip(lines[j])).None?
    {
      var m := MatchDarkFlag(Strip(lines[i]));
      if m.Some? {
        FirstDarkFlagAt(lines, i);
        return m.value;
      }
    }
    FirstDarkFlagNone(lines);
    return true;
  }

  /** The report after dispatching `requested` in order. */
  function Report(requested: seq<string>, colors: map<string, string>, darkmode: bool,
                  onPath: set<string>, run: seq<string> -> RunOutcome): map<string, bool>
  {
    if requested == [] then map[]
    else
      var last := requested[|requested| - 1];
      Report(requested[..|requested| - 1], colors, darkmode, onPath, run)[last := Outcome(last, colors, darkmode, onPath, run)]
  }

  /** The report has one entry per requested browser, whatever the order or
      repetitions, and each entry is that browser's outcome. */
  lemma {:induction false} ReportEntries(requested: seq<string>, colors: map<string, string>, darkmode: bool,
                                         onPath: set<string>, run: seq<string> -> RunOutcome)
    ensures var rep := Report(requested, colors, darkmode, onPath, run);
      (forall b :: b in rep <==> b in requested)
      && (forall b :: b in rep ==> rep[b] == Outcome(b, colors, darkmode, onPath, run))
  {
    if requested != [] {
      var init := requested[..|requested| - 1];
      ReportEntries(init, colors, darkmode, onPath, run);
      assert requested == init + [requested[|requested| - 1]];
    }
  }

  /** The dispatch loop of apply_all_browsers: the entry for each requested
      browser is True exactly when it is installed and its command succeeded. */
  method Dispatch(requested: seq<string>, colors: map<string, string>, darkmode: bool,
                  onPath: set<string>, run: seq<string> -> RunOutcome)
    returns (results: map<string, bool>)
    ensures results == Report(requested, colors, darkmode, onPath, run)
  {
    results := map[];
    for i := 0 to |requested|
      invariant results == Report(requested[..i], colors, darkmode, onPath, run)
    {
      var browser := requested[i];
      assert requested[..i + 1][..i] == requested[..i];
      if IsBrowserInstalled(browser, onPath) {
        var r := ApplyGm3Theme(browser, colors, darkmode, run);
        results := results[browser := Applied(r)];
      } else {
        results := results[browser := false];
      }
    }
    assert requested[..|requested|] == requested;
  }

  /** apply_all_browsers: an empty palette gives an empty report; otherwise
      every requested browser (all installed ones when none are named) gets
      one entry, True exactly when it is installed and its command succeeded. */
  method ApplyAllBrowsers(scss: Option<seq<string>>, enabled: Option<seq<string>>,
                          onPath: set<string>, run: seq<string> -> RunOutcome)
    returns (results: map<string, bool>)
    ensures scss.None? || |ColorsOf(scss.value)| == 0 ==> results == map[]
    ensures scss.Some? && |ColorsOf(scss.value)| > 0 ==>
      var requested := enabled.GetOr(InstalledBrowsers(onPath));
      var darkmode := FirstDarkFlag(scss.value).GetOr(true);
      (forall b :: b in results <==> b in requested)
      && (forall b :: b in results ==> results[b] == Outcome(b, ColorsOf(scss.value), darkmode, onPath, run))
  {
    var colors := ParseScssColors(scss);
    if |colors| == 0 {
      return map[];
    }
    var darkmode := GetDarkmode(scss);
    var requested := if enabled.Some? then enabled.value else InstalledBrowsers(onPath);
    results := Dispatch(requested, colors, darkmode, onPath, run);
    ReportEntries(requested, colors, darkmode, onPath, run);
  }
}
