/** The YouTube Music cookie helper: it decides which `--cookies-from-browser`
    argument yt-dlp gets, finds a browser profile on disk, and checks the
    extracted cookie file for Google's auth tokens. The filesystem is an
    abstract view (which paths are directories or files, and what a
    directory lists, in listing order); yt-dlp's runs are given as their
    outcomes. */
module YtMusicAuth {
  import opened Text
  import opened Wrappers

  // ---------------------------------------------------------------- filesystem

  /** The part of the filesystem the helper looks at. `listing` gives the
      entry names of a directory in os.listdir order. */
  datatype FsView = FsView(home: string, dirs: set<string>, files: set<string>, listing: map<string, seq<string>>)

  predicate PathExists(fs: FsView, p: string) {
    p in fs.dirs || p in fs.files
  }

  predicate IsDir(fs: FsView, p: string) {
    p in fs.dirs
  }

  function ListDir(fs: FsView, p: string): seq<string> {
    if p in fs.listing then fs.listing[p] else []
  }

  /** os.path.expanduser for the `~/...` paths the helper uses. */
  function ExpandUser(fs: FsView, p: string): string {
    if StartsWith(p, "~/") then fs.home + p[1..] else p
  }

  /** os.path.join with a relative second part. */
  function PathJoin(a: string, b: string): (r: string)
    ensures EndsWith(r, b)
    ensures |r| >= |a|
  {
    if a == [] || a[|a| - 1] == '/' then a + b else a + "/" + b
  }

  /** Joining onto the same directory is injective in the entry name. */
  lemma PathJoinInjective(a: string, b: string, c: string)
    requires PathJoin(a, b) == PathJoin(a, c)
    ensures b == c
  {
    var n := |PathJoin(a, b)| - |b|;
    assert PathJoin(a, b)[n..] == b;
    assert PathJoin(a, c)[n..] == c;
  }

  /** A suffix without `/` that ends a joined path ends the entry name. */
  lemma PathJoinSuffix(a: string, b: string, s: string)
    requires '/' !in s && EndsWith(PathJoin(a, b), s)
    ensures EndsWith(b, s)
  {
    var r := PathJoin(a, b);
    var x := r[..|r| - |b|];
    assert r == x + b;
    assert x == [] || x[|x| - 1] == '/';
    SuffixCrossing(x, b, s);
    SuffixOfAppend(x, b, s);
  }

  /** A suffix longer than the entry name reaches the character before it. */
  lemma SuffixCrossing(x: string, b: string, s: string)
    requires EndsWith(x + b, s)
    ensures |s| > |b| ==> |x| > 0 && s[|s| - |b| - 1] == x[|x| - 1]
  {
    var r := x + b;
    assert r[|r| - |s|..] == s;
  }

  lemma SuffixOfAppend(x: string, b: string, s: string)
    requires EndsWith(x + b, s) && |s| <= |b|
    ensures EndsWith(b, s)
  {
    var r := x + b;
    assert r[|r| - |s|..] == b[|b| - |s|..];
  }

  // ---------------------------------------------------------------- browsers

  /** The keys of FIREFOX_FORKS. */
  const ForkNames: set<string> := {"zen", "librewolf", "floorp", "waterfox", "firefox"}

  /** FIREFOX_FORKS: the profile root of each Firefox-based browser. */
  function ForkDir(b: string): (d: Option<string>)
    ensures d.Some? <==> b in ForkNames
    ensures d.Some? ==> StartsWith(d.value, "~/")
  {
    if b == "zen" then Some("~/.zen")
    else if b == "librewolf" then Some("~/.librewolf")
    else if b == "floorp" then Some("~/.floorp")
    else if b == "waterfox" then Some("~/.waterfox")
    else if b == "firefox" then Some("~/.mozilla/firefox")
    else None
  }

  /** is_firefox_fork */
  predicate IsFirefoxFork(browser: string) {
    ForkDir(Lower(browser)).Some?
  }

  /** The test ignores letter case: a name and its lowercase form agree, and
      so a name is a fork iff its lowercase form is one of the five keys. */
  lemma ForkAnyCase(browser: string)
    ensures IsFirefoxFork(browser) <==> IsFirefoxFork(Lower(browser))
    ensures IsFirefoxFork(browser) <==> Lower(browser) in ForkNames
  {
    LowerIsLower(browser);
  }

  // ---------------------------------------------------------------- Firefox profiles

  /** The suffixes of the glob patterns `*.default-release` and `*.default`,
      in priority order. */
  const ProfileSuffixes: seq<string> := [".default-release", ".default"]

  /** The entries of `names` that `*<suffix>` matches, joined onto `base`.
      The `*` of a glob pattern never matches a name that starts with `.`. */
  function Globbed(base: string, names: seq<string>, suffix: string): (ms: seq<string>)
    ensures |ms| <= |names|
    decreases |names|
  {
    if names == [] then []
    else (if GlobMatches(names[0], suffix) then [PathJoin(base, names[0])] else []) + Globbed(base, names[1..], suffix)
  }

  /** Every glob match is a matching name joined onto the base. */
  lemma {:induction false} GlobbedSound(base: string, names: seq<string>, suffix: string, i: int) returns (k: int)
    requires 0 <= i < |Globbed(base, names, suffix)|
    ensures 0 <= k < |names| && GlobMatches(names[k], suffix) && Globbed(base, names, suffix)[i] == PathJoin(base, names[k])
    decreases |names|
  {
    var rest := Globbed(base, names[1..], suffix);
    if GlobMatches(names[0], suffix) {
      assert Globbed(base, names, suffix) == [PathJoin(base, names[0])] + rest;
      if i == 0 {
        k := 0;
      } else {
        var k' := GlobbedSound(base, names[1..], suffix, i - 1);
        k := k' + 1;
        assert names[1..][k'] == names[k];
      }
    } else {
      assert Globbed(base, names, suffix) == rest;
      var k' := GlobbedSound(base, names[1..], suffix, i);
      k := k' + 1;
      assert names[1..][k'] == names[k];
    }
  }

  /** `fnmatch(name, "*" + suffix)` for a name glob lists. */
  predicate GlobMatches(name: string, suffix: string) {
    name != [] && name[0] != '.' && EndsWith(name, suffix)
  }

  /** glob.glob(os.path.join(base, "*" + suffix)) */
  function Glob(fs: FsView, base: string, suffix: string): seq<string> {
    Globbed(base, ListDir(fs, base), suffix)
  }

  /** What the pattern stage accepts: a directory not ending in `-backup`
      that holds `cookies.sqlite`. */
  predicate PatternProfile(fs: FsView, m: string) {
    IsDir(fs, m) && !EndsWith(m, "-backup") && PathExists(fs, PathJoin(m, "cookies.sqlite"))
  }

  /** What the fallback stage accepts of an entry of the base directory. */
  predicate FallbackProfile(fs: FsView, base: string, item: string) {
    IsDir(fs, PathJoin(base, item)) && !EndsWith(item, "-backup") && item != "Crash Reports"
    && PathExists(fs, PathJoin(PathJoin(base, item), "cookies.sqlite"))
  }

  /** The first glob match the pattern stage accepts. */
  function FirstPattern(fs: FsView, ms: seq<string>): (r: Option<string>)
    ensures r.Some? ==> PatternProfile(fs, r.value) && exists i :: 0 <= i < |ms| && ms[i] == r.value
    ensures r.None? <==> forall i :: 0 <= i < |ms| ==> !PatternProfile(fs, ms[i])
    decreases |ms|
  {
    if ms == [] then None
    else if PatternProfile(fs, ms[0]) then Some(ms[0])
    else
      var r := FirstPattern(fs, ms[1..]);
      assert forall i :: 0 <= i < |ms| - 1 ==> ms[1..][i] == ms[i + 1];
      r
  }

  /** The first entry the fallback stage accepts, joined onto `base`. */
  function FirstFallback(fs: FsView, base: string, items: seq<string>): Option<string>
    decreases |items|
  {
    if items == [] then None
    else if FallbackProfile(fs, base, items[0]) then Some(PathJoin(base, items[0]))
    else FirstFallback(fs, base, items[1..])
  }

  /** The fallback stage returns an accepted entry joined onto the base, and
      returns nothing exactly when no entry is accepted. */
  lemma {:induction false} FirstFallbackSpec(fs: FsView, base: string, items: seq<string>)
    ensures var r := FirstFallback(fs, base, items);
            (r.Some? ==> exists i :: 0 <= i < |items| && FallbackProfile(fs, base, items[i]) && r.value == PathJoin(base, items[i]))
            && (r.None? <==> forall i :: 0 <= i < |items| ==> !FallbackProfile(fs, base, items[i]))
    decreases |items|
  {
    if items != [] && !FallbackProfile(fs, base, items[0]) {
      FirstFallbackSpec(fs, base, items[1..]);
      assert forall i :: 0 <= i < |items| - 1 ==> items[1..][i] == items[i + 1];
    }
  }

  /** find_firefox_profile as a function of the filesystem. */
  function FirefoxProfile(fs: FsView, basePath: string): Option<string> {
    var base := ExpandUser(fs, basePath);
    if !PathExists(fs, base) then None
    else
      var release := FirstPattern(fs, Glob(fs, base, ProfileSuffixes[0]));
      if release.Some? then release
      else
        var default := FirstPattern(fs, Glob(fs, base, ProfileSuffixes[1]));
        if default.Some? then default
        else FirstFallback(fs, base, ListDir(fs, base))
  }

  /** The inner loop over one pattern's glob matches. */
  method ScanPattern(fs: FsView, matches: seq<string>) returns (found: Option<string>)
    ensures found == FirstPattern(fs, matches)
  {
    for j := 0 to |matches|
      invariant FirstPattern(fs, matches[j..]) == FirstPattern(fs, matches)
    {
      assert matches[j..][1..] == matches[j + 1..];
      var m := matches[j];
      if IsDir(fs, m) && !EndsWith(m, "-backup") {
        if PathExists(fs, PathJoin(m, "cookies.sqlite")) {
          return Some(m);
        }
      }
    }
    return None;
  }

  /** The fallback loop over the entries of the base directory. */
  method ScanFallback(fs: FsView, base: string, items: seq<string>) returns (found: Option<string>)
    ensures found == FirstFallback(fs, base, items)
  {
    for j := 0 to |items|
      invariant FirstFallback(fs, base, items[j..]) == FirstFallback(fs, base, items)
    {
      assert items[j..][1..] == items[j + 1..];
      var item := items[j];
      var itemPath := PathJoin(base, item);
      if IsDir(fs, itemPath) && !EndsWith(item, "-backup") && item != "Crash Reports" {
        if PathExists(fs, PathJoin(itemPath, "cookies.sqlite")) {
          return Some(itemPath);
        }
      }
    }
    return None;
  }

  /** find_firefox_profile: the two glob patterns in order, then every entry
      of the base directory. */
  method FindFirefoxProfile(fs: FsView, basePath: string) returns (found: Option<string>)
    ensures found == FirefoxProfile(fs, basePath)
  {
    var base := ExpandUser(fs, basePath);
    if !PathExists(fs, base) {
      return None;
    }
    for q := 0 to |ProfileSuffixes|
      invariant forall k :: 0 <= k < q ==> FirstPattern(fs, Glob(fs, base, ProfileSuffixes[k])).None?
    {
      found := ScanPattern(fs, Glob(fs, base, ProfileSuffixes[q]));
      if found.Some? {
        return found;
      }
    }
    found := ScanFallback(fs, base, ListDir(fs, base));
  }

  /** A profile that is found is a directory directly under the base, holds
      `cookies.sqlite`, does not end in `-backup` and is not `Crash Reports`. */
  lemma FirefoxProfileSound(fs: FsView, basePath: string)
    ensures var r := FirefoxProfile(fs, basePath);
            var base := ExpandUser(fs, basePath);
            r.Some? ==>
              IsDir(fs, r.value) && PathExists(fs, PathJoin(r.value, "cookies.sqlite"))
              && !EndsWith(r.value, "-backup") && r.value != PathJoin(base, "Crash Reports")
              && exists k :: 0 <= k < |ListDir(fs, base)| && r.value == PathJoin(base, ListDir(fs, base)[k])
  {
    var r := FirefoxProfile(fs, basePath);
    var base := ExpandUser(fs, basePath);
    if r.Some? {
      var release := FirstPattern(fs, Glob(fs, base, ProfileSuffixes[0]));
      var default := FirstPattern(fs, Glob(fs, base, ProfileSuffixes[1]));
      if release.Some? {
        var ms := Glob(fs, base, ProfileSuffixes[0]);
        var i :| 0 <= i < |ms| && ms[i] == r.value;
        PatternSound(fs, base, ProfileSuffixes[0], i, r.value);
      } else if default.Some? {
        var ms := Glob(fs, base, ProfileSuffixes[1]);
        var i :| 0 <= i < |ms| && ms[i] == r.value;
        PatternSound(fs, base, ProfileSuffixes[1], i, r.value);
      } else {
        FallbackSound(fs, base, r.value);
      }
    }
  }

  /** What the fallback stage returns is an entry of the base that does not
      end in `-backup` and is not `Crash Reports`. */
  lemma FallbackSound(fs: FsView, base: string, p: string)
    requires FirstFallback(fs, base, ListDir(fs, base)) == Some(p)
    ensures IsDir(fs, p) && PathExists(fs, PathJoin(p, "cookies.sqlite"))
    ensures !EndsWith(p, "-backup") && p != PathJoin(base, "Crash Reports")
    ensures exists k :: 0 <= k < |ListDir(fs, base)| && p == PathJoin(base, ListDir(fs, base)[k])
  {
    var items := ListDir(fs, base);
    FirstFallbackSpec(fs, base, items);
    var k :| 0 <= k < |items| && FallbackProfile(fs, base, items[k]) && p == PathJoin(base, items[k]);
    EntrySound(base, items[k], p);
  }

  lemma EntrySound(base: string, item: string, p: string)
    requires p == PathJoin(base, item) && !EndsWith(item, "-backup") && item != "Crash Reports"
    ensures !EndsWith(p, "-backup") && p != PathJoin(base, "Crash Reports")
  {
    if EndsWith(p, "-backup") {
      PathJoinSuffix(base, item, "-backup");
    }
    if p == PathJoin(base, "Crash Reports") {
      PathJoinInjective(base, item, "Crash Reports");
    }
  }

  /** A glob match is an entry of the base, and it is not `Crash Reports`. */
  lemma PatternSound(fs: FsView, base: string, suffix: string, i: int, m: string)
    requires suffix in ProfileSuffixes && 0 <= i < |Glob(fs, base, suffix)| && m == Glob(fs, base, suffix)[i]
    ensures m != PathJoin(base, "Crash Reports")
    ensures exists k :: 0 <= k < |ListDir(fs, base)| && m == PathJoin(base, ListDir(fs, base)[k])
  {
    var names := ListDir(fs, base);
    var k := GlobbedSound(base, names, suffix, i);
    CrashReportsNotGlobbed(suffix);
    if m == PathJoin(base, "Crash Reports") {
      PathJoinInjective(base, names[k], "Crash Reports");
    }
  }

  lemma CrashReportsNotGlobbed(suffix: string)
    requires suffix in ProfileSuffixes
    ensures !EndsWith("Crash Reports", suffix)
  {
  }

  /** A glob match for `*<suffix>` ends with the suffix. */
  lemma GlobbedEnds(base: string, names: seq<string>, suffix: string, i: int)
    requires 0 <= i < |Globbed(base, names, suffix)|
    ensures EndsWith(Globbed(base, names, suffix)[i], suffix)
  {
    var k := GlobbedSound(base, names, suffix, i);
    EndsWithTrans(PathJoin(base, names[k]), names[k], suffix);
  }

  /** An accepted `*.default-release` directory wins over everything else. */
  lemma ReleasePreferred(fs: FsView, basePath: string, k: int)
    requires PathExists(fs, ExpandUser(fs, basePath))
    requires 0 <= k < |ListDir(fs, ExpandUser(fs, basePath))|
    requires GlobMatches(ListDir(fs, ExpandUser(fs, basePath))[k], ".default-release")
    requires PatternProfile(fs, PathJoin(ExpandUser(fs, basePath), ListDir(fs, ExpandUser(fs, basePath))[k]))
    ensures FirefoxProfile(fs, basePath).Some? && EndsWith(FirefoxProfile(fs, basePath).value, ".default-release")
  {
    var base := ExpandUser(fs, basePath);
    var names := ListDir(fs, base);
    var i := GlobComplete(base, names, ".default-release", k);
    var ms := Glob(fs, base, ".default-release");
    var r := FirstPattern(fs, ms);
    assert r.Some?;
    var j :| 0 <= j < |ms| && ms[j] == r.value;
    GlobbedEnds(base, names, ".default-release", j);
  }

  /** When no `*.default-release` directory is accepted, an accepted
      `*.default` one wins over the fallback. */
  lemma DefaultBeforeFallback(fs: FsView, basePath: string, k: int)
    requires PathExists(fs, ExpandUser(fs, basePath))
    requires FirstPattern(fs, Glob(fs, ExpandUser(fs, basePath), ".default-release")).None?
    requires 0 <= k < |ListDir(fs, ExpandUser(fs, basePath))|
    requires GlobMatches(ListDir(fs, ExpandUser(fs, basePath))[k], ".default")
    requires PatternProfile(fs, PathJoin(ExpandUser(fs, basePath), ListDir(fs, ExpandUser(fs, basePath))[k]))
    ensures FirefoxProfile(fs, basePath).Some? && EndsWith(FirefoxProfile(fs, basePath).value, ".default")
  {
    var base := ExpandUser(fs, basePath);
    var names := ListDir(fs, base);
    var i := GlobComplete(base, names, ".default", k);
    var ms := Glob(fs, base, ".default");
    var r := FirstPattern(fs, ms);
    assert r.Some?;
    var j :| 0 <= j < |ms| && ms[j] == r.value;
    GlobbedEnds(base, names, ".default", j);
  }

  /** When the base exists, some profile is found as soon as one entry of it
      passes the fallback test. */
  lemma FallbackComplete(fs: FsView, basePath: string, k: int)
    requires PathExists(fs, ExpandUser(fs, basePath))
    requires 0 <= k < |ListDir(fs, ExpandUser(fs, basePath))|
    requires FallbackProfile(fs, ExpandUser(fs, basePath), ListDir(fs, ExpandUser(fs, basePath))[k])
    ensures FirefoxProfile(fs, basePath).Some?
  {
    var base := ExpandUser(fs, basePath);
    FirstFallbackSpec(fs, base, ListDir(fs, base));
  }

  /** Every name the pattern matches is listed by the glob. */
  lemma {:induction false} GlobComplete(base: string, names: seq<string>, suffix: string, k: int) returns (i: int)
    requires 0 <= k < |names| && GlobMatches(names[k], suffix)
    ensures 0 <= i < |Globbed(base, names, suffix)| && Globbed(base, names, suffix)[i] == PathJoin(base, names[k])
    decreases |names|
  {
    if k == 0 {
      i := 0;
    } else {
      var j := GlobComplete(base, names[1..], suffix, k - 1);
      i := j + (if GlobMatches(names[0], suffix) then 1 else 0);
    }
  }

  lemma EndsWithTrans(a: string, b: string, c: string)
    requires EndsWith(a, b) && EndsWith(b, c)
    ensures EndsWith(a, c)
  {
    assert a[|a| - |c|..] == a[|a| - |b|..][|b| - |c|..];
  }

  // ---------------------------------------------------------------- Chromium profiles

  /** find_chrome_profile's config_map, keyed by the lowercased name; other
      names are used verbatim. */
  function ConfigDir(browser: string): (d: string)
    ensures Lower(browser) !in ChromeConfigNames ==> d == browser
    ensures Lower(browser) in ChromeConfigNames ==> d != [] && d[0] != '/'
  {
    var b := Lower(browser);
    if b == "chrome" || b == "google-chrome" then "google-chrome"
    else if b == "chromium" then "chromium"
    else if b == "brave" then "BraveSoftware/Brave-Browser"
    else if b == "vivaldi" then "vivaldi"
    else if b == "opera" then "opera"
    else if b == "edge" then "microsoft-edge"
    else if b == "thorium" then "thorium"
    else browser
  }

  const ChromeConfigNames: set<string> :=
    {"chrome", "google-chrome", "chromium", "brave", "vivaldi", "opera", "edge", "thorium"}

  /** Known names are looked up whatever their letter case. */
  lemma ConfigDirAnyCase(a: string, b: string)
    requires Lower(a) == Lower(b) && Lower(a) in ChromeConfigNames
    ensures ConfigDir(a) == ConfigDir(b)
  {
  }

  /** The profiles tried, in order. */
  const ChromeProfiles: seq<string> := ["Default", "Profile 1"]

  function ChromeBase(fs: FsView, browser: string): string {
    ExpandUser(fs, "~/.config/" + ConfigDir(browser))
  }

  /** The first profile directory, in ChromeProfiles order, holding `Cookies`. */
  function FirstCookies(fs: FsView, base: string, profiles: seq<string>): (r: Option<string>)
    ensures r.Some? ==> exists p :: p in profiles && r.value == PathJoin(base, p) && PathExists(fs, PathJoin(r.value, "Cookies"))
    decreases |profiles|
  {
    if profiles == [] then None
    else if PathExists(fs, PathJoin(PathJoin(base, profiles[0]), "Cookies")) then Some(PathJoin(base, profiles[0]))
    else
      var r := FirstCookies(fs, base, profiles[1..]);
      assert forall p :: p in profiles[1..] ==> p in profiles;
      r
  }

  /** find_chrome_profile as a function of the filesystem. */
  function ChromeProfile(fs: FsView, browser: string): Option<string> {
    var base := ChromeBase(fs, browser);
    if !PathExists(fs, base) then None else FirstCookies(fs, base, ChromeProfiles)
  }

  /** The loop over the candidate profile directories. */
  method ScanCookies(fs: FsView, base: string, profiles: seq<string>) returns (found: Option<string>)
    ensures found == FirstCookies(fs, base, profiles)
  {
    for j := 0 to |profiles|
      invariant FirstCookies(fs, base, profiles[j..]) == FirstCookies(fs, base, profiles)
    {
      assert profiles[j..][1..] == profiles[j + 1..];
      var profilePath := PathJoin(base, profiles[j]);
      if PathExists(fs, PathJoin(profilePath, "Cookies")) {
        return Some(profilePath);
      }
    }
    return None;
  }

  /** find_chrome_profile */
  method FindChromeProfile(fs: FsView, browser: string) returns (found: Option<string>)
    ensures found == ChromeProfile(fs, browser)
  {
    var base := ChromeBase(fs, browser);
    if !PathExists(fs, base) {
      return None;
    }
    found := ScanCookies(fs, base, ChromeProfiles);
  }

  /** A found profile is `Default` or `Profile 1` of the browser's config
      directory, and holds `Cookies`; `Default` wins when both do. */
  lemma ChromeProfileChoice(fs: FsView, browser: string)
    ensures var r := ChromeProfile(fs, browser);
            var base := ChromeBase(fs, browser);
            r.Some? ==> (r.value == PathJoin(base, "Default") || r.value == PathJoin(base, "Profile 1"))
                        && PathExists(fs, PathJoin(r.value, "Cookies"))
    ensures var base := ChromeBase(fs, browser);
            PathExists(fs, base) && PathExists(fs, PathJoin(PathJoin(base, "Default"), "Cookies")) ==>
              ChromeProfile(fs, browser) == Some(PathJoin(base, "Default"))
    ensures var base := ChromeBase(fs, browser);
            ChromeProfile(fs, browser).None? <==>
              !PathExists(fs, base)
              || (!PathExists(fs, PathJoin(PathJoin(base, "Default"), "Cookies"))
                  && !PathExists(fs, PathJoin(PathJoin(base, "Profile 1"), "Cookies")))
  {
    var base := ChromeBase(fs, browser);
    assert ChromeProfiles[1..][1..] == [];
  }

  // ---------------------------------------------------------------- yt-dlp argument

  /** `if profile_path:` — None and the empty string are both false. */
  predicate Given(p: Option<string>) {
    p.Some? && p.value != ""
  }

  /** get_ytdlp_browser_arg; None stands for Python's None. */
  function YtdlpBrowserArg(fs: FsView, browser: string, profilePath: Option<string>): Option<string> {
    var b := Lower(browser);
    var fork := ForkDir(b);
    if fork.Some? && b != "firefox" then
      if Given(profilePath) then Some("firefox:" + profilePath.value)
      else
        var profile := FirefoxProfile(fs, fork.value);
        if profile.Some? && profile.value != "" then Some("firefox:" + profile.value) else None
    else if Given(profilePath) then Some(b + ":" + profilePath.value)
    else Some(b)
  }

  /** A profile under a fork's root is never the empty path. */
  lemma ForkProfileNonEmpty(fs: FsView, b: string)
    requires ForkDir(b).Some?
    ensures FirefoxProfile(fs, ForkDir(b).value).Some? ==> FirefoxProfile(fs, ForkDir(b).value).value != ""
  {
    var basePath := ForkDir(b).value;
    var base := ExpandUser(fs, basePath);
    assert |base| > 0 by {
      assert base == fs.home + basePath[1..];
      assert |basePath| > 2;
    }
    var r := FirefoxProfile(fs, basePath);
    if r.Some? {
      FirefoxProfileSound(fs, basePath);
      var item :| item in ListDir(fs, base) && r.value == PathJoin(base, item);
      assert |r.value| >= |base|;
    }
  }

  /** For a fork other than Firefox itself the argument is `firefox:` and the
      given path, or else the profile found under the fork's root, or None
      when none is found. */
  lemma ForkArgument(fs: FsView, browser: string, profilePath: Option<string>)
    requires IsFirefoxFork(browser) && Lower(browser) != "firefox"
    ensures Given(profilePath) ==> YtdlpBrowserArg(fs, browser, profilePath) == Some("firefox:" + profilePath.value)
    ensures !Given(profilePath) ==>
              YtdlpBrowserArg(fs, browser, profilePath)
              == (var found := FirefoxProfile(fs, ForkDir(Lower(browser)).value);
                  if found.Some? then Some("firefox:" + found.value) else None)
  {
    ForkProfileNonEmpty(fs, Lower(browser));
  }

  /** Every other browser, Firefox included, gets `name:path` or the bare
      lowercased name, and never None. */
  lemma NativeArgument(fs: FsView, browser: string, profilePath: Option<string>)
    requires !IsFirefoxFork(browser) || Lower(browser) == "firefox"
    ensures YtdlpBrowserArg(fs, browser, profilePath)
            == Some(if Given(profilePath) then Lower(browser) + ":" + profilePath.value else Lower(browser))
  {
  }

  // ---------------------------------------------------------------- extraction and verification

  /** How a yt-dlp run ended. */
  datatype RunOutcome = Exited(code: int, stdout: string, stderr: string) | TimedOut | Crashed(message: string)

  /** extract_cookies' command line. */
  function ExtractCommand(arg: string, outputPath: string): seq<string> {
    ["yt-dlp", "--cookies-from-browser", arg, "--cookies", outputPath,
     "--no-warnings", "--quiet", "--skip-download", "https://www.youtube.com/watch?v=dQw4w9WgXcQ"]
  }

  /** The command that was run, if any, and the (success, error) pair. */
  datatype Extraction = Extraction(command: Option<seq<string>>, success: bool, error: Option<string>)

  /** extract_cookies; `outputWritten` says whether the cookie file exists
      after the run. */
  function ExtractCookies(fs: FsView, browser: string, outputPath: string, run: RunOutcome, outputWritten: bool): (x: Extraction)
    ensures x.success ==> x.error.None?
    ensures !x.success ==> x.error.Some?
    ensures x.success <==>
              (var arg := YtdlpBrowserArg(fs, Lower(browser), None);
               arg.Some? && arg.value != "")
              && run.Exited? && run.code == 0 && outputWritten
  {
    var b := Lower(browser);
    var arg := YtdlpBrowserArg(fs, b, None);
    if arg.None? || arg.value == "" then Extraction(None, false, Some("Could not find profile for " + b))
    else
      var cmd := Some(ExtractCommand(arg.value, outputPath));
      match run
      case Exited(code, _, stderr) =>
        if code == 0 && outputWritten then Extraction(cmd, true, None)
        else Extraction(cmd, false, Some(if stderr != "" then stderr else "Unknown error"))
      case TimedOut => Extraction(cmd, false, Some("Timeout while extracting cookies"))
      case Crashed(message) => Extraction(cmd, false, Some(message))
  }

  /** No command is run, and the profile error is reported, exactly when no
      argument resolves; a fork without a profile is such a case. */
  lemma ExtractNeedsArgument(fs: FsView, browser: string, outputPath: string, run: RunOutcome, outputWritten: bool)
    ensures var x := ExtractCookies(fs, browser, outputPath, run, outputWritten);
            var arg := YtdlpBrowserArg(fs, browser, None);
            (x.command.None? <==> arg.None? || arg.value == "")
            && (x.command.None? ==> x.error == Some("Could not find profile for " + Lower(browser)))
            && (x.command.Some? ==> x.command.value == ExtractCommand(arg.value, outputPath))
    ensures IsFirefoxFork(browser) && Lower(browser) != "firefox" && FirefoxProfile(fs, ForkDir(Lower(browser)).value).None? ==>
              !ExtractCookies(fs, browser, outputPath, run, outputWritten).success
  {
    LowerIsLower(browser);
  }

  /** The auth cookies verify_connection looks for. */
  const AuthTokens: seq<string> := ["__Secure-3PSID", "SAPISID", "LOGIN_INFO"]

  /** `any(token in content for token in auth_tokens)` */
  predicate HasAuthToken(content: string) {
    Contains(content, AuthTokens[0]) || Contains(content, AuthTokens[1]) || Contains(content, AuthTokens[2])
  }

  /** The token test holds exactly when some token occurs at some position. */
  lemma HasAuthTokenAt(content: string)
    ensures HasAuthToken(content) <==>
              exists k :: 0 <= k < |AuthTokens|
                && exists i {:trigger content[i..]} :: 0 <= i <= |content| && AuthTokens[k] <= content[i..]
  {
    ContainsAt(content, AuthTokens[0]);
    ContainsAt(content, AuthTokens[1]);
    ContainsAt(content, AuthTokens[2]);
  }

  /** verify_connection: the cookie file (None when it cannot be read) must
      hold an auth token, and the history feed run must exit 0 printing
      something other than blanks. */
  function VerifyConnection(content: Option<string>, feed: RunOutcome): (ok: bool)
    ensures ok <==> content.Some? && HasAuthToken(content.value)
                    && feed.Exited? && feed.code == 0 && !AllSpace(feed.stdout)
  {
    if content.None? || !HasAuthToken(content.value) || !feed.Exited? then false
    else
      StripEmpty(feed.stdout);
      feed.code == 0 && Strip(feed.stdout) != ""
  }
}
