# iNiR theme and docs-site core, modelled in Dafny

This project models the parts of the iNiR desktop shell that carry the
Material You palette into other programs and the logic of its documentation
site:

- **Chromium theming** (`scripts/colors/chromium_theme.py`): parsing the
  `$name: #RRGGBB;` lines of the SCSS palette, decoding hex colours, reading
  the `$darkmode:` flag, the browser registry, the GM3 command line given to
  Chromium and Brave, and the per-browser success report.
- **VS Code theme** (`scripts/colors/vscode_theme.py`): lowercasing the
  loaded palette, lightening, darkening and mixing colours, the role
  defaults, the luminance test that decides between a dark and a light
  theme, and the entries of the theme's colour map that come from these.
- **VS Code settings** (`scripts/colors/vscode/theme_generator.py`): the
  fallback chains of the workbench colours, the terminal palette taken
  from the SCSS file, the TextMate syntax rules, and the merge of both into
  `settings.json`.
- **SDDM login theme** (`scripts/sddm/sync-pixel-sddm.py`): which palette
  `colors.json` provides, the wallpaper path, the password-shape flag, the
  `key=value` rewrite of `theme.conf`, and the video-extension test.
- **YouTube Music cookies** (`scripts/ytmusic_auth.py`): Firefox-fork
  detection, the `--cookies-from-browser` argument, the Firefox and
  Chromium profile searches over an abstract filesystem, and the auth-token
  test of the cookie file.
- **Docs site**: the client-side search (`search.tsx`), the build step
  that writes the search index (`generate-search-index.mjs`), the page order
  and previous/next links (`docs.ts`), the breadcrumb trail
  (`breadcrumbs.tsx`), and the typing animation of the landing page's
  terminal (`animated-terminal.tsx`).

Stateful code keeps its form. The animated terminal is a class whose
methods are its timer callbacks. The loops of the scripts are methods with
loop invariants, each proved equal to a specification function. Those
functions carry the lemmas that state what the scripts promise: the
`theme.conf` rewrite is idempotent, search results come in score order
with distinct keys, previous and next links are symmetric, and so on.
Pure code is modelled as functions and lemmas.

Files are passed in as values. A text file is `Option<seq<string>>` (its
lines, or None when it is missing). A JSON file is Missing, Unparseable or
Parsed. The outcome of a subprocess is a parameter and so is the
filesystem. Python's `dict` keeps insertion order; the model writes it as a
sequence of pairs where that order matters (`theme.conf`) and as a `map`
elsewhere.

The design description of the Chromium theming speaks of several
strategies: command-line switches, preferences files and managed policies,
chosen per browser or detected. `chromium_theme.py` has only the first of
these, a single GM3 command per browser. The model follows the code.

Shared modules: `Text` (ASCII string helpers such as `str.strip`, `split`,
`join`, `in` and case mapping), `HexColor` (`#rrggbb` codec), `ScssPalette`
(the SCSS colour parse that appears three times in the scripts),
`JsonValue` (JSON documents with Python truthiness) and `Wrappers`
(`Option`).

## Model

| member | source | states |
|---|---|---|
| Text.Strip | scripts/colors/chromium_theme.py:46 | `str.strip()`: the result is no longer than the input and starts and ends with a non-blank |
| Text.StripEmpty | scripts/ytmusic_auth.py:238 | a string strips to empty exactly when it is all blanks |
| Text.Lower | scripts/colors/vscode_theme.py:113 | lowercasing keeps the length |
| Text.LowerIsLower | scripts/colors/vscode_theme.py:113 | a lowercased string is lowercase, and lowercasing twice changes nothing more |
| Text.Split | scripts/sddm/sync-pixel-sddm.py:115 | `split` always yields at least one piece |
| Text.SplitJoin | scripts/sddm/sync-pixel-sddm.py:115-133 | splitting pieces joined by a separator none of them holds gives the pieces back |
| Text.JoinSplit | scripts/sddm/sync-pixel-sddm.py:115-133 | joining the pieces of a split with the separator gives the string back |
| Text.ContainsAt | scripts/ytmusic_auth.py:219 | Python's substring `in` holds exactly when the text occurs at some position |
| Text.Decimal | scripts/colors/chromium_theme.py:107 | an integer's decimal text is a non-empty run of digits |
| Text.DecimalValue | scripts/colors/chromium_theme.py:107 | the digits of a decimal text read back as that number |
| HexColor.HexToRgb | scripts/colors/chromium_theme.py:56-62 | decoding succeeds exactly when the text, with its leading `#`s stripped, starts with six hex digits |
| HexColor.StripHashes | scripts/colors/vscode_theme.py:68 | `lstrip("#")` never lengthens the text |
| HexColor.HexColorParses | scripts/colors/vscode_theme.py:67-69 | every `#` plus six hex digits decodes, and stripping removes exactly the `#` |
| HexColor.FormatRgb | scripts/colors/vscode_theme.py:92 | `#%02x%02x%02x` output is `#` and six lowercase hex digits |
| HexColor.ParseFormatByte | scripts/colors/vscode_theme.py:92 | a byte formatted as two hex digits parses back to itself |
| HexColor.ParseFormat | scripts/colors/chromium_theme.py:56-62 | formatting a colour and decoding it again gives the colour back |
| HexColor.FormatParse | scripts/colors/vscode_theme.py:67-92 | decoding a hex colour and formatting it again gives its lowercase form |
| ScssPalette.MatchColorDeclSound | scripts/colors/chromium_theme.py:46 | a matched line begins with `$`, a word, `:`, blanks, `#` and six hex digits and `;`, and the match returns that word and colour |
| ScssPalette.MatchColorDeclComplete | scripts/colors/chromium_theme.py:46 | every line that begins with `$`, an ASCII word, `:`, any run of the characters Python's `\s` takes, `#` and six hex digits and `;` matches, with exactly its name and colour |
| ScssPalette.MatchColorDeclValue | scripts/colors/chromium_theme.py:46 | a matched value is a hex colour and a matched name is non-empty |
| ScssPalette.MatchDarkFlagExact | scripts/colors/chromium_theme.py:70 | `$darkmode:`, any run of the characters Python's `\s` takes, and `True;` or `False;` yields that flag, whatever follows |
| ScssPalette.Decls | scripts/colors/chromium_theme.py:45-48 | one match result per line, each the match of the stripped line |
| ScssPalette.ColorsOfValid | scripts/colors/chromium_theme.py:45-49 | every value of the parsed palette is a hex colour |
| ScssPalette.ColorsOfDomain | scripts/colors/chromium_theme.py:45-49 | a name is in the palette exactly when some line declares it |
| ScssPalette.ColorsOfLastWins | scripts/colors/chromium_theme.py:49 | the value kept is that of the last line declaring the name |
| ScssPalette.ParseScssColors | scripts/colors/chromium_theme.py:40-53 | the parse loop: an empty map for a missing file, else the fold of the declarations; all values are hex colours |
| ChromiumTheme.BinaryOf | scripts/colors/chromium_theme.py:30-37 | the registry knows exactly `chromium` and `brave`, each run under its own name |
| ChromiumTheme.UnknownNotInstalled | scripts/colors/chromium_theme.py:78-83 | a name outside the registry is never installed, whatever is on PATH |
| ChromiumTheme.FilterInstalled | scripts/colors/chromium_theme.py:88 | the filter keeps exactly the installed names, as a subsequence of its input |
| ChromiumTheme.InstalledBrowsers | scripts/colors/chromium_theme.py:86-88 | a name is listed exactly when it is installed, and the list is a subsequence of the registry order |
| ChromiumTheme.SeedColor | scripts/colors/chromium_theme.py:99 | the seed is `primary_paletteKeyColor`, else `primary`, else `#458588` |
| ChromiumTheme.SeedColorValid | scripts/colors/chromium_theme.py:99-100 | the seed of a parsed palette is a hex colour, so decoding it succeeds |
| ChromiumTheme.SchemeToken | scripts/colors/chromium_theme.py:101 | the token is `dark` exactly when dark mode is on, `light` exactly when it is off |
| ChromiumTheme.Gm3Command | scripts/colors/chromium_theme.py:104-109 | the command is the binary, `--no-startup-window`, `--set-user-color=r,g,b` and `--set-color-scheme=` with the token |
| ChromiumTheme.UserColorRoundTrip | scripts/colors/chromium_theme.py:107 | the user-colour switch splits at `,` into the decimal texts of the three channels |
| ChromiumTheme.ApplyGm3Theme | scripts/colors/chromium_theme.py:91-130 | an unknown browser is refused without a command; a bad seed raises; otherwise the GM3 command is run and the result is True exactly when it exits with 0 |
| ChromiumTheme.ApplyNeverBadSeed | scripts/colors/chromium_theme.py:99-100 | with a parsed palette the seed always decodes, so the ValueError path is never taken |
| ChromiumTheme.FirstDarkFlagAt | scripts/colors/chromium_theme.py:69-72 | the first flag line decides the flag |
| ChromiumTheme.FirstDarkFlagNone | scripts/colors/chromium_theme.py:69-75 | with no flag line there is no flag |
| ChromiumTheme.GetDarkmode | scripts/colors/chromium_theme.py:65-75 | the loop answers the first flag line's flag, and True when there is no such line or no file |
| ChromiumTheme.ReportEntries | scripts/colors/chromium_theme.py:148-153 | the report has an entry for exactly the requested browsers, each True exactly when installed and applied |
| ChromiumTheme.Dispatch | scripts/colors/chromium_theme.py:148-155 | the dispatch loop builds exactly that report |
| ChromiumTheme.ApplyAllBrowsers | scripts/colors/chromium_theme.py:133-155 | an empty or missing palette gives an empty report; otherwise one entry per requested browser, all installed ones when none are named |
| VscodeTheme.LightenBounds | scripts/colors/vscode_theme.py:80-85 | lightening a channel never lowers it and never passes 255 |
| VscodeTheme.DarkenBounds | scripts/colors/vscode_theme.py:86-91 | darkening a channel never raises it and never goes below 0 |
| VscodeTheme.AdjustChannelBounds | scripts/colors/vscode_theme.py:77-91 | an adjusted channel stays in [0,255]; a positive delta never lowers it, any other delta never raises it |
| VscodeTheme.AdjustRgb | scripts/colors/vscode_theme.py:77-91 | a positive delta never lowers a channel, any other delta never raises one |
| VscodeTheme.AdjustRgbZero | scripts/colors/vscode_theme.py:86-91 | a zero delta takes the darken branch with factor 0 and leaves the colour as it is |
| VscodeTheme.AdjustLightness | scripts/colors/vscode_theme.py:77-92 | the result exists exactly when the input decodes, and is `#` and six lowercase hex digits |
| VscodeTheme.AdjustByZero | scripts/colors/vscode_theme.py:86-92 | `_adjust_lightness(c, 0)` is `c` in lowercase |
| VscodeTheme.AdjustDecodes | scripts/colors/vscode_theme.py:77-92 | the adjusted text decodes to the channel-wise adjusted colour |
| VscodeTheme.BlendBounds | scripts/colors/vscode_theme.py:99-101 | a blend with weight in [0,1] lies between its two ends |
| VscodeTheme.MixChannelBounds | scripts/colors/vscode_theme.py:99-101 | a mixed channel lies between the two inputs' channels |
| VscodeTheme.MixRgbBetween | scripts/colors/vscode_theme.py:95-102 | every channel of a mix lies between the inputs' channels |
| VscodeTheme.MixRgbEnds | scripts/colors/vscode_theme.py:95-102 | weight 0 gives the first colour and weight 1 the second |
| VscodeTheme.Mix | scripts/colors/vscode_theme.py:95-102 | the mix exists exactly when both inputs decode, and is `#` and six lowercase hex digits |
| VscodeTheme.MixEnds | scripts/colors/vscode_theme.py:95-102 | `_mix(a, b, 0)` is `a` and `_mix(a, b, 1)` is `b`, both lowercased |
| VscodeTheme.IsDarkInteger | scripts/colors/vscode_theme.py:149-151 | luminance below 0.5 is exactly 299r + 587g + 114b < 127500 |
| VscodeTheme.LoadColors | scripts/colors/vscode_theme.py:105-113 | a missing file gives NotFound; a file that is not JSON, a root that is not an object, or a value that is not a string raises; for a file that decodes to an object of strings, the same keys, each value lowercased |
| VscodeTheme.LoadColorsStable | scripts/colors/vscode_theme.py:111-113 | a file holding an object of lowercase strings loads as exactly that palette |
| VscodeTheme.BaseEntries | scripts/colors/vscode_theme.py:158-172 | the six base entries of the colour map (foreground, background, editor colours, cursor); their values are stated by the lemmas below |
| VscodeTheme.ComputedEntries | scripts/colors/vscode_theme.py:187-471 | the seven entries computed by `_adjust_lightness` and `_mix`; HoverEntry and ComputedEntriesHex state their values |
| VscodeTheme.TerminalEntries | scripts/colors/vscode_theme.py:287-307 | the twenty entries of the terminal block; their values are stated by EmptyPaletteSlots and TerminalEntriesHex |
| VscodeTheme.ThemeColors | scripts/colors/vscode_theme.py:156-471 | the modelled colour map has 33 entries |
| VscodeTheme.ThemeColorsParts | scripts/colors/vscode_theme.py:156-471 | the colour map is, in the dict literal's order, the six base entries, the three computed entries before the terminal block, the twenty terminal entries, then the four computed entries after it |
| VscodeTheme.ThemeFor | scripts/colors/vscode_theme.py:148-155 | the theme is named `iNiR Material`, has no token colours, and is `dark` exactly when the background is dark, else `light` |
| VscodeTheme.BuildVscodeTheme | scripts/colors/vscode_theme.py:116-609 | a theme is built exactly when the eight roles the build decodes (background, surface, surface_container, primary, primary_container, error, tertiary, outline) all decode as colours, so an undecodable `on_surface` still builds; it is named `iNiR Material`, its type is `dark` exactly when the background's luminance is below 0.5, and tokenColors is empty |
| VscodeTheme.ResolveRolesHex | scripts/colors/vscode_theme.py:120-146 | a palette of hex colours resolves every role to a hex colour, defaults included |
| VscodeTheme.RolesHexParse | scripts/colors/vscode_theme.py:149 | hex roles decode |
| VscodeTheme.TerminalEntriesHex | scripts/colors/vscode_theme.py:287-307 | over a hex palette every terminal entry is a hex colour |
| VscodeTheme.ComputedEntriesHex | scripts/colors/vscode_theme.py:187-471 | every computed entry is a hex colour |
| VscodeTheme.ThemeColorsHex | scripts/colors/vscode_theme.py:156-471 | over a hex palette every modelled entry is a hex colour |
| VscodeTheme.HexPaletteBuilds | scripts/colors/vscode_theme.py:116-609 | a palette of hex colours always builds, and every modelled value is a hex colour |
| VscodeTheme.BuildColors | scripts/colors/vscode_theme.py:153-156 | the built colour map is the one for the resolved roles and the luminance test |
| VscodeTheme.DefaultBackgroundDark | scripts/colors/vscode_theme.py:120-151 | the default background `#1e1e2e` is (30, 30, 46), a dark colour |
| VscodeTheme.EmptyRoles | scripts/colors/vscode_theme.py:120-146 | with an empty palette every role takes its fixed default (for example `primary` is `#cba6f7`) |
| VscodeTheme.EmptyPaletteDark | scripts/colors/vscode_theme.py:120-155 | an empty palette builds a dark theme |
| VscodeTheme.EmptyPaletteSlots | scripts/colors/vscode_theme.py:287-298 | with an empty palette the terminal slots fall back through their roles |
| VscodeTheme.EmptyPaletteTheme | scripts/colors/vscode_theme.py:120-298 | the empty palette's theme is dark, with the default terminal background, foreground, cursor, red, magenta and bright white |
| VscodeTheme.HoverEntry | scripts/colors/vscode_theme.py:423-425 | `button.hoverBackground` is the primary colour lightened by 0.08 in a dark theme, darkened by 0.08 in a light one |
| VscodeTheme.HoverSlot | scripts/colors/vscode_theme.py:423-425 | that entry is the 32nd modelled entry (index 31), after the terminal block, as in the dict literal |
| VscodeTheme.ThemeForHover | scripts/colors/vscode_theme.py:423-425 | for resolved roles the hover colour is no darker than the primary colour in a dark theme and no lighter in a light one |
| VscodeTheme.HoverFollowsKind | scripts/colors/vscode_theme.py:423-425 | the same for any palette that builds |
| VscodeSettings.Background | scripts/colors/vscode/theme_generator.py:30 | the background is `background`, else `surface`, else `#080809` |
| VscodeSettings.Foreground | scripts/colors/vscode/theme_generator.py:31 | the foreground is `onBackground`, else `onSurface`, else `#e3dfd9` |
| VscodeSettings.AnsiEntries | scripts/colors/vscode/theme_generator.py:319-334 | sixteen ANSI slots, slot i being `term<i>` of the SCSS palette or its literal default |
| VscodeSettings.GenerateVscodeColors | scripts/colors/vscode/theme_generator.py:14-419 | the SCSS palette is parsed (empty when the file is missing) and the colour entries are built from it |
| VscodeSettings.TerminalBackdrop | scripts/colors/vscode/theme_generator.py:53-54 | `terminal.background` is `term0` when parsed, else the background; `terminal.foreground` is `term15` when parsed, else the foreground |
| VscodeSettings.MissingScssDefaults | scripts/colors/vscode/theme_generator.py:319-334 | with no SCSS palette every ANSI slot takes its literal default |
| VscodeSettings.FullScssFillsSlots | scripts/colors/vscode/theme_generator.py:319-334 | a palette defining term0 to term15 fills every ANSI slot from it |
| VscodeSettings.AlphaSuffix | scripts/colors/vscode/theme_generator.py:61-63 | a colour followed by a two-digit alpha is `#RRGGBBAA`, whose first seven characters are the colour |
| VscodeSettings.TranslucentEntry | scripts/colors/vscode/theme_generator.py:63 | a translucent entry is in the colour map as its base colour followed by its two-hex-digit alpha |
| VscodeSettings.TranslucentEntries | scripts/colors/vscode/theme_generator.py:61-381 | the same for all ten translucent entries modelled |
| VscodeSettings.SyntaxRules | scripts/colors/vscode/theme_generator.py:422-490 | 31 TextMate rules; SyntaxRulesColours states their colours and scopes |
| VscodeSettings.SyntaxRulesColours | scripts/colors/vscode/theme_generator.py:425-488 | every rule is coloured by one of six palette tokens (each with its default) or by `onSurfaceVariant` with alpha `cc`, and names at least one scope |
| VscodeSettings.RulesJson | scripts/colors/vscode/theme_generator.py:433-488 | the rules as a JSON array, one element per rule |
| VscodeSettings.ToMap | scripts/colors/vscode/theme_generator.py:57-381 | a key is in the colour dict exactly when some entry has it |
| VscodeSettings.Merged | scripts/colors/vscode/theme_generator.py:512-514 | the two keys are set to the colour map and `{"textMateRules": rules}`, and every other key is kept |
| VscodeSettings.MergedIdempotent | scripts/colors/vscode/theme_generator.py:513-514 | merging twice with the same inputs gives the document of merging once |
| VscodeSettings.MergeSettingsJson | scripts/colors/vscode/theme_generator.py:493-520 | a missing or unparseable file is merged as `{}` (the latter after a backup); a valid document that is not an object raises, and so does a failed write |
| VscodeSettings.SecondRunStable | scripts/colors/vscode/theme_generator.py:500-514 | rerunning on the written document gives it back |
| VscodeSettings.GenerateVscodeTheme | scripts/colors/vscode/theme_generator.py:523-558 | a missing colours file gives False; a colours file that is not valid JSON or not an object raises, as does a merge that raises; otherwise the colour map and the rules built from the file's string values are merged into the settings |
| SddmSync.ThemeFrom | scripts/sddm/sync-pixel-sddm.py:68-77 | exactly the eight theme keys, in order, each from its palette role or its fixed default |
| SddmSync.ReadColors | scripts/sddm/sync-pixel-sddm.py:45-77 | a palette has the eight theme keys; a missing file gives None; reading raises exactly when the file is not valid JSON, its root or `colors` is not an object, or a non-empty `colors.dark` is not an object |
| SddmSync.NestedPreferred | scripts/sddm/sync-pixel-sddm.py:59-60 | a non-empty `colors.dark` is used even when the root has colours too |
| SddmSync.FlatNeedsMarker | scripts/sddm/sync-pixel-sddm.py:60-66 | without a nested palette the root is used exactly when it has `primary` or `on_surface`, else None |
| SddmSync.ReadWallpaper | scripts/sddm/sync-pixel-sddm.py:80-92 | a wallpaper is a non-empty path of an existing file |
| SddmSync.WallpaperStripsOnePrefix | scripts/sddm/sync-pixel-sddm.py:88-90 | exactly one leading `file://` is removed |
| SddmSync.WallpaperPlainPath | scripts/sddm/sync-pixel-sddm.py:87-90 | a path without the prefix is kept as it is |
| SddmSync.ReadMaterialShapeChars | scripts/sddm/sync-pixel-sddm.py:95-105 | the flag is the text `true` or `false`; `true` exactly when `lock.materialShapeChars` is truthy |
| SddmSync.SetKey | scripts/sddm/sync-pixel-sddm.py:118 | `d[key] = value` sets that key, keeps every other entry, and keeps keys unique |
| SddmSync.Pending | scripts/sddm/sync-pixel-sddm.py:117-118 | `materialShapeChars` is always among the pending keys |
| SddmSync.FirstMatch | scripts/sddm/sync-pixel-sddm.py:123-124 | the first pending key the stripped line starts with, `key=` included, or none |
| SddmSync.FindPending | scripts/sddm/sync-pixel-sddm.py:123-128 | the inner loop finds that first match |
| SddmSync.RewritePass | scripts/sddm/sync-pixel-sddm.py:120-130 | the outer loop gives the rewritten lines and the keys still pending, as the specification function does |
| SddmSync.AppendPending | scripts/sddm/sync-pixel-sddm.py:131-132 | the closing loop appends one `key=value` line per pending key, in dict order |
| SddmSync.UpdateThemeConf | scripts/sddm/sync-pixel-sddm.py:108-145 | a missing theme.conf gives False and writes nothing; otherwise the rewritten content is written, and the result says whether the write succeeded |
| SddmSync.UnmatchedMembers | scripts/sddm/sync-pixel-sddm.py:123-128 | the keys left pending are exactly those that no line matches |
| SddmSync.UnmatchedUnique | scripts/sddm/sync-pixel-sddm.py:126 | the pending keys stay distinct |
| SddmSync.RewriteCharacterised | scripts/sddm/sync-pixel-sddm.py:120-130 | each rewritten line is its expected line, and the keys left are the unmatched ones |
| SddmSync.UpdatedShape | scripts/sddm/sync-pixel-sddm.py:114-133 | the output has one line per input line plus one per unmatched key, appended at the end as `key=value` |
| SddmSync.RewriteLines | scripts/sddm/sync-pixel-sddm.py:123-130 | an unmatched line is copied verbatim; a key's first matching line becomes `key=value`; later lines with that key are copied verbatim |
| SddmSync.MatchPreserved | scripts/sddm/sync-pixel-sddm.py:123-130 | a rewritten line matches the same keys as the original |
| SddmSync.AppendedMatches | scripts/sddm/sync-pixel-sddm.py:131-132 | an appended line matches its own key and no other |
| SddmSync.AllKeysClaimed | scripts/sddm/sync-pixel-sddm.py:120-133 | after one run every pending key is matched by some line |
| SddmSync.UpdatedIdempotent | scripts/sddm/sync-pixel-sddm.py:120-133 | rewriting the rewritten lines changes nothing |
| SddmSync.NewContentIdempotent | scripts/sddm/sync-pixel-sddm.py:114-133 | the written file, read back and rewritten with the same colours, is written the same |
| SddmSync.PendingWellFormed | scripts/sddm/sync-pixel-sddm.py:117-118 | the eight colours read plus materialShapeChars are well-formed pending keys: distinct, without `=`, and with values free of line breaks |
| SddmSync.PendingKeys | scripts/sddm/sync-pixel-sddm.py:68-77 | the nine keys written are distinct, start with a non-blank and hold no `=` or line break |
| SddmSync.RFind | scripts/sddm/sync-pixel-sddm.py:224 | the index of the last occurrence of a character, or -1 |
| SddmSync.Extension | scripts/sddm/sync-pixel-sddm.py:224 | `os.path.splitext(p)[1]` is empty or a suffix of the path that starts with `.` and holds no other `.` and no `/` |
| SddmSync.VideoByExtension | scripts/sddm/sync-pixel-sddm.py:186-227 | a file name followed by a video extension in any letter case is a video |
| SddmSync.HiddenFileNotVideo | scripts/sddm/sync-pixel-sddm.py:224-227 | a hidden file named like an extension, such as `.mp4`, has no extension and is not a video |
| SddmSync.VideoExtShape | scripts/sddm/sync-pixel-sddm.py:186 | every video extension is `.` and at least one character other than `.` and `/` |
| YtMusicAuth.PathJoin | scripts/ytmusic_auth.py:52-55 | `os.path.join` ends with the entry name and is at least as long as the directory |
| YtMusicAuth.PathJoinInjective | scripts/ytmusic_auth.py:60-61 | joining onto the same directory tells entry names apart |
| YtMusicAuth.PathJoinSuffix | scripts/ytmusic_auth.py:54 | a suffix without `/`, such as `-backup`, that ends a joined path ends the entry name |
| YtMusicAuth.ForkDir | scripts/ytmusic_auth.py:31-37 | exactly the five forks have a profile root, each a `~/` path |
| YtMusicAuth.ForkAnyCase | scripts/ytmusic_auth.py:94-96 | the fork test is a case-insensitive membership test over the five names |
| YtMusicAuth.GlobbedSound | scripts/ytmusic_auth.py:52 | every glob match is a matching entry joined onto the base |
| YtMusicAuth.GlobComplete | scripts/ytmusic_auth.py:52 | every matching entry is among the glob matches |
| YtMusicAuth.FirstPattern | scripts/ytmusic_auth.py:53-57 | the first match accepted (a directory, not `-backup`, holding cookies.sqlite), or none exactly when no match is accepted |
| YtMusicAuth.FirstFallbackSpec | scripts/ytmusic_auth.py:60-65 | the fallback returns an accepted entry joined onto the base, and none exactly when no entry is accepted |
| YtMusicAuth.ScanPattern | scripts/ytmusic_auth.py:53-57 | the loop over one pattern's matches returns the first accepted one |
| YtMusicAuth.ScanFallback | scripts/ytmusic_auth.py:60-66 | the fallback loop returns the first accepted entry |
| YtMusicAuth.FindFirefoxProfile | scripts/ytmusic_auth.py:42-66 | the loops give FirefoxProfile: `*.default-release`, then `*.default`, then any entry; None when the base does not exist |
| YtMusicAuth.FirefoxProfileSound | scripts/ytmusic_auth.py:48-66 | a profile found is a directory directly under the base holding cookies.sqlite, and is neither a `-backup` directory nor Crash Reports |
| YtMusicAuth.FallbackSound | scripts/ytmusic_auth.py:60-65 | the fallback's answer is a directory under the base, holds cookies.sqlite, and is not `-backup` or Crash Reports |
| YtMusicAuth.PatternSound | scripts/ytmusic_auth.py:50-52 | a glob match is an entry of the base and is not Crash Reports |
| YtMusicAuth.ReleasePreferred | scripts/ytmusic_auth.py:50-57 | an accepted `*.default-release` directory wins |
| YtMusicAuth.DefaultBeforeFallback | scripts/ytmusic_auth.py:50-60 | otherwise an accepted `*.default` directory wins over the fallback |
| YtMusicAuth.FallbackComplete | scripts/ytmusic_auth.py:60-65 | when the base exists, a profile is found as soon as one entry is accepted |
| YtMusicAuth.ConfigDir | scripts/ytmusic_auth.py:70-81 | unknown names are used as given; known ones map to a relative directory |
| YtMusicAuth.ConfigDirAnyCase | scripts/ytmusic_auth.py:81 | known names are looked up whatever their letter case |
| YtMusicAuth.FirstCookies | scripts/ytmusic_auth.py:88-91 | a profile found is a candidate directory holding `Cookies` |
| YtMusicAuth.ScanCookies | scripts/ytmusic_auth.py:88-92 | the loop returns the first candidate holding `Cookies` |
| YtMusicAuth.FindChromeProfile | scripts/ytmusic_auth.py:68-92 | None when the config directory is missing, else the first candidate holding `Cookies` |
| YtMusicAuth.ChromeProfileChoice | scripts/ytmusic_auth.py:84-92 | the result is `Default` or `Profile 1` and holds `Cookies`; `Default` wins; None exactly when neither qualifies or the base is missing |
| YtMusicAuth.ForkProfileNonEmpty | scripts/ytmusic_auth.py:110-112 | a profile found under a fork's root is never the empty path |
| YtMusicAuth.ForkArgument | scripts/ytmusic_auth.py:105-113 | a fork other than firefox gets `firefox:` and the given path, else the profile found, else None |
| YtMusicAuth.NativeArgument | scripts/ytmusic_auth.py:103-118 | any other browser, firefox included, gets `name:path` when a path is given, else the lowercased name |
| YtMusicAuth.ExtractNeedsArgument | scripts/ytmusic_auth.py:125-141 | no command runs exactly when no argument resolves or it is empty, and then "Could not find profile for" and the lowercased name is reported; otherwise the yt-dlp command with that argument runs; a fork without a profile never succeeds |
| YtMusicAuth.ExtractCookies | scripts/ytmusic_auth.py:120-151 | success holds exactly when a non-empty argument resolves, yt-dlp exits with 0 and the cookie file exists; success carries no error message and failure always carries one |
| YtMusicAuth.HasAuthTokenAt | scripts/ytmusic_auth.py:218-219 | the token test holds exactly when one of the three tokens occurs in the text |
| YtMusicAuth.VerifyConnection | scripts/ytmusic_auth.py:211-240 | success holds exactly when the cookie file is readable and holds an auth token and the feed run exits 0 with non-blank output |
| DocsSearch.Candidate | docs-site/src/components/search.tsx:46-65 | a hit keeps the entry's slug, title and kind; a page result has no anchor |
| DocsSearch.CandidateScores | docs-site/src/components/search.tsx:51-64 | page score 20 exactly on a title hit, 8 on a description hit without one, else 3; section score 15 exactly at level 2, else 10 |
| DocsSearch.ScoreAll | docs-site/src/components/search.tsx:40-68 | at most one scored candidate per entry |
| DocsSearch.ScoreAllSound | docs-site/src/components/search.tsx:40-68 | every candidate is that of an entry the query hits |
| DocsSearch.ScoreAllComplete | docs-site/src/components/search.tsx:40-68 | every entry the query hits is scored |
| DocsSearch.CollectScored | docs-site/src/components/search.tsx:38-68 | the scoring loop builds those candidates |
| DocsSearch.Insert | docs-site/src/components/search.tsx:70 | inserting adds exactly one element |
| DocsSearch.SortByScore | docs-site/src/components/search.tsx:70 | the sort permutes the candidates |
| DocsSearch.InsertSorted | docs-site/src/components/search.tsx:70 | insertion keeps scores non-increasing |
| DocsSearch.SortSorted | docs-site/src/components/search.tsx:70 | sorted scores are non-increasing |
| DocsSearch.SortStable | docs-site/src/components/search.tsx:70 | candidates of equal score keep their order |
| DocsSearch.Dedup | docs-site/src/components/search.tsx:71-79 | de-duplication never adds candidates |
| DocsSearch.DedupKeys | docs-site/src/components/search.tsx:71-79 | every key is kept exactly once |
| DocsSearch.DedupPositions | docs-site/src/components/search.tsx:71-79 | each kept candidate is the first with its key, and kept ones keep their order |
| DocsSearch.DedupResults | docs-site/src/components/search.tsx:71-79 | the loop with its `seen` set gives those results |
| DocsSearch.Search | docs-site/src/components/search.tsx:36-81 | at most twelve results, the first ones of the ranked list |
| DocsSearch.SearchDocs | docs-site/src/components/search.tsx:36-81 | the component's loops give those results |
| DocsSearch.SearchDistinct | docs-site/src/components/search.tsx:71-80 | no two results share a key, the slug followed by the section anchor or "" |
| DocsSearch.SearchSound | docs-site/src/components/search.tsx:37-66 | every result is the candidate of an entry the lowercased query hits |
| DocsSearch.RankedOrder | docs-site/src/components/search.tsx:70-79 | results come in non-increasing score order |
| DocsSearch.RankedBest | docs-site/src/components/search.tsx:70-79 | the result kept for a key has the highest score of all hits with that key |
| DocsSearch.RankedCoversHits | docs-site/src/components/search.tsx:70-79 | the key of every hit is kept before the cut at twelve |
| DocsSearch.QueryChanged | docs-site/src/components/search.tsx:110-114 | the selection resets to 0; a query shorter than 2 or a failed load gives no results |
| DocsSearch.Href | docs-site/src/components/search.tsx:120-121 | every target starts with `/docs` |
| DocsSearch.HrefShape | docs-site/src/components/search.tsx:120-121 | `/docs` or `/docs/<slug>`, followed by `#<anchor>` exactly when there is an anchor |
| DocsSearch.HandleKey | docs-site/src/components/search.tsx:125-136 | only Enter opens a result, and Enter leaves the selection as it is |
| DocsSearch.KeySelection | docs-site/src/components/search.tsx:126-135 | ArrowDown is `min(i + 1, len - 1)`, ArrowUp `max(i - 1, 0)`; a selection inside the results stays inside; Enter opens the result only when it exists |
| SearchIndex.HashRun | docs-site/scripts/generate-search-index.mjs:21 | the run of leading `#` |
| SearchIndex.SpaceRun | docs-site/scripts/generate-search-index.mjs:21 | the run of leading blanks |
| SearchIndex.MatchHeading | docs-site/scripts/generate-search-index.mjs:21 | a heading is two or three `#`, a blank, and text without a line terminator ending the line |
| SearchIndex.HashRunIs | docs-site/scripts/generate-search-index.mjs:21 | the run of `#` is as long as the `#` prefix |
| SearchIndex.SpaceRunIs | docs-site/scripts/generate-search-index.mjs:21 | the run of blanks is as long as the blank prefix |
| SearchIndex.FourHashesNoHeading | docs-site/scripts/generate-search-index.mjs:21 | a line starting with `####` is not a heading |
| SearchIndex.HeadingComplete | docs-site/scripts/generate-search-index.mjs:21 | `##` or `###`, blanks and text is a heading of that level with that text |
| SearchIndex.Remove | docs-site/scripts/generate-search-index.mjs:23 | the result holds none of the removed characters and is no longer |
| SearchIndex.RemoveNone | docs-site/scripts/generate-search-index.mjs:23 | removing characters a string lacks leaves it as it is |
| SearchIndex.CleanText | docs-site/scripts/generate-search-index.mjs:23 | heading text holds no `*`, `_` or backtick and is trimmed |
| SearchIndex.StripAvoids | docs-site/scripts/generate-search-index.mjs:23 | trimming keeps characters out |
| SearchIndex.SkipNonAnchor | docs-site/scripts/generate-search-index.mjs:24 | dropping a leading run outside [a-z0-9] |
| SearchIndex.Collapse | docs-site/scripts/generate-search-index.mjs:24 | each run outside [a-z0-9] becomes one `-`, so no `--` appears |
| SearchIndex.AnchorShape | docs-site/scripts/generate-search-index.mjs:24 | an anchor holds only [a-z0-9-], neither starts nor ends with `-`, and never holds `--` |
| SearchIndex.TrimDashesShape | docs-site/scripts/generate-search-index.mjs:24 | removing one leading and one trailing `-` from a collapsed text leaves no `-` at either end |
| SearchIndex.HeadingsOf | docs-site/scripts/generate-search-index.mjs:20-27 | at most one heading per line, each of level 2 or 3 |
| SearchIndex.HeadingsSound | docs-site/scripts/generate-search-index.mjs:20-26 | every heading comes from a line matching the pattern |
| SearchIndex.HeadingsClean | docs-site/scripts/generate-search-index.mjs:23-25 | heading texts are trimmed and free of `*`, `_` and backtick; the anchor is that of the text |
| SearchIndex.ExtractHeadings | docs-site/scripts/generate-search-index.mjs:17-29 | the loop gives the headings of the content's lines |
| SearchIndex.LineTexts | docs-site/scripts/generate-search-index.mjs:33 | one compared text per line |
| SearchIndex.FindHeading | docs-site/scripts/generate-search-index.mjs:33 | a found index is that of a line |
| SearchIndex.FindHeadingFirst | docs-site/scripts/generate-search-index.mjs:33-34 | findIndex answers the first line whose text is the heading, and -1 when none is |
| SearchIndex.HeadingLineText | docs-site/scripts/generate-search-index.mjs:23-33 | a heading line's compared text is the heading's own text |
| SearchIndex.HeadingFound | docs-site/scripts/generate-search-index.mjs:33 | the lookup for a heading finds its own line or an earlier one with the same text |
| SearchIndex.FindHeadingAtMost | docs-site/scripts/generate-search-index.mjs:33 | a line holding the text bounds the index found |
| SearchIndex.TrimStartIsSkip | docs-site/scripts/generate-search-index.mjs:33 | trimming the start drops exactly the leading blanks |
| SearchIndex.Take | docs-site/scripts/generate-search-index.mjs:38 | `slice(0, n)` is a prefix of at most n characters, the whole text when it fits |
| SearchIndex.ExcerptAsWritten | docs-site/scripts/generate-search-index.mjs:38 | the excerpt as written: at most 110 characters plus the ellipsis |
| SearchIndex.AsWrittenEllipsis | docs-site/scripts/generate-search-index.mjs:38 | as written, the ellipsis is appended exactly when the trimmed line is longer than 110 |
| SearchIndex.EllipsisWithoutCut | docs-site/scripts/generate-search-index.mjs:38 | a 111-character line with one `*` shows all its text and still gets the ellipsis |
| SearchIndex.EllipsisWithoutCutExample | docs-site/scripts/generate-search-index.mjs:38 | `*` followed by 110 `a` gives the 110 `a` and the ellipsis |
| SearchIndex.Excerpt | docs-site/scripts/generate-search-index.mjs:38 | the corrected excerpt: at most 110 characters plus the ellipsis |
| SearchIndex.AsWrittenDiffers | docs-site/scripts/generate-search-index.mjs:38 | the excerpt as written differs from the corrected one exactly when the cleaned text fits in 110 characters and the line does not, and then only by the added ellipsis |
| SearchIndex.ExcerptTruncates | docs-site/scripts/generate-search-index.mjs:38 | the cleaned text when it fits, else its first 110 characters and the ellipsis |
| SearchIndex.GetHeadingExcerpt | docs-site/scripts/generate-search-index.mjs:31-42 | the method gives the excerpt of its specification function, which uses the ellipsis rule as written |
| SearchIndex.ScanExcerpt | docs-site/scripts/generate-search-index.mjs:35-41 | the loop returns the excerpt as written of the first qualifying line, as the scan function does |
| SearchIndex.ScanFacts | docs-site/scripts/generate-search-index.mjs:35-41 | the scan returns the excerpt as written of its first qualifying line, or "" when none qualifies |
| SearchIndex.ExcerptSource | docs-site/scripts/generate-search-index.mjs:33-41 | "" when the heading is not found; else the excerpt of the first qualifying line among the five after it, or "" when none qualifies. That excerpt is the cleaned line cut to 110 characters, with `…` appended exactly when the trimmed line is longer than 110 |
| SearchIndex.SectionEntries | docs-site/scripts/generate-search-index.mjs:65-75 | one section entry per heading |
| SearchIndex.SectionEntriesAt | docs-site/scripts/generate-search-index.mjs:65-75 | section entry j is that of heading j |
| SearchIndex.BuildIndex | docs-site/scripts/generate-search-index.mjs:44-77 | the loop over the files gives the entries of every `.mdx` file, in listing order, each section with its excerpt as written |
| SearchIndex.IndexFile | docs-site/scripts/generate-search-index.mjs:49-75 | one file contributes its page entry and its section entries |
| SearchIndex.IndexSections | docs-site/scripts/generate-search-index.mjs:64-75 | the loop pushes one section entry per heading |
| SearchIndex.PageEntryShape | docs-site/scripts/generate-search-index.mjs:49-61 | the slug is the name without `.mdx` and `index` becomes ""; the title falls back to the name; content is lowercased and at most 8000 characters |
| SearchIndex.SectionFindable | docs-site/scripts/generate-search-index.mjs:66-74 | a section entry is found by a search for its own heading text |
| SearchIndex.IndexOfAppend | docs-site/scripts/generate-search-index.mjs:45-48 | an `.mdx` file adds its entries at the end and any other file adds none |
| SearchIndex.FileEntriesShape | docs-site/scripts/generate-search-index.mjs:55-75 | a file gives its page entry, then one section entry per heading, in order |
| DocsNav.OrderShape | docs-site/src/lib/docs.ts:8-30 | 21 pages from `index` to `changelog` |
| DocsNav.OrderDistinct | docs-site/src/lib/docs.ts:8-30 | no page appears twice in the order |
| DocsNav.OrderNonEmpty | docs-site/src/lib/docs.ts:8-30 | no entry of the order is empty |
| DocsNav.GetDocBySlug | docs-site/src/lib/docs.ts:86-102 | a document exists exactly when `<slug or index>.mdx` can be read, and keeps the slug asked for |
| DocsNav.IndexOf | docs-site/src/lib/docs.ts:106 | `indexOf` is the first index holding the value, or -1 when none does |
| DocsNav.IndexOfOrder | docs-site/src/lib/docs.ts:106 | each entry of the order is found at its own index |
| DocsNav.DocHref | docs-site/src/lib/docs.ts:118 | every link starts with `/docs` |
| DocsNav.GetDocNavigation | docs-site/src/lib/docs.ts:104-135 | the method gives the navigation of its specification function |
| DocsNav.Navigate | docs-site/src/lib/docs.ts:105-134 | the same over the order it consults |
| DocsNav.NavigationUnknown | docs-site/src/lib/docs.ts:105-108 | a slug outside the order has no links, and "" navigates as `index` |
| DocsNav.NavigationEnds | docs-site/src/lib/docs.ts:112-123 | the first page, `index` (slug ""), has no previous link and `changelog` has no next link |
| DocsNav.LinksIn | docs-site/src/lib/docs.ts:112-131 | over an order without repeats, a link exists exactly when the neighbour's file exists, and carries its address |
| DocsNav.NavigationLinks | docs-site/src/lib/docs.ts:112-131 | links exist exactly when the neighbouring document exists, with its title and `/docs` or `/docs/<slug>` |
| DocsNav.NextPrevSymmetric | docs-site/src/lib/docs.ts:106-131 | if B is A's next page and A's file exists, A is B's previous page |
| DocsNav.SlugAgrees | docs-site/src/lib/docs.ts:52-58 | the pages and the search index derive a file's slug the same way |
| DocsNav.AllDocs | docs-site/src/lib/docs.ts:47-65 | at most one page per listed file |
| DocsNav.AllDocsWithContent | docs-site/src/lib/docs.ts:67-84 | at most one document per listed file |
| DocsNav.WithContentAgrees | docs-site/src/lib/docs.ts:47-84 | both listings hold the same pages with the same slugs, titles and descriptions |
| DocsNav.AllDocsSound | docs-site/src/lib/docs.ts:50-59 | a listed page comes from an `.mdx` file, with its slug and title |
| DocsNav.SlugRoundTrip | docs-site/src/lib/docs.ts:50-96 | a page's slug leads back to its own file through getDocBySlug, with the same title and description |
| Breadcrumbs.NonEmpty | docs-site/src/components/breadcrumbs.tsx:11 | `.filter(Boolean)` keeps only non-empty segments |
| Breadcrumbs.SegmentsShape | docs-site/src/components/breadcrumbs.tsx:11 | segments are non-empty and hold no `/` |
| Breadcrumbs.SegmentsOfCanonical | docs-site/src/components/breadcrumbs.tsx:11 | a path written as `/` and segments gives back those segments |
| Breadcrumbs.Capitalize | docs-site/src/components/breadcrumbs.tsx:17 | capitalising keeps the length |
| Breadcrumbs.CapitalizeAll | docs-site/src/components/breadcrumbs.tsx:17 | each word is capitalised |
| Breadcrumbs.LabelChars | docs-site/src/components/breadcrumbs.tsx:15-18 | the character-wise label is as long as the segment |
| Breadcrumbs.LabelIsChars | docs-site/src/components/breadcrumbs.tsx:15-18 | a label turns `-` into a space and uppercases each word's first character, so it is as long as its segment |
| Breadcrumbs.ShownLabel | docs-site/src/components/breadcrumbs.tsx:30-33 | the shown label is the lowercased segment with `-` turned into spaces |
| Breadcrumbs.BreadcrumbsOf | docs-site/src/components/breadcrumbs.tsx:9-21 | `/` and `/docs` render nothing; otherwise one crumb per non-empty segment |
| Breadcrumbs.HrefExtends | docs-site/src/components/breadcrumbs.tsx:14 | each crumb's address is the previous one's, `/` and its segment, so each is a prefix of the next |
| Breadcrumbs.FirstHref | docs-site/src/components/breadcrumbs.tsx:14 | the first crumb links to `/` and the first segment |
| Breadcrumbs.LastHref | docs-site/src/components/breadcrumbs.tsx:11-14 | for a path written as `/` and segments, the last crumb links to the path itself |
| Breadcrumbs.Render | docs-site/src/components/breadcrumbs.tsx:26-37 | one shown crumb per crumb |
| Breadcrumbs.RenderLinks | docs-site/src/components/breadcrumbs.tsx:29-35 | only the last crumb has no link, each other links to its own address, and every shown label is lowercase |
| AnimatedTerminal.CopyTextLines | docs-site/src/components/animated-terminal.tsx:31 | the copied text splits back into the commands |
| AnimatedTerminal.Terminal.constructor | docs-site/src/components/animated-terminal.tsx:24-29 | the initial state: nothing typed, not started, the invariant established |
| AnimatedTerminal.Terminal.Observe | docs-site/src/components/animated-terminal.tsx:33-45 | the animation starts the first time the terminal is visible, and nothing else changes |
| AnimatedTerminal.Terminal.Step | docs-site/src/components/animated-terminal.tsx:61-84 | finish when all lines are typed, move to the next line once the active one is typed past its end, else type one character; each move keeps `completedLines == commands[..activeLine]` and brings the finish closer |
| AnimatedTerminal.Terminal.RevealOutput | docs-site/src/components/animated-terminal.tsx:65 | the timer armed on finishing shows the output and changes nothing else |
| AnimatedTerminal.Terminal.Reset | docs-site/src/components/animated-terminal.tsx:48-59 | the loop timer clears everything back to the initial state, still started |
| AnimatedTerminal.Terminal.TypedText | docs-site/src/components/animated-terminal.tsx:147 | the typed text is a prefix of the active command, at most as long as it |
| AnimatedTerminal.DoneTypedAll | docs-site/src/components/animated-terminal.tsx:51-73 | once done, every command has been typed, in order |

## Left out

- I/O is not modelled: file reads and writes, `mkdir`, `rename`, `shutil.copy2`, `os.unlink`, `chmod`, `readdir`, `fetch` and `JSON.stringify`. Files enter as values. Where a script reacts to a failed write, the write's success is a parameter.
- Subprocesses are not modelled: the GM3 command, ffmpeg, and yt-dlp's runs. Their outcomes are parameters. `shutil.which` is a set of names on PATH.
- Environment lookups are not modelled: `SUDO_USER`, `XDG_*` and `HOME`. `os.path.expanduser` is a field of the filesystem view.
- Printing and logging are not modelled, nor the scripts' `main` functions.
- `extract_cookies_with_copy` and `get_cookie_output_path` are not modelled. Both only copy files and build paths around the modelled profile search and argument.
- `update_avatar`, `extract_video_frame` and the copy part of `update_background` are not modelled: they are file copies and an ffmpeg run. Only the `VIDEO_EXTENSIONS` test is modelled.
- `_rgba`, `_write_theme`, `_ensure_extension_structure` and the extension manifest of `vscode_theme.py` are not modelled.
- VscodeTheme.ThemeColors: only 33 colour entries are modelled. These are the base entries, the entries that `_adjust_lightness` and `_mix` compute, and the terminal block. The `rgba(...)` entries and the roughly 280 plain role copies are omitted. The repeated terminal keys at `vscode_theme.py:596-603` carry the same values as the first block, so the model lists each once. The modelled entries keep the dict literal's order among themselves. A repeated key keeps its first position in a Python dict, so the repetition does not move it.
- VscodeSettings.ColorEntries: only 47 of the roughly 350 colour entries are modelled. They are the base group, extensions, terminal, debug, git and snippets.
- VscodeTheme.AdjustLightness: requires `-1 <= delta <= 1`, and VscodeTheme.Mix requires a weight in [0,1]. The script only passes ±0.05, ±0.08, 0.3 and 0.5. Outside that range Python would output channels beyond a byte or negative.
- Lengths and `slice` count characters, which are Unicode code points. JavaScript's `.length` and `slice` count UTF-16 code units. So a query or line holding characters outside the Basic Multilingual Plane has a different length in the model. This affects the query-length guard at `docs-site/src/components/search.tsx:112` and the 110- and 8000-character limits at `docs-site/scripts/generate-search-index.mjs:38` and `:60`.
- Floats are modelled as exact reals, with `int()` as the floor of a non-negative real. Rounding of binary floating point is not modelled.
- HexColor.HexToRgb: stricter than the scripts' slicing with `int(x, 16)`. The model accepts only six hex digits after the leading `#`s. Python also accepts a one-digit last slice, so `#12345` decodes to (18, 52, 5) there and to None here. It also accepts a slice with a sign (`+f`; `-1` even gives a negative channel) or with surrounding blanks (` f`, `f `). Those cases raise nowhere in the model, which reports no colour for them instead.
- Text: whitespace is one fixed set, space, `\t`, `\n`, `\r`, `\v` and `\f`, shared by the Python and JavaScript code. The `\s` of the SCSS palette patterns is the exception; see ScssPalette.MatchColorDecl. Python's `str.strip()` also strips `\x1c` to `\x1f` and Unicode spaces such as `\x85` and `\xa0`. JavaScript's `\s` and `trim()` also take Unicode spaces and `\ufeff`. Case mapping (`lower()`, `toLowerCase()`, `toUpperCase()`) is ASCII only.
- ScssPalette.MatchColorDecl: the regex class `\w` is read as ASCII `[A-Za-z0-9_]`. In a Python `str` pattern it also matches Unicode letters and digits, so `$café: #aabbcc;` is in the script's palette and not in the model's. The Unicode character database is not part of this model. The `\s` of this pattern and of the `$darkmode` pattern (`chromium_theme.py:70`) is modelled in full, as the set `str.isspace` accepts.
- ScssPalette.MatchColorDeclComplete: covers only names of ASCII word characters, for the reason given on the line above.
- SearchIndex.MatchHeading: a line ending in `\r` (CRLF files) never matches, as in JavaScript where `.` refuses `\r`. The model does not strip it.
- VscodeSettings.GenerateVscodeTheme: a colours.json value that is not a string is treated as absent, so its role falls back to the default. Python would put it into the colour strings through f-strings, or raise where it is concatenated with an alpha suffix.
- SddmSync.UpdateThemeConf: the colours are taken as strings. How the script's f-string turns a non-string JSON colour into its `theme.conf` text is not modelled.
- DocsNav.AllDocs: the listing is required to name files that can be read, because `readFileSync` on an unreadable listed file throws out of getAllDocs. That throw is not modelled.
- DocsNav: gray-matter's parse is a value per file (title, description and body). A file named just `.mdx` gets the empty slug, which getDocBySlug maps to `index.mdx`; SlugRoundTrip excludes it.
- YtMusicAuth.FindFirefoxProfile: a base path that is a regular file makes Python's `os.listdir` raise. The model lists nothing there.
- YtMusicAuth.Globbed: glob's order is taken to be the directory listing order. Hidden entries are not matched by `*`.
- AnimatedTerminal.Terminal.RevealOutput requires `done`, and AnimatedTerminal.Terminal.Reset requires `done && showOutput`. These are the conditions under which the component arms those timers. Timer delays, cancellation on re-render, `Math.random()` and the rendering of `simulatedOutput` are not modelled.
- DocsSearch: `loadIndex`'s module-level cache and the promise are not modelled. A failed load is an absent index.

## Findings

The index built by the model keeps the rule as written, as the script does. The corrected rule is stated beside it, and SearchIndex.AsWrittenDiffers says where the two differ.

| source | as written | input that shows it | evidently intended | confidence | as-written member | corrected member |
|---|---|---|---|---|---|---|
| docs-site/scripts/generate-search-index.mjs:38 | the `…` is appended when the trimmed line is longer than 110 characters, measured before `*`, `_`, backticks and brackets are removed | a line `*` followed by 110 `a`: the excerpt shows all 110 `a` and still ends in `…`, though nothing was cut | append `…` only when the cleaned text was cut at 110 characters | medium, not executed | SearchIndex.EllipsisWithoutCut | SearchIndex.ExcerptTruncates |
