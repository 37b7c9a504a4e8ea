/** Hex colour codec shared by the Chromium and VS Code theme builders:
    `#RRGGBB` strings to RGB triples and back. */
module HexColor {
  import opened Text
  import opened Wrappers

  type Byte = x: int | 0 <= x < 256

  datatype Rgb = Rgb(r: Byte, g: Byte, b: Byte)

  predicate IsHexDigit(c: char) {
    '0' <= c <= '9' || 'a' <= c <= 'f' || 'A' <= c <= 'F'
  }

  predicate IsLowerHexDigit(c: char) {
    '0' <= c <= '9' || 'a' <= c <= 'f'
  }

  function HexValue(c: char): (v: nat)
    requires IsHexDigit(c)
    ensures v < 16
  {
    if '0' <= c <= '9' then c as int - '0' as int
    else if 'a' <= c <= 'f' then c as int - 'a' as int + 10
    else c as int - 'A' as int + 10
  }

  /** The lower-case digit Python's `%x` format prints. */
  function HexChar(n: nat): (c: char)
    requires n < 16
    ensures IsLowerHexDigit(c)
  {
    if n < 10 then ('0' as int + n) as char else ('a' as int + n - 10) as char
  }

  lemma HexCharValue(n: nat)
    requires n < 16
    ensures HexValue(HexChar(n)) == n
  {
  }

  lemma HexValueChar(c: char)
    requires IsHexDigit(c)
    ensures HexChar(HexValue(c)) == LowerChar(c)
  {
  }

  /** int(s, 16) on a two-digit slice. */
  function ParseByte(s: string): (v: Byte)
    requires |s| == 2 && IsHexDigit(s[0]) && IsHexDigit(s[1])
  {
    HexValue(s[0]) * 16 + HexValue(s[1])
  }

  /** `%02x`: exactly two lower-case digits for a value below 256. */
  function FormatByte(n: Byte): (s: string)
    ensures |s| == 2 && IsLowerHexDigit(s[0]) && IsLowerHexDigit(s[1])
  {
    [HexChar(n / 16), HexChar(n % 16)]
  }

  lemma ParseFormatByte(n: Byte)
    ensures ParseByte(FormatByte(n)) == n
  {
    HexCharValue(n / 16);
    HexCharValue(n % 16);
  }

  /** color.lstrip("#"): every leading '#' goes. */
  function StripHashes(s: string): (t: string)
    ensures |t| <= |s|
  {
    if |s| > 0 && s[0] == '#' then StripHashes(s[1..]) else s
  }

  /** hex_to_rgb succeeds when, after the leading '#'s, there are at least six
      characters and the first six are hex digits; characters beyond the sixth
      are ignored, because only the slices [0:2], [2:4] and [4:6] are read. */
  predicate Parses(s: string) {
    var t := StripHashes(s);
    |t| >= 6 && forall i :: 0 <= i < 6 ==> IsHexDigit(t[i])
  }

  function HexToRgb(s: string): (c: Option<Rgb>)
    ensures c.Some? <==> Parses(s)
  {
    var t := StripHashes(s);
    if Parses(s) then
      Some(Rgb(ParseByte(t[0..2]), ParseByte(t[2..4]), ParseByte(t[4..6])))
    else None
  }

  /** f"#{r:02x}{g:02x}{b:02x}" */
  function FormatRgb(c: Rgb): (s: string)
    ensures IsLowerHexColor(s)
  {
    "#" + FormatByte(c.r) + FormatByte(c.g) + FormatByte(c.b)
  }

  /** What the palette regex `#[A-Fa-f0-9]{6}` accepts. */
  predicate IsHexColor(s: string) {
    |s| == 7 && s[0] == '#' && forall i :: 1 <= i < 7 ==> IsHexDigit(s[i])
  }

  predicate IsLowerHexColor(s: string) {
    |s| == 7 && s[0] == '#' && forall i :: 1 <= i < 7 ==> IsLowerHexDigit(s[i])
  }

  lemma LowerHexIsHex(s: string)
    requires IsLowerHexColor(s)
    ensures IsHexColor(s)
  {
  }

  lemma HexColorParses(s: string)
    requires IsHexColor(s)
    ensures Parses(s) && StripHashes(s) == s[1..]
  {
    assert StripHashes(s) == StripHashes(s[1..]);
    assert s[1..][0] != '#';
  }

  /** Parsing a formatted triple gives the triple back. */
  lemma ParseFormat(c: Rgb)
    ensures HexToRgb(FormatRgb(c)) == Some(c)
  {
    var s := FormatRgb(c);
    HexColorParses(s);
    var t := s[1..];
    assert t[0..2] == FormatByte(c.r);
    assert t[2..4] == FormatByte(c.g);
    assert t[4..6] == FormatByte(c.b);
    ParseFormatByte(c.r);
    ParseFormatByte(c.g);
    ParseFormatByte(c.b);
  }

  lemma FormatParseByte(s: string)
    requires |s| == 2 && IsHexDigit(s[0]) && IsHexDigit(s[1])
    ensures FormatByte(ParseByte(s)) == Lower(s)
  {
    HexValueChar(s[0]);
    HexValueChar(s[1]);
    var v := ParseByte(s);
    assert v / 16 == HexValue(s[0]) && v % 16 == HexValue(s[1]);
  }

  /** Formatting a parsed `#RRGGBB` colour gives the same colour in lower case. */
  lemma FormatParse(s: string)
    requires IsHexColor(s)
    ensures HexToRgb(s).Some? && FormatRgb(HexToRgb(s).value) == Lower(s)
  {
    HexColorParses(s);
    var c := HexToRgb(s).value;
    FormatParseByte(s[1..3]);
    FormatParseByte(s[3..5]);
    FormatParseByte(s[5..7]);
    assert s[1..][0..2] == s[1..3] && s[1..][2..4] == s[3..5] && s[1..][4..6] == s[5..7];
    assert Lower(s) == "#" + Lower(s[1..3]) + Lower(s[3..5]) + Lower(s[5..7]);
  }
}
