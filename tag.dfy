/**
 * The coloured label that shows a project: its background and border are the
 * project's `#rrggbb` colour at 10% and 40% opacity, computed by reading the
 * three hex pairs with `parseInt(…, 16)` and writing them back in decimal.
 *
 * `parseInt` and `String.prototype.slice` are modelled as ECMAScript defines
 * them for these arguments, so an ill-formed colour yields what the browser
 * would receive (`NaN` components), not an error.
 */
module Tag {
  import opened Wrappers
  import opened Text

  // ---- Digits ---------------------------------------------------------------

  function HexDigitValue(c: char): (v: Option<nat>)
    ensures v.Some? ==> v.value < 16
  {
    if '0' <= c <= '9' then Some(c as nat - '0' as nat)
    else if 'a' <= c <= 'f' then Some(c as nat - 'a' as nat + 10)
    else if 'A' <= c <= 'F' then Some(c as nat - 'A' as nat + 10)
    else None
  }

  predicate IsHexDigit(c: char) {
    HexDigitValue(c).Some?
  }

  /** The longest prefix of `s` made of hex digits. */
  function HexRun(s: string): (d: string)
    ensures |d| <= |s| && d == s[..|d|]
    ensures forall i :: 0 <= i < |d| ==> IsHexDigit(d[i])
    ensures |d| == |s| || !IsHexDigit(s[|d|])
  {
    if s != [] && IsHexDigit(s[0]) then [s[0]] + HexRun(s[1..]) else []
  }

  /** The number the hex digits `d` write, most significant first. */
  function HexValue(d: string): nat
    requires forall i :: 0 <= i < |d| ==> IsHexDigit(d[i])
  {
    if d == [] then 0
    else
      var last := d[|d| - 1];
      assert IsHexDigit(last);
      16 * HexValue(d[..|d| - 1]) + HexDigitValue(last).value
  }

  /** `parseInt(s, 16)`; `None` is `NaN`. Leading white space is skipped, then
      an optional sign and an optional `0x`/`0X`, then as many hex digits as
      follow; without any digit the result is `NaN`. */
  function ParseIntHex(s: string): (r: Option<int>)
    ensures r.None? <==> HexRun(StripHexPrefix(StripSign(TrimStart(s)))) == []
  {
    var t := TrimStart(s);
    var d := HexRun(StripHexPrefix(StripSign(t)));
    var v: int := if d == [] then 0 else HexValue(d);
    if d == [] then None
    else if t[0] == '-' then Some(-v)
    else Some(v)
  }

  function StripSign(t: string): string {
    if t != [] && (t[0] == '-' || t[0] == '+') then t[1..] else t
  }

  function StripHexPrefix(u: string): string {
    if |u| >= 2 && u[0] == '0' && (u[1] == 'x' || u[1] == 'X') then u[2..] else u
  }

  /** `s.slice(start, end)` for non-negative indices: both are clamped to the
      length, and an end before the start gives the empty string. */
  function Slice(s: string, start: nat, end: nat): (r: string)
    ensures |r| <= |s|
    ensures start <= end <= |s| ==> r == s[start..end]
  {
    var from := if start < |s| then start else |s|;
    var to := if end < |s| then end else |s|;
    if to <= from then [] else s[from..to]
  }

  // ---- Decimal output -------------------------------------------------------

  function DecimalDigit(n: nat): char
    requires n < 10
  {
    ('0' as nat + n) as char
  }

  /** The decimal numeral of `n`, as `${n}` writes it. */
  function NatToString(n: nat): (s: string)
    ensures s != [] && forall i :: 0 <= i < |s| ==> '0' <= s[i] <= '9'
    decreases n
  {
    if n < 10 then [DecimalDigit(n)] else NatToString(n / 10) + [DecimalDigit(n % 10)]
  }

  /** `${n}` for an integer; `-0` does not arise because integers here have
      a single zero, and JavaScript also writes `-0` as `0`. */
  function IntToString(n: int): string {
    if n < 0 then "-" + NatToString(-n) else NatToString(n)
  }

  /** `${x}` for the result of `parseInt`. */
  function NumberToString(x: Option<int>): string {
    if x.Some? then IntToString(x.value) else "NaN"
  }

  /** The value of a numeral, the inverse of `NatToString`. */
  function DecimalValue(s: string): nat
    requires forall i :: 0 <= i < |s| ==> '0' <= s[i] <= '9'
  {
    if s == [] then 0 else 10 * DecimalValue(s[..|s| - 1]) + (s[|s| - 1] as nat - '0' as nat)
  }

  lemma {:induction false} NatToStringRoundTrip(n: nat)
    ensures DecimalValue(NatToString(n)) == n
    ensures NatToString(n)[0] != '0' || n == 0
    decreases n
  {
    var s := NatToString(n);
    if n >= 10 {
      NatToStringRoundTrip(n / 10);
      assert s[..|s| - 1] == NatToString(n / 10);
    }
  }

  // ---- Colours --------------------------------------------------------------

  /** `parseInt(hexColor.slice(start, start + 2), 16)` */
  function Channel(hexColor: string, start: nat): Option<int> {
    ParseIntHex(Slice(hexColor, start, start + 2))
  }

  /** `rgba(${r}, ${g}, ${b}, alpha)` for the three channels of `hexColor`. */
  function Rgba(hexColor: string, alpha: string): string {
    "rgba(" + NumberToString(Channel(hexColor, 1)) + ", " + NumberToString(Channel(hexColor, 3))
      + ", " + NumberToString(Channel(hexColor, 5)) + ", " + alpha + ")"
  }

  /** `getLightColor`: the tag's background. */
  function LightColor(hexColor: string): string {
    Rgba(hexColor, "0.1")
  }

  /** `getMediumColor`: the tag's border. */
  function MediumColor(hexColor: string): string {
    Rgba(hexColor, "0.4")
  }

  /** A colour of the form `#rrggbb`. */
  predicate IsHexColor(s: string) {
    |s| == 7 && s[0] == '#' && forall i :: 1 <= i < 7 ==> IsHexDigit(s[i])
  }

  /** The byte that the hex digits `hi` and `lo` write. */
  function Byte(hi: char, lo: char): (b: nat)
    requires IsHexDigit(hi) && IsHexDigit(lo)
    ensures b < 256
  {
    16 * HexDigitValue(hi).value + HexDigitValue(lo).value
  }

  /** A hex digit is neither white space nor a sign. */
  lemma HexDigitIsPlain(c: char)
    requires IsHexDigit(c)
    ensures !IsSpace(c) && c != '-' && c != '+' && c != 'x' && c != 'X'
  {
  }

  /** Two hex digits parse as the byte they write. */
  lemma ParseHexPair(x: char, y: char)
    requires IsHexDigit(x) && IsHexDigit(y)
    ensures ParseIntHex([x, y]) == Some(Byte(x, y))
  {
    var p := [x, y];
    HexDigitIsPlain(x);
    HexDigitIsPlain(y);
    assert TrimStart(p) == p;
    assert StripSign(p) == p;
    assert StripHexPrefix(p) == p;
    assert p[1..] == [y];
    assert HexRun([y]) == [y];
    assert HexRun(p) == p;
    assert p[..1] == [x];
    assert HexValue([x]) == HexDigitValue(x).value;
  }

  /** A channel inside the text reads the two characters at its start. */
  lemma ChannelIsParseOfPair(s: string, start: nat)
    requires start + 2 <= |s|
    ensures Channel(s, start) == ParseIntHex([s[start], s[start + 1]])
  {
    assert s[start..start + 2] == [s[start], s[start + 1]];
  }

  /** A hex pair reads as the byte it writes. */
  lemma ChannelOfHexPair(s: string, start: nat)
    requires start + 2 <= |s| && IsHexDigit(s[start]) && IsHexDigit(s[start + 1])
    ensures Channel(s, start) == Some(Byte(s[start], s[start + 1]))
  {
    ChannelIsParseOfPair(s, start);
    ParseHexPair(s[start], s[start + 1]);
  }

  /** `rgba(r, g, b, alpha)` for three known channel values. */
  function RgbaText(r: nat, g: nat, b: nat, alpha: string): string {
    "rgba(" + NatToString(r) + ", " + NatToString(g) + ", " + NatToString(b) + ", " + alpha + ")"
  }

  /** A hex pair is written back as its byte in decimal. */
  lemma ChannelText(s: string, start: nat)
    requires start + 2 <= |s| && IsHexDigit(s[start]) && IsHexDigit(s[start + 1])
    ensures NumberToString(Channel(s, start)) == NatToString(Byte(s[start], s[start + 1]))
  {
    ChannelOfHexPair(s, start);
  }

  /** For a `#rrggbb` colour, the background and border are that colour's
      bytes in decimal with opacity 0.1 and 0.4. */
  lemma WellFormedColours(hexColor: string)
    requires IsHexColor(hexColor)
    ensures var h := hexColor;
            LightColor(h) == RgbaText(Byte(h[1], h[2]), Byte(h[3], h[4]), Byte(h[5], h[6]), "0.1")
    ensures var h := hexColor;
            MediumColor(h) == RgbaText(Byte(h[1], h[2]), Byte(h[3], h[4]), Byte(h[5], h[6]), "0.4")
  {
    ChannelText(hexColor, 1);
    ChannelText(hexColor, 3);
    ChannelText(hexColor, 5);
  }

  /** Lower-case hex pair of a byte. */
  function HexPair(b: nat): string
    requires b < 256
  {
    [HexChar(b / 16), HexChar(b % 16)]
  }

  function HexChar(v: nat): (c: char)
    requires v < 16
    ensures HexDigitValue(c) == Some(v)
  {
    if v < 10 then ('0' as nat + v) as char else ('a' as nat + v - 10) as char
  }

  /** Writing three bytes as `#rrggbb` and reading the colour back gives the
      same bytes: the tag shows exactly the colour it was given. */
  lemma HexColorRoundTrip(r: nat, g: nat, b: nat)
    requires r < 256 && g < 256 && b < 256
    ensures var s := "#" + HexPair(r) + HexPair(g) + HexPair(b);
            && IsHexColor(s)
            && Byte(s[1], s[2]) == r && Byte(s[3], s[4]) == g && Byte(s[5], s[6]) == b
  {
  }

  /** A single hex digit parses as its value. */
  lemma ParseHexDigit(x: char)
    requires IsHexDigit(x)
    ensures ParseIntHex([x]) == Some(HexDigitValue(x).value)
  {
    HexDigitIsPlain(x);
    assert TrimStart([x]) == [x];
    assert HexRun([x]) == [x];
    assert HexValue([x]) == 16 * HexValue([]) + HexDigitValue(x).value;
  }

  /** Nothing to read is NaN. */
  lemma ParseEmptyIsNaN()
    ensures ParseIntHex([]) == None
  {
  }

  /** `Rgba` writes whatever text each channel renders to. */
  lemma RgbaOfTexts(hexColor: string, alpha: string, r: string, g: string, b: string)
    requires NumberToString(Channel(hexColor, 1)) == r
    requires NumberToString(Channel(hexColor, 3)) == g
    requires NumberToString(Channel(hexColor, 5)) == b
    ensures Rgba(hexColor, alpha) == "rgba(" + r + ", " + g + ", " + b + ", " + alpha + ")"
  {
  }

  lemma ShortFormChannels()
    ensures Channel("#abc", 1) == Some(171) && Channel("#abc", 3) == Some(12) && Channel("#abc", 5) == None
  {
    ChannelOfHexPair("#abc", 1);
    assert Slice("#abc", 3, 5) == ['c'];
    ParseHexDigit('c');
    assert Slice("#abc", 5, 7) == [];
    ParseEmptyIsNaN();
  }

  lemma SmallNumerals()
    ensures NatToString(0) == "0" && NatToString(12) == "12" && NatToString(171) == "171"
  {
    assert NatToString(1) == "1";
    assert NatToString(17) == NatToString(1) + [DecimalDigit(7)];
    assert NatToString(171) == NatToString(17) + [DecimalDigit(1)];
    assert NatToString(12) == NatToString(1) + [DecimalDigit(2)];
  }

  /** The three-digit short form is not understood: `#abc` reads as the
      channels 171, 12 and NaN. */
  lemma ShortFormIsMisread()
    ensures LightColor("#abc") == "rgba(" + "171" + ", " + "12" + ", " + "NaN" + ", " + "0.1" + ")"
  {
    ShortFormChannels();
    SmallNumerals();
    RgbaOfTexts("#abc", "0.1", "171", "12", "NaN");
  }

  /** A pair that starts with a character that is not a digit, a sign or
      white space is NaN. */
  lemma ParseNonHex(x: char, y: char)
    requires !IsHexDigit(x) && !IsSpace(x) && x != '-' && x != '+'
    ensures ParseIntHex([x, y]) == None
  {
    assert TrimStart([x, y]) == [x, y];
    assert StripHexPrefix([x, y]) == [x, y];
  }

  lemma NonHexChannels()
    ensures Channel("#zz0000", 1) == None && Channel("#zz0000", 3) == Some(0) && Channel("#zz0000", 5) == Some(0)
  {
    assert Slice("#zz0000", 1, 3) == ['z', 'z'];
    ParseNonHex('z', 'z');
    assert Slice("#zz0000", 3, 5) == ['0', '0'];
    assert Slice("#zz0000", 5, 7) == ['0', '0'];
    ParseHexPair('0', '0');
  }

  /** A non-hex pair gives NaN; the hex pairs after it still read. */
  lemma NonHexChannelIsNaN()
    ensures LightColor("#zz0000") == "rgba(" + "NaN" + ", " + "0" + ", " + "0" + ", " + "0.1" + ")"
  {
    NonHexChannels();
    SmallNumerals();
    RgbaOfTexts("#zz0000", "0.1", "NaN", "0", "0");
  }

  // ---- The label ------------------------------------------------------------

  /** What the label renders: whether it carries the `border` class, its
      inline style, its tooltip and its text. */
  datatype TagView = TagView(bordered: bool, backgroundColor: string, borderColor: string,
                             color: string, title: string, text: string)

  /** `<Tag name color variant>`; only the variant `"completed"` drops the
      border (class and colour). */
  function Render(name: string, color: string, variant: string): (v: TagView)
    ensures v.bordered <==> variant != "completed"
    ensures v.backgroundColor == LightColor(color)
    ensures v.borderColor == if variant == "completed" then "transparent" else MediumColor(color)
    ensures v.color == color && v.title == name && v.text == name
  {
    var isCompleted := variant == "completed";
    TagView(!isCompleted, LightColor(color), if isCompleted then "transparent" else MediumColor(color),
            color, name, name)
  }
}
