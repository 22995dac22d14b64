/** Colours: the built-in bead palettes, the user's custom colours and the
    text colour the export picks to stay readable over the sheet's
    background colour. */
module Colors {
  import opened Types

  datatype Color = Color(name: string, code: string, hex: string)

  /** Every built-in colour, palette after palette (Hama, Perler, Artkal):
      `Object.values(PALETTES).flat()`. */
  const Palettes: seq<Color> := [
    Color("Branco", "01", "#FFFFFF"), Color("Creme", "02", "#F2E9D4"),
    Color("Amarelo", "03", "#FFD700"), Color("Laranja", "04", "#FFA500"),
    Color("Vermelho", "05", "#FF0000"), Color("Rosa", "06", "#FFC0CB"),
    Color("Roxo", "07", "#800080"), Color("Azul", "08", "#0000FF"),
    Color("Azul Claro", "09", "#ADD8E6"), Color("Verde", "10", "#008000"),
    Color("Verde Claro", "11", "#90EE90"), Color("Marrom", "12", "#A52A2A"),
    Color("Cinza", "17", "#808080"), Color("Preto", "18", "#000000"),
    Color("Branco", "P01", "#FDFEFE"), Color("Preto", "P18", "#1C1C1C"),
    Color("Vermelho", "P05", "#C51D22"), Color("Azul", "P08", "#1D53A0"),
    Color("Branco Neve", "S01", "#F4F4F4"), Color("Preto Forte", "S17", "#111111")
  ]

  // ---------------------------------------------------------------------
  // Case mapping

  function LowerChar(c: char): char
  {
    if 'A' <= c <= 'Z' then (c as int + 32) as char else c
  }

  function UpperChar(c: char): char
  {
    if 'a' <= c <= 'z' then (c as int - 32) as char else c
  }

  /** `toLowerCase` on the ASCII letters: no capital is left, each capital
      becomes its small letter, and every other character is kept. */
  function Lower(s: string): (r: string)
    ensures |r| == |s|
    ensures forall i :: 0 <= i < |r| ==> !('A' <= r[i] <= 'Z')
    ensures forall i :: 0 <= i < |s| && 'A' <= s[i] <= 'Z' ==> r[i] as int == s[i] as int + 32
    ensures forall i :: 0 <= i < |s| && !('A' <= s[i] <= 'Z') ==> r[i] == s[i]
  {
    seq(|s|, i requires 0 <= i < |s| => LowerChar(s[i]))
  }

  /** `toUpperCase` on the ASCII letters: no small letter is left, each
      small letter becomes its capital, and every other character is kept. */
  function Upper(s: string): (r: string)
    ensures |r| == |s|
    ensures forall i :: 0 <= i < |r| ==> !('a' <= r[i] <= 'z')
    ensures forall i :: 0 <= i < |s| && 'a' <= s[i] <= 'z' ==> r[i] as int == s[i] as int - 32
    ensures forall i :: 0 <= i < |s| && !('a' <= s[i] <= 'z') ==> r[i] == s[i]
  {
    seq(|s|, i requires 0 <= i < |s| => UpperChar(s[i]))
  }

  /** Lower-casing twice is lower-casing once. */
  lemma LowerTwice(s: string)
    ensures Lower(Lower(s)) == Lower(s)
  {
  }

  /** Upper-casing first makes no difference once lower-cased: the custom
      colour's upper-cased name and its hex compare the same. */
  lemma LowerOfUpper(s: string)
    ensures Lower(Upper(s)) == Lower(s)
  {
  }

  // ---------------------------------------------------------------------
  // Custom colours

  /** Some colour of the list has this hex code, ignoring case. */
  predicate Listed(colors: seq<Color>, hex: string)
  {
    exists i :: 0 <= i < |colors| && Lower(colors[i].hex) == Lower(hex)
  }

  /** handleAddCustomColor: a hex already among the built-in or the custom
      colours, in any case, leaves the list alone; any other is appended
      with its upper-cased hex as name and the next `C<n>` code. */
  function AddCustomColor(prev: seq<Color>, hex: string): (r: seq<Color>)
    ensures |prev| <= |r| <= |prev| + 1 && r[..|prev|] == prev
    ensures |r| == |prev| + 1 <==> !Listed(Palettes, hex) && !Listed(prev, hex)
    ensures |r| == |prev| + 1 ==> r[|prev|] == Color(Upper(hex), "C" + Decimal(|r|), hex)
    ensures Listed(Palettes, hex) || Listed(r, hex)
  {
    if Listed(Palettes, hex) || Listed(prev, hex) then prev
    else
      var r := prev + [Color(Upper(hex), "C" + Decimal(|prev| + 1), hex)];
      assert Lower(r[|prev|].hex) == Lower(hex);
      r
  }

  /** No two custom colours share a hex, ignoring case, and none repeats a
      built-in one. */
  predicate Distinct(custom: seq<Color>)
  {
    (forall i, j :: 0 <= i < j < |custom| ==> Lower(custom[i].hex) != Lower(custom[j].hex)) &&
    (forall i :: 0 <= i < |custom| ==> !Listed(Palettes, custom[i].hex))
  }

  /** Adding keeps the custom colours free of duplicates. */
  lemma AddKeepsDistinct(prev: seq<Color>, hex: string)
    requires Distinct(prev)
    ensures Distinct(AddCustomColor(prev, hex))
  {
    var r := AddCustomColor(prev, hex);
    if |r| == |prev| + 1 {
      assert !Listed(prev, hex);
      assert forall i :: 0 <= i < |prev| ==> r[i] == prev[i];
      forall i | 0 <= i < |r| ensures !Listed(Palettes, r[i].hex) {
        if i < |prev| {
          assert r[i] == prev[i];
        }
      }
    }
  }

  /** Adding the same colour twice is the same as adding it once. */
  lemma AddIdempotent(prev: seq<Color>, hex: string)
    ensures AddCustomColor(AddCustomColor(prev, hex), hex) == AddCustomColor(prev, hex)
  {
  }

  /** Whether a colour is added does not depend on the case of its hex. */
  lemma AddIgnoresCase(prev: seq<Color>, hex: string)
    ensures |AddCustomColor(prev, Lower(hex))| == |AddCustomColor(prev, hex)|
  {
    LowerTwice(hex);
  }

  /** The custom colours are numbered C1, C2, ... in the order they were
      added. */
  predicate NumberedCodes(custom: seq<Color>)
  {
    forall i :: 0 <= i < |custom| ==> custom[i].code == "C" + Decimal(i + 1)
  }

  lemma AddKeepsNumbering(prev: seq<Color>, hex: string)
    requires NumberedCodes(prev)
    ensures NumberedCodes(AddCustomColor(prev, hex))
  {
  }

  // ---------------------------------------------------------------------
  // Contrast colour for text over the export background

  /** Dark and light text colours of the export sheet. */
  const Dark: string := "#111827"
  const Light: string := "#f9fafb"

  predicate IsHexDigit(c: char)
  {
    '0' <= c <= '9' || 'a' <= c <= 'f' || 'A' <= c <= 'F'
  }

  function HexValue(c: char): (v: nat)
    requires IsHexDigit(c)
    ensures v < 16
  {
    if '0' <= c <= '9' then c as int - '0' as int
    else if 'a' <= c <= 'f' then c as int - 'a' as int + 10
    else c as int - 'A' as int + 10
  }

  /** `parseInt(s, 16)` of two hex digits. */
  function Channel(hi: char, lo: char): (v: nat)
    requires IsHexDigit(hi) && IsHexDigit(lo)
    ensures v < 256
  {
    HexValue(hi) * 16 + HexValue(lo)
  }

  /** The code without one leading '#'. */
  function StripHash(hex: string): (r: string)
    ensures hex == r || hex == ['#'] + r
    ensures |r| < |hex| <==> |hex| > 0 && hex[0] == '#'
  {
    if |hex| > 0 && hex[0] == '#' then hex[1..] else hex
  }

  /** Only hex digits follow the optional '#'. */
  predicate WellFormed(hex: string)
  {
    forall i :: 0 <= i < |StripHash(hex)| ==> IsHexDigit(StripHash(hex)[i])
  }

  /** Six digits, with a three-digit code doubled digit by digit. */
  function Expand(h: string): (r: string)
    requires forall i :: 0 <= i < |h| ==> IsHexDigit(h[i])
    ensures forall i :: 0 <= i < |r| ==> IsHexDigit(r[i])
    ensures |r| == 6 <==> |h| == 3 || |h| == 6
  {
    if |h| == 3 then [h[0], h[0], h[1], h[1], h[2], h[2]] else h
  }

  /** The perceived brightness times 1000: `r*299 + g*587 + b*114`. */
  function Luminance(d: string): (l: nat)
    requires |d| == 6 && forall i :: 0 <= i < 6 ==> IsHexDigit(d[i])
    ensures l <= 255 * 1000
  {
    Channel(d[0], d[1]) * 299 + Channel(d[2], d[3]) * 587 + Channel(d[4], d[5]) * 114
  }

  /** getContrastColor, applied to the export's opaque background colour:
      dark text over a background whose brightness (on the 0-255 scale) is
      at least 128, light text over a darker one, and dark text for a code
      of any length but three or six digits. */
  function ContrastColor(hex: string): (r: string)
    requires WellFormed(hex)
    ensures r == Dark || r == Light
    ensures var d := Expand(StripHash(hex));
      r == Light <==> |d| == 6 && Luminance(d) < 128000
  {
    var d := Expand(StripHash(hex));
    if |d| != 6 then Dark
    else if Luminance(d) >= 128000 then Dark
    else Light
  }

  /** The three-digit short form reads as its doubled six-digit form. */
  lemma ShortFormAgrees(a: char, b: char, c: char)
    requires IsHexDigit(a) && IsHexDigit(b) && IsHexDigit(c)
    ensures WellFormed(['#', a, b, c]) && WellFormed(['#', a, a, b, b, c, c])
    ensures ContrastColor(['#', a, b, c]) == ContrastColor(['#', a, a, b, b, c, c])
  {
    assert StripHash(['#', a, b, c]) == [a, b, c];
    assert StripHash(['#', a, a, b, b, c, c]) == [a, a, b, b, c, c];
  }

  /** The leading '#' is optional. */
  lemma HashOptional(h: string)
    requires forall i :: 0 <= i < |h| ==> IsHexDigit(h[i])
    ensures WellFormed(h) && WellFormed(['#'] + h)
    ensures ContrastColor(['#'] + h) == ContrastColor(h)
  {
    assert StripHash(['#'] + h) == h;
    if |h| > 0 {
      assert h[0] != '#';
    }
  }

  /** Six digits, each channel at least the other's. */
  predicate Brighter(x: string, y: string)
    requires |x| == 6 && forall i :: 0 <= i < 6 ==> IsHexDigit(x[i])
    requires |y| == 6 && forall i :: 0 <= i < 6 ==> IsHexDigit(y[i])
  {
    Channel(x[0], x[1]) >= Channel(y[0], y[1]) &&
    Channel(x[2], x[3]) >= Channel(y[2], y[3]) &&
    Channel(x[4], x[5]) >= Channel(y[4], y[5])
  }

  /** A colour at least as bright in every channel as one that gets dark
      text gets dark text too. */
  lemma ContrastMonotone(x: string, y: string)
    requires |x| == 6 && forall i :: 0 <= i < 6 ==> IsHexDigit(x[i])
    requires |y| == 6 && forall i :: 0 <= i < 6 ==> IsHexDigit(y[i])
    requires x[0] != '#' && y[0] != '#'
    requires Brighter(x, y) && ContrastColor(y) == Dark
    ensures ContrastColor(x) == Dark
  {
    assert StripHash(x) == x && StripHash(y) == y;
  }

  /** A white background gets dark text and a black one light text. */
  lemma ContrastExtremes()
    ensures WellFormed("#FFFFFF") && ContrastColor("#FFFFFF") == Dark
    ensures WellFormed("#000000") && ContrastColor("#000000") == Light
  {
    assert StripHash("#FFFFFF") == "FFFFFF";
    assert StripHash("#000000") == "000000";
  }
}
