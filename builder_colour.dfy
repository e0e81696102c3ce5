/** The builder's colour conversions between `#rrggbb` strings and
    (r, g, b) channel values. */
module BuilderColour {
  import opened Js

  datatype Rgb = Rgb(r: int, g: int, b: int)

  predicate IsHexDigit(c: char)
  {
    ('0' <= c <= '9') || ('a' <= c <= 'f') || ('A' <= c <= 'F')
  }

  predicate AllHex(s: string)
  {
    forall i :: 0 <= i < |s| ==> IsHexDigit(s[i])
  }

  function HexDigitValue(c: char): (d: nat)
    requires IsHexDigit(c)
    ensures d < 16
  {
    if '0' <= c <= '9' then c as int - '0' as int
    else if 'a' <= c <= 'f' then c as int - 'a' as int + 10
    else c as int - 'A' as int + 10
  }

  /** The lower-case digit `toString(16)` uses. */
  function HexDigit(d: nat): (c: char)
    requires d < 16
    ensures IsHexDigit(c) && HexDigitValue(c) == d
  {
    if d < 10 then ('0' as int + d) as char else ('a' as int + d - 10) as char
  }

  function Pow16(k: nat): (p: nat)
    ensures p >= 1
  {
    if k == 0 then 1 else 16 * Pow16(k - 1)
  }

  /** `n.toString(16)`. */
  function NatToHex(n: nat): (s: string)
    ensures |s| >= 1 && AllHex(s)
  {
    if n < 16 then [HexDigit(n)] else NatToHex(n / 16) + [HexDigit(n % 16)]
  }

  /** The last k hexadecimal digits of m, with leading zeros. */
  function FixedHex(m: nat, k: nat): (s: string)
    ensures |s| == k && AllHex(s)
  {
    if k == 0 then [] else FixedHex(m / 16, k - 1) + [HexDigit(m % 16)]
  }

  /** `rgbToHex`, for channel values in 0..255: the number
      `(1 << 24) + (r << 16) + (g << 8) + b` in hexadecimal, without its
      leading 1, after a '#'. */
  function RgbToHex(r: int, g: int, b: int): string
    requires 0 <= r < 256 && 0 <= g < 256 && 0 <= b < 256
  {
    "#" + NatToHex(Packed(r, g, b))[1..]
  }

  /** `(1 << 24) + (r << 16) + (g << 8) + b`. */
  function Packed(r: nat, g: nat, b: nat): nat
  {
    Pow16(6) + r * Pow16(4) + g * Pow16(2) + b
  }

  /** Whether `/^#?([a-f\d]{2})([a-f\d]{2})([a-f\d]{2})$/i` matches, and
      the six digits it captures. */
  predicate MatchesHexColour(hex: string)
  {
    (|hex| == 7 && hex[0] == '#' && AllHex(hex[1..])) || (|hex| == 6 && AllHex(hex))
  }

  function HexDigitsOf(hex: string): (t: string)
    requires MatchesHexColour(hex)
    ensures |t| == 6 && AllHex(t)
  {
    if |hex| == 7 then hex[1..] else hex
  }

  /** `parseInt` in base 16 of the two digits at i and i + 1. */
  function PairAt(t: string, i: nat): (v: nat)
    requires i + 2 <= |t| && AllHex(t)
    ensures v < 256
  {
    HexDigitValue(t[i]) * 16 + HexDigitValue(t[i + 1])
  }

  /** `hexToRgb`: the three captured pairs read in base 16, or null. */
  function HexToRgb(hex: string): (c: Option<Rgb>)
    ensures c.Some? <==> MatchesHexColour(hex)
    ensures c.Some? ==> 0 <= c.value.r < 256 && 0 <= c.value.g < 256 && 0 <= c.value.b < 256
  {
    if MatchesHexColour(hex) then
      var t := HexDigitsOf(hex);
      Some(Rgb(PairAt(t, 0), PairAt(t, 2), PairAt(t, 4)))
    else None
  }

  // ---------------------------------------------------------------------
  // Properties

  /** Dropping the last hexadecimal digit of x * 16p + y. */
  lemma DigitStep(n: nat, x: nat, p: nat, y: nat)
    requires n == x * (16 * p) + y && y < 16 * p
    ensures n / 16 == x * p + y / 16 && n % 16 == y % 16 && y / 16 < p
    ensures x >= 1 && p >= 1 ==> n >= 16
  {
    assert x * (16 * p) == 16 * (x * p);
    if x >= 1 && p >= 1 {
      assert x * p == p + (x - 1) * p;
    }
    assert n == 16 * (x * p + y / 16) + y % 16;
  }

  /** Writing a number as a prefix followed by k fixed digits. */
  lemma {:induction false} NatToHexShift(n: nat, a: nat, m: nat, k: nat)
    requires n == a * Pow16(k) + m && a >= 1 && m < Pow16(k)
    ensures NatToHex(n) == NatToHex(a) + FixedHex(m, k)
  {
    if k > 0 {
      var p := Pow16(k - 1);
      assert Pow16(k) == 16 * p;
      DigitStep(n, a, p, m);
      NatToHexShift(n / 16, a, m / 16, k - 1);
      var d := [HexDigit(m % 16)];
      assert NatToHex(n) == NatToHex(n / 16) + d;
      assert FixedHex(m, k) == FixedHex(m / 16, k - 1) + d;
      assert (NatToHex(a) + FixedHex(m / 16, k - 1)) + d == NatToHex(a) + (FixedHex(m / 16, k - 1) + d);
    }
  }

  /** Fixed-width digits of n = x * 16^j + y are those of x followed by
      those of y. */
  lemma {:induction false} FixedHexSplit(n: nat, x: nat, y: nat, k: nat, j: nat)
    requires n == x * Pow16(j) + y && y < Pow16(j)
    ensures FixedHex(n, k + j) == FixedHex(x, k) + FixedHex(y, j)
  {
    if j > 0 {
      var p := Pow16(j - 1);
      assert Pow16(j) == 16 * p;
      DigitStep(n, x, p, y);
      FixedHexSplit(n / 16, x, y / 16, k, j - 1);
      var d := [HexDigit(y % 16)];
      assert FixedHex(n, k + j) == FixedHex(n / 16, k + j - 1) + d;
      assert FixedHex(y, j) == FixedHex(y / 16, j - 1) + d;
      assert (FixedHex(x, k) + FixedHex(y / 16, j - 1)) + d == FixedHex(x, k) + (FixedHex(y / 16, j - 1) + d);
    }
  }

  lemma Pow16Values()
    ensures Pow16(2) == 256 && Pow16(4) == 65536 && Pow16(6) == 16777216
  {
    assert Pow16(1) == 16;
    assert Pow16(3) == 4096;
    assert Pow16(5) == 1048576;
  }

  /** `rgbToHex` is '#' followed by each channel as two lower-case digits. */
  lemma RgbToHexDigits(r: int, g: int, b: int)
    requires 0 <= r < 256 && 0 <= g < 256 && 0 <= b < 256
    ensures RgbToHex(r, g, b) == "#" + FixedHex(r, 2) + FixedHex(g, 2) + FixedHex(b, 2)
  {
    var gb, m := Channels(r, g, b);
    var x, y, z := FixedHex(r, 2), FixedHex(g, 2), FixedHex(b, 2);
    DropLeadingOne(m);
    FixedHexSplit(m, r, gb, 2, 4);
    FixedHexSplit(gb, g, b, 2, 2);
    assert "#" + (x + (y + z)) == "#" + x + y + z;
  }

  /** The packed number as 1 followed by six digits, the last four of
      which are g's and b's. */
  lemma Channels(r: nat, g: nat, b: nat) returns (gb: nat, m: nat)
    requires r < 256 && g < 256 && b < 256
    ensures gb == g * Pow16(2) + b && gb < Pow16(4)
    ensures m == r * Pow16(4) + gb && m < Pow16(6)
    ensures Packed(r, g, b) == Pow16(6) + m
  {
    Pow16Values();
    gb := g * Pow16(2) + b;
    m := r * Pow16(4) + gb;
  }

  /** Six digits after a leading 1. */
  lemma DropLeadingOne(m: nat)
    requires m < Pow16(6)
    ensures NatToHex(Pow16(6) + m)[1..] == FixedHex(m, 6)
  {
    NatToHexShift(Pow16(6) + m, 1, m, 6);
    assert NatToHex(1) == "1";
  }

  /** Two fixed digits of a channel value. */
  lemma TwoDigits(x: nat)
    requires x < 256
    ensures FixedHex(x, 2) == [HexDigit(x / 16), HexDigit(x % 16)]
  {
    var hi := x / 16;
    assert hi < 16 && hi / 16 == 0 && hi % 16 == hi;
    assert FixedHex(hi, 1) == FixedHex(0, 0) + [HexDigit(hi)];
    assert FixedHex(x, 2) == FixedHex(hi, 1) + [HexDigit(x % 16)];
  }

  /** A colour written by `rgbToHex` reads back as the same channels. */
  lemma HexRoundTrip(r: int, g: int, b: int)
    requires 0 <= r < 256 && 0 <= g < 256 && 0 <= b < 256
    ensures HexToRgb(RgbToHex(r, g, b)) == Some(Rgb(r, g, b))
  {
    var s := RgbToHex(r, g, b);
    var d := [HexDigit(r / 16), HexDigit(r % 16), HexDigit(g / 16), HexDigit(g % 16), HexDigit(b / 16), HexDigit(b % 16)];
    assert s == "#" + d by {
      RgbToHexDigits(r, g, b);
      TwoDigits(r);
      TwoDigits(g);
      TwoDigits(b);
    }
    assert s[1..] == d;
    assert AllHex(d);
    assert HexDigitsOf(s) == d;
    assert PairAt(d, 0) == r && PairAt(d, 2) == g && PairAt(d, 4) == b;
  }

  lemma HexDigitRoundTrip(c: char)
    requires IsHexDigit(c)
    ensures HexDigit(HexDigitValue(c)) == AsciiLower(c)
  {
  }

  /** Reading two digits and writing them back gives them in lower case. */
  lemma PairRoundTrip(t: string, i: nat)
    requires i + 2 <= |t| && AllHex(t)
    ensures FixedHex(PairAt(t, i), 2) == [AsciiLower(t[i]), AsciiLower(t[i + 1])]
  {
    var v := PairAt(t, i);
    assert v / 16 == HexDigitValue(t[i]) && v % 16 == HexDigitValue(t[i + 1]);
    TwoDigits(v);
    HexDigitRoundTrip(t[i]);
    HexDigitRoundTrip(t[i + 1]);
  }

  /** A matching colour string read and written back is the '#'-prefixed,
      lower-cased form of its digits. */
  lemma HexNormalises(hex: string)
    requires MatchesHexColour(hex)
    ensures var c := HexToRgb(hex).value;
      RgbToHex(c.r, c.g, c.b) == "#" + ToLower(HexDigitsOf(hex))
  {
    var t := HexDigitsOf(hex);
    var c := HexToRgb(hex).value;
    var l := ToLower(t);
    assert RgbToHex(c.r, c.g, c.b) == "#" + [l[0], l[1]] + [l[2], l[3]] + [l[4], l[5]] by {
      RgbToHexDigits(c.r, c.g, c.b);
      PairRoundTrip(t, 0);
      PairRoundTrip(t, 2);
      PairRoundTrip(t, 4);
    }
    assert l == [l[0], l[1]] + [l[2], l[3]] + [l[4], l[5]];
  }
}
