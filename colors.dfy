/**
 * Hex colour encoding: `toHexByte` and `rgbaToHex` of the colour utilities,
 * their hand-padded copies in the plugin entry file, and the
 * always-with-alpha variant used for shadow colours.
 *
 * A colour component is taken as its byte `Math.round(x * 255)`; the
 * floating-point rounding itself is not modelled, and the test `a < 1` on
 * the raw alpha is carried as the boolean `translucent`.
 */
module Colors {
  import opened Options

  /** A colour after `Math.round(x * 255)` on each component. */
  datatype Rgba = Rgba(r: nat, g: nat, b: nat, a: nat, translucent: bool)

  /** Every component came from a value in [0, 1]. */
  predicate InRange(c: Rgba) {
    c.r < 256 && c.g < 256 && c.b < 256 && c.a < 256
  }

  predicate IsHexDigit(ch: char) {
    '0' <= ch <= '9' || 'a' <= ch <= 'f'
  }

  predicate AllHex(s: string) {
    forall i :: 0 <= i < |s| ==> IsHexDigit(s[i])
  }

  function HexDigit(d: nat): (ch: char)
    requires d < 16
    ensures IsHexDigit(ch)
  {
    if d < 10 then ('0' as int + d) as char else ('a' as int + d - 10) as char
  }

  function HexValue(ch: char): (d: nat)
    requires IsHexDigit(ch)
    ensures d < 16
  {
    if ch <= '9' then ch as int - '0' as int else ch as int - 'a' as int + 10
  }

  lemma HexDigitValue(d: nat)
    requires d < 16
    ensures HexValue(HexDigit(d)) == d
  {
  }

  /** The number a string of lower-case hex digits stands for. */
  function DecodeHex(s: string): nat
    requires AllHex(s)
  {
    if s == [] then 0 else 16 * DecodeHex(s[..|s| - 1]) + HexValue(s[|s| - 1])
  }

  /** `v.toString(16)`: lower-case digits, no leading zero. */
  function HexString(v: nat): (s: string)
    ensures AllHex(s)
    ensures 1 <= |s|
    ensures v < 16 <==> |s| == 1
    ensures v < 256 <==> |s| <= 2
  {
    if v < 16 then [HexDigit(v)] else HexString(v / 16) + [HexDigit(v % 16)]
  }

  /** Reading the digits of `v.toString(16)` back gives `v`. */
  lemma {:induction false} HexStringDecodes(v: nat)
    ensures DecodeHex(HexString(v)) == v
  {
    var s := HexString(v);
    if v < 16 {
      HexDigitValue(v);
    } else {
      HexStringDecodes(v / 16);
      HexDigitValue(v % 16);
      assert s[..|s| - 1] == HexString(v / 16);
    }
  }

  /** A leading "0" does not change the number a hex string stands for. */
  lemma {:induction false} LeadingZero(s: string)
    requires AllHex(s)
    ensures AllHex("0" + s) && DecodeHex("0" + s) == DecodeHex(s)
  {
    if s != [] {
      LeadingZero(s[..|s| - 1]);
      assert ("0" + s)[..|"0" + s| - 1] == "0" + s[..|s| - 1];
    }
  }

  /** `s.padStart(n, ch)`: prepends copies of `ch` up to length `n` and never truncates. */
  function PadStart(s: string, n: nat, ch: char): (r: string)
    ensures |r| == if |s| >= n then |s| else n
    ensures r[|r| - |s|..] == s
    decreases n - |s|
  {
    if |s| >= n then s else PadStart([ch] + s, n, ch)
  }

  /**
   * `toHexByte(v)`: `v.toString(16).padStart(2, "0")`. A byte gives exactly
   * two lower-case hex digits and a larger value more.
   */
  function ToHexByte(v: nat): (r: string)
    ensures AllHex(r)
    ensures |r| >= 2
    ensures v < 256 <==> |r| == 2
  {
    PadStart(HexString(v), 2, '0')
  }

  /** The digits of `toHexByte(v)` decode back to `v`, so no value is truncated. */
  lemma ToHexByteDecodes(v: nat)
    ensures DecodeHex(ToHexByte(v)) == v
  {
    var h := HexString(v);
    HexStringDecodes(v);
    LeadingZero(h);
    assert |h| == 1 ==> PadStart(h, 2, '0') == "0" + h;
  }

  /** The plugin entry file's `toHexByte`: pads a single digit by hand. */
  function ToHexBytePadded(v: nat): string {
    var h := HexString(v);
    if |h| == 1 then "0" + h else h
  }

  /** The hand-padded copy agrees with `padStart` on every value. */
  lemma ToHexBytePaddedAgrees(v: nat)
    ensures ToHexBytePadded(v) == ToHexByte(v)
  {
    var h := HexString(v);
    if |h| == 1 {
      assert PadStart(h, 2, '0') == PadStart("0" + h, 2, '0');
    }
  }

  /** `rgbaToHex(c)`: "#", then red, green and blue, then alpha only when `a < 1`. */
  function RgbaToHex(c: Rgba): (s: string)
    ensures |s| >= 7 && s[0] == '#'
    ensures InRange(c) ==> |s| == if c.translucent then 9 else 7
  {
    "#" + (ToHexByte(c.r) + ToHexByte(c.g) + ToHexByte(c.b) + (if c.translucent then ToHexByte(c.a) else ""))
  }

  /** The plugin entry file's `rgbaToHex`, built from the hand-padded bytes. */
  function RgbaToHexPadded(c: Rgba): string {
    var hex := "#" + ToHexBytePadded(c.r) + ToHexBytePadded(c.g) + ToHexBytePadded(c.b);
    if c.translucent then hex + ToHexBytePadded(c.a) else hex
  }

  lemma RgbaToHexPaddedAgrees(c: Rgba)
    ensures RgbaToHexPadded(c) == RgbaToHex(c)
  {
    ToHexBytePaddedAgrees(c.r);
    ToHexBytePaddedAgrees(c.g);
    ToHexBytePaddedAgrees(c.b);
    ToHexBytePaddedAgrees(c.a);
    var r, g, b := ToHexByte(c.r), ToHexByte(c.g), ToHexByte(c.b);
    if c.translucent {
      Regroup(r, g, b, ToHexByte(c.a));
    } else {
      Regroup(r, g, b, "");
    }
  }

  lemma Regroup(r: string, g: string, b: string, e: string)
    ensures "#" + r + g + b + e == "#" + (r + g + b + e)
    ensures "#" + r + g + b == "#" + (r + g + b + "")
  {
    assert r + g + b + "" == r + g + b;
  }

  /** A shadow colour: the alpha byte is always appended. */
  function ShadowHex(c: Rgba): (s: string)
    ensures |s| >= 9 && s[0] == '#'
    ensures InRange(c) ==> |s| == 9
  {
    "#" + (ToHexByte(c.r) + ToHexByte(c.g) + ToHexByte(c.b) + ToHexByte(c.a))
  }

  /** The channels a hex colour string stands for: red, green, blue and, for 8 digits, alpha. */
  datatype Channels = Channels(r: nat, g: nat, b: nat, alpha: Option<nat>)

  /** Reads "#rrggbb" or "#rrggbbaa" back into its channels. */
  function ParseHexColor(s: string): Option<Channels>
  {
    if (|s| == 7 || |s| == 9) && s[0] == '#' && AllHex(s[1..]) then Some(DigitChannels(s[1..]))
    else None
  }

  /** The channels of six or eight hex digits, two digits per channel. */
  function DigitChannels(d: string): Channels
    requires |d| == 6 || |d| == 8
    requires AllHex(d)
  {
    Channels(ByteValue(d[0], d[1]), ByteValue(d[2], d[3]), ByteValue(d[4], d[5]),
             if |d| == 8 then Some(ByteValue(d[6], d[7])) else None)
  }

  /** The byte two hex digits stand for, high digit first. */
  function ByteValue(hi: char, lo: char): nat
    requires IsHexDigit(hi) && IsHexDigit(lo)
  {
    16 * HexValue(hi) + HexValue(lo)
  }

  lemma ByteValueDecodes(s: string)
    requires |s| == 2 && AllHex(s)
    ensures ByteValue(s[0], s[1]) == DecodeHex(s)
  {
    var h := s[..1];
    assert h[..0] == [] && h[0] == s[0];
    assert DecodeHex(h) == HexValue(s[0]);
  }

  /** Reading "#" followed by three two-digit bytes and an optional fourth. */
  lemma ParseBytes(x: string, y: string, z: string, e: string)
    requires |x| == 2 && |y| == 2 && |z| == 2 && (|e| == 0 || |e| == 2)
    requires AllHex(x) && AllHex(y) && AllHex(z) && AllHex(e)
    ensures ParseHexColor("#" + (x + y + z + e)) ==
            Some(Channels(DecodeHex(x), DecodeHex(y), DecodeHex(z),
                          if |e| == 2 then Some(DecodeHex(e)) else None))
  {
    var d := x + y + z + e;
    AllHexAppend(x, y);
    AllHexAppend(x + y, z);
    AllHexAppend(x + y + z, e);
    ParseHash(d);
    DigitsOf(x, y, z, e);
  }

  lemma ParseHash(d: string)
    requires (|d| == 6 || |d| == 8) && AllHex(d)
    ensures ParseHexColor("#" + d) == Some(DigitChannels(d))
  {
    assert ("#" + d)[1..] == d;
  }

  lemma DigitsOf(x: string, y: string, z: string, e: string)
    requires |x| == 2 && |y| == 2 && |z| == 2 && (|e| == 0 || |e| == 2)
    requires AllHex(x) && AllHex(y) && AllHex(z) && AllHex(e) && AllHex(x + y + z + e)
    ensures DigitChannels(x + y + z + e) ==
            Channels(DecodeHex(x), DecodeHex(y), DecodeHex(z),
                     if |e| == 2 then Some(DecodeHex(e)) else None)
  {
    var d := x + y + z + e;
    ByteValueDecodes(x);
    ByteValueDecodes(y);
    ByteValueDecodes(z);
    if |e| == 2 {
      ByteValueDecodes(e);
      assert d[6] == e[0] && d[7] == e[1];
    }
    assert d[0] == x[0] && d[1] == x[1] && d[2] == y[0] && d[3] == y[1] && d[4] == z[0] && d[5] == z[1];
  }

  lemma AllHexAppend(a: string, b: string)
    requires AllHex(a) && AllHex(b)
    ensures AllHex(a + b)
  {
    forall i | 0 <= i < |a + b| ensures IsHexDigit((a + b)[i]) {
      if i >= |a| { assert (a + b)[i] == b[i - |a|]; }
    }
  }

  /** Decoding `rgbaToHex` gives back the red, green and blue bytes in that order, and alpha exactly when `a < 1`. */
  lemma RgbaToHexRoundTrip(c: Rgba)
    requires InRange(c)
    ensures ParseHexColor(RgbaToHex(c)) ==
            Some(Channels(c.r, c.g, c.b, if c.translucent then Some(c.a) else None))
  {
    var e := if c.translucent then ToHexByte(c.a) else "";
    ToHexByteDecodes(c.r);
    ToHexByteDecodes(c.g);
    ToHexByteDecodes(c.b);
    ToHexByteDecodes(c.a);
    ParseBytes(ToHexByte(c.r), ToHexByte(c.g), ToHexByte(c.b), e);
  }

  /** Decoding a shadow colour gives back all four bytes. */
  lemma ShadowHexRoundTrip(c: Rgba)
    requires InRange(c)
    ensures ParseHexColor(ShadowHex(c)) == Some(Channels(c.r, c.g, c.b, Some(c.a)))
  {
    ToHexByteDecodes(c.r);
    ToHexByteDecodes(c.g);
    ToHexByteDecodes(c.b);
    ToHexByteDecodes(c.a);
    ParseBytes(ToHexByte(c.r), ToHexByte(c.g), ToHexByte(c.b), ToHexByte(c.a));
  }
}
