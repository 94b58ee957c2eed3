/**
 * The JavaScript coercions the builders apply to resolved values:
 * `Number(x)`, `Number(x) || 0`, `String(x)`, truthiness, and the local
 * `toHex` of the token builders, which reads `.r`, `.g`, `.b` and `.a` off
 * whatever value it is given.
 */
module Coercion {
  import opened Options
  import opened Text
  import opened Colors
  import opened VariableData

  predicate IsDigit(c: char) {
    '0' <= c <= '9'
  }

  predicate AllDigits(s: string) {
    forall i :: 0 <= i < |s| ==> IsDigit(s[i])
  }

  /** The number a string of decimal digits stands for. */
  function DigitsValue(s: string): nat
    requires AllDigits(s)
  {
    if s == [] then 0 else 10 * DigitsValue(s[..|s| - 1]) + (s[|s| - 1] as int - '0' as int)
  }

  /**
   * `Number(s)` on a string, for integer text: surrounding whitespace is
   * ignored, the empty string is 0, an optional sign precedes the digits,
   * and anything else is `NaN` (`None`).
   */
  function NumberOfString(s: string): Option<int> {
    NumberOfText(Trim(s))
  }

  /** `Number(t)` once the whitespace around `t` is gone. */
  function NumberOfText(t: string): Option<int> {
    if t == [] then Some(0)
    else if (t[0] == '-' || t[0] == '+') && |t| > 1 && AllDigits(t[1..]) then
      var d: int := DigitsValue(t[1..]);
      Some(if t[0] == '-' then -d else d)
    else if AllDigits(t) then Some(DigitsValue(t))
    else None
  }

  /** `Number(x)`; `None` is `NaN`. Objects (colours, aliases) give `NaN`. */
  function NumberOf(v: Value): Option<int> {
    match v
    case Null => Some(0)
    case Bool(b) => Some(if b then 1 else 0)
    case Num(n) => Some(n)
    case Str(s) => NumberOfString(s)
    case _ => None
  }

  /** `Number(x) || 0`: `NaN` becomes 0. */
  function NumberOr0(v: Value): int {
    match NumberOf(v)
    case Some(n) => n
    case None => 0
  }

  /** `String(x)`. */
  function JsString(v: Value): string {
    match v
    case Null => "null"
    case Bool(b) => if b then "true" else "false"
    case Num(n) => IntToString(n)
    case Str(s) => s
    case _ => "[object Object]"
  }

  /** JavaScript truthiness. */
  predicate Truthy(v: Value) {
    match v
    case Null => false
    case Bool(b) => b
    case Num(n) => n != 0
    case Str(s) => s != ""
    case _ => true
  }

  /** What `Math.round(x * 255).toString(16)` gives for an `undefined` component. */
  const NaNHex: string := "NaN"

  /**
   * `toHex(c)` of the token builders: red, green and blue bytes, then the
   * alpha byte only when `c.a < 1`. A value without colour fields gives
   * "NaN" digits; `null` throws.
   */
  function ToHex(v: Value): (r: Result<string>)
    ensures r.Fault? <==> v == Null
    ensures v.Color? ==> r == Ok(RgbaToHex(v.c))
  {
    match v
    case Null => Fault
    case Color(c) => Ok(RgbaToHex(c))
    case Rgb(r, g, b) => Ok("#" + (ToHexByte(r) + ToHexByte(g) + ToHexByte(b)))
    case _ => Ok("#" + NaNHex + NaNHex + NaNHex)
  }

  /** `typeof x === "string" ? x : toHex(x)`: the colour text the builders store. */
  function HexOf(v: Value): (r: Result<string>)
    ensures r.Fault? <==> v == Null
    ensures v.Str? ==> r == Ok(v.s)
  {
    if v.Str? then Ok(v.s) else ToHex(v)
  }

  /** Reading the decimal digits of a natural number back gives the number. */
  lemma {:induction false} DigitsRoundTrip(n: nat)
    ensures AllDigits(IntToString(n)) && DigitsValue(IntToString(n)) == n
  {
    var s := IntToString(n);
    if n >= 10 {
      DigitsRoundTrip(n / 10);
      var p := IntToString(n / 10);
      assert s == p + [DecimalDigit(n % 10)];
      assert s[..|s| - 1] == p;
    }
  }

  /** `Number(String(n)) === n` for every integer. */
  lemma NumberOfIntToString(n: int)
    ensures NumberOfString(IntToString(n)) == Some(n)
  {
    var s := IntToString(n);
    assert Trimmed(s) by { assert !IsSpace(s[0]) && !IsSpace(s[|s| - 1]); }
    assert Trim(s) == s;
    if n < 0 {
      var p := IntToString(-n);
      DigitsRoundTrip(-n);
      assert s == "-" + p;
      assert s[1..] == p;
      assert NumberOfText(s) == Some(n);
    } else {
      DigitsRoundTrip(n);
      assert NumberOfText(s) == Some(n);
    }
  }
}
