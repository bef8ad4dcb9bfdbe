/** The JavaScript values and conversions the announcement service relies on:
    JSON values as they arrive in a request body or event payload, `parseInt`,
    `Number(x)`, `String(n)` for integers, truthiness and `Array.prototype.includes`.
    Numbers are integral here; fractions, exponents and floating point are not modelled. */
module Js {

  datatype Option<+T> = None | Some(value: T)

  /** A JSON value as a handler or a component sees it. `JUndefined` is a missing
      property. Objects and arrays are not needed by the modelled code. */
  datatype JsonValue =
    | JUndefined
    | JNull
    | JBool(b: bool)
    | JNumber(n: int)
    | JString(s: string)

  // ---------------------------------------------------------------------------
  // Digits

  predicate IsDecimalDigit(c: char) {
    '0' <= c <= '9'
  }

  /** The value of an alphanumeric digit in radices up to 36, or -1. */
  function DigitValue(c: char): (d: int)
    ensures -1 <= d < 36
    ensures IsDecimalDigit(c) ==> d == c as int - '0' as int
    ensures d < 10 && d != -1 ==> IsDecimalDigit(c)
  {
    if '0' <= c <= '9' then c as int - '0' as int
    else if 'a' <= c <= 'z' then c as int - 'a' as int + 10
    else if 'A' <= c <= 'Z' then c as int - 'A' as int + 10
    else -1
  }

  predicate IsRadixDigit(c: char, radix: nat) {
    0 <= DigitValue(c) < radix
  }

  predicate AllDigits(s: string, radix: nat) {
    forall i :: 0 <= i < |s| ==> IsRadixDigit(s[i], radix)
  }

  /** Positional value of a digit string, most significant digit first. */
  function DigitsValue(s: string, radix: nat): nat
    requires AllDigits(s, radix)
  {
    if |s| == 0 then 0
    else DigitsValue(s[..|s| - 1], radix) * radix + DigitValue(s[|s| - 1])
  }

  /** Length of the longest prefix of `s` made of digits of `radix`. */
  function DigitRun(s: string, radix: nat): (n: nat)
    ensures n <= |s|
    ensures AllDigits(s[..n], radix)
    ensures n < |s| ==> !IsRadixDigit(s[n], radix)
  {
    if |s| == 0 || !IsRadixDigit(s[0], radix) then 0
    else
      var m := DigitRun(s[1..], radix);
      assert s[..m + 1] == [s[0]] + s[1..][..m];
      m + 1
  }

  lemma {:induction false} DigitRunOfDigits(s: string, radix: nat)
    requires AllDigits(s, radix)
    ensures DigitRun(s, radix) == |s|
  {
    if |s| > 0 {
      DigitRunOfDigits(s[1..], radix);
    }
  }

  // ---------------------------------------------------------------------------
  // String(n) for integers

  function DigitChar(d: nat): (c: char)
    requires d < 10
    ensures IsDecimalDigit(c) && DigitValue(c) == d
  {
    ('0' as int + d) as char
  }

  /** Decimal representation of a natural number, without leading zeros. */
  function DecimalString(n: nat): (s: string)
    ensures 1 <= |s|
    ensures AllDigits(s, 10)
    ensures DigitsValue(s, 10) == n
    ensures |s| > 1 ==> s[0] != '0'
  {
    if n < 10 then [DigitChar(n)]
    else
      var prefix := DecimalString(n / 10);
      var s := prefix + [DigitChar(n % 10)];
      assert s[..|s| - 1] == prefix;
      s
  }

  /** `String(n)` (or a template literal) applied to an integer. */
  function NumberToString(n: int): (s: string)
    ensures 1 <= |s|
  {
    if n < 0 then "-" + DecimalString(-n) else DecimalString(n)
  }

  // ---------------------------------------------------------------------------
  // White space

  /** The WhiteSpace and LineTerminator code points that `parseInt` and `Number`
      skip (StrWhiteSpaceChar in ECMAScript). */
  predicate IsJsSpace(c: char) {
    var u := c as int;
    || (0x09 <= u <= 0x0D)
    || u == 0x20 || u == 0xA0 || u == 0x1680
    || (0x2000 <= u <= 0x200A)
    || u == 0x2028 || u == 0x2029 || u == 0x202F || u == 0x205F
    || u == 0x3000 || u == 0xFEFF
  }

  /** `s` with its leading white space removed. */
  function TrimStart(s: string): (t: string)
    ensures |t| <= |s| && t == s[|s| - |t|..]
    ensures |t| == 0 || !IsJsSpace(t[0])
    ensures forall i :: 0 <= i < |s| - |t| ==> IsJsSpace(s[i])
  {
    if |s| > 0 && IsJsSpace(s[0]) then
      var t := TrimStart(s[1..]);
      assert s[1..][|s| - 1 - |t|..] == s[|s| - |t|..];
      assert forall i | 1 <= i < |s| - |t| :: s[i] == s[1..][i - 1];
      t
    else s
  }

  /** `s` with its trailing white space removed. */
  function TrimEnd(s: string): (t: string)
    ensures |t| <= |s| && t == s[..|t|]
    ensures |t| == 0 || !IsJsSpace(t[|t| - 1])
    ensures forall i :: |t| <= i < |s| ==> IsJsSpace(s[i])
  {
    if |s| > 0 && IsJsSpace(s[|s| - 1]) then
      var t := TrimEnd(s[..|s| - 1]);
      assert s[..|s| - 1][..|t|] == s[..|t|];
      assert forall i | |t| <= i < |s| - 1 :: s[i] == s[..|s| - 1][i];
      t
    else s
  }

  // ---------------------------------------------------------------------------
  // parseInt(string) with no radix argument; `None` is NaN

  function ParseInt(s: string): Option<int>
  {
    ParseIntSigned(TrimStart(s))
  }

  /** `parseInt` once leading white space is gone: an optional sign, then digits. */
  function ParseIntSigned(t: string): Option<int>
  {
    if |t| > 0 && t[0] == '-' then
      var m := ParseIntUnsigned(t[1..]);
      if m.Some? then Some(-m.value) else None
    else if |t| > 0 && t[0] == '+' then ParseIntUnsigned(t[1..])
    else ParseIntUnsigned(t)
  }

  /** The longest run of digits at the start of `u`, in radix 16 after a `0x`
      or `0X` prefix and in radix 10 otherwise; NaN when the run is empty. */
  function ParseIntUnsigned(u: string): Option<int>
  {
    var hex := |u| >= 2 && u[0] == '0' && (u[1] == 'x' || u[1] == 'X');
    var radix := if hex then 16 else 10;
    var w := if hex then u[2..] else u;
    var n := DigitRun(w, radix);
    if n == 0 then None else Some(DigitsValue(w[..n], radix))
  }

  /** `parseInt` reads back what `String(n)` writes. */
  lemma ParseIntOfNumberString(n: int)
    ensures ParseInt(NumberToString(n)) == Some(n)
  {
    var d := DecimalString(if n < 0 then -n else n);
    var s := NumberToString(n);
    assert !IsJsSpace(s[0]);
    assert TrimStart(s) == s;
    DigitRunOfDigits(d, 10);
    assert d[..|d|] == d;
    assert ParseIntUnsigned(d) == Some(DigitsValue(d, 10));
    if n < 0 {
      assert s[1..] == d;
    }
  }

  // ---------------------------------------------------------------------------
  // Number(x); `None` is NaN

  /** The radix a `0x`, `0o` or `0b` prefix selects in a numeric string, or 0. */
  function RadixPrefix(c: char): nat {
    if c == 'x' || c == 'X' then 16
    else if c == 'o' || c == 'O' then 8
    else if c == 'b' || c == 'B' then 2
    else 0
  }

  /** StringToNumber restricted to integers: the text without its surrounding
      white space is read as a numeric literal. */
  function StringToNumber(s: string): Option<int>
  {
    NumericLiteral(TrimEnd(TrimStart(s)))
  }

  /** An empty literal is 0, a non-decimal literal takes no sign and a decimal
      literal may take one. */
  function NumericLiteral(t: string): Option<int>
  {
    if |t| == 0 then Some(0)
    else if |t| >= 2 && t[0] == '0' && RadixPrefix(t[1]) > 0 then
      var radix := RadixPrefix(t[1]);
      var w := t[2..];
      if |w| > 0 && AllDigits(w, radix) then Some(DigitsValue(w, radix)) else None
    else
      var negative := t[0] == '-';
      var u := if t[0] == '-' || t[0] == '+' then t[1..] else t;
      if |u| > 0 && AllDigits(u, 10) then
        var m: int := DigitsValue(u, 10);
        Some(if negative then -m else m)
      else None
  }

  function ToNumber(v: JsonValue): Option<int>
  {
    match v
    case JUndefined => None
    case JNull => Some(0)
    case JBool(b) => Some(if b then 1 else 0)
    case JNumber(n) => Some(n)
    case JString(s) => StringToNumber(s)
  }

  /** `Number(a) === Number(b)`: NaN equals nothing, itself included. */
  predicate NumericallyEqual(a: JsonValue, b: JsonValue) {
    var x := ToNumber(a);
    var y := ToNumber(b);
    x.Some? && y.Some? && x.value == y.value
  }

  /** Text that neither starts nor ends with white space is read as it is. */
  lemma TrimUnpadded(s: string)
    requires |s| > 0 && !IsJsSpace(s[0]) && !IsJsSpace(s[|s| - 1])
    ensures TrimEnd(TrimStart(s)) == s
  {
    assert TrimStart(s) == s;
  }

  /** A decimal string without leading zeros is not read as a `0x`, `0o` or
      `0b` literal by `Number`. */
  lemma NumberOfDecimalString(d: string)
    requires 1 <= |d| && AllDigits(d, 10)
    requires |d| > 1 ==> d[0] != '0'
    ensures StringToNumber(d) == Some(DigitsValue(d, 10))
  {
    assert IsRadixDigit(d[0], 10) && IsRadixDigit(d[|d| - 1], 10);
    TrimUnpadded(d);
  }

  /** `Number` reads back what `String(n)` writes. */
  lemma NumberOfNumberString(n: int)
    ensures ToNumber(JString(NumberToString(n))) == Some(n)
  {
    if n >= 0 {
      NumberOfDecimalString(DecimalString(n));
    } else {
      var d := DecimalString(-n);
      var s := "-" + d;
      assert IsRadixDigit(d[|d| - 1], 10);
      assert s[|s| - 1] == d[|d| - 1];
      TrimUnpadded(s);
      assert s[1..] == d;
      assert NumericLiteral(s) == Some(n);
    }
  }

  // ---------------------------------------------------------------------------
  // Truthiness and Array.prototype.includes

  predicate Truthy(v: JsonValue) {
    match v
    case JUndefined => false
    case JNull => false
    case JBool(b) => b
    case JNumber(n) => n != 0
    case JString(s) => |s| > 0
  }

  /** SameValueZero on the values modelled here is structural equality: the two
      values on which it differs from `===`, NaN and -0, are not represented. */
  predicate SameValueZero(a: JsonValue, b: JsonValue) {
    a == b
  }

  /** `xs.includes(v)`. */
  function Includes(xs: seq<JsonValue>, v: JsonValue): (r: bool)
    ensures r <==> v in xs
  {
    if |xs| == 0 then false
    else SameValueZero(xs[0], v) || Includes(xs[1..], v)
  }
}
