/**
 * The JavaScript values that reach the resolver as option values and defaults,
 * with the three pieces of JavaScript semantics the resolver relies on:
 * truthiness, the `||` operator, and the conversion of a value to the property
 * name it selects when used as an index (`obj[value]`).
 */
module Js {

  /** An option value: a string, a number (integers, and NaN apart), a boolean, null or undefined. */
  datatype Value = Str(s: string) | Num(n: int) | NaN | Bool(b: bool) | Null | Undefined

  /** ToBoolean (section 7.1.2 of ECMA-262): "", 0, NaN, false, null and undefined are falsy. */
  predicate Truthy(v: Value)
    ensures Truthy(v) <==> v !in {Str(""), Num(0), NaN, Bool(false), Null, Undefined}
  {
    match v
    case Str(s) => s != ""
    case Num(n) => n != 0
    case NaN => false
    case Bool(b) => b
    case Null => false
    case Undefined => false
  }

  /** `a || b`: the left operand if it is truthy, otherwise the right operand, unconverted. */
  function Or(a: Value, b: Value): (r: Value)
    ensures r == a || r == b
    ensures Truthy(r) <==> Truthy(a) || Truthy(b)
    ensures Truthy(a) ==> r == a
    ensures !Truthy(a) ==> r == b
  {
    if Truthy(a) then a else b
  }

  /** The decimal digit character for `d`. */
  function DigitChar(d: nat): (c: char)
    requires d < 10
    ensures '0' <= c <= '9'
  {
    "0123456789"[d]
  }

  /** The numeric value of a decimal digit character. */
  function DigitValue(c: char): (d: nat)
    requires '0' <= c <= '9'
    ensures d < 10 && DigitChar(d) == c
  {
    c as nat - '0' as nat
  }

  predicate IsDigits(s: string)
  {
    forall i :: 0 <= i < |s| ==> '0' <= s[i] <= '9'
  }

  /** The decimal numeral of `n`, most significant digit first, without leading zeros. */
  function NatDigits(n: nat): (r: string)
    ensures |r| >= 1 && IsDigits(r)
    ensures r[0] == '0' ==> n == 0
    decreases n
  {
    if n < 10 then [DigitChar(n)] else NatDigits(n / 10) + [DigitChar(n % 10)]
  }

  /**
   * Number::toString for an integer: an optional minus sign and its decimal
   * numeral. This matches JavaScript for integers of magnitude below 2^53;
   * larger numbers print the shortest digits that read back as the same
   * double, which this model does not capture.
   */
  function DecimalString(n: int): (r: string)
    ensures |r| >= 1
    ensures r[0] == '-' <==> n < 0
  {
    if n < 0 then "-" + NatDigits(-n) else NatDigits(n)
  }

  /** The value of a string of decimal digits (the inverse of NatDigits). */
  function ParseNat(s: string): (n: nat)
    requires IsDigits(s)
    decreases |s|
  {
    if |s| == 0 then 0 else ParseNat(s[..|s| - 1]) * 10 + DigitValue(s[|s| - 1])
  }

  /** The integer a DecimalString numeral denotes. */
  function ParseDecimal(s: string): int
  {
    if |s| > 0 && s[0] == '-' && IsDigits(s[1..]) then -(ParseNat(s[1..]) as int)
    else if IsDigits(s) then ParseNat(s)
    else 0
  }

  lemma {:induction false} ParseNatDigits(n: nat)
    ensures ParseNat(NatDigits(n)) == n
    decreases n
  {
    if n >= 10 {
      var r := NatDigits(n);
      assert r[..|r| - 1] == NatDigits(n / 10);
      ParseNatDigits(n / 10);
    }
  }

  /** Reading back the numeral of an integer gives the integer. */
  lemma DecimalRoundTrip(n: int)
    ensures ParseDecimal(DecimalString(n)) == n
  {
    if n < 0 {
      assert DecimalString(n)[1..] == NatDigits(-n);
      ParseNatDigits(-n);
    } else {
      ParseNatDigits(n);
    }
  }

  /**
   * ToPropertyKey (section 7.1.19 of ECMA-262) followed by ToString: the
   * property name a value selects when it is used as `obj[value]`.
   */
  function PropertyKey(v: Value): (key: string)
    ensures key == "" <==> v == Str("")
    ensures v.Num? ==> ParseDecimal(key) == v.n
  {
    match v
    case Str(s) => s
    case Num(n) => DecimalRoundTrip(n); DecimalString(n)
    case NaN => "NaN"
    case Bool(b) => if b then "true" else "false"
    case Null => "null"
    case Undefined => "undefined"
  }

  /** Distinct numbers select distinct property names, none of them "". */
  lemma PropertyKeyDistinguishes(v: Value, w: Value)
    requires v.Num? && w.Num? && v != w
    ensures PropertyKey(v) != PropertyKey(w)
    ensures PropertyKey(v) != ""
  {
    DecimalRoundTrip(v.n);
    DecimalRoundTrip(w.n);
  }

  /**
   * `falsyToString`: booleans become "true"/"false" and the number 0 becomes
   * "0", so that they stay usable (truthy) lookup keys; every other value is
   * returned unchanged.
   */
  function FalsyToString(v: Value): (r: Value)
    ensures !r.Bool?
    ensures PropertyKey(r) == PropertyKey(v)
    ensures Truthy(r) <==> Truthy(v) || v.Bool? || v == Num(0)
    ensures !v.Bool? && v != Num(0) ==> r == v
  {
    if v.Bool? then Str(if v.b then "true" else "false")
    else if v == Num(0) then Str("0")
    else v
  }

  /** The three values `falsyToString` converts, and what they become. */
  lemma FalsyToStringConverts()
    ensures FalsyToString(Bool(true)) == Str("true")
    ensures FalsyToString(Bool(false)) == Str("false")
    ensures FalsyToString(Num(0)) == Str("0")
  {
  }

  /** Applying `falsyToString` twice is the same as applying it once. */
  lemma FalsyToStringIdempotent(v: Value)
    ensures FalsyToString(FalsyToString(v)) == FalsyToString(v)
  {
  }

  /**
   * After `falsyToString` the only falsy option values left are "", null,
   * undefined and NaN: exactly the ones that make the resolver fall back to
   * the default.
   */
  lemma FalsyAfterConversion(v: Value)
    ensures !Truthy(FalsyToString(v)) <==> v in {Str(""), Null, Undefined, NaN}
  {
  }
}
