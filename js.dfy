/** The slice of JavaScript value semantics the server relies on: the values a
    verified token payload can hold, reading a property that may be missing, and
    the string conversion a template literal applies. Numbers are integers here. */
module Js {

  /** A payload property value; `Undefined` is what reading a missing key yields. */
  datatype Value = Undefined | Null | Bool(b: bool) | Num(n: int) | Str(s: string)

  /** A decoded token payload: a plain object from property names to values. */
  type Object = map<string, Value>

  /** `o.key`: the property's value, or `undefined` when the object lacks the key. */
  function Get(o: Object, key: string): Value
  {
    if key in o then o[key] else Undefined
  }

  predicate IsDigits(s: string)
  {
    forall i :: 0 <= i < |s| ==> '0' <= s[i] <= '9'
  }

  function DigitChar(d: nat): (ch: char)
    requires d < 10
    ensures '0' <= ch <= '9' && ch as int - '0' as int == d
  {
    ('0' as int + d) as char
  }

  /** Decimal rendering of a natural number: digits only, no leading zero. */
  function Decimal(n: nat): (s: string)
    ensures |s| >= 1 && IsDigits(s)
    ensures s[0] == '0' ==> n == 0
    decreases n
  {
    if n < 10 then [DigitChar(n)] else Decimal(n / 10) + [DigitChar(n % 10)]
  }

  /** The number a string of decimal digits denotes. */
  function DigitsValue(s: string): nat
    requires IsDigits(s)
    decreases |s|
  {
    if s == [] then 0 else DigitsValue(s[..|s| - 1]) * 10 + (s[|s| - 1] as int - '0' as int)
  }

  lemma {:induction false} DecimalRoundTrip(n: nat)
    ensures DigitsValue(Decimal(n)) == n
    decreases n
  {
    if n >= 10 {
      DecimalRoundTrip(n / 10);
      var s := Decimal(n);
      assert s[..|s| - 1] == Decimal(n / 10);
    }
  }

  /** `String(n)` for an integer: an optional minus sign followed by the decimal digits. */
  function IntString(n: int): (s: string)
    ensures |s| >= 1
    ensures n < 0 <==> s[0] == '-'
    ensures n < 0 ==> IsDigits(s[1..])
    ensures n >= 0 ==> IsDigits(s)
  {
    if n < 0 then "-" + Decimal(-n) else Decimal(n)
  }

  /** Reads back an integer in the form IntString produces. */
  function IntValue(s: string): int
    requires |s| >= 1
    requires s[0] == '-' ==> IsDigits(s[1..])
    requires s[0] != '-' ==> IsDigits(s)
  {
    if s[0] == '-' then 0 - DigitsValue(s[1..]) as int else DigitsValue(s)
  }

  lemma IntStringRoundTrip(n: int)
    ensures IntValue(IntString(n)) == n
  {
    if n < 0 {
      DecimalRoundTrip(-n);
      assert IntString(n)[1..] == Decimal(-n);
    } else {
      DecimalRoundTrip(n);
    }
  }

  /** The conversion `${v}` applies inside a template literal. */
  function TemplateString(v: Value): (s: string)
    ensures v.Num? ==> s == IntString(v.n)
    ensures v.Str? ==> s == v.s
  {
    match v
    case Undefined => "undefined"
    case Null => "null"
    case Bool(b) => if b then "true" else "false"
    case Num(n) => IntString(n)
    case Str(t) => t
  }
}
