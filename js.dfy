/**
 * The pieces of JavaScript value semantics that the handlers depend on:
 * truthiness (`!x`), template-literal conversion, loose equality (`!=`)
 * between a stored string and a request value, and decimal strings
 * (`Number.prototype.toString` and the ODM's cast of a string back to a number).
 */
module Js {
  import opened Wrappers

  /** A JSON scalar as it arrives in a parsed request; objects and arrays are not modelled. */
  datatype JsValue = Undefined | Null | Bool(b: bool) | Num(n: int) | Str(s: string)

  /** `!x` is false for an optional string field: present and non-empty. */
  predicate Truthy(x: Option<string>) {
    x.Some? && x.value != ""
  }

  /** `!x` is false for an optional numeric field: present and non-zero. */
  predicate TruthyNumber(x: Option<int>) {
    x.Some? && x.value != 0
  }

  /** The text `${x}` produces for an optional string field. */
  function Interpolate(x: Option<string>): string {
    if x.Some? then x.value else "undefined"
  }

  predicate IsDigit(c: char) {
    '0' <= c <= '9'
  }

  predicate AllDigits(s: string) {
    forall i :: 0 <= i < |s| ==> IsDigit(s[i])
  }

  function DigitChar(d: nat): (c: char)
    requires d < 10
    ensures IsDigit(c) && c as int - '0' as int == d
  {
    ('0' as int + d) as char
  }

  /** The value of a string of decimal digits, most significant first. */
  function DigitsValue(s: string): nat
    requires AllDigits(s)
  {
    if s == [] then 0
    else DigitsValue(s[..|s| - 1]) * 10 + (s[|s| - 1] as int - '0' as int)
  }

  /** `n.toString()` for a non-negative integer: canonical decimal, no leading zero. */
  function NumberToString(n: nat): (s: string)
    ensures |s| >= 1 && AllDigits(s)
    ensures s[0] == '0' ==> n == 0
  {
    if n < 10 then [DigitChar(n)] else NumberToString(n / 10) + [DigitChar(n % 10)]
  }

  /** Reading back the decimal text of a number gives the number. */
  lemma {:induction false} NumberToStringRoundTrip(n: nat)
    ensures DigitsValue(NumberToString(n)) == n
  {
    var s := NumberToString(n);
    if n >= 10 {
      assert s[..|s| - 1] == NumberToString(n / 10);
      NumberToStringRoundTrip(n / 10);
    }
  }

  /** Two numbers with the same decimal text are the same number. */
  lemma NumberToStringInjective(m: nat, n: nat)
    requires NumberToString(m) == NumberToString(n)
    ensures m == n
  {
    NumberToStringRoundTrip(m);
    NumberToStringRoundTrip(n);
  }

  /**
   * `Number(s)` restricted to the strings the service stores in a number
   * comparison (reset codes, which are always digit strings): the empty string
   * is 0 and a string of decimal digits is its value. Every other string is
   * mapped to NaN (None) here, although JavaScript also reads signs, blanks,
   * hexadecimal and exponent forms.
   */
  function ToNumber(s: string): (r: Option<int>)
    ensures r.Some? ==> r.value >= 0
    ensures AllDigits(s) ==> r == Some(DigitsValue(s))
    ensures !AllDigits(s) ==> r.None?
  {
    if AllDigits(s) then Some(DigitsValue(s)) else None
  }

  /**
   * The ODM's cast of a string filter value to a numeric field: a non-empty
   * string of digits is its value; anything else is rejected (None).
   */
  function CastToId(s: string): (r: Option<nat>)
    ensures r.Some? <==> s != "" && AllDigits(s)
  {
    if s != "" && AllDigits(s) then Some(DigitsValue(s)) else None
  }

  /** The ODM finds an account by the decimal text of its id. */
  lemma CastToIdOfNumberToString(n: nat)
    ensures CastToId(NumberToString(n)) == Some(n)
  {
    NumberToStringRoundTrip(n);
  }

  /**
   * JavaScript's `stored == v` where `stored` is a string field that may be
   * `undefined`: `undefined` equals only `undefined` and `null`; a string
   * equals the same string, and a number or boolean when `Number(stored)`
   * equals it (true and false count as 1 and 0).
   */
  predicate LooseEquals(stored: Option<string>, v: JsValue)
    ensures stored.None? ==> (LooseEquals(stored, v) <==> v.Undefined? || v.Null?)
    ensures v.Str? ==> (LooseEquals(stored, v) <==> stored == Some(v.s))
    ensures stored.Some? && AllDigits(stored.value) && v.Num? ==>
      (LooseEquals(stored, v) <==> v.n == DigitsValue(stored.value))
    ensures stored.Some? && AllDigits(stored.value) && v.Bool? ==>
      (LooseEquals(stored, v) <==> DigitsValue(stored.value) == (if v.b then 1 else 0))
    ensures stored.Some? && !AllDigits(stored.value) ==> (LooseEquals(stored, v) <==> v == Str(stored.value))
  {
    match stored
    case None => v.Undefined? || v.Null?
    case Some(s) =>
      match v
      case Undefined => false
      case Null => false
      case Str(t) => s == t
      case Num(n) => ToNumber(s) == Some(n)
      case Bool(b) => ToNumber(s) == Some(if b then 1 else 0)
  }
}
