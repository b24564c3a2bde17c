/**
 * The JavaScript values a vendor JSON field can hold once destructured,
 * with the two operations the conversion routine applies to them:
 * truthiness (`if (error)`) and string interpolation (`${error}`).
 */
module JsValue {

  /** A destructured field: absent fields read as `Undefined`. */
  /**
   * The integers a JSON number holds exactly (magnitude below 2^53).
   * Template literals print all of them in plain decimal notation.
   */
  type SafeInt = n: int | -0x20_0000_0000_0000 < n < 0x20_0000_0000_0000

  datatype Value = Undefined | Null | Bool(b: bool) | Num(n: SafeInt) | Str(s: string)

  /** JavaScript truthiness: `undefined`, `null`, `false`, `0` and `""` are falsy. */
  predicate Truthy(v: Value) {
    match v
    case Undefined => false
    case Null => false
    case Bool(b) => b
    case Num(n) => n != 0
    case Str(s) => s != ""
  }

  predicate IsDigit(c: char) { '0' <= c <= '9' }

  predicate AllDigits(s: string) {
    forall k :: 0 <= k < |s| ==> IsDigit(s[k])
  }

  function DigitChar(d: nat): (c: char)
    requires d < 10
    ensures IsDigit(c)
  {
    ('0' as int + d) as char
  }

  /** The decimal rendering of a natural number, as template literals print it. */
  function Decimal(n: nat): (r: string)
    ensures r != [] && AllDigits(r)
    ensures |r| > 1 ==> r[0] != '0'
  {
    if n < 10 then [DigitChar(n)] else Decimal(n / 10) + [DigitChar(n % 10)]
  }

  /** The number a string of decimal digits denotes. */
  function DigitsValue(s: string): nat
    requires AllDigits(s)
  {
    if s == [] then 0
    else DigitsValue(s[..|s| - 1]) * 10 + (s[|s| - 1] as int - '0' as int)
  }

  /** Reading back a rendered number gives the number. */
  lemma {:induction false} DecimalRoundTrip(n: nat)
    ensures DigitsValue(Decimal(n)) == n
  {
    if n >= 10 {
      DecimalRoundTrip(n / 10);
      var r := Decimal(n);
      assert r[..|r| - 1] == Decimal(n / 10);
    }
  }

  /** Distinct numbers render differently. */
  lemma DecimalInjective(m: nat, n: nat)
    requires Decimal(m) == Decimal(n)
    ensures m == n
  {
    DecimalRoundTrip(m);
    DecimalRoundTrip(n);
  }

  /**
   * A printed number reads back as itself: digits alone for a
   * non-negative number, a minus sign then digits for a negative one.
   */
  lemma ShowNumber(n: SafeInt)
    ensures n >= 0 ==> AllDigits(Show(Num(n))) && DigitsValue(Show(Num(n))) == n
    ensures n < 0 ==> && |Show(Num(n))| > 1
                      && Show(Num(n))[0] == '-'
                      && AllDigits(Show(Num(n))[1..])
                      && DigitsValue(Show(Num(n))[1..]) == -n
  {
    if n >= 0 {
      DecimalRoundTrip(n);
    } else {
      DecimalRoundTrip(-n);
      assert Show(Num(n))[1..] == Decimal(-n);
    }
  }

  /** The falsy values are exactly `undefined`, `null`, `false`, `0` and the empty string. */
  lemma FalsyValues(v: Value)
    ensures !Truthy(v) <==> v in {Undefined, Null, Bool(false), Num(0), Str("")}
  {
  }

  /** The string a template literal makes of a value. */
  function Show(v: Value): string {
    match v
    case Undefined => "undefined"
    case Null => "null"
    case Bool(b) => if b then "true" else "false"
    case Num(n) => if n < 0 then "-" + Decimal(-n) else Decimal(n)
    case Str(s) => s
  }
}
