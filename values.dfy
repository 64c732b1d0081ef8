/**
 * The JSON scalars that student and course records hold, field access, and the two
 * equalities the data layer compares them with: JavaScript's loose `==` (restricted to
 * numbers, strings and booleans with integer values) and strict `===`.
 */
module Values {
  import opened Outcomes

  /** A field value as the JSON documents and the HTML forms supply it. */
  datatype Value = VNum(n: int) | VStr(s: string) | VBool(b: bool)

  /** An object with named fields; a missing key is JavaScript's `undefined`. */
  type Record = map<string, Value>

  /** Property access `r.key`: `None` stands for `undefined`. */
  function Field(r: Record, key: string): Option<Value>
  {
    if key in r then Some(r[key]) else None
  }

  /** Strict equality `===` on possibly-undefined values: same type and same value. */
  predicate StrictEq(a: Option<Value>, b: Option<Value>)
  {
    a == b
  }

  predicate IsDigit(c: char)
  {
    '0' <= c <= '9'
  }

  /** A non-empty run of decimal digits. */
  predicate IsDigits(s: string)
  {
    |s| > 0 && forall i :: 0 <= i < |s| ==> IsDigit(s[i])
  }

  function DigitValue(c: char): nat
  {
    if IsDigit(c) then (c as int) - ('0' as int) else 0
  }

  /** The number a run of decimal digits denotes (leading zeros allowed). */
  function DigitsValue(s: string): nat
  {
    if s == [] then 0 else DigitsValue(s[..|s| - 1]) * 10 + DigitValue(s[|s| - 1])
  }

  /**
   * The integer part of JavaScript's string-to-number conversion: the empty string is 0,
   * an optional sign followed by decimal digits is that integer, anything else is NaN (None).
   */
  function StringToNumber(s: string): Option<int>
  {
    if s == [] then Some(0)
    else if s[0] == '-' then (if IsDigits(s[1..]) then Some(-(DigitsValue(s[1..]) as int)) else None)
    else if s[0] == '+' then (if IsDigits(s[1..]) then Some(DigitsValue(s[1..])) else None)
    else if IsDigits(s) then Some(DigitsValue(s))
    else None
  }

  /** JavaScript's ToNumber on the modelled values; None is NaN. */
  function ToNumber(v: Value): Option<int>
  {
    match v
    case VNum(n) => Some(n)
    case VBool(b) => Some(if b then 1 else 0)
    case VStr(s) => StringToNumber(s)
  }

  function DigitChar(d: nat): char
    requires d < 10
  {
    (('0' as int) + d) as char
  }

  /** The decimal text of a natural number, as `String(n)` produces it. */
  function NatToString(n: nat): (s: string)
    ensures IsDigits(s) && DigitsValue(s) == n
    decreases n
  {
    if n < 10 then [DigitChar(n)]
    else
      var prefix := NatToString(n / 10);
      var s := prefix + [DigitChar(n % 10)];
      assert s[..|s| - 1] == prefix;
      s
  }

  /** The decimal text of an integer, as `String(n)` produces it. */
  function IntToString(n: int): (s: string)
    ensures StringToNumber(s) == Some(n)
  {
    if n < 0 then
      var digits := NatToString(-n);
      assert ("-" + digits)[1..] == digits;
      "-" + digits
    else NatToString(n)
  }

  predicate SameType(a: Value, b: Value)
  {
    (a.VNum? && b.VNum?) || (a.VStr? && b.VStr?) || (a.VBool? && b.VBool?)
  }

  /**
   * Loose equality `==`: values of one type compare as `===` does; values of different
   * types are both converted to numbers, and NaN equals nothing.
   */
  function LooseEq(a: Value, b: Value): (r: bool)
    ensures a == b ==> r
    ensures b.VNum? ==> (r <==> ToNumber(a) == Some(b.n))
    ensures a.VNum? ==> (r <==> ToNumber(b) == Some(a.n))
    ensures SameType(a, b) ==> (r <==> a == b)
    ensures !SameType(a, b) ==> (r <==> ToNumber(a).Some? && ToNumber(a) == ToNumber(b))
  {
    if SameType(a, b) then a == b
    else
      match (ToNumber(a), ToNumber(b))
      case (Some(x), Some(y)) => x == y
      case _ => false
  }

  /** Loose equality on possibly-undefined values: `undefined == undefined` and nothing else equals `undefined`. */
  predicate LooseEqOpt(a: Option<Value>, b: Option<Value>)
  {
    match (a, b)
    case (None, None) => true
    case (Some(x), Some(y)) => LooseEq(x, y)
    case _ => false
  }

  /** A number and its decimal text are loosely equal, in either order. */
  lemma NumberMatchesItsText(n: int)
    ensures LooseEq(VNum(n), VStr(IntToString(n)))
    ensures LooseEq(VStr(IntToString(n)), VNum(n))
    ensures !StrictEq(Some(VNum(n)), Some(VStr(IntToString(n))))
  {
  }

  /** Loose equality is symmetric. */
  lemma LooseEqSymmetric(a: Value, b: Value)
    ensures LooseEq(a, b) == LooseEq(b, a)
  {
  }

  /** Anything loosely equal to a value that is loosely equal to a number is loosely equal to that number. */
  lemma LooseEqThroughNumber(u: Value, v: Value, n: int)
    requires LooseEq(u, VNum(n)) && LooseEq(u, v)
    ensures LooseEq(v, VNum(n))
  {
  }

  /** Two strings compare as strings, so "05" and "5" differ though each equals 5. */
  lemma StringsAreNotNormalised()
    ensures LooseEq(VStr("05"), VNum(5)) && LooseEq(VStr("5"), VNum(5))
    ensures !LooseEq(VStr("05"), VStr("5"))
    ensures LooseEq(VStr(""), VNum(0)) && !LooseEq(VStr("abc"), VNum(0))
  {
    assert DigitsValue("05") == 5 by {
      assert "05"[..1] == "0";
      assert DigitsValue("0") == 0 by { assert "0"[..0] == ""; }
    }
    assert DigitsValue("5") == 5 by { assert "5"[..0] == ""; }
    assert !IsDigits("abc") by { assert !IsDigit("abc"[0]); }
  }
}
