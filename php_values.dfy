/** The small optional-value type the collections use for "null when absent". */
module Wrappers {
  datatype Option<+T> = None | Some(value: T)
}

/**
 * PHP values as the form library handles them: element values, option keys and
 * values, and the `selected` scalar of a select box.  PHP's loose `==` is made an
 * explicit function, following PHP 8's comparison rules.
 */
module PhpValues {

  /** A PHP value.  An array is its list of key/value entries in order. */
  datatype Value =
    | Null
    | Bool(b: bool)
    | Int(i: int)
    | Str(s: string)
    | Arr(entries: seq<(Value, Value)>)

  predicate IsDigit(c: char) {
    '0' <= c <= '9'
  }

  predicate AllDigits(s: string) {
    forall i :: 0 <= i < |s| ==> IsDigit(s[i])
  }

  /** An integer numeric string: an optional sign followed by one or more decimal digits. */
  predicate IsIntegerString(s: string) {
    if |s| > 0 && (s[0] == '-' || s[0] == '+') then |s| > 1 && AllDigits(s[1..])
    else |s| > 0 && AllDigits(s)
  }

  function DigitValue(c: char): (d: nat)
    requires IsDigit(c)
    ensures d < 10
  {
    c as int - '0' as int
  }

  function DigitChar(d: nat): (c: char)
    requires d < 10
    ensures IsDigit(c) && DigitValue(c) == d
  {
    ('0' as int + d) as char
  }

  /** The number a string of decimal digits denotes (the empty string denotes 0). */
  function DigitsValue(s: string): nat
    requires AllDigits(s)
  {
    if s == [] then 0 else DigitsValue(s[..|s| - 1]) * 10 + DigitValue(s[|s| - 1])
  }

  /** The integer an integer numeric string denotes. */
  function ParseInt(s: string): int
    requires IsIntegerString(s)
  {
    if s[0] == '-' then -(DigitsValue(s[1..]) as int)
    else if s[0] == '+' then DigitsValue(s[1..])
    else DigitsValue(s)
  }

  /** PHP's conversion of a natural number to a string: its decimal digits, without sign or leading zero. */
  function DecimalString(n: nat): (r: string)
    ensures |r| > 0 && AllDigits(r)
    ensures |r| > 1 ==> r[0] != '0'
  {
    if n < 10 then [DigitChar(n)] else DecimalString(n / 10) + [DigitChar(n % 10)]
  }

  /** Reading back the decimal string of `n` gives `n`. */
  lemma {:induction false} DecimalStringRoundTrip(n: nat)
    ensures IsIntegerString(DecimalString(n))
    ensures ParseInt(DecimalString(n)) == n
  {
    var r := DecimalString(n);
    assert r[0] != '-' && r[0] != '+' by {
      assert IsDigit(r[0]);
    }
    DigitsOfDecimalString(n);
  }

  lemma {:induction false} DigitsOfDecimalString(n: nat)
    ensures DigitsValue(DecimalString(n)) == n
  {
    var r := DecimalString(n);
    if n < 10 {
      assert r[..|r| - 1] == [];
    } else {
      assert r[..|r| - 1] == DecimalString(n / 10);
      DigitsOfDecimalString(n / 10);
    }
  }

  /** Different numbers have different decimal strings. */
  lemma DecimalStringInjective(m: nat, n: nat)
    requires DecimalString(m) == DecimalString(n)
    ensures m == n
  {
    DecimalStringRoundTrip(m);
    DecimalStringRoundTrip(n);
  }

  /** PHP's conversion of a value to bool. */
  predicate Truthy(v: Value) {
    match v
    case Null => false
    case Bool(b) => b
    case Int(i) => i != 0
    case Str(s) => s != "" && s != "0"
    case Arr(es) => es != []
  }

  /**
   * PHP 8's loose comparison `a == b`.  A bool on either side compares both sides
   * as bools; null against a string compares the string with ""; null against
   * anything else compares as bools; an integer and a string compare as numbers
   * when the string is numeric and are otherwise different; two strings compare as
   * numbers when both are numeric; two arrays are equal when they have the same
   * keys with loosely equal values; an array is never equal to a number or a string.
   */
  function LooseEquals(a: Value, b: Value): bool
    decreases a, b
  {
    if a.Bool? then a.b == Truthy(b)
    else if b.Bool? then Truthy(a) == b.b
    else if a.Null? then (if b.Str? then b.s == "" else !Truthy(b))
    else if b.Null? then (if a.Str? then a.s == "" else !Truthy(a))
    else if a.Arr? && b.Arr? then
      |a.entries| == |b.entries| &&
      forall i :: 0 <= i < |a.entries| ==> HasLooseEntry(b.entries, a.entries[i])
    else if a.Arr? || b.Arr? then false
    else if a.Int? && b.Int? then a.i == b.i
    else if a.Int? then IsIntegerString(b.s) && a.i == ParseInt(b.s)
    else if b.Int? then IsIntegerString(a.s) && ParseInt(a.s) == b.i
    else if IsIntegerString(a.s) && IsIntegerString(b.s) then ParseInt(a.s) == ParseInt(b.s)
    else a.s == b.s
  }

  /** `ys` has an entry with the key of `x` whose value loosely equals the value of `x`. */
  predicate HasLooseEntry(ys: seq<(Value, Value)>, x: (Value, Value))
    decreases x, ys
  {
    exists j :: 0 <= j < |ys| && ys[j].0 == x.0 && LooseEquals(x.1, ys[j].1)
  }

  /** Every value loosely equals itself. */
  lemma {:induction false} LooseEqualsReflexive(a: Value)
    ensures LooseEquals(a, a)
    decreases a
  {
    match a
    case Arr(xs) =>
      forall i | 0 <= i < |xs|
        ensures HasLooseEntry(xs, xs[i])
      {
        LooseEqualsReflexive(xs[i].1);
      }
    case _ =>
  }

  /** Loose equality is symmetric on scalars. */
  lemma LooseEqualsSymmetric(a: Value, b: Value)
    requires !a.Arr? && !b.Arr?
    ensures LooseEquals(a, b) == LooseEquals(b, a)
  {
  }

  /** PHP's conversion of an integer to a string: a minus sign for a negative number, then the digits of its magnitude. */
  function IntString(n: int): (r: string)
    ensures IsIntegerString(r) && ParseInt(r) == n
  {
    if n < 0 then
      var d := DecimalString(-n);
      DecimalStringRoundTrip(-n);
      assert ("-" + d)[1..] == d;
      "-" + d
    else
      DecimalStringRoundTrip(n);
      DecimalString(n)
  }

  /** An integer loosely equals its string form, so the option value "2" matches the selection 2 and "-1" matches -1. */
  lemma IntegerMatchesItsString(n: int)
    ensures LooseEquals(Int(n), Str(IntString(n)))
    ensures LooseEquals(Str(IntString(n)), Int(n))
  {
  }
}
