/**
 * The slice of JavaScript's number and string conversions the game relies on:
 * `String(n)` and `Number(s)` for integers, `split(",")` and `join(",")`.
 */
module JsValues {

  /** A JavaScript number as the game uses it: an integer, or NaN for every other outcome. */
  datatype JsNumber = Int(value: int) | NaN

  predicate IsDigit(c: char) {
    '0' <= c <= '9'
  }

  predicate AllDigits(s: string) {
    forall i :: 0 <= i < |s| ==> IsDigit(s[i])
  }

  function DigitChar(d: nat): (c: char)
    requires d < 10
    ensures IsDigit(c)
  {
    ('0' as int + d) as char
  }

  function DigitValue(c: char): (d: nat)
    requires IsDigit(c)
    ensures d < 10
  {
    c as int - '0' as int
  }

  /** Decimal digits of a natural number, without leading zeros. */
  function NatToString(n: nat): (s: string)
    ensures |s| >= 1 && AllDigits(s)
  {
    if n < 10 then [DigitChar(n)] else NatToString(n / 10) + [DigitChar(n % 10)]
  }

  /** `String(i)` for an integer. */
  function IntToString(i: int): (s: string)
    ensures |s| >= 1
  {
    if i < 0 then "-" + NatToString(-i) else NatToString(i)
  }

  /** The value of a string of decimal digits (leading zeros allowed). */
  function DigitsValue(s: string): nat
    requires AllDigits(s)
  {
    if s == [] then 0 else DigitsValue(s[..|s| - 1]) * 10 + DigitValue(s[|s| - 1])
  }

  /**
   * `Number(s)` for the strings the game stores: the empty string is 0, an optional minus sign
   * followed by decimal digits is that integer, and anything else is NaN.
   */
  function ParseNumber(s: string): (r: JsNumber)
    ensures r.Int? && r.value < 0 ==> |s| > 1 && s[0] == '-'
  {
    if s == "" then Int(0)
    else if AllDigits(s) then Int(DigitsValue(s))
    else if |s| > 1 && s[0] == '-' && AllDigits(s[1..]) then Int(-(DigitsValue(s[1..]) as int))
    else NaN
  }

  /** `String(x)` for a number. */
  function NumberToString(x: JsNumber): (s: string)
    ensures |s| >= 1
  {
    match x
    case Int(i) => IntToString(i)
    case NaN => "NaN"
  }

  lemma {:induction false} DigitsRoundTrip(n: nat)
    ensures DigitsValue(NatToString(n)) == n
  {
    var s := NatToString(n);
    if n >= 10 {
      DigitsRoundTrip(n / 10);
      assert s[..|s| - 1] == NatToString(n / 10);
    }
  }

  /** Printing a number and reading it back with `Number` gives the same number. */
  lemma {:induction false} NumberRoundTrip(x: JsNumber)
    ensures ParseNumber(NumberToString(x)) == x
  {
    match x
    case NaN =>
      assert !IsDigit('N');
    case Int(i) =>
      if i < 0 {
        var s := IntToString(i);
        DigitsRoundTrip(-i);
        assert s[1..] == NatToString(-i);
        assert !IsDigit(s[0]);
      } else {
        DigitsRoundTrip(i);
      }
  }

  /** `s.split(sep)`: the pieces between separators; at least one piece, possibly empty. */
  function Split(s: string, sep: char): (r: seq<string>)
    ensures |r| >= 1
  {
    if s == [] then [""]
    else if s[0] == sep then [""] + Split(s[1..], sep)
    else
      var rest := Split(s[1..], sep);
      [[s[0]] + rest[0]] + rest[1..]
  }

  /** `parts.join(sep)` */
  function Join(parts: seq<string>, sep: char): string {
    if parts == [] then ""
    else if |parts| == 1 then parts[0]
    else parts[0] + [sep] + Join(parts[1..], sep)
  }

  /** A piece without separators followed by a separator splits off as one piece. */
  lemma {:induction false} SplitPrefix(a: string, b: string, sep: char)
    requires sep !in a
    ensures Split(a + [sep] + b, sep) == [a] + Split(b, sep)
  {
    if a == [] {
      assert a + [sep] + b == [sep] + b;
      assert ([sep] + b)[1..] == b;
    } else {
      assert (a + [sep] + b)[1..] == a[1..] + [sep] + b;
      SplitPrefix(a[1..], b, sep);
      assert [a[0]] + a[1..] == a;
    }
  }

  lemma {:induction false} SplitNoSeparator(a: string, sep: char)
    requires sep !in a
    ensures Split(a, sep) == [a]
  {
    if a != [] {
      SplitNoSeparator(a[1..], sep);
      assert [a[0]] + a[1..] == a;
    }
  }

  /** Joining pieces without separators and splitting again gives the pieces back. */
  lemma {:induction false} SplitJoin(parts: seq<string>, sep: char)
    requires |parts| >= 1
    requires forall i :: 0 <= i < |parts| ==> sep !in parts[i]
    ensures Split(Join(parts, sep), sep) == parts
  {
    if |parts| == 1 {
      SplitNoSeparator(parts[0], sep);
    } else {
      SplitJoin(parts[1..], sep);
      SplitPrefix(parts[0], Join(parts[1..], sep), sep);
      assert [parts[0]] + parts[1..] == parts;
    }
  }

  lemma {:induction false} NatToStringNoSeparator(n: nat, sep: char)
    requires !IsDigit(sep)
    ensures sep !in NatToString(n)
  {
  }

  /** A printed number never contains a comma. */
  lemma NumberHasNoComma(x: JsNumber)
    ensures ',' !in NumberToString(x)
  {
    match x
    case NaN =>
    case Int(i) =>
      NatToStringNoSeparator(if i < 0 then -i else i, ',');
      if i < 0 {
        assert NumberToString(x) == "-" + NatToString(-i);
      }
  }
}
