/** String helpers that stand in for the JavaScript built-ins the source uses:
    `startsWith`, `Array.prototype.join`, and the decimal rendering and reading
    of non-negative integers. */
module Strings {

  /** `s.startsWith(prefix)` */
  predicate StartsWith(s: string, prefix: string) {
    |prefix| <= |s| && s[..|prefix|] == prefix
  }

  /** `parts.join(sep)`: the parts in order with `sep` between neighbours. */
  function Join(parts: seq<string>, sep: string): string
    decreases |parts|
  {
    if |parts| == 0 then ""
    else if |parts| == 1 then parts[0]
    else parts[0] + sep + Join(parts[1..], sep)
  }

  /** The parts one after the other, with no separator. */
  function Concat<T>(parts: seq<seq<T>>): seq<T>
    decreases |parts|
  {
    if |parts| == 0 then [] else parts[0] + Concat(parts[1..])
  }

  lemma {:induction false} ConcatAppend<T>(a: seq<seq<T>>, b: seq<seq<T>>)
    ensures Concat(a + b) == Concat(a) + Concat(b)
    decreases |a|
  {
    if |a| == 0 {
      assert a + b == b;
    } else {
      assert (a + b)[1..] == a[1..] + b;
      ConcatAppend(a[1..], b);
    }
  }

  /** Part `j` of a concatenation follows the parts before it. */
  lemma ConcatAt<T>(parts: seq<seq<T>>, j: nat)
    requires j < |parts|
    ensures |Concat(parts[..j])| + |parts[j]| <= |Concat(parts)|
    ensures Concat(parts)[|Concat(parts[..j])| .. |Concat(parts[..j])| + |parts[j]|] == parts[j]
  {
    var after := [parts[j]] + parts[j + 1..];
    assert parts == parts[..j] + after;
    ConcatAppend(parts[..j], after);
    assert after[1..] == parts[j + 1..];
  }

  predicate IsDigit(c: char) {
    '0' <= c <= '9'
  }

  predicate AllDigits(s: string) {
    forall i :: 0 <= i < |s| ==> IsDigit(s[i])
  }

  function DigitChar(d: nat): (c: char)
    requires d < 10
    ensures IsDigit(c)
  {
    (d + '0' as int) as char
  }

  function DigitValue(c: char): (d: nat)
    requires IsDigit(c)
    ensures d < 10
  {
    c as int - '0' as int
  }

  /** The base-10 value of a string of digits (leading zeros allowed). */
  function DigitsValue(s: string): nat
    requires AllDigits(s)
    decreases |s|
  {
    if |s| == 0 then 0 else DigitsValue(s[..|s| - 1]) * 10 + DigitValue(s[|s| - 1])
  }

  /** `n.toString()` for a non-negative integer: the canonical decimal
      numeral, digits only, with no leading zero unless `n` is zero. */
  function NatToDecimal(n: nat): (r: string)
    ensures |r| >= 1 && AllDigits(r)
    ensures |r| > 1 ==> r[0] != '0'
    decreases n
  {
    if n < 10 then [DigitChar(n)] else NatToDecimal(n / 10) + [DigitChar(n % 10)]
  }

  /** `n.toString()` for any integer: a `-` before the magnitude when negative. */
  function IntToDecimal(n: int): string {
    if n < 0 then "-" + NatToDecimal(-n) else NatToDecimal(n)
  }

  /** Reading back a rendered numeral gives the number it came from. */
  lemma {:induction false} DecimalRoundTrip(n: nat)
    ensures DigitsValue(NatToDecimal(n)) == n
    decreases n
  {
    if n >= 10 {
      var s := NatToDecimal(n);
      assert s[..|s| - 1] == NatToDecimal(n / 10);
      DecimalRoundTrip(n / 10);
    }
  }

  /** The numeral of a value below 10 is one character long, so
      `padStart(2, "0")` turns it into two. */
  lemma DecimalOfSmall(n: nat)
    requires n < 100
    ensures n < 10 ==> |NatToDecimal(n)| == 1
    ensures 10 <= n ==> |NatToDecimal(n)| == 2
  {
    if n >= 10 {
      assert NatToDecimal(n / 10) == [DigitChar(n / 10)];
    }
  }
}
