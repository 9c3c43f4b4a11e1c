/** `Number.parseInt(s, 10)` as the number options use it: skip leading
    white space, take an optional sign, then the longest run of decimal
    digits; no digits at all is `NaN`, modelled as `None`. Values are
    unbounded integers (precision loss on huge numerals and the distinction
    of `-0` are not modelled). */
module JsParseInt {
  import opened Results
  import opened Strings

  /** ECMAScript WhiteSpace and LineTerminator code points (the characters
      `StrWhiteSpaceChar` admits), including every space separator. */
  predicate IsStrWhiteSpace(c: char) {
    || c == '\t' || c == '\n' || c == '\U{000B}' || c == '\U{000C}' || c == '\r'
    || c == ' ' || c == '\U{00A0}' || c == '\U{1680}'
    || ('\U{2000}' <= c <= '\U{200A}')
    || c == '\U{2028}' || c == '\U{2029}' || c == '\U{202F}' || c == '\U{205F}'
    || c == '\U{3000}' || c == '\U{FEFF}'
  }

  predicate AllWhiteSpace(s: string) {
    forall i :: 0 <= i < |s| ==> IsStrWhiteSpace(s[i])
  }

  predicate IsSign(c: char) {
    c == '+' || c == '-'
  }

  /** The string with its leading white space removed. */
  function TrimStart(s: string): string
    decreases |s|
  {
    if |s| > 0 && IsStrWhiteSpace(s[0]) then TrimStart(s[1..]) else s
  }

  /** The longest prefix of `s` made only of decimal digits. */
  function DigitPrefix(s: string): (r: string)
    ensures AllDigits(r)
    decreases |s|
  {
    if |s| > 0 && IsDigit(s[0]) then [s[0]] + DigitPrefix(s[1..]) else ""
  }

  /** `Number.parseInt(s, 10)`: `None` stands for `NaN`. */
  function ParseInt(s: string): Option<int> {
    ParseSigned(TrimStart(s))
  }

  /** What `parseInt` does once the leading white space is gone. */
  function ParseSigned(t: string): Option<int> {
    if |t| > 0 && IsSign(t[0]) then
      match ParseDigits(t[1..])
      case None => None
      case Some(m) => Some(if t[0] == '-' then -m else m)
    else
      ParseDigits(t)
  }

  /** The value of the leading digit run, or `None` when there is none. */
  function ParseDigits(u: string): Option<int> {
    var digits := DigitPrefix(u);
    if |digits| == 0 then None else Some(DigitsValue(digits))
  }

  /** The optional sign in front of a numeral. */
  datatype Sign = Unsigned | Plus | Minus {
    function Text(): string {
      match this
      case Unsigned => ""
      case Plus => "+"
      case Minus => "-"
    }

    function Apply(magnitude: nat): int {
      if Minus? then -(magnitude as int) else magnitude
    }
  }

  lemma {:induction false} TrimStartSkipsWhiteSpace(ws: string, rest: string)
    requires AllWhiteSpace(ws)
    requires |rest| == 0 || !IsStrWhiteSpace(rest[0])
    ensures TrimStart(ws + rest) == rest
    decreases |ws|
  {
    if |ws| > 0 {
      assert (ws + rest)[1..] == ws[1..] + rest;
      TrimStartSkipsWhiteSpace(ws[1..], rest);
    } else {
      assert ws + rest == rest;
    }
  }

  lemma {:induction false} DigitPrefixOf(digits: string, rest: string)
    requires AllDigits(digits)
    requires |rest| == 0 || !IsDigit(rest[0])
    ensures DigitPrefix(digits + rest) == digits
    decreases |digits|
  {
    if |digits| > 0 {
      assert (digits + rest)[1..] == digits[1..] + rest;
      DigitPrefixOf(digits[1..], rest);
      assert digits == [digits[0]] + digits[1..];
    } else {
      assert digits + rest == rest;
    }
  }

  lemma ParseDigitsOf(digits: string, rest: string)
    requires |digits| > 0 && AllDigits(digits)
    requires |rest| == 0 || !IsDigit(rest[0])
    ensures ParseDigits(digits + rest) == Some(DigitsValue(digits))
  {
    DigitPrefixOf(digits, rest);
  }

  /** Every numeral `parseInt` accepts: white space, an optional sign, at
      least one digit, then anything that does not continue the digit run. */
  lemma ParseIntAccepts(ws: string, sign: Sign, digits: string, rest: string)
    requires AllWhiteSpace(ws)
    requires |digits| > 0 && AllDigits(digits)
    requires |rest| == 0 || !IsDigit(rest[0])
    ensures ParseInt(ws + sign.Text() + digits + rest) == Some(sign.Apply(DigitsValue(digits)))
  {
    ParseSignedAccepts(sign, digits, rest);
    Reassociate(ws, sign.Text(), digits, rest);
    WhiteSpaceThenSigned(ws, sign.Text() + digits + rest);
  }

  lemma Reassociate(a: string, b: string, c: string, d: string)
    ensures a + b + c + d == a + (b + c + d)
  {
  }

  lemma ParseSignedAccepts(sign: Sign, digits: string, rest: string)
    requires |digits| > 0 && AllDigits(digits)
    requires |rest| == 0 || !IsDigit(rest[0])
    ensures |sign.Text() + digits + rest| > 0
    ensures !IsStrWhiteSpace((sign.Text() + digits + rest)[0])
    ensures ParseSigned(sign.Text() + digits + rest) == Some(sign.Apply(DigitsValue(digits)))
  {
    if sign.Unsigned? {
      UnsignedText(digits, rest);
      ParseUnsignedAccepts(digits, rest);
    } else {
      SignedText(sign, digits, rest);
      ParseExplicitSignAccepts(sign, digits, rest);
    }
  }

  lemma UnsignedText(digits: string, rest: string)
    requires |digits| > 0 && AllDigits(digits)
    ensures Unsigned.Text() + digits + rest == digits + rest
    ensures !IsStrWhiteSpace((digits + rest)[0])
  {
    assert (digits + rest)[0] == digits[0];
  }

  lemma SignedText(sign: Sign, digits: string, rest: string)
    requires !sign.Unsigned?
    ensures sign.Text() + digits + rest == [sign.Text()[0]] + (digits + rest)
    ensures !IsStrWhiteSpace(sign.Text()[0])
  {
  }

  lemma WhiteSpaceThenSigned(ws: string, t: string)
    requires AllWhiteSpace(ws)
    requires |t| > 0 && !IsStrWhiteSpace(t[0])
    ensures ParseInt(ws + t) == ParseSigned(t)
  {
    TrimStartSkipsWhiteSpace(ws, t);
  }

  lemma ParseUnsignedAccepts(digits: string, rest: string)
    requires |digits| > 0 && AllDigits(digits)
    requires |rest| == 0 || !IsDigit(rest[0])
    ensures ParseSigned(digits + rest) == Some(DigitsValue(digits))
  {
    ParseDigitsOf(digits, rest);
    assert !IsSign((digits + rest)[0]);
  }

  lemma ParseExplicitSignAccepts(sign: Sign, digits: string, rest: string)
    requires !sign.Unsigned?
    requires |digits| > 0 && AllDigits(digits)
    requires |rest| == 0 || !IsDigit(rest[0])
    ensures ParseSigned([sign.Text()[0]] + (digits + rest)) == Some(sign.Apply(DigitsValue(digits)))
  {
    ParseDigitsOf(digits, rest);
    SignThenDigits(sign, digits + rest, DigitsValue(digits));
  }

  lemma SignThenDigits(sign: Sign, u: string, v: nat)
    requires !sign.Unsigned?
    requires ParseDigits(u) == Some(v)
    ensures ParseSigned([sign.Text()[0]] + u) == Some(sign.Apply(v))
  {
    var t := [sign.Text()[0]] + u;
    assert t[1..] == u;
  }

  /** Every input `parseInt` rejects: after the white space and an optional
      sign, no digit follows. */
  lemma ParseIntRejects(ws: string, sign: Sign, rest: string)
    requires AllWhiteSpace(ws)
    requires |rest| == 0 || !IsDigit(rest[0])
    requires sign.Unsigned? ==> |rest| == 0 || (!IsStrWhiteSpace(rest[0]) && !IsSign(rest[0]))
    ensures ParseInt(ws + sign.Text() + rest) == None
  {
    var t := sign.Text() + rest;
    assert ws + sign.Text() + rest == ws + t;
    if sign.Unsigned? {
      assert t == rest;
      TrimStartSkipsWhiteSpace(ws, rest);
      assert DigitPrefix(t) == "";
    } else {
      assert !IsStrWhiteSpace(t[0]);
      TrimStartSkipsWhiteSpace(ws, t);
      assert t[1..] == rest;
      assert DigitPrefix(t[1..]) == "";
    }
  }

  /** Rendering an integer and reading it back with `parseInt` is the
      identity, whatever non-digit text follows the numeral. */
  lemma ParseIntOfDecimal(n: int, rest: string)
    requires |rest| == 0 || !IsDigit(rest[0])
    ensures ParseInt(IntToDecimal(n) + rest) == Some(n)
  {
    var m: nat := if n < 0 then -n else n;
    var sign := if n < 0 then Minus else Unsigned;
    DecimalRoundTrip(m);
    ParseIntAccepts("", sign, NatToDecimal(m), rest);
    DecimalWithSign(n, m, sign, rest);
  }

  lemma DecimalWithSign(n: int, m: nat, sign: Sign, rest: string)
    requires m == (if n < 0 then -n else n) && sign == (if n < 0 then Minus else Unsigned)
    ensures "" + sign.Text() + NatToDecimal(m) + rest == IntToDecimal(n) + rest
  {
    if n < 0 {
      assert "" + "-" == "-";
    } else {
      assert "" + "" + NatToDecimal(m) == NatToDecimal(m);
    }
  }
}
