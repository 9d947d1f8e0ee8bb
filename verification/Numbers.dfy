/** Smaller and larger, and decimal numbers as printf("%d") writes them and as strtol and atoi read them. */
module Numbers {
  import opened CStrings

  function Min(a: int, b: int): int { if a < b then a else b }

  function Max(a: int, b: int): int { if a < b then b else a }

  function Digit(d: nat): char
    requires d < 10
  {
    ('0' as int + d) as char
  }

  // What %d prints for n.
  function Decimal(n: nat): string {
    if n < 10 then [Digit(n)] else Decimal(n / 10) + [Digit(n % 10)]
  }

  // Goes on reading digits behind a number whose value is acc.
  function DigitsValue(s: string, acc: nat): nat {
    if s == "" || !IsDigit(s[0]) then acc
    else DigitsValue(s[1..], 10 * acc + (s[0] as int - '0' as int))
  }

  ghost predicate AllDigits(s: string) {
    forall i :: 0 <= i < |s| ==> IsDigit(s[i])
  }

  lemma {:induction false} DecimalIsDigits(n: nat)
    ensures AllDigits(Decimal(n)) && |Decimal(n)| > 0
    ensures n < 100_000 ==> |Decimal(n)| <= 5
  {
    if n >= 10 {
      DecimalIsDigits(n / 10);
      if n < 100_000 {
        DecimalShort(n);
      }
    }
  }

  lemma DecimalShort(n: nat)
    requires n < 100_000
    ensures |Decimal(n)| <= 5
  {
    var a := n / 10;
    var b := a / 10;
    var c := b / 10;
    var d := c / 10;
    assert d < 10 && |Decimal(d)| == 1;
    assert |Decimal(c)| <= 2;
    assert |Decimal(b)| <= 3;
    assert |Decimal(a)| <= 4;
  }

  lemma {:induction false} ValueOfDigits(s: string, acc: nat, c: char, rest: string)
    requires AllDigits(s) && IsDigit(c) && (rest == "" || !IsDigit(rest[0]))
    ensures DigitsValue(s + [c] + rest, acc) == 10 * DigitsValue(s, acc) + (c as int - '0' as int)
  {
    if s == "" {
      assert s + [c] + rest == [c] + rest;
      assert ([c] + rest)[1..] == rest;
    } else {
      assert (s + [c] + rest)[1..] == s[1..] + [c] + rest;
      ValueOfDigits(s[1..], 10 * acc + (s[0] as int - '0' as int), c, rest);
    }
  }

  lemma {:induction false} ReadsBack(n: nat, rest: string)
    requires rest == "" || !IsDigit(rest[0])
    ensures DigitsValue(Decimal(n) + rest, 0) == n
  {
    if n < 10 {
      assert ([Digit(n)] + rest)[1..] == rest;
    } else {
      DecimalIsDigits(n / 10);
      ReadsBack(n / 10, "");
      assert Decimal(n / 10) + "" == Decimal(n / 10);
      ValueOfDigits(Decimal(n / 10), 0, Digit(n % 10), rest);
    }
  }

  const LLONG_MAX := 0x7FFF_FFFF_FFFF_FFFF

  // strtol and strtoll with base 10: leading white space, a sign, digits; out-of-range values
  // saturate.
  function StrToLL(s: string): int {
    if s != "" && IsSpace(s[0]) then StrToLL(s[1..])
    else if s != "" && s[0] == '-' then
      var v := 0 - DigitsValue(s[1..], 0); if v < -LLONG_MAX - 1 then -LLONG_MAX - 1 else v
    else
      var v := DigitsValue(if s != "" && s[0] == '+' then s[1..] else s, 0); if v > LLONG_MAX then LLONG_MAX else v
  }

  lemma StrToLLReadsBack(n: nat)
    requires n <= LLONG_MAX
    ensures StrToLL(Decimal(n)) == n
  {
    DecimalIsDigits(n);
    ReadsBack(n, "");
    assert Decimal(n) + "" == Decimal(n);
    assert IsDigit(Decimal(n)[0]);
  }

  // The range of long long.
  function Saturated(x: int): int {
    if x > 9223372036854775807 then 9223372036854775807
    else if x < -9223372036854775808 then -9223372036854775808
    else x
  }

  lemma {:induction false} SpacesSkipped(ws: string, t: string)
    requires WhiteSpace(ws)
    ensures StrToLL(ws + t) == StrToLL(t)
  {
    if ws == "" {
      assert ws + t == t;
    } else {
      assert (ws + t)[1..] == ws[1..] + t;
      SpacesSkipped(ws[1..], t);
    }
  }

  function Signed(minus: bool, n: nat): int {
    if minus then 0 - n else n
  }

  function SignText(minus: bool, plus: bool): string {
    if minus then "-" else if plus then "+" else ""
  }

  lemma SignedDigits(minus: bool, plus: bool, digits: string)
    requires !(minus && plus) && digits != "" && IsDigit(digits[0])
    ensures StrToLL(SignText(minus, plus) + digits) == Saturated(Signed(minus, DigitsValue(digits, 0)))
  {
    hide DigitsValue;
    var sign := SignText(minus, plus);
    if minus || plus {
      assert (sign + digits)[1..] == digits;
    } else {
      assert sign + digits == digits;
    }
  }

  /** The rule of strtoll: white space, a sign, and the digits up to the first other character;
      values out of range saturate. */
  lemma StrToLLMeans(ws: string, minus: bool, plus: bool, n: nat, rest: string)
    requires WhiteSpace(ws)
    requires !(minus && plus) && (rest == "" || !IsDigit(rest[0]))
    ensures StrToLL(ws + (SignText(minus, plus) + (Decimal(n) + rest))) == Saturated(Signed(minus, n))
  {
    hide Decimal, StrToLL, Saturated, SignText;
    var digits := Decimal(n) + rest;
    SpacesSkipped(ws, SignText(minus, plus) + digits);
    ReadsBack(n, rest);
    DecimalIsDigits(n);
    assert digits[0] == Decimal(n)[0];
    SignedDigits(minus, plus, digits);
  }

  /** Without a digit the value is 0. */
  lemma NoDigitsIsZero(ws: string, rest: string)
    requires WhiteSpace(ws)
    requires rest == "" || (!IsDigit(rest[0]) && !IsBlankCode(rest[0] as int) && rest[0] != '-' && rest[0] != '+')
    ensures StrToLL(ws + rest) == 0
  {
    SpacesSkipped(ws, rest);
  }
}
