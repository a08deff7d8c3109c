/** Decimal text of numbers, as Python's format specifications print it. */
module Text {

  function Digit(n: nat): char
    requires n < 10
  {
    "0123456789"[n]
  }

  /** Canonical decimal text of a natural number. */
  function NatText(n: nat): (s: string)
    ensures s != ""
  {
    if n < 10 then [Digit(n)] else NatText(n / 10) + [Digit(n % 10)]
  }

  function IntText(n: int): string {
    if n >= 0 then NatText(n) else "-" + NatText(-n)
  }

  /** `format(n, "03d")`: at least three digits, zero padded. */
  function Pad3(n: nat): string {
    if n < 10 then "00" + NatText(n) else if n < 100 then "0" + NatText(n) else NatText(n)
  }

  function DigitValue(c: char): nat {
    if '0' <= c <= '9' then c as int - '0' as int else 0
  }

  /** Reads a digit string back; the inverse of NatText. */
  function Value(s: string): nat {
    if s == "" then 0 else 10 * Value(s[..|s| - 1]) + DigitValue(s[|s| - 1])
  }

  predicate AllDigits(s: string) {
    forall i :: 0 <= i < |s| ==> '0' <= s[i] <= '9'
  }

  lemma {:induction false} DigitRoundTrip(d: nat)
    requires d < 10
    ensures DigitValue(Digit(d)) == d && '0' <= Digit(d) <= '9'
  {
  }

  lemma {:induction false} ValueSnoc(s: string, c: char)
    ensures Value(s + [c]) == 10 * Value(s) + DigitValue(c)
  {
  }

  lemma {:induction false} NatTextRoundTrip(n: nat)
    ensures Value(NatText(n)) == n && AllDigits(NatText(n))
  {
    DigitRoundTrip(n % 10);
    if n >= 10 {
      NatTextRoundTrip(n / 10);
      ValueSnoc(NatText(n / 10), Digit(n % 10));
    } else {
      ValueSnoc("", Digit(n));
      assert "" + [Digit(n)] == [Digit(n)];
    }
    hide Digit, DigitValue;
  }

  lemma {:induction false} LeadingZero(s: string)
    ensures Value("0" + s) == Value(s)
  {
    if s == "" {
      assert ("0" + s)[..0] == "";
    } else {
      LeadingZero(s[..|s| - 1]);
      assert ("0" + s)[..|s|] == "0" + s[..|s| - 1];
    }
  }

  lemma {:induction false} Pad3RoundTrip(n: nat)
    ensures Value(Pad3(n)) == n && AllDigits(Pad3(n))
  {
    NatTextRoundTrip(n);
    LeadingZero(NatText(n));
    LeadingZero("0" + NatText(n));
    assert "00" + NatText(n) == "0" + ("0" + NatText(n));
  }

  /** Distinct integers print distinctly. */
  lemma {:induction false} IntTextInjective(a: int, b: int)
    requires IntText(a) == IntText(b)
    ensures a == b
  {
    NatTextRoundTrip(if a >= 0 then a else -a);
    NatTextRoundTrip(if b >= 0 then b else -b);
    assert (IntText(a)[0] == '-') == (a < 0);
    assert (IntText(b)[0] == '-') == (b < 0);
    if a < 0 && b < 0 {
      assert NatText(-a) == IntText(a)[1..] == IntText(b)[1..] == NatText(-b);
    }
  }
}
