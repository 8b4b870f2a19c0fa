/**
 Decimal formatting of a non-negative index, as Go's `fmt.Sprintf("%d", i)` writes it,
 and the parser that inverts it.
 */
module Decimal {

  predicate IsDigit(c: char) { '0' <= c <= '9' }

  function Digit(d: nat): (c: char)
    requires d < 10
    ensures IsDigit(c)
  {
    (48 + d) as char
  }

  function DigitValue(c: char): (d: nat)
    ensures IsDigit(c) ==> d < 10 && Digit(d) == c
  {
    if IsDigit(c) then (c as int - 48) as nat else 0
  }

  /** A canonical decimal numeral: digits only, at least one, no leading zero unless it is "0". */
  predicate Canonical(s: string) {
    && |s| >= 1
    && (forall i | 0 <= i < |s| :: IsDigit(s[i]))
    && (|s| > 1 ==> s[0] != '0')
  }

  /** `%d` of a non-negative integer. */
  function FormatInt(n: nat): (s: string)
    ensures Canonical(s)
    ensures n < 10 <==> |s| == 1
    decreases n
  {
    if n < 10 then [Digit(n)] else FormatInt(n / 10) + [Digit(n % 10)]
  }

  /** The value of a string of decimal digits, most significant first. */
  function ParseInt(s: string): nat {
    if s == [] then 0 else ParseInt(s[..|s| - 1]) * 10 + DigitValue(s[|s| - 1])
  }

  lemma {:induction false} ParseFormat(n: nat)
    ensures ParseInt(FormatInt(n)) == n
    decreases n
  {
    if n >= 10 {
      ParseFormat(n / 10);
      var s := FormatInt(n);
      assert s[..|s| - 1] == FormatInt(n / 10);
    }
  }

  /** A digit string with a non-zero digit in it has a positive value. */
  lemma {:induction false} ParsePositive(s: string)
    requires |s| >= 1 && (forall i | 0 <= i < |s| :: IsDigit(s[i])) && s[0] != '0'
    ensures ParseInt(s) >= 1
  {
    if |s| > 1 {
      ParsePositive(s[..|s| - 1]);
    }
  }

  lemma {:induction false} FormatParse(s: string)
    requires Canonical(s)
    ensures FormatInt(ParseInt(s)) == s
  {
    var p, c := s[..|s| - 1], s[|s| - 1];
    if |s| > 1 {
      assert Canonical(p);
      ParsePositive(p);
      FormatParse(p);
      var n := ParseInt(s);
      assert n / 10 == ParseInt(p) && n % 10 == DigitValue(c);
      assert s == p + [c];
    }
  }

  /** Distinct indices have distinct numerals. */
  lemma FormatInjective(a: nat, b: nat)
    ensures FormatInt(a) == FormatInt(b) <==> a == b
  {
    ParseFormat(a);
    ParseFormat(b);
  }
}
