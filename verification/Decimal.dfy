/** Decimal text of natural numbers, as `String(n)` prints it and `Number(s)` reads it. */
module Decimal {

  predicate IsDigit(c: char) { '0' <= c <= '9' }

  predicate AllDigits(s: string) { forall i :: 0 <= i < |s| ==> IsDigit(s[i]) }

  /** Digits without a superfluous leading zero. */
  predicate Canonical(s: string) { s != "" && AllDigits(s) && (|s| > 1 ==> s[0] != '0') }

  function DigitChar(d: nat): (c: char)
    requires d < 10
    ensures IsDigit(c) && c as int - '0' as int == d
  {
    ('0' as int + d) as char
  }

  function Print(n: nat): (s: string)
    ensures Canonical(s)
    ensures n > 0 ==> s[0] != '0'
  {
    if n < 10 then [DigitChar(n)] else Print(n / 10) + [DigitChar(n % 10)]
  }

  function Read(s: string): nat
    requires AllDigits(s)
  {
    if s == "" then 0
    else 10 * Read(s[..|s| - 1]) + (s[|s| - 1] as int - '0' as int)
  }

  lemma {:induction false} ReadPrint(n: nat)
    ensures Read(Print(n)) == n
  {
    if n >= 10 {
      ReadPrint(n / 10);
      assert Print(n)[..|Print(n)| - 1] == Print(n / 10);
    } else {
      assert Print(n)[..0] == "";
    }
  }

  lemma {:induction false} ReadPositive(s: string)
    requires Canonical(s) && s[0] != '0'
    ensures Read(s) > 0
  {
    var front := s[..|s| - 1];
    if front != "" { ReadPositive(front); }
  }

  lemma {:induction false} PrintRead(s: string)
    requires Canonical(s)
    ensures Print(Read(s)) == s
  {
    var front, last := s[..|s| - 1], s[|s| - 1];
    assert s == front + [last];
    if front == "" {
      assert Read(front) == 0;
    } else {
      ReadPositive(front);
      PrintRead(front);
    }
  }

  lemma PrintInjective(m: nat, n: nat)
    requires Print(m) == Print(n)
    ensures m == n
  {
    ReadPrint(m);
    ReadPrint(n);
  }
}
