/**
 Decimal numbers as printf's %d writes them and atoi reads them.
 */
module Decimal {

  predicate IsDigit(c: char) {
    '0' <= c <= '9'
  }

  function Digit(d: nat): char
    requires d < 10
  {
    '0' + d as char
  }

  function Value(c: char): nat
    requires IsDigit(c)
  {
    (c - '0') as nat
  }

  /** %d of a number that is not negative. */
  function Show(n: nat): string {
    if n < 10 then [Digit(n)] else Show(n / 10) + [Digit(n % 10)]
  }

  /** The digits at the head of s, as a number continuing `acc`; anything after them is ignored. */
  function Scan(s: string, acc: nat): nat {
    if s == [] || !IsDigit(s[0]) then acc else Scan(s[1..], 10 * acc + Value(s[0]))
  }

  /** atoi, for text that does not begin with white space. */
  function Atoi(s: string): int {
    if s != [] && s[0] == '-' then 0 - Scan(s[1..], 0)
    else if s != [] && s[0] == '+' then Scan(s[1..], 0)
    else Scan(s, 0)
  }

  predicate Digits(s: string) {
    forall i :: 0 <= i < |s| ==> IsDigit(s[i])
  }

  lemma {:induction false} ShowDigits(n: nat)
    ensures |Show(n)| > 0 && Digits(Show(n))
  {
    if n >= 10 { ShowDigits(n / 10); }
  }

  lemma {:induction false} ScanSnoc(s: string, c: char, acc: nat)
    requires Digits(s) && IsDigit(c)
    ensures Scan(s + [c], acc) == 10 * Scan(s, acc) + Value(c)
  {
    if s == [] {
      assert Scan([c], acc) == Scan([], 10 * acc + Value(c));
    } else {
      assert (s + [c])[1..] == s[1..] + [c];
      ScanSnoc(s[1..], c, 10 * acc + Value(s[0]));
    }
  }

  lemma {:induction false} ScanShow(n: nat)
    ensures Scan(Show(n), 0) == n
  {
    if n < 10 {
      assert Scan([Digit(n)], 0) == Scan([], n);
    } else {
      ScanShow(n / 10);
      ShowDigits(n / 10);
      ScanSnoc(Show(n / 10), Digit(n % 10), 0);
    }
  }

  /** Reading back a printed number gives the number. */
  lemma AtoiShow(n: nat)
    ensures Atoi(Show(n)) == n
  {
    ShowDigits(n);
    ScanShow(n);
    assert IsDigit(Show(n)[0]);
  }
}
