/** Decimal numerals: what "%d" prints, and what a run of digits means. */
module Decimal {

  predicate IsDigit(c: char) {
    '0' <= c <= '9'
  }

  function DigitOf(n: nat): (c: char)
    requires n < 10
    ensures IsDigit(c)
  {
    '0' + n as char
  }

  predicate AllDigits(s: string) {
    forall i :: 0 <= i < |s| ==> IsDigit(s[i])
  }

  function Value(s: string): nat
    requires AllDigits(s)
    decreases |s|
  {
    if s == "" then 0 else 10 * Value(s[..|s| - 1]) + (s[|s| - 1] - '0') as nat
  }

  function Print(n: nat): (s: string)
    ensures s != "" && AllDigits(s)
  {
    if n < 10 then [DigitOf(n)] else Print(n / 10) + [DigitOf(n % 10)]
  }

  lemma DigitIs(c: char, d: nat)
    requires d < 10
    ensures IsDigit(c) <==> c in "0123456789"
    ensures DigitOf(d) == "0123456789"[d]
  {
  }

  /** Printing writes the last digit last, and no leading zero. */
  lemma PrintIs(n: nat, d: nat)
    requires d < 10
    ensures Print(d) == ["0123456789"[d]]
    ensures n > 0 ==> Print(10 * n + d) == Print(n) + ["0123456789"[d]]
  {
    DigitIs('0', d);
    assert n > 0 ==> (10 * n + d) / 10 == n && (10 * n + d) % 10 == d;
  }

  /** Reading takes the last digit for the units. */
  lemma ValueIs(s: string, d: nat)
    requires d < 10 && AllDigits(s)
    ensures Value("") == 0
    ensures AllDigits(s + ["0123456789"[d]]) && Value(s + ["0123456789"[d]]) == 10 * Value(s) + d
  {
    var c := "0123456789"[d];
    DigitIs(c, d);
    assert (s + [c])[..|s|] == s;
  }

  lemma {:induction false} ValueOfPrint(n: nat)
    ensures Value(Print(n)) == n
  {
    if n < 10 {
      assert Print(n)[..0] == "";
    } else {
      ValueOfPrint(n / 10);
      assert Print(n)[..|Print(n)| - 1] == Print(n / 10);
    }
  }

  /** "%d" of a signed number. */
  function PrintInt(n: int): (s: string)
    ensures s != ""
  {
    if n < 0 then "-" + Print(-n) else Print(n)
  }

  lemma PrintIntIs(n: int)
    ensures n >= 0 ==> PrintInt(n) == Print(n)
    ensures n < 0 ==> PrintInt(n) == "-" + Print(-n)
  {
  }

  predicate IsNumeral(s: string) {
    s != "" && AllDigits(s[1..]) && (IsDigit(s[0]) || (s[0] == '-' && |s| > 1))
  }

  /** Reads back what PrintInt wrote. */
  function ReadInt(s: string): int
    requires IsNumeral(s)
  {
    if s[0] == '-' then -(Value(s[1..]) as int) else Value(s)
  }

  lemma ReadOfPrint(n: int)
    ensures IsNumeral(PrintInt(n)) && ReadInt(PrintInt(n)) == n
  {
    if n < 0 {
      assert PrintInt(n)[1..] == Print(-n);
      ValueOfPrint(-n);
    } else {
      ValueOfPrint(n);
    }
  }
}
