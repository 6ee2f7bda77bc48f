/**
 Lobby codes. A code is the decimal text of a number in 1000..9999, obtained
 from a random draw `d` in 0..8999 as the text of `1000 + d`.
 */
module LobbyCodes {

  /** The number of distinct codes: one per draw. */
  const CodeCount: nat := 9000

  /** The smallest code value. */
  const CodeBase: nat := 1000

  predicate IsDigit(c: char) {
    '0' <= c <= '9'
  }

  predicate AllDigits(s: string) {
    forall i :: 0 <= i < |s| ==> IsDigit(s[i])
  }

  function DigitChar(d: nat): (c: char)
    requires d < 10
    ensures IsDigit(c)
  {
    ('0' as int + d) as char
  }

  function DigitValue(c: char): (d: nat)
    requires IsDigit(c)
    ensures d < 10 && DigitChar(d) == c
  {
    c as int - '0' as int
  }

  /** The decimal text of a natural number, with no leading zero. */
  function DecimalString(n: nat): (s: string)
    ensures |s| >= 1 && AllDigits(s)
    ensures n >= 10 ==> s[0] != '0'
  {
    if n < 10 then [DigitChar(n)] else DecimalString(n / 10) + [DigitChar(n % 10)]
  }

  /** The value of a string of decimal digits. */
  function ParseDecimal(s: string): nat
    requires AllDigits(s)
  {
    if s == [] then 0 else ParseDecimal(s[..|s| - 1]) * 10 + DigitValue(s[|s| - 1])
  }

  /** Reading back the decimal text of a number gives the number. */
  lemma {:induction false} ParseDecimalString(n: nat)
    ensures ParseDecimal(DecimalString(n)) == n
  {
    var s := DecimalString(n);
    if n >= 10 {
      ParseDecimalString(n / 10);
      assert s[..|s| - 1] == DecimalString(n / 10);
    }
  }

  /** Four-digit numbers print as four characters. */
  lemma DecimalStringLength(n: nat)
    requires CodeBase <= n < CodeBase + CodeCount
    ensures |DecimalString(n)| == 4
  {
    assert |DecimalString(n / 1000)| == 1;
    assert |DecimalString(n / 100)| == 2;
    assert |DecimalString(n / 10)| == 3;
  }

  /** The code produced by the draw `d`. */
  function CodeOf(d: int): (code: string)
    requires 0 <= d < CodeCount
    ensures |code| == 4 && AllDigits(code) && code[0] != '0'
  {
    DecimalStringLength(CodeBase + d);
    DecimalString(CodeBase + d)
  }

  /** A code is read back as the number it was made from. */
  lemma CodeOfRoundTrip(d: int)
    requires 0 <= d < CodeCount
    ensures ParseDecimal(CodeOf(d)) == CodeBase + d
  {
    ParseDecimalString(CodeBase + d);
  }

  /** Distinct draws give distinct codes. */
  lemma CodeOfInjective(d1: int, d2: int)
    requires 0 <= d1 < CodeCount && 0 <= d2 < CodeCount
    ensures CodeOf(d1) == CodeOf(d2) <==> d1 == d2
  {
    CodeOfRoundTrip(d1);
    CodeOfRoundTrip(d2);
  }

  /** The codes of the draws 0..n-1. */
  ghost function CodesBelow(n: nat): set<string>
    requires n <= CodeCount
  {
    set d | 0 <= d < n :: CodeOf(d)
  }

  /** Every code that the generator can produce. */
  ghost function AllCodes(): set<string> {
    CodesBelow(CodeCount)
  }

  lemma {:induction false} CodesBelowSize(n: nat)
    requires n <= CodeCount
    ensures |CodesBelow(n)| == n
  {
    if n > 0 {
      CodesBelowSize(n - 1);
      forall d | 0 <= d < n - 1
        ensures CodeOf(d) != CodeOf(n - 1)
      {
        CodeOfInjective(d, n - 1);
      }
      assert CodesBelow(n) == CodesBelow(n - 1) + {CodeOf(n - 1)};
    }
  }

  lemma SubsetSize<T>(a: set<T>, b: set<T>)
    requires a <= b
    ensures |a| <= |b|
  {
    assert b == a + (b - a);
  }

  /**
   When every key of the directory is a code, the retry loop can meet a free
   code exactly when fewer than 9000 codes are in use.
   */
  lemma FreeCodeIff(keys: set<string>)
    requires keys <= AllCodes()
    ensures (exists d :: 0 <= d < CodeCount && CodeOf(d) !in keys) <==> |keys| < CodeCount
  {
    CodesBelowSize(CodeCount);
    if exists d :: 0 <= d < CodeCount && CodeOf(d) !in keys {
      var d :| 0 <= d < CodeCount && CodeOf(d) !in keys;
      SubsetSize(keys, AllCodes() - {CodeOf(d)});
    }
    if |keys| < CodeCount {
      if AllCodes() <= keys {
        SubsetSize(AllCodes(), keys);
      }
      var c :| c in AllCodes() && c !in keys;
      var d :| 0 <= d < CodeCount && CodeOf(d) == c;
    }
  }
}
