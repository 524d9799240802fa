/** Decimal notation of natural numbers, and padding with zeros. */
module Decimal {

  predicate IsDigit(c: char) {
    '0' <= c <= '9'
  }

  function DigitChar(d: nat): char
    requires d < 10
  {
    '0' + d as char
  }

  /** String(n) */
  function Dec(n: nat): (s: string)
    ensures s != [] && forall c :: c in s ==> IsDigit(c)
  {
    if n < 10 then [DigitChar(n)] else Dec(n / 10) + [DigitChar(n % 10)]
  }

  /** The number that digits denote; leading zeros do not matter. */
  function Value(s: string): nat
    requires forall c :: c in s ==> IsDigit(c)
  {
    if s == [] then 0
    else
      assert IsDigit(s[|s| - 1]);
      Value(s[..|s| - 1]) * 10 + (s[|s| - 1] as int - '0' as int)
  }

  lemma {:induction false} ValueOfDec(n: nat)
    ensures Value(Dec(n)) == n
  {
    if n >= 10 {
      ValueOfDec(n / 10);
      assert Dec(n)[..|Dec(n)| - 1] == Dec(n / 10);
    } else {
      assert Dec(n)[..0] == [];
    }
  }

  function Zeros(k: nat): (s: string)
    ensures |s| == k && forall c :: c in s ==> c == '0'
  {
    seq(k, _ => '0')
  }

  /** String.padStart with zeros: longer strings stay as they are. */
  function PadStart(s: string, width: nat): string {
    if |s| >= width then s else Zeros(width - |s|) + s
  }

  lemma {:induction false} ValueOfZeros(k: nat, s: string)
    requires forall c :: c in s ==> IsDigit(c)
    ensures forall c :: c in Zeros(k) + s ==> IsDigit(c)
    ensures Value(Zeros(k) + s) == Value(s)
    decreases k, |s|
  {
    var all := Zeros(k) + s;
    if s != [] {
      assert all[..|all| - 1] == Zeros(k) + s[..|s| - 1];
      forall c | c in s[..|s| - 1] ensures IsDigit(c) {
        assert c in s;
      }
      ValueOfZeros(k, s[..|s| - 1]);
    } else if k > 0 {
      assert all[..k - 1] == Zeros(k - 1) + s;
      ValueOfZeros(k - 1, s);
    }
  }

  /** Padding keeps numbers apart, also those that are longer than the padding. */
  lemma PaddedInjective(m: nat, n: nat, width: nat)
    requires PadStart(Dec(m), width) == PadStart(Dec(n), width)
    ensures m == n
  {
    PaddedValue(m, width);
    PaddedValue(n, width);
  }

  lemma PaddedValue(n: nat, width: nat)
    ensures forall c :: c in PadStart(Dec(n), width) ==> IsDigit(c)
    ensures Value(PadStart(Dec(n), width)) == n
  {
    ValueOfDec(n);
    if |Dec(n)| < width {
      ValueOfZeros(width - |Dec(n)|, Dec(n));
    }
  }
}
