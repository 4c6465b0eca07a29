/** Integer division as C performs it. */
module CInt {

  function Abs(a: int): nat {
    if a < 0 then -a else a
  }

  // The quotient rounded towards zero.
  function TruncDiv(a: int, b: int): int
    requires b != 0
  {
    if (a < 0) == (b < 0) then Abs(a) / Abs(b) else -(Abs(a) / Abs(b))
  }

  // Section 6.5.5 of ISO/IEC 9899: what is left is less than the divisor, and has the sign of the
  // dividend.
  predicate IsQuotient(a: int, b: int, q: int) {
    var r := a - q * b;
    Abs(r) < Abs(b) && (r == 0 || (r < 0) == (a < 0))
  }

  // There is one such quotient.
  lemma QuotientExactly(a: int, b: int, q: int)
    requires b != 0
    ensures q == TruncDiv(a, b) <==> IsQuotient(a, b, q)
  {
    Divides(Abs(a), Abs(b));
    var n := Abs(a) / Abs(b);
    Signs(a, b, n);
    if IsQuotient(a, b, q) {
      OneQuotient(a, b, q, TruncDiv(a, b));
    }
  }

  lemma Divides(a: nat, b: nat)
    requires b > 0
    ensures 0 <= a - a / b * b < b
  {
  }

  lemma Signs(a: int, b: int, n: nat)
    requires b != 0 && 0 <= Abs(a) - n * Abs(b) < Abs(b)
    ensures IsQuotient(a, b, if (a < 0) == (b < 0) then n else 0 - n)
  {
  }

  lemma OneQuotient(a: int, b: int, q: int, p: int)
    requires b != 0 && IsQuotient(a, b, q) && IsQuotient(a, b, p)
    ensures q == p
  {
    Difference(a, b, q, p);
    Far(p - q, b);
  }

  lemma Difference(a: int, b: int, q: int, p: int)
    ensures (a - q * b) - (a - p * b) == (p - q) * b
  {
  }

  lemma Far(k: int, b: int)
    ensures k == 0 || k * b >= Abs(b) || k * b <= 0 - Abs(b)
  {
    if k >= 1 {
      Times(k, Abs(b));
    } else if k <= -1 {
      Times(-k, Abs(b));
    }
    assert b >= 0 ==> k * b == k * Abs(b);
    assert b < 0 ==> k * b == -k * Abs(b);
  }

  lemma Times(k: int, c: nat)
    requires k >= 1
    ensures k * c >= c && -k * c == 0 - k * c
  {
  }
}
