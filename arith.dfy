/** Facts about Euclidean division by a positive divisor that the bit
    packing of UTF-8 and base64 rests on. */
module Arith {

  lemma DivMod(n: nat, d: nat)
    requires d > 0
    ensures n == n / d * d + n % d
  {
  }

  /** A multiple of a positive `d` other than zero is at least `d` away
      from zero. */
  lemma {:induction false} MulSign(a: int, d: int)
    requires d > 0
    ensures a >= 1 ==> a * d >= d
    ensures a <= -1 ==> a * d <= -d
    decreases if a < 0 then -a else a
  {
    if a > 1 {
      MulSign(a - 1, d);
      assert a * d == (a - 1) * d + d;
    } else if a < -1 {
      MulSign(a + 1, d);
      assert a * d == (a + 1) * d - d;
    }
  }

  /** Quotient and remainder are the only pair that rebuilds `x`. */
  lemma {:induction false} DivModUnique(x: int, d: int, q: int, r: int)
    requires d > 0 && 0 <= r < d && x == q * d + r
    ensures x / d == q && x % d == r
  {
    var q', r' := x / d, x % d;
    assert (q - q') * d == r' - r;
    MulSign(q - q', d);
  }

  /** Division undoes packing a quotient and a remainder. */
  lemma {:induction false} DivParts(q: int, r: int, d: int)
    requires d > 0 && 0 <= r < d
    ensures (q * d + r) / d == q && (q * d + r) % d == r
  {
    DivModUnique(q * d + r, d, q, r);
  }
}
