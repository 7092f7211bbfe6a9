/** Integer division and products, in steps small enough for the solver. */
module Arithmetic {

  lemma DivMod(n: int, d: int)
    requires 0 < d
    ensures n == (n / d) * d + n % d && 0 <= n % d < d
  {}

  /** How often d goes into n. */
  function Over(n: nat, d: nat): (q: nat)
    requires 0 < d
    ensures q == n / d
  {
    n / d
  }

  lemma SmallMultiple(e: int, d: int)
    requires 0 < d && -d < e * d < d
    ensures e == 0
  {
    assert 1 <= e ==> d <= e * d by { if 1 <= e { MulMonotone(1, e, d); } }
    assert e <= -1 ==> e * d <= -d by { if e <= -1 { MulMonotone(e, -1, d); } }
  }

  lemma MulMonotone(a: int, b: int, d: int)
    requires a <= b && 0 <= d
    ensures a * d <= b * d
  {}

  lemma Distribute(a: int, b: int, d: int)
    ensures (a + b) * d == a * d + b * d
  {}

  lemma Quotient(n: int, d: int, q: int, r: int)
    requires n == q * d + r && 0 <= r < d
    ensures n / d == q && n % d == r
  {
    DivMod(n, d);
    Distribute(n / d - q, q, d);
    SmallMultiple(n / d - q, d);
  }

  /** A leading digit below n over a rest below s stays below s * n. */
  lemma MixedRadix(digit: nat, n: nat, s: nat, rest: nat)
    requires digit < n && rest < s
    ensures digit * s + rest < s * n
  {
    MulMonotone(digit + 1, n, s);
    Distribute(digit, 1, s);
  }
}
