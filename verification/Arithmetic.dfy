/** Division with remainder, for the places where the solver needs to be told. */
module Arithmetic {

  lemma MulMono(a: int, b: int, c: nat)
    requires a <= b
    ensures a * c <= b * c
  {
  }

  lemma MulBound(k: int, n: nat)
    ensures k >= 1 ==> k * n >= n
    ensures k <= -1 ==> k * n + n <= 0
  {
    if k >= 1 {
      MulMono(1, k, n);
    } else if k <= -1 {
      MulMono(k, -1, n);
    }
  }

  /** Quotient and remainder are unique. */
  lemma DivModUnique(x: int, q: int, r: nat, n: nat)
    requires r < n && x == q * n + r
    ensures x / n == q && x % n == r
  {
    var k := x / n - q;
    assert k * n == (x / n) * n - q * n;
    MulBound(k, n);
  }

  /** One more divisor is one more in the quotient. */
  lemma DivStep(x: int, n: nat)
    requires n > 0
    ensures (x - n) / n == x / n - 1 && (x - n) % n == x % n
  {
    var q, r := x / n, x % n;
    assert (q - 1) * n == q * n - n;
    DivModUnique(x - n, q - 1, r, n);
  }
}
