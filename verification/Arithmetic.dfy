/** Integer division facts used by several components. */
module Arithmetic {

  /** Quotient and remainder are determined by the division equation. */
  lemma DivModUnique(a: int, k: int, q: int, r: int)
    requires k > 0 && a == q * k + r && 0 <= r < k
    ensures a / k == q && a % k == r
  {
    var d := a / k - q;
    assert a == (a / k) * k + a % k;
    assert d * k == r - a % k;
    MulAtLeast(d, k);
  }

  lemma MulAtLeast(d: int, k: int)
    requires k > 0
    ensures d >= 1 ==> d * k >= k
    ensures d <= -1 ==> d * k <= -k
  {
  }

  lemma DivModStep(n: nat, k: nat)
    requires k > 0
    ensures n % k + 1 < k ==> (n + 1) / k == n / k && (n + 1) % k == n % k + 1
    ensures n % k + 1 == k ==> (n + 1) / k == n / k + 1 && (n + 1) % k == 0
  {
    if n % k + 1 < k {
      DivModUnique(n + 1, k, n / k, n % k + 1);
    } else {
      DivModUnique(n + 1, k, n / k + 1, 0);
    }
  }

  /** A position in an a-by-b table, row by row. */
  lemma RowMajor(i: nat, j: nat, a: nat, b: nat)
    requires i < a && j < b
    ensures i * b + j < a * b && (i * b + j) / b == i && (i * b + j) % b == j
  {
    DivModUnique(i * b + j, b, i, j);
    MulMonotone(i + 1, a, b);
  }

  lemma MulMonotone(a: nat, b: nat, c: nat)
    requires a <= b
    ensures a * c <= b * c
  {
    assert (b - a) * c >= 0;
  }

  function Pow2(e: nat): nat {
    if e == 0 then 1 else 2 * Pow2(e - 1)
  }
}
