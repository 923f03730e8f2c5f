/** Facts about division that the models share. */
module Arithmetic {

  lemma Remainder(n: nat, k: nat, q: nat, r: nat)
    requires 0 <= r < k && n == k * q + r
    ensures n % k == r
  {
    var p, s := n / k, n % k;
    assert k * p + s == k * q + r;
    if p < q {
      Gap(k, p + 1, q);
    } else if q < p {
      Gap(k, q + 1, p);
    }
  }

  lemma Gap(k: nat, a: nat, b: nat)
    requires a <= b
    ensures k * a <= k * b
  {
  }

  /** Whole multiples do not change a remainder. */
  lemma WholeMultiples(x: nat, n: nat, k: nat)
    requires k > 0
    ensures (n * k + x) % k == x % k
  {
    assert n * k + x == k * (n + x / k) + x % k;
    Remainder(n * k + x, k, n + x / k, x % k);
  }
}
