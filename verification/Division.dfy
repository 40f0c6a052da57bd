/** Quotient and remainder by a variable divisor. */
module Division {

  lemma MulMonotone(a: int, b: int, n: int)
    requires a <= b && 0 < n
    ensures a * n <= b * n
  {
    assert (b - a) * n >= 0;
  }

  lemma SmallMultiple(k: int, n: int)
    requires 0 < n && -n < k * n < n
    ensures k == 0
  {
    if k > 0 {
      MulMonotone(1, k, n);
    } else if k < 0 {
      MulMonotone(k, -1, n);
    }
  }

  lemma DivUnique(t: nat, p: int, d: nat, n: nat)
    requires 0 < n && d < n && t == p * n + d
    ensures t / n == p && t % n == d
  {
    var q := t / n;
    assert t == q * n + t % n;
    assert (q - p) * n == q * n - p * n;
    SmallMultiple(q - p, n);
  }
}
