/** Products by repeated addition, and the quotients they give back. Counting
    proofs add one row at a time, which this form follows; the last lemmas lead
    back to multiplication and division. */
module Arithmetic {
  function Times(n: nat, k: nat): nat {
    if n == 0 then 0 else Times(n - 1, k) + k
  }

  lemma {:induction false} TimesIsProduct(n: nat, k: nat)
    ensures Times(n, k) == n * k
  {
    if n > 0 {
      TimesIsProduct(n - 1, k);
      assert n * k == (n - 1) * k + k;
    }
  }

  lemma {:induction false} TimesPositive(n: nat, k: nat)
    ensures Times(n, k) > 0 <==> n > 0 && k > 0
  {
    if n > 0 {
      TimesPositive(n - 1, k);
    }
  }

  lemma MulMono(a: int, b: int, k: nat)
    ensures a <= b ==> a * k <= b * k
  {
    if a <= b {
      assert (b - a) * k >= 0;
    }
  }

  lemma QuotientUnique(x: int, k: nat, q: int, r: int)
    requires k > 0 && 0 <= r < k && x == q * k + r
    ensures x / k == q && x % k == r
  {
    var q', r' := x / k, x % k;
    MulMono(q + 1, q', k);
    MulMono(q' + 1, q, k);
    assert (q + 1) * k == q * k + k && (q' + 1) * k == q' * k + k;
    assert x == q' * k + r';
  }

  lemma QuotientTimes(x: nat, k: nat)
    requires k > 0 && x % k == 0
    ensures Times(x / k, k) == x
  {
    TimesIsProduct(x / k, k);
  }

  /** A product determines its factor. */
  lemma {:induction false} TimesInjective(m: nat, n: nat, k: nat)
    requires k > 0 && Times(m, k) == Times(n, k)
    ensures m == n
  {
    if m > 0 && n > 0 {
      TimesInjective(m - 1, n - 1, k);
    }
  }

  /** Dividing a product gives its factor back, without remainder. */
  lemma TimesQuotient(n: nat, k: nat)
    requires k > 0
    ensures Times(n, k) / k == n && Times(n, k) % k == 0
  {
    TimesIsProduct(n, k);
    QuotientUnique(Times(n, k), k, n, 0);
  }
}
