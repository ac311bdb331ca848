/** The few facts about division by a variable that the block-wise code needs. */
module DivMod {

  lemma MulAtLeast(d: int, k: int)
    requires d >= 1 && k >= 0
    ensures d * k >= k
  {
    assert d * k == (d - 1) * k + k;
    assert (d - 1) * k >= 0;
  }

  lemma MulMonotone(x: nat, y: nat, z: nat)
    requires x <= y
    ensures x * z <= y * z
  {
    assert y * z == x * z + (y - x) * z;
  }

  lemma Unique(a: int, k: int, q: int, r: int)
    requires k > 0 && 0 <= r < k && a == q * k + r
    ensures a / k == q && a % k == r
  {
    var q', r' := a / k, a % k;
    assert a == q' * k + r';
    assert (q' - q) * k == q' * k - q * k;
    if q' > q {
      MulAtLeast(q' - q, k);
    } else if q' < q {
      assert (q - q') * k == q * k - q' * k;
      MulAtLeast(q - q', k);
    }
  }

  /** Subtracting the divisor keeps a positive multiple a multiple. */
  lemma StepDown(n: nat, k: nat)
    requires k > 0 && n > 0 && n % k == 0
    ensures n >= k && (n - k) % k == 0
  {
    var q := n / k;
    assert n == q * k;
    assert q >= 1;
    MulAtLeast(q, k);
    assert n - k == (q - 1) * k;
    Unique(n - k, k, q - 1, 0);
  }

  /** In the block that begins at a multiple `start`, the next multiple of k is k tokens on. */
  lemma BlockEnd(start: nat, d: nat, k: nat)
    requires k > 0 && start % k == 0 && d <= k
    ensures (start + d) % k == 0 <==> d == 0 || d == k
  {
    var q := start / k;
    assert start == q * k;
    if d == k {
      assert start + d == (q + 1) * k;
      Unique(start + d, k, q + 1, 0);
    } else {
      Unique(start + d, k, q, d);
    }
  }

  /** Whether k divides n does not depend on the sign of k. */
  lemma SignFree(n: nat, k: int)
    requires k != 0
    ensures n % k == 0 <==> n % (if k < 0 then -k else k) == 0
  {
    if k < 0 {
      var q := n / k;
      assert n == q * k + n % k;
      assert q * k == (-q) * (-k);
      Unique(n, -k, -q, n % k);
    }
  }
}
