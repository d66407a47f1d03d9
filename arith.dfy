/** Integer facts about C#'s % on non-negative operands, where it agrees with Dafny's. */
module Arith {
  /** x = k·q + r with 0 ≤ r < k pins down x mod k. */
  lemma ModOfDecomposition(x: int, k: int, q: int, r: int)
    requires k > 0 && x == k * q + r && 0 <= r < k
    ensures x % k == r
  {
    var q0 := x / k;
    var r0 := x % k;
    assert k * (q - q0) == r0 - r;
    assert q - q0 >= 1 ==> k * (q - q0) >= k;
    assert q - q0 <= -1 ==> k * (q0 - q) >= k;
  }

  /** Euclidean remainder of a successor: one more, wrapping to zero at k. */
  lemma ModNext(m: nat, k: nat)
    requires k >= 1
    ensures (m + 1) % k == if m % k == k - 1 then 0 else m % k + 1
  {
    var q := m / k;
    var r := m % k;
    assert m == k * q + r;
    if r == k - 1 {
      assert m + 1 == k * (q + 1);
      ModOfDecomposition(m + 1, k, q + 1, 0);
    } else {
      assert m + 1 == k * q + (r + 1);
      ModOfDecomposition(m + 1, k, q, r + 1);
    }
  }
}
