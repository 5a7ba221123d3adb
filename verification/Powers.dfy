/** Powers of two: `1 << k` in the page allocator. */
module Powers {

  function Pow2(k: nat): (r: nat)
    ensures r >= 1
  {
    if k == 0 then 1 else 2 * Pow2(k - 1)
  }

  lemma {:induction false} Pow2Monotone(j: nat, k: nat)
    requires j <= k
    ensures Pow2(j) <= Pow2(k)
  {
    if j < k {
      Pow2Monotone(j, k - 1);
    }
  }

  // A smaller power divides a larger one.
  lemma {:induction false} Pow2Divides(j: nat, k: nat) returns (q: nat)
    requires j <= k
    ensures Pow2(k) == q * Pow2(j)
  {
    if j == k {
      q := 1;
    } else {
      var r := Pow2Divides(j, k - 1);
      q := 2 * r;
      assert Pow2(k) == 2 * (r * Pow2(j)) == q * Pow2(j);
    }
  }
}
