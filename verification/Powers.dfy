/** Powers of two and the rounded-up binary logarithm. */
module Powers {

  function Pow2(k: nat): nat {
    if k == 0 then 1 else 2 * Pow2(k - 1)
  }

  function CeilLog2(i: nat): nat {
    if i <= 1 then 0 else 1 + CeilLog2((i + 1) / 2)
  }

  /** CeilLog2 is the least exponent whose power of two reaches `i`. */
  lemma {:induction false} CeilLog2Least(i: nat, k: nat)
    requires i >= 1
    ensures i <= Pow2(k) <==> CeilLog2(i) <= k
  {
    if i == 1 {
      Pow2Positive(k);
    } else if k > 0 {
      CeilLog2Least((i + 1) / 2, k - 1);
    }
  }

  lemma {:induction false} Pow2Positive(k: nat)
    ensures Pow2(k) >= 1
  {
    if k > 0 { Pow2Positive(k - 1); }
  }

  lemma {:induction false} Pow2Monotone(j: nat, k: nat)
    requires j <= k
    ensures Pow2(j) <= Pow2(k)
  {
    if j < k {
      Pow2Positive(k - 1);
      Pow2Monotone(j, k - 1);
    }
  }

  /** `x` without its `i` low bits. */
  function Shifted(x: int, i: nat): int {
    if i == 0 then x else Shifted(x, i - 1) / 2
  }

  lemma {:induction false} ShiftedHalf(x: int, i: nat)
    ensures Shifted(x / 2, i) == Shifted(x, i + 1)
  {
    if i > 0 { ShiftedHalf(x, i - 1); }
  }

  lemma {:induction false} ShiftedBounds(x: int, i: nat, k: int)
    ensures k * Pow2(i) <= x <==> k <= Shifted(x, i)
    decreases i
  {
    if i > 0 {
      var h := Pow2(i - 1);
      assert k * Pow2(i) == (2 * k) * h;
      ShiftedBounds(x, i - 1, 2 * k);
    }
  }
}
