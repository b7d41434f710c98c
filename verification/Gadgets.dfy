/**
 The constraints that the compiler emits for comparison, inequality and bit splitting, over the field of
 integers modulo a prime, and the prover's code that fills in their variables.  A constraint
 `( A ) * ( B ) + ( C )` holds when A * B + C is zero in the field.
 */
module Gadgets {
  import opened Field
  import opened Powers

  function Sum(s: seq<int>): int {
    if |s| == 0 then 0 else Sum(s[..|s| - 1]) + s[|s| - 1]
  }

  /** At most `h` in magnitude. */
  predicate Within(d: int, h: int) {
    -h <= d <= h
  }

  function Truth(b: bool): int {
    if b then 1 else 0
  }

  // ----- inequality -----

  ghost predicate NotEqualHolds(p: int, x: int, y: int, m: int, target: int)
    requires p > 0
  {
    Cong(p, m * (x - y) - target, 0) && Cong(p, target * (x - y) - x + y, 0)
  }

  /** The constraints leave one value for the target: 1 when the operands differ in the field, else 0. */
  lemma NotEqualForces(p: int, x: int, y: int, m: int, target: int)
    requires Prime(p) && NotEqualHolds(p, x, y, m, target)
    ensures Cong(p, target, Truth(!Cong(p, x, y)))
  {
    var d := x - y;
    if Cong(p, x, y) {
      CongSame(p, m);
      CongMul(p, m, m, d, 0);
      CongSwap(p, m * d - target, 0);
      CongAdd(p, 0, m * d - target, m * d, 0);
      CongAdd(p, m * d, 0, target - m * d, 0) by {
        CongSwap(p, 0, m * d - target);
        CongNeg(p, m * d - target);
      }
    } else {
      assert target * d - x + y == (target - 1) * d;
      ProductZero(p, target - 1, d);
    }
  }

  /** The prover's values: an inverse of the difference, which the library call computes, or zeros. */
  lemma NotEqualFilled(p: int, x: int, y: int, m: int, target: int)
    requires Prime(p)
    requires if x == y then m == 0 && target == 0 else Cong(p, m * (x - y), 1) && target == 1
    ensures NotEqualHolds(p, x, y, m, target)
  {
    if x == y {
      CongSame(p, 0);
      assert m * (x - y) == 0;
    } else {
      CongSame(p, 0);
      assert target * (x - y) - x + y == 0;
    }
  }

  method ComputeNotEqual(p: int, x: int, y: int) returns (m: int, target: int)
    requires Prime(p) && Within(x - y, p - 1)
    ensures NotEqualHolds(p, x, y, m, target) && target == Truth(x != y)
  {
    if x == y {
      m, target := 0, 0;
    } else {
      m, target := Bezout(p, (x - y) % p).2, 1;
      assert !Cong(p, x, y) by {
        if Cong(p, x, y) { CongClose(p, x, y); }
      }
      BezoutInverse(p, x - y);
    }
    NotEqualFilled(p, x, y, m, target);
  }

  // ----- less-than -----

  /** The auxiliary variables of one comparison. */
  datatype LessVars = LessVars(bits: seq<int>, lt: int, eq: int, gt: int)

  ghost predicate PowerBits(p: int, bits: seq<int>)
    requires p > 0
  {
    forall i :: 0 <= i < |bits| ==> Cong(p, bits[i] * (Pow2(i) - bits[i]), 0)
  }

  ghost predicate OneFlag(p: int, w: LessVars)
    requires p > 0
  {
    && Cong(p, w.lt * (w.lt - 1), 0)
    && Cong(p, w.eq * (w.eq - 1), 0)
    && Cong(p, w.gt * (w.gt - 1), 0)
    && Cong(p, w.lt + w.eq + w.gt - 1, 0)
  }

  ghost predicate FlagChecks(p: int, n: nat, x: int, y: int, w: LessVars)
    requires p > 0 && n >= 1
  {
    && Cong(p, w.lt * (x - y - Sum(w.bits) + Pow2(n - 1)), 0)
    && Cong(p, w.eq * (x - y), 0)
    && Cong(p, w.gt * (y - x - Sum(w.bits) + Pow2(n - 1)), 0)
  }

  ghost predicate LessThanHolds(p: int, n: nat, x: int, y: int, w: LessVars, target: int)
    requires p > 0 && n >= 1
  {
    && |w.bits| == n - 1
    && PowerBits(p, w.bits)
    && OneFlag(p, w)
    && FlagChecks(p, n, x, y, w)
    && Cong(p, w.lt - target, 0)
  }

  /** The variables N_i add up to some number below 2^k. */
  lemma {:induction false} BitsSum(p: int, bits: seq<int>) returns (v: nat)
    requires Prime(p) && PowerBits(p, bits)
    ensures v < Pow2(|bits|) && Cong(p, Sum(bits), v)
    decreases |bits|
  {
    var k := |bits|;
    if k == 0 {
      v := 0;
      CongSame(p, 0);
    } else {
      v := BitsSum(p, bits[..k - 1]);
      ProductZero(p, bits[k - 1], Pow2(k - 1) - bits[k - 1]);
      if Cong(p, bits[k - 1], 0) {
        CongAdd(p, Sum(bits[..k - 1]), v, bits[k - 1], 0);
      } else {
        CongNeg(p, Pow2(k - 1) - bits[k - 1]);
        assert Cong(p, bits[k - 1], Pow2(k - 1));
        CongAdd(p, Sum(bits[..k - 1]), v, bits[k - 1], Pow2(k - 1));
        v := v + Pow2(k - 1);
      }
    }
  }

  /** Exactly one of the three flags is 1. */
  lemma OneFlagOnly(p: int, w: LessVars)
    requires Prime(p) && p > 3 && OneFlag(p, w)
    ensures
      || (Cong(p, w.lt, 1) && Cong(p, w.eq, 0) && Cong(p, w.gt, 0))
      || (Cong(p, w.lt, 0) && Cong(p, w.eq, 1) && Cong(p, w.gt, 0))
      || (Cong(p, w.lt, 0) && Cong(p, w.eq, 0) && Cong(p, w.gt, 1))
  {
    BitOf(p, w.lt);
    BitOf(p, w.eq);
    BitOf(p, w.gt);
    var a := if Cong(p, w.lt, 0) then 0 else 1;
    var b := if Cong(p, w.eq, 0) then 0 else 1;
    var c := if Cong(p, w.gt, 0) then 0 else 1;
    CongAdd(p, w.lt, a, w.eq, b);
    CongAdd(p, w.lt + w.eq, a + b, w.gt, c);
    CongSwap(p, w.lt + w.eq + w.gt, 1);
    CongTrans(p, 1, w.lt + w.eq + w.gt, a + b + c);
    CongClose(p, 1, a + b + c);
  }

  /** A flag that is 1 enforces its check. */
  lemma Enforced(p: int, flag: int, check: int)
    requires p > 0 && Cong(p, flag, 1) && Cong(p, flag * check, 0)
    ensures Cong(p, check, 0)
  {
    CongSame(p, check);
    CongMul(p, flag, 1, check, check);
    CongSwap(p, flag * check, 1 * check);
    CongTrans(p, check, flag * check, 0);
  }

  /**
   Whatever field elements the operands are, the constraints confine their difference to the signed numbers
   of at most n bits and make the target say whether that number is negative.
   */
  lemma LessThanForces(p: int, n: nat, x: int, y: int, w: LessVars, target: int) returns (d: int)
    requires Prime(p) && n >= 1 && p > 3 && LessThanHolds(p, n, x, y, w, target)
    ensures Within(d, Pow2(n - 1)) && Cong(p, x - y, d)
    ensures Cong(p, target, Truth(d < 0))
  {
    var h := Pow2(n - 1);
    var v := BitsSum(p, w.bits);
    OneFlagOnly(p, w);
    d := Chosen(p, h, x, y, w, v);
    CongSwap(p, w.lt, target);
    CongTrans(p, target, w.lt, Truth(d < 0));
  }

  lemma Chosen(p: int, h: int, x: int, y: int, w: LessVars, v: nat) returns (d: int)
    requires p > 0 && v < h && Cong(p, Sum(w.bits), v)
    requires Cong(p, w.lt * (x - y - Sum(w.bits) + h), 0) && Cong(p, w.eq * (x - y), 0) &&
        Cong(p, w.gt * (y - x - Sum(w.bits) + h), 0)
    requires
      || (Cong(p, w.lt, 1) && Cong(p, w.eq, 0) && Cong(p, w.gt, 0))
      || (Cong(p, w.lt, 0) && Cong(p, w.eq, 1) && Cong(p, w.gt, 0))
      || (Cong(p, w.lt, 0) && Cong(p, w.eq, 0) && Cong(p, w.gt, 1))
    ensures Within(d, h) && Cong(p, x - y, d) && Cong(p, w.lt, Truth(d < 0))
  {
    hide Cong, Sum;
    var s := Sum(w.bits);
    if Cong(p, w.lt, 1) {
      Enforced(p, w.lt, x - y - s + h);
      d := v - h;
      DifferenceIs(p, x - y, s, h, v);
    } else if Cong(p, w.eq, 1) {
      Enforced(p, w.eq, x - y);
      d := 0;
    } else {
      Enforced(p, w.gt, y - x - s + h);
      d := h - v;
      DifferenceIs(p, y - x, s, h, v);
      CongOpposite(p, y - x, v - h);
    }
  }

  lemma DifferenceIs(p: int, d: int, s: int, h: int, v: int)
    requires p > 0 && Cong(p, d - s + h, 0) && Cong(p, s, v)
    ensures Cong(p, d, v - h)
  {
    CongAdd(p, d - s + h, 0, s, v);
  }

  /** Comparison of integers whose difference fits the width. */
  lemma LessThanMeans(p: int, n: nat, x: int, y: int, w: LessVars, target: int)
    requires Prime(p) && n >= 2 && p > Pow2(n) && LessThanHolds(p, n, x, y, w, target)
    requires Within(x - y, Pow2(n - 1))
    ensures Cong(p, target, Truth(x < y))
  {
    assert p > 3 by {
      Pow2Monotone(2, n);
      assert Pow2(2) == 4;
    }
    var d := LessThanForces(p, n, x, y, w, target);
    CongClose(p, x - y, d);
  }

  // ----- the prover's comparison -----

  /** The bits of `v` as the prover stores them: bit i is 0 or 2^i. */
  ghost predicate StoredBits(bits: seq<int>, from: nat, v: nat, rest: nat) {
    && v == Sum(bits) + Pow2(from) * rest
    && |bits| == from
    && forall i :: 0 <= i < from ==> bits[i] == 0 || bits[i] == Pow2(i)
  }

  lemma StoredOne(bits: seq<int>, from: nat, v: nat, rest: nat)
    requires StoredBits(bits, from, v, rest)
    ensures StoredBits(bits + [rest % 2 * Pow2(from)], from + 1, v, rest / 2)
  {
    var b := bits + [rest % 2 * Pow2(from)];
    assert b[..|b| - 1] == bits;
    assert rest == rest / 2 * 2 + rest % 2;
    assert Pow2(from) * rest == Pow2(from) * (rest / 2 * 2) + Pow2(from) * (rest % 2);
    assert Pow2(from) * (rest / 2 * 2) == Pow2(from + 1) * (rest / 2);
  }

  /** The prover's code for `<` on integers; `bits` are the variables N_0, ..., N_{n-2}. */
  method ComputeLessThan(x: int, y: int, n: nat, bits: array<int>) returns (lt: int, eq: int, gt: int, target: int)
    requires n >= 1 && bits.Length == n - 1
    requires Within(x - y, Pow2(n - 1))
    modifies bits
    ensures forall p | p > 0 :: LessThanHolds(p, n, x, y, LessVars(bits[..], lt, eq, gt), target)
    ensures target == Truth(x < y)
  {
    var diff;
    if x < y {
      lt, eq, gt := 1, 0, 0;
      diff := x - y;
    } else if x == y {
      lt, eq, gt := 0, 1, 0;
      diff := x - y;
    } else {
      lt, eq, gt := 0, 0, 1;
      diff := y - x;
    }
    target := lt;
    var temp: nat := Pow2(n - 1) + diff;
    ghost var v := temp;
    var i := 0;
    assert StoredBits(bits[..0], 0, v, temp);
    while i < n - 1
      invariant 0 <= i <= n - 1 && StoredBits(bits[..i], i, v, temp)
    {
      StoredOne(bits[..i], i, v, temp);
      bits[i] := temp % 2 * Pow2(i);
      temp := temp / 2;
      i := i + 1;
      assert bits[..i] == bits[..i - 1] + [bits[i - 1]];
    }
    assert bits[..] == bits[..n - 1];
    Filled(n, x, y, LessVars(bits[..], lt, eq, gt), v, temp);
  }

  method Compare(x: int, y: int, n: nat) returns (w: LessVars, target: int)
    requires n >= 1 && Within(x - y, Pow2(n - 1))
    ensures forall p | p > 0 :: LessThanHolds(p, n, x, y, w, target)
    ensures target == Truth(x < y)
  {
    var bits := new int[n - 1];
    var lt, eq, gt;
    lt, eq, gt, target := ComputeLessThan(x, y, n, bits);
    w := LessVars(bits[..], lt, eq, gt);
  }

  lemma Filled(n: nat, x: int, y: int, w: LessVars, v: nat, rest: nat)
    requires n >= 1 && StoredBits(w.bits, n - 1, v, rest)
    requires v == Pow2(n - 1) + if x <= y then x - y else y - x
    requires w.lt == Truth(x < y) && w.eq == Truth(x == y) && w.gt == Truth(x > y)
    ensures forall p | p > 0 :: LessThanHolds(p, n, x, y, w, w.lt)
  {
    hide LessThanHolds, StoredBits;
    forall p | p > 0 ensures LessThanHolds(p, n, x, y, w, w.lt) {
      if x != y { FilledSum(w.bits, n - 1, v, rest); }
      FilledFor(p, n, x, y, w, v, rest);
    }
  }

  lemma FilledSum(bits: seq<int>, k: nat, v: nat, rest: nat)
    requires StoredBits(bits, k, v, rest) && v < Pow2(k)
    ensures Sum(bits) == v
  {
    hide Pow2;
    SumNonNegative(bits);
    Pow2Positive(k);
    LargeMultiple(Pow2(k), rest);
  }

  lemma FilledFor(p: int, n: nat, x: int, y: int, w: LessVars, v: nat, rest: nat)
    requires p > 0 && n >= 1 && StoredBits(w.bits, n - 1, v, rest)
    requires v == Pow2(n - 1) + if x <= y then x - y else y - x
    requires w.lt == Truth(x < y) && w.eq == Truth(x == y) && w.gt == Truth(x > y)
    requires x != y ==> Sum(w.bits) == v
    ensures LessThanHolds(p, n, x, y, w, w.lt)
  {
    hide Cong;
    CongSame(p, 0);
    forall i | 0 <= i < |w.bits| ensures Cong(p, w.bits[i] * (Pow2(i) - w.bits[i]), 0) {
      assert w.bits[i] * (Pow2(i) - w.bits[i]) == 0;
    }
    assert w.lt * (x - y - Sum(w.bits) + Pow2(n - 1)) == 0;
    assert w.eq * (x - y) == 0;
    assert w.gt * (y - x - Sum(w.bits) + Pow2(n - 1)) == 0;
  }

  lemma {:induction false} SumNonNegative(bits: seq<int>)
    requires forall i :: 0 <= i < |bits| ==> bits[i] >= 0
    ensures Sum(bits) >= 0
  {
    if |bits| > 0 { SumNonNegative(bits[..|bits| - 1]); }
  }

  // ----- the width of a comparison -----

  datatype Operand = Variable(signed: bool, na: nat) | Constant(val: int)

  predicate InRange(o: Operand, v: int) {
    match o
    case Variable(signed, na) => SplitRange(signed, na, v)
    case Constant(c) => v == c
  }

  /** The integers of `n` bits. */
  predicate SplitRange(signed: bool, n: nat, v: int) {
    if signed then n >= 1 && 0 - Pow2(n - 1) <= v < Pow2(n - 1) else 0 <= v < Pow2(n)
  }

  /** Bits of the signed form of an operand; constants count as signed and zero as two bits. */
  function SignedBits(o: Operand): nat {
    match o
    case Variable(signed, na) => if signed then na else na + 1
    case Constant(c) => if c == 0 then 2 else CeilLog2(if c < 0 then -c else c + 1) + 1
  }

  function SignedDifferenceBits(a: Operand, b: Operand): nat {
    var m := if SignedBits(a) >= SignedBits(b) then SignedBits(a) else SignedBits(b);
    if a == Constant(0) || b == Constant(0) then m else m + 1
  }

  lemma SignedBitsSuffice(o: Operand, v: int, m: nat)
    requires InRange(o, v) && SignedBits(o) <= m
    ensures m >= 1 && 0 - Pow2(m - 1) <= v < Pow2(m - 1)
  {
    hide Pow2, CeilLog2;
    match o
    case Variable(signed, na) =>
      Pow2Monotone(if signed then na - 1 else na, m - 1);
    case Constant(c) =>
      if c == 0 {
        Pow2Positive(m - 1);
      } else {
        CeilLog2Least(if c < 0 then -c else c + 1, m - 1);
      }
  }

  /** And no fewer do: some value of the operand does not fit one bit less. */
  lemma SignedBitsLeast(o: Operand) returns (v: int)
    requires o != Constant(0) && o != Variable(true, 0)
    ensures InRange(o, v) && SignedBits(o) >= 1 && !SplitRange(true, SignedBits(o) - 1, v)
  {
    hide CeilLog2;
    match o
    case Variable(signed, na) =>
      Pow2Positive(na);
      if signed {
        Pow2Positive(na - 1);
        v := 0 - Pow2(na - 1);
      } else {
        v := Pow2(na) - 1;
      }
    case Constant(c) =>
      v := c;
      var k := SignedBits(o) - 1;
      if k >= 1 { CeilLog2Least(if c < 0 then -c else c + 1, k - 1); }
  }

  /** The values of as many bits as an operand's signed form has; zero is itself. */
  predicate SignedForm(o: Operand, v: int) {
    if o == Constant(0) then v == 0 else SplitRange(true, SignedBits(o), v)
  }

  /** The width of a comparison is the least for the signed forms of its operands, but for one bit against zero. */
  lemma WidthLeast(a: Operand, b: Operand) returns (x: int, y: int)
    requires SignedBits(a) >= 1 && SignedBits(b) >= 1 && (a != Constant(0) || b != Constant(0))
    requires a == Constant(0) ==> SignedBits(b) >= 2
    requires b == Constant(0) ==> SignedBits(a) >= 2
    ensures SignedForm(a, x) && SignedForm(b, y)
    ensures SignedDifferenceBits(a, b) >= 1 && !SplitRange(true, SignedDifferenceBits(a, b) - 1, x - y)
  {
    hide SignedBits;
    var i, j := SignedBits(a) - 1, SignedBits(b) - 1;
    Pow2Positive(i);
    Pow2Positive(j);
    if b == Constant(0) {
      ZeroWidth(b, 0);
      x, y := 0 - Pow2(i), 0;
    } else if a == Constant(0) {
      ZeroWidth(a, 0);
      x, y := 0, 0 - Pow2(j);
    } else if i >= j {
      x, y := Pow2(i) - 1, -1;
    } else {
      x, y := 0, 0 - Pow2(j);
    }
  }

  /** The chosen width bounds every difference of operands of the declared types. */
  lemma WidthSuffices(a: Operand, b: Operand, x: int, y: int)
    requires InRange(a, x) && InRange(b, y)
    ensures SignedDifferenceBits(a, b) >= 2
    ensures Within(x - y, Pow2(SignedDifferenceBits(a, b) - 1))
  {
    hide SignedBits, InRange;
    var m := if SignedBits(a) >= SignedBits(b) then SignedBits(a) else SignedBits(b);
    SignedBitsSuffice(a, x, m);
    SignedBitsSuffice(b, y, m);
    if a == Constant(0) { ZeroWidth(a, x); }
    if b == Constant(0) { ZeroWidth(b, y); }
  }

  lemma ZeroWidth(o: Operand, v: int)
    requires InRange(o, v) && o == Constant(0)
    ensures v == 0 && SignedBits(o) == 2
  {
  }

  /** The emitted comparison decides `<` for every pair of integer types and constants. */
  lemma LessThanDecides(p: int, a: Operand, b: Operand, x: int, y: int, w: LessVars, target: int)
    requires InRange(a, x) && InRange(b, y)
    requires Prime(p) && p > Pow2(SignedDifferenceBits(a, b))
    requires SignedDifferenceBits(a, b) >= 1 && LessThanHolds(p, SignedDifferenceBits(a, b), x, y, w, target)
    ensures Cong(p, target, Truth(x < y))
  {
    hide LessThanHolds, SignedDifferenceBits, InRange;
    WidthSuffices(a, b, x, y);
    LessThanMeans(p, SignedDifferenceBits(a, b), x, y, w, target);
  }
}
