/**
 Integer division: the constraints force the truncating quotient and remainder, and the prover's worksheet
 satisfies them.
 */
module DivisionGadget {
  import opened Field
  import opened Powers
  import opened Gadgets

  /** Quotient and remainder truncated toward zero, as C99 section 6.5.5 defines `/` and `%`. */
  function Quotient(a: int, b: int): int
    requires b != 0
  {
    if a >= 0 then a / b else -(-a / b)
  }

  function Remainder(a: int, b: int): int
    requires b != 0
  {
    a - b * Quotient(a, b)
  }

  function Abs(x: int): int { if x < 0 then -x else x }

  /** Only the truncating quotient leaves a remainder below the divisor with the sign of the dividend. */
  lemma QuotientUnique(a: int, b: int, q: int, r: int)
    requires b != 0 && a == b * q + r && Abs(r) < Abs(b) && (r == 0 || (r < 0 <==> a < 0))
    ensures q == Quotient(a, b) && r == Remainder(a, b)
  {
    hide Quotient, Remainder;
    QuotientLaw(a, b);
    SmallDifference(b, q, Quotient(a, b), r, Remainder(a, b));
  }

  lemma SmallDifference(b: int, q: int, q': int, r: int, r': int)
    requires b != 0 && b * q + r == b * q' + r' && Abs(r - r') < Abs(b)
    ensures q == q' && r == r'
  {
    var d := q - q';
    assert b * d == r' - r;
    LargeMultiple(Abs(b), d);
    assert d * Abs(b) == if b < 0 then -(b * d) else b * d;
  }

  lemma QuotientLaw(a: int, b: int)
    requires b != 0
    ensures a == b * Quotient(a, b) + Remainder(a, b)
    ensures Abs(Remainder(a, b)) < Abs(b) && Abs(Quotient(a, b)) <= Abs(a)
    ensures Remainder(a, b) == 0 || (Remainder(a, b) < 0 <==> a < 0)
  {
    var q := Abs(a) / b;
    QuotientSmall(Abs(a), b);
    assert b * (-q) == -(b * q);
  }

  lemma QuotientSmall(m: int, b: int)
    requires m >= 0 && b != 0
    ensures m == b * (m / b) + m % b && 0 <= m % b < Abs(b)
    ensures Abs(m / b) <= m
  {
    var q, k := m / b, if b > 0 then m / b else -(m / b);
    assert Abs(b) * k == b * q;
    MagnitudeGrows(Abs(b), k);
  }

  lemma MagnitudeGrows(b: int, k: int)
    requires b > 0
    ensures k >= 0 ==> b * k >= k
    ensures k <= -1 ==> b * k <= -b
  {
  }

  /** The variables of one division. */
  datatype DivisionVars = DivisionVars(q: int, r: int, bNonZero: int, rNonZero: int, rNegative: int, bNegative: int,
                                       aNegative: int, qNegative: int, absR: int, absB: int, rBelowB: int, aOrZero: int,
                                       bInverse: int, rInverse: int, rLess: LessVars, bLess: LessVars, aLess: LessVars,
                                       qLess: LessVars, absLess: LessVars)

  /** Width of a comparison with zero; quotient and remainder take the widths of dividend and divisor. */
  function ZeroBits(o: Operand): (n: nat)
    ensures n >= 2
  {
    SignedDifferenceBits(Variable(true, SignedBits(o)), Constant(0))
  }

  function AbsBits(b: Operand): (n: nat)
    ensures n >= 1
  {
    SignedDifferenceBits(Variable(true, SignedBits(b)), Variable(true, SignedBits(b)))
  }

  lemma DivisionWidths(o: Operand)
    ensures ZeroBits(o) == if SignedBits(o) >= 2 then SignedBits(o) else 2
    ensures AbsBits(o) == SignedBits(o) + 1
  {
  }

  ghost predicate Signs(p: int, ta: Operand, tb: Operand, a: int, b: int, v: DivisionVars)
    requires p > 0
  {
    && NotEqualHolds(p, b, 0, v.bInverse, v.bNonZero)
    && LessThanHolds(p, ZeroBits(tb), v.r, 0, v.rLess, v.rNegative)
    && NotEqualHolds(p, v.r, 0, v.rInverse, v.rNonZero)
    && LessThanHolds(p, ZeroBits(tb), b, 0, v.bLess, v.bNegative)
    && LessThanHolds(p, ZeroBits(ta), a, 0, v.aLess, v.aNegative)
    && LessThanHolds(p, ZeroBits(ta), v.q, 0, v.qLess, v.qNegative)
  }

  ghost predicate Magnitudes(p: int, tb: Operand, b: int, v: DivisionVars)
    requires p > 0
  {
    && Cong(p, v.rNegative * (-2 * v.r) + v.r - v.absR, 0)
    && Cong(p, v.bNegative * (-2 * b) + b - v.absB, 0)
    && LessThanHolds(p, AbsBits(tb), v.absR, v.absB, v.absLess, v.rBelowB)
  }

  ghost predicate Division(p: int, a: int, b: int, v: DivisionVars)
    requires p > 0
  {
    && Cong(p, v.bNonZero * a - v.aOrZero, 0)
    && Cong(p, b * v.q + v.r - v.aOrZero, 0)
    && Cong(p, v.bNonZero * (1 - v.rBelowB), 0)
    && Cong(p, v.rNonZero * (v.rNegative - v.aNegative), 0)
  }

  ghost predicate DivisionHolds(p: int, ta: Operand, tb: Operand, a: int, b: int, v: DivisionVars)
    requires p > 0
  {
    Signs(p, ta, tb, a, b, v) && Magnitudes(p, tb, b, v) && Division(p, a, b, v)
  }

  /** The prime exceeds every value that b * q + r - a takes within the widths. */
  predicate ProductFits(p: int, ta: Operand, tb: Operand) {
    var ha, hb := Pow2(ZeroBits(ta) - 1), Pow2(ZeroBits(tb) - 1);
    p > ha * hb + ha + hb
  }

  lemma OperandWithin(o: Operand, v: int)
    requires InRange(o, v)
    ensures Within(v, Pow2(ZeroBits(o) - 1))
  {
    hide Pow2;
    SignedBitsSuffice(o, v, ZeroBits(o));
  }

  lemma HalfAtLeastTwo(o: Operand)
    ensures Pow2(ZeroBits(o) - 1) >= 2
  {
    Pow2Monotone(1, ZeroBits(o) - 1);
    assert Pow2(1) == 2;
  }

  /** Room for the comparison of magnitudes. */
  lemma AbsRoom(o: Operand)
    requires SignedBits(o) >= 1
    ensures Pow2(ZeroBits(o) - 1) <= Pow2(AbsBits(o) - 1) <= 2 * Pow2(ZeroBits(o) - 1)
  {
    var n, k := AbsBits(o), ZeroBits(o);
    assert k - 1 <= n - 1 <= k;
    Pow2Monotone(k - 1, n - 1);
    Pow2Monotone(n - 1, k);
  }

  /** The sum a flag selects is the magnitude. */
  lemma MagnitudeForced(p: int, x: int, v: int, flag: int, abs: int)
    requires p > 0 && Cong(p, x, v) && Cong(p, flag, Truth(v < 0))
    requires Cong(p, flag * (-2 * x) + x - abs, 0)
    ensures Cong(p, abs, Abs(v))
  {
    hide Cong;
    CongSame(p, -2);
    CongMul(p, -2, -2, x, v);
    CongMul(p, flag, Truth(v < 0), -2 * x, -2 * v);
    CongAdd(p, flag * (-2 * x), Truth(v < 0) * (-2 * v), x, v);
    CongSolve(p, flag * (-2 * x) + x, abs, Abs(v));
  }

  /** Integers that q and r stand for, within their widths. */
  lemma QuotientRange(p: int, ta: Operand, tb: Operand, a: int, b: int, v: DivisionVars) returns (q: int, r: int)
    requires Prime(p) && p > 3 && Signs(p, ta, tb, a, b, v)
    ensures Within(q, Pow2(ZeroBits(ta) - 1)) && Cong(p, v.q, q)
    ensures Within(r, Pow2(ZeroBits(tb) - 1)) && Cong(p, v.r, r) && Cong(p, v.rNegative, Truth(r < 0))
  {
    hide LessThanHolds, NotEqualHolds, Pow2, ZeroBits;
    q := LessThanForces(p, ZeroBits(ta), v.q, 0, v.qLess, v.qNegative);
    r := LessThanForces(p, ZeroBits(tb), v.r, 0, v.rLess, v.rNegative);
  }

  lemma SignForced(p: int, o: Operand, x: int, w: LessVars, target: int)
    requires Prime(p) && InRange(o, x) && p > 2 * Pow2(ZeroBits(o) - 1) &&
        LessThanHolds(p, ZeroBits(o), x, 0, w, target)
    ensures Cong(p, target, Truth(x < 0))
  {
    hide LessThanHolds, ZeroBits;
    OperandWithin(o, x);
    LessThanMeans(p, ZeroBits(o), x, 0, w, target);
  }

  /** The magnitudes compare as integers. */
  lemma BelowForced(p: int, tb: Operand, b: int, r: int, v: DivisionVars)
    requires Prime(p) && InRange(tb, b) && p > 3 * Pow2(ZeroBits(tb) - 1)
    requires Magnitudes(p, tb, b, v) && Within(r, Pow2(ZeroBits(tb) - 1)) && Cong(p, v.r, r) &&
        Cong(p, v.rNegative, Truth(r < 0))
    requires Cong(p, v.bNegative, Truth(b < 0))
    ensures Cong(p, v.rBelowB, Truth(Abs(r) < Abs(b)))
  {
    hide LessThanHolds, Pow2, ZeroBits, AbsBits, Cong, InRange;
    HalfAtLeastTwo(tb);
    SignedBitsSuffice(tb, b, SignedBits(tb));
    AbsRoom(tb);
    OperandWithin(tb, b);
    MagnitudeForced(p, v.r, r, v.rNegative, v.absR);
    CongSame(p, b);
    MagnitudeForced(p, b, b, v.bNegative, v.absB);
    var d := LessThanForces(p, AbsBits(tb), v.absR, v.absB, v.absLess, v.rBelowB);
    DifferenceOf(p, v.absR, v.absB, Abs(r), Abs(b), d);
    CongClose(p, Abs(r) - Abs(b), d);
  }

  lemma DifferenceOf(p: int, x: int, y: int, u: int, v: int, d: int)
    requires p > 0 && Cong(p, x, u) && Cong(p, y, v) && Cong(p, x - y, d)
    ensures Cong(p, u - v, d)
  {
    hide Cong;
    CongSwap(p, x, u);
    CongSwap(p, y, v);
    CongOpposite(p, v, y);
    CongAdd(p, u, x, -v, -y);
    CongTrans(p, u - v, x - y, d);
  }

  /** The product equation holds over the integers. */
  lemma ProductForced(p: int, a: int, b: int, ha: int, hb: int, q: int, r: int, v: DivisionVars)
    requires p > ha * hb + ha + hb && Within(a, ha) && Within(b, hb) && Within(q, ha) && Within(r, hb)
    requires p > 0 && Cong(p, v.q, q) && Cong(p, v.r, r) && Cong(p, v.bNonZero, 1)
    requires Cong(p, v.bNonZero * a - v.aOrZero, 0) && Cong(p, b * v.q + v.r - v.aOrZero, 0)
    ensures a == b * q + r
  {
    hide Cong;
    CongSame(p, a);
    CongMul(p, v.bNonZero, 1, a, a);
    CongSolve(p, v.bNonZero * a, v.aOrZero, a);
    CongSame(p, b);
    CongMul(p, b, b, v.q, q);
    CongAdd(p, b * v.q, b * q, v.r, r);
    CongSolve(p, b * v.q + v.r, v.aOrZero, b * q + r);
    CongSwap(p, v.aOrZero, a);
    CongTrans(p, a, v.aOrZero, b * q + r);
    ProductWithin(b, q, hb, ha);
    CongClose(p, a, b * q + r);
  }

  lemma ProductWithin(x: int, y: int, hx: int, hy: int)
    requires Within(x, hx) && Within(y, hy)
    ensures Within(x * y, hx * hy)
  {
    assert hx * hy - x * y >= 0 by {
      assert (hx - x) * (hy + y) >= 0;
      assert (hx + x) * (hy - y) >= 0;
    }
    assert hx * hy + x * y >= 0 by {
      assert (hx - x) * (hy - y) >= 0;
      assert (hx + x) * (hy + y) >= 0;
    }
  }

  /** Any solution is the truncating quotient and remainder; with a zero divisor the remainder is 0. */
  lemma DivisionForces(p: int, ta: Operand, tb: Operand, a: int, b: int, v: DivisionVars)
    requires Prime(p) && ProductFits(p, ta, tb) && InRange(ta, a) && InRange(tb, b) && DivisionHolds(p, ta, tb, a, b, v)
    ensures b != 0 ==> Cong(p, v.q, Quotient(a, b)) && Cong(p, v.r, Remainder(a, b))
    ensures b == 0 ==> Cong(p, v.r, 0)
  {
    hide LessThanHolds, NotEqualHolds, ZeroBits, Cong, InRange, Quotient, Remainder, Magnitudes, ProductFits;
    if b != 0 {
      NonZeroDivisorForces(p, ta, tb, a, b, v);
    } else {
      CongSame(p, 0);
      NotEqualForces(p, b, 0, v.bInverse, v.bNonZero);
      CongSame(p, a);
      CongMul(p, v.bNonZero, 0, a, a);
      CongSolve(p, v.bNonZero * a, v.aOrZero, 0);
      CongAdd(p, v.r - v.aOrZero, 0, v.aOrZero, 0);
    }
  }

  lemma NonZeroDivisorForces(p: int, ta: Operand, tb: Operand, a: int, b: int, v: DivisionVars)
    requires Prime(p) && ProductFits(p, ta, tb) && InRange(ta, a) && InRange(tb, b) && b != 0
    requires DivisionHolds(p, ta, tb, a, b, v)
    ensures Cong(p, v.q, Quotient(a, b)) && Cong(p, v.r, Remainder(a, b))
  {
    hide LessThanHolds, NotEqualHolds, Pow2, ZeroBits, AbsBits, Cong, InRange, Quotient, Remainder, Prime, Magnitudes;
    var ha, hb := Pow2(ZeroBits(ta) - 1), Pow2(ZeroBits(tb) - 1);
    FitsFacts(p, ta, tb);
    var q, r := QuotientRange(p, ta, tb, a, b, v);
    OperandWithin(ta, a);
    OperandWithin(tb, b);
    SignForced(p, ta, a, v.aLess, v.aNegative);
    SignForced(p, tb, b, v.bLess, v.bNegative);
    BelowForced(p, tb, b, r, v);
    CongSame(p, b);
    NonZeroForced(p, b, b, v.bInverse, v.bNonZero);
    ProductForced(p, a, b, ha, hb, q, r, v);
    Enforced(p, v.bNonZero, 1 - v.rBelowB);
    FlagIsOne(p, v.rBelowB, Abs(r) < Abs(b));
    if r != 0 {
      NonZeroForced(p, v.r, r, v.rInverse, v.rNonZero);
      Enforced(p, v.rNonZero, v.rNegative - v.aNegative);
      FlagsAgree(p, v.rNegative, v.aNegative, r < 0, a < 0);
    }
    QuotientUnique(a, b, q, r);
  }

  lemma FitsFacts(p: int, ta: Operand, tb: Operand)
    requires ProductFits(p, ta, tb)
    ensures p > 3 * Pow2(ZeroBits(ta) - 1) && p > 3 * Pow2(ZeroBits(tb) - 1) && p > 3
  {
    hide Pow2, ZeroBits;
    HalfAtLeastTwo(ta);
    HalfAtLeastTwo(tb);
    var ha, hb := Pow2(ZeroBits(ta) - 1), Pow2(ZeroBits(tb) - 1);
    assert ha * hb >= 2 * hb && ha * hb >= 2 * ha;
  }

  lemma NonZeroForced(p: int, x: int, v: int, m: int, target: int)
    requires Prime(p) && NotEqualHolds(p, x, 0, m, target) && Cong(p, x, v) && v != 0 && Within(v, p - 1)
    ensures Cong(p, target, 1)
  {
    hide NotEqualHolds;
    NotEqualForces(p, x, 0, m, target);
    if Cong(p, x, 0) {
      CongSwap(p, x, v);
      CongTrans(p, v, x, 0);
      CongClose(p, v, 0);
    }
  }

  lemma FlagIsOne(p: int, flag: int, truth: bool)
    requires p > 3 && Cong(p, flag, Truth(truth)) && Cong(p, 1 - flag, 0)
    ensures truth
  {
    CongSolve(p, 1, flag, 1) by { CongSame(p, 1); }
    CongSwap(p, flag, Truth(truth));
    CongTrans(p, Truth(truth), flag, 1);
    CongClose(p, Truth(truth), 1);
  }

  lemma FlagsAgree(p: int, f: int, g: int, s: bool, t: bool)
    requires p > 3 && Cong(p, f, Truth(s)) && Cong(p, g, Truth(t)) && Cong(p, f - g, 0)
    ensures s <==> t
  {
    CongSwap(p, f, Truth(s));
    CongTrans(p, Truth(s), f, g);
    CongTrans(p, Truth(s), g, Truth(t));
    CongClose(p, Truth(s), Truth(t));
  }

  // ----- the prover's worksheet -----

  /** What the prover leaves in the variables of quotient and remainder; a zero divisor leaves them at 0. */
  ghost predicate Divided(a: int, b: int, q: int, r: int) {
    if b == 0 then q == 0 && r == 0 else q == Quotient(a, b) && r == Remainder(a, b)
  }

  /** The worksheet lines of a division, in order. */
  method ComputeDivision(p: int, ta: Operand, tb: Operand, a: int, b: int) returns (v: DivisionVars)
    requires Prime(p) && ProductFits(p, ta, tb) && InRange(ta, a) && InRange(tb, b)
    ensures Divided(a, b, v.q, v.r)
    ensures DivisionHolds(p, ta, tb, a, b, v)
  {
    hide Cong, Prime, InRange, LessThanHolds, NotEqualHolds, Quotient, Remainder, ZeroBits, AbsBits, Pow2;
    var q, r := 0, 0;
    if b != 0 {
      q := Quotient(a, b);
      r := Remainder(a, b);
    }
    WorksheetFits(p, ta, tb, a, b, q, r);
    var bInverse, bNonZero := ComputeNotEqual(p, b, 0);
    var rLess, rNegative := Compare(r, 0, ZeroBits(tb));
    var rInverse, rNonZero := ComputeNotEqual(p, r, 0);
    var bLess, bNegative := Compare(b, 0, ZeroBits(tb));
    var aLess, aNegative := Compare(a, 0, ZeroBits(ta));
    var qLess, qNegative := Compare(q, 0, ZeroBits(ta));
    var absR := rNegative * (-2 * r) + r;
    var absB := bNegative * (-2 * b) + b;
    var absLess, rBelowB := Compare(absR, absB, AbsBits(tb));
    var aOrZero := bNonZero * a;
    v := DivisionVars(q, r, bNonZero, rNonZero, rNegative, bNegative, aNegative, qNegative, absR, absB, rBelowB,
                      aOrZero, bInverse, rInverse, rLess, bLess, aLess, qLess, absLess);
    WorksheetSigns(p, ta, tb, a, b, v);
    WorksheetMagnitudes(p, tb, b, v);
    WorksheetDivision(p, a, b, v);
  }

  lemma WorksheetFits(p: int, ta: Operand, tb: Operand, a: int, b: int, q: int, r: int)
    requires ProductFits(p, ta, tb) && InRange(ta, a) && InRange(tb, b) && Divided(a, b, q, r)
    ensures Within(q, Pow2(ZeroBits(ta) - 1)) && Within(a, Pow2(ZeroBits(ta) - 1))
    ensures Within(r, Pow2(ZeroBits(tb) - 1)) && Within(b, Pow2(ZeroBits(tb) - 1))
    ensures Within(b, p - 1) && Within(r, p - 1)
    ensures b != 0 ==> Abs(r) < Abs(b)
    ensures Within(Abs(r) - Abs(b), Pow2(AbsBits(tb) - 1))
  {
    hide InRange, Quotient, Remainder, ZeroBits, AbsBits, Pow2;
    OperandWithin(ta, a);
    OperandWithin(tb, b);
    if b != 0 { QuotientLaw(a, b); }
    FitsFacts(p, ta, tb);
    HalfAtLeastTwo(ta);
    HalfAtLeastTwo(tb);
    SignedBitsSuffice(tb, b, SignedBits(tb));
    AbsRoom(tb);
  }

  lemma WorksheetSigns(p: int, ta: Operand, tb: Operand, a: int, b: int, v: DivisionVars)
    requires p > 0
    requires NotEqualHolds(p, b, 0, v.bInverse, v.bNonZero) && NotEqualHolds(p, v.r, 0, v.rInverse, v.rNonZero)
    requires forall p | p > 0 :: LessThanHolds(p, ZeroBits(tb), v.r, 0, v.rLess, v.rNegative)
    requires forall p | p > 0 :: LessThanHolds(p, ZeroBits(tb), b, 0, v.bLess, v.bNegative)
    requires forall p | p > 0 :: LessThanHolds(p, ZeroBits(ta), a, 0, v.aLess, v.aNegative)
    requires forall p | p > 0 :: LessThanHolds(p, ZeroBits(ta), v.q, 0, v.qLess, v.qNegative)
    ensures Signs(p, ta, tb, a, b, v)
  {
    hide LessThanHolds, NotEqualHolds;
  }

  lemma WorksheetMagnitudes(p: int, tb: Operand, b: int, v: DivisionVars)
    requires p > 0
    requires v.absR == v.rNegative * (-2 * v.r) + v.r && v.absB == v.bNegative * (-2 * b) + b
    requires forall p | p > 0 :: LessThanHolds(p, AbsBits(tb), v.absR, v.absB, v.absLess, v.rBelowB)
    ensures Magnitudes(p, tb, b, v)
  {
    hide LessThanHolds, Cong;
    CongSame(p, 0);
  }

  lemma WorksheetDivision(p: int, a: int, b: int, v: DivisionVars)
    requires p > 0 && Divided(a, b, v.q, v.r) && (b != 0 ==> v.rBelowB == 1)
    requires v.bNonZero == Truth(b != 0) && v.rNonZero == Truth(v.r != 0) && v.aOrZero == v.bNonZero * a
    requires v.rNegative == Truth(v.r < 0) && v.aNegative == Truth(a < 0)
    ensures Division(p, a, b, v)
  {
    hide Cong, Quotient, Remainder;
    CongSame(p, 0);
    if b != 0 { QuotientLaw(a, b); }
  }
}
