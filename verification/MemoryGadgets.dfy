/**
 The comparisons inside the memory checks down to their own constraints: the gadgets of module Gadgets force the 0 and 1
 that module MemoryCheck works with.
 */
module MemoryGadgets {
  import opened Field
  import opened Gadgets
  import opened MemoryCheck
  import opened MemoryOp
  import opened Powers

  /** The types of addresses and times, and a bound on the magnitude of values and kinds. */
  datatype Widths = Widths(addr: Operand, time: Operand, bound: int)

  ghost predicate Fits(ws: Widths, op: MemOp) {
    && InRange(ws.addr, op.addr) && InRange(ws.time, op.timestamp)
    && Within(op.kind, ws.bound) && Within(op.value, ws.bound) && Within(op.addr, ws.bound)
  }

  /** The prime exceeds the comparisons of addresses and times and every difference that is tested for zero. */
  ghost predicate Room(p: int, ws: Widths) {
    && Prime(p) && p > 2 * ws.bound
    && p > Pow2(SignedDifferenceBits(ws.addr, ws.addr)) && p > Pow2(SignedDifferenceBits(ws.time, ws.time))
  }

  /** The variables inside the comparisons of a pair. */
  datatype PairInner = PairInner(addrLess: LessVars, timeLess: LessVars, notLoad: int, nonZero: int, addrDiffer: int,
                                 notLoadToo: int, differ: int)

  ghost predicate PairConstraints(p: int, ws: Widths, a: MemOp, b: MemOp, v: PairVars, x: PairInner)
    requires p > 0
  {
    && SignedDifferenceBits(ws.addr, ws.addr) >= 1 && SignedDifferenceBits(ws.time, ws.time) >= 1
    && LessThanHolds(p, SignedDifferenceBits(ws.addr, ws.addr), a.addr, b.addr, x.addrLess, v.addrLess)
    && NotEqualHolds(p, b.kind, LOAD, x.notLoad, v.notLoad)
    && NotEqualHolds(p, b.value, 0, x.nonZero, v.nonZero)
    && NotEqualHolds(p, a.addr, b.addr, x.addrDiffer, v.addrDiffer)
    && LessThanHolds(p, SignedDifferenceBits(ws.time, ws.time), a.timestamp, b.timestamp, x.timeLess, v.timeLess)
    && NotEqualHolds(p, b.kind, LOAD, x.notLoadToo, v.notLoadToo)
    && NotEqualHolds(p, a.value, b.value, x.differ, v.differ)
    && PairProducts(p, v)
  }

  lemma Differs(p: int, x: int, y: int, m: int, target: int)
    requires Prime(p) && Within(x - y, p - 1) && NotEqualHolds(p, x, y, m, target)
    ensures Cong(p, target, Truth(x != y))
  {
    hide NotEqualHolds;
    NotEqualForces(p, x, y, m, target);
    if Cong(p, x, y) {
      CongClose(p, x, y);
    } else {
      CongSame(p, x);
    }
  }

  /** The constraints of a pair, with nothing taken for granted, force its order and what its load carries. */
  lemma PairConstraintsMean(p: int, ws: Widths, a: MemOp, b: MemOp, v: PairVars, x: PairInner)
    requires Room(p, ws) && Fits(ws, a) && Fits(ws, b) && PairConstraints(p, ws, a, b, v, x)
    ensures PairOk(a, b)
  {
    hide LessThanHolds, NotEqualHolds, Cong, InRange, SignedDifferenceBits, PairProducts, Pow2;
    LessThanDecides(p, ws.addr, ws.addr, a.addr, b.addr, x.addrLess, v.addrLess);
    LessThanDecides(p, ws.time, ws.time, a.timestamp, b.timestamp, x.timeLess, v.timeLess);
    Differs(p, b.kind, LOAD, x.notLoad, v.notLoad);
    Differs(p, b.value, 0, x.nonZero, v.nonZero);
    Differs(p, a.addr, b.addr, x.addrDiffer, v.addrDiffer);
    Differs(p, b.kind, LOAD, x.notLoadToo, v.notLoadToo);
    Differs(p, a.value, b.value, x.differ, v.differ);
    PairMeans(p, a, b, v);
  }

  ghost predicate FirstConstraints(p: int, op: MemOp, v: FirstVars, notLoad: int, nonZero: int)
    requires p > 0
  {
    && NotEqualHolds(p, op.kind, LOAD, notLoad, v.notLoad)
    && NotEqualHolds(p, op.value, 0, nonZero, v.nonZero)
    && Cong(p, (-v.notLoad + 1) * -v.nonZero + 1 - v.fine, 0)
    && Cong(p, v.fine - 1 - v.off, 0)
    && Cong(p, v.off, 0)
  }

  lemma FirstConstraintsMean(p: int, ws: Widths, op: MemOp, v: FirstVars, notLoad: int, nonZero: int)
    requires Room(p, ws) && Fits(ws, op) && FirstConstraints(p, op, v, notLoad, nonZero)
    ensures FirstOk(op)
  {
    hide NotEqualHolds, Cong, InRange, SignedDifferenceBits, Pow2;
    Differs(p, op.kind, LOAD, notLoad, v.notLoad);
    Differs(p, op.value, 0, nonZero, v.nonZero);
    FirstMeans(p, op, v);
  }

  /** All constraints of the memory checks on an output sequence. */
  ghost predicate AllConstraints(p: int, ws: Widths, s: seq<MemOp>, first: FirstVars, notLoad: int, nonZero: int,
                                 pairs: seq<PairVars>, inner: seq<PairInner>)
    requires p > 0
  {
    && |pairs| == |inner| && |pairs| + 1 == |s|
    && FirstConstraints(p, s[0], first, notLoad, nonZero)
    && forall k :: 0 <= k < |pairs| ==> PairConstraints(p, ws, s[k], s[k + 1], pairs[k], inner[k])
  }

  /** Soundness from the constraints alone: the outputs are sorted and every load carries what it should. */
  lemma ConstraintsForceOrder(p: int, ws: Widths, s: seq<MemOp>, first: FirstVars, notLoad: int, nonZero: int,
                              pairs: seq<PairVars>, inner: seq<PairInner>)
    requires Room(p, ws) && (forall k :: 0 <= k < |s| ==> Fits(ws, s[k]))
    requires AllConstraints(p, ws, s, first, notLoad, nonZero, pairs, inner)
    ensures Sorted(s) && LoadsCarry(s)
  {
    hide PairConstraints, FirstConstraints, Room, Fits, PairOk, FirstOk, Sorted, LoadsCarry;
    FirstConstraintsMean(p, ws, s[0], first, notLoad, nonZero);
    forall k | 0 <= k < |s| - 1 ensures PairOk(s[k], s[k + 1]) {
      PairConstraintsMean(p, ws, s[k], s[k + 1], pairs[k], inner[k]);
    }
    NeighboursMean(s);
  }

  // ----- the prover -----

  /** The variables inside the comparisons of a pair that is in order. */
  method FillPair(p: int, ws: Widths, a: MemOp, b: MemOp) returns (x: PairInner)
    requires Room(p, ws) && Fits(ws, a) && Fits(ws, b) && PairOk(a, b)
    ensures PairConstraints(p, ws, a, b, FilledPair(a, b), x)
  {
    hide LessThanHolds, NotEqualHolds, Cong, InRange, SignedDifferenceBits, Pow2;
    WidthSuffices(ws.addr, ws.addr, a.addr, b.addr);
    WidthSuffices(ws.time, ws.time, a.timestamp, b.timestamp);
    var addrLess, _ := Compare(a.addr, b.addr, SignedDifferenceBits(ws.addr, ws.addr));
    var timeLess, _ := Compare(a.timestamp, b.timestamp, SignedDifferenceBits(ws.time, ws.time));
    var notLoad, _ := ComputeNotEqual(p, b.kind, LOAD);
    var nonZero, _ := ComputeNotEqual(p, b.value, 0);
    var addrDiffer, _ := ComputeNotEqual(p, a.addr, b.addr);
    var differ, _ := ComputeNotEqual(p, a.value, b.value);
    x := PairInner(addrLess, timeLess, notLoad, nonZero, addrDiffer, notLoad, differ);
    PairFills(p, a, b);
  }

  method FillFirst(p: int, ws: Widths, op: MemOp) returns (notLoad: int, nonZero: int)
    requires Room(p, ws) && Fits(ws, op) && FirstOk(op)
    ensures FirstConstraints(p, op, FilledFirst(op), notLoad, nonZero)
  {
    hide NotEqualHolds, Cong, InRange, SignedDifferenceBits, Pow2;
    var target;
    notLoad, target := ComputeNotEqual(p, op.kind, LOAD);
    nonZero, target := ComputeNotEqual(p, op.value, 0);
    FirstFills(p, op);
  }

  /** Completeness down to the constraints: outputs in order with loads that carry what they should satisfy them all. */
  method FillConstraints(p: int, ws: Widths, s: seq<MemOp>) returns (notLoad: int, nonZero: int, inner: seq<PairInner>)
    requires Room(p, ws) && |s| >= 1 && (forall k :: 0 <= k < |s| ==> Fits(ws, s[k]))
    requires Sorted(s) && LoadsCarry(s)
    ensures AllConstraints(p, ws, s, FilledFirst(s[0]), notLoad, nonZero, FilledPairs(s), inner)
  {
    hide PairConstraints, FirstConstraints, Fits, PairOk, FirstOk, FilledPair, FilledFirst, Sorted, LoadsCarry, Pow2;
    NeighboursMean(s);
    notLoad, nonZero := FillFirst(p, ws, s[0]);
    inner := [];
    while |inner| < |s| - 1
      invariant |inner| <= |s| - 1
      invariant forall k :: 0 <= k < |inner| ==>
        PairConstraints(p, ws, s[k], s[k + 1], FilledPair(s[k], s[k + 1]), inner[k])
    {
      var x := FillPair(p, ws, s[|inner|], s[|inner| + 1]);
      inner := inner + [x];
    }
  }
}
