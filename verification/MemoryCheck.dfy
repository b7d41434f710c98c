/**
 Offline memory checking.  The compiler sorts the recorded memory operations by address and time and emits one
 group of constraints for the first of them and one for each neighbouring pair.
 */
module MemoryCheck {
  import opened Field
  import opened Gadgets
  import opened MemoryOp

  const LOAD := 0
  const STORE := 1
  const NO_OP := 2

  // ----- the constraints -----

  /** Variables of the check on the first operation. */
  datatype FirstVars = FirstVars(notLoad: int, nonZero: int, fine: int, off: int)

  ghost predicate FirstHolds(p: int, op: MemOp, v: FirstVars)
    requires p > 0
  {
    && Cong(p, v.notLoad, Truth(op.kind != LOAD))
    && Cong(p, v.nonZero, Truth(op.value != 0))
    && Cong(p, (-v.notLoad + 1) * -v.nonZero + 1 - v.fine, 0)
    && Cong(p, v.fine - 1 - v.off, 0)
    && Cong(p, v.off, 0)
  }

  /** Variables of the check on a neighbouring pair, in the order of their computation. */
  datatype PairVars = PairVars(addrLess: int, notLoad: int, nonZero: int, addrDiffer: int, timeLess: int, later: int,
                               notLoadToo: int, differ: int, carried: int, same: int, unseen: int, fine: int, off: int)

  /** The variables that the comparisons fill in. */
  ghost predicate PairComparisons(p: int, a: MemOp, b: MemOp, v: PairVars)
    requires p > 0
  {
    && Cong(p, v.addrLess, Truth(a.addr < b.addr))
    && Cong(p, v.notLoad, Truth(b.kind != LOAD))
    && Cong(p, v.nonZero, Truth(b.value != 0))
    && Cong(p, v.addrDiffer, Truth(a.addr != b.addr))
    && Cong(p, v.timeLess, Truth(a.timestamp < b.timestamp))
    && Cong(p, v.notLoadToo, Truth(b.kind != LOAD))
    && Cong(p, v.differ, Truth(a.value != b.value))
  }

  ghost predicate PairProducts(p: int, v: PairVars)
    requires p > 0
  {
    && Cong(p, v.timeLess * (-v.addrDiffer + 1) - v.later, 0)
    && Cong(p, (-v.notLoadToo + 1) * -v.differ + 1 - v.carried, 0)
    && Cong(p, v.later * v.carried - v.same, 0)
    && Cong(p, (-v.notLoad + 1) * -v.nonZero + (-v.same + 1) - v.unseen, 0)
    && Cong(p, v.addrLess * v.unseen + v.same - v.fine, 0)
    && Cong(p, v.fine - 1 - v.off, 0)
    && Cong(p, v.off, 0)
  }

  ghost predicate PairHolds(p: int, a: MemOp, b: MemOp, v: PairVars)
    requires p > 0
  {
    PairComparisons(p, a, b, v) && PairProducts(p, v)
  }

  ghost predicate ChecksHold(p: int, s: seq<MemOp>, first: FirstVars, pairs: seq<PairVars>)
    requires p > 0
  {
    && |pairs| + 1 == |s|
    && FirstHolds(p, s[0], first)
    && forall k :: 0 <= k < |pairs| ==> PairHolds(p, s[k], s[k + 1], pairs[k])
  }

  // ----- what one group means -----

  predicate FirstOk(op: MemOp) {
    op.kind == LOAD ==> op.value == 0
  }

  predicate Before(a: MemOp, b: MemOp) {
    a.addr < b.addr || (a.addr == b.addr && a.timestamp < b.timestamp)
  }

  predicate PairOk(a: MemOp, b: MemOp) {
    && Before(a, b)
    && (b.kind == LOAD ==> b.value == if a.addr == b.addr then a.value else 0)
  }

  /** The prover's values, as its worksheet lines compute them. */
  function FilledFirst(op: MemOp): FirstVars {
    var notLoad, nonZero := Truth(op.kind != LOAD), Truth(op.value != 0);
    var fine := (-notLoad + 1) * -nonZero + 1;
    FirstVars(notLoad, nonZero, fine, fine - 1)
  }

  function FilledPair(a: MemOp, b: MemOp): PairVars {
    var addrLess, addrDiffer := Truth(a.addr < b.addr), Truth(a.addr != b.addr);
    var notLoad, nonZero := Truth(b.kind != LOAD), Truth(b.value != 0);
    var timeLess, differ := Truth(a.timestamp < b.timestamp), Truth(a.value != b.value);
    var later := timeLess * (-addrDiffer + 1);
    var carried := (-notLoad + 1) * -differ + 1;
    var same := later * carried;
    var unseen := (-notLoad + 1) * -nonZero + (-same + 1);
    var fine := addrLess * unseen + same;
    PairVars(addrLess, notLoad, nonZero, addrDiffer, timeLess, later, notLoad, differ, carried, same, unseen, fine,
        fine - 1)
  }

  lemma FilledFirstFine(op: MemOp)
    ensures FilledFirst(op).fine == Truth(FirstOk(op))
  {
    if op.kind == LOAD {
      assert FilledFirst(op).fine == -Truth(op.value != 0) + 1;
    }
  }

  lemma FirstMeans(p: int, op: MemOp, v: FirstVars)
    requires p > 1 && FirstHolds(p, op, v)
    ensures FirstOk(op)
  {
    hide Cong;
    FilledFirstFine(op);
    var w := FilledFirst(op);
    Selected(p, v.notLoad, w.notLoad, v.nonZero, w.nonZero);
    CongSolve(p, (-v.notLoad + 1) * -v.nonZero + 1, v.fine, w.fine);
    IsOne(p, v.fine, w.fine, v.off);
  }

  /** The factor 1 - f switches a penalty d on. */
  lemma Selected(p: int, f: int, f': int, d: int, d': int)
    requires p > 0 && Cong(p, f, f') && Cong(p, d, d')
    ensures Cong(p, (-f + 1) * -d + 1, (-f' + 1) * -d' + 1)
  {
    hide Cong;
    CongSame(p, 1);
    CongOpposite(p, f, f');
    CongAdd(p, -f, -f', 1, 1);
    CongOpposite(p, d, d');
    CongMul(p, -f + 1, -f' + 1, -d, -d');
    CongAdd(p, (-f + 1) * -d, (-f' + 1) * -d', 1, 1);
  }

  /** A result required to be 1 that stands for 0 or 1 is 1. */
  lemma IsOne(p: int, fine: int, value: int, off: int)
    requires p > 1 && Cong(p, fine, value) && 0 <= value <= 1 && Cong(p, fine - 1 - off, 0) && Cong(p, off, 0)
    ensures value == 1
  {
    hide Cong;
    CongAdd(p, fine - 1 - off, 0, off, 0);
    CongSolve(p, fine, 1, value) by { assert Cong(p, fine - 1, 0); }
    CongClose(p, 1, value);
  }

  lemma FirstFills(p: int, op: MemOp)
    requires p > 0 && FirstOk(op)
    ensures FirstHolds(p, op, FilledFirst(op))
  {
    hide Cong;
    FilledFirstFine(op);
    var v := FilledFirst(op);
    CongSame(p, v.notLoad);
    CongSame(p, v.nonZero);
    CongSame(p, 0);
  }

  lemma PairLaterForced(p: int, v: PairVars, w: PairVars)
    requires p > 0 && Cong(p, v.timeLess, w.timeLess) && Cong(p, v.addrDiffer, w.addrDiffer)
    requires w.later == w.timeLess * (-w.addrDiffer + 1) && Cong(p, v.timeLess * (-v.addrDiffer + 1) - v.later, 0)
    ensures Cong(p, v.later, w.later)
  {
    hide Cong;
    CongSame(p, 1);
    CongOpposite(p, v.addrDiffer, w.addrDiffer);
    CongAdd(p, -v.addrDiffer, -w.addrDiffer, 1, 1);
    CongMul(p, v.timeLess, w.timeLess, -v.addrDiffer + 1, -w.addrDiffer + 1);
    CongSolve(p, v.timeLess * (-v.addrDiffer + 1), v.later, w.later);
  }

  lemma PairUnseenForced(p: int, v: PairVars, w: PairVars)
    requires p > 0 && Cong(p, v.notLoad, w.notLoad) && Cong(p, v.nonZero, w.nonZero) && Cong(p, v.same, w.same)
    requires w.unseen == (-w.notLoad + 1) * -w.nonZero + (-w.same + 1)
    requires Cong(p, (-v.notLoad + 1) * -v.nonZero + (-v.same + 1) - v.unseen, 0)
    ensures Cong(p, v.unseen, w.unseen)
  {
    hide Cong;
    Selected(p, v.notLoad, w.notLoad, v.nonZero, w.nonZero);
    CongOpposite(p, v.same, w.same);
    CongAdd(p, (-v.notLoad + 1) * -v.nonZero + 1, (-w.notLoad + 1) * -w.nonZero + 1, -v.same, -w.same);
    CongSolve(p, (-v.notLoad + 1) * -v.nonZero + 1 - v.same, v.unseen, w.unseen);
  }

  /** Every solution agrees with the prover's values. */
  lemma PairForced(p: int, a: MemOp, b: MemOp, v: PairVars)
    requires p > 0 && PairHolds(p, a, b, v)
    ensures Cong(p, v.fine, FilledPair(a, b).fine)
  {
    hide Cong;
    var w := FilledPair(a, b);
    PairLaterForced(p, v, w);
    Selected(p, v.notLoadToo, w.notLoad, v.differ, w.differ);
    CongSolve(p, (-v.notLoadToo + 1) * -v.differ + 1, v.carried, w.carried);
    CongMul(p, v.later, w.later, v.carried, w.carried);
    CongSolve(p, v.later * v.carried, v.same, w.same);
    PairUnseenForced(p, v, w);
    CongMul(p, v.addrLess, w.addrLess, v.unseen, w.unseen);
    CongAdd(p, v.addrLess * v.unseen, w.addrLess * w.unseen, v.same, w.same);
    CongSolve(p, v.addrLess * v.unseen + v.same, v.fine, w.fine);
  }

  lemma FilledPairFine(a: MemOp, b: MemOp)
    ensures FilledPair(a, b).fine == Truth(PairOk(a, b))
  {
    var w := FilledPair(a, b);
    assert w.later == Truth(a.addr == b.addr && a.timestamp < b.timestamp);
    assert w.carried == Truth(b.kind == LOAD ==> a.value == b.value);
    assert w.same == Truth(a.addr == b.addr && a.timestamp < b.timestamp && (b.kind == LOAD ==> a.value == b.value));
  }

  lemma PairMeans(p: int, a: MemOp, b: MemOp, v: PairVars)
    requires p > 1 && PairHolds(p, a, b, v)
    ensures PairOk(a, b)
  {
    hide Cong, FilledPair;
    PairForced(p, a, b, v);
    FilledPairFine(a, b);
    IsOne(p, v.fine, FilledPair(a, b).fine, v.off);
  }

  lemma PairFills(p: int, a: MemOp, b: MemOp)
    requires p > 0 && PairOk(a, b)
    ensures PairHolds(p, a, b, FilledPair(a, b))
  {
    hide Cong;
    FilledPairFine(a, b);
    CongSame(p, 0);
    CongSame(p, 1);
  }

  // ----- whole traces -----

  predicate Sorted(s: seq<MemOp>) {
    forall i, j :: 0 <= i < j < |s| ==> Before(s[i], s[j])
  }

  /** Operation i is an earlier one on the address of operation j. */
  predicate Earlier(t: seq<MemOp>, i: int, j: int)
    requires 0 <= i < |t| && 0 <= j < |t|
  {
    t[i].addr == t[j].addr && t[i].timestamp < t[j].timestamp
  }

  /** Of the earlier operations on the address of j, i is the latest. */
  predicate Latest(t: seq<MemOp>, i: int, j: int)
    requires 0 <= i < |t| && 0 <= j < |t|
  {
    && Earlier(t, i, j)
    && forall k :: 0 <= k < |t| && Earlier(t, k, j) ==> t[k].timestamp <= t[i].timestamp
  }

  /** Operation j carries the value of the latest earlier operation on its address, or 0 if there is none. */
  predicate Carries(t: seq<MemOp>, j: int)
    requires 0 <= j < |t|
  {
    || (t[j].value == 0 && forall k :: 0 <= k < |t| ==> !Earlier(t, k, j))
    || (exists i :: 0 <= i < |t| && Latest(t, i, j) && t[i].value == t[j].value)
  }

  predicate LoadsCarry(t: seq<MemOp>) {
    forall j :: 0 <= j < |t| && t[j].kind == LOAD ==> Carries(t, j)
  }

  predicate NeighboursOk(s: seq<MemOp>) {
    && (|s| > 0 ==> FirstOk(s[0]))
    && forall k :: 0 <= k < |s| - 1 ==> PairOk(s[k], s[k + 1])
  }

  lemma {:induction false} ChainSorted(s: seq<MemOp>, i: nat, j: nat)
    requires NeighboursOk(s) && i < j < |s|
    ensures Before(s[i], s[j])
    decreases j
  {
    assert PairOk(s[j - 1], s[j - 1 + 1]);
    if i < j - 1 { ChainSorted(s, i, j - 1); }
  }

  /** In a sorted trace the latest earlier operation on an address is the neighbour, if any is. */
  lemma NeighbourIsLatest(s: seq<MemOp>, j: nat)
    requires Sorted(s) && 0 < j < |s|
    ensures s[j - 1].addr == s[j].addr ==> Latest(s, j - 1, j)
    ensures s[j - 1].addr != s[j].addr ==> forall k :: 0 <= k < |s| ==> !Earlier(s, k, j)
  {
    forall k | 0 <= k < |s| && Earlier(s, k, j)
      ensures s[j - 1].addr == s[j].addr && s[k].timestamp <= s[j - 1].timestamp
    {
      assert Before(s[j - 1], s[j]);
      if k < j - 1 { assert Before(s[k], s[j - 1]); }
    }
  }

  lemma FirstHasNoEarlier(s: seq<MemOp>)
    requires Sorted(s) && |s| > 0
    ensures forall k :: 0 <= k < |s| ==> !Earlier(s, k, 0)
  {
    forall k | 0 <= k < |s| ensures !Earlier(s, k, 0) {
      if k > 0 { assert Before(s[0], s[k]); }
    }
  }

  /** What an operation carries, seen from its neighbour in a sorted trace. */
  lemma CarriesSorted(s: seq<MemOp>, j: nat)
    requires Sorted(s) && j < |s|
    ensures Carries(s, j) <==> s[j].value == (if j > 0 && s[j - 1].addr == s[j].addr then s[j - 1].value else 0)
  {
    if j == 0 {
      FirstHasNoEarlier(s);
    } else {
      NeighbourIsLatest(s, j);
      if s[j - 1].addr == s[j].addr && Carries(s, j) {
        var i :| 0 <= i < |s| && Latest(s, i, j) && s[i].value == s[j].value;
        SameTime(s, i, j - 1, j);
      }
    }
  }

  lemma SameTime(s: seq<MemOp>, i: nat, k: nat, j: nat)
    requires Sorted(s) && i < |s| && k < |s| && j < |s| && Latest(s, i, j) && Latest(s, k, j)
    ensures i == k
  {
  }

  lemma NeighboursMean(s: seq<MemOp>)
    ensures NeighboursOk(s) <==> Sorted(s) && LoadsCarry(s)
  {
    hide Carries;
    if NeighboursOk(s) {
      forall i, j | 0 <= i < j < |s| ensures Before(s[i], s[j]) { ChainSorted(s, i, j); }
      forall j | 0 <= j < |s| && s[j].kind == LOAD ensures Carries(s, j) {
        CarriesSorted(s, j);
        if j > 0 { assert PairOk(s[j - 1], s[j - 1 + 1]); }
      }
    }
    if Sorted(s) && LoadsCarry(s) {
      if |s| > 0 { CarriesSorted(s, 0); }
      forall k | 0 <= k < |s| - 1 ensures PairOk(s[k], s[k + 1]) { CarriesSorted(s, k + 1); }
    }
  }

  /** The same operations in another order. */
  ghost predicate Reordering(s: seq<MemOp>, t: seq<MemOp>) {
    multiset(s) == multiset(t)
  }

  lemma SameOps(s: seq<MemOp>, t: seq<MemOp>, i: nat) returns (k: nat)
    requires Reordering(s, t) && i < |s|
    ensures k < |t| && t[k] == s[i]
  {
    assert s[i] in multiset(s);
    assert s[i] in multiset(t);
    k :| 0 <= k < |t| && t[k] == s[i];
  }

  /** What an operation carries does not depend on the order in which the trace is listed. */
  lemma CarriesReordered(s: seq<MemOp>, t: seq<MemOp>, j: nat, k: nat)
    requires Reordering(s, t) && j < |s| && k < |t| && s[j] == t[k] && Carries(s, j)
    ensures Carries(t, k)
  {
    if exists i :: 0 <= i < |s| && Latest(s, i, j) && s[i].value == s[j].value {
      var i :| 0 <= i < |s| && Latest(s, i, j) && s[i].value == s[j].value;
      var i' := SameOps(s, t, i);
      forall m | 0 <= m < |t| && Earlier(t, m, k) ensures t[m].timestamp <= t[i'].timestamp {
        var m' := SameOps(t, s, m);
        assert Earlier(s, m', j);
      }
      assert Latest(t, i', k);
    } else {
      forall m | 0 <= m < |t| ensures !Earlier(t, m, k) {
        var m' := SameOps(t, s, m);
        assert !Earlier(s, m', j);
      }
    }
  }

  lemma LoadsCarryReordered(s: seq<MemOp>, t: seq<MemOp>)
    requires Reordering(s, t) && LoadsCarry(s)
    ensures LoadsCarry(t)
  {
    hide Carries;
    forall k | 0 <= k < |t| && t[k].kind == LOAD ensures Carries(t, k) {
      var j := SameOps(t, s, k);
      CarriesReordered(s, t, j, k);
    }
  }

  function FilledPairs(s: seq<MemOp>): (r: seq<PairVars>)
    requires |s| >= 1
    ensures |r| == |s| - 1 && forall k :: 0 <= k < |r| ==> r[k] == FilledPair(s[k], s[k + 1])
  {
    seq(|s| - 1, k requires 0 <= k < |s| - 1 => FilledPair(s[k], s[k + 1]))
  }

  lemma ChecksForce(p: int, s: seq<MemOp>, first: FirstVars, pairs: seq<PairVars>)
    requires p > 1 && ChecksHold(p, s, first, pairs)
    ensures NeighboursOk(s)
  {
    hide FirstHolds, PairHolds;
    FirstMeans(p, s[0], first);
    forall k | 0 <= k < |s| - 1 ensures PairOk(s[k], s[k + 1]) { PairMeans(p, s[k], s[k + 1], pairs[k]); }
  }

  lemma ChecksFill(p: int, s: seq<MemOp>)
    requires p > 1 && |s| >= 1 && NeighboursOk(s)
    ensures ChecksHold(p, s, FilledFirst(s[0]), FilledPairs(s))
  {
    hide FirstHolds, PairHolds, FilledPair, FilledFirst;
    FirstFills(p, s[0]);
    forall k | 0 <= k < |s| - 1 ensures PairHolds(p, s[k], s[k + 1],
        FilledPair(s[k], s[k + 1])) { PairFills(p, s[k], s[k + 1]); }
  }

  /**
   Memory checking.  For any reordering `s` of a recorded trace `t`, some values satisfy all the emitted checks if
   and only if `s` is strictly sorted by address and time and every load of `t` carries the value of the latest
   earlier operation on its address, or 0; in that case the prover's values do.
   */
  lemma MemoryChecked(p: int, s: seq<MemOp>, t: seq<MemOp>)
    requires p > 1 && |s| >= 1 && Reordering(s, t)
    ensures (exists first, pairs :: ChecksHold(p, s, first, pairs)) <==> Sorted(s) && LoadsCarry(t)
    ensures Sorted(s) && LoadsCarry(t) ==> ChecksHold(p, s, FilledFirst(s[0]), FilledPairs(s))
  {
    hide ChecksHold, LoadsCarry, Sorted, NeighboursOk, FilledFirst, FilledPairs;
    NeighboursMean(s);
    if first, pairs :| ChecksHold(p, s, first, pairs) {
      ChecksForce(p, s, first, pairs);
      LoadsCarryReordered(s, t);
    }
    if Sorted(s) && LoadsCarry(t) {
      LoadsCarryReordered(t, s);
      ChecksFill(p, s);
    }
  }
}
