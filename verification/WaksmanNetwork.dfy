/**
 The shape of the Waksman permutation network: how many switches and wires a width needs,
 in which slices of the flat switch and wire arrays a network and its two subnetworks live,
 what the network computes, and what its switch equations mean.
 */
module WaksmanNetwork {
  import opened Powers

  // ----- switch and wire counts -----

  /** Switches of a network of width `n`: the sum of ceil(log2 i) for i = 1, ..., n. */
  function LogSum(n: nat): nat {
    if n == 0 then 0 else LogSum(n - 1) + CeilLog2(n)
  }

  /** The same count, taken apart along the recursive construction. */
  function Switches(n: nat): nat {
    if n <= 1 then 0 else n - 1 + Switches(n / 2) + Switches((n + 1) / 2)
  }

  lemma SwitchesAt(t: nat, b: nat)
    requires 1 <= t <= b <= t + 1
    ensures Switches(t + b) == t + b - 1 + Switches(t) + Switches(b)
    ensures CeilLog2(t + b) == 1 + CeilLog2(b)
  {
    assert (t + b) / 2 == t && (t + b + 1) / 2 == b;
  }

  lemma {:induction false} SwitchesStep(n: nat)
    requires n >= 1
    ensures Switches(n) == Switches(n - 1) + CeilLog2(n)
  {
    hide Switches, CeilLog2;
    if n >= 3 {
      var t, b := n / 2, (n + 1) / 2;
      SwitchesAt(t, b);
      SwitchesAt(if t == b then t - 1 else t, t);
      SwitchesStep(b);
    } else {
      SwitchesSmall();
    }
  }

  lemma SwitchesSmall()
    ensures Switches(0) == 0 && Switches(1) == 0 && Switches(2) == 1 && CeilLog2(1) == 0 && CeilLog2(2) == 1
  {
    assert CeilLog2(2) == 1 + CeilLog2(1);
    SwitchesAt(1, 1);
  }

  lemma {:induction false} LogSumIsSwitches(n: nat)
    ensures LogSum(n) == Switches(n)
  {
    if n > 0 {
      LogSumIsSwitches(n - 1);
      SwitchesStep(n);
    }
  }

  method NumSwitches(n: nat) returns (count: nat)
    ensures count == Switches(n)
  {
    count := 0;
    var i := 1;
    while i <= n
      invariant 1 <= i <= n + 1 && count == Switches(i - 1)
    {
      SwitchesStep(i);
      count := count + CeilLog2(i);
      i := i + 1;
    }
  }

  /** Size of the wire slice; a width-1 network counts -1, which merges two wires of its parent. */
  function Wires(n: nat): int
    requires n >= 1
  {
    2 * Switches(n) - n
  }

  function Top(n: nat): nat { n / 2 }

  function Bottom(n: nat): nat { (n + 1) / 2 }

  /** Right switches; there are Top(n) left ones. */
  function Rights(n: nat): nat
    requires n >= 1
  {
    (n - 1) / 2
  }

  lemma WiresSplit(n: nat)
    requires n >= 2
    ensures Wires(n) == 2 * Top(n) + 2 * Rights(n) + Wires(Top(n)) + Wires(Bottom(n))
    ensures Switches(n) == Top(n) + Rights(n) + Switches(Top(n)) + Switches(Bottom(n))
  {
  }

  lemma {:induction false} WiresNonNegative(n: nat)
    requires n >= 1
    ensures n == 1 ==> Wires(n) == -1
    ensures n == 2 ==> Wires(n) == 0
    ensures n == 3 ==> Wires(n) == 3
    ensures n >= 4 ==> Wires(n) >= 2 * n - 2
  {
    assert Switches(1) == 0 && Switches(2) == 1 && Switches(3) == 3;
    if n >= 4 {
      WiresSplit(n);
      WiresNonNegative(Top(n));
      WiresNonNegative(Bottom(n));
    }
  }

  // ----- what a switch does -----

  /** The upper and the lower output of a switch. */
  function Upper<D>(swap: bool, a: D, b: D): D { if swap then b else a }

  function Lower<D>(swap: bool, a: D, b: D): D { if swap then a else b }

  // ----- slices -----

  /** The left, right, top and bottom switch slices follow one another. */
  function TopSwitches<T>(n: nat, sw: seq<T>): (r: seq<T>)
    requires n >= 3 && |sw| == Switches(n)
    ensures |r| == Switches(Top(n))
  {
    sw[n - 1..n - 1 + Switches(Top(n))]
  }

  function BottomSwitches<T>(n: nat, sw: seq<T>): (r: seq<T>)
    requires n >= 3 && |sw| == Switches(n)
    ensures |r| == Switches(Bottom(n))
  {
    sw[n - 1 + Switches(Top(n))..]
  }

  function WireLength(n: nat): nat
    requires n >= 1
  {
    WiresNonNegative(n);
    if n == 1 then 0 else Wires(n)
  }

  function TopWires<T>(n: nat, w: seq<T>): (r: seq<T>)
    requires n >= 3 && |w| == WireLength(n)
    ensures |r| == WireLength(Top(n))
  {
    WiresSplit(n); WiresNonNegative(Top(n)); WiresNonNegative(Bottom(n));
    if n == 3 then [] else w[2 * n - 2..2 * n - 2 + Wires(Top(n))]
  }

  function BottomWires<T>(n: nat, w: seq<T>): (r: seq<T>)
    requires n >= 3 && |w| == WireLength(n)
    ensures |r| == WireLength(Bottom(n))
  {
    WiresSplit(n); WiresNonNegative(Top(n)); WiresNonNegative(Bottom(n));
    w[2 * n - 2 + Wires(Top(n))..]
  }

  /** The wire into the right switches at position `k`; in a width-3 network the upper one is the upper left wire. */
  function RightWire<T>(n: nat, w: seq<T>, k: nat): T
    requires n >= 3 && |w| == WireLength(n) && k < 2 * Rights(n)
  {
    WiresNonNegative(n);
    if n == 3 then (if k == 0 then w[0] else w[2]) else w[2 * Top(n) + k]
  }

  function LeftWire<T>(n: nat, w: seq<T>, k: nat): T
    requires n >= 3 && |w| == WireLength(n) && k < 2 * Top(n)
  {
    WiresNonNegative(n);
    w[k]
  }

  // ----- the switch equations -----

  function TopIns<D>(n: nat, w: seq<D>): (r: seq<D>)
    requires n >= 3 && |w| == WireLength(n)
    ensures |r| == Top(n)
  {
    seq(Top(n), k requires 0 <= k < Top(n) => LeftWire(n, w, 2 * k))
  }

  function BottomIns<D>(n: nat, w: seq<D>, ins: seq<D>): (r: seq<D>)
    requires n >= 3 && |w| == WireLength(n) && |ins| == n
    ensures |r| == Bottom(n)
  {
    seq(Bottom(n), k requires 0 <= k < Bottom(n) => if 2 * k + 1 < n then LeftWire(n, w, 2 * k + 1) else ins[n - 1])
  }

  function TopOuts<D>(n: nat, w: seq<D>, outs: seq<D>): (r: seq<D>)
    requires n >= 3 && |w| == WireLength(n) && |outs| == n
    ensures |r| == Top(n)
  {
    seq(Top(n), k requires 0 <= k < Top(n) => if k < Rights(n) then RightWire(n, w, 2 * k) else outs[n - 2])
  }

  function BottomOuts<D>(n: nat, w: seq<D>, outs: seq<D>): (r: seq<D>)
    requires n >= 3 && |w| == WireLength(n) && |outs| == n
    ensures |r| == Bottom(n)
  {
    seq(Bottom(n), k requires 0 <= k < Bottom(n) => if k < Rights(n) then RightWire(n, w, 2 * k + 1) else outs[n - 1])
  }

  predicate LeftOk<D(==)>(n: nat, sw: seq<bool>, w: seq<D>, ins: seq<D>)
    requires n >= 3 && |sw| == Switches(n) && |w| == WireLength(n) && |ins| == n
  {
    forall a :: 0 <= a < Top(n) ==>
      && LeftWire(n, w, 2 * a) == Upper(sw[a], ins[2 * a], ins[2 * a + 1])
      && LeftWire(n, w, 2 * a + 1) == Lower(sw[a], ins[2 * a], ins[2 * a + 1])
  }

  predicate RightOk<D(==)>(n: nat, sw: seq<bool>, w: seq<D>, outs: seq<D>)
    requires n >= 3 && |sw| == Switches(n) && |w| == WireLength(n) && |outs| == n
  {
    forall b :: 0 <= b < Rights(n) ==>
      && outs[2 * b] == Upper(sw[Top(n) + b], RightWire(n, w, 2 * b), RightWire(n, w, 2 * b + 1))
      && outs[2 * b + 1] == Lower(sw[Top(n) + b], RightWire(n, w, 2 * b), RightWire(n, w, 2 * b + 1))
  }

  /** Every switch of the network, at every level, obeys its two equations. */
  predicate WiresOk<D(==)>(n: nat, sw: seq<bool>, w: seq<D>, ins: seq<D>, outs: seq<D>)
    requires n >= 1 && |sw| == Switches(n) && |w| == WireLength(n) && |ins| == n && |outs| == n
    decreases n
  {
    if n == 1 then outs[0] == ins[0]
    else if n == 2 then outs[0] == Upper(sw[0], ins[0], ins[1]) && outs[1] == Lower(sw[0], ins[0], ins[1])
    else
      && LeftOk(n, sw, w, ins)
      && RightOk(n, sw, w, outs)
      && WiresOk(Top(n), TopSwitches(n, sw), TopWires(n, w), TopIns(n, w), TopOuts(n, w, outs))
      && WiresOk(Bottom(n), BottomSwitches(n, sw), BottomWires(n, w), BottomIns(n, w, ins), BottomOuts(n, w, outs))
  }

  // ----- what the network computes -----

  function ToTop<D>(n: nat, sw: seq<bool>, ins: seq<D>): (r: seq<D>)
    requires n >= 3 && |sw| == Switches(n) && |ins| == n
    ensures |r| == Top(n)
  {
    seq(Top(n), k requires 0 <= k < Top(n) => Upper(sw[k], ins[2 * k], ins[2 * k + 1]))
  }

  function ToBottom<D>(n: nat, sw: seq<bool>, ins: seq<D>): (r: seq<D>)
    requires n >= 3 && |sw| == Switches(n) && |ins| == n
    ensures |r| == Bottom(n)
  {
    seq(Bottom(n), k requires 0 <= k < Bottom(n) => if 2 * k + 1 < n then Lower(sw[k], ins[2 * k], ins[2 * k + 1])
        else ins[n - 1])
  }

  function FromHalves<D>(n: nat, sw: seq<bool>, tops: seq<D>, bots: seq<D>, j: nat): D
    requires n >= 3 && |sw| == Switches(n) && |tops| == Top(n) && |bots| == Bottom(n) && j < n
  {
    if j == n - 1 then bots[Bottom(n) - 1]
    else if j / 2 >= Rights(n) then tops[Top(n) - 1]
    else if j % 2 == 0 then Upper(sw[Top(n) + j / 2], tops[j / 2], bots[j / 2])
    else Lower(sw[Top(n) + j / 2], tops[j / 2], bots[j / 2])
  }

  function Eval<D>(n: nat, sw: seq<bool>, ins: seq<D>): (outs: seq<D>)
    requires n >= 1 && |sw| == Switches(n) && |ins| == n
    ensures |outs| == n
    decreases n
  {
    if n == 1 then ins
    else if n == 2 then [Upper(sw[0], ins[0], ins[1]), Lower(sw[0], ins[0], ins[1])]
    else
      var tops := Eval(Top(n), TopSwitches(n, sw), ToTop(n, sw, ins));
      var bots := Eval(Bottom(n), BottomSwitches(n, sw), ToBottom(n, sw, ins));
      seq(n, j requires 0 <= j < n => FromHalves(n, sw, tops, bots, j))
  }

  // ----- soundness of the equations -----

  lemma LeftStage<D>(n: nat, sw: seq<bool>, w: seq<D>, ins: seq<D>)
    requires n >= 3 && |sw| == Switches(n) && |w| == WireLength(n) && |ins| == n
    requires LeftOk(n, sw, w, ins)
    ensures TopIns(n, w) == ToTop(n, sw, ins) && BottomIns(n, w, ins) == ToBottom(n, sw, ins)
  {
    hide Switches, WireLength;
    forall k | 0 <= k < Top(n) ensures TopIns(n, w)[k] == ToTop(n, sw, ins)[k] {
    }
    forall k | 0 <= k < Bottom(n) ensures BottomIns(n, w, ins)[k] == ToBottom(n, sw, ins)[k] {
      if 2 * k + 1 < n { assert 0 <= k < Top(n); }
    }
  }

  lemma RightStage<D>(n: nat, sw: seq<bool>, w: seq<D>, outs: seq<D>, j: nat)
    requires n >= 3 && |sw| == Switches(n) && |w| == WireLength(n) && |outs| == n && j < n
    requires RightOk(n, sw, w, outs)
    ensures outs[j] == FromHalves(n, sw, TopOuts(n, w, outs), BottomOuts(n, w, outs), j)
  {
    hide Switches, WireLength, RightWire;
    var b := j / 2;
    assert j == 2 * b || j == 2 * b + 1;
  }

  /** Wires that satisfy every switch equation carry exactly what the network computes. */
  lemma {:induction false} EquationsDetermineOutputs<D>(n: nat, sw: seq<bool>, w: seq<D>, ins: seq<D>, outs: seq<D>)
    requires n >= 1 && |sw| == Switches(n) && |w| == WireLength(n) && |ins| == n && |outs| == n
    requires WiresOk(n, sw, w, ins, outs)
    ensures outs == Eval(n, sw, ins)
    decreases n
  {
    hide Switches, WireLength, LeftOk, RightOk, TopIns, BottomIns, TopOuts, BottomOuts, ToTop, ToBottom, FromHalves,
        TopSwitches, BottomSwitches, TopWires, BottomWires;
    if n >= 3 {
      LeftStage(n, sw, w, ins);
      EquationsDetermineOutputs(Top(n), TopSwitches(n, sw), TopWires(n, w), TopIns(n, w), TopOuts(n, w, outs));
      EquationsDetermineOutputs(Bottom(n), BottomSwitches(n, sw), BottomWires(n, w), BottomIns(n, w, ins),
          BottomOuts(n, w, outs));
      forall j | 0 <= j < n ensures outs[j] == Eval(n, sw, ins)[j] {
        RightStage(n, sw, w, outs, j);
      }
    }
  }

  // ----- the network permutes -----

  /** The pairs of `xs` are the entries of `a` and `b`, in either order. */
  ghost predicate Paired<D>(xs: seq<D>, a: seq<D>, b: seq<D>, m: nat)
    requires 2 * m <= |xs| && m <= |a| && m <= |b|
  {
    forall k :: 0 <= k < m ==>
      || (xs[2 * k] == a[k] && xs[2 * k + 1] == b[k])
      || (xs[2 * k] == b[k] && xs[2 * k + 1] == a[k])
  }

  lemma {:induction false} PairedMultiset<D>(xs: seq<D>, a: seq<D>, b: seq<D>, m: nat)
    requires 2 * m <= |xs| && m <= |a| && m <= |b| && Paired(xs, a, b, m)
    ensures multiset(xs[..2 * m]) == multiset(a[..m]) + multiset(b[..m])
  {
    if m > 0 {
      var k := m - 1;
      PairedMultiset(xs, a, b, k);
      MultisetTake(xs, 2 * k);
      MultisetTake(xs, 2 * k + 1);
      MultisetTake(a, k);
      MultisetTake(b, k);
    }
  }

  lemma MultisetTake<D>(xs: seq<D>, k: nat)
    requires k < |xs|
    ensures multiset(xs[..k + 1]) == multiset(xs[..k]) + multiset{xs[k]}
  {
    assert xs[..k + 1] == xs[..k] + [xs[k]];
  }

  lemma PairedWhole<D>(xs: seq<D>, a: seq<D>, b: seq<D>)
    requires |a| == |xs| / 2 && |b| == (|xs| + 1) / 2 && Paired(xs, a, b, |a|)
    requires |xs| % 2 == 1 ==> xs[|xs| - 1] == b[|b| - 1]
    ensures multiset(xs) == multiset(a) + multiset(b)
  {
    hide Paired;
    PairedMultiset(xs, a, b, |a|);
    assert a[..|a|] == a && b[..|b|] == b && xs[..|xs|] == xs;
    if |xs| % 2 == 1 {
      MultisetTake(xs, 2 * |a|);
      MultisetTake(b, |a|);
    }
  }

  lemma SplitInputs<D>(n: nat, sw: seq<bool>, ins: seq<D>)
    requires n >= 3 && |sw| == Switches(n) && |ins| == n
    ensures multiset(ins) == multiset(ToTop(n, sw, ins)) + multiset(ToBottom(n, sw, ins))
  {
    hide Switches;
    PairedWhole(ins, ToTop(n, sw, ins), ToBottom(n, sw, ins));
  }

  lemma JoinPair<D>(n: nat, sw: seq<bool>, tops: seq<D>, bots: seq<D>, k: nat)
    requires n >= 3 && |sw| == Switches(n) && |tops| == Top(n) && |bots| == Bottom(n) && k < Top(n)
    ensures var x, y := FromHalves(n, sw, tops, bots, 2 * k), FromHalves(n, sw, tops, bots, 2 * k + 1);
            (x == tops[k] && y == bots[k]) || (x == bots[k] && y == tops[k])
  {
    hide Switches;
    assert (2 * k) / 2 == k && (2 * k + 1) / 2 == k;
    if k < Rights(n) {
    } else {
      assert n == 2 * k + 2;
    }
  }

  lemma JoinOutputs<D>(n: nat, sw: seq<bool>, tops: seq<D>, bots: seq<D>, outs: seq<D>)
    requires n >= 3 && |sw| == Switches(n) && |tops| == Top(n) && |bots| == Bottom(n) && |outs| == n
    requires forall j :: 0 <= j < n ==> outs[j] == FromHalves(n, sw, tops, bots, j)
    ensures multiset(outs) == multiset(tops) + multiset(bots)
  {
    assert outs[n - 1] == bots[Bottom(n) - 1];
    assert Paired(outs, tops, bots, |tops|) by {
      hide Switches, FromHalves;
      forall k | 0 <= k < |tops|
        ensures || (outs[2 * k] == tops[k] && outs[2 * k + 1] == bots[k])
                || (outs[2 * k] == bots[k] && outs[2 * k + 1] == tops[k])
      {
        JoinPair(n, sw, tops, bots, k);
      }
    }
    PairedWhole(outs, tops, bots);
  }

  /** Whatever the switches, the outputs are the inputs in some order. */
  lemma {:induction false} EvalPermutes<D>(n: nat, sw: seq<bool>, ins: seq<D>)
    requires n >= 1 && |sw| == Switches(n) && |ins| == n
    ensures multiset(Eval(n, sw, ins)) == multiset(ins)
    decreases n
  {
    hide Switches, ToTop, ToBottom, FromHalves, TopSwitches, BottomSwitches;
    if n == 2 {
      assert ins == [ins[0], ins[1]];
    } else if n >= 3 {
      var ts, bs := ToTop(n, sw, ins), ToBottom(n, sw, ins);
      EvalPermutes(Top(n), TopSwitches(n, sw), ts);
      EvalPermutes(Bottom(n), BottomSwitches(n, sw), bs);
      SplitInputs(n, sw, ins);
      JoinOutputs(n, sw, Eval(Top(n), TopSwitches(n, sw), ts), Eval(Bottom(n), BottomSwitches(n, sw), bs),
          Eval(n, sw, ins));
    }
  }
}
