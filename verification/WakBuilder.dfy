/**
 The compiler's side of the Waksman network: the list of switches it builds for any width, with named
 source and target nodes. Its constraints are the switch equations of module WaksmanNetwork, and its
 wires, in the order in which they first appear in the list, are the router's wire slots.
 */
module WakBuilder {
  import opened WaksmanNetwork

  datatype Node = In(i: nat) | Out(j: nat) | Wire(v: nat)

  /** Half a switch: the upper or the lower source and target of switch `sw`. */
  datatype Line = Line(src: Node, sw: nat, upper: bool, dst: Node)

  /** Wire names that the construction of width `n` takes; a width-3 network leaves one of its four unused. */
  function Names(n: nat): nat {
    if n <= 2 then 0 else 2 * n - 2 + Names(n / 2) + Names((n + 1) / 2)
  }

  // ----- the lists of one level -----

  function LeftLine(n: nat, ins: seq<Node>, sw0: nat, v0: nat, i: nat): Line
    requires n >= 3 && |ins| == n && i < 2 * Top(n)
  {
    Line(ins[i], sw0 + i / 2, i % 2 == 0, Wire(if n == 3 && i == 0 then v0 + 2 else v0 + i))
  }

  function RightLine(n: nat, outs: seq<Node>, sw0: nat, v0: nat, j: nat): Line
    requires n >= 3 && |outs| == n && j < 2 * Rights(n)
  {
    Line(Wire(v0 + 2 * Top(n) + j), sw0 + Top(n) + j / 2, j % 2 == 0, outs[j])
  }

  function LeftLines(n: nat, ins: seq<Node>, sw0: nat, v0: nat): (r: seq<Line>)
    requires n >= 3 && |ins| == n
    ensures |r| == 2 * Top(n) && forall i :: 0 <= i < |r| ==> r[i] == LeftLine(n, ins, sw0, v0, i)
  {
    seq(2 * Top(n), i requires 0 <= i < 2 * Top(n) => LeftLine(n, ins, sw0, v0, i))
  }

  function RightLines(n: nat, outs: seq<Node>, sw0: nat, v0: nat): (r: seq<Line>)
    requires n >= 3 && |outs| == n
    ensures |r| == 2 * Rights(n) && forall j :: 0 <= j < |r| ==> r[j] == RightLine(n, outs, sw0, v0, j)
  {
    seq(2 * Rights(n), j requires 0 <= j < 2 * Rights(n) => RightLine(n, outs, sw0, v0, j))
  }

  function LeftVar(n: nat, ins: seq<Node>, v0: nat, i: nat): Node
    requires |ins| == n && i < n
  {
    if i < 2 * Top(n) then Wire(v0 + i) else ins[i]
  }

  function RightVar(n: nat, outs: seq<Node>, v0: nat, j: nat): Node
    requires n >= 1 && |outs| == n && j < n
  {
    if j < 2 * Rights(n) then Wire(v0 + 2 * Top(n) + j) else outs[j]
  }

  /** Even positions go to the top subnetwork, odd ones and the last one of an odd width to the bottom. */
  predicate GoesDown(n: nat, i: nat) {
    i % 2 == 1 || (n % 2 == 1 && i == n - 1)
  }

  function TopLeft(n: nat, ins: seq<Node>, v0: nat): (r: seq<Node>)
    requires n >= 3 && |ins| == n
    ensures |r| == Top(n)
  {
    seq(Top(n), k requires 0 <= k < Top(n) => LeftVar(n, ins, v0, 2 * k))
  }

  function BotLeft(n: nat, ins: seq<Node>, v0: nat): (r: seq<Node>)
    requires n >= 3 && |ins| == n
    ensures |r| == Bottom(n)
  {
    seq(Bottom(n), k requires 0 <= k < Bottom(n) => LeftVar(n, ins, v0, if 2 * k + 1 < n then 2 * k + 1 else n - 1))
  }

  function TopRight(n: nat, outs: seq<Node>, v0: nat): (r: seq<Node>)
    requires n >= 3 && |outs| == n
    ensures |r| == Top(n)
  {
    seq(Top(n), k requires 0 <= k < Top(n) => RightVar(n, outs, v0, 2 * k))
  }

  function BotRight(n: nat, outs: seq<Node>, v0: nat): (r: seq<Node>)
    requires n >= 3 && |outs| == n
    ensures |r| == Bottom(n)
  {
    seq(Bottom(n), k requires 0 <= k < Bottom(n) => RightVar(n, outs, v0, if 2 * k + 1 < n then 2 * k + 1 else n - 1))
  }

  function LevelLines(n: nat, ins: seq<Node>, outs: seq<Node>, sw0: nat, v0: nat): (r: seq<Line>)
    requires n >= 3 && |ins| == |outs| == n
    ensures |r| == 2 * n - 2
  {
    LeftLines(n, ins, sw0, v0) + RightLines(n, outs, sw0, v0)
  }

  /** The list for a network of width `n`, with the next switch number `sw0` and the next wire name `v0`. */
  function Lines(n: nat, ins: seq<Node>, outs: seq<Node>, sw0: nat, v0: nat): seq<Line>
    requires n >= 2 && |ins| == |outs| == n
    decreases n, 1
  {
    if n == 2 then [Line(ins[0], sw0, true, outs[0]), Line(ins[1], sw0, false, outs[1])]
    else LevelLines(n, ins, outs, sw0, v0) + TopLines(n, ins, outs, sw0, v0) + BottomLines(n, ins, outs, sw0, v0)
  }

  /** The lines of the top subnetwork; one of width 1 has none. */
  function TopLines(n: nat, ins: seq<Node>, outs: seq<Node>, sw0: nat, v0: nat): seq<Line>
    requires n >= 3 && |ins| == |outs| == n
    decreases n, 0
  {
    if n == 3 then [] else Lines(Top(n), TopLeft(n, ins, v0), TopRight(n, outs, v0), sw0 + n - 1, v0 + 2 * n - 2)
  }

  function BottomLines(n: nat, ins: seq<Node>, outs: seq<Node>, sw0: nat, v0: nat): seq<Line>
    requires n >= 3 && |ins| == |outs| == n
    decreases n, 0
  {
    Lines(Bottom(n), BotLeft(n, ins, v0), BotRight(n, outs, v0), sw0 + n - 1 + Switches(Top(n)),
        v0 + 2 * n - 2 + Names(Top(n)))
  }

  lemma LinesParts(n: nat, ins: seq<Node>, outs: seq<Node>, sw0: nat, v0: nat)
    requires n >= 3 && |ins| == |outs| == n
    ensures Lines(n, ins, outs, sw0, v0) ==
            LevelLines(n, ins, outs, sw0, v0) + TopLines(n, ins, outs, sw0, v0) + BottomLines(n, ins, outs, sw0, v0)
  {
    hide TopLines, BottomLines, LevelLines;
  }

  lemma {:induction false} LinesCount(n: nat, ins: seq<Node>, outs: seq<Node>, sw0: nat, v0: nat)
    requires n >= 2 && |ins| == |outs| == n
    ensures |Lines(n, ins, outs, sw0, v0)| == 2 * Switches(n)
    decreases n
  {
    hide Switches, LevelLines, TopLeft, TopRight, BotLeft, BotRight, Names, Lines, Top, Bottom;
    SwitchesSmall();
    if n == 2 {
      TwoLines(ins, outs, sw0, v0);
    } else {
      HalfBounds(n);
      SwitchesAt(Top(n), Bottom(n));
      LinesParts(n, ins, outs, sw0, v0);
      if n > 3 { LinesCount(Top(n), TopLeft(n, ins, v0), TopRight(n, outs, v0), sw0 + n - 1, v0 + 2 * n - 2); }
      LinesCount(Bottom(n), BotLeft(n, ins, v0), BotRight(n, outs, v0), sw0 + n - 1 + Switches(Top(n)),
          v0 + 2 * n - 2 + Names(Top(n)));
    }
  }

  lemma TwoLines(ins: seq<Node>, outs: seq<Node>, sw0: nat, v0: nat)
    requires |ins| == |outs| == 2
    ensures |Lines(2, ins, outs, sw0, v0)| == 2
  {
  }

  // ----- the list as switch equations -----

  /** The two constraints of the switch that lines 2k and 2k + 1 describe. */
  ghost predicate SwitchHolds<D>(lines: seq<Line>, k: nat, sws: nat -> bool, val: Node -> D)
    requires 2 * k + 1 < |lines|
  {
    var (t, b) := (lines[2 * k], lines[2 * k + 1]);
    && val(t.dst) == Upper(sws(t.sw), val(t.src), val(b.src))
    && val(b.dst) == Lower(sws(t.sw), val(t.src), val(b.src))
  }

  ghost predicate AllHold<D>(lines: seq<Line>, sws: nat -> bool, val: Node -> D) {
    |lines| % 2 == 0 && forall k :: 0 <= k < |lines| / 2 ==> SwitchHolds(lines, k, sws, val)
  }

  lemma AllHoldAppend<D>(a: seq<Line>, b: seq<Line>, sws: nat -> bool, val: Node -> D)
    requires |a| % 2 == 0 && |b| % 2 == 0
    ensures AllHold(a + b, sws, val) <==> AllHold(a, sws, val) && AllHold(b, sws, val)
  {
    var c := a + b;
    forall k | 0 <= k < |a| / 2 ensures SwitchHolds(c, k, sws, val) <==> SwitchHolds(a, k, sws, val) {
      assert c[2 * k] == a[2 * k] && c[2 * k + 1] == a[2 * k + 1];
    }
    forall k | 0 <= k < |b| / 2 ensures SwitchHolds(c, |a| / 2 + k, sws, val) <==> SwitchHolds(b, k, sws, val) {
      assert c[2 * (|a| / 2 + k)] == b[2 * k] && c[2 * (|a| / 2 + k) + 1] == b[2 * k + 1];
    }
    if AllHold(c, sws, val) {
      forall k | 0 <= k < |b| / 2 ensures SwitchHolds(b, k, sws, val) { assert SwitchHolds(c, |a| / 2 + k, sws, val); }
    }
    if AllHold(a, sws, val) && AllHold(b, sws, val) {
      forall k | 0 <= k < |c| / 2 ensures SwitchHolds(c, k, sws, val) {
        if k >= |a| / 2 { assert SwitchHolds(b, k - |a| / 2, sws, val); assert k == |a| / 2 + (k - |a| / 2); }
      }
    }
  }

  function SwitchVals(sws: nat -> bool, sw0: nat, n: nat): (r: seq<bool>)
    ensures |r| == Switches(n) && forall k :: 0 <= k < |r| ==> r[k] == sws(sw0 + k)
  {
    seq(Switches(n), k requires 0 <= k < Switches(n) => sws(sw0 + k))
  }

  function Vals<D>(val: Node -> D, nodes: seq<Node>): (r: seq<D>)
    ensures |r| == |nodes| && forall k :: 0 <= k < |r| ==> r[k] == val(nodes[k])
  {
    seq(|nodes|, k requires 0 <= k < |nodes| => val(nodes[k]))
  }

  /** The names of the wires in slot order: left wires, right wires, top subnetwork, bottom subnetwork. */
  function SlotNames(n: nat, v0: nat): (r: seq<Node>)
    requires n >= 1
    ensures |r| == WireLength(n)
    decreases n
  {
    WiresNonNegative(n);
    if n <= 2 then []
    else if n == 3 then [Wire(v0 + 2), Wire(v0 + 1), Wire(v0 + 3)]
    else
      WiresSplit(n); WiresNonNegative(Top(n)); WiresNonNegative(Bottom(n));
      LevelNames(n, v0) + SlotNames(Top(n), v0 + 2 * n - 2) + SlotNames(Bottom(n), v0 + 2 * n - 2 + Names(Top(n)))
  }

  function LevelNames(n: nat, v0: nat): (r: seq<Node>)
    requires n >= 4
    ensures |r| == 2 * n - 2 && forall k :: 0 <= k < |r| ==> r[k] == Wire(v0 + k)
  {
    seq(2 * n - 2, k requires 0 <= k < 2 * n - 2 => Wire(v0 + k))
  }

  lemma LeftLinesMean<D>(n: nat, ins: seq<Node>, sw0: nat, v0: nat, sws: nat -> bool, val: Node -> D)
    requires n >= 3 && |ins| == n
    ensures AllHold(LeftLines(n, ins, sw0, v0), sws, val) <==>
        LeftOk(n, SwitchVals(sws, sw0, n), Vals(val, SlotNames(n, v0)), Vals(val, ins))
  {
    hide Switches, WireLength, SlotNames, LeftLines, SwitchVals, Vals;
    WiresSplit(n);
    var lines, S, W, X := LeftLines(n, ins, sw0, v0), SwitchVals(sws, sw0, n), Vals(val, SlotNames(n, v0)),
        Vals(val, ins);
    forall k | 0 <= k < Top(n)
      ensures SwitchHolds(lines, k, sws, val) <==>
                && LeftWire(n, W, 2 * k) == Upper(S[k], X[2 * k], X[2 * k + 1])
                && LeftWire(n, W, 2 * k + 1) == Lower(S[k], X[2 * k], X[2 * k + 1])
    {
      LeftNames(n, v0, 2 * k);
      LeftNames(n, v0, 2 * k + 1);
      assert lines[2 * k] == LeftLine(n, ins, sw0, v0, 2 * k) &&
          lines[2 * k + 1] == LeftLine(n, ins, sw0, v0, 2 * k + 1);
      assert (2 * k) / 2 == k;
    }
  }

  lemma LeftNames(n: nat, v0: nat, i: nat)
    requires n >= 3 && i < 2 * Top(n)
    ensures i < |SlotNames(n, v0)| && SlotNames(n, v0)[i] == Wire(if n == 3 && i == 0 then v0 + 2 else v0 + i)
  {
    WiresNonNegative(n);
    if n > 3 { assert SlotNames(n, v0)[i] == LevelNames(n, v0)[i]; }
  }

  lemma RightNames(n: nat, v0: nat, j: nat)
    requires n >= 3 && j < 2 * Rights(n)
    ensures RightWire(n, SlotNames(n, v0), j) == Wire(v0 + 2 * Top(n) + j)
  {
    if n > 3 { assert SlotNames(n, v0)[2 * Top(n) + j] == LevelNames(n, v0)[2 * Top(n) + j]; }
  }

  lemma RightLinesMean<D>(n: nat, outs: seq<Node>, sw0: nat, v0: nat, sws: nat -> bool, val: Node -> D)
    requires n >= 3 && |outs| == n
    ensures AllHold(RightLines(n, outs, sw0, v0), sws, val) <==>
        RightOk(n, SwitchVals(sws, sw0, n), Vals(val, SlotNames(n, v0)), Vals(val, outs))
  {
    hide Switches, WireLength, SlotNames, RightLines, SwitchVals, Vals, RightWire;
    WiresSplit(n);
    var lines, S, W, X := RightLines(n, outs, sw0, v0), SwitchVals(sws, sw0, n), Vals(val, SlotNames(n, v0)),
        Vals(val, outs);
    forall k | 0 <= k < Rights(n)
      ensures SwitchHolds(lines, k, sws, val) <==>
                && X[2 * k] == Upper(S[Top(n) + k], RightWire(n, W, 2 * k), RightWire(n, W, 2 * k + 1))
                && X[2 * k + 1] == Lower(S[Top(n) + k], RightWire(n, W, 2 * k), RightWire(n, W, 2 * k + 1))
    {
      RightVal(n, v0, val, 2 * k);
      RightVal(n, v0, val, 2 * k + 1);
      assert lines[2 * k] == RightLine(n, outs, sw0, v0, 2 * k) &&
          lines[2 * k + 1] == RightLine(n, outs, sw0, v0, 2 * k + 1);
      assert (2 * k) / 2 == k;
      assert S[Top(n) + k] == sws(sw0 + (Top(n) + k));
    }
  }

  lemma RightVal<D>(n: nat, v0: nat, val: Node -> D, j: nat)
    requires n >= 3 && j < 2 * Rights(n)
    ensures RightWire(n, Vals(val, SlotNames(n, v0)), j) == val(Wire(v0 + 2 * Top(n) + j))
  {
    hide SlotNames, Vals;
    RightNames(n, v0, j);
    WiresNonNegative(n);
  }

  /** The nodes handed to the subnetworks carry the values that the wire slices feed into and take from them. */
  lemma SubnetworkNodes<D>(n: nat, ins: seq<Node>, outs: seq<Node>, v0: nat, val: Node -> D)
    requires n >= 3 && |ins| == |outs| == n
    ensures var W := Vals(val, SlotNames(n, v0));
            && (n > 3 ==> TopIns(n, W) == Vals(val, TopLeft(n, ins, v0)))
            && (n > 3 ==> TopOuts(n, W, Vals(val, outs)) == Vals(val, TopRight(n, outs, v0)))
            && BottomIns(n, W, Vals(val, ins)) == Vals(val, BotLeft(n, ins, v0))
            && BottomOuts(n, W, Vals(val, outs)) == Vals(val, BotRight(n, outs, v0))
  {
    hide Switches, WireLength, SlotNames, Vals, RightWire;
    var W := Vals(val, SlotNames(n, v0));
    forall k | 0 <= k < Top(n) && n > 3 ensures TopIns(n, W)[k] == Vals(val, TopLeft(n, ins, v0))[k] {
      LeftNames(n, v0, 2 * k);
    }
    forall k | 0 <= k < Top(n) && n > 3 ensures TopOuts(n, W, Vals(val, outs))[k] ==
        Vals(val, TopRight(n, outs, v0))[k] {
      if k < Rights(n) { RightVal(n, v0, val, 2 * k); }
    }
    forall k | 0 <= k < Bottom(n) ensures BottomIns(n, W, Vals(val, ins))[k] == Vals(val, BotLeft(n, ins, v0))[k] {
      if 2 * k + 1 < n { LeftNames(n, v0, 2 * k + 1); }
    }
    forall k | 0 <= k < Bottom(n) ensures BottomOuts(n, W, Vals(val, outs))[k] == Vals(val, BotRight(n, outs, v0))[k] {
      if k < Rights(n) { RightVal(n, v0, val, 2 * k + 1); }
    }
  }

  lemma SubnetworkSlots<D>(n: nat, sw0: nat, v0: nat, sws: nat -> bool, val: Node -> D)
    requires n >= 3
    ensures TopSwitches(n, SwitchVals(sws, sw0, n)) == SwitchVals(sws, sw0 + n - 1, Top(n))
    ensures BottomSwitches(n, SwitchVals(sws, sw0, n)) == SwitchVals(sws, sw0 + n - 1 + Switches(Top(n)), Bottom(n))
    ensures n > 3 ==> TopWires(n, Vals(val, SlotNames(n, v0))) == Vals(val, SlotNames(Top(n), v0 + 2 * n - 2))
    ensures BottomWires(n, Vals(val, SlotNames(n, v0))) ==
        Vals(val, SlotNames(Bottom(n), v0 + 2 * n - 2 + Names(Top(n))))
  {
    hide Switches, Names, Vals, SwitchVals, Wires, LevelNames, SlotNames, TopSwitches, BottomSwitches;
    WiresSplit(n);
    WiresNonNegative(n);
    WiresNonNegative(Top(n));
    WiresNonNegative(Bottom(n));
    SwitchSlots(n, sw0, sws);
    var W := Vals(val, SlotNames(n, v0));
    if n > 3 {
      var t, b := SlotNames(Top(n), v0 + 2 * n - 2), SlotNames(Bottom(n), v0 + 2 * n - 2 + Names(Top(n)));
      SlotNamesLarge(n, v0);
      assert SlotNames(n, v0) == LevelNames(n, v0) + t + b;
      assert TopWires(n, W) == Vals(val, t);
      assert BottomWires(n, W) == Vals(val, b);
    }
  }

  lemma SwitchSlots(n: nat, sw0: nat, sws: nat -> bool)
    requires n >= 3
    ensures TopSwitches(n, SwitchVals(sws, sw0, n)) == SwitchVals(sws, sw0 + n - 1, Top(n))
    ensures BottomSwitches(n, SwitchVals(sws, sw0, n)) == SwitchVals(sws, sw0 + n - 1 + Switches(Top(n)), Bottom(n))
  {
    hide Switches, SwitchVals;
    WiresSplit(n);
    var S := SwitchVals(sws, sw0, n);
    forall k | 0 <= k < Switches(Top(n)) ensures TopSwitches(n, S)[k] == SwitchVals(sws, sw0 + n - 1, Top(n))[k] {
      assert S[n - 1 + k] == sws(sw0 + (n - 1 + k));
    }
    forall k | 0 <= k < Switches(Bottom(n)) ensures BottomSwitches(n, S)[k] ==
        SwitchVals(sws, sw0 + n - 1 + Switches(Top(n)), Bottom(n))[k] {
      assert S[n - 1 + Switches(Top(n)) + k] == sws(sw0 + (n - 1 + Switches(Top(n)) + k));
    }
  }

  /** The compiler's list holds of an assignment exactly when the router's wire slots satisfy every switch equation. */
  lemma {:induction false} ListIsEquations<D>(n: nat, ins: seq<Node>, outs: seq<Node>, sw0: nat, v0: nat,
      sws: nat -> bool, val: Node -> D)
    requires n >= 2 && |ins| == |outs| == n
    ensures AllHold(Lines(n, ins, outs, sw0, v0), sws, val) <==>
            WiresOk(n, SwitchVals(sws, sw0, n), Vals(val, SlotNames(n, v0)), Vals(val, ins), Vals(val, outs))
    decreases n
  {
    if n == 2 {
      SwitchesSmall();
      var lines := Lines(2, ins, outs, sw0, v0);
      assert AllHold(lines, sws, val) <==> SwitchHolds(lines, 0, sws, val);
    } else {
      ListIsEquationsLarge(n, ins, outs, sw0, v0, sws, val);
    }
  }

  lemma {:induction false} ListIsEquationsLarge<D>(n: nat, ins: seq<Node>, outs: seq<Node>, sw0: nat, v0: nat,
      sws: nat -> bool, val: Node -> D)
    requires n >= 3 && |ins| == |outs| == n
    ensures AllHold(Lines(n, ins, outs, sw0, v0), sws, val) <==>
            WiresOk(n, SwitchVals(sws, sw0, n), Vals(val, SlotNames(n, v0)), Vals(val, ins), Vals(val, outs))
    decreases n, 0
  {
    hide AllHold, Lines, Switches, WireLength, Names, SlotNames, Vals, SwitchVals, LeftLines, RightLines, TopLeft,
        TopRight, BotLeft, BotRight,
         LeftOk, RightOk, TopIns, TopOuts, BottomIns, BottomOuts, TopSwitches, BottomSwitches, TopWires, BottomWires;
    LinesHold(n, ins, outs, sw0, v0, sws, val);
    LeftLinesMean(n, ins, sw0, v0, sws, val);
    RightLinesMean(n, outs, sw0, v0, sws, val);
    SubnetworkNodes(n, ins, outs, v0, val);
    SubnetworkSlots(n, sw0, v0, sws, val);
    ListIsEquations(Bottom(n), BotLeft(n, ins, v0), BotRight(n, outs, v0), sw0 + n - 1 + Switches(Top(n)),
        v0 + 2 * n - 2 + Names(Top(n)), sws, val);
    if n > 3 {
      ListIsEquations(Top(n), TopLeft(n, ins, v0), TopRight(n, outs, v0), sw0 + n - 1, v0 + 2 * n - 2, sws, val);
    } else {
      TopOfThreeOk(sw0, v0, sws, val, Vals(val, outs));
    }
  }

  lemma HalfBounds(n: nat)
    requires n >= 3
    ensures 1 <= Top(n) <= Bottom(n) <= Top(n) + 1 && Bottom(n) < n && Top(n) + Bottom(n) == n &&
        (n == 3 ==> Top(n) == 1) && Bottom(n) >= 2 && (n > 3 ==> Top(n) >= 2) && Rights(n) >= 1
  {
  }

  lemma LinesUnfold(n: nat, ins: seq<Node>, outs: seq<Node>, sw0: nat, v0: nat)
    requires n >= 3 && |ins| == |outs| == n
    ensures Lines(n, ins, outs, sw0, v0) ==
              LevelLines(n, ins, outs, sw0, v0)
              + (if n == 3 then [] else Lines(Top(n), TopLeft(n, ins, v0), TopRight(n, outs, v0), sw0 + n - 1,
                  v0 + 2 * n - 2))
              + Lines(Bottom(n), BotLeft(n, ins, v0), BotRight(n, outs, v0), sw0 + n - 1 + Switches(Top(n)),
                  v0 + 2 * n - 2 + Names(Top(n)))
  {
    hide Switches, Names, LevelLines, TopLeft, TopRight, BotLeft, BotRight, Top, Bottom, Rights, Lines;
    HalfBounds(n);
    LinesParts(n, ins, outs, sw0, v0);
  }

  lemma LinesHold<D>(n: nat, ins: seq<Node>, outs: seq<Node>, sw0: nat, v0: nat, sws: nat -> bool, val: Node -> D)
    requires n >= 3 && |ins| == |outs| == n
    ensures AllHold(Lines(n, ins, outs, sw0, v0), sws, val) <==>
              && AllHold(LeftLines(n, ins, sw0, v0), sws, val)
              && AllHold(RightLines(n, outs, sw0, v0), sws, val)
              && (n > 3 ==>
                  AllHold(Lines(Top(n), TopLeft(n, ins, v0), TopRight(n, outs, v0), sw0 + n - 1, v0 + 2 * n - 2), sws,
                  val))
              && AllHold(Lines(Bottom(n), BotLeft(n, ins, v0), BotRight(n, outs, v0), sw0 + n - 1 + Switches(Top(n)),
                  v0 + 2 * n - 2 + Names(Top(n))), sws, val)
  {
    hide AllHold, Lines, Switches, Names, LeftLines, RightLines, TopLeft, TopRight, BotLeft, BotRight, Top, Bottom,
        Rights;
    HalfBounds(n);
    var left, right := LeftLines(n, ins, sw0, v0), RightLines(n, outs, sw0, v0);
    var tl, tr, bl, br := TopLeft(n, ins, v0), TopRight(n, outs, v0), BotLeft(n, ins, v0), BotRight(n, outs, v0);
    var sb, vb := sw0 + n - 1 + Switches(Top(n)), v0 + 2 * n - 2 + Names(Top(n));
    var top := if n == 3 then [] else Lines(Top(n), tl, tr, sw0 + n - 1, v0 + 2 * n - 2);
    var bot := Lines(Bottom(n), bl, br, sb, vb);
    LinesCount(Bottom(n), bl, br, sb, vb);
    if n > 3 { LinesCount(Top(n), tl, tr, sw0 + n - 1, v0 + 2 * n - 2); } else { NothingHolds(sws, val); }
    LinesUnfold(n, ins, outs, sw0, v0);
    assert Lines(n, ins, outs, sw0, v0) == left + right + top + bot;
    FourHold(left, right, top, bot, sws, val);
  }

  lemma FourHold<D>(a: seq<Line>, b: seq<Line>, c: seq<Line>, d: seq<Line>, sws: nat -> bool, val: Node -> D)
    requires |a| % 2 == |b| % 2 == |c| % 2 == |d| % 2 == 0
    ensures AllHold(a + b + c + d, sws, val) <==>
            AllHold(a, sws, val) && AllHold(b, sws, val) && AllHold(c, sws, val) && AllHold(d, sws, val)
  {
    hide AllHold;
    AllHoldAppend(a, b, sws, val);
    AllHoldAppend(a + b, c, sws, val);
    AllHoldAppend(a + b + c, d, sws, val);
  }

  lemma NothingHolds<D>(sws: nat -> bool, val: Node -> D)
    ensures AllHold([], sws, val)
  {
  }

  lemma TopOfThreeOk<D>(sw0: nat, v0: nat, sws: nat -> bool, val: Node -> D, outs: seq<D>)
    requires |outs| == 3
    ensures var S, W := SwitchVals(sws, sw0, 3), Vals(val, SlotNames(3, v0));
            WiresOk(Top(3), TopSwitches(3, S), TopWires(3, W), TopIns(3, W), TopOuts(3, W, outs))
  {
    var W := Vals(val, SlotNames(3, v0));
    assert TopIns(3, W)[0] == LeftWire(3, W, 0) && TopOuts(3, W, outs)[0] == RightWire(3, W, 0);
  }

  // ----- the order in which wires first appear -----

  /** The variable table enters a wire the first time it is mentioned. */
  function Enter(table: seq<Node>, node: Node): seq<Node> {
    if !node.Wire? || node in table then table else table + [node]
  }

  /** A switch mentions its upper and lower source, then its upper and lower target. */
  function EnterSwitch(table: seq<Node>, t: Line, b: Line): seq<Node> {
    Enter(Enter(Enter(Enter(table, t.src), b.src), t.dst), b.dst)
  }

  function EnterAll(table: seq<Node>, lines: seq<Line>): seq<Node>
    decreases |lines|
  {
    if |lines| < 2 then table else EnterAll(EnterSwitch(table, lines[0], lines[1]), lines[2..])
  }

  lemma {:induction false} EnterAppend(table: seq<Node>, a: seq<Line>, b: seq<Line>)
    requires |a| % 2 == 0
    ensures EnterAll(table, a + b) == EnterAll(EnterAll(table, a), b)
    decreases |a|
  {
    if |a| < 2 {
      assert a + b == b;
    } else {
      assert (a + b)[2..] == a[2..] + b;
      EnterAppend(EnterSwitch(table, a[0], a[1]), a[2..], b);
    }
  }

  /** Every wire among the nodes is in the table already. */
  ghost predicate Known(table: seq<Node>, nodes: seq<Node>) {
    forall k :: 0 <= k < |nodes| && nodes[k].Wire? ==> nodes[k] in table
  }

  /** No wire named lo, ..., hi - 1 is in the table yet. */
  ghost predicate Unnamed(table: seq<Node>, lo: nat, hi: nat) {
    forall v: nat :: lo <= v < hi ==> Wire(v) !in table
  }

  lemma KnownMore(table: seq<Node>, more: seq<Node>, nodes: seq<Node>)
    requires Known(table, nodes)
    ensures Known(table + more, nodes)
  {
  }

  /** Each line has one known end, and at the other a wire new to the table: those are `names`. */
  ghost predicate AddsNames(table: seq<Node>, lines: seq<Line>, names: seq<Node>, fromSrc: bool) {
    && |lines| == |names|
    && (forall k :: 0 <= k < |lines| ==>
        names[k] == (if fromSrc then lines[k].src else lines[k].dst) && names[k].Wire? && names[k] !in table)
    && (forall k, l :: 0 <= k < l < |lines| ==> names[k] != names[l])
    && (forall k :: 0 <= k < |lines| ==> var other := if fromSrc then lines[k].dst else lines[k].src;
        other.Wire? ==> other in table)
  }

  lemma {:induction false} EnterNew(table: seq<Node>, lines: seq<Line>, names: seq<Node>, fromSrc: bool, m: nat)
    requires AddsNames(table, lines, names, fromSrc) && 2 * m <= |lines| == |names|
    ensures EnterAll(table, lines[..2 * m]) == table + names[..2 * m]
  {
    hide AddsNames, EnterAll;
    if m == 0 {
      assert lines[..2 * m] == [] && names[..2 * m] == [];
      EnterNothing(table);
    } else {
      var k := m - 1;
      EnterNew(table, lines, names, fromSrc, k);
      assert lines[..2 * m] == lines[..2 * k] + [lines[2 * k], lines[2 * k + 1]];
      EnterAppend(table, lines[..2 * k], [lines[2 * k], lines[2 * k + 1]]);
      EnterNext(table, lines, names, fromSrc, k);
      assert names[..2 * m] == names[..2 * k] + [names[2 * k], names[2 * k + 1]];
    }
  }

  lemma EnterNothing(table: seq<Node>)
    ensures EnterAll(table, []) == table
  {
  }

  lemma EnterNext(table: seq<Node>, lines: seq<Line>, names: seq<Node>, fromSrc: bool, k: nat)
    requires AddsNames(table, lines, names, fromSrc) && 2 * k + 1 < |lines| == |names|
    ensures EnterAll(table + names[..2 * k], [lines[2 * k], lines[2 * k + 1]]) ==
        table + names[..2 * k] + [names[2 * k], names[2 * k + 1]]
  {
    hide EnterAll;
    EnterOne(table + names[..2 * k], lines[2 * k], lines[2 * k + 1], names[2 * k], names[2 * k + 1], fromSrc);
  }

  lemma EnterOne(table: seq<Node>, t: Line, b: Line, x: Node, y: Node, fromSrc: bool)
    requires x == (if fromSrc then t.src else t.dst) && y == (if fromSrc then b.src else b.dst)
    requires x.Wire? && y.Wire? && x !in table && y !in table && x != y
    requires var other := if fromSrc then t.dst else t.src; other.Wire? ==> other in table
    requires var other := if fromSrc then b.dst else b.src; other.Wire? ==> other in table
    ensures EnterAll(table, [t, b]) == table + [x, y]
  {
    assert [t, b][2..] == [];
    assert EnterAll(table, [t, b]) == EnterSwitch(table, t, b);
  }

  lemma EnterLeft(table: seq<Node>, n: nat, ins: seq<Node>, sw0: nat, v0: nat)
    requires n >= 4 && |ins| == n && Known(table, ins) && Unnamed(table, v0, v0 + 2 * n - 2)
    ensures EnterAll(table, LeftLines(n, ins, sw0, v0)) == table + LevelNames(n, v0)[..2 * Top(n)]
  {
    hide EnterAll, LeftLines, LevelNames;
    var lines, names := LeftLines(n, ins, sw0, v0), LevelNames(n, v0)[..2 * Top(n)];
    assert AddsNames(table, lines, names, false);
    EnterNew(table, lines, names, false, Top(n));
    assert lines[..2 * Top(n)] == lines && names[..2 * Top(n)] == names;
  }

  lemma RightAdds(table: seq<Node>, n: nat, outs: seq<Node>, sw0: nat, v0: nat)
    requires n >= 4 && |outs| == n && Known(table, outs) && Unnamed(table, v0, v0 + 2 * n - 2)
    ensures AddsNames(table + LevelNames(n, v0)[..2 * Top(n)], RightLines(n, outs, sw0, v0),
        LevelNames(n, v0)[2 * Top(n)..], true)
  {
    hide RightLines, LevelNames;
    var left, names := LevelNames(n, v0)[..2 * Top(n)], LevelNames(n, v0)[2 * Top(n)..];
    var lines := RightLines(n, outs, sw0, v0);
    assert forall k :: 0 <= k < |names| ==> names[k] == Wire(v0 + 2 * Top(n) + k);
    assert forall k :: 0 <= k < |left| ==> left[k] == Wire(v0 + k);
    assert forall k :: 0 <= k < |lines| ==> lines[k] == RightLine(n, outs, sw0, v0, k);
  }

  lemma EnterRight(table: seq<Node>, n: nat, outs: seq<Node>, sw0: nat, v0: nat)
    requires n >= 4 && |outs| == n && Known(table, outs) && Unnamed(table, v0, v0 + 2 * n - 2)
    ensures var left := LevelNames(n, v0)[..2 * Top(n)];
            EnterAll(table + left, RightLines(n, outs, sw0, v0)) == table + LevelNames(n, v0)
  {
    hide EnterAll, AddsNames, RightLines, LevelNames;
    var left, names := LevelNames(n, v0)[..2 * Top(n)], LevelNames(n, v0)[2 * Top(n)..];
    var lines := RightLines(n, outs, sw0, v0);
    RightAdds(table, n, outs, sw0, v0);
    EnterNew(table + left, lines, names, true, Rights(n));
    assert lines[..2 * Rights(n)] == lines && names[..2 * Rights(n)] == names;
    assert table + left + names == table + LevelNames(n, v0);
  }

  lemma SlotNamesLarge(n: nat, v0: nat)
    requires n >= 4
    ensures SlotNames(n, v0) == LevelNames(n, v0) + SlotNames(Top(n), v0 + 2 * n - 2) +
        SlotNames(Bottom(n), v0 + 2 * n - 2 + Names(Top(n)))
    ensures Names(n) == 2 * n - 2 + Names(Top(n)) + Names(Bottom(n))
  {
    hide Switches, WireLength, LevelNames;
  }

  lemma {:induction false} SlotRange(n: nat, v0: nat, x: Node)
    requires n >= 1 && x in SlotNames(n, v0)
    ensures x.Wire? && v0 <= x.v < v0 + Names(n)
    decreases n
  {
    hide SlotNames, Names, LevelNames, Top, Bottom;
    if n > 3 {
      HalfBounds(n);
      SlotNamesLarge(n, v0);
      var top, bot := SlotNames(Top(n), v0 + 2 * n - 2), SlotNames(Bottom(n), v0 + 2 * n - 2 + Names(Top(n)));
      if x in top {
        SlotRange(Top(n), v0 + 2 * n - 2, x);
      } else if x in bot {
        SlotRange(Bottom(n), v0 + 2 * n - 2 + Names(Top(n)), x);
      } else {
        assert x in LevelNames(n, v0);
      }
    } else {
      SlotNamesSmall(n, v0);
    }
  }

  lemma SlotNamesSmall(n: nat, v0: nat)
    requires 1 <= n <= 3
    ensures SlotNames(n, v0) == if n == 3 then [Wire(v0 + 2), Wire(v0 + 1), Wire(v0 + 3)] else []
    ensures Names(n) == if n == 3 then 4 else 0
  {
    assert n == 3 ==> Names(3) == 4 + Names(1) + Names(2);
  }

  lemma EnterThree(table: seq<Node>, ins: seq<Node>, outs: seq<Node>, sw0: nat, v0: nat)
    requires |ins| == |outs| == 3 && Known(table, ins) && Known(table, outs) && Unnamed(table, v0, v0 + 4)
    ensures EnterAll(EnterAll(table, LeftLines(3, ins, sw0, v0)), RightLines(3, outs, sw0, v0)) ==
        table + SlotNames(3, v0)
  {
    hide EnterAll;
    SlotNamesSmall(3, v0);
    var l0, l1 := LeftLine(3, ins, sw0, v0, 0), LeftLine(3, ins, sw0, v0, 1);
    var r0, r1 := RightLine(3, outs, sw0, v0, 0), RightLine(3, outs, sw0, v0, 1);
    assert LeftLines(3, ins, sw0, v0) == [l0, l1] && RightLines(3, outs, sw0, v0) == [r0, r1];
    EnterOne(table, l0, l1, Wire(v0 + 2), Wire(v0 + 1), false);
    var table' := table + [Wire(v0 + 2), Wire(v0 + 1)];
    EnterPair(table', r0, r1);
    assert table' + [Wire(v0 + 3)] == table + [Wire(v0 + 2), Wire(v0 + 1), Wire(v0 + 3)];
  }

  lemma EnterPair(table: seq<Node>, t: Line, b: Line)
    ensures EnterAll(table, [t, b]) == EnterSwitch(table, t, b)
  {
    assert [t, b][2..] == [];
  }

  /** The level's wires are entered in slot order. */
  lemma EnterLevel(table: seq<Node>, n: nat, ins: seq<Node>, outs: seq<Node>, sw0: nat, v0: nat)
    requires n >= 3 && |ins| == |outs| == n && Known(table, ins) && Known(table, outs) &&
        Unnamed(table, v0, v0 + 2 * n - 2)
    ensures EnterAll(table, LevelLines(n, ins, outs, sw0, v0)) == table + if n == 3 then SlotNames(3, v0)
        else LevelNames(n, v0)
  {
    hide EnterAll, LeftLines, RightLines, SlotNames, LevelNames, Known, Unnamed;
    EnterAppend(table, LeftLines(n, ins, sw0, v0), RightLines(n, outs, sw0, v0));
    if n == 3 {
      EnterThree(table, ins, outs, sw0, v0);
    } else {
      EnterLeft(table, n, ins, sw0, v0);
      EnterRight(table, n, outs, sw0, v0);
    }
  }

  /** The wires that lead into and out of the subnetworks are in the table by then. */
  lemma SubnetworksKnown(table: seq<Node>, n: nat, ins: seq<Node>, outs: seq<Node>, v0: nat, table': seq<Node>)
    requires n >= 3 && |ins| == |outs| == n && Known(table, ins) && Known(table, outs)
    requires table' == table + if n == 3 then SlotNames(3, v0) else LevelNames(n, v0)
    ensures n > 3 ==> Known(table', TopLeft(n, ins, v0)) && Known(table', TopRight(n, outs, v0))
    ensures Known(table', BotLeft(n, ins, v0)) && Known(table', BotRight(n, outs, v0))
  {
    hide SlotNames, LevelNames;
    var tl, tr, bl, br := TopLeft(n, ins, v0), TopRight(n, outs, v0), BotLeft(n, ins, v0), BotRight(n, outs, v0);
    forall k | 0 <= k < |bl| && bl[k].Wire? ensures bl[k] in table' {
      if 2 * k + 1 < 2 * Top(n) { LevelKnown(table, n, v0, table', 2 * k + 1); }
    }
    forall k | 0 <= k < |br| && br[k].Wire? ensures br[k] in table' {
      if 2 * k + 1 < 2 * Rights(n) { LevelKnown(table, n, v0, table', 2 * Top(n) + 2 * k + 1); }
    }
    if n > 3 {
      forall k | 0 <= k < |tl| && tl[k].Wire? ensures tl[k] in table' {
        LevelKnown(table, n, v0, table', 2 * k);
      }
      forall k | 0 <= k < |tr| && tr[k].Wire? ensures tr[k] in table' {
        if 2 * k < 2 * Rights(n) { LevelKnown(table, n, v0, table', 2 * Top(n) + 2 * k); }
      }
    }
  }

  lemma LevelKnown(table: seq<Node>, n: nat, v0: nat, table': seq<Node>, k: nat)
    requires n >= 3 && k < 2 * n - 2 && (n == 3 ==> k > 0)
    requires table' == table + if n == 3 then SlotNames(3, v0) else LevelNames(n, v0)
    ensures Wire(v0 + k) in table'
  {
    hide SlotNames, LevelNames;
    SlotNamesSmall(3, v0);
    if n > 3 { assert LevelNames(n, v0)[k] == Wire(v0 + k); }
  }

  lemma UnnamedAfter(table: seq<Node>, names: seq<Node>, lo: nat, mid: nat, hi: nat)
    requires Unnamed(table, lo, hi) && lo <= mid && forall x :: x in names ==> x.Wire? && lo <= x.v < mid
    ensures Unnamed(table + names, mid, hi)
  {
  }

  lemma UnnamedLess(table: seq<Node>, lo: nat, mid: nat, hi: nat)
    requires Unnamed(table, lo, hi) && mid <= hi
    ensures Unnamed(table, lo, mid)
  {
  }

  lemma EnterTwo(table: seq<Node>, ins: seq<Node>, outs: seq<Node>, sw0: nat, v0: nat)
    requires |ins| == |outs| == 2 && Known(table, ins) && Known(table, outs)
    ensures EnterAll(table, Lines(2, ins, outs, sw0, v0)) == table + SlotNames(2, v0)
  {
    EnterPair(table, Line(ins[0], sw0, true, outs[0]), Line(ins[1], sw0, false, outs[1]));
  }

  /** The level of a network enters its own wires and leaves the subnetworks ready for theirs. */
  lemma EnterLevelReady(table: seq<Node>, n: nat, ins: seq<Node>, outs: seq<Node>, sw0: nat, v0: nat, table1: seq<Node>)
    requires n >= 4 && |ins| == |outs| == n && Known(table, ins) && Known(table, outs) &&
        Unnamed(table, v0, v0 + Names(n))
    requires table1 == table + LevelNames(n, v0)
    ensures EnterAll(table, LevelLines(n, ins, outs, sw0, v0)) == table1
    ensures Known(table1, TopLeft(n, ins, v0)) && Known(table1, TopRight(n, outs, v0))
    ensures Known(table1, BotLeft(n, ins, v0)) && Known(table1, BotRight(n, outs, v0))
    ensures Unnamed(table1, v0 + 2 * n - 2, v0 + Names(n))
  {
    hide EnterAll, LevelLines, LevelNames, Known, Unnamed, Names, Top, Bottom, TopLeft, TopRight, BotLeft, BotRight;
    SlotNamesLarge(n, v0);
    UnnamedLess(table, v0, v0 + 2 * n - 2, v0 + Names(n));
    EnterLevel(table, n, ins, outs, sw0, v0);
    SubnetworksKnown(table, n, ins, outs, v0, table1);
    UnnamedAfter(table, LevelNames(n, v0), v0, v0 + 2 * n - 2, v0 + Names(n));
  }

  lemma FirstAppearanceThree(table: seq<Node>, ins: seq<Node>, outs: seq<Node>, sw0: nat, v0: nat)
    requires |ins| == |outs| == 3 && Known(table, ins) && Known(table, outs) && Unnamed(table, v0, v0 + 4)
    ensures EnterAll(table, Lines(3, ins, outs, sw0, v0)) == table + SlotNames(3, v0)
  {
    hide EnterAll, Lines, LevelLines, SlotNames, Known, Unnamed, Names, Switches, TopLeft, TopRight, BotLeft, BotRight;
    LinesUnfold(3, ins, outs, sw0, v0);
    EnterLevel(table, 3, ins, outs, sw0, v0);
    var table1, level := table + SlotNames(3, v0), LevelLines(3, ins, outs, sw0, v0);
    SubnetworksKnown(table, 3, ins, outs, v0, table1);
    var sb, vb := sw0 + 2 + Switches(Top(3)), v0 + 4 + Names(Top(3));
    EnterTwo(table1, BotLeft(3, ins, v0), BotRight(3, outs, v0), sb, vb);
    SlotNamesSmall(2, vb);
    assert level + [] == level && table1 + [] == table1;
    EnterAppend(table, level, Lines(2, BotLeft(3, ins, v0), BotRight(3, outs, v0), sb, vb));
  }

  /** Built from scratch or inside a larger network, the list names its wires in the router's slot order. */
  lemma {:induction false} FirstAppearanceIsSlotOrder(table: seq<Node>, n: nat, ins: seq<Node>, outs: seq<Node>,
      sw0: nat, v0: nat)
    requires n >= 2 && |ins| == |outs| == n && Known(table, ins) && Known(table, outs) &&
        Unnamed(table, v0, v0 + Names(n))
    ensures EnterAll(table, Lines(n, ins, outs, sw0, v0)) == table + SlotNames(n, v0)
    decreases n
  {
    hide EnterAll, Lines, LevelLines, SlotNames, LevelNames, Known, Unnamed, Names, Top, Bottom, Switches, TopLeft,
        TopRight, BotLeft, BotRight;
    if n == 2 {
      EnterTwo(table, ins, outs, sw0, v0);
    } else if n == 3 {
      SlotNamesSmall(3, v0);
      FirstAppearanceThree(table, ins, outs, sw0, v0);
    } else {
      HalfBounds(n);
      LinesUnfold(n, ins, outs, sw0, v0);
      SlotNamesLarge(n, v0);
      var vt, vb, sb := v0 + 2 * n - 2, v0 + 2 * n - 2 + Names(Top(n)), sw0 + n - 1 + Switches(Top(n));
      var tl, tr, bl, br := TopLeft(n, ins, v0), TopRight(n, outs, v0), BotLeft(n, ins, v0), BotRight(n, outs, v0);
      var table1, tops := table + LevelNames(n, v0), SlotNames(Top(n), vt);
      EnterLevelReady(table, n, ins, outs, sw0, v0, table1);
      var level, top, bot := LevelLines(n, ins, outs, sw0, v0), Lines(Top(n), tl, tr, sw0 + n - 1, vt),
          Lines(Bottom(n), bl, br, sb, vb);
      LinesCount(Top(n), tl, tr, sw0 + n - 1, vt);
      EnterAppend(table, level, top);
      EnterAppend(table, level + top, bot);
      UnnamedLess(table1, vt, vb, v0 + Names(n));
      FirstAppearanceIsSlotOrder(table1, Top(n), tl, tr, sw0 + n - 1, vt);
      forall x | x in tops ensures x.Wire? && vt <= x.v < vb { SlotRange(Top(n), vt, x); }
      UnnamedAfter(table1, tops, vt, vb, v0 + Names(n));
      KnownMore(table1, tops, bl);
      KnownMore(table1, tops, br);
      FirstAppearanceIsSlotOrder(table1 + tops, Bottom(n), bl, br, sb, vb);
    }
  }

  // ----- the construction itself -----

  function RawLeftLines(n: nat, ins: seq<Node>, sw0: nat, v0: nat): (r: seq<Line>)
    requires n >= 3 && |ins| == n
    ensures |r| == 2 * Top(n)
  {
    seq(2 * Top(n), i requires 0 <= i < 2 * Top(n) => Line(ins[i], sw0 + i / 2, i % 2 == 0, Wire(v0 + i)))
  }

  /** A width-1 network has no switch: the upper target left of it becomes the upper source right of it. */
  function Merged(h: seq<Line>): seq<Line>
    requires |h| >= 4
  {
    h[|h| - 4 := h[|h| - 4].(dst := h[|h| - 2].src)]
  }

  lemma MergedLevel(h: seq<Line>, ins: seq<Node>, outs: seq<Node>, sw0: nat, v0: nat)
    requires |ins| == |outs| == 3
    ensures Merged(h + RawLeftLines(3, ins, sw0, v0) + RightLines(3, outs, sw0, v0)) ==
        h + LevelLines(3, ins, outs, sw0, v0)
  {
    var raw, right, left := RawLeftLines(3, ins, sw0, v0), RightLines(3, outs, sw0, v0), LeftLines(3, ins, sw0, v0);
    var all := h + raw + right;
    assert |all| == |h| + 4;
    assert all[|h|] == raw[0] && all[|h| + 2] == right[0];
    assert left == [LeftLine(3, ins, sw0, v0, 0), LeftLine(3, ins, sw0, v0, 1)];
    assert raw[0].(dst := right[0].src) == left[0] && raw[1] == left[1];
    assert Merged(all) == h + (left + right);
  }

  lemma RawIsLeft(n: nat, ins: seq<Node>, sw0: nat, v0: nat)
    requires n >= 4 && |ins| == n
    ensures RawLeftLines(n, ins, sw0, v0) == LeftLines(n, ins, sw0, v0)
  {
  }

  class NetworkBuilder {
    var hooked: seq<Line>
    var swc: nat
    var varct: nat

    constructor ()
      ensures hooked == [] && swc == 0 && varct == 0
    {
      hooked, swc, varct := [], 0, 0;
    }

    /** `n` new switches; returns the number of the first. */
    method MkSwitches(n: nat) returns (first: nat)
      modifies this`swc
      ensures first == old(swc) && swc == old(swc) + n
    {
      first := swc;
      swc := swc + n;
    }

    /** The left switches, each with a new wire; links pass their input on. */
    method HookLeft(inputs: seq<Node>, n: nat, sw0: nat) returns (vars: seq<Node>)
      requires n >= 3 && |inputs| == n
      modifies this`hooked, this`varct
      ensures hooked == old(hooked) + RawLeftLines(n, inputs, sw0, old(varct)) && varct == old(varct) + 2 * Top(n)
      ensures |vars| == n && forall i :: 0 <= i < n ==> vars[i] == LeftVar(n, inputs, old(varct), i)
    {
      vars := [];
      ghost var raw := RawLeftLines(n, inputs, sw0, old(varct));
      for i := 0 to n
        invariant |vars| == i && forall k :: 0 <= k < i ==> vars[k] == LeftVar(n, inputs, old(varct), k)
        invariant varct == old(varct) + (if i < 2 * Top(n) then i else 2 * Top(n))
        invariant hooked == old(hooked) + raw[..(if i < 2 * Top(n) then i else 2 * Top(n))]
      {
        var v := inputs[i];
        if i < 2 * (n / 2) {
          v := Wire(varct);
          varct := varct + 1;
          hooked := hooked + [Line(inputs[i], sw0 + i / 2, i % 2 == 0, v)];
          assert raw[..i + 1] == raw[..i] + [raw[i]];
        }
        vars := vars + [v];
      }
      assert raw[..2 * Top(n)] == raw;
    }

    /** The right switches, each fed by a new wire; links take their output. */
    method HookRight(outputs: seq<Node>, n: nat, sw0: nat, ghost s0: nat, ghost v0: nat) returns (vars: seq<Node>)
      requires n >= 3 && |outputs| == n && varct == v0 + 2 * Top(n) && sw0 == s0 + Top(n)
      modifies this`hooked, this`varct
      ensures hooked == old(hooked) + RightLines(n, outputs, s0, v0) && varct == old(varct) + 2 * Rights(n)
      ensures |vars| == n && forall j :: 0 <= j < n ==> vars[j] == RightVar(n, outputs, v0, j)
    {
      hide RightLines;
      vars := [];
      ghost var right := RightLines(n, outputs, s0, v0);
      var m := 2 * (n / 2 - 1 + n % 2);
      assert m == 2 * Rights(n) <= n;
      for j := 0 to n
        invariant |vars| == j && forall k :: 0 <= k < j ==> vars[k] == RightVar(n, outputs, v0, k)
        invariant varct == v0 + 2 * Top(n) + (if j < m then j else m)
        invariant hooked == old(hooked) + right[..(if j < m then j else m)]
      {
        var v := outputs[j];
        if j < m {
          v := Wire(varct);
          varct := varct + 1;
          hooked := hooked + [Line(v, sw0 + j / 2, j % 2 == 0, outputs[j])];
          assert right[j] == RightLine(n, outputs, s0, v0, j);
          assert right[..j + 1] == right[..j] + [right[j]];
        }
        vars := vars + [v];
      }
      assert right[..m] == right;
    }

    /** Even positions to the top, odd ones and the last of an odd width to the bottom. */
    method Distribute(vars: seq<Node>, n: nat) returns (top: seq<Node>, bot: seq<Node>)
      requires n >= 3 && |vars| == n
      ensures |top| == Top(n) && forall k :: 0 <= k < Top(n) ==> top[k] == vars[2 * k]
      ensures |bot| == Bottom(n) && forall k :: 0 <= k < Bottom(n) ==>
          bot[k] == vars[if 2 * k + 1 < n then 2 * k + 1 else n - 1]
    {
      top, bot := [], [];
      for i := 0 to n
        invariant |top| == (if i < n then (i + 1) / 2 else Top(n)) && |bot| == (if i < n then i / 2 else Bottom(n))
        invariant forall k :: 0 <= k < |top| ==> top[k] == vars[2 * k]
        invariant forall k :: 0 <= k < |bot| ==> bot[k] == vars[if 2 * k + 1 < n then 2 * k + 1 else n - 1]
      {
        if GoesDown(n, i) {
          bot := bot + [vars[i]];
        } else {
          top := top + [vars[i]];
        }
      }
    }

    /** The list of a network of width `n` between the given nodes. */
    method BuildWak(inputs: seq<Node>, outputs: seq<Node>, n: nat)
      requires n >= 1 && |inputs| == |outputs| == n && (n == 1 ==> |hooked| >= 4)
      modifies this
      ensures n == 1 ==> hooked == Merged(old(hooked)) && swc == old(swc) && varct == old(varct)
      ensures n >= 2 ==> hooked == old(hooked) + Lines(n, inputs, outputs, old(swc), old(varct))
      ensures n >= 2 ==> swc == old(swc) + Switches(n) && varct == old(varct) + Names(n)
      decreases n
    {
      if n == 1 {
        hooked := hooked[|hooked| - 4 := hooked[|hooked| - 4].(dst := hooked[|hooked| - 2].src)];
      } else if n == 2 {
        SwitchesSmall();
        var sw := MkSwitches(1);
        hooked := hooked + [Line(inputs[0], sw, true, outputs[0]), Line(inputs[1], sw, false, outputs[1])];
      } else {
        BuildLarge(inputs, outputs, n);
      }
    }

    method BuildLarge(inputs: seq<Node>, outputs: seq<Node>, n: nat)
      requires n >= 3 && |inputs| == |outputs| == n
      modifies this
      ensures hooked == old(hooked) + Lines(n, inputs, outputs, old(swc), old(varct))
      ensures swc == old(swc) + Switches(n) && varct == old(varct) + Names(n)
      decreases n, 0
    {
      hide Lines, LevelLines, RawLeftLines, RightLines, Switches, Names, Merged;
      HalfBounds(n);
      ghost var h, s0, v0 := hooked, swc, varct;
      var leftSwitchCount := n / 2;
      var rightSwitchCount := leftSwitchCount - 1 + n % 2;
      var leftFirst := MkSwitches(leftSwitchCount);
      var rightFirst := MkSwitches(rightSwitchCount);
      var leftVars := HookLeft(inputs, n, leftFirst);
      var rightVars := HookRight(outputs, n, rightFirst, s0, v0);
      var topLeft, botLeft := Distribute(leftVars, n);
      var topRight, botRight := Distribute(rightVars, n);
      SameNodes(n, inputs, outputs, v0, topLeft, botLeft, topRight, botRight);
      BuildWak(topLeft, topRight, n / 2);
      BuildWak(botLeft, botRight, (n + 1) / 2);
      BuiltUp(h, n, inputs, outputs, s0, v0);
    }
  }

  lemma SameNodes(n: nat, ins: seq<Node>, outs: seq<Node>, v0: nat, tl: seq<Node>, bl: seq<Node>, tr: seq<Node>,
      br: seq<Node>)
    requires n >= 3 && |ins| == |outs| == n && |tl| == |tr| == Top(n) && |bl| == |br| == Bottom(n)
    requires forall k :: 0 <= k < Top(n) ==>
        tl[k] == LeftVar(n, ins, v0, 2 * k) && tr[k] == RightVar(n, outs, v0, 2 * k)
    requires forall k :: 0 <= k < Bottom(n) ==>
               var i := if 2 * k + 1 < n then 2 * k + 1 else n - 1;
                   bl[k] == LeftVar(n, ins, v0, i) && br[k] == RightVar(n, outs, v0, i)
    ensures tl == TopLeft(n, ins, v0) && tr == TopRight(n, outs, v0) && bl == BotLeft(n, ins, v0) &&
        br == BotRight(n, outs, v0)
  {
  }

  /** What has been hooked after the level and both subnetworks. */
  lemma BuiltUp(h: seq<Line>, n: nat, ins: seq<Node>, outs: seq<Node>, s0: nat, v0: nat)
    requires n >= 3 && |ins| == |outs| == n
    ensures var raw := h + RawLeftLines(n, ins, s0, v0) + RightLines(n, outs, s0, v0);
            var top := if n == 3 then Merged(raw)
                       else raw + Lines(Top(n), TopLeft(n, ins, v0), TopRight(n, outs, v0), s0 + n - 1, v0 + 2 * n - 2);
            top + Lines(Bottom(n), BotLeft(n, ins, v0), BotRight(n, outs, v0), s0 + n - 1 + Switches(Top(n)),
                v0 + 2 * n - 2 + Names(Top(n)))
            == h + Lines(n, ins, outs, s0, v0)
    ensures Switches(n) == n - 1 + Switches(Top(n)) + Switches(Bottom(n)) &&
        Names(n) == 2 * n - 2 + Names(Top(n)) + Names(Bottom(n))
    ensures Top(n) == 1 <==> n == 3
    ensures n == 3 ==> Switches(Top(n)) == 0 && Names(Top(n)) == 0
  {
    hide Lines, LeftLines, RawLeftLines, RightLines, TopLeft, TopRight, BotLeft, BotRight, Merged, Switches, Names, Top,
        Bottom, Rights;
    HalfBounds(n);
    BuiltCounts(n);
    LinesUnfold(n, ins, outs, s0, v0);
    var bottom := Lines(Bottom(n), BotLeft(n, ins, v0), BotRight(n, outs, v0), s0 + n - 1 + Switches(Top(n)),
        v0 + 2 * n - 2 + Names(Top(n)));
    if n == 3 {
      MergedLevel(h, ins, outs, s0, v0);
      FourJoin(h, LeftLines(n, ins, s0, v0), RightLines(n, outs, s0, v0), [], bottom);
    } else {
      RawIsLeft(n, ins, s0, v0);
      FourJoin(h, LeftLines(n, ins, s0, v0), RightLines(n, outs, s0, v0),
               Lines(Top(n), TopLeft(n, ins, v0), TopRight(n, outs, v0), s0 + n - 1, v0 + 2 * n - 2), bottom);
    }
  }

  lemma FourJoin(h: seq<Line>, a: seq<Line>, b: seq<Line>, c: seq<Line>, d: seq<Line>)
    ensures h + a + b + c + d == h + (a + b + c + d)
    ensures h + (a + b) + c + d == h + (a + b + c + d)
    ensures h + a + b + [] == h + a + b && h + (a + b) + [] == h + (a + b) && a + b + [] == a + b
  {
  }

  lemma BuiltCounts(n: nat)
    requires n >= 3
    ensures Switches(n) == n - 1 + Switches(Top(n)) + Switches(Bottom(n)) &&
        Names(n) == 2 * n - 2 + Names(Top(n)) + Names(Bottom(n))
    ensures n == 3 ==> Switches(Top(n)) == 0 && Names(Top(n)) == 0
  {
  }

  // ----- the whole network -----

  function InNodes(n: nat): (r: seq<Node>)
    ensures |r| == n && forall k :: 0 <= k < n ==> r[k] == In(k)
  {
    seq(n, k requires 0 <= k < n => In(k))
  }

  function OutNodes(n: nat): (r: seq<Node>)
    ensures |r| == n && forall k :: 0 <= k < n ==> r[k] == Out(k)
  {
    seq(n, k requires 0 <= k < n => Out(k))
  }

  /** The list of switches the compiler works from. */
  method Waksman(n: nat) returns (hooked: seq<Line>)
    requires n >= 2
    ensures hooked == Lines(n, InNodes(n), OutNodes(n), 0, 0) && |hooked| == 2 * Switches(n)
  {
    hide Switches, Lines;
    LinesCount(n, InNodes(n), OutNodes(n), 0, 0);
    var b := new NetworkBuilder();
    b.BuildWak(InNodes(n), OutNodes(n), n);
    hooked := b.hooked;
    assert hooked == [] + Lines(n, InNodes(n), OutNodes(n), 0, 0);
  }

  ghost predicate Distinct<T>(s: seq<T>) {
    forall k, l :: 0 <= k < l < |s| ==> s[k] != s[l]
  }

  lemma {:induction false} EnterAllDistinct(table: seq<Node>, lines: seq<Line>)
    requires Distinct(table)
    ensures Distinct(EnterAll(table, lines))
    decreases |lines|
  {
    if |lines| >= 2 { EnterAllDistinct(EnterSwitch(table, lines[0], lines[1]), lines[2..]); }
  }

  /** Entered into an empty table the list gives every wire slot one name of its own, in slot order. */
  lemma TableIsSlots(n: nat)
    requires n >= 2
    ensures EnterAll([], Lines(n, InNodes(n), OutNodes(n), 0, 0)) == SlotNames(n, 0)
    ensures Distinct(SlotNames(n, 0)) && |SlotNames(n, 0)| == WireLength(n)
  {
    hide Lines, EnterAll, SlotNames, WireLength;
    FirstAppearanceIsSlotOrder([], n, InNodes(n), OutNodes(n), 0, 0);
    EnterAllDistinct([], Lines(n, InNodes(n), OutNodes(n), 0, 0));
    assert [] + SlotNames(n, 0) == SlotNames(n, 0);
  }

  function IndexOf(names: seq<Node>, x: Node): (k: nat)
    requires x in names
    ensures k < |names| && names[k] == x
  {
    if names[0] == x then 0 else 1 + IndexOf(names[1..], x)
  }

  /** The value of a node when inputs, outputs and wire slots hold the given data. */
  function NodeValue<D>(names: seq<Node>, w: seq<D>, ins: seq<D>, outs: seq<D>): Node -> D
    requires |names| == |w| && |ins| == |outs| >= 1
  {
    (x: Node) => match x
      case In(i) => if i < |ins| then ins[i] else ins[0]
      case Out(j) => if j < |outs| then outs[j] else outs[0]
      case Wire(_) => if x in names then w[IndexOf(names, x)] else ins[0]
  }

  function SwitchValue(sw: seq<bool>): nat -> bool {
    (k: nat) => if k < |sw| then sw[k] else false
  }

  /** Reading the slots through the table gives the array back. */
  lemma SlotsReadBack<D>(n: nat, w: seq<D>, ins: seq<D>, outs: seq<D>)
    requires n >= 2 && |w| == WireLength(n) && |ins| == |outs| == n
    ensures Vals(NodeValue(SlotNames(n, 0), w, ins, outs), SlotNames(n, 0)) == w
  {
    hide Lines, SlotNames, Switches, WireLength, EnterAll;
    var names := SlotNames(n, 0);
    TableIsSlots(n);
    forall k | 0 <= k < |w| ensures NodeValue(names, w, ins, outs)(names[k]) == w[k] {
      SlotsAreWires(n, names[k]);
      assert IndexOf(names, names[k]) == k;
    }
  }

  /**
   The wire array that the router fills, read through the compiler's variable table, satisfies every
   constraint of the compiler's list exactly when it satisfies the network's switch equations.
   */
  lemma RouterMeetsList<D>(n: nat, sw: seq<bool>, w: seq<D>, ins: seq<D>, outs: seq<D>)
    requires n >= 2 && |sw| == Switches(n) && |w| == WireLength(n) && |ins| == |outs| == n
    ensures AllHold(Lines(n, InNodes(n), OutNodes(n), 0, 0), SwitchValue(sw), NodeValue(SlotNames(n, 0), w, ins, outs))
            <==> WiresOk(n, sw, w, ins, outs)
  {
    hide Lines, AllHold, WiresOk, SlotNames, Switches, WireLength, EnterAll;
    var sws, val := SwitchValue(sw), NodeValue(SlotNames(n, 0), w, ins, outs);
    ListIsEquations(n, InNodes(n), OutNodes(n), 0, 0, sws, val);
    SlotsReadBack(n, w, ins, outs);
    assert SwitchVals(sws, 0, n) == sw;
    assert Vals(val, InNodes(n)) == ins && Vals(val, OutNodes(n)) == outs;
  }

  lemma SlotsAreWires(n: nat, x: Node)
    requires n >= 1 && x in SlotNames(n, 0)
    ensures x.Wire?
  {
    SlotRange(n, 0, x);
  }
}
