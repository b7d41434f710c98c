/**
 The recursive router and its theorem: for every width and every permutation the switches it sets
 carry each packet to its destination, and the wire values it writes satisfy every switch equation.
 */
module WaksmanRoute {
  import opened MemoryOp
  import N = WaksmanNetwork
  import opened WaksmanChain
  import opened WaksmanPlacement
  import opened WaksmanRouter
  import opened WaksmanLevel

  /** The network of width `n` whose slices begin at `sOff` and `vOff` carries the left packets to the right ones. */
  ghost predicate Routed(left: seq<Packet>, right: seq<Packet>, sw: seq<Switch>, sOff: nat, w: seq<MemOp>, vOff: nat) {
    && |left| == |right| >= 1 && sOff + N.Switches(|left|) <= |sw| &&
        (|left| >= 2 ==> vOff + N.WireLength(|left|) <= |w|)
    && N.WiresOk(|left|, SwitchSlice(sw, sOff, |left|), WireSlice(w, vOff, |left|), Datas(left), Datas(right))
  }

  lemma SwitchesFrame(sw: seq<Switch>, sw': seq<Switch>, off: nat, m: nat, done: seq<bool>, bot: seq<bool>)
    requires SwitchesPlaced(sw, off, m, done, bot) && |sw'| == |sw| && forall k :: off <= k < off + m ==>
        sw'[k] == sw[k]
    ensures SwitchesPlaced(sw', off, m, done, bot)
  {
  }

  lemma WiresFrame(w: seq<MemOp>, w': seq<MemOp>, off: nat, m: nat, data: seq<MemOp>, done: seq<bool>, bot: seq<bool>)
    requires WiresPlaced(w, off, m, data, done, bot) && |w'| == |w| && forall k :: off <= k < off + 2 * m ==>
        w'[k] == w[k]
    ensures WiresPlaced(w', off, m, data, done, bot)
  {
    forall i | 0 <= i < 2 * m && done[i] ensures w'[off + Slot(i, bot[i])] == data[i] {
      SlotBound(i, m, bot[i]);
    }
  }

  /** What a level has written is not disturbed by writes elsewhere. */
  lemma LevelFrame(v: Level, s: Routing, left: seq<Packet>, right: seq<Packet>, d: Desk,
                   sw: seq<Switch>, sw': seq<Switch>, sOff: nat, w: seq<MemOp>, w': seq<MemOp>, vOff: nat)
    requires LevelState(v, s, left, right, d, sw, sOff, w, vOff) && v.n >= 3
    requires |sw'| == |sw| && forall k :: sOff <= k < sOff + v.n - 1 ==> sw'[k] == sw[k]
    requires |w'| == |w| && vOff + WireRoom(v.n) <= |w| && forall k :: vOff <= k < vOff + WireRoom(v.n) ==>
        w'[k] == w[k]
    ensures LevelState(v, s, left, right, d, sw', sOff, w', vOff)
  {
    hide Coloured, DeskOk, SwitchesPlaced, WiresPlaced;
    SwitchesFrame(sw, sw', sOff, v.L(), s.ldone, s.lbot);
    SwitchesFrame(sw, sw', sOff + v.L(), v.R(), s.rdone, s.rbot);
    WiresFrame(w, w', vOff, v.L(), Datas(left), s.ldone, s.lbot);
    if v.n > 3 { WiresFrame(w, w', vOff + 2 * v.L(), v.R(), Datas(right), s.rdone, s.rbot); }
  }

  /** The slices of a network are its level, then its top subnetwork, then its bottom one. */
  lemma SwitchesNest(sw: seq<Switch>, sOff: nat, n: nat)
    requires n >= 3 && sOff + N.Switches(n) <= |sw|
    ensures var t, b := N.Top(n), N.Bottom(n);
            && n - 1 + N.Switches(t) + N.Switches(b) == N.Switches(n)
            && N.TopSwitches(n, SwitchSlice(sw, sOff, n)) == SwitchSlice(sw, sOff + n - 1, t)
            && N.BottomSwitches(n, SwitchSlice(sw, sOff, n)) == SwitchSlice(sw, sOff + n - 1 + N.Switches(t), b)
  {
    hide N.Switches, SwitchSlice;
    N.WiresSplit(n);
    var t, b, S := N.Top(n), N.Bottom(n), SwitchSlice(sw, sOff, n);
    var S1, S2 := SwitchSlice(sw, sOff + n - 1, t), SwitchSlice(sw, sOff + n - 1 + N.Switches(t), b);
    forall k | 0 <= k < N.Switches(t) ensures N.TopSwitches(n, S)[k] == S1[k] {
      assert S[n - 1 + k] == sw[sOff + (n - 1 + k)].swap;
    }
    forall k | 0 <= k < N.Switches(b) ensures N.BottomSwitches(n, S)[k] == S2[k] {
      assert S[n - 1 + N.Switches(t) + k] == sw[sOff + (n - 1 + N.Switches(t) + k)].swap;
    }
  }

  lemma WireOffsets(n: nat)
    requires n >= 3
    ensures 2 * n - 2 + N.Wires(N.Top(n)) >= 0
    ensures 2 * n - 2 + N.Wires(N.Top(n)) + N.Wires(N.Bottom(n)) == N.WireLength(n)
    ensures N.WireLength(N.Bottom(n)) == N.Wires(N.Bottom(n)) && WireRoom(n) <= N.WireLength(n)
    ensures N.Top(n) >= 2 ==> N.WireLength(N.Top(n)) == N.Wires(N.Top(n))
    ensures N.Top(n) == 1 ==> n == 3 && N.Wires(1) == -1 && N.WireLength(1) == 0
  {
    hide N.Switches, N.Wires;
    N.WiresSplit(n);
    N.WiresNonNegative(n);
    N.WiresNonNegative(N.Top(n));
    N.WiresNonNegative(N.Bottom(n));
  }

  lemma WiresNest(w: seq<MemOp>, vOff: nat, n: nat)
    requires n >= 3 && vOff + N.WireLength(n) <= |w|
    ensures var t, b := N.Top(n), N.Bottom(n); var vTop := vOff + 2 * n - 2; var vBot := vTop + N.Wires(t);
            && 0 <= vBot && vBot + N.WireLength(b) <= |w| && (t >= 2 ==> vTop + N.WireLength(t) <= |w|)
            && N.TopWires(n, WireSlice(w, vOff, n)) == WireSlice(w, vTop, t)
            && N.BottomWires(n, WireSlice(w, vOff, n)) == WireSlice(w, vBot, b)
  {
    hide N.Switches, N.Wires, N.WireLength, WireSlice;
    WireOffsets(n);
    var t, b, W := N.Top(n), N.Bottom(n), WireSlice(w, vOff, n);
    var vTop := 2 * n - 2;
    var vBot := vTop + N.Wires(t);
    forall k | 0 <= k < N.WireLength(t) ensures N.TopWires(n, W)[k] == WireSlice(w, vOff + vTop, t)[k] {
      assert W[vTop + k] == w[vOff + (vTop + k)];
    }
    forall k | 0 <= k < N.WireLength(b) ensures N.BottomWires(n, W)[k] == WireSlice(w, vOff + vBot, b)[k] {
      assert W[vBot + k] == w[vOff + (vBot + k)];
    }
  }

  lemma MatchedSameData(left: seq<Packet>, right: seq<Packet>)
    requires Matched(left, right)
    ensures SameData(LevelOf(left, right), Datas(left), Datas(right))
  {
    var v := LevelOf(left, right);
    forall j | 0 <= j < v.n ensures v.q[j] < v.n && Datas(right)[j] == Datas(left)[v.q[j]] {
      RightPacket(left, right, j);
    }
  }

  /** A routed level on top of two routed subnetworks is a routed network. */
  lemma LevelJoins(s: Routing, left: seq<Packet>, right: seq<Packet>, d: Desk, sw: seq<Switch>, sOff: nat,
      w: seq<MemOp>, vOff: nat)
    requires Matched(left, right) && |left| >= 3 &&
        LevelState(LevelOf(left, right), s, left, right, d, sw, sOff, w, vOff) && AllDone(s)
    requires var n := |left|;
        sOff + N.Switches(n) <= |sw| && vOff + N.WireLength(n) <= |w| && 2 * n - 2 + N.Wires(N.Top(n)) >= 0
    requires Routed(d.topLeft, d.topRight, sw, sOff + |left| - 1, w, vOff + 2 * |left| - 2)
    requires Routed(d.botLeft, d.botRight, sw, sOff + |left| - 1 + N.Switches(N.Top(|left|)), w,
        vOff + 2 * |left| - 2 + N.Wires(N.Top(|left|)))
    ensures Routed(left, right, sw, sOff, w, vOff)
  {
    hide LevelState, AllDone, Matched, LevelOf, Datas, SwitchSlice, WireSlice, N.Switches, N.WireLength, N.Wires,
        N.LeftOk, N.RightOk,
         N.TopSwitches, N.BottomSwitches, N.TopWires, N.BottomWires, N.TopIns, N.BottomIns, N.TopOuts, N.BottomOuts,
         SwitchesPlaced, WiresPlaced, RightWiresPlaced, DeskOk, SameData, Coloured, Level.Valid;
    var v, n := LevelOf(left, right), |left|;
    LevelFacts(v, s, left, right, d, sw, sOff, w, vOff);
    LevelParts(v, s, left, right, d, sw, sOff, w, vOff);
    MatchedSameData(left, right);
    LevelLeftOk(v, s, left, sw, sOff, w, vOff);
    LevelRightOk(v, s, Datas(left), Datas(right), sw, sOff, w, vOff);
    SubnetworkInputs(v, s, left, right, d, sw, sOff, w, vOff);
    SubnetworkOutputs(v, s, left, right, d, sw, sOff, w, vOff);
    SwitchesNest(sw, sOff, n);
    WiresNest(w, vOff, n);
  }

  ghost predicate SameFrom<T>(a: seq<T>, b: seq<T>, lo: int, hi: int) {
    |a| == |b| && forall k :: 0 <= k < |a| && lo <= k < hi ==> a[k] == b[k]
  }

  lemma RoutedFrame(left: seq<Packet>, right: seq<Packet>, sw: seq<Switch>, sw': seq<Switch>, sOff: nat, w: seq<MemOp>,
      w': seq<MemOp>, vOff: nat)
    requires Routed(left, right, sw, sOff, w, vOff)
    requires SameFrom(sw', sw, sOff, sOff + N.Switches(|left|)) && SameFrom(w', w, vOff, vOff + N.WireLength(|left|))
    ensures Routed(left, right, sw', sOff, w', vOff)
  {
    hide N.Switches, N.WiresOk, SwitchSlice, WireSlice, N.Wires;
    var n := |left|;
    N.WiresNonNegative(n);
    assert SwitchSlice(sw', sOff, n) == SwitchSlice(sw, sOff, n);
    assert WireSlice(w', vOff, n) == WireSlice(w, vOff, n);
  }

  /** One switch or one wire. */
  lemma RoutedBase(left: seq<Packet>, right: seq<Packet>, sw: seq<Switch>, sOff: nat, w: seq<MemOp>, vOff: nat)
    requires 1 <= |left| == |right| <= 2 && sOff + |left| - 1 <= |sw| && (|left| == 2 ==> vOff <= |w|)
    requires |left| == 1 ==> right[0].data == left[0].data
    requires |left| == 2 ==> var swap := sw[sOff].swap;
               && right[0].data == N.Upper(swap, left[0].data, left[1].data) &&
                   right[1].data == N.Lower(swap, left[0].data, left[1].data)
    ensures Routed(left, right, sw, sOff, w, vOff)
  {
    N.SwitchesSmall();
    N.WiresNonNegative(|left|);
  }

  /** Routes `n` packets through the network whose switches begin at `sOff` and whose wires begin at `vOff`. */
  method Route(left: seq<Packet>, right: seq<Packet>, inter: array<MemOp>, vOff: nat, sw: array<Switch>, sOff: nat,
      n: nat)
    requires Matched(left, right) && n == |left| >= 1
    requires sOff + N.Switches(n) <= sw.Length && (n >= 2 ==> vOff + N.WireLength(n) <= inter.Length)
    requires forall k :: sOff <= k < sOff + N.Switches(n) ==> !sw[k].isSet
    modifies inter, sw
    ensures Routed(left, right, sw[..], sOff, inter[..], vOff)
    ensures OnlyWithin(sw[..], old(sw[..]), sOff, sOff + N.Switches(n))
    ensures OnlyWithin(inter[..], old(inter[..]), vOff, vOff + N.WireLength(n))
    decreases n
  {
    hide Routed, Matched, LevelState, AllDone, N.Switches, N.WireLength;
    MatchedUnrouted(left, right);
    N.SwitchesSmall();
    if n == 2 {
      SmallMatched(left, right);
      assert !sw[sOff].isSet;
      if left[0].data == right[0].data {
        sw[sOff] := Switch(false, true);
      } else {
        assert left[0].data == right[1].data;
        sw[sOff] := Switch(true, true);
      }
      RoutedBase(left, right, sw[..], sOff, inter[..], vOff);
      return;
    }
    if n == 1 {
      SmallMatched(left, right);
      assert left[0].data == right[0].data;
      RoutedBase(left, right, sw[..], sOff, inter[..], vOff);
      return;
    }
    RouteLarge(left, right, inter, vOff, sw, sOff, n);
  }

  lemma SmallMatched(left: seq<Packet>, right: seq<Packet>)
    requires Matched(left, right) && 1 <= |left| <= 2
    ensures |left| == 1 ==> right[0].data == left[0].data
    ensures |left| == 2 ==> || (right[0].data == left[0].data && right[1].data == left[1].data)
                            || (right[0].data == left[1].data && right[1].data == left[0].data)
  {
    assert left[0].dst < |left|;
    if |left| == 2 { assert left[1].dst < |left|; }
  }

  /** The two subnetworks, top first; below a network of width 3 the bottom one starts a wire slot earlier. */
  method RouteHalves(d: Desk, inter: array<MemOp>, topVars: nat, sw: array<Switch>, topSwitches: nat, n: nat)
    requires n >= 3 && DeskSized(d, n) && Matched(d.topLeft, d.topRight) && Matched(d.botLeft, d.botRight)
    requires topSwitches + N.Switches(N.Top(n)) + N.Switches(N.Bottom(n)) <= sw.Length
    requires topVars >= 2 * n - 2 && topVars + N.Wires(N.Top(n)) + N.Wires(N.Bottom(n)) <= inter.Length
    requires forall k :: topSwitches <= k < topSwitches + N.Switches(N.Top(n)) + N.Switches(N.Bottom(n)) ==>
        !sw[k].isSet
    modifies inter, sw
    ensures topVars + N.Wires(N.Top(n)) >= 0
    ensures Routed(d.topLeft, d.topRight, sw[..], topSwitches, inter[..], topVars)
    ensures Routed(d.botLeft, d.botRight, sw[..], topSwitches + N.Switches(N.Top(n)), inter[..],
        topVars + N.Wires(N.Top(n)))
    ensures OnlyWithin(sw[..], old(sw[..]), topSwitches, topSwitches + N.Switches(N.Top(n)) + N.Switches(N.Bottom(n)))
    ensures OnlyWithin(inter[..], old(inter[..]), topVars + WireRoom(n) - (2 * n - 2),
        topVars + N.Wires(N.Top(n)) + N.Wires(N.Bottom(n)))
    decreases n, 0
  {
    hide Routed, Matched, N.Switches, N.WireLength, N.Wires;
    var topSize, bottomSize := n / 2, (n + 1) / 2;
    WireOffsets(n);
    var topSwc := N.NumSwitches(topSize);
    var topVarc := TopVarCount(topSwc, topSize);
    Route(d.topLeft, d.topRight, inter, topVars, sw, topSwitches, topSize);
    ghost var sw2, w2 := sw[..], inter[..];
    Route(d.botLeft, d.botRight, inter, topVars + topVarc, sw, topSwitches + topSwc, bottomSize);
    RoutedFrame(d.topLeft, d.topRight, sw2, sw[..], topSwitches, w2, inter[..], topVars);
  }

  /** A level, then the two subnetworks. */
  method RouteLarge(left: seq<Packet>, right: seq<Packet>, inter: array<MemOp>, vOff: nat, sw: array<Switch>, sOff: nat,
      n: nat)
    requires Matched(left, right) && n == |left| >= 3
    requires sOff + N.Switches(n) <= sw.Length && vOff + N.WireLength(n) <= inter.Length
    requires forall k :: sOff <= k < sOff + N.Switches(n) ==> !sw[k].isSet
    modifies inter, sw
    ensures Routed(left, right, sw[..], sOff, inter[..], vOff)
    ensures OnlyWithin(sw[..], old(sw[..]), sOff, sOff + N.Switches(n))
    ensures OnlyWithin(inter[..], old(inter[..]), vOff, vOff + N.WireLength(n))
    decreases n, 1
  {
    hide Routed, Matched, LevelState, AllDone, N.Switches, N.WireLength, N.Wires, LevelOf;
    var leftSwitchCt := n / 2;
    var rightSwitchCt := leftSwitchCt - 1 + n % 2;
    var numLeftVars, numRightVars := leftSwitchCt * 2, rightSwitchCt * 2;
    N.WiresSplit(n);
    WireOffsets(n);
    var d, s := RouteLevel(left, right, inter, vOff, sw, sOff, n);
    ghost var v := LevelOf(left, right);
    LevelSubnetworks(s, left, right, d, sw[..], sOff, inter[..], vOff);
    ghost var sw1, w1 := sw[..], inter[..];

    var topVars := vOff + numLeftVars + numRightVars;
    var topSwitches := sOff + leftSwitchCt + rightSwitchCt;
    RouteHalves(d, inter, topVars, sw, topSwitches, n);
    LevelFrame(v, s, left, right, d, sw1, sw[..], sOff, w1, inter[..], vOff);
    LevelJoins(s, left, right, d, sw[..], sOff, inter[..], vOff);
  }

  method TopVarCount(topSwc: nat, topSize: nat) returns (topVarc: int)
    requires topSize >= 1 && topSwc == N.Switches(topSize)
    ensures topVarc == N.Wires(topSize)
  {
    topVarc := 2 * topSwc - topSize;
  }

  lemma LevelSubnetworks(s: Routing, left: seq<Packet>, right: seq<Packet>, d: Desk, sw: seq<Switch>, sOff: nat,
      w: seq<MemOp>, vOff: nat)
    requires Matched(left, right) && |left| >= 3 &&
        LevelState(LevelOf(left, right), s, left, right, d, sw, sOff, w, vOff) && AllDone(s)
    ensures DeskSized(d, |left|) && Matched(d.topLeft, d.topRight) && Matched(d.botLeft, d.botRight)
    ensures LevelOf(left, right).n == |left|
  {
    hide LevelState, Matched, LevelOf, AllDone, Coloured, DeskOk, Level.Valid;
    var v := LevelOf(left, right);
    LevelParts(v, s, left, right, d, sw, sOff, w, vOff);
    SubnetworkMatched(v, s, left, right, d, false);
    SubnetworkMatched(v, s, left, right, d, true);
  }

  // ----- the whole network -----

  /** `order[k]` is the input that ends at position `k`, and input `i` ends at `rank[i]`. */
  ghost predicate IsRank(order: seq<nat>, rank: seq<nat>) {
    && |rank| == |order|
    && (forall k :: 0 <= k < |order| ==> order[k] < |order| && rank[order[k]] == k)
    && (forall i :: 0 <= i < |rank| ==> rank[i] < |rank| && order[rank[i]] == i)
  }

  function Reordered(input: seq<MemOp>, order: seq<nat>): (r: seq<MemOp>)
    requires |order| == |input| && forall k :: 0 <= k < |order| ==> order[k] < |input|
    ensures |r| == |input|
  {
    seq(|order|, k requires 0 <= k < |order| => input[order[k]])
  }

  /** The source and destination of every packet, from the order the sort found. */
  method MakePackets(input: seq<MemOp>, order: seq<nat>, rank: seq<nat>) returns (left: seq<Packet>, right: seq<Packet>)
    requires |order| == |input| && IsRank(order, rank)
    ensures Matched(left, right) && |left| == |input| && Datas(left) == input && Datas(right) == Reordered(input, order)
  {
    left := seq(|input|, i requires 0 <= i < |input| => Packet(input[i], i, rank[i], false));
    right := seq(|input|, k requires 0 <= k < |input| => left[order[k]]);
  }

  /**
   Routes every input to its place in the given order. The flat arrays then hold wire values that satisfy
   every switch equation, and evaluating the network under the chosen switches yields the reordered input.
   A network narrower than two is refused.
   */
  method WakRoute(input: seq<MemOp>, order: seq<nat>, rank: seq<nat>, inter: array<MemOp>, output: array<MemOp>,
      sw: array<Switch>)
    requires |order| == |input| == output.Length && IsRank(order, rank) && inter != output
    requires sw.Length == N.Switches(|input|) && (|input| >= 2 ==> inter.Length == N.Wires(|input|))
    modifies inter, output, sw
    ensures |input| < 2 ==> output[..] == old(output[..]) && inter[..] == old(inter[..])
    ensures |input| >= 2 ==> |inter[..]| == N.WireLength(|input|) && output[..] == Reordered(input, order)
    ensures |input| >= 2 ==> N.WiresOk(|input|, Swaps(sw[..]), inter[..], input, output[..])
    ensures |input| >= 2 ==> N.Eval(|input|, Swaps(sw[..]), input) == output[..]
  {
    hide Matched, N.Switches, N.WiresOk, N.Eval, N.Wires, N.WireLength, IsRank;
    var i := 0;
    while i < sw.Length
      invariant 0 <= i <= sw.Length && forall k :: 0 <= k < i ==> !sw[k].isSet
      invariant output[..] == old(output[..]) && inter[..] == old(inter[..])
    {
      sw[i] := Switch(sw[i].swap, false);
      i := i + 1;
    }
    if |input| < 2 {
      return;
    }
    RankSizes(order, rank);
    var left, right := MakePackets(input, order, rank);
    i := 0;
    while i < output.Length
      invariant 0 <= i <= output.Length && output[..i] == Datas(right)[..i]
      invariant forall k :: 0 <= k < sw.Length ==> !sw[k].isSet
    {
      output[i] := right[i].data;
      i := i + 1;
    }
    assert output[..] == Datas(right);
    WholeLength(|input|);
    Route(left, right, inter, 0, sw, 0, |input|);
    RoutedWhole(left, right, sw[..], inter[..]);
    N.EquationsDetermineOutputs(|input|, Swaps(sw[..]), inter[..], input, output[..]);
  }

  /** In the reordered data every input stands at its destination, and nothing is lost. */
  lemma ReorderedAt(input: seq<MemOp>, order: seq<nat>, rank: seq<nat>)
    requires |order| == |input| && IsRank(order, rank)
    ensures forall i :: 0 <= i < |input| ==> rank[i] < |input| && Reordered(input, order)[rank[i]] == input[i]
  {
  }

  lemma RankSizes(order: seq<nat>, rank: seq<nat>)
    requires IsRank(order, rank)
    ensures |rank| == |order| && forall k :: 0 <= k < |order| ==> order[k] < |order|
  {
  }

  lemma WholeLength(n: nat)
    requires n >= 2
    ensures N.WireLength(n) == N.Wires(n)
  {
  }

  lemma RoutedWhole(left: seq<Packet>, right: seq<Packet>, sw: seq<Switch>, w: seq<MemOp>)
    requires Routed(left, right, sw, 0, w, 0) && |left| >= 2 && |sw| == N.Switches(|left|) &&
        |w| == N.WireLength(|left|)
    ensures N.WiresOk(|left|, Swaps(sw), w, Datas(left), Datas(right))
  {
    hide N.WiresOk, N.Switches, N.WireLength;
    assert sw[0..|sw|] == sw && w[0..|w|] == w;
  }
}
