/**
 What a fully routed level amounts to: its switches obey their equations, and each subnetwork
 receives exactly one packet of every pair, matched with where it has to go.
 */
module WaksmanLevel {
  import opened MemoryOp
  import N = WaksmanNetwork
  import opened WaksmanChain
  import opened WaksmanPlacement
  import opened WaksmanRouter

  // ----- who goes where -----

  /** The positions of pair `k` whose packets go through the top and through the bottom. */
  function LeftMember(v: Level, s: Routing, k: nat, bottom: bool): nat
    requires v.n >= 3 && Sized(s, v.n) && k < if bottom then (v.n + 1) / 2 else v.n / 2
  {
    if 2 * k + 1 >= v.n then v.n - 1 else if s.lbot[2 * k] == bottom then 2 * k else 2 * k + 1
  }

  function RightMember(v: Level, s: Routing, k: nat, bottom: bool): nat
    requires v.n >= 3 && Sized(s, v.n) && k < if bottom then (v.n + 1) / 2 else v.n / 2
  {
    if k >= v.R() then (if bottom then v.n - 1 else v.n - 2) else if s.rbot[2 * k] == bottom then 2 * k else 2 * k + 1
  }

  lemma LeftMemberOk(v: Level, s: Routing, k: nat, bottom: bool)
    requires Coloured(v, s) && AllDone(s) && k < if bottom then (v.n + 1) / 2 else v.n / 2
    ensures var i := LeftMember(v, s, k, bottom); i < v.n && i / 2 == k && s.lbot[i] == bottom
  {
    if 2 * k + 1 < v.n {
      assert Partner(2 * k) == 2 * k + 1;
    }
  }

  lemma RightMemberOk(v: Level, s: Routing, k: nat, bottom: bool)
    requires Coloured(v, s) && AllDone(s) && k < if bottom then (v.n + 1) / 2 else v.n / 2
    ensures var j := RightMember(v, s, k, bottom); j < v.n && j / 2 == k && s.rbot[j] == bottom
  {
    if k < v.R() {
      assert Partner(2 * k) == 2 * k + 1;
    }
  }

  /** The subnetworks' packets at position `k`. */
  lemma HandedLeft(v: Level, s: Routing, left: seq<Packet>, right: seq<Packet>, d: Desk, i: nat)
    requires v.Valid() && Coloured(v, s) && |left| == |right| == v.n && Sized(s, v.n) && DeskOk(v, s, left, right, d) &&
        AllDone(s) && i < v.n
    ensures DeskSized(d, v.n) && (i / 2 < v.n / 2 || s.lbot[i])
    ensures var j := v.p[i]; var pk := Packet(left[i].data, i / 2, j / 2, false);
            && j < v.n && (j / 2 < v.n / 2 || s.lbot[i]) && v.q[j] == i && s.rbot[j] == s.lbot[i]
            && (if s.lbot[i] then d.botLeft else d.topLeft)[i / 2] == pk
            && (if s.lbot[i] then d.botRight else d.topRight)[j / 2] == pk
  {
    var j := v.p[i];
    PacketAt(v, i);
    assert s.ldone[i] && s.rdone[j];
  }

  lemma SubnetworkMatched(v: Level, s: Routing, left: seq<Packet>, right: seq<Packet>, d: Desk, bottom: bool)
    requires v.Valid() && Coloured(v, s) && |left| == |right| == v.n && Sized(s, v.n) && DeskOk(v, s, left, right, d) &&
        AllDone(s)
    ensures DeskSized(d, v.n) && if bottom then Matched(d.botLeft, d.botRight) else Matched(d.topLeft, d.topRight)
  {
    hide Coloured, DeskOk, AllDone, Level.Valid;
    ColouredBasics(v, s);
    HandedLeft(v, s, left, right, d, 0);
    var l, r := if bottom then d.botLeft else d.topLeft, if bottom then d.botRight else d.topRight;
    forall k | 0 <= k < |l|
      ensures l[k].dst < |l| && r[l[k].dst].src == k && r[l[k].dst].data == l[k].data && !l[k].routed
    {
      LeftMemberOk(v, s, k, bottom);
      HandedLeft(v, s, left, right, d, LeftMember(v, s, k, bottom));
    }
    forall k | 0 <= k < |l|
      ensures r[k].src < |l| && l[r[k].src].dst == k && !r[k].routed
    {
      RightMemberOk(v, s, k, bottom);
      var j := RightMember(v, s, k, bottom);
      PacketAt(v, j);
      AgreesAt(v, s, j);
      HandedLeft(v, s, left, right, d, v.q[j]);
    }
  }

  lemma AgreesAt(v: Level, s: Routing, j: nat)
    requires Coloured(v, s) && j < v.n
    ensures v.Valid() && v.q[j] < v.n && s.lbot[v.q[j]] == s.rbot[j]
  {
  }

  // ----- the equations of the level -----

  function Swaps(sw: seq<Switch>): (r: seq<bool>)
    ensures |r| == |sw| && forall k :: 0 <= k < |sw| ==> r[k] == sw[k].swap
  {
    seq(|sw|, k requires 0 <= k < |sw| => sw[k].swap)
  }

  /** The switches and wires of the network of width `n` at the given places of the flat arrays. */
  function SwitchSlice(sw: seq<Switch>, sOff: nat, n: nat): (r: seq<bool>)
    requires sOff + N.Switches(n) <= |sw|
    ensures |r| == N.Switches(n) && forall k :: 0 <= k < |r| ==> r[k] == sw[sOff + k].swap
  {
    Swaps(sw[sOff..sOff + N.Switches(n)])
  }

  function WireSlice(w: seq<MemOp>, vOff: nat, n: nat): (r: seq<MemOp>)
    requires n >= 1 && (n >= 2 ==> vOff + N.WireLength(n) <= |w|)
    ensures |r| == N.WireLength(n) && forall k :: 0 <= k < |r| ==> r[k] == w[vOff + k]
  {
    if n == 1 then [] else w[vOff..vOff + N.WireLength(n)]
  }

  lemma LeftEquation(v: Level, s: Routing, left: seq<Packet>, sw: seq<Switch>, sOff: nat, w: seq<MemOp>, vOff: nat,
      a: nat)
    requires Coloured(v, s) && AllDone(s) && |left| == v.n && a < v.L()
    requires SwitchesPlaced(sw, sOff, v.L(), s.ldone, s.lbot) &&
        WiresPlaced(w, vOff, v.L(), Datas(left), s.ldone, s.lbot)
    ensures sOff + a < |sw| && vOff + 2 * a + 1 < |w|
    ensures var swap, x, y := sw[sOff + a].swap, left[2 * a].data, left[2 * a + 1].data;
            && w[vOff + 2 * a] == N.Upper(swap, x, y) && w[vOff + 2 * a + 1] == N.Lower(swap, x, y)
            && w[vOff + 2 * a] == left[LeftMember(v, s, a, false)].data
            && w[vOff + 2 * a + 1] == left[LeftMember(v, s, a, true)].data
  {
    hide Half, Agrees;
    var i := 2 * a;
    assert Partner(i) == i + 1 && i / 2 == a && (i + 1) / 2 == a;
    assert s.ldone[i] && s.ldone[i + 1];
    assert s.lbot[i] != s.lbot[Partner(i)];
    assert w[vOff + Slot(i, s.lbot[i])] == Datas(left)[i] && w[vOff + Slot(i + 1, s.lbot[i + 1])] == Datas(left)[i + 1];
    assert sw[sOff + i / 2] == Switch(s.lbot[i] != Odd(i), true);
  }

  lemma RightSwitch(v: Level, s: Routing, sw: seq<Switch>, sOff: nat, a: nat)
    requires Coloured(v, s) && AllDone(s) && a < v.R() && SwitchesPlaced(sw, sOff + v.L(), v.R(), s.rdone, s.rbot)
    ensures sOff + v.L() + a < |sw| && sw[sOff + v.L() + a].swap == s.rbot[2 * a] && s.rbot[2 * a + 1] != s.rbot[2 * a]
  {
    hide Half, Agrees;
    var i := 2 * a;
    assert Partner(i) == i + 1 && i / 2 == a;
    assert s.rdone[i] && s.rdone[i + 1];
    assert s.rbot[i] != s.rbot[Partner(i)];
    assert sw[sOff + v.L() + i / 2] == Switch(s.rbot[i] != Odd(i), true);
  }

  /** Where the wire from a subnetwork into right switch `a` lies in the flat wire array. */
  function RightWireAt(v: Level, vOff: nat, a: nat, bottom: bool): nat {
    if v.n == 3 then (if bottom then vOff + 2 else vOff)
    else vOff + 2 * v.L() + 2 * a + if bottom then 1 else 0
  }

  ghost predicate SameData(v: Level, ldata: seq<MemOp>, rdata: seq<MemOp>) {
    |ldata| == |rdata| == v.n == |v.q| && forall j :: 0 <= j < v.n ==> v.q[j] < v.n && rdata[j] == ldata[v.q[j]]
  }

  /** That wire carries the packet that comes from there. */
  lemma RightWireIs(v: Level, s: Routing, ldata: seq<MemOp>, rdata: seq<MemOp>, w: seq<MemOp>, vOff: nat, a: nat,
      bottom: bool)
    requires Coloured(v, s) && AllDone(s) && SameData(v, ldata, rdata) && a < v.R()
    requires WiresPlaced(w, vOff, v.L(), ldata, s.ldone, s.lbot) && RightWiresPlaced(v, s, rdata, w, vOff)
    ensures RightMember(v, s, a, bottom) < v.n && RightWireAt(v, vOff, a, bottom) < |w|
    ensures w[RightWireAt(v, vOff, a, bottom)] == rdata[RightMember(v, s, a, bottom)]
  {
    hide Half, Agrees, Split, Coloured, WiresPlaced, Level.Valid;
    ColouredBasics(v, s);
    RightMemberOk(v, s, a, bottom);
    var j := RightMember(v, s, a, bottom);
    assert s.rdone[j];
    if v.n == 3 {
      assert a == 0 && (j == 0 || j == 1);
      if !bottom { TopOfThree(v, s, ldata, rdata, w, vOff, j); }
    } else {
      WirePlacedAt(w, vOff + 2 * v.L(), v.R(), rdata, s.rdone, s.rbot, j);
    }
  }

  lemma WirePlacedAt(w: seq<MemOp>, off: nat, m: nat, data: seq<MemOp>, done: seq<bool>, bot: seq<bool>, i: nat)
    requires WiresPlaced(w, off, m, data, done, bot) && i < 2 * m && done[i]
    ensures Slot(i, bot[i]) < 2 * m && off + 2 * m <= |w| && w[off + 2 * (i / 2) + if bot[i] then 1 else 0] == data[i]
  {
    SlotBound(i, m, bot[i]);
    assert w[off + Slot(i, bot[i])] == data[i];
  }

  /** In a width-3 level the top packet has one wire all the way. */
  lemma TopOfThree(v: Level, s: Routing, ldata: seq<MemOp>, rdata: seq<MemOp>, w: seq<MemOp>, vOff: nat, j: nat)
    requires Coloured(v, s) && AllDone(s) && SameData(v, ldata, rdata) && v.n == 3 && j < 2 && !s.rbot[j]
    requires WiresPlaced(w, vOff, v.L(), ldata, s.ldone, s.lbot)
    ensures vOff < |w| && w[vOff] == rdata[j]
  {
    hide Half, Split, Coloured, WiresPlaced, Level.Valid;
    ColouredBasics(v, s);
    AgreesAt(v, s, j);
    var i := v.q[j];
    assert s.ldone[i];
    assert i < 2;
    WirePlacedAt(w, vOff, v.L(), ldata, s.ldone, s.lbot, i);
  }

  /** The flat arrays hold, in their slices, wires and switches that satisfy the level's equations. */
  lemma LevelLeftOk(v: Level, s: Routing, left: seq<Packet>, sw: seq<Switch>, sOff: nat, w: seq<MemOp>, vOff: nat)
    requires Coloured(v, s) && AllDone(s) && |left| == v.n
    requires sOff + N.Switches(v.n) <= |sw| && vOff + N.WireLength(v.n) <= |w|
    requires SwitchesPlaced(sw, sOff, v.L(), s.ldone, s.lbot) &&
        WiresPlaced(w, vOff, v.L(), Datas(left), s.ldone, s.lbot)
    ensures N.LeftOk(v.n, SwitchSlice(sw, sOff, v.n), WireSlice(w, vOff, v.n), Datas(left))
  {
    hide Coloured, AllDone, Datas, SwitchesPlaced, WiresPlaced, N.Switches, SwitchSlice, WireSlice;
    ColouredBasics(v, s);
    N.WiresNonNegative(v.n);
    forall a | 0 <= a < N.Top(v.n)
      ensures var S, W, ins := SwitchSlice(sw, sOff, v.n), WireSlice(w, vOff, v.n), Datas(left);
              && N.LeftWire(v.n, W, 2 * a) == N.Upper(S[a], ins[2 * a], ins[2 * a + 1])
              && N.LeftWire(v.n, W, 2 * a + 1) == N.Lower(S[a], ins[2 * a], ins[2 * a + 1])
    {
      LeftEquation(v, s, left, sw, sOff, w, vOff, a);
    }
  }

  lemma LevelRightOk(v: Level, s: Routing, ldata: seq<MemOp>, rdata: seq<MemOp>, sw: seq<Switch>, sOff: nat,
      w: seq<MemOp>, vOff: nat)
    requires Coloured(v, s) && AllDone(s) && SameData(v, ldata, rdata)
    requires sOff + N.Switches(v.n) <= |sw| && vOff + N.WireLength(v.n) <= |w|
    requires SwitchesPlaced(sw, sOff + v.L(), v.R(), s.rdone, s.rbot)
    requires WiresPlaced(w, vOff, v.L(), ldata, s.ldone, s.lbot) && RightWiresPlaced(v, s, rdata, w, vOff)
    ensures N.RightOk(v.n, SwitchSlice(sw, sOff, v.n), WireSlice(w, vOff, v.n), rdata)
  {
    hide Coloured, AllDone, SwitchesPlaced, WiresPlaced, RightWiresPlaced, N.Switches, SwitchSlice, WireSlice,
        N.RightWire, N.WireLength;
    ColouredBasics(v, s);
    N.WiresSplit(v.n);
    forall a | 0 <= a < N.Rights(v.n)
      ensures var S, W := SwitchSlice(sw, sOff, v.n), WireSlice(w, vOff, v.n);
              && rdata[2 * a] == N.Upper(S[N.Top(v.n) + a], N.RightWire(v.n, W, 2 * a), N.RightWire(v.n, W, 2 * a + 1))
              && rdata[2 * a + 1] == N.Lower(S[N.Top(v.n) + a], N.RightWire(v.n, W, 2 * a),
                  N.RightWire(v.n, W, 2 * a + 1))
    {
      RightPairOk(v, s, ldata, rdata, sw, sOff, w, vOff, a);
      assert SwitchSlice(sw, sOff, v.n)[v.L() + a] == sw[sOff + (v.L() + a)].swap;
    }
  }

  lemma RightPairOk(v: Level, s: Routing, ldata: seq<MemOp>, rdata: seq<MemOp>, sw: seq<Switch>, sOff: nat,
      w: seq<MemOp>, vOff: nat, a: nat)
    requires Coloured(v, s) && AllDone(s) && SameData(v, ldata, rdata) && a < v.R() && vOff + N.WireLength(v.n) <= |w|
    requires SwitchesPlaced(sw, sOff + v.L(), v.R(), s.rdone, s.rbot)
    requires WiresPlaced(w, vOff, v.L(), ldata, s.ldone, s.lbot) && RightWiresPlaced(v, s, rdata, w, vOff)
    ensures sOff + v.L() + a < |sw|
    ensures var W, swap := WireSlice(w, vOff, v.n), sw[sOff + v.L() + a].swap;
            && rdata[2 * a] == N.Upper(swap, N.RightWire(v.n, W, 2 * a), N.RightWire(v.n, W, 2 * a + 1))
            && rdata[2 * a + 1] == N.Lower(swap, N.RightWire(v.n, W, 2 * a), N.RightWire(v.n, W, 2 * a + 1))
  {
    hide Coloured, AllDone, SwitchesPlaced, WiresPlaced, RightWiresPlaced, N.Switches, WireSlice, N.RightWire,
        N.WireLength;
    ColouredBasics(v, s);
    RightSwitch(v, s, sw, sOff, a);
    RightWireIn(v, s, ldata, rdata, w, vOff, a, false);
    RightWireIn(v, s, ldata, rdata, w, vOff, a, true);
  }

  lemma RightWireIn(v: Level, s: Routing, ldata: seq<MemOp>, rdata: seq<MemOp>, w: seq<MemOp>, vOff: nat, a: nat,
      bottom: bool)
    requires Coloured(v, s) && AllDone(s) && SameData(v, ldata, rdata) && a < v.R() && vOff + N.WireLength(v.n) <= |w|
    requires WiresPlaced(w, vOff, v.L(), ldata, s.ldone, s.lbot) && RightWiresPlaced(v, s, rdata, w, vOff)
    ensures v.n >= 3 && RightMember(v, s, a, bottom) < v.n
    ensures N.RightWire(v.n, WireSlice(w, vOff, v.n), 2 * a + if bottom then 1 else 0) ==
        rdata[RightMember(v, s, a, bottom)]
  {
    hide Coloured, AllDone, WiresPlaced, RightWiresPlaced, N.Switches, SameData, RightMember, WireSlice;
    ColouredBasics(v, s);
    N.WiresNonNegative(v.n);
    RightWireIs(v, s, ldata, rdata, w, vOff, a, bottom);
  }

  // ----- inputs and outputs of the subnetworks -----

  /** What the wires feed into the subnetworks is what the router hands to them. */
  lemma SubnetworkInputs(v: Level, s: Routing, left: seq<Packet>, right: seq<Packet>, d: Desk, sw: seq<Switch>,
      sOff: nat, w: seq<MemOp>, vOff: nat)
    requires LevelState(v, s, left, right, d, sw, sOff, w, vOff) && AllDone(s) && vOff + N.WireLength(v.n) <= |w|
    ensures var W := WireSlice(w, vOff, v.n);
            N.TopIns(v.n, W) == Datas(d.topLeft) && N.BottomIns(v.n, W, Datas(left)) == Datas(d.botLeft)
  {
    hide LevelState, Coloured, AllDone, DeskOk, SwitchesPlaced, WiresPlaced, N.Switches, WireSlice, Datas, Level.Valid,
        N.TopIns, N.BottomIns;
    LevelParts(v, s, left, right, d, sw, sOff, w, vOff);
    ColouredBasics(v, s);
    TopInputs(v, s, left, right, d, sw, sOff, w, vOff);
    BottomInputs(v, s, left, right, d, sw, sOff, w, vOff);
  }

  lemma TopInputs(v: Level, s: Routing, left: seq<Packet>, right: seq<Packet>, d: Desk, sw: seq<Switch>, sOff: nat,
      w: seq<MemOp>, vOff: nat)
    requires LevelState(v, s, left, right, d, sw, sOff, w, vOff) && AllDone(s) && vOff + N.WireLength(v.n) <= |w| &&
        v.n >= 3
    ensures N.TopIns(v.n, WireSlice(w, vOff, v.n)) == Datas(d.topLeft)
  {
    hide LevelState, Coloured, AllDone, DeskOk, SwitchesPlaced, WiresPlaced, N.Switches, WireSlice, Datas, Level.Valid,
        LeftMember;
    LevelParts(v, s, left, right, d, sw, sOff, w, vOff);
    ColouredBasics(v, s);
    N.WiresNonNegative(v.n);
    var W := WireSlice(w, vOff, v.n);
    HandedLeft(v, s, left, right, d, 0);
    forall k | 0 <= k < N.Top(v.n) ensures N.TopIns(v.n, W)[k] == Datas(d.topLeft)[k] {
      LeftEquation(v, s, left, sw, sOff, w, vOff, k);
      LeftMemberOk(v, s, k, false);
      HandedLeft(v, s, left, right, d, LeftMember(v, s, k, false));
    }
  }

  lemma BottomInputs(v: Level, s: Routing, left: seq<Packet>, right: seq<Packet>, d: Desk, sw: seq<Switch>, sOff: nat,
      w: seq<MemOp>, vOff: nat)
    requires LevelState(v, s, left, right, d, sw, sOff, w, vOff) && AllDone(s) && vOff + N.WireLength(v.n) <= |w| &&
        v.n >= 3 && |left| == v.n
    ensures N.BottomIns(v.n, WireSlice(w, vOff, v.n), Datas(left)) == Datas(d.botLeft)
  {
    hide LevelState, Coloured, AllDone, DeskOk, SwitchesPlaced, WiresPlaced, N.Switches, WireSlice, Datas, Level.Valid,
        LeftMember;
    LevelParts(v, s, left, right, d, sw, sOff, w, vOff);
    ColouredBasics(v, s);
    N.WiresNonNegative(v.n);
    var W := WireSlice(w, vOff, v.n);
    HandedLeft(v, s, left, right, d, 0);
    forall k | 0 <= k < N.Bottom(v.n) ensures N.BottomIns(v.n, W, Datas(left))[k] == Datas(d.botLeft)[k] {
      LeftMemberOk(v, s, k, true);
      HandedLeft(v, s, left, right, d, LeftMember(v, s, k, true));
      if 2 * k + 1 < v.n {
        LeftEquation(v, s, left, sw, sOff, w, vOff, k);
      }
    }
  }

  lemma LevelParts(v: Level, s: Routing, left: seq<Packet>, right: seq<Packet>, d: Desk, sw: seq<Switch>, sOff: nat,
      w: seq<MemOp>, vOff: nat)
    requires LevelState(v, s, left, right, d, sw, sOff, w, vOff)
    ensures v.Valid() && Coloured(v, s) && |left| == |right| == v.n && Sized(s, v.n) && DeskOk(v, s, left, right, d)
    ensures SwitchesPlaced(sw, sOff, v.L(), s.ldone, s.lbot) && SwitchesPlaced(sw, sOff + v.L(), v.R(), s.rdone, s.rbot)
    ensures WiresPlaced(w, vOff, v.L(), Datas(left), s.ldone, s.lbot) && RightWiresPlaced(v, s, Datas(right), w, vOff)
  {
    hide DeskOk, SwitchesPlaced, WiresPlaced, RightWiresPlaced;
  }

  /** What the router expects from the subnetworks is what their output wires carry. */
  lemma SubnetworkOutputs(v: Level, s: Routing, left: seq<Packet>, right: seq<Packet>, d: Desk, sw: seq<Switch>,
      sOff: nat, w: seq<MemOp>, vOff: nat)
    requires LevelState(v, s, left, right, d, sw, sOff, w, vOff) && AllDone(s) && vOff + N.WireLength(v.n) <= |w|
    requires SameData(v, Datas(left), Datas(right))
    ensures var W := WireSlice(w, vOff, v.n);
            N.TopOuts(v.n, W, Datas(right)) == Datas(d.topRight) &&
                N.BottomOuts(v.n, W, Datas(right)) == Datas(d.botRight)
  {
    hide LevelState, Coloured, AllDone, DeskOk, SwitchesPlaced, WiresPlaced, RightWiresPlaced, N.Switches, N.WireLength,
        WireSlice, Datas, Level.Valid, N.RightWire, SameData;
    LevelParts(v, s, left, right, d, sw, sOff, w, vOff);
    ColouredBasics(v, s);
    var W, outs := WireSlice(w, vOff, v.n), Datas(right);
    HandedLeft(v, s, left, right, d, 0);
    forall k | 0 <= k < N.Top(v.n) ensures N.TopOuts(v.n, W, outs)[k] == Datas(d.topRight)[k] {
      HandedRight(v, s, left, right, d, k, false);
      if k < v.R() { RightWireIn(v, s, Datas(left), outs, w, vOff, k, false); }
    }
    forall k | 0 <= k < N.Bottom(v.n) ensures N.BottomOuts(v.n, W, outs)[k] == Datas(d.botRight)[k] {
      HandedRight(v, s, left, right, d, k, true);
      if k < v.R() { RightWireIn(v, s, Datas(left), outs, w, vOff, k, true); }
    }
  }

  lemma HandedRight(v: Level, s: Routing, left: seq<Packet>, right: seq<Packet>, d: Desk, k: nat, bottom: bool)
    requires v.Valid() && Coloured(v, s) && |left| == |right| == v.n && Sized(s, v.n) && DeskOk(v, s, left, right, d) &&
        AllDone(s)
    requires SameData(v, Datas(left), Datas(right)) && k < if bottom then (v.n + 1) / 2 else v.n / 2
    ensures DeskSized(d, v.n) && RightMember(v, s, k, bottom) < v.n
    ensures (if bottom then d.botRight else d.topRight)[k].data == right[RightMember(v, s, k, bottom)].data
  {
    hide Coloured, DeskOk, AllDone, Level.Valid, RightMember;
    ColouredBasics(v, s);
    RightMemberOk(v, s, k, bottom);
    var j := RightMember(v, s, k, bottom);
    AgreesAt(v, s, j);
    PacketAt(v, j);
    HandedLeft(v, s, left, right, d, v.q[j]);
    assert Datas(right)[j] == Datas(left)[v.q[j]];
  }
}
