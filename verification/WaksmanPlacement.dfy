/**
 What the router has written for the packets it has placed: switch settings, wire values and the
 packets handed to the two subnetworks, all read off the routing of the level.
 */
module WaksmanPlacement {
  import opened MemoryOp
  import opened WaksmanChain

  datatype Switch = Switch(swap: bool, isSet: bool)

  datatype Packet = Packet(data: MemOp, src: nat, dst: nat, routed: bool)

  predicate Odd(i: nat) { i % 2 == 1 }

  /** The wire of a switch that leads to the top or the bottom subnetwork. */
  function Slot(i: nat, bottom: bool): nat {
    2 * (i / 2) + if bottom then 1 else 0
  }

  lemma SlotBound(i: nat, m: nat, bottom: bool)
    ensures i < 2 * m ==> Slot(i, bottom) < 2 * m
  {
  }

  // ----- switches -----

  /** Switches off, ..., off + m - 1 send the routed packets of their pairs the right way; untouched ones are unset. */
  ghost predicate SwitchesPlaced(sw: seq<Switch>, off: nat, m: nat, done: seq<bool>, bot: seq<bool>) {
    && off + m <= |sw| && 2 * m <= |done| == |bot|
    && forall i :: 0 <= i < 2 * m ==>
         if done[i] then sw[off + i / 2] == Switch(bot[i] != Odd(i), true)
         else done[Partner(i)] || !sw[off + i / 2].isSet
  }

  lemma SwitchAfter(sw: seq<Switch>, off: nat, m: nat, done: seq<bool>, bot: seq<bool>, i: nat, bottom: bool)
    requires SwitchesPlaced(sw, off, m, done, bot) && i < 2 * m && !done[i]
    requires done[Partner(i)] ==> bot[Partner(i)] != bottom
    ensures SwitchesPlaced(sw[off + i / 2 := Switch(bottom != Odd(i), true)], off, m, done[i := true], bot[i := bottom])
  {
    var sw', done', bot' := sw[off + i / 2 := Switch(bottom != Odd(i), true)], done[i := true], bot[i := bottom];
    forall k | 0 <= k < 2 * m
      ensures if done'[k] then sw'[off + k / 2] == Switch(bot'[k] != Odd(k), true)
              else done'[Partner(k)] || !sw'[off + k / 2].isSet
    {
      if k / 2 == i / 2 { assert k == i || k == Partner(i); }
    }
  }

  /** A switch met again is set the way the second packet needs it. */
  lemma SwitchRead(sw: seq<Switch>, off: nat, m: nat, done: seq<bool>, bot: seq<bool>, i: nat, bottom: bool)
    requires SwitchesPlaced(sw, off, m, done, bot) && i < 2 * m && !done[i]
    requires done[Partner(i)] ==> bot[Partner(i)] != bottom
    ensures if done[Partner(i)] then sw[off + i / 2] == Switch(bottom != Odd(i), true) else !sw[off + i / 2].isSet
  {
    PartnerFacts(i);
    assert Partner(i) / 2 == i / 2 && Odd(Partner(i)) != Odd(i);
  }

  // ----- wires -----

  ghost predicate WiresPlaced(w: seq<MemOp>, off: nat, m: nat, data: seq<MemOp>, done: seq<bool>, bot: seq<bool>) {
    && off + 2 * m <= |w| && 2 * m <= |done| == |bot| == |data|
    && forall i :: 0 <= i < 2 * m && done[i] ==> w[off + Slot(i, bot[i])] == data[i]
  }

  lemma WireAfter(w: seq<MemOp>, off: nat, m: nat, data: seq<MemOp>, done: seq<bool>, bot: seq<bool>, i: nat,
      bottom: bool)
    requires WiresPlaced(w, off, m, data, done, bot) && i < 2 * m && !done[i]
    requires done[Partner(i)] ==> bot[Partner(i)] != bottom
    ensures WiresPlaced(w[off + Slot(i, bottom) := data[i]], off, m, data, done[i := true], bot[i := bottom])
  {
    var w', done', bot' := w[off + Slot(i, bottom) := data[i]], done[i := true], bot[i := bottom];
    forall k | 0 <= k < 2 * m && done'[k] ensures w'[off + Slot(k, bot'[k])] == data[k] {
      if k / 2 == i / 2 { assert k == i || k == Partner(i); }
    }
  }

  // ----- packets for the subnetworks -----

  /** Packet `i` as its subnetwork sees it. */
  function SubPacket(v: Level, data: seq<MemOp>, i: nat): Packet
    requires i < |data| && i < |v.p|
  {
    Packet(data[i], i / 2, v.p[i] / 2, false)
  }

  /** Position `i` of the routed packets is held by the packet `pk(i)` in the subnetwork it goes to. */
  ghost predicate HandedOver(top: seq<Packet>, bottom: seq<Packet>, done: seq<bool>, bot: seq<bool>, pks: seq<Packet>) {
    && |done| == |bot| == |pks| && |top| == |done| / 2 && |bottom| == (|done| + 1) / 2
    && forall i :: 0 <= i < |done| && done[i] ==>
         if bot[i] then bottom[i / 2] == pks[i] else i / 2 < |top| && top[i / 2] == pks[i]
  }

  /** Two routed packets that share a pair, or the two end links, go different ways. */
  ghost predicate Apart(done: seq<bool>, bot: seq<bool>) {
    && |done| == |bot|
    && forall i, k :: 0 <= i < |done| && 0 <= k < |done| && i != k && i / 2 == k / 2 && done[i] && done[k] ==>
        bot[i] != bot[k]
  }

  lemma HandOver(top: seq<Packet>, bottom: seq<Packet>, done: seq<bool>, bot: seq<bool>, pks: seq<Packet>, i: nat,
      b: bool)
    requires HandedOver(top, bottom, done, bot, pks) && i < |done| && !done[i] && (i / 2 < |top| || b)
    requires Apart(done[i := true], bot[i := b])
    ensures HandedOver(if b then top else top[i / 2 := pks[i]], if b then bottom[i / 2 := pks[i]]
        else bottom, done[i := true], bot[i := b], pks)
  {
    var done', bot' := done[i := true], bot[i := b];
    var top', bottom' := if b then top else top[i / 2 := pks[i]], if b then bottom[i / 2 := pks[i]] else bottom;
    forall k | 0 <= k < |done| && done'[k]
      ensures if bot'[k] then bottom'[k / 2] == pks[k] else k / 2 < |top'| && top'[k / 2] == pks[k]
    {
      if k != i {
        assert done[k] && bot'[k] == bot[k];
        if k / 2 == i / 2 { assert done'[i] && bot'[i] != bot'[k]; }
      }
    }
  }

  lemma SplitApart(done: seq<bool>, bot: seq<bool>, m: nat)
    requires 2 * m <= |done| == |bot| <= 2 * m + 2 && Split(done, bot, m)
    requires |done| == 2 * m + 2 && done[2 * m] && done[2 * m + 1] ==> bot[2 * m] != bot[2 * m + 1]
    ensures Apart(done, bot)
  {
    forall i, k | 0 <= i < |done| && 0 <= k < |done| && i != k && i / 2 == k / 2 && done[i] &&
        done[k] ensures bot[i] != bot[k] {
      assert k == Partner(i);
    }
  }

  lemma ColouredApart(v: Level, s: Routing)
    requires Coloured(v, s)
    ensures Apart(s.ldone, s.lbot) && Apart(s.rdone, s.rbot)
  {
    hide Split, Agrees, Apart;
    SplitApart(s.ldone, s.lbot, v.L());
    SplitApart(s.rdone, s.rbot, v.R());
  }

  // ----- everything written for one level -----

  function Datas(pkts: seq<Packet>): (r: seq<MemOp>)
    ensures |r| == |pkts| && forall i :: 0 <= i < |r| ==> r[i] == pkts[i].data
  {
    seq(|pkts|, i requires 0 <= i < |pkts| => pkts[i].data)
  }

  /** The packets at the left and the right of a level are the same ones, and know where they come from and go to. */
  ghost predicate Matched(left: seq<Packet>, right: seq<Packet>) {
    && |left| == |right|
    && (forall i :: 0 <= i < |left| ==>
          left[i].dst < |left| && right[left[i].dst].src == i && right[left[i].dst].data == left[i].data &&
              !left[i].routed)
    && (forall j :: 0 <= j < |left| ==>
          right[j].src < |left| && left[right[j].src].dst == j && !right[j].routed)
  }

  ghost function LevelOf(left: seq<Packet>, right: seq<Packet>): (v: Level)
    requires Matched(left, right)
    ensures v.n == |left| && |v.p| == |v.q| == v.n
    ensures forall i :: 0 <= i < v.n ==> v.p[i] == left[i].dst && v.q[i] == right[i].src
    ensures v.n >= 3 ==> v.Valid()
  {
    Level(|left|, seq(|left|, i requires 0 <= i < |left| => left[i].dst),
        seq(|left|, i requires 0 <= i < |left| => right[i].src))
  }

  /** The router's own packet arrays: both sides of the level, and what goes to the subnetworks. */
  datatype Desk = Desk(left: seq<Packet>, right: seq<Packet>,
                       topLeft: seq<Packet>, topRight: seq<Packet>, botLeft: seq<Packet>, botRight: seq<Packet>)

  function SubPackets(v: Level, data: seq<MemOp>): (r: seq<Packet>)
    requires |v.p| == |data| == v.n
    ensures |r| == v.n && forall i :: 0 <= i < v.n ==> r[i] == SubPacket(v, data, i)
  {
    seq(v.n, i requires 0 <= i < v.n => SubPacket(v, data, i))
  }

  /** The same packets by right position. */
  function SubPacketsRight(v: Level, data: seq<MemOp>): (r: seq<Packet>)
    requires |v.p| == |v.q| == |data| == v.n && forall j :: 0 <= j < v.n ==> v.q[j] < v.n
    ensures |r| == v.n && forall j :: 0 <= j < v.n ==> r[j] == SubPacket(v, data, v.q[j])
  {
    seq(v.n, j requires 0 <= j < v.n => SubPacket(v, data, v.q[j]))
  }

  ghost predicate Flagged(pkts: seq<Packet>, now: seq<Packet>, done: seq<bool>) {
    |now| == |pkts| == |done| && forall i :: 0 <= i < |pkts| ==> now[i] == pkts[i].(routed := done[i])
  }

  ghost predicate DeskOk(v: Level, s: Routing, left: seq<Packet>, right: seq<Packet>, d: Desk)
    requires v.Valid() && |left| == |right| == v.n && Sized(s, v.n)
  {
    && Flagged(left, d.left, s.ldone) && Flagged(right, d.right, s.rdone)
    && HandedOver(d.topLeft, d.botLeft, s.ldone, s.lbot, SubPackets(v, Datas(left)))
    && HandedOver(d.topRight, d.botRight, s.rdone, s.rbot, SubPacketsRight(v, Datas(left)))
  }

  /** Where the router writes the value of a right wire; a width-3 level has a single slot left for them. */
  function RightSlot(v: Level, vOff: nat, j: nat, bottom: bool): int {
    vOff + 2 * v.L() + Slot(j, bottom) - if v.n == 3 && bottom then 1 else 0
  }

  /** Of the two right wires of a width-3 level only the lower one has a slot of its own. */
  ghost predicate RightWiresPlaced(v: Level, s: Routing, data: seq<MemOp>, w: seq<MemOp>, vOff: nat)
    requires v.n >= 3 && Sized(s, v.n) && |data| == v.n
  {
    if v.n == 3 then vOff + 2 < |w| && forall j :: 0 <= j < 2 && s.rdone[j] && s.rbot[j] ==> w[vOff + 2] == data[j]
    else WiresPlaced(w, vOff + 2 * v.L(), v.R(), data, s.rdone, s.rbot)
  }

  ghost predicate Written(v: Level, s: Routing, ldata: seq<MemOp>, rdata: seq<MemOp>, sw: seq<Switch>, sOff: nat,
      w: seq<MemOp>, vOff: nat)
    requires v.n >= 3 && Sized(s, v.n) && |ldata| == |rdata| == v.n
  {
    && SwitchesPlaced(sw, sOff, v.L(), s.ldone, s.lbot)
    && SwitchesPlaced(sw, sOff + v.L(), v.R(), s.rdone, s.rbot)
    && WiresPlaced(w, vOff, v.L(), ldata, s.ldone, s.lbot)
    && RightWiresPlaced(v, s, rdata, w, vOff)
  }

  // ----- placing one packet -----

  function SwitchesWith(v: Level, sw: seq<Switch>, sOff: nat, i: nat, b: bool): (r: seq<Switch>)
    requires v.n >= 3 && i < v.n == |v.p| && sOff + v.n - 1 <= |sw|
    ensures |r| == |sw| && forall k :: 0 <= k < |sw| && (k < sOff || sOff + v.n - 1 <= k) ==> r[k] == sw[k]
  {
    var j := v.p[i];
    var sw1 := if i < 2 * v.L() then sw[sOff + i / 2 := Switch(b != Odd(i), true)] else sw;
    if j < 2 * v.R() then sw1[sOff + v.L() + j / 2 := Switch(b != Odd(j), true)] else sw1
  }

  function WireRoom(n: nat): nat { if n <= 3 then 3 else 2 * n - 2 }

  function WiresWith(v: Level, w: seq<MemOp>, vOff: nat, i: nat, b: bool, data: MemOp): (r: seq<MemOp>)
    requires v.n >= 3 && i < v.n == |v.p| && vOff + WireRoom(v.n) <= |w|
    ensures |r| == |w| && forall k :: 0 <= k < |w| && (k < vOff || vOff + WireRoom(v.n) <= k) ==> r[k] == w[k]
  {
    var j := v.p[i];
    SlotBound(i, v.L(), b); SlotBound(j, v.R(), b);
    var w1 := if i < 2 * v.L() then w[vOff + Slot(i, b) := data] else w;
    if j < 2 * v.R() then w1[RightSlot(v, vOff, j, b) := data] else w1
  }

  lemma SwitchElsewhere(sw: seq<Switch>, off: nat, m: nat, done: seq<bool>, bot: seq<bool>, k: nat, x: Switch)
    requires SwitchesPlaced(sw, off, m, done, bot) && k < |sw| && (k < off || off + m <= k)
    ensures SwitchesPlaced(sw[k := x], off, m, done, bot)
  {
  }

  lemma WireElsewhere(w: seq<MemOp>, off: nat, m: nat, data: seq<MemOp>, done: seq<bool>, bot: seq<bool>, k: nat,
      x: MemOp)
    requires WiresPlaced(w, off, m, data, done, bot) && k < |w| && (k < off || off + 2 * m <= k)
    ensures WiresPlaced(w[k := x], off, m, data, done, bot)
  {
    forall i | 0 <= i < 2 * m && done[i] ensures w[k := x][off + Slot(i, bot[i])] == data[i] {
      SlotBound(i, m, bot[i]);
    }
  }

  /** A packet that goes along a link leaves the switches of that side as they were. */
  lemma LinkKeepsSwitches(sw: seq<Switch>, off: nat, m: nat, done: seq<bool>, bot: seq<bool>, i: nat, b: bool)
    requires SwitchesPlaced(sw, off, m, done, bot) && 2 * m <= i < |done|
    ensures SwitchesPlaced(sw, off, m, done[i := true], bot[i := b])
  {
    forall k | 0 <= k < 2 * m ensures Partner(k) < 2 * m { PartnerFacts(k); }
  }

  lemma LinkKeepsWires(w: seq<MemOp>, off: nat, m: nat, data: seq<MemOp>, done: seq<bool>, bot: seq<bool>, i: nat,
      b: bool)
    requires WiresPlaced(w, off, m, data, done, bot) && 2 * m <= i < |done|
    ensures WiresPlaced(w, off, m, data, done[i := true], bot[i := b])
  {
  }

  /** Packet `i` may go the way `b`: its partners on both sides, where routed, go the other way. */
  ghost predicate Fits(v: Level, s: Routing, i: nat, b: bool)
    requires v.n >= 3 && |v.p| == v.n && Sized(s, v.n)
  {
    && i < v.n && v.p[i] < v.n && !s.ldone[i] && !s.rdone[v.p[i]]
    && (i < 2 * v.L() && s.ldone[Partner(i)] ==> s.lbot[Partner(i)] != b)
    && (v.p[i] < 2 * v.R() && s.rdone[Partner(v.p[i])] ==> s.rbot[Partner(v.p[i])] != b)
  }

  lemma LeftSwitchAfter(v: Level, s: Routing, sw: seq<Switch>, sOff: nat, i: nat, b: bool)
    requires v.n >= 3 && |v.p| == v.n && Sized(s, v.n) && Fits(v, s, i, b) && sOff + v.n - 1 <= |sw|
    requires SwitchesPlaced(sw, sOff, v.L(), s.ldone, s.lbot) &&
        SwitchesPlaced(sw, sOff + v.L(), v.R(), s.rdone, s.rbot)
    ensures var sw1 := if i < 2 * v.L() then sw[sOff + i / 2 := Switch(b != Odd(i), true)] else sw;
            && SwitchesPlaced(sw1, sOff, v.L(), s.ldone[i := true], s.lbot[i := b])
            && SwitchesPlaced(sw1, sOff + v.L(), v.R(), s.rdone, s.rbot)
  {
    hide SwitchesPlaced;
    if i < 2 * v.L() {
      SwitchAfter(sw, sOff, v.L(), s.ldone, s.lbot, i, b);
      SwitchElsewhere(sw, sOff + v.L(), v.R(), s.rdone, s.rbot, sOff + i / 2, Switch(b != Odd(i), true));
    } else {
      LinkKeepsSwitches(sw, sOff, v.L(), s.ldone, s.lbot, i, b);
    }
  }

  lemma RightSwitchAfter(v: Level, ldone: seq<bool>, lbot: seq<bool>, rdone: seq<bool>, rbot: seq<bool>,
      sw: seq<Switch>, sOff: nat, j: nat, b: bool)
    requires v.n >= 3 && |rdone| == |rbot| == v.n && j < v.n && sOff + v.n - 1 <= |sw| && !rdone[j]
    requires j < 2 * v.R() && rdone[Partner(j)] ==> rbot[Partner(j)] != b
    requires SwitchesPlaced(sw, sOff, v.L(), ldone, lbot) && SwitchesPlaced(sw, sOff + v.L(), v.R(), rdone, rbot)
    ensures var sw1 := if j < 2 * v.R() then sw[sOff + v.L() + j / 2 := Switch(b != Odd(j), true)] else sw;
            && SwitchesPlaced(sw1, sOff, v.L(), ldone, lbot)
            && SwitchesPlaced(sw1, sOff + v.L(), v.R(), rdone[j := true], rbot[j := b])
  {
    hide SwitchesPlaced;
    if j < 2 * v.R() {
      SwitchAfter(sw, sOff + v.L(), v.R(), rdone, rbot, j, b);
      SwitchElsewhere(sw, sOff, v.L(), ldone, lbot, sOff + v.L() + j / 2, Switch(b != Odd(j), true));
    } else {
      LinkKeepsSwitches(sw, sOff + v.L(), v.R(), rdone, rbot, j, b);
    }
  }

  lemma SwitchesAfter(v: Level, s: Routing, sw: seq<Switch>, sOff: nat, i: nat, b: bool)
    requires v.n >= 3 && |v.p| == v.n && Sized(s, v.n) && Fits(v, s, i, b)
    requires SwitchesPlaced(sw, sOff, v.L(), s.ldone, s.lbot) &&
        SwitchesPlaced(sw, sOff + v.L(), v.R(), s.rdone, s.rbot)
    ensures var s', sw' := Place(s, i, v.p[i], b), SwitchesWith(v, sw, sOff, i, b);
            SwitchesPlaced(sw', sOff, v.L(), s'.ldone, s'.lbot) &&
                SwitchesPlaced(sw', sOff + v.L(), v.R(), s'.rdone, s'.rbot)
  {
    hide SwitchesPlaced;
    SwitchesPlacedSize(sw, sOff, v.L(), s.ldone, s.lbot);
    SwitchesPlacedSize(sw, sOff + v.L(), v.R(), s.rdone, s.rbot);
    LeftSwitchAfter(v, s, sw, sOff, i, b);
    var sw1 := if i < 2 * v.L() then sw[sOff + i / 2 := Switch(b != Odd(i), true)] else sw;
    RightSwitchAfter(v, s.ldone[i := true], s.lbot[i := b], s.rdone, s.rbot, sw1, sOff, v.p[i], b);
  }

  lemma SwitchesPlacedSize(sw: seq<Switch>, off: nat, m: nat, done: seq<bool>, bot: seq<bool>)
    requires SwitchesPlaced(sw, off, m, done, bot)
    ensures off + m <= |sw| && 2 * m <= |done| == |bot|
  {
  }

  lemma RightWireAfter(v: Level, s: Routing, data: seq<MemOp>, w: seq<MemOp>, vOff: nat, i: nat, b: bool)
    requires v.n >= 3 && |v.p| == v.n && Sized(s, v.n) && |data| == v.n && Fits(v, s, i, b) && v.p[i] < 2 * v.R() &&
        vOff + WireRoom(v.n) <= |w|
    requires RightWiresPlaced(v, s, data, w, vOff)
    requires v.n == 3 && !b ==> !s.rdone[Partner(v.p[i])]
    ensures var j := v.p[i]; 0 <= RightSlot(v, vOff, j, b) < |w|
                             && RightWiresPlaced(v, Place(s, i, j, b), data, w[RightSlot(v, vOff, j, b) := data[j]],
                                 vOff)
  {
    var j := v.p[i];
    if v.n == 3 {
      RightWireAfter3(v, s, data, w, vOff, i, b);
    } else {
      hide Slot, WiresPlaced;
      SlotBound(j, v.R(), b);
      WireAfter(w, vOff + 2 * v.L(), v.R(), data, s.rdone, s.rbot, j, b);
    }
  }

  lemma RightWireAfter3(v: Level, s: Routing, data: seq<MemOp>, w: seq<MemOp>, vOff: nat, i: nat, b: bool)
    requires v.n == 3 && |v.p| == v.n && Sized(s, v.n) && |data| == v.n && Fits(v, s, i, b) && v.p[i] < 2 &&
        vOff + 3 <= |w|
    requires RightWiresPlaced(v, s, data, w, vOff)
    requires !b ==> !s.rdone[Partner(v.p[i])]
    ensures var j := v.p[i]; RightSlot(v, vOff, j, b) == vOff + 2
                             && RightWiresPlaced(v, Place(s, i, j, b), data, w[vOff + 2 := data[j]], vOff)
  {
    var j := v.p[i];
    assert j == 0 || j == 1;
    assert Partner(0) == 1 && Partner(1) == 0;
  }

  lemma WiresAfter(v: Level, s: Routing, ldata: seq<MemOp>, rdata: seq<MemOp>, w: seq<MemOp>, vOff: nat, i: nat,
      b: bool)
    requires v.n >= 3 && |v.p| == v.n && Sized(s, v.n) && |ldata| == |rdata| == v.n && Fits(v, s, i, b) &&
        vOff + WireRoom(v.n) <= |w|
    requires WiresPlaced(w, vOff, v.L(), ldata, s.ldone, s.lbot) && RightWiresPlaced(v, s, rdata, w, vOff) &&
        rdata[v.p[i]] == ldata[i]
    requires v.n == 3 && !b && v.p[i] < 2 ==> !s.rdone[Partner(v.p[i])]
    ensures var s', w' := Place(s, i, v.p[i], b), WiresWith(v, w, vOff, i, b, ldata[i]);
            WiresPlaced(w', vOff, v.L(), ldata, s'.ldone, s'.lbot) && RightWiresPlaced(v, s', rdata, w', vOff)
  {
    hide WiresPlaced, Slot, RightWiresPlaced, Partner;
    var j, w1 := v.p[i], w;
    SlotBound(i, v.L(), b);
    if i < 2 * v.L() {
      w1 := w[vOff + Slot(i, b) := ldata[i]];
      WireAfter(w, vOff, v.L(), ldata, s.ldone, s.lbot, i, b);
      RightWiresElsewhere(v, s, rdata, w, vOff, vOff + Slot(i, b), ldata[i]);
    } else {
      LinkKeepsWires(w, vOff, v.L(), ldata, s.ldone, s.lbot, i, b);
    }
    var s' := Place(s, i, j, b);
    SlotBound(j, v.R(), b);
    if j < 2 * v.R() {
      RightWireAfter(v, s, rdata, w1, vOff, i, b);
      RightSlotPlace(v, vOff, j, b);
      WireElsewhere(w1, vOff, v.L(), ldata, s'.ldone, s'.lbot, RightSlot(v, vOff, j, b), ldata[i]);
    } else {
      RightLinkKeepsWires(v, s, rdata, w1, vOff, i, b);
    }
  }

  lemma RightSlotPlace(v: Level, vOff: nat, j: nat, b: bool)
    requires v.n >= 3 && j < 2 * v.R()
    ensures vOff + 2 * v.L() <= RightSlot(v, vOff, j, b) < vOff + WireRoom(v.n)
  {
  }

  lemma RightWiresElsewhere(v: Level, s: Routing, data: seq<MemOp>, w: seq<MemOp>, vOff: nat, k: nat, x: MemOp)
    requires v.n >= 3 && Sized(s, v.n) && |data| == v.n && RightWiresPlaced(v, s, data, w, vOff) && k < |w| &&
        k < vOff + 2 * v.L()
    ensures RightWiresPlaced(v, s, data, w[k := x], vOff)
  {
    hide WiresPlaced;
    if v.n > 3 { WireElsewhere(w, vOff + 2 * v.L(), v.R(), data, s.rdone, s.rbot, k, x); }
  }

  lemma RightLinkKeepsWires(v: Level, s: Routing, data: seq<MemOp>, w: seq<MemOp>, vOff: nat, i: nat, b: bool)
    requires v.n >= 3 && |v.p| == v.n && Sized(s, v.n) && |data| == v.n && RightWiresPlaced(v, s, data, w, vOff)
    requires i < v.n && 2 * v.R() <= v.p[i] < v.n
    ensures RightWiresPlaced(v, Place(s, i, v.p[i], b), data, w, vOff)
  {
    hide WiresPlaced;
    if v.n > 3 { LinkKeepsWires(w, vOff + 2 * v.L(), v.R(), data, s.rdone, s.rbot, v.p[i], b); }
  }

  function Flag(pkts: seq<Packet>, i: nat): seq<Packet>
    requires i < |pkts|
  {
    pkts[i := pkts[i].(routed := true)]
  }

  predicate DeskSized(d: Desk, n: nat) {
    |d.left| == |d.right| == n && |d.topLeft| == |d.topRight| == n / 2 && |d.botLeft| == |d.botRight| == (n + 1) / 2
  }

  /** Packet `i`, bound for `j`, marked as routed and handed to its subnetwork. */
  function DeskWith(d: Desk, n: nat, data: MemOp, i: nat, j: nat, b: bool): Desk
    requires DeskSized(d, n) && i < n && j < n && (b || (i / 2 < n / 2 && j / 2 < n / 2))
  {
    var pk := Packet(data, i / 2, j / 2, false);
    var d1 := d.(left := Flag(d.left, i), right := Flag(d.right, j));
    if b then d1.(botLeft := d.botLeft[i / 2 := pk], botRight := d.botRight[j / 2 := pk])
    else d1.(topLeft := d.topLeft[i / 2 := pk], topRight := d.topRight[j / 2 := pk])
  }

  lemma DeskAfter(v: Level, s: Routing, left: seq<Packet>, right: seq<Packet>, d: Desk, i: nat, b: bool)
    requires v.Valid() && |left| == |right| == v.n && Sized(s, v.n) && DeskOk(v, s, left, right, d)
    requires i < v.n && !s.ldone[i] && !s.rdone[v.p[i]] && Coloured(v, Place(s, i, v.p[i], b))
    requires b || (i / 2 < v.n / 2 && v.p[i] / 2 < v.n / 2)
    ensures DeskSized(d, v.n) && DeskOk(v, Place(s, i, v.p[i], b), left, right,
        DeskWith(d, v.n, left[i].data, i, v.p[i], b))
  {
    hide Coloured, Apart, HandedOver, Agrees;
    var j, s' := v.p[i], Place(s, i, v.p[i], b);
    HandedOverSize(d.topLeft, d.botLeft, s.ldone, s.lbot, SubPackets(v, Datas(left)));
    HandedOverSize(d.topRight, d.botRight, s.rdone, s.rbot, SubPacketsRight(v, Datas(left)));
    ColouredApart(v, s');
    HandOver(d.topLeft, d.botLeft, s.ldone, s.lbot, SubPackets(v, Datas(left)), i, b);
    HandOver(d.topRight, d.botRight, s.rdone, s.rbot, SubPacketsRight(v, Datas(left)), j, b);
    PacketAt(v, i);
    FlagOk(left, d.left, s.ldone, i);
    FlagOk(right, d.right, s.rdone, j);
  }

  lemma FlagOk(pkts: seq<Packet>, now: seq<Packet>, done: seq<bool>, i: nat)
    requires Flagged(pkts, now, done) && i < |pkts|
    ensures Flagged(pkts, Flag(now, i), done[i := true])
  {
  }

  lemma HandedOverSize(top: seq<Packet>, bottom: seq<Packet>, done: seq<bool>, bot: seq<bool>, pks: seq<Packet>)
    requires HandedOver(top, bottom, done, bot, pks)
    ensures |done| == |bot| == |pks| && |top| == |done| / 2 && |bottom| == (|done| + 1) / 2
  {
  }
}
