/**
 The router: it sets the switches of a Waksman network and fills in its wires, in place in the flat
 switch and wire arrays, so that every packet reaches its destination.
 */
module WaksmanRouter {
  import opened MemoryOp
  import opened WaksmanChain
  import opened WaksmanPlacement

  // ----- one level -----

  ghost predicate LevelState(v: Level, s: Routing, left: seq<Packet>, right: seq<Packet>, d: Desk,
                             sw: seq<Switch>, sOff: nat, w: seq<MemOp>, vOff: nat) {
    && Coloured(v, s) && |left| == |right| == v.n && Sized(s, v.n)
    && DeskOk(v, s, left, right, d)
    && Written(v, s, Datas(left), Datas(right), sw, sOff, w, vOff)
  }

  /** Everything stays in step when packet `i` is placed. */
  lemma LevelAfter(v: Level, s: Routing, left: seq<Packet>, right: seq<Packet>, d: Desk,
                   sw: seq<Switch>, sOff: nat, w: seq<MemOp>, vOff: nat, i: nat, b: bool)
    requires LevelState(v, s, left, right, d, sw, sOff, w, vOff) && v.Valid() && Fits(v, s, i, b)
    requires Coloured(v, Place(s, i, v.p[i], b)) && right[v.p[i]].data == left[i].data
    requires v.n == 3 && !b && v.p[i] < 2 ==> !s.rdone[Partner(v.p[i])]
    requires b || (i / 2 < v.n / 2 && v.p[i] / 2 < v.n / 2)
    requires sOff + v.n - 1 <= |sw| && vOff + WireRoom(v.n) <= |w|
    ensures DeskSized(d, v.n)
    ensures LevelState(v, Place(s, i, v.p[i], b), left, right, DeskWith(d, v.n, left[i].data, i, v.p[i], b),
                       SwitchesWith(v, sw, sOff, i, b), sOff, WiresWith(v, w, vOff, i, b, left[i].data), vOff)
  {
    hide Coloured, DeskOk, SwitchesPlaced, WiresPlaced, RightWiresPlaced, SwitchesWith, WiresWith, DeskWith;
    DeskAfter(v, s, left, right, d, i, b);
    SwitchesAfter(v, s, sw, sOff, i, b);
    WiresAfter(v, s, Datas(left), Datas(right), w, vOff, i, b);
  }

  lemma LevelFacts(v: Level, s: Routing, left: seq<Packet>, right: seq<Packet>, d: Desk, sw: seq<Switch>, sOff: nat,
      w: seq<MemOp>, vOff: nat)
    requires LevelState(v, s, left, right, d, sw, sOff, w, vOff)
    ensures v.Valid() && |left| == |right| == v.n && Sized(s, v.n) && DeskSized(d, v.n)
    ensures SwitchesPlaced(sw, sOff, v.L(), s.ldone, s.lbot) && SwitchesPlaced(sw, sOff + v.L(), v.R(), s.rdone, s.rbot)
    ensures Flagged(left, d.left, s.ldone) && Flagged(right, d.right, s.rdone)
  {
    hide HandedOver, SwitchesPlaced;
    HandedOverSize(d.topLeft, d.botLeft, s.ldone, s.lbot, SubPackets(v, Datas(left)));
    HandedOverSize(d.topRight, d.botRight, s.rdone, s.rbot, SubPacketsRight(v, Datas(left)));
  }

  lemma SlotOffset(i: nat, b: bool)
    ensures Slot(i, b) == if Odd(i) && !b then i - 1 else if !Odd(i) && b then i + 1 else i
  {
  }

  /** Switch `k` is set the way a packet at `pos` bound for `b` needs it, or would be by default. */
  predicate Decides(sw: seq<Switch>, k: nat, pos: nat, b: bool) {
    k < |sw| && if sw[k].isSet then sw[k].swap == (b != Odd(pos)) else b == Odd(pos)
  }

  /** Switch `k` is unset or already set the way a packet at `pos` bound for `b` needs it. */
  predicate Allows(sw: seq<Switch>, k: nat, pos: nat, b: bool) {
    k < |sw| && (sw[k].isSet ==> sw[k].swap == (b != Odd(pos)))
  }

  /** The side a packet comes from decides its subnetwork: by the switch if it is set, else straight. */
  method Decide(sw: array<Switch>, k: nat, pos: nat, ghost b: bool) returns (routeBot: bool, offset: int)
    requires Decides(sw[..], k, pos, b)
    modifies sw
    ensures sw[..] == old(sw[..])[k := Switch(b != Odd(pos), true)]
    ensures routeBot == b && pos + offset == Slot(pos, b)
  {
    SlotOffset(pos, b);
    if !sw[k].isSet {
      sw[k] := Switch(false, true);
    }
    var swap := sw[k].swap;
    routeBot := (pos % 2 == 0 && swap) || (pos % 2 == 1 && !swap);
    offset := 0;
    if pos % 2 == 1 && swap { offset := -1; }
    if pos % 2 == 0 && swap { offset := 1; }
  }

  /** The switch on the other side has to follow; one that is set already agrees. */
  method Obey(sw: array<Switch>, k: nat, pos: nat, routeBot: bool) returns (offset: int)
    requires Allows(sw[..], k, pos, routeBot)
    modifies sw
    ensures sw[..] == old(sw[..])[k := Switch(routeBot != Odd(pos), true)]
    ensures pos + offset == Slot(pos, routeBot)
  {
    SlotOffset(pos, routeBot);
    var isBot := pos % 2 == 1;
    offset := 0;
    if isBot != routeBot {
      if !sw[k].isSet { sw[k] := Switch(true, true); }
      assert sw[k].swap;
      offset := if isBot then -1 else 1;
    } else {
      if !sw[k].isSet { sw[k] := Switch(false, true); }
      assert !sw[k].swap;
    }
  }

  /** The position to go on from: `next` if its packet is unrouted, else the first unrouted one, if any. */
  method Choose(pkts: seq<Packet>, next: int) returns (next': int)
    requires -1 <= next < |pkts|
    ensures -1 <= next' < |pkts|
    ensures next' == -1 || pkts[next'].routed ==> forall k :: 0 <= k < |pkts| ==> pkts[k].routed
    ensures next' != -1 && !pkts[next'].routed ==>
              if next != -1 && !pkts[next].routed then next' == next else forall k :: 0 <= k < next' ==> pkts[k].routed
  {
    next' := next;
    if next == -1 || pkts[next].routed {
      var i := 0;
      while i < |pkts|
        invariant 0 <= i <= |pkts| && next' == next
        invariant forall k :: 0 <= k < i ==> pkts[k].routed
      {
        if !pkts[i].routed {
          next' := i;
          return;
        }
        i := i + 1;
      }
    }
  }

  /** What the invariants say about the packet about to go from left to right. */
  lemma LeftReady(v: Level, s: Routing, next: int, anchor: int, i: nat, sw: seq<Switch>, sOff: nat)
    requires LeftPhase(v, s, next, anchor) && Chosen(s.ldone, v.L(), next, i)
    requires SwitchesPlaced(sw, sOff, v.L(), s.ldone, s.lbot) &&
        SwitchesPlaced(sw, sOff + v.L(), v.R(), s.rdone, s.rbot)
    ensures v.Valid() && Sized(s, v.n) && i < 2 * v.L() && v.p[i] < v.n - 1
    ensures var b := Downward(v, s); Fits(v, s, i, b) && (v.n == 3 ==> !b && (v.p[i] < 2 ==> !s.rdone[Partner(v.p[i])]))
    ensures Decides(sw, sOff + i / 2, i, Downward(v, s))
    ensures v.p[i] < 2 * v.R() ==> Allows(sw, sOff + v.L() + v.p[i] / 2, v.p[i], Downward(v, s))
  {
    hide Half, Split, Agrees, Coloured, SwitchesPlaced, Chosen;
    ColouredBasics(v, s);
    LeftChoice(v, s, next, anchor, i);
    SwitchesPlacedSize(sw, sOff, v.L(), s.ldone, s.lbot);
    SwitchesPlacedSize(sw, sOff + v.L(), v.R(), s.rdone, s.rbot);
    var b, j := Downward(v, s), v.p[i];
    SwitchRead(sw, sOff, v.L(), s.ldone, s.lbot, i, b);
    if j < 2 * v.R() {
      RightMeets(v, s, next, anchor, i);
      SwitchRead(sw, sOff + v.L(), v.R(), s.rdone, s.rbot, j, b);
    }
  }

  lemma RightReady(v: Level, s: Routing, next: int, anchor: int, j: nat, sw: seq<Switch>, sOff: nat)
    requires RightPhase(v, s, next, anchor) && Chosen(s.rdone, v.R(), next, j)
    requires SwitchesPlaced(sw, sOff, v.L(), s.ldone, s.lbot) &&
        SwitchesPlaced(sw, sOff + v.L(), v.R(), s.rdone, s.rbot)
    ensures v.Valid() && Sized(s, v.n) && j < 2 * v.R() && v.q[j] < v.n && v.p[v.q[j]] == j
    ensures var b := !Downward(v, s); Fits(v, s, v.q[j], b) && (v.n % 2 == 1 ==> b)
    ensures Decides(sw, sOff + v.L() + j / 2, j, !Downward(v, s))
    ensures v.q[j] < 2 * v.L() ==> Allows(sw, sOff + v.q[j] / 2, v.q[j], !Downward(v, s))
  {
    hide Half, Split, Agrees, Coloured, SwitchesPlaced, Chosen;
    ColouredBasics(v, s);
    RightChoice(v, s, next, anchor, j);
    PacketAt(v, j);
    SwitchesPlacedSize(sw, sOff, v.L(), s.ldone, s.lbot);
    SwitchesPlacedSize(sw, sOff + v.L(), v.R(), s.rdone, s.rbot);
    var b, i := !Downward(v, s), v.q[j];
    SwitchRead(sw, sOff + v.L(), v.R(), s.rdone, s.rbot, j, b);
    if i < 2 * v.L() {
      LeftMeets(v, s, next, anchor, j);
      SwitchRead(sw, sOff, v.L(), s.ldone, s.lbot, i, b);
    }
  }

  /** The left side of a packet that goes from left to right: which subnetwork, and the wire into it. */
  method LeaveLeft(data: MemOp, inter: array<MemOp>, vOff: nat, sw: array<Switch>, sOff: nat, n: nat, index: nat,
      ghost b: bool)
    returns (routeBot: bool)
    requires n >= 3 && index < 2 * (n / 2) && vOff + 2 * (n / 2) <= inter.Length
    requires Decides(sw[..], sOff + index / 2, index, b)
    modifies inter, sw
    ensures routeBot == b
    ensures sw[..] == old(sw[..])[sOff + index / 2 := Switch(b != Odd(index), true)]
    ensures Slot(index, b) < 2 * (n / 2) && inter[..] == old(inter[..])[vOff + Slot(index, b) := data]
  {
    hide Slot;
    SlotBound(index, n / 2, b);
    routeBot := false;
    if index == n - 1 && n % 2 == 1 {
      routeBot := true;
    } else {
      var offset;
      routeBot, offset := Decide(sw, sOff + index / 2, index, b);
      inter[vOff + index + offset] := data;
    }
  }

  /** Its right side: the switch follows, and the position to come back from. */
  method EnterRight(data: MemOp, inter: array<MemOp>, vOff: nat, sw: array<Switch>, sOff: nat, n: nat, rightIndex: nat,
      routeBot: bool, ghost v: Level)
    returns (next: int)
    requires v.n == n >= 3 && rightIndex < n - 1 && (n == 3 ==> !routeBot) && vOff + WireRoom(n) <= inter.Length
    requires rightIndex < 2 * v.R() ==> Allows(sw[..], sOff + v.L() + rightIndex / 2, rightIndex, routeBot)
    modifies inter, sw
    ensures next == RightNext(v, rightIndex)
    ensures sw[..] == if rightIndex < 2 * v.R() then old(sw[..])[sOff + v.L() +
        rightIndex / 2 := Switch(routeBot != Odd(rightIndex), true)] else old(sw[..])
    ensures rightIndex < 2 * v.R() ==> vOff + 2 * v.L() <= RightSlot(v, vOff, rightIndex, routeBot) < vOff + WireRoom(n)
    ensures inter[..] == if rightIndex < 2 * v.R() then old(inter[..])[RightSlot(v, vOff, rightIndex, routeBot) := data]
        else old(inter[..])
  {
    hide Slot;
    if rightIndex == n - 1 || (rightIndex == n - 2 && n % 2 == 0) {
      next := -1;
    } else {
      RightSlotPlace(v, vOff, rightIndex, routeBot);
      var leftSwitchCt := n / 2;
      var numLeftVars := leftSwitchCt * 2;
      next := if rightIndex % 2 == 1 then rightIndex - 1 else rightIndex + 1;
      var offset := Obey(sw, sOff + leftSwitchCt + rightIndex / 2, rightIndex, routeBot);
      inter[vOff + numLeftVars + rightIndex + offset] := data;
    }
  }

  /** The right side of a packet that goes from right to left. */
  method LeaveRight(data: MemOp, inter: array<MemOp>, vOff: nat, sw: array<Switch>, sOff: nat, n: nat, rightIndex: nat,
      ghost v: Level, ghost b: bool)
    returns (routeBot: bool)
    requires v.n == n >= 3 && rightIndex < 2 * v.R() && (n == 3 ==> b) && vOff + WireRoom(n) <= inter.Length
    requires Decides(sw[..], sOff + v.L() + rightIndex / 2, rightIndex, b)
    modifies inter, sw
    ensures routeBot == b
    ensures sw[..] == old(sw[..])[sOff + v.L() + rightIndex / 2 := Switch(b != Odd(rightIndex), true)]
    ensures vOff + 2 * v.L() <= RightSlot(v, vOff, rightIndex, b) < vOff + WireRoom(n)
    ensures inter[..] == old(inter[..])[RightSlot(v, vOff, rightIndex, b) := data]
  {
    hide Slot;
    RightSlotPlace(v, vOff, rightIndex, b);
    var leftSwitchCt := n / 2;
    var numLeftVars := leftSwitchCt * 2;
    routeBot := false;
    if !(rightIndex == n - 2 && n % 2 == 0) {
      var offset;
      routeBot, offset := Decide(sw, sOff + leftSwitchCt + rightIndex / 2, rightIndex, b);
      var is3 := if n == 3 then 1 else 0;
      inter[vOff + numLeftVars + rightIndex + offset - is3] := data;
    }
  }

  /** Its left side. */
  method EnterLeft(data: MemOp, inter: array<MemOp>, vOff: nat, sw: array<Switch>, sOff: nat, n: nat, leftIndex: nat,
      routeBot: bool, ghost v: Level)
    returns (next: int)
    requires v.n == n >= 3 && leftIndex < n && vOff + 2 * v.L() <= inter.Length
    requires leftIndex < 2 * v.L() ==> Allows(sw[..], sOff + leftIndex / 2, leftIndex, routeBot)
    modifies inter, sw
    ensures next == LeftNext(v, leftIndex)
    ensures sw[..] == if leftIndex < 2 * v.L() then old(sw[..])[sOff +
        leftIndex / 2 := Switch(routeBot != Odd(leftIndex), true)] else old(sw[..])
    ensures leftIndex < 2 * v.L() ==> Slot(leftIndex, routeBot) < 2 * v.L()
    ensures inter[..] == if leftIndex < 2 * v.L() then old(inter[..])[vOff + Slot(leftIndex, routeBot) := data]
        else old(inter[..])
  {
    hide Slot;
    SlotBound(leftIndex, v.L(), routeBot);
    if leftIndex == n - 1 && n % 2 == 1 {
      next := -1;
    } else {
      next := if leftIndex % 2 == 1 then leftIndex - 1 else leftIndex + 1;
      var offset := Obey(sw, sOff + leftIndex / 2, leftIndex, routeBot);
      inter[vOff + leftIndex + offset] := data;
    }
  }

  /** The switches and wires of a packet that goes from left position `index` to `rightIndex`. */
  method SetRightward(data: MemOp, inter: array<MemOp>, vOff: nat, sw: array<Switch>, sOff: nat, n: nat, index: nat,
      rightIndex: nat,
                      ghost v: Level, ghost b: bool)
    returns (routeBot: bool, next: int)
    requires v.n == n >= 3 && |v.p| == n && index < 2 * v.L() && rightIndex == v.p[index] < n - 1 && (n == 3 ==> !b)
    requires sOff + n - 1 <= sw.Length && vOff + WireRoom(n) <= inter.Length
    requires Decides(sw[..], sOff + index / 2, index, b)
    requires rightIndex < 2 * v.R() ==> Allows(sw[..], sOff + v.L() + rightIndex / 2, rightIndex, b)
    modifies inter, sw
    ensures routeBot == b && next == RightNext(v, rightIndex)
    ensures sw[..] == SwitchesWith(v, old(sw[..]), sOff, index, b)
    ensures inter[..] == WiresWith(v, old(inter[..]), vOff, index, b, data)
  {
    hide Slot, RightNext, RightSlot;
    routeBot := LeaveLeft(data, inter, vOff, sw, sOff, n, index, b);
    next := EnterRight(data, inter, vOff, sw, sOff, n, rightIndex, routeBot, v);
  }

  /** The switches and wires of a packet that goes from right position `rightIndex` to `leftIndex`. */
  method SetLeftward(data: MemOp, inter: array<MemOp>, vOff: nat, sw: array<Switch>, sOff: nat, n: nat, rightIndex: nat,
      leftIndex: nat,
                     ghost v: Level, ghost b: bool)
    returns (routeBot: bool, next: int)
    requires v.n == n >= 3 && |v.p| == n && rightIndex < 2 * v.R() && leftIndex < n && rightIndex == v.p[leftIndex] &&
        (n == 3 ==> b)
    requires sOff + n - 1 <= sw.Length && vOff + WireRoom(n) <= inter.Length
    requires Decides(sw[..], sOff + v.L() + rightIndex / 2, rightIndex, b)
    requires leftIndex < 2 * v.L() ==> Allows(sw[..], sOff + leftIndex / 2, leftIndex, b)
    modifies inter, sw
    ensures routeBot == b && next == LeftNext(v, leftIndex)
    ensures sw[..] == SwitchesWith(v, old(sw[..]), sOff, leftIndex, b)
    ensures inter[..] == WiresWith(v, old(inter[..]), vOff, leftIndex, b, data)
  {
    hide Slot, LeftNext, RightSlot;
    routeBot := LeaveRight(data, inter, vOff, sw, sOff, n, rightIndex, v, b);
    next := EnterLeft(data, inter, vOff, sw, sOff, n, leftIndex, routeBot, v);
  }

  lemma LeftwardReady(d: Desk, w: seq<MemOp>, vOff: nat, sw: seq<Switch>, sOff: nat, rightIndex: nat,
                      v: Level, s: Routing, next: int, anchor: int, left: seq<Packet>, right: seq<Packet>)
    requires Matched(left, right) && |left| >= 3 && v == LevelOf(left, right)
    requires RightPhase(v, s, next, anchor) && Chosen(s.rdone, v.R(), next, rightIndex)
    requires LevelState(v, s, left, right, d, sw, sOff, w, vOff)
    requires sOff + v.n - 1 <= |sw| && vOff + WireRoom(v.n) <= |w|
    ensures v.n == |left| == |v.p| && DeskSized(d, v.n) && rightIndex < 2 * v.R() && v.q[rightIndex] < v.n &&
        v.p[v.q[rightIndex]] == rightIndex
    ensures d.right[rightIndex].data == left[v.q[rightIndex]].data && d.right[rightIndex].src == v.q[rightIndex] &&
        Sized(s, v.n)
    ensures var b, i := !Downward(v, s), v.q[rightIndex];
        (v.n == 3 ==> b) && (b || (i / 2 < v.n / 2 && rightIndex / 2 < v.n / 2))
    ensures Decides(sw, sOff + v.L() + rightIndex / 2, rightIndex, !Downward(v, s))
    ensures v.q[rightIndex] < 2 * v.L() ==> Allows(sw, sOff + v.q[rightIndex] / 2, v.q[rightIndex], !Downward(v, s))
    ensures var b, i := !Downward(v, s), v.q[rightIndex];
            LevelState(v, Place(s, i, rightIndex, b), left, right, DeskWith(d, v.n, left[i].data, i, rightIndex, b),
                       SwitchesWith(v, sw, sOff, i, b), sOff, WiresWith(v, w, vOff, i, b, left[i].data), vOff)
  {
    hide RightPhase, LevelState, Coloured, SwitchesPlaced, Chosen, Matched, Slot, SwitchesWith, WiresWith, DeskWith,
        Fits, LevelOf, Downward, Decides, Allows, Level.Valid;
    LevelFacts(v, s, left, right, d, sw, sOff, w, vOff);
    RightReady(v, s, next, anchor, rightIndex, sw, sOff);
    RightStepColoured(v, s, next, anchor, rightIndex);
    RightPacket(left, right, rightIndex);
    assert d.right[rightIndex] == right[rightIndex].(routed := s.rdone[rightIndex]);
    LevelAfter(v, s, left, right, d, sw, sOff, w, vOff, v.q[rightIndex], !Downward(v, s));
  }

  /** Routes the packet at right position `rightIndex` back to its left position. */
  method Leftward(d: Desk, inter: array<MemOp>, vOff: nat, sw: array<Switch>, sOff: nat, n: nat, rightIndex: nat,
                  ghost v: Level, ghost s: Routing, ghost next: int, ghost anchor: int, ghost left: seq<Packet>,
                      ghost right: seq<Packet>)
    returns (d': Desk, next': int)
    requires Matched(left, right) && n == |left| && n >= 3 && v == LevelOf(left, right)
    requires RightPhase(v, s, next, anchor) && Chosen(s.rdone, v.R(), next, rightIndex)
    requires LevelState(v, s, left, right, d, sw[..], sOff, inter[..], vOff)
    requires sOff + n - 1 <= sw.Length && vOff + WireRoom(n) <= inter.Length
    modifies inter, sw
    ensures LevelState(v, Place(s, v.q[rightIndex], rightIndex, !Downward(v, s)), left, right, d', sw[..], sOff,
        inter[..], vOff)
    ensures next' == LeftNext(v, v.q[rightIndex])
    ensures sw[..] == SwitchesWith(v, old(sw[..]), sOff, v.q[rightIndex], !Downward(v, s))
    ensures inter[..] == WiresWith(v, old(inter[..]), vOff, v.q[rightIndex], !Downward(v, s),
        left[v.q[rightIndex]].data)
  {
    hide RightPhase, LevelState, Matched, Chosen, SwitchesWith, WiresWith, DeskWith, LeftNext, Downward, LevelOf,
        Decides, Allows;
    LeftwardReady(d, inter[..], vOff, sw[..], sOff, rightIndex, v, s, next, anchor, left, right);
    var tmp := d.right[rightIndex];
    var routeBot;
    routeBot, next' := SetLeftward(tmp.data, inter, vOff, sw, sOff, n, rightIndex, tmp.src, v, !Downward(v, s));
    d' := HandOverPacket(d, n, tmp.data, tmp.src, rightIndex, routeBot);
  }

  /** The packet at left position `index` may be placed as its chain asks. */
  lemma RightwardReady(d: Desk, w: seq<MemOp>, vOff: nat, sw: seq<Switch>, sOff: nat, index: nat,
                       v: Level, s: Routing, next: int, anchor: int, left: seq<Packet>, right: seq<Packet>)
    requires Matched(left, right) && |left| >= 3 && v == LevelOf(left, right)
    requires LeftPhase(v, s, next, anchor) && Chosen(s.ldone, v.L(), next, index)
    requires LevelState(v, s, left, right, d, sw, sOff, w, vOff)
    requires sOff + v.n - 1 <= |sw| && vOff + WireRoom(v.n) <= |w|
    ensures v.n == |left| == |v.p| && DeskSized(d, v.n) && index < 2 * v.L() && v.p[index] < v.n - 1
    ensures d.left[index].data == left[index].data && d.left[index].dst == v.p[index] && Sized(s, v.n)
    ensures var b := Downward(v, s); (v.n == 3 ==> !b) && (b || (index / 2 < v.n / 2 && v.p[index] / 2 < v.n / 2))
    ensures Decides(sw, sOff + index / 2, index, Downward(v, s))
    ensures v.p[index] < 2 * v.R() ==> Allows(sw, sOff + v.L() + v.p[index] / 2, v.p[index], Downward(v, s))
    ensures var b := Downward(v, s);
            LevelState(v, Place(s, index, v.p[index], b), left, right,
                DeskWith(d, v.n, left[index].data, index, v.p[index], b),
                       SwitchesWith(v, sw, sOff, index, b), sOff, WiresWith(v, w, vOff, index, b, left[index].data),
                           vOff)
  {
    hide LeftPhase, LevelState, Coloured, SwitchesPlaced, Chosen, Matched, Slot, SwitchesWith, WiresWith, DeskWith,
        Fits;
    LevelFacts(v, s, left, right, d, sw, sOff, w, vOff);
    LeftReady(v, s, next, anchor, index, sw, sOff);
    LeftStepColoured(v, s, next, anchor, index);
    MatchedData(left, right, index);
    LevelAfter(v, s, left, right, d, sw, sOff, w, vOff, index, Downward(v, s));
  }

  /** Routes the packet at left position `index` to its right position. */
  method Rightward(d: Desk, inter: array<MemOp>, vOff: nat, sw: array<Switch>, sOff: nat, n: nat, index: nat,
                   ghost v: Level, ghost s: Routing, ghost next: int, ghost anchor: int, ghost left: seq<Packet>,
                       ghost right: seq<Packet>)
    returns (d': Desk, next': int)
    requires Matched(left, right) && n == |left| && n >= 3 && v == LevelOf(left, right)
    requires LeftPhase(v, s, next, anchor) && Chosen(s.ldone, v.L(), next, index)
    requires LevelState(v, s, left, right, d, sw[..], sOff, inter[..], vOff)
    requires sOff + n - 1 <= sw.Length && vOff + WireRoom(n) <= inter.Length
    modifies inter, sw
    ensures LevelState(v, Place(s, index, v.p[index], Downward(v, s)), left, right, d', sw[..], sOff, inter[..], vOff)
    ensures next' == RightNext(v, v.p[index])
    ensures sw[..] == SwitchesWith(v, old(sw[..]), sOff, index, Downward(v, s))
    ensures inter[..] == WiresWith(v, old(inter[..]), vOff, index, Downward(v, s), left[index].data)
  {
    hide LeftPhase, LevelState, Matched, Chosen, SwitchesWith, WiresWith, DeskWith, RightNext, Downward, LevelOf,
        Decides, Allows;
    RightwardReady(d, inter[..], vOff, sw[..], sOff, index, v, s, next, anchor, left, right);
    var tmp := d.left[index];
    var routeBot;
    routeBot, next' := SetRightward(tmp.data, inter, vOff, sw, sOff, n, index, tmp.dst, v, Downward(v, s));
    d' := HandOverPacket(d, n, tmp.data, index, tmp.dst, routeBot);
  }

  lemma RightPacket(left: seq<Packet>, right: seq<Packet>, j: nat)
    requires Matched(left, right) && j < |left|
    ensures var i := LevelOf(left, right).q[j];
            i < |left| && right[j].src == i && right[j].data == left[i].data && left[i].dst == j
  {
  }

  lemma MatchedData(left: seq<Packet>, right: seq<Packet>, i: nat)
    requires Matched(left, right) && i < |left|
    ensures left[i].dst < |left| && right[left[i].dst].data == left[i].data
  {
  }

  method HandOverPacket(d: Desk, n: nat, data: MemOp, i: nat, j: nat, routeBot: bool) returns (d': Desk)
    requires DeskSized(d, n) && i < n && j < n && (routeBot || (i / 2 < n / 2 && j / 2 < n / 2))
    ensures d' == DeskWith(d, n, data, i, j, routeBot)
  {
    var tmp := Packet(data, i / 2, j / 2, false);
    d' := d.(left := Flag(d.left, i), right := Flag(d.right, j));
    if routeBot {
      d' := d'.(botLeft := d'.botLeft[tmp.src := tmp], botRight := d'.botRight[tmp.dst := tmp]);
    } else {
      d' := d'.(topLeft := d'.topLeft[tmp.src := tmp], topRight := d'.topRight[tmp.dst := tmp]);
    }
  }

  // ----- the chains of a level -----

  ghost predicate AllDone(s: Routing) {
    (forall i :: 0 <= i < |s.ldone| ==> s.ldone[i]) && (forall j :: 0 <= j < |s.rdone| ==> s.rdone[j])
  }

  ghost function Undone(done: seq<bool>): set<nat> {
    set i: nat | i < |done| && !done[i]
  }

  /** Nothing but the entries lo, ..., hi - 1 has changed. */
  ghost predicate OnlyWithin<T>(a: seq<T>, b: seq<T>, lo: int, hi: int) {
    |a| == |b| && forall k :: 0 <= k < |a| && (k < lo || hi <= k) ==> a[k] == b[k]
  }

  lemma ChosenLeft(v: Level, s: Routing, left: seq<Packet>, now: seq<Packet>, next: int, anchor: int, i: int)
    requires LeftPhase(v, s, next, anchor) && |left| == v.n && Flagged(left, now, s.ldone)
    requires -1 <= i < v.n
    requires i == -1 || now[i].routed ==> forall k :: 0 <= k < v.n ==> now[k].routed
    requires i != -1 && !now[i].routed ==>
        if next != -1 && !now[next].routed then i == next else forall k :: 0 <= k < i ==> now[k].routed
    ensures Sized(s, v.n) && if i == -1 || now[i].routed then AllDone(s) else Chosen(s.ldone, v.L(), next, i)
  {
    hide Half, Split, LeftChain;
    forall k | 0 <= k < v.n ensures now[k].routed == s.ldone[k] {}
    if i == -1 || now[i].routed {
      forall j | 0 <= j < v.n ensures s.rdone[j] { assert s.ldone[v.q[j]]; }
    }
  }

  lemma ChosenRight(v: Level, s: Routing, right: seq<Packet>, now: seq<Packet>, next: int, anchor: int, j: int)
    requires RightPhase(v, s, next, anchor) && |right| == v.n && Flagged(right, now, s.rdone)
    requires -1 <= j < v.n
    requires j == -1 || now[j].routed ==> forall k :: 0 <= k < v.n ==> now[k].routed
    requires j != -1 && !now[j].routed ==>
        if next != -1 && !now[next].routed then j == next else forall k :: 0 <= k < j ==> now[k].routed
    ensures Sized(s, v.n) && if j == -1 || now[j].routed then AllDone(s) else Chosen(s.rdone, v.R(), next, j)
  {
    hide Half, Split, RightChain;
    forall k | 0 <= k < v.n ensures now[k].routed == s.rdone[k] {}
    if j == -1 || now[j].routed {
      forall i | 0 <= i < v.n ensures s.ldone[i] { assert s.rdone[v.p[i]]; }
    }
  }

  lemma PhaseSizes(v: Level, s: Routing, next: int, anchor: int)
    requires LeftPhase(v, s, next, anchor) || RightPhase(v, s, next, anchor)
    ensures -1 <= next < v.n && Sized(s, v.n) && v.Valid()
  {
    hide Half, Split, LeftChain, RightChain;
  }

  lemma UndoneShrinks(done: seq<bool>, i: nat)
    requires i < |done| && !done[i]
    ensures Undone(done[i := true]) == Undone(done) - {i} && i in Undone(done)
  {
  }

  /** Half a turn: a packet from left to right, unless all are routed. */
  method GoRight(d: Desk, next: int, inter: array<MemOp>, vOff: nat, sw: array<Switch>, sOff: nat, n: nat,
                ghost v: Level, ghost s: Routing, ghost anchor: int, ghost left: seq<Packet>, ghost right: seq<Packet>)
    returns (d': Desk, next': int, more: bool, ghost s': Routing, ghost anchor': int)
    requires Matched(left, right) && n == |left| && n >= 3 && v == LevelOf(left, right)
    requires LeftPhase(v, s, next, anchor) && LevelState(v, s, left, right, d, sw[..], sOff, inter[..], vOff)
    requires sOff + n - 1 <= sw.Length && vOff + WireRoom(n) <= inter.Length
    modifies inter, sw
    ensures LevelState(v, s', left, right, d', sw[..], sOff, inter[..], vOff)
    ensures if more then RightPhase(v, s', next', anchor') && Undone(s'.ldone) < Undone(s.ldone) else AllDone(s')
    ensures OnlyWithin(sw[..], old(sw[..]), sOff, sOff + n - 1)
    ensures OnlyWithin(inter[..], old(inter[..]), vOff, vOff + WireRoom(n))
  {
    hide LeftPhase, RightPhase, LevelState, Matched, LevelOf, Chosen, SwitchesWith, WiresWith, AllDone, Undone,
        Downward, RightNext, LeftNext, AnchorAfterLeft, AnchorAfterRight, Level.Valid;
    LevelFacts(v, s, left, right, d, sw[..], sOff, inter[..], vOff);
    PhaseSizes(v, s, next, anchor);
    d', next', s', anchor', more := d, next, s, anchor, false;
    var index := Choose(d.left, next);
    ChosenLeft(v, s, left, d.left, next, anchor, index);
    if index != -1 && !d.left[index].routed {
      LeftStep(v, s, next, anchor, index);
      UndoneShrinks(s.ldone, index);
      d', next' := Rightward(d, inter, vOff, sw, sOff, n, index, v, s, next, anchor, left, right);
      s', anchor' := Place(s, index, v.p[index], Downward(v, s)), AnchorAfterLeft(v, s, next, anchor, index);
      more := true;
    }
  }

  /** The other half: a packet from right to left, unless all are routed. */
  method GoLeft(d: Desk, next: int, inter: array<MemOp>, vOff: nat, sw: array<Switch>, sOff: nat, n: nat,
                ghost v: Level, ghost s: Routing, ghost anchor: int, ghost left: seq<Packet>, ghost right: seq<Packet>)
    returns (d': Desk, next': int, more: bool, ghost s': Routing, ghost anchor': int)
    requires Matched(left, right) && n == |left| && n >= 3 && v == LevelOf(left, right)
    requires RightPhase(v, s, next, anchor) && LevelState(v, s, left, right, d, sw[..], sOff, inter[..], vOff)
    requires sOff + n - 1 <= sw.Length && vOff + WireRoom(n) <= inter.Length
    modifies inter, sw
    ensures LevelState(v, s', left, right, d', sw[..], sOff, inter[..], vOff)
    ensures if more then LeftPhase(v, s', next', anchor') && Undone(s'.ldone) < Undone(s.ldone) else AllDone(s')
    ensures OnlyWithin(sw[..], old(sw[..]), sOff, sOff + n - 1)
    ensures OnlyWithin(inter[..], old(inter[..]), vOff, vOff + WireRoom(n))
  {
    hide LeftPhase, RightPhase, LevelState, Matched, LevelOf, Chosen, SwitchesWith, WiresWith, AllDone, Undone,
        Downward, RightNext, LeftNext, AnchorAfterLeft, AnchorAfterRight, Level.Valid;
    LevelFacts(v, s, left, right, d, sw[..], sOff, inter[..], vOff);
    PhaseSizes(v, s, next, anchor);
    d', next', s', anchor', more := d, next, s, anchor, false;
    var index := Choose(d.right, next);
    ChosenRight(v, s, right, d.right, next, anchor, index);
    if index != -1 && !d.right[index].routed {
      RightStep(v, s, next, anchor, index);
      RightReadyIndex(v, s, next, anchor, index);
      UndoneShrinks(s.ldone, v.q[index]);
      d', next' := Leftward(d, inter, vOff, sw, sOff, n, index, v, s, next, anchor, left, right);
      s', anchor' := Place(s, v.q[index], index, !Downward(v, s)), AnchorAfterRight(v, s, next, anchor, index);
      more := true;
    }
  }

  lemma RightReadyIndex(v: Level, s: Routing, next: int, anchor: int, j: nat)
    requires RightPhase(v, s, next, anchor) && Chosen(s.rdone, v.R(), next, j)
    ensures j < v.n && |v.q| == v.n && v.q[j] < v.n && !s.ldone[v.q[j]] && Sized(s, v.n)
  {
    RightChoice(v, s, next, anchor, j);
  }

  lemma NobodyRouted(n: nat)
    ensures Sized(Nobody(n), n) && forall k :: 0 <= k < n ==> !Nobody(n).ldone[k] && !Nobody(n).rdone[k]
  {
  }

  lemma NothingSet(sw: seq<Switch>, off: nat, m: nat, done: seq<bool>, bot: seq<bool>)
    requires off + m <= |sw| && 2 * m <= |done| == |bot| && (forall k :: 0 <= k < |done| ==> !done[k])
    requires forall k :: off <= k < off + m ==> !sw[k].isSet
    ensures SwitchesPlaced(sw, off, m, done, bot)
  {
  }

  lemma NothingWired(w: seq<MemOp>, off: nat, m: nat, data: seq<MemOp>, done: seq<bool>, bot: seq<bool>)
    requires off + 2 * m <= |w| && 2 * m <= |done| == |bot| == |data| && (forall k :: 0 <= k < |done| ==> !done[k])
    ensures WiresPlaced(w, off, m, data, done, bot)
  {
  }

  lemma NothingHanded(pkts: seq<Packet>, now: seq<Packet>, top: seq<Packet>, bottom: seq<Packet>, done: seq<bool>,
      bot: seq<bool>, pks: seq<Packet>)
    requires |done| == |bot| == |pks| == |pkts| && |top| == |done| / 2 && |bottom| == (|done| + 1) / 2 && now == pkts
    requires (forall k :: 0 <= k < |done| ==> !done[k]) && (forall k :: 0 <= k < |pkts| ==> !pkts[k].routed)
    ensures HandedOver(top, bottom, done, bot, pks) && Flagged(pkts, now, done)
  {
  }

  lemma MatchedUnrouted(left: seq<Packet>, right: seq<Packet>)
    requires Matched(left, right)
    ensures |left| == |right| && forall k :: 0 <= k < |left| ==> !left[k].routed && !right[k].routed
  {
  }

  /** The level before any packet is routed. */
  lemma LevelStarts(left: seq<Packet>, right: seq<Packet>, d: Desk, sw: seq<Switch>, sOff: nat, w: seq<MemOp>,
      vOff: nat)
    requires Matched(left, right) && |left| >= 3 && DeskSized(d, |left|) && d.left == left && d.right == right
    requires sOff + |left| - 1 <= |sw| && vOff + WireRoom(|left|) <= |w|
    requires forall k :: sOff <= k < sOff + |left| - 1 ==> !sw[k].isSet
    ensures LevelState(LevelOf(left, right), Nobody(|left|), left, right, d, sw, sOff, w, vOff)
  {
    hide Half, Split, Agrees, Coloured, SwitchesPlaced, WiresPlaced, RightWiresPlaced, DeskOk, Matched, LevelOf, Nobody,
        Level.Valid;
    var v, s := LevelOf(left, right), Nobody(|left|);
    NobodyRouted(|left|);
    NobodyColoured(v);
    MatchedUnrouted(left, right);
    NothingSet(sw, sOff, v.L(), s.ldone, s.lbot);
    NothingSet(sw, sOff + v.L(), v.R(), s.rdone, s.rbot);
    NothingWired(w, vOff, v.L(), Datas(left), s.ldone, s.lbot);
    NothingWiredRight(v, s, Datas(right), w, vOff);
    DeskStarts(v, s, left, right, d);
  }

  lemma NothingWiredRight(v: Level, s: Routing, data: seq<MemOp>, w: seq<MemOp>, vOff: nat)
    requires v.n >= 3 && Sized(s, v.n) && |data| == v.n && vOff + WireRoom(v.n) <= |w| &&
        (forall k :: 0 <= k < v.n ==> !s.rdone[k])
    ensures RightWiresPlaced(v, s, data, w, vOff)
  {
    hide WiresPlaced;
    if v.n > 3 { NothingWired(w, vOff + 2 * v.L(), v.R(), data, s.rdone, s.rbot); }
  }

  lemma DeskStarts(v: Level, s: Routing, left: seq<Packet>, right: seq<Packet>, d: Desk)
    requires v.Valid() && |left| == |right| == v.n && Sized(s, v.n) &&
        (forall k :: 0 <= k < v.n ==> !s.ldone[k] && !s.rdone[k])
    requires DeskSized(d, |left|) && d.left == left && d.right == right
    requires forall k :: 0 <= k < |left| ==> !left[k].routed && !right[k].routed
    ensures DeskOk(v, s, left, right, d)
  {
    hide HandedOver, Flagged;
    NothingHanded(left, d.left, d.topLeft, d.botLeft, s.ldone, s.lbot, SubPackets(v, Datas(left)));
    NothingHanded(right, d.right, d.topRight, d.botRight, s.rdone, s.rbot, SubPacketsRight(v, Datas(left)));
  }

  /** The first packet: the last output, which only the bottom subnetwork reaches, back to its input. */
  method FirstPacket(d: Desk, inter: array<MemOp>, vOff: nat, sw: array<Switch>, sOff: nat, n: nat, ghost v: Level)
    returns (d': Desk, next: int)
    requires v.n == n >= 3 && |v.p| == n && DeskSized(d, n) && d.right[n - 1].src < n &&
        v.p[d.right[n - 1].src] == n - 1
    requires sOff + n - 1 <= sw.Length && vOff + WireRoom(n) <= inter.Length
    modifies inter, sw
    ensures var i, data := d.right[n - 1].src, d.right[n - 1].data;
            && next == LeftNext(v, i) && d' == DeskWith(d, n, data, i, n - 1, true)
            && sw[..] == SwitchesWith(v, old(sw[..]), sOff, i, true) &&
                inter[..] == WiresWith(v, old(inter[..]), vOff, i, true, data)
  {
    var tmp := d.right[n - 1];
    var other := tmp.src;
    SlotOffset(other, true);
    if other % 2 == 1 {
      sw[sOff + other / 2] := Switch(false, true);
      inter[vOff + other] := tmp.data;
      next := other - 1;
    } else if other == n - 1 {
      next := -1;
    } else {
      sw[sOff + other / 2] := Switch(true, true);
      inter[vOff + other + 1] := tmp.data;
      next := other + 1;
    }
    d' := HandOverPacket(d, n, tmp.data, other, n - 1, true);
  }

  /** Routes one level: every packet is sent through one of the two subnetworks. */
  method RouteLevel(left: seq<Packet>, right: seq<Packet>, inter: array<MemOp>, vOff: nat, sw: array<Switch>, sOff: nat,
      n: nat)
    returns (d: Desk, ghost s: Routing)
    requires Matched(left, right) && n == |left| && n >= 3
    requires sOff + n - 1 <= sw.Length && vOff + WireRoom(n) <= inter.Length
    requires forall k :: sOff <= k < sOff + n - 1 ==> !sw[k].isSet
    modifies inter, sw
    ensures LevelState(LevelOf(left, right), s, left, right, d, sw[..], sOff, inter[..], vOff) && AllDone(s)
    ensures OnlyWithin(sw[..], old(sw[..]), sOff, sOff + n - 1)
    ensures OnlyWithin(inter[..], old(inter[..]), vOff, vOff + WireRoom(n))
  {
    hide LeftPhase, RightPhase, LevelState, Matched, LevelOf, SwitchesWith, WiresWith, AllDone, Undone, LeftNext,
        Coloured, DeskWith;
    ghost var v := LevelOf(left, right);
    // the subnetworks' packet arrays start with arbitrary contents
    var next: int;
    d, next, s := StartLevel(left, right, inter, vOff, sw, sOff, n);
    ghost var anchor := -1;
    var more := true;
    while more
      invariant LevelState(v, s, left, right, d, sw[..], sOff, inter[..], vOff)
      invariant if more then LeftPhase(v, s, next, anchor) else AllDone(s)
      invariant OnlyWithin(sw[..], old(sw[..]), sOff, sOff + n - 1)
      invariant OnlyWithin(inter[..], old(inter[..]), vOff, vOff + WireRoom(n))
      decreases more, Undone(s.ldone)
    {
      d, next, more, s, anchor := GoRight(d, next, inter, vOff, sw, sOff, n, v, s, anchor, left, right);
      if more {
        d, next, more, s, anchor := GoLeft(d, next, inter, vOff, sw, sOff, n, v, s, anchor, left, right);
      }
    }
  }

  /** The packet arrays of a level; those of the subnetworks start with arbitrary contents. */
  method NewDesk(left: seq<Packet>, right: seq<Packet>, n: nat) returns (d: Desk)
    requires |left| == |right| == n >= 3
    ensures DeskSized(d, n) && d.left == left && d.right == right
  {
    var top, bottom := seq(n / 2, _ => left[0]), seq((n + 1) / 2, _ => left[0]);
    d := Desk(left, right, top, top, bottom, bottom);
  }

  method StartLevel(left: seq<Packet>, right: seq<Packet>, inter: array<MemOp>, vOff: nat, sw: array<Switch>, sOff: nat,
      n: nat)
    returns (d: Desk, next: int, ghost s: Routing)
    requires Matched(left, right) && n == |left| && n >= 3
    requires sOff + n - 1 <= sw.Length && vOff + WireRoom(n) <= inter.Length
    requires forall k :: sOff <= k < sOff + n - 1 ==> !sw[k].isSet
    modifies inter, sw
    ensures LevelState(LevelOf(left, right), s, left, right, d, sw[..], sOff, inter[..], vOff)
    ensures LeftPhase(LevelOf(left, right), s, next, -1)
    ensures OnlyWithin(sw[..], old(sw[..]), sOff, sOff + n - 1)
    ensures OnlyWithin(inter[..], old(inter[..]), vOff, vOff + WireRoom(n))
  {
    hide LeftPhase, LevelState, Matched, LevelOf, SwitchesWith, WiresWith, Coloured, DeskWith, Nobody, Place, LeftNext,
        Level.Valid;
    ghost var v := LevelOf(left, right);
    MatchedUnrouted(left, right);
    RightPacket(left, right, n - 1);
    d := NewDesk(left, right, n);
    LevelStarts(left, right, d, sw[..], sOff, inter[..], vOff);
    FirstReady(left, right, d, sw[..], sOff, inter[..], vOff);
    d, next := FirstPacket(d, inter, vOff, sw, sOff, n, v);
    NobodyRouted(n);
    s := Place(Nobody(n), v.q[n - 1], n - 1, true);
  }

  lemma FirstColoured(v: Level)
    requires v.Valid()
    ensures v.q[v.n - 1] < v.n && Coloured(v, Place(Nobody(v.n), v.q[v.n - 1], v.n - 1, true))
  {
    hide Half, Split, Agrees, Coloured, LeftChain;
    ChainBegins(v);
  }

  lemma FirstReady(left: seq<Packet>, right: seq<Packet>, d: Desk, sw: seq<Switch>, sOff: nat, w: seq<MemOp>, vOff: nat)
    requires Matched(left, right) && |left| >= 3 &&
        LevelState(LevelOf(left, right), Nobody(|left|), left, right, d, sw, sOff, w, vOff)
    requires sOff + |left| - 1 <= |sw| && vOff + WireRoom(|left|) <= |w| && d.right == right
    ensures var v := LevelOf(left, right);
            var i, n := v.q[v.n - 1], v.n;
            && n == |left| && i < n && v.p[i] == n - 1 && DeskSized(d, n) && d.right[n - 1].src == i &&
                d.right[n - 1].data == left[i].data
            && LeftPhase(v, Place(Nobody(n), i, n - 1, true), LeftNext(v, i), -1)
            && LevelState(v, Place(Nobody(n), i, n - 1, true), left, right,
                DeskWith(d, n, left[i].data, i, n - 1, true),
                          SwitchesWith(v, sw, sOff, i, true), sOff, WiresWith(v, w, vOff, i, true, left[i].data), vOff)
  {
    hide LeftPhase, LevelState, Matched, SwitchesWith, WiresWith, Coloured, DeskWith, Half, LevelOf, Nobody,
        Level.Valid;
    var v := LevelOf(left, right);
    NobodyRouted(v.n);
    ChainBegins(v);
    PacketAt(v, v.n - 1);
    RightPacket(left, right, v.n - 1);
    LevelFacts(v, Nobody(v.n), left, right, d, sw, sOff, w, vOff);
    PartnerFacts(v.q[v.n - 1]);
    FirstColoured(v);
    LevelAfter(v, Nobody(v.n), left, right, d, sw, sOff, w, vOff, v.q[v.n - 1], true);
  }
}
