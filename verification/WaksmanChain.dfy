/**
 The alternating chains by which the router splits the packets of one network level between
 the top and the bottom subnetwork, and the invariants that make every switch it meets agree.
 */
module WaksmanChain {

  function Partner(i: nat): nat {
    if i % 2 == 0 then i + 1 else i - 1
  }

  lemma PartnerFacts(i: nat)
    ensures Partner(i) != i && Partner(Partner(i)) == i
    ensures forall m :: i < 2 * m <==> Partner(i) < 2 * m
  {
  }

  function PairOf(a: int): set<nat> {
    if a < 0 then {} else {a, Partner(a)}
  }

  lemma PairOfPartner(a: nat)
    ensures PairOf(Partner(a)) == PairOf(a)
  {
    PartnerFacts(a);
  }

  lemma PairRemoved(a: nat, b: int)
    requires a !in PairOf(b)
    ensures PairOf(a) + PairOf(b) - PairOf(a) == PairOf(b)
  {
    PartnerFacts(a);
    if b >= 0 { PartnerFacts(b); }
  }

  /** Packet `i` enters at left position `i` and leaves at right position `p[i]`; `q` is the inverse. */
  datatype Level = Level(n: nat, p: seq<nat>, q: seq<nat>) {
    ghost predicate Valid() {
      && n >= 3 && |p| == n && |q| == n
      && (forall i :: 0 <= i < n ==> p[i] < n && q[p[i]] == i)
      && (forall j :: 0 <= j < n ==> q[j] < n && p[q[j]] == j)
    }

    predicate Even() { n % 2 == 0 }

    /** Left and right switches; positions past theirs are links. */
    function L(): nat { n / 2 }

    function R(): nat
      requires n >= 1
    {
      (n - 1) / 2
    }
  }

  /** Per left and per right position: is its packet routed, and through the bottom subnetwork? */
  datatype Routing = Routing(ldone: seq<bool>, lbot: seq<bool>, rdone: seq<bool>, rbot: seq<bool>)

  predicate Sized(s: Routing, n: nat) {
    |s.ldone| == |s.lbot| == |s.rdone| == |s.rbot| == n
  }

  /** Both sides tell the same story about every packet. */
  ghost predicate Agrees(v: Level, s: Routing)
    requires v.Valid()
  {
    && Sized(s, v.n)
    && (forall i :: 0 <= i < v.n ==> s.rdone[v.p[i]] == s.ldone[i] && s.rbot[v.p[i]] == s.lbot[i])
    && (forall j :: 0 <= j < v.n ==> s.ldone[v.q[j]] == s.rdone[j] && s.lbot[v.q[j]] == s.rbot[j])
  }

  function Place(s: Routing, i: nat, j: nat, bottom: bool): (r: Routing)
    requires Sized(s, |s.ldone|) && i < |s.ldone| && j < |s.ldone|
    ensures Sized(r, |s.ldone|)
  {
    Routing(s.ldone[i := true], s.lbot[i := bottom], s.rdone[j := true], s.rbot[j := bottom])
  }

  lemma PlaceAgrees(v: Level, s: Routing, i: nat, bottom: bool)
    requires v.Valid() && Agrees(v, s) && i < v.n
    ensures Agrees(v, Place(s, i, v.p[i], bottom))
  {
  }

  // ----- switches with one packet routed -----

  /** Positions below `m` of whose pair exactly one member is done. */
  ghost function Half(done: seq<bool>, m: nat): set<nat>
    requires 2 * m <= |done|
  {
    set i: nat | i < 2 * m && done[i] != done[Partner(i)]
  }

  lemma HalfAfter(done: seq<bool>, m: nat, i: nat)
    requires 2 * m <= |done| && i < |done| && !done[i]
    ensures Half(done[i := true], m) ==
              if i >= 2 * m then Half(done, m)
              else if done[Partner(i)] then Half(done, m) - PairOf(i) else Half(done, m) + PairOf(i)
  {
    var done' := done[i := true];
    PartnerFacts(i);
    forall k: nat | k < 2 * m
      ensures done'[k] == (done[k] || k == i) && done'[Partner(k)] == (done[Partner(k)] || k == Partner(i))
    {
      PartnerFacts(k);
    }
  }

  lemma HalfHas(done: seq<bool>, m: nat, i: nat)
    requires 2 * m <= |done| && i < 2 * m
    ensures i in Half(done, m) <==> done[i] != done[Partner(i)]
  {
  }

  // ----- colouring -----

  /** No switch is asked to send both its packets the same way. */
  ghost predicate Split(done: seq<bool>, bot: seq<bool>, m: nat)
    requires 2 * m <= |done| == |bot|
  {
    forall i :: 0 <= i < 2 * m && done[i] && done[Partner(i)] ==> bot[i] != bot[Partner(i)]
  }

  lemma SplitAfter(done: seq<bool>, bot: seq<bool>, m: nat, i: nat, bottom: bool)
    requires 2 * m <= |done| == |bot| && Split(done, bot, m) && i < |done| && !done[i]
    requires i < 2 * m && done[Partner(i)] ==> bot[Partner(i)] != bottom
    ensures Split(done[i := true], bot[i := bottom], m)
  {
    var done', bot' := done[i := true], bot[i := bottom];
    PartnerFacts(i);
    forall k | 0 <= k < 2 * m && done'[k] && done'[Partner(k)] ensures bot'[k] != bot'[Partner(k)] {
      PartnerFacts(k);
    }
  }

  /** The links go where they lead. */
  predicate LinksOk(v: Level, s: Routing)
    requires v.n >= 3 && Sized(s, v.n)
  {
    && (!v.Even() && s.ldone[v.n - 1] ==> s.lbot[v.n - 1])
    && (s.rdone[v.n - 1] ==> s.rbot[v.n - 1])
    && (v.Even() && s.rdone[v.n - 2] ==> !s.rbot[v.n - 2])
  }

  ghost predicate Coloured(v: Level, s: Routing) {
    && v.Valid() && Sized(s, v.n) && Agrees(v, s) && LinksOk(v, s)
    && Split(s.ldone, s.lbot, v.L()) && Split(s.rdone, s.rbot, v.R())
  }

  lemma ColouredBasics(v: Level, s: Routing)
    requires Coloured(v, s)
    ensures v.Valid() && v.n >= 3 && |v.p| == |v.q| == v.n && Sized(s, v.n) && LinksOk(v, s)
  {
  }

  // ----- the two phases of a chain -----

  /** Packets go left to right through the bottom exactly in the later chains of an even network. */
  predicate Downward(v: Level, s: Routing)
    requires v.n >= 3 && Sized(s, v.n)
  {
    v.Even() && s.rdone[v.n - 2]
  }

  predicate Open(done: seq<bool>, m: nat, next: int)
    requires 2 * m <= |done|
  {
    0 <= next < 2 * m && !done[next]
  }

  /** The partner of position `next`, routed before it, went the way given. */
  predicate Follows(done: seq<bool>, bot: seq<bool>, next: nat, bottom: bool)
    requires next < |done| == |bot|
  {
    Partner(next) < |done| && done[Partner(next)] && bot[Partner(next)] == bottom
  }

  /** The pair in which a cycle began: its routed member went through the top, the other is unrouted. */
  predicate Anchored(done: seq<bool>, bot: seq<bool>, m: nat, anchor: int)
    requires 2 * m <= |done| == |bot|
  {
    0 <= anchor < 2 * m && done[anchor] && !bot[anchor] && Partner(anchor) < |done| && !done[Partner(anchor)]
  }

  /** Before a packet is routed from left to right: `next` is its position, or else a new cycle begins. */
  ghost predicate LeftPhase(v: Level, s: Routing, next: int, anchor: int) {
    && Coloured(v, s) && s.rdone[v.n - 1] && -1 <= next < 2 * v.L() && -1 <= anchor
    && Half(s.ldone, v.L()) == PairOf(if Open(s.ldone, v.L(), next) then next else -1) +
        PairOf(if v.Even() then -1 else anchor)
    && Half(s.rdone, v.R()) == PairOf(if v.Even() then anchor else -1)
    && LeftChain(v, s, next, anchor)
  }

  ghost predicate LeftChain(v: Level, s: Routing, next: int, anchor: int)
    requires v.n >= 3 && Sized(s, v.n)
  {
    var open := Open(s.ldone, v.L(), next);
    && (open ==> Follows(s.ldone, s.lbot, next, !Downward(v, s)))
    && (v.Even() ==> open && (if Downward(v, s) then Anchored(s.rdone, s.rbot, v.R(), anchor) else anchor == -1))
    && (!v.Even() ==> open || (anchor == -1 && s.ldone[v.n - 1]))
    && (!v.Even() && anchor >= 0 ==>
        s.ldone[v.n - 1] && Anchored(s.ldone, s.lbot, v.L(), anchor) && next !in PairOf(anchor))
  }

  /** Before a packet is routed from right to left. */
  ghost predicate RightPhase(v: Level, s: Routing, next: int, anchor: int) {
    && Coloured(v, s) && s.rdone[v.n - 1] && -1 <= next < 2 * v.R() && -1 <= anchor
    && Half(s.ldone, v.L()) == PairOf(if v.Even() then -1 else anchor)
    && Half(s.rdone, v.R()) == PairOf(if Open(s.rdone, v.R(), next) then next else -1) +
        PairOf(if v.Even() then anchor else -1)
    && RightChain(v, s, next, anchor)
  }

  ghost predicate RightChain(v: Level, s: Routing, next: int, anchor: int)
    requires v.n >= 3 && Sized(s, v.n)
  {
    var open := Open(s.rdone, v.R(), next);
    && (open ==> Follows(s.rdone, s.rbot, next, Downward(v, s)))
    && (!v.Even() ==> open && (anchor >= 0 ==> s.ldone[v.n - 1] && Anchored(s.ldone, s.lbot, v.L(), anchor)))
    && (v.Even() && !Downward(v, s) ==> open && anchor == -1)
    && (Downward(v, s) ==>
        if open then Anchored(s.rdone, s.rbot, v.R(), anchor) && next !in PairOf(anchor) else anchor == -1)
  }

  // ----- the chain begins at the last output -----

  lemma PacketAt(v: Level, j: nat)
    requires v.Valid() && j < v.n
    ensures v.q[j] < v.n && v.p[v.q[j]] == j && v.p[j] < v.n && v.q[v.p[j]] == j
  {
  }

  lemma PlaceColoured(v: Level, s: Routing, i: nat, bottom: bool)
    requires Coloured(v, s) && i < v.n && !s.ldone[i]
    requires i < 2 * v.L() && s.ldone[Partner(i)] ==> s.lbot[Partner(i)] != bottom
    requires v.p[i] < 2 * v.R() && s.rdone[Partner(v.p[i])] ==> s.rbot[Partner(v.p[i])] != bottom
    requires LinksOk(v, Place(s, i, v.p[i], bottom))
    ensures !s.rdone[v.p[i]] && Coloured(v, Place(s, i, v.p[i], bottom))
  {
    SplitAfter(s.ldone, s.lbot, v.L(), i, bottom);
    assert !s.rdone[v.p[i]];
    SplitAfter(s.rdone, s.rbot, v.R(), v.p[i], bottom);
    PlaceAgrees(v, s, i, bottom);
  }

  function Nobody(n: nat): Routing {
    var none := seq(n, _ => false);
    Routing(none, none, none, none)
  }

  lemma NobodyHalf(done: seq<bool>, bot: seq<bool>, m: nat)
    requires 2 * m <= |done| == |bot| && forall k :: 0 <= k < |done| ==> !done[k]
    ensures Half(done, m) == {} && Split(done, bot, m)
  {
  }

  lemma NobodyColoured(v: Level)
    requires v.Valid()
    ensures Coloured(v, Nobody(v.n))
    ensures Half(Nobody(v.n).ldone, v.L()) == {} && Half(Nobody(v.n).rdone, v.R()) == {}
  {
    hide Half, Split;
    var s := Nobody(v.n);
    NobodyHalf(s.ldone, s.lbot, v.L());
    NobodyHalf(s.rdone, s.rbot, v.R());
  }

  lemma ChainBegins(v: Level)
    requires v.Valid()
    ensures var i := v.q[v.n - 1];
            LeftPhase(v, Place(Nobody(v.n), i, v.n - 1, true), if i < 2 * v.L() then Partner(i) else -1, -1)
  {
    hide Half, Split, Agrees, Coloured;
    var i, s := v.q[v.n - 1], Nobody(v.n);
    PacketAt(v, v.n - 1);
    NobodyColoured(v);
    PartnerFacts(i);
    PlaceColoured(v, s, i, true);
    HalfAfter(s.ldone, v.L(), i);
    HalfAfter(s.rdone, v.R(), v.n - 1);
    PairOfPartner(i);
  }

  // ----- one packet from left to right -----

  /** The position the router takes: the open one, or the first unrouted one. */
  ghost predicate Chosen(done: seq<bool>, m: nat, next: int, i: nat)
    requires 2 * m <= |done|
  {
    && i < |done| && !done[i]
    && (if Open(done, m, next) then i == next else forall k :: 0 <= k < i ==> done[k])
  }

  function AnchorAfterLeft(v: Level, s: Routing, next: int, anchor: int, i: nat): int
    requires v.n >= 3 && Sized(s, v.n) && |v.p| == v.n && i < v.n
  {
    if !Open(s.ldone, v.L(), next) then i
    else if Downward(v, s) && anchor >= 0 && v.p[i] == Partner(anchor) then -1
    else anchor
  }

  function RightNext(v: Level, j: nat): int
    requires v.n >= 1
  {
    if j < 2 * v.R() then Partner(j) else -1
  }

  function LeftNext(v: Level, i: nat): int {
    if i < 2 * v.L() then Partner(i) else -1
  }

  /** A position that opens a new cycle is the even one of a pair nobody has touched. */
  lemma FreshChoice(done: seq<bool>, m: nat, i: nat)
    requires 2 * m <= |done| && Half(done, m) == {} && i < 2 * m && !done[i]
    requires forall k :: 0 <= k < i ==> done[k]
    ensures i % 2 == 0 && !done[Partner(i)]
  {
    HalfHas(done, m, i);
  }

  lemma LeftChoice(v: Level, s: Routing, next: int, anchor: int, i: nat)
    requires LeftPhase(v, s, next, anchor) && Chosen(s.ldone, v.L(), next, i)
    ensures i < 2 * v.L() && !s.ldone[i] && v.p[i] < v.n - 1 && !s.rdone[v.p[i]]
    ensures if Open(s.ldone, v.L(), next) then i == next && Follows(s.ldone, s.lbot, i, !Downward(v, s))
            else !Downward(v, s) && i % 2 == 0 && !s.ldone[Partner(i)] && Half(s.ldone, v.L()) == {}
  {
    hide Half, Split;
    PacketAt(v, v.n - 1);
    assert !s.rdone[v.p[i]];
    if !Open(s.ldone, v.L(), next) {
      FreshChoice(s.ldone, v.L(), i);
    }
  }

  /** The packet's right partner is unrouted, unless the cycle that began there closes. */
  lemma RightMeets(v: Level, s: Routing, next: int, anchor: int, i: nat)
    requires LeftPhase(v, s, next, anchor) && Chosen(s.ldone, v.L(), next, i) && v.p[i] < 2 * v.R()
    ensures var j := v.p[i];
            s.rdone[Partner(j)] <==> Downward(v, s) && anchor >= 0 && j == Partner(anchor)
    ensures var j := v.p[i];
            s.rdone[Partner(j)] ==> !s.rbot[Partner(j)] && Partner(j) == anchor && Half(s.rdone, v.R()) == PairOf(j)
    ensures !s.rdone[Partner(v.p[i])] ==> v.p[i] !in Half(s.rdone, v.R())
  {
    hide Half, Split, Agrees;
    var j := v.p[i];
    LeftChoice(v, s, next, anchor, i);
    HalfHas(s.rdone, v.R(), j);
    PartnerFacts(j);
    if anchor >= 0 { PartnerFacts(anchor); PairOfPartner(anchor); }
  }

  lemma LeftStepColoured(v: Level, s: Routing, next: int, anchor: int, i: nat)
    requires LeftPhase(v, s, next, anchor) && Chosen(s.ldone, v.L(), next, i)
    ensures v.p[i] < v.n - 1 && Coloured(v, Place(s, i, v.p[i], Downward(v, s)))
  {
    hide Half, Split, Agrees, Chosen;
    LeftChoice(v, s, next, anchor, i);
    if v.p[i] < 2 * v.R() { RightMeets(v, s, next, anchor, i); }
    PlaceColoured(v, s, i, Downward(v, s));
  }

  lemma LeftStepHalves(v: Level, s: Routing, next: int, anchor: int, i: nat)
    requires LeftPhase(v, s, next, anchor) && Chosen(s.ldone, v.L(), next, i)
    ensures var s', next', anchor' := Place(s, i, v.p[i], Downward(v, s)), RightNext(v, v.p[i]),
        AnchorAfterLeft(v, s, next, anchor, i);
            && Half(s'.ldone, v.L()) == PairOf(if v.Even() then -1 else anchor')
            && Half(s'.rdone, v.R()) == PairOf(if Open(s'.rdone, v.R(), next') then next' else -1) +
                PairOf(if v.Even() then anchor' else -1)
  {
    hide Half, Split, Agrees, Chosen, Coloured, Partner;
    ColouredBasics(v, s);
    LeftChoice(v, s, next, anchor, i);
    var j := v.p[i];
    HalfAfter(s.ldone, v.L(), i);
    HalfAfter(s.rdone, v.R(), j);
    PartnerFacts(i);
    PartnerFacts(j);
    PairRemoved(i, if Open(s.ldone, v.L(), next) && !v.Even() then anchor else -1);
    if j < 2 * v.R() {
      RightMeets(v, s, next, anchor, i);
      PairOfPartner(j);
    }
  }

  lemma LeftStep(v: Level, s: Routing, next: int, anchor: int, i: nat)
    requires LeftPhase(v, s, next, anchor) && Chosen(s.ldone, v.L(), next, i)
    ensures v.p[i] < v.n
    ensures RightPhase(v, Place(s, i, v.p[i], Downward(v, s)), RightNext(v, v.p[i]),
        AnchorAfterLeft(v, s, next, anchor, i))
  {
    hide Half, Split, Agrees, Chosen, Coloured, Partner;
    ColouredBasics(v, s);
    LeftStepColoured(v, s, next, anchor, i);
    LeftStepHalves(v, s, next, anchor, i);
    LeftChoice(v, s, next, anchor, i);
    var j := v.p[i];
    PartnerFacts(i);
    PartnerFacts(j);
    if anchor >= 0 { PartnerFacts(anchor); }
    if j < 2 * v.R() {
      RightMeets(v, s, next, anchor, i);
    }
  }

  // ----- one packet from right to left -----

  function AnchorAfterRight(v: Level, s: Routing, next: int, anchor: int, j: nat): int
    requires v.n >= 3 && Sized(s, v.n) && |v.q| == v.n && j < v.n
  {
    if !Open(s.rdone, v.R(), next) then j
    else if !v.Even() && anchor >= 0 && v.q[j] == Partner(anchor) then -1
    else anchor
  }

  lemma RightChoice(v: Level, s: Routing, next: int, anchor: int, j: nat)
    requires RightPhase(v, s, next, anchor) && Chosen(s.rdone, v.R(), next, j)
    ensures j < 2 * v.R() && !s.rdone[j] && v.q[j] < v.n && !s.ldone[v.q[j]]
    ensures if Open(s.rdone, v.R(), next) then j == next && Follows(s.rdone, s.rbot, j, Downward(v, s))
            else Downward(v, s) && j % 2 == 0 && !s.rdone[Partner(j)] && Half(s.rdone, v.R()) == {}
  {
    hide Half, Split;
    if !Open(s.rdone, v.R(), next) {
      FreshChoice(s.rdone, v.R(), j);
    }
  }

  /** The packet's left partner is unrouted, unless the cycle that began there closes. */
  lemma LeftMeets(v: Level, s: Routing, next: int, anchor: int, j: nat)
    requires RightPhase(v, s, next, anchor) && Chosen(s.rdone, v.R(), next, j) && v.q[j] < 2 * v.L()
    ensures var i := v.q[j];
            s.ldone[Partner(i)] <==> !v.Even() && anchor >= 0 && i == Partner(anchor)
    ensures var i := v.q[j];
            s.ldone[Partner(i)] ==>
                !s.lbot[Partner(i)] && Partner(i) == anchor && Half(s.ldone, v.L()) == PairOf(i) && s.ldone[v.n - 1]
    ensures !s.ldone[Partner(v.q[j])] ==> v.q[j] !in Half(s.ldone, v.L())
  {
    hide Half, Split, Agrees;
    var i := v.q[j];
    RightChoice(v, s, next, anchor, j);
    HalfHas(s.ldone, v.L(), i);
    PartnerFacts(i);
    if anchor >= 0 { PartnerFacts(anchor); PairOfPartner(anchor); }
  }

  lemma RightStepColoured(v: Level, s: Routing, next: int, anchor: int, j: nat)
    requires RightPhase(v, s, next, anchor) && Chosen(s.rdone, v.R(), next, j)
    ensures Coloured(v, Place(s, v.q[j], j, !Downward(v, s)))
  {
    hide Half, Split, Agrees, Chosen;
    RightChoice(v, s, next, anchor, j);
    PacketAt(v, j);
    if v.q[j] < 2 * v.L() { LeftMeets(v, s, next, anchor, j); }
    PlaceColoured(v, s, v.q[j], !Downward(v, s));
  }

  lemma RightStepHalves(v: Level, s: Routing, next: int, anchor: int, j: nat)
    requires RightPhase(v, s, next, anchor) && Chosen(s.rdone, v.R(), next, j)
    ensures var s', next', anchor' := Place(s, v.q[j], j, !Downward(v, s)), LeftNext(v, v.q[j]),
        AnchorAfterRight(v, s, next, anchor, j);
            && Half(s'.rdone, v.R()) == PairOf(if v.Even() then anchor' else -1)
            && Half(s'.ldone, v.L()) == PairOf(if Open(s'.ldone, v.L(), next') then next' else -1) +
                PairOf(if v.Even() then -1 else anchor')
  {
    hide Half, Split, Agrees, Chosen, Coloured, Partner;
    ColouredBasics(v, s);
    RightChoice(v, s, next, anchor, j);
    var i := v.q[j];
    HalfAfter(s.ldone, v.L(), i);
    HalfAfter(s.rdone, v.R(), j);
    PartnerFacts(i);
    PartnerFacts(j);
    PairRemoved(j, if Open(s.rdone, v.R(), next) && v.Even() then anchor else -1);
    if i < 2 * v.L() {
      LeftMeets(v, s, next, anchor, j);
      PairOfPartner(i);
    }
  }

  lemma RightStep(v: Level, s: Routing, next: int, anchor: int, j: nat)
    requires RightPhase(v, s, next, anchor) && Chosen(s.rdone, v.R(), next, j)
    ensures LeftPhase(v, Place(s, v.q[j], j, !Downward(v, s)), LeftNext(v, v.q[j]),
        AnchorAfterRight(v, s, next, anchor, j))
  {
    hide Half, Split, Agrees, Chosen, Coloured, Partner;
    ColouredBasics(v, s);
    RightStepColoured(v, s, next, anchor, j);
    RightStepHalves(v, s, next, anchor, j);
    RightChoice(v, s, next, anchor, j);
    var i := v.q[j];
    PartnerFacts(i);
    PartnerFacts(j);
    if anchor >= 0 { PartnerFacts(anchor); }
    if i < 2 * v.L() {
      LeftMeets(v, s, next, anchor, j);
    }
  }
}
