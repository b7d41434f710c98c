/** Where the break guard occurs in the emitted code, and which children of a compound statement share a state. */
module FlatteningGuard {
  import opened LoopNest
  import opened StateMachine
  import opened Flattening

  // ----- the guard in code -----

  /** The code sets the guard, at some depth. */
  predicate Sets(c: Code) {
    match c
    case SetGuard(on) => on
    case Choose(_, a, b) => SomeSets(a) || SomeSets(b)
    case UnlessGuard(b) => SomeSets(b)
    case _ => false
  }

  predicate SomeSets(cs: seq<Code>) {
    |cs| > 0 && (Sets(cs[0]) || SomeSets(cs[1..]))
  }

  /** The code mentions the guard, at some depth. */
  predicate Uses(c: Code) {
    match c
    case SetGuard(_) => true
    case UnlessGuard(_) => true
    case Choose(_, a, b) => SomeUses(a) || SomeUses(b)
    case _ => false
  }

  predicate SomeUses(cs: seq<Code>) {
    |cs| > 0 && (Uses(cs[0]) || SomeUses(cs[1..]))
  }

  lemma {:induction false} GuardsJoin(a: seq<Code>, b: seq<Code>)
    ensures SomeSets(a + b) <==> SomeSets(a) || SomeSets(b)
    ensures SomeUses(a + b) <==> SomeUses(a) || SomeUses(b)
    decreases |a|
  {
    if |a| == 0 {
      assert a + b == b;
    } else {
      assert (a + b)[1..] == a[1..] + b;
      GuardsJoin(a[1..], b);
    }
  }

  lemma GuardsOne(c: Code)
    ensures SomeSets([c]) <==> Sets(c)
    ensures SomeUses([c]) <==> Uses(c)
  {
  }

  lemma GuardsTwo(c: Code, d: Code)
    ensures SomeSets([c, d]) <==> Sets(c) || Sets(d)
    ensures SomeUses([c, d]) <==> Uses(c) || Uses(d)
  {
    assert [c, d][1..] == [d];
    GuardsOne(d);
  }

  /** Rewritten code sets the guard exactly when the statement has a jump, and mentions it nowhere else. */
  lemma {:induction false} RewriteGuards(s: Stmt, t: nat)
    requires LoopFree(s)
    ensures HasJump(s) <==> SomeSets(Rewrite(s, t))
    ensures HasJump(s) <==> SomeUses(Rewrite(s, t))
    decreases s
  {
    match s
    case Act(a) =>
      GuardsOne(Do(a));
    case If(c, a, b) =>
      RewriteBlockGuards(a, t);
      RewriteBlockGuards(b, t);
      GuardsOne(Choose(c, RewriteBlock(a, t), RewriteBlock(b, t)));
    case Compound(b) =>
      RewriteBlockGuards(b, t);
    case Break =>
      GuardsTwo(SetState(t), SetGuard(true));
    case Continue =>
      GuardsTwo(SetState(t - 1), SetGuard(true));
  }

  lemma {:induction false} RewriteBlockGuards(b: Block, t: nat)
    requires LoopFreeBlock(b)
    ensures BlockHasJump(b) <==> SomeSets(RewriteBlock(b, t))
    ensures BlockHasJump(b) <==> SomeUses(RewriteBlock(b, t))
    decreases b
  {
    if b.Cons? {
      hide Rewrite, Sets, Uses;
      var rest := RewriteBlock(b.tail, t);
      RewriteGuards(b.head, t);
      RewriteBlockGuards(b.tail, t);
      GuardsJoin(Rewrite(b.head, t), [UnlessGuard(rest)]);
      GuardsJoin(Rewrite(b.head, t), rest);
      GuardedBlock(rest);
    }
  }

  lemma GuardedBlock(body: seq<Code>)
    ensures SomeSets([UnlessGuard(body)]) <==> SomeSets(body)
    ensures SomeUses([UnlessGuard(body)])
  {
    GuardsOne(UnlessGuard(body));
  }

  // ----- the guard in state blocks -----

  /** Some block sets the guard. */
  ghost predicate AnySets(bs: seq<StateBlock>) {
    exists i :: 0 <= i < |bs| && SomeSets(bs[i].code)
  }

  /** A block that mentions the guard also sets it. */
  ghost predicate SetWhereUsed(bs: seq<StateBlock>) {
    forall i :: 0 <= i < |bs| && SomeUses(bs[i].code) ==> SomeSets(bs[i].code)
  }

  /** The guard occurs if there is a jump, and only in blocks that set it. */
  ghost predicate GuardFor(bs: seq<StateBlock>, jumps: bool) {
    SetWhereUsed(bs) && (AnySets(bs) <==> jumps)
  }

  lemma GuardForJoin(a: seq<StateBlock>, x: bool, b: seq<StateBlock>, y: bool)
    requires GuardFor(a, x) && GuardFor(b, y)
    ensures GuardFor(a + b, x || y)
  {
    var c := a + b;
    assert forall i :: 0 <= i < |a| ==> c[i] == a[i];
    assert forall i :: 0 <= i < |b| ==> c[|a| + i] == b[i];
    if i :| 0 <= i < |c| && SomeSets(c[i].code) {
      assert if i < |a| then SomeSets(a[i].code) else SomeSets(b[i - |a|].code);
    }
    if i :| 0 <= i < |a| && SomeSets(a[i].code) { assert SomeSets(c[i].code); }
    if i :| 0 <= i < |b| && SomeSets(b[i].code) { assert SomeSets(c[|a| + i].code); }
    forall i | 0 <= i < |c| && SomeUses(c[i].code) ensures SomeSets(c[i].code) {
      if i >= |a| { assert c[i] == b[i - |a|]; }
    }
  }

  /** One block whose code sets the guard exactly if `jumps`, and mentions it only then. */
  lemma GuardForOne(k: nat, code: seq<Code>, jumps: bool)
    requires jumps <==> SomeSets(code)
    requires jumps <==> SomeUses(code)
    ensures GuardFor([StateBlock(k, code)], jumps)
  {
    var bs := [StateBlock(k, code)];
    assert bs[0].code == code;
  }

  lemma StateEndGuards(code: seq<Code>, jumps: bool)
    requires jumps <==> SomeSets(code)
    requires jumps <==> SomeUses(code)
    ensures jumps <==> SomeSets(code + StateEnd(jumps))
    ensures jumps <==> SomeUses(code + StateEnd(jumps))
  {
    GuardsJoin(code, StateEnd(jumps));
    GuardsOne(IncState);
    GuardsTwo(SetGuard(false), IncState);
  }

  lemma HeadAndTailGuards(s: Stmt, k: nat, n: nat)
    requires IsLoop(s)
    ensures !SomeSets(LoopHead(s, k, n)) && !SomeUses(LoopHead(s, k, n))
    ensures !SomeSets(LoopTail(s, k)) && !SomeUses(LoopTail(s, k))
  {
    GuardsOne(IncState);
    GuardsOne(SetState(k + n));
    GuardsOne(SetState(k + 1));
    if !s.DoWhile? {
      var enter := Choose(s.cond, [IncState], [SetState(k + n)]);
      GuardsOne(enter);
      if s.For? { GuardsTwo(Do(s.init), enter); }
    }
    var again := Choose(s.cond, [SetState(k + 1)], [IncState]);
    GuardsOne(again);
    if s.For? { GuardsTwo(Do(s.inc), again); }
  }

  lemma {:induction false} LoopGuards(s: Stmt, k: nat)
    requires IsLoop(s) && Accepted(s)
    ensures GuardFor(FlattenLoop(s, k), HasJump(s))
    decreases s, 0
  {
    hide GuardFor, LoopHead, LoopTail, FlattenBody, SomeSets, SomeUses;
    var n := CountStates(s);
    var head, tail := LoopHead(s, k, n), LoopTail(s, k);
    var body := FlattenBody(s.body, k + 1, k + n - 1);
    HeadAndTailGuards(s, k, n);
    GuardForOne(k, head, false);
    GuardForOne(k + n - 1, tail, false);
    BodyGuards(s.body, k + 1, k + n - 1);
    GuardForJoin([StateBlock(k, head)], false, body, HasJump(s.body));
    GuardForJoin([StateBlock(k, head)] + body, HasJump(s.body), [StateBlock(k + n - 1, tail)], false);
  }

  lemma {:induction false} BodyGuards(s: Stmt, k: nat, t: nat)
    requires Accepted(s)
    ensures GuardFor(FlattenBody(s, k, t), HasJump(s))
    decreases s, 1
  {
    hide GuardFor, SomeSets, SomeUses, FlattenBlock, FlattenLoop, Rewrite, StateEnd;
    if s.Compound? {
      BlockGuards(s.block, None, k, t);
    } else if IsLoop(s) {
      LoopGuards(s, k);
    } else {
      RewriteGuards(s, t);
      StateEndGuards(Rewrite(s, t), HasJump(s));
      GuardForOne(k, Rewrite(s, t) + StateEnd(HasJump(s)), HasJump(s));
    }
  }

  lemma CloseGuards(open: Option<seq<Code>>, k: nat)
    requires open.Some? ==> k > 0 && !SomeSets(open.value) && !SomeUses(open.value)
    ensures GuardFor(Close(open, k), false)
  {
    hide SomeSets, SomeUses;
    if open.Some? {
      StateEndGuards(open.value, false);
      GuardForOne(k - 1, open.value + [IncState], false);
    }
  }

  lemma {:induction false} BlockGuards(b: Block, open: Option<seq<Code>>, k: nat, t: nat)
    requires AcceptedBlock(b)
    requires open.Some? ==> k > 0 && !SomeSets(open.value) && !SomeUses(open.value)
    ensures GuardFor(FlattenBlock(b, open, k, t), BlockHasJump(b))
    decreases b, 0
  {
    hide GuardFor, SomeSets, SomeUses, FlattenBody, Rewrite, StateEnd;
    CloseGuards(open, k);
    if b.Cons? {
      var s, rest := b.head, b.tail;
      assert Accepted(s);
      if IsLoop(s) || s.Compound? {
        var k' := k + CountStates(s);
        BodyGuards(s, k, t);
        BlockGuards(rest, None, k', t);
        GuardForJoin(Close(open, k), false, FlattenBody(s, k, t), HasJump(s));
        GuardForJoin(Close(open, k) + FlattenBody(s, k, t), HasJump(s), FlattenBlock(rest, None, k', t),
                     BlockHasJump(rest));
      } else {
        var (code, k') := Extend(s, open, k, t);
        RewriteGuards(s, t);
        if open.Some? { GuardsJoin(open.value, Rewrite(s, t)); }
        if HasJump(s) {
          StateEndGuards(code, true);
          GuardForOne(k' - 1, code + StateEnd(true), true);
          BlockGuards(rest, None, k', t);
          GuardForJoin([StateBlock(k' - 1, code + StateEnd(true))], true, FlattenBlock(rest, None, k', t),
                       BlockHasJump(rest));
        } else {
          BlockGuards(rest, Some(code), k', t);
        }
      }
    }
  }

  // ----- children that share a state -----

  /** Assignments, jumps and `if` statements without loops. */
  predicate Plain(s: Stmt) {
    LoopFree(s) && !s.Compound?
  }

  /** The first block continues the open state. */
  lemma {:induction false} OpenContinues(b: Block, code: seq<Code>, k: nat, t: nat)
    requires AcceptedBlock(b) && k > 0
    ensures var bs := FlattenBlock(b, Some(code), k, t); |bs| > 0 && code <= bs[0].code
    decreases b
  {
    hide FlattenBody, Rewrite;
    if b.Cons? {
      assert Accepted(b.head);
      if Plain(b.head) && !HasJump(b.head) {
        OpenContinues(b.tail, code + Rewrite(b.head, t), k, t);
      }
    }
  }

  function Child(b: Block, i: nat): Option<Stmt> {
    if b.Nil? then None else if i == 0 then Some(b.head) else Child(b.tail, i - 1)
  }

  ghost predicate StandsIn(part: seq<Code>, code: seq<Code>) {
    exists a, c :: a + part + c == code
  }

  /** A plain child whose code sets no guard stands in one state with a plain child after it, wherever they are. */
  lemma {:induction false} NeighboursShare(b: Block, open: Option<seq<Code>>, k: nat, t: nat, i: nat) returns (j: nat)
    requires AcceptedBlock(b) && (open.Some? ==> k > 0) && Child(b, i).Some? && Child(b, i + 1).Some?
    requires Plain(Child(b, i).value) && Plain(Child(b, i + 1).value)
    requires !SomeSets(Rewrite(Child(b, i).value, t))
    ensures var bs := FlattenBlock(b, open, k, t);
            j < |bs| && StandsIn(Rewrite(Child(b, i).value, t) + Rewrite(Child(b, i + 1).value, t), bs[j].code)
    decreases b
  {
    hide FlattenBody, Rewrite, SomeSets, HasJump;
    var s, rest := b.head, b.tail;
    assert Accepted(s);
    if i == 0 {
      RewriteGuards(s, t);
      FirstTwoShare(b, open, k, t);
      j := 0;
    } else if Plain(s) && !HasJump(s) {
      var (code, k') := Extend(s, open, k, t);
      j := NeighboursShare(rest, Some(code), k', t, i - 1);
    } else {
      var k' := if Plain(s) then Extend(s, open, k, t).1 else k + CountStates(s);
      var j' := NeighboursShare(rest, None, k', t, i - 1);
      var bs, tail := FlattenBlock(b, open, k, t), FlattenBlock(rest, None, k', t);
      j := |bs| - |tail| + j';
      assert bs[j] == tail[j'];
    }
  }

  lemma FirstTwoShare(b: Block, open: Option<seq<Code>>, k: nat, t: nat)
    requires AcceptedBlock(b) && (open.Some? ==> k > 0) && b.Cons? && b.tail.Cons?
    requires Plain(b.head) && Plain(b.tail.head) && !HasJump(b.head)
    ensures var bs := FlattenBlock(b, open, k, t);
            |bs| > 0 && StandsIn(Rewrite(b.head, t) + Rewrite(b.tail.head, t), bs[0].code)
  {
    hide FlattenBody, Rewrite, HasJump;
    assert Accepted(b.head);
    var (code, k') := Extend(b.head, open, k, t);
    SecondJoins(b.tail, code, k', t);
    var before := if open.Some? then open.value else [];
    var both := Rewrite(b.head, t) + Rewrite(b.tail.head, t);
    assert before + both == code + Rewrite(b.tail.head, t);
    PrefixStands(before, both, FlattenBlock(b, open, k, t)[0].code);
  }

  /** A plain child is added to the open state. */
  lemma SecondJoins(b: Block, code: seq<Code>, k: nat, t: nat)
    requires AcceptedBlock(b) && k > 0 && b.Cons? && Plain(b.head) && LoopFree(b.head)
    ensures var bs := FlattenBlock(b, Some(code), k, t); |bs| > 0 && code + Rewrite(b.head, t) <= bs[0].code
  {
    hide Rewrite, HasJump;
    assert Accepted(b.head);
    if !HasJump(b.head) {
      OpenContinues(b.tail, code + Rewrite(b.head, t), k, t);
    }
  }

  lemma PrefixStands(a: seq<Code>, part: seq<Code>, code: seq<Code>)
    requires a + part <= code
    ensures StandsIn(part, code)
  {
    var c := code[|a + part|..];
    assert a + part + c == code;
  }

  // ----- what the flattener accepts -----

  /** A statement and everything in it. */
  function Parts(s: Stmt): set<Stmt> {
    match s
    case If(_, a, b) => {s} + BlockParts(a) + BlockParts(b)
    case Compound(b) => {s} + BlockParts(b)
    case For(_, _, _, b) => {s} + Parts(b)
    case While(_, b) => {s} + Parts(b)
    case DoWhile(b, _) => {s} + Parts(b)
    case _ => {s}
  }

  function BlockParts(b: Block): set<Stmt> {
    if b.Nil? then {} else Parts(b.head) + BlockParts(b.tail)
  }

  lemma {:induction false} LoopFreeMeans(s: Stmt)
    ensures LoopFree(s) <==> forall x :: x in Parts(s) ==> !IsLoop(x)
    decreases s
  {
    match s
    case If(_, a, b) =>
      LoopFreeBlockMeans(a);
      LoopFreeBlockMeans(b);
    case Compound(b) =>
      LoopFreeBlockMeans(b);
    case _ =>
      assert s in Parts(s);
  }

  lemma {:induction false} LoopFreeBlockMeans(b: Block)
    ensures LoopFreeBlock(b) <==> forall x :: x in BlockParts(b) ==> !IsLoop(x)
    decreases b
  {
    if b.Cons? {
      LoopFreeMeans(b.head);
      LoopFreeBlockMeans(b.tail);
    }
  }

  /** No `if` among the parts holds a loop. */
  ghost predicate NoLoopInIf(parts: set<Stmt>) {
    forall i, x :: i in parts && i.If? && x in Parts(i) ==> !IsLoop(x)
  }

  /** The flattener accepts a nest if and only if no `if` in it holds a loop. */
  lemma {:induction false} AcceptedMeans(s: Stmt)
    ensures Accepted(s) <==> NoLoopInIf(Parts(s))
    decreases s
  {
    match s
    case If(_, a, b) =>
      LoopFreeMeans(s);
      assert s in Parts(s);
      if LoopFree(s) { PartsOfParts(s); }
    case Compound(b) =>
      AcceptedBlockMeans(b);
    case For(_, _, _, b) =>
      AcceptedMeans(b);
    case While(_, b) =>
      AcceptedMeans(b);
    case DoWhile(b, _) =>
      AcceptedMeans(b);
    case _ =>
  }

  lemma {:induction false} AcceptedBlockMeans(b: Block)
    ensures AcceptedBlock(b) <==> NoLoopInIf(BlockParts(b))
    decreases b
  {
    if b.Cons? {
      AcceptedMeans(b.head);
      AcceptedBlockMeans(b.tail);
    }
  }

  lemma {:induction false} PartsOfParts(s: Stmt)
    ensures forall i, x :: i in Parts(s) && x in Parts(i) ==> x in Parts(s)
    decreases s
  {
    match s
    case If(_, a, b) =>
      PartsOfBlock(a);
      PartsOfBlock(b);
    case Compound(b) =>
      PartsOfBlock(b);
    case For(_, _, _, b) =>
      PartsOfParts(b);
    case While(_, b) =>
      PartsOfParts(b);
    case DoWhile(b, _) =>
      PartsOfParts(b);
    case _ =>
  }

  lemma {:induction false} PartsOfBlock(b: Block)
    ensures forall i, x :: i in BlockParts(b) && x in Parts(i) ==> x in BlockParts(b)
    decreases b
  {
    if b.Cons? {
      PartsOfParts(b.head);
      PartsOfBlock(b.tail);
    }
  }
}
