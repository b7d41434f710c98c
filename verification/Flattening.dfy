/**
 Loop flattening: the translation of a loop nest into state blocks, and the shape of what it emits.  That it keeps the
 meaning of the nest and fixes the number of passes is proved in module FlatteningProof.
 */
module Flattening {
  import opened LoopNest
  import opened StateMachine

  // ----- break and continue as state jumps -----

  predicate HasJump(s: Stmt) {
    match s
    case Act(_) => false
    case If(_, a, b) => BlockHasJump(a) || BlockHasJump(b)
    case Compound(b) => BlockHasJump(b)
    case For(_, _, _, b) => HasJump(b)
    case While(_, b) => HasJump(b)
    case DoWhile(b, _) => HasJump(b)
    case Break => true
    case Continue => true
  }

  predicate BlockHasJump(b: Block) {
    b.Cons? && (HasJump(b.head) || BlockHasJump(b.tail))
  }

  /** A loop-free statement with its jumps rewritten against the enclosing loop's continue state `t`. */
  function Rewrite(s: Stmt, t: nat): seq<Code>
    requires LoopFree(s)
  {
    match s
    case Act(a) => [Do(a)]
    case If(c, a, b) => [Choose(c, RewriteBlock(a, t), RewriteBlock(b, t))]
    case Compound(b) => RewriteBlock(b, t)
    case Break => [SetState(t), SetGuard(true)]
    case Continue => [SetState(t - 1), SetGuard(true)]
  }

  /** What follows a child that may jump is put under the break guard. */
  function RewriteBlock(b: Block, t: nat): seq<Code>
    requires LoopFreeBlock(b)
  {
    match b
    case Nil => []
    case Cons(s, rest) =>
      Rewrite(s, t) + if HasJump(s) && rest.Cons? then [UnlessGuard(RewriteBlock(rest, t))] else RewriteBlock(rest, t)
  }

  // ----- state counting -----

  function CountStates(s: Stmt): nat {
    match s
    case For(_, _, _, b) => 2 + CountStates(b)
    case While(_, b) => 2 + CountStates(b)
    case DoWhile(b, _) => 2 + CountStates(b)
    case Compound(b) => CountBlock(b, false)
    case _ => 1
  }

  function CountBlock(b: Block, inState: bool): nat {
    match b
    case Nil => 0
    case Cons(s, rest) =>
      if IsLoop(s) || s.Compound? then CountStates(s) + CountBlock(rest, false)
      else (if inState then 0 else 1) + CountBlock(rest, !HasJump(s))
  }

  // ----- flattening -----

  /** The end of a state; the guard is cleared only where it may have been set. */
  function StateEnd(jumps: bool): seq<Code> {
    if jumps then [SetGuard(false), IncState] else [IncState]
  }

  /** The state before the body of a loop that starts at state `k` and has `n` states. */
  function LoopHead(s: Stmt, k: nat, n: nat): seq<Code>
    requires IsLoop(s)
  {
    match s
    case For(i, c, _, _) => [Do(i), Choose(c, [IncState], [SetState(k + n)])]
    case While(c, _) => [Choose(c, [IncState], [SetState(k + n)])]
    case DoWhile(_, _) => [IncState]
  }

  /** The continue state of a loop that starts at state `k`. */
  function LoopTail(s: Stmt, k: nat): seq<Code>
    requires IsLoop(s)
  {
    match s
    case For(_, c, n, _) => [Do(n), Choose(c, [SetState(k + 1)], [IncState])]
    case While(c, _) => [Choose(c, [SetState(k + 1)], [IncState])]
    case DoWhile(_, c) => [Choose(c, [SetState(k + 1)], [IncState])]
  }

  function FlattenLoop(s: Stmt, k: nat): seq<StateBlock>
    requires IsLoop(s) && Accepted(s)
    decreases s, 0
  {
    var n := CountStates(s);
    [StateBlock(k, LoopHead(s, k, n))] + FlattenBody(s.body, k + 1, k + n - 1) + [StateBlock(k + n - 1, LoopTail(s, k))]
  }

  function FlattenBody(s: Stmt, k: nat, t: nat): seq<StateBlock>
    requires Accepted(s)
    decreases s, 1
  {
    if s.Compound? then FlattenBlock(s.block, None, k, t)
    else if IsLoop(s) then FlattenLoop(s, k)
    else [StateBlock(k, Rewrite(s, t) + StateEnd(HasJump(s)))]
  }

  /** The state that is still open when the next state number is `k`, if any. */
  function Close(open: Option<seq<Code>>, k: nat): seq<StateBlock>
    requires open.Some? ==> k > 0
  {
    if open.Some? then [StateBlock(k - 1, open.value + [IncState])] else []
  }

  /** The children of a compound statement; `k` is the next state number. */
  function FlattenBlock(b: Block, open: Option<seq<Code>>, k: nat, t: nat): seq<StateBlock>
    requires AcceptedBlock(b) && (open.Some? ==> k > 0)
    decreases b, 0
  {
    match b
    case Nil => Close(open, k)
    case Cons(s, rest) =>
      assert Accepted(s);
      if IsLoop(s) || s.Compound? then
        Close(open, k) + FlattenBody(s, k, t) + FlattenBlock(rest, None, k + CountStates(s), t)
      else
        var (code, k') := Extend(s, open, k, t);
        if HasJump(s) then
          [StateBlock(k' - 1, code + StateEnd(true))] + FlattenBlock(rest, None, k', t)
        else
          FlattenBlock(rest, Some(code), k', t)
  }

  /** The open state with a loop-free child added, opening one if there is none. */
  function Extend(s: Stmt, open: Option<seq<Code>>, k: nat, t: nat): (r: (seq<Code>, nat))
    requires LoopFree(s) && (open.Some? ==> k > 0)
    ensures r.1 > 0
  {
    if open.Some? then (open.value + Rewrite(s, t), k) else (Rewrite(s, t), k + 1)
  }

  // ----- shape of the output -----

  ghost predicate NumberedFrom(bs: seq<StateBlock>, k: int) {
    forall i :: 0 <= i < |bs| ==> bs[i].k == k + i
  }

  lemma NumberedAppend(a: seq<StateBlock>, b: seq<StateBlock>, k: int)
    requires NumberedFrom(a, k) && NumberedFrom(b, k + |a|)
    ensures NumberedFrom(a + b, k)
  {
    forall i | 0 <= i < |a + b| ensures (a + b)[i].k == k + i {
      if i >= |a| { assert (a + b)[i] == b[i - |a|]; }
    }
  }

  function OpenCount(open: Option<seq<Code>>): nat {
    if open.Some? then 1 else 0
  }

  lemma {:induction false} FlattenLoopShape(s: Stmt, k: nat)
    requires IsLoop(s) && Accepted(s)
    ensures |FlattenLoop(s, k)| == CountStates(s) && NumberedFrom(FlattenLoop(s, k), k)
    decreases s, 0
  {
    FlattenBodyShape(s.body, k + 1, k + CountStates(s) - 1);
  }

  lemma {:induction false} FlattenBodyShape(s: Stmt, k: nat, t: nat)
    requires Accepted(s)
    ensures |FlattenBody(s, k, t)| == CountStates(s) && NumberedFrom(FlattenBody(s, k, t), k)
    decreases s, 1
  {
    if s.Compound? {
      FlattenBlockShape(s.block, None, k, t);
    } else if IsLoop(s) {
      FlattenLoopShape(s, k);
    }
  }

  lemma {:induction false} FlattenBlockShape(b: Block, open: Option<seq<Code>>, k: nat, t: nat)
    requires AcceptedBlock(b) && (open.Some? ==> k > 0)
    ensures |FlattenBlock(b, open, k, t)| == CountBlock(b, open.Some?) + OpenCount(open)
    ensures NumberedFrom(FlattenBlock(b, open, k, t), k - OpenCount(open))
    decreases b, 1
  {
    match b
    case Nil =>
    case Cons(s, rest) =>
      assert Accepted(s);
      if IsLoop(s) || s.Compound? {
        NestedShape(b, open, k, t);
      } else {
        var (code, k') := Extend(s, open, k, t);
        FlattenBlockShape(rest, if HasJump(s) then None else Some(code), k', t);
        if HasJump(s) {
          NumberedAppend([StateBlock(k' - 1, code + StateEnd(true))], FlattenBlock(rest, None, k', t), k' - 1);
        }
      }
  }

  lemma {:induction false} NestedShape(b: Block, open: Option<seq<Code>>, k: nat, t: nat)
    requires AcceptedBlock(b) && (open.Some? ==> k > 0) && b.Cons? && (IsLoop(b.head) || b.head.Compound?)
    ensures |FlattenBlock(b, open, k, t)| == CountBlock(b, open.Some?) + OpenCount(open)
    ensures NumberedFrom(FlattenBlock(b, open, k, t), k - OpenCount(open))
    decreases b, 0
  {
    var s, k' := b.head, k + CountStates(b.head);
    FlattenBodyShape(s, k, t);
    FlattenBlockShape(b.tail, None, k', t);
    NumberedAppend(Close(open, k), FlattenBody(s, k, t), k - OpenCount(open));
    NumberedAppend(Close(open, k) + FlattenBody(s, k, t), FlattenBlock(b.tail, None, k', t), k - OpenCount(open));
  }
}
