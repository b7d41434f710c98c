/**
 Flattening keeps meaning: the emitted state machine ends, past its last block, exactly when the
 loop nest terminates, with the same store, after one more pass than the nest takes backward jumps.
 */
module FlatteningProof {
  import opened LoopNest
  import opened StateMachine
  import opened Flattening

  // ----- loop-free code -----

  /** The machine after rewritten loop-free code, before its state ends. */
  function Rewritten(out: Outcome, m: Machine, t: nat, st: Store): Machine {
    match out
    case Normal => m.(store := st)
    case Broke => Machine(t, true, st)
    case Continued => Machine(t - 1, true, st)
  }

  lemma {:induction false} RewriteRuns(s: Stmt, t: nat, m: Machine, fuel: nat)
    requires LoopFree(s) && !m.guard
    ensures var r := Exec(s, m.store, fuel);
            && r.Done? && r.backs == 0 && (r.out != Normal ==> HasJump(s))
            && RunCodes(Rewrite(s, t), m) == Rewritten(r.out, m, t, r.store)
    decreases s, 0
  {
    match s
    case If(c, a, b) =>
      var branch := if Holds(c, m.store) then a else b;
      RewriteBlockRuns(branch, t, m, fuel);
      assert RunCodes(Rewrite(s, t), m) == RunCodes(RewriteBlock(branch, t), m);
    case Compound(b) =>
      RewriteBlockRuns(b, t, m, fuel);
    case Act(_) =>
    case Break =>
      RunTwo(SetState(t), SetGuard(true), m);
    case Continue =>
      RunTwo(SetState(t - 1), SetGuard(true), m);
  }

  lemma {:induction false} RewriteBlockRuns(b: Block, t: nat, m: Machine, fuel: nat)
    requires LoopFreeBlock(b) && !m.guard
    ensures var r := ExecBlock(b, m.store, fuel);
            && r.Done? && r.backs == 0 && (r.out != Normal ==> BlockHasJump(b))
            && RunCodes(RewriteBlock(b, t), m) == Rewritten(r.out, m, t, r.store)
    decreases b, 1
  {
    match b
    case Nil =>
    case Cons(s, rest) =>
      RewriteRuns(s, t, m, fuel);
      var r := Exec(s, m.store, fuel);
      var m1 := Rewritten(r.out, m, t, r.store);
      var after := if HasJump(s) && rest.Cons? then [UnlessGuard(RewriteBlock(rest, t))] else RewriteBlock(rest, t);
      RunAppend(Rewrite(s, t), after, m);
      if r.out == Normal {
        RewriteBlockRuns(rest, t, m1, fuel);
      }
  }

  /** Where the machine stands once the state that holds a statement is over. */
  function Landing(out: Outcome, next: nat, t: nat): nat {
    match out
    case Normal => next
    case Broke => t + 1
    case Continued => t
  }

  function CodeOf(open: Option<seq<Code>>): seq<Code> {
    if open.Some? then open.value else []
  }

  /** The open state, begun at `m`, has brought the store to `st`. */
  ghost predicate Pending(open: Option<seq<Code>>, m: Machine, st: Store) {
    RunCodes(CodeOf(open), m) == m.(store := st)
  }

  lemma NothingPending(m: Machine)
    ensures Pending(None, m, m.store)
  {
  }

  /** One whole state: what is pending, then a loop-free statement. */
  lemma StateRuns(open: Option<seq<Code>>, s: Stmt, t: nat, m: Machine, st: Store, fuel: nat)
    requires LoopFree(s) && !m.guard && m.state >= 0 && Pending(open, m, st)
    ensures var r, pre := Exec(s, st, fuel), CodeOf(open);
            && r.Done? && r.backs == 0 && (r.out != Normal ==> HasJump(s))
            && RunCodes(pre + Rewrite(s, t), m) == Rewritten(r.out, m, t, r.store)
            && RunCodes(pre + Rewrite(s, t) + StateEnd(HasJump(s)), m) ==
                Machine(Landing(r.out, m.state + 1, t), false, r.store)
  {
    var pre := CodeOf(open);
    RunAppend(pre, Rewrite(s, t), m);
    RewriteRuns(s, t, m.(store := st), fuel);
    RunAppend(pre + Rewrite(s, t), StateEnd(HasJump(s)), m);
    RunTwo(SetGuard(false), IncState, RunCodes(pre + Rewrite(s, t), m));
  }

  // ----- parts of a program -----

  ghost predicate At(prog: seq<StateBlock>, k: nat, part: seq<StateBlock>) {
    k + |part| <= |prog| && forall i :: 0 <= i < |part| ==> prog[k + i] == part[i]
  }

  lemma AtSplit(prog: seq<StateBlock>, k: nat, a: seq<StateBlock>, b: seq<StateBlock>)
    requires At(prog, k, a + b)
    ensures At(prog, k, a) && At(prog, k + |a|, b)
  {
    forall i | 0 <= i < |a| ensures prog[k + i] == a[i] { assert (a + b)[i] == a[i]; }
    forall i | 0 <= i < |b| ensures prog[k + |a| + i] == b[i] { assert (a + b)[|a| + i] == b[i]; }
  }

  lemma AtHead(prog: seq<StateBlock>, k: nat, block: StateBlock, rest: seq<StateBlock>)
    requires At(prog, k, [block] + rest)
    ensures k < |prog| && prog[k] == block && At(prog, k + 1, rest)
  {
    AtSplit(prog, k, [block], rest);
    assert prog[k + 0] == [block][0];
  }

  // ----- simulation -----

  ghost predicate Wanders(prog: seq<StateBlock>, m: Machine, backs: nat) {
    exists m', b :: b >= backs && Running(prog, m') && Reaches(prog, m, m', b)
  }

  /** From `m` the machine does what the execution `r` did. */
  ghost predicate Follows(prog: seq<StateBlock>, m: Machine, r: Result, next: nat, t: nat, fuel: nat) {
    match r
    case Done(out, st, b) => Reaches(prog, m, Machine(Landing(out, next, t), false, st), b)
    case OutOfFuel => Wanders(prog, m, fuel)
  }

  lemma FollowsAfter(prog: seq<StateBlock>, m: Machine, m1: Machine, b: nat, r: Result, next: nat, t: nat, fuel: nat)
    requires Reaches(prog, m, m1, b) && Follows(prog, m1, r, next, t, fuel)
    ensures r.Done? ==> Follows(prog, m, r.(backs := b + r.backs), next, t, fuel)
    ensures r.OutOfFuel? ==> Wanders(prog, m, b + fuel)
  {
    match r
    case Done(out, st, b') =>
      ReachesThen(prog, m, m1, b, Machine(Landing(out, next, t), false, st), b');
    case OutOfFuel =>
      var m', b' :| b' >= fuel && Running(prog, m') && Reaches(prog, m1, m', b');
      ReachesThen(prog, m, m1, b, m', b');
      assert b + b' >= b + fuel;
  }

  /** A block run from state `k`, with nothing left to do before the execution `r`. */
  lemma StepFollows(prog: seq<StateBlock>, m: Machine, m1: Machine, r: Result, next: nat, t: nat, fuel: nat)
    requires Running(prog, m) && Step(prog, m) == m1 && m1.state > m.state
    requires Follows(prog, m1, r, next, t, fuel)
    ensures Follows(prog, m, r, next, t, fuel)
  {
    ReachesStep(prog, m);
    FollowsAfter(prog, m, m1, 0, r, next, t, fuel);
  }

  // ----- loops -----

  function Increment(s: Stmt): seq<Action>
    requires IsLoop(s)
  {
    if s.For? then [s.inc] else []
  }

  function Initialised(s: Stmt, st: Store): Store {
    if s.For? then Apply(s.init, st) else st
  }

  predicate Enters(s: Stmt, st: Store)
    requires IsLoop(s)
  {
    s.DoWhile? || Holds(s.cond, Initialised(s, st))
  }

  lemma ExecLoop(s: Stmt, st: Store, fuel: nat)
    requires IsLoop(s)
    ensures Exec(s, st, fuel) == if Enters(s, st) then RunBody(s.cond, Increment(s), s.body, Initialised(s, st), fuel)
                                 else Done(Normal, Initialised(s, st), 0)
  {
  }

  lemma HeadRuns(s: Stmt, k: nat, n: nat, st: Store)
    requires IsLoop(s)
    ensures RunCodes(LoopHead(s, k, n), Machine(k, false, st)) ==
        Machine(if Enters(s, st) then k + 1 else k + n, false, Initialised(s, st))
  {
    var m1 := Machine(k, false, Initialised(s, st));
    RunOne(IncState, m1);
    RunOne(SetState(k + n), m1);
    if s.For? {
      RunTwo(Do(s.init), Choose(s.cond, [IncState], [SetState(k + n)]), Machine(k, false, st));
    } else if s.While? {
      RunOne(Choose(s.cond, [IncState], [SetState(k + n)]), m1);
    }
  }

  lemma TailRuns(s: Stmt, k: nat, t: nat, st: Store)
    requires IsLoop(s)
    ensures var st' := ApplyAll(Increment(s), st);
            RunCodes(LoopTail(s, k), Machine(t, false, st)) ==
                Machine(if Holds(s.cond, st') then k + 1 else t + 1, false, st')
  {
    var m1 := Machine(t, false, ApplyAll(Increment(s), st));
    RunOne(IncState, m1);
    RunOne(SetState(k + 1), m1);
    if s.For? {
      assert ApplyAll([s.inc], st) == ApplyAll([], Apply(s.inc, st));
      RunTwo(Do(s.inc), Choose(s.cond, [SetState(k + 1)], [IncState]), Machine(t, false, st));
    } else {
      RunOne(Choose(s.cond, [SetState(k + 1)], [IncState]), m1);
    }
  }

  /** Where the head, the body and the continue state of a loop stand in the program. */
  lemma LoopParts(prog: seq<StateBlock>, s: Stmt, k: nat)
    requires IsLoop(s) && Accepted(s) && At(prog, k, FlattenLoop(s, k))
    ensures var n := CountStates(s);
            && k + n <= |prog|
            && prog[k].code == LoopHead(s, k, n) && prog[k + n - 1].code == LoopTail(s, k)
            && At(prog, k + 1, FlattenBody(s.body, k + 1, k + n - 1)) && CountStates(s.body) == n - 2 &&
                Accepted(s.body)
  {
    hide FlattenBody, LoopHead, LoopTail;
    var n := CountStates(s);
    var body, tail := FlattenBody(s.body, k + 1, k + n - 1), [StateBlock(k + n - 1, LoopTail(s, k))];
    assert FlattenLoop(s, k) == [StateBlock(k, LoopHead(s, k, n))] + (body + tail);
    AtHead(prog, k, StateBlock(k, LoopHead(s, k, n)), body + tail);
    AtSplit(prog, k + 1, body, tail);
    FlattenBodyShape(s.body, k + 1, k + n - 1);
    assert tail == tail + [];
    AtHead(prog, k + n - 1, tail[0], []);
  }

  lemma {:induction false} SimLoop(prog: seq<StateBlock>, s: Stmt, k: nat, t: nat, st: Store, fuel: nat)
    requires IsLoop(s) && Accepted(s) && At(prog, k, FlattenLoop(s, k))
    ensures Follows(prog, Machine(k, false, st), Exec(s, st, fuel), k + CountStates(s), t, fuel)
    ensures Exec(s, st, fuel).Done? ==> Exec(s, st, fuel).out == Normal
    decreases fuel, s, 2
  {
    hide At, FlattenLoop, FlattenBody, Accepted, LoopHead;
    var m, n := Machine(k, false, st), CountStates(s);
    LoopParts(prog, s, k);
    HeadRuns(s, k, n, st);
    ExecLoop(s, st, fuel);
    var m1 := Step(prog, m);
    if Enters(s, st) {
      SimBodyOf(prog, s, k, t, Initialised(s, st), fuel);
    } else {
      ReachesHere(prog, m1);
    }
    StepFollows(prog, m, m1, Exec(s, st, fuel), k + n, t, fuel);
  }

  /** The loop `s` from the first state of its body. */
  lemma {:induction false} SimBodyOf(prog: seq<StateBlock>, s: Stmt, k: nat, t: nat, st: Store, fuel: nat)
    requires IsLoop(s) && Accepted(s) && At(prog, k, FlattenLoop(s, k))
    ensures Follows(prog, Machine(k + 1, false, st), RunBody(s.cond, Increment(s), s.body, st, fuel),
        k + CountStates(s), t, fuel)
    ensures var r := RunBody(s.cond, Increment(s), s.body, st, fuel); r.Done? ==> r.out == Normal
    decreases fuel, s, 1
  {
    hide At, FlattenLoop, FlattenBody, Accepted, LoopHead, LoopTail;
    var m, n := Machine(k + 1, false, st), CountStates(s);
    LoopParts(prog, s, k);
    SimBody(prog, s.body, k + 1, k + n - 1, st, fuel);
    var r := Exec(s.body, st, fuel);
    if r.Done? && r.out != Broke {
      var m1 := Machine(k + n - 1, false, r.store);
      assert Running(prog, m1) && Reaches(prog, m, m1, r.backs);
      var m2 := Step(prog, m1);
      TailRuns(s, k, k + n - 1, r.store);
      ReachesStep(prog, m1);
      ReachesThen(prog, m, m1, r.backs, m2, if m2.state <= m1.state then 1 else 0);
      if fuel > 0 && m2.state == k + 1 {
        SimBodyOf(prog, s, k, t, m2.store, fuel - 1);
        FollowsAfter(prog, m, m2, r.backs + 1, RunBody(s.cond, Increment(s), s.body, m2.store, fuel - 1), k + n, t,
            fuel - 1);
      }
    }
  }

  lemma {:induction false} SimBody(prog: seq<StateBlock>, s: Stmt, k: nat, t: nat, st: Store, fuel: nat)
    requires Accepted(s) && At(prog, k, FlattenBody(s, k, t)) && k + CountStates(s) <= t
    ensures Follows(prog, Machine(k, false, st), Exec(s, st, fuel), k + CountStates(s), t, fuel)
    decreases fuel, s, 3
  {
    var m := Machine(k, false, st);
    if s.Compound? {
      SimBlock(prog, s.block, None, k, t, m, st, fuel);
    } else if IsLoop(s) {
      SimLoop(prog, s, k, t, st, fuel);
    } else {
      AtHead(prog, k, FlattenBody(s, k, t)[0], []);
      StateRuns(None, s, t, m, st, fuel);
      assert [] + Rewrite(s, t) == Rewrite(s, t);
      ReachesStep(prog, m);
    }
  }

  lemma {:induction false} SimBlock(prog: seq<StateBlock>, b: Block, open: Option<seq<Code>>, k: nat, t: nat,
      m: Machine, st: Store, fuel: nat)
    requires AcceptedBlock(b) && 0 <= m.state == k - OpenCount(open) && !m.guard && Pending(open, m, st)
    requires At(prog, m.state, FlattenBlock(b, open, k, t)) && k + CountBlock(b, open.Some?) <= t
    ensures Follows(prog, m, ExecBlock(b, st, fuel), k + CountBlock(b, open.Some?), t, fuel)
    decreases fuel, b, 1
  {
    match b
    case Nil =>
      if open.Some? { SimClose(prog, open, k, [], m, st); } else { ReachesHere(prog, m); }
    case Cons(s, rest) =>
      assert Accepted(s);
      if IsLoop(s) || s.Compound? {
        SimNested(prog, b, open, k, t, m, st, fuel);
      } else if HasJump(s) {
        SimJump(prog, b, open, k, t, m, st, fuel);
      } else {
        SimPlain(prog, b, open, k, t, m, st, fuel);
      }
  }

  /** Ending the open state brings the machine to the next state number. */
  lemma SimClose(prog: seq<StateBlock>, open: Option<seq<Code>>, k: nat, rest: seq<StateBlock>, m: Machine, st: Store)
    requires 0 <= m.state == k - OpenCount(open) && !m.guard && Pending(open, m, st)
    requires At(prog, m.state, Close(open, k) + rest)
    ensures Reaches(prog, m, Machine(k, false, st), 0) && At(prog, k, rest)
  {
    if open.Some? {
      AtHead(prog, m.state, Close(open, k)[0], rest);
      RunAppend(open.value, [IncState], m);
      ReachesStep(prog, m);
    } else {
      assert Close(open, k) + rest == rest;
      ReachesHere(prog, m);
    }
  }

  lemma NestedParts(prog: seq<StateBlock>, b: Block, open: Option<seq<Code>>, k: nat, t: nat, m: Machine, st: Store)
    requires AcceptedBlock(b) && 0 <= m.state == k - OpenCount(open) && !m.guard && Pending(open, m, st)
    requires b.Cons? && (IsLoop(b.head) || b.head.Compound?)
    requires At(prog, m.state, FlattenBlock(b, open, k, t))
    ensures var k' := k + CountStates(b.head);
            && Reaches(prog, m, Machine(k, false, st), 0)
            && At(prog, k, FlattenBody(b.head, k, t)) && At(prog, k', FlattenBlock(b.tail, None, k', t))
  {
    var k' := k + CountStates(b.head);
    var part, parts := FlattenBody(b.head, k, t), FlattenBlock(b.tail, None, k', t);
    FlattenBodyShape(b.head, k, t);
    assert FlattenBlock(b, open, k, t) == Close(open, k) + (part + parts);
    SimClose(prog, open, k, part + parts, m, st);
    AtSplit(prog, k, part, parts);
  }

  /** A nested loop or compound statement, then the rest of the block. */
  lemma {:induction false} SimNested(prog: seq<StateBlock>, b: Block, open: Option<seq<Code>>, k: nat, t: nat,
      m: Machine, st: Store, fuel: nat)
    requires AcceptedBlock(b) && 0 <= m.state == k - OpenCount(open) && !m.guard && Pending(open, m, st)
    requires b.Cons? && (IsLoop(b.head) || b.head.Compound?)
    requires At(prog, m.state, FlattenBlock(b, open, k, t)) && k + CountBlock(b, open.Some?) <= t
    ensures Follows(prog, m, ExecBlock(b, st, fuel), k + CountBlock(b, open.Some?), t, fuel)
    decreases fuel, b, 0
  {
    hide At, FlattenBlock, FlattenBody;
    var s, rest := b.head, b.tail;
    var k' := k + CountStates(s);
    NestedParts(prog, b, open, k, t, m, st);
    var m1, r := Machine(k, false, st), Exec(s, st, fuel);
    SimBody(prog, s, k, t, st, fuel);
    FollowsAfter(prog, m, m1, 0, r, k', t, fuel);
    if r.Done? && r.out == Normal {
      var m2 := Machine(k', false, r.store);
      SimBlock(prog, rest, None, k', t, m2, r.store, fuel);
      FollowsAfter(prog, m, m2, r.backs, ExecBlock(rest, r.store, fuel), k' + CountBlock(rest, false), t, fuel);
    }
  }

  lemma SimpleParts(prog: seq<StateBlock>, b: Block, open: Option<seq<Code>>, k: nat, t: nat, m: Machine)
    requires AcceptedBlock(b) && 0 <= m.state == k - OpenCount(open)
    requires b.Cons? && LoopFree(b.head) && !b.head.Compound?
    requires At(prog, m.state, FlattenBlock(b, open, k, t))
    ensures var (code, k') := Extend(b.head, open, k, t);
            && code == CodeOf(open) + Rewrite(b.head, t)
            && AcceptedBlock(b.tail) && k' == m.state + 1 &&
                k + CountBlock(b, open.Some?) == k' + CountBlock(b.tail, !HasJump(b.head))
            && (if HasJump(b.head) then m.state < |prog| && prog[m.state].code == code + StateEnd(true) &&
                At(prog, k', FlattenBlock(b.tail, None, k', t))
                else At(prog, m.state, FlattenBlock(b.tail, Some(code), k', t)))
  {
    var (code, k') := Extend(b.head, open, k, t);
    assert code == CodeOf(open) + Rewrite(b.head, t);
    if HasJump(b.head) {
      AtHead(prog, m.state, StateBlock(k' - 1, code + StateEnd(true)), FlattenBlock(b.tail, None, k', t));
    }
  }

  /** A loop-free child that may jump ends its state; then the rest of the block. */
  lemma {:induction false} SimJump(prog: seq<StateBlock>, b: Block, open: Option<seq<Code>>, k: nat, t: nat, m: Machine,
      st: Store, fuel: nat)
    requires AcceptedBlock(b) && 0 <= m.state == k - OpenCount(open) && !m.guard && Pending(open, m, st)
    requires b.Cons? && LoopFree(b.head) && !b.head.Compound? && HasJump(b.head)
    requires At(prog, m.state, FlattenBlock(b, open, k, t)) && k + CountBlock(b, open.Some?) <= t
    ensures Follows(prog, m, ExecBlock(b, st, fuel), k + CountBlock(b, open.Some?), t, fuel)
    decreases fuel, b, 0
  {
    hide At, FlattenBlock, Rewrite, Extend, StateEnd, RunCodes, HasJump, CountBlock, AcceptedBlock, Exec;
    SimpleParts(prog, b, open, k, t, m);
    StateRuns(open, b.head, t, m, st, fuel);
    var r, k' := Exec(b.head, st, fuel), m.state + 1;
    var m1 := Machine(Landing(r.out, k', t), false, r.store);
    ReachesStep(prog, m);
    if r.out == Normal {
      NothingPending(m1);
      SimBlock(prog, b.tail, None, k', t, m1, r.store, fuel);
      FollowsAfter(prog, m, m1, 0, ExecBlock(b.tail, r.store, fuel), k' + CountBlock(b.tail, false), t, fuel);
    }
  }

  /** A loop-free child that cannot jump joins the open state. */
  lemma {:induction false} SimPlain(prog: seq<StateBlock>, b: Block, open: Option<seq<Code>>, k: nat, t: nat,
      m: Machine, st: Store, fuel: nat)
    requires AcceptedBlock(b) && 0 <= m.state == k - OpenCount(open) && !m.guard && Pending(open, m, st)
    requires b.Cons? && LoopFree(b.head) && !b.head.Compound? && !HasJump(b.head)
    requires At(prog, m.state, FlattenBlock(b, open, k, t)) && k + CountBlock(b, open.Some?) <= t
    ensures Follows(prog, m, ExecBlock(b, st, fuel), k + CountBlock(b, open.Some?), t, fuel)
    decreases fuel, b, 0
  {
    hide At, FlattenBlock, Rewrite, Extend, StateEnd, RunCodes, HasJump, CountBlock, AcceptedBlock, Exec;
    SimpleParts(prog, b, open, k, t, m);
    StateRuns(open, b.head, t, m, st, fuel);
    var (code, k') := Extend(b.head, open, k, t);
    SimBlock(prog, b.tail, Some(code), k', t, m, Exec(b.head, st, fuel).store, fuel);
  }

  // ----- the theorems -----

  /** The emitted program, from `state == 0` and a clear guard. */
  function Flattened(s: Stmt): seq<StateBlock>
    requires IsLoop(s) && Accepted(s)
  {
    FlattenLoop(s, 0)
  }

  function Start(st: Store): Machine {
    Machine(0, false, st)
  }

  /** Flattening numbers its blocks 0, 1, ... and emits as many as were counted. */
  lemma StatesAsCounted(s: Stmt)
    requires IsLoop(s) && Accepted(s)
    ensures |Flattened(s)| == CountStates(s) && Numbered(Flattened(s))
  {
    FlattenLoopShape(s, 0);
  }

  lemma FollowsFromStart(s: Stmt, st: Store, fuel: nat)
    requires IsLoop(s) && Accepted(s)
    ensures Follows(Flattened(s), Start(st), Exec(s, st, fuel), CountStates(s), 0, fuel)
    ensures Exec(s, st, fuel).Done? ==> Exec(s, st, fuel).out == Normal
  {
    assert At(Flattened(s), 0, FlattenLoop(s, 0));
    SimLoop(Flattened(s), s, 0, 0, st, fuel);
  }

  /**
   A loop nest that terminates with `backs` backward jumps: its flattened form has finished, with the
   nest's final store, after `passes` passes if and only if `passes > backs`.
   */
  lemma FlatteningPreservesMeaning(s: Stmt, st: Store, fuel: nat, passes: nat)
    requires IsLoop(s) && Accepted(s) && Exec(s, st, fuel).Done?
    ensures var r := Exec(s, st, fuel); var m := RunPasses(Flattened(s), Start(st), passes);
            if passes > r.backs then m == Machine(CountStates(s), false, r.store)
            else 0 <= m.state < CountStates(s)
  {
    var r, prog := Exec(s, st, fuel), Flattened(s);
    StatesAsCounted(s);
    FollowsFromStart(s, st, fuel);
    var n: nat :| Run(prog, Start(st), n) == (Machine(CountStates(s), false, r.store), r.backs);
    JumpsAsPasses(prog, 0, Start(st), n, Machine(CountStates(s), false, r.store), r.backs, passes);
  }

  /** Nothing is finished that does not terminate: a finished run of `passes` passes bounds the nest's execution. */
  lemma FinishedOnlyIfTerminates(s: Stmt, st: Store, passes: nat)
    requires IsLoop(s) && Accepted(s)
    requires RunPasses(Flattened(s), Start(st), passes).state == CountStates(s)
    ensures Exec(s, st, passes).Done?
  {
    var prog := Flattened(s);
    StatesAsCounted(s);
    FollowsFromStart(s, st, passes);
    if Exec(s, st, passes).OutOfFuel? {
      var m', b :| b >= passes && Running(prog, m') && Reaches(prog, Start(st), m', b);
      var n: nat :| Run(prog, Start(st), n) == (m', b);
      JumpsAsPasses(prog, 0, Start(st), n, m', b, passes);
      assert false;
    }
  }
}
