/**
 The program that the flattener emits: one `while` whose body is a list of blocks
 `if (state == k) { ... }`, run in textual order once per pass.
 */
module StateMachine {
  import opened LoopNest

  datatype Code =
    | Do(action: Action)
    | Choose(cond: Expr, thn: seq<Code>, els: seq<Code>)
    | SetState(k: int)
    | IncState
    | SetGuard(on: bool)
    | UnlessGuard(body: seq<Code>)

  /** `if (state == k) { code }` */
  datatype StateBlock = StateBlock(k: nat, code: seq<Code>)

  /** The fresh variables `state` and `breakGuard` stand beside the program's own store. */
  datatype Machine = Machine(state: int, guard: bool, store: Store)

  function RunCode(c: Code, m: Machine): Machine {
    match c
    case Do(a) => m.(store := Apply(a, m.store))
    case Choose(e, a, b) => if Holds(e, m.store) then RunCodes(a, m) else RunCodes(b, m)
    case SetState(k) => m.(state := k)
    case IncState => m.(state := m.state + 1)
    case SetGuard(on) => m.(guard := on)
    case UnlessGuard(b) => if m.guard then m else RunCodes(b, m)
  }

  function RunCodes(cs: seq<Code>, m: Machine): Machine {
    if cs == [] then m else RunCodes(cs[1..], RunCode(cs[0], m))
  }

  lemma {:induction false} RunAppend(a: seq<Code>, b: seq<Code>, m: Machine)
    ensures RunCodes(a + b, m) == RunCodes(b, RunCodes(a, m))
  {
    if a == [] {
      assert a + b == b;
    } else {
      assert (a + b)[1..] == a[1..] + b;
      RunAppend(a[1..], b, RunCode(a[0], m));
    }
  }

  lemma RunOne(a: Code, m: Machine)
    ensures RunCodes([a], m) == RunCode(a, m)
  {
  }

  lemma RunTwo(a: Code, b: Code, m: Machine)
    ensures RunCodes([a, b], m) == RunCode(b, RunCode(a, m))
  {
    assert [a, b][1..] == [b];
    assert RunCodes([b], RunCode(a, m)) == RunCode(b, RunCode(a, m));
  }

  // ----- passes over the block list -----

  /** The rest of one pass, from block `i` on. */
  function PassFrom(prog: seq<StateBlock>, i: nat, m: Machine): Machine
    requires i <= |prog|
    decreases |prog| - i
  {
    if i == |prog| then m
    else PassFrom(prog, i + 1, if m.state == prog[i].k then RunCodes(prog[i].code, m) else m)
  }

  /** `passes` passes, the first of which starts at block `i`. */
  function PassesFrom(prog: seq<StateBlock>, i: nat, m: Machine, passes: nat): Machine
    requires i <= |prog|
    decreases passes
  {
    if passes == 0 then m else PassesFrom(prog, 0, PassFrom(prog, i, m), passes - 1)
  }

  /** The emitted loop `while (count < passes) { ...; count++; }` */
  function RunPasses(prog: seq<StateBlock>, m: Machine, passes: nat): Machine {
    PassesFrom(prog, 0, m, passes)
  }

  // ----- the same program as a jumping machine -----

  ghost predicate Numbered(prog: seq<StateBlock>) {
    forall i :: 0 <= i < |prog| ==> prog[i].k == i
  }

  predicate Running(prog: seq<StateBlock>, m: Machine) {
    0 <= m.state < |prog|
  }

  function Step(prog: seq<StateBlock>, m: Machine): Machine
    requires Running(prog, m)
  {
    RunCodes(prog[m.state].code, m)
  }

  /** Runs at most `n` blocks, each the one the state names, and counts the jumps that do not go forward. */
  function Run(prog: seq<StateBlock>, m: Machine, n: nat): (Machine, nat)
    decreases n
  {
    if n == 0 || !Running(prog, m) then (m, 0)
    else
      var m1 := Step(prog, m);
      var (m2, b) := Run(prog, m1, n - 1);
      (m2, b + if m1.state <= m.state then 1 else 0)
  }

  lemma {:induction false} RunSplit(prog: seq<StateBlock>, m: Machine, n: nat, n': nat)
    ensures var (m1, b1) := Run(prog, m, n);
            var (m2, b2) := Run(prog, m1, n');
            Run(prog, m, n + n') == (m2, b1 + b2)
    decreases n
  {
    if n == 0 || !Running(prog, m) {
    } else {
      RunSplit(prog, Step(prog, m), n - 1, n');
    }
  }

  ghost predicate Reaches(prog: seq<StateBlock>, m: Machine, m': Machine, backs: nat) {
    exists n: nat :: Run(prog, m, n) == (m', backs)
  }

  lemma ReachesHere(prog: seq<StateBlock>, m: Machine)
    ensures Reaches(prog, m, m, 0)
  {
    assert Run(prog, m, 0) == (m, 0);
  }

  lemma ReachesStep(prog: seq<StateBlock>, m: Machine)
    requires Running(prog, m)
    ensures Reaches(prog, m, Step(prog, m), if Step(prog, m).state <= m.state then 1 else 0)
  {
    var m1 := Step(prog, m);
    assert Run(prog, m1, 0) == (m1, 0);
    assert Run(prog, m, 1) == (m1, if m1.state <= m.state then 1 else 0);
  }

  lemma ReachesThen(prog: seq<StateBlock>, m: Machine, m1: Machine, b1: nat, m2: Machine, b2: nat)
    requires Reaches(prog, m, m1, b1) && Reaches(prog, m1, m2, b2)
    ensures Reaches(prog, m, m2, b1 + b2)
  {
    var n: nat :| Run(prog, m, n) == (m1, b1);
    var n': nat :| Run(prog, m1, n') == (m2, b2);
    RunSplit(prog, m, n, n');
    assert Run(prog, m, n + n') == (m2, b1 + b2);
  }

  // ----- passes against jumps -----

  lemma {:induction false} PassSkips(prog: seq<StateBlock>, i: nat, j: nat, m: Machine)
    requires Numbered(prog) && i <= j <= |prog|
    requires !(i <= m.state < j)
    ensures PassFrom(prog, i, m) == PassFrom(prog, j, m)
    decreases j - i
  {
    if i < j { PassSkips(prog, i + 1, j, m); }
  }

  lemma PassEnters(prog: seq<StateBlock>, i: nat, m: Machine)
    requires Numbered(prog) && i <= m.state < |prog|
    ensures PassFrom(prog, i, m) == PassFrom(prog, m.state + 1, Step(prog, m))
    ensures Step(prog, m).state <= m.state ==> PassFrom(prog, i, m) == Step(prog, m)
  {
    PassSkips(prog, i, m.state, m);
    if Step(prog, m).state <= m.state {
      PassSkips(prog, m.state + 1, |prog|, Step(prog, m));
    }
  }

  /**
   A jump run with `b` backward jumps that ends past the last block is over after `b + 1` passes
   and not before; a jump run that has not ended is not over after `b` passes.
   */
  lemma {:induction false} JumpsAsPasses(prog: seq<StateBlock>, i: nat, m: Machine, n: nat, m': Machine, b: nat,
      passes: nat)
    requires Numbered(prog) && i <= m.state <= |prog|
    requires Run(prog, m, n) == (m', b) && 0 <= m'.state <= |prog|
    ensures m'.state == |prog| && passes > b ==> PassesFrom(prog, i, m, passes) == m'
    ensures m.state < |prog| && passes <= b ==> Running(prog, PassesFrom(prog, i, m, passes))
    decreases n + passes
  {
    if passes == 0 {
    } else if m.state == |prog| {
      PassSkips(prog, i, |prog|, m);
      JumpsAsPasses(prog, 0, m, n, m', b, passes - 1);
    } else if n > 0 {
      var m1 := Step(prog, m);
      assert 0 <= m1.state <= |prog|;
      PassEnters(prog, i, m);
      if m1.state <= m.state {
        JumpsAsPasses(prog, 0, m1, n - 1, m', b - 1, passes - 1);
      } else {
        JumpsAsPasses(prog, m.state + 1, m1, n - 1, m', b, passes);
      }
    }
  }
}
