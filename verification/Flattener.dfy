/**
 The flattener as the tool runs it: visitors whose fields change while they walk the tree,
 proved to emit the blocks of the translation in module Flattening.
 */
module Flattener {
  import opened LoopNest
  import opened StateMachine
  import opened Flattening
  import opened FlatteningGuard

  /** Code whose enclosing break guards are still open, innermost last. */
  function Wrap(outer: seq<seq<Code>>, code: seq<Code>): seq<Code>
    decreases |outer|
  {
    if outer == [] then code
    else Wrap(outer[..|outer| - 1], outer[|outer| - 1] + [UnlessGuard(code)])
  }

  /** What the children after one that `jumped` or did not will become. */
  function Following(jumped: bool, rest: Block, t: nat): seq<Code>
    requires LoopFreeBlock(rest)
  {
    if jumped && rest.Cons? then [UnlessGuard(RewriteBlock(rest, t))] else RewriteBlock(rest, t)
  }

  lemma FollowingCons(jumped: bool, rest: Block, t: nat)
    requires LoopFreeBlock(rest) && rest.Cons?
    ensures RewriteBlock(rest, t) == Rewrite(rest.head, t) + Following(HasJump(rest.head), rest.tail, t)
    ensures Following(jumped, rest, t) == if jumped then [UnlessGuard(RewriteBlock(rest, t))] else RewriteBlock(rest, t)
  {
  }

  lemma WrapGuard(outer: seq<seq<Code>>, code: seq<Code>, inner: seq<Code>)
    ensures Wrap(outer, code + [UnlessGuard(inner)]) == Wrap(outer + [code], [] + inner)
  {
    assert (outer + [code])[..|outer|] == outer && [] + inner == inner;
  }

  lemma Opening(b: Block, t: nat)
    requires LoopFreeBlock(b)
    ensures Wrap([], [] + Following(false, b, t)) == RewriteBlock(b, t)
  {
    assert [] + Following(false, b, t) == Following(false, b, t);
  }

  lemma BlockNil(b: Block, jumped: bool, t: nat)
    requires b.Nil?
    ensures LoopFreeBlock(b) && !BlockHasJump(b) && Following(jumped, b, t) == []
  {
  }

  lemma BlockCons(b: Block)
    requires LoopFreeBlock(b) && b.Cons?
    ensures LoopFree(b.head) && LoopFreeBlock(b.tail) && (BlockHasJump(b) <==> HasJump(b.head) || BlockHasJump(b.tail))
  {
  }

  class BreakContinueRewriter {
    var targetState: nat
    var foundStmt: bool

    constructor () {
      targetState, foundStmt := 0, false;
    }

    /** Reports whether there is a jump below `s`, and rewrites it unless `t` is 0. */
    method DoRewrite(s: Stmt, t: nat) returns (found: bool, code: seq<Code>)
      requires LoopFree(s)
      modifies this
      ensures found == HasJump(s)
      ensures t > 0 ==> code == Rewrite(s, t) && (found <==> SomeSets(code)) && (found <==> SomeUses(code))
    {
      targetState := t;
      foundStmt := false;
      code := Traverse(s);
      found := foundStmt;
      RewriteGuards(s, t);
    }

    method Traverse(s: Stmt) returns (code: seq<Code>)
      requires LoopFree(s)
      modifies this`foundStmt
      ensures foundStmt == (old(foundStmt) || HasJump(s))
      ensures targetState > 0 ==> code == Rewrite(s, targetState)
      decreases s, 0
    {
      match s
      case Act(a) =>
        code := [Do(a)];
      case If(c, a, b) =>
        var thn := TraverseCompound(a);
        var els := TraverseCompound(b);
        code := [Choose(c, thn, els)];
      case Compound(b) =>
        code := TraverseCompound(b);
      case Continue =>
        foundStmt := true;
        code := [];
        if targetState > 0 {
          code := [SetState(targetState - 1), SetGuard(true)];
        }
      case Break =>
        foundStmt := true;
        code := [];
        if targetState > 0 {
          code := [SetState(targetState), SetGuard(true)];
        }
    }

    /** Closes the guarded blocks that are still open. */
    method CloseGuards(open: seq<seq<Code>>, inner: seq<Code>) returns (code: seq<Code>)
      ensures code == Wrap(open, inner)
    {
      var outer := open;
      code := inner;
      while outer != []
        invariant Wrap(outer, code) == Wrap(open, inner)
        decreases |outer|
      {
        outer, code := outer[..|outer| - 1], outer[|outer| - 1] + [UnlessGuard(code)];
      }
    }

    method TraverseCompound(b: Block) returns (code: seq<Code>)
      requires LoopFreeBlock(b)
      modifies this`foundStmt
      ensures foundStmt == (old(foundStmt) || BlockHasJump(b))
      ensures targetState > 0 ==> code == RewriteBlock(b, targetState)
      decreases b, 1
    {
      hide LoopFree, LoopFreeBlock, HasJump, BlockHasJump, Rewrite, RewriteBlock, Wrap, Following;
      Opening(b, targetState);
      var foundStmtSave, needGuard, rest := foundStmt, false, b;
      var outer: seq<seq<Code>> := [];
      code := [];
      while rest.Cons?
        invariant LoopFreeBlock(rest)
        invariant foundStmtSave || BlockHasJump(rest) <==> old(foundStmt) || BlockHasJump(b)
        invariant targetState > 0 ==>
                    Wrap(outer, code + Following(needGuard, rest, targetState)) == RewriteBlock(b, targetState)
        invariant rest.Nil? || rest == b || rest < b
        decreases rest
      {
        BlockCons(rest);
        if targetState > 0 {
          FollowingCons(needGuard, rest, targetState);
          WrapGuard(outer, code, RewriteBlock(rest, targetState));
        }
        if needGuard && targetState > 0 {
          outer, code := outer + [code], [];
        }
        ghost var before := code;
        foundStmt := false;
        var child := Traverse(rest.head);
        code := code + child;
        foundStmtSave := foundStmtSave || foundStmt;
        needGuard := foundStmt;
        assert targetState > 0 ==>
            before + RewriteBlock(rest, targetState) == code + Following(needGuard, rest.tail, targetState);
        rest := rest.tail;
      }
      BlockNil(rest, needGuard, targetState);
      assert code + [] == code;
      code := CloseGuards(outer, code);
      foundStmt := foundStmtSave;
    }
  }

  /** One child of a compound statement taken off. */
  lemma BlockUnfolds(b: Block, open: Option<seq<Code>>, k: nat, t: nat)
    requires b.Cons? && AcceptedBlock(b) && (open.Some? ==> k > 0)
    ensures Accepted(b.head) && AcceptedBlock(b.tail)
    ensures IsLoop(b.head) || b.head.Compound? ==>
              && CountBlock(b, open.Some?) == CountStates(b.head) + CountBlock(b.tail, false)
              && FlattenBlock(b, open, k, t) == Close(open, k) + FlattenBody(b.head, k, t) +
                  FlattenBlock(b.tail, None, k + CountStates(b.head), t)
    ensures !(IsLoop(b.head) || b.head.Compound?) ==>
              var (code, k') := Extend(b.head, open, k, t);
              && CountBlock(b, open.Some?) == k' - k + CountBlock(b.tail, !HasJump(b.head))
              && FlattenBlock(b, open, k, t) ==
                   if HasJump(b.head) then [StateBlock(k' - 1, code + StateEnd(true))] +
                       FlattenBlock(b.tail, None, k', t)
                   else FlattenBlock(b.tail, Some(code), k', t)
  {
    assert Accepted(b.head);
  }

  class LoopFlattener {
    var stateCnt: nat
    var needBreakGuardVar: bool
    var output: seq<StateBlock>
    const rewriter: BreakContinueRewriter

    constructor ()
      ensures fresh(rewriter)
    {
      stateCnt, needBreakGuardVar, output := 0, false, [];
      rewriter := new BreakContinueRewriter();
    }

    /** Flattens an attributed loop into a machine of its own; the guard is declared exactly if some state sets it. */
    method FlattenAttributed(s: Stmt)
      requires IsLoop(s) && Accepted(s)
      modifies this, rewriter
      ensures output == FlattenLoop(s, 0)
      ensures stateCnt == CountStates(s) && needBreakGuardVar == HasJump(s)
      ensures GuardFor(output, needBreakGuardVar)
    {
      stateCnt, needBreakGuardVar, output := 0, false, [];
      FlattenLoopStmt(s);
      assert output == [] + FlattenLoop(s, 0);
      LoopGuards(s, 0);
    }

    method FlattenLoopStmt(s: Stmt)
      requires IsLoop(s) && Accepted(s)
      modifies this, rewriter
      ensures stateCnt == old(stateCnt) + CountStates(s)
      ensures output == old(output) + FlattenLoop(s, old(stateCnt))
      ensures needBreakGuardVar == (old(needBreakGuardVar) || HasJump(s))
      decreases s, 0
    {
      var startState, numStates := stateCnt, CountStates(s);
      var targetState := startState + numStates - 1;
      output := output + [StateBlock(startState, LoopHead(s, startState, numStates))];
      stateCnt := stateCnt + 1;
      FlattenBodyStmt(s.body, targetState);
      // the tool's own check that the states it counted are the states it emitted
      assert stateCnt == targetState;
      output := output + [StateBlock(targetState, LoopTail(s, startState))];
      stateCnt := stateCnt + 1;
    }

    method FlattenBodyStmt(s: Stmt, targetState: nat)
      requires Accepted(s) && targetState > 0
      modifies this, rewriter
      ensures stateCnt == old(stateCnt) + CountStates(s)
      ensures output == old(output) + FlattenBody(s, old(stateCnt), targetState)
      ensures needBreakGuardVar == (old(needBreakGuardVar) || HasJump(s))
      decreases s, 1
    {
      if s.Compound? {
        FlattenCompoundStmt(s.block, targetState);
      } else if IsLoop(s) {
        FlattenLoopStmt(s);
      } else {
        var found, code := rewriter.DoRewrite(s, targetState);
        output := output + [StateBlock(stateCnt, code + StateEnd(found))];
        needBreakGuardVar := needBreakGuardVar || found;
        stateCnt := stateCnt + 1;
      }
    }

    method FlattenCompoundStmt(b: Block, targetState: nat)
      requires AcceptedBlock(b) && targetState > 0
      modifies this, rewriter
      ensures stateCnt == old(stateCnt) + CountBlock(b, false)
      ensures output == old(output) + FlattenBlock(b, None, old(stateCnt), targetState)
      ensures needBreakGuardVar == (old(needBreakGuardVar) || BlockHasJump(b))
      decreases b, 1
    {
      var rest, open := b, None;
      while rest.Cons?
        invariant AcceptedBlock(rest) && (open.Some? ==> stateCnt > 0)
        invariant stateCnt + CountBlock(rest, open.Some?) == old(stateCnt) + CountBlock(b, false)
        invariant output + FlattenBlock(rest, open, stateCnt, targetState) ==
            old(output) + FlattenBlock(b, None, old(stateCnt), targetState)
        invariant needBreakGuardVar || BlockHasJump(rest) <==> old(needBreakGuardVar) || BlockHasJump(b)
        invariant rest == b || rest < b
        decreases rest
      {
        open := FlattenChild(rest, open, targetState);
        rest := rest.tail;
      }
      output := output + Close(open, stateCnt);
    }

    /** The first child of `b`, with `open` the state under way before it and after it. */
    method FlattenChild(b: Block, open: Option<seq<Code>>, targetState: nat) returns (open': Option<seq<Code>>)
      requires b.Cons? && AcceptedBlock(b) && (open.Some? ==> stateCnt > 0) && targetState > 0
      modifies this, rewriter
      ensures open'.Some? ==> stateCnt > 0
      ensures stateCnt + CountBlock(b.tail, open'.Some?) == old(stateCnt) + CountBlock(b, open.Some?)
      ensures output + FlattenBlock(b.tail, open', stateCnt, targetState) ==
          old(output) + FlattenBlock(b, open, old(stateCnt), targetState)
      ensures needBreakGuardVar == (old(needBreakGuardVar) || HasJump(b.head))
      decreases b, 0
    {
      hide FlattenBlock, FlattenBody, CountBlock, CountStates, HasJump, AcceptedBlock, Close;
      var s := b.head;
      BlockUnfolds(b, open, stateCnt, targetState);
      if IsLoop(s) || s.Compound? {
        output := output + Close(open, stateCnt);
        FlattenBodyStmt(s, targetState);
        open' := None;
      } else {
        var found, code := rewriter.DoRewrite(s, targetState);
        if open.None? {
          stateCnt := stateCnt + 1;
        } else {
          code := open.value + code;
        }
        if found {
          output := output + [StateBlock(stateCnt - 1, code + StateEnd(true))];
          needBreakGuardVar := true;
          open' := None;
        } else {
          open' := Some(code);
        }
      }
    }
  }
}
