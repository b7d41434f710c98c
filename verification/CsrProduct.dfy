/**
 The flattened sparse matrix-vector product: for every CSR input with at least one stored
 element it finishes within the N + K - 1 passes its annotation asks for, and computes the product.
 */
module CsrProduct {
  import opened LoopNest
  import opened StateMachine
  import opened Flattening
  import opened FlatteningProof

  const I: Name := 0
  const J: Name := 1
  const IP0: Name := 2
  const IP1: Name := 3
  const IEJ: Name := 4
  const INJ: Name := 5
  const VIJ: Name := 6
  const OUT: Name := 7
  const PTRS: Name := 8
  const ELMS: Name := 9
  const INDS: Name := 10
  const VECTOR: Name := 11

  // ----- the program -----

  function Var(x: Name): Expr { Read(x, Const(0)) }

  function Set(x: Name, e: Expr): Action { Assign(x, Const(0), e) }

  function Plus(a: Expr, b: Expr): Expr { Binary(Add, a, b) }

  function InnerBody(): Stmt {
    Compound(
      Cons(Act(Set(IEJ, Read(ELMS, Var(J)))),
      Cons(Act(Set(INJ, Read(INDS, Var(J)))),
      Cons(Act(Set(VIJ, Read(VECTOR, Var(INJ)))),
      Cons(Act(Assign(OUT, Var(I), Plus(Read(OUT, Var(I)), Binary(Mul, Var(IEJ), Var(VIJ))))), Nil)))))
  }

  function InnerCond(): Expr { Binary(Less, Var(J), Var(IP1)) }

  function NextJ(): Action { Set(J, Plus(Var(J), Const(1))) }

  function InnerLoop(): Stmt {
    For(Set(J, Var(IP0)), InnerCond(), NextJ(), InnerBody())
  }

  function OuterBody(): Stmt {
    Compound(
      Cons(Act(Set(IP0, Read(PTRS, Var(I)))),
      Cons(Act(Set(IP1, Read(PTRS, Plus(Var(I), Const(1))))),
      Cons(InnerLoop(), Nil))))
  }

  function OuterCond(n: nat): Expr { Binary(Less, Var(I), Const(n)) }

  function NextI(): Action { Set(I, Plus(Var(I), Const(1))) }

  function Product(n: nat): Stmt {
    For(Set(I, Const(0)), OuterCond(n), NextI(), OuterBody())
  }

  // ----- the meaning of the input -----

  function At(st: Store, x: Name, i: int): int { Lookup(st, Location(x, i)) }

  ghost predicate ValidCsr(st: Store, n: nat, k: nat) {
    && At(st, PTRS, 0) == 0 && At(st, PTRS, n) == k
    && (forall r :: 0 <= r < n ==> At(st, PTRS, r) <= At(st, PTRS, r + 1))
    && (forall e :: 0 <= e < k ==> 0 <= At(st, INDS, e) < n)
  }

  /** The contribution of the stored elements lo, ..., hi - 1. */
  function RowSum(st: Store, lo: int, hi: int): int
    decreases hi - lo
  {
    if lo >= hi then 0 else At(st, ELMS, lo) * At(st, VECTOR, At(st, INDS, lo)) + RowSum(st, lo + 1, hi)
  }

  ghost predicate SameInput(st: Store, st': Store) {
    && (forall i :: At(st', PTRS, i) == At(st, PTRS, i))
    && (forall i :: At(st', ELMS, i) == At(st, ELMS, i))
    && (forall i :: At(st', INDS, i) == At(st, INDS, i))
    && (forall i :: At(st', VECTOR, i) == At(st, VECTOR, i))
  }

  lemma {:induction false} SameRowSum(st: Store, st': Store, lo: int, hi: int)
    requires SameInput(st, st')
    ensures RowSum(st', lo, hi) == RowSum(st, lo, hi)
    decreases hi - lo
  {
    if lo < hi { SameRowSum(st, st', lo + 1, hi); }
  }

  /** `st'` differs from `st` at most in the scalars `xs`. */
  ghost predicate SameBut(st: Store, st': Store, xs: set<Name>) {
    forall y, i :: y !in xs || i != 0 ==> At(st', y, i) == At(st, y, i)
  }

  // ----- assignments -----

  lemma ReadVar(x: Name, st: Store)
    ensures Eval(Var(x), st) == At(st, x, 0)
  {
    assert Eval(Const(0), st) == 0;
  }

  lemma SetRuns(x: Name, e: Expr, st: Store)
    ensures var st' := Apply(Set(x, e), st); At(st', x, 0) == Eval(e, st) && SameBut(st, st', {x})
  {
    assert Eval(Const(0), st) == 0;
  }

  lemma ApplyOne(a: Action, st: Store)
    ensures ApplyAll([a], st) == Apply(a, st)
  {
    assert [a][1..] == [];
  }

  lemma StepVar(x: Name, st: Store)
    ensures var st' := ApplyAll([Set(x, Plus(Var(x), Const(1)))], st);
            At(st', x, 0) == At(st, x, 0) + 1 && SameBut(st, st', {x})
  {
    ReadVar(x, st);
    ApplyOne(Set(x, Plus(Var(x), Const(1))), st);
    SetRuns(x, Plus(Var(x), Const(1)), st);
    assert Eval(Const(1), st) == 1;
  }

  lemma ConsAct(a: Action, rest: Block, st: Store, fuel: nat)
    requires ExecBlock(rest, Apply(a, st), fuel).Done?
    ensures ExecBlock(Cons(Act(a), rest), st, fuel) == ExecBlock(rest, Apply(a, st), fuel)
  {
  }

  // ----- the inner loop -----

  /** Adds stored element `j` to the current row. */
  ghost predicate Accumulated(st: Store, st': Store, row: int, amount: int) {
    && SameInput(st, st')
    && forall i :: At(st', OUT, i) == At(st, OUT, i) + if i == row then amount else 0
  }

  lemma LoadsRun(st: Store)
    ensures var j, st3 := At(st, J, 0), Loaded(st);
            && SameBut(st, st3, {IEJ, INJ, VIJ})
            && At(st3, IEJ, 0) == At(st, ELMS, j)
            && At(st3, VIJ, 0) == At(st, VECTOR, At(st, INDS, j))
  {
    ReadVar(J, st);
    SetRuns(IEJ, Read(ELMS, Var(J)), st);
    var st1 := Apply(Set(IEJ, Read(ELMS, Var(J))), st);
    ReadVar(J, st1);
    SetRuns(INJ, Read(INDS, Var(J)), st1);
    var st2 := Apply(Set(INJ, Read(INDS, Var(J))), st1);
    ReadVar(INJ, st2);
    SetRuns(VIJ, Read(VECTOR, Var(INJ)), st2);
  }

  function Accumulate(): Action {
    Assign(OUT, Var(I), Plus(Read(OUT, Var(I)), Binary(Mul, Var(IEJ), Var(VIJ))))
  }

  lemma AccumulateRuns(st: Store)
    ensures var st' := Apply(Accumulate(), st); var row := At(st, I, 0);
            forall y, i :: At(st', y, i) ==
              At(st, y, i) + if y == OUT && i == row then At(st, IEJ, 0) * At(st, VIJ, 0) else 0
  {
    ReadVar(I, st);
    ReadVar(IEJ, st);
    ReadVar(VIJ, st);
    assert Eval(Read(OUT, Var(I)), st) == At(st, OUT, At(st, I, 0));
    assert Eval(Binary(Mul, Var(IEJ), Var(VIJ)), st) == At(st, IEJ, 0) * At(st, VIJ, 0);
  }

  function Loaded(st: Store): Store {
    Apply(Set(VIJ, Read(VECTOR, Var(INJ))), Apply(Set(INJ, Read(INDS, Var(J))),
        Apply(Set(IEJ, Read(ELMS, Var(J))), st)))
  }

  lemma InnerBodyExec(st: Store, fuel: nat)
    ensures Exec(InnerBody(), st, fuel) == Done(Normal, Apply(Accumulate(), Loaded(st)), 0)
  {
    hide Eval, Apply, Lookup;
    var a1, a2, a3, a4 := Set(IEJ, Read(ELMS, Var(J))), Set(INJ, Read(INDS, Var(J))), Set(VIJ, Read(VECTOR, Var(INJ))),
        Accumulate();
    var st1 := Apply(a1, st);
    var st2 := Apply(a2, st1);
    var st3 := Apply(a3, st2);
    assert ExecBlock(Nil, Apply(a4, st3), fuel) == Done(Normal, Apply(a4, st3), 0);
    ConsAct(a4, Nil, st3, fuel);
    ConsAct(a3, Cons(Act(a4), Nil), st2, fuel);
    ConsAct(a2, Cons(Act(a3), Cons(Act(a4), Nil)), st1, fuel);
    ConsAct(a1, Cons(Act(a2), Cons(Act(a3), Cons(Act(a4), Nil))), st, fuel);
  }

  lemma InnerBodyRuns(st: Store, fuel: nat)
    ensures var r := Exec(InnerBody(), st, fuel); var j := At(st, J, 0);
            && r.Done? && r.out == Normal && r.backs == 0
            && Accumulated(st, r.store, At(st, I, 0), At(st, ELMS, j) * At(st, VECTOR, At(st, INDS, j)))
            && At(r.store, J, 0) == j && At(r.store, IP1, 0) == At(st, IP1, 0) && At(r.store, I, 0) == At(st, I, 0)
  {
    hide Eval, Apply, Lookup, Exec;
    InnerBodyExec(st, fuel);
    LoadsRun(st);
    AccumulateRuns(Loaded(st));
  }

  lemma {:induction false} InnerRuns(st: Store, fuel: nat)
    requires fuel >= At(st, IP1, 0) - At(st, J, 0)
    ensures var r := LoopFrom(InnerCond(), [NextJ()], InnerBody(), st, fuel);
            var j, hi := At(st, J, 0), At(st, IP1, 0);
            && r.Done? && r.out == Normal && r.backs == (if j < hi then hi - j - 1 else 0)
            && Accumulated(st, r.store, At(st, I, 0), RowSum(st, j, hi)) && At(r.store, I, 0) == At(st, I, 0)
    decreases fuel
  {
    var j, hi := At(st, J, 0), At(st, IP1, 0);
    ReadVar(J, st);
    ReadVar(IP1, st);
    if j < hi {
      InnerBodyRuns(st, fuel);
      var st1 := Exec(InnerBody(), st, fuel).store;
      var st2 := ApplyAll([NextJ()], st1);
      StepVar(J, st1);
      ReadVar(J, st2);
      ReadVar(IP1, st2);
      InnerRuns(st2, fuel - 1);
      SameRowSum(st, st2, j + 1, hi);
    }
  }

  // ----- the outer loop -----

  lemma OuterBodyExec(st: Store, fuel: nat)
    requires Exec(InnerLoop(), Apply(Set(IP1, Read(PTRS, Plus(Var(I), Const(1)))),
        Apply(Set(IP0, Read(PTRS, Var(I))), st)), fuel).Done?
    ensures Exec(OuterBody(), st, fuel) == Exec(InnerLoop(),
        Apply(Set(IP1, Read(PTRS, Plus(Var(I), Const(1)))), Apply(Set(IP0, Read(PTRS, Var(I))), st)), fuel)
  {
    hide Eval, Apply, Lookup, LoopFrom, RunBody;
    var a1, a2 := Set(IP0, Read(PTRS, Var(I))), Set(IP1, Read(PTRS, Plus(Var(I), Const(1))));
    var st2 := Apply(a2, Apply(a1, st));
    var r := Exec(InnerLoop(), st2, fuel);
    assert ExecBlock(Cons(InnerLoop(), Nil), st2, fuel) == r by {
      if r.out == Normal { assert ExecBlock(Nil, r.store, fuel) == Done(Normal, r.store, 0); }
    }
    ConsAct(a2, Cons(InnerLoop(), Nil), Apply(a1, st), fuel);
    ConsAct(a1, Cons(Act(a2), Cons(InnerLoop(), Nil)), st, fuel);
  }

  lemma OuterBodyRuns(st: Store, fuel: nat)
    requires fuel >= At(st, PTRS, At(st, I, 0) + 1) - At(st, PTRS, At(st, I, 0))
    ensures var r := Exec(OuterBody(), st, fuel); var row := At(st, I, 0);
            var lo, hi := At(st, PTRS, row), At(st, PTRS, row + 1);
            && r.Done? && r.out == Normal && r.backs == (if lo < hi then hi - lo - 1 else 0)
            && Accumulated(st, r.store, row, RowSum(st, lo, hi)) && At(r.store, I, 0) == row
  {
    var row := At(st, I, 0);
    var st1 := Apply(Set(IP0, Read(PTRS, Var(I))), st);
    var st2 := Apply(Set(IP1, Read(PTRS, Plus(Var(I), Const(1)))), st1);
    var st3 := Apply(Set(J, Var(IP0)), st2);
    ReadVar(I, st);
    SetRuns(IP0, Read(PTRS, Var(I)), st);
    ReadVar(I, st1);
    assert Eval(Const(1), st1) == 1;
    assert Eval(Plus(Var(I), Const(1)), st1) == row + 1;
    SetRuns(IP1, Read(PTRS, Plus(Var(I), Const(1))), st1);
    ReadVar(IP0, st2);
    SetRuns(J, Var(IP0), st2);
    InnerRuns(st3, fuel);
    SameRowSum(st, st3, At(st, PTRS, row), At(st, PTRS, row + 1));
    assert Exec(InnerLoop(), st2, fuel) == LoopFrom(InnerCond(), [NextJ()], InnerBody(), st3, fuel);
    OuterBodyExec(st, fuel);
  }

  /** Rows row, ..., n - 1 that store at least one element. */
  function NonEmptyRows(st: Store, row: int, n: int): nat
    decreases n - row
  {
    if row >= n then 0
    else (if At(st, PTRS, row) < At(st, PTRS, row + 1) then 1 else 0) + NonEmptyRows(st, row + 1, n)
  }

  lemma {:induction false} SameNonEmptyRows(st: Store, st': Store, row: int, n: int)
    requires SameInput(st, st')
    ensures NonEmptyRows(st', row, n) == NonEmptyRows(st, row, n)
    decreases n - row
  {
    if row < n { SameNonEmptyRows(st, st', row + 1, n); }
  }

  /** Rows are stored one after another, so an element is stored if and only if some row is not empty. */
  lemma {:induction false} StoredRows(st: Store, n: nat, k: nat, row: nat)
    requires ValidCsr(st, n, k) && row <= n
    ensures At(st, PTRS, row) <= k && (NonEmptyRows(st, row, n) > 0 <==> At(st, PTRS, row) < k)
    decreases n - row
  {
    if row < n { StoredRows(st, n, k, row + 1); }
  }

  ghost predicate RowsDone(st: Store, st': Store, row: int, n: int) {
    && SameInput(st, st')
    && forall i :: At(st', OUT, i) == At(st, OUT, i) +
        if row <= i < n then RowSum(st, At(st, PTRS, i), At(st, PTRS, i + 1)) else 0
  }

  lemma RowsDoneStep(st: Store, st1: Store, st': Store, row: int, n: int)
    requires row < n && Accumulated(st, st1, row, RowSum(st, At(st, PTRS, row), At(st, PTRS, row + 1)))
    requires RowsDone(st1, st', row + 1, n)
    ensures RowsDone(st, st', row, n)
  {
    forall i ensures At(st', OUT, i) == At(st, OUT, i) +
        if row <= i < n then RowSum(st, At(st, PTRS, i), At(st, PTRS, i + 1)) else 0 {
      SameRowSum(st, st1, At(st, PTRS, i), At(st, PTRS, i + 1));
    }
  }

  lemma OuterCondRuns(n: nat, st: Store)
    ensures Holds(OuterCond(n), st) <==> At(st, I, 0) < n
  {
    ReadVar(I, st);
    assert Eval(Const(n), st) == n;
  }

  lemma OuterStep(st: Store, n: nat, k: nat, fuel: nat)
    requires ValidCsr(st, n, k) && 0 <= At(st, I, 0) < n
    requires fuel >= n - At(st, I, 0) + k - At(st, PTRS, At(st, I, 0))
    ensures var row, r := At(st, I, 0), Exec(OuterBody(), st, fuel);
            var lo, hi := At(st, PTRS, row), At(st, PTRS, row + 1);
            && r.Done? && r.out == Normal && r.backs == (if lo < hi then hi - lo - 1 else 0) && hi <= k
            && var st2 := ApplyAll([NextI()], r.store);
            && At(st2, I, 0) == row + 1 && Accumulated(st, st2, row, RowSum(st, lo, hi))
  {
    hide Eval, Exec, LoopFrom, RunBody, ApplyAll, RowSum;
    StoredRows(st, n, k, At(st, I, 0) + 1);
    OuterBodyRuns(st, fuel);
    StepVar(I, Exec(OuterBody(), st, fuel).store);
  }

  lemma {:induction false} OuterRuns(st: Store, n: nat, k: nat, fuel: nat)
    requires ValidCsr(st, n, k) && 0 <= At(st, I, 0) <= n
    requires fuel >= n - At(st, I, 0) + k - At(st, PTRS, At(st, I, 0))
    ensures var r := LoopFrom(OuterCond(n), [NextI()], OuterBody(), st, fuel); var row := At(st, I, 0);
            && r.Done? && r.out == Normal && RowsDone(st, r.store, row, n)
            && r.backs + NonEmptyRows(st, row, n) == (if row < n then n - row - 1 else 0) + k - At(st, PTRS, row)
    decreases fuel
  {
    hide Eval, Exec, Holds, ApplyAll, RowSum;
    var row := At(st, I, 0);
    OuterCondRuns(n, st);
    StoredRows(st, n, k, row);
    if row < n {
      OuterStep(st, n, k, fuel);
      var st2 := ApplyAll([NextI()], Exec(OuterBody(), st, fuel).store);
      OuterCondRuns(n, st2);
      OuterRuns(st2, n, k, fuel - 1);
      SameNonEmptyRows(st, st2, row + 1, n);
      RowsDoneStep(st, st2, LoopFrom(OuterCond(n), [NextI()], OuterBody(), st2, fuel - 1).store, row, n);
    }
  }

  // ----- against the dense matrix -----

  /** The entry of the represented matrix in a row's elements lo, ..., hi - 1 and column `c`. */
  function Entry(st: Store, lo: int, hi: int, c: int): int
    decreases hi - lo
  {
    if lo >= hi then 0 else (if At(st, INDS, lo) == c then At(st, ELMS, lo) else 0) + Entry(st, lo + 1, hi, c)
  }

  /** A dense row times the vector, columns 0, ..., n - 1. */
  function DenseRow(st: Store, lo: int, hi: int, n: nat): int {
    if n == 0 then 0 else DenseRow(st, lo, hi, n - 1) + Entry(st, lo, hi, n - 1) * At(st, VECTOR, n - 1)
  }

  lemma {:induction false} DenseRowStep(st: Store, lo: int, hi: int, n: nat)
    requires lo < hi && 0 <= At(st, INDS, lo)
    ensures var c := At(st, INDS, lo);
            DenseRow(st, lo, hi, n) == DenseRow(st, lo + 1, hi, n) + if c < n then At(st, ELMS, lo) * At(st, VECTOR, c)
                else 0
  {
    if n > 0 {
      DenseRowStep(st, lo, hi, n - 1);
      if At(st, INDS, lo) == n - 1 {
        assert Entry(st, lo, hi, n - 1) * At(st, VECTOR, n - 1)
            == At(st, ELMS, lo) * At(st, VECTOR, n - 1) + Entry(st, lo + 1, hi, n - 1) * At(st, VECTOR, n - 1);
      }
    }
  }

  lemma {:induction false} DenseRowEmpty(st: Store, lo: int, hi: int, n: nat)
    requires lo >= hi
    ensures DenseRow(st, lo, hi, n) == 0
  {
    if n > 0 { DenseRowEmpty(st, lo, hi, n - 1); }
  }

  lemma {:induction false} RowSumIsDense(st: Store, lo: int, hi: int, n: nat)
    requires forall e :: lo <= e < hi ==> 0 <= At(st, INDS, e) < n
    ensures RowSum(st, lo, hi) == DenseRow(st, lo, hi, n)
    decreases hi - lo
  {
    if lo < hi {
      RowSumIsDense(st, lo + 1, hi, n);
      DenseRowStep(st, lo, hi, n);
    } else {
      DenseRowEmpty(st, lo, hi, n);
    }
  }

  // ----- the theorem -----

  ghost predicate IsProduct(st: Store, st': Store, n: nat) {
    forall r :: 0 <= r < n ==> At(st', OUT, r) == DenseRow(st, At(st, PTRS, r), At(st, PTRS, r + 1), n)
  }

  lemma {:induction false} PtrsGrow(st: Store, n: nat, k: nat, r: nat)
    requires ValidCsr(st, n, k) && r <= n
    ensures At(st, PTRS, r) >= 0
  {
    if r > 0 { PtrsGrow(st, n, k, r - 1); }
  }

  lemma ProductRuns(st: Store, n: nat, k: nat, fuel: nat)
    requires ValidCsr(st, n, k) && fuel >= n + k && n > 0
    requires forall r :: 0 <= r < n ==> At(st, OUT, r) == 0
    ensures var r := Exec(Product(n), st, fuel);
            && r.Done? && r.backs + NonEmptyRows(st, 0, n) == n - 1 + k && IsProduct(st, r.store, n)
  {
    var st1 := Apply(Set(I, Const(0)), st);
    SetRuns(I, Const(0), st);
    assert Eval(Const(0), st) == 0;
    OuterRuns(st1, n, k, fuel);
    var r := Exec(Product(n), st, fuel);
    assert r == LoopFrom(OuterCond(n), [NextI()], OuterBody(), st1, fuel);
    SameNonEmptyRows(st, st1, 0, n);
    forall i | 0 <= i < n ensures At(r.store, OUT, i) == DenseRow(st, At(st, PTRS, i), At(st, PTRS, i + 1), n) {
      SameRowSum(st, st1, At(st, PTRS, i), At(st, PTRS, i + 1));
      StoredRows(st, n, k, i + 1);
      PtrsGrow(st, n, k, i);
      RowSumIsDense(st, At(st, PTRS, i), At(st, PTRS, i + 1), n);
    }
  }

  lemma ProductAccepted(n: nat)
    ensures IsLoop(Product(n)) && Accepted(Product(n))
  {
    assert Accepted(InnerLoop()) by {
      assert AcceptedBlock(Nil);
      assert Accepted(InnerBody());
    }
    assert AcceptedBlock(Cons(InnerLoop(), Nil));
  }

  function FlatProduct(n: nat): seq<StateBlock> {
    ProductAccepted(n);
    Flattened(Product(n))
  }

  /**
   The flattened product has finished, with the matrix-vector product in `out`, after N + K - 1 passes
   exactly when some element is stored; it always has after N + K passes.
   */
  lemma PassBound(st: Store, n: nat, k: nat, passes: nat)
    requires ValidCsr(st, n, k) && n > 0 && (forall r :: 0 <= r < n ==> At(st, OUT, r) == 0)
    ensures var m := RunPasses(FlatProduct(n), Start(st), passes);
            && (m.state == CountStates(Product(n)) <==> passes + NonEmptyRows(st, 0, n) >= n + k)
            && (passes + NonEmptyRows(st, 0, n) >= n + k ==> IsProduct(st, m.store, n))
    ensures RunPasses(FlatProduct(n), Start(st), n + k - 1).state == CountStates(Product(n)) <==> k > 0
  {
    hide Exec, RunPasses, FlattenLoop, CountStates, IsProduct, Accepted;
    ProductAccepted(n);
    ProductRuns(st, n, k, n + k);
    FlatteningPreservesMeaning(Product(n), st, n + k, passes);
    FlatteningPreservesMeaning(Product(n), st, n + k, n + k - 1);
    StoredRows(st, n, k, 0);
  }
}
