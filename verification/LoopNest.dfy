/**
 The fragment of C that the loop flattener accepts, with the loop and jump semantics
 of sections 6.8.5, 6.8.6.2 and 6.8.6.3 of ISO C99.

 Declarations have been hoisted out of the loops, branches of an `if` are braced and
 hold no loop, and every `for` has its three clauses.
 */
module LoopNest {

  type Name = nat

  /** A scalar x lives at (x, 0), the element a[i] of an array at (a, i). */
  datatype Location = Location(name: Name, index: int)

  type Store = map<Location, int>

  datatype Operator = Add | Sub | Mul | Less | Equal

  datatype Expr =
    | Const(n: int)
    | Read(name: Name, index: Expr)
    | Binary(op: Operator, left: Expr, right: Expr)

  /** An assignment `name[index] = value`. */
  datatype Action = Assign(name: Name, index: Expr, value: Expr)

  datatype Stmt =
    | Act(action: Action)
    | If(cond: Expr, thn: Block, els: Block)
    | Compound(block: Block)
    | For(init: Action, cond: Expr, inc: Action, body: Stmt)
    | While(cond: Expr, body: Stmt)
    | DoWhile(body: Stmt, cond: Expr)
    | Break
    | Continue

  datatype Block = Nil | Cons(head: Stmt, tail: Block)

  datatype Option<+T> = None | Some(value: T)

  // ----- expressions and assignments -----

  function Lookup(st: Store, l: Location): int {
    if l in st then st[l] else 0
  }

  function Eval(e: Expr, st: Store): int {
    match e
    case Const(n) => n
    case Read(x, i) => Lookup(st, Location(x, Eval(i, st)))
    case Binary(op, l, r) =>
      var a, b := Eval(l, st), Eval(r, st);
      match op
      case Add => a + b
      case Sub => a - b
      case Mul => a * b
      case Less => if a < b then 1 else 0
      case Equal => if a == b then 1 else 0
  }

  predicate Holds(e: Expr, st: Store) {
    Eval(e, st) != 0
  }

  function Apply(a: Action, st: Store): Store {
    st[Location(a.name, Eval(a.index, st)) := Eval(a.value, st)]
  }

  function ApplyAll(acts: seq<Action>, st: Store): Store {
    if acts == [] then st else ApplyAll(acts[1..], Apply(acts[0], st))
  }

  // ----- syntactic classes -----

  predicate IsLoop(s: Stmt) {
    s.For? || s.While? || s.DoWhile?
  }

  /** The loop-free statements that may stand inside an `if`. */
  predicate LoopFree(s: Stmt) {
    match s
    case If(_, a, b) => LoopFreeBlock(a) && LoopFreeBlock(b)
    case Compound(b) => LoopFreeBlock(b)
    case _ => !IsLoop(s)
  }

  predicate LoopFreeBlock(b: Block) {
    b.Cons? ==> LoopFree(b.head) && LoopFreeBlock(b.tail)
  }

  /** What the flattener accepts: loops may stand anywhere except inside an `if`. */
  predicate Accepted(s: Stmt) {
    match s
    case If(_, a, b) => LoopFreeBlock(a) && LoopFreeBlock(b)
    case Compound(b) => AcceptedBlock(b)
    case For(_, _, _, b) => Accepted(b)
    case While(_, b) => Accepted(b)
    case DoWhile(b, _) => Accepted(b)
    case _ => true
  }

  predicate AcceptedBlock(b: Block) {
    b.Cons? ==> Accepted(b.head) && AcceptedBlock(b.tail)
  }

  // ----- big-step semantics -----

  datatype Outcome = Normal | Broke | Continued

  /** `backs` counts the times a loop condition, tested after a body, starts the body again. */
  datatype Result = OutOfFuel | Done(out: Outcome, store: Store, backs: nat)

  /** The statement terminates exactly when some fuel gives `Done`. */
  function Exec(s: Stmt, st: Store, fuel: nat): Result
    decreases fuel, s, 0
  {
    match s
    case Act(a) => Done(Normal, Apply(a, st), 0)
    case If(c, a, b) => ExecBlock(if Holds(c, st) then a else b, st, fuel)
    case Compound(b) => ExecBlock(b, st, fuel)
    case For(i, c, n, b) => LoopFrom(c, [n], b, Apply(i, st), fuel)
    case While(c, b) => LoopFrom(c, [], b, st, fuel)
    case DoWhile(b, c) => RunBody(c, [], b, st, fuel)
    case Break => Done(Broke, st, 0)
    case Continue => Done(Continued, st, 0)
  }

  function ExecBlock(b: Block, st: Store, fuel: nat): Result
    decreases fuel, b, 0
  {
    match b
    case Nil => Done(Normal, st, 0)
    case Cons(s, rest) =>
      var r := Exec(s, st, fuel);
      if r.OutOfFuel? || r.out != Normal then r
      else
        var r' := ExecBlock(rest, r.store, fuel);
        if r'.OutOfFuel? then r' else r'.(backs := r.backs + r'.backs)
  }

  /** The loop with condition `c`, body `b` and increment `inc`, about to test its condition. */
  function LoopFrom(c: Expr, inc: seq<Action>, b: Stmt, st: Store, fuel: nat): Result
    decreases fuel, b, 2
  {
    if Holds(c, st) then RunBody(c, inc, b, st, fuel) else Done(Normal, st, 0)
  }

  /** The same loop, about to run its body. */
  function RunBody(c: Expr, inc: seq<Action>, b: Stmt, st: Store, fuel: nat): Result
    decreases fuel, b, 1
  {
    var r := Exec(b, st, fuel);
    if r.OutOfFuel? then r
    else if r.out == Broke then r.(out := Normal)
    else if fuel == 0 then OutOfFuel
    else
      var st' := ApplyAll(inc, r.store);
      var r' := LoopFrom(c, inc, b, st', fuel - 1);
      if r'.OutOfFuel? then r'
      else r'.(backs := r.backs + (if Holds(c, st') then 1 else 0) + r'.backs)
  }
}
