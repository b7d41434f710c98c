/**
 Polynomial expressions as the compiler and the prover read them: token streams with balanced parentheses, their value,
 and the two ways in which they are evaluated.
 */
module PolySpec {

  /** What stands between a pair of parentheses; `Times` has no effect, juxtaposed factors are multiplied. */
  datatype Item = Plus | Minus | Times | Lit(c: int) | Var(x: nat) | Group(items: seq<Item>)

  predicate IsSign(it: Item) { it.Plus? || it.Minus? }

  predicate IsFactor(it: Item) { it.Lit? || it.Var? || it.Group? }

  type Env = nat -> real

  // ----- the value -----

  /** Where the term that starts at `i` ends. */
  function TermEnd(s: seq<Item>, i: nat): (j: nat)
    requires i <= |s|
    ensures i <= j <= |s| && (j < |s| ==> IsSign(s[j])) && forall k :: i <= k < j ==> !IsSign(s[k])
    decreases |s| - i
  {
    if i == |s| || IsSign(s[i]) then i else TermEnd(s, i + 1)
  }

  function FactorValue(it: Item, env: Env): real
    decreases it, 1
  {
    match it
    case Lit(c) => c as real
    case Var(x) => env(x)
    case Group(g) => Value(g, 0, env)
    case _ => 1.0
  }

  /** The product of the factors in s[i..j]. */
  function Product(s: seq<Item>, i: nat, j: nat, env: Env): real
    requires i <= j <= |s|
    decreases s, 0, j
  {
    if i == j then 1.0 else Product(s, i, j - 1, env) * FactorValue(s[j - 1], env)
  }

  /** The sum of the terms from `i` on. */
  function Value(s: seq<Item>, i: nat, env: Env): real
    requires i <= |s|
    decreases s, 1, |s| - i
  {
    if i == |s| then 0.0
    else if s[i].Plus? then Value(s, i + 1, env)
    else if s[i].Minus? then
      var j := TermEnd(s, i + 1);
      Value(s, j, env) - Product(s, i + 1, j, env)
    else
      var j := TermEnd(s, i);
      Product(s, i, j, env) + Value(s, j, env)
  }

  predicate HasFactor(s: seq<Item>, i: nat, j: nat)
    requires i <= j <= |s|
  {
    exists k :: i <= k < j && IsFactor(s[k])
  }

  /** Every term has a factor, in particular after every minus sign, and so in every group. */
  predicate WellFormed(s: seq<Item>, i: nat)
    requires i <= |s|
    decreases s, |s| - i
  {
    if i == |s| then true
    else if s[i].Plus? then WellFormed(s, i + 1)
    else
      var from := if s[i].Minus? then i + 1 else i;
      var j := TermEnd(s, from);
      && HasFactor(s, from, j)
      && (forall k :: from <= k < j && s[k].Group? ==> WellFormed(s[k].items, 0))
      && WellFormed(s, j)
  }

  lemma TermNotEmpty(s: seq<Item>, i: nat)
    requires i < |s| && !s[i].Plus?
    ensures TermEnd(s, if s[i].Minus? then i + 1 else i) > i
  {
  }

  /** A term begins after a minus sign, or at an item that stands first or after a sign. */
  predicate Begins(s: seq<Item>, i: nat)
    requires i < |s|
  {
    s[i].Minus? || (!IsSign(s[i]) && (i == 0 || IsSign(s[i - 1])))
  }

  predicate FactorFrom(s: seq<Item>, i: nat)
    requires i < |s|
  {
    var from := if s[i].Minus? then i + 1 else i;
    HasFactor(s, from, TermEnd(s, from))
  }

  ghost predicate AllHaveFactors(s: seq<Item>, i: nat)
    requires i <= |s|
  {
    && (forall k :: i <= k < |s| && Begins(s, k) ==> FactorFrom(s, k))
    && (forall k :: i <= k < |s| && s[k].Group? ==> WellFormed(s[k].items, 0))
  }

  lemma {:induction false} WellFormedFrom(s: seq<Item>, i: nat)
    requires i <= |s| && (i == 0 || i == |s| || IsSign(s[i]) || IsSign(s[i - 1]))
    ensures WellFormed(s, i) <==> AllHaveFactors(s, i)
    decreases |s| - i
  {
    hide HasFactor;
    if i == |s| {
    } else if s[i].Plus? {
      WellFormedFrom(s, i + 1);
    } else {
      var from := if s[i].Minus? then i + 1 else i;
      var j := TermEnd(s, from);
      TermNotEmpty(s, i);
      WellFormedFrom(s, j);
      assert Begins(s, i);
      forall k | i <= k < j && Begins(s, k) ensures FactorFrom(s, k) <==> HasFactor(s, from, j) {
        assert k == i || k == from;
      }
    }
  }

  /** An expression is well formed if and only if every term in it, and in every group of it, has a factor. */
  lemma WellFormedMeans(s: seq<Item>)
    ensures WellFormed(s, 0) <==> AllHaveFactors(s, 0)
  {
    WellFormedFrom(s, 0);
  }

  // ----- the prover's evaluation -----

  /** The variables of the prover's loop. */
  datatype Acc = Acc(poly: real, term: real, hasTerms: bool, hasFactors: bool, negate: bool)

  const START := Acc(0.0, 0.0, false, false, false)

  /** Adds a finished term. */
  function Emit(a: Acc): Acc {
    if !a.hasFactors then a else
      var term := if a.negate then -a.term else a.term;
      Acc(if a.hasTerms then a.poly + term else term, term, true, false, false)
  }

  function TakeFactor(a: Acc, v: real): Acc {
    a.(term := if a.hasFactors then a.term * v else v, hasFactors := true)
  }

  function StepAcc(a: Acc, it: Item, env: Env): Acc
    decreases it, 1
  {
    match it
    case Plus => Emit(a)
    case Minus => Emit(a).(negate := !Emit(a).negate)
    case Times => a
    case Lit(c) => TakeFactor(a, c as real)
    case Var(x) => TakeFactor(a, env(x))
    case Group(g) => TakeFactor(a, Computed(g, env))
  }

  /** The state after the first `i` items. */
  function FoldAcc(s: seq<Item>, i: nat, env: Env): Acc
    requires i <= |s|
    decreases s, 0, i
  {
    if i == 0 then START else StepAcc(FoldAcc(s, i - 1, env), s[i - 1], env)
  }

  function Computed(s: seq<Item>, env: Env): real
    decreases s, 1
  {
    Emit(FoldAcc(s, |s|, env)).poly
  }

  /** The state at the start of a term: what is pending has been added. */
  predicate AtBoundary(s: seq<Item>, i: nat, a: Acc)
    requires i <= |s|
  {
    && (a.hasTerms || a.poly == 0.0)
    && (a.negate ==> a.hasFactors)
    && (i < |s| && !IsSign(s[i]) ==> !a.hasFactors)
  }

  /** Within a term. */
  lemma {:induction false} TermComputed(s: seq<Item>, from: nat, k: nat, env: Env)
    requires from <= |s| && from <= k <= TermEnd(s, from) && !FoldAcc(s, from, env).hasFactors
    requires forall m :: from <= m < k && s[m].Group? ==> Computed(s[m].items, env) == Value(s[m].items, 0, env)
    ensures var a, b := FoldAcc(s, from, env), FoldAcc(s, k, env);
            && b.poly == a.poly && b.hasTerms == a.hasTerms && b.negate == a.negate
            && (b.hasFactors <==> HasFactor(s, from, k))
            && (if b.hasFactors then b.term == Product(s, from, k, env) else Product(s, from, k, env) == 1.0)
    decreases k
  {
    hide Value, Computed, FoldAcc, Product, HasFactor, TermEnd;
    ProductNext(s, from, k, env);
    if from < k {
      TermComputed(s, from, k - 1, env);
      assert !IsSign(s[k - 1]);
      HasFactorStep(s, from, k);
      FoldNext(s, k - 1, env);
    } else {
      NoFactor(s, k);
    }
  }

  lemma ProductNext(s: seq<Item>, from: nat, k: nat, env: Env)
    requires from <= k <= |s|
    ensures Product(s, from, k, env) == if from == k then 1.0
        else Product(s, from, k - 1, env) * FactorValue(s[k - 1], env)
  {
  }

  lemma NoFactor(s: seq<Item>, k: nat)
    requires k <= |s|
    ensures !HasFactor(s, k, k)
  {
  }

  lemma HasFactorStep(s: seq<Item>, from: nat, k: nat)
    requires from < k <= |s|
    ensures HasFactor(s, from, k) <==> HasFactor(s, from, k - 1) || IsFactor(s[k - 1])
  {
  }

  /** From a term boundary on, the prover adds the value of the rest. */
  lemma {:induction false} RestComputed(s: seq<Item>, i: nat, env: Env)
    requires i <= |s| && WellFormed(s, i) && AtBoundary(s, i, FoldAcc(s, i, env))
    ensures Computed(s, env) == Emit(FoldAcc(s, i, env)).poly + Value(s, i, env)
    decreases s, |s| - i
  {
    hide FoldAcc;
    FoldNext(s, i, env);
    if i == |s| {
    } else if s[i].Plus? {
      RestComputed(s, i + 1, env);
    } else {
      var from := if s[i].Minus? then i + 1 else i;
      var j := TermEnd(s, from);
      forall m | from <= m < j && s[m].Group? ensures Computed(s[m].items, env) == Value(s[m].items, 0, env) {
        ComputedIsValue(s[m].items, env);
      }
      TermComputed(s, from, j, env);
      RestComputed(s, j, env);
    }
  }

  lemma FoldNext(s: seq<Item>, i: nat, env: Env)
    requires i <= |s|
    ensures i < |s| ==> FoldAcc(s, i + 1, env) == StepAcc(FoldAcc(s, i, env), s[i], env)
    ensures FoldAcc(s, 0, env) == START
  {
  }

  /** The prover computes the value of every well-formed expression. */
  lemma {:induction false} ComputedIsValue(s: seq<Item>, env: Env)
    requires WellFormed(s, 0)
    ensures Computed(s, env) == Value(s, 0, env)
    decreases s, |s| + 1
  {
    hide FoldAcc, Computed, WellFormed;
    FoldNext(s, 0, env);
    RestComputed(s, 0, env);
  }
}
