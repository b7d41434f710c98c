/** The compiler's expansion of an expression into monomials, and when it has the expression's value. */
module PolyExpansion {
  import opened PolySpec

  /** A term of the expansion: its constant and its variables. */
  datatype Mono = Mono(coef: int, vars: seq<nat>)

  function VarsValue(vars: seq<nat>, env: Env): real {
    if |vars| == 0 then 1.0 else VarsValue(vars[..|vars| - 1], env) * env(vars[|vars| - 1])
  }

  function MonoValue(m: Mono, env: Env): real {
    m.coef as real * VarsValue(m.vars, env)
  }

  function Sum(s: seq<Mono>, env: Env): real {
    if |s| == 0 then 0.0 else Sum(s[..|s| - 1], env) + MonoValue(s[|s| - 1], env)
  }

  // ----- products of terms -----

  /** No term at all when the constant becomes 0. */
  function ProductTerm(a: Mono, b: Mono): seq<Mono> {
    if a.coef * b.coef == 0 then [] else [Mono(a.coef * b.coef, a.vars + b.vars)]
  }

  function TimesEach(a: Mono, s: seq<Mono>): seq<Mono> {
    if |s| == 0 then [] else TimesEach(a, s[..|s| - 1]) + ProductTerm(a, s[|s| - 1])
  }

  function MultiplyAll(r: seq<Mono>, s: seq<Mono>): seq<Mono> {
    if |r| == 0 then [] else MultiplyAll(r[..|r| - 1], s) + TimesEach(r[|r| - 1], s)
  }

  ghost predicate NonZero(s: seq<Mono>) {
    forall i :: 0 <= i < |s| ==> s[i].coef != 0
  }

  lemma {:induction false} VarsJoin(a: seq<nat>, b: seq<nat>, env: Env)
    ensures VarsValue(a + b, env) == VarsValue(a, env) * VarsValue(b, env)
    decreases |b|
  {
    if |b| == 0 {
      assert a + b == a;
    } else {
      assert (a + b)[..|a + b| - 1] == a + b[..|b| - 1];
      VarsJoin(a, b[..|b| - 1], env);
    }
  }

  lemma {:induction false} SumJoin(a: seq<Mono>, b: seq<Mono>, env: Env)
    ensures Sum(a + b, env) == Sum(a, env) + Sum(b, env)
    decreases |b|
  {
    if |b| == 0 {
      assert a + b == a;
    } else {
      assert (a + b)[..|a + b| - 1] == a + b[..|b| - 1];
      SumJoin(a, b[..|b| - 1], env);
    }
  }

  lemma SumLast(s: seq<Mono>, env: Env)
    requires |s| > 0
    ensures Sum(s, env) == Sum(s[..|s| - 1], env) + MonoValue(s[|s| - 1], env)
  {
  }

  lemma SumNothing(env: Env)
    ensures Sum([], env) == 0.0
  {
  }

  lemma SumOne(m: Mono, env: Env)
    ensures Sum([m], env) == MonoValue(m, env) && Sum([], env) == 0.0
  {
    assert [m][..0] == [];
  }

  lemma ProductTermValue(a: Mono, b: Mono, env: Env)
    ensures Sum(ProductTerm(a, b), env) == MonoValue(a, env) * MonoValue(b, env)
  {
    hide VarsValue;
    var c, x, y := (a.coef * b.coef) as real, VarsValue(a.vars, env), VarsValue(b.vars, env);
    VarsJoin(a.vars, b.vars, env);
    SumOne(Mono(a.coef * b.coef, a.vars + b.vars), env);
    assert c == a.coef as real * b.coef as real;
    Rearrange(a.coef as real, x, b.coef as real, y);
  }

  lemma Rearrange(a: real, x: real, b: real, y: real)
    ensures (a * x) * (b * y) == (a * b) * (x * y)
  {
  }

  lemma {:induction false} TimesEachValue(a: Mono, s: seq<Mono>, env: Env)
    ensures Sum(TimesEach(a, s), env) == MonoValue(a, env) * Sum(s, env)
    decreases |s|
  {
    hide MonoValue, ProductTerm, Sum;
    if |s| > 0 {
      var n := |s| - 1;
      TimesEachValue(a, s[..n], env);
      ProductTermValue(a, s[n], env);
      SumJoin(TimesEach(a, s[..n]), ProductTerm(a, s[n]), env);
      SumLast(s, env);
      DistributeLeft(MonoValue(a, env), Sum(s[..n], env), MonoValue(s[n], env));
    } else {
      SumNothing(env);
    }
  }

  lemma {:induction false} TimesEachShape(a: Mono, s: seq<Mono>)
    requires a.coef != 0 && NonZero(s)
    ensures NonZero(TimesEach(a, s)) && |TimesEach(a, s)| == |s|
    decreases |s|
  {
    if |s| > 0 {
      var n := |s| - 1;
      TimesEachShape(a, s[..n]);
      NonZeroProduct(a.coef, s[n].coef);
    }
  }

  lemma NonZeroProduct(a: int, b: int)
    requires a != 0 && b != 0
    ensures a * b != 0
  {
  }

  lemma {:induction false} MultiplyAllValue(r: seq<Mono>, s: seq<Mono>, env: Env)
    ensures Sum(MultiplyAll(r, s), env) == Sum(r, env) * Sum(s, env)
    decreases |r|
  {
    hide MonoValue, TimesEach, Sum;
    SumNothing(env);
    if |r| > 0 {
      var n := |r| - 1;
      MultiplyAllValue(r[..n], s, env);
      TimesEachValue(r[n], s, env);
      SumJoin(MultiplyAll(r[..n], s), TimesEach(r[n], s), env);
      SumLast(r, env);
      Distribute(Sum(r[..n], env), MonoValue(r[n], env), Sum(s, env));
    }
  }

  /** A product of nonempty expansions is not empty. */
  lemma {:induction false} MultiplyAllShape(r: seq<Mono>, s: seq<Mono>)
    requires NonZero(r) && NonZero(s)
    ensures NonZero(MultiplyAll(r, s)) && |MultiplyAll(r, s)| == |r| * |s|
    decreases |r|
  {
    hide TimesEach;
    if |r| > 0 {
      MultiplyAllShape(r[..|r| - 1], s);
      TimesEachShape(r[|r| - 1], s);
    }
  }

  lemma DistributeLeft(x: real, y: real, z: real)
    ensures x * (y + z) == x * y + x * z
  {
  }

  lemma Distribute(x: real, y: real, z: real)
    ensures (x + y) * z == x * z + y * z
  {
  }

  // ----- collecting terms -----

  /** Variables in order: the key under which like terms are collected. */
  function SortedInsert(x: nat, s: seq<nat>): seq<nat> {
    if |s| == 0 || x >= s[|s| - 1] then s + [x] else SortedInsert(x, s[..|s| - 1]) + [s[|s| - 1]]
  }

  function Sorted(s: seq<nat>): seq<nat> {
    if |s| == 0 then [] else SortedInsert(s[|s| - 1], Sorted(s[..|s| - 1]))
  }

  lemma {:induction false} SortedInsertValue(x: nat, s: seq<nat>, env: Env)
    ensures VarsValue(SortedInsert(x, s), env) == VarsValue(s, env) * env(x)
    decreases |s|
  {
    hide VarsValue;
    if |s| == 0 || x >= s[|s| - 1] {
      VarsLast(s, x, env);
    } else {
      var n := |s| - 1;
      var t := SortedInsert(x, s[..n]);
      SortedInsertValue(x, s[..n], env);
      VarsLast(t, s[n], env);
      VarsLast(s[..n], s[n], env);
      assert s == s[..n] + [s[n]];
      Exchange(VarsValue(s[..n], env), env(x), env(s[n]));
    }
  }

  lemma VarsLast(s: seq<nat>, x: nat, env: Env)
    ensures VarsValue(s + [x], env) == VarsValue(s, env) * env(x)
  {
    assert (s + [x])[..|s|] == s;
  }

  lemma Exchange(x: real, y: real, z: real)
    ensures (x * y) * z == (x * z) * y
  {
  }

  lemma {:induction false} SortedValue(s: seq<nat>, env: Env)
    ensures VarsValue(Sorted(s), env) == VarsValue(s, env)
  {
    hide SortedInsert, VarsValue;
    if |s| > 0 {
      var n := |s| - 1;
      SortedValue(s[..n], env);
      SortedInsertValue(s[n], Sorted(s[..n]), env);
      VarsLast(s[..n], s[n], env);
      assert s == s[..n] + [s[n]];
    }
  }

  predicate Ascends(s: seq<nat>) {
    forall i, j :: 0 <= i < j < |s| ==> s[i] <= s[j]
  }

  ghost predicate UpTo(m: multiset<nat>, x: nat) {
    forall y :: y in m ==> y <= x
  }

  lemma MultisetLast(s: seq<nat>, x: nat)
    ensures multiset(s + [x]) == multiset(s) + multiset{x}
  {
  }

  lemma AscendsLast(s: seq<nat>, x: nat)
    requires Ascends(s) && UpTo(multiset(s), x)
    ensures Ascends(s + [x])
  {
    forall i | 0 <= i < |s| ensures s[i] <= x { assert s[i] in multiset(s); }
  }

  lemma AscendsLess(s: seq<nat>)
    requires |s| > 0 && Ascends(s)
    ensures s == s[..|s| - 1] + [s[|s| - 1]] && Ascends(s[..|s| - 1])
    ensures multiset(s) == multiset(s[..|s| - 1]) + multiset{s[|s| - 1]} && s[|s| - 1] in multiset(s)
    ensures UpTo(multiset(s), s[|s| - 1]) && UpTo(multiset(s[..|s| - 1]), s[|s| - 1])
  {
    MultisetLast(s[..|s| - 1], s[|s| - 1]);
  }

  lemma UpToMore(m: multiset<nat>, x: nat, y: nat)
    requires UpTo(m, y) && x <= y
    ensures UpTo(m + multiset{x}, y)
  {
  }

  lemma CancelOne(a: multiset<nat>, b: multiset<nat>, x: nat)
    requires a + multiset{x} == b + multiset{x}
    ensures a == b
  {
    assert a == (a + multiset{x}) - multiset{x};
    assert b == (b + multiset{x}) - multiset{x};
  }

  lemma Swapped(a: multiset<nat>, x: nat, y: nat)
    ensures a + multiset{x} + multiset{y} == a + multiset{y} + multiset{x}
  {
  }

  lemma {:induction false} SortedInsertAscends(x: nat, s: seq<nat>)
    requires Ascends(s)
    ensures Ascends(SortedInsert(x, s)) && multiset(SortedInsert(x, s)) == multiset(s) + multiset{x}
    decreases |s|
  {
    hide Ascends, UpTo;
    MultisetLast(s, x);
    if |s| == 0 {
      Alone(s, x);
    } else {
      var n := |s| - 1;
      AscendsLess(s);
      if x >= s[n] {
        UpToLarger(multiset(s), s[n], x);
        AscendsLast(s, x);
      } else {
        SortedInsertAscends(x, s[..n]);
        MultisetLast(SortedInsert(x, s[..n]), s[n]);
        UpToMore(multiset(s[..n]), x, s[n]);
        AscendsLast(SortedInsert(x, s[..n]), s[n]);
        Swapped(multiset(s[..n]), x, s[n]);
      }
    }
  }

  lemma Alone(s: seq<nat>, x: nat)
    requires |s| == 0
    ensures Ascends(s + [x])
  {
  }

  lemma UpToLarger(m: multiset<nat>, x: nat, y: nat)
    requires UpTo(m, x) && x <= y
    ensures UpTo(m, y)
  {
  }

  lemma {:induction false} SortedAscends(s: seq<nat>)
    ensures Ascends(Sorted(s)) && multiset(Sorted(s)) == multiset(s)
  {
    hide SortedInsert;
    if |s| > 0 {
      var n := |s| - 1;
      assert s == s[..n] + [s[n]];
      MultisetLast(s[..n], s[n]);
      SortedAscends(s[..n]);
      SortedInsertAscends(s[n], Sorted(s[..n]));
    }
  }

  /** Ascending sequences of the same elements are the same. */
  lemma {:induction false} AscendingUnique(s: seq<nat>, t: seq<nat>)
    requires Ascends(s) && Ascends(t) && multiset(s) == multiset(t)
    ensures s == t
    decreases |s|
  {
    hide Ascends;
    assert |s| == |multiset(s)| && |t| == |multiset(t)|;
    if |s| > 0 {
      var n := |s| - 1;
      AscendsLess(s);
      AscendsLess(t);
      CancelOne(multiset(s[..n]), multiset(t[..n]), s[n]);
      AscendingUnique(s[..n], t[..n]);
    }
  }

  /** The variables of every term ascend, and no two terms have the same variables, in whatever order. */
  ghost predicate Collected(s: seq<Mono>) {
    && (forall i :: 0 <= i < |s| ==> Ascends(s[i].vars))
    && (forall i, j :: 0 <= i < j < |s| ==> multiset(s[i].vars) != multiset(s[j].vars))
  }

  /** The entry with the given variables, or -1. */
  function Find(s: seq<Mono>, key: seq<nat>): (k: int)
    ensures -1 <= k < |s| && (k >= 0 ==> s[k].vars == key)
    ensures k < 0 ==> forall i :: 0 <= i < |s| ==> s[i].vars != key
  {
    if |s| == 0 then -1 else if s[|s| - 1].vars == key then |s| - 1 else Find(s[..|s| - 1], key)
  }

  /** Adds a term to a collection in which like terms are merged and zero terms dropped. */
  function AddTerm(s: seq<Mono>, m: Mono): seq<Mono> {
    var key := Sorted(m.vars);
    var k := Find(s, key);
    if k < 0 then s + [Mono(m.coef, key)] else
      var c := s[k].coef + m.coef;
      s[..k] + s[k + 1..] + if c != 0 then [Mono(c, key)] else []
  }

  lemma AddTermValue(s: seq<Mono>, m: Mono, env: Env)
    ensures Sum(AddTerm(s, m), env) == Sum(s, env) + MonoValue(m, env)
    ensures NonZero(s) && m.coef != 0 ==> NonZero(AddTerm(s, m))
  {
    hide Sum, VarsValue, Find;
    var key := Sorted(m.vars);
    var k := Find(s, key);
    SortedValue(m.vars, env);
    if k < 0 {
      SumJoin(s, [Mono(m.coef, key)], env);
      SumOne(Mono(m.coef, key), env);
    } else {
      var c := s[k].coef + m.coef;
      assert s == s[..k] + [s[k]] + s[k + 1..];
      SumJoin(s[..k] + [s[k]], s[k + 1..], env);
      SumJoin(s[..k], [s[k]], env);
      SumOne(s[k], env);
      SumJoin(s[..k], s[k + 1..], env);
      SumJoin(s[..k] + s[k + 1..], if c != 0 then [Mono(c, key)] else [], env);
      SumOne(Mono(c, key), env);
      Distribute(s[k].coef as real, m.coef as real, VarsValue(key, env));
    }
  }

  /** No term has the given variables. */
  ghost predicate Lacks(s: seq<Mono>, key: seq<nat>) {
    forall i :: 0 <= i < |s| ==> multiset(s[i].vars) != multiset(key)
  }

  lemma CollectedLess(s: seq<Mono>, k: nat)
    requires Collected(s) && k < |s|
    ensures Collected(s[..k] + s[k + 1..]) && Lacks(s[..k] + s[k + 1..], s[k].vars)
  {
    hide Ascends;
    var rest := s[..k] + s[k + 1..];
    assert forall i :: 0 <= i < |rest| ==> rest[i] == if i < k then s[i] else s[i + 1];
  }

  lemma CollectedMore(s: seq<Mono>, m: Mono)
    requires Collected(s) && Ascends(m.vars) && Lacks(s, m.vars)
    ensures Collected(s + [m])
  {
    hide Ascends;
  }

  lemma AddTermCollects(s: seq<Mono>, m: Mono)
    requires Collected(s)
    ensures Collected(AddTerm(s, m))
  {
    hide Find, Ascends, Collected, Sorted;
    var key := Sorted(m.vars);
    var k := Find(s, key);
    SortedAscends(m.vars);
    if k < 0 {
      NotFound(s, key);
      CollectedMore(s, Mono(m.coef, key));
    } else {
      CollectedLess(s, k);
      var rest, c := s[..k] + s[k + 1..], s[k].coef + m.coef;
      CollectedMore(rest, Mono(c, key));
      assert rest + [] == rest;
    }
  }

  lemma NotFound(s: seq<Mono>, key: seq<nat>)
    requires Collected(s) && Ascends(key) && Find(s, key) < 0
    ensures Lacks(s, key)
  {
    hide Ascends, Find;
    forall i | 0 <= i < |s| ensures multiset(s[i].vars) != multiset(key) {
      if multiset(s[i].vars) == multiset(key) { AscendingUnique(s[i].vars, key); }
    }
  }

  lemma {:induction false} AddAllCollects(s: seq<Mono>, terms: seq<Mono>)
    requires Collected(s)
    ensures Collected(AddAll(s, terms))
    decreases |terms|
  {
    hide AddTerm, Collected;
    if |terms| > 0 {
      AddAllCollects(s, terms[..|terms| - 1]);
      AddTermCollects(AddAll(s, terms[..|terms| - 1]), terms[|terms| - 1]);
    }
  }

  function AddAll(s: seq<Mono>, terms: seq<Mono>): seq<Mono> {
    if |terms| == 0 then s else AddTerm(AddAll(s, terms[..|terms| - 1]), terms[|terms| - 1])
  }

  lemma {:induction false} AddAllValue(s: seq<Mono>, terms: seq<Mono>, env: Env)
    ensures Sum(AddAll(s, terms), env) == Sum(s, env) + Sum(terms, env)
    ensures NonZero(s) && NonZero(terms) ==> NonZero(AddAll(s, terms))
    decreases |terms|
  {
    hide MonoValue, AddTerm;
    if |terms| > 0 {
      AddAllValue(s, terms[..|terms| - 1], env);
      AddTermValue(AddAll(s, terms[..|terms| - 1]), terms[|terms| - 1], env);
    }
  }

  // ----- the expansion -----

  /** The variables of the compiler's loop: the product of the current term, and the terms collected before it. */
  datatype Exp = Exp(multiply: seq<Mono>, expansion: seq<Mono>)

  function TakeExpansion(multiply: seq<Mono>, sub: seq<Mono>): seq<Mono> {
    if multiply == [] then sub else MultiplyAll(multiply, sub)
  }

  /** A single constant or variable multiplies from the left. */
  function TakeToken(multiply: seq<Mono>, token: Mono): seq<Mono> {
    if multiply == [] then ProductTerm(Mono(1, []), token) else TimesEach(token, multiply)
  }

  function Flush(e: Exp): seq<Mono> {
    AddAll(e.expansion, e.multiply)
  }

  function StepExp(e: Exp, it: Item): Exp
    decreases it, 1
  {
    match it
    case Plus => Exp([], Flush(e))
    case Minus => Exp([Mono(-1, [])], Flush(e))
    case Times => e
    case Lit(c) => e.(multiply := TakeToken(e.multiply, Mono(c, [])))
    case Var(x) => e.(multiply := TakeToken(e.multiply, Mono(1, [x])))
    case Group(g) => e.(multiply := TakeExpansion(e.multiply, Expanded(g)))
  }

  function FoldExp(s: seq<Item>, i: nat): Exp
    requires i <= |s|
    decreases s, 0, i
  {
    if i == 0 then Exp([], []) else StepExp(FoldExp(s, i - 1), s[i - 1])
  }

  function Expanded(s: seq<Item>): seq<Mono>
    decreases s, 1
  {
    Flush(FoldExp(s, |s|))
  }

  lemma {:induction false} FoldCollects(s: seq<Item>, i: nat)
    requires i <= |s|
    ensures Collected(FoldExp(s, i).expansion)
    decreases i
  {
    hide Collected, AddAll;
    if i > 0 {
      FoldCollects(s, i - 1);
      AddAllCollects(FoldExp(s, i - 1).expansion, FoldExp(s, i - 1).multiply);
    } else {
      NothingCollected();
    }
  }

  lemma NothingCollected()
    ensures Collected([])
  {
  }

  /** Like terms are merged, whatever the order of their factors. */
  lemma ExpandedCollects(s: seq<Item>)
    ensures Collected(Expanded(s))
  {
    hide Collected, AddAll, FoldExp;
    FoldCollects(s, |s|);
    AddAllCollects(FoldExp(s, |s|).expansion, FoldExp(s, |s|).multiply);
  }

  /** A factor whose own expansion has no terms. */
  predicate Vanishes(it: Item) {
    it == Lit(0) || (it.Group? && Expanded(it.items) == [])
  }

  /** Where the factors after the last vanishing one in s[i..j] start: at `i` if none vanishes. */
  function Survivors(s: seq<Item>, i: nat, j: nat): (f: nat)
    requires i <= j <= |s|
    ensures i <= f <= j && (f > i ==> Vanishes(s[f - 1])) && forall k :: f <= k < j ==> !Vanishes(s[k])
    decreases j
  {
    if i == j then i else if Vanishes(s[j - 1]) then j else Survivors(s, i, j - 1)
  }

  /** What the expansion of a factor sums to. */
  function ExpandedFactor(it: Item, env: Env): real
    decreases it, 1
  {
    match it
    case Lit(c) => c as real
    case Var(x) => env(x)
    case Group(g) => ExpandedValue(g, 0, env)
    case _ => 1.0
  }

  function ExpandedProduct(s: seq<Item>, i: nat, j: nat, env: Env): real
    requires i <= j <= |s|
    decreases s, 0, j
  {
    if i == j then 1.0 else ExpandedProduct(s, i, j - 1, env) * ExpandedFactor(s[j - 1], env)
  }

  /**
   What the expansion of the term s[i..j] sums to: the signed product if no factor vanishes; otherwise the product,
   without the sign, of the factors after the last vanishing one, and 0 if that is the last factor.
   */
  function ExpandedTerm(s: seq<Item>, i: nat, j: nat, negated: bool, env: Env): real
    requires i <= j <= |s|
    decreases s, 1
  {
    var f := Survivors(s, i, j);
    if f > i && !HasFactor(s, f, j) then 0.0
    else if f == i && negated then -ExpandedProduct(s, i, j, env)
    else ExpandedProduct(s, f, j, env)
  }

  /** What the expansion of the terms from `i` on sums to. */
  function ExpandedValue(s: seq<Item>, i: nat, env: Env): real
    requires i <= |s|
    decreases s, 2, |s| - i
  {
    if i == |s| then 0.0
    else if s[i].Plus? then ExpandedValue(s, i + 1, env)
    else
      var from := if s[i].Minus? then i + 1 else i;
      var j := TermEnd(s, from);
      ExpandedTerm(s, from, j, s[i].Minus?, env) + ExpandedValue(s, j, env)
  }

  lemma FoldExpNext(s: seq<Item>, i: nat)
    requires i <= |s|
    ensures i < |s| ==> FoldExp(s, i + 1) == StepExp(FoldExp(s, i), s[i])
    ensures FoldExp(s, 0) == Exp([], [])
  {
  }

  lemma ExpandedProductNext(s: seq<Item>, i: nat, j: nat, env: Env)
    requires i <= j <= |s|
    ensures ExpandedProduct(s, i, j, env) ==
            if i == j then 1.0 else ExpandedProduct(s, i, j - 1, env) * ExpandedFactor(s[j - 1], env)
  {
  }

  lemma SurvivorsNext(s: seq<Item>, i: nat, j: nat)
    requires i < j <= |s|
    ensures Survivors(s, i, j) == if Vanishes(s[j - 1]) then j else Survivors(s, i, j - 1)
  {
    hide Vanishes;
  }

  ghost predicate StartsTerm(start: seq<Mono>) {
    start == [] || start == [Mono(-1, [])]
  }

  /** The compiler's product of the factors s[from..k] of a term that began with `start`. */
  ghost predicate TermState(s: seq<Item>, from: nat, k: nat, start: seq<Mono>, m: seq<Mono>, env: Env)
    requires from <= k <= |s|
  {
    var f := Survivors(s, from, k);
    && NonZero(m)
    && (!HasFactor(s, f, k) ==> m == if f == from then start else [])
    && (HasFactor(s, f, k) ==> m != [])
    && (HasFactor(s, f, k) && (f > from || start == []) ==> Sum(m, env) == ExpandedProduct(s, f, k, env))
    && (HasFactor(s, f, k) && f == from && start != [] ==> Sum(m, env) == -ExpandedProduct(s, f, k, env))
  }

  /** One factor: its expansion has its value, and is empty exactly when the factor vanishes. */
  function FactorExpansion(it: Item): seq<Mono> {
    match it
    case Lit(c) => if c == 0 then [] else [Mono(c, [])]
    case Var(x) => [Mono(1, [x])]
    case Group(g) => Expanded(g)
    case _ => []
  }

  lemma FactorExpansionValue(it: Item, env: Env)
    requires IsFactor(it) && (it.Group? ==>
        Sum(Expanded(it.items), env) == ExpandedValue(it.items, 0, env) && NonZero(Expanded(it.items)))
    ensures Sum(FactorExpansion(it), env) == ExpandedFactor(it, env) && NonZero(FactorExpansion(it))
    ensures FactorExpansion(it) == [] <==> Vanishes(it)
  {
    hide Expanded, ExpandedValue;
    match it
    case Lit(c) =>
      SumOne(Mono(c, []), env);
      assert VarsValue([], env) == 1.0;
    case Var(x) =>
      SumOne(Mono(1, [x]), env);
      assert [x][..0] == [];
      assert VarsValue([x], env) == VarsValue([], env) * env(x);
      assert VarsValue([], env) == 1.0;
    case Group(g) =>
  }

  /** Taking a factor multiplies by its expansion, or starts with it. */
  lemma TakeValue(e: Exp, it: Item, env: Env)
    requires IsFactor(it) && NonZero(e.multiply) && NonZero(FactorExpansion(it))
    ensures var m, f := StepExp(e, it).multiply, FactorExpansion(it);
            && NonZero(m) && StepExp(e, it).expansion == e.expansion
            && (f == [] ==> m == [])
            && (e.multiply == [] ==> Sum(m, env) == Sum(f, env) && (m == [] <==> f == []))
            && (e.multiply != [] ==> Sum(m, env) == Sum(e.multiply, env) * Sum(f, env) && (m == [] <==> f == []))
  {
    hide Expanded, Sum, MultiplyAll, TakeToken;
    match it
    case Group(g) =>
      MultiplyAllValue(e.multiply, Expanded(g), env);
      MultiplyAllShape(e.multiply, Expanded(g));
      if e.multiply != [] && Expanded(g) != [] { PositiveProduct(|e.multiply|, |Expanded(g)|); }
    case Lit(c) =>
      TokenValue(e.multiply, Mono(c, []), env);
    case Var(x) =>
      TokenValue(e.multiply, Mono(1, [x]), env);
  }

  lemma PositiveProduct(a: int, b: int)
    requires a > 0 && b > 0
    ensures a * b > 0
  {
  }

  lemma TokenValue(m: seq<Mono>, t: Mono, env: Env)
    requires NonZero(m)
    ensures var f := if t.coef == 0 then [] else [t];
            && NonZero(TakeToken(m, t)) && (TakeToken(m, t) == [] <==> f == [])
            && Sum(TakeToken(m, t), env) == if m == [] then Sum(f, env) else Sum(m, env) * Sum(f, env)
  {
    hide Sum;
    SumOne(t, env);
    if m == [] {
      assert [] + t.vars == t.vars;
    } else if t.coef == 0 {
      TimesZero(t, m);
    } else {
      TimesEachValue(t, m, env);
      TimesEachShape(t, m);
    }
  }

  lemma {:induction false} TimesZero(t: Mono, m: seq<Mono>)
    requires t.coef == 0
    ensures TimesEach(t, m) == []
  {
    if |m| > 0 { TimesZero(t, m[..|m| - 1]); }
  }

  lemma {:induction false} NoFactorProduct(s: seq<Item>, i: nat, k: nat, env: Env)
    requires i <= k <= |s| && !HasFactor(s, i, k)
    requires forall m :: i <= m < k ==> !IsSign(s[m])
    ensures ExpandedProduct(s, i, k, env) == 1.0
    decreases k
  {
    ExpandedProductNext(s, i, k, env);
    if i < k {
      HasFactorStep(s, i, k);
      NoFactorProduct(s, i, k - 1, env);
    }
  }

  lemma MinusOne(env: Env)
    ensures Sum([Mono(-1, [])], env) == -1.0
  {
    SumOne(Mono(-1, []), env);
    assert VarsValue([], env) == 1.0;
  }

  /** The effect of one factor on the state of a term. */
  lemma TermFactor(s: seq<Item>, from: nat, k: nat, start: seq<Mono>, e: Exp, env: Env)
    requires from < k <= |s| && IsFactor(s[k - 1]) && StartsTerm(start)
    requires forall m :: from <= m < k ==> !IsSign(s[m])
    requires TermState(s, from, k - 1, start, e.multiply, env)
    requires s[k - 1].Group? ==>
        Sum(Expanded(s[k - 1].items), env) == ExpandedValue(s[k - 1].items, 0, env) &&
        NonZero(Expanded(s[k - 1].items))
    ensures TermState(s, from, k, start, StepExp(e, s[k - 1]).multiply, env) &&
        StepExp(e, s[k - 1]).expansion == e.expansion
  {
    hide Sum, ExpandedProduct, Expanded, StepExp, FactorExpansion, HasFactor, Survivors, ExpandedFactor, ExpandedValue,
        Vanishes;
    var it, f := s[k - 1], Survivors(s, from, k - 1);
    SurvivorsNext(s, from, k);
    HasFactorStep(s, f, k);
    NoFactor(s, k);
    ExpandedProductNext(s, f, k, env);
    FactorExpansionValue(it, env);
    TakeValue(e, it, env);
    MinusOne(env);
    if !HasFactor(s, f, k - 1) { NoFactorProduct(s, f, k - 1, env); }
  }

  lemma {:induction false} TermExpanded(s: seq<Item>, from: nat, k: nat, start: seq<Mono>, env: Env)
    requires from <= |s| && from <= k <= TermEnd(s, from) && StartsTerm(start) && FoldExp(s, from).multiply == start
    requires forall m :: from <= m < k && s[m].Group? ==>
               Sum(Expanded(s[m].items), env) == ExpandedValue(s[m].items, 0, env) && NonZero(Expanded(s[m].items))
    ensures FoldExp(s, k).expansion == FoldExp(s, from).expansion
    ensures TermState(s, from, k, start, FoldExp(s, k).multiply, env)
    decreases k
  {
    hide Sum, Expanded, FoldExp, ExpandedProduct, ExpandedValue, TermEnd, HasFactor, ExpandedFactor, Vanishes;
    if from == k {
      NoFactor(s, k);
      assert NonZero(start);
    } else {
      TermExpanded(s, from, k - 1, start, env);
      FoldExpNext(s, k - 1);
      if IsFactor(s[k - 1]) {
        TermFactor(s, from, k, start, FoldExp(s, k - 1), env);
      } else {
        assert s[k - 1].Times?;
        TimesStays(s, from, k, start, FoldExp(s, k - 1).multiply, env);
      }
    }
  }

  lemma TimesStays(s: seq<Item>, from: nat, k: nat, start: seq<Mono>, m: seq<Mono>, env: Env)
    requires from < k <= |s| && s[k - 1].Times? && TermState(s, from, k - 1, start, m, env)
    ensures TermState(s, from, k, start, m, env)
  {
    hide Sum, ExpandedProduct, HasFactor, Survivors, Expanded;
    var f := Survivors(s, from, k - 1);
    SurvivorsNext(s, from, k);
    HasFactorStep(s, f, k);
    ExpandedProductNext(s, f, k, env);
  }

  /** A finished term. */
  lemma TermSum(s: seq<Item>, from: nat, j: nat, start: seq<Mono>, m: seq<Mono>, env: Env)
    requires from <= j <= |s| && HasFactor(s, from, j) && StartsTerm(start) && TermState(s, from, j, start, m, env)
    ensures Sum(m, env) == ExpandedTerm(s, from, j, start != [], env)
  {
    hide ExpandedProduct, HasFactor, Survivors, Sum;
    SumNothing(env);
  }

  ghost predicate ExpBoundary(s: seq<Item>, i: nat, e: Exp)
    requires i <= |s|
  {
    NonZero(e.multiply) && NonZero(e.expansion) && (i < |s| && !IsSign(s[i]) ==> e.multiply == [])
  }

  /** From a term boundary on, the compiler adds what the rest expands to. */
  lemma {:induction false} RestExpanded(s: seq<Item>, i: nat, env: Env)
    requires i <= |s| && WellFormed(s, i) && ExpBoundary(s, i, FoldExp(s, i))
    ensures Sum(Expanded(s), env) == Sum(Flush(FoldExp(s, i)), env) + ExpandedValue(s, i, env) && NonZero(Expanded(s))
    decreases s, |s| - i
  {
    hide FoldExp, Sum, AddAll, ExpandedTerm, HasFactor;
    FoldExpNext(s, i);
    var e := FoldExp(s, i);
    AddAllValue(e.expansion, e.multiply, env);
    if i == |s| {
    } else if s[i].Plus? {
      FlushedAgain(e, env);
      RestExpanded(s, i + 1, env);
    } else {
      var from := if s[i].Minus? then i + 1 else i;
      var start := if s[i].Minus? then [Mono(-1, [])] else [];
      var j := TermEnd(s, from);
      FlushedAgain(e, env);
      ExpandGroups(s, i, from, j, env);
      TermExpanded(s, from, j, start, env);
      TermSum(s, from, j, start, FoldExp(s, j).multiply, env);
      AddAllValue(FoldExp(s, j).expansion, FoldExp(s, j).multiply, env);
      RestExpanded(s, j, env);
    }
  }

  lemma FlushedAgain(e: Exp, env: Env)
    requires NonZero(e.multiply) && NonZero(e.expansion)
    ensures NonZero(Flush(e)) && AddAll(Flush(e), []) == Flush(e)
    ensures e.multiply == [] ==> Flush(e) == e.expansion
  {
    AddAllValue(e.expansion, e.multiply, env);
  }

  lemma {:induction false} ExpandGroups(s: seq<Item>, i: nat, from: nat, j: nat, env: Env)
    requires i <= from <= j <= |s| && i < |s|
    requires forall m :: from <= m < j && s[m].Group? ==> WellFormed(s[m].items, 0)
    ensures forall m :: from <= m < j && s[m].Group? ==>
              Sum(Expanded(s[m].items), env) == ExpandedValue(s[m].items, 0, env) && NonZero(Expanded(s[m].items))
    decreases s, |s| - i, 0
  {
    hide Expanded, ExpandedValue, Sum, WellFormed;
    forall m | from <= m < j && s[m].Group?
      ensures Sum(Expanded(s[m].items), env) == ExpandedValue(s[m].items, 0, env) && NonZero(Expanded(s[m].items))
    {
      ExpandedSum(s[m].items, env);
    }
  }

  /** What the expansion of every well-formed expression sums to. */
  lemma {:induction false} ExpandedSum(s: seq<Item>, env: Env)
    requires WellFormed(s, 0)
    ensures Sum(Expanded(s), env) == ExpandedValue(s, 0, env) && NonZero(Expanded(s))
    decreases s, |s| + 1
  {
    hide FoldExp, Expanded, WellFormed;
    FoldExpNext(s, 0);
    RestExpanded(s, 0, env);
    SumNothing(env);
    assert Flush(Exp([], [])) == [];
  }

  // ----- when the expansion has the value -----

  /** The groups in s[i..j] expand to their values. */
  ghost predicate GroupsAgree(s: seq<Item>, i: nat, j: nat, env: Env)
    requires i <= j <= |s|
  {
    forall k :: i <= k < j && s[k].Group? ==>
      WellFormed(s[k].items, 0) && ExpandedValue(s[k].items, 0, env) == Value(s[k].items, 0, env)
  }

  lemma {:induction false} ProductAgrees(s: seq<Item>, i: nat, j: nat, env: Env)
    requires i <= j <= |s| && GroupsAgree(s, i, j, env)
    ensures ExpandedProduct(s, i, j, env) == Product(s, i, j, env)
    decreases j
  {
    hide ExpandedValue, Value, WellFormed;
    ProductNext(s, i, j, env);
    ExpandedProductNext(s, i, j, env);
    if i < j { ProductAgrees(s, i, j - 1, env); }
  }

  lemma {:induction false} ProductVanishes(s: seq<Item>, i: nat, k: nat, j: nat, env: Env)
    requires i <= k < j <= |s| && FactorValue(s[k], env) == 0.0
    ensures Product(s, i, j, env) == 0.0
    decreases j
  {
    ProductNext(s, i, j, env);
    if k < j - 1 { ProductVanishes(s, i, k, j - 1, env); }
  }

  /** A vanishing factor that agrees has the value 0. */
  lemma VanishingIsZero(it: Item, env: Env)
    requires Vanishes(it)
    requires it.Group? ==> WellFormed(it.items, 0) && ExpandedValue(it.items, 0, env) == Value(it.items, 0, env)
    ensures FactorValue(it, env) == 0.0
  {
    hide Expanded, ExpandedValue, Value, WellFormed;
    if it.Group? {
      ExpandedSum(it.items, env);
      SumNothing(env);
    }
  }

  /** What the expansion of a term has in excess of its value: the factors after the last vanishing one. */
  function TermExcess(s: seq<Item>, i: nat, j: nat, env: Env): real
    requires i <= j <= |s|
  {
    var f := Survivors(s, i, j);
    if f > i && HasFactor(s, f, j) then Product(s, f, j, env) else 0.0
  }

  function SignedProduct(s: seq<Item>, i: nat, j: nat, negated: bool, env: Env): real
    requires i <= j <= |s|
  {
    if negated then -Product(s, i, j, env) else Product(s, i, j, env)
  }

  lemma TermDiffers(s: seq<Item>, i: nat, j: nat, negated: bool, env: Env)
    requires i <= j <= |s| && GroupsAgree(s, i, j, env)
    ensures ExpandedTerm(s, i, j, negated, env) == SignedProduct(s, i, j, negated, env) + TermExcess(s, i, j, env)
  {
    hide ExpandedProduct, Product, HasFactor, Survivors, ExpandedValue, Value, WellFormed, FactorValue, Vanishes;
    var f := Survivors(s, i, j);
    ProductAgrees(s, i, j, env);
    ProductAgrees(s, f, j, env);
    if f > i {
      VanishingIsZero(s[f - 1], env);
      ProductVanishes(s, i, f - 1, j, env);
    }
  }

  /**
   Term by term: where its groups agree, a term expands to its value exactly when no factor vanishes, or no factor
   follows the last vanishing one, or the product of those that follow happens to be 0.
   */
  lemma TermAgrees(s: seq<Item>, i: nat, j: nat, negated: bool, env: Env)
    requires i <= j <= |s| && GroupsAgree(s, i, j, env)
    ensures var f := Survivors(s, i, j);
            ExpandedTerm(s, i, j, negated, env) == SignedProduct(s, i, j, negated, env) <==>
            f == i || !HasFactor(s, f, j) || Product(s, f, j, env) == 0.0
  {
    hide ExpandedTerm, SignedProduct, HasFactor, Survivors, GroupsAgree, Product;
    TermDiffers(s, i, j, negated, env);
  }

  /** The excess of all terms from `i` on. */
  function Excess(s: seq<Item>, i: nat, env: Env): real
    requires i <= |s|
    decreases |s| - i
  {
    if i == |s| then 0.0
    else if s[i].Plus? then Excess(s, i + 1, env)
    else
      var from := if s[i].Minus? then i + 1 else i;
      var j := TermEnd(s, from);
      TermNotEmpty(s, i);
      TermExcess(s, from, j, env) + Excess(s, j, env)
  }

  lemma {:induction false} RestDiffers(s: seq<Item>, i: nat, env: Env)
    requires i <= |s| && GroupsAgree(s, i, |s|, env)
    ensures ExpandedValue(s, i, env) == Value(s, i, env) + Excess(s, i, env)
    decreases |s| - i
  {
    hide ExpandedTerm, Product, TermExcess;
    if i == |s| {
    } else if s[i].Plus? {
      RestDiffers(s, i + 1, env);
    } else {
      var from := if s[i].Minus? then i + 1 else i;
      var j := TermEnd(s, from);
      TermNotEmpty(s, i);
      TermDiffers(s, from, j, s[i].Minus?, env);
      RestDiffers(s, j, env);
    }
  }

  /**
   The whole expression: where its groups agree, the two evaluators differ by the excess of its terms, so they agree
   exactly when that excess is 0.
   */
  lemma EvaluatorsDiffer(s: seq<Item>, env: Env)
    requires WellFormed(s, 0) && GroupsAgree(s, 0, |s|, env)
    ensures Sum(Expanded(s), env) == Computed(s, env) + Excess(s, 0, env)
    ensures Sum(Expanded(s), env) == Computed(s, env) <==> Excess(s, 0, env) == 0.0
  {
    hide Expanded, Computed, WellFormed, Excess, GroupsAgree, ExpandedValue, Value;
    ExpandedSum(s, env);
    ComputedIsValue(s, env);
    RestDiffers(s, 0, env);
  }

  /** A term with a vanishing factor ends with one; in this and every group. */
  predicate Kept(s: seq<Item>, i: nat)
    requires i <= |s|
    decreases s, |s| - i
  {
    if i == |s| then true
    else if s[i].Plus? then Kept(s, i + 1)
    else
      var from := if s[i].Minus? then i + 1 else i;
      var j := TermEnd(s, from);
      var f := Survivors(s, from, j);
      && (f > from ==> !HasFactor(s, f, j))
      && (forall k :: from <= k < j && s[k].Group? ==> Kept(s[k].items, 0))
      && Kept(s, j)
  }

  ghost predicate SignBetween(s: seq<Item>, a: nat, b: nat)
    requires a <= b <= |s|
  {
    exists c :: a < c < b && IsSign(s[c])
  }

  /** In the term of item `a` some factor from `b` on vanishes. */
  ghost predicate VanishesAgain(s: seq<Item>, a: nat, b: nat)
    requires a <= b <= |s|
  {
    exists c :: b <= c < |s| && Vanishes(s[c]) && !SignBetween(s, a, c)
  }

  /** After a vanishing factor and another one in the same term, the term has a vanishing one again. */
  ghost predicate PairsKept(s: seq<Item>, i: nat)
    requires i <= |s|
  {
    forall a, b :: i <= a < b < |s| && Vanishes(s[a]) && IsFactor(s[b]) ==>
      SignBetween(s, a, b) || VanishesAgain(s, a, b)
  }

  lemma {:induction false} TermKept(s: seq<Item>, i: nat, j: nat)
    requires i <= j <= |s| && forall k :: i <= k < j ==> !IsSign(s[k])
    requires j < |s| ==> IsSign(s[j])
    ensures var f := Survivors(s, i, j);
            (f > i ==> !HasFactor(s, f, j)) <==>
            forall a, b :: i <= a < b < j && Vanishes(s[a]) && IsFactor(s[b]) ==> VanishesAgain(s, a, b)
  {
    hide Vanishes, Survivors;
    var f := Survivors(s, i, j);
    if f > i && HasFactor(s, f, j) {
      var b :| f <= b < j && IsFactor(s[b]);
      if VanishesAgain(s, f - 1, b) {
        var c :| b <= c < |s| && Vanishes(s[c]) && !SignBetween(s, f - 1, c);
        SignsVanishNot(s, c);
        assert false;
      }
    } else {
      forall a, b | i <= a < b < j && Vanishes(s[a]) && IsFactor(s[b]) ensures VanishesAgain(s, a, b) {
        assert Vanishes(s[f - 1]) && !SignBetween(s, a, f - 1);
      }
    }
  }

  lemma SignsVanishNot(s: seq<Item>, i: nat)
    requires i < |s|
    ensures IsSign(s[i]) ==> !Vanishes(s[i])
  {
  }

  /** The pairs of a term and those of the rest. */
  lemma TermApart(s: seq<Item>, i: nat, from: nat, j: nat)
    requires i <= from <= j <= |s| && from <= i + 1 && (from == i + 1 ==> IsSign(s[i]))
    requires (forall k :: from <= k < j ==> !IsSign(s[k])) && (j < |s| ==> IsSign(s[j]))
    ensures PairsKept(s, i) <==>
      && PairsKept(s, j)
      && forall a, b :: from <= a < b < j && Vanishes(s[a]) && IsFactor(s[b]) ==> VanishesAgain(s, a, b)
  {
    hide Vanishes, VanishesAgain;
    if from == i + 1 { SignsVanishNot(s, i); }
    forall a, b | from <= a < j < b < |s| ensures SignBetween(s, a, b) {
      assert IsSign(s[j]);
    }
    forall a, b | from <= a < b < j ensures !SignBetween(s, a, b) {}
  }

  /** What the condition asks of each pair of factors of a term. */
  lemma {:induction false} KeptFrom(s: seq<Item>, i: nat)
    requires i <= |s|
    ensures Kept(s, i) <==> PairsKept(s, i) && forall k :: i <= k < |s| && s[k].Group? ==> Kept(s[k].items, 0)
    decreases |s| - i
  {
    hide Vanishes, Survivors, HasFactor, PairsKept, VanishesAgain;
    if i == |s| {
      assert PairsKept(s, i) by { NoPairs(s); }
    } else if s[i].Plus? {
      KeptFrom(s, i + 1);
      SignFirst(s, i);
    } else {
      var from := if s[i].Minus? then i + 1 else i;
      var j := TermEnd(s, from);
      TermNotEmpty(s, i);
      KeptFrom(s, j);
      TermKept(s, from, j);
      TermApart(s, i, from, j);
    }
  }

  lemma NoPairs(s: seq<Item>)
    ensures PairsKept(s, |s|)
  {
  }

  lemma SignFirst(s: seq<Item>, i: nat)
    requires i < |s| && IsSign(s[i])
    ensures PairsKept(s, i) <==> PairsKept(s, i + 1)
  {
    hide Vanishes, VanishesAgain;
    SignsVanishNot(s, i);
  }

  lemma {:induction false} RestAgrees(s: seq<Item>, i: nat, env: Env)
    requires i <= |s| && WellFormed(s, i) && Kept(s, i)
    ensures ExpandedValue(s, i, env) == Value(s, i, env)
    decreases s, |s| - i
  {
    hide ExpandedTerm, Product, HasFactor, Survivors;
    if i == |s| {
    } else if s[i].Plus? {
      RestAgrees(s, i + 1, env);
    } else {
      var from := if s[i].Minus? then i + 1 else i;
      var j := TermEnd(s, from);
      TermNotEmpty(s, i);
      forall k | from <= k < j && s[k].Group?
        ensures ExpandedValue(s[k].items, 0, env) == Value(s[k].items, 0, env)
      {
        RestAgrees(s[k].items, 0, env);
      }
      TermDiffers(s, from, j, s[i].Minus?, env);
      RestAgrees(s, j, env);
    }
  }

  /** So the sum of the expansion is the value if every term with a vanishing factor ends with one. */
  lemma ExpandedIsValue(s: seq<Item>, env: Env)
    requires WellFormed(s, 0) && Kept(s, 0)
    ensures Sum(Expanded(s), env) == Value(s, 0, env) && NonZero(Expanded(s))
  {
    hide Expanded, WellFormed, Kept, ExpandedValue, Value;
    ExpandedSum(s, env);
    RestAgrees(s, 0, env);
  }

  /** And then both ways of evaluating agree. */
  lemma EvaluatorsAgree(s: seq<Item>, env: Env)
    requires WellFormed(s, 0) && Kept(s, 0)
    ensures Sum(Expanded(s), env) == Computed(s, env)
  {
    hide Expanded, Computed, WellFormed, Kept;
    ExpandedIsValue(s, env);
    ComputedIsValue(s, env);
  }

  /** A factor that vanishes before another one is forgotten: ( x - x ) * y expands to y. */
  lemma VanishingFactorForgotten(x: nat, y: nat)
    ensures var s := [Group([Var(x), Minus, Var(x)]), Times, Var(y)];
            WellFormed(s, 0) && Expanded(s) == [Mono(1, [y])] && forall env: Env :: Value(s, 0, env) == 0.0
  {
    var g := [Var(x), Minus, Var(x)];
    var s := [Group(g), Times, Var(y)];
    GroupCancels(x);
    assert FoldExp(s, 1) == Exp([], []);
    assert FoldExp(s, 2) == Exp([], []);
    assert [] + [y] == [y];
    assert FoldExp(s, 3) == Exp([Mono(1, [y])], []);
    SingleTerm(Mono(1, [y]), y);
    forall env: Env ensures Value(s, 0, env) == 0.0 {
      assert TermEnd(s, 0) == 3;
      assert FactorValue(s[0], env) == Value(g, 0, env) == 0.0;
      ProductVanishes(s, 0, 0, 3, env);
    }
  }

  /** And so is the sign of its term: - ( x - x ) * y expands to y as well. */
  lemma SignForgotten(x: nat, y: nat)
    ensures var s := [Minus, Group([Var(x), Minus, Var(x)]), Times, Var(y)];
            WellFormed(s, 0) && Expanded(s) == [Mono(1, [y])] && forall env: Env :: Value(s, 0, env) == 0.0
  {
    var g := [Var(x), Minus, Var(x)];
    var s := [Minus, Group(g), Times, Var(y)];
    GroupCancels(x);
    assert FoldExp(s, 1) == Exp([Mono(-1, [])], []);
    assert MultiplyAll([Mono(-1, [])], []) == [];
    assert FoldExp(s, 2) == Exp([], []);
    assert FoldExp(s, 3) == Exp([], []);
    assert [] + [y] == [y];
    assert FoldExp(s, 4) == Exp([Mono(1, [y])], []);
    SingleTerm(Mono(1, [y]), y);
    assert TermEnd(s, 4) == 4 && TermEnd(s, 1) == 4;
    assert IsFactor(s[3]);
    forall env: Env ensures Value(s, 0, env) == 0.0 {
      assert FactorValue(s[1], env) == Value(g, 0, env) == 0.0;
      ProductVanishes(s, 1, 1, 4, env);
      assert Value(s, 4, env) == 0.0;
    }
  }

  lemma SingleTerm(m: Mono, y: nat)
    requires m.vars == [y]
    ensures AddAll([], [m]) == [m] && Sorted([y]) == [y]
  {
    assert [y][..0] == [];
    assert Sorted([]) == [];
    assert SortedInsert(y, []) == [] + [y];
    assert [m][..0] == [];
    assert AddAll([], []) == [];
    assert Sorted(m.vars) == [y];
    var none: seq<Mono> := [];
    assert Find(none, [y]) == -1;
    assert AddTerm(none, m) == none + [Mono(m.coef, [y])];
  }

  lemma GroupCancels(x: nat)
    ensures var g := [Var(x), Minus, Var(x)];
            WellFormed(g, 0) && Expanded(g) == [] && forall env: Env :: Value(g, 0, env) == 0.0
  {
    hide AddAll, Sorted, TimesEach;
    var g := [Var(x), Minus, Var(x)];
    var plus, minus := Mono(1, [x]), Mono(-1, [x]);
    assert [] + [x] == [x];
    assert FoldExp(g, 1) == Exp([plus], []);
    SingleTerm(plus, x);
    assert FoldExp(g, 2) == Exp([Mono(-1, [])], [plus]);
    Negated(x);
    assert FoldExp(g, 3) == Exp([minus], [plus]);
    TermsCancel(x);
    GroupIsZero(x);
  }

  lemma Negated(x: nat)
    ensures TimesEach(Mono(1, [x]), [Mono(-1, [])]) == [Mono(-1, [x])]
  {
    assert [Mono(-1, [])][..0] == [];
    assert [x] + [] == [x];
  }

  lemma TermsCancel(x: nat)
    ensures AddAll([Mono(1, [x])], [Mono(-1, [x])]) == []
  {
    SingleTerm(Mono(1, [x]), x);
    var s := [Mono(1, [x])];
    assert [Mono(-1, [x])][..0] == [];
    assert AddAll(s, []) == s;
    assert Find(s, [x]) == 0;
  }

  lemma GroupIsZero(x: nat)
    ensures var g := [Var(x), Minus, Var(x)];
            WellFormed(g, 0) && forall env: Env :: Value(g, 0, env) == 0.0
  {
    var g := [Var(x), Minus, Var(x)];
    assert TermEnd(g, 0) == 1 && TermEnd(g, 2) == 3;
    assert g[0] == Var(x) && g[2] == Var(x);
    forall env: Env ensures Value(g, 0, env) == 0.0 {
      assert Product(g, 0, 1, env) == 1.0 * env(x);
      assert Product(g, 2, 3, env) == 1.0 * env(x);
      assert Value(g, 1, env) == Value(g, 3, env) - Product(g, 2, 3, env);
    }
  }
}
