/**
 A worksheet line: the prover computes the target of a constraint A * B + C = 0 from its other variables, and the
 expanded constraint holds, over the rationals and after they are mapped into the field.
 */
module PolyWorksheet {
  import opened Field
  import opened PolySpec
  import opened PolyExpansion

  // ----- variables that an expression mentions -----

  predicate Mentions(s: seq<Item>, i: nat, x: nat)
    requires i <= |s|
    decreases s, |s| - i
  {
    i < |s| && (s[i] == Var(x) || (s[i].Group? && Mentions(s[i].items, 0, x)) || Mentions(s, i + 1, x))
  }

  lemma {:induction false} MentionedItem(s: seq<Item>, i: nat, k: nat, x: nat)
    requires i <= k < |s| && !Mentions(s, i, x)
    ensures s[k] != Var(x) && (s[k].Group? ==> !Mentions(s[k].items, 0, x))
    decreases k - i
  {
    if i < k { MentionedItem(s, i + 1, k, x); }
  }

  /** Environments that differ in one variable only. */
  ghost predicate SameBut(env: Env, env': Env, x: nat) {
    forall y :: y != x ==> env(y) == env'(y)
  }

  lemma {:induction false} ProductSame(s: seq<Item>, i: nat, j: nat, x: nat, env: Env, env': Env)
    requires i <= j <= |s| && !Mentions(s, 0, x) && SameBut(env, env', x)
    ensures Product(s, i, j, env) == Product(s, i, j, env')
    decreases s, 0, j
  {
    ProductNext(s, i, j, env);
    ProductNext(s, i, j, env');
    if i < j {
      ProductSame(s, i, j - 1, x, env, env');
      MentionedItem(s, 0, j - 1, x);
      if s[j - 1].Group? { ValueSame(s[j - 1].items, 0, x, env, env'); }
    }
  }

  /** An expression does not depend on a variable it does not mention. */
  lemma {:induction false} ValueSame(s: seq<Item>, i: nat, x: nat, env: Env, env': Env)
    requires i <= |s| && !Mentions(s, 0, x) && SameBut(env, env', x)
    ensures Value(s, i, env) == Value(s, i, env')
    decreases s, 1, |s| - i
  {
    hide Product;
    if i < |s| {
      if s[i].Plus? {
        ValueSame(s, i + 1, x, env, env');
      } else {
        var from := if s[i].Minus? then i + 1 else i;
        var j := TermEnd(s, from);
        ProductSame(s, from, j, x, env, env');
        TermNotEmpty(s, i);
        ValueSame(s, j, x, env, env');
      }
    }
  }

  // ----- joining expressions -----

  /** A sum of a sum and a further term. */
  lemma {:induction false} ValueJoin(a: seq<Item>, b: seq<Item>, i: nat, env: Env)
    requires i <= |a| && |b| > 0 && IsSign(b[0])
    ensures Value(a + b, i, env) == Value(a, i, env) + Value(b, 0, env)
    decreases |a| - i
  {
    hide Product;
    var s := a + b;
    if i == |a| {
      ValueDrop(a, b, 0, env);
    } else if a[i].Plus? {
      ValueJoin(a, b, i + 1, env);
    } else {
      var from := if a[i].Minus? then i + 1 else i;
      EndJoin(a, b, from);
      var j := TermEnd(a, from);
      ProductJoin(a, b, from, j, env);
      TermNotEmpty(a, i);
      ValueJoin(a, b, j, env);
    }
  }

  lemma {:induction false} EndJoin(a: seq<Item>, b: seq<Item>, i: nat)
    requires i <= |a| && |b| > 0 && IsSign(b[0])
    ensures TermEnd(a + b, i) == TermEnd(a, i)
    decreases |a| - i
  {
    if i < |a| && !IsSign(a[i]) { EndJoin(a, b, i + 1); }
  }

  lemma {:induction false} ProductJoin(a: seq<Item>, b: seq<Item>, i: nat, j: nat, env: Env)
    requires i <= j <= |a|
    ensures Product(a + b, i, j, env) == Product(a, i, j, env)
    decreases j
  {
    ProductNext(a + b, i, j, env);
    ProductNext(a, i, j, env);
    if i < j { ProductJoin(a, b, i, j - 1, env); }
  }

  lemma {:induction false} EndDrop(a: seq<Item>, b: seq<Item>, i: nat)
    requires i <= |b|
    ensures TermEnd(a + b, |a| + i) == |a| + TermEnd(b, i)
    decreases |b| - i
  {
    if i < |b| && !IsSign(b[i]) { EndDrop(a, b, i + 1); }
  }

  lemma {:induction false} ProductDrop(a: seq<Item>, b: seq<Item>, i: nat, j: nat, env: Env)
    requires i <= j <= |b|
    ensures Product(a + b, |a| + i, |a| + j, env) == Product(b, i, j, env)
    decreases j
  {
    ProductNext(a + b, |a| + i, |a| + j, env);
    ProductNext(b, i, j, env);
    if i < j { ProductDrop(a, b, i, j - 1, env); }
  }

  lemma {:induction false} ValueDrop(a: seq<Item>, b: seq<Item>, i: nat, env: Env)
    requires i <= |b|
    ensures Value(a + b, |a| + i, env) == Value(b, i, env)
    decreases |b| - i
  {
    hide Product;
    if i < |b| {
      if b[i].Plus? {
        ValueDrop(a, b, i + 1, env);
      } else {
        var from := if b[i].Minus? then i + 1 else i;
        EndDrop(a, b, from);
        var j := TermEnd(b, from);
        ProductDrop(a, b, from, j, env);
        TermNotEmpty(b, i);
        ValueDrop(a, b, j, env);
      }
    }
  }

  // ----- worksheet lines -----

  /** The end of the third polynomial: minus the target, with a constant unless that is 1. */
  function TargetTerm(k: int, x: nat): seq<Item> {
    if k == 1 then [Minus, Var(x)] else [Minus, Lit(k), Times, Var(x)]
  }

  /** What the worksheet evaluates for ( a ) * ( b ) + ( c - k * x ). */
  function Line(a: seq<Item>, b: seq<Item>, c: seq<Item>): seq<Item> {
    if a == [] then c
    else if c == [] then [Group(a), Times, Group(b)]
    else [Group(a), Times, Group(b)] + ([Plus] + c)
  }

  lemma PairValue(a: seq<Item>, b: seq<Item>, env: Env)
    ensures Value([Group(a), Times, Group(b)], 0, env) == Value(a, 0, env) * Value(b, 0, env)
  {
    var s := [Group(a), Times, Group(b)];
    assert TermEnd(s, 0) == 3;
    ProductNext(s, 0, 0, env);
    ProductNext(s, 0, 1, env);
    ProductNext(s, 0, 2, env);
    ProductNext(s, 0, 3, env);
    assert Product(s, 0, 1, env) == Value(a, 0, env);
  }

  lemma LineValue(a: seq<Item>, b: seq<Item>, c: seq<Item>, env: Env)
    requires a == [] <==> b == []
    ensures Value(Line(a, b, c), 0, env) == Value(a, 0, env) * Value(b, 0, env) + Value(c, 0, env)
  {
    hide Value;
    NoValue(env);
    if a != [] {
      PairValue(a, b, env);
      if c != [] {
        ValueJoin([Group(a), Times, Group(b)], [Plus] + c, 0, env);
        PlusValue(c, env);
      }
    }
  }

  lemma NoValue(env: Env)
    ensures Value([], 0, env) == 0.0
  {
  }

  lemma PlusValue(c: seq<Item>, env: Env)
    ensures Value([Plus] + c, 0, env) == Value(c, 0, env)
  {
    ValueDrop([Plus], c, 0, env);
  }

  lemma TargetValue(k: int, x: nat, env: Env)
    ensures Value(TargetTerm(k, x), 0, env) == -(k as real * env(x))
  {
    var s := TargetTerm(k, x);
    assert TermEnd(s, |s|) == |s|;
    if k == 1 {
      assert TermEnd(s, 1) == 2;
      ProductNext(s, 1, 1, env);
      ProductNext(s, 1, 2, env);
    } else {
      assert TermEnd(s, 3) == 4 && TermEnd(s, 2) == 4 && TermEnd(s, 1) == 4;
      ProductNext(s, 1, 1, env);
      ProductNext(s, 1, 2, env);
      ProductNext(s, 1, 3, env);
      ProductNext(s, 1, 4, env);
    }
    assert Value(s, |s|, env) == 0.0;
  }

  /**
   The prover's value of a fresh target satisfies the expanded constraint ( a ) * ( b ) + ( c - k * x ) = 0.
   */
  lemma LineHolds(a: seq<Item>, b: seq<Item>, c: seq<Item>, k: int, x: nat, env: Env, env': Env)
    requires k != 0 && (a == [] <==> b == [])
    requires !Mentions(a, 0, x) && !Mentions(b, 0, x) && !Mentions(c, 0, x)
    requires WellFormed(a, 0) && Kept(a, 0) && WellFormed(b, 0) && Kept(b, 0)
    requires WellFormed(c + TargetTerm(k, x), 0) && Kept(c + TargetTerm(k, x), 0) && WellFormed(Line(a, b, c), 0)
    requires SameBut(env, env', x) && env'(x) == Computed(Line(a, b, c), env) / k as real
    ensures Sum(Expanded(a), env') * Sum(Expanded(b), env') + Sum(Expanded(c + TargetTerm(k, x)), env') == 0.0
  {
    hide Expanded, Computed, Value, WellFormed, Kept, Mentions, Line, Sum, SameBut;
    ComputedIsValue(Line(a, b, c), env);
    LineValue(a, b, c, env);
    ExpandedIsValue(a, env');
    ExpandedIsValue(b, env');
    ExpandedIsValue(c + TargetTerm(k, x), env');
    ValueSame(a, 0, x, env, env');
    ValueSame(b, 0, x, env, env');
    ValueSame(c, 0, x, env, env');
    ValueJoin(c, TargetTerm(k, x), 0, env');
    TargetValue(k, x, env');
    Divided(Value(a, 0, env), Value(b, 0, env), Value(c, 0, env), k as real, env'(x));
  }

  lemma Divided(a: real, b: real, c: real, k: real, y: real)
    requires k != 0.0 && y == (a * b + c) / k
    ensures a * b + (c + -(k * y)) == 0.0
  {
    var v := a * b + c;
    assert k * y == v;
  }

  // ----- in the field -----

  /** The field element z is the image of the rational q: q is some n / d with d invertible, and z * d is n. */
  ghost predicate Image(p: int, z: int, q: real)
    requires p > 0
  {
    exists n: int, d: int :: ImageBy(p, z, q, n, d)
  }

  ghost predicate ImageBy(p: int, z: int, q: real, n: int, d: int)
    requires p > 0
  {
    !Divides(p, d) && q * d as real == n as real && Cong(p, z * d, n)
  }

  /** The conversion of a rational with numerator n and denominator d. */
  function ConvertToZ(p: int, n: int, d: int): (z: int)
    requires p >= 2
    ensures 0 <= z < p && (d == 0 ==> z == 0)
  {
    var z := if d == 1 then n else if d == 0 then 0 else Bezout(p, d % p).2 * n;
    z % p
  }

  lemma Converted(p: int, n: int, d: int, q: real)
    requires Prime(p) && !Divides(p, d) && q * d as real == n as real
    ensures Image(p, ConvertToZ(p, n, d), q)
  {
    hide Bezout;
    var u := Bezout(p, d % p).2;
    BezoutInverse(p, d);
    var z := if d == 1 then n else u * n;
    assert d != 0 by { DividesIntro(p, 0); }
    assert Cong(p, z * d, n) by {
      CongSame(p, n);
      if d != 1 {
        CongMul(p, u * d, 1, n, n);
        assert (u * d) * n == (u * n) * d;
      }
    }
    Reduced(p, z, d, n);
    assert ImageBy(p, z % p, q, n, d);
  }

  lemma Reduced(p: int, z: int, d: int, n: int)
    requires p > 0 && Cong(p, z * d, n)
    ensures Cong(p, (z % p) * d, n)
  {
    CongIntro(p, z % p, z, -(z / p));
    CongSame(p, d);
    CongMul(p, z % p, z, d, d);
    CongTrans(p, (z % p) * d, z * d, n);
  }

  lemma ImageInt(p: int, c: int)
    requires Prime(p)
    ensures Image(p, c, c as real)
  {
    CongSame(p, c);
    assert !Divides(p, 1) by {
      if Divides(p, 1) { CongClose(p, 1, 0); }
    }
    assert ImageBy(p, c, c as real, c, 1);
  }

  lemma NotDividesProduct(p: int, d: int, e: int)
    requires Prime(p) && !Divides(p, d) && !Divides(p, e)
    ensures !Divides(p, d * e)
  {
    if Divides(p, d * e) { ProductZero(p, d, e); }
  }

  lemma ImageTimes(p: int, y: int, q: real, z: int, r: real, yz: int, qr: real)
    requires Prime(p) && Image(p, y, q) && Image(p, z, r) && yz == y * z && qr == q * r
    ensures Image(p, yz, qr)
  {
    hide Divides, Cong;
    var n: int, d: int :| ImageBy(p, y, q, n, d);
    var m: int, e: int :| ImageBy(p, z, r, m, e);
    NotDividesProduct(p, d, e);
    CongMul(p, y * d, n, z * e, m);
    assert (y * d) * (z * e) == (y * z) * (d * e);
    RealTimes(q, d, n, r, e, m);
    assert ImageBy(p, yz, qr, n * m, d * e);
  }

  lemma RealTimes(q: real, d: int, n: int, r: real, e: int, m: int)
    requires q * d as real == n as real && r * e as real == m as real
    ensures (q * r) * (d * e) as real == (n * m) as real
  {
    var x, y := d as real, e as real;
    assert (d * e) as real == x * y;
    assert (n * m) as real == (n as real) * (m as real);
    assert (q * r) * (x * y) == (q * x) * (r * y);
  }

  lemma ImagePlus(p: int, y: int, q: real, z: int, r: real, yz: int, qr: real)
    requires Prime(p) && Image(p, y, q) && Image(p, z, r) && yz == y + z && qr == q + r
    ensures Image(p, yz, qr)
  {
    hide Divides, Cong;
    var n: int, d: int :| ImageBy(p, y, q, n, d);
    var m: int, e: int :| ImageBy(p, z, r, m, e);
    NotDividesProduct(p, d, e);
    CongSame(p, e);
    CongSame(p, d);
    CongMul(p, y * d, n, e, e);
    CongMul(p, z * e, m, d, d);
    CongAdd(p, (y * d) * e, n * e, (z * e) * d, m * d);
    CommonDenominator(y, z, d, e);
    RealPlus(q, d, n, r, e, m);
    assert ImageBy(p, yz, qr, n * e + m * d, d * e);
  }

  lemma CommonDenominator(y: int, z: int, d: int, e: int)
    ensures (y * d) * e + (z * e) * d == (y + z) * (d * e)
  {
    assert (y * d) * e == y * (d * e) && (z * e) * d == z * (d * e);
  }

  lemma RealPlus(q: real, d: int, n: int, r: real, e: int, m: int)
    requires q * d as real == n as real && r * e as real == m as real
    ensures (q + r) * (d * e) as real == (n * e + m * d) as real
  {
    var x, y := d as real, e as real;
    assert (d * e) as real == x * y;
    assert (n * e) as real == (n as real) * y && (m * d) as real == (m as real) * x;
    assert (q + r) * (x * y) == (q * x) * y + (r * y) * x;
  }

  lemma ImageZero(p: int, z: int)
    requires Prime(p) && Image(p, z, 0.0)
    ensures Cong(p, z, 0)
  {
    var n: int, d: int :| ImageBy(p, z, 0.0, n, d);
    assert n == 0;
    ProductZero(p, z, d);
  }

  function FieldVars(vars: seq<nat>, f: nat -> int): int {
    if |vars| == 0 then 1 else FieldVars(vars[..|vars| - 1], f) * f(vars[|vars| - 1])
  }

  function FieldSum(s: seq<Mono>, f: nat -> int): int {
    if |s| == 0 then 0 else FieldSum(s[..|s| - 1], f) + s[|s| - 1].coef * FieldVars(s[|s| - 1].vars, f)
  }

  lemma {:induction false} VarsImage(p: int, vars: seq<nat>, env: Env, f: nat -> int)
    requires Prime(p) && forall x: nat :: Image(p, f(x), env(x))
    ensures Image(p, FieldVars(vars, f), VarsValue(vars, env))
  {
    hide Image;
    if |vars| == 0 {
      ImageInt(p, 1);
    } else {
      var n := |vars| - 1;
      VarsImage(p, vars[..n], env, f);
      ImageTimes(p, FieldVars(vars[..n], f), VarsValue(vars[..n], env), f(vars[n]), env(vars[n]),
                 FieldVars(vars, f), VarsValue(vars, env));
    }
  }

  lemma {:induction false} SumImage(p: int, s: seq<Mono>, env: Env, f: nat -> int)
    requires Prime(p) && forall x: nat :: Image(p, f(x), env(x))
    ensures Image(p, FieldSum(s, f), Sum(s, env))
  {
    hide Image, FieldVars, VarsValue;
    if |s| == 0 {
      ImageInt(p, 0);
    } else {
      var n := |s| - 1;
      var m := s[n];
      SumImage(p, s[..n], env, f);
      VarsImage(p, m.vars, env, f);
      ImageInt(p, m.coef);
      var y, q := m.coef * FieldVars(m.vars, f), MonoValue(m, env);
      ImageTimes(p, m.coef, m.coef as real, FieldVars(m.vars, f), VarsValue(m.vars, env), y, q);
      ImagePlus(p, FieldSum(s[..n], f), Sum(s[..n], env), y, q, FieldSum(s, f), Sum(s, env));
    }
  }

  /** A constraint that holds over the rationals holds for their images in the field. */
  lemma ConstraintInField(p: int, a: seq<Mono>, b: seq<Mono>, c: seq<Mono>, env: Env, f: nat -> int)
    requires Prime(p) && forall x: nat :: Image(p, f(x), env(x))
    requires Sum(a, env) * Sum(b, env) + Sum(c, env) == 0.0
    ensures Cong(p, FieldSum(a, f) * FieldSum(b, f) + FieldSum(c, f), 0)
  {
    hide Image, Sum, FieldSum;
    SumImage(p, a, env, f);
    SumImage(p, b, env, f);
    SumImage(p, c, env, f);
    var y, q := FieldSum(a, f) * FieldSum(b, f), Sum(a, env) * Sum(b, env);
    ImageTimes(p, FieldSum(a, f), Sum(a, env), FieldSum(b, f), Sum(b, env), y, q);
    ImagePlus(p, y, q, FieldSum(c, f), Sum(c, env), y + FieldSum(c, f), 0.0);
    ImageZero(p, y + FieldSum(c, f));
  }

  /**
   A worksheet line as a whole: the prover's value q of the target, a fraction n / d, converted into the field
   satisfies the emitted constraint modulo the prime, provided that the other variables were converted and d is not a
   multiple of the prime.
   */
  lemma LineInField(p: int, a: seq<Item>, b: seq<Item>, c: seq<Item>, k: int, x: nat, env: Env, env': Env, q: real,
                    n: int, d: int, f: nat -> int)
    requires k != 0 && (a == [] <==> b == [])
    requires !Mentions(a, 0, x) && !Mentions(b, 0, x) && !Mentions(c, 0, x)
    requires WellFormed(a, 0) && Kept(a, 0) && WellFormed(b, 0) && Kept(b, 0)
    requires WellFormed(c + TargetTerm(k, x), 0) && Kept(c + TargetTerm(k, x), 0) && WellFormed(Line(a, b, c), 0)
    requires SameBut(env, env', x) && env'(x) == q && q == Computed(Line(a, b, c), env) / k as real
    requires Prime(p) && !Divides(p, d) && q * d as real == n as real && f(x) == ConvertToZ(p, n, d)
    requires forall y: nat :: y != x ==> Image(p, f(y), env(y))
    ensures
      Cong(p, FieldSum(Expanded(a), f) * FieldSum(Expanded(b), f) + FieldSum(Expanded(c + TargetTerm(k, x)), f), 0)
  {
    hide Expanded, Computed, WellFormed, Kept, Mentions, Line, Sum, FieldSum, Image, ConvertToZ, TargetTerm;
    Converted(p, n, d, q);
    LineHolds(a, b, c, k, x, env, env');
    forall y: nat ensures Image(p, f(y), env'(y)) {
      if y != x { assert env(y) == env'(y); }
    }
    ConstraintInField(p, Expanded(a), Expanded(b), Expanded(c + TargetTerm(k, x)), env', f);
  }
}
