/** The two evaluators as they read token streams: the compiler's expansion and the prover's stack of temporaries. */
module PolyEval {
  import opened PolySpec
  import opened PolyExpansion

  datatype Token = OpenParen | CloseParen | End | PlusSign | MinusSign | TimesSign | Constant(c: int) | Variable(x: nat)

  function PrintItem(it: Item): (r: seq<Token>)
    ensures |r| >= 1
    decreases it, 1
  {
    match it
    case Plus => [PlusSign]
    case Minus => [MinusSign]
    case Times => [TimesSign]
    case Lit(c) => [Constant(c)]
    case Var(x) => [Variable(x)]
    case Group(g) => [OpenParen] + Print(g, 0) + [CloseParen]
  }

  /** The tokens of an expression from item `i` on. */
  function Print(s: seq<Item>, i: nat): seq<Token>
    requires i <= |s|
    decreases s, 0, |s| - i
  {
    if i == |s| then [] else PrintItem(s[i]) + Print(s, i + 1)
  }

  /** The tokens `t` stand at `pos`. */
  predicate At(tokens: seq<Token>, pos: nat, t: seq<Token>) {
    pos + |t| <= |tokens| && tokens[pos..pos + |t|] == t
  }

  lemma StandsAt(tokens: seq<Token>, pos: nat, t: seq<Token>)
    requires pos + |t| <= |tokens| && tokens[pos..pos + |t|] == t
    ensures At(tokens, pos, t)
  {
  }

  lemma AtStands(tokens: seq<Token>, pos: nat, t: seq<Token>)
    requires At(tokens, pos, t)
    ensures pos + |t| <= |tokens| && tokens[pos..pos + |t|] == t
  {
  }

  lemma AtSplit(tokens: seq<Token>, pos: nat, a: seq<Token>, b: seq<Token>)
    requires At(tokens, pos, a + b)
    ensures At(tokens, pos, a) && At(tokens, pos + |a|, b)
    ensures |a| > 0 ==> tokens[pos] == a[0]
  {
    var t := tokens[pos..pos + |a + b|];
    assert tokens[pos..pos + |a|] == t[..|a|] == a;
    assert tokens[pos + |a|..pos + |a| + |b|] == t[|a|..] == b;
    if |a| > 0 { assert tokens[pos] == t[0]; }
  }

  /** The next item: its first token, and where the rest stands. */
  lemma NextItem(tokens: seq<Token>, pos: nat, s: seq<Item>, i: nat)
    requires i < |s| && At(tokens, pos, Print(s, i))
    ensures pos < |tokens| && tokens[pos] == PrintItem(s[i])[0]
    ensures At(tokens, pos + |PrintItem(s[i])|, Print(s, i + 1))
    ensures s[i].Group? ==> var g := Print(s[i].items, 0);
              |PrintItem(s[i])| == |g| + 2 && At(tokens, pos + 1, g) && pos + 1 + |g| < |tokens| &&
                  tokens[pos + 1 + |g|] == CloseParen
    ensures !s[i].Group? ==> |PrintItem(s[i])| == 1
  {
    hide At;
    AtSplit(tokens, pos, PrintItem(s[i]), Print(s, i + 1));
    AtBounds(tokens, pos, PrintItem(s[i]));
    if s[i].Group? {
      var g := Print(s[i].items, 0);
      assert PrintItem(s[i]) == [OpenParen] + (g + [CloseParen]);
      AtSplit(tokens, pos, [OpenParen], g + [CloseParen]);
      AtSplit(tokens, pos + 1, g, [CloseParen]);
      AtSplit(tokens, pos + 1 + |g|, [CloseParen], []) by { assert [CloseParen] + [] == [CloseParen]; }
      AtBounds(tokens, pos + 1 + |g|, [CloseParen]);
    }
  }

  lemma AtBounds(tokens: seq<Token>, pos: nat, t: seq<Token>)
    requires At(tokens, pos, t)
    ensures pos + |t| <= |tokens|
  {
  }

  function Depth(s: seq<Item>, i: nat): nat
    requires i <= |s|
    decreases s, |s| - i
  {
    if i == |s| then 0 else
      var rest := Depth(s, i + 1);
      if s[i].Group? && Depth(s[i].items, 0) + 1 > rest then Depth(s[i].items, 0) + 1 else rest
  }

  lemma {:induction false} GroupDepth(s: seq<Item>, i: nat, k: nat)
    requires i <= k < |s| && s[k].Group?
    ensures Depth(s, i) >= Depth(s[k].items, 0) + 1
    decreases k - i
  {
    if i < k { GroupDepth(s, i + 1, k); }
  }

  /** Nesting comes from groups only, and some group is nested one level less. */
  lemma {:induction false} DepthAttained(s: seq<Item>, i: nat) returns (k: nat)
    requires i <= |s| && Depth(s, i) > 0
    ensures i <= k < |s| && s[k].Group? && Depth(s, i) == Depth(s[k].items, 0) + 1
    decreases |s| - i
  {
    if s[i].Group? && Depth(s, i) == Depth(s[i].items, 0) + 1 {
      k := i;
    } else {
      k := DepthAttained(s, i + 1);
    }
  }

  const TEMP_STACK_SIZE := 16

  /** The prover's variables hold the state of the fold. */
  ghost predicate Holds(a: Acc, poly: real, term: real, hasTerms: bool, hasFactors: bool, negate: bool) {
    && a.poly == poly && a.hasTerms == hasTerms && a.hasFactors == hasFactors && a.negate == negate
    && (hasFactors ==> a.term == term)
  }

  lemma PrintEnd(s: seq<Item>, i: nat)
    requires i <= |s|
    ensures Print(s, i) == [] <==> i == |s|
    ensures i < |s| ==> |Print(s, i)| == |PrintItem(s[i])| + |Print(s, i + 1)|
  {
  }

  /** The first token of an item tells what it is. */
  lemma ItemToken(it: Item)
    ensures var t := PrintItem(it)[0];
            && t != CloseParen && t != End
            && (t == PlusSign <==> it.Plus?) && (t == MinusSign <==> it.Minus?) && (t == TimesSign <==> it.Times?)
            && (t == OpenParen <==> it.Group?)
            && (it.Lit? ==> t == Constant(it.c)) && (it.Var? ==> t == Variable(it.x))
  {
  }

  function Signed(negate: bool, term: real): real { if negate then -term else term }

  function Scaled(hasFactors: bool, term: real, v: real): real { if hasFactors then term * v else v }

  function Added(hasTerms: bool, poly: real, term: real): real { if hasTerms then poly + term else term }

  lemma HoldsFactor(a: Acc, poly: real, term: real, hasTerms: bool, hasFactors: bool, negate: bool, v: real)
    requires Holds(a, poly, term, hasTerms, hasFactors, negate)
    ensures Holds(TakeFactor(a, v), poly, Scaled(hasFactors, term, v), hasTerms, true, negate)
  {
  }

  lemma HoldsEmitted(a: Acc, poly: real, term: real, hasTerms: bool, hasFactors: bool, negate: bool)
    requires Holds(a, poly, term, hasTerms, hasFactors, negate)
    ensures !hasFactors ==> Emit(a) == a
    ensures hasFactors ==>
        Holds(Emit(a), Added(hasTerms, poly, Signed(negate, term)), Signed(negate, term), true, false, false)
    ensures a.poly == poly
  {
  }

  lemma HoldsNegated(a: Acc, poly: real, term: real, hasTerms: bool, hasFactors: bool, negate: bool)
    requires Holds(a, poly, term, hasTerms, hasFactors, negate)
    ensures Holds(a.(negate := !a.negate), poly, term, hasTerms, hasFactors, !negate)
  {
  }

  /** Adds the finished term in temporary `tempNum` + 1 to the polynomial in `tempNum`. */
  method EmitTerm(temps: array<real>, tempNum: nat, hasTerms: bool, negate: bool)
    requires tempNum + 1 < temps.Length
    modifies temps
    ensures temps[tempNum + 1] == Signed(negate, old(temps[tempNum + 1]))
    ensures temps[tempNum] == Added(hasTerms, old(temps[tempNum]), temps[tempNum + 1])
    ensures forall k :: 0 <= k < tempNum ==> temps[k] == old(temps[k])
  {
    if negate {
      temps[tempNum + 1] := -temps[tempNum + 1];
    }
    if !hasTerms {
      temps[tempNum] := temps[tempNum + 1];
    } else {
      temps[tempNum] := temps[tempNum] + temps[tempNum + 1];
    }
  }

  /** Multiplies the term in temporary `tempNum` + 1 by a factor, or starts it. */
  method MultiplyTerm(temps: array<real>, tempNum: nat, hasFactors: bool, v: real)
    requires tempNum + 1 < temps.Length
    modifies temps
    ensures temps[tempNum + 1] == Scaled(hasFactors, old(temps[tempNum + 1]), v)
    ensures forall k :: 0 <= k <= tempNum ==> temps[k] == old(temps[k])
  {
    if !hasFactors {
      temps[tempNum + 1] := v;
    } else {
      temps[tempNum + 1] := temps[tempNum + 1] * v;
    }
  }

  /**
   The prover's code; the result is left in temporary `tempNum`.  It stops after the closing parenthesis, the end mark
   or the end of the file.
   */
  method ComputePoly(tokens: seq<Token>, start: nat, temps: array<real>, tempNum: nat, env: Env, ghost items: seq<Item>)
      returns (pos: nat)
    requires temps.Length == TEMP_STACK_SIZE && tempNum + 2 * Depth(items, 0) < TEMP_STACK_SIZE - 1
    requires start + |Print(items, 0)| <= |tokens| && tokens[start..start + |Print(items, 0)|] == Print(items, 0)
    requires var end := start + |Print(items, 0)|; end == |tokens| || tokens[end] == CloseParen || tokens[end] == End
    modifies temps
    ensures temps[tempNum] == Computed(items, env)
    ensures forall k :: 0 <= k < tempNum ==> temps[k] == old(temps[k])
    ensures pos == start + |Print(items, 0)| + (if start + |Print(items, 0)| == |tokens| then 0 else 1)
    decreases items
  {
    hide FoldAcc, Print, Depth, At, PrintItem, Holds, Scaled, Added, Signed, Emit, TakeFactor;
    StandsAt(tokens, start, Print(items, 0));
    ghost var i := 0;
    ghost var end := start + |Print(items, 0)|;
    pos := start;
    temps[tempNum] := 0.0;
    var hasTerms, hasFactors, isEmpty, negate := false, false, true, false;
    FoldNext(items, 0, env);
    AtBounds(tokens, start, Print(items, 0));
    HoldsStart(temps[tempNum + 1]);
    while pos < |tokens|
      invariant 0 <= i <= |items| && start <= pos <= end && pos + |Print(items, i)| == end &&
          At(tokens, pos, Print(items, i))
      invariant Holds(FoldAcc(items, i, env), temps[tempNum], temps[tempNum + 1], hasTerms, hasFactors, negate)
      invariant isEmpty ==> !hasTerms && temps[tempNum] == 0.0
      invariant forall k :: 0 <= k < tempNum ==> temps[k] == old(temps[k])
      decreases |tokens| - pos
    {
      var tok := tokens[pos];
      PrintEnd(items, i);
      ghost var a := FoldAcc(items, i, env);
      if i < |items| {
        NextItem(tokens, pos, items, i);
        FoldNext(items, i, env);
        ItemToken(items[i]);
      }
      pos := pos + 1;
      if tok == PlusSign || tok == MinusSign {
        HoldsEmitted(a, temps[tempNum], temps[tempNum + 1], hasTerms, hasFactors, negate);
        if hasFactors {
          EmitTerm(temps, tempNum, hasTerms, negate);
          hasTerms, isEmpty, hasFactors, negate := true, false, false, false;
        }
      }
      if tok == OpenParen {
        GroupDepth(items, 0, i);
        AtStands(tokens, pos, Print(items[i].items, 0));
        pos := ComputePoly(tokens, pos, temps, tempNum + 2, env, items[i].items);
        var subresult := temps[tempNum + 2];
        HoldsFactor(a, temps[tempNum], temps[tempNum + 1], hasTerms, hasFactors, negate, subresult);
        MultiplyTerm(temps, tempNum, hasFactors, subresult);
        hasFactors := true;
      } else if tok == CloseParen || tok == End {
        break;
      } else if tok == PlusSign || tok == TimesSign {
      } else if tok == MinusSign {
        HoldsNegated(Emit(a), temps[tempNum], temps[tempNum + 1], hasTerms, hasFactors, negate);
        negate := !negate;
      } else {
        var factor := if tok.Constant? then tok.c as real else env(tok.x);
        HoldsFactor(a, temps[tempNum], temps[tempNum + 1], hasTerms, hasFactors, negate, factor);
        MultiplyTerm(temps, tempNum, hasFactors, factor);
        hasFactors := true;
      }
      i := i + 1;
    }
    PrintEnd(items, i);
    HoldsEmitted(FoldAcc(items, i, env), temps[tempNum], temps[tempNum + 1], hasTerms, hasFactors, negate);
    ghost var a := FoldAcc(items, i, env);
    if hasFactors {
      EmitTerm(temps, tempNum, hasTerms, negate);
      hasTerms, isEmpty := true, false;
      HoldsEmitted(Emit(a), temps[tempNum], temps[tempNum + 1], true, false, false);
    }
    if isEmpty {
      temps[tempNum] := 0.0;
    }
  }

  lemma HoldsStart(term: real)
    ensures Holds(START, 0.0, term, false, false, false)
  {
  }

  // ----- the compiler -----

  /** The products of all pairs of terms. */
  method MultiplyTerms(r: seq<Mono>, s: seq<Mono>) returns (p: seq<Mono>)
    ensures p == MultiplyAll(r, s)
  {
    p := [];
    var i := 0;
    while i < |r|
      invariant 0 <= i <= |r| && p == MultiplyAll(r[..i], s)
    {
      ghost var before := p;
      var j := 0;
      while j < |s|
        invariant 0 <= j <= |s| && p == before + TimesEach(r[i], s[..j])
      {
        assert s[..j + 1][..j] == s[..j];
        p := p + ProductTerm(r[i], s[j]);
        j := j + 1;
      }
      assert s[..j] == s;
      assert r[..i + 1][..i] == r[..i];
      i := i + 1;
    }
    assert r[..i] == r;
  }

  method MultiplyByToken(token: Mono, s: seq<Mono>) returns (p: seq<Mono>)
    ensures p == TimesEach(token, s)
  {
    p := [];
    var j := 0;
    while j < |s|
      invariant 0 <= j <= |s| && p == TimesEach(token, s[..j])
    {
      assert s[..j + 1][..j] == s[..j];
      p := p + ProductTerm(token, s[j]);
      j := j + 1;
    }
    assert s[..j] == s;
  }

  method AddTerms(expansion: seq<Mono>, terms: seq<Mono>) returns (e: seq<Mono>)
    ensures e == AddAll(expansion, terms)
  {
    e := expansion;
    var i := 0;
    while i < |terms|
      invariant 0 <= i <= |terms| && e == AddAll(expansion, terms[..i])
    {
      assert terms[..i + 1][..i] == terms[..i];
      e := AddTerm(e, terms[i]);
      i := i + 1;
    }
    assert terms[..i] == terms;
  }

  /** The compiler's code: from an opening parenthesis to the matching one; like terms are merged. */
  method ExpandPolynomial(tokens: seq<Token>, start: nat, ghost items: seq<Item>)
      returns (expansion: seq<Mono>, pos: nat)
    requires start < |tokens| && tokens[start] == OpenParen
    requires start + 1 + |Print(items, 0)| < |tokens| && tokens[start + 1 + |Print(items, 0)|] == CloseParen
    requires tokens[start + 1..start + 1 + |Print(items, 0)|] == Print(items, 0)
    ensures expansion == Expanded(items) && Collected(expansion) && pos == start + 1 + |Print(items, 0)| + 1
    decreases items
  {
    hide FoldExp, Print, At, PrintItem, MultiplyAll, TimesEach, ProductTerm, AddAll;
    StandsAt(tokens, start + 1, Print(items, 0));
    ghost var i := 0;
    ghost var end := start + 1 + |Print(items, 0)|;
    pos := start + 1;
    var multiply: seq<Mono> := [];
    expansion := [];
    var nesting := 1;
    FoldExpNext(items, 0);
    while nesting > 0
      invariant nesting == 1 ==>
          0 <= i <= |items| && start < pos && pos + |Print(items, i)| == end && At(tokens, pos, Print(items, i))
      invariant nesting == 1 ==> FoldExp(items, i) == Exp(multiply, expansion)
      invariant nesting == 0 ==> expansion == Expanded(items) && pos == end + 1 && multiply == []
      invariant 0 <= nesting <= 1
      decreases nesting, end - pos
    {
      PrintEnd(items, i);
      if i < |items| {
        NextItem(tokens, pos, items, i);
        FoldExpNext(items, i);
        ItemToken(items[i]);
      }
      if tokens[pos] == OpenParen {
        var subPoly;
        AtStands(tokens, pos + 1, Print(items[i].items, 0));
        subPoly, pos := ExpandPolynomial(tokens, pos, items[i].items);
        if multiply == [] {
          multiply := subPoly;
        } else {
          multiply := MultiplyTerms(multiply, subPoly);
        }
      } else {
        var token := tokens[pos];
        pos := pos + 1;
        if token == CloseParen || token == PlusSign || token == MinusSign {
          expansion := AddTerms(expansion, multiply);
          multiply := [];
        }
        if token == CloseParen {
          nesting := nesting - 1;
        } else if token == PlusSign {
        } else if token == MinusSign {
          multiply := multiply + [Mono(-1, [])];
        } else if token == TimesSign {
        } else {
          var term := if token.Constant? then Mono(token.c, []) else if token.Variable? then Mono(1, [token.x])
              else Mono(1, []);
          if multiply == [] {
            multiply := ProductTerm(Mono(1, []), term);
          } else {
            multiply := MultiplyByToken(term, multiply);
          }
        }
      }
      i := i + 1;
    }
    NothingToAdd(expansion);
    expansion := AddTerms(expansion, multiply);
    ExpandedCollects(items);
  }

  lemma NothingToAdd(s: seq<Mono>)
    ensures AddAll(s, []) == s
  {
  }
}
