/**
 The sequence alignment program: a table of longest-common-subsequence lengths filled from the back, a walk through
 it that writes the chosen characters, and a pass that moves the gaps to the end.
 */
module Lcs {

  // ----- the reference -----

  /** `s` from `k` on is a subsequence of `a` from `i` on. */
  predicate SubsequenceFrom(s: seq<int>, k: nat, a: seq<int>, i: nat)
    requires k <= |s| && i <= |a|
    decreases |a| - i
  {
    if k == |s| then true
    else if i == |a| then false
    else (s[k] == a[i] && SubsequenceFrom(s, k + 1, a, i + 1)) || SubsequenceFrom(s, k, a, i + 1)
  }

  predicate CommonSubsequence(s: seq<int>, a: seq<int>, b: seq<int>) {
    SubsequenceFrom(s, 0, a, 0) && SubsequenceFrom(s, 0, b, 0)
  }

  ghost predicate Longest(s: seq<int>, a: seq<int>, b: seq<int>) {
    CommonSubsequence(s, a, b) && forall c :: CommonSubsequence(c, a, b) ==> |c| <= |s|
  }

  lemma {:induction false} Later(s: seq<int>, k: nat, a: seq<int>, i: nat)
    requires k < |s| && i <= |a| && SubsequenceFrom(s, k, a, i)
    ensures i < |a| && SubsequenceFrom(s, k + 1, a, i + 1)
    decreases |a| - i
  {
    if !(s[k] == a[i] && SubsequenceFrom(s, k + 1, a, i + 1)) {
      Later(s, k, a, i + 1);
      Earlier(s, k + 1, a, i + 1);
    }
  }

  lemma Earlier(s: seq<int>, k: nat, a: seq<int>, i: nat)
    requires k <= |s| && i < |a| && SubsequenceFrom(s, k, a, i + 1)
    ensures SubsequenceFrom(s, k, a, i)
  {
  }

  /** The recurrence for the longest length of a[i..] and b[j..]. */
  function Length(a: seq<int>, b: seq<int>, i: nat, j: nat): nat
    requires i <= |a| && j <= |b|
    decreases |a| - i + |b| - j
  {
    if i == |a| || j == |b| then 0
    else if a[i] == b[j] then 1 + Length(a, b, i + 1, j + 1)
    else
      var down, right := Length(a, b, i + 1, j), Length(a, b, i, j + 1);
      if down > right then down else right
  }

  /** No common subsequence is longer. */
  lemma {:induction false} LengthBounds(a: seq<int>, b: seq<int>, i: nat, j: nat, s: seq<int>, k: nat)
    requires i <= |a| && j <= |b| && k <= |s| && SubsequenceFrom(s, k, a, i) && SubsequenceFrom(s, k, b, j)
    ensures |s| - k <= Length(a, b, i, j)
    decreases |a| - i + |b| - j
  {
    if k < |s| {
      if a[i] == b[j] {
        Later(s, k, a, i);
        Later(s, k, b, j);
        LengthBounds(a, b, i + 1, j + 1, s, k + 1);
      } else if s[k] != a[i] {
        LengthBounds(a, b, i + 1, j, s, k);
      } else {
        LengthBounds(a, b, i, j + 1, s, k);
      }
    }
  }

  /** Neighbouring entries of the table differ by at most one. */
  lemma {:induction false} Neighbours(a: seq<int>, b: seq<int>, i: nat, j: nat)
    requires i <= |a| && j <= |b|
    ensures i < |a| ==> Length(a, b, i + 1, j) <= Length(a, b, i, j) <= Length(a, b, i + 1, j) + 1
    ensures j < |b| ==> Length(a, b, i, j + 1) <= Length(a, b, i, j) <= Length(a, b, i, j + 1) + 1
    decreases |a| - i + |b| - j
  {
    if i < |a| && j < |b| {
      Neighbours(a, b, i + 1, j);
      Neighbours(a, b, i, j + 1);
      Neighbours(a, b, i + 1, j + 1);
    }
  }

  /** So the code may take `right` whenever `down` is not one more. */
  lemma DownOrRight(a: seq<int>, b: seq<int>, i: nat, j: nat)
    requires i < |a| && j < |b| && a[i] != b[j]
    ensures var down, right := Length(a, b, i + 1, j), Length(a, b, i, j + 1);
            -1 <= down - right <= 1 && Length(a, b, i, j) == if down == right + 1 then down else right
  {
    hide Length;
    Neighbours(a, b, i + 1, j);
    Neighbours(a, b, i, j + 1);
    LengthStep(a, b, i, j);
  }

  lemma LengthStep(a: seq<int>, b: seq<int>, i: nat, j: nat)
    requires i < |a| && j < |b|
    ensures a[i] == b[j] ==> Length(a, b, i, j) == 1 + Length(a, b, i + 1, j + 1)
    ensures a[i] != b[j] ==> var down, right := Length(a, b, i + 1, j), Length(a, b, i, j + 1);
                             Length(a, b, i, j) == if down > right then down else right
  {
  }

  // ----- the walk -----

  const DIAGONAL := 0
  const DOWN := 1
  const RIGHT := 2

  function Choice(a: seq<int>, b: seq<int>, i: nat, j: nat): int
    requires i < |a| && j < |b|
  {
    if a[i] == b[j] then DIAGONAL
    else if Length(a, b, i + 1, j) == Length(a, b, i, j + 1) + 1 then DOWN else RIGHT
  }

  /** The characters that a walk from (i, j) along the choices picks. */
  function Walk(a: seq<int>, b: seq<int>, i: nat, j: nat): seq<int>
    requires i <= |a| && j <= |b|
    decreases |a| - i + |b| - j
  {
    if i == |a| || j == |b| then []
    else if Choice(a, b, i, j) == DIAGONAL then [a[i]] + Walk(a, b, i + 1, j + 1)
    else if Choice(a, b, i, j) == DOWN then Walk(a, b, i + 1, j)
    else Walk(a, b, i, j + 1)
  }

  /** The walk picks as many characters as the table says. */
  lemma {:induction false} WalkLength(a: seq<int>, b: seq<int>, i: nat, j: nat)
    requires i <= |a| && j <= |b|
    ensures |Walk(a, b, i, j)| == Length(a, b, i, j)
    decreases |a| - i + |b| - j
  {
    if i < |a| && j < |b| {
      if a[i] == b[j] {
        WalkLength(a, b, i + 1, j + 1);
      } else {
        DownOrRight(a, b, i, j);
        WalkLength(a, b, i + 1, j);
        WalkLength(a, b, i, j + 1);
      }
    }
  }

  lemma {:induction false} Dropped(s: seq<int>, x: int, k: nat, a: seq<int>, i: nat)
    requires k <= |s| && i <= |a| && SubsequenceFrom(s, k, a, i)
    ensures SubsequenceFrom([x] + s, k + 1, a, i)
    decreases |a| - i
  {
    if k < |s| {
      if s[k] == a[i] && SubsequenceFrom(s, k + 1, a, i + 1) {
        Dropped(s, x, k + 1, a, i + 1);
      } else {
        Dropped(s, x, k, a, i + 1);
      }
    }
  }

  lemma {:induction false} WalkIsCommon(a: seq<int>, b: seq<int>, i: nat, j: nat)
    requires i <= |a| && j <= |b|
    ensures SubsequenceFrom(Walk(a, b, i, j), 0, a, i) && SubsequenceFrom(Walk(a, b, i, j), 0, b, j)
    decreases |a| - i + |b| - j
  {
    hide Length;
    if i < |a| && j < |b| {
      if a[i] == b[j] {
        WalkIsCommon(a, b, i + 1, j + 1);
        Dropped(Walk(a, b, i + 1, j + 1), a[i], 0, a, i + 1);
        Dropped(Walk(a, b, i + 1, j + 1), a[i], 0, b, j + 1);
      } else {
        WalkIsCommon(a, b, i + 1, j);
        WalkIsCommon(a, b, i, j + 1);
      }
    }
  }

  lemma WalkIsLongest(a: seq<int>, b: seq<int>)
    ensures Longest(Walk(a, b, 0, 0), a, b)
  {
    hide Walk, Length, SubsequenceFrom;
    WalkIsCommon(a, b, 0, 0);
    WalkLength(a, b, 0, 0);
    forall c | CommonSubsequence(c, a, b) ensures |c| <= |Walk(a, b, 0, 0)| {
      LengthBounds(a, b, 0, 0, c, 0);
    }
  }

  // ----- the program -----

  /** The table below row `i`, and in row `i` from column `j` on, is filled. */
  ghost predicate Filled(a: seq<int>, b: seq<int>, ll: array2<int>, choices: array2<int>, i: int, j: int)
    requires ll.Length0 == choices.Length0 == |a| && ll.Length1 == choices.Length1 == |b|
    reads ll, choices
  {
    forall r, c :: 0 <= r < |a| && 0 <= c < |b| && (r > i || (r == i && c >= j)) ==>
      ll[r, c] == Length(a, b, r, c) && choices[r, c] == Choice(a, b, r, c)
  }

  /** One entry of the table. */
  method FillEntry(a: seq<int>, b: seq<int>, ll: array2<int>, choices: array2<int>, i: nat, j: nat)
    requires ll.Length0 == choices.Length0 == |a| && ll.Length1 == choices.Length1 == |b| && ll != choices
    requires i < |a| && j < |b| && Filled(a, b, ll, choices, i, j + 1)
    modifies ll, choices
    ensures Filled(a, b, ll, choices, i, j)
  {
    hide Length;
    LengthStep(a, b, i, j);
    EdgeLengths(a, b, i, j);
    if a[i] == b[j] {
      var diag := if i + 1 < |a| && j + 1 < |b| then ll[i + 1, j + 1] else 0;
      ll[i, j] := 1 + diag;
      choices[i, j] := DIAGONAL;
    } else {
      DownOrRight(a, b, i, j);
      var down := if i + 1 < |a| then ll[i + 1, j] else 0;
      var right := if j + 1 < |b| then ll[i, j + 1] else 0;
      if down == right + 1 {
        ll[i, j] := down;
        choices[i, j] := DOWN;
      } else {
        ll[i, j] := right;
        choices[i, j] := RIGHT;
      }
    }
  }

  lemma EdgeLengths(a: seq<int>, b: seq<int>, i: nat, j: nat)
    requires i < |a| && j < |b|
    ensures Length(a, b, |a|, j) == 0 && Length(a, b, i, |b|) == 0 && Length(a, b, |a|, j + 1) == 0 &&
        Length(a, b, i + 1, |b|) == 0
  {
  }

  method FillTable(a: seq<int>, b: seq<int>, ll: array2<int>, choices: array2<int>)
    requires ll.Length0 == choices.Length0 == |a| && ll.Length1 == choices.Length1 == |b| && ll != choices
    modifies ll, choices
    ensures Filled(a, b, ll, choices, -1, 0)
  {
    hide Length;
    var i := |a|;
    while i > 0
      invariant 0 <= i <= |a| && Filled(a, b, ll, choices, i - 1, |b|)
    {
      i := i - 1;
      var j := |b|;
      while j > 0
        invariant 0 <= j <= |b| && Filled(a, b, ll, choices, i, j)
      {
        j := j - 1;
        FillEntry(a, b, ll, choices, i, j);
      }
    }
  }

  /** A sequence without its zeros. */
  function NonZero(s: seq<int>): seq<int> {
    if |s| == 0 then [] else NonZero(s[..|s| - 1]) + if s[|s| - 1] == 0 then [] else [s[|s| - 1]]
  }

  lemma {:induction false} NonZeroJoin(s: seq<int>, t: seq<int>)
    ensures NonZero(s + t) == NonZero(s) + NonZero(t)
    decreases |t|
  {
    if |t| == 0 {
      assert s + t == s;
    } else {
      assert (s + t)[..|s + t| - 1] == s + t[..|t| - 1];
      NonZeroJoin(s, t[..|t| - 1]);
    }
  }

  /** What has been written, followed by what the rest of the walk picks, is the whole walk. */
  ghost predicate Walked(a: seq<int>, b: seq<int>, written: seq<int>, iPtr: nat, jPtr: nat) {
    iPtr <= |a| && jPtr <= |b| && NonZero(written) + NonZero(Walk(a, b, iPtr, jPtr)) == NonZero(Walk(a, b, 0, 0))
  }

  lemma WalkStep(a: seq<int>, b: seq<int>, written: seq<int>, i: nat, j: nat)
    requires i < |a| && j < |b| && Walked(a, b, written + [0], i, j)
    ensures Choice(a, b, i, j) == DIAGONAL ==> Walked(a, b, written + [a[i]], i + 1, j + 1)
    ensures Choice(a, b, i, j) == DOWN ==> Walked(a, b, written + [0], i + 1, j)
    ensures Choice(a, b, i, j) == RIGHT ==> Walked(a, b, written + [0], i, j + 1)
  {
    hide Choice, NonZero, Walk;
    WalkUnfold(a, b, i, j);
    if Choice(a, b, i, j) == DIAGONAL {
      var rest := Walk(a, b, i + 1, j + 1);
      NonZeroJoin([a[i]], rest);
      NonZeroJoin(written, [0]);
      NonZeroJoin(written, [a[i]]);
      OneNonZero(0);
      Moved(NonZero(written), NonZero([a[i]]), NonZero(rest));
    }
  }

  lemma Moved(u: seq<int>, v: seq<int>, w: seq<int>)
    ensures u + [] + (v + w) == u + v + w
  {
  }

  lemma WalkUnfold(a: seq<int>, b: seq<int>, i: nat, j: nat)
    requires i < |a| && j < |b|
    ensures Walk(a, b, i, j) ==
      if Choice(a, b, i, j) == DIAGONAL then [a[i]] + Walk(a, b, i + 1, j + 1)
      else if Choice(a, b, i, j) == DOWN then Walk(a, b, i + 1, j)
      else Walk(a, b, i, j + 1)
  {
  }

  lemma OneNonZero(x: int)
    ensures NonZero([x]) == if x == 0 then [] else [x]
  {
    assert [x][..0] == [];
  }

  /** One row of the walk. */
  method WalkRow(a: seq<int>, b: seq<int>, choices: array2<int>, lcs: array<int>, i: nat, iStart: nat, jStart: nat)
    returns (iPtr: nat, jPtr: nat)
    requires choices.Length0 == |a| == lcs.Length && choices.Length1 == |b| && i < |a|
    requires forall r, c :: 0 <= r < |a| && 0 <= c < |b| ==> choices[r, c] == Choice(a, b, r, c)
    requires Walked(a, b, lcs[..i], iStart, jStart) && (iStart == i || (iStart < i && jStart == |b|))
    modifies lcs
    ensures Walked(a, b, lcs[..i + 1], iPtr, jPtr) && (iPtr == i + 1 || (iPtr < i + 1 && jPtr == |b|))
  {
    hide Walk, NonZero, Choice;
    ghost var was := lcs[..i];
    lcs[i] := 0;
    iPtr, jPtr := iStart, jStart;
    assert lcs[..i + 1] == was + [0];
    AddZero(a, b, was, iPtr, jPtr);
    var j := 0;
    while j < |b|
      invariant 0 <= j <= |b| && lcs[..i] == was
      invariant iPtr == i ==> j <= jPtr <= |b| && lcs[i] == 0
      invariant iPtr != i ==> iPtr == i + 1 || (iPtr < i && jPtr == |b|)
      invariant Walked(a, b, was + [lcs[i]], iPtr, jPtr)
    {
      if i == iPtr && j == jPtr {
        WalkStep(a, b, was, i, j);
        ChoiceKinds(a, b, i, j);
        if choices[i, j] == DIAGONAL {
          lcs[i] := a[i];
          iPtr := iPtr + 1;
          jPtr := jPtr + 1;
        } else if choices[i, j] == DOWN {
          iPtr := iPtr + 1;
        } else {
          jPtr := jPtr + 1;
        }
      }
      j := j + 1;
    }
    assert lcs[..i + 1] == was + [lcs[i]];
  }

  lemma ChoiceKinds(a: seq<int>, b: seq<int>, i: nat, j: nat)
    requires i < |a| && j < |b|
    ensures Choice(a, b, i, j) in {DIAGONAL, DOWN, RIGHT}
  {
  }

  lemma AddZero(a: seq<int>, b: seq<int>, written: seq<int>, i: nat, j: nat)
    requires Walked(a, b, written, i, j)
    ensures Walked(a, b, written + [0], i, j)
  {
    hide Walk;
    NonZeroJoin(written, [0]);
    OneNonZero(0);
    assert NonZero(written) + [] == NonZero(written);
  }

  /** The picked characters, with a zero for every other one. */
  method WalkBack(a: seq<int>, b: seq<int>, choices: array2<int>, lcs: array<int>)
    requires choices.Length0 == |a| == lcs.Length && choices.Length1 == |b|
    requires forall r, c :: 0 <= r < |a| && 0 <= c < |b| ==> choices[r, c] == Choice(a, b, r, c)
    modifies lcs
    ensures NonZero(lcs[..]) == NonZero(Walk(a, b, 0, 0))
  {
    hide Walk, Choice;
    var iPtr: nat, jPtr: nat := 0, 0;
    var i := 0;
    assert lcs[..0] == [];
    assert [] + NonZero(Walk(a, b, 0, 0)) == NonZero(Walk(a, b, 0, 0));
    while i < |a|
      invariant 0 <= i <= |a| && Walked(a, b, lcs[..i], iPtr, jPtr) && (iPtr == i || (iPtr < i && jPtr == |b|))
    {
      iPtr, jPtr := WalkRow(a, b, choices, lcs, i, iPtr, jPtr);
      i := i + 1;
    }
    assert lcs[..] == lcs[..i];
    WalkOver(a, b, iPtr, jPtr);
    assert NonZero(lcs[..]) + [] == NonZero(lcs[..]);
  }

  lemma WalkOver(a: seq<int>, b: seq<int>, i: nat, j: nat)
    requires i <= |a| && j <= |b| && (i == |a| || j == |b|)
    ensures Walk(a, b, i, j) == []
  {
  }

  /** Zeros come last. */
  predicate Packed(s: seq<int>) {
    forall i, j :: 0 <= i < j < |s| && s[i] == 0 ==> s[j] == 0
  }

  /** Filling the first gap with a later entry keeps the order of what is not zero. */
  lemma FillGap(s: seq<int>, p: nat, i: nat)
    requires p < i < |s| && (forall k :: p <= k < i ==> s[k] == 0)
    ensures NonZero(s[p := s[i]][i := 0]) == NonZero(s)
  {
    hide NonZero;
    var t := s[p := s[i]][i := 0];
    var gap := s[p + 1..i];
    assert s == s[..p] + [0] + gap + [s[i]] + s[i + 1..];
    assert t == s[..p] + [s[i]] + gap + [0] + s[i + 1..];
    AllZero(gap);
    OneNonZero(0);
    OneNonZero(s[i]);
    FiveParts(s[..p], [0], gap, [s[i]], s[i + 1..]);
    FiveParts(s[..p], [s[i]], gap, [0], s[i + 1..]);
  }

  lemma FiveParts(u: seq<int>, v: seq<int>, w: seq<int>, x: seq<int>, y: seq<int>)
    requires NonZero(w) == []
    ensures NonZero(u + v + w + x + y) == NonZero(u) + (NonZero(v) + NonZero(x)) + NonZero(y)
  {
    hide NonZero;
    NonZeroJoin(u, v);
    NonZeroJoin(u + v, w);
    NonZeroJoin(u + v + w, x);
    NonZeroJoin(u + v + w + x, y);
  }

  lemma {:induction false} AllZero(s: seq<int>)
    requires forall i :: 0 <= i < |s| ==> s[i] == 0
    ensures NonZero(s) == []
  {
    if |s| > 0 { AllZero(s[..|s| - 1]); }
  }

  /** Moves entry `i` into the first gap before it. */
  method PackEntry(lcs: array<int>, i: nat)
    requires i < lcs.Length && Packed(lcs[..i])
    modifies lcs
    ensures Packed(lcs[..i + 1]) && NonZero(lcs[..]) == NonZero(old(lcs[..]))
  {
    hide NonZero;
    ghost var s := lcs[..];
    ghost var p := 0;
    var inserted := false;
    var j := 0;
    while j < i
      invariant 0 <= j <= i
      invariant !inserted ==> lcs[..] == s && forall k :: 0 <= k < j ==> s[k] != 0
      invariant inserted ==>
          p < j && s[p] == 0 && (forall k :: 0 <= k < p ==> s[k] != 0) && lcs[..] == s[p := s[i]][i := 0]
    {
      if lcs[j] == 0 && !inserted {
        lcs[j] := lcs[i];
        lcs[i] := 0;
        p, inserted := j, true;
      }
      j := j + 1;
    }
    if inserted {
      assert forall k :: p <= k < i ==> s[k] == s[..i][k];
      FillGap(s, p, i);
    }
  }

  method Pack(lcs: array<int>)
    modifies lcs
    ensures Packed(lcs[..]) && NonZero(lcs[..]) == NonZero(old(lcs[..]))
  {
    hide NonZero;
    var i := 1;
    while i < lcs.Length
      invariant 1 <= i && (i <= lcs.Length || lcs.Length == 0)
      invariant NonZero(lcs[..]) == NonZero(old(lcs[..]))
      invariant lcs.Length > 0 ==> Packed(lcs[..i])
    {
      PackEntry(lcs, i);
      i := i + 1;
    }
    assert lcs.Length > 0 ==> lcs[..i] == lcs[..];
  }

  lemma {:induction false} PackedForm(s: seq<int>)
    requires Packed(s)
    ensures NonZero(s) <= s && forall k :: |NonZero(s)| <= k < |s| ==> s[k] == 0
  {
    if |s| > 0 {
      var n := |s| - 1;
      PackedForm(s[..n]);
      var t := NonZero(s[..n]);
      assert t == s[..|t|];
      assert |t| < n ==> s[..n][|t|] == 0;
    }
  }

  lemma {:induction false} NonZeroSame(s: seq<int>)
    requires forall i :: 0 <= i < |s| ==> s[i] != 0
    ensures NonZero(s) == s
  {
    if |s| > 0 { NonZeroSame(s[..|s| - 1]); }
  }

  lemma {:induction false} PartOf(s: seq<int>, k: nat, a: seq<int>, i: nat, m: nat)
    requires k <= m < |s| && i <= |a| && SubsequenceFrom(s, k, a, i)
    ensures s[m] in a
    decreases |a| - i
  {
    if s[k] == a[i] && SubsequenceFrom(s, k + 1, a, i + 1) {
      if m > k { PartOf(s, k + 1, a, i + 1, m); }
    } else {
      PartOf(s, k, a, i + 1, m);
    }
  }

  /**
   For strings that do not both contain the zero character, the output is a longest common subsequence, in order and
   padded with zeros.
   */
  method Compute(a: seq<int>, b: seq<int>) returns (lcs: array<int>)
    ensures lcs.Length == |a|
    ensures 0 !in a || 0 !in b ==>
      exists s :: Longest(s, a, b) && |s| <= |a| && lcs[..|s|] == s && forall k :: |s| <= k < |a| ==> lcs[k] == 0
  {
    hide Walk, Choice, Length, NonZero, Longest, SubsequenceFrom, Packed;
    var ll := new int[|a|, |b|];
    var choices := new int[|a|, |b|];
    lcs := new int[|a|];
    FillTable(a, b, ll, choices);
    WalkBack(a, b, choices, lcs);
    Pack(lcs);
    if 0 !in a || 0 !in b {
      ghost var s := Walk(a, b, 0, 0);
      WalkIsLongest(a, b);
      WalkIsCommon(a, b, 0, 0);
      forall k | 0 <= k < |s| ensures s[k] != 0 {
        PartOf(s, 0, a, 0, k);
        PartOf(s, 0, b, 0, k);
      }
      NonZeroSame(s);
      PackedForm(lcs[..]);
      assert lcs[..|s|] == lcs[..][..|s|];
      assert forall k :: |s| <= k < |a| ==> lcs[k] == lcs[..][k];
    }
  }
}
