/** Result sets: the results of the entries that a query selects, in order, as far as they fit. */
module AvlResults {
  import opened AvlSpec

  const MAX_TREE_RESULTS := 5

  datatype Result = Result(key: int, value: int)

  /** The results of one entry, and of entries in order. */
  function ResultsOf(e: Entry): (r: seq<Result>)
    ensures |r| == |e.values| && forall k :: 0 <= k < |r| ==> r[k] == Result(e.key, e.values[k])
  {
    seq(|e.values|, k requires 0 <= k < |e.values| => Result(e.key, e.values[k]))
  }

  function Flatten(s: seq<Entry>): seq<Result> {
    if |s| == 0 then [] else Flatten(s[..|s| - 1]) + ResultsOf(s[|s| - 1])
  }

  function Select(s: seq<Entry>, want: Entry -> bool): seq<Entry> {
    if |s| == 0 then [] else
      Select(s[..|s| - 1], want) + if want(s[|s| - 1]) then [s[|s| - 1]] else []
  }

  /** As many results as fit. */
  function Fitting(s: seq<Result>): (r: seq<Result>)
    ensures |r| <= MAX_TREE_RESULTS
  {
    if |s| <= MAX_TREE_RESULTS then s else s[..MAX_TREE_RESULTS]
  }

  lemma {:induction false} SelectJoin(a: seq<Entry>, b: seq<Entry>, want: Entry -> bool)
    ensures Select(a + b, want) == Select(a, want) + Select(b, want)
    decreases |b|
  {
    if |b| == 0 {
      assert a + b == a;
    } else {
      var n := |b| - 1;
      assert (a + b)[..|a + b| - 1] == a + b[..n];
      SelectJoin(a, b[..n], want);
    }
  }

  lemma {:induction false} FlattenJoin(a: seq<Entry>, b: seq<Entry>)
    ensures Flatten(a + b) == Flatten(a) + Flatten(b)
    decreases |b|
  {
    if |b| == 0 {
      assert a + b == a;
    } else {
      var n := |b| - 1;
      assert (a + b)[..|a + b| - 1] == a + b[..n];
      FlattenJoin(a, b[..n]);
    }
  }

  lemma {:induction false} SelectNone(s: seq<Entry>, want: Entry -> bool)
    requires forall i :: 0 <= i < |s| ==> !want(s[i])
    ensures Select(s, want) == []
  {
    if |s| > 0 { SelectNone(s[..|s| - 1], want); }
  }

  lemma {:induction false} SelectAll(s: seq<Entry>, want: Entry -> bool)
    requires forall i :: 0 <= i < |s| ==> want(s[i])
    ensures Select(s, want) == s
  {
    if |s| > 0 {
      var n := |s| - 1;
      assert s == s[..n] + [s[n]];
      SelectAll(s[..n], want);
      assert want(s[n]);
    }
  }

  // ----- in terms of keys and values -----

  /** The entries of an ascending list are those of its map. */
  lemma {:induction false} EntryOf(s: seq<Entry>, i: nat)
    requires Ascending(s) && i < |s|
    ensures s[i].key in Entries(s) && Entries(s)[s[i].key] == s[i].values
    decreases |s|
  {
    if i > 0 { EntryOf(s[1..], i - 1); }
  }

  lemma {:induction false} EntryAt(s: seq<Entry>, k: int) returns (i: nat)
    requires k in Entries(s)
    ensures i < |s| && s[i] == Entry(k, Entries(s)[k])
    decreases |s|
  {
    if s[0].key == k {
      i := 0;
    } else {
      i := EntryAt(s[1..], k);
      i := i + 1;
    }
  }

  /** Where a result comes from. */
  lemma {:induction false} ResultFrom(s: seq<Entry>, want: Entry -> bool, p: nat) returns (i: nat)
    requires p < |Flatten(Select(s, want))|
    ensures i < |s| && want(s[i])
    ensures var r := Flatten(Select(s, want))[p]; r.key == s[i].key && r.value in s[i].values
    decreases |s|
  {
    hide Flatten;
    if |s| == 0 {
      FlattenNothing();
      assert false;
    } else {
      var n := |s| - 1;
      var before := Select(s[..n], want);
      FlattenJoin(before, [s[n]]);
      FlattenOne(s[n]);
      assert before + [] == before;
      if p < |Flatten(before)| {
        i := ResultFrom(s[..n], want, p);
      } else {
        i := n;
        assert Flatten(Select(s, want))[p] == ResultsOf(s[n])[p - |Flatten(before)|];
      }
    }
  }

  /** Every value of a selected entry is a result. */
  lemma {:induction false} ResultAt(s: seq<Entry>, want: Entry -> bool, i: nat, v: int) returns (p: nat)
    requires i < |s| && want(s[i]) && v in s[i].values
    ensures p < |Flatten(Select(s, want))| && Flatten(Select(s, want))[p] == Result(s[i].key, v)
    decreases |s|
  {
    hide Flatten;
    var n := |s| - 1;
    var before := Select(s[..n], want);
    FlattenJoin(before, [s[n]]);
    FlattenOne(s[n]);
    assert before + [] == before;
    if i < n {
      p := ResultAt(s[..n], want, i, v);
    } else {
      var k :| 0 <= k < |s[n].values| && s[n].values[k] == v;
      p := |Flatten(before)| + k;
      assert Flatten(Select(s, want))[p] == ResultsOf(s[n])[k];
    }
  }

  lemma FlattenNothing()
    ensures Flatten([]) == []
  {
  }

  lemma FlattenOne(e: Entry)
    ensures Flatten([e]) == ResultsOf(e)
  {
    assert [e][..0] == [];
  }

  ghost predicate InKeyOrder(r: seq<Result>) {
    forall p, q :: 0 <= p < q < |r| ==> r[p].key <= r[q].key
  }

  lemma {:induction false} ResultsAscend(s: seq<Entry>, want: Entry -> bool)
    requires Ascending(s)
    ensures InKeyOrder(Flatten(Select(s, want)))
    decreases |s|
  {
    hide Flatten, ResultsOf;
    if |s| == 0 {
      FlattenNothing();
    } else {
      var n := |s| - 1;
      var before := Select(s[..n], want);
      ResultsAscend(s[..n], want);
      FlattenJoin(before, [s[n]]);
      FlattenOne(s[n]);
      assert before + [] == before;
      forall p: nat | p < |Flatten(before)| ensures Flatten(before)[p].key <= s[n].key {
        var i := ResultFrom(s[..n], want, p);
      }
      OrderedJoin(Flatten(before), s[n]);
    }
  }

  lemma OrderedJoin(r: seq<Result>, e: Entry)
    requires InKeyOrder(r) && forall p :: 0 <= p < |r| ==> r[p].key <= e.key
    ensures InKeyOrder(r + ResultsOf(e))
  {
    var all := r + ResultsOf(e);
    forall p, q | 0 <= p < q < |all| ensures all[p].key <= all[q].key {
      if q >= |r| { assert all[q] == ResultsOf(e)[q - |r|]; }
      if p >= |r| { assert all[p] == ResultsOf(e)[p - |r|]; }
    }
  }

  /** A key has a value. */
  predicate Has(m: map<int, seq<int>>, r: Result) {
    r.key in m && r.value in m[r.key]
  }

  /** A result is returned, or results of keys up to its own take all the room. */
  ghost predicate Returned(results: seq<Result>, r: Result) {
    || r in results
    || (|results| == MAX_TREE_RESULTS && forall p :: 0 <= p < |results| ==> results[p].key <= r.key)
  }

  /** The first results of the selected entries are values of selected keys, in the order of the keys. */
  lemma ResultsSound(s: seq<Entry>, want: Entry -> bool, results: seq<Result>)
    requires Ascending(s) && results <= Flatten(Select(s, want))
    ensures InKeyOrder(results)
    ensures forall p :: 0 <= p < |results| ==>
      Has(Entries(s), results[p]) && exists e: Entry :: e.key == results[p].key && want(e)
  {
    hide Flatten, Select, Entries, Ascending;
    ResultsAscend(s, want);
    forall p: nat | p < |results|
      ensures Has(Entries(s), results[p]) && exists e: Entry :: e.key == results[p].key && want(e)
    {
      var i := ResultFrom(s, want, p);
      EntryOf(s, i);
      assert want(s[i]);
    }
  }

  /** And every value of a selected key is among them if they fit. */
  lemma ResultsComplete(s: seq<Entry>, want: Entry -> bool, results: seq<Result>)
    requires Ascending(s) && results == Fitting(Flatten(Select(s, want)))
    ensures forall r: Result :: Has(Entries(s), r) && (forall e: Entry :: e.key == r.key ==> want(e)) ==>
      Returned(results, r)
  {
    hide Flatten, Select, Entries, Ascending;
    var all := Flatten(Select(s, want));
    ResultsAscend(s, want);
    forall r: Result | Has(Entries(s), r) && (forall e: Entry :: e.key == r.key ==> want(e))
      ensures Returned(results, r)
    {
      var i := EntryAt(s, r.key);
      assert want(s[i]);
      var q := ResultAt(s, want, i, r.value);
      if q < |results| {
        assert results[q] == r;
      } else {
        assert forall p :: 0 <= p < |results| ==> results[p] == all[p];
      }
    }
  }
}
