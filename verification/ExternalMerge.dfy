/**
 The external sorter: chunks sorted one by one and merged through an input buffer for each chunk and one output
 buffer.  Files are sequences of entries.
 */
module ExternalMerge {
  import opened Quicksort

  /** An open chunk: what is still in the file, what was read, and the current entry; -1 stands for the null pointer. */
  datatype Chunk<T> = Chunk(file: seq<T>, buffer: seq<T>, current: int)

  ghost predicate Live<T>(c: Chunk<T>) {
    0 <= c.current < |c.buffer| || (c.current == -1 && c.file == [])
  }

  /** The entries of a chunk that are not yet written. */
  function Remaining<T>(c: Chunk<T>): seq<T> {
    if 0 <= c.current <= |c.buffer| then c.buffer[c.current..] + c.file else []
  }

  function Pending<T>(cs: seq<Chunk<T>>): multiset<T> {
    if |cs| == 0 then multiset{} else Pending(cs[..|cs| - 1]) + multiset(Remaining(cs[|cs| - 1]))
  }

  function AllOf<T>(files: seq<seq<T>>): multiset<T> {
    if |files| == 0 then multiset{} else AllOf(files[..|files| - 1]) + multiset(files[|files| - 1])
  }

  lemma {:induction false} PendingUpdate<T>(cs: seq<Chunk<T>>, k: nat, c: Chunk<T>)
    requires k < |cs|
    ensures Pending(cs[k := c]) + multiset(Remaining(cs[k])) == Pending(cs) + multiset(Remaining(c))
    decreases |cs|
  {
    hide Remaining;
    var n := |cs| - 1;
    if k < n {
      assert cs[k := c][..n] == cs[..n][k := c];
      PendingUpdate(cs[..n], k, c);
      AddBoth(Pending(cs[..n][k := c]), multiset(Remaining(cs[k])), Pending(cs[..n]), multiset(Remaining(c)),
          multiset(Remaining(cs[n])));
    } else {
      assert cs[k := c][..n] == cs[..n];
    }
  }

  lemma AddBoth<T>(a: multiset<T>, b: multiset<T>, c: multiset<T>, d: multiset<T>, e: multiset<T>)
    requires a + b == c + d
    ensures (a + e) + b == (c + e) + d
  {
    assert (a + e) + b == (a + b) + e;
    assert (c + e) + d == (c + d) + e;
  }

  lemma {:induction false} PendingHas<T>(cs: seq<Chunk<T>>, x: T)
    requires x in Pending(cs)
    ensures exists k :: 0 <= k < |cs| && x in Remaining(cs[k])
    decreases |cs|
  {
    var n := |cs| - 1;
    if |cs| > 0 && x in Pending(cs[..n]) {
      PendingHas(cs[..n], x);
      var k :| 0 <= k < n && x in Remaining(cs[..n][k]);
      assert x in Remaining(cs[k]);
    } else if |cs| > 0 {
      assert x in Remaining(cs[n]);
    }
  }

  /** Reads the next buffer of a chunk. */
  function Refill<T>(c: Chunk<T>, bufsize: nat): Chunk<T> {
    var count := if |c.file| < bufsize then |c.file| else bufsize;
    Chunk(c.file[count..], c.file[..count], if count == 0 then -1 else 0)
  }

  lemma RefillKeeps<T>(c: Chunk<T>, bufsize: nat)
    requires bufsize > 0 && c.current == |c.buffer|
    ensures Live(Refill(c, bufsize)) && Remaining(Refill(c, bufsize)) == c.file == Remaining(c)
  {
    var d := Refill(c, bufsize);
    assert c.buffer[c.current..] == [];
    assert c.file == d.buffer + d.file;
    if |c.file| > 0 { assert d.buffer[0..] == d.buffer; }
  }

  ghost predicate AllLive<T>(cs: seq<Chunk<T>>) {
    forall i :: 0 <= i < |cs| ==> Live(cs[i])
  }

  function Head<T>(c: Chunk<T>): T
    requires 0 <= c.current < |c.buffer|
  {
    c.buffer[c.current]
  }

  /** Chunk `k` has the least current entry among the first `n` chunks, before all equal ones; -1 if these are over. */
  ghost predicate Smallest<T>(cs: seq<Chunk<T>>, n: nat, k: int, cmp: Comparator<T>)
    requires n <= |cs| && AllLive(cs)
  {
    && -1 <= k < n
    && (k == -1 ==> forall i :: 0 <= i < n ==> cs[i].current == -1)
    && (k >= 0 ==> cs[k].current >= 0)
    && (k >= 0 ==> forall i :: 0 <= i < n && cs[i].current >= 0 ==> cmp(Head(cs[k]), Head(cs[i])) <= 0)
    && (k >= 0 ==> forall i :: 0 <= i < k && cs[i].current >= 0 ==> cmp(Head(cs[k]), Head(cs[i])) < 0)
  }

  lemma SmallestNext<T(!new)>(cs: seq<Chunk<T>>, n: nat, k: int, cmp: Comparator<T>)
    requires TotalPreorder(cmp) && n < |cs| && AllLive(cs) && Smallest(cs, n, k, cmp)
    ensures var taken := cs[n].current != -1 && (k == -1 || cmp(Head(cs[n]), Head(cs[k])) < 0);
            Smallest(cs, n + 1, if taken then n else k, cmp)
  {
    assert Live(cs[n]);
  }

  /** The chunk to take from. */
  method FindSmallest<T(!new)>(chunks: array<Chunk<T>>, cmp: Comparator<T>) returns (k: int)
    requires TotalPreorder(cmp) && AllLive(chunks[..])
    ensures AllLive(chunks[..]) && Smallest(chunks[..], chunks.Length, k, cmp)
  {
    hide TotalPreorder, AllLive;
    k := -1;
    var i := 0;
    while i < chunks.Length
      invariant 0 <= i <= chunks.Length && Smallest(chunks[..], i, k, cmp)
    {
      SmallestNext(chunks[..], i, k, cmp);
      LiveAt(chunks[..], i);
      if k >= 0 { LiveAt(chunks[..], k); }
      if chunks[i].current != -1 {
        if k == -1 || cmp(Head(chunks[i]), Head(chunks[k])) < 0 {
          k := i;
        }
      }
      i := i + 1;
    }
  }

  lemma LiveAt<T>(cs: seq<Chunk<T>>, i: nat)
    requires AllLive(cs) && i < |cs|
    ensures Live(cs[i])
  {
  }

  // ----- merging -----

  /** Every unread part is sorted and nothing in it is below an entry already written. */
  ghost predicate InOrder<T>(done: seq<T>, cs: seq<Chunk<T>>, cmp: Comparator<T>) {
    && Sorted(done, cmp)
    && (forall k :: 0 <= k < |cs| ==> Sorted(Remaining(cs[k]), cmp))
    && (forall i, k, m :: 0 <= i < |done| && 0 <= k < |cs| && 0 <= m < |Remaining(cs[k])| ==>
        cmp(done[i], Remaining(cs[k])[m]) <= 0)
  }

  /** Taking the head of a chunk. */
  ghost predicate Advanced<T>(c: Chunk<T>, d: Chunk<T>)
    requires 0 <= c.current < |c.buffer|
  {
    Live(d) && Remaining(c) == [Head(c)] + Remaining(d)
  }

  lemma HeadIsLeast<T(!new)>(cs: seq<Chunk<T>>, k: nat, i: nat, m: nat, cmp: Comparator<T>)
    requires TotalPreorder(cmp) && AllLive(cs) && k < |cs| && Smallest(cs, |cs|, k, cmp) && i < |cs| && Live(cs[k]) &&
        cs[k].current >= 0
    requires Sorted(Remaining(cs[i]), cmp) && m < |Remaining(cs[i])|
    ensures cmp(Head(cs[k]), Remaining(cs[i])[m]) <= 0
  {
    assert Live(cs[i]);
    var r := Remaining(cs[i]);
    assert cs[i].current >= 0 && r[0] == Head(cs[i]);
    if m > 0 { assert cmp(r[0], r[m]) <= 0; }
  }

  lemma OrderKept<T(!new)>(done: seq<T>, cs: seq<Chunk<T>>, k: nat, d: Chunk<T>, cmp: Comparator<T>)
    requires TotalPreorder(cmp) && AllLive(cs) && k < |cs| && Smallest(cs, |cs|, k, cmp) &&
        cs[k].current < |cs[k].buffer|
    requires InOrder(done, cs, cmp) && Advanced(cs[k], d)
    ensures InOrder(done + [Head(cs[k])], cs[k := d], cmp)
  {
    hide TotalPreorder, Smallest;
    var x, cs' := Head(cs[k]), cs[k := d];
    var r := Remaining(cs[k]);
    assert r[0] == x && r[1..] == Remaining(d);
    assert Sorted(done + [x], cmp);
    forall i, m | 0 <= i < |cs| && 0 <= m < |Remaining(cs'[i])|
      ensures cmp(x, Remaining(cs'[i])[m]) <= 0
    {
      if i == k {
        assert Remaining(d)[m] == r[m + 1];
        HeadIsLeast(cs, k, k, m + 1, cmp);
      } else {
        HeadIsLeast(cs, k, i, m, cmp);
      }
    }
    forall i, j, m | 0 <= i < |done| && 0 <= j < |cs| && 0 <= m < |Remaining(cs'[j])|
      ensures cmp(done[i], Remaining(cs'[j])[m]) <= 0
    {
      if j == k { assert Remaining(d)[m] == r[m + 1]; }
    }
    assert Sorted(Remaining(d), cmp);
  }

  /** Takes the current entry of a chunk and refills its buffer when it is used up. */
  method TakeFrom<T>(chunks: array<Chunk<T>>, k: nat, bufsize: nat) returns (x: T)
    requires bufsize > 0 && k < chunks.Length && AllLive(chunks[..]) && chunks[k].current >= 0 &&
        chunks[k].current < |chunks[k].buffer|
    modifies chunks
    ensures 0 <= old(chunks[k]).current < |old(chunks[k]).buffer| && x == Head(old(chunks[k]))
    ensures chunks[..] == old(chunks[..])[k := chunks[k]] && Advanced(old(chunks[k]), chunks[k]) && AllLive(chunks[..])
  {
    var c := chunks[k];
    x := Head(c);
    var d := c.(current := c.current + 1);
    assert Remaining(c) == [x] + Remaining(d) by {
      assert c.buffer[c.current..] == [x] + c.buffer[c.current + 1..];
    }
    if d.current >= |d.buffer| {
      RefillKeeps(d, bufsize);
      d := Refill(d, bufsize);
    }
    chunks[k] := d;
  }

  /** Opens the chunks; none of them is empty. */
  method Open<T>(files: seq<seq<T>>, bufsize: nat) returns (chunks: array<Chunk<T>>)
    requires bufsize > 0 && forall k :: 0 <= k < |files| ==> |files[k]| > 0
    ensures fresh(chunks) && chunks.Length == |files| && AllLive(chunks[..])
    ensures forall k :: 0 <= k < |files| ==> Remaining(chunks[k]) == files[k]
  {
    chunks := new Chunk<T>[|files|](_ => Chunk([], [], -1));
    var i := 0;
    while i < |files|
      invariant 0 <= i <= |files| && AllLive(chunks[..])
      invariant forall k :: 0 <= k < i ==> Remaining(chunks[k]) == files[k]
    {
      RefillKeeps(Chunk(files[i], [], 0), bufsize);
      chunks[i] := Refill(Chunk(files[i], [], 0), bufsize);
      i := i + 1;
    }
  }

  lemma {:induction false} OpenedPending<T>(files: seq<seq<T>>, cs: seq<Chunk<T>>)
    requires |cs| == |files| && forall k :: 0 <= k < |files| ==> Remaining(cs[k]) == files[k]
    ensures Pending(cs) == AllOf(files)
    decreases |files|
  {
    if |files| > 0 { OpenedPending(files[..|files| - 1], cs[..|cs| - 1]); }
  }

  lemma NothingPending<T>(cs: seq<Chunk<T>>)
    requires forall k :: 0 <= k < |cs| ==> cs[k].current == -1
    ensures Pending(cs) == multiset{}
  {
    if x :| x in Pending(cs) { PendingHas(cs, x); }
  }

  /** The merge loop's state: what is written or in the output buffer, and what is still to come, are all entries. */
  ghost predicate Merging<T>(done: seq<T>, cs: seq<Chunk<T>>, all: multiset<T>, cmp: Comparator<T>) {
    AllLive(cs) && InOrder(done, cs, cmp) && multiset(done) + Pending(cs) == all
  }

  lemma MergeStep<T(!new)>(done: seq<T>, cs: seq<Chunk<T>>, k: nat, d: Chunk<T>, all: multiset<T>, cmp: Comparator<T>)
    requires TotalPreorder(cmp) && Merging(done, cs, all, cmp) && k < |cs| && Smallest(cs, |cs|, k, cmp)
    requires cs[k].current < |cs[k].buffer| && Advanced(cs[k], d) && AllLive(cs[k := d])
    ensures Merging(done + [Head(cs[k])], cs[k := d], all, cmp)
    ensures |Pending(cs[k := d])| < |Pending(cs)|
  {
    hide TotalPreorder, Smallest, InOrder, Pending, Remaining;
    Taking(cs, k, cmp);
    var x := Head(cs[k]);
    OrderKept(done, cs, k, d, cmp);
    PendingUpdate(cs, k, d);
    Counted(done, x, Pending(cs), Pending(cs[k := d]), Remaining(cs[k]), Remaining(d));
  }

  lemma Counted<T>(done: seq<T>, x: T, p: multiset<T>, p': multiset<T>, r: seq<T>, r': seq<T>)
    requires r == [x] + r' && p' + multiset(r) == p + multiset(r')
    ensures multiset(done + [x]) + p' == multiset(done) + p && |p'| < |p|
  {
    assert multiset(r) == multiset{x} + multiset(r');
    assert p' + multiset{x} == p by {
      assert (p' + multiset{x}) + multiset(r') == p + multiset(r');
      CancelRight(p' + multiset{x}, p, multiset(r'));
    }
    assert multiset(done + [x]) == multiset(done) + multiset{x};
    assert |p| == |p'| + 1;
  }

  lemma CancelRight<T>(a: multiset<T>, b: multiset<T>, c: multiset<T>)
    requires a + c == b + c
    ensures a == b
  {
    assert a == (a + c) - c;
    assert b == (b + c) - c;
  }

  /** Merges sorted chunks through buffers of any positive size. */
  method Merge<T(0, !new)>(files: seq<seq<T>>, bufsize: nat, cmp: Comparator<T>) returns (out: seq<T>)
    requires TotalPreorder(cmp) && bufsize > 0
    requires forall k :: 0 <= k < |files| ==> |files[k]| > 0 && Sorted(files[k], cmp)
    ensures Sorted(out, cmp) && multiset(out) == AllOf(files)
  {
    hide TotalPreorder, AllLive, InOrder, Pending, Remaining, Smallest, Sorted, Merging, Advanced;
    var chunks := Open(files, bufsize);
    var sortedBuf := new T[bufsize];
    out := [];
    var bufIndex := 0;
    MergeStarts(files, chunks[..], cmp);
    assert out + sortedBuf[..0] == [];
    while true
      invariant 0 <= bufIndex < bufsize && AllLive(chunks[..])
      invariant Merging(out + sortedBuf[..bufIndex], chunks[..], AllOf(files), cmp)
      decreases |Pending(chunks[..])|
    {
      var k := FindSmallest(chunks, cmp);
      if k == -1 {
        MergeEnds(out + sortedBuf[..bufIndex], chunks[..], AllOf(files), cmp);
        break;
      }
      ghost var cs, done := chunks[..], out + sortedBuf[..bufIndex];
      Taking(cs, k, cmp);
      var x := TakeFrom(chunks, k, bufsize);
      MergeStep(done, cs, k, chunks[k], AllOf(files), cmp);
      sortedBuf[bufIndex] := x;
      bufIndex := bufIndex + 1;
      assert out + sortedBuf[..bufIndex] == done + [x];
      if bufIndex >= bufsize {
        assert sortedBuf[..] == sortedBuf[..bufIndex];
        out := out + sortedBuf[..];
        bufIndex := 0;
        assert out + sortedBuf[..0] == done + [x];
      }
    }
    out := out + sortedBuf[..bufIndex];
  }

  lemma Taking<T>(cs: seq<Chunk<T>>, k: int, cmp: Comparator<T>)
    requires AllLive(cs) && Smallest(cs, |cs|, k, cmp) && k != -1
    ensures 0 <= k < |cs| && 0 <= cs[k].current < |cs[k].buffer|
  {
    assert Live(cs[k]);
  }

  lemma MergeStarts<T>(files: seq<seq<T>>, cs: seq<Chunk<T>>, cmp: Comparator<T>)
    requires |cs| == |files| && AllLive(cs) && forall k :: 0 <= k < |files| ==>
        Remaining(cs[k]) == files[k] && Sorted(files[k], cmp)
    ensures Merging([], cs, AllOf(files), cmp)
  {
    hide Remaining;
    OpenedPending(files, cs);
  }

  lemma MergeEnds<T>(done: seq<T>, cs: seq<Chunk<T>>, all: multiset<T>, cmp: Comparator<T>)
    requires Merging(done, cs, all, cmp) && Smallest(cs, |cs|, -1, cmp)
    ensures Sorted(done, cmp) && multiset(done) == all
  {
    NothingPending(cs);
  }

  /** Sorts one chunk in memory. */
  method SortChunk<T(!new)>(file: seq<T>, cmp: Comparator<T>) returns (sorted: seq<T>)
    requires TotalPreorder(cmp)
    ensures Sorted(sorted, cmp) && multiset(sorted) == multiset(file) && |sorted| == |file|
  {
    hide TotalPreorder;
    var buffer := new T[|file|](i requires 0 <= i < |file| => file[i]);
    assert buffer[..] == file;
    SortAll(buffer, cmp);
    sorted := buffer[..];
    assert |multiset(sorted)| == |multiset(file)|;
  }

  /** Sorting the chunks and merging them sorts the whole. */
  method ExternalSort<T(0, !new)>(files: seq<seq<T>>, bufsize: nat, cmp: Comparator<T>) returns (out: seq<T>)
    requires TotalPreorder(cmp) && bufsize > 0 && forall k :: 0 <= k < |files| ==> |files[k]| > 0
    ensures Sorted(out, cmp) && multiset(out) == AllOf(files)
  {
    hide TotalPreorder, Sorted;
    var sorted: seq<seq<T>> := [];
    var i := 0;
    assert files[..0] == [];
    while i < |files|
      invariant 0 <= i <= |files| && |sorted| == i && AllOf(sorted) == AllOf(files[..i])
      invariant forall k :: 0 <= k < i ==> |sorted[k]| > 0 && Sorted(sorted[k], cmp)
    {
      var chunk := SortChunk(files[i], cmp);
      assert (sorted + [chunk])[..i] == sorted && files[..i + 1][..i] == files[..i];
      sorted := sorted + [chunk];
      i := i + 1;
    }
    assert files[..i] == files;
    out := Merge(sorted, bufsize, cmp);
  }
}
