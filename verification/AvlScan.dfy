/** Ordered scans: a path as a position among the entries, its in-order successor, and the range queries. */
module AvlScan {
  import opened AvlResults
  import opened AvlSpec
  import opened AvlTree

  // ----- positions -----

  function Child(t: Tree, branch: int): Tree {
    if t.Nil? then Nil else if branch == TREE_PATH_LEFT then t.left else t.right
  }

  /** The subtree at step `i` of a path with the given branches. */
  function Sub(t: Tree, branches: seq<int>, i: nat): Tree
    requires i <= |branches|
  {
    if i == 0 then t else Child(Sub(t, branches, i - 1), branches[i - 1])
  }

  /** The entries to the right of the subtree at step `i`. */
  function Above(t: Tree, branches: seq<int>, i: nat): seq<Entry>
    requires i <= |branches|
  {
    if i == 0 then [] else
      var u := Sub(t, branches, i - 1);
      (if u.Fork? && branches[i - 1] == TREE_PATH_LEFT then [Entry(u.key, u.values)] + InOrder(u.right) else [])
      + Above(t, branches, i - 1)
  }

  /** The entries to its left. */
  function Below(t: Tree, branches: seq<int>, i: nat): seq<Entry>
    requires i <= |branches|
  {
    if i == 0 then [] else
      var u := Sub(t, branches, i - 1);
      Below(t, branches, i - 1)
      + (if u.Fork? && branches[i - 1] != TREE_PATH_LEFT then InOrder(u.left) + [Entry(u.key, u.values)] else [])
  }

  lemma {:induction false} PathSplitsOrder(t: Tree, branches: seq<int>, i: nat)
    requires i <= |branches|
    ensures InOrder(t) == Below(t, branches, i) + InOrder(Sub(t, branches, i)) + Above(t, branches, i)
    decreases i
  {
    hide InOrder;
    if i > 0 {
      PathSplitsOrder(t, branches, i - 1);
      var u := Sub(t, branches, i - 1);
      if u.Fork? {
        InOrderFork(u);
        Regroup(Below(t, branches, i - 1), InOrder(u.left), Entry(u.key, u.values), InOrder(u.right),
            Above(t, branches, i - 1));
      }
    }
  }

  lemma Regroup(a: seq<Entry>, l: seq<Entry>, e: Entry, r: seq<Entry>, c: seq<Entry>)
    ensures a + (l + [e] + r) + c == a + l + ([e] + r + c)
    ensures a + (l + [e] + r) + c == (a + (l + [e])) + r + c
  {
  }

  lemma {:induction false} SamePath(t: Tree, b: seq<int>, b': seq<int>, i: nat)
    requires i <= |b| && i <= |b'| && b[..i] == b'[..i]
    ensures Sub(t, b, i) == Sub(t, b', i) && Above(t, b, i) == Above(t, b', i)
    decreases i
  {
    if i > 0 {
      assert b[..i][..i - 1] == b[..i - 1] && b'[..i][..i - 1] == b'[..i - 1];
      assert b[..i][i - 1] == b'[..i][i - 1];
      SamePath(t, b, b', i - 1);
    }
  }

  lemma {:induction false} SubHeight(t: Tree, branches: seq<int>, i: nat)
    requires i <= |branches|
    ensures Sub(t, branches, i).Fork? ==> Height(Sub(t, branches, i)) + i <= Height(t)
    decreases i
  {
    if i > 0 { SubHeight(t, branches, i - 1); }
  }

  /** The first `depth` nodes of the path are those of the tree along its branches. */
  ghost predicate At(nodes: map<nat, Node>, path: seq<Node>, branches: seq<int>, t: Tree, depth: nat) {
    && 1 <= depth <= |path| && depth <= |branches|
    && forall i :: 0 <= i < depth ==> Represents(nodes, path[i], Sub(t, branches, i))
  }

  function Current(t: Tree, branches: seq<int>, depth: nat): Entry
    requires 1 <= depth <= |branches| + 1 && Sub(t, branches, depth - 1).Fork?
  {
    var u := Sub(t, branches, depth - 1);
    Entry(u.key, u.values)
  }

  /** The entries after the node at the end of the path. */
  function After(t: Tree, branches: seq<int>, depth: nat): seq<Entry>
    requires 1 <= depth <= |branches| + 1 && Sub(t, branches, depth - 1).Fork?
  {
    InOrder(Sub(t, branches, depth - 1).right) + Above(t, branches, depth - 1)
  }

  // ----- the in-order successor -----

  /** Going down: the path ends at level `i` - 1 and what is left to visit starts with the subtree at `h`. */
  ghost predicate Descending(nodes: map<nat, Node>, t: Tree, branches: seq<int>, i: nat, h: nat, rest: seq<Entry>)
    requires i <= |branches|
  {
    Denotes(nodes, h, Sub(t, branches, i)) && InOrder(Sub(t, branches, i)) + Above(t, branches, i) == rest
  }

  lemma DescendLeft(nodes: map<nat, Node>, t: Tree, b: seq<int>, b': seq<int>, i: nat, h: nat, rest: seq<Entry>)
    requires i < |b| == |b'| && b' == b[i := TREE_PATH_LEFT] && Descending(nodes, t, b, i, h, rest) && h != NULL_HASH
    ensures h in nodes && Represents(nodes, nodes[h], Sub(t, b', i))
    ensures Descending(nodes, t, b', i + 1, nodes[h].left, rest)
  {
    hide InOrder, Above;
    var u := Sub(t, b, i);
    Found(nodes, h, u);
    SamePath(t, b, b', i);
    AboveLeft(t, b', i);
  }

  lemma AboveLeft(t: Tree, b: seq<int>, i: nat)
    requires i < |b| && b[i] == TREE_PATH_LEFT && Sub(t, b, i).Fork?
    ensures InOrder(Sub(t, b, i + 1)) + Above(t, b, i + 1) == InOrder(Sub(t, b, i)) + Above(t, b, i)
    ensures Above(t, b, i + 1) == [Current(t, b, i + 1)] + After(t, b, i + 1)
  {
  }

  lemma Landed(nodes: map<nat, Node>, t: Tree, b: seq<int>, i: nat, h: nat, rest: seq<Entry>)
    requires 1 <= i <= |b| && b[i - 1] == TREE_PATH_LEFT && Sub(t, b, i - 1).Fork?
    requires Descending(nodes, t, b, i, h, rest) && (h == NULL_HASH || i >= Height(t))
    ensures rest == [Current(t, b, i)] + After(t, b, i)
  {
    SubHeight(t, b, i);
    AboveLeft(t, b, i - 1);
  }

  /** The path grows by the nodes visited on the way to the leftmost node of the right subtree. */
  method FindNextBelow(store: HashStore, path: array<Node>, branches: array<int>, oldDepth: nat, ghost t: Tree)
    returns (found: bool, depth: nat)
    requires path.Length == branches.Length == MAX_TREE_DEPTH && Height(t) <= MAX_TREE_DEPTH
    requires At(store.nodes, path[..], branches[..], t, oldDepth)
    modifies path, branches
    ensures depth <= MAX_TREE_DEPTH && At(store.nodes, path[..], branches[..], t, depth)
    ensures found <==> Sub(t, old(branches[..]), oldDepth - 1).right.Fork?
    ensures found ==>
        [Current(t, branches[..], depth)] + After(t, branches[..], depth) == After(t, old(branches[..]), oldDepth)
    ensures !found ==> depth == oldDepth && branches[..oldDepth - 1] == old(branches[..oldDepth - 1])
  {
    hide InOrder, Above, Represents, Denotes, Height, Sub;
    ghost var start := branches[..];
    Representing(store.nodes, path[oldDepth - 1], Sub(t, start, oldDepth - 1));
    ghost var rest := After(t, start, oldDepth);
    ghost var u := Sub(t, start, oldDepth - 1);
    var h := NULL_HASH;
    found, depth := false, oldDepth;
    var oldIndex := oldDepth - 1;
    var i := 0;
    while i < MAX_TREE_DEPTH
      invariant 0 <= i <= MAX_TREE_DEPTH
      invariant i <= oldIndex ==> !found && depth == oldDepth && branches[..] == start && path[..] == old(path[..])
      invariant i > oldIndex ==> oldDepth <= depth <= i && (h != NULL_HASH ==> depth == i)
      invariant i > oldIndex ==>
          branches[..oldIndex] == start[..oldIndex] && At(store.nodes, path[..], branches[..], t, depth)
      invariant i > oldIndex ==> Descending(store.nodes, t, branches[..], depth, h, rest)
      invariant i > oldIndex && found ==> branches[depth - 1] == TREE_PATH_LEFT && u.right.Fork?
      invariant i > oldIndex && !found ==> depth == oldDepth && (h == NULL_HASH <==> u.right.Nil?)
    {
      if i == oldIndex {
        h := path[i].right;
        branches[i] := TREE_PATH_RIGHT;
        TurnRight(store.nodes, path[..], start, branches[..], t, oldDepth);
      } else if i > oldIndex && h != NULL_HASH {
        ghost var p, b := path[..], branches[..];
        DescendLeft(store.nodes, t, b, b[i := TREE_PATH_LEFT], i, h, rest);
        var node := store.Get(h);
        found := true;
        depth := i + 1;
        path[i] := node;
        branches[i] := TREE_PATH_LEFT;
        AtLonger(store.nodes, p, b, path[..], branches[..], t, i);
        h := node.left;
      }
      i := i + 1;
    }
    if found {
      Representing(store.nodes, path[depth - 1], Sub(t, branches[..], depth - 1));
      Landed(store.nodes, t, branches[..], depth, h, rest);
    } else if oldDepth == MAX_TREE_DEPTH {
      DeepestHasNone(t, start, oldDepth);
    }
  }

  lemma DeepestHasNone(t: Tree, b: seq<int>, depth: nat)
    requires 1 <= depth <= |b| + 1 && Height(t) <= depth && Sub(t, b, depth - 1).Fork?
    ensures Sub(t, b, depth - 1).right.Nil?
  {
    SubHeight(t, b, depth - 1);
  }

  lemma Representing(nodes: map<nat, Node>, n: Node, t: Tree)
    requires Represents(nodes, n, t)
    ensures t.Fork? && Denotes(nodes, n.left, t.left) && Denotes(nodes, n.right, t.right)
    ensures n.right == NULL_HASH <==> t.right.Nil?
  {
  }

  lemma TurnRight(nodes: map<nat, Node>, path: seq<Node>, b: seq<int>, b': seq<int>, t: Tree, depth: nat)
    requires |b| == |b'| && At(nodes, path, b, t, depth) && b' == b[depth - 1 := TREE_PATH_RIGHT]
    ensures Sub(t, b, depth - 1).Fork? && At(nodes, path, b', t, depth)
    ensures Descending(nodes, t, b', depth, path[depth - 1].right, After(t, b, depth))
    ensures path[depth - 1].right == NULL_HASH <==> Sub(t, b, depth - 1).right.Nil?
  {
    hide Represents, InOrder;
    Representing(nodes, path[depth - 1], Sub(t, b, depth - 1));
    forall i | 0 <= i < depth ensures Represents(nodes, path[i], Sub(t, b', i)) { SamePath(t, b, b', i); }
    SamePath(t, b, b', depth - 1);
    assert Above(t, b', depth) == Above(t, b, depth - 1);
  }

  lemma AtLonger(nodes: map<nat, Node>, p: seq<Node>, b: seq<int>, p': seq<Node>, b': seq<int>, t: Tree, i: nat)
    requires |p| == |p'| == |b| == |b'| && 1 <= i < |p| && At(nodes, p, b, t, i)
    requires p' == p[i := p'[i]] && b' == b[i := b'[i]] && Represents(nodes, p'[i], Sub(t, b', i))
    ensures At(nodes, p', b', t, i + 1)
  {
    hide Represents, Sub;
    forall j | 0 <= j < i ensures Represents(nodes, p'[j], Sub(t, b', j)) {
      SamePath(t, b, b', j);
      assert p'[j] == p[j];
    }
  }

  /** Without a node to the right, the successor is the nearest ancestor reached through its left branch. */
  lemma {:induction false} ClimbTo(t: Tree, b: seq<int>, i: nat, n: nat)
    requires i <= n <= |b| && forall j :: i <= j < n ==> b[j] != TREE_PATH_LEFT
    ensures Above(t, b, n) == Above(t, b, i)
    decreases n
  {
    if i < n { ClimbTo(t, b, i, n - 1); }
  }

  method FindNextAbove(path: array<Node>, branches: array<int>, oldDepth: nat, ghost nodes: map<nat, Node>,
      ghost t: Tree)
    returns (found: bool, depth: nat)
    requires path.Length == branches.Length == MAX_TREE_DEPTH && At(nodes, path[..], branches[..], t, oldDepth)
    requires Sub(t, branches[..], oldDepth - 1).Fork? && Sub(t, branches[..], oldDepth - 1).right.Nil?
    ensures At(nodes, path[..], branches[..], t, depth)
    ensures found <==> After(t, branches[..], oldDepth) != []
    ensures found ==>
        [Current(t, branches[..], depth)] + After(t, branches[..], depth) == After(t, branches[..], oldDepth)
    ensures !found ==> depth == oldDepth
  {
    hide InOrder, Above, Represents, Sub;
    ghost var b := branches[..];
    found, depth := false, oldDepth;
    var i := MAX_TREE_DEPTH;
    while i > 0
      invariant 0 <= i <= MAX_TREE_DEPTH
      invariant !found ==> depth == oldDepth && forall j :: i <= j < oldDepth - 1 ==> b[j] != TREE_PATH_LEFT
      invariant found ==> i < depth < oldDepth && b[depth - 1] == TREE_PATH_LEFT
      invariant found ==> forall j :: depth <= j < oldDepth - 1 ==> b[j] != TREE_PATH_LEFT
    {
      i := i - 1;
      if !found && i < depth - 1 && branches[i] == TREE_PATH_LEFT {
        found := true;
        depth := i + 1;
      }
    }
    NothingRight(t, b, oldDepth);
    if found {
      ClimbTo(t, b, depth, oldDepth - 1);
      Representing(nodes, path[depth - 1], Sub(t, b, depth - 1));
      AboveLeft(t, b, depth - 1);
    } else {
      ClimbTo(t, b, 0, oldDepth - 1);
      TopHasNone(t, b);
    }
  }

  lemma NothingRight(t: Tree, b: seq<int>, depth: nat)
    requires 1 <= depth <= |b| && Sub(t, b, depth - 1).Fork? && Sub(t, b, depth - 1).right.Nil?
    ensures After(t, b, depth) == Above(t, b, depth - 1)
  {
  }

  lemma TopHasNone(t: Tree, b: seq<int>)
    ensures Above(t, b, 0) == []
  {
  }

  /** The in-order successor: the path moves to the first of the entries after it, or stays if there is none. */
  method FindNext(store: HashStore, path: array<Node>, branches: array<int>, oldDepth: nat, ghost t: Tree)
      returns (found: bool, depth: nat)
    requires path.Length == branches.Length == MAX_TREE_DEPTH && Height(t) <= MAX_TREE_DEPTH
    requires At(store.nodes, path[..], branches[..], t, oldDepth) && Sub(t, branches[..], oldDepth - 1).Fork?
    modifies path, branches
    ensures At(store.nodes, path[..], branches[..], t, depth) && Sub(t, branches[..], depth - 1).Fork?
    ensures found <==> After(t, old(branches[..]), oldDepth) != []
    ensures found ==>
        [Current(t, branches[..], depth)] + After(t, branches[..], depth) == After(t, old(branches[..]), oldDepth)
    ensures !found ==> depth == oldDepth && After(t, branches[..], depth) == []
    ensures !found ==> Current(t, branches[..], depth) == Current(t, old(branches[..]), oldDepth)
  {
    hide InOrder, Above, Represents, Sub;
    ghost var b := branches[..];
    found, depth := FindNextBelow(store, path, branches, oldDepth, t);
    ghost var b' := branches[..];
    if !found {
      assert b[..oldDepth - 1] == b'[..oldDepth - 1];
      SamePath(t, b, b', oldDepth - 1);
      found, depth := FindNextAbove(path, branches, oldDepth, store.nodes, t);
    }
    Representing(store.nodes, path[depth - 1], Sub(t, branches[..], depth - 1));
  }

  // ----- a search path as a position -----

  lemma {:induction false} SearchPath(nodes: map<nat, Node>, path: seq<Node>, branches: seq<int>, t: Tree, key: int,
      n: nat, i: nat)
    requires n <= |path| && n <= |branches| && PathHolds(nodes, path, branches, t, key, n)
    requires i < n <= Steps(t, key) + 1
    ensures Sub(t, branches, i) == Descend(t, key, i)
    decreases i
  {
    hide Represents;
    if i > 0 {
      SearchPath(nodes, path, branches, t, key, n, i - 1);
      assert OnPath(nodes, path, branches, t, key, i - 1);
      DescendNext(t, key, i - 1);
    }
  }

  predicate AllLess(s: seq<Entry>, key: int) {
    forall i :: 0 <= i < |s| ==> s[i].key < key
  }

  predicate AllMore(s: seq<Entry>, key: int) {
    forall i :: 0 <= i < |s| ==> s[i].key > key
  }

  /** Left of a search path are the smaller keys, right of it the larger ones. */
  lemma {:induction false} SearchSplits(nodes: map<nat, Node>, path: seq<Node>, branches: seq<int>, t: Tree, key: int,
      n: nat, i: nat)
    requires n <= |path| && n <= |branches| && PathHolds(nodes, path, branches, t, key, n)
    requires i < n <= Steps(t, key) + 1 && Ordered(t)
    ensures Ordered(Sub(t, branches, i)) && AllLess(Below(t, branches, i), key) && AllMore(Above(t, branches, i), key)
    decreases i
  {
    hide Represents, Ordered;
    if i > 0 {
      SearchSplits(nodes, path, branches, t, key, n, i - 1);
      SearchPath(nodes, path, branches, t, key, n, i - 1);
      assert OnPath(nodes, path, branches, t, key, i - 1);
      DescendNext(t, key, i - 1);
      OrderedParts(Sub(t, branches, i - 1));
    }
  }

  /** Where a search leaves its path: the entries before it are smaller, those after it larger than the key. */
  lemma SearchPosition(nodes: map<nat, Node>, path: seq<Node>, branches: seq<int>, t: Tree, key: int, n: nat)
      returns (before: seq<Entry>)
    requires |path| == |branches| && 1 <= n <= |path| && n == PathLength(t, key)
    requires PathHolds(nodes, path, branches, t, key, n) && Ordered(t)
    ensures At(nodes, path, branches, t, n) && Sub(t, branches, n - 1).Fork?
    ensures InOrder(t) == before + [Current(t, branches, n)] + After(t, branches, n)
    ensures AllLess(before, key) && AllMore(After(t, branches, n), key)
    ensures Current(t, branches, n).key == key <==> Descend(t, key, Steps(t, key)).Fork?
  {
    hide Represents, InOrder, Ordered, Above, Below, Sub, Descend, Steps, PathLength, Height;
    PathWithinHeight(t, key);
    DescendStops(t, key);
    forall i | 0 <= i < n ensures Represents(nodes, path[i], Sub(t, branches, i)) {
      SearchPath(nodes, path, branches, t, key, n, i);
      assert OnPath(nodes, path, branches, t, key, i);
    }
    var u := Sub(t, branches, n - 1);
    Representing(nodes, path[n - 1], u);
    SearchSplits(nodes, path, branches, t, key, n, n - 1);
    SearchPath(nodes, path, branches, t, key, n, n - 1);
    PathSplitsOrder(t, branches, n - 1);
    LastOfSearch(t, key, n, u);
    Unfold(u);
    before := Below(t, branches, n - 1) + InOrder(u.left);
    Regroup(Below(t, branches, n - 1), InOrder(u.left), Entry(u.key, u.values), InOrder(u.right),
        Above(t, branches, n - 1));
    OrderedParts(u);
  }

  lemma Unfold(u: Tree)
    requires u.Fork?
    ensures InOrder(u) == InOrder(u.left) + [Entry(u.key, u.values)] + InOrder(u.right)
    ensures u.left.Nil? ==> InOrder(u.left) == []
    ensures u.right.Nil? ==> InOrder(u.right) == []
  {
  }

  /** The last node of an unsuccessful search has no child toward the key. */
  lemma LastOfSearch(t: Tree, key: int, n: nat, u: Tree)
    requires n == PathLength(t, key) >= 1 && u == Descend(t, key, n - 1) && u.Fork?
    ensures u.key == key <==> Descend(t, key, Steps(t, key)).Fork?
    ensures key < u.key ==> u.left.Nil?
    ensures key > u.key ==> u.right.Nil?
  {
    hide Height, PathLength, Descend, Steps;
    PathWithinHeight(t, key);
    DescendStops(t, key);
    if n - 1 < Steps(t, key) { DescendNext(t, key, n - 1); }
  }

  // ----- result sets -----

  method CopyResult(results: seq<Result>, key: int, value: int) returns (r: seq<Result>)
    requires |results| <= MAX_TREE_RESULTS
    ensures r == Fitting(results + [Result(key, value)])
  {
    r := results;
    var i := 0;
    while i < MAX_TREE_RESULTS
      invariant 0 <= i <= MAX_TREE_RESULTS
      invariant r == if |results| < i then results + [Result(key, value)] else results
    {
      if i == |results| {
        r := results + [Result(key, value)];
      }
      i := i + 1;
    }
  }

  method CopyResults(results: seq<Result>, node: Node) returns (r: seq<Result>)
    requires |results| <= MAX_TREE_RESULTS
    ensures r == Fitting(results + ResultsOf(Entry(node.key, node.values)))
  {
    r := results;
    var i := 0;
    ghost var all := ResultsOf(Entry(node.key, node.values));
    while i < MAX_TREE_NODE_VALUES
      invariant 0 <= i <= MAX_TREE_NODE_VALUES
      invariant r == Fitting(results + all[..if i < |all| then i else |all|])
    {
      if i < |node.values| {
        assert all[..i + 1] == all[..i] + [all[i]];
        assert results + all[..i + 1] == (results + all[..i]) + [all[i]];
        r := CopyResult(r, node.key, node.values[i]);
      }
      i := i + 1;
    }
    assert all[..|all|] == all;
  }

  // ----- what a scan returns -----

  /** Every entry still has a value. */
  predicate NoneEmptied(s: seq<Entry>) {
    forall i :: 0 <= i < |s| ==> |s[i].values| >= 1
  }

  lemma {:induction false} FlattenLength(s: seq<Entry>)
    requires NoneEmptied(s)
    ensures |Flatten(s)| >= |s|
  {
    if |s| > 0 { FlattenLength(s[..|s| - 1]); }
  }

  /** Wanted entries stand together: after the first entry, one that is not wanted ends them. */
  ghost predicate Contiguous(v: seq<Entry>, want: Entry -> bool) {
    forall i, j :: 1 <= i < j < |v| && !want(v[i]) ==> !want(v[j])
  }

  lemma SelectedEnough(v: seq<Entry>, n: nat, want: Entry -> bool)
    requires Contiguous(v, want) && n == MAX_TREE_RESULTS + 1 < |v| && NoneEmptied(v)
    ensures Select(v[n..], want) == [] || |Flatten(Select(v[..n], want))| >= MAX_TREE_RESULTS
  {
    hide Flatten, Select, Contiguous;
    if i :| 1 <= i < n && !want(v[i]) {
      UnwantedAfter(v, i, n, want);
    } else {
      WantedSoFar(v, n, want);
    }
  }

  lemma UnwantedAfter(v: seq<Entry>, i: nat, n: nat, want: Entry -> bool)
    requires Contiguous(v, want) && 1 <= i < n <= |v| && !want(v[i])
    ensures Select(v[n..], want) == []
  {
    hide Select;
    SelectNone(v[n..], want);
  }

  lemma WantedSoFar(v: seq<Entry>, n: nat, want: Entry -> bool)
    requires n == MAX_TREE_RESULTS + 1 <= |v| && NoneEmptied(v) && forall i :: 1 <= i < n ==> want(v[i])
    ensures |Flatten(Select(v[..n], want))| >= MAX_TREE_RESULTS
  {
    hide Flatten, Select;
    var a, b := v[..1], v[1..n];
    assert v[..n] == a + b;
    SelectJoin(a, b, want);
    SelectAll(b, want);
    FlattenJoin(Select(a, want), b);
    FlattenLength(b);
  }

  /** A scan over the first entries returns the first results of all wanted entries. */
  lemma ScanReturns(s: seq<Entry>, before: seq<Entry>, v: seq<Entry>, n: nat, want: Entry -> bool)
    requires s == before + v && (forall i :: 0 <= i < |before| ==> !want(before[i])) && Contiguous(v, want)
    requires n == if |v| <= MAX_TREE_RESULTS + 1 then |v| else MAX_TREE_RESULTS + 1
    ensures Fitting(Flatten(Select(v[..n], want))) <= Flatten(Select(s, want))
    ensures NoneEmptied(s) ==> Fitting(Flatten(Select(v[..n], want))) == Fitting(Flatten(Select(s, want)))
  {
    hide Flatten, Select, Contiguous;
    SelectNone(before, want);
    SelectJoin(before, v, want);
    assert v == v[..n] + v[n..];
    SelectJoin(v[..n], v[n..], want);
    FlattenJoin(Select(v[..n], want), Select(v[n..], want));
    assert Select(s, want) == Select(v[..n], want) + Select(v[n..], want);
    if NoneEmptied(s) {
      if n < |v| {
        assert forall i :: 0 <= i < |v| ==> v[i] == s[|before| + i];
        SelectedEnough(v, n, want);
      } else {
        SelectNone(v[n..], want);
      }
    }
    FlattenNothing();
  }

  // ----- the queries -----

  /** The scan stands on entry `n` - 1 of `v` and has copied the wanted ones up to there. */
  ghost predicate Scanned(t: Tree, branches: seq<int>, depth: nat, v: seq<Entry>, n: nat, want: Entry -> bool,
      results: seq<Result>) {
    && 1 <= depth <= |branches| && Sub(t, branches, depth - 1).Fork?
    && 1 <= n <= |v| && v[n - 1] == Current(t, branches, depth) && v[n..] == After(t, branches, depth)
    && results == Fitting(Flatten(Select(v[..n], want)))
  }

  lemma Copied(v: seq<Entry>, n: nat, want: Entry -> bool, results: seq<Result>)
    requires n < |v| && results == Fitting(Flatten(Select(v[..n], want)))
    ensures want(v[n]) ==> Fitting(results + ResultsOf(v[n])) == Fitting(Flatten(Select(v[..n + 1], want)))
    ensures !want(v[n]) ==> results == Fitting(Flatten(Select(v[..n + 1], want)))
  {
    hide Flatten, ResultsOf;
    var s := Select(v[..n], want);
    assert v[..n + 1][..n] == v[..n];
    assert s + [] == s;
    FlattenJoin(s, [v[n]]);
    FlattenOne(v[n]);
  }

  /** One round of a scan: the path moves to the next entry, if any, which is copied if wanted. */
  lemma ScanStep(t: Tree, b: seq<int>, b': seq<int>, d: nat, d': nat, found: bool, v: seq<Entry>, n: nat,
      want: Entry -> bool,
                 results: seq<Result>, results': seq<Result>)
    requires Scanned(t, b, d, v, n, want, results)
    requires 1 <= d' <= |b'| && Sub(t, b', d' - 1).Fork?
    requires found <==> After(t, b, d) != []
    requires found ==> [Current(t, b', d')] + After(t, b', d') == After(t, b, d)
    requires found ==>
        results' == if want(Current(t, b', d')) then Fitting(results + ResultsOf(Current(t, b', d'))) else results
    requires !found ==> After(t, b', d') == [] && Current(t, b', d') == Current(t, b, d) && results' == results
    ensures found <==> n < |v|
    ensures Scanned(t, b', d', v, if found then n + 1 else n, want, results')
  {
    hide Flatten, Select, After, Current, Sub, ResultsOf;
    if found {
      var e, rest := Current(t, b', d'), After(t, b', d');
      assert v[n] == v[n..][0] && v[n + 1..] == v[n..][1..];
      Copied(v, n, want, results);
    }
  }

  /** The first entry of a scan. */
  lemma ScanStart(t: Tree, b: seq<int>, d: nat, v: seq<Entry>, want: Entry -> bool, results: seq<Result>)
    requires 1 <= d <= |b| && Sub(t, b, d - 1).Fork? && v == [Current(t, b, d)] + After(t, b, d)
    requires results == if want(v[0]) then Fitting([] + ResultsOf(v[0])) else []
    ensures Scanned(t, b, d, v, 1, want, results)
  {
    hide Sub, After, ResultsOf;
    assert v[..1] == [v[0]] && v[1..] == After(t, b, d);
    FlattenNothing();
    FlattenOne(v[0]);
    assert v[..1][..0] == [];
    assert Select(v[..1], want) == if want(v[0]) then [v[0]] else [];
    assert [] + ResultsOf(v[0]) == ResultsOf(v[0]);
  }

  function GreaterThan(key: int, orEqual: bool): Entry -> bool {
    (e: Entry) => e.key > key || (orEqual && e.key == key)
  }

  /** A scan over `v` after `i` rounds. */
  ghost predicate Scanning(nodes: map<nat, Node>, path: seq<Node>, branches: seq<int>, t: Tree, depth: nat,
      v: seq<Entry>, i: nat,
                           want: Entry -> bool, results: seq<Result>) {
    && At(nodes, path, branches, t, depth)
    && Scanned(t, branches, depth, v, if i + 1 < |v| then i + 1 else |v|, want, results)
  }

  lemma ScanningFacts(nodes: map<nat, Node>, path: seq<Node>, branches: seq<int>, t: Tree, depth: nat, v: seq<Entry>,
      i: nat,
                      want: Entry -> bool, results: seq<Result>)
    requires Scanning(nodes, path, branches, t, depth, v, i, want, results)
    ensures At(nodes, path, branches, t, depth) && 1 <= depth <= |branches| && Sub(t, branches, depth - 1).Fork?
    ensures |results| <= MAX_TREE_RESULTS
    ensures forall k :: 0 <= k < |After(t, branches, depth)| ==> After(t, branches, depth)[k] in v[1..]
  {
    hide At, Sub, Flatten, Select;
    var n := if i + 1 < |v| then i + 1 else |v|;
    assert forall k :: n <= k < |v| ==> v[k] == v[1..][k - 1];
  }

  lemma ScanRound(nodes: map<nat, Node>, b: seq<int>, path: seq<Node>, p': seq<Node>, b': seq<int>, t: Tree, d: nat,
      d': nat, found: bool, v: seq<Entry>, i: nat,
                  want: Entry -> bool, results: seq<Result>, results': seq<Result>)
    requires Scanning(nodes, path, b, t, d, v, i, want, results)
    requires At(nodes, p', b', t, d') && 1 <= d' <= |b'| && Sub(t, b', d' - 1).Fork?
    requires 1 <= d <= |b| && Sub(t, b, d - 1).Fork?
    requires found <==> After(t, b, d) != []
    requires found ==> [Current(t, b', d')] + After(t, b', d') == After(t, b, d)
    requires found ==>
        results' == if want(Current(t, b', d')) then Fitting(results + ResultsOf(Current(t, b', d'))) else results
    requires !found ==> After(t, b', d') == [] && Current(t, b', d') == Current(t, b, d) && results' == results
    ensures Scanning(nodes, p', b', t, d', v, i + 1, want, results')
  {
    hide At, Sub, After, Current, Scanned;
    var n := if i + 1 < |v| then i + 1 else |v|;
    ScanStep(t, b, b', d, d', found, v, n, want, results, results');
  }

  lemma ScanEnds(nodes: map<nat, Node>, path: seq<Node>, b: seq<int>, t: Tree, d: nat, before: seq<Entry>,
      v: seq<Entry>, want: Entry -> bool, results: seq<Result>)
    requires Scanning(nodes, path, b, t, d, v, MAX_TREE_RESULTS, want, results)
    requires InOrder(t) == before + v && (forall k :: 0 <= k < |before| ==> !want(before[k])) && Contiguous(v, want)
    ensures results <= Flatten(Select(InOrder(t), want)) && |results| <= MAX_TREE_RESULTS
    ensures NoneEmptied(InOrder(t)) ==> results == Fitting(Flatten(Select(InOrder(t), want)))
  {
    hide At, Sub, After, Current, Flatten, Select, InOrder, Contiguous, Fitting, NoneEmptied;
    ScanReturns(InOrder(t), before, v, if MAX_TREE_RESULTS + 1 < |v| then MAX_TREE_RESULTS + 1 else |v|, want);
  }

  /** The rounds of FindGreater: every further entry is above the key. */
  method ScanGreater(store: HashStore, path: array<Node>, branches: array<int>, start: nat, first: seq<Result>,
      ghost t: Tree,
                     ghost v: seq<Entry>, ghost key: int, ghost want: Entry -> bool)
    returns (depth: nat, results: seq<Result>)
    requires path.Length == branches.Length == MAX_TREE_DEPTH && Height(t) <= MAX_TREE_DEPTH
    requires |v| >= 1 && AllMore(v[1..], key) && forall e: Entry :: e.key > key ==> want(e)
    requires Scanning(store.nodes, path[..], branches[..], t, start, v, 0, want, first)
    modifies path, branches
    ensures Scanning(store.nodes, path[..], branches[..], t, depth, v, MAX_TREE_RESULTS, want, results)
  {
    hide Represents, Flatten, Select, InOrder, Above, Sub, Height, After, Scanned, At, Scanning, Fitting, ResultsOf,
        Current;
    depth, results := start, first;
    var i := 0;
    while i < MAX_TREE_RESULTS
      invariant 0 <= i <= MAX_TREE_RESULTS
      invariant Scanning(store.nodes, path[..], branches[..], t, depth, v, i, want, results)
    {
      ghost var p, b, d, was := path[..], branches[..], depth, results;
      ScanningFacts(store.nodes, p, b, t, d, v, i, want, was);
      var found;
      found, depth := FindNext(store, path, branches, depth, t);
      CurrentNode(store.nodes, path[..], branches[..], t, depth);
      if found {
        results := CopyResults(results, path[depth - 1]);
        NextIsMore(v, key, After(t, b, d), Current(t, branches[..], depth), After(t, branches[..], depth));
      }
      ScanRound(store.nodes, b, p, path[..], branches[..], t, d, depth, found, v, i, want, was, results);
      i := i + 1;
    }
  }

  /**
   The entries above a key, or from it on, in ascending order, as far as they fit.  Every result is a value of such a
   key; where no node has been emptied, every value of such a key is a result unless results of keys up to it take all
   the room.
   */
  method FindGreater(store: HashStore, root: nat, key: int, equalTo: bool, ghost t: Tree) returns (results: seq<Result>)
    requires Denotes(store.nodes, root, t) && Ordered(t) && Height(t) <= MAX_TREE_DEPTH
    ensures results <= Flatten(Select(InOrder(t), GreaterThan(key, equalTo)))
    ensures NoneEmptied(InOrder(t)) ==> results == Fitting(Flatten(Select(InOrder(t), GreaterThan(key, equalTo))))
    ensures |results| <= MAX_TREE_RESULTS && InKeyOrder(results)
    ensures forall p :: 0 <= p < |results| ==>
      && (results[p].key > key || (equalTo && results[p].key == key))
      && Has(Entries(InOrder(t)), results[p])
    ensures (forall k :: k in Entries(InOrder(t)) ==> |Entries(InOrder(t))[k]| > 0) ==> forall r: Result ::
      Has(Entries(InOrder(t)), r) && (r.key > key || (equalTo && r.key == key)) ==> Returned(results, r)
  {
    hide Represents, Flatten, Select, InOrder, Above, Sub, Height, Denotes, Ordered, After, PathLength, Descend, Steps,
        Scanned, Contiguous,
         PathHolds, At, Scanning, Fitting, ResultsOf, NoneEmptied, Current;
    ghost var want := GreaterThan(key, equalTo);
    var empty := Node(NULL_HASH, NULL_HASH, 0, [], 0, 0, 0);
    var path := new Node[MAX_TREE_DEPTH](_ => empty);
    var branches := new int[MAX_TREE_DEPTH](_ => 0);
    results := [];
    var found, depth := FindPath(store, root, key, path, branches, t);
    if depth > 0 {
      ghost var before := SearchPosition(store.nodes, path[..], branches[..], t, key, depth);
      var node := path[depth - 1];
      CurrentNode(store.nodes, path[..], branches[..], t, depth);
      ghost var v := [Current(t, branches[..], depth)] + After(t, branches[..], depth);
      if (found && equalTo) || node.key > key {
        results := CopyResults(results, node);
      }
      ScanStart(t, branches[..], depth, v, want, results);
      UpwardContiguous(v, key, want);
      ScanBegins(store.nodes, path[..], branches[..], t, depth, v, want, results);
      depth, results := ScanGreater(store, path, branches, depth, results, t, v, key, want);
      ScanEnds(store.nodes, path[..], branches[..], t, depth, before, v, want, results);
    } else {
      EmptyScan(t, key, want);
    }
    GreaterMeans(t, key, equalTo, results);
  }

  /** Nodes have values when keys do. */
  lemma EachHasValues(s: seq<Entry>)
    requires Ascending(s) && forall k :: k in Entries(s) ==> |Entries(s)[k]| > 0
    ensures NoneEmptied(s)
  {
    hide Entries, Ascending;
    forall i | 0 <= i < |s| ensures |s[i].values| >= 1 {
      EntryOf(s, i);
    }
  }

  lemma GreaterMeans(t: Tree, key: int, equalTo: bool, results: seq<Result>)
    requires Ordered(t) && |results| <= MAX_TREE_RESULTS
    requires results <= Flatten(Select(InOrder(t), GreaterThan(key, equalTo)))
    requires NoneEmptied(InOrder(t)) ==> results == Fitting(Flatten(Select(InOrder(t), GreaterThan(key, equalTo))))
    ensures InKeyOrder(results)
    ensures forall p :: 0 <= p < |results| ==>
      && (results[p].key > key || (equalTo && results[p].key == key))
      && Has(Entries(InOrder(t)), results[p])
    ensures (forall k :: k in Entries(InOrder(t)) ==> |Entries(InOrder(t))[k]| > 0) ==> forall r: Result ::
      Has(Entries(InOrder(t)), r) && (r.key > key || (equalTo && r.key == key)) ==> Returned(results, r)
  {
    hide InOrder, Flatten, Select, Fitting, Entries, NoneEmptied;
    var want := GreaterThan(key, equalTo);
    ResultsSound(InOrder(t), want, results);
    if forall k :: k in Entries(InOrder(t)) ==> |Entries(InOrder(t))[k]| > 0 {
      EachHasValues(InOrder(t));
      ResultsComplete(InOrder(t), want, results);
    }
  }

  function Between(low: int, orLow: bool, high: int, orHigh: bool): Entry -> bool {
    (e: Entry) => (e.key > low || (orLow && e.key == low)) && (e.key < high || (orHigh && e.key == high))
  }

  method ScanRange(store: HashStore, path: array<Node>, branches: array<int>, start: nat, first: seq<Result>, high: int,
      orHigh: bool,
                   ghost t: Tree, ghost v: seq<Entry>, ghost low: int, ghost want: Entry -> bool)
    returns (depth: nat, results: seq<Result>)
    requires path.Length == branches.Length == MAX_TREE_DEPTH && Height(t) <= MAX_TREE_DEPTH
    requires |v| >= 1 && AllMore(v[1..], low)
    requires forall e: Entry :: e.key > low ==> (want(e) <==> e.key < high || (orHigh && e.key == high))
    requires Scanning(store.nodes, path[..], branches[..], t, start, v, 0, want, first)
    modifies path, branches
    ensures Scanning(store.nodes, path[..], branches[..], t, depth, v, MAX_TREE_RESULTS, want, results)
  {
    hide Represents, Flatten, Select, InOrder, Above, Sub, Height, After, Scanned, At, Scanning, Fitting, ResultsOf,
        Current;
    depth, results := start, first;
    var i := 0;
    while i < MAX_TREE_RESULTS
      invariant 0 <= i <= MAX_TREE_RESULTS
      invariant Scanning(store.nodes, path[..], branches[..], t, depth, v, i, want, results)
    {
      ghost var p, b, d, was := path[..], branches[..], depth, results;
      ScanningFacts(store.nodes, p, b, t, d, v, i, want, was);
      var found;
      found, depth := FindNext(store, path, branches, depth, t);
      CurrentNode(store.nodes, path[..], branches[..], t, depth);
      if found {
        var node := path[depth - 1];
        if node.key < high || (orHigh && node.key == high) {
          results := CopyResults(results, node);
        }
        NextIsMore(v, low, After(t, b, d), Current(t, branches[..], depth), After(t, branches[..], depth));
      }
      ScanRound(store.nodes, b, p, path[..], branches[..], t, d, depth, found, v, i, want, was, results);
      i := i + 1;
    }
  }

  /** The entries between two keys in ascending order, as far as they fit, with the same meaning. */
  method FindRange(store: HashStore, root: nat, low: int, orLow: bool, high: int, orHigh: bool, ghost t: Tree)
      returns (results: seq<Result>)
    requires Denotes(store.nodes, root, t) && Ordered(t) && Height(t) <= MAX_TREE_DEPTH
    ensures ProperRange(low, orLow, high, orHigh) ==>
        results <= Flatten(Select(InOrder(t), Between(low, orLow, high, orHigh)))
    ensures ProperRange(low, orLow, high, orHigh) && NoneEmptied(InOrder(t)) ==>
              results == Fitting(Flatten(Select(InOrder(t), Between(low, orLow, high, orHigh))))
    ensures ProperRange(low, orLow, high, orHigh) ==> |results| <= MAX_TREE_RESULTS && InKeyOrder(results)
    ensures ProperRange(low, orLow, high, orHigh) ==> forall p :: 0 <= p < |results| ==>
      && (results[p].key > low || (orLow && results[p].key == low))
      && (results[p].key < high || (orHigh && results[p].key == high))
      && Has(Entries(InOrder(t)), results[p])
    ensures ProperRange(low, orLow, high, orHigh) ==>
      (forall k :: k in Entries(InOrder(t)) ==> |Entries(InOrder(t))[k]| > 0) ==> forall r: Result ::
      Has(Entries(InOrder(t)), r) && (r.key > low || (orLow && r.key == low)) &&
      (r.key < high || (orHigh && r.key == high)) ==>
        Returned(results, r)
    ensures TakesFirst(t, low, orLow, high, orHigh) ==> |results| > 0
  {
    hide Represents, Flatten, Select, InOrder, Above, Sub, Height, Denotes, Ordered, After, PathLength, Descend, Steps,
        Scanned, Contiguous,
         PathHolds, At, Scanning, Fitting, ResultsOf, NoneEmptied, Ascending;
    ghost var proper := ProperRange(low, orLow, high, orHigh);
    ghost var want := if proper then Between(low, orLow, high, orHigh) else Taken(low, orLow, high, orHigh);
    var empty := Node(NULL_HASH, NULL_HASH, 0, [], 0, 0, 0);
    var path := new Node[MAX_TREE_DEPTH](_ => empty);
    var branches := new int[MAX_TREE_DEPTH](_ => 0);
    results := [];
    var found, depth := FindPath(store, root, low, path, branches, t);
    if depth > 0 {
      ghost var before := SearchPosition(store.nodes, path[..], branches[..], t, low, depth);
      var node := path[depth - 1];
      CurrentNode(store.nodes, path[..], branches[..], t, depth);
      ghost var v := [Current(t, branches[..], depth)] + After(t, branches[..], depth);
      if (found && orLow) || (node.key > low && node.key < high) || (orHigh && node.key == high) {
        results := CopyResults(results, node);
      }
      ScanStart(t, branches[..], depth, v, want, results);
      RangeContiguous(t, before, v, low, high, orHigh, want);
      LastNode(store.nodes, path[..], branches[..], t, low, depth);
      ScanBegins(store.nodes, path[..], branches[..], t, depth, v, want, results);
      depth, results := ScanRange(store, path, branches, depth, results, high, orHigh, t, v, low, want);
      if proper {
        ScanEnds(store.nodes, path[..], branches[..], t, depth, before, v, want, results);
      }
      if TakesFirst(t, low, orLow, high, orHigh) {
        FirstStays(store.nodes, path[..], branches[..], t, depth, v, MAX_TREE_RESULTS, want, results);
      }
    } else {
      EmptyScan(t, low, want);
    }
    if proper { BetweenMeans(t, low, orLow, high, orHigh, results); }
  }

  lemma BetweenMeans(t: Tree, low: int, orLow: bool, high: int, orHigh: bool, results: seq<Result>)
    requires Ordered(t) && |results| <= MAX_TREE_RESULTS
    requires results <= Flatten(Select(InOrder(t), Between(low, orLow, high, orHigh)))
    requires NoneEmptied(InOrder(t)) ==>
      results == Fitting(Flatten(Select(InOrder(t), Between(low, orLow, high, orHigh))))
    ensures InKeyOrder(results)
    ensures forall p :: 0 <= p < |results| ==>
      && (results[p].key > low || (orLow && results[p].key == low))
      && (results[p].key < high || (orHigh && results[p].key == high))
      && Has(Entries(InOrder(t)), results[p])
    ensures (forall k :: k in Entries(InOrder(t)) ==> |Entries(InOrder(t))[k]| > 0) ==> forall r: Result ::
      Has(Entries(InOrder(t)), r) && (r.key > low || (orLow && r.key == low)) &&
      (r.key < high || (orHigh && r.key == high)) ==>
        Returned(results, r)
  {
    hide InOrder, Flatten, Select, Fitting, Entries, NoneEmptied;
    var want := Between(low, orLow, high, orHigh);
    ResultsSound(InOrder(t), want, results);
    if forall k :: k in Entries(InOrder(t)) ==> |Entries(InOrder(t))[k]| > 0 {
      EachHasValues(InOrder(t));
      ResultsComplete(InOrder(t), want, results);
    }
  }

  lemma {:induction false} FirstSelected(v: seq<Entry>, n: nat, want: Entry -> bool)
    requires 1 <= n <= |v| && want(v[0])
    ensures v[0] in Select(v[..n], want)
    decreases n
  {
    assert v[..n][..n - 1] == v[..n - 1];
    if n > 1 { FirstSelected(v, n - 1, want); }
  }

  lemma {:induction false} FlattenHas(s: seq<Entry>, e: Entry)
    requires e in s && |e.values| > 0
    ensures |Flatten(s)| > 0
  {
    if s[|s| - 1] != e { FlattenHas(s[..|s| - 1], e); }
  }

  lemma FirstStays(nodes: map<nat, Node>, path: seq<Node>, b: seq<int>, t: Tree, d: nat, v: seq<Entry>, i: nat,
      want: Entry -> bool, results: seq<Result>)
    requires Scanning(nodes, path, b, t, d, v, i, want, results) && |v| > 0 && want(v[0]) && |v[0].values| > 0
    ensures |results| > 0
  {
    hide At, Sub, After, Current, Flatten, Select;
    var n := if i + 1 < |v| then i + 1 else |v|;
    FirstSelected(v, n, want);
    FlattenHas(Select(v[..n], want), v[0]);
  }

  /** Bounds for which the range query is exact. */
  predicate ProperRange(low: int, orLow: bool, high: int, orHigh: bool) {
    low < high || (low == high && orLow == orHigh) || (low > high && !orLow && !orHigh)
  }

  /** The test that the code makes on the node where the search for `low` ends. */
  function Taken(low: int, orLow: bool, high: int, orHigh: bool): Entry -> bool {
    (e: Entry) => (e.key == low && orLow) || (e.key > low && e.key < high) || (orHigh && e.key == high)
  }

  predicate TakesFirst(t: Tree, low: int, orLow: bool, high: int, orHigh: bool) {
    PathLength(t, low) > 0 &&
    var u := Descend(t, low, PathLength(t, low) - 1);
    u.Fork? && |u.values| > 0 && Taken(low, orLow, high, orHigh)(Entry(u.key, u.values))
  }

  /** For every other pair of bounds some tree makes the query return an entry that is not in the range. */
  lemma ImproperRange(low: int, orLow: bool, high: int, orHigh: bool, v: int) returns (t: Tree)
    requires !ProperRange(low, orLow, high, orHigh)
    ensures Ordered(t) && Balanced(t) && Height(t) <= MAX_TREE_DEPTH
    ensures TakesFirst(t, low, orLow, high, orHigh) && Select(InOrder(t), Between(low, orLow, high, orHigh)) == []
  {
    var k := if low == high || orLow then low else high;
    t := Fork(Nil, k, [v], Nil);
    assert InOrder(t) == [Entry(k, [v])];
    SelectNone(InOrder(t), Between(low, orLow, high, orHigh));
    assert PathLength(t, low) == 1;
    assert Descend(t, low, 0) == t;
  }

  lemma RangeContiguous(t: Tree, before: seq<Entry>, v: seq<Entry>, low: int, high: int, orHigh: bool,
      want: Entry -> bool)
    requires |v| >= 1 && Ordered(t) && InOrder(t) == before + v && AllMore(v[1..], low)
    requires forall e: Entry :: e.key > low ==> (want(e) <==> e.key < high || (orHigh && e.key == high))
    ensures Contiguous(v, want)
  {
    hide InOrder;
    var s := InOrder(t);
    forall i, j | 1 <= i < j < |v| && !want(v[i]) ensures !want(v[j]) {
      assert v[i] == v[1..][i - 1] && v[j] == v[1..][j - 1];
      assert v[i] == s[|before| + i] && v[j] == s[|before| + j];
    }
  }

  lemma LastNode(nodes: map<nat, Node>, path: seq<Node>, branches: seq<int>, t: Tree, key: int, n: nat)
    requires 1 <= n <= |path| && n <= |branches| && n == PathLength(t, key) &&
        PathHolds(nodes, path, branches, t, key, n)
    ensures Sub(t, branches, n - 1) == Descend(t, key, n - 1)
  {
    hide Represents, PathLength, Descend, Steps, Sub;
    PathWithinHeight(t, key);
    SearchPath(nodes, path, branches, t, key, n, n - 1);
  }

  lemma NextIsMore(v: seq<Entry>, key: int, rest: seq<Entry>, e: Entry, rest': seq<Entry>)
    requires |v| >= 1 && AllMore(v[1..], key) && (forall k :: 0 <= k < |rest| ==> rest[k] in v[1..]) &&
        [e] + rest' == rest
    ensures e.key > key
  {
    assert rest[0] == e;
  }

  lemma ScanBegins(nodes: map<nat, Node>, path: seq<Node>, b: seq<int>, t: Tree, d: nat, v: seq<Entry>,
      want: Entry -> bool, results: seq<Result>)
    requires At(nodes, path, b, t, d) && Scanned(t, b, d, v, 1, want, results)
    ensures Scanning(nodes, path, b, t, d, v, 0, want, results)
  {
  }

  lemma CurrentNode(nodes: map<nat, Node>, path: seq<Node>, branches: seq<int>, t: Tree, depth: nat)
    requires At(nodes, path, branches, t, depth)
    ensures 1 <= depth <= |path| && depth <= |branches|
    ensures Sub(t, branches, depth - 1).Fork?
    ensures Current(t, branches, depth) == Entry(path[depth - 1].key, path[depth - 1].values)
  {
    NodeKey(nodes, path[depth - 1], Sub(t, branches, depth - 1));
  }

  lemma UpwardContiguous(v: seq<Entry>, key: int, want: Entry -> bool)
    requires |v| >= 1 && AllMore(v[1..], key) && forall e: Entry :: e.key > key ==> want(e)
    ensures Contiguous(v, want)
  {
    forall i | 1 <= i < |v| ensures want(v[i]) {
      assert v[i] == v[1..][i - 1];
    }
  }

  lemma EmptyScan(t: Tree, key: int, want: Entry -> bool)
    requires PathLength(t, key) == 0
    ensures Flatten(Select(InOrder(t), want)) == [] && Fitting([]) == []
  {
  }
}
