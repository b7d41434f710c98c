/**
 The AVL tree whose nodes live in a content-addressed store: a node is found under its own hash, and an insertion
 puts new nodes along one path and leaves all others in place.
 */
module AvlTree {
  import opened AvlSpec

  const NULL_HASH: nat := 0

  /** A node has a fixed number of places for values. */
  type Values = s: seq<int> | |s| <= MAX_TREE_NODE_VALUES

  datatype Node = Node(left: nat, right: nat, key: int, values: Values, height: nat, heightLeft: nat, heightRight: nat)

  const TREE_PATH_LEFT := -1
  const TREE_PATH_EQUALS := 0
  const TREE_PATH_RIGHT := 1

  /** The node `n` has the data, the children and the exact heights of `t`. */
  ghost predicate Represents(nodes: map<nat, Node>, n: Node, t: Tree)
    decreases t, 0
  {
    && t.Fork? && n.key == t.key && n.values == t.values
    && n.heightLeft == Height(t.left) && n.heightRight == Height(t.right) && n.height == Height(t)
    && Denotes(nodes, n.left, t.left) && Denotes(nodes, n.right, t.right)
  }

  ghost predicate Denotes(nodes: map<nat, Node>, h: nat, t: Tree)
    decreases t, 1
  {
    if t.Nil? then h == NULL_HASH else h != NULL_HASH && h in nodes && Represents(nodes, nodes[h], t)
  }

  ghost predicate Grows(a: map<nat, Node>, b: map<nat, Node>) {
    forall h :: h in a ==> h in b && b[h] == a[h]
  }

  /** What a root denotes it still denotes after the store has grown. */
  lemma {:induction false} OlderRootsStay(a: map<nat, Node>, b: map<nat, Node>, h: nat, t: Tree)
    requires Grows(a, b) && Denotes(a, h, t)
    ensures Denotes(b, h, t)
    decreases t
  {
    if t.Fork? {
      OlderRootsStay(a, b, a[h].left, t.left);
      OlderRootsStay(a, b, a[h].right, t.right);
    }
  }

  lemma OlderNodesStay(a: map<nat, Node>, b: map<nat, Node>, n: Node, t: Tree)
    requires Grows(a, b) && Represents(a, n, t)
    ensures Represents(b, n, t)
  {
    OlderRootsStay(a, b, n.left, t.left);
    OlderRootsStay(a, b, n.right, t.right);
  }

  /** A hash denotes at most one tree. */
  lemma {:induction false} DenotesOnce(nodes: map<nat, Node>, h: nat, t: Tree, u: Tree)
    requires Denotes(nodes, h, t) && Denotes(nodes, h, u)
    ensures t == u
    decreases t
  {
    if t.Fork? {
      DenotesOnce(nodes, nodes[h].left, t.left, u.left);
      DenotesOnce(nodes, nodes[h].right, t.right, u.right);
    }
  }

  lemma Found(nodes: map<nat, Node>, h: nat, t: Tree)
    requires Denotes(nodes, h, t) && t.Fork?
    ensures h in nodes && Represents(nodes, nodes[h], t)
  {
  }

  lemma Formed(nodes: map<nat, Node>, n: Node, l: Tree, r: Tree)
    requires Denotes(nodes, n.left, l) && Denotes(nodes, n.right, r)
    requires n.heightLeft == Height(l) && n.heightRight == Height(r) &&
        n.height == Larger(n.heightLeft, n.heightRight) + 1
    ensures Represents(nodes, n, Fork(l, n.key, n.values, r))
  {
  }

  class HashStore {
    const hash: Node -> nat
    var nodes: map<nat, Node>

    ghost predicate Valid()
      reads this
    {
      && (forall n :: hash(n) != NULL_HASH)
      && (forall m, n :: hash(m) == hash(n) ==> m == n)
      && (forall h :: h in nodes ==> hash(nodes[h]) == h)
    }

    constructor (hash: Node -> nat)
      requires forall n :: hash(n) != NULL_HASH
      requires forall m, n :: hash(m) == hash(n) ==> m == n
      ensures Valid() && nodes == map[]
    {
      this.hash := hash;
      nodes := map[];
    }

    method Put(n: Node) returns (h: nat)
      requires Valid()
      modifies this`nodes
      ensures Valid() && nodes == old(nodes)[h := n] && Grows(old(nodes), nodes)
      ensures forall t :: Represents(old(nodes), n, t) ==> Denotes(nodes, h, t) && Represents(nodes, n, t)
    {
      h := hash(n);
      ghost var before := nodes;
      nodes := nodes[h := n];
      forall t | Represents(before, n, t) ensures Denotes(nodes, h, t) && Represents(nodes, n, t) {
        OlderNodesStay(before, nodes, n, t);
      }
    }

    method Get(h: nat) returns (n: Node)
      requires h in nodes
      ensures n == nodes[h]
    {
      n := nodes[h];
    }
  }

  // ----- rotations -----

  method RotateLeftLeft(store: HashStore, root: Node, ghost t: Tree) returns (r: Node)
    requires store.Valid() && LeftHeavy(t) && Represents(store.nodes, root, t)
    modifies store`nodes
    ensures store.Valid() && Grows(old(store.nodes), store.nodes)
    ensures Represents(store.nodes, r, LeftLeft(t))
  {
    hide Denotes, Height;
    var oldRoot := root;
    Found(store.nodes, root.left, t.left);
    r := store.Get(root.left);
    oldRoot := oldRoot.(left := r.right, heightLeft := r.heightRight);
    oldRoot := oldRoot.(height := Larger(oldRoot.heightLeft, oldRoot.heightRight) + 1);
    Formed(store.nodes, oldRoot, t.left.right, t.right);
    ghost var before := store.nodes;
    var h := store.Put(oldRoot);
    OlderRootsStay(before, store.nodes, r.left, t.left.left);
    r := r.(right := h, heightRight := oldRoot.height);
    r := r.(height := Larger(r.heightLeft, r.heightRight) + 1);
    Formed(store.nodes, r, t.left.left, LeftLeft(t).right);
  }

  method RotateRightRight(store: HashStore, root: Node, ghost t: Tree) returns (r: Node)
    requires store.Valid() && RightHeavy(t) && Represents(store.nodes, root, t)
    modifies store`nodes
    ensures store.Valid() && Grows(old(store.nodes), store.nodes)
    ensures Represents(store.nodes, r, RightRight(t))
  {
    hide Denotes, Height;
    var oldRoot := root;
    Found(store.nodes, root.right, t.right);
    r := store.Get(root.right);
    oldRoot := oldRoot.(right := r.left, heightRight := r.heightLeft);
    oldRoot := oldRoot.(height := Larger(oldRoot.heightLeft, oldRoot.heightRight) + 1);
    Formed(store.nodes, oldRoot, t.left, t.right.left);
    ghost var before := store.nodes;
    var h := store.Put(oldRoot);
    OlderRootsStay(before, store.nodes, r.right, t.right.right);
    r := r.(left := h, heightLeft := oldRoot.height);
    r := r.(height := Larger(r.heightLeft, r.heightRight) + 1);
    Formed(store.nodes, r, RightRight(t).left, t.right.right);
  }

  method RotateLeftRight(store: HashStore, root: Node, ghost t: Tree) returns (r: Node)
    requires store.Valid() && LeftHeavy(t) && t.left.right.Fork? && Represents(store.nodes, root, t)
    modifies store`nodes
    ensures store.Valid() && Grows(old(store.nodes), store.nodes)
    ensures Represents(store.nodes, r, LeftRight(t))
  {
    hide Denotes, Height;
    var oldRoot := root;
    Found(store.nodes, root.left, t.left);
    var left := store.Get(root.left);
    Found(store.nodes, left.right, t.left.right);
    var leftRight := store.Get(left.right);
    oldRoot := oldRoot.(left := leftRight.right, heightLeft := leftRight.heightRight);
    oldRoot := oldRoot.(height := Larger(oldRoot.heightLeft, oldRoot.heightRight) + 1);
    left := left.(right := leftRight.left, heightRight := leftRight.heightLeft);
    left := left.(height := Larger(left.heightLeft, left.heightRight) + 1);
    r := leftRight.(heightLeft := left.height, heightRight := oldRoot.height);
    r := r.(height := Larger(r.heightLeft, r.heightRight) + 1);
    Formed(store.nodes, left, t.left.left, t.left.right.left);
    Formed(store.nodes, oldRoot, t.left.right.right, t.right);
    var h, h' := PutBoth(store, left, oldRoot, LeftRight(t).left, LeftRight(t).right);
    r := r.(left := h, right := h');
    Formed(store.nodes, r, LeftRight(t).left, LeftRight(t).right);
  }

  method RotateRightLeft(store: HashStore, root: Node, ghost t: Tree) returns (r: Node)
    requires store.Valid() && RightHeavy(t) && t.right.left.Fork? && Represents(store.nodes, root, t)
    modifies store`nodes
    ensures store.Valid() && Grows(old(store.nodes), store.nodes)
    ensures Represents(store.nodes, r, RightLeft(t))
  {
    hide Denotes, Height;
    var oldRoot := root;
    Found(store.nodes, root.right, t.right);
    var right := store.Get(root.right);
    Found(store.nodes, right.left, t.right.left);
    var rightLeft := store.Get(right.left);
    oldRoot := oldRoot.(right := rightLeft.left, heightRight := rightLeft.heightLeft);
    oldRoot := oldRoot.(height := Larger(oldRoot.heightRight, oldRoot.heightLeft) + 1);
    right := right.(left := rightLeft.right, heightLeft := rightLeft.heightRight);
    right := right.(height := Larger(right.heightRight, right.heightLeft) + 1);
    r := rightLeft.(heightRight := right.height, heightLeft := oldRoot.height);
    r := r.(height := Larger(r.heightRight, r.heightLeft) + 1);
    Formed(store.nodes, right, t.right.left.right, t.right.right);
    Formed(store.nodes, oldRoot, t.left, t.right.left.left);
    var h, h' := PutBoth(store, right, oldRoot, RightLeft(t).right, RightLeft(t).left);
    r := r.(right := h, left := h');
    Formed(store.nodes, r, RightLeft(t).left, RightLeft(t).right);
  }

  method PutBoth(store: HashStore, a: Node, b: Node, ghost t: Tree, ghost u: Tree) returns (h: nat, h': nat)
    requires store.Valid() && Represents(store.nodes, a, t) && Represents(store.nodes, b, u)
    modifies store`nodes
    ensures store.Valid() && Grows(old(store.nodes), store.nodes)
    ensures Denotes(store.nodes, h, t) && Denotes(store.nodes, h', u)
  {
    ghost var before := store.nodes;
    h := store.Put(a);
    OlderNodesStay(before, store.nodes, b, u);
    before := store.nodes;
    h' := store.Put(b);
    OlderRootsStay(before, store.nodes, h, t);
  }

  // ----- search paths -----

  function Direction(t: Tree, key: int): int
    requires t.Fork?
  {
    if key == t.key then TREE_PATH_EQUALS else if key < t.key then TREE_PATH_LEFT else TREE_PATH_RIGHT
  }

  ghost predicate OnPath(nodes: map<nat, Node>, path: seq<Node>, branches: seq<int>, t: Tree, key: int, i: nat)
    requires i < |path| && i < |branches|
  {
    var d := Descend(t, key, i);
    Represents(nodes, path[i], d) && branches[i] == Direction(d, key)
  }

  /** The first `n` nodes of the path are those that a search for the key visits. */
  ghost predicate PathHolds(nodes: map<nat, Node>, path: seq<Node>, branches: seq<int>, t: Tree, key: int, n: nat)
    requires n <= |path| && n <= |branches|
  {
    forall i :: 0 <= i < n ==> OnPath(nodes, path, branches, t, key, i)
  }

  /** The search has visited `depth` nodes and goes on at `h`, or has found the key. */
  ghost predicate Searching(nodes: map<nat, Node>, t: Tree, key: int, h: nat, found: bool, depth: nat) {
    if found then depth == Steps(t, key) + 1 && Descend(t, key, Steps(t, key)).Fork?
    else depth <= Steps(t, key) && Denotes(nodes, h, Descend(t, key, depth))
  }

  lemma SearchStep(nodes: map<nat, Node>, t: Tree, key: int, h: nat, depth: nat)
    requires Searching(nodes, t, key, h, false, depth) && h != NULL_HASH
    ensures Descend(t, key, depth).Fork? && h in nodes && Represents(nodes, nodes[h], Descend(t, key, depth))
    ensures var n := nodes[h];
            Searching(nodes, t, key, if key == n.key then h else if key < n.key then n.left
                else n.right, key == n.key, depth + 1)
  {
    var d := Descend(t, key, depth);
    Found(nodes, h, d);
    DescendStops(t, key);
    if depth < Steps(t, key) { DescendNext(t, key, depth); }
  }

  lemma SearchEnds(nodes: map<nat, Node>, t: Tree, key: int, h: nat, found: bool, depth: nat)
    requires Searching(nodes, t, key, h, found, depth) && Height(t) <= MAX_TREE_DEPTH
    requires !found ==> h == NULL_HASH || depth == MAX_TREE_DEPTH
    ensures depth == PathLength(t, key) && (found <==> Descend(t, key, Steps(t, key)).Fork?)
  {
    PathWithinHeight(t, key);
    if !found && h == NULL_HASH && depth < Steps(t, key) { DescendNext(t, key, depth); }
  }

  /** The path of a search; `depth` counts its nodes. */
  method FindPath(store: HashStore, root: nat, key: int, path: array<Node>, branches: array<int>, ghost t: Tree)
    returns (found: bool, depth: nat)
    requires Denotes(store.nodes, root, t) && Height(t) <= MAX_TREE_DEPTH
    requires path.Length == branches.Length == MAX_TREE_DEPTH
    modifies path, branches
    ensures depth == PathLength(t, key) <= MAX_TREE_DEPTH
    ensures found <==> Descend(t, key, Steps(t, key)).Fork?
    ensures PathHolds(store.nodes, path[..], branches[..], t, key, depth)
  {
    hide Denotes, Represents, Searching, Height, PathLength, Steps, Descend;
    var h := root;
    found, depth := false, 0;
    var i := 0;
    SearchStarts(store.nodes, t, key, root);
    while i < MAX_TREE_DEPTH
      invariant 0 <= i <= MAX_TREE_DEPTH && depth <= i
      invariant Searching(store.nodes, t, key, h, found, depth)
      invariant !found && h != NULL_HASH ==> depth == i
      invariant PathHolds(store.nodes, path[..], branches[..], t, key, depth)
    {
      if !found && h != NULL_HASH {
        SearchStep(store.nodes, t, key, h, depth);
        var node := store.Get(h);
        ghost var p, b := path[..], branches[..];
        depth := i + 1;
        path[i] := node;
        if key == node.key {
          found := true;
          branches[i] := TREE_PATH_EQUALS;
        } else if key < node.key {
          h := node.left;
          branches[i] := TREE_PATH_LEFT;
        } else {
          h := node.right;
          branches[i] := TREE_PATH_RIGHT;
        }
        NodeKey(store.nodes, node, Descend(t, key, i));
        PathLonger(store.nodes, p, b, path[..], branches[..], t, key, i);
      }
      i := i + 1;
    }
    SearchEnds(store.nodes, t, key, h, found, depth);
  }

  lemma PathLonger(nodes: map<nat, Node>, p: seq<Node>, b: seq<int>, p': seq<Node>, b': seq<int>, t: Tree, key: int,
      i: nat)
    requires |p| == |p'| == |b| == |b'| && i < |p| && PathHolds(nodes, p, b, t, key, i)
    requires p' == p[i := p'[i]] && b' == b[i := b'[i]] && OnPath(nodes, p', b', t, key, i)
    ensures PathHolds(nodes, p', b', t, key, i + 1)
  {
    hide Represents, Descend;
    forall j | 0 <= j < i ensures OnPath(nodes, p', b', t, key, j) {
      assert OnPath(nodes, p, b, t, key, j);
    }
  }

  lemma SearchStarts(nodes: map<nat, Node>, t: Tree, key: int, root: nat)
    requires Denotes(nodes, root, t)
    ensures Searching(nodes, t, key, root, false, 0)
  {
  }

  lemma NodeKey(nodes: map<nat, Node>, n: Node, t: Tree)
    requires Represents(nodes, n, t)
    ensures t.Fork? && n.key == t.key && n.values == t.values
  {
  }

  // ----- insertion -----

  /** After its left subtree became `c`, a node is relinked and rotated where it leans too far. */
  method RelinkLeft(store: HashStore, node: Node, h: nat, previous: Node, ghost d: Tree, ghost c: Tree)
      returns (r: Node)
    requires store.Valid() && Represents(store.nodes, node, d) && Balanced(c)
    requires Denotes(store.nodes, h, c) && Represents(store.nodes, previous, c)
    modifies store`nodes
    ensures store.Valid() && Grows(old(store.nodes), store.nodes)
    ensures d.Fork? && Represents(store.nodes, r, FixLeft(Fork(c, d.key, d.values, d.right)))
  {
    hide Denotes;
    ghost var u := Fork(c, d.key, d.values, d.right);
    r := node.(left := h, heightLeft := previous.height);
    r := r.(height := Larger(r.heightLeft, r.heightRight) + 1);
    Formed(store.nodes, r, c, d.right);
    if r.heightLeft - r.heightRight == 2 {
      if previous.heightLeft - previous.heightRight == 1 {
        r := RotateLeftLeft(store, r, u);
      } else {
        r := RotateLeftRight(store, r, u);
      }
    }
  }

  method RelinkRight(store: HashStore, node: Node, h: nat, previous: Node, ghost d: Tree, ghost c: Tree)
      returns (r: Node)
    requires store.Valid() && Represents(store.nodes, node, d) && Balanced(c)
    requires Denotes(store.nodes, h, c) && Represents(store.nodes, previous, c)
    modifies store`nodes
    ensures store.Valid() && Grows(old(store.nodes), store.nodes)
    ensures d.Fork? && Represents(store.nodes, r, FixRight(Fork(d.left, d.key, d.values, c)))
  {
    hide Denotes;
    ghost var u := Fork(d.left, d.key, d.values, c);
    r := node.(right := h, heightRight := previous.height);
    r := r.(height := Larger(r.heightLeft, r.heightRight) + 1);
    Formed(store.nodes, r, d.left, c);
    if r.heightLeft - r.heightRight == -2 {
      if previous.heightLeft - previous.heightRight == -1 {
        r := RotateRightRight(store, r, u);
      } else {
        r := RotateRightLeft(store, r, u);
      }
    }
  }

  lemma PathGrows(a: map<nat, Node>, b: map<nat, Node>, path: seq<Node>, path': seq<Node>, branches: seq<int>, t: Tree,
      key: int, n: nat)
    requires n <= |path| == |path'| && n <= |branches| && path[..n] == path'[..n]
    requires Grows(a, b) && PathHolds(a, path, branches, t, key, n)
    ensures PathHolds(b, path', branches, t, key, n)
  {
    hide Represents, Descend;
    forall i | 0 <= i < n ensures OnPath(b, path', branches, t, key, i) {
      assert OnPath(a, path, branches, t, key, i);
      assert path[..n][i] == path'[..n][i];
      OlderNodesStay(a, b, path[i], Descend(t, key, i));
    }
  }

  /** The subtree that the insertion puts at step `i` of the path. */
  ghost function Inserted(t: Tree, key: int, v: int, i: nat): Tree {
    Insert(Descend(t, key, i), key, v)
  }

  lemma InsertedStep(t: Tree, key: int, v: int, i: nat)
    requires i < Steps(t, key)
    ensures var d, c := Descend(t, key, i), Inserted(t, key, v, i + 1);
            && d.Fork?
            && (key < d.key ==> Inserted(t, key, v, i) == FixLeft(Fork(c, d.key, d.values, d.right)))
            && (key > d.key ==> Inserted(t, key, v, i) == FixRight(Fork(d.left, d.key, d.values, c)))
            && key != d.key
  {
    hide FixLeft, FixRight;
    DescendNext(t, key, i);
  }

  lemma InsertedBalanced(t: Tree, key: int, v: int, i: nat)
    requires Balanced(t)
    ensures Balanced(Inserted(t, key, v, i))
  {
    DescendKeeps(t, key, i);
    InsertBalances(Descend(t, key, i), key, v);
  }

  /** One node of the path, relinked to the subtree below it. */
  method RecomputeNode(store: HashStore, node: Node, branch: int, h: nat, previous: Node, ghost t: Tree, ghost key: int,
      ghost v: int, ghost i: nat)
    returns (r: Node)
    requires store.Valid() && Balanced(t) && i < Steps(t, key)
    requires Represents(store.nodes, node, Descend(t, key, i)) && branch == Direction(Descend(t, key, i), key)
    requires Denotes(store.nodes, h, Inserted(t, key, v, i + 1)) &&
        Represents(store.nodes, previous, Inserted(t, key, v, i + 1))
    modifies store`nodes
    ensures store.Valid() && Grows(old(store.nodes), store.nodes)
    ensures Represents(store.nodes, r, Inserted(t, key, v, i))
  {
    hide Represents, Denotes, Balanced, FixLeft, FixRight, Inserted, Descend, Steps;
    r := node;
    InsertedStep(t, key, v, i);
    InsertedBalanced(t, key, v, i + 1);
    if branch == TREE_PATH_LEFT {
      r := RelinkLeft(store, node, h, previous, Descend(t, key, i), Inserted(t, key, v, i + 1));
    } else if branch == TREE_PATH_RIGHT {
      r := RelinkRight(store, node, h, previous, Descend(t, key, i), Inserted(t, key, v, i + 1));
    }
  }

  /** Puts the nodes of a path back, deepest first. */
  method RecomputePath(store: HashStore, path: array<Node>, branches: array<int>, depth: nat, ghost t: Tree,
      ghost key: int, ghost v: int)
    returns (root: nat)
    requires store.Valid() && Balanced(t) && path.Length == branches.Length == MAX_TREE_DEPTH
    requires 1 <= depth == Steps(t, key) + 1 <= MAX_TREE_DEPTH
    requires PathHolds(store.nodes, path[..], branches[..], t, key, depth - 1)
    requires Represents(store.nodes, path[depth - 1], Inserted(t, key, v, depth - 1))
    modifies store`nodes, path
    ensures store.Valid() && Grows(old(store.nodes), store.nodes)
    ensures Denotes(store.nodes, root, Insert(t, key, v))
  {
    hide Represents, Denotes, Balanced, Insert, Descend, Steps, Inserted;
    var previous := Node(0, 0, 0, [], 0, 0, 0);
    root := NULL_HASH;
    var i := MAX_TREE_DEPTH;
    while i > 0
      invariant 0 <= i <= MAX_TREE_DEPTH && store.Valid() && Grows(old(store.nodes), store.nodes)
      invariant PathHolds(store.nodes, path[..], branches[..], t, key, if i < depth then i else depth - 1)
      invariant i < depth ==>
          Denotes(store.nodes, root, Inserted(t, key, v, i)) &&
          Represents(store.nodes, previous, Inserted(t, key, v, i))
      invariant i >= depth ==> Represents(store.nodes, path[depth - 1], Inserted(t, key, v, depth - 1))
    {
      i := i - 1;
      if i < depth {
        ghost var before, was := store.nodes, path[..];
        if i < depth - 1 {
          assert OnPath(store.nodes, path[..], branches[..], t, key, i);
          var node := RecomputeNode(store, path[i], branches[i], root, previous, t, key, v, i);
          path[i] := node;
        }
        previous := path[i];
        ghost var middle := store.nodes;
        root := store.Put(previous);
        GrowsOn(before, middle, store.nodes);
        PathShorter(before, was, branches[..], t, key, i, if i + 1 < depth then i + 1 else depth - 1);
        PathGrows(before, store.nodes, was, path[..], branches[..], t, key, i);
      }
    }
    InsertedWhole(t, key, v);
  }

  lemma GrowsOn(a: map<nat, Node>, b: map<nat, Node>, c: map<nat, Node>)
    requires Grows(a, b) && Grows(b, c)
    ensures Grows(a, c)
  {
  }

  lemma PathShorter(nodes: map<nat, Node>, path: seq<Node>, branches: seq<int>, t: Tree, key: int, m: nat, n: nat)
    requires m <= n <= |path| && n <= |branches| && PathHolds(nodes, path, branches, t, key, n)
    ensures PathHolds(nodes, path, branches, t, key, m)
  {
  }

  lemma InsertedWhole(t: Tree, key: int, v: int)
    ensures Inserted(t, key, v, 0) == Insert(t, key, v)
  {
  }

  /** Adds a value to a node unless it is there already or the node is full. */
  method CopyValue(values: Values, value: int) returns (success: bool, r: Values)
    ensures success <==> value !in values && |values| < MAX_TREE_NODE_VALUES
    ensures r == if success then values + [value] else values
  {
    success, r := false, values;
    var found := false;
    var i := 0;
    while i < MAX_TREE_NODE_VALUES
      invariant 0 <= i <= MAX_TREE_NODE_VALUES
      invariant found <==> exists k :: 0 <= k < i && k < |values| && values[k] == value
      invariant success <==> |values| < i && !found
      invariant r == if success then values + [value] else values
    {
      if i < |values| && values[i] == value {
        found := true;
      } else if !found && i == |values| {
        r := values + [value];
        success := true;
      }
      i := i + 1;
    }
  }

  lemma EditedNode(nodes: map<nat, Node>, n: Node, t: Tree, key: int, v: int)
    requires t.Fork? && t.key == key && Represents(nodes, n, t) && |n.values| < MAX_TREE_NODE_VALUES
    ensures Represents(nodes, n.(values := n.values + [v]), Insert(t, key, v))
  {
  }

  lemma NewNode(nodes: map<nat, Node>, key: int, v: int)
    ensures Represents(nodes, Node(NULL_HASH, NULL_HASH, key, [v], 1, 0, 0), Insert(Nil, key, v))
  {
    assert Denotes(nodes, NULL_HASH, Nil);
  }

  class SearchTree {
    const store: HashStore
    var root: nat
    ghost var model: Tree

    ghost predicate Valid()
      reads this, store
    {
      && store.Valid() && Denotes(store.nodes, root, model)
      && Ordered(model) && Balanced(model) && Height(model) <= MAX_TREE_DEPTH
    }

    /** The values of each key. */
    ghost function Contents(): map<int, seq<int>>
      reads this
    {
      Entries(InOrder(model))
    }

    constructor (store: HashStore)
      requires store.Valid()
      ensures Valid() && this.store == store && Contents() == map[]
    {
      this.store := store;
      root := NULL_HASH;
      model := Nil;
    }

    /**
     Adds a value to a key.  It reports success exactly when the key has room for it or, for a new key, the path to
     its place is shorter than the depth limit, as it always is with fewer than 376 keys; otherwise nothing changes.
     */
    method Insert(key: int, value: int) returns (success: bool)
      requires Valid()
      modifies this`root, this`model, store`nodes
      ensures Valid() && Grows(old(store.nodes), store.nodes)
      ensures success <==> Accepted(old(model), key, value)
      ensures key in old(Contents()) ==>
        (success <==> value !in old(Contents())[key] && |old(Contents())[key]| < MAX_TREE_NODE_VALUES)
      ensures key !in old(Contents()) && (Height(old(model)) < MAX_TREE_DEPTH || |old(Contents())| < 376) ==> success
      ensures success ==> model == AvlSpec.Insert(old(model), key, value)
      ensures success ==> Contents() == old(Contents())[key := ValuesOf(old(Contents()), key) + [value]]
      ensures !success ==> root == old(root) && model == old(model) && store.nodes == old(store.nodes)
    {
      hide Denotes, Represents, Ordered, Balanced, Height, Descend, Steps, PathLength, AvlSpec.Insert, Entries, InOrder;
      ghost var t := model;
      AcceptedMeans(t, key, value);
      if key !in Contents() && |Contents()| < 376 { RoomForKeys(t, key, value); }
      var empty := Node(NULL_HASH, NULL_HASH, 0, [], 0, 0, 0);
      var path := new Node[MAX_TREE_DEPTH](_ => empty);
      var branches := new int[MAX_TREE_DEPTH](_ => 0);
      var found, depth := FindPath(store, root, key, path, branches, t);
      PathWithinHeight(t, key);
      DescendStops(t, key);
      success := false;
      if found {
        assert OnPath(store.nodes, path[..], branches[..], t, key, depth - 1);
        NodeKey(store.nodes, path[depth - 1], Descend(t, key, depth - 1));
        var values;
        success, values := CopyValue(path[depth - 1].values, value);
        if success {
          EditedNode(store.nodes, path[depth - 1], Descend(t, key, depth - 1), key, value);
          EditLast(store.nodes, path, branches, depth - 1, path[depth - 1].(values := values), t, key, depth);
        }
      } else if depth < MAX_TREE_DEPTH {
        depth := depth + 1;
        NewNode(store.nodes, key, value);
        EditLast(store.nodes, path, branches, depth - 1, Node(NULL_HASH, NULL_HASH, key, [value], 1, 0, 0), t, key,
            depth - 1);
        success := true;
      }
      if success {
        root := RecomputePath(store, path, branches, depth, t, key, value);
        model := AvlSpec.Insert(t, key, value);
        InsertCorrect(t, key, value);
      }
    }
  }

  /** Writing a node below a path leaves the path. */
  method EditLast(ghost nodes: map<nat, Node>, path: array<Node>, branches: array<int>, i: nat, n: Node, ghost t: Tree,
      ghost key: int, ghost m: nat)
    requires i < path.Length && i <= m <= path.Length && m <= branches.Length &&
        PathHolds(nodes, path[..], branches[..], t, key, m)
    modifies path
    ensures path[i] == n && PathHolds(nodes, path[..], branches[..], t, key, i)
  {
    ghost var was := path[..];
    path[i] := n;
    PathShorter(nodes, was, branches[..], t, key, i, m);
    PathGrows(nodes, nodes, was, path[..], branches[..], t, key, i);
  }
}
