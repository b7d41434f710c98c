/** Height-balanced search trees as values: insertion with rotations, and what it does to the list of entries. */
module AvlSpec {

  const MAX_TREE_DEPTH := 12
  const MAX_TREE_NODE_VALUES := 1

  datatype Tree = Nil | Fork(left: Tree, key: int, values: seq<int>, right: Tree)

  /** A key with its values. */
  datatype Entry = Entry(key: int, values: seq<int>)

  function Larger(a: int, b: int): int { if b > a then b else a }

  function Height(t: Tree): nat {
    match t
    case Nil => 0
    case Fork(l, _, _, r) => Larger(Height(l), Height(r)) + 1
  }

  /** The entries in the order of the tree. */
  function InOrder(t: Tree): seq<Entry> {
    match t
    case Nil => []
    case Fork(l, k, vs, r) => InOrder(l) + [Entry(k, vs)] + InOrder(r)
  }

  predicate Ascending(s: seq<Entry>) {
    forall i, j :: 0 <= i < j < |s| ==> s[i].key < s[j].key
  }

  predicate Ordered(t: Tree) {
    Ascending(InOrder(t))
  }

  predicate Balanced(t: Tree) {
    match t
    case Nil => true
    case Fork(l, _, _, r) => -1 <= Height(l) - Height(r) <= 1 && Balanced(l) && Balanced(r)
  }

  // ----- rotations -----

  predicate LeftHeavy(t: Tree) {
    t.Fork? && t.left.Fork?
  }

  function LeftLeft(t: Tree): Tree
    requires LeftHeavy(t)
  {
    Fork(t.left.left, t.left.key, t.left.values, Fork(t.left.right, t.key, t.values, t.right))
  }

  function LeftRight(t: Tree): Tree
    requires LeftHeavy(t) && t.left.right.Fork?
  {
    var z := t.left.right;
    Fork(Fork(t.left.left, t.left.key, t.left.values, z.left), z.key, z.values, Fork(z.right, t.key, t.values, t.right))
  }

  predicate RightHeavy(t: Tree) {
    t.Fork? && t.right.Fork?
  }

  function RightRight(t: Tree): Tree
    requires RightHeavy(t)
  {
    Fork(Fork(t.left, t.key, t.values, t.right.left), t.right.key, t.right.values, t.right.right)
  }

  function RightLeft(t: Tree): Tree
    requires RightHeavy(t) && t.right.left.Fork?
  {
    var z := t.right.left;
    Fork(Fork(t.left, t.key, t.values, z.left), z.key, z.values,
        Fork(z.right, t.right.key, t.right.values, t.right.right))
  }

  lemma JoinsAgree(a: seq<Entry>, x: Entry, b: seq<Entry>, y: Entry, c: seq<Entry>)
    ensures a + [x] + (b + [y] + c) == a + [x] + b + [y] + c
  {
  }

  lemma LeftLeftKeepsOrder(t: Tree)
    requires LeftHeavy(t)
    ensures InOrder(LeftLeft(t)) == InOrder(t)
  {
    var l := t.left;
    JoinsAgree(InOrder(l.left), Entry(l.key, l.values), InOrder(l.right), Entry(t.key, t.values), InOrder(t.right));
  }

  lemma RightRightKeepsOrder(t: Tree)
    requires RightHeavy(t)
    ensures InOrder(RightRight(t)) == InOrder(t)
  {
    var r := t.right;
    JoinsAgree(InOrder(t.left), Entry(t.key, t.values), InOrder(r.left), Entry(r.key, r.values), InOrder(r.right));
  }

  /** A double rotation is two single ones. */
  lemma LeftRightKeepsOrder(t: Tree)
    requires LeftHeavy(t) && t.left.right.Fork?
    ensures InOrder(LeftRight(t)) == InOrder(t)
  {
    hide InOrder;
    var half := Fork(RightRight(t.left), t.key, t.values, t.right);
    assert LeftRight(t) == LeftLeft(half);
    LeftLeftKeepsOrder(half);
    RightRightKeepsOrder(t.left);
    InOrderParts(half, t);
  }

  lemma RightLeftKeepsOrder(t: Tree)
    requires RightHeavy(t) && t.right.left.Fork?
    ensures InOrder(RightLeft(t)) == InOrder(t)
  {
    hide InOrder;
    var half := Fork(t.left, t.key, t.values, LeftLeft(t.right));
    assert RightLeft(t) == RightRight(half);
    RightRightKeepsOrder(half);
    LeftLeftKeepsOrder(t.right);
    InOrderParts(half, t);
  }

  lemma InOrderParts(t: Tree, u: Tree)
    requires t.Fork? && u.Fork? && t.key == u.key && t.values == u.values
    requires InOrder(t.left) == InOrder(u.left) && InOrder(t.right) == InOrder(u.right)
    ensures InOrder(t) == InOrder(u)
  {
  }

  /** What the code does at a node after its left subtree has changed. */
  function FixLeft(t: Tree): Tree
    requires t.Fork?
  {
    if Height(t.left) - Height(t.right) == 2 then
      if Height(t.left.left) - Height(t.left.right) == 1 then LeftLeft(t)
      else if t.left.right.Fork? then LeftRight(t) else t
    else t
  }

  function FixRight(t: Tree): Tree
    requires t.Fork?
  {
    if Height(t.left) - Height(t.right) == -2 then
      if Height(t.right.left) - Height(t.right.right) == -1 then RightRight(t)
      else if t.right.left.Fork? then RightLeft(t) else t
    else t
  }

  lemma FixKeepsOrder(t: Tree)
    requires t.Fork?
    ensures InOrder(FixLeft(t)) == InOrder(t) && InOrder(FixRight(t)) == InOrder(t)
  {
    hide InOrder;
    if LeftHeavy(t) { LeftLeftKeepsOrder(t); }
    if LeftHeavy(t) && t.left.right.Fork? { LeftRightKeepsOrder(t); }
    if RightHeavy(t) { RightRightKeepsOrder(t); }
    if RightHeavy(t) && t.right.left.Fork? { RightLeftKeepsOrder(t); }
  }

  // ----- insertion -----

  function Insert(t: Tree, k: int, v: int): (r: Tree)
    ensures r.Fork?
  {
    match t
    case Nil => Fork(Nil, k, [v], Nil)
    case Fork(l, key, vs, r) =>
      if k == key then Fork(l, key, vs + [v], r)
      else if k < key then FixLeft(Fork(Insert(l, k, v), key, vs, r))
      else FixRight(Fork(l, key, vs, Insert(r, k, v)))
  }

  /** A subtree that was balanced before its child grew by at most one. */
  lemma FixLeftBalances(t: Tree, h: nat)
    requires t.Fork? && Balanced(t.left) && Balanced(t.right)
    requires h <= Height(t.left) <= h + 1 && -1 <= h - Height(t.right) <= 1
    requires h > 0 && Height(t.left) == h + 1 ==> Height(t.left.left) != Height(t.left.right)
    ensures var r := FixLeft(t); var before := Larger(h, Height(t.right)) + 1;
            && r.Fork? && Balanced(r) && before <= Height(r) <= before + 1
            && (Height(r) == before + 1 ==> Height(r.left) != Height(r.right))
  {
  }

  lemma FixRightBalances(t: Tree, h: nat)
    requires t.Fork? && Balanced(t.left) && Balanced(t.right)
    requires h <= Height(t.right) <= h + 1 && -1 <= h - Height(t.left) <= 1
    requires h > 0 && Height(t.right) == h + 1 ==> Height(t.right.left) != Height(t.right.right)
    ensures var r := FixRight(t); var before := Larger(Height(t.left), h) + 1;
            && r.Fork? && Balanced(r) && before <= Height(r) <= before + 1
            && (Height(r) == before + 1 ==> Height(r.left) != Height(r.right))
  {
  }

  /** Insertion keeps balance; a subtree that it makes taller leans to one side, unless it was empty. */
  lemma {:induction false} InsertBalances(t: Tree, k: int, v: int)
    requires Balanced(t)
    ensures var r := Insert(t, k, v);
            && Balanced(r) && Height(t) <= Height(r) <= Height(t) + 1
            && (t.Fork? && Height(r) == Height(t) + 1 ==> Height(r.left) != Height(r.right))
    decreases t
  {
    hide FixLeft, FixRight;
    match t
    case Nil =>
      assert Balanced(Fork(Nil, k, [v], Nil));
    case Fork(l, key, vs, r) =>
      if k < key {
        InsertBalances(l, k, v);
        HeightPositive(l);
        FixLeftBalances(Fork(Insert(l, k, v), key, vs, r), Height(l));
      } else if k > key {
        InsertBalances(r, k, v);
        HeightPositive(r);
        FixRightBalances(Fork(l, key, vs, Insert(r, k, v)), Height(r));
      }
  }

  lemma HeightPositive(t: Tree)
    ensures Height(t) > 0 <==> t.Fork?
  {
  }

  // ----- search paths -----

  function Toward(t: Tree, k: int): Tree
    requires t.Fork?
  {
    if k < t.key then t.left else t.right
  }

  predicate Stops(t: Tree, k: int) {
    t.Nil? || t.key == k
  }

  /** The subtree reached after `i` steps of a search that does not stop before. */
  function Descend(t: Tree, k: int, i: nat): Tree
    decreases i
  {
    if i == 0 || Stops(t, k) then t else Descend(Toward(t, k), k, i - 1)
  }

  /** Nodes that a search visits. */
  function PathLength(t: Tree, k: int): nat {
    if t.Nil? then 0 else if t.key == k then 1 else 1 + PathLength(Toward(t, k), k)
  }

  /** Steps that a search takes before it stops. */
  function Steps(t: Tree, k: int): nat {
    if Stops(t, k) then 0 else 1 + Steps(Toward(t, k), k)
  }

  lemma {:induction false} PathWithinHeight(t: Tree, k: int)
    ensures PathLength(t, k) <= Height(t)
    ensures PathLength(t, k) == Steps(t, k) + if Descend(t, k, Steps(t, k)).Nil? then 0 else 1
    decreases t
  {
    if !Stops(t, k) { PathWithinHeight(Toward(t, k), k); }
  }

  lemma {:induction false} DescendNext(t: Tree, k: int, i: nat)
    requires i < Steps(t, k)
    ensures !Stops(Descend(t, k, i), k) && Descend(t, k, i + 1) == Toward(Descend(t, k, i), k)
    decreases i
  {
    if i > 0 { DescendNext(Toward(t, k), k, i - 1); }
  }

  lemma {:induction false} DescendStops(t: Tree, k: int)
    ensures Stops(Descend(t, k, Steps(t, k)), k)
    decreases t
  {
    if !Stops(t, k) { DescendStops(Toward(t, k), k); }
  }

  lemma {:induction false} DescendKeeps(t: Tree, k: int, i: nat)
    ensures Balanced(t) ==> Balanced(Descend(t, k, i))
    decreases i
  {
    if i > 0 && !Stops(t, k) { DescendKeeps(Toward(t, k), k, i - 1); }
  }

  /** A search finds a key exactly when the tree has it. */
  lemma {:induction false} SearchFinds(t: Tree, k: int)
    requires Ordered(t)
    ensures var e := Descend(t, k, Steps(t, k));
            && (k in Entries(InOrder(t)) <==> e.Fork?)
            && (e.Fork? ==> Entries(InOrder(t))[k] == e.values)
    decreases t
  {
    hide Entries, Ascending, InOrder, Descend;
    DescendUnfolds(t, k);
    if t.Fork? {
      InOrderFork(t);
      OrderedParts(t);
      EntriesJoin(InOrder(t.left), Entry(t.key, t.values), InOrder(t.right), k);
      if t.key != k { SearchFinds(Toward(t, k), k); }
    } else {
      NoEntries(t, k);
    }
  }

  lemma DescendUnfolds(t: Tree, k: int)
    ensures Descend(t, k, Steps(t, k)) == if Stops(t, k) then t else
        Descend(Toward(t, k), k, Steps(Toward(t, k), k))
  {
  }

  lemma InOrderFork(t: Tree)
    requires t.Fork?
    ensures InOrder(t) == InOrder(t.left) + [Entry(t.key, t.values)] + InOrder(t.right)
  {
  }

  lemma NoEntries(t: Tree, k: int)
    requires t.Nil?
    ensures k !in Entries(InOrder(t))
  {
  }

  lemma {:induction false} EntriesJoin(a: seq<Entry>, e: Entry, b: seq<Entry>, k: int)
    requires Ascending(a + [e] + b)
    ensures var m := Entries(a + [e] + b);
            && (k == e.key ==> k in m && m[k] == e.values)
            && (k < e.key ==> (k in m <==> k in Entries(a)) && (k in m ==> m[k] == Entries(a)[k]))
            && (k > e.key ==> (k in m <==> k in Entries(b)) && (k in m ==> m[k] == Entries(b)[k]))
    decreases |a|
  {
    AscendingParts(a, e, b);
    if |a| == 0 {
      assert (a + [e] + b)[1..] == b;
      if k <= e.key { KeysAbove(b, k); }
    } else {
      assert (a + [e] + b)[1..] == a[1..] + [e] + b;
      EntriesJoin(a[1..], e, b, k);
    }
  }

  /** The insertions that the code accepts. */
  predicate Accepted(t: Tree, k: int, v: int) {
    var e := Descend(t, k, Steps(t, k));
    if e.Fork? then v !in e.values && |e.values| < MAX_TREE_NODE_VALUES else PathLength(t, k) < MAX_TREE_DEPTH
  }

  /** In terms of the contents: a key that is there needs room for the value, a new key a tree below full height. */
  lemma AcceptedMeans(t: Tree, k: int, v: int)
    requires Ordered(t)
    ensures var m := Entries(InOrder(t));
            && (k in m ==> (Accepted(t, k, v) <==> v !in m[k] && |m[k]| < MAX_TREE_NODE_VALUES))
            && (k !in m && Height(t) < MAX_TREE_DEPTH ==> Accepted(t, k, v))
            && (k !in m && Accepted(t, k, v) ==> PathLength(t, k) < MAX_TREE_DEPTH)
  {
    hide Entries, InOrder, Height, PathLength, Descend, Steps;
    SearchFinds(t, k);
    PathWithinHeight(t, k);
  }

  // ----- how many keys there is always room for -----

  /** The least number of nodes of a balanced tree of height `h`. */
  function LeastNodes(h: nat): nat {
    if h == 0 then 0 else if h == 1 then 1 else LeastNodes(h - 1) + LeastNodes(h - 2) + 1
  }

  lemma {:induction false} LeastNodesGrows(g: nat, h: nat)
    requires g <= h
    ensures LeastNodes(g) <= LeastNodes(h)
    decreases h
  {
    if g < h { LeastNodesGrows(g, h - 1); }
  }

  lemma {:induction false} BalancedNodes(t: Tree)
    requires Balanced(t)
    ensures |InOrder(t)| >= LeastNodes(Height(t))
    decreases t
  {
    if t.Fork? {
      BalancedNodes(t.left);
      BalancedNodes(t.right);
      var h := Height(t);
      if h >= 2 {
        LeastNodesGrows(h - 2, Height(t.left));
        LeastNodesGrows(h - 2, Height(t.right));
      }
    }
  }

  lemma {:induction false} EntriesCount(s: seq<Entry>)
    requires Ascending(s)
    ensures |Entries(s)| == |s|
    decreases |s|
  {
    if |s| > 0 {
      EntriesCount(s[1..]);
      KeysAbove(s[1..], s[0].key);
    }
  }

  /** With fewer than 376 keys every new key is accepted. */
  lemma RoomForKeys(t: Tree, k: int, v: int)
    requires Ordered(t) && Balanced(t) && k !in Entries(InOrder(t)) && |Entries(InOrder(t))| < 376
    ensures Accepted(t, k, v)
  {
    hide Entries, InOrder, Height, Balanced, Accepted, Ascending, LeastNodes;
    EntriesCount(InOrder(t));
    BalancedNodes(t);
    LeastAtLimit();
    if Height(t) >= MAX_TREE_DEPTH { LeastNodesGrows(MAX_TREE_DEPTH, Height(t)); }
    AcceptedMeans(t, k, v);
  }

  lemma LeastAtLimit()
    ensures LeastNodes(MAX_TREE_DEPTH) == 376
  {
    assert LeastNodes(4) == 7 && LeastNodes(5) == 12;
    assert LeastNodes(6) == 20 && LeastNodes(7) == 33;
    assert LeastNodes(8) == 54 && LeastNodes(9) == 88;
    assert LeastNodes(10) == 143 && LeastNodes(11) == 232;
  }

  lemma FixHeight(t: Tree)
    requires t.Fork?
    ensures Height(FixLeft(t)) <= Height(t) && Height(FixRight(t)) <= Height(t)
  {
  }

  /** Rotations only shorten, so the height stays within the old one or the length of the new path. */
  lemma {:induction false} InsertHeight(t: Tree, k: int, v: int)
    ensures Height(Insert(t, k, v)) <= Larger(Height(t), if Descend(t, k, Steps(t, k)).Fork? then 0
        else PathLength(t, k) + 1)
    decreases t
  {
    hide FixLeft, FixRight;
    match t
    case Nil =>
    case Fork(l, key, vs, r) =>
      if k < key {
        InsertHeight(l, k, v);
        FixHeight(Fork(Insert(l, k, v), key, vs, r));
      } else if k > key {
        InsertHeight(r, k, v);
        FixHeight(Fork(l, key, vs, Insert(r, k, v)));
      }
  }

  /**
   Accepted insertions keep a search tree balanced and within the height limit, and add exactly the requested
   value to the values of the key.
   */
  lemma InsertCorrect(t: Tree, k: int, v: int)
    requires Ordered(t) && Balanced(t) && Height(t) <= MAX_TREE_DEPTH && Accepted(t, k, v)
    ensures var r := Insert(t, k, v);
            && Ordered(r) && Balanced(r) && Height(r) <= MAX_TREE_DEPTH
            && Entries(InOrder(r)) == Entries(InOrder(t))[k := ValuesOf(Entries(InOrder(t)), k) + [v]]
  {
    hide Insert, InOrder, Entries, Balanced, Height, ListInsert, Ascending;
    InsertBalances(t, k, v);
    InsertIsListInsert(t, k, v);
    ListInsertAscends(InOrder(t), k, v);
    ListInsertAdds(InOrder(t), k, v);
    InsertHeight(t, k, v);
  }

  // ----- the list of entries -----

  /** Insertion into a sorted list. */
  function ListInsert(s: seq<Entry>, k: int, v: int): seq<Entry> {
    if |s| == 0 || k < s[0].key then [Entry(k, [v])] + s
    else if k == s[0].key then [Entry(k, s[0].values + [v])] + s[1..]
    else [s[0]] + ListInsert(s[1..], k, v)
  }

  lemma {:induction false} ListInsertLeft(a: seq<Entry>, e: Entry, b: seq<Entry>, k: int, v: int)
    requires k < e.key
    ensures ListInsert(a + [e] + b, k, v) == ListInsert(a, k, v) + [e] + b
    decreases |a|
  {
    if |a| > 0 && k >= a[0].key {
      assert (a + [e] + b)[1..] == a[1..] + [e] + b;
      if k > a[0].key { ListInsertLeft(a[1..], e, b, k, v); }
    }
  }

  lemma {:induction false} ListInsertRight(a: seq<Entry>, e: Entry, b: seq<Entry>, k: int, v: int)
    requires (forall i :: 0 <= i < |a| ==> a[i].key < k) && e.key <= k
    ensures e.key < k ==> ListInsert(a + [e] + b, k, v) == a + [e] + ListInsert(b, k, v)
    ensures e.key == k ==> ListInsert(a + [e] + b, k, v) == a + [Entry(k, e.values + [v])] + b
    decreases |a|
  {
    assert |a| == 0 ==> (a + [e] + b)[1..] == b;
    if |a| > 0 {
      assert (a + [e] + b)[1..] == a[1..] + [e] + b;
      ListInsertRight(a[1..], e, b, k, v);
    }
  }

  lemma OrderedParts(t: Tree)
    requires t.Fork? && Ordered(t)
    ensures Ordered(t.left) && Ordered(t.right)
    ensures forall i :: 0 <= i < |InOrder(t.left)| ==> InOrder(t.left)[i].key < t.key
    ensures forall i :: 0 <= i < |InOrder(t.right)| ==> t.key < InOrder(t.right)[i].key
  {
    AscendingParts(InOrder(t.left), Entry(t.key, t.values), InOrder(t.right));
  }

  lemma AscendingParts(a: seq<Entry>, e: Entry, b: seq<Entry>)
    requires Ascending(a + [e] + b)
    ensures Ascending(a) && Ascending(b)
    ensures forall i :: 0 <= i < |a| ==> a[i].key < e.key
    ensures forall i :: 0 <= i < |b| ==> e.key < b[i].key
  {
    var s := a + [e] + b;
    assert s[|a|] == e;
    assert forall i :: 0 <= i < |a| ==> s[i] == a[i];
    forall i | 0 <= i < |b| ensures s[|a| + 1 + i] == b[i] && e.key < b[i].key {}
    assert s[|a| + 1..] == b;
  }

  /** Insertion into the tree is insertion into the sorted list of its entries. */
  lemma {:induction false} InsertIsListInsert(t: Tree, k: int, v: int)
    requires Ordered(t)
    ensures InOrder(Insert(t, k, v)) == ListInsert(InOrder(t), k, v)
    decreases t
  {
    match t
    case Nil =>
      assert InOrder(Fork(Nil, k, [v], Nil)) == [Entry(k, [v])];
    case Fork(l, key, vs, r) =>
      OrderedParts(t);
      if k < key {
        InsertIsListInsert(l, k, v);
        ListInsertLeft(InOrder(l), Entry(key, vs), InOrder(r), k, v);
        FixKeepsOrder(Fork(Insert(l, k, v), key, vs, r));
      } else {
        if k > key { InsertIsListInsert(r, k, v); }
        ListInsertRight(InOrder(l), Entry(key, vs), InOrder(r), k, v);
        FixKeepsOrder(Fork(l, key, vs, Insert(r, k, v)));
      }
  }

  lemma {:induction false} ListInsertAscends(s: seq<Entry>, k: int, v: int)
    requires Ascending(s)
    ensures Ascending(ListInsert(s, k, v))
    ensures forall i :: 0 <= i < |ListInsert(s, k, v)| ==>
        ListInsert(s, k, v)[i].key == k || exists j :: 0 <= j < |s| && s[j].key == ListInsert(s, k, v)[i].key
    decreases |s|
  {
    if |s| > 0 && k > s[0].key {
      ListInsertAscends(s[1..], k, v);
    }
  }

  /** The values of each key. */
  function Entries(s: seq<Entry>): map<int, seq<int>> {
    if |s| == 0 then map[] else Entries(s[1..])[s[0].key := s[0].values]
  }

  function ValuesOf(m: map<int, seq<int>>, k: int): seq<int> {
    if k in m then m[k] else []
  }

  lemma {:induction false} ListInsertAdds(s: seq<Entry>, k: int, v: int)
    requires Ascending(s)
    ensures Entries(ListInsert(s, k, v)) == Entries(s)[k := ValuesOf(Entries(s), k) + [v]]
    decreases |s|
  {
    if |s| == 0 || k < s[0].key {
      KeysAbove(s, k);
      assert ([Entry(k, [v])] + s)[1..] == s;
      assert [] + [v] == [v];
    } else if k == s[0].key {
      assert ([Entry(k, s[0].values + [v])] + s[1..])[1..] == s[1..];
    } else {
      ListInsertAdds(s[1..], k, v);
      assert ([s[0]] + ListInsert(s[1..], k, v))[1..] == ListInsert(s[1..], k, v);
    }
  }

  lemma {:induction false} KeysAbove(s: seq<Entry>, k: int)
    requires forall i :: 0 <= i < |s| ==> s[i].key != k
    ensures k !in Entries(s)
  {
    if |s| > 0 { KeysAbove(s[1..], k); }
  }
}
