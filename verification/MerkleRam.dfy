/**
 The authenticated memory: cells in a block store, a hash tree over them, and a cache of its hashes that puts
 invalidate along one path and refresh from the root.
 */
module MerkleRam {
  import opened Powers

  /** What the tree is made of: hash functions, the stub for missing subtrees, and the content of unwritten cells. */
  datatype Scheme<!B, !H> = Scheme(hashLeaf: B -> H, hashPair: (H, H) -> H, emptyHash: H, blank: B)

  function Cell<B>(memory: map<nat, B>, addr: nat, blank: B): B {
    if addr in memory then memory[addr] else blank
  }

  /** The node lies over at least one cell. */
  predicate Exists(size: nat, n: nat, addr: nat, level: nat)
    requires level < n
  {
    addr * Pow2(n - level - 1) < size
  }

  /** The hash of a subtree, computed from the memory. */
  function Merkle<B, H>(s: Scheme<B, H>, memory: map<nat, B>, size: nat, n: nat, addr: nat, level: nat): H
    requires level < n
    decreases n - level
  {
    if !Exists(size, n, addr, level) then s.emptyHash
    else if level == n - 1 then s.hashLeaf(Cell(memory, addr, s.blank))
    else s.hashPair(Merkle(s, memory, size, n, 2 * addr, level + 1),
        Merkle(s, memory, size, n, 2 * addr + 1, level + 1))
  }

  /** The cells from one address up to another. */
  function Cells<B>(memory: map<nat, B>, blank: B, from: nat, end: nat): seq<B>
    decreases end
  {
    if end <= from then [] else Cells(memory, blank, from, end - 1) + [Cell(memory, end - 1, blank)]
  }

  lemma {:induction false} CellsJoin<B>(memory: map<nat, B>, blank: B, from: nat, mid: nat, end: nat)
    requires from <= mid <= end
    ensures Cells(memory, blank, from, end) == Cells(memory, blank, from, mid) + Cells(memory, blank, mid, end)
    decreases end
  {
    if mid < end { CellsJoin(memory, blank, from, mid, end - 1); }
  }

  /** Hashes that list what they are computed from. */
  ghost predicate Lists<B(!new)>(s: Scheme<B, seq<B>>) {
    && (forall v :: s.hashLeaf(v) == [v])
    && (forall a, b :: s.hashPair(a, b) == a + b)
    && s.emptyHash == []
  }

  function Least(a: nat, b: nat): nat { if a <= b then a else b }

  /** A subtree is computed from exactly the cells below it, each once and in order. */
  lemma {:induction false} MerkleLists<B(!new)>(s: Scheme<B, seq<B>>, memory: map<nat, B>, size: nat, n: nat, addr: nat,
      level: nat)
    requires level < n && Lists(s)
    ensures var w := Pow2(n - level - 1);
            Merkle(s, memory, size, n, addr, level) ==
            Cells(memory, s.blank, Least(addr * w, size), Least((addr + 1) * w, size))
    decreases n - level
  {
    hide Merkle, Cells;
    var w := Pow2(n - level - 1);
    MerkleUnfold(s, memory, size, n, addr, level);
    if !Exists(size, n, addr, level) {
      assert (addr + 1) * w == addr * w + w;
      NoCells(memory, s.blank, size);
    } else if level == n - 1 {
      assert w == 1;
      LeafCells(memory, s.blank, addr);
    } else {
      var h := Pow2(n - level - 2);
      assert w == 2 * h;
      Halves(addr, h, w);
      MerkleLists(s, memory, size, n, 2 * addr, level + 1);
      MerkleLists(s, memory, size, n, 2 * addr + 1, level + 1);
      CellsJoin(memory, s.blank, Least(addr * w, size), Least((2 * addr + 1) * h, size), Least((addr + 1) * w, size));
    }
  }

  lemma NoCells<B>(memory: map<nat, B>, blank: B, addr: nat)
    ensures Cells(memory, blank, addr, addr) == []
  {
  }

  lemma LeafCells<B>(memory: map<nat, B>, blank: B, addr: nat)
    ensures Cells(memory, blank, addr, addr + 1) == [Cell(memory, addr, blank)]
  {
    assert Cells(memory, blank, addr, addr) == [];
  }

  lemma Halves(addr: nat, h: nat, w: nat)
    requires w == 2 * h
    ensures (2 * addr) * h == addr * w && (2 * addr + 1 + 1) * h == (addr + 1) * w
    ensures addr * w <= (2 * addr + 1) * h <= (addr + 1) * w
  {
  }

  /** The root is computed from all cells, in the order of their addresses. */
  lemma RootLists<B(!new)>(s: Scheme<B, seq<B>>, memory: map<nat, B>, size: nat, n: nat)
    requires n >= 1 && size <= Pow2(n - 1) && Lists(s)
    ensures Merkle(s, memory, size, n, 0, 0) == Cells(memory, s.blank, 0, size)
  {
    MerkleLists(s, memory, size, n, 0, 0);
  }

  /** Where the cache keeps a node. */
  function Index(addr: nat, level: nat): int {
    Pow2(level) - 1 + addr
  }

  /** Nodes are numbered from the root, level by level. */
  lemma IndexChildren(addr: nat, level: nat)
    ensures Index(0, 0) == 0
    ensures Index(2 * addr, level + 1) == 2 * Index(addr, level) + 1
    ensures Index(2 * addr + 1, level + 1) == 2 * Index(addr, level) + 2
  {
  }

  lemma {:induction false} IndexLevel(a: nat, l: nat, b: nat, m: nat)
    requires a < Pow2(l) && b < Pow2(m) && Index(a, l) == Index(b, m)
    ensures a == b && l == m
  {
    if l < m {
      Pow2Monotone(l + 1, m);
    } else if m < l {
      Pow2Monotone(m + 1, l);
    }
  }

  /** The ancestor of a cell at a level. */
  function Ancestor(addr: nat, n: nat, level: nat): nat
    requires level < n
  {
    ShiftedBounds(addr, n - level - 1, 0);
    Shifted(addr, n - level - 1)
  }

  lemma AncestorUp(addr: nat, n: nat, level: nat)
    requires level + 1 < n
    ensures Ancestor(addr, n, level) == Ancestor(addr, n, level + 1) / 2
  {
  }

  /** Off the path to a cell nothing changes when the cell does. */
  lemma {:induction false} OffPath<B, H>(s: Scheme<B, H>, memory: map<nat, B>, cell: nat, v: B, size: nat, n: nat,
      addr: nat, level: nat)
    requires level < n && addr != Ancestor(cell, n, level)
    ensures Merkle(s, memory[cell := v], size, n, addr, level) == Merkle(s, memory, size, n, addr, level)
    decreases n - level
  {
    if level < n - 1 {
      AncestorUp(cell, n, level);
      OffPath(s, memory, cell, v, size, n, 2 * addr, level + 1);
      OffPath(s, memory, cell, v, size, n, 2 * addr + 1, level + 1);
    } else {
      assert Pow2(0) == 1;
    }
  }

  // ----- the cache -----

  /** Every cached hash is the one computed from the memory. */
  ghost predicate CacheOk<B, H>(s: Scheme<B, H>, memory: map<nat, B>, cache: map<int, H>, size: nat, n: nat) {
    forall a: nat, l: nat {:trigger Index(a, l)} :: l < n && a < Pow2(l) && Index(a, l) in cache ==>
      cache[Index(a, l)] == Merkle(s, memory, size, n, a, l)
  }

  /** The node and all existing nodes below it are cached. */
  ghost predicate Covered<H>(cache: map<int, H>, size: nat, n: nat, addr: nat, level: nat)
    requires level < n
    decreases n - level
  {
    Exists(size, n, addr, level) ==>
      && Index(addr, level) in cache
      && (level < n - 1 ==>
          Covered(cache, size, n, 2 * addr, level + 1) && Covered(cache, size, n, 2 * addr + 1, level + 1))
  }

  /** Only existing nodes are cached, and below a cached node everything is. */
  ghost predicate Closed<H>(cache: map<int, H>, size: nat, n: nat) {
    forall a: nat, l: nat {:trigger Index(a, l)} :: l < n && a < Pow2(l) && Index(a, l) in cache ==>
      Exists(size, n, a, l) && Covered(cache, size, n, a, l)
  }

  ghost predicate Extends<H>(a: map<int, H>, b: map<int, H>) {
    forall k :: k in a ==> k in b
  }

  lemma {:induction false} CoveredMore<H>(a: map<int, H>, b: map<int, H>, size: nat, n: nat, addr: nat, level: nat)
    requires level < n && Extends(a, b) && Covered(a, size, n, addr, level)
    ensures Covered(b, size, n, addr, level)
    decreases n - level
  {
    if Exists(size, n, addr, level) && level < n - 1 {
      CoveredMore(a, b, size, n, 2 * addr, level + 1);
      CoveredMore(a, b, size, n, 2 * addr + 1, level + 1);
    }
  }

  /** What a put leaves in the cache: the nodes that are not on the path to the cell. */
  ghost predicate Invalidated<H>(a: map<int, H>, b: map<int, H>, n: nat, cell: nat, upTo: nat)
    requires upTo <= n
  {
    && (forall k :: k in b ==> k in a && b[k] == a[k])
    && (forall l: nat :: l < upTo ==> Index(Ancestor(cell, n, l), l) !in b)
    && (forall k :: k in a && k !in b ==> exists l: nat :: l < upTo && k == Index(Ancestor(cell, n, l), l))
  }

  lemma {:induction false} StillCovered<H>(a: map<int, H>, b: map<int, H>, size: nat, n: nat, cell: nat, addr: nat,
      level: nat)
    requires level < n && Invalidated(a, b, n, cell, n) && cell < Pow2(n - 1) && addr < Pow2(level)
    requires addr != Ancestor(cell, n, level) && Covered(a, size, n, addr, level)
    ensures Covered(b, size, n, addr, level)
    decreases n - level
  {
    if Exists(size, n, addr, level) {
      StillCached(a, b, n, cell, addr, level);
      if level < n - 1 {
        AncestorUp(cell, n, level);
        StillCovered(a, b, size, n, cell, 2 * addr, level + 1);
        StillCovered(a, b, size, n, cell, 2 * addr + 1, level + 1);
      }
    }
  }

  lemma StillCached<H>(a: map<int, H>, b: map<int, H>, n: nat, cell: nat, addr: nat, level: nat)
    requires level < n && Invalidated(a, b, n, cell, n) && cell < Pow2(n - 1) && addr < Pow2(level)
    requires addr != Ancestor(cell, n, level) && Index(addr, level) in a
    ensures Index(addr, level) in b
  {
    hide Index;
    if Index(addr, level) !in b {
      var l: nat :| l < n && Index(addr, level) == Index(Ancestor(cell, n, l), l);
      AncestorFits(cell, n, l);
      IndexLevel(addr, level, Ancestor(cell, n, l), l);
    }
  }

  lemma AncestorFits(cell: nat, n: nat, level: nat)
    requires level < n && cell < Pow2(n - 1)
    ensures Ancestor(cell, n, level) < Pow2(level)
  {
    Pow2Split(level, n - level - 1);
    ShiftedBounds(cell, n - level - 1, Pow2(level));
  }

  lemma {:induction false} Pow2Split(j: nat, k: nat)
    ensures Pow2(j + k) == Pow2(j) * Pow2(k)
  {
    if k == 0 {
      assert Pow2(0) == 1;
    } else {
      Pow2Split(j, k - 1);
      DoubleOut(Pow2(j), Pow2(k - 1));
      assert Pow2(j + k) == 2 * Pow2(j + (k - 1));
    }
  }

  lemma DoubleOut(x: int, y: int)
    ensures x * (2 * y) == 2 * (x * y)
  {
  }

  lemma PutKeeps<B, H>(s: Scheme<B, H>, memory: map<nat, B>, a: map<int, H>, b: map<int, H>, size: nat, n: nat,
      cell: nat, v: B)
    requires CacheOk(s, memory, a, size, n) && Closed(a, size, n) && n >= 1 && Invalidated(a, b, n, cell, n) &&
        cell < Pow2(n - 1)
    ensures CacheOk(s, memory[cell := v], b, size, n) && Closed(b, size, n)
  {
    hide Index, Covered, Merkle;
    forall x: nat, l: nat {:trigger Index(x, l)} | l < n && x < Pow2(l) && Index(x, l) in b
      ensures b[Index(x, l)] == Merkle(s, memory[cell := v], size, n, x, l) && Exists(size, n, x, l) &&
          Covered(b, size, n, x, l)
    {
      assert x != Ancestor(cell, n, l);
      OffPath(s, memory, cell, v, size, n, x, l);
      StillCovered(a, b, size, n, cell, x, l);
    }
  }

  class Ram<!B, !H> {
    const scheme: Scheme<B, H>
    const size: nat
    const numLevels: nat
    var memory: map<nat, B>
    var cache: map<int, H>
    var root: H

    ghost predicate Shape() {
      size > 0 && numLevels == CeilLog2(size) + 1
    }

    /** Between operations: all existing nodes are cached, correctly, and the root hash is that of the memory. */
    ghost predicate Valid()
      reads this
    {
      && Shape()
      && CacheOk(scheme, memory, cache, size, numLevels) && Closed(cache, size, numLevels)
      && Covered(cache, size, numLevels, 0, 0)
      && root == Merkle(scheme, memory, size, numLevels, 0, 0)
    }

    constructor (scheme: Scheme<B, H>, size: nat, memory: map<nat, B>)
      requires size > 0
      ensures Valid() && this.scheme == scheme && this.size == size && this.memory == memory
    {
      this.scheme := scheme;
      this.size := size;
      this.memory := memory;
      this.cache := map[];
      this.root := scheme.emptyHash;
      var n := 1;
      CeilLog2Least(size, 0);
      while size > Pow2(n - 1)
        invariant 1 <= n <= CeilLog2(size) + 1
        decreases CeilLog2(size) + 1 - n
      {
        CeilLog2Least(size, n - 1);
        n := n + 1;
      }
      CeilLog2Least(size, n - 1);
      this.numLevels := n;
      new;
      var hash := UpdateSubtree(0, 0);
      root := hash;
    }

    /** The hash of a subtree, from the cache or computed and cached. */
    method UpdateSubtree(addr: nat, level: nat) returns (hash: H)
      requires Shape() && level < numLevels && addr < Pow2(level)
      requires CacheOk(scheme, memory, cache, size, numLevels) && Closed(cache, size, numLevels)
      modifies this`cache
      ensures hash == Merkle(scheme, memory, size, numLevels, addr, level)
      ensures CacheOk(scheme, memory, cache, size, numLevels) && Closed(cache, size, numLevels) &&
          Extends(old(cache), cache)
      ensures Covered(cache, size, numLevels, addr, level)
      decreases numLevels - level
    {
      hide Merkle, CacheOk, Closed, Covered, Exists, Index;
      MerkleUnfold(scheme, memory, size, numLevels, addr, level);
      CoveredUnfold(cache, size, numLevels, addr, level);
      if addr * Pow2(numLevels - level - 1) >= size {
        Missing(size, numLevels, addr, level);
        return scheme.emptyHash;
      }
      Present(size, numLevels, addr, level);
      if Index(addr, level) in cache {
        Cached(scheme, memory, cache, size, numLevels, addr, level);
        return cache[Index(addr, level)];
      }
      ghost var start := cache;
      if level == numLevels - 1 {
        hash := scheme.hashLeaf(Cell(memory, addr, scheme.blank));
      } else {
        var left := UpdateSubtree(2 * addr, level + 1);
        ghost var middle := cache;
        var right := UpdateSubtree(2 * addr + 1, level + 1);
        CoveredMore(middle, cache, size, numLevels, 2 * addr, level + 1);
        hash := scheme.hashPair(left, right);
      }
      ghost var before := cache;
      cache := cache[Index(addr, level) := hash];
      Filled(scheme, memory, before, cache, size, numLevels, addr, level, hash);
    }

    /** The bound check lets the address just past the last cell through. */
    method Get(addr: nat) returns (ok: bool, value: B)
      ensures ok <==> addr <= size
      ensures ok ==> value == Cell(memory, addr, scheme.blank)
    {
      ok := !(addr > size);
      value := Cell(memory, addr, scheme.blank);
    }

    method InvalidateHashes(addr: nat)
      modifies this`cache
      ensures Invalidated(old(cache), cache, numLevels, addr, numLevels)
    {
      hide Index, Ancestor;
      var i := 0;
      while i < numLevels
        invariant 0 <= i <= numLevels && Invalidated(old(cache), cache, numLevels, addr, i)
      {
        ghost var before := cache;
        cache := cache - {Index(Ancestor(addr, numLevels, i), i)};
        Removed(old(cache), before, cache, numLevels, addr, i);
        i := i + 1;
      }
    }

    method Put(addr: nat, value: B)
      requires Valid() && addr < Pow2(numLevels - 1)
      modifies this
      ensures Valid() && memory == old(memory)[addr := value]
    {
      hide CacheOk, Closed, Covered, Merkle, Invalidated;
      memory := memory[addr := value];
      InvalidateHashes(addr);
      CeilLog2Least(size, numLevels - 1);
      PutKeeps(scheme, old(memory), old(cache), cache, size, numLevels, addr, value);
      var hash := UpdateSubtree(0, 0);
      root := hash;
    }

    /** The hash of the node beside the ancestor of a cell; where no cell lies below that node, the caller's stays. */
    method GetSiblingHash(addr: nat, level: nat, given: H) returns (found: bool, hash: H)
      requires Valid() && addr < size && 0 < level < numLevels
      ensures found <==> Exists(size, numLevels, Sibling(Ancestor(addr, numLevels, level)), level)
      ensures hash == if found then Beside(scheme, memory, size, numLevels, addr, level) else given
    {
      hide CacheOk, Closed, Covered, Exists;
      var cacheIndex := Index(Ancestor(addr, numLevels, level), level);
      cacheIndex := if cacheIndex % 2 == 1 then cacheIndex + 1 else cacheIndex - 1;
      ghost var a := Ancestor(addr, numLevels, level);
      CeilLog2Least(size, numLevels - 1);
      AncestorFits(addr, numLevels, level);
      SiblingIndex(a, level);
      SiblingCached(scheme, memory, cache, size, numLevels, a, level);
      found := cacheIndex in cache;
      hash := if found then cache[cacheIndex] else given;
    }

    /**
     The sibling hashes that a verified access asks for, from the children of the root down; the prover gives up at the
     first that is missing.  None is when the size is a power of two, and then they fold from the cell to the root.
     */
    method GetSiblingHashes(addr: nat) returns (found: bool, siblings: seq<H>)
      requires Valid() && addr < size
      ensures found <==>
        forall l :: 0 < l < numLevels ==> Exists(size, numLevels, Sibling(Ancestor(addr, numLevels, l)), l)
      ensures size == Pow2(numLevels - 1) ==> found
      ensures found ==>
        && |siblings| == numLevels - 1 && AllBeside(scheme, memory, size, numLevels, addr, siblings)
        && Folded(scheme, Cell(memory, addr, scheme.blank), siblings, addr, numLevels) == root
    {
      hide CacheOk, Closed, Covered, Exists, Merkle, Fold, Sibling, Ancestor;
      siblings := [];
      found := true;
      CeilLog2Least(size, numLevels - 1);
      while |siblings| < numLevels - 1
        invariant |siblings| <= numLevels - 1
        invariant forall l :: 0 < l <= |siblings| ==>
          && Exists(size, numLevels, Sibling(Ancestor(addr, numLevels, l)), l)
          && siblings[l - 1] == Beside(scheme, memory, size, numLevels, addr, l)
      {
        var hash;
        found, hash := GetSiblingHash(addr, |siblings| + 1, scheme.emptyHash);
        if !found {
          MissingSibling(size, numLevels, addr, |siblings| + 1);
          return;
        }
        siblings := siblings + [hash];
      }
      SiblingsFold(scheme, memory, size, numLevels, addr, numLevels - 1, siblings);
      LeafHash(scheme, memory, size, numLevels, addr);
    }

    /**
     A verified update: the sibling hashes fetched before it lead from the old cell to the old root hash and from the
     new cell to the new one.
     */
    method UpdateVerified(addr: nat, value: B) returns (found: bool, siblings: seq<H>)
      requires Valid() && addr < size
      modifies this
      ensures Valid() && memory == if found then old(memory)[addr := value] else old(memory)
      ensures size == Pow2(numLevels - 1) ==> found
      ensures found ==>
        && |siblings| == numLevels - 1
        && Folded(scheme, Cell(old(memory), addr, scheme.blank), siblings, addr, numLevels) == old(root)
        && Folded(scheme, value, siblings, addr, numLevels) == root
    {
      hide CacheOk, Closed, Covered, Exists, Merkle, Fold, Sibling, Ancestor;
      found, siblings := GetSiblingHashes(addr);
      CeilLog2Least(size, numLevels - 1);
      if found {
        Put(addr, value);
        UpdatedFold(scheme, old(memory), size, numLevels, addr, value, siblings);
      }
    }
  }

  lemma Removed<H>(a: map<int, H>, b: map<int, H>, c: map<int, H>, n: nat, cell: nat, i: nat)
    requires i < n && Invalidated(a, b, n, cell, i) && c == b - {Index(Ancestor(cell, n, i), i)}
    ensures Invalidated(a, c, n, cell, i + 1)
  {
    hide Index, Ancestor;
    forall k | k in a && k !in c ensures exists l: nat :: l < i + 1 && k == Index(Ancestor(cell, n, l), l) {
      if k !in b {
        var l: nat :| l < i && k == Index(Ancestor(cell, n, l), l);
      }
    }
  }

  function Sibling(addr: nat): nat {
    if addr % 2 == 0 then addr + 1 else addr - 1
  }

  lemma SiblingIndex(addr: nat, level: nat)
    requires level > 0 && addr < Pow2(level)
    ensures Sibling(addr) < Pow2(level)
    ensures Index(Sibling(addr), level) == if Index(addr, level) % 2 == 1 then Index(addr, level) + 1
        else Index(addr, level) - 1
  {
    assert Pow2(level) == 2 * Pow2(level - 1);
    SiblingParity(Pow2(level - 1), addr);
  }

  lemma SiblingParity(h: int, addr: nat)
    requires addr < 2 * h
    ensures Sibling(addr) < 2 * h
    ensures (2 * h - 1 + addr) % 2 == 1 <==> addr % 2 == 0
  {
  }

  /** All existing nodes are covered when the root is. */
  lemma {:induction false} CoveredDown<H>(cache: map<int, H>, size: nat, n: nat, addr: nat, level: nat)
    requires level < n && addr < Pow2(level) && Covered(cache, size, n, 0, 0)
    ensures Covered(cache, size, n, addr, level)
    decreases level
  {
    if level > 0 {
      CoveredDown(cache, size, n, addr / 2, level - 1);
      if Exists(size, n, addr, level) { ExistsUp(size, n, addr, level); }
      assert addr == 2 * (addr / 2) || addr == 2 * (addr / 2) + 1;
    }
  }

  lemma ExistsUp(size: nat, n: nat, addr: nat, level: nat)
    requires 0 < level < n && Exists(size, n, addr, level)
    ensures Exists(size, n, addr / 2, level - 1)
  {
    var h := Pow2(n - level - 1);
    assert addr / 2 * (2 * h) == (2 * (addr / 2)) * h;
    assert (2 * (addr / 2)) * h <= addr * h;
  }

  lemma SiblingCached<B, H>(s: Scheme<B, H>, memory: map<nat, B>, cache: map<int, H>, size: nat, n: nat, addr: nat,
      level: nat)
    requires 0 < level < n && addr < Pow2(level) && Covered(cache, size, n, 0, 0) &&
        CacheOk(s, memory, cache, size, n) && Closed(cache, size, n)
    ensures var b := Sibling(addr);
            && (Exists(size, n, b, level) <==> Index(b, level) in cache)
            && (Index(b, level) in cache ==> cache[Index(b, level)] == Merkle(s, memory, size, n, b, level))
  {
    SiblingIndex(addr, level);
    CoveredDown(cache, size, n, Sibling(addr), level);
  }

  lemma MerkleUnfold<B, H>(s: Scheme<B, H>, memory: map<nat, B>, size: nat, n: nat, addr: nat, level: nat)
    requires level < n
    ensures Merkle(s, memory, size, n, addr, level) ==
      if !Exists(size, n, addr, level) then s.emptyHash
      else if level == n - 1 then s.hashLeaf(Cell(memory, addr, s.blank))
      else s.hashPair(Merkle(s, memory, size, n, 2 * addr, level + 1),
          Merkle(s, memory, size, n, 2 * addr + 1, level + 1))
  {
  }

  lemma CoveredUnfold<H>(cache: map<int, H>, size: nat, n: nat, addr: nat, level: nat)
    requires level < n
    ensures !Exists(size, n, addr, level) ==> Covered(cache, size, n, addr, level)
  {
  }

  lemma Missing(size: nat, n: nat, addr: nat, level: nat)
    requires level < n && addr * Pow2(n - level - 1) >= size
    ensures !Exists(size, n, addr, level)
  {
  }

  lemma Present(size: nat, n: nat, addr: nat, level: nat)
    requires level < n && addr * Pow2(n - level - 1) < size
    ensures Exists(size, n, addr, level)
  {
  }

  lemma Cached<B, H>(s: Scheme<B, H>, memory: map<nat, B>, cache: map<int, H>, size: nat, n: nat, addr: nat, level: nat)
    requires level < n && addr < Pow2(level) && Index(addr, level) in cache && CacheOk(s, memory, cache, size, n) &&
        Closed(cache, size, n)
    ensures cache[Index(addr, level)] == Merkle(s, memory, size, n, addr, level) && Covered(cache, size, n, addr, level)
  {
    hide Index, Merkle, Covered;
  }

  /** Caching a node whose children are covered. */
  lemma Filled<B, H>(s: Scheme<B, H>, memory: map<nat, B>, a: map<int, H>, b: map<int, H>, size: nat, n: nat, addr: nat,
      level: nat, hash: H)
    requires level < n && addr < Pow2(level) && CacheOk(s, memory, a, size, n) && Closed(a, size, n)
    requires Exists(size, n, addr, level) && b == a[Index(addr, level) := hash] &&
        hash == Merkle(s, memory, size, n, addr, level)
    requires level < n - 1 ==> Covered(a, size, n, 2 * addr, level + 1) && Covered(a, size, n, 2 * addr + 1, level + 1)
    ensures CacheOk(s, memory, b, size, n) && Closed(b, size, n) && Covered(b, size, n, addr, level) && Extends(a, b)
  {
    hide Index, Merkle;
    if level < n - 1 {
      CoveredMore(a, b, size, n, 2 * addr, level + 1);
      CoveredMore(a, b, size, n, 2 * addr + 1, level + 1);
    }
    forall x: nat, l: nat {:trigger Index(x, l)} | l < n && x < Pow2(l) && Index(x, l) in b
      ensures b[Index(x, l)] == Merkle(s, memory, size, n, x, l) && Exists(size, n, x, l) && Covered(b, size, n, x, l)
    {
      if Index(x, l) == Index(addr, level) {
        IndexLevel(x, l, addr, level);
      } else {
        CoveredMore(a, b, size, n, x, l);
      }
    }
  }

  // ----- authentication paths -----

  /** The hash of the node beside the ancestor of a cell. */
  function Beside<B, H>(s: Scheme<B, H>, memory: map<nat, B>, size: nat, n: nat, addr: nat, level: nat): H
    requires level < n
  {
    Merkle(s, memory, size, n, Sibling(Ancestor(addr, n, level)), level)
  }

  ghost predicate AllBeside<B, H>(s: Scheme<B, H>, memory: map<nat, B>, size: nat, n: nat, addr: nat, siblings: seq<H>)
    requires |siblings| + 1 == n
  {
    forall l :: 0 < l < n ==> siblings[l - 1] == Beside(s, memory, size, n, addr, l)
  }

  /** A node and its sibling, in the order that the path to the cell gives. */
  function Joined<B, H>(s: Scheme<B, H>, addr: nat, n: nat, level: nat, hash: H, sibling: H): H
    requires level < n
  {
    if Ancestor(addr, n, level) % 2 == 0 then s.hashPair(hash, sibling) else s.hashPair(sibling, hash)
  }

  /** Folds a hash at a level with the sibling hashes up to a higher level. */
  function Fold<B, H>(s: Scheme<B, H>, hash: H, siblings: seq<H>, addr: nat, n: nat, level: nat, top: nat): H
    requires top <= level < n == |siblings| + 1
    decreases level
  {
    if level == top then hash
    else Fold(s, Joined(s, addr, n, level, hash, siblings[level - 1]), siblings, addr, n, level - 1, top)
  }

  /** The root hash that a verified access computes from a cell. */
  function Folded<B, H>(s: Scheme<B, H>, value: B, siblings: seq<H>, addr: nat, n: nat): H
    requires n == |siblings| + 1
  {
    Fold(s, s.hashLeaf(value), siblings, addr, n, n - 1, 0)
  }

  lemma {:induction false} AncestorExists(size: nat, n: nat, addr: nat, level: nat)
    requires level < n && addr < size
    ensures Exists(size, n, Ancestor(addr, n, level), level)
    decreases n - level
  {
    if level < n - 1 {
      AncestorExists(size, n, addr, level + 1);
      ExistsUp(size, n, Ancestor(addr, n, level + 1), level + 1);
    } else {
      assert Pow2(0) == 1;
    }
  }

  lemma LeafHash<B, H>(s: Scheme<B, H>, memory: map<nat, B>, size: nat, n: nat, addr: nat)
    requires n >= 1 && addr < size
    ensures Ancestor(addr, n, n - 1) == addr
    ensures Merkle(s, memory, size, n, addr, n - 1) == s.hashLeaf(Cell(memory, addr, s.blank))
  {
    AncestorExists(size, n, addr, n - 1);
  }

  lemma RootAncestor(size: nat, n: nat, addr: nat)
    requires n >= 1 && addr < size <= Pow2(n - 1)
    ensures Ancestor(addr, n, 0) == 0
  {
    AncestorFits(addr, n, 0);
  }

  /** The hash of an ancestor joins those of the ancestor below it and of the node beside that one. */
  lemma AncestorJoins<B, H>(s: Scheme<B, H>, memory: map<nat, B>, size: nat, n: nat, addr: nat, level: nat)
    requires 0 < level < n && addr < size
    ensures Merkle(s, memory, size, n, Ancestor(addr, n, level - 1), level - 1) ==
      Joined(s, addr, n, level, Merkle(s, memory, size, n, Ancestor(addr, n, level), level),
             Beside(s, memory, size, n, addr, level))
  {
    hide Merkle, Ancestor;
    AncestorUp(addr, n, level - 1);
    AncestorExists(size, n, addr, level - 1);
    MerkleUnfold(s, memory, size, n, Ancestor(addr, n, level - 1), level - 1);
  }

  /** The sibling hashes of a cell fold from its leaf hash to the root. */
  lemma {:induction false} SiblingsFold<B, H>(s: Scheme<B, H>, memory: map<nat, B>, size: nat, n: nat, addr: nat,
      level: nat, siblings: seq<H>)
    requires level < n == |siblings| + 1 && addr < size <= Pow2(n - 1) && AllBeside(s, memory, size, n, addr, siblings)
    ensures Fold(s, Merkle(s, memory, size, n, Ancestor(addr, n, level), level), siblings, addr, n, level, 0) ==
        Merkle(s, memory, size, n, 0, 0)
    decreases level
  {
    hide Merkle, Ancestor, Beside, Joined;
    if level == 0 {
      RootAncestor(size, n, addr);
    } else {
      SiblingsFold(s, memory, size, n, addr, level - 1, siblings);
      AncestorJoins(s, memory, size, n, addr, level);
    }
  }

  lemma MissingSibling(size: nat, n: nat, addr: nat, level: nat)
    requires 0 < level < n && addr < size <= Pow2(n - 1)
    requires !Exists(size, n, Sibling(Ancestor(addr, n, level)), level)
    ensures size != Pow2(n - 1)
  {
    hide Exists, Ancestor, Sibling;
    AncestorFits(addr, n, level);
    SiblingIndex(Ancestor(addr, n, level), level);
    FullTree(n, Sibling(Ancestor(addr, n, level)), level);
  }

  /** Nodes beside the path to a cell keep their hash when it changes, so the same siblings lead to the new root. */
  lemma UpdatedFold<B, H>(s: Scheme<B, H>, memory: map<nat, B>, size: nat, n: nat, addr: nat, value: B,
                          siblings: seq<H>)
    requires n == |siblings| + 1 && addr < size <= Pow2(n - 1) && AllBeside(s, memory, size, n, addr, siblings)
    ensures Folded(s, value, siblings, addr, n) == Merkle(s, memory[addr := value], size, n, 0, 0)
  {
    hide Merkle, Ancestor, Fold;
    var memory' := memory[addr := value];
    forall l | 0 < l < n ensures siblings[l - 1] == Beside(s, memory', size, n, addr, l) {
      assert siblings[l - 1] == Beside(s, memory, size, n, addr, l);
      OffPath(s, memory, addr, value, size, n, Sibling(Ancestor(addr, n, l)), l);
    }
    SiblingsFold(s, memory', size, n, addr, n - 1, siblings);
    LeafHash(s, memory', size, n, addr);
  }

  /** The claimed pair of hashes at a level differs from the true pair and has the same hash. */
  ghost predicate PairCollides<B, H>(s: Scheme<B, H>, memory: map<nat, B>, size: nat, n: nat, addr: nat, level: nat,
                                     hash: H, sibling: H)
    requires level < n
  {
    var h, b := Merkle(s, memory, size, n, Ancestor(addr, n, level), level), Beside(s, memory, size, n, addr, level);
    (hash != h || sibling != b) && Joined(s, addr, n, level, hash, sibling) == Joined(s, addr, n, level, h, b)
  }

  /** Whatever folds to the root hash is the true path, or collides with it at some level. */
  lemma {:induction false} PathDetermined<B, H>(s: Scheme<B, H>, memory: map<nat, B>, size: nat, n: nat, addr: nat,
      level: nat, hash: H, siblings: seq<H>) returns (l: nat)
    requires level < n == |siblings| + 1 && addr < size <= Pow2(n - 1)
    requires Fold(s, hash, siblings, addr, n, level, 0) == Merkle(s, memory, size, n, 0, 0)
    ensures l <= level
    ensures l == 0 ==> hash == Merkle(s, memory, size, n, Ancestor(addr, n, level), level)
    ensures l == 0 ==> forall k :: 0 < k <= level ==> siblings[k - 1] == Beside(s, memory, size, n, addr, k)
    ensures l > 0 ==>
      PairCollides(s, memory, size, n, addr, l, Fold(s, hash, siblings, addr, n, level, l), siblings[l - 1])
    decreases level
  {
    hide Merkle, Ancestor, Beside, Joined;
    if level == 0 {
      RootAncestor(size, n, addr);
      l := 0;
    } else {
      var up := Joined(s, addr, n, level, hash, siblings[level - 1]);
      AncestorJoins(s, memory, size, n, addr, level);
      l := PathDetermined(s, memory, size, n, addr, level - 1, up, siblings);
      if l == 0 && !(hash == Merkle(s, memory, size, n, Ancestor(addr, n, level), level) &&
                     siblings[level - 1] == Beside(s, memory, size, n, addr, level)) {
        l := level;
      }
    }
  }

  /**
   A claimed cell and sibling hashes that pass the check of a verified access: the cell's hash is the true one and the
   root hash computed for any new value is that of the updated memory, or the check is passed by a collision of hashes.
   */
  lemma AccessVerified<B, H>(s: Scheme<B, H>, memory: map<nat, B>, size: nat, n: nat, addr: nat, claimed: B,
                             siblings: seq<H>, value: B) returns (l: nat)
    requires n == |siblings| + 1 && addr < size <= Pow2(n - 1)
    requires Folded(s, claimed, siblings, addr, n) == Merkle(s, memory, size, n, 0, 0)
    ensures l < n
    ensures l == 0 ==>
      && s.hashLeaf(claimed) == s.hashLeaf(Cell(memory, addr, s.blank))
      && Folded(s, value, siblings, addr, n) == Merkle(s, memory[addr := value], size, n, 0, 0)
    ensures l > 0 ==>
      PairCollides(s, memory, size, n, addr, l, Fold(s, s.hashLeaf(claimed), siblings, addr, n, n - 1, l),
                   siblings[l - 1])
  {
    hide Merkle, Ancestor, Beside, Joined, Fold;
    l := PathDetermined(s, memory, size, n, addr, n - 1, s.hashLeaf(claimed), siblings);
    if l == 0 {
      LeafHash(s, memory, size, n, addr);
      UpdatedFold(s, memory, size, n, addr, value, siblings);
    }
  }

  /** When the size is a power of two every node exists. */
  lemma FullTree(n: nat, addr: nat, level: nat)
    requires level < n && addr < Pow2(level)
    ensures Exists(Pow2(n - 1), n, addr, level)
  {
    Pow2Split(level, n - level - 1);
    Pow2Positive(n - level - 1);
    BelowProduct(addr, Pow2(level), Pow2(n - level - 1));
  }

  lemma BelowProduct(x: nat, y: nat, h: nat)
    requires x < y && h > 0
    ensures x * h < y * h
  {
  }
}
