/**
 The block hash: a compression function that sums the columns of a fixed matrix selected by the bits of a block, chained
 over the blocks of the length, the input and a final 1.
 */
module GghHash {
  import Field
  import opened Powers

  const N := 64
  const Q := 524288
  const Q_BITS := 19
  const M := 7296
  const OUTPUT_BITS := N * Q_BITS
  const LENGTH_BITS := 64
  const WORD := 0x1_0000_0000

  /** Input bits that fit into a block beside the chained digest. */
  const ROOM := M - OUTPUT_BITS

  type Matrix = (nat, nat) -> nat

  /** The matrix is reduced modulo Q. */
  ghost predicate Reduced(a: Matrix) {
    forall i, j :: a(i, j) < Q
  }

  // ----- the compression function -----

  function RowSum(a: Matrix, i: nat, block: seq<bool>): nat {
    if |block| == 0 then 0 else
      RowSum(a, i, block[..|block| - 1]) + if block[|block| - 1] then a(i, |block| - 1) else 0
  }

  /** The `n` low bits of a number. */
  function LowBits(x: nat, n: nat): (r: seq<bool>)
    ensures |r| == n
    decreases n
  {
    if n == 0 then [] else [x % 2 == 1] + LowBits(x / 2, n - 1)
  }

  /** Digests of the first `n` rows. */
  function Rows(a: Matrix, block: seq<bool>, n: nat): (r: seq<bool>)
    ensures |r| == n * Q_BITS
  {
    if n == 0 then [] else Rows(a, block, n - 1) + LowBits(RowSum(a, n - 1, block) % Q, Q_BITS)
  }

  function Compress(a: Matrix, block: seq<bool>): (r: seq<bool>)
    ensures |r| == OUTPUT_BITS
  {
    Rows(a, block, N)
  }

  lemma {:induction false} RowSumBound(a: Matrix, i: nat, block: seq<bool>)
    requires Reduced(a)
    ensures RowSum(a, i, block) <= |block| * (Q - 1)
  {
    if |block| > 0 { RowSumBound(a, i, block[..|block| - 1]); }
  }

  /** No sum over a block leaves 32 bits. */
  lemma RowSumFits(a: Matrix, i: nat, block: seq<bool>)
    requires Reduced(a) && |block| <= M
    ensures RowSum(a, i, block) < WORD
  {
    RowSumBound(a, i, block);
  }

  /** The row sum is linear: nothing for no bits, the entry in row i and column j for bit j alone, and additive. */
  lemma {:induction false} RowSumNone(a: Matrix, i: nat, block: seq<bool>)
    requires forall k :: 0 <= k < |block| ==> !block[k]
    ensures RowSum(a, i, block) == 0
  {
    if |block| > 0 { RowSumNone(a, i, block[..|block| - 1]); }
  }

  lemma {:induction false} RowSumBit(a: Matrix, i: nat, block: seq<bool>, j: nat)
    requires j < |block| && forall k :: 0 <= k < |block| ==> (block[k] <==> k == j)
    ensures RowSum(a, i, block) == a(i, j)
  {
    var n := |block| - 1;
    if j < n { RowSumBit(a, i, block[..n], j); } else { RowSumNone(a, i, block[..n]); }
  }

  lemma {:induction false} RowSumDisjoint(a: Matrix, i: nat, x: seq<bool>, y: seq<bool>, both: seq<bool>)
    requires |x| == |y| == |both| && forall k :: 0 <= k < |x| ==> !(x[k] && y[k]) && (both[k] <==> x[k] || y[k])
    ensures RowSum(a, i, both) == RowSum(a, i, x) + RowSum(a, i, y)
  {
    var n := |x| - 1;
    if n >= 0 { RowSumDisjoint(a, i, x[..n], y[..n], both[..n]); }
  }

  /** The number that bits denote, the least significant first. */
  function BitsValue(s: seq<bool>): nat {
    if |s| == 0 then 0 else (if s[0] then 1 else 0) + 2 * BitsValue(s[1..])
  }

  lemma {:induction false} LowBitsValue(x: nat, n: nat)
    ensures Pow2(n) > 0 && BitsValue(LowBits(x, n)) == x % Pow2(n)
    decreases n
  {
    if n > 0 {
      LowBitsValue(x / 2, n - 1);
      assert LowBits(x, n)[1..] == LowBits(x / 2, n - 1);
      HalfRemainder(x, Pow2(n - 1));
    } else {
      assert Pow2(0) == 1;
    }
  }

  lemma HalfRemainder(x: nat, h: nat)
    requires h > 0
    ensures x % (2 * h) == x % 2 + 2 * (x / 2 % h)
  {
    var q, r := x / 2 / h, x / 2 % h;
    assert x / 2 == q * h + r;
    assert x == (2 * h) * q + (x % 2 + 2 * r);
    RemainderUnique(x, 2 * h, q, x % 2 + 2 * r);
  }

  lemma RemainderUnique(x: int, m: int, q: int, r: int)
    requires 0 <= r < m && x == m * q + r
    ensures x % m == r
  {
    var d := x / m - q;
    assert m * (x / m) + x % m == x;
    assert m * d == r - x % m;
    Field.LargeMultiple(m, d);
  }

  lemma {:induction false} RowAt(a: Matrix, block: seq<bool>, n: nat, i: nat)
    requires i < n
    ensures (i + 1) * Q_BITS <= n * Q_BITS
    ensures Rows(a, block, n)[i * Q_BITS..(i + 1) * Q_BITS] == LowBits(RowSum(a, i, block) % Q, Q_BITS)
    decreases n
  {
    hide RowSum, LowBits;
    var before := Rows(a, block, n - 1);
    if i < n - 1 {
      RowAt(a, block, n - 1, i);
      assert Rows(a, block, n)[i * Q_BITS..(i + 1) * Q_BITS] == before[i * Q_BITS..(i + 1) * Q_BITS];
    } else {
      assert Rows(a, block, n)[|before|..] == LowBits(RowSum(a, i, block) % Q, Q_BITS);
    }
  }

  /** Part i of the compression, read with the least significant bit first, is the sum of row i modulo Q. */
  lemma CompressedRow(a: Matrix, block: seq<bool>, i: nat)
    requires i < N
    ensures BitsValue(Compress(a, block)[i * Q_BITS..(i + 1) * Q_BITS]) == RowSum(a, i, block) % Q
  {
    hide RowSum, LowBits, BitsValue, Rows;
    RowAt(a, block, N, i);
    LowBitsValue(RowSum(a, i, block) % Q, Q_BITS);
    PowerOfQ();
  }

  lemma PowerOfQ()
    ensures Pow2(Q_BITS) == Q
  {
    assert Pow2(5) == 32;
    assert Pow2(10) == 1024;
    assert Pow2(15) == 32768;
  }

  function Zeros(n: nat): (r: seq<bool>)
    ensures |r| == n && forall k :: 0 <= k < n ==> !r[k]
  {
    seq(n, _ => false)
  }

  /** A block filled up with zeros. */
  function Padded(s: seq<bool>): (r: seq<bool>)
    requires |s| <= M
    ensures |r| == M
  {
    s + Zeros(M - |s|)
  }

  lemma {:induction false} ZerosAddNothing(a: Matrix, i: nat, s: seq<bool>, n: nat)
    ensures RowSum(a, i, s + Zeros(n)) == RowSum(a, i, s)
    decreases n
  {
    var t := s + Zeros(n);
    if n == 0 {
      assert t == s;
    } else {
      assert t[..|t| - 1] == s + Zeros(n - 1);
      ZerosAddNothing(a, i, s, n - 1);
    }
  }

  lemma {:induction false} RowsPadded(a: Matrix, s: seq<bool>, n: nat)
    requires |s| <= M
    ensures Rows(a, Padded(s), n) == Rows(a, s, n)
  {
    hide RowSum, LowBits;
    if n > 0 {
      RowsPadded(a, s, n - 1);
      ZerosAddNothing(a, n - 1, s, M - |s|);
    }
  }

  // ----- the hash as a fold -----

  /** The string that is hashed. */
  function Stream(input: seq<bool>): (s: seq<bool>)
    ensures |s| == LENGTH_BITS + |input| + 1
  {
    LowBits(|input|, LENGTH_BITS) + input + [true]
  }

  /** The fold of the compression function over the chunks of a string. */
  function Chain(a: Matrix, state: seq<bool>, s: seq<bool>): (r: seq<bool>)
    requires |state| == OUTPUT_BITS
    ensures |r| == OUTPUT_BITS
    decreases |s|
  {
    if |s| <= ROOM then Compress(a, Padded(state + s))
    else Chain(a, Compress(a, Padded(state + s[..ROOM])), s[ROOM..])
  }

  function Hash(a: Matrix, iv: seq<bool>, input: seq<bool>): (r: seq<bool>)
    requires |iv| == OUTPUT_BITS
    ensures |r| == OUTPUT_BITS
  {
    Chain(a, iv, Stream(input))
  }

  // ----- what equal digests mean -----

  /** The number of chunks of a string, and chunk `k`. */
  function Chunks(s: seq<bool>): (n: nat)
    ensures n >= 1
    decreases |s|
  {
    if |s| <= ROOM then 1 else 1 + Chunks(s[ROOM..])
  }

  function ChunkAt(s: seq<bool>, k: nat): (r: seq<bool>)
    requires k < Chunks(s)
    ensures |r| <= ROOM
    decreases k
  {
    if k == 0 then if |s| <= ROOM then s else s[..ROOM] else ChunkAt(s[ROOM..], k - 1)
  }

  /** The block that is compressed for chunk `k`, and the digest before it. */
  function BlockAt(a: Matrix, iv: seq<bool>, s: seq<bool>, k: nat): (r: seq<bool>)
    requires |iv| == OUTPUT_BITS && k < Chunks(s)
    ensures |r| == M
    decreases k, 1
  {
    Padded(StateAt(a, iv, s, k) + ChunkAt(s, k))
  }

  function StateAt(a: Matrix, iv: seq<bool>, s: seq<bool>, k: nat): (r: seq<bool>)
    requires |iv| == OUTPUT_BITS && k < Chunks(s)
    ensures |r| == OUTPUT_BITS
    decreases k, 0
  {
    if k == 0 then iv else Compress(a, BlockAt(a, iv, s, k - 1))
  }

  /** Starting one chunk later. */
  lemma {:induction false} StateShift(a: Matrix, iv: seq<bool>, s: seq<bool>, k: nat)
    requires |iv| == OUTPUT_BITS && |s| > ROOM && k + 1 < Chunks(s)
    ensures StateAt(a, iv, s, k + 1) == StateAt(a, Compress(a, Padded(iv + s[..ROOM])), s[ROOM..], k)
    decreases k
  {
    hide Compress, Padded;
    if k > 0 {
      StateShift(a, iv, s, k - 1);
      assert ChunkAt(s, k) == ChunkAt(s[ROOM..], k - 1);
    } else {
      assert StateAt(a, iv, s, 1) == Compress(a, BlockAt(a, iv, s, 0));
    }
  }

  /** The chain ends with the compression of the last block. */
  lemma {:induction false} ChainEnds(a: Matrix, iv: seq<bool>, s: seq<bool>)
    requires |iv| == OUTPUT_BITS
    ensures Chain(a, iv, s) == Compress(a, BlockAt(a, iv, s, Chunks(s) - 1))
    decreases |s|
  {
    hide Compress, Padded;
    if |s| > ROOM {
      var n := Chunks(s) - 1;
      var next := Compress(a, Padded(iv + s[..ROOM]));
      ChainEnds(a, next, s[ROOM..]);
      StateShift(a, iv, s, n - 1);
      assert ChunkAt(s, n) == ChunkAt(s[ROOM..], n - 1);
    }
  }

  /** All chunks but the last are full; the last of a string that ends in 1 ends in 1. */
  lemma {:induction false} ChunkShape(s: seq<bool>, k: nat)
    requires k < Chunks(s) && |s| > 0 && s[|s| - 1]
    ensures k < Chunks(s) - 1 ==> |ChunkAt(s, k)| == ROOM
    ensures k == Chunks(s) - 1 ==> var c := ChunkAt(s, k); |c| > 0 && c[|c| - 1]
    decreases k
  {
    if k > 0 { ChunkShape(s[ROOM..], k - 1); }
  }

  lemma {:induction false} SameChunks(s: seq<bool>, t: seq<bool>)
    requires Chunks(s) == Chunks(t) && forall k: nat :: k < Chunks(s) ==> ChunkAt(s, k) == ChunkAt(t, k)
    ensures s == t
    decreases |s|
  {
    assert ChunkAt(s, 0) == ChunkAt(t, 0);
    if |s| > ROOM {
      forall k: nat | k < Chunks(s[ROOM..]) ensures ChunkAt(s[ROOM..], k) == ChunkAt(t[ROOM..], k) {
        assert ChunkAt(s, k + 1) == ChunkAt(t, k + 1);
      }
      SameChunks(s[ROOM..], t[ROOM..]);
      assert s == s[..ROOM] + s[ROOM..] && t == t[..ROOM] + t[ROOM..];
    }
  }

  /** Equal blocks have equal digests in front and, where the padding is determined, equal chunks. */
  lemma SameBlock(u: seq<bool>, c: seq<bool>, v: seq<bool>, d: seq<bool>)
    requires |u| == |v| == OUTPUT_BITS && |c| <= ROOM && |d| <= ROOM && Padded(u + c) == Padded(v + d)
    requires |c| == |d| || (|c| > 0 && |d| > 0 && c[|c| - 1] && d[|d| - 1])
    ensures u == v && c == d
  {
    var p, q := Padded(u + c), Padded(v + d);
    assert u == p[..OUTPUT_BITS] && v == q[..OUTPUT_BITS];
    assert forall k :: 0 <= k < |c| ==> p[OUTPUT_BITS + k] == c[k];
    assert forall k :: 0 <= k < |d| ==> q[OUTPUT_BITS + k] == d[k];
    assert forall k :: OUTPUT_BITS + |c| <= k < M ==> !p[k];
    assert forall k :: OUTPUT_BITS + |d| <= k < M ==> !q[k];
    assert |c| > 0 ==> p[OUTPUT_BITS + (|c| - 1)] == c[|c| - 1];
    assert |d| > 0 ==> q[OUTPUT_BITS + (|d| - 1)] == d[|d| - 1];
    assert |c| == |d|;
  }

  ghost predicate SameAfter(s: seq<bool>, i: nat, t: seq<bool>, j: nat)
    requires i < Chunks(s) && j < Chunks(t)
  {
    Chunks(s) - i == Chunks(t) - j && forall k: nat :: i < k < Chunks(s) ==> ChunkAt(s, k) == ChunkAt(t, k - i + j)
  }

  /** Block m of one string and block n of the other: different blocks with the same compression. */
  ghost predicate Collide(a: Matrix, iv: seq<bool>, s: seq<bool>, m: nat, t: seq<bool>, n: nat)
    requires |iv| == OUTPUT_BITS && m < Chunks(s) && n < Chunks(t)
  {
    var b, c := BlockAt(a, iv, s, m), BlockAt(a, iv, t, n);
    b != c && Compress(a, b) == Compress(a, c)
  }

  /** Block m of a string compresses to the initial value. */
  ghost predicate Restarts(a: Matrix, iv: seq<bool>, s: seq<bool>, m: nat)
    requires |iv| == OUTPUT_BITS && m < Chunks(s)
  {
    Compress(a, BlockAt(a, iv, s, m)) == iv
  }

  /** Going back from equal digests. */
  lemma {:induction false} TraceBack(a: Matrix, iv: seq<bool>, s: seq<bool>, i: nat, t: seq<bool>, j: nat)
    returns (m: nat, n: nat)
    requires |iv| == OUTPUT_BITS && i < Chunks(s) && j < Chunks(t) && SameAfter(s, i, t, j) && s != t
    requires |s| > 0 && s[|s| - 1] && |t| > 0 && t[|t| - 1]
    requires Compress(a, BlockAt(a, iv, s, i)) == Compress(a, BlockAt(a, iv, t, j))
    ensures m <= i && n <= j && (Collide(a, iv, s, m, t, n) || Restarts(a, iv, s, m) || Restarts(a, iv, t, n))
    decreases i
  {
    hide Compress, Padded, ChunkAt, Chunks;
    m, n := i, j;
    if BlockAt(a, iv, s, i) == BlockAt(a, iv, t, j) {
      ChunkShape(s, i);
      ChunkShape(t, j);
      SameBlock(StateAt(a, iv, s, i), ChunkAt(s, i), StateAt(a, iv, t, j), ChunkAt(t, j));
      if i == 0 && j == 0 {
        AllSame(s, t);
      } else if i > 0 && j > 0 {
        SameOneMore(s, i, t, j);
        m, n := TraceBack(a, iv, s, i - 1, t, j - 1);
      } else if i > 0 {
        m := i - 1;
      } else {
        n := j - 1;
      }
    }
  }

  lemma AllSame(s: seq<bool>, t: seq<bool>)
    requires SameAfter(s, 0, t, 0) && ChunkAt(s, 0) == ChunkAt(t, 0)
    ensures s == t
  {
    hide ChunkAt, Chunks;
    SameChunks(s, t);
  }

  lemma SameOneMore(s: seq<bool>, i: nat, t: seq<bool>, j: nat)
    requires 0 < i < Chunks(s) && 0 < j < Chunks(t) && SameAfter(s, i, t, j) && ChunkAt(s, i) == ChunkAt(t, j)
    ensures SameAfter(s, i - 1, t, j - 1)
  {
    hide ChunkAt, Chunks;
  }

  /**
   Distinct inputs with equal digests: among the blocks compressed for the two there are two different ones with the
   same compression, or one that compresses to the initial value.
   */
  lemma EqualDigests(a: Matrix, iv: seq<bool>, x: seq<bool>, y: seq<bool>) returns (m: nat, n: nat)
    requires |iv| == OUTPUT_BITS && x != y && Hash(a, iv, x) == Hash(a, iv, y)
    ensures m < Chunks(Stream(x)) && n < Chunks(Stream(y))
    ensures Collide(a, iv, Stream(x), m, Stream(y), n) || Restarts(a, iv, Stream(x), m) || Restarts(a, iv, Stream(y), n)
  {
    hide Chunks, Chain, Collide, Restarts;
    if Stream(x) == Stream(y) {
      StreamDetermines(x, y);
    }
    m, n := EqualChains(a, iv, Stream(x), Stream(y));
  }

  lemma EqualChains(a: Matrix, iv: seq<bool>, s: seq<bool>, t: seq<bool>) returns (m: nat, n: nat)
    requires |iv| == OUTPUT_BITS && s != t && |s| > 0 && s[|s| - 1] && |t| > 0 && t[|t| - 1]
    requires Chain(a, iv, s) == Chain(a, iv, t)
    ensures m < Chunks(s) && n < Chunks(t)
    ensures Collide(a, iv, s, m, t, n) || Restarts(a, iv, s, m) || Restarts(a, iv, t, n)
  {
    hide Compress, ChunkAt, Chunks, Chain, Collide, Restarts, BlockAt;
    ChainEnds(a, iv, s);
    ChainEnds(a, iv, t);
    m, n := TraceBack(a, iv, s, Chunks(s) - 1, t, Chunks(t) - 1);
  }

  lemma StreamDetermines(x: seq<bool>, y: seq<bool>)
    requires Stream(x) == Stream(y)
    ensures x == y
  {
    assert x == Stream(x)[LENGTH_BITS..LENGTH_BITS + |x|];
    assert y == Stream(y)[LENGTH_BITS..LENGTH_BITS + |y|];
  }

  // ----- the code -----

  method CopyBits(dst: array<bool>, dstStart: nat, src: seq<bool>, srcStart: nat, numBits: nat)
    requires dstStart + numBits <= dst.Length && srcStart + numBits <= |src|
    modifies dst
    ensures dst[..dstStart + numBits] == old(dst[..dstStart]) + src[srcStart..srcStart + numBits]
  {
    var i := 0;
    while i < numBits
      invariant 0 <= i <= numBits
      invariant dst[..dstStart + i] == old(dst[..dstStart]) + src[srcStart..srcStart + i]
    {
      dst[dstStart + i] := src[srcStart + i];
      i := i + 1;
      assert dst[..dstStart + i] == dst[..dstStart + (i - 1)] + [src[srcStart + (i - 1)]];
      assert src[srcStart..srcStart + i] == src[srcStart..srcStart + (i - 1)] + [src[srcStart + (i - 1)]];
    }
  }

  lemma {:induction false} LowBitsNext(x: nat, i: nat)
    ensures LowBits(x, i + 1) == LowBits(x, i) + [Shifted(x, i) % 2 == 1]
    decreases i
  {
    if i > 0 {
      LowBitsNext(x / 2, i - 1);
      ShiftedHalf(x, i - 1);
    } else {
      assert LowBits(x, 1) == [x % 2 == 1] + LowBits(x / 2, 0);
    }
  }

  /** Writes the low bits of a number. */
  method WriteBits(b: array<bool>, start: nat, x: nat, n: nat)
    requires start + n <= b.Length
    modifies b
    ensures b[..start + n] == old(b[..start]) + LowBits(x, n)
  {
    hide LowBits;
    var i := 0;
    LowBitsNone(x);
    while i < n
      invariant 0 <= i <= n
      invariant b[..start + i] == old(b[..start]) + LowBits(x, i)
    {
      LowBitsNext(x, i);
      b[start + i] := Shifted(x, i) % 2 == 1;
      i := i + 1;
      assert b[..start + i] == b[..start + (i - 1)] + [b[start + (i - 1)]];
    }
  }

  lemma LowBitsNone(x: nat)
    ensures LowBits(x, 0) == []
  {
  }

  /** One row: the sum is kept in a 32-bit word. */
  method SumRow(a: Matrix, i: nat, input: array<bool>, inputSize: nat) returns (rowSum: nat)
    requires Reduced(a) && inputSize <= input.Length && inputSize <= M
    ensures rowSum == RowSum(a, i, input[..inputSize])
  {
    hide Reduced;
    rowSum := 0;
    var j := 0;
    while j < inputSize
      invariant 0 <= j <= inputSize && rowSum == RowSum(a, i, input[..j])
    {
      assert input[..j + 1][..j] == input[..j];
      RowSumFits(a, i, input[..j + 1]);
      if input[j] {
        rowSum := (rowSum + a(i, j)) % WORD;
      }
      j := j + 1;
    }
  }

  method HashBlock(a: Matrix, input: array<bool>, inputSize: nat, result: array<bool>)
    requires Reduced(a) && inputSize <= M && input.Length == M && result.Length == OUTPUT_BITS && input != result
    modifies result
    ensures result[..] == Compress(a, Padded(input[..inputSize]))
    ensures forall i :: 0 <= i < N ==>
      BitsValue(result[i * Q_BITS..(i + 1) * Q_BITS]) == RowSum(a, i, input[..inputSize]) % Q
  {
    hide Reduced, RowSum, LowBits;
    ghost var block := input[..inputSize];
    var rIndex := 0;
    var i := 0;
    assert result[..0] == [];
    while i < N
      invariant 0 <= i <= N && rIndex == i * Q_BITS && result[..rIndex] == Rows(a, block, i)
      invariant input[..inputSize] == block
    {
      var rowSum := SumRow(a, i, input, inputSize);
      rowSum := rowSum % Q;
      WriteBits(result, rIndex, rowSum, Q_BITS);
      rIndex := rIndex + Q_BITS;
      i := i + 1;
    }
    assert result[..] == result[..OUTPUT_BITS];
    RowsPadded(a, block, N);
    forall i | 0 <= i < N
      ensures BitsValue(result[i * Q_BITS..(i + 1) * Q_BITS]) == RowSum(a, i, block) % Q
    {
      CompressedRow(a, block, i);
      assert result[..][i * Q_BITS..(i + 1) * Q_BITS] == result[i * Q_BITS..(i + 1) * Q_BITS];
    }
  }

  /** What has been chained so far, and the part of the string still to come. */
  ghost predicate Chaining(a: Matrix, iv: seq<bool>, input: seq<bool>, state: seq<bool>, first: bool, copied: nat) {
    && |iv| == OUTPUT_BITS && |state| == OUTPUT_BITS && copied <= |input|
    && (first ==> copied == 0)
    && Chain(a, state, (if first then LowBits(|input|, LENGTH_BITS) else []) + input[copied..] + [true]) ==
        Hash(a, iv, input)
  }

  /** The start of a block: the digest, and the length if it is the first. */
  method FillHead(block: array<bool>, state: seq<bool>, size: nat, first: bool) returns (blockCopied: nat)
    requires block.Length == M && |state| == OUTPUT_BITS
    modifies block
    ensures blockCopied == OUTPUT_BITS + (if first then LENGTH_BITS else 0)
    ensures block[..blockCopied] == state + (if first then LowBits(size, LENGTH_BITS) else [])
  {
    hide LowBits;
    CopyBits(block, 0, state, 0, OUTPUT_BITS);
    blockCopied := OUTPUT_BITS;
    assert block[..blockCopied] == state;
    if first {
      WriteBits(block, blockCopied, size, LENGTH_BITS);
      blockCopied := blockCopied + LENGTH_BITS;
    }
  }

  /** The next block: the digest, the length if it is the first, as much input as fits, and the 1 if there is room. */
  method FillBlock(block: array<bool>, state: seq<bool>, input: seq<bool>, first: bool, copied: nat)
    returns (blockCopied: nat, inputCopied: nat, more: bool)
    requires block.Length == M && |state| == OUTPUT_BITS && copied <= |input|
    modifies block
    ensures copied <= inputCopied <= |input| && blockCopied <= M
    ensures var rest := (if first then LowBits(|input|, LENGTH_BITS) else []) + input[copied..] + [true];
            && (more <==> |rest| > ROOM)
            && block[..blockCopied] == state + (if more then rest[..ROOM] else rest)
            && (more ==> input[inputCopied..] + [true] == rest[ROOM..])
  {
    hide LowBits;
    ghost var head := if first then LowBits(|input|, LENGTH_BITS) else [];
    inputCopied := copied;
    blockCopied := FillHead(block, state, |input|, first);
    var numInputBits := |input| - inputCopied;
    var spaceLeft := M - blockCopied;
    if numInputBits > spaceLeft {
      numInputBits := spaceLeft;
    }
    if numInputBits > 0 {
      CopyBits(block, blockCopied, input, inputCopied, numInputBits);
      inputCopied := inputCopied + numInputBits;
      blockCopied := blockCopied + numInputBits;
    }
    assert block[..blockCopied] == state + head + input[copied..inputCopied];
    more := true;
    if blockCopied < M {
      block[blockCopied] := true;
      blockCopied := blockCopied + 1;
      more := false;
      assert block[..blockCopied] == state + head + input[copied..inputCopied] + [true];
    }
    CutHere(state, head, input, copied, inputCopied, more);
  }

  lemma CutHere(state: seq<bool>, head: seq<bool>, input: seq<bool>, copied: nat, inputCopied: nat, more: bool)
    requires copied <= inputCopied <= |input| && |state| == OUTPUT_BITS
    requires more ==> |state| + |head| + inputCopied - copied == M
    requires !more ==> inputCopied == |input|
    ensures var rest := head + input[copied..] + [true];
            && (more ==>
                state + head + input[copied..inputCopied] == state + rest[..ROOM] &&
                input[inputCopied..] + [true] == rest[ROOM..])
            && (!more ==> state + head + input[copied..inputCopied] + [true] == state + rest)
  {
    var rest := head + input[copied..] + [true];
    if more {
      assert rest[..ROOM] == head + input[copied..inputCopied];
      assert rest[ROOM..] == input[inputCopied..] + [true];
    } else {
      assert input[copied..inputCopied] == input[copied..];
    }
  }

  /** The code computes the fold, whatever bits earlier blocks left behind. */
  method HashBits(a: Matrix, iv: seq<bool>, input: seq<bool>) returns (result: seq<bool>)
    requires Reduced(a) && |iv| == OUTPUT_BITS
    ensures result == Hash(a, iv, input)
  {
    hide Reduced, Chain, Compress, Padded, LowBits;
    var blockBits := new bool[M];
    var resultBits := new bool[OUTPUT_BITS](i requires 0 <= i < OUTPUT_BITS => iv[i]);
    assert resultBits[..] == iv;
    var moreBlocks, firstBlock, inputCopied := true, true, 0;
    assert input[0..] == input;
    while moreBlocks
      invariant 0 <= inputCopied <= |input|
      invariant moreBlocks ==> Chaining(a, iv, input, resultBits[..], firstBlock, inputCopied)
      invariant !moreBlocks ==> resultBits[..] == Hash(a, iv, input)
      decreases moreBlocks, firstBlock, |input| - inputCopied
    {
      ghost var state := resultBits[..];
      ghost var rest := (if firstBlock then LowBits(|input|, LENGTH_BITS) else []) + input[inputCopied..] + [true];
      ChainUnfold(a, state, rest);
      var blockCopied;
      blockCopied, inputCopied, moreBlocks := FillBlock(blockBits, resultBits[..], input, firstBlock, inputCopied);
      firstBlock := false;
      HashBlock(a, blockBits, blockCopied, resultBits);
      assert [] + input[inputCopied..] == input[inputCopied..];
    }
    result := resultBits[..];
  }

  lemma ChainUnfold(a: Matrix, state: seq<bool>, s: seq<bool>)
    requires |state| == OUTPUT_BITS
    ensures |s| <= ROOM ==> Chain(a, state, s) == Compress(a, Padded(state + s))
    ensures |s| > ROOM ==> Chain(a, state, s) == Chain(a, Compress(a, Padded(state + s[..ROOM])), s[ROOM..])
  {
  }
}
