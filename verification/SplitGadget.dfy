/**
 The little-endian bit split: the constraints on the bit variables and the prover's loop that fills them in,
 both against the two's-complement form of the input.
 */
module SplitGadget {
  import opened Field
  import opened Powers
  import opened Gadgets

  /** The `n` low bits of the two's-complement form of `x`, least significant first. */
  function TwosComplement(x: int, n: nat): (r: seq<int>)
    ensures |r| == n && forall i :: 0 <= i < n ==> r[i] == 0 || r[i] == 1
    decreases n
  {
    if n == 0 then [] else [x % 2] + TwosComplement(x / 2, n - 1)
  }

  /** The sum in the constraint: bit i weighs 2^i, the last one -2^i in a signed split. */
  function WeightedSum(signed: bool, n: nat, bits: seq<int>): int
    requires |bits| <= n
  {
    if |bits| == 0 then 0 else
      var i := |bits| - 1;
      WeightedSum(signed, n, bits[..i]) + (if i == n - 1 && signed then -1 * Pow2(i) else Pow2(i)) * bits[i]
  }

  ghost predicate SplitHolds(p: int, signed: bool, bits: seq<int>, x: int)
    requires p > 0
  {
    && (forall i :: 0 <= i < |bits| ==> Cong(p, bits[i] * (bits[i] - 1), 0))
    && Cong(p, WeightedSum(signed, |bits|, bits) - x, 0)
  }

  /** The same sum from the least significant bit. */
  function Horner(signed: bool, bits: seq<int>): int {
    if |bits| == 0 then 0
    else if |bits| == 1 then if signed then -bits[0] else bits[0]
    else bits[0] + 2 * Horner(signed, bits[1..])
  }

  lemma {:induction false} PlainHorner(bits: seq<int>, b: int)
    ensures Horner(false, bits + [b]) == Horner(false, bits) + Pow2(|bits|) * b
    ensures Horner(true, bits + [b]) == Horner(false, bits) - Pow2(|bits|) * b
    decreases |bits|
  {
    if |bits| > 0 {
      assert (bits + [b])[1..] == bits[1..] + [b];
      PlainHorner(bits[1..], b);
      var h := Pow2(|bits| - 1);
      assert Pow2(|bits|) * b == 2 * (h * b);
    }
  }

  lemma {:induction false} PlainSum(signed: bool, n: nat, bits: seq<int>)
    requires |bits| < n || (|bits| == n && !signed)
    ensures WeightedSum(signed, n, bits) == Horner(false, bits)
    decreases |bits|
  {
    if |bits| > 0 {
      var i := |bits| - 1;
      PlainSum(signed, n, bits[..i]);
      PlainHorner(bits[..i], bits[i]);
      assert bits == bits[..i] + [bits[i]];
    }
  }

  lemma SumIsHorner(signed: bool, bits: seq<int>)
    ensures WeightedSum(signed, |bits|, bits) == Horner(signed, bits)
  {
    var n := |bits|;
    if n == 0 {
    } else if signed {
      PlainSum(true, n, bits[..n - 1]);
      PlainHorner(bits[..n - 1], bits[n - 1]);
      assert bits == bits[..n - 1] + [bits[n - 1]];
    } else {
      PlainSum(signed, n, bits);
    }
  }

  /** A sequence of bits is the two's-complement form of the number it weighs, which is in range. */
  lemma {:induction false} HornerBits(signed: bool, bits: seq<int>)
    requires |bits| >= 1 && forall i :: 0 <= i < |bits| ==> bits[i] == 0 || bits[i] == 1
    ensures TwosComplement(Horner(signed, bits), |bits|) == bits
    ensures SplitRange(signed, |bits|, Horner(signed, bits))
    decreases |bits|
  {
    var v := Horner(signed, bits);
    if |bits| == 1 {
      assert TwosComplement(v, 1) == [v % 2] + TwosComplement(v / 2, 0);
    } else {
      HornerBits(signed, bits[1..]);
      assert v % 2 == bits[0] && v / 2 == Horner(signed, bits[1..]);
      assert bits == [bits[0]] + bits[1..];
    }
  }

  /** Conversely an in-range number is what its two's-complement form weighs. */
  lemma {:induction false} HornerOfTwos(signed: bool, n: nat, x: int)
    requires n >= 1 && SplitRange(signed, n, x)
    ensures Horner(signed, TwosComplement(x, n)) == x
    decreases n
  {
    var t := TwosComplement(x, n);
    if n == 1 {
      assert t == [x % 2];
    } else {
      HornerOfTwos(signed, n - 1, x / 2);
      assert t[1..] == TwosComplement(x / 2, n - 1);
    }
  }

  lemma {:induction false} HornerCong(p: int, signed: bool, a: seq<int>, b: seq<int>)
    requires p > 0 && |a| == |b| && forall i :: 0 <= i < |a| ==> Cong(p, a[i], b[i])
    ensures Cong(p, Horner(signed, a), Horner(signed, b))
    decreases |a|
  {
    hide Cong;
    CongSame(p, 0);
    CongSame(p, 2);
    if |a| == 1 {
      CongOpposite(p, a[0], b[0]);
    } else if |a| > 1 {
      HornerCong(p, signed, a[1..], b[1..]);
      CongMul(p, 2, 2, Horner(signed, a[1..]), Horner(signed, b[1..]));
      CongAdd(p, a[0], b[0], 2 * Horner(signed, a[1..]), 2 * Horner(signed, b[1..]));
    }
  }

  /** The bits that field elements stand for. */
  lemma {:induction false} RoundedBits(p: int, bits: seq<int>) returns (c: seq<int>)
    requires Prime(p) && forall i :: 0 <= i < |bits| ==> Cong(p, bits[i] * (bits[i] - 1), 0)
    ensures |c| == |bits| && forall i :: 0 <= i < |c| ==> (c[i] == 0 || c[i] == 1) && Cong(p, bits[i], c[i])
    decreases |bits|
  {
    if |bits| == 0 {
      c := [];
    } else {
      var k := |bits| - 1;
      c := RoundedBits(p, bits[..k]);
      BitOf(p, bits[k]);
      c := c + [if Cong(p, bits[k], 0) then 0 else 1];
    }
  }

  /**
   The only solution: the input stands for a number of n bits and the bit variables are, one by one, its
   two's-complement form.
   */
  lemma SplitForces(p: int, signed: bool, bits: seq<int>, x: int) returns (v: int)
    requires Prime(p) && |bits| >= 1 && SplitHolds(p, signed, bits, x)
    ensures SplitRange(signed, |bits|, v) && Cong(p, x, v)
    ensures forall i :: 0 <= i < |bits| ==> Cong(p, bits[i], TwosComplement(v, |bits|)[i])
  {
    hide Cong, SplitRange, Horner, WeightedSum, TwosComplement;
    var c := RoundedBits(p, bits);
    v := Horner(signed, c);
    HornerBits(signed, c);
    HornerCong(p, signed, bits, c);
    SumIsHorner(signed, bits);
    CongSolve(p, Horner(signed, bits), x, v);
  }

  /** For an in-range input the solution is its own two's-complement form, so there is exactly one. */
  lemma SplitUnique(p: int, signed: bool, n: nat, x: int)
    requires Prime(p) && n >= 1 && p > Pow2(n) && SplitRange(signed, n, x)
    ensures SplitHolds(p, signed, TwosComplement(x, n), x)
    ensures forall bits: seq<int> | |bits| == n && SplitHolds(p, signed, bits, x) ::
              forall i :: 0 <= i < n ==> Cong(p, bits[i], TwosComplement(x, n)[i])
  {
    hide Cong, SplitHolds, TwosComplement;
    TwosHolds(p, signed, n, x);
    forall bits: seq<int> | |bits| == n && SplitHolds(p, signed, bits, x)
      ensures forall i :: 0 <= i < n ==> Cong(p, bits[i], TwosComplement(x, n)[i])
    {
      var v := SplitForces(p, signed, bits, x);
      CongClose(p, x, v);
    }
  }

  lemma TwosHolds(p: int, signed: bool, n: nat, x: int)
    requires p > 0 && n >= 1 && SplitRange(signed, n, x)
    ensures SplitHolds(p, signed, TwosComplement(x, n), x)
  {
    hide TwosComplement, Horner, WeightedSum, Cong;
    var t := TwosComplement(x, n);
    HornerOfTwos(signed, n, x);
    SumIsHorner(signed, t);
    CongSame(p, 0);
    forall i | 0 <= i < n ensures t[i] * (t[i] - 1) == 0 {}
  }

  // ----- the prover's loop -----

  /** Truncating halves, as the big-integer library computes them. */
  function HalfQuotient(x: int): int { if x >= 0 then x / 2 else -(-x / 2) }

  function HalfRemainder(x: int): int { x - 2 * HalfQuotient(x) }

  lemma {:induction false} TwosNext(x: int, i: nat)
    ensures TwosComplement(x, i + 1) == TwosComplement(x, i) + [Shifted(x, i) % 2]
    decreases i
  {
    if i > 0 {
      TwosNext(x / 2, i - 1);
      ShiftedHalf(x, i - 1);
    } else {
      assert TwosComplement(x, 1) == [x % 2] + TwosComplement(x / 2, 0);
    }
  }

  /** Adding 2^n leaves the low bits alone. */
  lemma {:induction false} WrappedBits(x: int, n: nat, m: nat)
    requires m <= n
    ensures TwosComplement(x + Pow2(n), m) == TwosComplement(x, m)
    decreases m
  {
    if m > 0 {
      var h := Pow2(n - 1);
      assert (x + 2 * h) % 2 == x % 2 && (x + 2 * h) / 2 == x / 2 + h;
      WrappedBits(x / 2, n - 1, m - 1);
    }
  }

  /** The prover's code; `left` is what it reports as left over. */
  method ComputeSplit(x: int, signed: bool, n: nat, bits: array<int>) returns (left: int)
    requires n >= 1 && bits.Length == n
    modifies bits
    ensures SplitRange(signed, n, x) ==> bits[..] == TwosComplement(x, n)
    ensures signed || x >= 0 ==> (left == 0 <==> SplitRange(signed, n, x))
  {
    var temp := x;
    var negative := temp < 0;
    if negative {
      temp := temp + Pow2(n);
    }
    ghost var start := temp;
    var i := 0;
    while i < n
      invariant 0 <= i <= n
      invariant signed && i == n ==> LastSplit(start, n, bits[..n], temp, Truth(negative))
      invariant !(signed && i == n) ==> LowSplit(start, i, bits[..i], temp)
    {
      ghost var before, was := temp, bits[..i];
      var temp2;
      if i == n - 1 && signed {
        temp2 := Truth(negative);
        temp := temp - temp2;
      } else {
        temp2 := HalfRemainder(temp);
        temp := HalfQuotient(temp);
        LowSplitNext(start, i, was, before);
      }
      bits[i] := temp2;
      i := i + 1;
      assert bits[..i] == was + [temp2];
    }
    left := temp;
    assert bits[..] == bits[..n];
    if signed { SignedResult(x, n, bits[..], temp); } else { UnsignedResult(x, n, bits[..], temp); }
  }

  /** Bits split off so far, and the sign of what remains when the start was negative. */
  ghost predicate LowSplit(start: int, i: nat, bits: seq<int>, temp: int) {
    && |bits| == i
    && (start >= 0 ==> bits == TwosComplement(start, i) && temp == Shifted(start, i))
    && (start < 0 ==> temp <= 0)
  }

  lemma LowSplitNext(start: int, i: nat, bits: seq<int>, temp: int)
    requires LowSplit(start, i, bits, temp)
    ensures LowSplit(start, i + 1, bits + [HalfRemainder(temp)], HalfQuotient(temp))
  {
    if start >= 0 {
      ShiftedBounds(start, i, 0);
      TwosNext(start, i);
    }
  }

  /** The top bit of a signed split is the sign. */
  ghost predicate LastSplit(start: int, n: nat, bits: seq<int>, temp: int, sign: int)
    requires n >= 1
  {
    |bits| == n && bits[n - 1] == sign && LowSplit(start, n - 1, bits[..n - 1], temp + sign)
  }

  lemma SignedResult(x: int, n: nat, bits: seq<int>, temp: int)
    requires n >= 1
    requires LastSplit(if x < 0 then x + Pow2(n) else x, n, bits, temp, Truth(x < 0))
    ensures SplitRange(true, n, x) ==> bits == TwosComplement(x, n)
    ensures temp == 0 <==> SplitRange(true, n, x)
  {
    hide TwosComplement, Shifted;
    var start := if x < 0 then x + Pow2(n) else x;
    var h := Pow2(n - 1);
    ShiftedBounds(start, n - 1, 1);
    ShiftedBounds(start, n - 1, 0);
    ShiftedBounds(start, n - 1, 2);
    if SplitRange(true, n, x) {
      TwosNext(x, n - 1);
      ShiftedBounds(x, n - 1, -1);
      ShiftedBounds(x, n - 1, 0);
      ShiftedBounds(x, n - 1, 1);
      if x < 0 { WrappedBits(x, n, n - 1); }
      assert bits == bits[..n - 1] + [bits[n - 1]];
    }
  }

  lemma UnsignedResult(x: int, n: nat, bits: seq<int>, temp: int)
    requires LowSplit(if x < 0 then x + Pow2(n) else x, n, bits, temp)
    ensures SplitRange(false, n, x) ==> bits == TwosComplement(x, n)
    ensures x >= 0 ==> (temp == 0 <==> SplitRange(false, n, x))
  {
    ShiftedBounds(x, n, 1);
    ShiftedBounds(x, n, 0);
  }
}
