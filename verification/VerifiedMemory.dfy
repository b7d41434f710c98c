/**
 The memory argument as a whole: the permutation network carries the recorded operations to the outputs on which
 the checks are made.  Soundness takes as given that every equation of every switch holds, at every level of the
 network; completeness provides settings and wires for which they all do.
 */
module VerifiedMemory {
  import opened MemoryOp
  import opened MemoryCheck
  import G = MemoryGadgets
  import opened MemoryTrace
  import opened WaksmanLevel
  import opened WaksmanPlacement
  import opened WaksmanRoute
  import N = WaksmanNetwork

  /**
   Soundness: if some switch settings and wires satisfy all switch equations and some variables all checks, memory
   behaved, exactly as far as skipped stores do.
   */
  lemma CheckedTraceReads(p: int, sw: seq<bool>, wires: seq<MemOp>, t: seq<MemOp>, out: seq<MemOp>,
                          first: FirstVars, pairs: seq<PairVars>)
    requires p > 1 && |t| >= 2 && |out| == |t| && |sw| == N.Switches(|t|) && |wires| == N.WireLength(|t|)
    requires N.WiresOk(|t|, sw, wires, t, out) && ChecksHold(p, out, first, pairs)
    requires InTime(t)
    ensures LoadsRead(t) <==> LoadedSkipsRead(t)
    ensures SkipsRead(t) ==> LoadsRead(t)
  {
    hide N.WiresOk, N.Switches, N.WireLength, N.Eval, ChecksHold, LoadsRead, LoadsCarry, Sorted, InTime, SkipsRead,
        LoadedSkipsRead;
    N.EquationsDetermineOutputs(|t|, sw, wires, t, out);
    N.EvalPermutes(|t|, sw, t);
    MemoryChecked(p, out, t);
    ChecksSuffice(t);
  }

  /** The same from the constraints inside the comparisons, for operations within their declared widths. */
  lemma ConstraintsVerifyMemory(p: int, ws: G.Widths, sw: seq<bool>, wires: seq<MemOp>, t: seq<MemOp>, out: seq<MemOp>,
                                first: FirstVars, notLoad: int, nonZero: int, pairs: seq<PairVars>,
                                    inner: seq<G.PairInner>)
    requires |t| >= 2 && |out| == |t| && |sw| == N.Switches(|t|) && |wires| == N.WireLength(|t|)
    requires N.WiresOk(|t|, sw, wires, t, out)
    requires G.Room(p, ws) && (forall k :: 0 <= k < |t| ==> G.Fits(ws, t[k]))
    requires G.AllConstraints(p, ws, out, first, notLoad, nonZero, pairs, inner)
    requires InTime(t)
    ensures LoadsRead(t) <==> LoadedSkipsRead(t)
    ensures SkipsRead(t) ==> LoadsRead(t)
  {
    hide N.WiresOk, N.Switches, N.WireLength, N.Eval, LoadsRead, LoadsCarry, Sorted, InTime, SkipsRead,
        LoadedSkipsRead, G.AllConstraints, G.Room, G.Fits;
    N.EquationsDetermineOutputs(|t|, sw, wires, t, out);
    N.EvalPermutes(|t|, sw, t);
    forall k | 0 <= k < |out| ensures G.Fits(ws, out[k]) {
      var i := SameOps(out, t, k);
    }
    G.ConstraintsForceOrder(p, ws, out, first, notLoad, nonZero, pairs, inner);
    LoadsCarryReordered(out, t);
    ChecksSuffice(t);
  }

  /** Completeness: routed by address and time, a trace that the prover recorded satisfies everything. */
  method RouteRecorded(ghost p: int, m: Memory, order: seq<nat>, rank: seq<nat>, inter: array<MemOp>,
      output: array<MemOp>, sw: array<Switch>)
    requires p > 1 && m.Valid() && |m.trace| >= 2
    requires |order| == |m.trace| == output.Length && IsRank(order, rank) && inter != output
    requires sw.Length == N.Switches(|m.trace|) && inter.Length == N.Wires(|m.trace|)
    requires forall i, j :: 0 <= i < j < |order| ==> Before(m.trace[order[i]], m.trace[order[j]])
    modifies inter, output, sw
    ensures m.trace == old(m.trace)
    ensures |inter[..]| == N.WireLength(|m.trace|) &&
        N.WiresOk(|m.trace|, Swaps(sw[..]), inter[..], m.trace, output[..])
    ensures ChecksHold(p, output[..], FilledFirst(output[0]), FilledPairs(output[..]))
  {
    hide N.WiresOk, N.Switches, N.WireLength, N.Wires, N.Eval, ChecksHold, LoadsRead, LoadsCarry, SkipsRead, IsRank,
        FilledFirst, FilledPairs;
    var t := m.trace;
    WakRoute(t, order, rank, inter, output, sw);
    N.EvalPermutes(|t|, Swaps(sw[..]), t);
    assert Sorted(output[..]);
    RecordedTracesPass(p, t, output[..]);
  }

  /** The same down to the constraints of the comparisons, for operations within their declared widths. */
  method RouteAndFill(p: int, ws: G.Widths, m: Memory, order: seq<nat>, rank: seq<nat>, inter: array<MemOp>,
      output: array<MemOp>, sw: array<Switch>) returns (notLoad: int, nonZero: int, inner: seq<G.PairInner>)
    requires m.Valid() && |m.trace| >= 2 && G.Room(p, ws)
    requires forall k :: 0 <= k < |m.trace| ==> G.Fits(ws, m.trace[k])
    requires |order| == |m.trace| == output.Length && IsRank(order, rank) && inter != output
    requires sw.Length == N.Switches(|m.trace|) && inter.Length == N.Wires(|m.trace|)
    requires forall i, j :: 0 <= i < j < |order| ==> Before(m.trace[order[i]], m.trace[order[j]])
    modifies inter, output, sw
    ensures m.trace == old(m.trace)
    ensures |inter[..]| == N.WireLength(|m.trace|) &&
        N.WiresOk(|m.trace|, Swaps(sw[..]), inter[..], m.trace, output[..])
    ensures
      G.AllConstraints(p, ws, output[..], FilledFirst(output[0]), notLoad, nonZero, FilledPairs(output[..]), inner)
  {
    hide N.WiresOk, N.Switches, N.WireLength, N.Wires, N.Eval, ChecksHold, LoadsRead, LoadsCarry, SkipsRead, IsRank,
        FilledFirst, FilledPairs, Sorted, G.Fits, G.AllConstraints;
    RouteRecorded(p, m, order, rank, inter, output, sw);
    N.EquationsDetermineOutputs(|m.trace|, Swaps(sw[..]), inter[..], m.trace, output[..]);
    N.EvalPermutes(|m.trace|, Swaps(sw[..]), m.trace);
    forall k | 0 <= k < |output[..]| ensures G.Fits(ws, output[..][k]) {
      var i := SameOps(output[..], m.trace, k);
    }
    MemoryChecked(p, output[..], m.trace);
    LoadsCarryReordered(m.trace, output[..]);
    notLoad, nonZero, inner := G.FillConstraints(p, ws, output[..]);
  }
}
