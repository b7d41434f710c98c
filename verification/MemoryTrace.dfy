/**
 The memory that a checked trace describes, and the prover's memory operations that record traces.
 */
module MemoryTrace {
  import opened MemoryOp
  import opened MemoryCheck

  function Contents(ram: map<nat, int>, addr: nat): int {
    if addr in ram then ram[addr] else 0
  }

  /** The memory after the operations of a trace, listed in the order of their execution. */
  function MemoryAfter(t: seq<MemOp>): map<nat, int> {
    if |t| == 0 then map[] else
      var last := t[|t| - 1];
      var before := MemoryAfter(t[..|t| - 1]);
      if last.kind == STORE then before[last.addr := last.value] else before
  }

  /** Operation j carries what the memory holds when it is executed. */
  predicate ReadsMemory(t: seq<MemOp>, j: nat)
    requires j < |t|
  {
    t[j].value == Contents(MemoryAfter(t[..j]), t[j].addr)
  }

  /** Every load returns the last value stored at its address, or 0. */
  predicate LoadsRead(t: seq<MemOp>) {
    forall j :: 0 <= j < |t| && t[j].kind == LOAD ==> ReadsMemory(t, j)
  }

  /** Skipped stores carry the current contents. */
  predicate SkipsRead(t: seq<MemOp>) {
    forall j :: 0 <= j < |t| && t[j].kind != LOAD && t[j].kind != STORE ==> ReadsMemory(t, j)
  }

  /** So do those skipped stores that are the last operation on an address before it is loaded. */
  predicate LoadedSkipsRead(t: seq<MemOp>) {
    forall j :: 0 <= j < |t| && t[j].kind == LOAD ==>
      var i := LastOn(t, j, t[j].addr);
      i >= 0 && t[i].kind != LOAD && t[i].kind != STORE ==> ReadsMemory(t, i)
  }

  predicate InTime(t: seq<MemOp>) {
    forall i, j :: 0 <= i < j < |t| ==> t[i].timestamp < t[j].timestamp
  }

  /** The last operation on an address among the first k, or -1. */
  function LastOn(t: seq<MemOp>, k: nat, addr: nat): (i: int)
    requires k <= |t|
    ensures -1 <= i < k
    ensures i >= 0 ==> t[i].addr == addr
    ensures forall m :: i < m < k ==> t[m].addr != addr
  {
    if k == 0 then -1 else if t[k - 1].addr == addr then k - 1 else LastOn(t, k - 1, addr)
  }

  function LastValue(t: seq<MemOp>, k: nat, addr: nat): int
    requires k <= |t|
  {
    var i := LastOn(t, k, addr);
    if i < 0 then 0 else t[i].value
  }

  /** In a trace listed in order of time the latest earlier operation is the last one before it in the list. */
  lemma CarriesInTime(t: seq<MemOp>, j: nat)
    requires InTime(t) && j < |t|
    ensures Carries(t, j) <==> t[j].value == LastValue(t, j, t[j].addr)
  {
    var i := LastOn(t, j, t[j].addr);
    forall k | 0 <= k < |t| ensures Earlier(t, k, j) <==> t[k].addr == t[j].addr && k < j {
      assert k < j ==> t[k].timestamp < t[j].timestamp;
      assert j < k ==> t[j].timestamp < t[k].timestamp;
    }
    if i >= 0 {
      assert Earlier(t, i, j);
      forall k | 0 <= k < |t| && Latest(t, k, j) ensures k == i {}
      forall k | 0 <= k < |t| && Earlier(t, k, j) ensures t[k].timestamp <= t[i].timestamp {
        assert k < i ==> t[k].timestamp < t[i].timestamp;
      }
      assert Latest(t, i, j);
    }
  }

  /** Where the contents of an address come from. */
  lemma {:induction false} ContentsSince(t: seq<MemOp>, k: nat, addr: nat)
    requires k <= |t|
    ensures var i := LastOn(t, k, addr);
            Contents(MemoryAfter(t[..k]), addr) ==
            if i < 0 then 0 else if t[i].kind == STORE then t[i].value else Contents(MemoryAfter(t[..i]), addr)
    decreases k
  {
    if k > 0 {
      ContentsSince(t, k - 1, addr);
      assert t[..k][..k - 1] == t[..k - 1];
    }
  }

  /** An operation against the last one before it on its address. */
  lemma BackToLast(t: seq<MemOp>, j: nat)
    requires InTime(t) && j < |t|
    ensures var i := LastOn(t, j, t[j].addr);
            if i < 0 || t[i].kind == STORE then ReadsMemory(t, j) <==> Carries(t, j)
            else
              && (ReadsMemory(t, i) ==> (ReadsMemory(t, j) <==> Carries(t, j)))
              && (ReadsMemory(t, j) && Carries(t, j) ==> ReadsMemory(t, i))
  {
    hide Carries, MemoryAfter, LastOn;
    CarriesInTime(t, j);
    ContentsSince(t, j, t[j].addr);
  }

  lemma {:induction false} LoadsReadUpTo(t: seq<MemOp>, k: nat)
    requires InTime(t) && LoadedSkipsRead(t) && LoadsCarry(t) && k <= |t|
    ensures forall j :: 0 <= j < k && t[j].kind == LOAD ==> ReadsMemory(t, j)
    decreases k
  {
    hide Carries, ReadsMemory, LastOn;
    if k > 0 {
      LoadsReadUpTo(t, k - 1);
      BackToLast(t, k - 1);
    }
  }

  /**
   Where a skipped store carries the contents whenever it is the last operation before a load, in particular in a
   trace of loads and stores only, what the checks enforce is exactly that every load returns the last value stored.
   */
  lemma ChecksAreMemory(t: seq<MemOp>)
    requires InTime(t) && LoadedSkipsRead(t)
    ensures LoadsCarry(t) <==> LoadsRead(t)
  {
    hide Carries, ReadsMemory, LastOn;
    if LoadsCarry(t) {
      LoadsReadUpTo(t, |t|);
    }
    if LoadsRead(t) {
      forall j | 0 <= j < |t| && t[j].kind == LOAD ensures Carries(t, j) {
        BackToLast(t, j);
      }
    }
  }

  /** And that condition is exact: a trace that passes the checks is one of a memory if and only if it holds. */
  lemma ChecksSuffice(t: seq<MemOp>)
    requires InTime(t) && LoadsCarry(t)
    ensures LoadsRead(t) <==> LoadedSkipsRead(t)
    ensures SkipsRead(t) ==> LoadsRead(t)
  {
    hide Carries, ReadsMemory, LastOn;
    if LoadedSkipsRead(t) {
      ChecksAreMemory(t);
    }
    if LoadsRead(t) {
      forall j | 0 <= j < |t| && t[j].kind == LOAD
        ensures var i := LastOn(t, j, t[j].addr);
                i >= 0 && t[i].kind != LOAD && t[i].kind != STORE ==> ReadsMemory(t, i)
      {
        BackToLast(t, j);
      }
    }
  }

  /** It can fail: here a skipped store hides the store before it and the checks still hold. */
  lemma SkipHidesStore()
    ensures var t := [MemOp(0, 0, STORE, 5), MemOp(0, 1, NO_OP, 7), MemOp(0, 2, LOAD, 7)];
            InTime(t) && Sorted(t) && LoadsCarry(t) && !LoadsRead(t)
  {
    var t := [MemOp(0, 0, STORE, 5), MemOp(0, 1, NO_OP, 7), MemOp(0, 2, LOAD, 7)];
    assert Latest(t, 1, 2);
    assert t[..2] == [t[0], t[1]];
    assert t[..2][..1] == [t[0]];
    assert MemoryAfter([t[0]]) == map[0 := 5];
    assert !ReadsMemory(t, 2);
  }

  // ----- the prover -----

  /** The prover's memory and the operations that the compiler numbered, in order of execution. */
  class Memory {
    var ram: map<nat, int>
    var trace: seq<MemOp>

    ghost predicate Valid()
      reads this
    {
      && (forall k :: 0 <= k < |trace| ==> trace[k].timestamp == k)
      && ram == MemoryAfter(trace)
      && LoadsRead(trace)
      && SkipsRead(trace)
    }

    constructor ()
      ensures Valid() && trace == []
    {
      ram := map[];
      trace := [];
    }

    method Get(addr: nat) returns (value: int)
      requires Valid()
      modifies this
      ensures Valid() && value == Contents(old(ram), addr) && ram == old(ram)
      ensures trace == old(trace) + [MemOp(addr, |old(trace)|, LOAD, value)]
    {
      if addr in ram {
        value := ram[addr];
      } else {
        value := 0;
      }
      var op := MemOp(addr, |trace|, LOAD, value);
      Recorded(trace, op);
      trace := trace + [op];
    }

    /**
     A put in one branch of a condition, executed when the condition selects that branch; the kind recorded is the one
     its constraint computes.  The target holds `given` before, and an executed put in a false branch leaves it so: the
     recorded store then carries `given`, and the memory is that of the trace only if that is the value stored.
     */
    method Put(addr: nat, value: int, condition: int, branch: bool, given: int) returns (target: int)
      requires Valid() && (condition == 0 || condition == 1)
      modifies this
      ensures Valid() <==> branch || condition == 1 || given == value
      ensures ram == if (condition == 1) == branch then old(ram)[addr := value] else old(ram)
      ensures target == if (condition == 1) != branch then Contents(ram, addr) else if branch then value else given
      ensures trace == old(trace) +
        [MemOp(addr, |old(trace)|, if (condition == 1) == branch then STORE else NO_OP, target)]
    {
      target := given;
      if condition != 0 {
        if branch {
          ram := ram[addr := value];
          target := value;
        } else {
          target := Contents(ram, addr);
        }
      } else {
        if !branch {
          ram := ram[addr := value];
        } else {
          target := Contents(ram, addr);
        }
      }
      var selected := if branch then condition else 1 - condition;
      var op := MemOp(addr, |trace|, selected * (STORE - NO_OP) + NO_OP, target);
      Recorded(trace, op);
      trace := trace + [op];
      if selected == 1 { assert ram[addr] == value && MemoryAfter(trace)[addr] == target; }
    }
  }

  lemma Recorded(t: seq<MemOp>, op: MemOp)
    requires LoadsRead(t) && SkipsRead(t)
    requires op.kind != STORE ==> op.value == Contents(MemoryAfter(t), op.addr)
    ensures LoadsRead(t + [op]) && SkipsRead(t + [op])
    ensures MemoryAfter(t + [op]) == if op.kind == STORE then MemoryAfter(t)[op.addr := op.value] else MemoryAfter(t)
  {
    var t' := t + [op];
    assert t'[..|t|] == t;
    forall j | 0 <= j < |t'| && t'[j].kind != STORE ensures ReadsMemory(t', j) {
      assert t'[..j] == t[..j];
      if j < |t| { assert ReadsMemory(t, j); } else { assert t[..j] == t; }
    }
  }

  /** Sorted by address and time, every trace the prover records passes the checks, with the prover's values. */
  lemma RecordedTracesPass(p: int, t: seq<MemOp>, s: seq<MemOp>)
    requires p > 1 && |s| >= 1 && Reordering(s, t) && Sorted(s)
    requires (forall k :: 0 <= k < |t| ==> t[k].timestamp == k) && LoadsRead(t) && SkipsRead(t)
    ensures ChecksHold(p, s, FilledFirst(s[0]), FilledPairs(s))
  {
    hide LoadsCarry, LoadsRead, Sorted, ChecksHold, FilledFirst, FilledPairs, ReadsMemory, LastOn;
    ChecksAreMemory(t);
    MemoryChecked(p, s, t);
  }
}
