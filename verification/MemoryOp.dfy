/** The records that the memory checker sorts: one per load, store or skipped store. */
module MemoryOp {
  datatype MemOp = MemOp(addr: nat, timestamp: nat, kind: nat, value: int)
}
