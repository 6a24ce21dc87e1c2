/** Which fault of REP MOVS and REP STOS is lost, counted in bytes. */
module StringFaults {
  import opened Words
  import opened Memory
  import opened Alu
  import opened StringBlocks
  import opened StringRuns

  /** Elements of one width in chunks of 4096 bytes. */
  lemma InBytes(used: nat, size: OpSize)
    ensures used % ChunkElems(size) == 0 <==> used * size % 4096 == 0
    ensures (used - used % ChunkElems(size)) * size == used * size / 4096 * 4096
  {
    match size {
      case 1 =>
      case 2 => assert used * 2 / 4096 == used / 2048;
      case 4 => assert used * 4 / 4096 == used / 1024;
      case _ => assert used * 8 / 4096 == used / 512;
    }
  }

  /** Elements from the beginning of the last batch on. */
  function LastOf(n: nat, used: nat): nat
    requires used <= n
  {
    var left: nat := n - used / 0x10_0000 * 0x10_0000;
    if left < 0x10_0000 then left else 0x10_0000
  }

  /** Going forward, with batches of 2^20 elements and chunks of 4096 bytes: the fault is the architecture's exactly
      if it is on the first byte of a chunk, or the batch is a copy whose ranges overlap; otherwise it is lost, at
      the beginning of that chunk. */
  lemma MissedInBytes(op: StringOp, s: State, n: nat, size: OpSize)
    requires Ran(RunnerOf(op, false, size), s, n).how == Fault
    ensures var a, e := Ran(RunnerOf(op, false, size), s, n), Leaves(RunnerOf(op, false, size), s, n);
            && a.used <= n
            && (e == a <==> a.used * size % 4096 == 0 || (op.Movs? && !Disjoint(s.rsi, s.rdi, Span(LastOf(n, a.used), size))))
            && (e != a ==> e.how == Lost && e.used * size == a.used * size / 4096 * 4096)
  {
    MissedExactly(op, s, n, false, size);
    var used := Ran(RunnerOf(op, false, size), s, n).used;
    InBytes(used, size);
    assert LastOf(n, used) == LastBatch(used, n);
  }
}
