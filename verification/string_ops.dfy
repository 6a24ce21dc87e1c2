/** REP MOVS and REP STOS: three execution paths, and the step protocol that keeps RIP on the
    instruction until a last step finds RCX = 0. */
module StringOps {
  import opened Words
  import opened Memory
  import opened Alu
  import opened StringBlocks
  import opened StringRuns
  import opened StringFills
  import Bits

  const REP_HOST_BULK_MIN_BYTES: int := 16

  class GuestMemory {
    var bytes: Mem

    /** A read that the page tables allow. */
    method Read(a: u64, len: nat) returns (data: Bytes)
      requires Mapped(bytes, a, len)
      ensures data == Slice(bytes, a, len)
    {
      data := Slice(bytes, a, len);
    }

    method Write(a: u64, data: Bytes)
      requires Mapped(bytes, a, |data|)
      modifies this
      ensures bytes == Overwrite(old(bytes), a, data)
    {
      bytes := Overwrite(bytes, a, data);
    }

    /** `read_mem_value`. */
    method ReadNumber(a: u64, size: OpSize) returns (v: u64)
      requires Mapped(bytes, a, size)
      ensures v < Modulus(size) && v == FromLE(Slice(bytes, a, size))
    {
      var data := Read(a, size);
      FromLEBound(data);
      Pow256IsModulus(size);
      v := FromLE(data);
    }
  }

  lemma Pow256IsModulus(size: OpSize)
    ensures Pow256(size) == Modulus(size)
  {
    assert Pow256(4) == 0x1_0000_0000;
  }

  class Cpu {
    var rax: u64
    var rcx: u64
    var rsi: u64
    var rdi: u64
    var df: bool

    function StateOf(mem: GuestMemory): State
      reads this, mem
    {
      State(mem.bytes, rsi, rdi)
    }
  }

  function Batch(rcx: u64): u64 {
    if rcx < REP_BULK_MAX then rcx else REP_BULK_MAX
  }

  /** From `rcx` elements the CPU has come to the end `e`, with `left` to go. */
  ghost predicate EndsAt(e: RunEnd, s: State, rcx: int, left: int, how: Ending) {
    e.state == s && e.used == rcx - left && e.how == how
  }

  // ---- the element path ----------------------------------------------------------------

  /** The element at the pointers, loaded as a value and stored as bytes. */
  method StoreElement(cpu: Cpu, mem: GuestMemory, op: StringOp, size: OpSize)
    requires op.Fits(size) && Ready(op, cpu.StateOf(mem), size)
    modifies mem
    ensures cpu.StateOf(mem) == Stored(op, old(cpu.StateOf(mem)), size)
  {
    match op {
      case Stos(elem) => mem.Write(cpu.rdi, elem);
      case Movs =>
        var v := mem.ReadNumber(cpu.rsi, size);
        LEFromLE(Slice(mem.bytes, cpu.rsi, size));
        mem.Write(cpu.rdi, LE(v, size));
    }
  }

  /** One element, or a fault. */
  method ElementStep(cpu: Cpu, mem: GuestMemory, op: StringOp, size: OpSize, ghost r: Runner) returns (how: Ending)
    requires op.Fits(size) && r == RunnerOf(op, cpu.df, size) && cpu.rcx > 0
    modifies cpu, mem
    ensures how == if r.ready(old(cpu.StateOf(mem))) then Done else Fault
    ensures cpu.StateOf(mem) == if how == Done then r.next(old(cpu.StateOf(mem))) else old(cpu.StateOf(mem))
    ensures cpu.rcx == old(cpu.rcx) - (if how == Done then 1 else 0) && cpu.rax == old(cpu.rax) && cpu.df == old(cpu.df)
  {
    if !Ready(op, cpu.StateOf(mem), size) { return Fault; }
    StoreElement(cpu, mem, op, size);
    if op.Movs? { cpu.rsi := Stepped(cpu.rsi, cpu.df, size); }
    cpu.rdi := Stepped(cpu.rdi, cpu.df, size);
    cpu.rcx := cpu.rcx - 1;
    how := Done;
  }

  /** After `k` elements a run stands at `s`: what is left of it ends as the whole does, or it is over. */
  ghost predicate Pending(r: Runner, whole: RunEnd, s: State, left: nat, k: nat, how: Ending) {
    whole == if how == Done then Further(Ran(r, s, left), k) else RunEnd(s, k, how)
  }

  lemma TakeOne(r: Runner, whole: RunEnd, s: State, left: nat, k: nat)
    requires left > 0 && Pending(r, whole, s, left, k, Done)
    ensures if r.ready(s) then Pending(r, whole, r.next(s), left - 1, k + 1, Done) else Pending(r, whole, s, left, k, Fault)
  {
  }

  /** The element loop of both instructions. */
  method ElementLoop(cpu: Cpu, mem: GuestMemory, op: StringOp, n: nat, size: OpSize, ghost r: Runner) returns (how: Ending)
    requires op.Fits(size) && r == RunnerOf(op, cpu.df, size) && n <= cpu.rcx
    modifies cpu, mem
    ensures EndsAt(Ran(r, old(cpu.StateOf(mem)), n), cpu.StateOf(mem), old(cpu.rcx), cpu.rcx, how)
    ensures cpu.rax == old(cpu.rax) && cpu.df == old(cpu.df)
  {
    ghost var whole := Ran(r, cpu.StateOf(mem), n);
    var count := n;
    how := Done;
    while count > 0 && how == Done
      invariant 0 <= count <= n && cpu.rcx == old(cpu.rcx) - (n - count)
      invariant cpu.rax == old(cpu.rax) && cpu.df == old(cpu.df)
      invariant Pending(r, whole, cpu.StateOf(mem), count, n - count, how)
      decreases count, how == Done
    {
      TakeOne(r, whole, cpu.StateOf(mem), count, n - count);
      how := ElementStep(cpu, mem, op, size, r);
      if how == Done { count := count - 1; }
    }
  }

  // ---- the chunk path ------------------------------------------------------------------

  /** How much of what remains goes in the next chunk. */
  method NextChunk(remain: nat, size: OpSize) returns (aligned: nat, elems: nat)
    requires remain > 0
    ensures elems == Min(remain, ChunkElems(size)) && aligned == Span(elems, size)
  {
    ChunkFacts(remain, size);
    var chunk := Min(ByteLen(remain, size), CHUNK_BYTES);
    aligned := chunk - chunk % size;
    elems := aligned / size;
  }

  /** Sizes and multiples in one chunk of at most 4096 bytes. */
  lemma ChunkFacts(remain: nat, size: OpSize)
    requires remain > 0
    ensures var chunk, k := Min(ByteLen(remain, size), CHUNK_BYTES), Min(remain, ChunkElems(size));
            chunk % size == 0 && chunk / size == k && Span(k, size) == chunk
  {
    var k := Min(remain, ChunkElems(size));
    SpanIsByteLen(k, size);
    match size case 1 => case 2 => case 4 => case _ =>
  }

  method FillPattern(len: nat, elem: Bytes) returns (buf: Bytes)
    requires |elem| > 0
    ensures buf == Repeat(elem, len / |elem|)
  {
    buf := [];
    var i := 0;
    ghost var n := 0;
    while i + |elem| <= len
      invariant 0 <= i <= len && i == |elem| * n && buf == Repeat(elem, n)
    {
      RepeatAppend(elem, n, 1);
      RepeatSpan(elem, 1);
      buf := buf + elem;
      i := i + |elem|;
      n := n + 1;
    }
    QuotientUnique(len, |elem|, n);
  }

  lemma QuotientUnique(len: nat, d: nat, n: nat)
    requires d > 0 && d * n <= len < d * n + d
    ensures len / d == n
  {
    Bits.ModUnique(len, d, n, len - d * n);
  }

  /** What a chunk writes. */
  function ChunkData(op: StringOp, s: State, k: nat, size: nat): Bytes {
    match op case Stos(elem) => Repeat(elem, k) case Movs => Slice(s.mem, s.rsi, Span(k, size))
  }

  lemma ChunkElements(op: StringOp, t: State, k: nat, size: OpSize)
    requires op.Fits(size) && k > 0 && (op.Movs? ==> Disjoint(t.rsi, t.rdi, Span(k, size)))
    ensures Elems(op, t, k, false, size) == Overwrite(t.mem, t.rdi, ChunkData(op, t, k, size))
  {
    match op
    case Stos(elem) => StosIsBlock(t.mem, t.rdi, k, elem, false);
    case Movs => MovsIsBlock(t.mem, t.rsi, t.rdi, k, false, size);
  }

  /** A chunk that can be accessed as a whole, and whose ranges do not overlap, is that many elements. */
  lemma ChunkRuns(op: StringOp, t: State, k: nat, size: OpSize)
    requires op.Fits(size) && k > 0 && Ready(op, t, Span(k, size)) && (op.Movs? ==> Disjoint(t.rsi, t.rdi, Span(k, size)))
    ensures var e := Ran(RunnerOf(op, false, size), t, k);
            && e.how == Done && e.used == k && e.state.mem == Overwrite(t.mem, t.rdi, ChunkData(op, t, k, size))
            && e.state.rdi == Wrap64(t.rdi + Span(k, size))
            && e.state.rsi == if op.Movs? then Wrap64(t.rsi + Span(k, size)) else t.rsi
  {
    assert BlockOk(op, t, k, false, size);
    assert At(t.rdi, k, false, size) == t.rdi + Span(k, size) && At(t.rsi, k, false, size) == t.rsi + Span(k, size);
    BlockRuns(op, t, k, false, size);
    ChunkElements(op, t, k, size);
  }

  /** A shorter run at the same distance. */
  lemma ApartInside(a: int, b: int, n: nat, done: nat, k: nat, size: nat)
    requires Disjoint(a, b, Span(n, size)) && done + k <= n
    ensures Disjoint(a + Span(done, size), b + Span(done, size), Span(k, size))
  {
    SpanAdd(k, n - k, size);
  }

  lemma FirstReady(op: StringOp, t: State, k: nat, size: OpSize)
    requires 0 < k && Ready(op, t, Span(k, size))
    ensures Ready(op, t, size)
  {
    assert Span(k, size) >= size;
  }

  /** Chunks of a copy over ranges that do not overlap do not overlap. */
  lemma ChunkApart(s: State, n: nat, done: nat, t: State, k: nat, size: OpSize)
    requires TopFree(s.mem) && (Chunked(Movs, s, n, false, size) || !Ready(Movs, s, size))
    requires Ran(RunnerOf(Movs, false, size), s, done) == RunEnd(t, done, Done)
    requires 0 < k && done + k <= n && Ready(Movs, t, Span(k, size))
    ensures Disjoint(t.rsi, t.rdi, Span(k, size))
  {
    RanMoves(Movs, s, done, size);
    FirstReady(Movs, t, k, size);
    assert Chunked(Movs, s, n, false, size);
    ApartInside(s.rsi, s.rdi, n, done, k, size);
  }

  /** A chunk that cannot be accessed as a whole: its first element is tried again. */
  method ChunkFails(cpu: Cpu, mem: GuestMemory, op: StringOp, n: nat, done: nat, size: OpSize, ghost r: Runner, ghost s: State)
      returns (how: Ending)
    requires op.Fits(size) && r == RunnerOf(op, false, size) && TopFree(s.mem)
    requires Chunked(op, s, n, false, size) || !Ready(op, s, size)
    requires done < n <= REP_BULK_MAX && ChunkStart(done, ChunkElems(size)) == done
    requires Ran(r, s, done) == RunEnd(cpu.StateOf(mem), done, Done)
    requires !Ready(op, cpu.StateOf(mem), Span(Min(n - done, ChunkElems(size)), size))
    modifies mem
    ensures Leaves(r, s, n) == RunEnd(cpu.StateOf(mem), done, how) && how != Done
  {
    ChunkMisses(op, s, n, done, cpu.StateOf(mem), size);
    if !Ready(op, cpu.StateOf(mem), size) { return Fault; }
    StoreElement(cpu, mem, op, size);
    how := Lost;
  }

  /** A chunk that can be. */
  method ChunkDone(cpu: Cpu, mem: GuestMemory, op: StringOp, elems: nat, aligned: nat, size: OpSize, ghost r: Runner)
    requires op.Fits(size) && r == RunnerOf(op, false, size) && 0 < elems <= ChunkElems(size) && aligned == Span(elems, size)
    requires Ready(op, cpu.StateOf(mem), aligned) && (op.Movs? ==> Disjoint(cpu.rsi, cpu.rdi, aligned))
    modifies cpu, mem
    ensures Ran(r, old(cpu.StateOf(mem)), elems) == RunEnd(cpu.StateOf(mem), elems, Done)
    ensures cpu.rcx == old(cpu.rcx) && cpu.rax == old(cpu.rax) && cpu.df == old(cpu.df)
  {
    ChunkRuns(op, cpu.StateOf(mem), elems, size);
    WriteChunk(cpu, mem, op, elems, aligned, size);
    cpu.rdi := Wrap64(cpu.rdi + aligned);
    if op.Movs? { cpu.rsi := Wrap64(cpu.rsi + aligned); }
  }

  lemma OneAfter(r: Runner, s: State, done: nat, t: State, k: nat, u: State)
    requires Ran(r, s, done) == RunEnd(t, done, Done) && Ran(r, t, k) == RunEnd(u, k, Done)
    ensures Ran(r, s, done + k) == RunEnd(u, done + k, Done)
  {
    RanResumes(r, s, done + k, done);
  }

  /** One chunk after `done` elements. */
  method ChunkStep(cpu: Cpu, mem: GuestMemory, op: StringOp, n: nat, done: nat, size: OpSize, ghost r: Runner, ghost s: State)
      returns (how: Ending, elems: nat)
    requires op.Fits(size) && r == RunnerOf(op, false, size) && TopFree(s.mem)
    requires Chunked(op, s, n, false, size) || !Ready(op, s, size)
    requires done < n <= REP_BULK_MAX && ChunkStart(done, ChunkElems(size)) == done
    requires Ran(r, s, done) == RunEnd(cpu.StateOf(mem), done, Done)
    modifies cpu, mem
    ensures how != Done ==> Leaves(r, s, n) == RunEnd(cpu.StateOf(mem), done, how)
    ensures elems == Min(n - done, ChunkElems(size))
    ensures how == Done ==> Ran(r, s, done + elems) == RunEnd(cpu.StateOf(mem), done + elems, Done)
    ensures cpu.rcx == old(cpu.rcx) && cpu.rax == old(cpu.rax) && cpu.df == old(cpu.df)
  {
    var aligned;
    aligned, elems := NextChunk(n - done, size);
    if !Ready(op, cpu.StateOf(mem), aligned) {
      how := ChunkFails(cpu, mem, op, n, done, size, r, s);
      return;
    }
    if op.Movs? { ChunkApart(s, n, done, cpu.StateOf(mem), elems, size); }
    ghost var t := cpu.StateOf(mem);
    ChunkDone(cpu, mem, op, elems, aligned, size, r);
    OneAfter(r, s, done, t, elems, cpu.StateOf(mem));
    how := Done;
  }

  method WriteChunk(cpu: Cpu, mem: GuestMemory, op: StringOp, elems: nat, aligned: nat, size: OpSize)
    requires op.Fits(size) && 0 < elems <= ChunkElems(size) && aligned == Span(elems, size)
    requires Ready(op, cpu.StateOf(mem), aligned)
    modifies mem
    ensures mem.bytes == Overwrite(old(mem.bytes), cpu.rdi, ChunkData(op, old(cpu.StateOf(mem)), elems, size))
  {
    match op {
      case Stos(elem) =>
        var buf := FillPattern(CHUNK_BYTES, elem);
        ChunkSpan(size);
        assert CHUNK_BYTES / size == ChunkElems(size);
        RepeatTake(elem, ChunkElems(size), elems);
        mem.Write(cpu.rdi, buf[..aligned]);
      case Movs =>
        var buf := mem.Read(cpu.rsi, aligned);
        mem.Write(cpu.rdi, buf);
    }
  }

  /** The loop over chunks, forward. */
  method ChunkLoop(cpu: Cpu, mem: GuestMemory, op: StringOp, n: nat, size: OpSize, ghost r: Runner) returns (how: Ending)
    requires op.Fits(size) && !cpu.df && r == RunnerOf(op, false, size) && TopFree(mem.bytes)
    requires n <= cpu.rcx && n <= REP_BULK_MAX
    requires Chunked(op, cpu.StateOf(mem), n, false, size) || !Ready(op, cpu.StateOf(mem), size)
    modifies cpu, mem
    ensures EndsAt(Leaves(r, old(cpu.StateOf(mem)), n), cpu.StateOf(mem), old(cpu.rcx), cpu.rcx, how)
    ensures cpu.rax == old(cpu.rax) && cpu.df == old(cpu.df)
  {
    ghost var s := cpu.StateOf(mem);
    var done := 0;
    while done < n
      invariant 0 <= done <= n && (done < n ==> ChunkStart(done, ChunkElems(size)) == done)
      invariant Ran(r, s, done) == RunEnd(cpu.StateOf(mem), done, Done)
      invariant cpu.rcx == old(cpu.rcx) && cpu.rax == old(cpu.rax) && cpu.df == old(cpu.df)
    {
      var elems;
      how, elems := ChunkStep(cpu, mem, op, n, done, size, r, s);
      if how != Done {
        cpu.rcx := cpu.rcx - done;
        return;
      }
      ChunksInFront(done, elems, ChunkElems(size));
      done := done + elems;
    }
    cpu.rcx := cpu.rcx - done;
    how := Done;
  }

  // ---- the block path ------------------------------------------------------------------

  /** `host_fill_pattern` over the guest bytes behind a host span. */
  method HostFillPattern(mem: GuestMemory, base: u64, len: nat, elem: Bytes, ghost k: nat)
    requires |elem| > 0 && Mapped(mem.bytes, base, len) && len == Span(k, |elem|)
    modifies mem
    ensures mem.bytes == Overwrite(old(mem.bytes), base, Repeat(elem, k))
  {
    ghost var m0 := mem.bytes;
    var i := 0;
    ghost var n := 0;
    while i + |elem| <= len
      invariant 0 <= i <= len && i == Span(n, |elem|) && n <= k
      invariant mem.bytes == Overwrite(m0, base, Repeat(elem, n)) && mem.bytes.Keys == m0.Keys
    {
      mem.Write(base + i, elem);
      OverwriteKeys(m0, base, Repeat(elem, n + 1));
      RepeatAppend(elem, n, 1);
      RepeatSpan(elem, 1); RepeatSpan(elem, n);
      OverwriteJoin(m0, base, Repeat(elem, n), elem);
      SpanAdd(n, 1, |elem|);
      SpanMonotone(n, k, |elem|);
      i := i + |elem|;
      n := n + 1;
    }
    SpanMonotone(n, k, |elem|);
  }

  /** The lowest byte of a run, as the block paths compute it. */
  function LowEnd(a: u64, n: nat, df: bool, size: OpSize): u64
    requires 0 < n <= REP_BULK_MAX
  {
    if df then WrapSub(a, ByteLen(n - 1, size)) else a
  }

  /** If all bytes from there can be accessed, it has not wrapped. */
  lemma LowEndIs(m: Mem, a: u64, n: nat, df: bool, size: OpSize)
    requires 0 < n <= REP_BULK_MAX && Mapped(m, LowEnd(a, n, df, size), ByteLen(n, size))
    ensures LowEnd(a, n, df, size) == Lowest(a, n, df, size) && RunOk(m, a, n, df, size) && ByteLen(n, size) == Span(n, size)
  {
    SpanIsByteLen(n, size);
    SpanIsByteLen(n - 1, size);
  }

  /** A block written through host spans, in either direction. */
  method Bulk(cpu: Cpu, mem: GuestMemory, op: StringOp, n: nat, size: OpSize, ghost r: Runner)
    requires op.Fits(size) && r == RunnerOf(op, cpu.df, size) && 0 < n <= REP_BULK_MAX && n <= cpu.rcx
    requires Mapped(mem.bytes, LowEnd(cpu.rdi, n, cpu.df, size), ByteLen(n, size))
    requires op.Movs? ==>
               && Mapped(mem.bytes, LowEnd(cpu.rsi, n, cpu.df, size), ByteLen(n, size))
               && Disjoint(LowEnd(cpu.rsi, n, cpu.df, size), LowEnd(cpu.rdi, n, cpu.df, size), Span(n, size))
    modifies cpu, mem
    ensures Ran(r, old(cpu.StateOf(mem)), n) == RunEnd(cpu.StateOf(mem), n, Done)
    ensures cpu.rcx == old(cpu.rcx) - n && cpu.rax == old(cpu.rax) && cpu.df == old(cpu.df)
  {
    LowEndIs(mem.bytes, cpu.rdi, n, cpu.df, size);
    if op.Movs? { LowEndIs(mem.bytes, cpu.rsi, n, cpu.df, size); }
    BlockRuns(op, cpu.StateOf(mem), n, cpu.df, size);
    var rsi, rdi := cpu.rsi, Beyond(mem.bytes, cpu.rdi, n, cpu.df, size);
    if op.Movs? { rsi := Beyond(mem.bytes, cpu.rsi, n, cpu.df, size); }
    WriteBlock(mem, op, cpu.rsi, cpu.rdi, n, cpu.df, size);
    cpu.rsi, cpu.rdi, cpu.rcx := rsi, rdi, cpu.rcx - n;
  }

  /** The pointer after a block. */
  function Beyond(m: Mem, a: u64, n: nat, df: bool, size: OpSize): (p: u64)
    requires RunOk(m, a, n, df, size)
    ensures p == Wrap64(At(a, n, df, size))
  {
    RunPointer(m, a, n, df, size);
    SpanIsByteLen(n, size);
    Wrap64(if df then a - ByteLen(n, size) else a + ByteLen(n, size))
  }

  method WriteBlock(mem: GuestMemory, op: StringOp, rsi: u64, rdi: u64, n: nat, df: bool, size: OpSize)
    requires op.Fits(size) && 0 < n <= REP_BULK_MAX
    requires Mapped(mem.bytes, LowEnd(rdi, n, df, size), ByteLen(n, size))
    requires op.Movs? ==>
               && Mapped(mem.bytes, LowEnd(rsi, n, df, size), ByteLen(n, size))
               && Disjoint(LowEnd(rsi, n, df, size), LowEnd(rdi, n, df, size), Span(n, size))
    modifies mem
    ensures mem.bytes == Elems(op, State(old(mem.bytes), rsi, rdi), n, df, size) && mem.bytes.Keys == old(mem.bytes).Keys
  {
    LowEndIs(mem.bytes, rdi, n, df, size);
    match op {
      case Stos(elem) =>
        StosIsBlock(mem.bytes, rdi, n, elem, df);
        OverwriteKeys(mem.bytes, LowEnd(rdi, n, df, size), Repeat(elem, n));
        HostFillPattern(mem, LowEnd(rdi, n, df, size), ByteLen(n, size), elem, n);
      case Movs =>
        LowEndIs(mem.bytes, rsi, n, df, size);
        MovsIsBlock(mem.bytes, rsi, rdi, n, df, size);
        var data := mem.Read(LowEnd(rsi, n, df, size), ByteLen(n, size));
        OverwriteKeys(mem.bytes, LowEnd(rdi, n, df, size), data);
        mem.Write(LowEnd(rdi, n, df, size), data);
    }
  }

  // ---- one step of the instructions ----------------------------------------------------

  /** Whether RIP stays on the instruction after a step with something to do; none after a fault. */
  function Stays(how: Ending): Option<bool> {
    match how case Done => Some(true) case Fault => None case Lost => Some(false)
  }

  /** REP STOS with something to do: one of the three paths, the same outcome. */
  method StosRep(cpu: Cpu, mem: GuestMemory, elem: Bytes, size: OpSize, span: bool, ghost r: Runner) returns (how: Ending)
    requires |elem| == size && r == RunnerOf(Stos(elem), cpu.df, size) && cpu.rcx > 0 && (!cpu.df ==> TopFree(mem.bytes))
    modifies cpu, mem
    ensures EndsAt(Leaves(r, old(cpu.StateOf(mem)), Batch(old(cpu.rcx))), cpu.StateOf(mem), old(cpu.rcx), cpu.rcx, how)
    ensures cpu.rax == old(cpu.rax) && cpu.df == old(cpu.df)
  {
    var count := if cpu.rcx < REP_BULK_MAX then cpu.rcx else REP_BULK_MAX;
    var byteLen := ByteLen(count, size);
    if count > 1 && byteLen >= REP_HOST_BULK_MIN_BYTES && span
       && Mapped(mem.bytes, LowEnd(cpu.rdi, count, cpu.df, size), byteLen) {
      Bulk(cpu, mem, Stos(elem), count, size, r);
      how := Done;
    } else if !cpu.df && count > 1 {
      how := ChunkLoop(cpu, mem, Stos(elem), count, size, r);
    } else {
      NothingMissed(Stos(elem), cpu.StateOf(mem), count, cpu.df, size);
      how := ElementLoop(cpu, mem, Stos(elem), count, size, r);
    }
  }

  /** REP MOVS with something to do; ranges that overlap are copied element by element. */
  method MovsRep(cpu: Cpu, mem: GuestMemory, size: OpSize, span: bool, ghost r: Runner) returns (how: Ending)
    requires r == RunnerOf(Movs, cpu.df, size) && cpu.rcx > 0 && (!cpu.df ==> TopFree(mem.bytes))
    modifies cpu, mem
    ensures EndsAt(Leaves(r, old(cpu.StateOf(mem)), Batch(old(cpu.rcx))), cpu.StateOf(mem), old(cpu.rcx), cpu.rcx, how)
    ensures cpu.rax == old(cpu.rax) && cpu.df == old(cpu.df)
  {
    var count := if cpu.rcx < REP_BULK_MAX then cpu.rcx else REP_BULK_MAX;
    var byteLen := ByteLen(count, size);
    var srcLo, dstLo := LowEnd(cpu.rsi, count, cpu.df, size), LowEnd(cpu.rdi, count, cpu.df, size);
    var overlap := RangesOverlap(srcLo, dstLo, byteLen);
    if count > 1 && !overlap && byteLen >= REP_HOST_BULK_MIN_BYTES && span
       && Mapped(mem.bytes, srcLo, byteLen) && Mapped(mem.bytes, dstLo, byteLen) {
      SpanIsByteLen(count, size);
      OverlapTest(srcLo, dstLo, count, size);
      Bulk(cpu, mem, Movs, count, size, r);
      how := Done;
    } else if !cpu.df && count > 1 && !overlap {
      if Ready(Movs, cpu.StateOf(mem), size) { OverlapKnown(cpu.StateOf(mem), count, size); }
      how := ChunkLoop(cpu, mem, Movs, count, size, r);
    } else {
      NothingMissed(Movs, cpu.StateOf(mem), count, cpu.df, size);
      how := ElementLoop(cpu, mem, Movs, count, size, r);
    }
  }

  /** A single MOVS or STOS. */
  method Once(cpu: Cpu, mem: GuestMemory, op: StringOp, size: OpSize) returns (stay: Option<bool>)
    requires op.Fits(size)
    modifies cpu, mem
    ensures var e := Ran(RunnerOf(op, cpu.df, size), old(cpu.StateOf(mem)), 1);
            cpu.StateOf(mem) == e.state && stay == if e.how == Done then Some(false) else None
    ensures cpu.rcx == old(cpu.rcx) && cpu.rax == old(cpu.rax) && cpu.df == old(cpu.df)
  {
    if !Ready(op, cpu.StateOf(mem), size) { return None; }
    StoreElement(cpu, mem, op, size);
    if op.Movs? { cpu.rsi := Stepped(cpu.rsi, cpu.df, size); }
    cpu.rdi := Stepped(cpu.rdi, cpu.df, size);
    stay := Some(false);
  }

  /** One step has run from `rcx` elements and `s` to what the batch leaves. */
  ghost predicate OneStep(r: Runner, s: State, rcx: u64, t: State, left: u64, stay: Option<bool>) {
    var e := Leaves(r, s, Batch(rcx));
    t == e.state && left == rcx - e.used && stay == if rcx == 0 then Some(false) else Stays(e.how)
  }

  function Pattern(rax: u64, size: OpSize): StringOp { Stos(LE(Mask(rax, size), size)) }

  /** `string_stos`. `span` says whether a host span is to be had where one can be. */
  method StringStos(cpu: Cpu, mem: GuestMemory, size: OpSize, rep: bool, span: bool) returns (stay: Option<bool>)
    requires !cpu.df ==> TopFree(mem.bytes)
    modifies cpu, mem
    ensures var r, s := RunnerOf(Pattern(cpu.rax, size), cpu.df, size), old(cpu.StateOf(mem));
            if rep then OneStep(r, s, old(cpu.rcx), cpu.StateOf(mem), cpu.rcx, stay)
            else cpu.StateOf(mem) == Ran(r, s, 1).state && cpu.rcx == old(cpu.rcx)
                 && stay == if Ran(r, s, 1).how == Done then Some(false) else None
    ensures !rep && stay.Some? ==> Stamped(old(mem.bytes), mem.bytes, old(cpu.rdi), 1, cpu.rax, cpu.df, size)
    ensures cpu.rax == old(cpu.rax) && cpu.df == old(cpu.df)
  {
    if rep && cpu.rcx == 0 { return Some(false); }
    var op := Pattern(cpu.rax, size);
    if rep {
      var how := StosRep(cpu, mem, op.elem, size, span, RunnerOf(op, cpu.df, size));
      stay := Stays(how);
    } else {
      ghost var s := cpu.StateOf(mem);
      stay := Once(cpu, mem, op, size);
      if stay.Some? { StosStamps(s, 1, cpu.rax, cpu.df, size); }
    }
  }

  /** `string_movs`. */
  method StringMovs(cpu: Cpu, mem: GuestMemory, size: OpSize, rep: bool, span: bool) returns (stay: Option<bool>)
    requires !cpu.df ==> TopFree(mem.bytes)
    modifies cpu, mem
    ensures var r, s := RunnerOf(Movs, cpu.df, size), old(cpu.StateOf(mem));
            if rep then OneStep(r, s, old(cpu.rcx), cpu.StateOf(mem), cpu.rcx, stay)
            else cpu.StateOf(mem) == Ran(r, s, 1).state && cpu.rcx == old(cpu.rcx)
                 && stay == if Ran(r, s, 1).how == Done then Some(false) else None
    ensures !rep && stay.Some? ==> Copied(old(mem.bytes), mem.bytes, old(cpu.StateOf(mem)), 1, cpu.df, size)
    ensures cpu.rax == old(cpu.rax) && cpu.df == old(cpu.df)
  {
    if rep && cpu.rcx == 0 { return Some(false); }
    if rep {
      var how := MovsRep(cpu, mem, size, span, RunnerOf(Movs, cpu.df, size));
      stay := Stays(how);
    } else {
      if Ready(Movs, cpu.StateOf(mem), size) { OneCopied(cpu.StateOf(mem), cpu.df, size); }
      stay := Once(cpu, mem, Movs, size);
    }
  }

  // ---- stepping the instructions -------------------------------------------------------

  /** Steps a stay-on-instruction protocol takes from `rcx`, the last one finding RCX = 0. */
  function StepsFor(rcx: u64): nat {
    if rcx == 0 then 1 else 1 + StepsFor(rcx - Batch(rcx))
  }

  /** One step for every 2^20 elements or part of them, and one that finds nothing left. */
  lemma {:induction false} StepsForIs(rcx: u64)
    ensures StepsFor(rcx) == (rcx + 0xf_ffff) / 0x10_0000 + 1
    decreases rcx
  {
    if rcx > 0 {
      StepsForIs(rcx - Batch(rcx));
    }
  }

  /** A step, and what is left to do, make up the whole. */
  lemma StepLeaves(op: StringOp, s: State, n: u64, df: bool, size: OpSize)
    requires !df ==> TopFree(s.mem)
    ensures var r := RunnerOf(op, df, size);
            var e := Leaves(r, s, Batch(n));
            && Leaves(r, s, n) == (if e.how == Done then Further(Leaves(r, e.state, n - Batch(n)), Batch(n)) else e)
            && e.state.mem.Keys == s.mem.Keys
            && (e.how == Done ==> e.used == Batch(n)) && (e.how != Done ==> e.used < Batch(n))
  {
    var r := RunnerOf(op, df, size);
    var e := Leaves(r, s, Batch(n));
    RanEnds(r, s, Batch(n));
    LeavesKeys(op, s, Batch(n), df, size);
    if n >= REP_BULK_MAX {
      BatchesResume(op, s, n - REP_BULK_MAX, df, size);
    } else {
      assert Leaves(r, e.state, 0) == RunEnd(e.state, 0, Done);
    }
  }

  lemma LeavesKeys(op: StringOp, s: State, n: nat, df: bool, size: OpSize)
    ensures Leaves(RunnerOf(op, df, size), s, n).state.mem.Keys == s.mem.Keys
  {
    var r := RunnerOf(op, df, size);
    var a := Ran(r, s, n);
    RanKeys(op, s, n, df, size);
    if Misses(r, s, n, a) {
      var t := Ran(r, s, ChunkStart(a.used, r.chunk)).state;
      RanKeys(op, s, ChunkStart(a.used, r.chunk), df, size);
      OverwriteKeys(t.mem, t.rdi, Data(op, t, size));
    }
  }

  /** How stepping an instruction ended: RIP left it with RCX zero or not, or it faulted. */
  function Ended(stay: Option<bool>, rcx: u64): Ending {
    if stay.None? then Fault else if rcx == 0 then Done else Lost
  }

  /** Every byte of the `n` elements from `a` on holds its byte of RAX, and every other byte is what it was. */
  ghost predicate Stamped(m: Mem, m': Mem, a: int, n: nat, rax: u64, df: bool, size: OpSize) {
    && m'.Keys == m.Keys
    && forall x :: x in m ==> m'[x] == if InRun(x, a, n, df, size) then ByteOf(rax, (x - a) % size) else m[x]
  }

  lemma FilledIsStamped(m: Mem, m': Mem, a: u64, n: nat, rax: u64, df: bool, size: OpSize)
    requires Filled(m, m', a, n, Pattern(rax, size).elem, df)
    ensures Stamped(m, m', a, n, rax, df, size)
  {
    PatternBytes(m, a, rax, size);
  }

  /** What a run of STOS that was done leaves in memory and in RDI. */
  lemma StosStamps(s: State, n: nat, rax: u64, df: bool, size: OpSize)
    requires Ran(RunnerOf(Pattern(rax, size), df, size), s, n).how == Done
    ensures var e := Ran(RunnerOf(Pattern(rax, size), df, size), s, n);
            e.used == n && Stamped(s.mem, e.state.mem, s.rdi, n, rax, df, size)
            && e.state.rdi == Onward(s.rdi, n, df, size) && e.state.rsi == s.rsi
  {
    var op := Pattern(rax, size);
    RanEnds(RunnerOf(op, df, size), s, n);
    RanFills(op.elem, s, n, df, size);
    RanLands(op, s, n, df, size);
    FilledIsStamped(s.mem, Ran(RunnerOf(op, df, size), s, n).state.mem, s.rdi, n, rax, df, size);
  }

  lemma PatternBytes(m: Mem, a: u64, rax: u64, size: OpSize)
    ensures forall x :: x in m ==> Pattern(rax, size).elem[(x - a) % size] == ByteOf(rax, (x - a) % size)
  {
    forall x | x in m ensures Pattern(rax, size).elem[(x - a) % size] == ByteOf(rax, (x - a) % size) {
      MaskedByte(rax, size, (x - a) % size);
    }
  }

  /** The same for MOVS, when no byte is both read and written. */
  lemma MovsCopies(s: State, n: nat, df: bool, size: OpSize)
    requires Ran(RunnerOf(Movs, df, size), s, n).how == Done && NoneShared(s, n, df, size)
    ensures var e := Ran(RunnerOf(Movs, df, size), s, n);
            e.used == n && Copied(s.mem, e.state.mem, s, n, df, size)
            && e.state.rdi == Onward(s.rdi, n, df, size) && e.state.rsi == Onward(s.rsi, n, df, size)
  {
    RanEnds(RunnerOf(Movs, df, size), s, n);
    RanCopies(s, n, df, size);
    RanLands(Movs, s, n, df, size);
  }

  lemma StosDone(s: State, t: State, n: nat, left: int, rax: u64, df: bool, size: OpSize)
    requires EndsAt(Leaves(RunnerOf(Pattern(rax, size), df, size), s, n), t, n, left, Done)
    ensures Stamped(s.mem, t.mem, s.rdi, n, rax, df, size)
    ensures t.rdi == Onward(s.rdi, n, df, size) && t.rsi == s.rsi && left == 0
  {
    StosStamps(s, n, rax, df, size);
  }

  lemma MovsDone(s: State, t: State, n: nat, left: int, df: bool, size: OpSize)
    requires EndsAt(Leaves(RunnerOf(Movs, df, size), s, n), t, n, left, Done) && NoneShared(s, n, df, size)
    ensures Copied(s.mem, t.mem, s, n, df, size)
    ensures t.rdi == Onward(s.rdi, n, df, size) && t.rsi == Onward(s.rsi, n, df, size) && left == 0
  {
    MovsCopies(s, n, df, size);
  }

  /** Stepping REP STOS until RIP leaves it or it faults, on memory mapped anyhow, whatever paths the
      steps took. */
  method RunRepStos(cpu: Cpu, mem: GuestMemory, size: OpSize) returns (steps: nat, how: Ending)
    requires !cpu.df ==> TopFree(mem.bytes)
    modifies cpu, mem
    ensures var r := RunnerOf(Pattern(cpu.rax, size), cpu.df, size);
            EndsAt(Leaves(r, old(cpu.StateOf(mem)), old(cpu.rcx)), cpu.StateOf(mem), old(cpu.rcx), cpu.rcx, how)
    ensures how == Done ==>
              && Stamped(old(mem.bytes), mem.bytes, old(cpu.rdi), old(cpu.rcx), cpu.rax, cpu.df, size)
              && cpu.rdi == Onward(old(cpu.rdi), old(cpu.rcx), cpu.df, size) && cpu.rsi == old(cpu.rsi) && cpu.rcx == 0
    ensures how == Done ==> steps == StepsFor(old(cpu.rcx))
    ensures cpu.rax == old(cpu.rax) && cpu.df == old(cpu.df)
    decreases cpu.rcx
  {
    ghost var s, n := cpu.StateOf(mem), cpu.rcx;
    var span: bool := *;
    StepLeaves(Pattern(cpu.rax, size), cpu.StateOf(mem), cpu.rcx, cpu.df, size);
    var stay := StringStos(cpu, mem, size, true, span);
    var rest := 0;
    how := Ended(stay, cpu.rcx);
    if stay == Some(true) { rest, how := RunRepStos(cpu, mem, size); }
    if how == Done { StosDone(s, cpu.StateOf(mem), n, cpu.rcx, cpu.rax, cpu.df, size); }
    steps := 1 + rest;
  }

  /** Stepping REP MOVS, ranges that overlap included. */
  method RunRepMovs(cpu: Cpu, mem: GuestMemory, size: OpSize) returns (steps: nat, how: Ending)
    requires !cpu.df ==> TopFree(mem.bytes)
    modifies cpu, mem
    ensures var r := RunnerOf(Movs, cpu.df, size);
            EndsAt(Leaves(r, old(cpu.StateOf(mem)), old(cpu.rcx)), cpu.StateOf(mem), old(cpu.rcx), cpu.rcx, how)
    ensures var s := old(cpu.StateOf(mem));
            how == Done && NoneShared(s, old(cpu.rcx), cpu.df, size) ==>
              && Copied(old(mem.bytes), mem.bytes, s, old(cpu.rcx), cpu.df, size) && cpu.rcx == 0
              && cpu.rdi == Onward(s.rdi, old(cpu.rcx), cpu.df, size) && cpu.rsi == Onward(s.rsi, old(cpu.rcx), cpu.df, size)
    ensures how == Done ==> steps == StepsFor(old(cpu.rcx))
    ensures cpu.rax == old(cpu.rax) && cpu.df == old(cpu.df)
    decreases cpu.rcx
  {
    ghost var s, n := cpu.StateOf(mem), cpu.rcx;
    var span: bool := *;
    StepLeaves(Movs, cpu.StateOf(mem), cpu.rcx, cpu.df, size);
    var stay := StringMovs(cpu, mem, size, true, span);
    var rest := 0;
    how := Ended(stay, cpu.rcx);
    if stay == Some(true) { rest, how := RunRepMovs(cpu, mem, size); }
    if how == Done && NoneShared(s, n, cpu.df, size) { MovsDone(s, cpu.StateOf(mem), n, cpu.rcx, cpu.df, size); }
    steps := 1 + rest;
  }
}
