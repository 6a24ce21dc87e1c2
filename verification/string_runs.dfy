/** Repeated MOVS and STOS over memory that may run out: the architecture's run, and what the
    interpreter makes of it. */
module StringRuns {
  import opened Words
  import opened Memory
  import opened Alu
  import opened StringBlocks
  import Bits

  /** Elements handled by one step at most. */
  const REP_BULK_MAX: u64 := 0x10_0000
  const CHUNK_BYTES: int := 4096

  /** STOS stores the same element everywhere. */
  datatype StringOp = Stos(elem: Bytes) | Movs {
    predicate Fits(size: nat) { Stos? ==> |elem| == size }
  }

  /** What an element works on. */
  datatype State = State(mem: Mem, rsi: u64, rdi: u64)

  /** The next `len` bytes can be accessed. */
  predicate Ready(op: StringOp, s: State, len: nat) {
    Mapped(s.mem, s.rdi, len) && (op.Movs? ==> Mapped(s.mem, s.rsi, len))
  }

  function Data(op: StringOp, s: State, size: nat): Bytes {
    match op case Stos(elem) => elem case Movs => Slice(s.mem, s.rsi, size)
  }

  /** The element is stored, the pointers are where they were. */
  function Stored(op: StringOp, s: State, size: nat): State {
    s.(mem := Overwrite(s.mem, s.rdi, Data(op, s, size)))
  }

  function Next(op: StringOp, s: State, df: bool, size: OpSize): State {
    State(Stored(op, s, size).mem, if op.Movs? then Stepped(s.rsi, df, size) else s.rsi, Stepped(s.rdi, df, size))
  }

  // ---- the architecture's run ----------------------------------------------------------

  /** How a run ends: no elements are left, one cannot be accessed, or it is given up with elements left. */
  datatype Ending = Done | Fault | Lost

  /** Where a run ends, how many elements it went past, and why. */
  datatype RunEnd = RunEnd(state: State, used: nat, how: Ending)

  /** How elements are done: which can be, what one leaves in memory and where it goes; and for the code
      whether it does a batch by chunks, and how many elements are in one. */
  datatype Runner = Runner(
    ready: State -> bool, stored: State -> State, next: State -> State, chunked: (State, nat) -> bool, chunk: Pos)

  type Pos = x: int | x > 0 witness 1

  /** Elements in one chunk of 4096 bytes. */
  function ChunkElems(size: OpSize): Pos {
    match size case 1 => 4096 case 2 => 2048 case 4 => 1024 case _ => 512
  }

  /** Chunks are for going forward, and REP MOVS does so only on ranges that do not overlap. */
  predicate Chunked(op: StringOp, s: State, n: nat, df: bool, size: OpSize) {
    !df && (op.Movs? ==> Disjoint(s.rsi, s.rdi, Span(n, size)))
  }

  function RunnerOf(op: StringOp, df: bool, size: OpSize): Runner {
    Runner(s => Ready(op, s, size), s => Stored(op, s, size), s => Next(op, s, df, size),
           (s: State, n: nat) => Chunked(op, s, n, df, size), ChunkElems(size))
  }

  /** The architecture: element after element, and a fault at the first that cannot be accessed. */
  function Ran(r: Runner, s: State, n: nat): RunEnd
    decreases n, s
  {
    if n == 0 then RunEnd(s, 0, Done)
    else if !r.ready(s) then RunEnd(s, 0, Fault)
    else
      var e := Ran(r, r.next(s), n - 1);
      e.(used := e.used + 1)
  }

  lemma {:induction false} RanEnds(r: Runner, s: State, n: nat)
    ensures var e := Ran(r, s, n);
            && e.used <= n && e.how != Lost && (e.how == Done ==> e.used == n)
            && (e.how == Fault ==> e.used < n && !r.ready(e.state))
    decreases n
  {
    if n > 0 && r.ready(s) { RanEnds(r, r.next(s), n - 1); }
  }

  function Further(e: RunEnd, b: nat): RunEnd { e.(used := e.used + b) }

  /** Cutting a run anywhere and resuming it changes nothing. */
  lemma {:induction false} RanResumes(r: Runner, s: State, n: nat, b: nat)
    requires b <= n
    ensures var e := Ran(r, s, b);
            Ran(r, s, n) == if e.how == Done then Further(Ran(r, e.state, n - b), b) else e
    decreases b
  {
    if b > 0 && r.ready(s) { RanResumes(r, r.next(s), n - 1, b - 1); }
  }

  /** A run that ended, seen from any point before its end. */
  lemma {:induction false} RanThrough(r: Runner, s: State, n: nat, b: nat)
    requires b <= Ran(r, s, n).used
    ensures Ran(r, s, b).how == Done && Ran(r, s, b).used == b <= n
    decreases b
  {
    RanEnds(r, s, n);
    if b > 0 { RanThrough(r, r.next(s), n - 1, b - 1); }
  }

  // ---- what the interpreter makes of it --------------------------------------------------

  /** Elements in the batch, of `n` all told, that the element `used` falls into. */
  function LastBatch(used: nat, n: nat): nat
    requires used <= n
  {
    Min(REP_BULK_MAX, n - (used - used % REP_BULK_MAX))
  }

  /** Elements in front of the chunk that the element `used` falls into. */
  function ChunkStart(used: nat, c: Pos): (k: nat)
    ensures k <= used < k + c
    decreases used
  {
    if used < c then 0 else c + ChunkStart(used - c, c)
  }

  lemma {:induction false} ChunkStartIs(used: nat, c: Pos)
    ensures ChunkStart(used, c) == used - used % c
    decreases used
  {
    if used < c {
      ModSmall(used, c);
    } else {
      ChunkStartIs(used - c, c);
      ModStep(used - c, c);
    }
  }

  lemma ModSmall(x: nat, c: Pos)
    requires x < c
    ensures x % c == x
  {
    Bits.ModUnique(x, c, 0, x);
  }

  lemma ModStep(x: nat, c: Pos)
    ensures (x + c) % c == x % c
  {
    var q, r := x / c, x % c;
    assert c * (q + 1) == c * q + c;
    Bits.ModUnique(x + c, c, q + 1, r);
  }

  /** Whole chunks in front. */
  lemma {:induction false} ChunksInFront(b: nat, used: nat, c: Pos)
    requires ChunkStart(b, c) == b
    ensures ChunkStart(b + used, c) == b + ChunkStart(used, c)
    decreases b
  {
    if b >= c { ChunksInFront(b - c, used, c); }
  }

  /** The architecture's run faults and the code misses it: it does the batch by chunks, and the element
      is not the first of its chunk. */
  predicate Misses(r: Runner, s: State, n: nat, a: RunEnd) {
    a.how == Fault && a.used <= n && ChunkStart(a.used, r.chunk) < a.used && r.chunked(s, LastBatch(a.used, n))
  }

  /** What a run leaves behind. A missed fault leaves the first element of the chunk stored, and it and
      all that follow still to be done. */
  function Leaves(r: Runner, s: State, n: nat): RunEnd {
    var a := Ran(r, s, n);
    if Misses(r, s, n, a) then
      var k := ChunkStart(a.used, r.chunk);
      RunEnd(r.stored(Ran(r, s, k).state), k, Lost)
    else a
  }

  /** A fault `u` elements into the chunk that starts after `done`. */
  lemma MissedAt(r: Runner, s: State, n: nat, done: nat, t: State, u: nat)
    requires n <= REP_BULK_MAX && ChunkStart(done, r.chunk) == done && 0 < u < r.chunk && done + u < n && r.chunked(s, n)
    requires Ran(r, s, done) == RunEnd(t, done, Done)
    requires Ran(r, s, n).how == Fault && Ran(r, s, n).used == done + u
    ensures Leaves(r, s, n) == RunEnd(r.stored(t), done, Lost)
  {
    ChunksInFront(done, u, r.chunk);
    OneBatch(done + u, n);
  }

  lemma OneBatch(used: nat, n: nat)
    requires used < n <= REP_BULK_MAX
    ensures LastBatch(used, n) == n
  {
  }

  lemma BatchFurther(used: nat, n: nat, c: Pos)
    requires ChunkStart(REP_BULK_MAX, c) == REP_BULK_MAX && used <= n
    ensures ChunkStart(REP_BULK_MAX + used, c) == REP_BULK_MAX + ChunkStart(used, c)
    ensures LastBatch(REP_BULK_MAX + used, REP_BULK_MAX + n) == LastBatch(used, n)
  {
    ChunksInFront(REP_BULK_MAX, used, c);
  }

  /** What is left after a batch leaves what the whole does. */
  lemma RestLeaves(r: Runner, s: State, n: nat, t: State)
    requires ChunkStart(REP_BULK_MAX, r.chunk) == REP_BULK_MAX && forall k :: r.chunked(t, k) == r.chunked(s, k)
    requires Ran(r, s, REP_BULK_MAX) == RunEnd(t, REP_BULK_MAX, Done)
    ensures Leaves(r, s, REP_BULK_MAX + n) == Further(Leaves(r, t, n), REP_BULK_MAX)
  {
    var b, z := REP_BULK_MAX, Ran(r, t, n);
    RanResumes(r, s, b + n, b);
    RanEnds(r, t, n);
    BatchFurther(z.used, n, r.chunk);
    RanResumes(r, s, b + ChunkStart(z.used, r.chunk), b);
  }

  /** A batch that faults, or misses a fault, ends the run. */
  lemma BatchLeaves(r: Runner, s: State, n: nat)
    requires Ran(r, s, REP_BULK_MAX).how == Fault
    ensures Leaves(r, s, REP_BULK_MAX + n) == Leaves(r, s, REP_BULK_MAX) && Leaves(r, s, REP_BULK_MAX).how != Done
  {
    var b := REP_BULK_MAX;
    RanEnds(r, s, b);
    RanResumes(r, s, b + n, b);
    assert LastBatch(Ran(r, s, b).used, b + n) == b;
    OneBatch(Ran(r, s, b).used, b);
  }

  /** Where the 2^20 limit cuts a run does not matter. */
  lemma LeavesResumes(r: Runner, s: State, n: nat)
    requires ChunkStart(REP_BULK_MAX, r.chunk) == REP_BULK_MAX
    requires var t := Ran(r, s, REP_BULK_MAX).state; forall k :: r.chunked(t, k) == r.chunked(s, k)
    ensures var e := Leaves(r, s, REP_BULK_MAX);
            Leaves(r, s, REP_BULK_MAX + n) == if e.how == Done then Further(Leaves(r, e.state, n), REP_BULK_MAX) else e
  {
    var a := Ran(r, s, REP_BULK_MAX);
    RanEnds(r, s, REP_BULK_MAX);
    if a.how == Done { RestLeaves(r, s, n, a.state); } else { BatchLeaves(r, s, n); }
  }

  // ---- memory --------------------------------------------------------------------------

  lemma {:induction false} RanKeys(op: StringOp, s: State, n: nat, df: bool, size: OpSize)
    ensures Ran(RunnerOf(op, df, size), s, n).state.mem.Keys == s.mem.Keys
    decreases n
  {
    if n > 0 && Ready(op, s, size) {
      OverwriteKeys(s.mem, s.rdi, Data(op, s, size));
      RanKeys(op, Next(op, s, df, size), n - 1, df, size);
    }
  }

  // ---- a run as one block --------------------------------------------------------------

  /** The whole run can be accessed and does not wrap. */
  ghost predicate BlockOk(op: StringOp, s: State, n: nat, df: bool, size: OpSize) {
    RunOk(s.mem, s.rdi, n, df, size) && (op.Movs? ==> RunOk(s.mem, s.rsi, n, df, size))
  }

  /** The elements, one after the other. */
  function Elems(op: StringOp, s: State, n: nat, df: bool, size: nat): Mem {
    match op
    case Stos(elem) => StosElems(s.mem, s.rdi, n, elem, df)
    case Movs => MovsElems(s.mem, s.rsi, s.rdi, n, df, size)
  }

  /** A pointer one element on: it has not wrapped while elements are left. */
  lemma PointerOn(m: Mem, m': Mem, a: u64, n: nat, df: bool, size: OpSize)
    requires n > 0 && RunOk(m, a, n, df, size) && m'.Keys == m.Keys
    ensures var p := Stepped(a, df, size);
            && Mapped(m, a, size) && RunOk(m', p, n - 1, df, size) && (n > 1 ==> p == At(a, 1, df, size))
            && Wrap64(At(p, n - 1, df, size)) == Wrap64(At(a, n, df, size))
  {
    PointerStep(m, a, n, 0, df, size);
    RunInside(m, a, n, 0, df, size);
    RunRest(m, a, n, 1, df, size);
    AtAt(a, 0, 0, df, size);
    AtAt(a, 1, n - 1, df, size);
    if n > 1 {
      RunInside(m, a, n, 1, df, size);
      RunKeys(m, m', At(a, 1, df, size), n - 1, df, size);
    } else {
      AtAt(Stepped(a, df, size), 0, 0, df, size);
    }
  }

  /** A run that can be accessed as a whole is done as a whole. */
  lemma {:induction false} BlockRuns(op: StringOp, s: State, n: nat, df: bool, size: OpSize)
    requires BlockOk(op, s, n, df, size) && op.Fits(size)
    ensures var e := Ran(RunnerOf(op, df, size), s, n);
            && e.how == Done && e.used == n && e.state.mem == Elems(op, s, n, df, size)
            && e.state.rdi == Wrap64(At(s.rdi, n, df, size))
            && e.state.rsi == if op.Movs? then Wrap64(At(s.rsi, n, df, size)) else s.rsi
    decreases n
  {
    if n == 0 {
      AtAt(s.rdi, 0, 0, df, size);
      AtAt(s.rsi, 0, 0, df, size);
    } else {
      var t := Next(op, s, df, size);
      OverwriteKeys(s.mem, s.rdi, Data(op, s, size));
      PointerOn(s.mem, t.mem, s.rdi, n, df, size);
      if op.Movs? { PointerOn(s.mem, t.mem, s.rsi, n, df, size); }
      BlockRuns(op, t, n - 1, df, size);
      match op
      case Stos(elem) => StosOn(s.mem, s.rdi, t.rdi, n, elem, df);
      case Movs => MovsOn(s.mem, s.rsi, s.rdi, t.rsi, t.rdi, n, df, size);
    }
  }

  /** The elements after the first one, wherever the pointers go when there are none. */
  lemma StosOn(m: Mem, rdi: int, d: int, n: nat, elem: Bytes, df: bool)
    requires n > 0 && (n > 1 ==> d == At(rdi, 1, df, |elem|))
    ensures StosElems(Overwrite(m, rdi, elem), d, n - 1, elem, df) == StosElems(m, rdi, n, elem, df)
  {
  }

  lemma MovsOn(m: Mem, rsi: int, rdi: int, s: int, d: int, n: nat, df: bool, size: nat)
    requires n > 0 && (n > 1 ==> s == At(rsi, 1, df, size) && d == At(rdi, 1, df, size))
    ensures MovsElems(Overwrite(m, rdi, Slice(m, rsi, size)), s, d, n - 1, df, size) == MovsElems(m, rsi, rdi, n, df, size)
  {
  }

  // ---- chunks --------------------------------------------------------------------------

  lemma ChunkSpan(size: OpSize)
    ensures Span(ChunkElems(size), size) == CHUNK_BYTES && ChunkStart(REP_BULK_MAX, ChunkElems(size)) == REP_BULK_MAX
  {
    SpanIsByteLen(ChunkElems(size), size);
    ChunkStartIs(REP_BULK_MAX, ChunkElems(size));
  }

  /** Nothing is mapped in the last eight MiB of the address space. */
  ghost predicate TopFree(m: Mem) {
    forall a :: a in m ==> a < TWO_64 - 0x80_0000
  }

  /** Forward pointers do not wrap. */
  lemma {:induction false} RanMoves(op: StringOp, s: State, n: nat, size: OpSize)
    requires TopFree(s.mem)
    ensures var e := Ran(RunnerOf(op, false, size), s, n);
            && e.state.rdi == s.rdi + Span(e.used, size)
            && e.state.rsi == s.rsi + if op.Movs? then Span(e.used, size) else 0
    decreases n
  {
    if n > 0 && Ready(op, s, size) {
      var t := Next(op, s, false, size);
      OverwriteKeys(s.mem, s.rdi, Data(op, s, size));
      assert s.rdi in s.mem && (op.Movs? ==> s.rsi in s.mem);
      RanMoves(op, t, n - 1, size);
    }
  }

  /** Elements that can be accessed one by one can be accessed together. */
  lemma {:induction false} AllReady(op: StringOp, s: State, k: nat, size: OpSize)
    requires TopFree(s.mem) && Ran(RunnerOf(op, false, size), s, k).how == Done
    ensures Ready(op, s, Span(k, size))
    decreases k
  {
    if k > 0 {
      var t := Next(op, s, false, size);
      OverwriteKeys(s.mem, s.rdi, Data(op, s, size));
      assert s.rdi in s.mem && (op.Movs? ==> s.rsi in s.mem);
      AllReady(op, t, k - 1, size);
      MappedJoin(s.mem, t.mem, s.rdi, size, Span(k - 1, size));
      if op.Movs? { MappedJoin(s.mem, t.mem, s.rsi, size, Span(k - 1, size)); }
    }
  }

  lemma MappedJoin(m: Mem, m': Mem, a: int, x: nat, y: nat)
    requires Mapped(m, a, x) && Mapped(m', a + x, y) && m'.Keys == m.Keys
    ensures Mapped(m, a, x + y)
  {
  }

  /** A chunk that cannot be accessed as a whole although its first element can. */
  lemma FaultsInside(op: StringOp, t: State, left: nat, k: nat, size: OpSize)
    requires TopFree(t.mem) && k <= left && Ready(op, t, size) && !Ready(op, t, Span(k, size))
    ensures var b := Ran(RunnerOf(op, false, size), t, left); b.how == Fault && 0 < b.used < k
  {
    var r := RunnerOf(op, false, size);
    if Ran(r, t, k).how == Done {
      AllReady(op, t, k, size);
      assert false;
    }
    RanEnds(r, t, k);
    RanResumes(r, t, left, k);
  }

  /** A chunk that cannot be accessed as a whole ends the run; `t` is where it starts. */
  lemma ChunkMisses(op: StringOp, s: State, n: nat, done: nat, t: State, size: OpSize)
    requires TopFree(s.mem) && done < n <= REP_BULK_MAX && ChunkStart(done, ChunkElems(size)) == done
    requires Ran(RunnerOf(op, false, size), s, done) == RunEnd(t, done, Done)
    requires !Ready(op, t, Span(Min(n - done, ChunkElems(size)), size))
    requires Chunked(op, s, n, false, size) || !Ready(op, s, size)
    ensures Leaves(RunnerOf(op, false, size), s, n) ==
              if Ready(op, t, size) then RunEnd(Stored(op, t, size), done, Lost) else RunEnd(t, done, Fault)
  {
    var r, k := RunnerOf(op, false, size), Min(n - done, ChunkElems(size));
    RanResumes(r, s, n, done);
    RanKeys(op, s, done, false, size);
    if Ready(op, t, size) {
      FaultsInside(op, t, n - done, k, size);
      assert done > 0 ==> Ready(op, s, size);
      MissedAt(r, s, n, done, t, Ran(r, t, n - done).used);
    }
  }

  // ---- the overlap test ----------------------------------------------------------------

  /** `ranges_overlap`, whose ends may wrap. */
  predicate RangesOverlap(a: u64, b: u64, len: u64) {
    if len == 0 then false
    else
      var aEnd, bEnd := WrapAdd(a, len - 1), WrapAdd(b, len - 1);
      a <= bEnd && b <= aEnd
  }

  /** It is exact on ranges that do not wrap. */
  lemma OverlapTest(a: u64, b: u64, n: nat, size: OpSize)
    requires 0 < n <= REP_BULK_MAX && a + Span(n, size) <= TWO_64 && b + Span(n, size) <= TWO_64
    ensures RangesOverlap(a, b, ByteLen(n, size)) <==> !Disjoint(a, b, Span(n, size))
  {
    SpanIsByteLen(n, size);
  }

  /** So it is wherever the first element can be accessed, since nothing is mapped near the top. */
  lemma OverlapKnown(s: State, n: nat, size: OpSize)
    requires TopFree(s.mem) && 0 < n <= REP_BULK_MAX && Ready(Movs, s, size)
    ensures RangesOverlap(s.rsi, s.rdi, ByteLen(n, size)) <==> !Disjoint(s.rsi, s.rdi, Span(n, size))
  {
    assert s.rdi in s.mem && s.rsi in s.mem;
    SpanIsByteLen(n, size);
    OverlapTest(s.rsi, s.rdi, n, size);
  }

  /** The element loop does what the architecture does, and it is what overlapping ranges get. */
  lemma NothingMissed(op: StringOp, s: State, n: nat, df: bool, size: OpSize)
    requires 0 < n <= REP_BULK_MAX && (!df ==> TopFree(s.mem))
    requires df || n == 1 || (op.Movs? && RangesOverlap(s.rsi, s.rdi, ByteLen(n, size)))
    ensures Leaves(RunnerOf(op, df, size), s, n) == Ran(RunnerOf(op, df, size), s, n)
  {
    var a := Ran(RunnerOf(op, df, size), s, n);
    RanEnds(RunnerOf(op, df, size), s, n);
    if !df && n > 1 && a.how == Fault && a.used > 0 {
      OverlapKnown(s, n, size);
      OneBatch(a.used, n);
    }
  }

  lemma SameDistance(op: StringOp, s: State, n: nat, df: bool, size: OpSize)
    requires !df ==> TopFree(s.mem)
    ensures var r := RunnerOf(op, df, size);
            var t := Ran(r, s, n).state;
            forall k :: r.chunked(t, k) == r.chunked(s, k)
  {
    if !df { RanMoves(op, s, n, size); }
  }

  /** Pointers keep their distance, so every batch of a run is done the same way. */
  lemma BatchesResume(op: StringOp, s: State, n: nat, df: bool, size: OpSize)
    requires !df ==> TopFree(s.mem)
    ensures var r := RunnerOf(op, df, size);
            var e := Leaves(r, s, REP_BULK_MAX);
            Leaves(r, s, REP_BULK_MAX + n) == if e.how == Done then Further(Leaves(r, e.state, n), REP_BULK_MAX) else e
  {
    ChunkSpan(size);
    SameDistance(op, s, REP_BULK_MAX, df, size);
    LeavesResumes(RunnerOf(op, df, size), s, n);
  }

  // ---- when it is not the architecture's -----------------------------------------------

  /** The code does what the architecture does if and only if it goes backward, or no element faults, or
      the one that does is the first of a chunk, or the ranges of a copy overlap. Otherwise it gives up,
      with elements left, at the first of the chunk. */
  lemma MissedExactly(op: StringOp, s: State, n: nat, df: bool, size: OpSize)
    ensures var a, e := Ran(RunnerOf(op, df, size), s, n), Leaves(RunnerOf(op, df, size), s, n);
            && a.used <= n
            && (e == a <==>
                || df || a.how == Done || a.used % ChunkElems(size) == 0
                || (op.Movs? && !Disjoint(s.rsi, s.rdi, Span(LastBatch(a.used, n), size))))
            && (e != a ==> e.how == Lost && e.used == a.used - a.used % ChunkElems(size) && e.used < a.used < n)
  {
    var a := Ran(RunnerOf(op, df, size), s, n);
    RanEnds(RunnerOf(op, df, size), s, n);
    ChunkStartIs(a.used, ChunkElems(size));
  }

  /** REP STOSB where the first byte can be written and the second cannot: the architecture stores one and
      faults at the second; the code stores one and goes on after the instruction, all bytes still to do. */
  lemma FaultForgotten(b: u8, s: State, n: nat)
    requires 1 < n && s.rdi in s.mem && s.rdi < MAX_U64 && s.rdi + 1 !in s.mem
    ensures var r, t := RunnerOf(Stos([b]), false, 1), Stored(Stos([b]), s, 1);
            && Ran(r, s, n) == RunEnd(t.(rdi := s.rdi + 1), 1, Fault)
            && Leaves(r, s, n) == RunEnd(t, 0, Lost)
  {
    var r, t := RunnerOf(Stos([b]), false, 1), Next(Stos([b]), s, false, 1);
    OverwriteKeys(s.mem, s.rdi, [b]);
    assert !Ready(Stos([b]), t, 1);
    assert Ran(r, t, n - 1) == RunEnd(t, 0, Fault);
    assert Ran(r, s, 0).state == s;
  }
}
