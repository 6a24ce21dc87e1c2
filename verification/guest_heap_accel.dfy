/** The in-guest HeapAlloc and HeapFree helpers, as algorithms over the shared control block,
    and the host handlers they fall back to. */
module GuestHeapAccel {
  import opened Words
  import opened HeapSpec
  import opened HeapWords
  import opened GuestHeapModel

  const HEAP_ZERO_MEMORY: u64 := 8

  predicate AsksForZero(flags: u64) {
    flags / HEAP_ZERO_MEMORY % 2 == 1
  }

  datatype AccelConfig = AccelConfig(ctrlVa: u64, heapBase: u64, heapEnd: u64, processHeapHandle: u64)

  /** The constants burned into the helpers are those of the heap they serve; the region ends
      far enough below the top of the address space for the unchecked bump arithmetic. */
  ghost predicate Serves(cfg: AccelConfig, heap: GuestHeap, engine: Engine)
    reads heap, engine
  {
    && heap.CoherentValid(engine) && heap.guestCtrlVa == Some(cfg.ctrlVa)
    && cfg.heapBase == heap.base && cfg.heapEnd == heap.end
    && cfg.heapEnd + LARGE_THRESHOLD + 24 < TWO_64
    && cfg.processHeapHandle != 0
  }

  /** `words` with the `len` bytes from `lo` cleared. */
  function ZeroWords(words: Memory, lo: u64, len: u64): Memory {
    map w | w in words :: if w < lo || w - lo >= len then words[w] else 0
  }

  lemma ZeroingRepr(h: Heap, ctrl: u64, words: Memory, a: u64)
    requires Inv(h) && Repr(h, ctrl, words) && a in h.live
    ensures Repr(h, ctrl, ZeroWords(words, a, h.sizes[a]))
  {
    var words' := ZeroWords(words, a, h.sizes[a]);
    Separation(h, ctrl, words);
    forall b | b in h.sizes && b != a
      ensures b - 8 < a || BlockEnd(h, a) <= b - 8
      ensures b < a || BlockEnd(h, a) <= b
    {
      if b < a { assert BlockEnd(h, b) + 8 <= a; }
      if a < b { assert BlockEnd(h, a) + 8 <= b; }
    }
    ChainsFrame(h, ctrl, words, words');
  }

  /** An allocation, its payload cleared if the caller asked for that. */
  function ZeroedAlloc(h: Heap, ctrl: u64, words: Memory, zero: bool, size: u64): (Heap, Memory, u64)
    requires |h.lists| == CLASS_COUNT
  {
    var (h', a) := Alloc(h, size);
    var words' := AllocWords(h, ctrl, words, size);
    (h', if a != 0 && zero then ZeroWords(words', a, RoundUp(size)) else words', a)
  }

  /** What the host handler does to heap, memory and RAX: an empty request gets a block too. */
  function HandlerAlloc(h: Heap, ctrl: u64, words: Memory, handle: u64, flags: u64, size: u64): (Heap, Memory, u64)
    requires |h.lists| == CLASS_COUNT
  {
    if handle == 0 then (h, words, 0)
    else ZeroedAlloc(h, ctrl, words, AsksForZero(flags), if size == 0 then 1 else size)
  }

  /** What the in-guest helper does: class-sized requests to the process heap are its own, whatever
      the flags; the others are the handler's. */
  function HelperAlloc(processHeap: u64, h: Heap, ctrl: u64, words: Memory, handle: u64, flags: u64, size: u64)
      : (Heap, Memory, u64)
    requires |h.lists| == CLASS_COUNT
  {
    if handle == processHeap && size <= LARGE_THRESHOLD then
      (Alloc(h, size).0, AllocWords(h, ctrl, words, size), Alloc(h, size).1)
    else HandlerAlloc(h, ctrl, words, handle, flags, size)
  }

  lemma ZeroedAllocRepr(h: Heap, ctrl: u64, words: Memory, zero: bool, size: u64)
    requires Inv(h) && Repr(h, ctrl, words) && !Splits(h, size)
    ensures var (h', words', _) := ZeroedAlloc(h, ctrl, words, zero, size); Inv(h') && Repr(h', ctrl, words')
  {
    AllocKeepsInv(h, size);
    AllocRepr(h, ctrl, words, size);
    AllocResult(h, size);
    var (h', a) := Alloc(h, size);
    if a != 0 { ZeroingRepr(h', ctrl, AllocWords(h, ctrl, words, size), a); }
  }

  method MemZero(engine: Engine, lo: u64, len: u64)
    modifies engine
    ensures engine.words == ZeroWords(old(engine.words), lo, len)
  {
    engine.words := ZeroWords(engine.words, lo, len);
  }

  /** `handle_heap_alloc`. */
  method HandleHeapAlloc(heap: GuestHeap, engine: Engine, handle: u64, flags: u64, size: u64) returns (rax: u64)
    requires heap.CoherentValid(engine)
    modifies heap`bump, heap`freeLists, heap`largeFree, heap`live, heap`heap, engine
    ensures (heap.heap, engine.words, rax) ==
              HandlerAlloc(old(heap.heap), heap.guestCtrlVa.value, old(engine.words), handle, flags, size)
    ensures rax != 0 ==> rax in heap.live
    ensures !old(Splits(heap.heap, if size == 0 then 1 else size)) ==> heap.CoherentValid(engine)
  {
    if handle == 0 { return 0; }
    var asked := if size == 0 then 1 else size;
    rax := AllocMaybeZero(heap, engine, AsksForZero(flags), asked);
  }

  method AllocMaybeZero(heap: GuestHeap, engine: Engine, zero: bool, size: u64) returns (rax: u64)
    requires heap.CoherentValid(engine)
    modifies heap`bump, heap`freeLists, heap`largeFree, heap`live, heap`heap, engine
    ensures (heap.heap, engine.words, rax) ==
              ZeroedAlloc(old(heap.heap), heap.guestCtrlVa.value, old(engine.words), zero, size)
    ensures rax != 0 ==> rax in heap.live
    ensures !old(Splits(heap.heap, size)) ==> heap.CoherentValid(engine)
  {
    ghost var h, words, ctrl := heap.heap, engine.words, heap.guestCtrlVa.value;
    rax := heap.AllocCoherent(engine, size);
    if rax != 0 && zero {
      var len := RoundUpSize(size);
      MemZero(engine, rax, len);
    }
    if !Splits(h, size) { ZeroedAllocRepr(h, ctrl, words, zero, size); }
  }

  /** The class table both helpers scan, first match wins. */
  method ScanClasses(size: u64) returns (k: nat)
    requires size <= LARGE_THRESHOLD
    ensures k == ClassIndex(size)
  {
    k := 0;
    while k < CLASS_COUNT - 1 && size > SizeClass(k)
      invariant k < CLASS_COUNT
      invariant forall j :: 0 <= j < k ==> SizeClass(j) < size
    {
      k := k + 1;
    }
    LeastClass(size, k);
  }

  /** The helper's list pop: reads the head, checks its range, unlinks it, writes its header. */
  method PopHelper(cfg: AccelConfig, heap: GuestHeap, engine: Engine, k: nat, rounded: u64) returns (r: Option<u64>)
    requires Serves(cfg, heap, engine) && k < CLASS_COUNT
    modifies engine
    ensures r.None? <==> heap.heap.lists[k] == []
    ensures r.None? ==> engine.words == old(engine.words)
    ensures r.Some? ==>
              var (h', a) := ReuseClass(heap.heap, k);
              && r.value == a && a != 0
              && engine.words == old(engine.words)[HeadVa(cfg.ctrlVa, k) := First(h'.lists[k])][WrapSub(a, 8) := rounded]
  {
    ghost var list := heap.heap.lists[k];
    var hva := HeadVa(cfg.ctrlVa, k);
    var head := engine.words[hva];
    assert IsChain(engine.words, head, list);
    if list != [] {
      assert list[0] in heap.heap.sizes;
      ChainTail(engine.words, head, list);
    }
    if head == 0 || head < cfg.heapBase || head >= cfg.heapEnd { return None; }
    var next := engine.words[head];
    engine.words := engine.words[hva := next];
    engine.words := engine.words[WrapSub(head, 8) := rounded];
    return Some(head);
  }

  /** The helper's bump path; it has no overflow checks of its own. */
  method BumpHelper(cfg: AccelConfig, heap: GuestHeap, engine: Engine, rounded: u64) returns (r: Option<u64>)
    requires Serves(cfg, heap, engine) && 0 < rounded <= LARGE_THRESHOLD && rounded % 16 == 0
    modifies engine
    ensures r == if Carve(heap.heap, rounded).1 == 0 then None else Some(Carve(heap.heap, rounded).1)
    ensures engine.words == if r.None? then old(engine.words)
              else old(engine.words)[WrapSub(r.value, 8) := rounded][cfg.ctrlVa := Carve(heap.heap, rounded).0.bump]
  {
    ghost var h := heap.heap;
    var cursor := engine.words[cfg.ctrlVa];
    var t := WrapAdd(WrapAdd(cursor, 8), 15);
    var payload := t - t % 16;
    var stop := WrapAdd(payload, rounded);
    if stop > cfg.heapEnd { return None; }
    PayloadPlace(h.base, h.end, h.bump, rounded);
    CarvePlacement(h, rounded);
    Separation(Carve(h, rounded).0, cfg.ctrlVa, engine.words);
    engine.words := engine.words[cfg.ctrlVa := stop];
    engine.words := engine.words[WrapSub(payload, 8) := rounded];
    return Some(payload);
  }

  /** The in-guest HeapAlloc. For every class-sized request it performs the host's coherent
      allocation to the word; other requests reach the host handler. */
  method HeapAllocHelper(cfg: AccelConfig, heap: GuestHeap, engine: Engine, handle: u64, flags: u64, size: u64)
      returns (rax: u64)
    requires Serves(cfg, heap, engine)
    modifies heap`bump, heap`freeLists, heap`largeFree, heap`live, heap`heap, engine
    ensures (heap.heap, engine.words, rax) ==
              HelperAlloc(cfg.processHeapHandle, old(heap.heap), cfg.ctrlVa, old(engine.words), handle, flags, size)
    ensures handle == cfg.processHeapHandle && !old(Splits(heap.heap, size)) ==> heap.CoherentValid(engine)
  {
    if handle != cfg.processHeapHandle || size > LARGE_THRESHOLD {
      rax := HandleHeapAlloc(heap, engine, handle, flags, size);
      return;
    }
    if size == 0 { return 0; }
    ghost var h, words := heap.heap, engine.words;
    var k := ScanClasses(size);
    var rounded := SizeClass(k);
    RoundUpIsClass(size);
    ClassFacts(k);
    ClassBounds(k);
    var head := PopHelper(cfg, heap, engine, k, rounded);
    if head.Some? {
      rax := head.value;
      heap.heap := ReuseClass(h, k).0;
    } else {
      var carved := BumpHelper(cfg, heap, engine, rounded);
      if carved.None? {
        rax := HandleHeapAlloc(heap, engine, handle, flags, size);
        return;
      }
      rax := carved.value;
      heap.heap := Carve(h, rounded).0;
    }
    ClassAllocKeeps(h, cfg.ctrlVa, words, size, heap.live);
  }

  /** An allocation the host does not record leaves its books consistent. */
  lemma ClassAllocKeeps(h: Heap, ctrl: u64, words: Memory, size: u64, live: map<u64, u64>)
    requires Inv(h) && Repr(h, ctrl, words) && size <= LARGE_THRESHOLD && SizesAgree(h, live)
    ensures var h' := Alloc(h, size).0;
            && Inv(h') && Repr(h', ctrl, AllocWords(h, ctrl, words, size)) && SizesAgree(h', live)
            && h'.large == h.large && h'.base == h.base && h'.end == h.end
  {
    RoundUpFits(size);
    AllocKeepsInv(h, size);
    AllocRepr(h, ctrl, words, size);
    if BumpFits(h.base, h.end, h.bump, RoundUp(size)) { CarvePlacement(h, RoundUp(size)); }
  }

  /** `handle_heap_free`: null is a successful no-op. */
  method HandleHeapFree(heap: GuestHeap, engine: Engine, mem: u64) returns (rax: u64)
    requires heap.CoherentValid(engine) && heap.Freeable(mem)
    modifies heap`freeLists, heap`largeFree, heap`live, heap`heap, engine
    ensures heap.heap == Free(old(heap.heap), mem).0
    ensures !old(heap.Stale(mem)) ==>
              && rax == (if mem == 0 || Free(old(heap.heap), mem).1 then 1 else 0)
              && engine.words == FreeWords(old(heap.heap), heap.guestCtrlVa.value, old(engine.words), mem)
              && heap.CoherentValid(engine)
    ensures old(heap.Stale(mem)) ==> rax == 1 && forall h: Heap :: !heap.Explains(engine, h)
  {
    if mem == 0 {
      NullNeverLive(heap.heap);
      return 1;
    }
    var ok := heap.FreeCoherent(engine, mem);
    rax := if ok then 1 else 0;
  }

  /** Exact match of a header against the class table, as the helper requires of a block. */
  method MatchClass(size: u64) returns (k: Option<nat>)
    ensures k.Some? ==> k.value < CLASS_COUNT && SizeClass(k.value) == size
    ensures k.None? ==> forall j :: 0 <= j < CLASS_COUNT ==> SizeClass(j) != size
  {
    for i := 0 to CLASS_COUNT
      invariant forall j :: 0 <= j < i ==> SizeClass(j) != size
    {
      if size == SizeClass(i) { return Some(i); }
    }
    k := None;
  }

  /** The helper's push: link word, list head, cleared header. */
  method PushHelper(cfg: AccelConfig, engine: Engine, mem: u64, k: nat)
    requires k < CLASS_COUNT && HeadVa(cfg.ctrlVa, k) in engine.words
    modifies engine
    ensures engine.words == old(engine.words)[mem := old(engine.words)[HeadVa(cfg.ctrlVa, k)]]
                                             [HeadVa(cfg.ctrlVa, k) := mem][WrapSub(mem, 8) := 0]
  {
    var head := engine.words[HeadVa(cfg.ctrlVa, k)];
    engine.words := engine.words[mem := head];
    engine.words := engine.words[HeadVa(cfg.ctrlVa, k) := mem];
    engine.words := engine.words[WrapSub(mem, 8) := 0];
  }

  /** The in-guest HeapFree: the host's coherent free to the word, whichever side serves it. The
      header of a stale block is zero, so that block reaches the host. */
  method HeapFreeHelper(cfg: AccelConfig, heap: GuestHeap, engine: Engine, handle: u64, mem: u64)
      returns (rax: u64)
    requires Serves(cfg, heap, engine) && heap.Freeable(mem)
    modifies heap`freeLists, heap`largeFree, heap`live, heap`heap, engine
    ensures heap.heap == Free(old(heap.heap), mem).0
    ensures !old(heap.Stale(mem)) ==>
              && rax == (if mem == 0 || Free(old(heap.heap), mem).1 then 1 else 0)
              && engine.words == FreeWords(old(heap.heap), cfg.ctrlVa, old(engine.words), mem)
              && heap.CoherentValid(engine)
    ensures old(heap.Stale(mem)) ==> rax == 1 && forall h: Heap :: !heap.Explains(engine, h)
    ensures handle == cfg.processHeapHandle && old(mem in heap.heap.live && heap.heap.sizes[mem] <= LARGE_THRESHOLD) ==>
              heap.live == old(heap.live)
  {
    ghost var h, words := heap.heap, engine.words;
    NullNeverLive(h);
    if mem == 0 { return 1; }
    if handle != cfg.processHeapHandle || mem < cfg.heapBase || mem >= cfg.heapEnd {
      rax := HandleHeapFree(heap, engine, mem);
      return;
    }
    Separation(h, cfg.ctrlVa, words);
    var size := engine.words[mem - 8];
    var k: Option<nat> := None;
    if size != 0 && size <= LARGE_THRESHOLD {
      k := MatchClass(size);
    }
    if k.None? {
      rax := HandleHeapFree(heap, engine, mem);
      return;
    }
    ClassFacts(k.value);
    FreeKeepsInv(h, mem);
    FreeRepr(h, cfg.ctrlVa, words, mem);
    assert IsChain(words, words[HeadVa(cfg.ctrlVa, k.value)], h.lists[k.value]);
    PushHelper(cfg, engine, mem, k.value);
    heap.heap := Release(h, mem);
    return 1;
  }

  // ---- mixed runs --------------------------------------------------------------------

  /** A call of the client, served by the helper (`inGuest`) or by the host; `flags` are those of
      an allocation. */
  datatype Call = Call(inGuest: bool, flags: u64, op: Op)

  function Ops(calls: seq<Call>): (r: seq<Op>)
    ensures |r| == |calls|
  {
    seq(|calls|, i requires 0 <= i < |calls| => calls[i].op)
  }

  /** Heap, memory and RAX after an allocation on the process heap. */
  function CallAlloc(m: Machine, ctrl: u64, call: Call): (Heap, Memory, u64)
    requires |m.heap.lists| == CLASS_COUNT && call.op.Malloc?
  {
    var handle := 1;
    if call.inGuest then HelperAlloc(handle, m.heap, ctrl, m.words, handle, call.flags, call.op.size)
    else HandlerAlloc(m.heap, ctrl, m.words, handle, call.flags, call.op.size)
  }

  function CallStep(m: Machine, ctrl: u64, call: Call): (m': Machine)
    requires |m.heap.lists| == CLASS_COUNT
    ensures |m'.heap.lists| == CLASS_COUNT
  {
    if call.op.Malloc? then Machine(CallAlloc(m, ctrl, call).0, CallAlloc(m, ctrl, call).1) else Step(m, ctrl, call.op)
  }

  function CallAnswer(m: Machine, ctrl: u64, call: Call): u64
    requires |m.heap.lists| == CLASS_COUNT
  {
    if call.op.Malloc? then CallAlloc(m, ctrl, call).2 else Answer(m, call.op)
  }

  function CallRun(m: Machine, ctrl: u64, calls: seq<Call>): (m': Machine)
    requires |m.heap.lists| == CLASS_COUNT
    ensures |m'.heap.lists| == CLASS_COUNT
    decreases |calls|
  {
    if calls == [] then m else CallRun(CallStep(m, ctrl, calls[0]), ctrl, calls[1..])
  }

  function CallAnswers(m: Machine, ctrl: u64, calls: seq<Call>): (r: seq<u64>)
    requires |m.heap.lists| == CLASS_COUNT
    ensures |r| == |calls|
    decreases |calls|
  {
    if calls == [] then []
    else [CallAnswer(m, ctrl, calls[0])] + CallAnswers(CallStep(m, ctrl, calls[0]), ctrl, calls[1..])
  }

  /** A legal call; frees name null or a live block. */
  ghost predicate LegalCall(m: Machine, call: Call) {
    Legal(m, call.op) && (call.op.Dispose? ==> call.op.address == 0 || call.op.address in m.heap.live)
  }

  ghost predicate LegalCalls(m: Machine, ctrl: u64, calls: seq<Call>)
    requires |m.heap.lists| == CLASS_COUNT
    decreases |calls|
  {
    calls != [] ==> LegalCall(m, calls[0]) && LegalCalls(CallStep(m, ctrl, calls[0]), ctrl, calls[1..])
  }

  method MixedStep(cfg: AccelConfig, heap: GuestHeap, engine: Engine, call: Call) returns (r: u64)
    requires Serves(cfg, heap, engine) && LegalCall(Machine(heap.heap, engine.words), call)
    modifies heap`bump, heap`freeLists, heap`largeFree, heap`live, heap`heap, engine
    ensures r == CallAnswer(old(Machine(heap.heap, engine.words)), cfg.ctrlVa, call)
    ensures Machine(heap.heap, engine.words) == CallStep(old(Machine(heap.heap, engine.words)), cfg.ctrlVa, call)
    ensures Serves(cfg, heap, engine)
  {
    ghost var m := Machine(heap.heap, engine.words);
    NullNeverLive(m.heap);
    match call.op {
      case Malloc(size) =>
        if call.inGuest {
          r := HeapAllocHelper(cfg, heap, engine, cfg.processHeapHandle, call.flags, size);
        } else {
          r := HandleHeapAlloc(heap, engine, cfg.processHeapHandle, call.flags, size);
        }
      case Dispose(a) =>
        if call.inGuest {
          r := HeapFreeHelper(cfg, heap, engine, cfg.processHeapHandle, a);
        } else {
          r := HandleHeapFree(heap, engine, a);
        }
      case Store(w, v) =>
        StoreMapped(m, cfg.ctrlVa, w);
        StepKeepsGood(m, cfg.ctrlVa, call.op);
        engine.WriteU64(w, v);
        r := 0;
    }
  }

  /** However calls are split between the helpers and the host, and whatever their flags, a client
      that frees only live blocks gets the stated answers, and memory goes through the stated run. */
  method MixedRun(cfg: AccelConfig, heap: GuestHeap, engine: Engine, calls: seq<Call>) returns (r: seq<u64>)
    requires Serves(cfg, heap, engine)
    requires LegalCalls(Machine(heap.heap, engine.words), cfg.ctrlVa, calls)
    modifies heap`bump, heap`freeLists, heap`largeFree, heap`live, heap`heap, engine
    ensures r == CallAnswers(old(Machine(heap.heap, engine.words)), cfg.ctrlVa, calls)
    ensures Machine(heap.heap, engine.words) == CallRun(old(Machine(heap.heap, engine.words)), cfg.ctrlVa, calls)
    ensures Serves(cfg, heap, engine)
    decreases |calls|
  {
    if calls == [] { return []; }
    var a := MixedStep(cfg, heap, engine, calls[0]);
    r := MixedRun(cfg, heap, engine, calls[1..]);
    r := [a] + r;
  }

  /** The bytes asked of the allocator: the handler takes an empty request for one byte. */
  function Asked(call: Call): u64
    requires call.op.Malloc?
  {
    if call.op.size == 0 && !call.inGuest then 1 else call.op.size
  }

  /** The payload of the new block is cleared: whoever reaches the handler with the zero flag. */
  predicate Clears(call: Call)
    requires call.op.Malloc?
  {
    AsksForZero(call.flags) && (call.inGuest ==> call.op.size > LARGE_THRESHOLD)
  }

  lemma CallIsZeroedAlloc(m: Machine, ctrl: u64, call: Call)
    requires |m.heap.lists| == CLASS_COUNT && call.op.Malloc?
    ensures CallAlloc(m, ctrl, call) == ZeroedAlloc(m.heap, ctrl, m.words, Clears(call), Asked(call))
    ensures Legal(m, call.op) ==> !Splits(m.heap, Asked(call))
  {
    RoundUpFits(1);
  }

  /** Allocator and memory agree after every call. */
  lemma CallKeepsGood(m: Machine, ctrl: u64, call: Call)
    requires Good(m, ctrl) && LegalCall(m, call)
    ensures Good(CallStep(m, ctrl, call), ctrl)
  {
    if call.op.Malloc? {
      CallIsZeroedAlloc(m, ctrl, call);
      ZeroedAllocRepr(m.heap, ctrl, m.words, Clears(call), Asked(call));
    } else {
      StepKeepsGood(m, ctrl, call.op);
    }
  }

  lemma {:induction false} CallsKeepGood(m: Machine, ctrl: u64, calls: seq<Call>)
    requires Good(m, ctrl) && LegalCalls(m, ctrl, calls)
    ensures Good(CallRun(m, ctrl, calls), ctrl)
    decreases |calls|
  {
    if calls != [] {
      CallKeepsGood(m, ctrl, calls[0]);
      CallsKeepGood(CallStep(m, ctrl, calls[0]), ctrl, calls[1..]);
    }
  }

  lemma ZeroingSpares(h: Heap, b: u64, a: u64, words: Memory, w: u64)
    requires BlocksDisjoint(h) && b in h.sizes && a != b && InPayload(h, a, w) && w in words
    ensures var words' := ZeroWords(words, b, h.sizes[b]); w in words' && words'[w] == words[w]
  {
    if a < b { assert BlockEnd(h, a) + 8 <= b; }
    if b < a { assert BlockEnd(h, b) + 8 <= a; }
  }

  lemma ZeroedAllocSpares(m: Machine, ctrl: u64, zero: bool, size: u64, a: u64, w: u64)
    requires Good(m, ctrl) && !Splits(m.heap, size) && a in m.heap.live && InPayload(m.heap, a, w) && w in m.words
    ensures var (h', words', _) := ZeroedAlloc(m.heap, ctrl, m.words, zero, size);
            && a in h'.live && InPayload(h', a, w) && h'.sizes[a] == m.heap.sizes[a]
            && w in words' && words'[w] == m.words[w]
  {
    var op := Malloc(size);
    StepSparesLive(m, ctrl, op, a, w);
    AllocKeepsInv(m.heap, size);
    AllocResult(m.heap, size);
    var m', b := Step(m, ctrl, op), Alloc(m.heap, size).1;
    if b != 0 { ZeroingSpares(m'.heap, b, a, m'.words, w); }
  }

  /** Clearing a new block spares every block that was live before. */
  lemma CallSparesLive(m: Machine, ctrl: u64, call: Call, a: u64, w: u64)
    requires Good(m, ctrl) && LegalCall(m, call) && LeavesAlone(call.op, a, w)
    requires a in m.heap.live && InPayload(m.heap, a, w) && w in m.words
    ensures var m' := CallStep(m, ctrl, call);
            && a in m'.heap.live && InPayload(m'.heap, a, w) && m'.heap.sizes[a] == m.heap.sizes[a]
            && w in m'.words && m'.words[w] == m.words[w]
  {
    if call.op.Malloc? {
      CallIsZeroedAlloc(m, ctrl, call);
      ZeroedAllocSpares(m, ctrl, Clears(call), Asked(call), a, w);
    } else {
      StepSparesLive(m, ctrl, call.op, a, w);
    }
  }

  /** Over a mixed run a live block keeps its contents until it is freed or written. */
  lemma {:induction false} MixedPayloadIsStable(m: Machine, ctrl: u64, calls: seq<Call>, a: u64, w: u64)
    requires Good(m, ctrl) && LegalCalls(m, ctrl, calls)
    requires forall i :: 0 <= i < |calls| ==> LeavesAlone(calls[i].op, a, w)
    requires a in m.heap.live && InPayload(m.heap, a, w) && w in m.words
    ensures var m' := CallRun(m, ctrl, calls);
            a in m'.heap.live && w in m'.words && m'.words[w] == m.words[w]
    decreases |calls|
  {
    if calls != [] {
      CallKeepsGood(m, ctrl, calls[0]);
      CallSparesLive(m, ctrl, calls[0], a, w);
      MixedPayloadIsStable(CallStep(m, ctrl, calls[0]), ctrl, calls[1..], a, w);
    }
  }

  /** No call asks the host for a cleared block or for an empty one. */
  predicate Unclouded(calls: seq<Call>) {
    forall i :: 0 <= i < |calls| && calls[i].op.Malloc? ==> !Clears(calls[i]) && Asked(calls[i]) == calls[i].op.size
  }

  /** Then it does not matter which side serves which call: answers and memory are those of the
      abstract allocator. */
  lemma {:induction false} ServerDoesNotMatter(m: Machine, ctrl: u64, calls: seq<Call>)
    requires |m.heap.lists| == CLASS_COUNT && Unclouded(calls)
    ensures CallRun(m, ctrl, calls) == Run(m, ctrl, Ops(calls))
    ensures CallAnswers(m, ctrl, calls) == Answers(m, ctrl, Ops(calls))
    decreases |calls|
  {
    if calls != [] {
      assert Ops(calls)[1..] == Ops(calls[1..]);
      if calls[0].op.Malloc? { CallIsZeroedAlloc(m, ctrl, calls[0]); }
      ServerDoesNotMatter(CallStep(m, ctrl, calls[0]), ctrl, calls[1..]);
    }
  }

  /** A block the host has in its books, freed twice in the guest: the first free leaves it there, so
      that the second is accepted and ruins the heap. */
  method FreeTwiceInGuest(cfg: AccelConfig, heap: GuestHeap, engine: Engine, a: u64) returns (first: u64, second: u64)
    requires Serves(cfg, heap, engine)
    requires a in heap.live && a in heap.heap.live && heap.heap.sizes[a] <= LARGE_THRESHOLD
    modifies heap`freeLists, heap`largeFree, heap`live, heap`heap, engine
    ensures first == 1 && second == 1 && forall h: Heap :: !heap.Explains(engine, h)
  {
    first := HeapFreeHelper(cfg, heap, engine, cfg.processHeapHandle, a);
    second := HeapFreeHelper(cfg, heap, engine, cfg.processHeapHandle, a);
  }

  /** Such a block is any that a host handler allocated. */
  method HostBlockFreedTwice(cfg: AccelConfig, heap: GuestHeap, engine: Engine, flags: u64, size: u64)
      returns (a: u64, first: u64, second: u64)
    requires Serves(cfg, heap, engine) && 0 < size <= LARGE_THRESHOLD
    modifies heap`bump, heap`freeLists, heap`largeFree, heap`live, heap`heap, engine
    ensures a == Alloc(old(heap.heap), size).1
    ensures a != 0 ==> first == 1 && second == 1 && forall h: Heap :: !heap.Explains(engine, h)
  {
    AllocResult(heap.heap, size);
    RoundUpFits(size);
    a := HandleHeapAlloc(heap, engine, cfg.processHeapHandle, flags, size);
    first, second := 0, 0;
    if a != 0 { first, second := FreeTwiceInGuest(cfg, heap, engine, a); }
  }

  // ---- where helper and handler part ---------------------------------------------------

  predicate AllZero(words: Memory, lo: u64, len: u64) {
    forall w :: w in words && lo <= w < lo + len ==> words[w] == 0
  }

  /** An allocation does not touch the payload it hands out. */
  lemma AllocSparesNewPayload(h: Heap, ctrl: u64, words: Memory, size: u64)
    requires Inv(h) && Repr(h, ctrl, words) && !Splits(h, size) && Alloc(h, size).1 != 0
    ensures var a, words' := Alloc(h, size).1, AllocWords(h, ctrl, words, size);
            AllZero(words', a, RoundUp(size)) <==> AllZero(words, a, RoundUp(size))
  {
    var (h', a) := Alloc(h, size);
    var words' := AllocWords(h, ctrl, words, size);
    AllocKeepsInv(h, size);
    AllocResult(h, size);
    AllocKeepsRegion(h, size);
    Separation(h', ctrl, words);
    forall w | w in words && a <= w < a + RoundUp(size)
      ensures w in words' && words'[w] == words[w]
    {
      assert !InControl(ctrl, w);
      AllocWrites(h, ctrl, words, size, w);
    }
    assert forall w :: w in words' && a <= w < a + RoundUp(size) ==> w in words;
  }

  /** On every request, helper and handler leave the same heap, memory and RAX if and only if the
      request is not the helper's own, or nothing can be had, or it is not empty and either does
      not ask for zeroes or would be given a payload that holds only zeroes already. */
  lemma HelperVersusHandler(processHeap: u64, h: Heap, ctrl: u64, words: Memory, handle: u64, flags: u64, size: u64)
    requires Inv(h) && Repr(h, ctrl, words) && processHeap != 0
    ensures HelperAlloc(processHeap, h, ctrl, words, handle, flags, size)
              == HandlerAlloc(h, ctrl, words, handle, flags, size)
            <==>
            || handle != processHeap || size > LARGE_THRESHOLD
            || Alloc(h, if size == 0 then 1 else size).1 == 0
            || (size != 0 && (AsksForZero(flags) ==> AllZero(words, Alloc(h, size).1, RoundUp(size))))
  {
    if handle == processHeap && size <= LARGE_THRESHOLD {
      AllocResult(h, 1);
      RoundUpFits(size);
      var a, words' := Alloc(h, size).1, AllocWords(h, ctrl, words, size);
      if a != 0 {
        AllocSparesNewPayload(h, ctrl, words, size);
        assert ZeroWords(words', a, RoundUp(size)) == words' <==> AllZero(words', a, RoundUp(size));
      }
    }
  }

  /** Allocate a block, write its second word, free it. */
  function WriteAndFree(size: u64, a: u64, v: u64): seq<Op>
    requires a + 8 < TWO_64
  {
    [Malloc(size), Store(a + 8, v), Dispose(a)]
  }

  lemma Run3(m: Machine, ctrl: u64, ops: seq<Op>)
    requires |m.heap.lists| == CLASS_COUNT && |ops| == 3
    ensures var m1 := Step(m, ctrl, ops[0]);
            var m2 := Step(m1, ctrl, ops[1]);
            && Run(m, ctrl, ops) == Step(m2, ctrl, ops[2])
            && (Legal(m, ops[0]) && Legal(m1, ops[1]) && Legal(m2, ops[2]) ==> LegalRun(m, ctrl, ops))
  {
    var m1 := Step(m, ctrl, ops[0]);
    var m2 := Step(m1, ctrl, ops[1]);
    assert ops[1..][1..] == ops[2..] && ops[2..][1..] == [];
    assert Run(m2, ctrl, ops[2..]) == Run(Step(m2, ctrl, ops[2]), ctrl, []);
    assert Run(m1, ctrl, ops[1..]) == Run(m2, ctrl, ops[2..]);
    assert LegalRun(Step(m2, ctrl, ops[2]), ctrl, []);
  }

  lemma FirstCarve(base: u64, end: u64, rounded: u64)
    requires 0 < base && 0 < rounded && rounded % 16 == 0 && BumpFits(base, end, base, rounded)
    ensures var (h, a) := Carve(Empty(base, end), rounded);
            && a == NextPayload(base) && a >= 8 && a + 16 <= a + rounded < TWO_64
            && h.live == {a} && h.sizes == map[a := rounded] && InPayload(h, a, a + 8)
  {
    PayloadPlace(base, end, base, rounded);
  }

  lemma FirstBlock(base: u64, end: u64, size: u64)
    requires 0 < base && 0 < size <= LARGE_THRESHOLD && BumpFits(base, end, base, RoundUp(size))
    ensures var (h, a) := Alloc(Empty(base, end), size);
            && a == NextPayload(base) && a >= 8 && a + 16 < TWO_64
            && h.live == {a} && ServedBy(h, a, size) && InPayload(h, a, a + 8)
  {
    RoundUpFits(size);
    FirstCarve(base, end, RoundUp(size));
    assert Alloc(Empty(base, end), size) == Carve(Empty(base, end), RoundUp(size));
  }

  /** The block freed last is the next one of its class to be handed out, its contents untouched. */
  lemma LastFreedIsNext(m: Machine, ctrl: u64, a: u64, size: u64, w: u64)
    requires Good(m, ctrl) && a in m.heap.live && ServedBy(m.heap, a, size)
    requires w in m.words && a < w && InPayload(m.heap, a, w)
    ensures var m' := Step(m, ctrl, Dispose(a));
            Alloc(m'.heap, size).1 == a && w in m'.words && m'.words[w] == m.words[w]
  {
    ReleasedIsNext(m.heap, a, size);
    FreeSparesPayload(m.heap, ctrl, m.words, a, w);
  }

  /** A small block of the size that a request is rounded up to. */
  predicate ServedBy(h: Heap, a: u64, size: u64) {
    a in h.sizes && size > 0 && h.sizes[a] == RoundUp(size) <= LARGE_THRESHOLD
  }

  lemma ReleasedIsNext(h: Heap, a: u64, size: u64)
    requires Inv(h) && ServedBy(h, a, size)
    ensures Alloc(Release(h, a), size).1 == a
  {
  }

  /** A free touches only the first word of the block. */
  lemma FreeSparesPayload(h: Heap, ctrl: u64, words: Memory, a: u64, w: u64)
    requires Inv(h) && Repr(h, ctrl, words) && a in h.live && a in h.sizes && w in words && a < w && InPayload(h, a, w)
    ensures var words' := FreeWords(h, ctrl, words, a); w in words' && words'[w] == words[w]
  {
    PayloadIsSeparate(h, ctrl, words, a, w);
    Separation(h, ctrl, words);
  }

  /** Writing into a live block and freeing it. */
  lemma WrittenAndFreed(m: Machine, ctrl: u64, a: u64, size: u64, w: u64, v: u64)
    requires Good(m, ctrl) && a in m.heap.live && ServedBy(m.heap, a, size) && a < w && InPayload(m.heap, a, w)
    ensures Legal(m, Store(w, v))
    ensures var m1 := Step(m, ctrl, Store(w, v));
            var m2 := Step(m1, ctrl, Dispose(a));
            Legal(m1, Dispose(a)) && Alloc(m2.heap, size).1 == a && w in m2.words && m2.words[w] == v
  {
    StepKeepsGood(m, ctrl, Store(w, v));
    LastFreedIsNext(Step(m, ctrl, Store(w, v)), ctrl, a, size, w);
  }

  lemma WriteAndFreeRun(base: u64, end: u64, ctrl: u64, words: Memory, size: u64, v: u64)
    requires Good(Machine(Empty(base, end), words), ctrl)
    requires 0 < size <= LARGE_THRESHOLD && BumpFits(base, end, base, RoundUp(size))
    ensures var m, a := Machine(Empty(base, end), words), NextPayload(base);
            && a + 8 < TWO_64
            && LegalRun(m, ctrl, WriteAndFree(size, a, v))
            && var m' := Run(m, ctrl, WriteAndFree(size, a, v));
               && Alloc(m'.heap, size).1 == a && a != 0 && a + 8 in m'.words && m'.words[a + 8] == v
  {
    var m, a := Machine(Empty(base, end), words), NextPayload(base);
    FirstBlock(base, end, size);
    var ops := WriteAndFree(size, a, v);
    StepKeepsGood(m, ctrl, ops[0]);
    WrittenAndFreed(Step(m, ctrl, ops[0]), ctrl, a, size, a + 8, v);
    Run3(m, ctrl, ops);
  }

  /** A small block allocated, written and freed, and then asked for again with the zero flag: the
      helper hands out what was written, the handler does not. */
  lemma ZeroFlagIgnored(processHeap: u64, base: u64, end: u64, ctrl: u64, words: Memory, size: u64, v: u64)
    requires Good(Machine(Empty(base, end), words), ctrl)
    requires 0 < size <= LARGE_THRESHOLD && BumpFits(base, end, base, RoundUp(size)) && processHeap != 0 && v != 0
    ensures var a := NextPayload(base);
            && a + 8 < TWO_64
            && LegalRun(Machine(Empty(base, end), words), ctrl, WriteAndFree(size, a, v))
            && var Machine(h, used) := Run(Machine(Empty(base, end), words), ctrl, WriteAndFree(size, a, v));
               var x := HelperAlloc(processHeap, h, ctrl, used, processHeap, HEAP_ZERO_MEMORY, size);
               var y := HandlerAlloc(h, ctrl, used, processHeap, HEAP_ZERO_MEMORY, size);
               && x.2 == y.2 == a && a + 8 in x.1 && x.1[a + 8] == v && a + 8 in y.1 && y.1[a + 8] == 0
  {
    var m, a := Machine(Empty(base, end), words), NextPayload(base);
    FirstBlock(base, end, size);
    WriteAndFreeRun(base, end, ctrl, words, size, v);
    var m' := Run(m, ctrl, WriteAndFree(size, a, v));
    RunKeepsGood(m, ctrl, WriteAndFree(size, a, v));
    AllocKeepsInv(m'.heap, size);
    AllocResult(m'.heap, size);
    AllocKeepsRegion(m'.heap, size);
    Separation(Alloc(m'.heap, size).0, ctrl, m'.words);
    AllocWrites(m'.heap, ctrl, m'.words, size, a + 8);
  }
}
