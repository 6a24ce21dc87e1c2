/** The heap as it lies in guest memory: bump cursor and list heads in a control block, the
    free lists threaded through the free payloads, a size header in front of every block. */
module HeapWords {
  import opened Words
  import opened HeapSpec

  /** Guest memory, one entry per mapped 8-byte word, keyed by its (8-aligned) address. */
  type Memory = map<u64, u64>

  function HeadVa(ctrl: u64, k: nat): u64
    requires k < CLASS_COUNT
  {
    WrapAdd(WrapAdd(ctrl, 8), 8 * k)
  }

  function First(list: seq<u64>): u64 {
    if list == [] then 0 else list[0]
  }

  function After(list: seq<u64>, i: nat): u64
    requires i < |list|
  {
    if i + 1 < |list| then list[i + 1] else 0
  }

  /** `list` is the null-terminated chain that starts at `head`. */
  ghost predicate IsChain(words: Memory, head: u64, list: seq<u64>) {
    && head == First(list)
    && forall i :: 0 <= i < |list| ==> list[i] in words && words[list[i]] == After(list, i)
  }

  /** The control block lies outside the heap and every word of the heap is mapped. */
  ghost predicate Layout(base: u64, end: u64, ctrl: u64, words: Memory) {
    && ctrl % 8 == 0 && ctrl + 200 < TWO_64
    && (ctrl + 200 <= base || end <= ctrl)
    && ctrl in words
    && (forall k :: 0 <= k < CLASS_COUNT ==> HeadVa(ctrl, k) in words)
    && (forall w: u64 {:trigger IsHeapWord(base, end, w)} :: IsHeapWord(base, end, w) ==> w in words)
  }

  predicate IsHeapWord(base: u64, end: u64, w: u64) {
    base <= w < end && w % 8 == 0
  }

  ghost predicate Headers(h: Heap, words: Memory) {
    forall a :: a in h.sizes && a >= 8 ==>
      a - 8 in words && words[a - 8] == if a in h.live then h.sizes[a] else 0
  }

  ghost predicate Chains(h: Heap, ctrl: u64, words: Memory) {
    && |h.lists| == CLASS_COUNT
    && forall k :: 0 <= k < CLASS_COUNT ==>
         HeadVa(ctrl, k) in words && IsChain(words, words[HeadVa(ctrl, k)], h.lists[k])
  }

  ghost predicate Repr(h: Heap, ctrl: u64, words: Memory) {
    && Layout(h.base, h.end, ctrl, words)
    && words[ctrl] == h.bump
    && Headers(h, words)
    && Chains(h, ctrl, words)
  }

  // ---- the memory transition of an allocation and of a free --------------------------

  /** The words an allocation leaves behind; nothing else in memory changes. */
  function AllocWords(h: Heap, ctrl: u64, words: Memory, size: u64): Memory
    requires |h.lists| == CLASS_COUNT
  {
    var rounded := RoundUp(size);
    var (h', a) := Alloc(h, size);
    if a == 0 then words
    else if rounded <= LARGE_THRESHOLD && h.lists[ClassIndex(rounded)] != [] then
      var k := ClassIndex(rounded);
      words[HeadVa(ctrl, k) := First(h'.lists[k])][WrapSub(a, 8) := rounded]
    else
      words[WrapSub(a, 8) := rounded][ctrl := h'.bump]
  }

  /** The words a free of block `a` leaves behind. */
  function FreeWords(h: Heap, ctrl: u64, words: Memory, a: u64): Memory
    requires |h.lists| == CLASS_COUNT
  {
    if a in h.live && a in h.sizes then
      if h.sizes[a] <= LARGE_THRESHOLD then
        var k := ClassIndex(h.sizes[a]);
        words[a := First(h.lists[k])][HeadVa(ctrl, k) := a][WrapSub(a, 8) := 0]
      else
        words[WrapSub(a, 8) := 0]
    else words
  }

  // ---- where metadata can and cannot be ----------------------------------------------

  ghost predicate InControl(ctrl: u64, w: u64) {
    ctrl <= w < ctrl + 200
  }

  lemma AlignedMapped(base: u64, end: u64, ctrl: u64, words: Memory, a: u64)
    requires Layout(base, end, ctrl, words) && base + 8 <= a < end && a % 16 == 0
    ensures a - 8 in words && a in words
  {
    var half := a / 16;
    assert a == 8 * (2 * half) && a - 8 == 8 * (2 * half - 1);
    assert IsHeapWord(base, end, a) && IsHeapWord(base, end, a - 8);
  }

  /** The header and the first word of every block are mapped. */
  lemma BlockMapped(h: Heap, ctrl: u64, words: Memory, a: u64)
    requires InRegion(h) && Layout(h.base, h.end, ctrl, words) && a in h.sizes
    ensures a >= 8 && a - 8 in words && a in words
  {
    AlignedMapped(h.base, h.end, ctrl, words, a);
  }

  /** Headers, link words and control words are pairwise different words. */
  lemma Separation(h: Heap, ctrl: u64, words: Memory)
    requires InRegion(h) && BlocksDisjoint(h) && Layout(h.base, h.end, ctrl, words)
    ensures forall k :: 0 <= k < CLASS_COUNT ==> HeadVa(ctrl, k) == ctrl + 8 + 8 * k
    ensures forall a :: a in h.sizes ==>
              && 8 <= a && a in words && a - 8 in words
              && (a < ctrl || ctrl + 200 <= a) && (a - 8 < ctrl || ctrl + 200 <= a - 8)
    ensures forall a, b :: a in h.sizes && b in h.sizes ==> a - 8 != b
  {
    forall a | a in h.sizes
      ensures 8 <= a && a in words && a - 8 in words
    {
      BlockMapped(h, ctrl, words, a);
    }
    forall a, b | a in h.sizes && b in h.sizes
      ensures a - 8 != b
    {
      if b < a { assert BlockEnd(h, b) + 8 <= a; }
    }
  }

  lemma ChainFrame(words: Memory, words': Memory, head: u64, list: seq<u64>)
    requires IsChain(words, head, list)
    requires forall i :: 0 <= i < |list| ==> list[i] in words' && words'[list[i]] == words[list[i]]
    ensures IsChain(words', head, list)
  {
  }

  /** Lists whose heads and links are untouched are still chains. */
  lemma ChainsFrame(h: Heap, ctrl: u64, words: Memory, words': Memory)
    requires ListsSound(h) && Chains(h, ctrl, words)
    requires forall k :: 0 <= k < CLASS_COUNT ==>
               HeadVa(ctrl, k) in words' && words'[HeadVa(ctrl, k)] == words[HeadVa(ctrl, k)]
    requires forall b :: b in h.sizes && b !in h.live && b in words ==> b in words' && words'[b] == words[b]
    ensures Chains(h, ctrl, words')
  {
    forall c | 0 <= c < CLASS_COUNT
      ensures IsChain(words', words'[HeadVa(ctrl, c)], h.lists[c])
    {
      ChainFrame(words, words', words[HeadVa(ctrl, c)], h.lists[c]);
    }
  }

  lemma ChainTail(words: Memory, head: u64, list: seq<u64>)
    requires IsChain(words, head, list) && list != []
    ensures IsChain(words, First(list[1..]), list[1..])
    ensures words[list[0]] == First(list[1..])
  {
    forall i | 0 <= i < |list[1..]|
      ensures list[1..][i] in words && words[list[1..][i]] == After(list[1..], i)
    {
      assert list[1..][i] == list[i + 1] && After(list[1..], i) == After(list, i + 1);
    }
  }

  lemma ChainCons(words: Memory, list: seq<u64>, a: u64)
    requires IsChain(words, First(list), list)
    requires a in words && words[a] == First(list)
    ensures IsChain(words, a, [a] + list)
  {
    var list' := [a] + list;
    forall i | 0 <= i < |list'|
      ensures list'[i] in words && words[list'[i]] == After(list', i)
    {
      if i > 0 { assert list'[i] == list[i - 1] && After(list', i) == After(list, i - 1); }
    }
  }

  /** Setting the header of `a`, which becomes live or free, leaves every other header. */
  lemma HeaderSet(h: Heap, h': Heap, words: Memory, words': Memory, a: u64)
    requires Headers(h, words)
    requires 8 <= a && a in h'.sizes && a - 8 in words'
    requires words'[a - 8] == if a in h'.live then h'.sizes[a] else 0
    requires forall b :: b in h'.sizes && b != a ==>
               b in h.sizes && h'.sizes[b] == h.sizes[b] && (b in h'.live <==> b in h.live)
    requires forall b :: b in h.sizes && b != a && 8 <= b ==> b - 8 in words' && words'[b - 8] == words[b - 8]
    ensures Headers(h', words')
  {
  }

  lemma ReuseClassRepr(h: Heap, ctrl: u64, words: Memory, k: nat, size: u64)
    requires InRegion(h) && BlocksDisjoint(h) && ListsSound(h) && Repr(h, ctrl, words)
    requires k < CLASS_COUNT && h.lists[k] != [] && size == SizeClass(k)
    ensures var (h', a) := ReuseClass(h, k);
            Repr(h', ctrl, words[HeadVa(ctrl, k) := First(h'.lists[k])][WrapSub(a, 8) := size])
  {
    var (h', a) := ReuseClass(h, k);
    assert a in h.sizes by { assert h.lists[k][0] == a; }
    Separation(h, ctrl, words);
    var words' := words[HeadVa(ctrl, k) := First(h'.lists[k])][a - 8 := size];
    HeaderSet(h, h', words, words', a);
    assert forall b :: b in h.sizes ==> b in words' && words'[b] == words[b];
    ReuseClassLists(h, k);
    forall c | 0 <= c < CLASS_COUNT
      ensures HeadVa(ctrl, c) in words' && IsChain(words', words'[HeadVa(ctrl, c)], h'.lists[c])
    {
      if c == k { ChainTail(words, words[HeadVa(ctrl, k)], h.lists[k]); }
      ChainFrame(words, words', First(h'.lists[c]), h'.lists[c]);
    }
  }

  /** A block enters service from outside the class lists: its header and the bump cursor
      are written, nothing else. */
  lemma EnterRepr(h: Heap, h': Heap, ctrl: u64, words: Memory, a: u64)
    requires ListsSound(h) && Repr(h, ctrl, words)
    requires InRegion(h') && BlocksDisjoint(h') && h'.base == h.base && h'.end == h.end
    requires h'.lists == h.lists && h'.live == h.live + {a}
    requires a in h'.sizes && h'.sizes.Keys == h.sizes.Keys + {a}
    requires forall b :: b in h.sizes && b != a ==> h'.sizes[b] == h.sizes[b]
    ensures Repr(h', ctrl, words[WrapSub(a, 8) := h'.sizes[a]][ctrl := h'.bump])
  {
    Separation(h', ctrl, words);
    var words' := words[a - 8 := h'.sizes[a]][ctrl := h'.bump];
    HeaderSet(h, h', words, words', a);
    ChainsFrame(h, ctrl, words, words');
  }

  /** After any allocation that does not split, memory represents the new heap. */
  lemma AllocRepr(h: Heap, ctrl: u64, words: Memory, size: u64)
    requires Inv(h) && Repr(h, ctrl, words) && !Splits(h, size)
    ensures Repr(Alloc(h, size).0, ctrl, AllocWords(h, ctrl, words, size))
  {
    AllocKeepsInv(h, size);
    AllocResult(h, size);
    RoundUpFits(size);
    var rounded := RoundUp(size);
    if Alloc(h, size).1 != 0 {
      var k := ClassIndex(rounded);
      if rounded <= LARGE_THRESHOLD { RoundUpIsClass(size); }
      if rounded <= LARGE_THRESHOLD && h.lists[k] != [] {
        ReuseClassRepr(h, ctrl, words, k, rounded);
      } else {
        EnterRepr(h, Alloc(h, size).0, ctrl, words, Alloc(h, size).1);
      }
    }
  }

  function Push(h: Heap, a: u64, k: nat): Heap
    requires k < |h.lists|
  {
    h.(lists := h.lists[k := [a] + h.lists[k]], live := h.live - {a})
  }

  lemma PushChains(h: Heap, ctrl: u64, words: Memory, words': Memory, a: u64, k: nat)
    requires ListsSound(h) && Chains(h, ctrl, words)
    requires a in h.live && k < CLASS_COUNT
    requires a in words' && words'[a] == First(h.lists[k])
    requires forall c :: 0 <= c < CLASS_COUNT ==> HeadVa(ctrl, c) in words'
    requires forall c :: 0 <= c < CLASS_COUNT ==>
               words'[HeadVa(ctrl, c)] == if c == k then a else words[HeadVa(ctrl, c)]
    requires forall b :: b in h.sizes && b != a && b in words ==> b in words' && words'[b] == words[b]
    ensures Chains(Push(h, a, k), ctrl, words')
  {
    forall c | 0 <= c < CLASS_COUNT
      ensures IsChain(words', words'[HeadVa(ctrl, c)], Push(h, a, k).lists[c])
    {
      ChainFrame(words, words', words[HeadVa(ctrl, c)], h.lists[c]);
      if c == k { ChainCons(words', h.lists[k], a); }
    }
  }

  /** Pushing a block on its class list. */
  lemma PushRepr(h: Heap, ctrl: u64, words: Memory, a: u64, k: nat)
    requires InRegion(h) && BlocksDisjoint(h) && ListsSound(h) && Repr(h, ctrl, words)
    requires a in h.sizes && a in h.live && k < CLASS_COUNT
    ensures Repr(Push(h, a, k), ctrl,
                 words[a := First(h.lists[k])][HeadVa(ctrl, k) := a][WrapSub(a, 8) := 0])
  {
    var words' := words[a := First(h.lists[k])][HeadVa(ctrl, k) := a][WrapSub(a, 8) := 0];
    Separation(h, ctrl, words);
    HeaderSet(h, Push(h, a, k), words, words', a);
    PushChains(h, ctrl, words, words', a, k);
  }

  /** After a free, memory represents the heap with the block on its free list. */
  lemma FreeRepr(h: Heap, ctrl: u64, words: Memory, a: u64)
    requires Inv(h) && Repr(h, ctrl, words)
    ensures Repr(Free(h, a).0, ctrl, FreeWords(h, ctrl, words, a))
  {
    if a in h.live {
      if h.sizes[a] <= LARGE_THRESHOLD {
        PushRepr(h, ctrl, words, a, ClassIndex(h.sizes[a]));
      } else {
        Separation(h, ctrl, words);
        var words' := words[WrapSub(a, 8) := 0];
        HeaderSet(h, Release(h, a), words, words', a);
        ChainsFrame(h, ctrl, words, words');
      }
    }
  }

  // ---- what the client owns ----------------------------------------------------------

  /** `w` is a word of the payload of block `a`. */
  ghost predicate InPayload(h: Heap, a: u64, w: u64) {
    a in h.sizes && a <= w < BlockEnd(h, a) && w % 8 == 0
  }

  lemma PayloadIsSeparate(h: Heap, ctrl: u64, words: Memory, a: u64, w: u64)
    requires InRegion(h) && BlocksDisjoint(h) && Layout(h.base, h.end, ctrl, words)
    requires InPayload(h, a, w)
    ensures w in words && !InControl(ctrl, w)
    ensures forall b :: b in h.sizes ==> w != b - 8 && (b != a ==> w != b)
  {
    assert IsHeapWord(h.base, h.end, w);
    forall b | b in h.sizes
      ensures w != b - 8 && (b != a ==> w != b)
    {
      if b < a { assert BlockEnd(h, b) + 8 <= a; }
      if a < b { assert BlockEnd(h, a) + 8 <= b; }
    }
  }

  /** A client write inside a live payload disturbs no metadata. */
  lemma ClientWriteRepr(h: Heap, ctrl: u64, words: Memory, a: u64, w: u64, v: u64)
    requires Inv(h) && Repr(h, ctrl, words)
    requires a in h.live && InPayload(h, a, w)
    ensures Repr(h, ctrl, words[w := v])
  {
    PayloadIsSeparate(h, ctrl, words, a, w);
    Separation(h, ctrl, words);
    ChainsFrame(h, ctrl, words, words[w := v]);
  }

  /** An allocation writes only control words and the header of the block it returns. */
  lemma AllocWrites(h: Heap, ctrl: u64, words: Memory, size: u64, w: u64)
    requires |h.lists| == CLASS_COUNT && ctrl + 200 < TWO_64
    requires w in words && !InControl(ctrl, w)
    requires Alloc(h, size).1 == 0 || w != WrapSub(Alloc(h, size).1, 8)
    ensures w in AllocWords(h, ctrl, words, size) && AllocWords(h, ctrl, words, size)[w] == words[w]
  {
  }

  /** The allocator never writes the payload of a block that stays live. */
  lemma AllocSparesPayload(h: Heap, ctrl: u64, words: Memory, size: u64, a: u64, w: u64)
    requires Inv(h) && Repr(h, ctrl, words) && !Splits(h, size)
    requires a in h.live && InPayload(h, a, w)
    ensures w in AllocWords(h, ctrl, words, size) && AllocWords(h, ctrl, words, size)[w] == words[w]
    ensures InPayload(Alloc(h, size).0, a, w)
  {
    AllocKeepsInv(h, size);
    AllocResult(h, size);
    AllocKeepsLiveSizes(h, size, a);
    var (h', b) := Alloc(h, size);
    PayloadIsSeparate(h', ctrl, words, a, w);
    AllocWrites(h, ctrl, words, size, w);
  }

  lemma FreeSparesPayload(h: Heap, ctrl: u64, words: Memory, b: u64, a: u64, w: u64)
    requires Inv(h) && Repr(h, ctrl, words)
    requires a in h.live && a != b && InPayload(h, a, w)
    ensures w in FreeWords(h, ctrl, words, b) && FreeWords(h, ctrl, words, b)[w] == words[w]
    ensures InPayload(Free(h, b).0, a, w)
  {
    PayloadIsSeparate(h, ctrl, words, a, w);
    Separation(h, ctrl, words);
  }

  // ---- runs --------------------------------------------------------------------------

  datatype Machine = Machine(heap: Heap, words: Memory)

  /** A call into the allocator, or a client's store. */
  datatype Op = Malloc(size: u64) | Dispose(address: u64) | Store(w: u64, v: u64)

  /** A client may ask for any block that need not be split off a larger one, may free null
      or any address it was ever given (double frees included), and may write what it owns. */
  ghost predicate Legal(m: Machine, op: Op) {
    match op
    case Malloc(size) => !Splits(m.heap, size)
    case Dispose(a) => a == 0 || a in m.heap.sizes
    case Store(w, v) => exists a :: a in m.heap.live && InPayload(m.heap, a, w)
  }

  function Step(m: Machine, ctrl: u64, op: Op): (m': Machine)
    requires |m.heap.lists| == CLASS_COUNT
    ensures |m'.heap.lists| == CLASS_COUNT
  {
    match op
    case Malloc(size) => Machine(Alloc(m.heap, size).0, AllocWords(m.heap, ctrl, m.words, size))
    case Dispose(a) => Machine(Free(m.heap, a).0, FreeWords(m.heap, ctrl, m.words, a))
    case Store(w, v) => Machine(m.heap, m.words[w := v])
  }

  function Run(m: Machine, ctrl: u64, ops: seq<Op>): (m': Machine)
    requires |m.heap.lists| == CLASS_COUNT
    ensures |m'.heap.lists| == CLASS_COUNT
    decreases |ops|
  {
    if ops == [] then m else Run(Step(m, ctrl, ops[0]), ctrl, ops[1..])
  }

  /** What the caller of `op` is told: an address, or 1 for a free that is accepted. */
  function Answer(m: Machine, op: Op): u64
    requires |m.heap.lists| == CLASS_COUNT
  {
    match op
    case Malloc(size) => Alloc(m.heap, size).1
    case Dispose(a) => if a == 0 || Free(m.heap, a).1 then 1 else 0
    case Store(_, _) => 0
  }

  function Answers(m: Machine, ctrl: u64, ops: seq<Op>): (r: seq<u64>)
    requires |m.heap.lists| == CLASS_COUNT
    ensures |r| == |ops|
    decreases |ops|
  {
    if ops == [] then [] else [Answer(m, ops[0])] + Answers(Step(m, ctrl, ops[0]), ctrl, ops[1..])
  }

  ghost predicate LegalRun(m: Machine, ctrl: u64, ops: seq<Op>)
    requires |m.heap.lists| == CLASS_COUNT
    decreases |ops|
  {
    ops != [] ==> Legal(m, ops[0]) && LegalRun(Step(m, ctrl, ops[0]), ctrl, ops[1..])
  }

  /** The allocator's state is sound and memory represents it. */
  ghost predicate Good(m: Machine, ctrl: u64) {
    Inv(m.heap) && Repr(m.heap, ctrl, m.words)
  }

  lemma StepKeepsGood(m: Machine, ctrl: u64, op: Op)
    requires Good(m, ctrl) && Legal(m, op)
    ensures Good(Step(m, ctrl, op), ctrl)
  {
    match op
    case Malloc(size) =>
      AllocKeepsInv(m.heap, size);
      AllocRepr(m.heap, ctrl, m.words, size);
    case Dispose(a) =>
      FreeKeepsInv(m.heap, a);
      FreeRepr(m.heap, ctrl, m.words, a);
    case Store(w, v) =>
      var a :| a in m.heap.live && InPayload(m.heap, a, w);
      ClientWriteRepr(m.heap, ctrl, m.words, a, w, v);
  }

  /** Every legal run, whatever the interleaving of calls and client stores, leaves acyclic
      null-terminated lists, disjoint blocks inside the region and correct headers. */
  lemma {:induction false} RunKeepsGood(m: Machine, ctrl: u64, ops: seq<Op>)
    requires Good(m, ctrl) && LegalRun(m, ctrl, ops)
    ensures Good(Run(m, ctrl, ops), ctrl)
    decreases |ops|
  {
    if ops != [] {
      StepKeepsGood(m, ctrl, ops[0]);
      RunKeepsGood(Step(m, ctrl, ops[0]), ctrl, ops[1..]);
    }
  }

  /** `op` neither frees block `a` nor stores to word `w`. */
  predicate LeavesAlone(op: Op, a: u64, w: u64) {
    op != Dispose(a) && !(op.Store? && op.w == w)
  }

  lemma StepSparesLive(m: Machine, ctrl: u64, op: Op, a: u64, w: u64)
    requires Good(m, ctrl) && Legal(m, op) && LeavesAlone(op, a, w)
    requires a in m.heap.live && InPayload(m.heap, a, w) && w in m.words
    ensures var m' := Step(m, ctrl, op);
            && a in m'.heap.live && InPayload(m'.heap, a, w) && m'.heap.sizes[a] == m.heap.sizes[a]
            && w in m'.words && m'.words[w] == m.words[w]
    ensures op.Malloc? ==> Alloc(m.heap, op.size).1 != a
  {
    match op
    case Malloc(size) =>
      AllocResult(m.heap, size);
      AllocKeepsLiveSizes(m.heap, size, a);
      AllocSparesPayload(m.heap, ctrl, m.words, size, a, w);
    case Dispose(b) =>
      FreeSparesPayload(m.heap, ctrl, m.words, b, a, w);
    case Store(_, _) =>
  }

  /** A live block stays live, keeps its size and keeps its contents over any run that does
      not itself free or overwrite it, and is never handed out again meanwhile. */
  lemma {:induction false} LivePayloadIsStable(m: Machine, ctrl: u64, ops: seq<Op>, a: u64, w: u64)
    requires Good(m, ctrl) && LegalRun(m, ctrl, ops)
    requires forall i :: 0 <= i < |ops| ==> LeavesAlone(ops[i], a, w)
    requires a in m.heap.live && InPayload(m.heap, a, w) && w in m.words
    ensures var m' := Run(m, ctrl, ops);
            && a in m'.heap.live && a in m'.heap.sizes && m'.heap.sizes[a] == m.heap.sizes[a]
            && w in m'.words && m'.words[w] == m.words[w]
    ensures forall i :: 0 <= i < |ops| && ops[i].Malloc? ==>
              Alloc(Run(m, ctrl, ops[..i]).heap, ops[i].size).1 != a
    decreases |ops|
  {
    if ops != [] {
      var m1 := Step(m, ctrl, ops[0]);
      StepKeepsGood(m, ctrl, ops[0]);
      StepSparesLive(m, ctrl, ops[0], a, w);
      LivePayloadIsStable(m1, ctrl, ops[1..], a, w);
      forall i | 0 < i < |ops| && ops[i].Malloc?
        ensures Alloc(Run(m, ctrl, ops[..i]).heap, ops[i].size).1 != a
      {
        assert ops[..i][1..] == ops[1..][..i - 1];
        assert ops[1..][i - 1] == ops[i];
      }
    }
  }
}
