/** What HeapAlloc leaves in memory, whoever serves it, word by word. */
module HeapHandlers {
  import opened Words
  import opened HeapSpec
  import opened HeapWords
  import opened GuestHeapAccel

  /** `after` is `before` but for the `n` bytes from `a`, whose words are zero. */
  predicate ZeroedAt(before: Memory, after: Memory, a: u64, n: nat) {
    && after.Keys == before.Keys
    && forall w :: w in before ==> after[w] == if a <= w < a + n then 0 else before[w]
  }

  /** The handler refuses a null handle, takes an empty request for one byte, and clears the whole block when bit 3 of
      the flags is set. */
  lemma HandlerIs(h: Heap, ctrl: u64, words: Memory, handle: u64, flags: u64, size: u64)
    requires |h.lists| == CLASS_COUNT
    ensures var r, n: u64 := HandlerAlloc(h, ctrl, words, handle, flags, size), if size == 0 then 1 else size;
            if handle == 0 then r == (h, words, 0)
            else
              && r.0 == Alloc(h, n).0 && r.2 == Alloc(h, n).1
              && if flags / 8 % 2 == 0 || r.2 == 0 then r.1 == AllocWords(h, ctrl, words, n)
                 else ZeroedAt(AllocWords(h, ctrl, words, n), r.1, r.2, RoundUp(n))
  {
  }

  /** The helper serves class-sized requests to the process heap, empty ones with null, and never clears anything;
      the others go to the handler. */
  lemma HelperIs(process: u64, h: Heap, ctrl: u64, words: Memory, handle: u64, flags: u64, size: u64)
    requires |h.lists| == CLASS_COUNT
    ensures HelperAlloc(process, h, ctrl, words, handle, flags, size) ==
            if handle != process || size > 0x1_0000 then HandlerAlloc(h, ctrl, words, handle, flags, size)
            else (Alloc(h, size).0, AllocWords(h, ctrl, words, size), Alloc(h, size).1)
    ensures handle == process ==> HelperAlloc(process, h, ctrl, words, handle, flags, 0) == (h, words, 0)
  {
  }

  /** A call of a mixed run is one of the two, on the process heap; the others are those of the abstract run. */
  lemma CallIs(m: Machine, ctrl: u64, call: Call, process: u64)
    requires |m.heap.lists| == CLASS_COUNT && process != 0
    ensures var r := (CallStep(m, ctrl, call), CallAnswer(m, ctrl, call));
            match call.op
            case Malloc(size) =>
              (r.0.heap, r.0.words, r.1) ==
                if call.inGuest then HelperAlloc(process, m.heap, ctrl, m.words, process, call.flags, size)
                else HandlerAlloc(m.heap, ctrl, m.words, process, call.flags, size)
            case _ => r == (Step(m, ctrl, call.op), Answer(m, call.op))
  {
  }
}
