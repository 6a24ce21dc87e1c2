/** The words of the heap in guest memory, address by address. */
module HeapFormat {
  import opened Words
  import opened HeapSpec
  import opened HeapWords

  /** The control block holds the cursor and, from its second word on, the heads of the 24 lists. */
  lemma ControlIs(h: Heap, ctrl: u64, words: Memory, k: nat)
    requires Repr(h, ctrl, words) && k < 24
    ensures ctrl in words && words[ctrl] == h.bump && ctrl + 8 + 8 * k < TWO_64
    ensures ctrl + 8 + 8 * k in words && words[ctrl + 8 + 8 * k] == if h.lists[k] == [] then 0 else h.lists[k][0]
  {
    assert HeadVa(ctrl, k) == ctrl + 8 + 8 * k;
    assert IsChain(words, words[HeadVa(ctrl, k)], h.lists[k]);
  }

  /** The first word of a free class-sized block is the address of the next, or zero. */
  lemma LinkIs(h: Heap, ctrl: u64, words: Memory, k: nat, i: nat)
    requires Repr(h, ctrl, words) && k < 24 && i < |h.lists[k]|
    ensures h.lists[k][i] in words && words[h.lists[k][i]] == if i == |h.lists[k]| - 1 then 0 else h.lists[k][i + 1]
  {
    assert IsChain(words, words[HeadVa(ctrl, k)], h.lists[k]);
  }

  /** The word in front of a block is its size while it is live, and else zero. */
  lemma HeaderIs(h: Heap, ctrl: u64, words: Memory, a: u64)
    requires Inv(h) && Repr(h, ctrl, words) && a in h.sizes
    ensures a >= 8 && a - 8 in words && words[a - 8] == if a in h.live then h.sizes[a] else 0
  {
    BlockMapped(h, ctrl, words, a);
  }

  /** What a caller is told: an address; that null or a live block was freed; nothing about its own stores. */
  lemma ToldIs(m: Machine, op: Op)
    requires Inv(m.heap)
    ensures match op
            case Malloc(size) => Answer(m, op) == Alloc(m.heap, size).1
            case Dispose(a) => Answer(m, op) == if a == 0 || a in m.heap.live then 1 else 0
            case Store(_, _) => Answer(m, op) == 0
  {
  }
}
