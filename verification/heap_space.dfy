/** How much of the region the class lists ever use, and what a double free that slips past
    the host's bookkeeping does to a list. */
module HeapSpace {
  import opened Words
  import opened HeapSpec
  import opened HeapWords

  /** Every block of class `k` carved from the region so far. */
  function ClassBlocks(h: Heap, k: nat): set<u64>
    requires k < CLASS_COUNT
  {
    set a | a in h.sizes && h.sizes[a] == SizeClass(k)
  }

  function LiveBlocks(h: Heap, k: nat): set<u64>
    requires k < CLASS_COUNT
  {
    set a | a in h.sizes && h.sizes[a] == SizeClass(k) && a in h.live
  }

  /** Most class-`k` blocks simultaneously live at any point of the run, its start included. */
  function PeakLive(m: Machine, ctrl: u64, ops: seq<Op>, k: nat): nat
    requires |m.heap.lists| == CLASS_COUNT && k < CLASS_COUNT
    decreases |ops|
  {
    var here := |LiveBlocks(m.heap, k)|;
    if ops == [] then here
    else
      var later := PeakLive(Step(m, ctrl, ops[0]), ctrl, ops[1..], k);
      if here < later then later else here
  }

  /** A block of class `k` is live or waits on list `k`. */
  lemma IdleBlocksWait(h: Heap, k: nat)
    requires Inv(h) && k < CLASS_COUNT
    ensures LiveBlocks(h, k) <= ClassBlocks(h, k)
    ensures forall a :: a in ClassBlocks(h, k) - LiveBlocks(h, k) <==> a in h.lists[k]
    ensures h.lists[k] == [] <==> LiveBlocks(h, k) == ClassBlocks(h, k)
  {
    ClassFacts(k);
    ClassBounds(k);
    forall a | a in h.lists[k]
      ensures a in ClassBlocks(h, k) - LiveBlocks(h, k)
    {
      var i :| 0 <= i < |h.lists[k]| && h.lists[k][i] == a;
    }
    if h.lists[k] != [] {
      assert h.lists[k][0] in h.lists[k];
    }
  }

  /** Which class blocks an allocation adds: one, when it is carved for that class. */
  lemma MallocClassBlocks(h: Heap, size: u64, k: nat)
    requires Inv(h) && !Splits(h, size) && k < CLASS_COUNT
    ensures var (h', a) := Alloc(h, size);
            ClassBlocks(h', k) ==
              if a != 0 && RoundUp(size) == SizeClass(k) && h.lists[k] == [] then ClassBlocks(h, k) + {a}
              else ClassBlocks(h, k)
  {
    var (h', a) := Alloc(h, size);
    var rounded := RoundUp(size);
    ClassFacts(k);
    ClassBounds(k);
    RoundUpFits(size);
    if a != 0 && rounded <= LARGE_THRESHOLD {
      RoundUpIsClass(size);
      if h.lists[ClassIndex(rounded)] == [] {
        CarvePlacement(h, rounded);
      }
    } else if a != 0 {
      LargeKeepsClass(h, size, k);
    }
  }

  /** A fresh block is carved only when its list is empty, so the number of carved blocks
      only ever rises to meet the number that are live. */
  lemma MallocGrowth(h: Heap, size: u64, k: nat)
    requires Inv(h) && !Splits(h, size) && k < CLASS_COUNT
    ensures var h' := Alloc(h, size).0;
            var carved, carved', live' := |ClassBlocks(h, k)|, |ClassBlocks(h', k)|, |LiveBlocks(h', k)|;
            carved' == if carved < live' then live' else carved
  {
    var (h', a) := Alloc(h, size);
    AllocKeepsInv(h, size);
    AllocResult(h, size);
    MallocClassBlocks(h, size, k);
    IdleBlocksWait(h, k);
    IdleBlocksWait(h', k);
    SubsetCard(LiveBlocks(h, k), ClassBlocks(h, k));
    SubsetCard(LiveBlocks(h', k), ClassBlocks(h', k));
    if ClassBlocks(h', k) != ClassBlocks(h, k) {
      assert a !in ClassBlocks(h, k);
      assert LiveBlocks(h', k) == ClassBlocks(h', k);
    }
  }

  lemma SubsetCard<T>(a: set<T>, b: set<T>)
    requires a <= b
    ensures |a| <= |b|
  {
    assert b == a + (b - a);
  }

  lemma LargeKeepsClass(h: Heap, size: u64, k: nat)
    requires Inv(h) && !Splits(h, size) && k < CLASS_COUNT && RoundUp(size) > LARGE_THRESHOLD
    ensures ClassBlocks(Alloc(h, size).0, k) == ClassBlocks(h, k)
  {
    var rounded := RoundUp(size);
    ClassBounds(k);
    RoundUpFits(size);
    if BumpFits(h.base, h.end, h.bump, rounded) {
      CarvePlacement(h, rounded);
    }
  }

  /** Over any legal run, the class-`k` blocks ever carved number exactly the peak of
      simultaneously live ones (or what had been carved before the run, if that is more). */
  lemma {:induction false} CarvedIsPeak(m: Machine, ctrl: u64, ops: seq<Op>, k: nat)
    requires Good(m, ctrl) && LegalRun(m, ctrl, ops) && k < CLASS_COUNT
    ensures var before, peak := |ClassBlocks(m.heap, k)|, PeakLive(m, ctrl, ops, k);
            |ClassBlocks(Run(m, ctrl, ops).heap, k)| == if before < peak then peak else before
    decreases |ops|
  {
    IdleBlocksWait(m.heap, k);
    SubsetCard(LiveBlocks(m.heap, k), ClassBlocks(m.heap, k));
    if ops != [] {
      var m1 := Step(m, ctrl, ops[0]);
      StepKeepsGood(m, ctrl, ops[0]);
      CarvedIsPeak(m1, ctrl, ops[1..], k);
      match ops[0] {
        case Malloc(size) =>
          MallocGrowth(m.heap, size, k);
        case Dispose(a) =>
          assert ClassBlocks(m1.heap, k) == ClassBlocks(m.heap, k);
        case Store(_, _) =>
      }
      assert |LiveBlocks(m1.heap, k)| <= PeakLive(m1, ctrl, ops[1..], k);
    }
  }

  /** From an empty heap: carved blocks = peak demand, for every class. */
  lemma SpaceBound(base: u64, end: u64, ctrl: u64, words: Memory, ops: seq<Op>, k: nat)
    requires Good(Machine(Empty(base, end), words), ctrl) && k < CLASS_COUNT
    requires LegalRun(Machine(Empty(base, end), words), ctrl, ops)
    ensures var m := Machine(Empty(base, end), words);
            |ClassBlocks(Run(m, ctrl, ops).heap, k)| == PeakLive(m, ctrl, ops, k)
  {
    var m := Machine(Empty(base, end), words);
    CarvedIsPeak(m, ctrl, ops, k);
    assert ClassBlocks(m.heap, k) == {};
  }

  // ---- double frees ------------------------------------------------------------------

  /** The raw effect of pushing `a` on the list headed at `hva`, with no check at all. */
  function PushWords(words: Memory, hva: u64, a: u64): Memory
    requires hva in words
  {
    words[a := words[hva]][hva := a]
  }

  /** Element `n` of any chain from `a` when block `i` of the old list is `a` itself. */
  lemma {:induction false} ChainLoops(words: Memory, list: seq<u64>, i: nat, a: u64, chain: seq<u64>, n: nat)
    requires i < |list| && list[i] == a
    requires forall j :: 0 <= j < i ==> list[j] in words && words[list[j]] == list[j + 1]
    requires a in words && words[a] == list[0]
    requires IsChain(words, a, chain) && n < |chain|
    requires forall j :: 0 <= j < |list| ==> list[j] != 0
    ensures exists j :: 0 <= j <= i && chain[n] == list[j]
    ensures n + 1 < |chain|
    decreases n
  {
    if n == 0 {
      assert chain[0] == list[i];
    } else {
      ChainLoops(words, list, i, a, chain, n - 1);
      var j :| 0 <= j <= i && chain[n - 1] == list[j];
      assert words[chain[n - 1]] == chain[n];
      assert chain[n] == if j == i then list[0] else list[j + 1];
    }
    var j :| 0 <= j <= i && chain[n] == list[j];
    assert words[chain[n]] == After(chain, n);
    assert words[chain[n]] == if j == i then list[0] else list[j + 1];
  }

  /** A push keeps a null-terminated list exactly when the block was not on it already: a
      second free that is not noticed turns the list into a loop. */
  lemma PushKeepsChainIffNew(words: Memory, hva: u64, list: seq<u64>, a: u64)
    requires hva in words && IsChain(words, words[hva], list)
    requires a in words && a != 0 && a != hva && hva !in list
    requires forall j :: 0 <= j < |list| ==> list[j] != 0
    requires forall i, j :: 0 <= i < j < |list| ==> list[i] != list[j]
    ensures a !in list <==>
              exists chain :: IsChain(PushWords(words, hva, a), PushWords(words, hva, a)[hva], chain)
  {
    var words' := PushWords(words, hva, a);
    if a !in list {
      ChainFrame(words, words', words[hva], list);
      ChainCons(words', list, a);
      assert IsChain(words', words'[hva], [a] + list);
    } else {
      var i :| 0 <= i < |list| && list[i] == a;
      assert forall j :: 0 <= j < i ==> words'[list[j]] == list[j + 1];
      forall chain
        ensures !IsChain(words', words'[hva], chain)
      {
        if IsChain(words', words'[hva], chain) {
          assert chain != [];
          ChainLoops(words', list, i, a, chain, |chain| - 1);
        }
      }
    }
  }

  /** The words after a push of `a` on list `k`, its header cleared. */
  function PushedWords(ctrl: u64, words: Memory, k: nat, a: u64): Memory
    requires k < CLASS_COUNT && HeadVa(ctrl, k) in words
  {
    words[a := words[HeadVa(ctrl, k)]][HeadVa(ctrl, k) := a][WrapSub(a, 8) := 0]
  }

  /** List elements are neither list heads nor headers. */
  lemma ListApart(h: Heap, ctrl: u64, words: Memory, k: nat)
    requires Inv(h) && Repr(h, ctrl, words) && k < CLASS_COUNT
    ensures HeadVa(ctrl, k) in words && IsChain(words, words[HeadVa(ctrl, k)], h.lists[k])
    ensures forall x :: x in h.lists[k] ==> x >= 8 && x != HeadVa(ctrl, k) && x - 8 != HeadVa(ctrl, k)
    ensures forall x, y :: x in h.lists[k] && y in h.lists[k] ==> x != y - 8
  {
    Separation(h, ctrl, words);
    forall x | x in h.lists[k] ensures x in h.sizes {
      var j :| 0 <= j < |h.lists[k]| && h.lists[k][j] == x;
    }
  }

  /** The links in front of `a` survive a second push of `a`, which closes them to a loop. */
  lemma StaleLinks(words: Memory, ctrl: u64, k: nat, list: seq<u64>, i: nat, j: nat)
    requires k < CLASS_COUNT && HeadVa(ctrl, k) in words && IsChain(words, words[HeadVa(ctrl, k)], list)
    requires i < |list| && j <= i && (j < i ==> list[j] != list[i])
    requires forall x :: x in list ==> x >= 8 && x != HeadVa(ctrl, k) && x - 8 != HeadVa(ctrl, k)
    requires forall x, y :: x in list && y in list ==> x != y - 8
    ensures var words' := PushedWords(ctrl, words, k, list[i]);
            && list[j] in words' && words'[list[j]] == (if j == i then list[0] else list[j + 1])
            && HeadVa(ctrl, k) in words' && words'[HeadVa(ctrl, k)] == list[i]
  {
    assert list[j] in list && list[i] in list;
    assert words[list[j]] == After(list, j);
  }

  /** Pushing a block that waits on its list already: the words no longer represent any heap. */
  lemma StalePushLoops(h: Heap, ctrl: u64, words: Memory, k: nat, i: nat, h': Heap)
    requires Inv(h) && Repr(h, ctrl, words) && k < CLASS_COUNT && i < |h.lists[k]|
    ensures HeadVa(ctrl, k) in words && !Repr(h', ctrl, PushedWords(ctrl, words, k, h.lists[k][i]))
  {
    var list := h.lists[k];
    ListApart(h, ctrl, words, k);
    var words' := PushedWords(ctrl, words, k, list[i]);
    forall j | 0 <= j <= i ensures list[j] in words' && words'[list[j]] == if j == i then list[0] else list[j + 1] {
      StaleLinks(words, ctrl, k, list, i, j);
    }
    assert words'[HeadVa(ctrl, k)] == list[i] by { StaleLinks(words, ctrl, k, list, i, i); }
    assert forall j :: 0 <= j < |list| ==> list[j] in list;
    if Repr(h', ctrl, words') {
      var chain := h'.lists[k];
      assert IsChain(words', words'[HeadVa(ctrl, k)], chain) && chain != [];
      ChainLoops(words', list, i, list[i], chain, |chain| - 1);
    }
  }
}
