/** The process heap as its clients see it: one abstract allocator that the host
    `Vec` heap, the coherent (linked-list) heap and the in-guest helpers all implement,
    and the guest-memory words through which the last two share it. */
module HeapSpec {
  import opened Words

  const CLASS_COUNT: nat := 24
  const LARGE_THRESHOLD: u64 := 65536

  // ---- size classes ------------------------------------------------------------------

  /** Block size of class `k`: the ladder of 24 fixed sizes. */
  function SizeClass(k: nat): u64
    requires k < CLASS_COUNT
  {
    if k == 0 then 16 else if k == 1 then 32 else if k == 2 then 48 else if k == 3 then 64
    else if k == 4 then 96 else if k == 5 then 128 else if k == 6 then 192 else if k == 7 then 256
    else if k == 8 then 384 else if k == 9 then 512 else if k == 10 then 768 else if k == 11 then 1024
    else if k == 12 then 1536 else if k == 13 then 2048 else if k == 14 then 3072 else if k == 15 then 4096
    else if k == 16 then 6144 else if k == 17 then 8192 else if k == 18 then 12288 else if k == 19 then 16384
    else if k == 20 then 24576 else if k == 21 then 32768 else if k == 22 then 49152 else 65536
  }

  /** Least class at or after `i` that holds `size` bytes, or the last class. */
  function ClassFrom(size: u64, i: nat): (k: nat)
    requires i < CLASS_COUNT
    ensures i <= k < CLASS_COUNT
    ensures forall j :: i <= j < k ==> SizeClass(j) < size
    ensures k < CLASS_COUNT - 1 ==> size <= SizeClass(k)
    decreases CLASS_COUNT - i, size
  {
    if size <= SizeClass(i) || i == CLASS_COUNT - 1 then i else ClassFrom(size, i + 1)
  }

  function ClassIndex(size: u64): (k: nat)
    ensures k < CLASS_COUNT
    ensures forall j :: 0 <= j < k ==> SizeClass(j) < size
    ensures k < CLASS_COUNT - 1 ==> size <= SizeClass(k)
  {
    ClassFrom(size, 0)
  }

  function RoundUp(size: u64): u64 {
    var s := if size == 0 then 1 else size;
    if s <= LARGE_THRESHOLD then SizeClass(ClassIndex(s))
    else var t := WrapAdd(s, 15); t - t % 16
  }

  /** Classes are strictly increasing multiples of 16. */
  lemma ClassesIncrease(i: nat, j: nat)
    requires i < j < CLASS_COUNT
    ensures SizeClass(i) < SizeClass(j)
    ensures SizeClass(i) % 16 == 0 && SizeClass(i) > 0
  {
  }

  lemma ClassBounds(k: nat)
    requires k < CLASS_COUNT
    ensures 0 < SizeClass(k) <= LARGE_THRESHOLD && SizeClass(k) % 16 == 0
  {
  }

  lemma ClassFacts(k: nat)
    requires k < CLASS_COUNT
    ensures ClassIndex(SizeClass(k)) == k
  {
    var c := ClassIndex(SizeClass(k));
    if c < k {
      ClassesIncrease(c, k);
      assert false;
    }
  }

  /** The rounded size is big enough, block-aligned, and tight: the next smaller class
      would not do. */
  lemma RoundUpFits(size: u64)
    ensures RoundUp(size) % 16 == 0
    ensures RoundUp(size) == 0 <==> size > TWO_64 - 16
    ensures RoundUp(size) != 0 ==> size <= RoundUp(size)
    ensures RoundUp(size) <= LARGE_THRESHOLD <==> size <= LARGE_THRESHOLD || size > TWO_64 - 16
    ensures 0 < size <= LARGE_THRESHOLD ==>
              forall c :: 0 <= c < CLASS_COUNT && size <= SizeClass(c) ==> RoundUp(size) <= SizeClass(c)
  {
    if size <= LARGE_THRESHOLD {
      var s := if size == 0 then 1 else size;
      var k := ClassIndex(s);
      ClassFacts(k);
      forall c | 0 <= c < CLASS_COUNT && size <= SizeClass(c) && 0 < size
        ensures SizeClass(k) <= SizeClass(c)
      {
        if c < k { assert false; }
        if k < c { ClassesIncrease(k, c); }
      }
    }
  }

  // ---- large blocks ------------------------------------------------------------------

  datatype LargeBlock = LargeBlock(address: u64, size: u64)

  /** `i` is the smallest fitting block among the first `n`, the earliest of equals. */
  ghost predicate IsBestFit(blocks: seq<LargeBlock>, need: u64, n: nat, i: nat)
    requires n <= |blocks|
  {
    && i < n && need <= blocks[i].size
    && (forall j :: 0 <= j < n && need <= blocks[j].size ==> blocks[i].size <= blocks[j].size)
    && (forall j :: 0 <= j < i && need <= blocks[j].size ==> blocks[i].size < blocks[j].size)
  }

  function BestFit(blocks: seq<LargeBlock>, need: u64, n: nat): (r: Option<nat>)
    requires n <= |blocks|
    ensures r.Some? ==> IsBestFit(blocks, need, n, r.value)
    ensures r.None? ==> forall j :: 0 <= j < n ==> blocks[j].size < need
  {
    if n == 0 then None
    else
      var best := BestFit(blocks, need, n - 1);
      if blocks[n - 1].size < need then best
      else if best.None? || blocks[n - 1].size < blocks[best.value].size then Some(n - 1)
      else best
  }

  function SwapRemove<T>(s: seq<T>, i: nat): (r: seq<T>)
    requires i < |s|
    ensures |r| == |s| - 1
  {
    if i == |s| - 1 then s[..i] else s[i := s[|s| - 1]][..|s| - 1]
  }

  // ---- the abstract allocator --------------------------------------------------------

  /** `sizes` records every block ever carved; a block is in `live`, on the free list of its
      class (next to be reused first) or among the free large blocks. */
  datatype Heap = Heap(
    base: u64,
    end: u64,
    bump: u64,
    sizes: map<u64, u64>,
    lists: seq<seq<u64>>,
    large: seq<LargeBlock>,
    live: set<u64>)

  function Empty(base: u64, end: u64): Heap {
    Heap(base, end, base, map[], seq(CLASS_COUNT, _ => []), [], {})
  }

  /** Where a fresh block would go: 8 bytes of header room, then a 16-aligned payload. */
  function NextPayload(bump: u64): u64
    requires bump + 8 < TWO_64
  {
    var t := WrapAdd(bump + 8, 15);
    t - t % 16
  }

  predicate BumpFits(base: u64, end: u64, bump: u64, rounded: u64) {
    && bump + 8 < TWO_64
    && base <= NextPayload(bump)
    && NextPayload(bump) + rounded <= end
  }

  /** A fresh payload is aligned and leaves room for its header after the bump cursor. */
  lemma PayloadPlace(base: u64, end: u64, bump: u64, rounded: u64)
    requires 0 < base && BumpFits(base, end, bump, rounded)
    ensures NextPayload(bump) % 16 == 0
    ensures bump + 8 <= NextPayload(bump) <= bump + 23
  {
  }

  function Carve(h: Heap, rounded: u64): (Heap, u64) {
    if BumpFits(h.base, h.end, h.bump, rounded) then
      var p := NextPayload(h.bump);
      (h.(bump := p + rounded, sizes := h.sizes[p := rounded], live := h.live + {p}), p)
    else
      (h, 0)
  }

  /** A reused large block leaves a residual behind when it is this much too big. */
  predicate SplitsBlock(block: LargeBlock, rounded: u64) {
    SatAdd(rounded, LARGE_THRESHOLD) <= block.size
  }

  function ReuseLarge(h: Heap, rounded: u64, i: nat): (Heap, u64)
    requires i < |h.large|
  {
    var block := h.large[i];
    var rest := SwapRemove(h.large, i);
    var residual := SatAdd(block.address, rounded);
    if SplitsBlock(block, rounded) && residual > block.address && SatSub(block.size, rounded) >= 16 then
      var left := SatSub(block.size, rounded);
      (h.(sizes := h.sizes[block.address := rounded][residual := left],
          large := rest + [LargeBlock(residual, left)],
          live := h.live + {block.address}), block.address)
    else
      (h.(sizes := h.sizes[block.address := rounded], large := rest,
          live := h.live + {block.address}), block.address)
  }

  function ReuseClass(h: Heap, k: nat): (Heap, u64)
    requires k < |h.lists| && h.lists[k] != []
  {
    var a := h.lists[k][0];
    (h.(lists := h.lists[k := h.lists[k][1..]], live := h.live + {a}), a)
  }

  function Alloc(h: Heap, size: u64): (r: (Heap, u64))
    requires |h.lists| == CLASS_COUNT
    ensures |r.0.lists| == CLASS_COUNT
  {
    var rounded := RoundUp(size);
    if size == 0 || rounded == 0 then (h, 0)
    else if rounded <= LARGE_THRESHOLD then
      var k := ClassIndex(rounded);
      if h.lists[k] != [] then ReuseClass(h, k) else Carve(h, rounded)
    else
      match BestFit(h.large, rounded, |h.large|)
      case Some(i) => ReuseLarge(h, rounded, i)
      case None => Carve(h, rounded)
  }

  function Release(h: Heap, a: u64): Heap
    requires |h.lists| == CLASS_COUNT
    requires a in h.sizes
  {
    var size := h.sizes[a];
    if size <= LARGE_THRESHOLD then
      var k := ClassIndex(size);
      h.(lists := h.lists[k := [a] + h.lists[k]], live := h.live - {a})
    else
      h.(large := h.large + [LargeBlock(a, size)], live := h.live - {a})
  }

  /** Freeing anything that is not live is refused and changes nothing. */
  function Free(h: Heap, a: u64): (r: (Heap, bool))
    requires |h.lists| == CLASS_COUNT
    ensures |r.0.lists| == CLASS_COUNT
  {
    if a in h.live && a in h.sizes then (Release(h, a), true) else (h, false)
  }

  /** This request reuses a large block and splits a residual off it. */
  predicate Splits(h: Heap, size: u64) {
    var rounded := RoundUp(size);
    && size != 0
    && rounded > LARGE_THRESHOLD
    && var fit := BestFit(h.large, rounded, |h.large|);
    && fit.Some?
    && SplitsBlock(h.large[fit.value], rounded)
  }

  // ---- invariant ---------------------------------------------------------------------

  ghost predicate InRegion(h: Heap) {
    && 0 < h.base <= h.bump <= h.end
    && forall a :: a in h.sizes ==>
         && h.base + 8 <= a && a % 16 == 0
         && 0 < h.sizes[a] && h.sizes[a] % 16 == 0 && a + h.sizes[a] <= h.bump
  }

  function BlockEnd(h: Heap, a: u64): int
    requires a in h.sizes
  {
    a + h.sizes[a]
  }

  /** Blocks are pairwise disjoint, counting the 8-byte header in front of each. */
  ghost predicate BlocksDisjoint(h: Heap) {
    forall a, b :: a in h.sizes && b in h.sizes && a < b ==> BlockEnd(h, a) + 8 <= b
  }

  ghost predicate ListsSound(h: Heap) {
    && |h.lists| == CLASS_COUNT
    && (forall k, i :: 0 <= k < CLASS_COUNT && 0 <= i < |h.lists[k]| ==>
          && h.lists[k][i] in h.sizes && h.lists[k][i] !in h.live
          && h.sizes[h.lists[k][i]] == SizeClass(k))
    && (forall k, i, j :: 0 <= k < CLASS_COUNT && 0 <= i < j < |h.lists[k]| ==> h.lists[k][i] != h.lists[k][j])
  }

  ghost predicate LargeSound(h: Heap) {
    && (forall i :: 0 <= i < |h.large| ==>
          && h.large[i].address in h.sizes && h.large[i].address !in h.live
          && h.sizes[h.large[i].address] == h.large[i].size
          && h.large[i].size > LARGE_THRESHOLD)
    && (forall i, j :: 0 <= i < j < |h.large| ==> h.large[i].address != h.large[j].address)
  }

  /** Nothing is lost: a block that is not live can be handed out again. */
  ghost predicate Accounted(h: Heap) {
    && h.live <= h.sizes.Keys
    && (|h.lists| == CLASS_COUNT ==>
          forall a :: a in h.sizes && a !in h.live ==>
            if h.sizes[a] <= LARGE_THRESHOLD then
              a in h.lists[ClassIndex(h.sizes[a])] && h.sizes[a] == SizeClass(ClassIndex(h.sizes[a]))
            else LargeBlock(a, h.sizes[a]) in h.large)
    && (forall a :: a in h.live && h.sizes[a] <= LARGE_THRESHOLD ==>
          h.sizes[a] == SizeClass(ClassIndex(h.sizes[a])))
  }

  ghost predicate Inv(h: Heap) {
    InRegion(h) && BlocksDisjoint(h) && ListsSound(h) && LargeSound(h) && Accounted(h)
  }

  lemma EmptyInv(base: u64, end: u64)
    requires 0 < base <= end
    ensures Inv(Empty(base, end))
  {
  }

  lemma CarvePlacement(h: Heap, rounded: u64)
    requires InRegion(h) && BlocksDisjoint(h) && BumpFits(h.base, h.end, h.bump, rounded)
    requires 0 < rounded && rounded % 16 == 0
    ensures InRegion(Carve(h, rounded).0) && BlocksDisjoint(Carve(h, rounded).0)
    ensures Carve(h, rounded).1 !in h.sizes && Carve(h, rounded).1 >= h.bump + 8
  {
    PayloadPlace(h.base, h.end, h.bump, rounded);
    var (h', p) := Carve(h, rounded);
    assert forall a :: a in h.sizes ==> BlockEnd(h, a) + 8 <= p;
  }

  lemma CarveInv(h: Heap, rounded: u64)
    requires Inv(h) && BumpFits(h.base, h.end, h.bump, rounded)
    requires 0 < rounded && rounded % 16 == 0
    requires rounded <= LARGE_THRESHOLD ==> rounded == SizeClass(ClassIndex(rounded))
    ensures Inv(Carve(h, rounded).0)
    ensures Carve(h, rounded).1 !in h.sizes && Carve(h, rounded).1 >= h.bump + 8
  {
    CarvePlacement(h, rounded);
    var (h', p) := Carve(h, rounded);
    assert h'.lists == h.lists && h'.large == h.large;
    assert forall a :: a in h.sizes ==> a in h'.sizes && h'.sizes[a] == h.sizes[a];
    assert ListsSound(h') && LargeSound(h');
  }

  lemma ReuseClassLists(h: Heap, k: nat)
    requires ListsSound(h) && k < CLASS_COUNT && h.lists[k] != []
    ensures ListsSound(ReuseClass(h, k).0)
  {
    var (h', a) := ReuseClass(h, k);
    forall c, i | 0 <= c < CLASS_COUNT && 0 <= i < |h'.lists[c]|
      ensures h'.lists[c][i] == h.lists[c][if c == k then i + 1 else i] && h'.lists[c][i] != a
    {
      var j := if c == k then i + 1 else i;
      assert h.lists[c][j] in h.sizes && h.sizes[h.lists[c][j]] == SizeClass(c);
      if c < k { ClassesIncrease(c, k); }
      if k < c { ClassesIncrease(k, c); }
    }
  }

  lemma ReuseClassInv(h: Heap, k: nat)
    requires Inv(h) && k < CLASS_COUNT && h.lists[k] != []
    ensures Inv(ReuseClass(h, k).0)
  {
    var (h', a) := ReuseClass(h, k);
    ReuseClassLists(h, k);
    assert h.lists[k][0] == a;
    ClassFacts(k);
    ClassBounds(k);
    forall b | b in h'.sizes && b !in h'.live && h'.sizes[b] <= LARGE_THRESHOLD
      ensures b in h'.lists[ClassIndex(h.sizes[b])]
    {
      var c := ClassIndex(h.sizes[b]);
      assert b in h.lists[c];
      if c == k { assert h.lists[k] == [a] + h'.lists[k]; }
    }
  }

  lemma ReleaseLists(h: Heap, a: u64)
    requires ListsSound(h) && a in h.live && a in h.sizes && h.sizes[a] <= LARGE_THRESHOLD
    requires h.sizes[a] == SizeClass(ClassIndex(h.sizes[a]))
    ensures ListsSound(Release(h, a))
  {
  }

  lemma ReleaseLarge(h: Heap, a: u64)
    requires LargeSound(h) && |h.lists| == CLASS_COUNT && a in h.live && a in h.sizes
    ensures LargeSound(Release(h, a))
  {
  }

  lemma ReleaseInv(h: Heap, a: u64)
    requires Inv(h) && a in h.live
    ensures Inv(Release(h, a))
  {
    var h' := Release(h, a);
    ReleaseLarge(h, a);
    if h.sizes[a] <= LARGE_THRESHOLD {
      ReleaseLists(h, a);
      forall c, b | 0 <= c < CLASS_COUNT && b in h.lists[c]
        ensures b in h'.lists[c]
      {
        if c == ClassIndex(h.sizes[a]) { assert b in [a] + h.lists[c]; }
      }
    }
  }

  lemma ShrinkPlacement(h: Heap, h': Heap, a: u64, rounded: u64)
    requires InRegion(h) && BlocksDisjoint(h)
    requires a in h.sizes && 0 < rounded <= h.sizes[a] && rounded % 16 == 0
    requires h'.sizes == h.sizes[a := rounded] && h'.base == h.base && h'.bump == h.bump && h'.end == h.end
    ensures InRegion(h') && BlocksDisjoint(h')
  {
    assert forall b :: b in h'.sizes ==> b in h.sizes && BlockEnd(h', b) <= BlockEnd(h, b);
  }

  /** Where each free block sits after one of them is swap-removed. */
  lemma SwapRemoved(s: seq<LargeBlock>, i: nat)
    requires i < |s|
    requires forall j, k :: 0 <= j < k < |s| ==> s[j].address != s[k].address
    ensures forall x :: x in SwapRemove(s, i) <==> x in s && x != s[i]
    ensures forall j :: 0 <= j < |s| - 1 ==> SwapRemove(s, i)[j].address != s[i].address
    ensures forall j, k :: 0 <= j < k < |s| - 1 ==>
              SwapRemove(s, i)[j].address != SwapRemove(s, i)[k].address
  {
    var r := SwapRemove(s, i);
    forall x | x in s && x != s[i]
      ensures x in r
    {
      var j :| 0 <= j < |s| && s[j] == x;
      assert r[if j == |s| - 1 then i else j] == x;
    }
  }

  lemma ReuseWholeLarge(h: Heap, rounded: u64, i: nat)
    requires LargeSound(h) && i < |h.large|
    requires !SplitsBlock(h.large[i], rounded)
    ensures LargeSound(ReuseLarge(h, rounded, i).0)
  {
    var (h', a) := ReuseLarge(h, rounded, i);
    SwapRemoved(h.large, i);
    forall j | 0 <= j < |h'.large|
      ensures h'.large[j] in h.large && h'.large[j].address != a
    {
      assert h'.large[j] in h'.large;
    }
  }

  lemma ReuseWholeLists(h: Heap, rounded: u64, i: nat)
    requires ListsSound(h) && LargeSound(h) && i < |h.large|
    requires !SplitsBlock(h.large[i], rounded)
    ensures ListsSound(ReuseLarge(h, rounded, i).0)
  {
    forall k, j | 0 <= k < CLASS_COUNT && 0 <= j < |h.lists[k]|
      ensures h.lists[k][j] != h.large[i].address
    {
      ClassBounds(k);
    }
  }

  lemma ReuseWholeAccounted(h: Heap, rounded: u64, i: nat)
    requires Accounted(h) && LargeSound(h) && |h.lists| == CLASS_COUNT && i < |h.large|
    requires LARGE_THRESHOLD < rounded && !SplitsBlock(h.large[i], rounded)
    ensures Accounted(ReuseLarge(h, rounded, i).0)
  {
    SwapRemoved(h.large, i);
  }

  /** Reusing a large block whole keeps the invariant. */
  lemma ReuseWholeInv(h: Heap, rounded: u64, i: nat)
    requires Inv(h) && i < |h.large|
    requires LARGE_THRESHOLD < rounded <= h.large[i].size && rounded % 16 == 0
    requires !SplitsBlock(h.large[i], rounded)
    ensures Inv(ReuseLarge(h, rounded, i).0)
  {
    var (h', a) := ReuseLarge(h, rounded, i);
    ShrinkPlacement(h, h', a, rounded);
    ReuseWholeLarge(h, rounded, i);
    ReuseWholeAccounted(h, rounded, i);
    ReuseWholeLists(h, rounded, i);
  }

  /** Splitting puts the residual's header inside the block in front of it. */
  lemma SplitOverlaps(h: Heap, rounded: u64, i: nat)
    requires Inv(h) && i < |h.large|
    requires LARGE_THRESHOLD < rounded <= h.large[i].size
    requires SplitsBlock(h.large[i], rounded)
    ensures !BlocksDisjoint(ReuseLarge(h, rounded, i).0)
  {
    var (h', a) := ReuseLarge(h, rounded, i);
    assert a in h'.sizes && a + rounded in h'.sizes;
  }

  /** An allocation keeps the heap invariant exactly when it does not split a large block. */
  lemma AllocKeepsInv(h: Heap, size: u64)
    requires Inv(h)
    ensures Inv(Alloc(h, size).0) <==> !Splits(h, size)
  {
    var rounded := RoundUp(size);
    RoundUpFits(size);
    if size == 0 || rounded == 0 {
    } else if rounded <= LARGE_THRESHOLD {
      var k := ClassIndex(rounded);
      ClassFacts(ClassIndex(size));
      if h.lists[k] != [] {
        ReuseClassInv(h, k);
      } else if BumpFits(h.base, h.end, h.bump, rounded) {
        CarveInv(h, rounded);
      }
    } else {
      match BestFit(h.large, rounded, |h.large|)
      case Some(i) =>
        if SplitsBlock(h.large[i], rounded) {
          SplitOverlaps(h, rounded, i);
        } else {
          ReuseWholeInv(h, rounded, i);
        }
      case None =>
        if BumpFits(h.base, h.end, h.bump, rounded) {
          CarveInv(h, rounded);
        }
    }
  }

  /** Two calls make a heap on which a third one splits: a large block freed, a smaller one asked for. */
  lemma SplitIsReached(base: u64, end: u64)
    requires 0 < base <= end && BumpFits(base, end, base, 200000)
    ensures var (h1, a) := Alloc(Empty(base, end), 200000);
            var (h2, freed) := Free(h1, a);
            freed && Inv(h2) && Splits(h2, 70000) && !Inv(Alloc(h2, 70000).0)
  {
    var (h1, a) := Alloc(Empty(base, end), 200000);
    EmptyInv(base, end);
    AllocKeepsInv(Empty(base, end), 200000);
    AllocResult(Empty(base, end), 200000);
    FreeKeepsInv(h1, a);
    var h2 := Free(h1, a).0;
    assert h2.large == [LargeBlock(a, 200000)];
    AllocKeepsInv(h2, 70000);
  }

  /** Rounding twice changes nothing, so a class block has exactly its class's size. */
  lemma RoundUpIsClass(size: u64)
    requires 0 < size <= LARGE_THRESHOLD
    ensures RoundUp(size) == SizeClass(ClassIndex(RoundUp(size)))
  {
    ClassFacts(ClassIndex(size));
  }

  /** What a caller gets: null, or a block that was not live, is now, and is big enough. */
  lemma AllocResult(h: Heap, size: u64)
    requires Inv(h)
    ensures var (h', a) := Alloc(h, size);
            if a == 0 then h' == h
            else a !in h.live && h'.live == h.live + {a} && a in h'.sizes && size <= h'.sizes[a] == RoundUp(size)
  {
    RoundUpFits(size);
    var rounded := RoundUp(size);
    if size != 0 && rounded != 0 {
      if rounded <= LARGE_THRESHOLD {
        RoundUpIsClass(size);
      }
      if BumpFits(h.base, h.end, h.bump, rounded) {
        CarvePlacement(h, rounded);
      }
    }
  }

  /** Allocating resizes no live block and does not move the region. */
  lemma AllocKeepsLiveSizes(h: Heap, size: u64, a: u64)
    requires Inv(h) && a in h.live
    ensures var h' := Alloc(h, size).0;
            h'.base == h.base && h'.end == h.end &&
            (!Splits(h, size) ==> a in h'.sizes && h'.sizes[a] == h.sizes[a])
  {
    var rounded := RoundUp(size);
    if BumpFits(h.base, h.end, h.bump, rounded) && size != 0 && rounded != 0 {
      RoundUpFits(size);
      CarvePlacement(h, rounded);
    }
  }

  lemma AllocKeepsRegion(h: Heap, size: u64)
    requires |h.lists| == CLASS_COUNT
    ensures Alloc(h, size).0.base == h.base && Alloc(h, size).0.end == h.end
  {
  }

  lemma FreeKeepsInv(h: Heap, a: u64)
    requires Inv(h)
    ensures Inv(Free(h, a).0)
  {
    if a in h.live { ReleaseInv(h, a); }
  }
}
