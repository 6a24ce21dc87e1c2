/** When an allocation is answered, from where, and what a split leaves behind. */
module HeapAnswers {
  import opened Words
  import opened HeapSpec

  // ---- when a request is served, and from where ----------------------------------------

  /** The class sizes are 16 and, alternately, powers of two and three times powers of two. */
  lemma {:induction false} ClassSizesAre(k: nat)
    requires k < CLASS_COUNT
    ensures SizeClass(0) == 16 && SizeClass(1) == 32 && SizeClass(2) == 48
    ensures k + 2 < CLASS_COUNT && k > 0 ==> SizeClass(k + 2) == 2 * SizeClass(k)
    ensures CLASS_COUNT == 24 && LARGE_THRESHOLD == SizeClass(23) == 0x1_0000
  {
  }

  /** A free block that the request could be given: of exactly the rounded size when it is class-sized, at
      least that long when it is large. */
  predicate Fits(h: Heap, a: u64, size: u64) {
    && a in h.sizes && a !in h.live
    && if RoundUp(size) <= 0x1_0000 then h.sizes[a] == RoundUp(size) else h.sizes[a] >= RoundUp(size)
  }

  lemma ClassListFits(h: Heap, size: u64)
    requires Inv(h) && 0 < RoundUp(size) <= LARGE_THRESHOLD && 0 < size <= LARGE_THRESHOLD
    ensures var list := h.lists[ClassIndex(RoundUp(size))];
            && (list == [] <==> forall b :: !Fits(h, b, size))
            && (list != [] ==> Fits(h, list[0], size))
  {
    var k := ClassIndex(RoundUp(size));
    RoundUpIsClass(size);
    var list := h.lists[k];
    if list != [] {
      assert list[0] in h.sizes && list[0] !in h.live && h.sizes[list[0]] == SizeClass(k);
      assert Fits(h, list[0], size);
    }
  }

  lemma LargeListFits(h: Heap, size: u64)
    requires Inv(h) && RoundUp(size) > LARGE_THRESHOLD
    ensures var fit := BestFit(h.large, RoundUp(size), |h.large|);
            && (fit.None? <==> forall b :: !Fits(h, b, size))
            && (fit.Some? ==>
                  var a := h.large[fit.value].address;
                  Fits(h, a, size) && forall b :: Fits(h, b, size) ==> h.sizes[a] <= h.sizes[b])
  {
    var fit := BestFit(h.large, RoundUp(size), |h.large|);
    forall b | Fits(h, b, size) ensures exists i :: 0 <= i < |h.large| && h.large[i] == LargeBlock(b, h.sizes[b]) {
      assert LargeBlock(b, h.sizes[b]) in h.large;
    }
    if fit.Some? { assert Fits(h, h.large[fit.value].address, size); }
  }

  /** Carving succeeds exactly when the rounded size fits behind the next 16-aligned address that leaves
      room for a header. */
  lemma CarveAnswers(h: Heap, rounded: u64)
    requires InRegion(h) && 0 < rounded
    ensures var next := (h.bump + 23) / 16 * 16;
            var (h', a) := Carve(h, rounded);
            && (a == 0 <==> next + rounded > h.end)
            && (a != 0 ==> a == next && h' == h.(bump := next + rounded, sizes := h.sizes[next := rounded], live := h.live + {next}))
  {
  }

  /** A request that can be rounded is refused exactly when no free block fits it and the region has no room
      left; a free block that fits comes first, the smallest such for a large request, and the
      cursor then stays. */
  lemma AllocAnswers(h: Heap, size: u64)
    requires Inv(h) && size > 0 && RoundUp(size) != 0
    ensures var next := (h.bump + 23) / 16 * 16;
            var (h', a) := Alloc(h, size);
            && (a == 0 <==> (forall b :: !Fits(h, b, size)) && next + RoundUp(size) > h.end)
            && ((forall b :: !Fits(h, b, size)) && a != 0 ==> a == next && h'.bump == next + RoundUp(size))
            && ((exists b :: Fits(h, b, size)) ==>
                  Fits(h, a, size) && h'.bump == h.bump && forall b :: Fits(h, b, size) ==> h.sizes[a] <= h.sizes[b])
  {
    RoundUpFits(size);
    CarveAnswers(h, RoundUp(size));
    if RoundUp(size) <= LARGE_THRESHOLD { ClassListFits(h, size); } else { LargeListFits(h, size); }
  }

  /** Nothing is served for nothing, nor for a size that rounding takes past 2^64. */
  lemma AllocRefuses(h: Heap, size: u64)
    requires |h.lists| == CLASS_COUNT && (size == 0 || size > 0xffff_ffff_ffff_fff0)
    ensures Alloc(h, size) == (h, 0)
  {
    RoundUpFits(size);
  }

  /** A large free block is split exactly when at least 64 KiB would be left of it; the rest begins where
      the block that is handed out ends. */
  lemma SplitLeaves(h: Heap, size: u64)
    requires Inv(h) && RoundUp(size) > LARGE_THRESHOLD && exists b :: Fits(h, b, size)
    ensures var need := RoundUp(size);
            var (h', a) := Alloc(h, size);
            && a in h.sizes && h.sizes[a] >= need
            && (Splits(h, size) <==> h.sizes[a] - need >= 0x1_0000)
            && Parted(h, h', a, need, Splits(h, size))
  {
    RoundUpFits(size);
    LargeListFits(h, size);
    ReusedParts(h, RoundUp(size), BestFit(h.large, RoundUp(size), |h.large|).value);
  }

  /** `need` bytes of the free block `a` are handed out, and the rest, if it is split off, is free. */
  ghost predicate Parted(h: Heap, h': Heap, a: u64, need: u64, split: bool)
    requires a in h.sizes && need <= h.sizes[a]
  {
    var left: u64 := h.sizes[a] - need;
    var others := multiset(h.large) - multiset{LargeBlock(a, h.sizes[a])};
    if split then
      && a + need < TWO_64 && h'.sizes == h.sizes[a := need][a + need := left]
      && multiset(h'.large) == others + multiset{LargeBlock(a + need, left)}
    else h'.sizes == h.sizes[a := need] && multiset(h'.large) == others
  }

  lemma ReusedParts(h: Heap, need: u64, i: nat)
    requires InRegion(h) && LargeSound(h) && i < |h.large| && LARGE_THRESHOLD < need <= h.large[i].size
    ensures var a := h.large[i].address;
            && a in h.sizes && need <= h.sizes[a] && ReuseLarge(h, need, i).1 == a
            && (SplitsBlock(h.large[i], need) <==> h.sizes[a] - need >= 0x1_0000)
            && Parted(h, ReuseLarge(h, need, i).0, a, need, SplitsBlock(h.large[i], need))
  {
    SwapRemoveTakes(h.large, i);
    assert h.large[i].address + h.large[i].size <= h.bump;
  }

  lemma SwapRemoveTakes<T>(s: seq<T>, i: nat)
    requires i < |s|
    ensures multiset(SwapRemove(s, i)) == multiset(s) - multiset{s[i]}
  {
    var last := |s| - 1;
    assert s == s[..last] + [s[last]];
    if i < last { assert multiset(s[..last][i := s[last]]) == multiset(s[..last]) - multiset{s[i]} + multiset{s[last]}; }
    assert SwapRemove(s, i) == if i == last then s[..last] else s[..last][i := s[last]];
  }

  /** A free is accepted exactly for a live block, which then is free; a class-sized one is the first to be handed
      out again. */
  lemma FreeAnswers(h: Heap, a: u64)
    requires Inv(h)
    ensures var (h', ok) := Free(h, a);
            && (ok <==> a in h.live) && h'.live == h.live - {a} && h'.sizes == h.sizes && h'.bump == h.bump
            && (!ok ==> h' == h)
            && (ok && h.sizes[a] <= 0x1_0000 ==> Alloc(h', h.sizes[a]).1 == a)
  {
    if a in h.live && h.sizes[a] <= 0x1_0000 {
      var k :| 0 <= k < CLASS_COUNT && h.sizes[a] == SizeClass(k);
      RoundUpIsClass(h.sizes[a]);
      RoundUpFits(h.sizes[a]);
    }
  }
}
