/** The host side of the process heap: `GuestHeap` with its stacks and bookkeeping, and the
    coherent operations that keep the guest-visible control block and headers in step. */
module GuestHeapModel {
  import opened Words
  import opened HeapSpec
  import opened HeapWords
  import opened HeapSpace

  /** Guest memory behind an engine; reads of unmapped words fail, writes to them are dropped. */
  class Engine {
    var words: Memory

    method ReadU64(va: u64) returns (r: Option<u64>)
      ensures r == if va in words then Some(words[va]) else None
    {
      r := if va in words then Some(words[va]) else None;
    }

    method WriteU64(va: u64, value: u64)
      modifies this
      ensures words == if va in old(words) then old(words)[va := value] else old(words)
    {
      if va in words {
        words := words[va := value];
      }
    }
  }

  /** A `Vec` used as a stack: its last element is popped first. */
  ghost predicate IsStackOf(stack: seq<u64>, list: seq<u64>) {
    && |stack| == |list|
    && forall i :: 0 <= i < |list| ==> list[i] == stack[|stack| - 1 - i]
  }

  method SizeClassIndex(size: u64) returns (k: nat)
    ensures k == ClassIndex(size)
  {
    k := 0;
    while k < CLASS_COUNT
      invariant k <= CLASS_COUNT
      invariant forall j :: 0 <= j < k ==> SizeClass(j) < size
    {
      if size <= SizeClass(k) {
        LeastClass(size, k);
        return;
      }
      k := k + 1;
    }
    k := CLASS_COUNT - 1;
    LeastClass(size, k);
  }

  lemma LeastClass(size: u64, k: nat)
    requires k < CLASS_COUNT
    requires forall j :: 0 <= j < k ==> SizeClass(j) < size
    requires k == CLASS_COUNT - 1 || size <= SizeClass(k)
    ensures k == ClassIndex(size)
  {
    if ClassIndex(size) < k { assert false; }
  }

  method RoundUpSize(size: u64) returns (rounded: u64)
    ensures rounded == RoundUp(size)
  {
    var s := if size < 1 then 1 else size;
    if s <= LARGE_THRESHOLD {
      var k := SizeClassIndex(s);
      rounded := SizeClass(k);
    } else {
      var t := WrapAdd(s, 15);
      rounded := t - t % 16;
    }
  }

  /** Every entry of the host's `live` map has its block's size. */
  ghost predicate SizesAgree(h: Heap, live: map<u64, u64>) {
    forall a :: a in live ==> a in h.sizes && live[a] == h.sizes[a]
  }

  /** Recording an allocation in the `live` map keeps it in step with the heap. */
  lemma AllocKeepsSizes(h: Heap, size: u64, live: map<u64, u64>)
    requires Inv(h) && !Splits(h, size) && SizesAgree(h, live)
    ensures var (h', a) := Alloc(h, size);
            var live' := if a == 0 then live else live[a := RoundUp(size)];
            SizesAgree(h', live') && (live.Keys == h.live ==> live'.Keys == h'.live)
  {
    AllocResult(h, size);
    var (h', a) := Alloc(h, size);
    forall b | b in h.sizes && b != a
      ensures b in h'.sizes && h'.sizes[b] == h.sizes[b]
    {
      AllocKeepsOtherSizes(h, size, b);
    }
  }

  /** The header of a block about to be carved is a mapped word. */
  lemma CarveMapped(h: Heap, ctrl: u64, words: Memory, rounded: u64)
    requires InRegion(h) && BlocksDisjoint(h) && Layout(h.base, h.end, ctrl, words)
    requires 0 < rounded && rounded % 16 == 0 && BumpFits(h.base, h.end, h.bump, rounded)
    ensures Carve(h, rounded).1 >= 8 && Carve(h, rounded).1 - 8 in words
  {
    CarvePlacement(h, rounded);
    BlockMapped(Carve(h, rounded).0, ctrl, words, Carve(h, rounded).1);
  }

  /** So is the header of any block that serves a large request. */
  lemma LargeHeaderMapped(h: Heap, ctrl: u64, words: Memory, size: u64)
    requires Inv(h) && Repr(h, ctrl, words) && size != 0 && RoundUp(size) > LARGE_THRESHOLD
    ensures Alloc(h, size).1 != 0 ==> Alloc(h, size).1 >= 8 && Alloc(h, size).1 - 8 in words
  {
    RoundUpFits(size);
    match BestFit(h.large, RoundUp(size), |h.large|)
    case Some(i) =>
      BlockMapped(h, ctrl, words, h.large[i].address);
    case None =>
      if BumpFits(h.base, h.end, h.bump, RoundUp(size)) { CarveMapped(h, ctrl, words, RoundUp(size)); }
  }

  /** What a large request writes: the block's header and the cursor. */
  lemma LargeWords(h: Heap, ctrl: u64, words: Memory, size: u64)
    requires |h.lists| == CLASS_COUNT && RoundUp(size) > LARGE_THRESHOLD
    ensures var (h', a) := Alloc(h, size);
            AllocWords(h, ctrl, words, size) ==
              if a == 0 then words else words[WrapSub(a, 8) := RoundUp(size)][ctrl := h'.bump]
  {
  }

  lemma AllocKeepsOtherSizes(h: Heap, size: u64, b: u64)
    requires Inv(h) && !Splits(h, size) && b in h.sizes && b != Alloc(h, size).1
    ensures b in Alloc(h, size).0.sizes && Alloc(h, size).0.sizes[b] == h.sizes[b]
  {
  }

  class GuestHeap {
    const base: u64
    const end: u64
    var bump: u64
    var freeLists: seq<seq<u64>>
    var largeFree: seq<LargeBlock>
    var live: map<u64, u64>
    var guestCtrlVa: Option<u64>
    /** The allocator this object implements. */
    ghost var heap: Heap

    /** What the `Vec` mode needs: every field is the image of the abstract heap. */
    ghost predicate PlainValid()
      reads this
    {
      && guestCtrlVa.None?
      && Inv(heap) && heap.base == base && heap.end == end && heap.bump == bump
      && StacksMatch()
      && largeFree == heap.large
      && HostExact() && HostSizes()
    }

    /** Guest memory and the host's books stand for allocator `h`. */
    ghost predicate Explains(engine: Engine, h: Heap)
      reads this, engine
    {
      && guestCtrlVa.Some?
      && Inv(h) && h.base == base && h.end == end
      && Repr(h, guestCtrlVa.value, engine.words)
      && largeFree == h.large
      && SizesAgree(h, live)
    }

    /** What the coherent mode needs: lists, bump and headers live in guest memory. */
    ghost predicate CoherentValid(engine: Engine)
      reads this, engine
    {
      Explains(engine, heap)
    }

    ghost predicate Valid(engine: Engine)
      reads this, engine
    {
      if guestCtrlVa.None? then PlainValid() else CoherentValid(engine)
    }

    ghost predicate StacksMatch()
      reads this
    {
      && |freeLists| == CLASS_COUNT && |heap.lists| == CLASS_COUNT
      && forall k :: 0 <= k < CLASS_COUNT ==> IsStackOf(freeLists[k], heap.lists[k])
    }

    /** The host's `live` map names exactly the live blocks; true as long as no in-guest
        helper has run. */
    ghost predicate HostExact()
      reads this
    {
      live.Keys == heap.live
    }

    ghost predicate HostSizes()
      reads this
    {
      SizesAgree(heap, live)
    }

    constructor (base: u64, end: u64)
      requires 0 < base <= end
      ensures PlainValid() && heap == Empty(base, end)
    {
      this.base, this.end := base, end;
      bump := base;
      freeLists := seq(CLASS_COUNT, _ => []);
      largeFree := [];
      live := map[];
      guestCtrlVa := None;
      heap := Empty(base, end);
      new;
      EmptyInv(base, end);
    }

    /** Shares the control block an accelerator has planted: bump cursor at the region's base,
        all list heads null. */
    method AttachGuestControl(engine: Engine, ctrl: u64)
      requires PlainValid() && heap == Empty(base, end)
      requires Layout(base, end, ctrl, engine.words) && engine.words[ctrl] == base
      requires forall k :: 0 <= k < CLASS_COUNT ==> engine.words[HeadVa(ctrl, k)] == 0
      modifies this`guestCtrlVa
      ensures CoherentValid(engine) && guestCtrlVa == Some(ctrl) && HostExact()
    {
      guestCtrlVa := Some(ctrl);
    }

    method FindLargeFit(need: u64) returns (best: Option<nat>)
      ensures best == BestFit(largeFree, need, |largeFree|)
      ensures best.Some? ==> best.value < |largeFree|
    {
      best := None;
      for i := 0 to |largeFree|
        invariant best == BestFit(largeFree, need, i)
      {
        if largeFree[i].size >= need {
          match best
          case None => best := Some(i);
          case Some(b) =>
            if largeFree[i].size < largeFree[b].size { best := Some(i); }
        }
      }
    }

    method BumpAlloc(rounded: u64) returns (payload: u64)
      modifies this`bump, this`live
      ensures BumpFits(base, end, old(bump), rounded) ==>
                && payload == NextPayload(old(bump)) && bump == payload + rounded
                && live == old(live)[payload := rounded]
      ensures !BumpFits(base, end, old(bump), rounded) ==>
                payload == 0 && bump == old(bump) && live == old(live)
    {
      if bump + 8 >= TWO_64 { return 0; }
      var pre: u64 := bump + 8;
      var t := WrapAdd(pre, 15);
      payload := t - t % 16;
      if payload < base { return 0; }
      if payload + rounded >= TWO_64 { return 0; }
      var stop: u64 := payload + rounded;
      if stop > end || stop < payload { return 0; }
      bump := stop;
      live := live[payload := rounded];
    }

    /** `Vec::pop` on the stack of class `k`. */
    method PopStack(k: nat) returns (r: Option<u64>)
      requires Inv(heap) && k < CLASS_COUNT && StacksMatch()
      modifies this`freeLists
      ensures r.None? <==> heap.lists[k] == []
      ensures r.None? ==> freeLists == old(freeLists)
      ensures r.Some? ==>
                && r.value == heap.lists[k][0] && r.value != 0
                && |freeLists| == CLASS_COUNT
                && forall c :: 0 <= c < CLASS_COUNT ==> IsStackOf(freeLists[c], ReuseClass(heap, k).0.lists[c])
    {
      var stack := freeLists[k];
      assert IsStackOf(stack, heap.lists[k]);
      if |stack| == 0 { return None; }
      assert heap.lists[k][0] in heap.sizes;
      freeLists := freeLists[k := stack[..|stack| - 1]];
      r := Some(stack[|stack| - 1]);
    }

    /** Takes large block `i` for `rounded` bytes; a big enough rest becomes a free block. */
    method TakeLarge(i: nat, rounded: u64) returns (addr: u64)
      requires i < |largeFree| && largeFree == heap.large
      modifies this`largeFree, this`live
      ensures var (h', a) := ReuseLarge(heap, rounded, i);
              addr == a && largeFree == h'.large && live == old(live)[a := rounded]
    {
      var block := largeFree[i];
      largeFree := SwapRemove(largeFree, i);
      if block.size >= SatAdd(rounded, LARGE_THRESHOLD) {
        var residual := SatAdd(block.address, rounded);
        var left := SatSub(block.size, rounded);
        if residual > block.address && left >= 16 {
          largeFree := largeFree + [LargeBlock(residual, left)];
        }
      }
      live := live[block.address := rounded];
      return block.address;
    }

    /** `alloc`: class stacks, large best fit, or the bump cursor. Used directly in the `Vec`
        mode and, for large requests, from the coherent mode. */
    method AllocPlain(size: u64) returns (addr: u64)
      requires Inv(heap)
      requires heap.base == base && heap.end == end && heap.bump == bump && largeFree == heap.large
      requires RoundUp(size) <= LARGE_THRESHOLD ==> StacksMatch()
      modifies this`bump, this`freeLists, this`largeFree, this`live, this`heap
      ensures heap == Alloc(old(heap), size).0 && addr == Alloc(old(heap), size).1
      ensures heap.bump == bump && largeFree == heap.large
      ensures old(StacksMatch()) ==> StacksMatch()
      ensures live == if addr == 0 then old(live) else old(live)[addr := RoundUp(size)]
    {
      ghost var h := heap;
      var rounded := RoundUpSize(size);
      RoundUpFits(size);
      if size == 0 || rounded == 0 { return 0; }
      if rounded <= LARGE_THRESHOLD {
        var k := SizeClassIndex(rounded);
        heap := h;
        var popped := PopStack(k);
        match popped
        case Some(a) =>
          heap := ReuseClass(h, k).0;
          live := live[a := rounded];
          return a;
        case None =>
          addr := BumpAlloc(rounded);
          heap := Carve(h, rounded).0;
      } else {
        var fit := FindLargeFit(rounded);
        heap := h;
        match fit
        case Some(i) =>
          addr := TakeLarge(i, rounded);
          heap := ReuseLarge(h, rounded, i).0;
        case None =>
          addr := BumpAlloc(rounded);
          heap := Carve(h, rounded).0;
      }
    }

    method SyncBumpFromGuest(engine: Engine)
      modifies this`bump
      ensures guestCtrlVa.Some? && guestCtrlVa.value in engine.words ==> bump == engine.words[guestCtrlVa.value]
    {
      if guestCtrlVa.None? { return; }
      var b := engine.ReadU64(guestCtrlVa.value);
      if b.Some? { bump := b.value; }
    }

    method SyncBumpToGuest(engine: Engine)
      modifies engine
      ensures engine.words ==
                if guestCtrlVa.Some? && guestCtrlVa.value in old(engine.words)
                then old(engine.words)[guestCtrlVa.value := bump] else old(engine.words)
    {
      if guestCtrlVa.None? { return; }
      engine.WriteU64(guestCtrlVa.value, bump);
    }

    /** Pops the guest-visible list of class `k`, if its head is usable. */
    method PopGuestList(engine: Engine, k: nat, rounded: u64) returns (r: Option<u64>)
      requires CoherentValid(engine) && k < CLASS_COUNT
      modifies engine
      ensures r.None? <==> heap.lists[k] == []
      ensures r.None? ==> engine.words == old(engine.words)
      ensures r.Some? ==>
                var (h', a) := ReuseClass(heap, k);
                && r.value == a && a != 0
                && engine.words == old(engine.words)[HeadVa(guestCtrlVa.value, k) := First(h'.lists[k])][WrapSub(a, 8) := rounded]
    {
      ghost var words := engine.words;
      var hva := HeadVa(guestCtrlVa.value, k);
      Separation(heap, guestCtrlVa.value, words);
      var head := engine.ReadU64(hva);
      assert IsChain(words, words[hva], heap.lists[k]);
      if heap.lists[k] != [] {
        assert heap.lists[k][0] in heap.sizes;
        ChainTail(words, words[hva], heap.lists[k]);
      }
      if head.Some? && head.value != 0 && head.value >= base && head.value < end {
        var next := engine.ReadU64(head.value);
        engine.WriteU64(hva, if next.Some? then next.value else 0);
        engine.WriteU64(WrapSub(head.value, 8), rounded);
        return head;
      }
      return None;
    }

    /** Carves from the guest-visible bump cursor and writes the header. */
    method CarveCoherent(engine: Engine, rounded: u64) returns (addr: u64)
      requires CoherentValid(engine) && 0 < rounded && rounded % 16 == 0
      modifies this`bump, this`live, engine
      ensures addr == Carve(heap, rounded).1
      ensures engine.words == if addr == 0 then old(engine.words)
                else old(engine.words)[WrapSub(addr, 8) := rounded][guestCtrlVa.value := Carve(heap, rounded).0.bump]
      ensures live == if addr == 0 then old(live) else old(live)[addr := rounded]
    {
      SyncBumpFromGuest(engine);
      addr := BumpAlloc(rounded);
      if addr != 0 {
        CarveMapped(heap, guestCtrlVa.value, engine.words, rounded);
        engine.WriteU64(WrapSub(addr, 8), rounded);
        SyncBumpToGuest(engine);
      }
    }

    /** A class-sized request in the coherent mode: guest-visible list, else a fresh block. */
    method ClassCoherent(engine: Engine, size: u64, rounded: u64) returns (addr: u64)
      requires CoherentValid(engine) && size != 0 && rounded == RoundUp(size) && 0 < rounded <= LARGE_THRESHOLD
      modifies this`bump, this`live, this`heap, engine
      ensures heap == Alloc(old(heap), size).0 && addr == Alloc(old(heap), size).1
      ensures engine.words == AllocWords(old(heap), guestCtrlVa.value, old(engine.words), size)
      ensures largeFree == heap.large
      ensures live == if addr == 0 then old(live) else old(live)[addr := RoundUp(size)]
    {
      ghost var h := heap;
      RoundUpFits(size);
      var k := SizeClassIndex(rounded);
      var head := PopGuestList(engine, k, rounded);
      if head.Some? {
        addr := head.value;
        live := live[addr := rounded];
        heap := ReuseClass(h, k).0;
      } else {
        addr := CarveCoherent(engine, rounded);
        heap := Carve(h, rounded).0;
      }
    }

    /** A large request in the coherent mode: host free list, guest bump cursor. */
    method LargeCoherent(engine: Engine, size: u64) returns (addr: u64)
      requires CoherentValid(engine) && RoundUp(size) > LARGE_THRESHOLD && size != 0
      modifies this`bump, this`freeLists, this`largeFree, this`live, this`heap, engine
      ensures heap == Alloc(old(heap), size).0 && addr == Alloc(old(heap), size).1
      ensures engine.words == AllocWords(old(heap), guestCtrlVa.value, old(engine.words), size)
      ensures largeFree == heap.large
      ensures live == if addr == 0 then old(live) else old(live)[addr := RoundUp(size)]
    {
      LargeHeaderMapped(heap, guestCtrlVa.value, engine.words, size);
      LargeWords(heap, guestCtrlVa.value, engine.words, size);
      SyncBumpFromGuest(engine);
      addr := AllocPlain(size);
      if addr != 0 {
        if addr in live { engine.WriteU64(WrapSub(addr, 8), live[addr]); }
        SyncBumpToGuest(engine);
      }
    }

    /** `alloc_coherent`: the abstract allocation, its exact effect on guest memory, and the
        host's books, all kept in step. */
    method AllocCoherent(engine: Engine, size: u64) returns (addr: u64)
      requires Valid(engine)
      modifies this`bump, this`freeLists, this`largeFree, this`live, this`heap, engine
      ensures heap == Alloc(old(heap), size).0 && addr == Alloc(old(heap), size).1
      ensures engine.words ==
                if guestCtrlVa.None? then old(engine.words)
                else AllocWords(old(heap), guestCtrlVa.value, old(engine.words), size)
      ensures live == if addr == 0 then old(live) else old(live)[addr := RoundUp(size)]
      ensures !old(Splits(heap, size)) ==> Valid(engine)
      ensures !old(Splits(heap, size)) && old(HostExact()) ==> HostExact()
    {
      ghost var h, words, books := heap, engine.words, live;
      var rounded := RoundUpSize(size);
      if guestCtrlVa.None? {
        addr := AllocPlain(size);
      } else if size == 0 || rounded == 0 {
        addr := 0;
      } else if rounded <= LARGE_THRESHOLD {
        addr := ClassCoherent(engine, size, rounded);
      } else {
        addr := LargeCoherent(engine, size);
      }
      if !Splits(h, size) {
        AllocKeepsInv(h, size);
        AllocKeepsSizes(h, size, books);
        AllocKeepsRegion(h, size);
        if guestCtrlVa.Some? { AllocRepr(h, guestCtrlVa.value, words, size); }
      }
    }

    /** `free`: refused unless the block is live. */
    method FreePlain(address: u64) returns (ok: bool)
      requires PlainValid()
      modifies this`freeLists, this`largeFree, this`live, this`heap
      ensures heap == Free(old(heap), address).0 && ok == Free(old(heap), address).1
      ensures PlainValid()
    {
      ghost var h := heap;
      FreeKeepsInv(h, address);
      if address == 0 || address !in live { return false; }
      var size := live[address];
      live := live - {address};
      heap := Release(h, address);
      if size <= LARGE_THRESHOLD {
        var k := SizeClassIndex(size);
        assert IsStackOf(freeLists[k], h.lists[k]);
        freeLists := freeLists[k := freeLists[k] + [address]];
      } else {
        largeFree := largeFree + [LargeBlock(address, size)];
      }
      return true;
    }

    /** Null, an address outside the region, or one the allocator has handed out. */
    ghost predicate Freeable(address: u64)
      reads this
    {
      address == 0 || address < base || end <= address || address in heap.sizes
    }

    /** A block that an in-guest helper freed and the host still takes for live. */
    ghost predicate Stale(address: u64)
      reads this
    {
      address in live && address !in heap.live
    }

    /** `free_known_block`: pushes without asking whether the block is free already. */
    method FreeKnownBlock(engine: Engine, ctrl: u64, address: u64, size: u64) returns (ok: bool)
      requires Layout(base, end, ctrl, engine.words) && address in engine.words && WrapSub(address, 8) in engine.words
      requires !InControl(ctrl, address)
      modifies this`largeFree, engine
      ensures ok == (size != 0)
      ensures size == 0 ==> engine.words == old(engine.words) && largeFree == old(largeFree)
      ensures size > LARGE_THRESHOLD ==>
                && largeFree == old(largeFree) + [LargeBlock(address, size)]
                && engine.words == old(engine.words)[WrapSub(address, 8) := 0]
      ensures 0 < size <= LARGE_THRESHOLD ==>
                && largeFree == old(largeFree)
                && engine.words == old(engine.words)
                     [address := old(engine.words)[HeadVa(ctrl, ClassIndex(size))]]
                     [HeadVa(ctrl, ClassIndex(size)) := address]
                     [WrapSub(address, 8) := 0]
    {
      if size == 0 { return false; }
      if size > LARGE_THRESHOLD {
        largeFree := largeFree + [LargeBlock(address, size)];
      } else {
        var k := SizeClassIndex(size);
        var hva := HeadVa(ctrl, k);
        var oldHead := engine.ReadU64(hva);
        engine.WriteU64(address, if oldHead.Some? then oldHead.value else 0);
        engine.WriteU64(hva, address);
      }
      engine.WriteU64(WrapSub(address, 8), 0);
      return true;
    }

    /** `free_coherent`: the abstract free and its exact effect on guest memory; null is accepted in
        the coherent mode and refused otherwise. It goes wrong on a stale block and on no other: that
        one is accepted, and what it leaves behind is not a heap any more. */
    method FreeCoherent(engine: Engine, address: u64) returns (ok: bool)
      requires Valid(engine) && Freeable(address)
      modifies this`freeLists, this`largeFree, this`live, this`heap, engine
      ensures heap == Free(old(heap), address).0
      ensures old(Stale(address)) ==> ok
      ensures !old(Stale(address)) ==>
                && ok == (if address == 0 then guestCtrlVa.Some? else Free(old(heap), address).1)
                && engine.words ==
                     if guestCtrlVa.None? then old(engine.words)
                     else FreeWords(old(heap), guestCtrlVa.value, old(engine.words), address)
      ensures Valid(engine) <==> !old(Stale(address))
      ensures old(Stale(address)) ==> forall h: Heap :: !Explains(engine, h)
      ensures old(HostExact()) ==> HostExact()
    {
      NullNeverLive(heap);
      if address == 0 && guestCtrlVa.Some? { return true; }
      if guestCtrlVa.None? {
        ok := FreePlain(address);
        return;
      }
      if address in live {
        ok := FreeListed(engine, address);
        return;
      }
      ok := FreeUnlisted(engine, address);
    }

    /** The free of a block the host's books do not know: the header decides. */
    method FreeUnlisted(engine: Engine, address: u64) returns (ok: bool)
      requires CoherentValid(engine) && Freeable(address) && address != 0 && address !in live
      modifies this`freeLists, this`largeFree, this`heap, engine
      ensures heap == Free(old(heap), address).0 && ok == Free(old(heap), address).1
      ensures engine.words == FreeWords(old(heap), guestCtrlVa.value, old(engine.words), address)
      ensures CoherentValid(engine)
      ensures old(HostExact()) ==> HostExact()
    {
      ghost var h, words := heap, engine.words;
      var ctrl := guestCtrlVa.value;
      FreeKeepsInv(h, address);
      FreeRepr(h, ctrl, words, address);
      Separation(h, ctrl, words);
      if address >= base && address < end {
        var header := engine.ReadU64(WrapSub(address, 8));
        if header.Some? && header.value != 0 {
          ok := FreeKnownBlock(engine, ctrl, address, header.value);
          heap := Release(h, address);
          return;
        }
      }
      return false;
    }

    /** The free of a block in the host's books. */
    method FreeListed(engine: Engine, address: u64) returns (ok: bool)
      requires CoherentValid(engine) && address in live
      modifies this`freeLists, this`largeFree, this`live, this`heap, engine
      ensures ok && heap == Free(old(heap), address).0 && live == old(live) - {address}
      ensures !old(Stale(address)) ==>
                && CoherentValid(engine)
                && engine.words == FreeWords(old(heap), guestCtrlVa.value, old(engine.words), address)
      ensures old(Stale(address)) ==> forall h: Heap :: !Explains(engine, h)
    {
      ghost var h, words, stale := heap, engine.words, Stale(address);
      var ctrl, size := guestCtrlVa.value, live[address];
      BlockPlace(h, ctrl, words, address);
      live := live - {address};
      ok := FreeKnownBlock(engine, ctrl, address, size);
      if stale {
        StaleKnownBlock(h, ctrl, words, address, engine.words, largeFree);
      } else {
        LiveKnownBlock(h, ctrl, words, address, live, engine.words, largeFree);
        heap := Release(h, address);
      }
    }
  }

  /** Where a block handed out once lies. */
  lemma BlockPlace(h: Heap, ctrl: u64, words: Memory, a: u64)
    requires Inv(h) && Repr(h, ctrl, words) && a in h.sizes
    ensures 8 <= a && a in words && a - 8 in words && !InControl(ctrl, a) && h.sizes[a] > 0
    ensures h.sizes[a] <= LARGE_THRESHOLD ==> HeadVa(ctrl, ClassIndex(h.sizes[a])) in words
  {
    Separation(h, ctrl, words);
  }

  /** `free_known_block` has run on a block. */
  ghost predicate Pushed(h: Heap, ctrl: u64, words: Memory, a: u64, words': Memory, large': seq<LargeBlock>)
    requires a in h.sizes
    requires h.sizes[a] <= LARGE_THRESHOLD ==> HeadVa(ctrl, ClassIndex(h.sizes[a])) in words
  {
    if h.sizes[a] > LARGE_THRESHOLD
    then large' == h.large + [LargeBlock(a, h.sizes[a])] && words' == words[WrapSub(a, 8) := 0]
    else large' == h.large && words' == PushedWords(ctrl, words, ClassIndex(h.sizes[a]), a)
  }

  /** On a live block it is the abstract free. */
  lemma LiveKnownBlock(h: Heap, ctrl: u64, words: Memory, a: u64, live': map<u64, u64>, words': Memory, large': seq<LargeBlock>)
    requires Inv(h) && Repr(h, ctrl, words) && a in h.live && a in h.sizes && SizesAgree(h, live')
    requires h.sizes[a] <= LARGE_THRESHOLD ==> HeadVa(ctrl, ClassIndex(h.sizes[a])) in words
    requires Pushed(h, ctrl, words, a, words', large')
    ensures var r := Free(h, a).0;
            && r == Release(h, a) && Inv(r) && r.base == h.base && r.end == h.end
            && words' == FreeWords(h, ctrl, words, a) && Repr(r, ctrl, words') && large' == r.large && SizesAgree(r, live')
  {
    FreeKeepsInv(h, a);
    FreeRepr(h, ctrl, words, a);
    if h.sizes[a] <= LARGE_THRESHOLD {
      var k := ClassIndex(h.sizes[a]);
      assert IsChain(words, words[HeadVa(ctrl, k)], h.lists[k]);
    }
  }

  /** On a free one it leaves what is no heap. */
  lemma StaleKnownBlock(h: Heap, ctrl: u64, words: Memory, a: u64, words': Memory, large': seq<LargeBlock>)
    requires Inv(h) && Repr(h, ctrl, words) && a in h.sizes && a !in h.live
    requires h.sizes[a] <= LARGE_THRESHOLD ==> HeadVa(ctrl, ClassIndex(h.sizes[a])) in words
    requires Pushed(h, ctrl, words, a, words', large')
    ensures forall h': Heap :: Inv(h') && Repr(h', ctrl, words') ==> h'.large != large'
  {
    if h.sizes[a] <= LARGE_THRESHOLD {
      var k := ClassIndex(h.sizes[a]);
      var i :| 0 <= i < |h.lists[k]| && h.lists[k][i] == a;
      forall h': Heap ensures !Repr(h', ctrl, words') { StalePushLoops(h, ctrl, words, k, i, h'); }
    } else {
      StaleLarge(h, a);
    }
  }

  /** A large block that is already free is listed twice after another free. */
  lemma StaleLarge(h: Heap, a: u64)
    requires Inv(h) && a in h.sizes && a !in h.live && h.sizes[a] > LARGE_THRESHOLD
    ensures forall h': Heap :: h'.large == h.large + [LargeBlock(a, h.sizes[a])] ==> !Inv(h')
  {
    var i :| 0 <= i < |h.large| && h.large[i] == LargeBlock(a, h.sizes[a]);
    forall h': Heap | h'.large == h.large + [LargeBlock(a, h.sizes[a])]
      ensures !LargeSound(h')
    {
      assert h'.large[i].address == h'.large[|h.large|].address;
    }
  }

  /** One call of a client, made on both heaps. */
  method ReplayStep(coherent: GuestHeap, engine: Engine, plain: GuestHeap, op: Op) returns (a: u64, b: u64)
    requires coherent.CoherentValid(engine) && coherent.HostExact()
    requires plain.PlainValid() && coherent != plain && coherent.heap == plain.heap
    requires coherent.base == plain.base && coherent.end == plain.end
    requires Legal(Machine(coherent.heap, engine.words), op)
    modifies coherent, plain, engine
    ensures a == Answer(old(Machine(coherent.heap, engine.words)), op)
    ensures b == if op == Dispose(0) then 0 else a
    ensures op == Dispose(0) ==> a == 1
    ensures coherent.heap == plain.heap
    ensures coherent.guestCtrlVa == old(coherent.guestCtrlVa)
    ensures Machine(coherent.heap, engine.words) ==
              Step(old(Machine(coherent.heap, engine.words)), old(coherent.guestCtrlVa.value), op)
    ensures coherent.CoherentValid(engine) && coherent.HostExact() && plain.PlainValid()
  {
    ghost var ctrl, m := coherent.guestCtrlVa.value, Machine(coherent.heap, engine.words);
    match op {
      case Malloc(size) =>
        a := coherent.AllocCoherent(engine, size);
        b := plain.AllocCoherent(engine, size);
      case Dispose(address) =>
        NullNeverLive(m.heap);
        var x := coherent.FreeCoherent(engine, address);
        var y := plain.FreeCoherent(engine, address);
        a, b := if x then 1 else 0, if y then 1 else 0;
      case Store(w, v) =>
        StoreMapped(m, ctrl, w);
        StepKeepsGood(m, ctrl, op);
        engine.WriteU64(w, v);
        a, b := 0, 0;
    }
  }

  /** Replays one client on both heaps: a linked-list heap in guest memory and a `Vec` heap.
      They return the same addresses and verdicts call by call, double frees included, except
      that freeing null succeeds on the first and fails on the second; and guest memory goes
      through exactly the run of the abstract machine. */
  method ReplayBoth(coherent: GuestHeap, engine: Engine, plain: GuestHeap, ops: seq<Op>)
      returns (r: seq<u64>, s: seq<u64>)
    requires coherent.CoherentValid(engine) && coherent.HostExact()
    requires plain.PlainValid() && coherent != plain && coherent.heap == plain.heap
    requires coherent.base == plain.base && coherent.end == plain.end
    requires LegalRun(Machine(coherent.heap, engine.words), coherent.guestCtrlVa.value, ops)
    modifies coherent, plain, engine
    ensures r == Answers(old(Machine(coherent.heap, engine.words)), old(coherent.guestCtrlVa.value), ops)
    ensures |s| == |ops|
    ensures forall i :: 0 <= i < |ops| ==> (r[i] == s[i] <==> ops[i] != Dispose(0))
    ensures coherent.heap == plain.heap
    ensures coherent.guestCtrlVa == old(coherent.guestCtrlVa)
    ensures Machine(coherent.heap, engine.words) ==
              Run(old(Machine(coherent.heap, engine.words)), old(coherent.guestCtrlVa.value), ops)
    ensures coherent.CoherentValid(engine) && plain.PlainValid()
    decreases |ops|
  {
    if ops == [] { return [], []; }
    var a, b := ReplayStep(coherent, engine, plain, ops[0]);
    r, s := ReplayBoth(coherent, engine, plain, ops[1..]);
    r, s := [a] + r, [b] + s;
  }

  lemma NullNeverLive(h: Heap)
    requires Inv(h)
    ensures 0 !in h.sizes && 0 !in h.live
  {
  }

  lemma StoreMapped(m: Machine, ctrl: u64, w: u64)
    requires Good(m, ctrl) && exists a :: a in m.heap.live && InPayload(m.heap, a, w)
    ensures w in m.words
  {
    var a :| a in m.heap.live && InPayload(m.heap, a, w);
    PayloadIsSeparate(m.heap, ctrl, m.words, a, w);
  }
}
