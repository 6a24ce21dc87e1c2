/** Base relocations: the `.reloc` blocks and the rewriting of the image they drive. */
module Relocation {
  import opened Words
  import opened Memory
  import opened PeImage

  const ABSOLUTE := 0
  const HIGHLOW := 3
  const DIR64 := 10

  /** One relocation: its type and the address it applies to. */
  datatype Fixup = Fixup(kind: int, rva: u32)

  predicate Supported(kind: int) { kind == ABSOLUTE || kind == HIGHLOW || kind == DIR64 }

  // ---- the block format ----------------------------------------------------------------

  function Number(data: Bytes, at: nat, n: nat): nat
    requires at + n <= |data|
  {
    FromLE(data[at..at + n])
  }

  function U32At(data: Bytes, at: nat): u32
    requires at + 4 <= |data|
  {
    FromLEBound(data[at..at + 4]);
    assert Pow256(4) == TWO_32;
    Number(data, at, 4)
  }

  function U16At(data: Bytes, at: nat): u16
    requires at + 2 <= |data|
  {
    FromLEBound(data[at..at + 2]);
    assert Pow256(2) == 0x1_0000;
    Number(data, at, 2)
  }

  function Wrap32(x: int): int { if x >= TWO_32 then x - TWO_32 else x }

  /** The fixup an entry stands for. */
  function EntryFixup(page: u32, entry: u16): Fixup {
    Fixup(entry / 0x1000, Wrap32(page + entry % 0x1000))
  }

  /** Fixups of `count` entries from `at` up to the first that is cut off or of an unknown type;
      false when there is such a one. */
  function EntryFixups(data: Bytes, page: u32, at: nat, count: nat): (seq<Fixup>, bool)
    decreases count, at
  {
    if count == 0 then ([], true)
    else if at + 2 > |data| then ([], false)
    else
      var f := EntryFixup(page, U16At(data, at));
      if !Supported(f.kind) then ([], false)
      else
        var (more, ok) := EntryFixups(data, page, at + 2, count - 1);
        ([f] + more, ok)
  }

  /** The fixups of all blocks from `offset` on. */
  function BlockFixups(data: Bytes, offset: nat): (seq<Fixup>, bool)
    decreases |data| - offset
  {
    if offset + 8 > |data| then ([], true)
    else
      var page, size := U32At(data, offset), U32At(data, offset + 4);
      if size == 0 then ([], true)
      else if size < 8 then ([], false)
      else
        var (fixups, ok) := EntryFixups(data, page, offset + 8, (size - 8) / 2);
        if !ok then (fixups, false)
        else if offset + size >= |data| then (fixups, true)
        else
          var (more, allOk) := BlockFixups(data, offset + size);
          (fixups + more, allOk)
  }

  // ---- applying them -------------------------------------------------------------------

  /** What a relocation run works from. */
  datatype Load = Load(file: Bytes, sections: seq<Section>, delta: int)

  function Adjusted64(original: u64, delta: int): u64
    requires -TWO_63 <= delta < TWO_63
  {
    Wrap64(original + delta)
  }

  /** `i32::try_from(delta).unwrap_or(0)`, added with wrap-around. */
  function Adjusted32(original: u32, delta: int): u32 {
    var d := if -0x8000_0000 <= delta < 0x8000_0000 then delta else 0;
    if original + d < 0 then original + d + TWO_32 else Wrap32(original + d)
  }

  function Width(kind: int): nat { if kind == DIR64 then 8 else if kind == HIGHLOW then 4 else 0 }

  predicate LoadOk(l: Load) { -TWO_63 <= l.delta < TWO_63 }

  /** The bytes of the file that the code takes for the original. */
  function SourceOf(l: Load, f: Fixup): (b: Option<Bytes>)
    ensures b.Some? ==> |b.value| == Width(f.kind)
  {
    match FileOffset(l.sections, f.rva)
    case None => None
    case Some(off) => if off + Width(f.kind) <= |l.file| then Some(l.file[off..off + Width(f.kind)]) else None
  }

  /** The original with the delta added, as the code adds it. */
  function Adjusted(kind: int, original: nat, delta: int): nat
    requires -TWO_63 <= delta < TWO_63 && original < Pow256(Width(kind)) && (kind == DIR64 || kind == HIGHLOW)
  {
    assert Pow256(8) == TWO_64 && Pow256(4) == TWO_32;
    if kind == DIR64 then Adjusted64(original, delta) else Adjusted32(original, delta)
  }

  /** The bytes a fixup puts into the image; none when it is padding, or when the address has no
      file bytes behind it, or lies outside the image. */
  function Patch(l: Load, size: nat, f: Fixup): (p: Option<Bytes>)
    requires LoadOk(l)
    ensures p.Some? ==> |p.value| == Width(f.kind) && f.rva + Width(f.kind) <= size
  {
    match SourceOf(l, f)
    case None => None
    case Some(b) =>
      FromLEBound(b);
      if Width(f.kind) == 0 || f.rva + Width(f.kind) > size then None
      else Some(LE(Adjusted(f.kind, FromLE(b), l.delta), Width(f.kind)))
  }

  function Fix(l: Load, image: Bytes, f: Fixup): (r: Bytes)
    requires LoadOk(l)
    ensures |r| == |image|
  {
    match Patch(l, |image|, f)
    case None => image
    case Some(p) => Put(image, f.rva, p)
  }

  function FixAll(l: Load, image: Bytes, fixups: seq<Fixup>): (r: Bytes)
    requires LoadOk(l)
    ensures |r| == |image|
    decreases |fixups|
  {
    if fixups == [] then image else FixAll(l, Fix(l, image, fixups[0]), fixups[1..])
  }

  lemma {:induction false} FixAllAppend(l: Load, image: Bytes, xs: seq<Fixup>, ys: seq<Fixup>)
    requires LoadOk(l)
    ensures FixAll(l, image, xs + ys) == FixAll(l, FixAll(l, image, xs), ys)
    decreases |xs|
  {
    if xs == [] {
      assert xs + ys == ys;
    } else {
      FixAllAppend(l, Fix(l, image, xs[0]), xs[1..], ys);
      assert (xs + ys)[1..] == xs[1..] + ys;
    }
  }

  /** The relocation data the directory points to. */
  function RelocData(l: Load, dirRva: u32, dirSize: u32): Option<Bytes> {
    if dirRva == 0 || dirSize == 0 then None
    else
      match FileOffset(l.sections, dirRva)
      case None => None
      case Some(off) => if off + dirSize > |l.file| then None else Some(l.file[off..off + dirSize])
  }

  /** One entry applied to the image in place. */
  method ApplyEntry(l: Load, image: array<u8>, f: Fixup)
    requires LoadOk(l)
    modifies image
    ensures image[..] == Fix(l, old(image[..]), f)
  {
    var patch := Patch(l, image.Length, f);
    if patch.Some? {
      var p := patch.value;
      forall i | 0 <= i < |p| {
        image[f.rva + i] := p[i];
      }
      assert image[..] == Put(old(image[..]), f.rva, p);
    }
  }

  lemma FixAllOneMore(l: Load, image: Bytes, done: seq<Fixup>, f: Fixup)
    requires LoadOk(l)
    ensures Fix(l, FixAll(l, image, done), f) == FixAll(l, image, done + [f])
  {
    FixAllAppend(l, image, done, [f]);
    var mid := FixAll(l, image, done);
    assert FixAll(l, mid, [f]) == FixAll(l, Fix(l, mid, f), [f][1..]);
  }

  /** After `done`, what is left makes up the whole. */
  ghost predicate Continues(all: (seq<Fixup>, bool), done: seq<Fixup>, rest: (seq<Fixup>, bool)) {
    all.0 == done + rest.0 && all.1 == rest.1
  }

  lemma ContinuesOn(all: (seq<Fixup>, bool), done: seq<Fixup>, here: (seq<Fixup>, bool), part: seq<Fixup>, rest: (seq<Fixup>, bool))
    requires Continues(all, done, here) && Continues(here, part, rest)
    ensures Continues(all, done + part, rest)
  {
    assert done + (part + rest.0) == (done + part) + rest.0;
  }

  lemma EntryStep(all: (seq<Fixup>, bool), data: Bytes, page: u32, at: nat, left: nat, done: seq<Fixup>)
    requires Continues(all, done, EntryFixups(data, page, at, left))
    requires left > 0 && at + 2 <= |data| && Supported(EntryFixup(page, U16At(data, at)).kind)
    ensures Continues(all, done + [EntryFixup(page, U16At(data, at))], EntryFixups(data, page, at + 2, left - 1))
  {
    var f := EntryFixup(page, U16At(data, at));
    ContinuesOn(all, done, EntryFixups(data, page, at, left), [f], EntryFixups(data, page, at + 2, left - 1));
  }

  /** What the blocks from `offset` on come to, given the entries of the first of them. */
  lemma BlockStep(data: Bytes, offset: nat)
    requires offset + 8 <= |data| && U32At(data, offset + 4) >= 8
    ensures var size := U32At(data, offset + 4);
            var (block, ok) := EntryFixups(data, U32At(data, offset), offset + 8, (size - 8) / 2);
            var here := BlockFixups(data, offset);
            && (!ok ==> here == (block, false))
            && (ok && offset + size >= |data| ==> here == (block, true))
            && (ok && offset + size < |data| ==> Continues(here, block, BlockFixups(data, offset + size)))
  {
  }

  lemma BlockDone(all: (seq<Fixup>, bool), data: Bytes, offset: nat, done: seq<Fixup>)
    requires Continues(all, done, BlockFixups(data, offset))
    requires offset + 8 <= |data| && U32At(data, offset + 4) >= 8
    ensures var size := U32At(data, offset + 4);
            var (block, ok) := EntryFixups(data, U32At(data, offset), offset + 8, (size - 8) / 2);
            && (!ok ==> all == (done + block, false))
            && (ok && offset + size >= |data| ==> all == (done + block, true))
            && (ok && offset + size < |data| ==> Continues(all, done + block, BlockFixups(data, offset + size)))
  {
    BlockStep(data, offset);
    var size := U32At(data, offset + 4);
    var (block, ok) := EntryFixups(data, U32At(data, offset), offset + 8, (size - 8) / 2);
    if ok && offset + size < |data| {
      ContinuesOn(all, done, BlockFixups(data, offset), block, BlockFixups(data, offset + size));
    }
  }

  lemma Ends(all: (seq<Fixup>, bool), done: seq<Fixup>, rest: (seq<Fixup>, bool))
    requires Continues(all, done, rest) && rest.0 == []
    ensures all == (done, rest.1)
  {
    assert done + [] == done;
  }

  /** A step of the inner loop: one entry, unless it is cut off or of an unknown type. */
  method ApplyNext(l: Load, data: Bytes, page: u32, at: nat, ghost left: nat, image: array<u8>,
                   ghost image0: Bytes, ghost done: seq<Fixup>, ghost all: (seq<Fixup>, bool))
      returns (more: bool, ghost now: seq<Fixup>)
    requires LoadOk(l) && image[..] == FixAll(l, image0, done)
    requires left > 0 && Continues(all, done, EntryFixups(data, page, at, left))
    modifies image
    ensures image[..] == FixAll(l, image0, now)
    ensures if more then Continues(all, now, EntryFixups(data, page, at + 2, left - 1)) else all == (now, false)
  {
    more, now := at + 2 <= |data| && Supported(EntryFixup(page, U16At(data, at)).kind), done;
    if !more {
      Ends(all, done, EntryFixups(data, page, at, left));
      return;
    }
    var f := EntryFixup(page, U16At(data, at));
    EntryStep(all, data, page, at, left, done);
    FixAllOneMore(l, image0, done, f);
    ApplyEntry(l, image, f);
    now := done + [f];
  }

  /** The inner loop: the entries of one block, after those `done`. */
  method ApplyBlock(l: Load, data: Bytes, page: u32, start: nat, count: nat, image: array<u8>,
                    ghost image0: Bytes, ghost before: seq<Fixup>, ghost all: (seq<Fixup>, bool)) returns (ok: bool)
    requires LoadOk(l) && image[..] == FixAll(l, image0, before)
    requires Continues(all, before, EntryFixups(data, page, start, count))
    modifies image
    ensures ok == all.1 && image[..] == FixAll(l, image0, all.0)
  {
    ghost var done := before;
    var i := 0;
    while i < count
      invariant 0 <= i <= count
      invariant Continues(all, done, EntryFixups(data, page, start + 2 * i, count - i))
      invariant image[..] == FixAll(l, image0, done)
    {
      var more;
      more, done := ApplyNext(l, data, page, start + 2 * i, count - i, image, image0, done, all);
      if !more { return false; }
      i := i + 1;
    }
    Ends(all, done, EntryFixups(data, page, start + 2 * i, count - i));
    return true;
  }

  /** One block, after the fixups `done`; there is more to do if another block may follow. */
  method ApplyBlockAt(l: Load, data: Bytes, offset: nat, image: array<u8>,
                      ghost image0: Bytes, ghost done: seq<Fixup>, ghost all: (seq<Fixup>, bool))
      returns (ok: bool, more: bool, ghost now: seq<Fixup>)
    requires LoadOk(l) && image[..] == FixAll(l, image0, done)
    requires Continues(all, done, BlockFixups(data, offset)) && offset + 8 <= |data| && U32At(data, offset + 4) >= 8
    modifies image
    ensures image[..] == FixAll(l, image0, now)
    ensures more ==> offset + U32At(data, offset + 4) < |data|
    ensures if more then Continues(all, now, BlockFixups(data, offset + U32At(data, offset + 4))) else all == (now, ok)
  {
    var page, size := U32At(data, offset), U32At(data, offset + 4);
    BlockDone(all, data, offset, done);
    ghost var (block, fine) := EntryFixups(data, page, offset + 8, (size - 8) / 2);
    now := done + block;
    ok := ApplyBlock(l, data, page, offset + 8, (size - 8) / 2, image, image0, done, (now, fine));
    more := ok && offset + size < |data|;
  }

  /** A step of the outer loop: a table ends at a size of zero, and is refused at one below a block header's. */
  method ApplyStep(l: Load, data: Bytes, offset: nat, image: array<u8>,
                   ghost image0: Bytes, ghost done: seq<Fixup>, ghost all: (seq<Fixup>, bool))
      returns (ok: bool, more: bool, next: nat, ghost now: seq<Fixup>)
    requires LoadOk(l) && image[..] == FixAll(l, image0, done)
    requires Continues(all, done, BlockFixups(data, offset)) && offset + 8 <= |data|
    modifies image
    ensures image[..] == FixAll(l, image0, now)
    ensures if more then offset < next && Continues(all, now, BlockFixups(data, next)) else all == (now, ok)
  {
    var size := U32At(data, offset + 4);
    next := offset + size;
    if size < 8 {
      Ends(all, done, BlockFixups(data, offset));
      ok, more, now := size == 0, false, done;
    } else {
      ok, more, now := ApplyBlockAt(l, data, offset, image, image0, done, all);
    }
  }

  /** The outer loop: block after block. */
  method ApplyBlocks(l: Load, data: Bytes, image: array<u8>) returns (ok: bool)
    requires LoadOk(l)
    modifies image
    ensures ok == BlockFixups(data, 0).1
    ensures image[..] == FixAll(l, old(image[..]), BlockFixups(data, 0).0)
  {
    ghost var image0, done := image[..], [];
    ghost var all := BlockFixups(data, 0);
    assert done + all.0 == all.0;
    var offset: nat := 0;
    while offset + 8 <= |data|
      invariant Continues(all, done, BlockFixups(data, offset))
      invariant image[..] == FixAll(l, image0, done)
      decreases |data| - offset
    {
      var more, next;
      ok, more, next, done := ApplyStep(l, data, offset, image, image0, done, all);
      if !more { return; }
      offset := next;
    }
    Ends(all, done, BlockFixups(data, offset));
    return true;
  }

  /** `apply_relocations`. */
  method ApplyRelocations(l: Load, dirRva: u32, dirSize: u32, image: array<u8>) returns (ok: bool)
    requires LoadOk(l)
    modifies image
    ensures image[..] == Relocated(l, dirRva, dirSize, old(image[..])).0
    ensures ok == Relocated(l, dirRva, dirSize, old(image[..])).1
  {
    if l.delta == 0 { return true; }
    var data := RelocData(l, dirRva, dirSize);
    if data.None? { return false; }
    ok := ApplyBlocks(l, data.value, image);
  }

  function Relocated(l: Load, dirRva: u32, dirSize: u32, image: Bytes): (Bytes, bool)
    requires LoadOk(l)
  {
    if l.delta == 0 then (image, true)
    else
      match RelocData(l, dirRva, dirSize)
      case None => (image, false)
      case Some(data) =>
        var (fixups, ok) := BlockFixups(data, 0);
        (FixAll(l, image, fixups), ok)
  }

  // ---- what a run of fixups does to each byte ------------------------------------------

  /** The value the last fixup covering byte `a` puts there. */
  function LastWrite(l: Load, size: nat, fixups: seq<Fixup>, a: nat): Option<u8>
    requires LoadOk(l)
    decreases |fixups|
  {
    if fixups == [] then None
    else
      var f := fixups[|fixups| - 1];
      match Patch(l, size, f)
      case None => LastWrite(l, size, fixups[..|fixups| - 1], a)
      case Some(p) =>
        if f.rva <= a < f.rva + |p| then Some(p[a - f.rva]) else LastWrite(l, size, fixups[..|fixups| - 1], a)
  }

  lemma {:induction false} FixAllByte(l: Load, image: Bytes, fixups: seq<Fixup>, a: nat)
    requires LoadOk(l) && a < |image|
    ensures FixAll(l, image, fixups)[a] ==
              match LastWrite(l, |image|, fixups, a) case Some(v) => v case None => image[a]
    decreases |fixups|
  {
    if fixups != [] {
      var most, f := fixups[..|fixups| - 1], fixups[|fixups| - 1];
      FixAllByte(l, image, most, a);
      FixAllOneMore(l, image, most, f);
      assert fixups == most + [f];
    }
  }

  /** Applying relocations twice is applying them once: every original comes from the file. */
  lemma RelocatingTwice(l: Load, dirRva: u32, dirSize: u32, image: Bytes)
    requires LoadOk(l)
    ensures var (once, ok) := Relocated(l, dirRva, dirSize, image);
            Relocated(l, dirRva, dirSize, once) == (once, ok)
  {
    var data := RelocData(l, dirRva, dirSize);
    if l.delta != 0 && data.Some? { FixAllTwice(l, image, BlockFixups(data.value, 0).0); }
  }

  lemma FixAllTwice(l: Load, image: Bytes, fixups: seq<Fixup>)
    requires LoadOk(l)
    ensures FixAll(l, FixAll(l, image, fixups), fixups) == FixAll(l, image, fixups)
  {
    var once := FixAll(l, image, fixups);
    forall a | 0 <= a < |image| ensures FixAll(l, once, fixups)[a] == once[a] {
      FixAllByte(l, image, fixups, a);
      FixAllByte(l, once, fixups, a);
    }
  }

  /** Bytes a fixup applies to. */
  predicate Touches(f: Fixup, a: nat) { f.rva <= a < f.rva + Width(f.kind) }

  /** Bytes no fixup applies to keep their value. */
  lemma {:induction false} OtherBytesKeep(l: Load, image: Bytes, fixups: seq<Fixup>, a: nat)
    requires LoadOk(l) && a < |image| && forall f :: f in fixups ==> !Touches(f, a)
    ensures FixAll(l, image, fixups)[a] == image[a]
  {
    FixAllByte(l, image, fixups, a);
    NoWrite(l, |image|, fixups, a);
  }

  lemma {:induction false} NoWrite(l: Load, size: nat, fixups: seq<Fixup>, a: nat)
    requires LoadOk(l) && forall f :: f in fixups ==> !Touches(f, a)
    ensures LastWrite(l, size, fixups, a) == None
    decreases |fixups|
  {
    if fixups != [] {
      assert fixups[|fixups| - 1] in fixups;
      NoWrite(l, size, fixups[..|fixups| - 1], a);
    }
  }

  /** The fixups at a site other than `f` itself stay clear of it. */
  ghost predicate Alone(fixups: seq<Fixup>, f: Fixup) {
    forall g :: g in fixups ==> g == f || g.rva + Width(g.kind) <= f.rva || f.rva + Width(f.kind) <= g.rva
  }

  lemma {:induction false} SiteWrite(l: Load, size: nat, fixups: seq<Fixup>, f: Fixup, a: nat)
    requires LoadOk(l) && f in fixups && Alone(fixups, f) && Touches(f, a)
    ensures LastWrite(l, size, fixups, a) ==
              match Patch(l, size, f) case None => None case Some(p) => Some(p[a - f.rva])
    decreases |fixups|
  {
    var most, g := fixups[..|fixups| - 1], fixups[|fixups| - 1];
    assert g in fixups;
    if f in most {
      SiteWrite(l, size, most, f, a);
    } else {
      forall h | h in most ensures !Touches(h, a) { assert h in fixups; }
      NoWrite(l, size, most, a);
    }
  }

  /** The bytes at a site that no other site overlaps. */
  lemma SiteBytes(l: Load, image: Bytes, fixups: seq<Fixup>, f: Fixup)
    requires LoadOk(l) && f in fixups && Alone(fixups, f) && f.rva + Width(f.kind) <= |image|
    ensures At(FixAll(l, image, fixups), f) == match Patch(l, |image|, f) case None => At(image, f) case Some(p) => p
  {
    var n, fixed, patch := f.rva + Width(f.kind), FixAll(l, image, fixups), Patch(l, |image|, f);
    forall a | f.rva <= a < n ensures fixed[a] == if patch.Some? then patch.value[a - f.rva] else image[a] {
      FixAllByte(l, image, fixups, a);
      SiteWrite(l, |image|, fixups, f, a);
    }
  }

  // ---- rebasing an image built from the same file --------------------------------------

  /** The bytes at a site. */
  function At(image: Bytes, f: Fixup): (b: Bytes)
    requires f.rva + Width(f.kind) <= |image|
    ensures |b| == Width(f.kind)
  {
    image[f.rva..f.rva + Width(f.kind)]
  }

  /** The site holds the number it held before plus the delta, modulo its range. */
  ghost predicate Rebased(before: Bytes, after: Bytes, delta: int) {
    |before| == |after| && FromLE(after) == (FromLE(before) + delta) % Pow256(|before|)
  }

  /** A site in the image, of a kind that patches it, which no other fixup overlaps. */
  ghost predicate LoneSite(l: Load, image: Bytes, fixups: seq<Fixup>, f: Fixup) {
    && LoadOk(l) && (f.kind == DIR64 || f.kind == HIGHLOW) && f in fixups && Alone(fixups, f)
    && f.rva + Width(f.kind) <= |image|
  }

  /** A site with enough bytes of file behind it receives them plus the delta; others stay. */
  lemma SiteReceives(l: Load, image: Bytes, fixups: seq<Fixup>, f: Fixup)
    requires LoneSite(l, image, fixups, f)
    ensures var n, fixed := Width(f.kind), FixAll(l, image, fixups);
            match SourceOf(l, f)
            case None => At(fixed, f) == At(image, f)
            case Some(b) => FromLE(b) < Pow256(n) && FromLE(At(fixed, f)) == Adjusted(f.kind, FromLE(b), l.delta)
  {
    SiteBytes(l, image, fixups, f);
    var source := SourceOf(l, f);
    if source.Some? {
      assert Pow256(8) == TWO_64 && Pow256(4) == TWO_32;
      FromLEBound(source.value);
      FromLELE(Adjusted(f.kind, FromLE(source.value), l.delta), Width(f.kind));
    }
  }

  lemma NumbersEqual(x: Bytes, y: Bytes)
    requires |x| == |y|
    ensures FromLE(x) == FromLE(y) <==> x == y
  {
    LEFromLE(x);
    LEFromLE(y);
  }

  /** The delta is not dropped, and adding it changes the site. */
  predicate Moves(kind: int, delta: int) {
    delta != 0 && (kind == HIGHLOW ==> -0x8000_0000 <= delta < 0x8000_0000)
  }

  lemma AdjustedShifts(kind: int, x: nat, y: nat, delta: int)
    requires -TWO_63 <= delta < TWO_63 && (kind == DIR64 || kind == HIGHLOW) && Moves(kind, delta)
    requires x < Pow256(Width(kind)) && y < Pow256(Width(kind))
    ensures Adjusted(kind, x, delta) == (y + delta) % Pow256(Width(kind)) <==> x == y
    ensures y != (y + delta) % Pow256(Width(kind))
  {
    assert Pow256(8) == TWO_64 && Pow256(4) == TWO_32;
    var p: int := Pow256(Width(kind));
    assert Adjusted(kind, y, delta) == (y + delta) % p;
  }

  /** The site afterwards, given what is behind it. */
  lemma SiteDecides(kind: int, source: Option<Bytes>, here: Bytes, after: Bytes, delta: int)
    requires -TWO_63 <= delta < TWO_63 && (kind == DIR64 || kind == HIGHLOW) && Moves(kind, delta)
    requires |here| == |after| == Width(kind) && (source.Some? ==> |source.value| == Width(kind))
    requires match source
             case None => after == here
             case Some(b) => FromLE(b) < Pow256(Width(kind)) && FromLE(after) == Adjusted(kind, FromLE(b), delta)
    ensures Rebased(here, after, delta) <==> source == Some(here)
  {
    FromLEBound(here);
    AdjustedShifts(kind, if source.Some? then FromLE(source.value) else 0, FromLE(here), delta);
    if source.Some? { NumbersEqual(source.value, here); }
  }

  /** The exact condition, for any image and wherever the site lies, in the headers or across the end of
      a section too: it is rebased if and only if the file holds, at the offset the code reads, what the
      image holds at the site. */
  lemma SiteIsRebased(l: Load, image: Bytes, fixups: seq<Fixup>, f: Fixup)
    requires LoneSite(l, image, fixups, f) && Moves(f.kind, l.delta)
    ensures Rebased(At(image, f), At(FixAll(l, image, fixups), f), l.delta) <==> SourceOf(l, f) == Some(At(image, f))
  {
    SiteReceives(l, image, fixups, f);
    SiteDecides(f.kind, SourceOf(l, f), At(image, f), At(FixAll(l, image, fixups), f), l.delta);
  }

  /** The image of a file, and a site in it that lies in one section past the headers. */
  ghost predicate SiteIn(l: Load, image: Bytes, headers: nat, k: nat, f: Fixup) {
    && LoadOk(l) && PeImage.Disjoint(l.sections) && (f.kind == DIR64 || f.kind == HIGHLOW)
    && Build(l.file, |image|, headers, l.sections) == Some(image)
    && k < |l.sections| && headers <= f.rva && f.rva + Width(f.kind) <= |image|
    && l.sections[k].rva <= f.rva && f.rva + Width(f.kind) <= l.sections[k].rva + l.sections[k].Mapped()
  }

  /** Where the raw data of a section ends. */
  function RawEnd(l: Load, k: nat): nat
    requires k < |l.sections|
  {
    l.sections[k].rva + l.sections[k].rawSize
  }

  lemma SiteOffset(l: Load, image: Bytes, headers: nat, k: nat, f: Fixup, a: nat)
    requires SiteIn(l, image, headers, k, f) && Touches(f, a)
    ensures var s := l.sections[k];
            && FileOffset(l.sections, a) == Some(s.rawOffset + (a - s.rva))
            && (a < RawEnd(l, k) ==> s.rawOffset + (a - s.rva) < |l.file| && image[a] == l.file[s.rawOffset + (a - s.rva)])
            && (a >= RawEnd(l, k) ==> image[a] == 0)
  {
    assert l.sections[k].Has(a);
    ImageAgreesWithFile(l.file, |image|, headers, l.sections, k, a);
  }

  /** `x` is `y` up to `end`, and zero from there on. */
  ghost predicate CutOff(x: Bytes, y: Bytes, start: int, end: int) {
    |x| == |y| && forall i :: 0 <= i < |x| ==> x[i] == if start + i < end then y[i] else 0
  }

  /** From `end` on there are only zeroes. */
  ghost predicate ZeroFrom(y: Bytes, start: int, end: int) {
    forall i :: 0 <= i < |y| ==> (start + i >= end ==> y[i] == 0)
  }

  lemma CutOffEqual(x: Bytes, y: Bytes, start: int, end: int)
    requires CutOff(x, y, start, end)
    ensures x == y <==> ZeroFrom(y, start, end)
  {
  }

  lemma SlicesCutOff(image: Bytes, file: Bytes, rva: nat, off: nat, n: nat, end: int)
    requires rva + n <= |image| && off + n <= |file|
    requires forall a :: rva <= a < rva + n ==> image[a] == if a < end then file[off + (a - rva)] else 0
    ensures CutOff(image[rva..rva + n], file[off..off + n], rva, end)
  {
    var x := image[rva..rva + n];
    forall i | 0 <= i < n ensures x[i] == if rva + i < end then file[off..off + n][i] else 0 {
      assert x[i] == image[rva + i];
    }
  }

  lemma SiteCutOff(l: Load, image: Bytes, headers: nat, k: nat, f: Fixup)
    requires SiteIn(l, image, headers, k, f) && SourceOf(l, f).Some?
    ensures CutOff(At(image, f), SourceOf(l, f).value, f.rva, RawEnd(l, k))
  {
    var n, off, end := Width(f.kind), FileOffset(l.sections, f.rva).value, RawEnd(l, k);
    SiteOffset(l, image, headers, k, f, f.rva);
    forall a | f.rva <= a < f.rva + n ensures image[a] == if a < end then l.file[off + (a - f.rva)] else 0 {
      SiteOffset(l, image, headers, k, f, a);
    }
    SlicesCutOff(image, l.file, f.rva, off, n, end);
  }

  /** In a section: there is enough file behind the site, and what the image does not take from there,
      past the raw data of the section, is zero. */
  lemma SectionSiteIsRebased(l: Load, image: Bytes, headers: nat, k: nat, fixups: seq<Fixup>, f: Fixup)
    requires SiteIn(l, image, headers, k, f) && f in fixups && Alone(fixups, f) && Moves(f.kind, l.delta)
    ensures var b := SourceOf(l, f);
            Rebased(At(image, f), At(FixAll(l, image, fixups), f), l.delta) <==> b.Some? && ZeroFrom(b.value, f.rva, RawEnd(l, k))
  {
    SiteIsRebased(l, image, fixups, f);
    var b := SourceOf(l, f);
    if b.Some? {
      SiteCutOff(l, image, headers, k, f);
      CutOffEqual(At(image, f), b.value, f.rva, RawEnd(l, k));
    }
  }

  lemma RawSiteInFile(l: Load, image: Bytes, headers: nat, k: nat, f: Fixup)
    requires SiteIn(l, image, headers, k, f) && f.rva + Width(f.kind) <= RawEnd(l, k)
    ensures SourceOf(l, f) == Some(At(image, f))
  {
    SiteOffset(l, image, headers, k, f, f.rva);
    SiteOffset(l, image, headers, k, f, f.rva + Width(f.kind) - 1);
    SiteCutOff(l, image, headers, k, f);
    CutOffEqual(At(image, f), SourceOf(l, f).value, f.rva, RawEnd(l, k));
  }

  /** In raw data the originals are the image's own bytes, so every site is rebased. */
  lemma RawSiteIsRebased(l: Load, image: Bytes, headers: nat, k: nat, fixups: seq<Fixup>, f: Fixup)
    requires SiteIn(l, image, headers, k, f) && f in fixups && Alone(fixups, f) && Moves(f.kind, l.delta)
    requires f.rva + Width(f.kind) <= RawEnd(l, k)
    ensures Rebased(At(image, f), At(FixAll(l, image, fixups), f), l.delta)
  {
    RawSiteInFile(l, image, headers, k, f);
    SiteIsRebased(l, image, fixups, f);
  }

  /** In the zero-filled tail the image holds zero but the original is read from whatever follows
      the section in the file: the site is rebased exactly when that is zero. */
  lemma TailSiteIsRebased(l: Load, image: Bytes, headers: nat, k: nat, fixups: seq<Fixup>, f: Fixup)
    requires SiteIn(l, image, headers, k, f) && f in fixups && Alone(fixups, f) && Moves(f.kind, l.delta)
    requires f.rva >= RawEnd(l, k)
    ensures var b := SourceOf(l, f);
            Rebased(At(image, f), At(FixAll(l, image, fixups), f), l.delta) <==> b.Some? && FromLE(b.value) == 0
  {
    var here, b := At(image, f), SourceOf(l, f);
    SiteIsRebased(l, image, fixups, f);
    forall a | f.rva <= a < f.rva + Width(f.kind) ensures image[a] == 0 { SiteOffset(l, image, headers, k, f, a); }
    ZeroNumber(here);
    if b.Some? { NumbersEqual(b.value, here); }
  }

  // ---- 32-bit sites --------------------------------------------------------------------

  /** The 32-bit addition is addition modulo 2^32 unless the delta is dropped and matters. */
  lemma HighlowSum(original: u32, delta: int)
    ensures Adjusted32(original, delta) == (original + delta) % TWO_32
            <==> -0x8000_0000 <= delta < 0x8000_0000 || delta % TWO_32 == 0
  {
    if !(-0x8000_0000 <= delta < 0x8000_0000) {
      var q := delta / TWO_32;
      assert delta == q * TWO_32 + delta % TWO_32;
    }
  }

  /** Whatever the delta: a HIGHLOW site in raw data, overlapped by no other, is rebased if and only
      if the delta fits in 32 bits or is a multiple of 2^32; any other delta is dropped. */
  lemma HighlowAdds(l: Load, image: Bytes, headers: nat, k: nat, fixups: seq<Fixup>, f: Fixup)
    requires SiteIn(l, image, headers, k, f) && f.kind == HIGHLOW && f in fixups && Alone(fixups, f)
    requires f.rva + 4 <= RawEnd(l, k)
    ensures Rebased(At(image, f), At(FixAll(l, image, fixups), f), l.delta)
            <==> -0x8000_0000 <= l.delta < 0x8000_0000 || l.delta % TWO_32 == 0
  {
    RawSiteInFile(l, image, headers, k, f);
    SiteReceives(l, image, fixups, f);
    assert Pow256(4) == TWO_32;
    HighlowSum(FromLE(At(image, f)), l.delta);
  }

  lemma {:induction false} ZeroNumber(b: Bytes)
    requires forall i :: 0 <= i < |b| ==> b[i] == 0
    ensures FromLE(b) == 0
    decreases |b|
  {
    if b != [] { ZeroNumber(b[1..]); }
  }

  // ---- writing relocation tables -------------------------------------------------------

  type U4 = x: int | 0 <= x < 0x10
  type U12 = x: int | 0 <= x < 0x1000

  datatype Entry = Entry(kind: U4, off: U12)

  datatype Block = Block(page: u32, entries: seq<Entry>) {
    function Size(): nat { 8 + 2 * |entries| }

    predicate Ok() { Size() < TWO_32 && forall e :: e in entries ==> Supported(e.kind) }
  }

  function EntryBytes(entries: seq<Entry>): (b: Bytes)
    ensures |b| == 2 * |entries|
  {
    if entries == [] then [] else LE(entries[0].kind * 0x1000 + entries[0].off, 2) + EntryBytes(entries[1..])
  }

  function BlockBytes(b: Block): (r: Bytes)
    requires b.Size() < TWO_32
    ensures |r| == b.Size()
  {
    LE(b.page, 4) + LE(b.Size(), 4) + EntryBytes(b.entries)
  }

  function TableBytes(blocks: seq<Block>): (b: Bytes)
    requires forall x :: x in blocks ==> x.Ok()
  {
    if blocks == [] then []
    else
      assert blocks[0] in blocks && blocks[0].Ok();
      BlockBytes(blocks[0]) + TableBytes(blocks[1..])
  }

  function BlockMeaning(page: u32, entries: seq<Entry>): seq<Fixup> {
    if entries == [] then [] else [Fixup(entries[0].kind, Wrap32(page + entries[0].off))] + BlockMeaning(page, entries[1..])
  }

  /** What the blocks stand for. */
  function Meaning(blocks: seq<Block>): seq<Fixup> {
    if blocks == [] then [] else BlockMeaning(blocks[0].page, blocks[0].entries) + Meaning(blocks[1..])
  }

  lemma {:induction false} EntriesRead(data: Bytes, page: u32, at: nat, entries: seq<Entry>)
    requires forall e :: e in entries ==> Supported(e.kind)
    requires at + 2 * |entries| <= |data| && data[at..at + 2 * |entries|] == EntryBytes(entries)
    ensures EntryFixups(data, page, at, |entries|) == (BlockMeaning(page, entries), true)
    decreases |entries|
  {
    if entries != [] {
      var e, rest, here := entries[0], entries[1..], data[at..at + 2 * |entries|];
      var word := e.kind * 0x1000 + e.off;
      assert e in entries;
      assert data[at..at + 2] == here[..2] == LE(word, 2);
      assert data[at + 2..at + 2 + 2 * |rest|] == here[2..] == EntryBytes(rest);
      assert Pow256(2) == 0x1_0000;
      FromLELE(word, 2);
      EntriesRead(data, page, at + 2, rest);
    }
  }

  /** The first block of a serialised table, and the rest. */
  lemma TableStep(data: Bytes, offset: nat, b: Block, rest: Bytes)
    requires b.Ok() && offset <= |data| && data[offset..] == BlockBytes(b) + rest
    ensures var next := offset + b.Size();
            && next <= |data| && data[next..] == rest
            && Continues(BlockFixups(data, offset), BlockMeaning(b.page, b.entries), BlockFixups(data, next))
  {
    BlockRead(data, offset, b, rest);
    assert (b.Size() - 8) / 2 == |b.entries|;
    BlockStep(data, offset);
  }

  /** A serialised table reads back as the fixups its blocks stand for. */
  lemma {:induction false} TableRoundTrip(data: Bytes, offset: nat, blocks: seq<Block>)
    requires forall x :: x in blocks ==> x.Ok()
    requires offset <= |data| && data[offset..] == TableBytes(blocks)
    ensures BlockFixups(data, offset) == (Meaning(blocks), true)
    decreases |blocks|
  {
    if blocks == [] {
      assert |data[offset..]| == 0;
    } else {
      var b, rest := blocks[0], blocks[1..];
      TableStep(data, offset, b, TableBytes(rest));
      TableRoundTrip(data, offset + b.Size(), rest);
    }
  }

  /** Four pieces in a row. */
  lemma Pieces(data: Bytes, offset: nat, x: Bytes, y: Bytes, body: Bytes, rest: Bytes)
    requires offset <= |data| && |x| == 4 && |y| == 4 && data[offset..] == x + y + body + rest
    ensures var at := offset + 8;
            && at + |body| <= |data| && data[offset..offset + 4] == x && data[offset + 4..at] == y
            && data[at..at + |body|] == body && data[at + |body|..] == rest
  {
    var here := data[offset..];
    assert data[offset..offset + 4] == here[..4] && data[offset + 4..offset + 8] == here[4..8];
    assert data[offset + 8..offset + 8 + |body|] == here[8..8 + |body|] && data[offset + 8 + |body|..] == here[8 + |body|..];
  }

  /** The first block of what is left. */
  lemma BlockRead(data: Bytes, offset: nat, b: Block, rest: Bytes)
    requires b.Ok() && offset <= |data| && data[offset..] == BlockBytes(b) + rest
    ensures offset + 8 <= |data| && U32At(data, offset) == b.page && U32At(data, offset + 4) == b.Size()
    ensures EntryFixups(data, b.page, offset + 8, |b.entries|) == (BlockMeaning(b.page, b.entries), true)
    ensures offset + b.Size() <= |data| && data[offset + b.Size()..] == rest
  {
    Pieces(data, offset, LE(b.page, 4), LE(b.Size(), 4), EntryBytes(b.entries), rest);
    assert Pow256(4) == TWO_32;
    FromLELE(b.page, 4);
    FromLELE(b.Size(), 4);
    EntriesRead(data, b.page, offset + 8, b.entries);
  }
}
