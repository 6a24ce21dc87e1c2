/** From the relocation directory in the file to the sites: what `ApplyRelocations` does on a serialised table. */
module RelocationTable {
  import opened Words
  import opened Memory
  import opened PeImage
  import opened Relocation

  // ---- the format, number by number ----------------------------------------------------

  function Half(data: Bytes, at: nat): nat
    requires at + 2 <= |data|
  {
    var low: nat, high: nat := data[at], data[at + 1];
    low + 0x100 * high
  }

  function Full(data: Bytes, at: nat): nat
    requires at + 4 <= |data|
  {
    Half(data, at) + 0x1_0000 * Half(data, at + 2)
  }

  lemma HalfIs(data: Bytes, at: nat)
    requires at + 2 <= |data|
    ensures U16At(data, at) == Half(data, at)
  {
    var b := data[at..at + 2];
    assert b[1..][1..] == [] && FromLE(b[1..]) == b[1];
  }

  lemma FullIs(data: Bytes, at: nat)
    requires at + 4 <= |data|
    ensures U32At(data, at) == Full(data, at)
  {
    var b := data[at..at + 4];
    var c, d, e := b[1..], b[2..], b[3..];
    assert c[1..] == d && d[1..] == e && e[1..] == [];
    assert FromLE(e) == e[0] && FromLE(d) == d[0] + 0x100 * FromLE(e) && FromLE(c) == c[0] + 0x100 * FromLE(d);
  }

  /** An entry that is there and of a known type: padding, 32 bits or 64 bits. */
  predicate Known(data: Bytes, at: nat) {
    at + 2 <= |data| && Half(data, at) / 0x1000 in {0, 3, 10}
  }

  /** The fixup of a known entry: the high four bits are its type, the low twelve its distance into the page. */
  predicate Stands(f: Fixup, data: Bytes, page: u32, at: nat) {
    && Known(data, at) && f.kind == Half(data, at) / 0x1000
    && f.rva == (page + Half(data, at) % 0x1000) % 0x1_0000_0000
  }

  /** The entries of a block in order; the first one that is cut off or of another type makes it unsound. */
  lemma {:induction false} EntriesAre(data: Bytes, page: u32, at: nat, count: nat)
    ensures var (fixups, ok) := EntryFixups(data, page, at, count);
            && |fixups| <= count && (ok <==> |fixups| == count) && (!ok ==> !Known(data, at + 2 * |fixups|))
            && forall i :: 0 <= i < |fixups| ==> Stands(fixups[i], data, page, at + 2 * i)
    decreases count
  {
    if count > 0 && at + 2 <= |data| {
      HalfIs(data, at);
      EntriesAre(data, page, at + 2, count - 1);
      var fixups, more := EntryFixups(data, page, at, count).0, EntryFixups(data, page, at + 2, count - 1).0;
      forall i | 0 <= i < |fixups| ensures Stands(fixups[i], data, page, at + 2 * i) {
        if i > 0 { assert fixups[i] == more[i - 1] && Stands(more[i - 1], data, page, at + 2 + 2 * (i - 1)); }
      }
    }
  }

  /** Fewer than eight bytes, or a size of zero, end the table; a smaller size than eight is unsound; and otherwise
      there is an entry for every two further bytes of the size, and the next block, if the data goes on there. */
  lemma BlocksAre(data: Bytes, offset: nat)
    ensures var r := BlockFixups(data, offset);
            if offset + 8 > |data| then r == ([], true)
            else
              var page, size := Full(data, offset), Full(data, offset + 4);
              if size < 8 then r == ([], size == 0)
              else
                var (fixups, ok) := EntryFixups(data, page, offset + 8, (size - 8) / 2);
                if !ok || offset + size >= |data| then r == (fixups, ok)
                else r == (fixups + BlockFixups(data, offset + size).0, BlockFixups(data, offset + size).1)
  {
    if offset + 8 <= |data| {
      FullIs(data, offset);
      FullIs(data, offset + 4);
    }
  }

  /** Padding rewrites nothing, the others four and eight bytes. */
  lemma WidthsAre(kind: int)
    ensures Supported(kind) <==> kind in {0, 3, 10}
    ensures Width(kind) == if kind == 3 then 4 else if kind == 10 then 8 else 0
  {
  }

  // ---- from the directory to the sites -------------------------------------------------

  lemma DirectoryData(l: Load, dirRva: u32, dirSize: u32, off: nat)
    requires dirRva != 0 && dirSize != 0 && FileOffset(l.sections, dirRva) == Some(off) && off + dirSize <= |l.file|
    ensures RelocData(l, dirRva, dirSize) == Some(l.file[off..off + dirSize])
  {
  }

  lemma DataApplied(l: Load, dirRva: u32, dirSize: u32, image: Bytes, data: Bytes, fixups: seq<Fixup>)
    requires LoadOk(l) && l.delta != 0 && RelocData(l, dirRva, dirSize) == Some(data) && BlockFixups(data, 0) == (fixups, true)
    ensures Relocated(l, dirRva, dirSize, image) == (FixAll(l, image, fixups), true)
  {
  }

  /** A directory whose bytes in the file are a serialised table: the fixups of all its blocks are applied. */
  lemma TableIsApplied(l: Load, dirRva: u32, dirSize: u32, image: Bytes, off: nat, blocks: seq<Block>)
    requires LoadOk(l) && l.delta != 0 && dirRva != 0 && dirSize != 0 && forall x :: x in blocks ==> x.Ok()
    requires FileOffset(l.sections, dirRva) == Some(off) && off + dirSize <= |l.file|
    requires l.file[off..off + dirSize] == TableBytes(blocks)
    ensures Relocated(l, dirRva, dirSize, image) == (FixAll(l, image, Meaning(blocks)), true)
  {
    var data := l.file[off..off + dirSize];
    assert data[0..] == data;
    TableRoundTrip(data, 0, blocks);
    DirectoryData(l, dirRva, dirSize, off);
    DataApplied(l, dirRva, dirSize, image, data, Meaning(blocks));
  }

  /** So every lone site of the table that lies in raw data holds afterwards what it held plus the delta. */
  lemma TableRebases(
    l: Load, dirRva: u32, dirSize: u32, image: Bytes, off: nat, blocks: seq<Block>, headers: nat, k: nat, f: Fixup)
    requires l.delta != 0 && dirRva != 0 && dirSize != 0 && forall x :: x in blocks ==> x.Ok()
    requires FileOffset(l.sections, dirRva) == Some(off) && off + dirSize <= |l.file|
    requires l.file[off..off + dirSize] == TableBytes(blocks)
    requires SiteIn(l, image, headers, k, f) && f in Meaning(blocks) && Alone(Meaning(blocks), f)
    requires f.rva + Width(f.kind) <= RawEnd(l, k) && Moves(f.kind, l.delta)
    ensures var (now, ok) := Relocated(l, dirRva, dirSize, image);
            ok && Rebased(At(image, f), At(now, f), l.delta)
  {
    TableIsApplied(l, dirRva, dirSize, image, off, blocks);
    RawSiteIsRebased(l, image, headers, k, Meaning(blocks), f);
  }

  /** Before any block: nothing is to be done for a delta of zero; and otherwise the run fails, with the
      image as it was, exactly when there is no directory or its bytes are not all in the file, or some
      block is not sound. */
  lemma RelocationFails(l: Load, dirRva: u32, dirSize: u32, image: Bytes)
    requires LoadOk(l)
    ensures var r := Relocated(l, dirRva, dirSize, image);
            var off := FileOffset(l.sections, dirRva);
            && (l.delta == 0 ==> r == (image, true))
            && (l.delta != 0 && (dirRva == 0 || dirSize == 0 || off.None? || off.value + dirSize > |l.file|) ==> r == (image, false))
            && (l.delta != 0 && dirRva != 0 && dirSize != 0 && off.Some? && off.value + dirSize <= |l.file| ==>
                  r.1 == BlockFixups(l.file[off.value..off.value + dirSize], 0).1)
  {
  }
}
