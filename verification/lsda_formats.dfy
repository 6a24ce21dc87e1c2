/** The pointer encodings of exception tables, number by number. */
module LsdaFormats {
  import opened Words
  import opened Memory
  import opened Leb128
  import opened Lsda

  /** Bytes of a fixed-width format. */
  function WidthOf(format: int): nat {
    if format in {0, 4, 12} then 8 else if format in {3, 11} then 4 else if format in {2, 10} then 2 else 0
  }

  lemma WidthIs(format: int)
    ensures FormatSize(format) == WidthOf(format)
  {
  }

  /** The low four bits of an encoding are the format. Fixed-width formats are read little-endian, 10 and 11 then
      sign-extended; 12 only tells a negative value from the others; 1 and 9 are variable, and the rest is refused. */
  lemma EncodedIs(m: Mem, c: u64, encoding: u8)
    requires encoding != 0xff
    ensures var format, n := encoding % 16, WidthOf(encoding % 16);
            var v, next := FromLE(Slice(m, c, n)), if c + n < TWO_64 then c + n else TWO_64 - 1;
            var r := Encoded(m, c, encoding);
            if format == 1 then r == Uleb(m, c, 9)
            else if format == 9 then match Sleb(m, c, 9) case None => r == None case Some(s) => r == Some(Num(s.v % TWO_64, s.next))
            else if n == 0 || !Mapped(m, c, n) then r == None
            else r == Some(Num(
              if format == 10 && v >= 0x8000 then v + 0xffff_ffff_ffff_0000
              else if format == 11 && v >= 0x8000_0000 then v + 0xffff_ffff_0000_0000
              else if format == 12 && v >= 0x8000_0000_0000_0000 then 0xffff_ffff_ffff_ffff
              else v, next))
  {
    Limits();
    FromLEBound(Slice(m, c, WidthOf(encoding % 16)));
    assert Pow256(2) == 0x1_0000 && Pow256(4) == TWO_32 && Pow256(8) == TWO_64;
  }

  /** The next three bits say what it is relative to: its place, the image, the function, or nothing; the top bit asks
      for what is stored there. Zero stays zero. */
  lemma AppliedIs(m: Mem, encoding: u8, raw: u64, storage: u64, imageBase: u64, funcStart: u64)
    ensures var from := encoding / 16 % 8;
            var base := if from == 1 then storage else if from == 2 || from == 3 then imageBase else if from == 4 then funcStart else 0;
            var address := (base + raw) % TWO_64;
            Applied(m, encoding, raw, storage, imageBase, funcStart) ==
              if encoding == 0xff || raw == 0 then Some(0)
              else if encoding < 0x80 || address == 0 then Some(address)
              else if Mapped(m, address, 8) then Some(FromLE(Slice(m, address, 8)))
              else None
  {
  }

  /** Entry `index` of the type table lies that many entries below its base. */
  lemma EntryAt(m: Mem, base: u64, encoding: u8, index: nat, imageBase: u64, funcStart: u64)
    requires index > 0 && encoding != 0xff && index * WidthOf(encoding % 16) <= base
    ensures var at := base - index * WidthOf(encoding % 16);
            ResolveType(m, base, encoding, index, imageBase, funcStart) ==
              if WidthOf(encoding % 16) == 0 || Encoded(m, at, encoding % 16).None? then None
              else Applied(m, encoding, Encoded(m, at, encoding % 16).value.v, at, imageBase, funcStart)
  {
  }

  /** A link is a distance from its own field, both read as signed numbers; it ends the chain when it is zero or leads
      to no address, or to one in front of the table. */
  lemma FollowIs(table: u64, r: RecordRead)
    ensures var at := (if r.linkAt < 0x8000_0000_0000_0000 then r.linkAt else r.linkAt - 0x1_0000_0000_0000_0000) + r.link;
            && (r.link == 0 || at <= 0 || at < table ==> Follow(table, r) == None)
            && (r.link != 0 && at > 0 && table <= at < 0x8000_0000_0000_0000 ==> Follow(table, r) == Some(at - table + 1))
  {
  }
}
