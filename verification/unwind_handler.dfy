/** Which exception handler one level of unwinding reports, from the bytes of the unwind data. */
module UnwindHandler {
  import opened Words
  import opened Memory
  import opened Unwind

  // ---- what is reported, from the bytes ------------------------------------------------

  /** The little-endian word at `a`. */
  function Word32(m: Mem, a: int): nat {
    Peek(m, a) + 0x100 * Peek(m, a + 1) + 0x1_0000 * Peek(m, a + 2) + 0x100_0000 * Peek(m, a + 3)
  }

  lemma FetchedWord(m: Mem, a: u64, len: nat, i: nat)
    requires Mapped(m, a, len) && i + 4 <= len
    ensures U32Of(Slice(m, a, len)[i..i + 4]) == Word32(m, a + i)
  {
    SliceJoin(m, a, i, len - i);
    SliceJoin(m, a + i, 4, len - i - 4);
    var b := Slice(m, a + i, 4);
    assert Slice(m, a, len)[i..i + 4] == b;
    FourBytes(m, a + i);
  }

  lemma FourBytes(m: Mem, a: int)
    ensures FromLE(Slice(m, a, 4)) == Word32(m, a)
  {
    var b, c, d, e := Slice(m, a, 4), Slice(m, a + 1, 3), Slice(m, a + 2, 2), Slice(m, a + 3, 1);
    assert e[1..] == [] && FromLE(e) == Peek(m, a + 3);
    assert d[1..] == e && FromLE(d) == Peek(m, a + 2) + 0x100 * FromLE(e);
    assert c[1..] == d && FromLE(c) == Peek(m, a + 1) + 0x100 * FromLE(d);
    assert b[1..] == c && FromLE(b) == Peek(m, a) + 0x100 * FromLE(c);
  }

  lemma HeaderWords(m: Mem, a: int)
    ensures var b := Slice(m, a, 4); b[0] == Peek(m, a) && b[2] == Peek(m, a + 2)
  {
    var b, c, d := Slice(m, a, 4), Slice(m, a + 1, 3), Slice(m, a + 2, 2);
    assert b[1..] == c && c[1..] == d && d[0] == Peek(m, a + 2);
    assert b[2] == c[1] == d[0];
  }

  /** What a level reports, by the flags and the words at `at`. */
  predicate Reports(m: Mem, flags: nat, at: u64, r: Unwound) {
    if flags / 4 % 2 == 1 && Word32(m, at) != 0 then r.Chain? && r.rva == Word32(m, at)
    else
      && r.Done?
      && r.handler == (if flags % 4 == 0 then None else Some(Handler(Word32(m, at), Word32(m, at + 4), SatAdd(at, 4))))
  }

  lemma FinishReports(m: Mem, h: Header, at: u64, ctx: Context)
    requires h.flags >= 0
    ensures var r := Finish(m, h, at, ctx); r.Some? ==> Reports(m, h.flags, at, r.value)
  {
    if Mapped(m, at, 4) { FourBytes(m, at); }
    if Mapped(m, at, 8) {
      FetchedWord(m, at, 8, 0);
      FetchedWord(m, at, 8, 4);
      var b := Slice(m, at, 8);
      assert b[..4] == b[0..0 + 4] && b[4..] == b[4..4 + 4];
    }
  }

  /** A level that succeeds ends behind the codes. */
  lemma FinishedAt(m: Mem, base: u64, entry: RuntimeFunction, ctx: Context, h: Header)
    requires entry.unwindData != 0 && h == ReadHeader(Slice(m, SatAdd(base, entry.unwindData), 4))
    ensures var r := UnwindOne(m, base, entry, ctx);
            r.Some? ==> Reports(m, h.flags, SatAdd(SatAdd(base, entry.unwindData), h.Size()), r.value)
  {
    var va := SatAdd(base, entry.unwindData);
    var cb := Fetch(m, SatAdd(va, 4), 2 * h.count);
    if Mapped(m, va, 4) && cb.Some? {
      var slots := ReadSlots(cb.value);
      var s := Undo(EffectOf(m, FrameBase(h, slots, ctx.regs)), slots, 0, ctx.regs);
      if s.Some? {
        var c := PopRip(m, s.value);
        if c.Some? { FinishReports(m, h, SatAdd(va, h.Size()), c.value); }
      }
    }
  }

  /** Whatever the codes do, by the first byte of the unwind data: with the flag of a chain, and a word that
      is not zero after the codes, that word is the entry to go on with; otherwise, with the flag of
      an exception handler or of a termination handler, the two words there are the handler and its data; and
      with neither there is no handler. The codes are padded to a multiple of four bytes. */
  lemma ReportsHandler(m: Mem, base: u64, entry: RuntimeFunction, ctx: Context)
    requires entry.unwindData != 0
    ensures var va := SatAdd(base, entry.unwindData);
            var first, count := Peek(m, va), Peek(m, va + 2);
            var at := SatAdd(va, 4 + (2 * count + 3) / 4 * 4);
            match UnwindOne(m, base, entry, ctx)
            case None => true
            case Some(Chain(_, rva)) => first / 0x20 % 2 == 1 && rva == Word32(m, at) != 0
            case Some(Done(_, None)) => first / 8 % 4 == 0 && (first / 0x20 % 2 == 1 ==> Word32(m, at) == 0)
            case Some(Done(_, Some(h))) =>
              && first / 8 % 4 != 0 && (first / 0x20 % 2 == 1 ==> Word32(m, at) == 0)
              && h == Handler(Word32(m, at), Word32(m, at + 4), SatAdd(at, 4))
  {
    var va := SatAdd(base, entry.unwindData);
    HeaderWords(m, va);
    var h := ReadHeader(Slice(m, va, 4));
    assert h.Size() == 4 + (2 * h.count + 3) / 4 * 4;
    FinishedAt(m, base, entry, ctx, h);
  }
}
