/** The bytes of the unwind codes, and the codes no prologue of the model emits. */
module UnwindCodes {
  import opened Words
  import opened Memory
  import opened Unwind
  import opened UnwindCalls

  /** The low four bits of the second byte number the operation, the high four are its register or kind; the
      operands follow, little-endian. */
  lemma CodesAre(op: PrologueOp)
    ensures var first := op.Slots()[0];
      match op
      case Push(reg, at) => op.Slots() == [Slot(at, 16 * reg)]
      case Small(units, at) => op.Slots() == [Slot(at, 2 + 16 * units)]
      case Large16(words, at) => first == Slot(at, 1) && Operand16(op.Slots(), words)
      case Large32(bytes, at) => first == Slot(at, 17) && Operand32(op.Slots(), bytes)
      case SetFrame(at) => op.Slots() == [Slot(at, 3)]
      case Save(reg, offset, at) => first == Slot(at, 4 + 16 * reg) && Operand16(op.Slots(), offset)
      case SaveFar(reg, offset, at) => first == Slot(at, 5 + 16 * reg) && Operand32(op.Slots(), offset)
      case SaveXmm(reg, offset, at) => first == Slot(at, 6 + 16 * reg) && Operand16(op.Slots(), offset)
      case SaveXmmFar(reg, offset, at) => first == Slot(at, 7 + 16 * reg) && Operand32(op.Slots(), offset)
  {
  }

  predicate Operand16(s: seq<Slot>, n: int) { |s| == 2 && s[1].lo + 0x100 * s[1].hi == n }

  predicate Operand32(s: seq<Slot>, n: int) {
    |s| == 3 && s[1].lo + 0x100 * s[1].hi + 0x1_0000 * s[2].lo + 0x100_0000 * s[2].hi == n
  }

  /** A machine frame (operation 8) gives up 24 bytes of stack, 32 with an error code; an operation above that
      does nothing. Both take one slot, and the first pass agrees. */
  lemma OtherCodes(m: Mem, slots: seq<Slot>, i: nat, fp: u64, s: Regs)
    requires i < |slots| && slots[i].hi % 16 >= 8
    ensures var n := if slots[i].hi % 16 > 8 then 0 else if slots[i].hi / 16 == 0 then 24 else 32;
            && Effect(m, slots, i, fp, s) == Some(s.(rsp := SatAdd(s.rsp, n)))
            && Width(slots[i]) == 1 && Stride(slots[i]) == 1 && Grows(slots, i) == n
  {
  }

  /** The header in memory: how many codes there are is its third byte; the fourth names the frame register
      and holds the frame offset in units of sixteen bytes. */
  lemma FrameOnBytes(m: Mem, va: int, slots: seq<Slot>, s: Regs)
    ensures var h, frame := ReadHeader(Slice(m, va, 4)), Peek(m, va + 3);
            && h.count == Peek(m, va + 2) && h.prologSize == Peek(m, va + 1)
            && FrameBase(h, slots, s) == if frame % 16 == 0 then EntryRsp(slots, 0, s.rsp) else SatSub(s.gpr[frame % 16], 16 * (frame / 16))
  {
    assert Slice(m, va + 2, 2) == [Peek(m, va + 2), Peek(m, va + 3)];
    assert Slice(m, va + 1, 3) == [Peek(m, va + 1)] + Slice(m, va + 2, 2);
    assert Slice(m, va, 4) == [Peek(m, va), Peek(m, va + 1), Peek(m, va + 2), Peek(m, va + 3)];
  }

  /** The codes in memory, two bytes each. */
  lemma {:induction false} SlotsOnBytes(m: Mem, a: int, n: nat, i: nat)
    requires i < n
    ensures |ReadSlots(Slice(m, a, 2 * n))| == n && ReadSlots(Slice(m, a, 2 * n))[i] == Slot(Peek(m, a + 2 * i), Peek(m, a + 2 * i + 1))
    decreases i
  {
    var b, k: nat := Slice(m, a, 2 * n), n - 1;
    SliceJoin(m, a, 2, 2 * k);
    assert Slice(m, a, 2) == [Peek(m, a), Peek(m, a + 1)];
    assert 2 + 2 * k == 2 * n && b == Slice(m, a, 2) + Slice(m, a + 2, 2 * k);
    assert b[2..] == Slice(m, a + 2, 2 * k);
    if i > 0 { SlotsOnBytes(m, a + 2, k, i - 1); }
  }

  /** Unwind data written out: the bytes of header and codes, and zeros up to a multiple of four. */
  lemma EncodedIsPadded(h: Header, slots: seq<Slot>, k: nat)
    requires h.Ok() && h.count == |slots| && k < |EncodeUnwind(h, slots)|
    ensures |EncodeUnwind(h, slots)| % 4 == 0 && |EncodeUnwind(h, slots)| < 8 + 2 * |slots|
    ensures k >= 4 + 2 * |slots| ==> EncodeUnwind(h, slots)[k] == 0
  {
  }

  /** The registers a callee preserves: RBX, RBP, RSI, RDI, R12 to R15, and XMM6 to XMM15. */
  lemma NonvolatilesAre(r: Nibble)
    ensures Nonvolatile(r) <==> r in {3, 5, 6, 7, 12, 13, 14, 15}
    ensures NonvolatileXmm(r) <==> 6 <= r <= 15
  {
  }
}
