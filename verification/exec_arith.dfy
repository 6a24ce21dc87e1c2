/** ADD, ADC, SUB, SBB and CMP as the interpreter executes them, against the architecture's
    exact arithmetic. */
module ExecArith {
  import opened Words
  import opened Bits
  import opened Alu

  const CF: bv64 := 0x1
  const PF: bv64 := 0x4
  const AF: bv64 := 0x10
  const ZF: bv64 := 0x40
  const SF: bv64 := 0x80
  const DF: bv64 := 0x400
  const OF: bv64 := 0x800
  const ALWAYS1: bv64 := 0x2

  predicate IsFlag(m: bv64) {
    m == CF || m == PF || m == AF || m == ZF || m == SF || m == DF || m == OF
  }

  function WithFlag(rflags: bv64, m: bv64, on: bool): bv64 {
    (if on then rflags | m else rflags & !m) | ALWAYS1
  }

  /** `flag`. */
  predicate Reads(rflags: bv64, m: bv64) {
    rflags & m != 0
  }

  /** A flag reads back as last written and is not disturbed by writing another. */
  lemma FlagReadsBack(rflags: bv64, m: bv64, on: bool, m': bv64)
    requires IsFlag(m) && IsFlag(m')
    ensures Reads(WithFlag(rflags, m, on), m') == if m == m' then on else Reads(rflags, m')
  {
  }

  /** The arithmetic flags of an RFLAGS word. */
  function FlagsOf(r: bv64): Flags {
    Flags(cf := Reads(r, CF), pf := Reads(r, PF), af := Reads(r, AF), zf := Reads(r, ZF), sf := Reads(r, SF), of := Reads(r, OF))
  }

  // Writing one flag changes it and no other.

  lemma WritesCf(r: bv64, on: bool)
    ensures FlagsOf(WithFlag(r, CF, on)) == FlagsOf(r).(cf := on)
    ensures Reads(WithFlag(r, CF, on), DF) == Reads(r, DF)
  {
    FlagReadsBack(r, CF, on, CF); FlagReadsBack(r, CF, on, PF); FlagReadsBack(r, CF, on, AF); FlagReadsBack(r, CF, on, ZF);
    FlagReadsBack(r, CF, on, SF); FlagReadsBack(r, CF, on, OF); FlagReadsBack(r, CF, on, DF);
  }

  lemma WritesOf(r: bv64, on: bool)
    ensures FlagsOf(WithFlag(r, OF, on)) == FlagsOf(r).(of := on)
    ensures Reads(WithFlag(r, OF, on), DF) == Reads(r, DF)
  {
    FlagReadsBack(r, OF, on, CF); FlagReadsBack(r, OF, on, PF); FlagReadsBack(r, OF, on, AF); FlagReadsBack(r, OF, on, ZF);
    FlagReadsBack(r, OF, on, SF); FlagReadsBack(r, OF, on, OF); FlagReadsBack(r, OF, on, DF);
  }

  /** The six flags written one after the other. */
  function WithSix(r: bv64, f: Flags): bv64 {
    WithFlag(WithFlag(WithFlag(WithFlag(WithFlag(WithFlag(r, CF, f.cf), ZF, f.zf), SF, f.sf), PF, f.pf), OF, f.of), AF, f.af)
  }

  lemma WritesSix(r: bv64, f: Flags)
    ensures FlagsOf(WithSix(r, f)) == f && Reads(WithSix(r, f), DF) == Reads(r, DF)
  {
  }

  // ---- the architecture --------------------------------------------------------------

  datatype ArithOp = Add | Adc | Sub | Sbb | Cmp

  predicate Adds(op: ArithOp) {
    op.Add? || op.Adc?
  }

  function CarryIn(op: ArithOp, c: bool): int {
    if (op.Adc? || op.Sbb?) && c then 1 else 0
  }

  predicate EvenParity(r: u64) {
    Ones(r % 0x100, 8) % 2 == 0
  }

  /** The exact, unbounded sum or difference with carry or borrow `k`. */
  function Total(adds: bool, d: int, s: int, k: int): int {
    if adds then d + s + k else d - s - k
  }

  /** The wrapped exact value; carry or borrow out of the operand and out of the low nibble;
      signed overflow. */
  function Exact(adds: bool, d: u64, s: u64, k: int, size: OpSize): (r: (u64, Flags))
    requires d < Modulus(size) && s < Modulus(size) && 0 <= k <= 1
    ensures r.0 < Modulus(size)
  {
    var t := Total(adds, d, s, k);
    var r := Wrap(t, size);
    (r, Flags(
       cf := t < 0 || t >= Modulus(size),
       pf := EvenParity(r),
       af := if adds then d % 16 + s % 16 + k >= 16 else d % 16 < s % 16 + k,
       zf := r == 0,
       sf := r >= Sign(size),
       of := !FitsSigned(Total(adds, Signed(d, size), Signed(s, size), k), size)))
  }

  /** Result and flags as the architecture defines them. */
  function Arch(op: ArithOp, d: u64, s: u64, c: bool, size: OpSize): (r: (u64, Flags))
    requires d < Modulus(size) && s < Modulus(size)
    ensures r.0 < Modulus(size)
  {
    Exact(Adds(op), d, s, CarryIn(op, c), size)
  }

  /** What the interpreter computes. It folds ADC's carry into the addend before looking at
      signs and nibbles, so OF and AF go wrong when the addend then changes sign or nibble. */
  function Emulated(op: ArithOp, d: u64, s: u64, c: bool, size: OpSize): (r: (u64, Flags))
    requires d < Modulus(size) && s < Modulus(size)
    ensures r.0 < Modulus(size)
  {
    var (r, f) := Arch(op, d, s, c, size);
    if op.Adc? && c then
      (r, f.(of := f.of != (s == Sign(size) - 1), af := f.af && s % 16 != 15))
    else (r, f)
  }

  /** Every flag but ADC's OF and AF is architectural; those two are, except with carry in and
      an addend that is the largest positive value, respectively ends in nibble 15. */
  lemma EmulationIsExact(op: ArithOp, d: u64, s: u64, c: bool, size: OpSize)
    requires d < Modulus(size) && s < Modulus(size)
    ensures var (r, f) := Emulated(op, d, s, c, size);
            var (r', f') := Arch(op, d, s, c, size);
            && r == r' && f.cf == f'.cf && f.zf == f'.zf && f.sf == f'.sf && f.pf == f'.pf
            && (f.of == f'.of <==> !(op.Adc? && c && s == Sign(size) - 1))
            && (f.af == f'.af <==> !(op.Adc? && c && s % 16 == 15))
  {
  }

  /** 0x7f + 0 + carry overflows a signed byte; the interpreter reports no overflow. */
  lemma AdcOverflowMissed()
    ensures Arch(Adc, 0, 0x7f, true, 1).1.of && !Emulated(Adc, 0, 0x7f, true, 1).1.of
  {
  }

  // ---- wrapping 64-bit arithmetic, masked to the operand --------------------------------

  lemma MaskSmall(v: u64, size: OpSize)
    requires v < Modulus(size)
    ensures Mask(v, size) == v
  {
  }

  lemma MaskBound(v: u64, size: OpSize)
    ensures Mask(v, size) < Modulus(size)
  {
  }

  lemma MaskedAdd(d: u64, s: u64, size: OpSize)
    requires d < Modulus(size) && s < Modulus(size)
    ensures Mask(WrapAdd(d, s), size) == Wrap(d + s, size)
  {
  }

  lemma MaskedAddCarry(d: u64, s: u64, c: u64, size: OpSize)
    requires d < Modulus(size) && s < Modulus(size) && c <= 1
    ensures Mask(WrapAdd(WrapAdd(d, s), c), size) == Wrap(d + s + c, size)
    ensures Mask(WrapAdd(s, c), size) == Wrap(s + c, size)
  {
  }

  lemma WholeModulus(v: int, size: OpSize)
    requires -Modulus(size) <= v < 0
    ensures (v + TWO_64) % Modulus(size) == v + Modulus(size)
  {
  }

  lemma MaskedSub(d: u64, s: u64, c: u64, size: OpSize)
    requires d < Modulus(size) && s < Modulus(size) && c <= 1
    ensures Mask(WrapSub(d, s), size) == Wrap(d - s, size)
    ensures Mask(WrapSub(WrapSub(d, s), c), size) == Wrap(d - s - c, size)
  {
    if d - s < 0 { WholeModulus(d - s, size); }
    if d - s - c < 0 { WholeModulus(d - s - c, size); }
  }

  // ---- the interpreter ---------------------------------------------------------------

  /** The flag formulas of `set_add_flags`, on masked operands. */
  function AddFlagBits(d: u64, s: u64, r: u64, size: OpSize): Flags {
    Flags(
      cf := d + s > Modulus(size) - 1,
      pf := EvenParity(r),
      af := And(Xor(Xor(d, s), r), 0x10) != 0,
      zf := r == 0,
      sf := And(r, Sign(size)) != 0,
      of := And(And(Xor(d, r), Xor(s, r)), Sign(size)) != 0)
  }

  /** The flag formulas of `set_sub_flags`, on masked operands. */
  function SubFlagBits(d: u64, s: u64, r: u64, size: OpSize): Flags {
    Flags(
      cf := d < s,
      pf := EvenParity(r),
      af := And(Xor(Xor(d, s), r), 0x10) != 0,
      zf := r == 0,
      sf := And(r, Sign(size)) != 0,
      of := And(And(Xor(d, s), Xor(d, r)), Sign(size)) != 0)
  }

  /** On a sum the formulas give exactly the architectural flags. */
  lemma AddFlagsExact(d: u64, s: u64, size: OpSize)
    requires d < Modulus(size) && s < Modulus(size)
    ensures AddFlagBits(d, s, Wrap(d + s, size), size) == Arch(Add, d, s, false, size).1
  {
    var r := Wrap(d + s, size);
    SignBit(r, size);
    AddOverflowBit(d, s, r, size);
    AddNibbleBit(d, s, r, size);
  }

  /** On a difference they do too. */
  lemma SubFlagsExact(d: u64, s: u64, size: OpSize)
    requires d < Modulus(size) && s < Modulus(size)
    ensures SubFlagBits(d, s, Wrap(d - s, size), size) == Arch(Sub, d, s, false, size).1
  {
    var r := Wrap(d - s, size);
    SignBit(r, size);
    SubOverflowBit(d, s, r, size);
    SubNibbleBit(d, s, 0, r, size);
  }

  /** On a difference with borrow they do once CF and OF are recomputed at full width. */
  lemma SbbFlagsExact(d: u64, s: u64, c: bool, size: OpSize)
    requires d < Modulus(size) && s < Modulus(size)
    ensures var k := if c then 1 else 0;
            var r := Wrap(d - s - k, size);
            SubFlagBits(d, s, r, size).(
              cf := d < s + k,
              of := Signed(d, size) - Signed(s, size) - k != Signed(r, size)) == Arch(Sbb, d, s, c, size).1
  {
    var k := if c then 1 else 0;
    var r := Wrap(d - s - k, size);
    var f := SubFlagBits(d, s, r, size);
    var g := Exact(false, d, s, k, size).1;
    assert f.sf == g.sf by { SignBit(r, size); }
    assert f.af == g.af by { SubNibbleBit(d, s, k, r, size); }
    assert Signed(d, size) - Signed(s, size) - k != Signed(r, size) <==> g.of by { WrapSigned(d, s, k, size); }
  }

  /** On ADC the formulas see the addend with the carry folded in. */
  lemma AdcFlagsExact(d: u64, s: u64, c: bool, size: OpSize)
    requires d < Modulus(size) && s < Modulus(size)
    ensures var k := if c then 1 else 0;
            var r := Wrap(d + s + k, size);
            AddFlagBits(d, Wrap(s + k, size), r, size).(cf := d + s + k > Modulus(size) - 1)
              == Emulated(Adc, d, s, c, size).1
  {
    if c {
      AddFlagsExact(d, Wrap(s + 1, size), size);
      AdcFolded(d, s, size);
    } else {
      AddFlagsExact(d, s, size);
    }
  }

  /** The formulas of ADC against the architecture, bit by bit: CF, ZF, SF and PF are right; OF and AF
      are right unless the carry folded into the addend changes its sign, or its low nibble. */
  lemma AdcFormulasExactly(d: u64, s: u64, c: bool, size: OpSize)
    requires d < Modulus(size) && s < Modulus(size)
    ensures var k := if c then 1 else 0;
            var r := Wrap(d + s + k, size);
            var f := AddFlagBits(d, Wrap(s + k, size), r, size).(cf := d + s + k > Modulus(size) - 1);
            var (r', g) := Exact(true, d, s, k, size);
            && r == r' && f.cf == g.cf && f.zf == g.zf && f.sf == g.sf && f.pf == g.pf
            && (f.of == g.of <==> !(c && s == Sign(size) - 1))
            && (f.af == g.af <==> !(c && s % 16 == 15))
  {
    AdcFlagsExact(d, s, c, size);
    EmulationIsExact(Adc, d, s, c, size);
  }

  /** Adding the folded addend differs from adding with carry in OF, AF and CF only. */
  lemma AdcFolded(d: u64, s: u64, size: OpSize)
    requires d < Modulus(size) && s < Modulus(size)
    ensures var (x, f), (y, g) := Exact(true, d, Wrap(s + 1, size), 0, size), Exact(true, d, s, 1, size);
            && x == y && f.pf == g.pf && f.zf == g.zf && f.sf == g.sf
            && f.of == (g.of != (s == Sign(size) - 1)) && f.af == (g.af && s % 16 != 15)
  {
    AdcFoldedResult(d, s, size);
    AdcFoldedSigned(d, s, size);
    AdcFoldedNibble(s, size);
  }

  /** Only ADC and SBB look at the carry flag, and CMP is SUB without the write-back. */
  lemma CarryUnused(op: ArithOp, d: u64, s: u64, c: bool, size: OpSize)
    requires d < Modulus(size) && s < Modulus(size)
    ensures op.Add? ==> Emulated(op, d, s, c, size) == Arch(Add, d, s, false, size)
    ensures op.Sub? || op.Cmp? ==> Emulated(op, d, s, c, size) == Arch(Sub, d, s, false, size)
    ensures op.Sbb? ==> Emulated(op, d, s, c, size) == Arch(Sbb, d, s, c, size)
  {
  }

  lemma AdcFoldedResult(d: u64, s: u64, size: OpSize)
    requires d < Modulus(size) && s < Modulus(size)
    ensures Wrap(d + Wrap(s + 1, size), size) == Wrap(d + s + 1, size)
  {
  }

  lemma AdcFoldedSigned(d: u64, s: u64, size: OpSize)
    requires d < Modulus(size) && s < Modulus(size)
    ensures FitsSigned(Signed(d, size) + Signed(Wrap(s + 1, size), size), size)
            <==> FitsSigned(Signed(d, size) + Signed(s, size) + 1, size) != (s == Sign(size) - 1)
  {
  }

  lemma AdcFoldedNibble(s: u64, size: OpSize)
    requires s < Modulus(size)
    ensures Wrap(s + 1, size) % 16 == if s % 16 == 15 then 0 else s % 16 + 1
  {
  }

  /** A wrapped difference read as signed is exact iff it did not overflow. */
  lemma WrapSigned(d: u64, s: u64, c: u64, size: OpSize)
    requires d < Modulus(size) && s < Modulus(size) && c <= 1
    ensures Signed(d, size) - Signed(s, size) - c == Signed(Wrap(d - s - c, size), size)
            <==> FitsSigned(Signed(d, size) - Signed(s, size) - c, size)
  {
  }

  /** The register file's RFLAGS. */
  class RegFile {
    var rflags: bv64

    /** The arithmetic flags it holds. */
    function Status(): Flags
      reads this
    {
      FlagsOf(rflags)
    }

    /** `set_flag`. */
    method SetFlag(m: bv64, on: bool)
      requires IsFlag(m)
      modifies this
      ensures rflags == WithFlag(old(rflags), m, on)
    {
      var r := rflags;
      r := if on then r | m else r & !m;
      rflags := r | ALWAYS1;
    }

    /** The six arithmetic flags, in the order the code writes them; the direction flag stays. */
    method SetSix(f: Flags)
      modifies this
      ensures Status() == f && Reads(rflags, DF) == Reads(old(rflags), DF)
    {
      WritesSix(rflags, f);
      SetFlag(CF, f.cf);
      SetFlag(ZF, f.zf);
      SetFlag(SF, f.sf);
      SetFlag(PF, f.pf);
      SetFlag(OF, f.of);
      SetFlag(AF, f.af);
    }

    /** `set_add_flags`: given the sum of the operands, RFLAGS holds the architecture's flags of the
        addition; for any other `result` it holds what the bit formulas say of it. */
    method SetAddFlags(dst: u64, src: u64, result: u64, size: OpSize)
      modifies this
      ensures var d, s := Mask(dst, size), Mask(src, size);
              && (Mask(result, size) == Wrap(d + s, size) ==> Status() == Exact(true, d, s, 0, size).1)
              && Status() == AddFlagBits(d, s, Mask(result, size), size)
      ensures Reads(rflags, DF) == Reads(old(rflags), DF)
    {
      var d, s, r := Mask(dst, size), Mask(src, size), Mask(result, size);
      MaskBound(dst, size);
      MaskBound(src, size);
      AddFlagsExact(d, s, size);
      SetSix(Flags(cf := d + s > Modulus(size) - 1,
                   pf := EvenParity(r),
                   af := And(Xor(Xor(d, s), r), 0x10) != 0,
                   zf := r == 0,
                   sf := And(r, Sign(size)) != 0,
                   of := And(And(Xor(d, r), Xor(s, r)), Sign(size)) != 0));
    }

    /** `set_sub_flags`, the same for the difference. */
    method SetSubFlags(dst: u64, src: u64, result: u64, size: OpSize)
      modifies this
      ensures var d, s := Mask(dst, size), Mask(src, size);
              && (Mask(result, size) == Wrap(d - s, size) ==> Status() == Exact(false, d, s, 0, size).1)
              && Status() == SubFlagBits(d, s, Mask(result, size), size)
      ensures Reads(rflags, DF) == Reads(old(rflags), DF)
    {
      var d, s, r := Mask(dst, size), Mask(src, size), Mask(result, size);
      MaskBound(dst, size);
      MaskBound(src, size);
      SubFlagsExact(d, s, size);
      SetSix(Flags(cf := d < s,
                   pf := EvenParity(r),
                   af := And(Xor(Xor(d, s), r), 0x10) != 0,
                   zf := r == 0,
                   sf := And(r, Sign(size)) != 0,
                   of := And(And(Xor(d, s), Xor(d, r)), Sign(size)) != 0));
    }

    method ExecAdd(d: u64, s: u64, size: OpSize) returns (out: u64)
      requires d < Modulus(size) && s < Modulus(size)
      modifies this
      ensures (out, Status()) == Arch(Add, d, s, false, size)
    {
      var result := WrapAdd(d, s);
      MaskedAdd(d, s, size); MaskSmall(d, size); MaskSmall(s, size);
      SetAddFlags(d, s, result, size);
      out := Mask(result, size);
    }

    method ExecAdc(d: u64, s: u64, size: OpSize) returns (out: u64)
      requires d < Modulus(size) && s < Modulus(size)
      modifies this
      ensures (out, Status()) == Emulated(Adc, d, s, old(Status().cf), size)
    {
      var carry := Reads(rflags, CF);
      var cf: u64 := if carry then 1 else 0;
      var result := WrapAdd(WrapAdd(d, s), cf);
      MaskedAddCarry(d, s, cf, size); MaskSmall(d, size);
      SetAddFlags(d, WrapAdd(s, cf), result, size);
      var wide := d + s + cf;
      WritesCf(rflags, wide > Modulus(size) - 1);
      SetFlag(CF, wide > Modulus(size) - 1);
      AdcFlagsExact(d, s, carry, size);
      out := Mask(result, size);
    }

    method ExecSub(d: u64, s: u64, size: OpSize) returns (out: u64)
      requires d < Modulus(size) && s < Modulus(size)
      modifies this
      ensures (out, Status()) == Arch(Sub, d, s, false, size)
    {
      var result := WrapSub(d, s);
      MaskedSub(d, s, 0, size); MaskSmall(d, size); MaskSmall(s, size);
      SetSubFlags(d, s, result, size);
      out := Mask(result, size);
    }

    method ExecSbb(d: u64, s: u64, size: OpSize) returns (out: u64)
      requires d < Modulus(size) && s < Modulus(size)
      modifies this
      ensures (out, Status()) == Arch(Sbb, d, s, old(Status().cf), size)
    {
      var carry := Reads(rflags, CF);
      var cf: u64 := if carry then 1 else 0;
      var result := WrapSub(WrapSub(d, s), cf);
      MaskedSub(d, s, cf, size); MaskSmall(d, size); MaskSmall(s, size);
      out := Mask(result, size);
      SetSubFlags(d, s, result, size);
      SetBorrowFlags(d, s, cf, out, size);
      SbbFlagsExact(d, s, carry, size);
    }

    /** CF and OF of SBB, worked out at full width. */
    method SetBorrowFlags(d: u64, s: u64, cf: u64, out: u64, size: OpSize)
      modifies this
      ensures Status() == old(Status()).(cf := d < s + cf, of := Signed(d, size) - Signed(s, size) - cf != Signed(out, size))
    {
      WritesCf(rflags, d < s + cf);
      SetFlag(CF, d < s + cf);
      var expected := Signed(d, size) - Signed(s, size) - cf;
      WritesOf(rflags, expected != Signed(out, size));
      SetFlag(OF, expected != Signed(out, size));
    }

    /** `exec_arith` on operand values: the result written back (none for CMP) and the flags
        are the architecture's, but for ADC's OF and AF as `Emulated` has them. */
    method ExecArith(op: ArithOp, dst: u64, src: u64, size: OpSize) returns (out: Option<u64>)
      modifies this
      ensures var (r, f) := Emulated(op, Mask(dst, size), Mask(src, size), old(Status().cf), size);
              Status() == f && out == if op.Cmp? then None else Some(r)
    {
      var d, s := Mask(dst, size), Mask(src, size);
      MaskBound(dst, size);
      MaskBound(src, size);
      CarryUnused(op, d, s, Reads(rflags, CF), size);
      var r;
      match op {
        case Add => r := ExecAdd(d, s, size);
        case Adc => r := ExecAdc(d, s, size);
        case Sub => r := ExecSub(d, s, size);
        case Sbb => r := ExecSbb(d, s, size);
        case Cmp => r := ExecSub(d, s, size);
      }
      out := if op.Cmp? then None else Some(r);
    }
  }

  // ---- conditional jumps -------------------------------------------------------------

  datatype Cond = Je | Jne | Ja | Jae | Jb | Jbe | Jg | Jge | Jl | Jle | Jo | Jno | Js | Jns | Jp | Jnp

  /** `cond_from_jcc`. */
  predicate Taken(c: Cond, f: Flags) {
    match c
    case Je => f.zf
    case Jne => !f.zf
    case Ja => !f.cf && !f.zf
    case Jae => !f.cf
    case Jb => f.cf
    case Jbe => f.cf || f.zf
    case Jg => !f.zf && f.sf == f.of
    case Jge => f.sf == f.of
    case Jl => f.sf != f.of
    case Jle => f.zf || f.sf != f.of
    case Jo => f.of
    case Jno => !f.of
    case Js => f.sf
    case Jns => !f.sf
    case Jp => f.pf
    case Jnp => !f.pf
  }

  /** After CMP the unsigned jumps decide the order of the operands read unsigned, the signed
      jumps their order read in two's complement. */
  lemma CmpDecides(dst: u64, src: u64, c: bool, size: OpSize)
    ensures var d, s := Mask(dst, size), Mask(src, size);
            var f := Emulated(Cmp, d, s, c, size).1;
            && (Taken(Je, f) <==> d == s) && (Taken(Jne, f) <==> d != s)
            && (Taken(Ja, f) <==> d > s) && (Taken(Jae, f) <==> d >= s)
            && (Taken(Jb, f) <==> d < s) && (Taken(Jbe, f) <==> d <= s)
            && (Taken(Jg, f) <==> Signed(d, size) > Signed(s, size))
            && (Taken(Jge, f) <==> Signed(d, size) >= Signed(s, size))
            && (Taken(Jl, f) <==> Signed(d, size) < Signed(s, size))
            && (Taken(Jle, f) <==> Signed(d, size) <= Signed(s, size))
  {
  }

  /** And the other jumps: the difference does not fit, is negative as wrapped, or (`ParityIs`) has an even
      number of bits set in its low byte. */
  lemma CmpShows(d: u64, s: u64, c: bool, size: OpSize)
    requires d < Modulus(size) && s < Modulus(size)
    ensures var w: int, v: int, f := Emulated(Cmp, d, s, c, size).0, Signed(d, size) - Signed(s, size), Emulated(Cmp, d, s, c, size).1;
            && 0 <= w < Modulus(size) && (w + s == d || w + s == d + Modulus(size))
            && (Taken(Jo, f) <==> v + Sign(size) < 0 || v >= Sign(size)) && (Taken(Jno, f) <==> 0 <= v + Sign(size) && v < Sign(size))
            && (Taken(Js, f) <==> w >= Sign(size)) && (Taken(Jns, f) <==> w < Sign(size))
            && (Taken(Jp, f) <==> EvenParity(w)) && (Taken(Jnp, f) <==> !EvenParity(w))
  {
  }

  // ---- multi-precision chains --------------------------------------------------------

  /** Value in base `m` of a number stored least limb first. */
  function Value(limbs: seq<u64>, m: int): int {
    if limbs == [] then 0 else limbs[0] + m * Value(limbs[1..], m)
  }

  /** The same limbs read in two's complement, the sign in the top limb. */
  function SignedValue(limbs: seq<u64>, m: int, size: OpSize): int
    requires limbs != []
  {
    if |limbs| == 1 then Signed(limbs[0], size) else limbs[0] + m * SignedValue(limbs[1..], m, size)
  }

  function Sum(b: seq<u64>): int {
    if b == [] then 0 else b[0] + Sum(b[1..])
  }

  lemma {:induction false} OnesOfBits(b: seq<u64>)
    requires forall i :: 0 <= i < |b| ==> b[i] == 0 || b[i] == 1
    ensures Value(b, 2) >= 0 && Ones(Value(b, 2), |b|) == Sum(b)
  {
    if b != [] {
      OnesOfBits(b[1..]);
      var v := Value(b[1..], 2);
      assert Value(b, 2) == b[0] + 2 * v;
      assert Value(b, 2) % 2 == b[0] && Value(b, 2) / 2 == v;
    }
  }

  /** Parity is that of the eight low bits, here taken apart. */
  lemma ParityIs(r: u64, b: seq<u64>)
    requires |b| == 8 && forall i :: 0 <= i < 8 ==> b[i] == 0 || b[i] == 1
    requires r % 0x100 == Value(b, 2)
    ensures EvenParity(r) <==> Sum(b) % 2 == 0
  {
    OnesOfBits(b);
  }

  function Power(b: int, n: nat): int {
    if n == 0 then 1 else b * Power(b, n - 1)
  }

  ghost predicate Limbs(a: seq<u64>, size: OpSize) {
    forall i :: 0 <= i < |a| ==> a[i] < Modulus(size)
  }

  /** `first` on the lowest limbs, then `next` on each higher pair, the flags flowing on. */
  function Chain(first: ArithOp, next: ArithOp, a: seq<u64>, b: seq<u64>, c: bool, size: OpSize): (r: (seq<u64>, Flags))
    requires |a| == |b| > 0 && Limbs(a, size) && Limbs(b, size)
    ensures |r.0| == |a| && Limbs(r.0, size)
    decreases |a|
  {
    var (x, f) := Emulated(first, a[0], b[0], c, size);
    if |a| == 1 then ([x], f)
    else
      var (xs, g) := Chain(next, next, a[1..], b[1..], f.cf, size);
      ([x] + xs, g)
  }

  lemma OneLimb(a: seq<u64>, m: int, size: OpSize)
    requires |a| == 1
    ensures Value(a, m) == a[0] && SignedValue(a, m, size) == Signed(a[0], size) && Power(m, 1) == m
  {
    assert Value(a[1..], m) == 0;
  }

  lemma LimbSplit(a: seq<u64>, x: u64, xs: seq<u64>, m: int, size: OpSize)
    requires a == [x] + xs
    ensures Value(a, m) == x + m * Value(xs, m)
    ensures xs != [] ==> SignedValue(a, m, size) == x + m * SignedValue(xs, m, size)
  {
    assert a[1..] == xs;
  }

  /** One limb's exact equation: what is kept plus what is carried on. */
  lemma LimbAdd(first: ArithOp, d: u64, s: u64, c: bool, size: OpSize)
    requires d < Modulus(size) && s < Modulus(size) && Adds(first)
    ensures var (x, f) := Emulated(first, d, s, c, size);
            x + (if f.cf then Modulus(size) else 0) == d + s + CarryIn(first, c)
  {
  }

  lemma LimbSub(first: ArithOp, d: u64, s: u64, c: bool, size: OpSize)
    requires d < Modulus(size) && s < Modulus(size) && (first.Sub? || first.Sbb?)
    ensures var (x, f) := Emulated(first, d, s, c, size);
            && x - (if f.cf then Modulus(size) else 0) == d - s - CarryIn(first, c)
            && (f.cf <==> d - s - CarryIn(first, c) < 0)
            && (f.sf != f.of <==> Signed(d, size) - Signed(s, size) - CarryIn(first, c) < 0)
  {
  }

  lemma CarryOn(m: int, x: int, low: int, k: bool, xs: int, va: int, vb: int, g: bool, p: int)
    requires x + (if k then m else 0) == low
    requires xs + (if g then p else 0) == va + vb + (if k then 1 else 0)
    ensures x + m * xs + (if g then m * p else 0) == low + m * va + m * vb
  {
    assert m * (xs + (if g then p else 0)) == m * (va + vb + (if k then 1 else 0));
  }

  lemma BorrowOn(m: int, x: int, low: int, k: bool, xs: int, va: int, vb: int, g: bool, p: int)
    requires x - (if k then m else 0) == low
    requires xs - (if g then p else 0) == va - vb - (if k then 1 else 0)
    ensures x + m * xs - (if g then m * p else 0) == low + m * va - m * vb
  {
    assert m * (xs - (if g then p else 0)) == m * (va - vb - (if k then 1 else 0));
  }

  /** Gluing one limb under a chain: its carry `k` is absorbed, the chain's carry `g` moves up. */
  lemma AddOnto(m: int, a: seq<u64>, b: seq<u64>, x: u64, xs: seq<u64>, cin: int, k: bool, g: bool)
    requires |a| == |b| > 0 && x + (if k then m else 0) == a[0] + b[0] + cin
    requires Value(xs, m) + (if g then Power(m, |a| - 1) else 0) == Value(a[1..], m) + Value(b[1..], m) + (if k then 1 else 0)
    ensures Value([x] + xs, m) + (if g then Power(m, |a|) else 0) == Value(a, m) + Value(b, m) + cin
  {
    assert ([x] + xs)[1..] == xs;
    CarryOn(m, x, a[0] + b[0] + cin, k, Value(xs, m), Value(a[1..], m), Value(b[1..], m), g, Power(m, |a| - 1));
  }

  lemma SubOnto(m: int, a: seq<u64>, b: seq<u64>, x: u64, xs: seq<u64>, cin: int, k: bool, g: bool)
    requires |a| == |b| > 0 && x - (if k then m else 0) == a[0] - b[0] - cin
    requires Value(xs, m) - (if g then Power(m, |a| - 1) else 0) == Value(a[1..], m) - Value(b[1..], m) - (if k then 1 else 0)
    ensures Value([x] + xs, m) - (if g then Power(m, |a|) else 0) == Value(a, m) - Value(b, m) - cin
  {
    assert ([x] + xs)[1..] == xs;
    BorrowOn(m, x, a[0] - b[0] - cin, k, Value(xs, m), Value(a[1..], m), Value(b[1..], m), g, Power(m, |a| - 1));
  }

  /** ADD then ADC over any number of limbs of any width: the limbs left behind and the final
      carry are together the exact sum. */
  lemma {:induction false} AddChainExact(first: ArithOp, a: seq<u64>, b: seq<u64>, c: bool, size: OpSize, m: int)
    requires Adds(first) && |a| == |b| > 0 && Limbs(a, size) && Limbs(b, size) && m == Modulus(size)
    ensures var (r, f) := Chain(first, Adc, a, b, c, size);
            Value(r, m) + (if f.cf then Power(m, |a|) else 0) == Value(a, m) + Value(b, m) + CarryIn(first, c)
    decreases |a|
  {
    var (x, f) := Emulated(first, a[0], b[0], c, size);
    LimbAdd(first, a[0], b[0], c, size);
    if |a| == 1 {
      OneLimb(a, m, size);
      OneLimb(b, m, size);
      OneLimb([x], m, size);
    } else {
      var (xs, g) := Chain(Adc, Adc, a[1..], b[1..], f.cf, size);
      AddChainExact(Adc, a[1..], b[1..], f.cf, size, m);
      AddOnto(m, a, b, x, xs, CarryIn(first, c), f.cf, g.cf);
    }
  }

  /** SUB then SBB: the limbs left behind and the final borrow are the exact difference; */
  lemma {:induction false} SubChainExact(first: ArithOp, a: seq<u64>, b: seq<u64>, c: bool, size: OpSize, m: int)
    requires (first.Sub? || first.Sbb?) && |a| == |b| > 0 && Limbs(a, size) && Limbs(b, size) && m == Modulus(size)
    ensures var (r, f) := Chain(first, Sbb, a, b, c, size);
            Value(r, m) - (if f.cf then Power(m, |a|) else 0) == Value(a, m) - Value(b, m) - CarryIn(first, c)
    decreases |a|
  {
    var (x, f) := Emulated(first, a[0], b[0], c, size);
    LimbSub(first, a[0], b[0], c, size);
    if |a| == 1 {
      OneLimb(a, m, size);
      OneLimb(b, m, size);
      OneLimb([x], m, size);
    } else {
      var (xs, g) := Chain(Sbb, Sbb, a[1..], b[1..], f.cf, size);
      SubChainExact(Sbb, a[1..], b[1..], f.cf, size, m);
      SubOnto(m, a, b, x, xs, CarryIn(first, c), f.cf, g.cf);
    }
  }

  /** the final CF is unsigned less-than of the whole numbers; */
  lemma SubChainUnsigned(first: ArithOp, a: seq<u64>, b: seq<u64>, c: bool, size: OpSize, m: int)
    requires (first.Sub? || first.Sbb?) && |a| == |b| > 0 && Limbs(a, size) && Limbs(b, size) && m == Modulus(size)
    ensures Chain(first, Sbb, a, b, c, size).1.cf <==> Value(a, m) < Value(b, m) + CarryIn(first, c)
  {
    SubChainExact(first, a, b, c, size, m);
    ValueBound(Chain(first, Sbb, a, b, c, size).0, m);
  }

  lemma {:induction false} ValueBound(a: seq<u64>, m: int)
    requires m > 0 && forall i :: 0 <= i < |a| ==> a[i] < m
    ensures 0 <= Value(a, m) < Power(m, |a|)
    decreases |a|
  {
    if a != [] {
      ValueBound(a[1..], m);
      var v, p := Value(a[1..], m), Power(m, |a| - 1);
      MulBound(m, 0, v);
      MulBound(m, v + 1, p);
    }
  }

  /** the final SF != OF is signed less-than of the whole numbers. */
  lemma {:induction false} SubChainSigned(first: ArithOp, a: seq<u64>, b: seq<u64>, c: bool, size: OpSize, m: int)
    requires (first.Sub? || first.Sbb?) && |a| == |b| > 0 && Limbs(a, size) && Limbs(b, size) && m == Modulus(size)
    ensures var f := Chain(first, Sbb, a, b, c, size).1;
            f.sf != f.of <==> SignedValue(a, m, size) < SignedValue(b, m, size) + CarryIn(first, c)
    decreases |a|
  {
    var (x, f) := Emulated(first, a[0], b[0], c, size);
    LimbSub(first, a[0], b[0], c, size);
    if |a| > 1 {
      SubChainSigned(Sbb, a[1..], b[1..], f.cf, size, m);
      LimbSplit(a, a[0], a[1..], m, size);
      LimbSplit(b, b[0], b[1..], m, size);
      HighLimbDecides(m, a[0] - b[0] - CarryIn(first, c), CarryIn(Sbb, f.cf),
                      SignedValue(a[1..], m, size), SignedValue(b[1..], m, size));
    }
  }

  /** The sign of a difference is that of its high part less the borrow from the low limb. */
  lemma HighLimbDecides(m: int, low: int, k: int, x: int, y: int)
    requires m > 0 && -m <= low < m && k == (if low < 0 then 1 else 0)
    ensures low + m * x - m * y < 0 <==> x - y - k < 0
  {
    if x < y {
      MulBound(m, x + 1, y);
    } else if y < x {
      MulBound(m, y + 1, x);
    }
  }

  lemma MulBound(m: int, x: int, y: int)
    requires m > 0 && x <= y
    ensures m * x <= m * y
  {
  }
}
