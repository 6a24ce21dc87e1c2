/** x64 stack unwinding: UNWIND_INFO as bytes, the interpreter that undoes a prologue, and the
    machine whose calls and prologues it undoes. */
module Unwind {
  import opened Words
  import opened Memory

  type Nibble = x: int | 0 <= x < 0x10
  type Gprs = g: seq<u64> | |g| == 16 witness seq(16, _ => 0)
  type Xmms = x: seq<nat> | |x| == 16 witness seq(16, _ => 0)

  const PUSH_NONVOL := 0
  const ALLOC_LARGE := 1
  const ALLOC_SMALL := 2
  const SET_FPREG := 3
  const SAVE_NONVOL := 4
  const SAVE_NONVOL_FAR := 5
  const SAVE_XMM128 := 6
  const SAVE_XMM128_FAR := 7
  const PUSH_MACHFRAME := 8

  // ---- UNWIND_INFO as bytes ------------------------------------------------------------

  datatype RuntimeFunction = RuntimeFunction(beginAddress: u32, endAddress: u32, unwindData: u32)

  datatype Header = Header(version: int, flags: int, prologSize: u8, count: u8, frameReg: Nibble, frameOff: Nibble) {
    predicate Ok() { 0 <= version < 8 && 0 <= flags < 32 }

    /** EHANDLER or UHANDLER. */
    predicate HasHandler() { flags % 4 != 0 }

    predicate Chained() { flags / 4 % 2 == 1 }

    /** `header_size`: header and codes, rounded up to a multiple of four. */
    function Size(): nat { 4 + 2 * count + (if count % 2 == 1 then 2 else 0) }
  }

  /** One two-byte slot: an unwind code, or part of the operand of the code before it. */
  datatype Slot = Slot(lo: u8, hi: u8) {
    function Op(): Nibble { hi % 0x10 }
    function Info(): Nibble { hi / 0x10 }
  }

  function HeaderBytes(h: Header): (b: Bytes)
    requires h.Ok()
    ensures |b| == 4
  {
    [h.version + 8 * h.flags, h.prologSize, h.count, h.frameReg + 0x10 * h.frameOff]
  }

  function ReadHeader(b: Bytes): Header
    requires |b| == 4
  {
    Header(b[0] % 8, b[0] / 8, b[1], b[2], b[3] % 0x10, b[3] / 0x10)
  }

  function SlotBytes(slots: seq<Slot>): (b: Bytes)
    ensures |b| == 2 * |slots|
  {
    if slots == [] then [] else [slots[0].lo, slots[0].hi] + SlotBytes(slots[1..])
  }

  function ReadSlots(b: Bytes): (slots: seq<Slot>)
    ensures |slots| == |b| / 2
  {
    if |b| < 2 then [] else [Slot(b[0], b[1])] + ReadSlots(b[2..])
  }

  /** `encode_unwind`. */
  function EncodeUnwind(h: Header, slots: seq<Slot>): (b: Bytes)
    requires h.Ok() && h.count == |slots|
    ensures |b| == h.Size()
  {
    HeaderBytes(h) + SlotBytes(slots) + (if h.count % 2 == 1 then [0, 0] else [])
  }

  lemma {:induction false} SlotsRoundTrip(slots: seq<Slot>)
    ensures ReadSlots(SlotBytes(slots)) == slots
  {
    if slots != [] {
      SlotsRoundTrip(slots[1..]);
      assert SlotBytes(slots)[2..] == SlotBytes(slots[1..]);
    }
  }

  lemma HeaderRoundTrip(h: Header)
    requires h.Ok()
    ensures ReadHeader(HeaderBytes(h)) == h
  {
  }

  // ---- the unwinder --------------------------------------------------------------------

  datatype Regs = Regs(rsp: u64, gpr: Gprs, xmm: Xmms)
  datatype Context = Context(rip: u64, regs: Regs)
  datatype Handler = Handler(rva: u32, data: u32, dataVa: u64)

  /** One UNWIND_INFO processed: finished, or to be continued with a chained one. */
  datatype Unwound = Done(ctx: Context, handler: Option<Handler>) | Chain(ctx: Context, rva: u32)

  /** `read_mem`: fails unless every byte is mapped. */
  function Fetch(m: Mem, a: u64, len: nat): Option<Bytes> {
    if Mapped(m, a, len) then Some(Slice(m, a, len)) else None
  }

  /** `raw_slot(i).unwrap_or([0, 0])` as a little-endian number. */
  function Raw16(slots: seq<Slot>, i: nat): u16 {
    if i < |slots| then slots[i].lo + 0x100 * slots[i].hi else 0
  }

  function Raw32(slots: seq<Slot>, i: nat): u32 {
    Raw16(slots, i) + 0x1_0000 * Raw16(slots, i + 1)
  }

  /** Bytes an ALLOC_LARGE at `i` allocated. */
  function LargeSize(slots: seq<Slot>, i: nat): u64
    requires i < |slots|
  {
    if slots[i].Info() == 0 then Raw16(slots, i + 1) * 8 else Raw32(slots, i + 1)
  }

  /** Slots the code at `i` takes up. */
  function Width(c: Slot): nat {
    var op := c.Op();
    if op == ALLOC_LARGE then (if c.Info() == 0 then 2 else 3)
    else if op == SAVE_NONVOL || op == SAVE_XMM128 then 2
    else if op == SAVE_NONVOL_FAR || op == SAVE_XMM128_FAR then 3
    else 1
  }

  /** Bytes of stack the code at `i` accounts for. */
  function Grows(slots: seq<Slot>, i: nat): u64
    requires i < |slots|
  {
    var op, info := slots[i].Op(), slots[i].Info();
    if op == ALLOC_SMALL then info * 8 + 8
    else if op == ALLOC_LARGE then LargeSize(slots, i)
    else if op == PUSH_NONVOL then 8
    else if op == PUSH_MACHFRAME then (if info == 0 then 24 else 32)
    else 0
  }

  /** Slots the first pass moves on by: it steps over the operands of ALLOC_LARGE only. */
  function Stride(c: Slot): nat {
    if c.Op() == ALLOC_LARGE then Width(c) else 1
  }

  /** The first pass: RSP at function entry. */
  function EntryRsp(slots: seq<Slot>, i: nat, rsp: u64): u64
    decreases |slots| - i
  {
    if i >= |slots| then rsp else EntryRsp(slots, i + Stride(slots[i]), SatAdd(rsp, Grows(slots, i)))
  }

  function Load(m: Mem, a: u64, reg: Nibble, s: Regs): Option<Regs> {
    match Fetch(m, a, 8)
    case None => None
    case Some(b) => FromLEBound(b); assert Pow256(8) == TWO_64; Some(s.(gpr := s.gpr[reg := FromLE(b)]))
  }

  function LoadXmm(m: Mem, a: u64, reg: Nibble, s: Regs): Option<Regs> {
    match Fetch(m, a, 16)
    case None => None
    case Some(b) => Some(s.(xmm := s.xmm[reg := FromLE(b)]))
  }

  /** What undoing the code at `i` does to the registers. */
  function Effect(m: Mem, slots: seq<Slot>, i: nat, fp: u64, s: Regs): Option<Regs>
    requires i < |slots|
  {
    var op, info := slots[i].Op(), slots[i].Info();
    if op == PUSH_NONVOL then
      match Load(m, s.rsp, info, s)
      case None => None
      case Some(t) => Some(t.(rsp := SatAdd(s.rsp, 8)))
    else if op == SAVE_NONVOL then Load(m, SatAdd(fp, Raw16(slots, i + 1) * 8), info, s)
    else if op == SAVE_NONVOL_FAR then Load(m, SatAdd(fp, Raw32(slots, i + 1)), info, s)
    else if op == SAVE_XMM128 then LoadXmm(m, SatAdd(fp, Raw16(slots, i + 1) * 16), info, s)
    else if op == SAVE_XMM128_FAR then LoadXmm(m, SatAdd(fp, Raw32(slots, i + 1)), info, s)
    else Some(s.(rsp := SatAdd(s.rsp, Grows(slots, i))))
  }

  /** The effect of the code at a given slot, on given registers. */
  type Effector = (seq<Slot>, nat, Regs) -> Option<Regs>

  function EffectOf(m: Mem, fp: u64): Effector {
    (slots: seq<Slot>, i: nat, s: Regs) => if i < |slots| then Effect(m, slots, i, fp, s) else None
  }

  /** The codes from slot `i` on, one after the other. */
  function Undo(effect: Effector, slots: seq<Slot>, i: nat, s: Regs): Option<Regs>
    decreases |slots| - i
  {
    if i >= |slots| then Some(s)
    else
      match effect(slots, i, s)
      case None => None
      case Some(t) => Undo(effect, slots, i + Width(slots[i]), t)
  }

  /** Popping the return address. */
  function PopRip(m: Mem, s: Regs): Option<Context> {
    match Fetch(m, s.rsp, 8)
    case None => None
    case Some(b) =>
      FromLEBound(b); assert Pow256(8) == TWO_64;
      Some(Context(FromLE(b), s.(rsp := SatAdd(s.rsp, 8))))
  }

  function U32Of(b: Bytes): u32
    requires |b| == 4
  {
    FromLEBound(b); assert Pow256(4) == TWO_32;
    FromLE(b)
  }

  /** The handler words after the codes. */
  function ReadHandler(m: Mem, h: Header, data: u64, ctx: Context): Option<Unwound> {
    if !h.HasHandler() then Some(Done(ctx, None))
    else
      match Fetch(m, data, 8)
      case None => None
      case Some(b) => Some(Done(ctx, Some(Handler(U32Of(b[..4]), U32Of(b[4..]), SatAdd(data, 4)))))
  }

  /** What follows the codes: a chained entry, a handler, or nothing. */
  function Finish(m: Mem, h: Header, data: u64, ctx: Context): Option<Unwound> {
    if h.Chained() then
      match Fetch(m, data, 4)
      case None => None
      case Some(b) => if U32Of(b) != 0 then Some(Chain(ctx, U32Of(b))) else ReadHandler(m, h, data, ctx)
    else ReadHandler(m, h, data, ctx)
  }

  /** Base of SAVE_* offsets. */
  function FrameBase(h: Header, slots: seq<Slot>, s: Regs): u64 {
    if h.frameReg != 0 then SatSub(s.gpr[h.frameReg], h.frameOff * 16) else EntryRsp(slots, 0, s.rsp)
  }

  /** One level of `virtual_unwind`: everything up to following a chain. */
  function UnwindOne(m: Mem, base: u64, entry: RuntimeFunction, ctx: Context): Option<Unwound> {
    if entry.unwindData == 0 then
      match PopRip(m, ctx.regs)
      case None => None
      case Some(c) => Some(Done(c, None))
    else
      var va := SatAdd(base, entry.unwindData);
      match Fetch(m, va, 4)
      case None => None
      case Some(hb) =>
        var h := ReadHeader(hb);
        match Fetch(m, SatAdd(va, 4), 2 * h.count)
        case None => None
        case Some(cb) =>
          var slots := ReadSlots(cb);
          match Undo(EffectOf(m, FrameBase(h, slots, ctx.regs)), slots, 0, ctx.regs)
          case None => None
          case Some(s) =>
            match PopRip(m, s)
            case None => None
            case Some(c) => Finish(m, h, SatAdd(va, h.Size()), c)
  }

  /** One level of unwinding in a module. */
  type Level = (RuntimeFunction, Context) -> Option<Unwound>

  function LevelOf(m: Mem, base: u64): Level {
    (entry: RuntimeFunction, ctx: Context) => UnwindOne(m, base, entry, ctx)
  }

  /** `virtual_unwind`, following at most `links` chained entries; a longer chain is left unfinished. */
  function Follow(level: Level, entry: RuntimeFunction, ctx: Context, links: nat): Option<Unwound>
    decreases links
  {
    match level(entry, ctx)
    case Some(Chain(c, rva)) =>
      if links == 0 then Some(Chain(c, rva)) else Follow(level, entry.(unwindData := rva), c, links - 1)
    case done => done
  }

  /** A chain that was followed to its end stays as it is. */
  lemma {:induction false} FollowFurther(level: Level, entry: RuntimeFunction, ctx: Context, links: nat, more: nat)
    requires links <= more
    ensures var r := Follow(level, entry, ctx, links);
            !(r.Some? && r.value.Chain?) ==> Follow(level, entry, ctx, more) == r
    decreases links
  {
    match level(entry, ctx)
    case Some(Chain(c, rva)) =>
      if links > 0 { FollowFurther(level, entry.(unwindData := rva), c, links - 1, more - 1); }
    case _ =>
  }

  method VirtualUnwind(m: Mem, base: u64, entry: RuntimeFunction, ctx: Context, links: nat) returns (r: Option<Unwound>)
    ensures r == Follow(LevelOf(m, base), entry, ctx, links)
    decreases links
  {
    r := UnwindLevel(m, base, entry, ctx);
    assert r == LevelOf(m, base)(entry, ctx);
    if r.Some? && r.value.Chain? && links > 0 {
      r := VirtualUnwind(m, base, entry.(unwindData := r.value.rva), r.value.ctx, links - 1);
    }
  }

  /** One level as the two loops over the codes. */
  method UnwindLevel(m: Mem, base: u64, entry: RuntimeFunction, ctx: Context) returns (r: Option<Unwound>)
    ensures r == UnwindOne(m, base, entry, ctx)
  {
    if entry.unwindData == 0 {
      var leaf := PopRip(m, ctx.regs);
      return if leaf.None? then None else Some(Done(leaf.value, None));
    }
    var va := SatAdd(base, entry.unwindData);
    var hb := Fetch(m, va, 4);
    if hb.None? { return None; }
    var h := ReadHeader(hb.value);
    var cb := Fetch(m, SatAdd(va, 4), 2 * h.count);
    if cb.None? { return None; }
    var slots := ReadSlots(cb.value);
    var fp := SatSub(ctx.regs.gpr[h.frameReg], h.frameOff * 16);
    if h.frameReg == 0 { fp := ScanEntryRsp(slots, ctx.regs.rsp); }
    var undone := UndoCodes(m, slots, fp, ctx.regs);
    if undone.None? { return None; }
    var popped := PopRip(m, undone.value);
    if popped.None? { return None; }
    r := Finish(m, h, SatAdd(va, h.Size()), popped.value);
  }

  method ScanEntryRsp(slots: seq<Slot>, start: u64) returns (rsp: u64)
    ensures rsp == EntryRsp(slots, 0, start)
  {
    rsp := start;
    var i := 0;
    while i < |slots|
      invariant 0 <= i && EntryRsp(slots, i, rsp) == EntryRsp(slots, 0, start)
    {
      rsp := SatAdd(rsp, Grows(slots, i));
      i := i + Stride(slots[i]);
    }
  }

  method UndoCodes(m: Mem, slots: seq<Slot>, fp: u64, start: Regs) returns (r: Option<Regs>)
    ensures r == Undo(EffectOf(m, fp), slots, 0, start)
  {
    var s := start;
    var i := 0;
    while i < |slots|
      invariant 0 <= i && Undo(EffectOf(m, fp), slots, i, s) == Undo(EffectOf(m, fp), slots, 0, start)
    {
      var t := Effect(m, slots, i, fp, s);
      if t.None? { return None; }
      s := t.value;
      i := i + Width(slots[i]);
    }
    return Some(s);
  }
}
