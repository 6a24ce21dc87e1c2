/** Calls, prologues and bodies on an x64 machine, and the theorem that unwinding undoes them. */
module UnwindCalls {
  import opened Words
  import opened Memory
  import opened Unwind

  /** A prologue instruction, with the prologue offset its unwind code carries. */
  datatype PrologueOp =
    | Push(reg: Nibble, at: u8)
    | Small(units: Nibble, at: u8)      // sub rsp, 8 * units + 8
    | Large16(words: u16, at: u8)       // sub rsp, 8 * words
    | Large32(bytes: u32, at: u8)       // sub rsp, bytes
    | SetFrame(at: u8)                  // lea frame, [rsp + 16 * frameOff]
    | Save(reg: Nibble, offset16: u16, at: u8)   // mov [base + 8 * offset16], reg
    | SaveFar(reg: Nibble, offset32: u32, at: u8)
    | SaveXmm(reg: Nibble, offset16: u16, at: u8)   // movaps [base + 16 * offset16], xmm
    | SaveXmmFar(reg: Nibble, offset32: u32, at: u8)
  {
    /** Bytes it moves RSP down. */
    function Depth(): nat {
      match this
      case Push(_, _) => 8
      case Small(units, _) => units * 8 + 8
      case Large16(words, _) => words * 8
      case Large32(bytes, _) => bytes
      case _ => 0
    }

    /** It stores a register at a fixed place of the frame. */
    predicate Spills() { Save? || SaveFar? || Xmm() }

    /** The register is an extended one. */
    predicate Xmm() { SaveXmm? || SaveXmmFar? }

    /** That place, from the frame base. */
    function Offset(): nat
      requires Spills()
    {
      if Save? then offset16 * 8 else if SaveXmm? then offset16 * 16 else offset32
    }

    /** Bytes it stores. */
    function Room(): nat { if Xmm() then 16 else 8 }

    /** What it stores. */
    function Held(s: Regs): nat
      requires Spills()
    {
      if Xmm() then s.xmm[reg] else s.gpr[reg]
    }

    /** Its unwind code. */
    function Slots(): seq<Slot> {
      match this
      case Push(reg, at) => [Slot(at, PUSH_NONVOL + 0x10 * reg)]
      case Small(units, at) => [Slot(at, ALLOC_SMALL + 0x10 * units)]
      case Large16(words, at) => [Slot(at, ALLOC_LARGE), Slot(words % 0x100, words / 0x100)]
      case Large32(bytes, at) =>
        var low, high := bytes % 0x1_0000, bytes / 0x1_0000;
        [Slot(at, ALLOC_LARGE + 0x10), Slot(low % 0x100, low / 0x100), Slot(high % 0x100, high / 0x100)]
      case SetFrame(at) => [Slot(at, SET_FPREG)]
      case Save(reg, offset, at) => [Slot(at, SAVE_NONVOL + 0x10 * reg), Slot(offset % 0x100, offset / 0x100)]
      case SaveFar(reg, offset, at) =>
        var low, high := offset % 0x1_0000, offset / 0x1_0000;
        [Slot(at, SAVE_NONVOL_FAR + 0x10 * reg), Slot(low % 0x100, low / 0x100), Slot(high % 0x100, high / 0x100)]
      case SaveXmm(reg, offset, at) => [Slot(at, SAVE_XMM128 + 0x10 * reg), Slot(offset % 0x100, offset / 0x100)]
      case SaveXmmFar(reg, offset, at) =>
        var low, high := offset % 0x1_0000, offset / 0x1_0000;
        [Slot(at, SAVE_XMM128_FAR + 0x10 * reg), Slot(low % 0x100, low / 0x100), Slot(high % 0x100, high / 0x100)]
    }
  }

  type Prologue = seq<PrologueOp>

  function Last(p: Prologue): PrologueOp
    requires p != []
  {
    p[|p| - 1]
  }

  function Init(p: Prologue): Prologue
    requires p != []
  {
    p[..|p| - 1]
  }

  /** The unwind codes of a prologue, stored in the reverse of its order. */
  function Codes(p: Prologue): seq<Slot> {
    if p == [] then [] else Last(p).Slots() + Codes(Init(p))
  }

  function Depth(p: Prologue): nat {
    if p == [] then 0 else Last(p).Depth() + Depth(Init(p))
  }

  /** The prologue saves register `r`, by a push or in the frame. */
  predicate Saves(p: Prologue, r: Nibble) {
    p != [] && (((Last(p).Push? || Last(p).Save? || Last(p).SaveFar?) && Last(p).reg == r) || Saves(Init(p), r))
  }

  /** The same for the extended register `r`. */
  predicate SavesXmm(p: Prologue, r: Nibble) {
    p != [] && ((Last(p).Xmm() && Last(p).reg == r) || SavesXmm(Init(p), r))
  }

  predicate NoSpills(p: Prologue) {
    forall i :: 0 <= i < |p| ==> !p[i].Spills()
  }

  // ---- executing and undoing a prologue ------------------------------------------------

  /** `pop`, `add rsp` or a load from the frame at `fp`: one prologue instruction reversed. */
  function UndoOp(m: Mem, fp: u64, op: PrologueOp, s: Regs): Option<Regs> {
    if op.Push? then
      match Load(m, s.rsp, op.reg, s)
      case None => None
      case Some(t) => Some(t.(rsp := SatAdd(s.rsp, 8)))
    else if op.Xmm() then LoadXmm(m, SatAdd(fp, op.Offset()), op.reg, s)
    else if op.Spills() then Load(m, SatAdd(fp, op.Offset()), op.reg, s)
    else Some(s.(rsp := SatAdd(s.rsp, op.Depth())))
  }

  /** Reversing single prologue instructions. */
  type Undoer = (PrologueOp, Regs) -> Option<Regs>

  function UndoerOf(m: Mem, fp: u64): Undoer {
    (op: PrologueOp, s: Regs) => UndoOp(m, fp, op, s)
  }

  /** The epilogue: the prologue reversed, last instruction first. */
  function Epilogue(undo: Undoer, p: Prologue, s: Regs): Option<Regs>
    decreases |p|
  {
    if p == [] then Some(s)
    else
      match undo(Last(p), s)
      case None => None
      case Some(t) => Epilogue(undo, Init(p), t)
  }

  /** Wherever the code of an instruction stands, its effect is to reverse the instruction. */
  ghost predicate Decodes(effect: Effector, undo: Undoer) {
    forall pre: seq<Slot>, op: PrologueOp, post: seq<Slot>, s: Regs {:trigger effect(pre + op.Slots() + post, |pre|, s)} ::
      effect(pre + op.Slots() + post, |pre|, s) == undo(op, s)
  }

  /** The slots of an instruction among others. */
  predicate Stands(all: seq<Slot>, n: nat, op: PrologueOp) {
    n + |op.Slots()| <= |all| && forall k :: 0 <= k < |op.Slots()| ==> all[n + k] == op.Slots()[k]
  }

  lemma SlotsStand(pre: seq<Slot>, op: PrologueOp, post: seq<Slot>)
    ensures Stands(pre + op.Slots() + post, |pre|, op)
  {
  }

  lemma OpDecodes(m: Mem, all: seq<Slot>, n: nat, op: PrologueOp, fp: u64, s: Regs)
    requires Stands(all, n, op)
    ensures n < |all| && Effect(m, all, n, fp, s) == UndoOp(m, fp, op, s)
  {
    if op.Spills() { SpillDecodes(m, all, n, op, fp, s); } else { MoveDecodes(m, all, n, op, fp, s); }
  }

  lemma SpillDecodes(m: Mem, all: seq<Slot>, n: nat, op: PrologueOp, fp: u64, s: Regs)
    requires Stands(all, n, op) && op.Spills()
    ensures Effect(m, all, n, fp, s) == UndoOp(m, fp, op, s)
  {
    assert all[n + 0] == op.Slots()[0] && all[n + 1] == op.Slots()[1];
    if |op.Slots()| == 3 { assert all[n + 2] == op.Slots()[2]; }
  }

  lemma MoveDecodes(m: Mem, all: seq<Slot>, n: nat, op: PrologueOp, fp: u64, s: Regs)
    requires Stands(all, n, op) && !op.Spills()
    ensures Effect(m, all, n, fp, s) == UndoOp(m, fp, op, s)
  {
    assert all[n + 0] == op.Slots()[0];
    if |op.Slots()| > 1 { assert all[n + 1] == op.Slots()[1]; }
    if |op.Slots()| > 2 { assert all[n + 2] == op.Slots()[2]; }
  }

  lemma EffectDecodes(m: Mem, fp: u64)
    ensures Decodes(EffectOf(m, fp), UndoerOf(m, fp))
  {
    var e, u := EffectOf(m, fp), UndoerOf(m, fp);
    forall pre: seq<Slot>, op: PrologueOp, post: seq<Slot>, s: Regs {:trigger e(pre + op.Slots() + post, |pre|, s)}
      ensures e(pre + op.Slots() + post, |pre|, s) == u(op, s)
    {
      SlotsStand(pre, op, post);
      OpDecodes(m, pre + op.Slots() + post, |pre|, op, fp, s);
    }
  }

  lemma SlotsWidth(pre: seq<Slot>, op: PrologueOp, post: seq<Slot>)
    ensures 0 < |op.Slots()| && Width((pre + op.Slots() + post)[|pre|]) == |op.Slots()|
  {
    assert (pre + op.Slots() + post)[|pre|] == op.Slots()[0];
  }

  /** Interpreting the stored codes is running the epilogue. */
  lemma {:induction false} CodesDecode(effect: Effector, undo: Undoer, pre: seq<Slot>, p: Prologue, s: Regs)
    requires Decodes(effect, undo)
    ensures Undo(effect, pre + Codes(p), |pre|, s) == Epilogue(undo, p, s)
    decreases |p|
  {
    if p == [] {
      assert pre + Codes(p) == pre;
    } else {
      var op, slots, rest := Last(p), Last(p).Slots(), Codes(Init(p));
      assert pre + Codes(p) == pre + slots + rest;
      SlotsWidth(pre, op, rest);
      var next := undo(op, s);
      if next.Some? { CodesDecode(effect, undo, pre + slots, Init(p), next.value); }
    }
  }

  /** What an instruction does to the stack; RSP does not run below zero. */
  function DoOp(m: Mem, op: PrologueOp, s: Regs): (Mem, Regs)
    requires op.Depth() <= s.rsp
  {
    var t := s.(rsp := s.rsp - op.Depth());
    (if op.Push? then Overwrite(m, t.rsp, LE(s.gpr[op.reg], 8)) else m, t)
  }

  function Enter(m: Mem, p: Prologue, s: Regs): (Mem, Regs)
    requires Depth(p) <= s.rsp
    ensures Enter(m, p, s).1 == s.(rsp := s.rsp - Depth(p))
    decreases |p|
  {
    if p == [] then (m, s)
    else
      var (m1, t) := Enter(m, Init(p), s);
      DoOp(m1, Last(p), t)
  }

  /** The stack from `a` up holds what the prologue pushed of `g`. */
  ghost predicate Saved(m: Mem, p: Prologue, a: int, g: Gprs)
    decreases |p|
  {
    p != [] ==>
      && (Last(p).Push? ==> Mapped(m, a, 8) && FromLE(Slice(m, a, 8)) == g[Last(p).reg])
      && Saved(m, Init(p), a + Last(p).Depth(), g)
  }

  /** The frame at `base` holds what the prologue stored there of `g`. */
  ghost predicate Spilled(m: Mem, p: Prologue, base: int, g: Regs)
    decreases |p|
  {
    p != [] ==>
      && (Last(p).Spills() ==>
            var at, n := base + Last(p).Offset(), Last(p).Room();
            Mapped(m, at, n) && FromLE(Slice(m, at, n)) == Last(p).Held(g))
      && Spilled(m, Init(p), base, g)
  }

  /** Nothing is stored below `a`. */
  ghost predicate SpillsAbove(p: Prologue, base: int, a: int) {
    forall i :: 0 <= i < |p| && p[i].Spills() ==> a <= base + p[i].Offset()
  }

  /** The registers after the epilogue. */
  predicate Restored(p: Prologue, g: Regs, before: Regs, after: Regs) {
    && (forall r: Nibble :: after.gpr[r] == if Saves(p, r) then g.gpr[r] else before.gpr[r])
    && (forall r: Nibble :: after.xmm[r] == if SavesXmm(p, r) then g.xmm[r] else before.xmm[r])
  }

  /** Running the epilogue on a stack that still holds what was saved. */
  lemma {:induction false} EpilogueRestores(m: Mem, fp: u64, p: Prologue, s: Regs, g: Regs)
    requires Saved(m, p, s.rsp, g.gpr) && Spilled(m, p, fp, g) && s.rsp + Depth(p) < TWO_64
    ensures var r := Epilogue(UndoerOf(m, fp), p, s);
            r.Some? && r.value.rsp == s.rsp + Depth(p) && Restored(p, g, s, r.value)
    decreases |p|
  {
    if p != [] {
      var t := UndoOp(m, fp, Last(p), s).value;
      EpilogueRestores(m, fp, Init(p), t, g);
    }
  }

  /** Writes below `a` do not disturb what was saved from `a` up. */
  lemma {:induction false} SavedBelow(m: Mem, p: Prologue, a: int, g: Gprs, b: int, data: Bytes)
    requires Saved(m, p, a, g) && b + |data| <= a
    ensures Saved(Overwrite(m, b, data), p, a, g)
    decreases |p|
  {
    if p != [] {
      if Last(p).Push? {
        SliceApart(m, b, data, a, 8);
        OverwriteKeys(m, b, data);
      }
      SavedBelow(m, Init(p), a + Last(p).Depth(), g, b, data);
    }
  }

  /** Executing a prologue leaves its save area filled in. */
  lemma {:induction false} EnterSaves(m: Mem, p: Prologue, s: Regs)
    requires Depth(p) <= s.rsp && Mapped(m, s.rsp - Depth(p), Depth(p))
    ensures var (m1, t) := Enter(m, p, s); Saved(m1, p, t.rsp, s.gpr) && m1.Keys == m.Keys
    decreases |p|
  {
    if p != [] {
      EnterSaves(m, Init(p), s);
      var (m1, t) := Enter(m, Init(p), s);
      var op := Last(p);
      if op.Push? {
        var data := LE(s.gpr[op.reg], 8);
        SavedBelow(m1, Init(p), t.rsp, s.gpr, t.rsp - 8, data);
        OverwriteKeys(m1, t.rsp - 8, data);
        SliceBack(m1, t.rsp - 8, data);
        assert Pow256(8) == TWO_64;
        FromLELE(s.gpr[op.reg], 8);
      }
    }
  }

  /** A prologue writes only between its own RSP and the one it started from. */
  lemma {:induction false} EnterFrame(m: Mem, p: Prologue, s: Regs, b: int, k: nat)
    requires Depth(p) <= s.rsp && (b + k <= s.rsp - Depth(p) || s.rsp <= b)
    ensures Slice(Enter(m, p, s).0, b, k) == Slice(m, b, k)
    decreases |p|
  {
    if p != [] {
      EnterFrame(m, Init(p), s, b, k);
      var (m1, t) := Enter(m, Init(p), s);
      if Last(p).Push? { SliceApart(m1, t.rsp - 8, LE(t.gpr[Last(p).reg], 8), b, k); }
    }
  }

  // ---- the frame base without a frame register --------------------------------------

  /** No slot at which the first pass stops accounts for stack. */
  predicate Quiet(slots: seq<Slot>, i: nat)
    decreases |slots| - i
  {
    i >= |slots| || (Grows(slots, i) == 0 && Quiet(slots, i + Stride(slots[i])))
  }

  lemma {:induction false} EntryRspGrows(slots: seq<Slot>, i: nat, rsp: u64)
    ensures rsp <= EntryRsp(slots, i, rsp)
    ensures EntryRsp(slots, i, rsp) == rsp <==> rsp == MAX_U64 || Quiet(slots, i)
    decreases |slots| - i
  {
    if i < |slots| { EntryRspGrows(slots, i + Stride(slots[i]), SatAdd(rsp, Grows(slots, i))); }
  }

  /** Without a frame register, stores are undone from where they were made, which is RSP in the
      body, exactly when the first pass finds nothing to add. */
  lemma FramelessBase(h: Header, slots: seq<Slot>, s: Regs)
    requires h.frameReg == 0
    ensures FrameBase(h, slots, s) == s.rsp <==> s.rsp == MAX_U64 || Quiet(slots, 0)
  {
    EntryRspGrows(slots, 0, s.rsp);
  }

  // ---- functions and their unwind data in memory ---------------------------------------

  /** A function: its table entry, its UNWIND_INFO header, its prologue and the bytes after the
      codes, handler words first when the header announces any. */
  datatype Function = Function(base: u64, entry: RuntimeFunction, header: Header, prologue: Prologue, tail: Bytes) {
    predicate Leaf() { entry.unwindData == 0 }

    /** The header fits the codes of the prologue. */
    ghost predicate Encodes() { header.Ok() && header.count == |Codes(prologue)| }

    ghost predicate Ok() {
      && Encodes() && !header.Chained()
      && (header.HasHandler() ==> |tail| >= 8)
      && (Leaf() ==> prologue == [])
      && (header.frameReg == 0 ==> NoSpills(prologue) || Quiet(Codes(prologue), 0))
      && (header.frameReg != 0 ==> Nonvolatile(header.frameReg) && Saves(prologue, header.frameReg))
    }

    /** The frame base the unwinder works from, given registers in the body. */
    function BaseIn(s: Regs): u64 { FrameBase(header, Codes(prologue), s) }

    function Va(): int { base + entry.unwindData }

    ghost function XData(): Bytes
      requires Encodes()
    {
      EncodeUnwind(header, Codes(prologue)) + tail
    }

    /** Its unwind data is in memory. */
    ghost predicate Stored(m: Mem) {
      Encodes() && Mapped(m, Va(), |XData()|) && Slice(m, Va(), |XData()|) == XData()
    }

    /** A whole function, its unwind data, if it has any, in memory. */
    ghost predicate Installed(m: Mem) {
      Ok() && (!Leaf() ==> Stored(m))
    }

    /** The handler its header announces. */
    ghost function RegisteredHandler(): Option<Handler>
      requires Ok()
    {
      if Leaf() || !header.HasHandler() || Va() + header.Size() + 4 >= TWO_64 then None
      else Some(Handler(U32Of(tail[..4]), U32Of(tail[4..8]), Va() + header.Size() + 4))
    }
  }

  lemma {:induction false} SlicePart(m: Mem, a: int, n: nat, i: nat, k: nat)
    requires i + k <= n
    ensures Slice(m, a + i, k) == Slice(m, a, n)[i..i + k]
  {
    SliceJoin(m, a, i, n - i);
    SliceJoin(m, a + i, k, n - i - k);
  }

  /** The header and the code bytes, as the unwinder reads them. */
  lemma StoredReads(m: Mem, f: Function)
    requires f.Stored(m)
    ensures 0 <= f.Va() < TWO_64 && SatAdd(f.base, f.entry.unwindData) == f.Va()
    ensures var hb := Fetch(m, f.Va(), 4);
            hb.Some? && ReadHeader(hb.value) == f.header
    ensures var cb := Fetch(m, SatAdd(f.Va(), 4), 2 * f.header.count);
            cb.Some? && ReadSlots(cb.value) == Codes(f.prologue)
  {
    var x, n := f.XData(), 2 * f.header.count;
    HeaderRoundTrip(f.header);
    SlotsRoundTrip(Codes(f.prologue));
    SlicePart(m, f.Va(), |x|, 0, 4);
    SlicePart(m, f.Va(), |x|, 4, n);
    assert x[..4] == HeaderBytes(f.header);
    assert x[4..4 + n] == SlotBytes(Codes(f.prologue));
  }

  lemma InstalledHandler(m: Mem, f: Function, ctx: Context)
    requires f.Installed(m) && !f.Leaf()
    ensures Finish(m, f.header, SatAdd(f.Va(), f.header.Size()), ctx) == Some(Done(ctx, f.RegisteredHandler()))
  {
    if f.header.HasHandler() {
      var x, at := f.XData(), f.header.Size();
      SlicePart(m, f.Va(), |x|, at, 8);
      assert x == EncodeUnwind(f.header, Codes(f.prologue)) + f.tail;
      assert x[at..at + 8] == f.tail[..8];
      assert f.tail[..8][..4] == f.tail[..4] && f.tail[..8][4..] == f.tail[4..8];
    }
  }

  /** Decoding the bytes `encode_unwind` produced and undoing them is the epilogue, then a return. */
  lemma UnwindIsEpilogue(m: Mem, f: Function, ctx: Context)
    requires f.Installed(m)
    ensures UnwindOne(m, f.base, f.entry, ctx) ==
              match Epilogue(UndoerOf(m, f.BaseIn(ctx.regs)), f.prologue, ctx.regs)
              case None => None
              case Some(s) =>
                match PopRip(m, s)
                case None => None
                case Some(c) => Some(Done(c, f.RegisteredHandler()))
  {
    if !f.Leaf() {
      StoredReads(m, f);
      var fp := f.BaseIn(ctx.regs);
      EffectDecodes(m, fp);
      CodesDecode(EffectOf(m, fp), UndoerOf(m, fp), [], f.prologue, ctx.regs);
      assert [] + Codes(f.prologue) == Codes(f.prologue);
      var s := Epilogue(UndoerOf(m, f.BaseIn(ctx.regs)), f.prologue, ctx.regs);
      if s.Some? {
        var c := PopRip(m, s.value);
        if c.Some? { InstalledHandler(m, f, c.value); }
      }
    }
  }

  // ---- unwind data in several pieces ----------------------------------------------------

  /** The unwind data of `f` is a piece whose chained entry is `g`. */
  ghost predicate ChainedTo(m: Mem, f: Function, g: Function) {
    && f.Stored(m) && !f.Leaf() && f.header.Chained() && |f.tail| >= 4
    && FromLE(f.tail[..4]) == g.entry.unwindData != 0
  }

  /** Pieces of one function's unwind data: each but the last is chained to the next. */
  ghost predicate Linked(m: Mem, pieces: seq<Function>) {
    && pieces != [] && pieces[|pieces| - 1].Installed(m)
    && (forall i :: 0 <= i < |pieces| ==> pieces[i].base == pieces[0].base)
    && (forall i :: 0 <= i < |pieces| - 1 ==> ChainedTo(m, pieces[i], pieces[i + 1]))
  }

  /** The epilogue of one piece, and a return. */
  function EpilogueAndReturn(m: Mem, f: Function, s: Regs): Option<Context> {
    match Epilogue(UndoerOf(m, f.BaseIn(s)), f.prologue, s)
    case None => None
    case Some(t) => PopRip(m, t)
  }

  /** Epilogues and returns of single pieces. */
  type Returner = (Function, Regs) -> Option<Context>

  function ReturnerOf(m: Mem): Returner {
    (f: Function, s: Regs) => EpilogueAndReturn(m, f, s)
  }

  /** What following the chain from piece `i` does: for every piece its epilogue and a return. */
  function ReturnAll(ret: Returner, pieces: seq<Function>, i: nat, s: Regs): Option<Context>
    requires i < |pieces|
    decreases |pieces| - i
  {
    match ret(pieces[i], s)
    case None => None
    case Some(c) => if i == |pieces| - 1 then Some(c) else ReturnAll(ret, pieces, i + 1, c.regs)
  }

  lemma StoredChain(m: Mem, f: Function, next: u32, ctx: Context)
    requires f.Stored(m) && f.header.Chained() && |f.tail| >= 4 && FromLE(f.tail[..4]) == next != 0
    ensures Finish(m, f.header, SatAdd(f.Va(), f.header.Size()), ctx) == Some(Chain(ctx, next))
  {
    var x, at := f.XData(), f.header.Size();
    SlicePart(m, f.Va(), |x|, at, 4);
    assert x == EncodeUnwind(f.header, Codes(f.prologue)) + f.tail;
    assert x[at..at + 4] == f.tail[..4];
  }

  lemma PieceUnwinds(m: Mem, f: Function, g: Function, ctx: Context)
    requires ChainedTo(m, f, g)
    ensures UnwindOne(m, f.base, f.entry, ctx) ==
              match EpilogueAndReturn(m, f, ctx.regs)
              case None => None
              case Some(c) => Some(Chain(c, g.entry.unwindData))
  {
    StoredReads(m, f);
    var fp := f.BaseIn(ctx.regs);
    EffectDecodes(m, fp);
    CodesDecode(EffectOf(m, fp), UndoerOf(m, fp), [], f.prologue, ctx.regs);
    assert [] + Codes(f.prologue) == Codes(f.prologue);
    var s := Epilogue(UndoerOf(m, fp), f.prologue, ctx.regs);
    if s.Some? {
      var c := PopRip(m, s.value);
      if c.Some? { StoredChain(m, f, g.entry.unwindData, c.value); }
    }
  }

  /** One level on piece `i`. */
  function PieceResult(ret: Returner, pieces: seq<Function>, last: Option<Handler>, i: nat, ctx: Context): Option<Unwound>
    requires i < |pieces|
  {
    match ret(pieces[i], ctx.regs)
    case None => None
    case Some(c) => Some(if i == |pieces| - 1 then Done(c, last) else Chain(c, pieces[i + 1].entry.unwindData))
  }

  ghost predicate UnwindsPieces(level: Level, ret: Returner, pieces: seq<Function>, last: Option<Handler>) {
    forall i: nat, entry: RuntimeFunction, ctx: Context {:trigger level(entry, ctx), pieces[i]} ::
      0 <= i < |pieces| && entry.unwindData == pieces[i].entry.unwindData ==>
        level(entry, ctx) == PieceResult(ret, pieces, last, i, ctx)
  }

  lemma {:induction false} FollowReturnsAll(
      level: Level, ret: Returner, pieces: seq<Function>, last: Option<Handler>, i: nat,
      entry: RuntimeFunction, ctx: Context, links: nat)
    requires UnwindsPieces(level, ret, pieces, last)
    requires i < |pieces| <= i + links + 1 && entry.unwindData == pieces[i].entry.unwindData
    ensures Follow(level, entry, ctx, links) ==
              match ReturnAll(ret, pieces, i, ctx.regs) case None => None case Some(c) => Some(Done(c, last))
    decreases |pieces| - i
  {
    assert level(entry, ctx) == PieceResult(ret, pieces, last, i, ctx);
    var c := ret(pieces[i], ctx.regs);
    if c.Some? && i < |pieces| - 1 {
      var next := entry.(unwindData := pieces[i + 1].entry.unwindData);
      FollowReturnsAll(level, ret, pieces, last, i + 1, next, c.value, links - 1);
    }
  }

  lemma LevelUnwindsPieces(m: Mem, pieces: seq<Function>)
    requires Linked(m, pieces)
    ensures UnwindsPieces(LevelOf(m, pieces[0].base), ReturnerOf(m), pieces, pieces[|pieces| - 1].RegisteredHandler())
  {
    var level, ret, last := LevelOf(m, pieces[0].base), ReturnerOf(m), pieces[|pieces| - 1].RegisteredHandler();
    forall i: nat, entry: RuntimeFunction, ctx: Context {:trigger level(entry, ctx), pieces[i]}
      | 0 <= i < |pieces| && entry.unwindData == pieces[i].entry.unwindData
      ensures level(entry, ctx) == PieceResult(ret, pieces, last, i, ctx)
    {
      var f := pieces[i];
      assert UnwindOne(m, f.base, entry, ctx) == UnwindOne(m, f.base, f.entry, ctx);
      if i == |pieces| - 1 { UnwindIsEpilogue(m, f, ctx); } else { PieceUnwinds(m, f, pieces[i + 1], ctx); }
    }
  }

  /** Following a chain of any length, on bytes: a return address is popped for every piece. */
  lemma FollowIsEpilogues(m: Mem, pieces: seq<Function>, ctx: Context, links: nat)
    requires Linked(m, pieces) && |pieces| <= links + 1
    ensures Follow(LevelOf(m, pieces[0].base), pieces[0].entry, ctx, links) ==
              match ReturnAll(ReturnerOf(m), pieces, 0, ctx.regs)
              case None => None
              case Some(c) => Some(Done(c, pieces[|pieces| - 1].RegisteredHandler()))
  {
    LevelUnwindsPieces(m, pieces);
    FollowReturnsAll(LevelOf(m, pieces[0].base), ReturnerOf(m), pieces, pieces[|pieces| - 1].RegisteredHandler(), 0,
                     pieces[0].entry, ctx, links);
  }

  // ---- frames --------------------------------------------------------------------------

  /** An active call: the function, and the context its caller resumes with. */
  datatype Frame = Frame(f: Function, caller: Context)

  /** Registers a callee must preserve: RBX, RBP, RSI, RDI and R12 to R15, and the extended registers from
      XMM6 on. */
  predicate Nonvolatile(r: Nibble) {
    r == 3 || r == 5 || r == 6 || r == 7 || r >= 12
  }

  predicate NonvolatileXmm(r: Nibble) { r >= 6 }

  predicate Agree(s: Regs, t: Regs) {
    && (forall r: Nibble :: Nonvolatile(r) ==> s.gpr[r] == t.gpr[r])
    && (forall r: Nibble :: NonvolatileXmm(r) ==> s.xmm[r] == t.xmm[r])
  }

  /** Nonvolatile registers the prologue did not save still hold the caller's values. */
  predicate Untouched(p: Prologue, s: Regs, t: Regs) {
    && (forall r: Nibble :: Nonvolatile(r) && !Saves(p, r) ==> s.gpr[r] == t.gpr[r])
    && (forall r: Nibble :: NonvolatileXmm(r) && !SavesXmm(p, r) ==> s.xmm[r] == t.xmm[r])
  }

  /** With registers `s`, the innermost frame is `fr`. */
  ghost predicate FrameOk(m: Mem, fr: Frame, s: Regs) {
    var p, ret := fr.f.prologue, s.rsp + Depth(fr.f.prologue);
    && fr.f.Installed(m)
    && Saved(m, p, s.rsp, fr.caller.regs.gpr)
    && Spilled(m, p, fr.f.BaseIn(s), fr.caller.regs) && SpillsAbove(p, fr.f.BaseIn(s), s.rsp)
    && fr.caller.regs.rsp == ret + 8 && Mapped(m, ret, 8) && FromLE(Slice(m, ret, 8)) == fr.caller.rip
    && Untouched(p, s, fr.caller.regs)
  }

  function Inner(frames: seq<Frame>): Frame
    requires frames != []
  {
    frames[|frames| - 1]
  }

  function Outer(frames: seq<Frame>): seq<Frame>
    requires frames != []
  {
    frames[..|frames| - 1]
  }

  /** The stack below registers `s` is made of `frames`, innermost last. */
  ghost predicate Stacked(m: Mem, s: Regs, frames: seq<Frame>)
    decreases |frames|
  {
    frames != [] ==> FrameOk(m, Inner(frames), s) && Stacked(m, Inner(frames).caller.regs, Outer(frames))
  }

  lemma FrameAgree(m: Mem, fr: Frame, s: Regs, t: Regs)
    requires FrameOk(m, fr, s) && s.rsp == t.rsp && Agree(s, t)
    ensures FrameOk(m, fr, t)
  {
    assert fr.f.BaseIn(s) == fr.f.BaseIn(t);
  }

  /** Only RSP and the nonvolatile registers matter. */
  lemma StackedAgree(m: Mem, s: Regs, t: Regs, frames: seq<Frame>)
    requires Stacked(m, s, frames) && s.rsp == t.rsp && Agree(s, t)
    ensures Stacked(m, t, frames)
  {
    if frames != [] { FrameAgree(m, Inner(frames), s, t); }
  }

  /** Unwinding the innermost frame gives the caller's RIP, RSP and nonvolatile registers. */
  lemma UnwindFrame(m: Mem, fr: Frame, ctx: Context)
    requires FrameOk(m, fr, ctx.regs)
    ensures var r := UnwindOne(m, fr.f.base, fr.f.entry, ctx);
            && r.Some? && r.value.Done? && r.value.handler == fr.f.RegisteredHandler()
            && r.value.ctx.rip == fr.caller.rip && r.value.ctx.regs.rsp == fr.caller.regs.rsp
            && Agree(r.value.ctx.regs, fr.caller.regs)
  {
    UnwindIsEpilogue(m, fr.f, ctx);
    EpilogueRestores(m, fr.f.BaseIn(ctx.regs), fr.f.prologue, ctx.regs, fr.caller.regs);
  }

  /** `c` is where `home` resumes: its RIP, its RSP and its nonvolatile registers. */
  ghost predicate Resumes(c: Option<Context>, home: Context) {
    c.Some? && c.value.rip == home.rip && c.value.regs.rsp == home.regs.rsp && Agree(c.value.regs, home.regs)
  }

  /** Unwinding out of a function, given a context in its body. */
  type Unwinder = (Function, Context) -> Option<Context>

  /** The unwinder on the table entry of the function; the functions of a history are not chained. */
  function UnwinderOf(m: Mem): Unwinder {
    (f: Function, ctx: Context) =>
      match UnwindOne(m, f.base, f.entry, ctx)
      case Some(Done(c, _)) => Some(c)
      case _ => None
  }

  /** `n` calls of an unwinder, each for the function it is in. */
  function UnwindMany(u: Unwinder, frames: seq<Frame>, n: nat, ctx: Context): Option<Context>
    requires n <= |frames|
    decreases n
  {
    if n == 0 then Some(ctx)
    else
      match u(Inner(frames).f, ctx)
      case Some(c) => UnwindMany(u, Outer(frames), n - 1, c)
      case None => None
  }

  /** What makes a frame the innermost one, whatever the memory says about it. */
  type FrameTest = (Frame, Regs) -> bool

  ghost function TestOf(m: Mem): FrameTest {
    (fr, s) => FrameOk(m, fr, s)
  }

  ghost predicate StackedBy(ok: FrameTest, s: Regs, frames: seq<Frame>)
    decreases |frames|
  {
    frames != [] ==> ok(Inner(frames), s) && StackedBy(ok, Inner(frames).caller.regs, Outer(frames))
  }

  /** The unwinder undoes one frame that passes the test, and the test looks only at RSP and the
      nonvolatile registers. */
  ghost predicate UndoesOne(u: Unwinder, ok: FrameTest) {
    forall fr: Frame, ctx: Context {:trigger ok(fr, ctx.regs), u(fr.f, ctx)} ::
      ok(fr, ctx.regs) ==> Resumes(u(fr.f, ctx), fr.caller)
  }

  ghost predicate Respects(ok: FrameTest) {
    forall fr: Frame, s: Regs, t: Regs {:trigger ok(fr, s), ok(fr, t)} ::
      ok(fr, s) && s.rsp == t.rsp && Agree(s, t) ==> ok(fr, t)
  }

  lemma {:induction false} UndoesMany(u: Unwinder, ok: FrameTest, frames: seq<Frame>, n: nat, ctx: Context)
    requires UndoesOne(u, ok) && Respects(ok)
    requires StackedBy(ok, ctx.regs, frames) && 0 < n <= |frames|
    ensures Resumes(UnwindMany(u, frames, n, ctx), frames[|frames| - n].caller)
    decreases n
  {
    var fr, outer := Inner(frames), Outer(frames);
    assert ok(fr, ctx.regs);
    var c := u(fr.f, ctx).value;
    if n > 1 {
      var next := Inner(outer);
      assert ok(next, fr.caller.regs) ==> ok(next, c.regs);
      UndoesMany(u, ok, outer, n - 1, c);
    }
  }

  lemma UnwinderUndoesOne(m: Mem)
    ensures UndoesOne(UnwinderOf(m), TestOf(m))
  {
    forall fr: Frame, ctx: Context {:trigger TestOf(m)(fr, ctx.regs), UnwinderOf(m)(fr.f, ctx)} | TestOf(m)(fr, ctx.regs)
      ensures Resumes(UnwinderOf(m)(fr.f, ctx), fr.caller)
    {
      UnwindFrame(m, fr, ctx);
    }
  }

  lemma TestRespects(m: Mem)
    ensures Respects(TestOf(m))
  {
    forall fr: Frame, s: Regs, t: Regs {:trigger TestOf(m)(fr, s), TestOf(m)(fr, t)}
      | TestOf(m)(fr, s) && s.rsp == t.rsp && Agree(s, t)
      ensures TestOf(m)(fr, t)
    {
      FrameAgree(m, fr, s, t);
    }
  }

  lemma {:induction false} StackedPasses(m: Mem, s: Regs, frames: seq<Frame>)
    requires Stacked(m, s, frames)
    ensures StackedBy(TestOf(m), s, frames)
    decreases |frames|
  {
    if frames != [] { StackedPasses(m, Inner(frames).caller.regs, Outer(frames)); }
  }

  /** Any number of frames unwinds to the context of the call that entered the last of them. */
  lemma UnwindingUndoesCalls(m: Mem, frames: seq<Frame>, n: nat, ctx: Context)
    requires Stacked(m, ctx.regs, frames) && 0 < n <= |frames|
    ensures Resumes(UnwindMany(UnwinderOf(m), frames, n, ctx), frames[|frames| - n].caller)
  {
    UnwinderUndoesOne(m);
    TestRespects(m);
    StackedPasses(m, ctx.regs, frames);
    UndoesMany(UnwinderOf(m), TestOf(m), frames, n, ctx);
  }

  // ---- what a body may write -----------------------------------------------------------

  ghost predicate SlotsKept(m: Mem, m': Mem, p: Prologue, a: int)
    decreases |p|
  {
    p != [] ==>
      && (Last(p).Push? ==> Slice(m', a, 8) == Slice(m, a, 8))
      && SlotsKept(m, m', Init(p), a + Last(p).Depth())
  }

  ghost predicate SpillsKept(m: Mem, m': Mem, p: Prologue, base: int)
    decreases |p|
  {
    p != [] ==>
      && (Last(p).Spills() ==>
            var at, n := base + Last(p).Offset(), Last(p).Room();
            Slice(m', at, n) == Slice(m, at, n))
      && SpillsKept(m, m', Init(p), base)
  }

  /** Pushed registers, the return address and the unwind data of a function whose body has RSP at
      `a` are not overwritten. */
  ghost predicate StackKept(m: Mem, m': Mem, a: int, f: Function) {
    && f.Ok()
    && SlotsKept(m, m', f.prologue, a)
    && Slice(m', a + Depth(f.prologue), 8) == Slice(m, a + Depth(f.prologue), 8)
    && (!f.Leaf() ==> Slice(m', f.Va(), |f.XData()|) == Slice(m, f.Va(), |f.XData()|))
  }

  /** Save slots, return addresses and unwind data of the active frames are not overwritten. */
  ghost predicate Kept(m: Mem, m': Mem, s: Regs, frames: seq<Frame>)
    decreases |frames|
  {
    frames != [] ==>
      var f := Inner(frames).f;
      && StackKept(m, m', s.rsp, f)
      && SpillsKept(m, m', f.prologue, f.BaseIn(s))
      && Kept(m, m', Inner(frames).caller.regs, Outer(frames))
  }

  lemma {:induction false} SavedKept(m: Mem, m': Mem, p: Prologue, a: int, g: Gprs)
    requires Saved(m, p, a, g) && SlotsKept(m, m', p, a) && m.Keys == m'.Keys
    ensures Saved(m', p, a, g)
    decreases |p|
  {
    if p != [] { SavedKept(m, m', Init(p), a + Last(p).Depth(), g); }
  }

  lemma {:induction false} SpilledKept(m: Mem, m': Mem, p: Prologue, base: int, g: Regs)
    requires Spilled(m, p, base, g) && SpillsKept(m, m', p, base) && m.Keys == m'.Keys
    ensures Spilled(m', p, base, g)
    decreases |p|
  {
    if p != [] { SpilledKept(m, m', Init(p), base, g); }
  }

  lemma FrameKept(m: Mem, m': Mem, s: Regs, fr: Frame)
    requires FrameOk(m, fr, s) && StackKept(m, m', s.rsp, fr.f) && m.Keys == m'.Keys
    requires SpillsKept(m, m', fr.f.prologue, fr.f.BaseIn(s))
    ensures FrameOk(m', fr, s)
  {
    SavedKept(m, m', fr.f.prologue, s.rsp, fr.caller.regs.gpr);
    SpilledKept(m, m', fr.f.prologue, fr.f.BaseIn(s), fr.caller.regs);
  }

  lemma {:induction false} StackedKept(m: Mem, m': Mem, s: Regs, frames: seq<Frame>)
    requires Stacked(m, s, frames) && Kept(m, m', s, frames) && m.Keys == m'.Keys
    ensures Stacked(m', s, frames)
    decreases |frames|
  {
    if frames != [] {
      var fr := Inner(frames);
      FrameKept(m, m', s, fr);
      StackedKept(m, m', fr.caller.regs, Outer(frames));
    }
  }

  /** Bytes outside `[lo, hi)` are the same. */
  ghost predicate SameOutside(m: Mem, m': Mem, lo: int, hi: int) {
    forall b: int, k: nat {:trigger Slice(m', b, k)} :: b + k <= lo || hi <= b ==> Slice(m', b, k) == Slice(m, b, k)
  }

  /** The unwind data lies outside the stack. */
  ghost predicate OffStack(f: Function, limit: int, top: int) {
    f.Ok() && (f.Leaf() || f.Va() + |f.XData()| <= limit || top <= f.Va())
  }

  ghost predicate AllOffStack(frames: seq<Frame>, limit: int, top: int) {
    forall i :: 0 <= i < |frames| ==> OffStack(frames[i].f, limit, top)
  }

  lemma {:induction false} SlotsOutside(m: Mem, m': Mem, lo: int, hi: int, p: Prologue, a: int)
    requires SameOutside(m, m', lo, hi) && hi <= a
    ensures SlotsKept(m, m', p, a)
    decreases |p|
  {
    if p != [] { SlotsOutside(m, m', lo, hi, Init(p), a + Last(p).Depth()); }
  }

  lemma {:induction false} SpillsOutside(m: Mem, m': Mem, lo: int, hi: int, p: Prologue, base: int)
    requires SameOutside(m, m', lo, hi) && SpillsAbove(p, base, hi)
    ensures SpillsKept(m, m', p, base)
    decreases |p|
  {
    if p != [] {
      assert Last(p).Spills() ==> hi <= base + p[|p| - 1].Offset();
      SpillsOutside(m, m', lo, hi, Init(p), base);
    }
  }

  /** Writing below RSP, inside the stack, keeps every frame. */
  lemma {:induction false} KeptBelow(m: Mem, m': Mem, lo: int, hi: int, s: Regs, frames: seq<Frame>, limit: int, top: int)
    requires SameOutside(m, m', lo, hi) && limit <= lo <= hi <= s.rsp && hi <= top
    requires Stacked(m, s, frames) && AllOffStack(frames, limit, top)
    ensures Kept(m, m', s, frames)
    decreases |frames|
  {
    if frames != [] {
      var fr := Inner(frames);
      assert OffStack(frames[|frames| - 1].f, limit, top);
      SlotsOutside(m, m', lo, hi, fr.f.prologue, s.rsp);
      SpillsOutside(m, m', lo, hi, fr.f.prologue, fr.f.BaseIn(s));
      KeptBelow(m, m', lo, hi, fr.caller.regs, Outer(frames), limit, top);
    }
  }

  // ---- running -------------------------------------------------------------------------

  /** A thread on the stack `[limit, top)`; `frames` is its history of unfinished calls. */
  datatype Thread = Thread(mem: Mem, ctx: Context, frames: seq<Frame>)

  datatype Event =
    | Call(f: Function, ret: u64, spilled: Mem)               // call, then the whole prologue
    | Work(mem: Mem, rip: u64, gpr: Gprs, xmm: Xmms)          // anything a body may do
    | Return                                                  // epilogue and ret

  /** Memory once the return address and the pushes of the prologue are on the stack. */
  function Pushed(t: Thread, f: Function, ret: u64): Mem
    requires 8 + Depth(f.prologue) <= t.ctx.regs.rsp
  {
    var s := t.ctx.regs;
    Enter(Overwrite(t.mem, s.rsp - 8, LE(ret, 8)), f.prologue, s.(rsp := s.rsp - 8)).0
  }

  /** Registers after the prologue: RSP is down, and the frame register, if any, points into the frame. */
  function InBody(f: Function, s: Regs): Regs
    requires 8 + Depth(f.prologue) <= s.rsp
  {
    var rsp := s.rsp - 8 - Depth(f.prologue);
    Regs(rsp, if f.header.frameReg == 0 then s.gpr else s.gpr[f.header.frameReg := SatAdd(rsp, 0x10 * f.header.frameOff)], s.xmm)
  }

  /** The stores of the prologue: they put the caller's registers into the frame, at their offsets
      from RSP, and overwrite nothing an active frame needs. The frame register does not wrap. */
  ghost predicate SpillsRight(t: Thread, f: Function, ret: u64, spilled: Mem)
    requires 8 + Depth(f.prologue) <= t.ctx.regs.rsp
  {
    var m, s := Pushed(t, f, ret), InBody(f, t.ctx.regs);
    && spilled.Keys == m.Keys
    && StackKept(m, spilled, s.rsp, f) && Kept(m, spilled, t.ctx.regs, t.frames)
    && (f.header.frameReg != 0 ==> s.rsp + 0x10 * f.header.frameOff < TWO_64)
    && Spilled(spilled, f.prologue, s.rsp, t.ctx.regs)
  }

  ghost predicate Legal(t: Thread, e: Event, limit: int, top: int) {
    match e
    case Call(f, ret, spilled) =>
      && f.Installed(t.mem) && OffStack(f, limit, top) && limit + 8 + Depth(f.prologue) <= t.ctx.regs.rsp
      && 0 <= limit && SpillsRight(t, f, ret, spilled)
    case Work(mem, _, gpr, xmm) =>
      && mem.Keys == t.mem.Keys && Kept(t.mem, mem, t.ctx.regs, t.frames)
      && Untouched(if t.frames == [] then [] else Inner(t.frames).f.prologue, Regs(t.ctx.regs.rsp, gpr, xmm), t.ctx.regs)
      && (t.frames != [] ==> FrameRegKept(Inner(t.frames).f.header, gpr, t.ctx.regs.gpr))
    case Return => t.frames != []
  }

  /** A body leaves its frame register alone. */
  predicate FrameRegKept(h: Header, g: Gprs, before: Gprs) {
    h.frameReg != 0 ==> g[h.frameReg] == before[h.frameReg]
  }

  /** `call` and the prologue. */
  function Invoke(t: Thread, f: Function, ret: u64, spilled: Mem): Thread
    requires 8 + Depth(f.prologue) <= t.ctx.regs.rsp
  {
    Thread(spilled, Context(SatAdd(f.base, f.entry.beginAddress), InBody(f, t.ctx.regs)),
           t.frames + [Frame(f, Context(ret, t.ctx.regs))])
  }

  /** The epilogue and `ret`, executed as instructions. */
  function Leave(t: Thread): Thread
    requires t.frames != []
  {
    var f := Inner(t.frames).f;
    match Epilogue(UndoerOf(t.mem, f.BaseIn(t.ctx.regs)), f.prologue, t.ctx.regs)
    case None => t
    case Some(s) =>
      match PopRip(t.mem, s)
      case None => t
      case Some(c) => Thread(t.mem, c, Outer(t.frames))
  }

  ghost function Step(t: Thread, e: Event, limit: nat, top: int): Thread
    requires Legal(t, e, limit, top)
  {
    match e
    case Call(f, ret, spilled) => Invoke(t, f, ret, spilled)
    case Work(mem, rip, gpr, xmm) => Thread(mem, Context(rip, Regs(t.ctx.regs.rsp, gpr, xmm)), t.frames)
    case Return => Leave(t)
  }

  /** The registers the outermost code has, or will have again once its calls return. */
  function Bottom(t: Thread): Regs {
    if t.frames == [] then t.ctx.regs else t.frames[0].caller.regs
  }

  ghost predicate Good(t: Thread, start: Regs, limit: int, top: int) {
    && limit <= t.ctx.regs.rsp <= top && Mapped(t.mem, limit, top - limit)
    && Stacked(t.mem, t.ctx.regs, t.frames) && AllOffStack(t.frames, limit, top)
    && Bottom(t).rsp == start.rsp && Agree(Bottom(t), start)
  }

  lemma FramesAbove(m: Mem, s: Regs, frames: seq<Frame>, i: nat)
    requires Stacked(m, s, frames) && i < |frames|
    ensures s.rsp < frames[i].caller.regs.rsp
    decreases |frames|
  {
    if i < |frames| - 1 { FramesAbove(m, Inner(frames).caller.regs, Outer(frames), i); }
  }

  /** What the pushes of a call write, and what they leave on the stack. */
  lemma PushedFrame(t: Thread, f: Function, ret: u64, limit: nat, top: int)
    requires f.Installed(t.mem) && OffStack(f, limit, top) && limit + 8 + Depth(f.prologue) <= t.ctx.regs.rsp <= top
    requires Mapped(t.mem, limit, top - limit)
    ensures var m, a, rsp := Pushed(t, f, ret), t.ctx.regs.rsp - 8 - Depth(f.prologue), t.ctx.regs.rsp;
            && m.Keys == t.mem.Keys && SameOutside(t.mem, m, a, rsp)
            && f.Installed(m) && Saved(m, f.prologue, a, t.ctx.regs.gpr)
            && Mapped(m, rsp - 8, 8) && FromLE(Slice(m, rsp - 8, 8)) == ret
  {
    var s, p, data := t.ctx.regs, f.prologue, LE(ret, 8);
    var m1, s1 := Overwrite(t.mem, s.rsp - 8, data), s.(rsp := s.rsp - 8);
    var m := Pushed(t, f, ret);
    OverwriteKeys(t.mem, s.rsp - 8, data);
    EnterSaves(m1, p, s1);
    EnterFrame(m1, p, s1, s1.rsp, 8);
    SliceBack(t.mem, s.rsp - 8, data);
    assert Pow256(8) == TWO_64;
    FromLELE(ret, 8);
    forall b: int, k: nat | b + k <= s.rsp - 8 - Depth(p) || s.rsp <= b ensures Slice(m, b, k) == Slice(t.mem, b, k) {
      EnterFrame(m1, p, s1, b, k);
      SliceApart(t.mem, s.rsp - 8, data, b, k);
    }
    if !f.Leaf() { assert Slice(m, f.Va(), |f.XData()|) == f.XData(); }
  }

  lemma {:induction false} NothingSpilled(m: Mem, p: Prologue, base: int, g: Regs)
    requires NoSpills(p)
    ensures Spilled(m, p, base, g)
    decreases |p|
  {
    if p != [] {
      assert !p[|p| - 1].Spills();
      NothingSpilled(m, Init(p), base, g);
    }
  }

  /** The unwinder's frame base is the RSP the prologue stored from, if it stored anything. */
  lemma BaseIsRsp(f: Function, s: Regs)
    requires f.Ok() && 8 + Depth(f.prologue) <= s.rsp
    requires f.header.frameReg != 0 ==> InBody(f, s).rsp + 0x10 * f.header.frameOff < TWO_64
    ensures NoSpills(f.prologue) || f.BaseIn(InBody(f, s)) == InBody(f, s).rsp
  {
    if f.header.frameReg == 0 { FramelessBase(f.header, Codes(f.prologue), InBody(f, s)); }
  }

  /** After the stores the new frame is complete. */
  lemma InvokeFrame(t: Thread, f: Function, ret: u64, spilled: Mem, limit: nat, top: int)
    requires Legal(t, Call(f, ret, spilled), limit, top) && t.ctx.regs.rsp <= top && Mapped(t.mem, limit, top - limit)
    ensures FrameOk(spilled, Frame(f, Context(ret, t.ctx.regs)), InBody(f, t.ctx.regs))
  {
    var m, s := Pushed(t, f, ret), InBody(f, t.ctx.regs);
    PushedFrame(t, f, ret, limit, top);
    SavedKept(m, spilled, f.prologue, s.rsp, t.ctx.regs.gpr);
    BaseIsRsp(f, t.ctx.regs);
    if NoSpills(f.prologue) { NothingSpilled(spilled, f.prologue, f.BaseIn(s), t.ctx.regs); }
  }

  lemma InvokeKeepsGood(t: Thread, f: Function, ret: u64, spilled: Mem, start: Regs, limit: nat, top: int)
    requires Good(t, start, limit, top) && Legal(t, Call(f, ret, spilled), limit, top)
    ensures Good(Invoke(t, f, ret, spilled), start, limit, top)
  {
    var u := Invoke(t, f, ret, spilled);
    PushedFrame(t, f, ret, limit, top);
    OuterFramesStay(t, f, ret, spilled, limit, top);
    InvokeFrame(t, f, ret, spilled, limit, top);
    assert Inner(u.frames) == Frame(f, Context(ret, t.ctx.regs)) && Outer(u.frames) == t.frames;
  }

  /** Neither the pushes nor the stores of a call disturb the frames around it. */
  lemma OuterFramesStay(t: Thread, f: Function, ret: u64, spilled: Mem, limit: nat, top: int)
    requires Legal(t, Call(f, ret, spilled), limit, top) && t.ctx.regs.rsp <= top && Mapped(t.mem, limit, top - limit)
    requires Stacked(t.mem, t.ctx.regs, t.frames) && AllOffStack(t.frames, limit, top)
    ensures Stacked(spilled, t.ctx.regs, t.frames)
  {
    var m, s := Pushed(t, f, ret), t.ctx.regs;
    PushedFrame(t, f, ret, limit, top);
    KeptBelow(t.mem, m, s.rsp - 8 - Depth(f.prologue), s.rsp, s, t.frames, limit, top);
    StackedKept(t.mem, m, s, t.frames);
    StackedKept(m, spilled, s, t.frames);
  }

  /** Returning resumes the caller. */
  lemma LeaveReturns(t: Thread)
    requires t.frames != [] && FrameOk(t.mem, Inner(t.frames), t.ctx.regs)
    ensures var u := Leave(t);
            && u.mem == t.mem && u.frames == Outer(t.frames)
            && Resumes(Some(u.ctx), Inner(t.frames).caller)
  {
    var f := Inner(t.frames).f;
    EpilogueRestores(t.mem, f.BaseIn(t.ctx.regs), f.prologue, t.ctx.regs, Inner(t.frames).caller.regs);
  }

  lemma LeaveKeepsGood(t: Thread, start: Regs, limit: nat, top: int)
    requires Good(t, start, limit, top) && t.frames != []
    requires start.rsp <= top
    ensures Good(Leave(t), start, limit, top)
  {
    var u, caller := Leave(t), Inner(t.frames).caller;
    LeaveReturns(t);
    StackedAgree(t.mem, caller.regs, u.ctx.regs, u.frames);
    if u.frames != [] { FramesAbove(t.mem, caller.regs, u.frames, 0); }
  }

  lemma WorkKeepsGood(t: Thread, e: Event, start: Regs, limit: nat, top: int)
    requires Good(t, start, limit, top) && e.Work? && Legal(t, e, limit, top)
    ensures Good(Step(t, e, limit, top), start, limit, top)
  {
    StackedKept(t.mem, e.mem, t.ctx.regs, t.frames);
    if t.frames != [] { FrameWorks(e.mem, Inner(t.frames), t.ctx.regs, Regs(t.ctx.regs.rsp, e.gpr, e.xmm)); }
  }

  /** A body may change what its prologue saved, except the frame register. */
  lemma FrameWorks(m: Mem, fr: Frame, s: Regs, t: Regs)
    requires FrameOk(m, fr, s) && s.rsp == t.rsp
    requires Untouched(fr.f.prologue, t, s) && FrameRegKept(fr.f.header, t.gpr, s.gpr)
    ensures FrameOk(m, fr, t)
  {
    assert fr.f.BaseIn(s) == fr.f.BaseIn(t);
  }

  ghost predicate LegalRun(t: Thread, events: seq<Event>, limit: nat, top: int)
    decreases |events|
  {
    events == [] || (Legal(t, events[0], limit, top) && LegalRun(Step(t, events[0], limit, top), events[1..], limit, top))
  }

  ghost function Run(t: Thread, events: seq<Event>, limit: nat, top: int): Thread
    requires LegalRun(t, events, limit, top)
    decreases |events|
  {
    if events == [] then t else Run(Step(t, events[0], limit, top), events[1..], limit, top)
  }

  lemma {:induction false} RunKeepsGood(t: Thread, events: seq<Event>, start: Regs, limit: nat, top: int)
    requires Good(t, start, limit, top) && LegalRun(t, events, limit, top) && start.rsp <= top
    ensures Good(Run(t, events, limit, top), start, limit, top)
    decreases |events|
  {
    if events != [] {
      match events[0] {
        case Call(f, ret, spilled) => InvokeKeepsGood(t, f, ret, spilled, start, limit, top);
        case Work(_, _, _, _) => WorkKeepsGood(t, events[0], start, limit, top);
        case Return => LeaveKeepsGood(t, start, limit, top);
      }
      RunKeepsGood(Step(t, events[0], limit, top), events[1..], start, limit, top);
    }
  }

  /** After any run of calls, work and returns that began with empty history, unwinding every
      active frame gives back the RSP and nonvolatile registers the run began with, at the return
      address of the outermost call. */
  lemma UnwindingAnyRun(m: Mem, ctx: Context, events: seq<Event>, limit: nat, top: int)
    requires limit <= ctx.regs.rsp <= top && Mapped(m, limit, top - limit)
    requires LegalRun(Thread(m, ctx, []), events, limit, top)
    ensures var t := Run(Thread(m, ctx, []), events, limit, top);
            t.frames != [] ==>
              Resumes(UnwindMany(UnwinderOf(t.mem), t.frames, |t.frames|, t.ctx), Context(t.frames[0].caller.rip, ctx.regs))
  {
    var t := Run(Thread(m, ctx, []), events, limit, top);
    RunKeepsGood(Thread(m, ctx, []), events, ctx.regs, limit, top);
    if t.frames != [] { UnwindingUndoesCalls(t.mem, t.frames, |t.frames|, t.ctx); }
  }

  // ---- where unwinding goes wrong ------------------------------------------------------

  lemma {:induction false} EpilogueRsp(m: Mem, fp: u64, p: Prologue, s: Regs)
    requires s.rsp + Depth(p) < TWO_64
    ensures var r := Epilogue(UndoerOf(m, fp), p, s); r.Some? ==> r.value.rsp == s.rsp + Depth(p)
    decreases |p|
  {
    if p != [] {
      var t := UndoOp(m, fp, Last(p), s);
      if t.Some? { EpilogueRsp(m, fp, Init(p), t.value); }
    }
  }

  /** Bytes of stack the pieces from `i` on account for. */
  function TotalDepth(pieces: seq<Function>, i: nat): nat
    requires i <= |pieces|
    decreases |pieces| - i
  {
    if i == |pieces| then 0 else Depth(pieces[i].prologue) + TotalDepth(pieces, i + 1)
  }

  /** A return that moves RSP over the frame of the piece and the return address. */
  ghost predicate PopsFrames(ret: Returner) {
    forall f: Function, s: Regs {:trigger ret(f, s)} ::
      s.rsp + Depth(f.prologue) + 8 < TWO_64 && ret(f, s).Some? ==>
        ret(f, s).value.regs.rsp == s.rsp + Depth(f.prologue) + 8
  }

  lemma ReturnerPops(m: Mem)
    ensures PopsFrames(ReturnerOf(m))
  {
    var ret := ReturnerOf(m);
    forall f: Function, s: Regs {:trigger ret(f, s)} | s.rsp + Depth(f.prologue) + 8 < TWO_64 && ret(f, s).Some?
      ensures ret(f, s).value.regs.rsp == s.rsp + Depth(f.prologue) + 8
    {
      EpilogueRsp(m, f.BaseIn(s), f.prologue, s);
    }
  }

  lemma {:induction false} ReturnAllRsp(ret: Returner, pieces: seq<Function>, i: nat, s: Regs)
    requires PopsFrames(ret) && i < |pieces| && s.rsp + TotalDepth(pieces, i) + 8 * (|pieces| - i) < TWO_64
    ensures var r := ReturnAll(ret, pieces, i, s);
            r.Some? ==> r.value.regs.rsp == s.rsp + TotalDepth(pieces, i) + 8 * (|pieces| - i)
    decreases |pieces| - i
  {
    var c := ret(pieces[i], s);
    if c.Some? && i < |pieces| - 1 { ReturnAllRsp(ret, pieces, i + 1, c.value.regs); }
  }

  /** Unwinding through chained entries gives the caller's RSP if and only if there is no chain: the
      code pops a return address for every piece, though the function was called once. */
  lemma ChainedPopsTooMuch(m: Mem, pieces: seq<Function>, ctx: Context, links: nat, home: u64)
    requires Linked(m, pieces) && |pieces| <= links + 1
    requires ctx.regs.rsp == home - 8 - TotalDepth(pieces, 0) && home + 8 * |pieces| < TWO_64
    ensures match Follow(LevelOf(m, pieces[0].base), pieces[0].entry, ctx, links)
            case Some(Done(c, _)) => c.regs.rsp == home <==> |pieces| == 1
            case Some(Chain(_, _)) => false
            case None => true
  {
    FollowIsEpilogues(m, pieces, ctx, links);
    ReturnerPops(m);
    ReturnAllRsp(ReturnerOf(m), pieces, 0, ctx.regs);
  }

  /** Two pieces without codes: RIP comes from the word above the return address. */
  lemma ChainedReturnAddress(m: Mem, pieces: seq<Function>, ctx: Context)
    requires Linked(m, pieces) && |pieces| == 2 && pieces[0].prologue == [] && pieces[1].prologue == []
    requires Mapped(m, ctx.regs.rsp, 16) && ctx.regs.rsp + 16 < TWO_64
    ensures var r := Follow(LevelOf(m, pieces[0].base), pieces[0].entry, ctx, 1);
            && r.Some? && r.value.Done?
            && r.value.ctx.rip == FromLE(Slice(m, ctx.regs.rsp + 8, 8))
            && r.value.ctx.regs.rsp == ctx.regs.rsp + 16
  {
    FollowIsEpilogues(m, pieces, ctx, 1);
    var ret, s := ReturnerOf(m), ctx.regs;
    assert ret(pieces[0], s) == PopRip(m, s);
    var t := s.(rsp := s.rsp + 8);
    assert ret(pieces[1], t) == PopRip(m, t);
    assert ReturnAll(ret, pieces, 0, s) == ReturnAll(ret, pieces, 1, t);
  }

  /** SET_FPREG does not recover RSP: with or without a frame register, unwinding gives the caller's
      RSP if and only if RSP is where the prologue left it. */
  lemma UnwindNeedsRsp(m: Mem, f: Function, ctx: Context, home: u64)
    requires f.Installed(m) && ctx.regs.rsp + Depth(f.prologue) + 8 < TWO_64
    ensures match UnwindOne(m, f.base, f.entry, ctx)
            case Some(Done(c, _)) => c.regs.rsp == home <==> ctx.regs.rsp == home - 8 - Depth(f.prologue)
            case _ => true
  {
    UnwindIsEpilogue(m, f, ctx);
    EpilogueRsp(m, f.BaseIn(ctx.regs), f.prologue, ctx.regs);
  }

  lemma OpGrows(pre: seq<Slot>, op: PrologueOp, post: seq<Slot>)
    requires !op.Spills()
    ensures var all := pre + op.Slots() + post;
            && Grows(all, |pre|) == op.Depth()
            && Stride(all[|pre|]) == |op.Slots()|
  {
    var all := pre + op.Slots() + post;
    assert all[|pre|] == op.Slots()[0];
    if |op.Slots()| > 1 { assert all[|pre| + 1] == op.Slots()[1]; }
    if |op.Slots()| > 2 { assert all[|pre| + 2] == op.Slots()[2]; }
  }

  /** The first pass finds RSP at entry when nothing is stored in the frame. */
  lemma {:induction false} EntryRspIsExact(pre: seq<Slot>, p: Prologue, rsp: u64)
    requires NoSpills(p) && rsp + Depth(p) < TWO_64
    ensures EntryRsp(pre + Codes(p), |pre|, rsp) == rsp + Depth(p)
    decreases |p|
  {
    if p == [] {
      assert pre + Codes(p) == pre;
    } else {
      var op, slots, rest := Last(p), Last(p).Slots(), Codes(Init(p));
      assert pre + Codes(p) == pre + slots + rest;
      assert !p[|p| - 1].Spills();
      OpGrows(pre, op, rest);
      SlotsWidth(pre, op, rest);
      EntryRspIsExact(pre + slots, Init(p), SatAdd(rsp, op.Depth()));
    }
  }

  /** No operand of a store reads as ALLOC_LARGE, so that the first pass stops at every code. */
  predicate Plain(op: PrologueOp) {
    op.Spills() ==> forall k :: 0 < k < |op.Slots()| ==> op.Slots()[k].Op() != ALLOC_LARGE
  }

  /** Neither the instruction nor, for a store, its operand reads as an opcode that accounts for stack. */
  predicate Silent(op: PrologueOp) {
    && op.Depth() == 0
    && (op.Spills() ==> forall k :: 0 < k < |op.Slots()| ==> op.Slots()[k].Op() !in {PUSH_NONVOL, ALLOC_SMALL, PUSH_MACHFRAME})
  }

  lemma OpQuiet(pre: seq<Slot>, op: PrologueOp, post: seq<Slot>)
    requires Plain(op)
    ensures var all := pre + op.Slots() + post;
            Quiet(all, |pre|) <==> Silent(op) && Quiet(all, |pre + op.Slots()|)
  {
    SlotsStand(pre, op, post);
    if op.Spills() { SpillQuiet(pre + op.Slots() + post, |pre|, op); } else { OpGrows(pre, op, post); }
  }

  /** The first pass stops at every operand of a plain store. */
  lemma SpillQuiet(all: seq<Slot>, n: nat, op: PrologueOp)
    requires Stands(all, n, op) && Plain(op) && op.Spills()
    ensures Quiet(all, n) <==> Silent(op) && Quiet(all, n + |op.Slots()|)
  {
    assert all[n + 0] == op.Slots()[0] && all[n + 1] == op.Slots()[1];
    assert Quiet(all, n) == Quiet(all, n + 1);
    if |op.Slots()| == 3 {
      assert all[n + 2] == op.Slots()[2];
      assert Quiet(all, n + 2) <==> Grows(all, n + 2) == 0 && Quiet(all, n + 3);
    }
  }

  /** The condition on the prologue: no push, no allocation, and no store whose operand reads as one. */
  lemma {:induction false} QuietPrologue(pre: seq<Slot>, p: Prologue)
    requires forall i :: 0 <= i < |p| ==> Plain(p[i])
    ensures Quiet(pre + Codes(p), |pre|) <==> forall i :: 0 <= i < |p| ==> Silent(p[i])
    decreases |p|
  {
    if p == [] {
      assert pre + Codes(p) == pre;
    } else {
      var op, slots := Last(p), Last(p).Slots();
      assert pre + Codes(p) == pre + slots + Codes(Init(p));
      assert op == p[|p| - 1] && Plain(op);
      OpQuiet(pre, op, Codes(Init(p)));
      QuietPrologue(pre + slots, Init(p));
      assert forall i :: 0 <= i < |p| - 1 ==> Init(p)[i] == p[i];
    }
  }

  lemma SaveCodes(p: Prologue, reg: Nibble, offset: u16, at: u8)
    requires offset < 0x100
    ensures var slots := [Slot(at, SAVE_NONVOL + 0x10 * reg), Slot(offset, 0)];
            Codes(p + [Save(reg, offset, at)]) == slots + Codes(p)
  {
    var all := p + [Save(reg, offset, at)];
    assert Last(all) == Save(reg, offset, at) && Init(all) == p;
  }

  /** The first pass takes the operand of the save for a push. */
  lemma EntryRspOfSave(p: Prologue, reg: Nibble, offset: u16, at: u8, rsp: u64)
    requires NoSpills(p) && offset < 0x100 && rsp + Depth(p) + 8 < TWO_64
    ensures var slots := [Slot(at, SAVE_NONVOL + 0x10 * reg), Slot(offset, 0)];
            EntryRsp(slots + Codes(p), 0, rsp) == rsp + Depth(p) + 8
  {
    var slots := [Slot(at, SAVE_NONVOL + 0x10 * reg), Slot(offset, 0)];
    var all := slots + Codes(p);
    assert all[0] == slots[0] && all[1] == slots[1];
    assert EntryRsp(all, 0, rsp) == EntryRsp(all, 1, SatAdd(rsp, 0));
    assert EntryRsp(all, 1, rsp) == EntryRsp(all, 2, SatAdd(rsp, 8));
    EntryRspIsExact(slots, p, SatAdd(rsp, 8));
  }

  /** SAVE_NONVOL without a frame register: the unwinder reads the register from the entry of the
      function, and a word too high at that. The prologue stored it `Depth(p) + 8` bytes lower. */
  lemma SaveWithoutFrameMisread(m: Mem, h: Header, p: Prologue, reg: Nibble, offset: u16, at: u8, s: Regs)
    requires h.frameReg == 0 && NoSpills(p) && offset < 0x100 && s.rsp + Depth(p) + 8 < TWO_64
    ensures var codes := Codes(p + [Save(reg, offset, at)]);
            && codes != [] && FrameBase(h, codes, s) == s.rsp + Depth(p) + 8
            && Effect(m, codes, 0, FrameBase(h, codes, s), s) == Load(m, SatAdd(s.rsp + Depth(p) + 8, 8 * offset), reg, s)
  {
    SaveCodes(p, reg, offset, at);
    EntryRspOfSave(p, reg, offset, at, s.rsp);
    SaveEffect(m, [Slot(at, SAVE_NONVOL + 0x10 * reg), Slot(offset, 0)], Codes(p), s.rsp + Depth(p) + 8, reg, offset, at, s);
  }

  lemma SaveEffect(m: Mem, slots: seq<Slot>, post: seq<Slot>, fp: u64, reg: Nibble, offset: u16, at: u8, s: Regs)
    requires offset < 0x100 && slots == [Slot(at, SAVE_NONVOL + 0x10 * reg), Slot(offset, 0)]
    ensures Effect(m, slots + post, 0, fp, s) == Load(m, SatAdd(fp, 8 * offset), reg, s)
  {
    assert (slots + post)[0] == slots[0] && (slots + post)[1] == slots[1];
  }

  lemma {:induction false} EpilogueSpares(m: Mem, fp: u64, p: Prologue, s: Regs, reg: Nibble)
    requires !Saves(p, reg)
    ensures var r := Epilogue(UndoerOf(m, fp), p, s); r.Some? ==> r.value.gpr[reg] == s.gpr[reg]
    decreases |p|
  {
    if p != [] {
      var t := UndoOp(m, fp, Last(p), s);
      if t.Some? { EpilogueSpares(m, fp, Init(p), t.value, reg); }
    }
  }

  /** What such a register comes back as: the word that far above the one the prologue wrote. */
  lemma LowSaveComesBack(m: Mem, h: Header, q: Prologue, reg: Nibble, offset: u16, at: u8, s: Regs)
    requires h.frameReg == 0 && NoSpills(q) && !Saves(q, reg) && offset < 0x100
    requires s.rsp + Depth(q) + 8 + 8 * offset < TWO_64
    ensures var p := q + [Save(reg, offset, at)];
            var r := Epilogue(UndoerOf(m, FrameBase(h, Codes(p), s)), p, s);
            r.Some? ==> r.value.gpr[reg] == FromLE(Slice(m, s.rsp + Depth(q) + 8 + 8 * offset, 8))
  {
    var p := q + [Save(reg, offset, at)];
    var fp := FrameBase(h, Codes(p), s);
    SaveWithoutFrameMisread(m, h, q, reg, offset, at, s);
    assert Last(p) == Save(reg, offset, at) && Init(p) == q;
    var t := UndoOp(m, fp, Last(p), s);
    if t.Some? { EpilogueSpares(m, fp, q, t.value, reg); }
  }

  function Zeros(a: int, n: nat): (m: Mem)
    requires 0 <= a && a + n <= TWO_64
    ensures forall x: u64 :: x in m <==> a <= x < a + n
    ensures forall x: u64 :: x in m ==> m[x] == 0
  {
    if n == 0 then map[] else Zeros(a, n - 1)[a + n - 1 := 0]
  }

  /** A stack of 64 bytes, with 7 in its third word. */
  function StoredSeven(a: u64): Mem
    requires a + 0x40 <= TWO_64
  {
    Poke(Zeros(a, 0x40), a + 0x10, 7)
  }

  lemma {:induction false} ZeroSlice(m: Mem, a: int, n: nat)
    requires forall b :: a <= b < a + n ==> Peek(m, b) == 0
    ensures FromLE(Slice(m, a, n)) == 0
    decreases n
  {
    if n > 0 {
      ZeroSlice(m, a + 1, n - 1);
      assert Slice(m, a, n)[1..] == Slice(m, a + 1, n - 1);
    }
  }

  lemma SevenStored(m: Mem, a: u64)
    requires a + 0x40 <= TWO_64 && m == StoredSeven(a)
    ensures Mapped(m, a, 0x40) && FromLE(Slice(m, a + 0x10, 8)) == 7 && FromLE(Slice(m, a + 0x38, 8)) == 0
  {
    var zeros := Zeros(a, 0x40);
    assert m == zeros[a + 0x10 := 7];
    ZeroSlice(m, a + 0x11, 7);
    ZeroSlice(m, a + 0x38, 8);
    var third := Slice(m, a + 0x10, 8);
    assert third[1..] == Slice(m, a + 0x11, 7) && third[0] == 7;
  }

  lemma SaveLoads(m: Mem, fp: u64, q: Prologue, s: Regs)
    requires q == [Small(3, 4)] && Mapped(m, fp + 0x10, 8) && fp + 0x10 < TWO_64
    ensures Epilogue(UndoerOf(m, fp), q + [Save(3, 2, 9)], s).Some?
  {
    var p := q + [Save(3, 2, 9)];
    assert Last(p) == Save(3, 2, 9) && Init(p) == q && Last(q) == Small(3, 4) && Init(q) == [];
    var undo, t := UndoerOf(m, fp), UndoOp(m, fp, Last(p), s).value;
    assert Epilogue(undo, p, s) == Epilogue(undo, q, t);
    assert Epilogue(undo, q, t) == Epilogue(undo, [], undo(Small(3, 4), t).value);
  }

  /** `sub rsp, 32; mov [rsp + 16], rbx` on that stack: RBX comes back as 0 although 7 was stored. */
  lemma StoredRegisterLost(m: Mem, h: Header, s: Regs, q: Prologue)
    requires s.rsp + 0x40 < TWO_64 && m == StoredSeven(s.rsp) && h.frameReg == 0 && q == [Small(3, 4)]
    ensures var p := q + [Save(3, 2, 9)];
            && FromLE(Slice(m, s.rsp + p[1].Offset(), 8)) == 7
            && var r := Epilogue(UndoerOf(m, FrameBase(h, Codes(p), s)), p, s);
               r.Some? && r.value.gpr[3] == 0
  {
    var p := q + [Save(3, 2, 9)];
    SevenStored(m, s.rsp);
    assert Init(q) == [] && Depth(q) == 32;
    SaveWithoutFrameMisread(m, h, q, 3, 2, 9, s);
    LowSaveComesBack(m, h, q, 3, 2, 9, s);
    SaveLoads(m, FrameBase(h, Codes(p), s), q, s);
  }
}
