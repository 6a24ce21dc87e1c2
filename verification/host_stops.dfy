/** The stop bitmap over the fake-API window and the code planted in it: which addresses stop in
    the host, which run guest code, and what that code is. */
module HostStops {
  import opened Words
  import opened Memory
  import FakeApi

  const SLOT := 16
  const JUMP_BYTES := 12

  // ---- bits of a byte ------------------------------------------------------------------

  /** `1 << k`. */
  function BitMask(k: nat): bv8
    requires k < 8
  {
    match k
    case 0 => 0x01
    case 1 => 0x02
    case 2 => 0x04
    case 3 => 0x08
    case 4 => 0x10
    case 5 => 0x20
    case 6 => 0x40
    case _ => 0x80
  }

  predicate BitSet(x: bv8, k: nat)
    requires k < 8
  {
    x & BitMask(k) != 0
  }

  function Cleared(x: bv8, k: nat): bv8
    requires k < 8
  {
    x & !BitMask(k)
  }

  lemma ClearOneBit(x: bv8, k: nat, j: nat)
    requires k < 8 && j < 8
    ensures BitSet(Cleared(x, k), j) <==> BitSet(x, j) && j != k
    ensures BitSet(0xff, j)
  {
  }

  // ---- what is planted -----------------------------------------------------------------

  datatype StubKind =
    | VoidRet | IdentityRcxToRax | ReturnZero | ReturnImm32 | ReturnImm64 | LoadZx32FromVa | StoreEcxToVa
    | FlsGetValue | FlsSetValue | AcrtIobFunc | LoadU32FromTable | SysColorBrush | GetCurrentDirectoryW
    | Initterm | InittermE

  /** Bytes `encode` produces. */
  function BodyLen(k: StubKind): nat {
    match k
    case VoidRet => 1
    case IdentityRcxToRax => 4
    case ReturnZero => 3
    case ReturnImm32 => 6
    case ReturnImm64 => 11
    case LoadZx32FromVa => 13
    case StoreEcxToVa => 13
    case FlsGetValue => 27
    case FlsSetValue => 32
    case AcrtIobFunc => 11
    case LoadU32FromTable => 26
    case SysColorBrush => 14
    case GetCurrentDirectoryW => 53
    case Initterm => 42
    case InittermE => 49
  }

  /** `needs_out_of_line_helper`. */
  predicate OutOfLine(k: StubKind) {
    k.FlsGetValue? || k.FlsSetValue? || k.LoadU32FromTable? || k.GetCurrentDirectoryW? || k.Initterm? || k.InittermE?
  }

  /** An import with the kind of stub it gets; none when there is no stub for it. */
  datatype Entry = Entry(va: u64, kind: Option<StubKind>)

  datatype Span = Span(at: int, len: nat) {
    predicate Has(a: int) { at <= a < at + len }
  }

  /** Code at an entry of the window, and the body elsewhere that it jumps to, if any. */
  datatype Planted = Planted(code: Span, helper: Option<Span>)

  datatype Layout = Layout(base: u64, size: nat, helperBase: u64, helperSize: nat) {
    predicate Ok() { base + size <= TWO_64 && helperBase + helperSize + SLOT < TWO_64 }

    function HelperEnd(): int { helperBase + helperSize }
  }

  /** Bytes a body occupies in the helper region. */
  function Rounded(len: nat): nat { (len + 15) / 16 * 16 }

  /** What planting one entry puts where, when it fits. */
  function PlantOne(l: Layout, e: Entry, cursor: int): Option<Planted> {
    if e.kind.None? || e.va < l.base then None
    else
      var k, offset := e.kind.value, e.va - l.base;
      if OutOfLine(k) then
        if cursor + BodyLen(k) > l.HelperEnd() || offset + JUMP_BYTES > l.size then None
        else Some(Planted(Span(e.va, JUMP_BYTES), Some(Span(cursor, BodyLen(k)))))
      else if offset + BodyLen(k) > l.size then None
      else Some(Planted(Span(e.va, BodyLen(k)), None))
  }

  /** The bytes of every kind of stub. */
  type Encoder = b: StubKind -> Bytes | forall k :: |b(k)| == BodyLen(k) witness AllZero

  function Zeros(n: nat): (z: Bytes)
    ensures |z| == n
  {
    if n == 0 then [] else [0] + Zeros(n - 1)
  }

  function AllZero(k: StubKind): Bytes { Zeros(BodyLen(k)) }

  /** `mov rax, target; jmp rax`. */
  function Jump(target: nat): (b: Bytes)
    ensures |b| == JUMP_BYTES
  {
    [0x48, 0xb8] + LE(target, 8) + [0xff, 0xe0]
  }

  /** Where the twelve bytes of such a jump lead. */
  function Leads(code: Bytes): Option<nat> {
    if |code| == 12 && code[..2] == [0x48, 0xb8] && code[10..] == [0xff, 0xe0] then Some(FromLE(code[2..10])) else None
  }

  lemma JumpLeads(target: u64)
    ensures Leads(Jump(target)) == Some(target)
  {
    var code := Jump(target);
    assert Pow256(8) == TWO_64;
    FromLELE(target, 8);
    assert code[..2] == [0x48, 0xb8] && code[2..10] == LE(target, 8) && code[10..] == [0xff, 0xe0];
  }

  /** What planting one entry writes: the helper body even when the jump to it does not fit. */
  function WriteOne(l: Layout, body: Encoder, e: Entry, cursor: int, m: Mem): Mem {
    if e.kind.None? || e.va < l.base then m
    else
      var k, offset := e.kind.value, e.va - l.base;
      if OutOfLine(k) then
        if cursor + BodyLen(k) > l.HelperEnd() || cursor < 0 then m
        else
          var m1 := Overwrite(m, cursor, body(k));
          if offset + JUMP_BYTES > l.size then m1 else Overwrite(m1, e.va, Jump(cursor))
      else if offset + BodyLen(k) > l.size then m
      else Overwrite(m, e.va, body(k))
  }

  /** The memory planting one entry writes to is mapped. */
  predicate CanWrite(l: Layout, e: Entry, cursor: int, m: Mem) {
    if e.kind.None? || e.va < l.base then true
    else
      var k, offset := e.kind.value, e.va - l.base;
      if OutOfLine(k) then
        cursor + BodyLen(k) > l.HelperEnd()
        || (Mapped(m, cursor, BodyLen(k)) && (offset + JUMP_BYTES > l.size || Mapped(m, e.va, JUMP_BYTES)))
      else offset + BodyLen(k) > l.size || Mapped(m, e.va, BodyLen(k))
  }

  /** So is that of a list of entries. */
  predicate CanWriteAll(l: Layout, entries: seq<Entry>, cursor: int, m: Mem)
    decreases |entries|
  {
    entries == []
    || (CanWrite(l, entries[0], cursor, m) && CanWriteAll(l, entries[1..], NextCursor(PlantOne(l, entries[0], cursor), cursor), m))
  }

  /** Memory after planting a list of entries. */
  function WriteAll(l: Layout, body: Encoder, entries: seq<Entry>, cursor: int, m: Mem): Mem
    decreases |entries|
  {
    if entries == [] then m
    else WriteAll(l, body, entries[1..], NextCursor(PlantOne(l, entries[0], cursor), cursor), WriteOne(l, body, entries[0], cursor, m))
  }

  function NextCursor(p: Option<Planted>, cursor: int): int {
    if p.Some? && p.value.helper.Some? then cursor + Rounded(p.value.helper.value.len) else cursor
  }

  /** Everything planted for a list of entries. */
  function Plan(l: Layout, entries: seq<Entry>, cursor: int): seq<Planted>
    decreases |entries|
  {
    if entries == [] then []
    else
      var p := PlantOne(l, entries[0], cursor);
      (if p.Some? then [p.value] else []) + Plan(l, entries[1..], NextCursor(p, cursor))
  }

  ghost predicate Covered(spans: seq<Span>, a: int) {
    exists i :: 0 <= i < |spans| && spans[i].Has(a)
  }

  function Codes(planted: seq<Planted>): (spans: seq<Span>)
    ensures |spans| == |planted| && forall i :: 0 <= i < |spans| ==> spans[i] == planted[i].code
  {
    if planted == [] then [] else [planted[0].code] + Codes(planted[1..])
  }

  // ---- the bitmap ----------------------------------------------------------------------

  /** Bit `i` of the bitmap. */
  predicate StopBit(bits: array<bv8>, i: nat)
    requires i / 8 < bits.Length
    reads bits
  {
    BitSet(bits[i / 8], i % 8)
  }

  method ClearBit(bits: array<bv8>, i: nat)
    requires i / 8 < bits.Length
    modifies bits
    ensures forall j: nat :: j / 8 < bits.Length ==> (StopBit(bits, j) <==> old(StopBit(bits, j)) && j != i)
  {
    ghost var before := bits[i / 8];
    bits[i / 8] := Cleared(bits[i / 8], i % 8);
    forall j: nat | j / 8 < bits.Length ensures StopBit(bits, j) <==> old(StopBit(bits, j)) && j != i {
      ClearOneBit(before, i % 8, j % 8);
    }
  }

  /** Clears `len` bits from `from`, none at or past `size`. */
  method ClearRange(bits: array<bv8>, size: nat, from: nat, len: nat)
    requires size <= 8 * bits.Length
    modifies bits
    ensures forall j: nat :: j / 8 < bits.Length ==>
              (StopBit(bits, j) <==> old(StopBit(bits, j)) && !(j < size && from <= j < from + len))
  {
    var i := 0;
    while i < len && from + i < size
      invariant 0 <= i <= len
      invariant forall j: nat :: j / 8 < bits.Length ==> (StopBit(bits, j) <==> old(StopBit(bits, j)) && !(from <= j < from + i))
      invariant i > 0 ==> from + i <= size
    {
      ClearBit(bits, from + i);
      i := i + 1;
    }
  }

  /** The hook window with its bitmap; `spans` is the code put into the window so far. */
  class HookWindow {
    const base: u64
    const size: nat
    const bits: array<bv8>
    /** Guest memory. */
    var mem: Mem
    ghost var spans: seq<Span>

    /** A byte of the window stops in the host exactly when no planted code covers it. */
    ghost predicate Valid()
      reads this, bits
    {
      && base + size <= TWO_64 && size <= 8 * bits.Length < size + 8
      && forall i: nat :: i < size ==> (StopBit(bits, i) <==> !Covered(spans, base + i))
    }

    /** Everything stops at first. */
    constructor (base: u64, size: nat, mem: Mem)
      requires base + size <= TWO_64
      ensures Valid() && fresh(bits) && spans == [] && this.base == base && this.size == size && this.mem == mem
    {
      this.base, this.size, this.mem := base, size, mem;
      bits := new bv8[(size + 7) / 8](_ => 0xff);
      spans := [];
      new;
      forall i: nat | i < size ensures StopBit(bits, i) { ClearOneBit(0xff, 0, i % 8); }
    }

    /** `clear_stop_bits`. */
    method ClearStopBits(va: u64, len: nat)
      requires Valid()
      modifies this`spans, bits
      ensures Valid() && spans == old(spans) + [Span(va, if va < base then 0 else len)]
    {
      ghost var span := Span(va, if va < base then 0 else len);
      ghost var before := spans;
      if va >= base { ClearRange(bits, size, va - base, len); }
      spans := before + [span];
      forall i: nat | i < size ensures StopBit(bits, i) <==> !Covered(spans, base + i) {
        CoveredAppend(before, span, base + i);
      }
    }

    /** `should_host_stop`. */
    method ShouldHostStop(address: u64) returns (stop: bool)
      requires Valid()
      ensures stop == (base <= address < base + size && !Covered(spans, address))
    {
      if bits.Length == 0 { return false; }
      if address < base { return false; }
      var offset := address - base;
      if offset >= size { return false; }
      return StopBit(bits, offset);
    }

    /** `mem_write`: refused unless every byte is mapped. */
    method MemWrite(at: u64, data: Bytes) returns (ok: bool)
      modifies this`mem
      ensures ok == Mapped(old(mem), at, |data|) && mem == (if ok then Overwrite(old(mem), at, data) else old(mem))
      ensures mem.Keys == old(mem).Keys
    {
      ok := Mapped(mem, at, |data|);
      if ok {
        OverwriteKeys(mem, at, data);
        mem := Overwrite(mem, at, data);
      }
    }

    /** Code at `va`, and the bits of its bytes. */
    method PlantCode(va: u64, code: Bytes) returns (ok: bool)
      requires Valid() && base <= va
      modifies this`spans, this`mem, bits
      ensures Valid() && ok == Mapped(old(mem), va, |code|) && mem.Keys == old(mem).Keys
      ensures ok ==> mem == Overwrite(old(mem), va, code) && spans == old(spans) + [Span(va, |code|)]
    {
      ok := MemWrite(va, code);
      if ok { ClearStopBits(va, |code|); }
    }

    /** A body in the helper region, and a jump to it at the entry. */
    method PlantFar(va: u64, code: Bytes, cursor: u64) returns (ok: bool)
      requires Valid() && base <= va
      modifies this`spans, this`mem, bits
      ensures Valid() && mem.Keys == old(mem).Keys
      ensures ok == (Mapped(old(mem), cursor, |code|) && (va - base + JUMP_BYTES > size || Mapped(old(mem), va, JUMP_BYTES)))
      ensures ok ==>
                var m1 := Overwrite(old(mem), cursor, code);
                if va - base + JUMP_BYTES > size then mem == m1 && spans == old(spans)
                else mem == Overwrite(m1, va, Jump(cursor)) && spans == old(spans) + [Span(va, JUMP_BYTES)]
    {
      ok := MemWrite(cursor, code);
      if !ok || va - base + JUMP_BYTES > size { return; }
      ok := PlantCode(va, Jump(cursor));
    }

    /** One turn of the loop: the bytes of the stub, and its bits; a write that fails ends it all. */
    method PlantEntry(l: Layout, body: Encoder, e: Entry, cursor: u64) returns (ok: bool, p: Option<Planted>)
      requires Valid() && l.Ok() && l.base == base && l.size == size
      modifies this`spans, this`mem, bits
      ensures Valid() && ok == CanWrite(l, e, cursor, old(mem)) && mem.Keys == old(mem).Keys
      ensures ok ==>
                && p == PlantOne(l, e, cursor) && mem == WriteOne(l, body, e, cursor, old(mem))
                && spans == (if p.Some? then old(spans) + [p.value.code] else old(spans))
    {
      p := None;
      if e.kind.None? || e.va < base { return true, None; }
      var k, offset := e.kind.value, e.va - base;
      if OutOfLine(k) {
        if cursor + BodyLen(k) > l.HelperEnd() { return true, None; }
        ok := PlantFar(e.va, body(k), cursor);
        if offset + JUMP_BYTES <= size { p := Some(Planted(Span(e.va, JUMP_BYTES), Some(Span(cursor, BodyLen(k))))); }
      } else {
        if offset + BodyLen(k) > size { return true, None; }
        ok := PlantCode(e.va, body(k));
        p := Some(Planted(Span(e.va, BodyLen(k)), None));
      }
    }

    /** The turn for entry `n`, on the way to what planting all of them does. */
    method PlantNext(l: Layout, body: Encoder, entries: seq<Entry>, n: nat, cursor: u64, planted: seq<Planted>,
                     ghost before: seq<Span>, ghost plan: seq<Planted>, ghost end: Mem, ghost all: bool)
        returns (ok: bool, now: seq<Planted>, next: u64)
      requires Valid() && l.Ok() && l.base == base && l.size == size && n < |entries| && cursor < l.HelperEnd() + SLOT
      requires Pending(l, body, entries, n, cursor, mem, planted, plan, end, all) && Tracked(before, spans, planted)
      modifies this`spans, this`mem, bits
      ensures Valid() && (!ok ==> !all)
      ensures ok ==>
                && Pending(l, body, entries, n + 1, next, mem, now, plan, end, all)
                && Tracked(before, spans, now) && next < l.HelperEnd() + SLOT
    {
      PlantTurn(l, body, entries, n, cursor, mem, planted, plan, end, all);
      var p;
      ok, p := PlantEntry(l, body, entries[n], cursor);
      now := if p.Some? then planted + [p.value] else planted;
      if ok && p.Some? { TrackOne(before, old(spans), planted, p.value); }
      next := if ok then NextCursor(p, cursor) else cursor;
    }

    /** `plant_guest_stubs`: bodies in the slots or, behind a jump, in the helper region. It fails
        exactly when some write does. */
    method PlantGuestStubs(l: Layout, body: Encoder, entries: seq<Entry>) returns (ok: bool, planted: seq<Planted>)
      requires Valid() && l.Ok() && l.base == base && l.size == size
      modifies this`spans, this`mem, bits
      ensures Valid() && ok == CanWriteAll(l, entries, l.helperBase, old(mem))
      ensures ok ==>
                && planted == Plan(l, entries, l.helperBase) && spans == old(spans) + Codes(planted)
                && mem == WriteAll(l, body, entries, l.helperBase, old(mem))
    {
      planted := [];
      var cursor: u64 := l.helperBase;
      var n := 0;
      ghost var before, all := spans, CanWriteAll(l, entries, l.helperBase, mem);
      ghost var plan, end := Plan(l, entries, l.helperBase), WriteAll(l, body, entries, l.helperBase, mem);
      PlantStart(l, body, entries, cursor, mem);
      TrackNothing(before);
      while n < |entries|
        invariant 0 <= n <= |entries| && Valid() && Tracked(before, spans, planted)
        invariant Pending(l, body, entries, n, cursor, mem, planted, plan, end, all)
        invariant cursor < l.HelperEnd() + SLOT
      {
        ok, planted, cursor := PlantNext(l, body, entries, n, cursor, planted, before, plan, end, all);
        if !ok { return; }
        n := n + 1;
      }
      PlantDone(l, body, entries, cursor, mem, planted, plan, end, all);
      ok := true;
    }

    /** `rewire`: a jump at the address of an import, all of whose bytes then run in the guest; nothing
        for an import without an address. It fails when there is no memory at the address. */
    method Rewire(rows: seq<FakeApi.Row>, imports: seq<FakeApi.Entry>, api: FakeApi.Import, target: u64) returns (ok: bool)
      requires Valid()
      modifies this`spans, this`mem, bits
      ensures Valid()
      ensures match FakeApi.AddressOf(rows, imports, api)
              case None => ok && spans == old(spans) && mem == old(mem)
              case Some(from) =>
                && ok == Mapped(old(mem), from, JUMP_BYTES)
                && (ok ==> Slice(mem, from, JUMP_BYTES) == Jump(target) && mem == Overwrite(old(mem), from, Jump(target)))
                && (ok ==> spans == old(spans) + [Span(from, if from < base then 0 else JUMP_BYTES)])
                && (!ok ==> spans == old(spans) && mem == old(mem))
    {
      var from := FakeApi.AddressOf(rows, imports, api);
      if from.None? { return true; }
      if !Mapped(mem, from.value, JUMP_BYTES) { return false; }
      SliceBack(mem, from.value, Jump(target));
      mem := Overwrite(mem, from.value, Jump(target));
      ClearStopBits(from.value, JUMP_BYTES);
      return true;
    }
  }

  lemma CoveredAppend(spans: seq<Span>, s: Span, a: int)
    ensures Covered(spans + [s], a) <==> Covered(spans, a) || s.Has(a)
  {
    var all := spans + [s];
    if Covered(spans, a) {
      var i :| 0 <= i < |spans| && spans[i].Has(a);
      assert all[i].Has(a);
    }
    if s.Has(a) { assert all[|spans|].Has(a); }
  }

  /** What planting still has to do from entry `n` on, to reach `plan` and `end`, if `all` writes can
      be made. */
  ghost predicate Pending(l: Layout, body: Encoder, entries: seq<Entry>, n: nat, cursor: int, m: Mem, done: seq<Planted>,
                          plan: seq<Planted>, end: Mem, all: bool)
  {
    && n <= |entries| && done + Plan(l, entries[n..], cursor) == plan && WriteAll(l, body, entries[n..], cursor, m) == end
    && all == CanWriteAll(l, entries[n..], cursor, m)
  }

  /** When window and helper region are mapped, every write can be made. */
  lemma {:induction false} GroundTakesAll(l: Layout, entries: seq<Entry>, cursor: int, m: Mem)
    requires Ground(l, m) && l.helperBase <= cursor
    ensures CanWriteAll(l, entries, cursor, m)
    decreases |entries|
  {
    if entries != [] { GroundTakesAll(l, entries[1..], NextCursor(PlantOne(l, entries[0], cursor), cursor), m); }
  }

  lemma {:induction false} CanWriteKeys(l: Layout, entries: seq<Entry>, cursor: int, m: Mem, m': Mem)
    requires m.Keys == m'.Keys
    ensures CanWriteAll(l, entries, cursor, m) == CanWriteAll(l, entries, cursor, m')
    decreases |entries|
  {
    if entries != [] {
      MappedKeys(l, entries[0], cursor, m, m');
      CanWriteKeys(l, entries[1..], NextCursor(PlantOne(l, entries[0], cursor), cursor), m, m');
    }
  }

  lemma MappedKeys(l: Layout, e: Entry, cursor: int, m: Mem, m': Mem)
    requires m.Keys == m'.Keys
    ensures CanWrite(l, e, cursor, m) == CanWrite(l, e, cursor, m')
  {
    assert forall x :: x in m <==> x in m';
  }

  lemma PlantTurn(l: Layout, body: Encoder, entries: seq<Entry>, n: nat, cursor: int, m: Mem, done: seq<Planted>,
                  plan: seq<Planted>, end: Mem, all: bool)
    requires Pending(l, body, entries, n, cursor, m, done, plan, end, all) && n < |entries|
    ensures !CanWrite(l, entries[n], cursor, m) ==> !all
    ensures var p := PlantOne(l, entries[n], cursor);
            CanWrite(l, entries[n], cursor, m) ==>
              Pending(l, body, entries, n + 1, NextCursor(p, cursor), WriteOne(l, body, entries[n], cursor, m),
                      if p.Some? then done + [p.value] else done, plan, end, all)
  {
    assert entries[n..][1..] == entries[n + 1..];
    var p, m1 := PlantOne(l, entries[n], cursor), WriteOne(l, body, entries[n], cursor, m);
    var rest := Plan(l, entries[n + 1..], NextCursor(p, cursor));
    if p.Some? { assert done + ([p.value] + rest) == done + [p.value] + rest; } else { assert [] + rest == rest; }
    WriteKeys(l, body, entries[n], cursor, m);
    CanWriteKeys(l, entries[n + 1..], NextCursor(p, cursor), m, m1);
  }

  lemma PlantStart(l: Layout, body: Encoder, entries: seq<Entry>, cursor: int, m: Mem)
    ensures Pending(l, body, entries, 0, cursor, m, [], Plan(l, entries, cursor), WriteAll(l, body, entries, cursor, m),
                    CanWriteAll(l, entries, cursor, m))
  {
    assert entries[0..] == entries && [] + Plan(l, entries, cursor) == Plan(l, entries, cursor);
  }

  lemma PlantDone(l: Layout, body: Encoder, entries: seq<Entry>, cursor: int, m: Mem, done: seq<Planted>,
                  plan: seq<Planted>, end: Mem, all: bool)
    requires Pending(l, body, entries, |entries|, cursor, m, done, plan, end, all)
    ensures done == plan && m == end && all
  {
    assert entries[|entries|..] == [] && done + [] == done;
  }

  /** The code of what is planted has been added to the spans there were before. */
  ghost predicate Tracked(before: seq<Span>, spans: seq<Span>, planted: seq<Planted>) {
    spans == before + Codes(planted)
  }

  lemma {:induction false} CodesAppend(planted: seq<Planted>, p: Planted)
    ensures Codes(planted + [p]) == Codes(planted) + [p.code]
  {
    var all := planted + [p];
    assert forall i :: 0 <= i < |all| ==> all[i] == if i < |planted| then planted[i] else p;
  }

  lemma TrackOne(before: seq<Span>, spans: seq<Span>, planted: seq<Planted>, p: Planted)
    requires Tracked(before, spans, planted)
    ensures Tracked(before, spans + [p.code], planted + [p])
  {
    CodesAppend(planted, p);
    assert before + (Codes(planted) + [p.code]) == before + Codes(planted) + [p.code];
  }

  lemma TrackNothing(before: seq<Span>)
    ensures Tracked(before, before, [])
  {
    assert before + [] == before;
  }

  // ---- where the code lies -------------------------------------------------------------

  /** Import addresses are 16-byte aligned. */
  ghost predicate Aligned(entries: seq<Entry>) {
    forall i :: 0 <= i < |entries| ==> entries[i].va % SLOT == 0
  }

  /** Planted code never leaves the slot of its own import. */
  lemma {:induction false} CodeStaysInSlot(l: Layout, entries: seq<Entry>, cursor: int, i: nat)
    requires Aligned(entries) && i < |Plan(l, entries, cursor)|
    ensures var code := Plan(l, entries, cursor)[i].code;
            && 0 < code.len <= SLOT && code.at % SLOT == 0
            && l.base <= code.at && code.at + code.len <= l.base + l.size
            && exists k :: 0 <= k < |entries| && entries[k].va == code.at && entries[k].kind.Some?
    decreases |entries|
  {
    var p, rest := PlantOne(l, entries[0], cursor), entries[1..];
    if p.Some? && i == 0 {
      assert entries[0].va == Plan(l, entries, cursor)[0].code.at;
    } else {
      CodeStaysInSlot(l, rest, NextCursor(p, cursor), if p.Some? then i - 1 else i);
      var code := Plan(l, entries, cursor)[i].code;
      var k :| 0 <= k < |rest| && rest[k].va == code.at && rest[k].kind.Some?;
      assert entries[k + 1] == rest[k];
    }
  }

  /** Bodies in the helper region lie inside it, at or after the cursor. */
  lemma {:induction false} HelpersAfterCursor(l: Layout, entries: seq<Entry>, cursor: int, i: nat)
    requires i < |Plan(l, entries, cursor)| && Plan(l, entries, cursor)[i].helper.Some?
    ensures var h := Plan(l, entries, cursor)[i].helper.value; cursor <= h.at && h.at + h.len <= l.HelperEnd()
    decreases |entries|
  {
    var p := PlantOne(l, entries[0], cursor);
    if !(p.Some? && i == 0) {
      HelpersAfterCursor(l, entries[1..], NextCursor(p, cursor), if p.Some? then i - 1 else i);
    }
  }

  /** No two bodies in the helper region overlap. */
  lemma {:induction false} HelpersAreDisjoint(l: Layout, entries: seq<Entry>, cursor: int, i: nat, j: nat)
    requires i < j < |Plan(l, entries, cursor)|
    requires Plan(l, entries, cursor)[i].helper.Some? && Plan(l, entries, cursor)[j].helper.Some?
    ensures var plan := Plan(l, entries, cursor);
            plan[i].helper.value.at + plan[i].helper.value.len <= plan[j].helper.value.at
    decreases |entries|
  {
    var p := PlantOne(l, entries[0], cursor);
    var next := NextCursor(p, cursor);
    if p.None? {
      HelpersAreDisjoint(l, entries[1..], next, i, j);
    } else if i > 0 {
      HelpersAreDisjoint(l, entries[1..], next, i - 1, j - 1);
    } else {
      HelpersAfterCursor(l, entries[1..], next, j - 1);
    }
  }

  /** An import that is neither planted nor rewired still stops at every byte of its slot. */
  lemma OtherSlotsStop(spans: seq<Span>, slot: int, a: int)
    requires slot % SLOT == 0 && slot <= a < slot + SLOT
    requires forall i :: 0 <= i < |spans| ==> spans[i].at % SLOT == 0 && spans[i].len <= SLOT && spans[i].at != slot
    ensures !Covered(spans, a)
  {
    if Covered(spans, a) {
      var i :| 0 <= i < |spans| && spans[i].Has(a);
      SlotOf(spans[i].at, slot, a);
    }
  }

  lemma SlotOf(at: int, slot: int, a: int)
    requires at % SLOT == 0 && slot % SLOT == 0 && slot <= a < slot + SLOT && at <= a < at + SLOT
    ensures at == slot
  {
  }

  // ---- what the planted code is --------------------------------------------------------

  /** The window and the helper region do not overlap. */
  predicate Apart(l: Layout) {
    l.base + l.size <= l.helperBase || l.HelperEnd() <= l.base
  }

  /** Nothing of the entry's slot that lies in the window is in the `n` bytes from `a`. */
  predicate ClearOf(l: Layout, e: Entry, a: int, n: nat) {
    e.va < l.base || l.base + l.size <= e.va || a + n <= e.va || Min(e.va + SLOT, l.base + l.size) <= a
  }

  /** Planting one entry writes in its slot and from the cursor on in the helper region, no further. */
  lemma WriteOneSpares(l: Layout, body: Encoder, e: Entry, cursor: int, m: Mem, a: int, n: nat)
    requires ClearOf(l, e, a, n)
    requires a + n <= cursor || l.HelperEnd() <= a
    ensures Slice(WriteOne(l, body, e, cursor, m), a, n) == Slice(m, a, n)
  {
    if e.kind.Some? && e.va >= l.base {
      var k, offset := e.kind.value, e.va - l.base;
      if OutOfLine(k) {
        if 0 <= cursor && cursor + BodyLen(k) <= l.HelperEnd() {
          SliceApart(m, cursor, body(k), a, n);
          if offset + JUMP_BYTES <= l.size { SliceApart(Overwrite(m, cursor, body(k)), e.va, Jump(cursor), a, n); }
        }
      } else if offset + BodyLen(k) <= l.size {
        SliceApart(m, e.va, body(k), a, n);
      }
    }
  }

  lemma {:induction false} WriteAllSpares(l: Layout, body: Encoder, entries: seq<Entry>, cursor: int, m: Mem, a: int, n: nat)
    requires forall i :: 0 <= i < |entries| ==> ClearOf(l, entries[i], a, n)
    requires a + n <= cursor || l.HelperEnd() <= a
    ensures Slice(WriteAll(l, body, entries, cursor, m), a, n) == Slice(m, a, n)
    decreases |entries|
  {
    if entries != [] {
      var next := NextCursor(PlantOne(l, entries[0], cursor), cursor);
      WriteOneSpares(l, body, entries[0], cursor, m, a, n);
      WriteAllSpares(l, body, entries[1..], next, WriteOne(l, body, entries[0], cursor, m), a, n);
    }
  }

  lemma WriteKeys(l: Layout, body: Encoder, e: Entry, cursor: int, m: Mem)
    ensures WriteOne(l, body, e, cursor, m).Keys == m.Keys
  {
    if e.kind.Some? {
      var k := e.kind.value;
      OverwriteKeys(m, cursor, body(k));
      if cursor >= 0 { OverwriteKeys(Overwrite(m, cursor, body(k)), e.va, Jump(cursor)); }
      OverwriteKeys(m, e.va, body(k));
    }
  }

  /** In memory `m`, the slot of the entry holds the stub of its kind: the body itself, or a jump to
      the body in the helper region. */
  ghost predicate Holds(m: Mem, body: Encoder, e: Entry, p: Planted) {
    && e.kind.Some? && p.code.at == e.va
    && match p.helper
       case None => Slice(m, e.va, p.code.len) == body(e.kind.value)
       case Some(h) =>
         && 0 <= h.at < TWO_64 && Slice(m, e.va, JUMP_BYTES) == Jump(h.at)
         && Slice(m, h.at, h.len) == body(e.kind.value)
  }

  /** Memory that planting works on: window and helper region mapped, and apart. */
  ghost predicate Ground(l: Layout, m: Mem) {
    l.Ok() && Apart(l) && Mapped(m, l.base, l.size) && Mapped(m, l.helperBase, l.helperSize)
  }

  lemma WriteOneHolds(l: Layout, body: Encoder, e: Entry, cursor: int, m: Mem)
    requires Ground(l, m) && l.helperBase <= cursor && PlantOne(l, e, cursor).Some?
    ensures Holds(WriteOne(l, body, e, cursor, m), body, e, PlantOne(l, e, cursor).value)
  {
    var k := e.kind.value;
    if OutOfLine(k) {
      var m1 := Overwrite(m, cursor, body(k));
      SliceBack(m, cursor, body(k));
      OverwriteKeys(m, cursor, body(k));
      SliceBack(m1, e.va, Jump(cursor));
      SliceApart(m1, e.va, Jump(cursor), cursor, BodyLen(k));
    } else {
      SliceBack(m, e.va, body(k));
    }
  }

  /** What is planted for entry `k`, given the cursor when its turn comes. */
  function CursorAt(l: Layout, entries: seq<Entry>, cursor: int, k: nat): int
    requires k <= |entries|
    decreases k, |entries|
  {
    if k == 0 then cursor
    else CursorAt(l, entries[1..], NextCursor(PlantOne(l, entries[0], cursor), cursor), k - 1)
  }

  /** Entries have slots of their own. */
  ghost predicate OwnSlots(entries: seq<Entry>) {
    Aligned(entries) && forall i, j :: 0 <= i < j < |entries| ==> entries[i].va != entries[j].va
  }

  /** After planting, in one piece of memory, every entry that got a stub holds it: slots and bodies
      do not overwrite each other, whatever the entries and however full the helper region is. */
  lemma {:induction false} PlantedCodeHolds(l: Layout, body: Encoder, entries: seq<Entry>, cursor: int, m: Mem, k: nat)
    requires Ground(l, m) && OwnSlots(entries) && l.helperBase <= cursor && k < |entries|
    ensures var p := PlantOne(l, entries[k], CursorAt(l, entries, cursor, k));
            p.Some? ==> Holds(WriteAll(l, body, entries, cursor, m), body, entries[k], p.value)
    decreases |entries|
  {
    var e, rest := entries[0], entries[1..];
    var p := PlantOne(l, e, cursor);
    var next, m1 := NextCursor(p, cursor), WriteOne(l, body, e, cursor, m);
    WriteKeys(l, body, e, cursor, m);
    if k > 0 {
      assert OwnSlots(rest) by { assert forall i :: 0 <= i < |rest| ==> rest[i] == entries[i + 1]; }
      PlantedCodeHolds(l, body, rest, next, m1, k - 1);
    } else if p.Some? {
      WriteOneHolds(l, body, e, cursor, m);
      LaterSpare(l, body, entries, cursor, m1, p.value);
    }
  }

  /** Later entries write neither in the slot of the first nor in its body. */
  lemma LaterSpare(l: Layout, body: Encoder, entries: seq<Entry>, cursor: int, m: Mem, p: Planted)
    requires l.Ok() && Apart(l) && OwnSlots(entries) && entries != [] && l.helperBase <= cursor
    requires PlantOne(l, entries[0], cursor) == Some(p)
    ensures var m' := WriteAll(l, body, entries[1..], NextCursor(Some(p), cursor), m);
            && Slice(m', p.code.at, p.code.len) == Slice(m, p.code.at, p.code.len)
            && (p.helper.Some? ==> Slice(m', p.helper.value.at, p.helper.value.len) == Slice(m, p.helper.value.at, p.helper.value.len))
  {
    var rest, next := entries[1..], NextCursor(Some(p), cursor);
    forall i | 0 <= i < |rest| ensures ClearOf(l, rest[i], p.code.at, p.code.len) {
      assert rest[i] == entries[i + 1] && entries[0].va != entries[i + 1].va;
      SlotsApart(entries[0].va, rest[i].va);
    }
    WriteAllSpares(l, body, rest, next, m, p.code.at, p.code.len);
    if p.helper.Some? {
      WriteAllSpares(l, body, rest, next, m, p.helper.value.at, p.helper.value.len);
    }
  }

  lemma SlotsApart(x: u64, y: u64)
    requires x % SLOT == 0 && y % SLOT == 0 && x != y
    ensures x + SLOT <= y || y + SLOT <= x
  {
  }
}
