/** The Itanium language-specific data area: finding a landing pad in its bytes, and in the lists
    those bytes stand for. */
module Lsda {
  import opened Words
  import opened Memory
  import opened Leb128

  const OMIT := 0xff
  const ABSPTR := 0x00
  const ULEB128 := 0x01
  const UDATA2 := 0x02
  const UDATA4 := 0x03
  const UDATA8 := 0x04
  const SLEB128 := 0x09
  const SDATA2 := 0x0a
  const SDATA4 := 0x0b
  const SDATA8 := 0x0c

  /** Records of one action chain that are looked at. */
  const MAX_RECORDS := 32

  // ---- encoded values ------------------------------------------------------------------

  /** `dw_format_size`; zero for everything that is not fixed-width. */
  function FormatSize(format: int): nat {
    if format == ABSPTR || format == UDATA8 || format == SDATA8 then 8
    else if format == UDATA2 || format == SDATA2 then 2
    else if format == UDATA4 || format == SDATA4 then 4
    else 0
  }

  function LoadLE(m: Mem, a: u64, size: nat): (r: Option<u64>)
    requires size <= 8
    ensures r.Some? ==> r.value < Pow256(size)
  {
    if Mapped(m, a, size) then
      FromLEBound(Slice(m, a, size));
      Pow256Grows(size, 8);
      assert Pow256(8) == TWO_64;
      Some(FromLE(Slice(m, a, size)))
    else None
  }

  lemma {:induction false} Pow256Grows(n: nat, k: nat)
    requires n <= k
    ensures Pow256(n) <= Pow256(k)
    decreases k
  {
    if n < k { Pow256Grows(n, k - 1); }
  }

  /** Sign extension of a fixed-width value to 64 bits. For eight bytes the mask is `1 << 64`, which
      without overflow checks is `1 << 0`: all bits of a negative value are set. */
  function Extend(format: int, v: u64): u64
    requires v < Pow256(FormatSize(format))
  {
    assert Pow256(2) == 0x1_0000 && Pow256(4) == TWO_32;
    if format == SDATA2 && v >= 0x8000 then v + TWO_64 - 0x1_0000
    else if format == SDATA4 && v >= 0x8000_0000 then v + TWO_64 - TWO_32
    else if format == SDATA8 && v >= TWO_63 then MAX_U64
    else v
  }

  /** `read_encoded_value`: the raw value, its storage being `c` itself. */
  function Encoded(m: Mem, c: u64, encoding: u8): (r: Option<Num>)
    ensures r.Some? ==> 0 <= r.value.v < TWO_64
  {
    Limits();
    var format := encoding % 0x10;
    if encoding == OMIT then Some(Num(0, c))
    else if format == ULEB128 then Uleb(m, c, MAX_BYTES)
    else if format == SLEB128 then
      match Sleb(m, c, MAX_BYTES)
      case None => None
      case Some(n) => Some(Num(if n.v < 0 then n.v + TWO_64 else n.v, n.next))
    else if FormatSize(format) == 0 then None
    else
      match LoadLE(m, c, FormatSize(format))
      case None => None
      case Some(v) => Some(Num(Extend(format, v), SatAdd(c, FormatSize(format))))
  }

  /** `apply_encoding`, the data-relative base being the image base. */
  function Applied(m: Mem, encoding: u8, raw: u64, storage: u64, imageBase: u64, funcStart: u64): Option<u64> {
    if encoding == OMIT || raw == 0 then Some(0)
    else
      var app := encoding / 0x10 % 8;
      var addr :=
        if app == 1 then WrapAdd(storage, raw)
        else if app == 2 || app == 3 then WrapAdd(imageBase, raw)
        else if app == 4 then WrapAdd(funcStart, raw)
        else raw;
      if encoding >= 0x80 && addr != 0 then LoadLE(m, addr, 8) else Some(addr)
  }

  /** `resolve_ttype`: the table grows downwards from its base. */
  function ResolveType(m: Mem, base: u64, encoding: u8, index: nat, imageBase: u64, funcStart: u64): Option<u64> {
    var size := FormatSize(encoding % 0x10);
    if index == 0 || encoding == OMIT || size == 0 then None
    else
      var slot: u64 := if index * size <= base then base - index * size else 0;
      match Encoded(m, slot, encoding % 0x10)
      case None => None
      case Some(n) => Applied(m, encoding, n.v, slot, imageBase, funcStart)
  }

  /** What the type table and the thrown type make of a filter. */
  datatype Verdict = Match | CatchAll | Skip

  datatype Types = Types(m: Mem, base: u64, encoding: u8, imageBase: u64, funcStart: u64, thrown: Option<u64>) {
    function Judge(filter: int): Verdict {
      if filter == 0 then CatchAll
      else if filter < 0 then Skip
      else
        match ResolveType(m, base, encoding, filter, imageBase, funcStart)
        case None => Skip
        case Some(entry) =>
          if entry == 0 then CatchAll
          else if thrown == None || thrown == Some(entry) then Match
          else Skip
    }
  }

  /** What decides a chain: the verdict on each filter. */
  type Judgement = int -> Verdict

  function JudgementOf(types: Types): Judgement {
    filter => types.Judge(filter)
  }

  // ---- action chains -------------------------------------------------------------------

  function FirstOf(judge: Judgement, filters: seq<int>, v: Verdict): Option<int> {
    if filters == [] then None
    else if judge(filters[0]) == v then Some(filters[0])
    else FirstOf(judge, filters[1..], v)
  }

  /** What a chain of filters selects after the catch-all `seen`, if any: the first match, or else the
      first catch-all. */
  function Choose(judge: Judgement, filters: seq<int>, seen: Option<int>): Option<int> {
    match FirstOf(judge, filters, Match)
    case Some(f) => Some(f)
    case None => if seen.Some? then seen else FirstOf(judge, filters, CatchAll)
  }

  function Select(judge: Judgement, filters: seq<int>): Option<int> { Choose(judge, filters, None) }

  /** The catch-all met so far, after one more filter. */
  function Noted(judge: Judgement, f: int, seen: Option<int>): Option<int> {
    if judge(f) == CatchAll && seen.None? then Some(f) else seen
  }

  /** One action record as read: its filter, its link, and where the link field starts. */
  datatype RecordRead = RecordRead(filter: int, link: int, linkAt: u64)

  function ReadRecord(m: Mem, rec: u64): Option<RecordRead> {
    match Sleb(m, rec, MAX_BYTES)
    case None => None
    case Some(filter) =>
      match Sleb(m, filter.next, MAX_BYTES)
      case None => None
      case Some(link) => Some(RecordRead(filter.v, link.v, filter.next))
  }

  /** The one-based index a link leads to; none ends the chain. Addresses are compared as `i64`. */
  function Follow(table: u64, r: RecordRead): Option<u64> {
    var field := if r.linkAt < TWO_63 then r.linkAt else r.linkAt - TWO_64;
    var at := Min(field + r.link, TWO_63 - 1);
    if r.link == 0 || at <= 0 || at < table then None else Some(at - table + 1)
  }

  /** The walk over at most `left` records: `seen` is the catch-all met so far. */
  function Walk(m: Mem, judge: Judgement, table: u64, idx: u64, seen: Option<int>, left: nat): Option<int>
    decreases left, idx
  {
    if left == 0 then seen
    else
      match ReadRecord(m, SatAdd(table, SatSub(idx, 1)))
      case None => None
      case Some(r) =>
        if judge(r.filter) == Match then Some(r.filter)
        else
          match Follow(table, r)
          case None => Noted(judge, r.filter, seen)
          case Some(next) => Walk(m, judge, table, next, Noted(judge, r.filter, seen), left - 1)
  }

  /** `match_action`. */
  method MatchAction(types: Types, table: u64, actionIndex: u64) returns (r: Option<int>)
    ensures r == if actionIndex == 0 then None else Walk(types.m, JudgementOf(types), table, actionIndex, None, MAX_RECORDS)
  {
    if actionIndex == 0 { return None; }
    r := WalkRecords(types.m, JudgementOf(types), table, actionIndex);
  }

  /** Its loop, over the verdicts on the filters. */
  method WalkRecords(m: Mem, judge: Judgement, table: u64, actionIndex: u64) returns (r: Option<int>)
    ensures r == Walk(m, judge, table, actionIndex, None, MAX_RECORDS)
  {
    var catchAll: Option<int> := None;
    var idx, n := actionIndex, 0;
    while n < MAX_RECORDS
      invariant 0 <= n <= MAX_RECORDS
      invariant Walk(m, judge, table, idx, catchAll, MAX_RECORDS - n) == Walk(m, judge, table, actionIndex, None, MAX_RECORDS)
    {
      var rec := SatAdd(table, SatSub(idx, 1));
      var filter := ReadSleb(m, rec);
      if filter.None? { return None; }
      var link := ReadSleb(m, filter.value.next);
      if link.None? { return None; }
      var verdict := judge(filter.value.v);
      if verdict == Match { return Some(filter.value.v); }
      if verdict == CatchAll && catchAll.None? { catchAll := Some(filter.value.v); }
      var next := Follow(table, RecordRead(filter.value.v, link.value.v, filter.value.next));
      if next.None? { return catchAll; }
      idx := next.value;
      n := n + 1;
    }
    return catchAll;
  }

  // ---- call sites ----------------------------------------------------------------------

  /** The four fields of a call site as read. */
  datatype SiteRead = SiteRead(start: u64, len: u64, pad: u64, action: u64, next: u64)

  datatype LandingPad = LandingPad(pad: u64, action: int, switchValue: int)

  /** What the header of the tables says. */
  datatype Head = Head(lpBase: u64, typeEnc: u8, typeBase: u64, format: int, first: u64, end: u64)

  /** A field of a call site in the table's format: variable or fixed. */
  function ReadField(m: Mem, c: u64, format: int): (r: Option<Num>)
    ensures r.Some? ==> 0 <= r.value.v < TWO_64 && r.value.next >= SatAdd(c, 1)
  {
    if format == ULEB128 then Limits(); UlebMoves(m, c, MAX_BYTES); Uleb(m, c, MAX_BYTES)
    else if FormatSize(format) == 0 then None
    else if 0 <= format < 0x10 then Encoded(m, c, format)
    else None
  }

  lemma {:induction false} UlebMoves(m: Mem, c: u64, left: nat)
    ensures var r := Uleb(m, c, left); r.Some? ==> r.value.next >= SatAdd(c, 1)
    decreases left
  {
    if left > 0 && Byte(m, c).Some? && Byte(m, c).value >= 0x80 { UlebMoves(m, SatAdd(c, 1), left - 1); }
  }

  function ReadSite(m: Mem, c: u64, format: int): (r: Option<SiteRead>)
    ensures r.Some? ==> r.value.next >= SatAdd(c, 1)
  {
    match ReadField(m, c, format)
    case None => None
    case Some(s) =>
      match ReadField(m, s.next, format)
      case None => None
      case Some(l) =>
        match ReadField(m, l.next, format)
        case None => None
        case Some(p) =>
          match ReadField(m, p.next, ULEB128)
          case None => None
          case Some(a) => Some(SiteRead(s.v, l.v, p.v, a.v, a.next))
  }

  /** Saturating sum of any two non-negative numbers. */
  function Sat(x: int): u64
    requires x >= 0
  {
    if x < TWO_64 then x else MAX_U64
  }

  /** The program counter, or the byte before it, lies in the site's range. */
  predicate SiteCovers(lpBase: u64, abs: bool, start: nat, len: nat, pc: u64) {
    var lo := Sat(if abs then start else lpBase + start);
    var hi := Sat(lo + len);
    lo <= SatSub(pc, 1) < hi || lo <= pc < hi
  }

  function PadVa(lpBase: u64, abs: bool, pad: nat): u64 {
    if abs then Sat(pad) else Sat(lpBase + pad)
  }

  /** A site the search stops to look at. */
  predicate Candidate(h: Head, start: nat, len: nat, pad: nat, action: nat, pc: u64) {
    var abs := h.format == ABSPTR;
    && pad != 0 && SiteCovers(h.lpBase, abs, start, len, pc) && PadVa(h.lpBase, abs, pad) != 0
    && action != 0 && h.typeEnc != OMIT
  }

  /** The loop over the call-site table from `c`. */
  function Scan(types: Types, h: Head, c: u64, pc: u64): Option<LandingPad>
    decreases h.end - c
  {
    if c >= h.end then None
    else
      match ReadSite(types.m, c, h.format)
      case None => None
      case Some(s) =>
        if !Candidate(h, s.start, s.len, s.pad, s.action, pc) then Scan(types, h, s.next, pc)
        else
          match Walk(types.m, JudgementOf(types), h.end, s.action, None, MAX_RECORDS)
          case Some(sw) => Some(LandingPad(PadVa(h.lpBase, h.format == ABSPTR, s.pad), s.action, sw))
          case None => Scan(types, h, s.next, pc)
  }

  /** The header: landing-pad base, type table, call-site format and extent. */
  function ReadHead(m: Mem, lsda: u64, imageBase: u64, funcStart: u64): Option<Head> {
    match ReadLpBase(m, lsda, imageBase, funcStart)
    case None => None
    case Some(lp) => ReadRest(m, lp.next, lp.v)
  }

  /** The header after the landing-pad base. */
  function ReadRest(m: Mem, c: u64, lpBase: u64): Option<Head> {
    match Byte(m, c)
    case None => None
    case Some(typeEnc) =>
      match ReadTypeBase(m, SatAdd(c, 1), typeEnc)
      case None => None
      case Some(tb) =>
        match Byte(m, tb.next)
        case None => None
        case Some(csEnc) =>
          match ReadField(m, SatAdd(tb.next, 1), ULEB128)
          case None => None
          case Some(len) =>
            if len.v == 0 then None
            else Some(Head(lpBase, typeEnc, tb.v, csEnc % 0x10, len.next, SatAdd(len.next, len.v)))
  }

  function ReadLpBase(m: Mem, c: u64, imageBase: u64, funcStart: u64): (r: Option<Num>)
    ensures r.Some? ==> 0 <= r.value.v < TWO_64
  {
    match Byte(m, c)
    case None => None
    case Some(enc) =>
      if enc == OMIT then Some(Num(funcStart, SatAdd(c, 1)))
      else
        match Encoded(m, SatAdd(c, 1), enc)
        case None => None
        case Some(raw) =>
          match Applied(m, enc, raw.v, SatAdd(c, 1), imageBase, funcStart)
          case None => None
          case Some(base) => Some(Num(if base == 0 then funcStart else base, raw.next))
  }

  function ReadTypeBase(m: Mem, c: u64, enc: u8): (r: Option<Num>)
    ensures r.Some? ==> 0 <= r.value.v < TWO_64
  {
    if enc == OMIT then Some(Num(0, c))
    else
      match ReadField(m, c, ULEB128)
      case None => None
      case Some(off) => Some(Num(SatAdd(off.next, off.v), off.next))
  }

  function TypesOf(m: Mem, h: Head, imageBase: u64, funcStart: u64, thrown: Option<u64>): Types {
    Types(m, h.typeBase, h.typeEnc, imageBase, funcStart, thrown)
  }

  /** The whole search. */
  function Search(m: Mem, lsda: u64, imageBase: u64, funcStart: u64, pc: u64, thrown: Option<u64>): Option<LandingPad> {
    match ReadHead(m, lsda, imageBase, funcStart)
    case None => None
    case Some(h) => Scan(TypesOf(m, h, imageBase, funcStart, thrown), h, h.first, pc)
  }

  /** `find_landing_pad_ex`. */
  method FindLandingPad(m: Mem, lsda: u64, imageBase: u64, funcStart: u64, pc: u64, thrown: Option<u64>)
    returns (r: Option<LandingPad>)
    ensures r == Search(m, lsda, imageBase, funcStart, pc, thrown)
  {
    var head := ReadHead(m, lsda, imageBase, funcStart);
    if head.None? { return None; }
    var h := head.value;
    var types := TypesOf(m, h, imageBase, funcStart, thrown);
    var c: u64 := h.first;
    while c < h.end
      invariant Scan(types, h, c, pc) == Scan(types, h, h.first, pc)
      decreases h.end - c
    {
      var site := ReadSite(m, c, h.format);
      if site.None? { return None; }
      var s := site.value;
      if Candidate(h, s.start, s.len, s.pad, s.action, pc) {
        var sw := MatchAction(types, h.end, s.action);
        if sw.Some? { return Some(LandingPad(PadVa(h.lpBase, h.format == ABSPTR, s.pad), s.action, sw.value)); }
      }
      c := s.next;
    }
    return None;
  }
}
