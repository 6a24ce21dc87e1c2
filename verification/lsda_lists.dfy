/** Lists of call sites and action records, their serialised form, and the agreement of the search
    in the bytes with a search of the lists. */
module LsdaLists {
  import opened Words
  import opened Memory
  import opened Leb128
  import opened Lsda

  /** An action record: a filter, and the record it links to. */
  datatype Record = Record(filter: int, link: Option<nat>)

  /** A call site; `action` is the record its chain starts with. */
  datatype Site = Site(start: nat, len: nat, pad: nat, action: Option<nat>)

  // ---- searching the lists -------------------------------------------------------------

  /** Filters along a chain, `left` records at most. */
  function Chain(recs: seq<Record>, i: nat, left: nat): seq<int>
    decreases left, i
  {
    if left == 0 || i >= |recs| then []
    else [recs[i].filter] + (if recs[i].link.Some? then Chain(recs, recs[i].link.value, left - 1) else [])
  }

  /** What the chain of a site selects, when the site is one to look at. */
  function Handles(types: Types, h: Head, recs: seq<Record>, s: Site, pc: u64): Option<int> {
    if s.action.Some? && Candidate(h, s.start, s.len, s.pad, 1, pc)
    then Select(JudgementOf(types), Chain(recs, s.action.value, MAX_RECORDS))
    else None
  }

  /** The first site that handles the exception. */
  function FirstHandler(types: Types, h: Head, recs: seq<Record>, sites: seq<Site>, pc: u64): (r: Option<nat>)
    ensures r.Some? ==> r.value < |sites| && Handles(types, h, recs, sites[r.value], pc).Some?
    ensures forall i :: 0 <= i < |sites| && (r.Some? ==> i < r.value) ==> Handles(types, h, recs, sites[i], pc).None?
  {
    if sites == [] then None
    else if Handles(types, h, recs, sites[0], pc).Some? then Some(0)
    else
      match FirstHandler(types, h, recs, sites[1..], pc)
      case None => None
      case Some(i) => Some(i + 1)
  }

  /** A site covers the addresses of its range and the one just after it, where a call that is the
      last instruction of the range returns to. */
  lemma CoversReturnAddress(lpBase: u64, abs: bool, start: nat, len: nat, pc: u64)
    requires (if abs then 0 else lpBase) + start + len < TWO_64 && pc > 0
    ensures var lo := (if abs then 0 else lpBase) + start;
            SiteCovers(lpBase, abs, start, len, pc) <==> len > 0 && lo <= pc <= lo + len
  {
  }

  // ---- action records in memory --------------------------------------------------------

  /** Distance from a record's link field to the record it links to; zero ends the chain. */
  function Displacement(recs: seq<Record>, offs: seq<nat>, i: nat): int
    requires i < |recs| == |offs|
  {
    var link := recs[i].link;
    if link.Some? && link.value < |offs| then offs[link.value] - offs[i] - |EncodeSleb(recs[i].filter)| else 0
  }

  function RecordBytes(recs: seq<Record>, offs: seq<nat>, i: nat): Bytes
    requires i < |recs| == |offs|
  {
    EncodeSleb(recs[i].filter) + EncodeSleb(Displacement(recs, offs, i))
  }

  /** Record `i` is stored `offs[i]` bytes into the action table. */
  ghost predicate RecordAt(m: Mem, table: u64, recs: seq<Record>, offs: seq<nat>, i: nat)
    requires i < |recs| == |offs|
  {
    var d := Displacement(recs, offs, i);
    && SlebFits(recs[i].filter, MAX_BYTES) && SlebFits(d, MAX_BYTES)
    && (recs[i].link.Some? ==> d != 0)
    && Stored(m, table + offs[i], RecordBytes(recs, offs, i))
    && table + offs[i] + |RecordBytes(recs, offs, i)| < TWO_63
  }

  /** Links lead to records. */
  ghost predicate Closed(recs: seq<Record>) {
    forall i :: 0 <= i < |recs| && recs[i].link.Some? ==> recs[i].link.value < |recs|
  }

  ghost predicate Laid(m: Mem, table: u64, recs: seq<Record>, offs: seq<nat>) {
    && table > 0 && |recs| == |offs| && Closed(recs)
    && (forall i :: 0 <= i < |offs| ==> offs[i] < TWO_63)
    && forall i :: 0 <= i < |recs| ==> RecordAt(m, table, recs, offs, i)
  }

  lemma RecordReads(m: Mem, table: u64, recs: seq<Record>, offs: seq<nat>, i: nat)
    requires Laid(m, table, recs, offs) && i < |recs|
    ensures SatAdd(table, SatSub(offs[i] + 1, 1)) == table + offs[i]
    ensures var r := ReadRecord(m, table + offs[i]);
            && r.Some? && r.value.filter == recs[i].filter
            && Follow(table, r.value) ==
               if recs[i].link.Some? then Some(offs[recs[i].link.value] + 1) else None
  {
    assert RecordAt(m, table, recs, offs, i);
    var f, d := EncodeSleb(recs[i].filter), EncodeSleb(Displacement(recs, offs, i));
    StoredSplit(m, table + offs[i], f, d);
    SlebRoundTrip(m, table + offs[i], recs[i].filter, MAX_BYTES);
    SlebRoundTrip(m, table + offs[i] + |f|, Displacement(recs, offs, i), MAX_BYTES);
    if recs[i].link.Some? { assert RecordAt(m, table, recs, offs, recs[i].link.value); }
  }

  /** Walking the records in memory selects what the chain of filters selects. */
  lemma {:induction false} WalkIsSelect(
    m: Mem, judge: Judgement, table: u64, recs: seq<Record>, offs: seq<nat>, i: nat, seen: Option<int>, left: nat)
    requires Laid(m, table, recs, offs) && i < |recs|
    ensures Walk(m, judge, table, offs[i] + 1, seen, left) == Choose(judge, Chain(recs, i, left), seen)
    decreases left
  {
    if left > 0 {
      RecordTurn(m, judge, table, recs, offs, i, seen, left);
      var r := recs[i];
      var rest := if r.link.Some? then Chain(recs, r.link.value, left - 1) else [];
      assert Chain(recs, i, left) == [r.filter] + rest;
      ChooseCons(judge, r.filter, rest, seen);
      if r.link.Some? && judge(r.filter) != Match {
        WalkIsSelect(m, judge, table, recs, offs, r.link.value, Noted(judge, r.filter, seen), left - 1);
      }
    }
  }

  /** One record of the walk. */
  lemma WalkTurn(m: Mem, judge: Judgement, table: u64, idx: u64, seen: Option<int>, left: nat, r: RecordRead)
    requires left > 0 && ReadRecord(m, SatAdd(table, SatSub(idx, 1))) == Some(r)
    ensures Walk(m, judge, table, idx, seen, left) ==
              if judge(r.filter) == Match then Some(r.filter)
              else
                match Follow(table, r)
                case None => Noted(judge, r.filter, seen)
                case Some(next) => Walk(m, judge, table, next, Noted(judge, r.filter, seen), left - 1)
  {
  }

  lemma RecordTurn(
    m: Mem, judge: Judgement, table: u64, recs: seq<Record>, offs: seq<nat>, i: nat, seen: Option<int>, left: nat)
    requires Laid(m, table, recs, offs) && i < |recs| && left > 0
    ensures var f, link := recs[i].filter, recs[i].link;
            Walk(m, judge, table, offs[i] + 1, seen, left) ==
              if judge(f) == Match then Some(f)
              else if link.Some? then Walk(m, judge, table, offs[link.value] + 1, Noted(judge, f, seen), left - 1)
              else Noted(judge, f, seen)
  {
    RecordReads(m, table, recs, offs, i);
    WalkTurn(m, judge, table, offs[i] + 1, seen, left, ReadRecord(m, table + offs[i]).value);
  }

  lemma ChooseCons(judge: Judgement, f: int, rest: seq<int>, seen: Option<int>)
    ensures Choose(judge, [f] + rest, seen) ==
              if judge(f) == Match then Some(f) else Choose(judge, rest, Noted(judge, f, seen))
  {
    assert ([f] + rest)[1..] == rest;
  }

  // ---- call sites in memory ------------------------------------------------------------

  /** The number a fixed-width format stores so that `raw` is read back, if there is one. */
  function Packed(format: int, raw: u64): Option<nat> {
    if format == ABSPTR || format == UDATA8 then Some(raw)
    else if format == SDATA8 then (if raw < TWO_63 || raw == MAX_U64 then Some(raw) else None)
    else if format == UDATA4 then (if raw < TWO_32 then Some(raw) else None)
    else if format == UDATA2 then (if raw < 0x1_0000 then Some(raw) else None)
    else if format == SDATA4 then
      (if raw < 0x8000_0000 then Some(raw)
       else if raw >= TWO_64 - 0x8000_0000 then Some(raw - (TWO_64 - TWO_32)) else None)
    else if format == SDATA2 then
      (if raw < 0x8000 then Some(raw)
       else if raw >= TWO_64 - 0x8000 then Some(raw - (TWO_64 - 0x1_0000)) else None)
    else None
  }

  lemma PackedExtends(format: int, raw: u64)
    requires Packed(format, raw).Some?
    ensures FormatSize(format) != 0 && Packed(format, raw).value < Pow256(FormatSize(format))
    ensures Extend(format, Packed(format, raw).value) == raw
  {
    assert Pow256(2) == 0x1_0000 && Pow256(4) == TWO_32 && Pow256(8) == TWO_64;
  }

  lemma PackedReads(m: Mem, slot: u64, format: int, raw: u64)
    requires 0 <= format < 0x10 && Packed(format, raw).Some? && Mapped(m, slot, FormatSize(format))
    requires Slice(m, slot, FormatSize(format)) == LE(Packed(format, raw).value, FormatSize(format))
    ensures Encoded(m, slot, format) == Some(Num(raw, SatAdd(slot, FormatSize(format))))
  {
    PackedExtends(format, raw);
    FromLELE(Packed(format, raw).value, FormatSize(format));
  }

  /** Eight-byte signed values read back if and only if they are not negative, or minus one. */
  lemma Sdata8Exactly(m: Mem, slot: u64, raw: u64)
    requires Mapped(m, slot, 8) && Slice(m, slot, 8) == LE(raw, 8)
    ensures var r := Encoded(m, slot, SDATA8);
            && r.Some? && r.value.v == (if raw < TWO_63 then raw else MAX_U64)
            && (r.value.v == raw <==> raw < TWO_63 || raw == MAX_U64)
  {
    assert Pow256(8) == TWO_64;
    FromLELE(raw, 8);
  }

  function Signed(raw: u64): int { if raw < TWO_63 then raw else raw - TWO_64 }

  /** The format can hold the 64-bit value. */
  predicate RawFits(format: int, raw: nat): (fits: bool)
    ensures fits ==> raw < TWO_64
  {
    && raw < TWO_64
    && if format == ULEB128 then raw < TWO_63
       else if format == SLEB128 then SlebFits(Signed(raw), MAX_BYTES)
       else Packed(format, raw).Some?
  }

  function RawBytes(format: int, raw: nat): Bytes
    requires RawFits(format, raw)
  {
    if format == ULEB128 then EncodeUleb(raw)
    else if format == SLEB128 then EncodeSleb(Signed(raw))
    else LE(Packed(format, raw).value, FormatSize(format))
  }

  /** An encoded value reads back, in every format. */
  lemma RawReads(m: Mem, a: int, encoding: u8, raw: nat)
    requires encoding != OMIT && RawFits(encoding % 0x10, raw) && Stored(m, a, RawBytes(encoding % 0x10, raw))
    ensures Encoded(m, a, encoding) == Some(Num(raw, a + |RawBytes(encoding % 0x10, raw)|))
  {
    var format := encoding % 0x10;
    Limits();
    if format == ULEB128 {
      UlebRoundTrip(m, a, raw, MAX_BYTES);
    } else if format == SLEB128 {
      SlebRoundTrip(m, a, Signed(raw), MAX_BYTES);
    } else {
      PackedExtends(format, raw);
      PackedReads(m, a, format, raw);
    }
  }

  /** Formats a call-site table may use. */
  predicate Usable(format: int) {
    format == ULEB128 || FormatSize(format) != 0
  }

  function ActionIndex(offs: seq<nat>, s: Site): nat {
    if s.action.Some? && s.action.value < |offs| then offs[s.action.value] + 1 else 0
  }

  predicate SiteFits(format: int, offs: seq<nat>, s: Site) {
    && RawFits(format, s.start) && RawFits(format, s.len) && RawFits(format, s.pad)
    && ActionIndex(offs, s) < TWO_63 && (s.action.Some? ==> s.action.value < |offs|)
  }

  function SiteBytes(format: int, offs: seq<nat>, s: Site): Bytes
    requires SiteFits(format, offs, s)
  {
    RawBytes(format, s.start) + (RawBytes(format, s.len) + (RawBytes(format, s.pad) + EncodeUleb(ActionIndex(offs, s))))
  }

  function SitesBytes(format: int, offs: seq<nat>, sites: seq<Site>): Bytes
    requires forall s :: s in sites ==> SiteFits(format, offs, s)
  {
    if sites == [] then [] else SiteBytes(format, offs, sites[0]) + SitesBytes(format, offs, sites[1..])
  }

  lemma FieldReads(m: Mem, a: int, format: int, v: nat)
    requires 0 <= format < 0x10 && Usable(format) && RawFits(format, v) && Stored(m, a, RawBytes(format, v))
    ensures ReadField(m, a, format) == Some(Num(v, a + |RawBytes(format, v)|))
  {
    RawReads(m, a, format, v);
  }

  lemma SiteReads(m: Mem, a: int, format: int, offs: seq<nat>, s: Site)
    requires 0 <= format < 0x10 && Usable(format) && SiteFits(format, offs, s) && Stored(m, a, SiteBytes(format, offs, s))
    ensures ReadSite(m, a, format) ==
              Some(SiteRead(s.start, s.len, s.pad, ActionIndex(offs, s), a + |SiteBytes(format, offs, s)|))
  {
    var w, x := RawBytes(format, s.start), RawBytes(format, s.len);
    var y, z := RawBytes(format, s.pad), EncodeUleb(ActionIndex(offs, s));
    StoredSplit(m, a, w, x + (y + z));
    StoredSplit(m, a + |w|, x, y + z);
    StoredSplit(m, a + |w| + |x|, y, z);
    FieldReads(m, a, format, s.start);
    FieldReads(m, a + |w|, format, s.len);
    FieldReads(m, a + |w| + |x|, format, s.pad);
    FieldReads(m, a + |w| + |x| + |y|, ULEB128, ActionIndex(offs, s));
  }

  /** What the search of the lists answers. */
  function Answer(types: Types, h: Head, recs: seq<Record>, offs: seq<nat>, sites: seq<Site>, pc: u64): Option<LandingPad> {
    match FirstHandler(types, h, recs, sites, pc)
    case None => None
    case Some(i) =>
      Some(LandingPad(
             PadVa(h.lpBase, h.format == ABSPTR, sites[i].pad), ActionIndex(offs, sites[i]),
             Handles(types, h, recs, sites[i], pc).value))
  }

  lemma AnswerCons(types: Types, h: Head, recs: seq<Record>, offs: seq<nat>, sites: seq<Site>, pc: u64)
    requires sites != []
    ensures var sw := Handles(types, h, recs, sites[0], pc);
            Answer(types, h, recs, offs, sites, pc) ==
              if sw.Some?
              then Some(LandingPad(PadVa(h.lpBase, h.format == ABSPTR, sites[0].pad), ActionIndex(offs, sites[0]), sw.value))
              else Answer(types, h, recs, offs, sites[1..], pc)
  {
  }

  lemma ScanTurn(types: Types, h: Head, c: u64, pc: u64, s: SiteRead, sw: Option<int>)
    requires c < h.end && ReadSite(types.m, c, h.format) == Some(s)
    requires sw == if Candidate(h, s.start, s.len, s.pad, s.action, pc)
                   then Walk(types.m, JudgementOf(types), h.end, s.action, None, MAX_RECORDS) else None
    ensures Scan(types, h, c, pc) ==
              if sw.Some? then Some(LandingPad(PadVa(h.lpBase, h.format == ABSPTR, s.pad), s.action, sw.value))
              else Scan(types, h, s.next, pc)
  {
  }

  /** One turn of the scan, over the site `s`. */
  lemma ScanSite(
    types: Types, h: Head, recs: seq<Record>, offs: seq<nat>, s: Site, c: u64, pc: u64, r: SiteRead, sw: Option<int>)
    requires 0 <= h.format < 0x10 && Usable(h.format) && Laid(types.m, h.end, recs, offs)
    requires SiteFits(h.format, offs, s) && Stored(types.m, c, SiteBytes(h.format, offs, s)) && c < h.end
    requires r == SiteRead(s.start, s.len, s.pad, ActionIndex(offs, s), c + |SiteBytes(h.format, offs, s)|)
    requires sw == Handles(types, h, recs, s, pc)
    ensures Scan(types, h, c, pc) ==
              if sw.Some? then Some(LandingPad(PadVa(h.lpBase, h.format == ABSPTR, r.pad), r.action, sw.value))
              else Scan(types, h, r.next, pc)
  {
    SiteReads(types.m, c, h.format, offs, s);
    SiteDecides(types, h, recs, offs, s, pc);
    ScanTurn(types, h, c, pc, r, sw);
  }

  /** Scanning the serialised call sites is searching the list. */
  lemma {:induction false} ScanIsSearch(types: Types, h: Head, recs: seq<Record>, offs: seq<nat>, sites: seq<Site>, c: u64, pc: u64)
    requires 0 <= h.format < 0x10 && Usable(h.format) && Laid(types.m, h.end, recs, offs)
    requires forall s :: s in sites ==> SiteFits(h.format, offs, s)
    requires Stored(types.m, c, SitesBytes(h.format, offs, sites)) && c + |SitesBytes(h.format, offs, sites)| == h.end
    ensures Scan(types, h, c, pc) == Answer(types, h, recs, offs, sites, pc)
    decreases |sites|
  {
    if sites != [] {
      var s, rest := sites[0], sites[1..];
      assert s in sites && forall r :: r in rest ==> r in sites;
      var x, y := SiteBytes(h.format, offs, s), SitesBytes(h.format, offs, rest);
      StoredSplit(types.m, c, x, y);
      SiteLen(h.format, offs, s);
      var r := SiteRead(s.start, s.len, s.pad, ActionIndex(offs, s), c + |x|);
      ScanSite(types, h, recs, offs, s, c, pc, r, Handles(types, h, recs, s, pc));
      AnswerCons(types, h, recs, offs, sites, pc);
      ScanIsSearch(types, h, recs, offs, rest, c + |x|, pc);
    }
  }

  lemma SiteLen(format: int, offs: seq<nat>, s: Site)
    requires SiteFits(format, offs, s)
    ensures |SiteBytes(format, offs, s)| > 0
  {
  }

  /** One site: looked at and selected from in the bytes exactly when in the lists. */
  lemma SiteDecides(types: Types, h: Head, recs: seq<Record>, offs: seq<nat>, s: Site, pc: u64)
    requires Laid(types.m, h.end, recs, offs) && SiteFits(h.format, offs, s)
    ensures var action := ActionIndex(offs, s);
            Handles(types, h, recs, s, pc) ==
              if Candidate(h, s.start, s.len, s.pad, action, pc)
              then Walk(types.m, JudgementOf(types), h.end, action, None, MAX_RECORDS) else None
  {
    if s.action.Some? { WalkIsSelect(types.m, JudgementOf(types), h.end, recs, offs, s.action.value, None, MAX_RECORDS); }
  }

  // ---- the type table ------------------------------------------------------------------

  /** What an encoded pointer is relative to. */
  function RelativeTo(encoding: u8, slot: u64, imageBase: u64, funcStart: u64): u64 {
    var app := encoding / 0x10 % 8;
    if app == 1 then slot else if app == 2 || app == 3 then imageBase else if app == 4 then funcStart else 0
  }

  /** The type table holds, as entry `index` below `base`, a pointer to `target` in this encoding. */
  ghost predicate TypeEntry(m: Mem, base: u64, encoding: u8, index: nat, imageBase: u64, funcStart: u64, target: u64) {
    var format, size := encoding % 0x10, FormatSize(encoding % 0x10);
    && encoding != OMIT && index > 0 && index * size <= base
    && (var slot := base - index * size;
        var packed := Packed(format, WrapSub(target, RelativeTo(encoding, slot, imageBase, funcStart)));
        packed.Some? && Mapped(m, slot, size) && Slice(m, slot, size) == LE(packed.value, size))
  }

  /** Adding the base undoes taking it away. */
  lemma RelativeApplies(m: Mem, encoding: u8, target: u64, slot: u64, imageBase: u64, funcStart: u64)
    requires encoding != OMIT
    ensures var rel := RelativeTo(encoding, slot, imageBase, funcStart);
            Applied(m, encoding, WrapSub(target, rel), slot, imageBase, funcStart) ==
              if target == rel then Some(0)
              else if encoding >= 0x80 && target != 0 then LoadLE(m, target, 8)
              else Some(target)
  {
  }

  /** A type-table entry resolves to what it points to, through one indirection if it asks for one;
      an entry whose stored value is zero stands for no type. */
  lemma TypeEntryResolves(m: Mem, base: u64, encoding: u8, index: nat, imageBase: u64, funcStart: u64, target: u64)
    requires TypeEntry(m, base, encoding, index, imageBase, funcStart, target)
    ensures var slot := base - index * FormatSize(encoding % 0x10);
            ResolveType(m, base, encoding, index, imageBase, funcStart) ==
              if target == RelativeTo(encoding, slot, imageBase, funcStart) then Some(0)
              else if encoding >= 0x80 && target != 0 then LoadLE(m, target, 8)
              else Some(target)
  {
    var slot: u64 := base - index * FormatSize(encoding % 0x10);
    var raw := WrapSub(target, RelativeTo(encoding, slot, imageBase, funcStart));
    PackedExtends(encoding % 0x10, raw);
    PackedReads(m, slot, encoding % 0x10, raw);
    RelativeApplies(m, encoding, target, slot, imageBase, funcStart);
  }

  // ---- the whole table -----------------------------------------------------------------

  /** Where the tables of a function are, and what encoded pointers may be relative to. */
  datatype Place = Place(lsda: u64, imageBase: u64, funcStart: u64)

  /** The landing-pad base of a function: an encoding, and what it points to. */
  datatype Start = Start(enc: u8, target: u64) {
    function Raw(p: Place): u64
      requires p.lsda + 1 < TWO_64
    {
      WrapSub(target, RelativeTo(enc, p.lsda + 1, p.imageBase, p.funcStart))
    }

    predicate Fits(p: Place) {
      enc == OMIT || (p.lsda + 1 < TWO_64 && RawFits(enc % 0x10, Raw(p)))
    }

    function Bytes(p: Place): seq<u8>
      requires Fits(p)
    {
      if enc == OMIT then [] else RawBytes(enc % 0x10, Raw(p))
    }

    /** The base it stands for: what it points to, through one indirection if it asks for one; the
        function's start when it is left out or comes to zero. */
    function Base(m: Mem, p: Place): Option<u64>
      requires Fits(p)
    {
      if enc == OMIT || Raw(p) == 0 then Some(p.funcStart)
      else
        match if enc >= 0x80 && target != 0 then LoadLE(m, target, 8) else Some(target)
        case None => None
        case Some(base) => Some(if base == 0 then p.funcStart else base)
    }
  }

  function TypeField(enc: u8, off: nat): Bytes { if enc == OMIT then [] else EncodeUleb(off) }

  /** The header after the landing-pad base, for `len` bytes of call sites. */
  function RestBytes(typeEnc: u8, typeOff: nat, csEnc: u8, len: nat): Bytes {
    [typeEnc] + (TypeField(typeEnc, typeOff) + ([csEnc] + EncodeUleb(len)))
  }

  /** The tables of one function: its landing-pad base, an optional type table `typeOff` bytes on,
      and call sites in the format `csEnc` selects. */
  datatype Tables = Tables(
    start: Start, typeEnc: u8, typeOff: nat, csEnc: u8, sites: seq<Site>, recs: seq<Record>, offs: seq<nat>)
  {
    function Format(): (f: int)
      ensures 0 <= f < 0x10
    {
      csEnc % 0x10
    }

    predicate SitesFit() { forall s :: s in sites ==> SiteFits(Format(), offs, s) }

    function Sites(): Bytes
      requires SitesFit()
    {
      SitesBytes(Format(), offs, sites)
    }

    function Rest(): Bytes
      requires SitesFit()
    {
      RestBytes(typeEnc, typeOff, csEnc, |Sites()|)
    }

    function Header(p: Place): Bytes
      requires SitesFit() && start.Fits(p)
    {
      ([start.enc] + start.Bytes(p)) + Rest()
    }

    predicate Fits(p: Place) {
      SitesFit() && start.Fits(p) && Usable(Format()) && typeOff < TWO_63 && |Sites()| < TWO_63
    }

    /** What the header says, for the given landing-pad base, when the rest of it is at `c`. */
    function HeadFrom(c: int, base: u64): Head
      requires SitesFit() && 0 <= c && c + |Rest()| + |Sites()| < TWO_64
    {
      var typeBase := if typeEnc == OMIT then 0 else Sat(c + 1 + |TypeField(typeEnc, typeOff)| + typeOff);
      Head(base, typeEnc, typeBase, Format(), c + |Rest()|, c + |Rest()| + |Sites()|)
    }

    function HeadAt(p: Place, base: u64): Head
      requires SitesFit() && start.Fits(p) && p.lsda + |Header(p)| + |Sites()| < TWO_64
    {
      HeadFrom(p.lsda + 1 + |start.Bytes(p)|, base)
    }
  }

  /** The landing-pad base reads back in every encoding. */
  lemma StartReads(m: Mem, st: Start, p: Place)
    requires st.Fits(p) && Stored(m, p.lsda, [st.enc] + st.Bytes(p))
    ensures ReadLpBase(m, p.lsda, p.imageBase, p.funcStart) ==
              match st.Base(m, p) case None => None case Some(b) => Some(Num(b, p.lsda + 1 + |st.Bytes(p)|))
  {
    StoredSplit(m, p.lsda, [st.enc], st.Bytes(p));
    StoredFirst(m, p.lsda, [st.enc]);
    if st.enc != OMIT {
      RawReads(m, p.lsda + 1, st.enc, st.Raw(p));
      RelativeApplies(m, st.enc, st.target, p.lsda + 1, p.imageBase, p.funcStart);
    }
  }

  lemma RestParts(m: Mem, typeEnc: u8, typeOff: nat, csEnc: u8, len: nat, c: u64)
    requires Stored(m, c, RestBytes(typeEnc, typeOff, csEnc, len))
    ensures var field, n := TypeField(typeEnc, typeOff), |TypeField(typeEnc, typeOff)|;
            && Byte(m, c) == Some(typeEnc) && Byte(m, c + 1 + n) == Some(csEnc)
            && Stored(m, c + 1, field) && Stored(m, c + 2 + n, EncodeUleb(len))
            && |RestBytes(typeEnc, typeOff, csEnc, len)| == 2 + n + |EncodeUleb(len)|
  {
    var field, size := TypeField(typeEnc, typeOff), EncodeUleb(len);
    StoredSplit(m, c, [typeEnc], field + ([csEnc] + size));
    StoredFirst(m, c, [typeEnc]);
    StoredSplit(m, c + 1, field, [csEnc] + size);
    StoredSplit(m, c + 1 + |field|, [csEnc], size);
    StoredFirst(m, c + 1 + |field|, [csEnc]);
  }

  lemma TypeBaseReads(m: Mem, c: u64, enc: u8, off: nat)
    requires Stored(m, c, TypeField(enc, off)) && off < TWO_63
    ensures var n := c + |TypeField(enc, off)|;
            ReadTypeBase(m, c, enc) == Some(Num(if enc == OMIT then 0 else Sat(n + off), n))
  {
    Limits();
    if enc != OMIT { UlebRoundTrip(m, c, off, MAX_BYTES); }
  }

  lemma LengthReads(m: Mem, c: u64, v: nat)
    requires v < TWO_63 && Stored(m, c, EncodeUleb(v))
    ensures ReadField(m, c, ULEB128) == Some(Num(v, c + |EncodeUleb(v)|))
  {
    Limits();
    UlebRoundTrip(m, c, v, MAX_BYTES);
  }

  /** The header after the landing-pad base reads back. */
  lemma RestReads(m: Mem, typeEnc: u8, typeOff: nat, csEnc: u8, len: nat, c: u64, lpBase: u64)
    requires typeOff < TWO_63 && len < TWO_63 && Stored(m, c, RestBytes(typeEnc, typeOff, csEnc, len))
    ensures var first := c + |RestBytes(typeEnc, typeOff, csEnc, len)|;
            var typeBase := if typeEnc == OMIT then 0 else Sat(c + 1 + |TypeField(typeEnc, typeOff)| + typeOff);
            ReadRest(m, c, lpBase) ==
              if len == 0 then None else Some(Head(lpBase, typeEnc, typeBase, csEnc % 0x10, first, SatAdd(first, len)))
  {
    RestParts(m, typeEnc, typeOff, csEnc, len, c);
    TypeBaseReads(m, c + 1, typeEnc, typeOff);
    LengthReads(m, c + 2 + |TypeField(typeEnc, typeOff)|, len);
  }

  lemma TailReads(m: Mem, t: Tables, c: u64, lpBase: u64)
    requires t.SitesFit() && t.typeOff < TWO_63 && |t.Sites()| < TWO_63 && Stored(m, c, t.Rest() + t.Sites())
    ensures ReadRest(m, c, lpBase) == if t.Sites() == [] then None else Some(t.HeadFrom(c, lpBase))
  {
    StoredSplit(m, c, t.Rest(), t.Sites());
    RestReads(m, t.typeEnc, t.typeOff, t.csEnc, |t.Sites()|, c, lpBase);
  }

  lemma StoredRegroup(m: Mem, a: int, x: Bytes, y: Bytes, z: Bytes)
    requires Stored(m, a, (x + y) + z)
    ensures Stored(m, a, x) && Stored(m, a + |x|, y + z)
  {
    assert (x + y) + z == x + (y + z);
    StoredSplit(m, a, x, y + z);
  }

  lemma HeaderReads(m: Mem, t: Tables, p: Place)
    requires t.Fits(p) && Stored(m, p.lsda, t.Header(p) + t.Sites())
    ensures ReadHead(m, p.lsda, p.imageBase, p.funcStart) ==
              match t.start.Base(m, p)
              case None => None
              case Some(base) => if t.Sites() == [] then None else Some(t.HeadAt(p, base))
  {
    var c := p.lsda + 1 + |t.start.Bytes(p)|;
    StoredRegroup(m, p.lsda, [t.start.enc] + t.start.Bytes(p), t.Rest(), t.Sites());
    StartReads(m, t.start, p);
    var lp := ReadLpBase(m, p.lsda, p.imageBase, p.funcStart);
    if lp.Some? {
      assert lp.value.next == c;
      TailReads(m, t, c, lp.value.v);
    }
  }

  /** The head of the tables: the sites follow the header, and the action table follows the sites. */
  lemma HeadPlaces(t: Tables, p: Place, base: u64)
    requires t.Fits(p) && p.lsda + |t.Header(p)| + |t.Sites()| < TWO_64
    ensures var h := t.HeadAt(p, base);
            && h.format == t.Format() && h.first == p.lsda + |t.Header(p)| && h.end == h.first + |t.Sites()|
  {
  }

  lemma SitesFound(t: Tables, types: Types, h: Head, pc: u64)
    requires t.SitesFit() && Usable(t.Format()) && h.format == t.Format() && Stored(types.m, h.first, t.Sites())
    requires h.first + |t.Sites()| == h.end && Laid(types.m, h.end, t.recs, t.offs)
    ensures Scan(types, h, h.first, pc) == Answer(types, h, t.recs, t.offs, t.sites, pc)
  {
    ScanIsSearch(types, h, t.recs, t.offs, t.sites, h.first, pc);
  }

  /** On the bytes of any tables, with or without a landing-pad base of their own and in any usable
      call-site format, the search finds exactly what a search of the lists finds. */
  lemma LandingPadOnBytes(m: Mem, t: Tables, p: Place, pc: u64, thrown: Option<u64>)
    requires t.Fits(p) && Stored(m, p.lsda, t.Header(p) + t.Sites())
    requires Laid(m, p.lsda + |t.Header(p)| + |t.Sites()|, t.recs, t.offs)
    ensures Search(m, p.lsda, p.imageBase, p.funcStart, pc, thrown) ==
              match t.start.Base(m, p)
              case None => None
              case Some(base) =>
                var h := t.HeadAt(p, base);
                Answer(TypesOf(m, h, p.imageBase, p.funcStart, thrown), h, t.recs, t.offs, t.sites, pc)
  {
    HeaderReads(m, t, p);
    StoredSplit(m, p.lsda, t.Header(p), t.Sites());
    var base := t.start.Base(m, p);
    if base.Some? {
      var h := t.HeadAt(p, base.value);
      HeadPlaces(t, p, base.value);
      SitesFound(t, TypesOf(m, h, p.imageBase, p.funcStart, thrown), h, pc);
    }
  }
}
