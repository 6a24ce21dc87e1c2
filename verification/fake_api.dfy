/** Fake API addresses: the packed kind and payload format, the table of imports without a dense
    id, and the resolution of imports to addresses and back. */
module FakeApi {
  import opened Words
  import Bits

  const BASE: u64 := 0x7000_0000_0000
  const WINDOW := 0x40_0000
  const ID_COUNT := 305
  const SOFT_BASE := 0x8000

  const KIND_EXPORT: Kind := 0
  const KIND_COM: Kind := 1
  const KIND_SPECIAL: Kind := 2
  const KIND_SOFT: Kind := 3

  type Kind = x: int | 0 <= x < 4
  type ApiId = x: int | 0 <= x < 305

  datatype FakeVa =
    | Export(id: ApiId)
    | Alias(id: ApiId)
    | Unresolved(index: u16)
    | Com(iface: u8, mtd: u8)
    | Special(special: u16)

  // ---- the address format --------------------------------------------------------------

  lemma FieldWidths()
    ensures Bits.Pow2(20) == 0x10_0000 && Bits.Pow2(22) == 0x40_0000
  {
    assert Bits.Pow2(5) == 0x20;
    Bits.Pow2Add(5, 5);
    Bits.Pow2Add(10, 10);
    Bits.Pow2Add(20, 2);
  }

  lemma AddKind(q: nat, kind: Kind)
    ensures Bits.Or(0x40_0000 * q, kind * 0x10_0000) == 0x10_0000 * (4 * q + kind)
  {
    FieldWidths();
    Bits.OrIsSum(q, kind * 0x10_0000, 22);
  }

  lemma AddPayload(q: nat, payload: u16)
    ensures Bits.Or(0x10_0000 * q, payload * 0x10) == 0x10_0000 * q + payload * 0x10
  {
    FieldWidths();
    Bits.OrIsSum(q, payload * 0x10, 20);
  }

  /** The three fields do not overlap, so that combining them is adding them. */
  lemma FieldsDoNotOverlap(q: nat, kind: Kind, payload: u16)
    ensures Bits.Or(Bits.Or(0x40_0000 * q, kind * 0x10_0000), payload * 0x10)
            == 0x40_0000 * q + kind * 0x10_0000 + payload * 0x10
  {
    AddKind(q, kind);
    AddPayload(4 * q + kind, payload);
  }

  /** Kind and payload combined bitwise with a base that is a multiple of the window. */
  function Combined(q: nat, kind: Kind, payload: u16): (v: nat)
    ensures v == 0x40_0000 * q + kind * 0x10_0000 + payload * 0x10
  {
    FieldsDoNotOverlap(q, kind, payload);
    Bits.Or(Bits.Or(0x40_0000 * q, kind * 0x10_0000), payload * 0x10)
  }

  /** `encode`. */
  function Encode(kind: Kind, payload: u16): (va: u64)
    ensures va == BASE + kind * 0x10_0000 + payload * 0x10
  {
    Combined(BASE / 0x40_0000, kind, payload)
  }

  function KindOf(f: FakeVa): Kind {
    match f
    case Export(_) => KIND_EXPORT
    case Com(_, _) => KIND_COM
    case Special(_) => KIND_SPECIAL
    case _ => KIND_SOFT
  }

  /** Unresolved indices use the upper half of the soft payloads. */
  function PayloadOf(f: FakeVa): u16 {
    match f
    case Export(id) => id
    case Alias(id) => id
    case Unresolved(i) => SOFT_BASE + i % 0x8000
    case Com(iface, mtd) => iface * 0x100 + mtd
    case Special(id) => id
  }

  /** The address of a decoded value: `encode_export` and its kin. */
  function Address(f: FakeVa): u64 {
    Encode(KindOf(f), PayloadOf(f))
  }

  function DecodeFields(kind: Kind, payload: u16): Option<FakeVa> {
    if kind == KIND_EXPORT then (if payload < ID_COUNT then Some(Export(payload)) else None)
    else if kind == KIND_COM then Some(Com(payload / 0x100, payload % 0x100))
    else if kind == KIND_SPECIAL then Some(Special(payload))
    else if payload >= SOFT_BASE then Some(Unresolved(payload - SOFT_BASE))
    else if payload < ID_COUNT then Some(Alias(payload))
    else None
  }

  function Decode(va: u64): Option<FakeVa> {
    if va < BASE || va - BASE >= WINDOW || (va - BASE) % 0x10 != 0 then None
    else
      var off := va - BASE;
      DecodeFields(off / 0x10_0000 % 4, off / 0x10 % 0x1_0000)
  }

  lemma DecodeSum(kind: Kind, payload: u16, va: u64)
    requires va == BASE + kind * 0x10_0000 + payload * 0x10
    ensures BASE <= va < BASE + WINDOW && va % 0x10 == 0 && Decode(va) == DecodeFields(kind, payload)
  {
    assert (va - BASE) / 0x10 == kind * 0x1_0000 + payload;
  }

  /** An aligned address in the window is exactly one kind and one payload. */
  lemma DecodeEncode(kind: Kind, payload: u16)
    ensures BASE <= Encode(kind, payload) < BASE + WINDOW && Encode(kind, payload) % 0x10 == 0
    ensures Decode(Encode(kind, payload)) == DecodeFields(kind, payload)
  {
    DecodeSum(kind, payload, Encode(kind, payload));
  }

  lemma FieldsDecode(f: FakeVa)
    ensures DecodeFields(KindOf(f), PayloadOf(f)) == Some(f) <==> (f.Unresolved? ==> f.index < SOFT_BASE)
  {
    match f
    case Com(iface, mtd) => assert PayloadOf(f) / 0x100 == iface && PayloadOf(f) % 0x100 == mtd;
    case Unresolved(i) => assert PayloadOf(f) - SOFT_BASE == i <==> i < SOFT_BASE;
    case _ =>
  }

  /** Encoding then decoding gives the value back; an unresolved index must be below 0x8000. */
  lemma DecodesWhatWasEncoded(f: FakeVa)
    ensures Decode(Address(f)) == Some(f) <==> (f.Unresolved? ==> f.index < SOFT_BASE)
    ensures Address(f) % 0x10 == 0 && BASE <= Address(f) < BASE + WINDOW
  {
    FieldsDecode(f);
    DecodeEncode(KindOf(f), PayloadOf(f));
  }

  lemma FieldsEncode(kind: Kind, payload: u16)
    requires DecodeFields(kind, payload).Some?
    ensures var f := DecodeFields(kind, payload).value; KindOf(f) == kind && PayloadOf(f) == payload
  {
    if kind == KIND_COM { assert payload == payload / 0x100 * 0x100 + payload % 0x100; }
  }

  /** An aligned offset in the window is the sum of its fields. */
  lemma OffsetSplits(off: nat)
    requires off < WINDOW && off % 0x10 == 0
    ensures off == off / 0x10_0000 % 4 * 0x10_0000 + off / 0x10 % 0x1_0000 * 0x10
  {
    var units := off / 0x10;
    assert off == 0x10 * units;
    assert off / 0x10_0000 == units / 0x1_0000;
  }

  /** Every address that decodes at all is the address of what it decodes to. */
  lemma EncodesWhatWasDecoded(va: u64)
    requires Decode(va).Some?
    ensures Address(Decode(va).value) == va
  {
    var off := va - BASE;
    OffsetSplits(off);
    FieldsEncode(off / 0x10_0000 % 4, off / 0x10 % 0x1_0000);
  }

  // ---- names ---------------------------------------------------------------------------

  function Lower(c: char): char {
    if 'A' <= c <= 'Z' then c - 'A' + 'a' else c
  }

  /** ASCII lower case; two strings are equal ignoring ASCII case when these are equal. */
  function Fold(s: string): string {
    if s == "" then "" else [Lower(s[0])] + Fold(s[1..])
  }

  /** The same letter in one case or the other, or the same character. */
  predicate SameLetter(a: char, b: char) {
    || a == b
    || ('A' <= a <= 'Z' && b as int == a as int + 32)
    || ('A' <= b <= 'Z' && a as int == b as int + 32)
  }

  lemma {:induction false} FoldIgnoresCase(s: string, t: string)
    ensures Fold(s) == Fold(t) <==> |s| == |t| && forall i :: 0 <= i < |s| ==> SameLetter(s[i], t[i])
    decreases |s|
  {
    if s != "" && t != "" {
      FoldIgnoresCase(s[1..], t[1..]);
      assert Fold(s)[0] == Lower(s[0]) && Fold(s)[1..] == Fold(s[1..]) && Fold(t)[0] == Lower(t[0]) && Fold(t)[1..] == Fold(t[1..]);
      assert s == [s[0]] + s[1..] && t == [t[0]] + t[1..];
    }
  }

  datatype Import = Import(library: string, name: string) {
    function Key(): (string, string) { (Fold(library), Fold(name)) }
  }

  predicate Same(a: Import, b: Import) { a.Key() == b.Key() }

  /** A row of the static name table. */
  datatype Row = Row(api: Import, id: ApiId)

  /** Ids and names occur once in the name table. */
  ghost predicate Unique(rows: seq<Row>) {
    forall i, j :: 0 <= i < j < |rows| ==> rows[i].id != rows[j].id && !Same(rows[i].api, rows[j].api)
  }

  /** `resolve_winapi_id`. */
  function IdOf(rows: seq<Row>, api: Import): (r: Option<ApiId>)
    ensures r.Some? ==> exists i :: 0 <= i < |rows| && rows[i].id == r.value && Same(rows[i].api, api)
    ensures r.None? ==> forall i :: 0 <= i < |rows| ==> !Same(rows[i].api, api)
  {
    if rows == [] then None
    else if Same(rows[0].api, api) then Some(rows[0].id)
    else
      var r := IdOf(rows[1..], api);
      assert r.Some? ==>
          exists i :: 0 <= i < |rows| - 1 && rows[i + 1] == rows[1..][i] &&
                      rows[1..][i].id == r.value && Same(rows[1..][i].api, api);
      r
  }

  /** `winapi_id_export`. */
  function ExportOf(rows: seq<Row>, id: ApiId): Option<Import> {
    if rows == [] then None else if rows[0].id == id then Some(rows[0].api) else ExportOf(rows[1..], id)
  }

  lemma {:induction false} ExportOfRow(rows: seq<Row>, i: nat)
    requires Unique(rows) && i < |rows|
    ensures ExportOf(rows, rows[i].id) == Some(rows[i].api)
    decreases |rows|
  {
    if i > 0 {
      assert rows[0].id != rows[i].id;
      forall j, k | 0 <= j < k < |rows| - 1
        ensures rows[1..][j].id != rows[1..][k].id && !Same(rows[1..][j].api, rows[1..][k].api)
      {
        assert rows[j + 1].id != rows[k + 1].id && !Same(rows[j + 1].api, rows[k + 1].api);
      }
      ExportOfRow(rows[1..], i - 1);
    }
  }

  // ---- the soft table ------------------------------------------------------------------

  datatype Entry = Entry(va: u64, api: Import, iatSlot: u64)

  /** Entry `i` has the address of index `i`, and no import occurs twice. */
  ghost predicate TableOk(entries: seq<Entry>) {
    && |entries| <= SOFT_BASE
    && (forall i :: 0 <= i < |entries| ==> entries[i].va == Address(Unresolved(i)))
    && forall i, j :: 0 <= i < j < |entries| ==> !Same(entries[i].api, entries[j].api)
  }

  /** The entry of an import already in the table. */
  function Find(entries: seq<Entry>, api: Import): (r: Option<nat>)
    ensures r.Some? ==> r.value < |entries| && Same(entries[r.value].api, api)
    ensures r.None? ==> forall i :: 0 <= i < |entries| ==> !Same(entries[i].api, api)
  {
    if entries == [] then None
    else if Same(entries[0].api, api) then Some(0)
    else match Find(entries[1..], api) case None => None case Some(i) => Some(i + 1)
  }

  /** The table after interning. */
  function Interned(entries: seq<Entry>, api: Import, iatSlot: u64): seq<Entry> {
    if Find(entries, api).Some? || |entries| >= SOFT_BASE then entries
    else entries + [Entry(Address(Unresolved(|entries|)), api, iatSlot)]
  }

  class SoftApiTable {
    var entries: seq<Entry>

    ghost predicate Valid() reads this { TableOk(entries) }

    constructor ()
      ensures Valid() && entries == []
    {
      entries := [];
    }

    /** The entry with this dense index. */
    method Get(index: u16) returns (e: Option<Entry>)
      ensures e == if index < |entries| then Some(entries[index]) else None
    {
      return if index < |entries| then Some(entries[index]) else None;
    }

    /** An import gets one entry, whatever the case of its names; a full table takes no more. */
    method Intern(api: Import, iatSlot: u64) returns (r: Option<Entry>)
      requires Valid()
      modifies this
      ensures Valid() && entries == Interned(old(entries), api, iatSlot)
      ensures r.None? <==> Find(old(entries), api).None? && |old(entries)| == SOFT_BASE
      ensures r.Some? ==> r.value in entries && Same(r.value.api, api)
    {
      var i := 0;
      while i < |entries|
        invariant 0 <= i <= |entries| && entries == old(entries)
        invariant forall j :: 0 <= j < i ==> !Same(entries[j].api, api)
      {
        if Same(entries[i].api, api) { return Some(entries[i]); }
        i := i + 1;
      }
      if |entries| >= SOFT_BASE { return None; }
      var e := Entry(Address(Unresolved(|entries|)), api, iatSlot);
      entries := entries + [e];
      return Some(e);
    }
  }

  // ---- resolving imports and stops -----------------------------------------------------

  /** What the address of an import will be: its dense id's, or its place in the soft table. */
  function AddressOf(rows: seq<Row>, entries: seq<Entry>, api: Import): Option<u64> {
    match IdOf(rows, api)
    case Some(id) => Some(Address(Export(id)))
    case None => match Find(entries, api) case Some(i) => Some(entries[i].va) case None => None
  }

  /** The soft table after an import has been resolved. */
  function AfterImport(rows: seq<Row>, entries: seq<Entry>, api: Import, iatSlot: u64): seq<Entry> {
    if IdOf(rows, api).Some? then entries else Interned(entries, api, iatSlot)
  }

  /** `resolve_import_fake_va`. */
  method ResolveImport(rows: seq<Row>, soft: SoftApiTable, api: Import, iatSlot: u64) returns (va: Option<u64>)
    requires soft.Valid()
    modifies soft
    ensures soft.Valid() && soft.entries == AfterImport(rows, old(soft.entries), api, iatSlot)
    ensures va == AddressOf(rows, soft.entries, api)
  {
    var id := IdOf(rows, api);
    if id.Some? { return Some(Address(Export(id.value))); }
    var e := soft.Intern(api, iatSlot);
    if e.None? { return None; }
    var k: nat :| k < |soft.entries| && soft.entries[k] == e.value;
    FindIs(soft.entries, api, k);
    return Some(e.value.va);
  }

  lemma FindIs(entries: seq<Entry>, api: Import, k: nat)
    requires TableOk(entries) && k < |entries| && Same(entries[k].api, api)
    ensures Find(entries, api) == Some(k)
  {
    var i := Find(entries, api).value;
    assert i < k ==> !Same(entries[i].api, entries[k].api);
    assert k < i ==> !Same(entries[k].api, entries[i].api);
  }

  /** What a stop address dispatches to. */
  datatype Target = Api(api: Import) | ComMethod(iface: u8, mtd: u8)

  /** `resolve_fake_api_at`. */
  function ResolveStop(rows: seq<Row>, entries: seq<Entry>, va: u64): Option<Target> {
    match Decode(va)
    case None => None
    case Some(Export(id)) => Some(Api(ExportOrUnknown(rows, id)))
    case Some(Alias(id)) => Some(Api(ExportOrUnknown(rows, id)))
    case Some(Unresolved(i)) => if i < |entries| then Some(Api(entries[i].api)) else None
    case Some(Com(iface, mtd)) => Some(ComMethod(iface, mtd))
    case Some(Special(_)) => None
  }

  function ExportOrUnknown(rows: seq<Row>, id: ApiId): Import {
    match ExportOf(rows, id) case Some(api) => api case None => Import("unknown.dll", "unknown")
  }

  /** `va` is an address that stands for the target: one of the two of an export, that of a table
      entry, or that of a COM method. */
  ghost predicate StandsFor(rows: seq<Row>, entries: seq<Entry>, va: u64, t: Target) {
    match t
    case Api(api) =>
      || (exists id: ApiId :: va in {Address(Export(id)), Address(Alias(id))} && ExportOrUnknown(rows, id) == api)
      || (exists i: u16 :: i < |entries| && entries[i].va == va && entries[i].api == api)
    case ComMethod(iface, mtd) => va == Address(Com(iface, mtd))
  }

  /** A stop resolves to a target exactly if its address stands for it, so to one at most. */
  lemma ResolvesExactly(rows: seq<Row>, entries: seq<Entry>, va: u64, t: Target)
    requires TableOk(entries)
    ensures ResolveStop(rows, entries, va) == Some(t) <==> StandsFor(rows, entries, va, t)
  {
    if ResolveStop(rows, entries, va) == Some(t) {
      EncodesWhatWasDecoded(va);
      ResolvedStandsFor(rows, entries, va, t, Decode(va).value);
    }
    if StandsFor(rows, entries, va, t) { StandingResolves(rows, entries, va, t); }
  }

  lemma ResolvedStandsFor(rows: seq<Row>, entries: seq<Entry>, va: u64, t: Target, f: FakeVa)
    requires TableOk(entries) && ResolveStop(rows, entries, va) == Some(t) && Decode(va) == Some(f) && Address(f) == va
    ensures StandsFor(rows, entries, va, t)
  {
    match f
    case Export(id) => assert va in {Address(Export(id)), Address(Alias(id))};
    case Alias(id) => assert va in {Address(Export(id)), Address(Alias(id))};
    case Unresolved(i) => assert entries[i].va == va;
    case _ =>
  }

  lemma StandingResolves(rows: seq<Row>, entries: seq<Entry>, va: u64, t: Target)
    requires TableOk(entries) && StandsFor(rows, entries, va, t)
    ensures ResolveStop(rows, entries, va) == Some(t)
  {
    match t
    case Api(api) =>
      if id: ApiId :| va in {Address(Export(id)), Address(Alias(id))} && ExportOrUnknown(rows, id) == api {
        DecodesWhatWasEncoded(Export(id));
        DecodesWhatWasEncoded(Alias(id));
      } else {
        var i: u16 :| i < |entries| && entries[i].va == va && entries[i].api == api;
        DecodesWhatWasEncoded(Unresolved(i));
      }
    case ComMethod(iface, mtd) => DecodesWhatWasEncoded(Com(iface, mtd));
  }

  /** Resolving a stop against the table object: the answer is what the address stands for, and there
      is none exactly when it stands for nothing. */
  method ResolveFakeApiAt(rows: seq<Row>, soft: SoftApiTable, va: u64) returns (r: Option<Target>)
    requires soft.Valid()
    ensures forall t :: r == Some(t) <==> StandsFor(rows, soft.entries, va, t)
  {
    r := ResolveDecoded(rows, soft, Decode(va));
    forall t ensures r == Some(t) <==> StandsFor(rows, soft.entries, va, t) {
      ResolvesExactly(rows, soft.entries, va, t);
    }
  }

  method ResolveDecoded(rows: seq<Row>, soft: SoftApiTable, decoded: Option<FakeVa>) returns (r: Option<Target>)
    ensures forall va: u64 :: Decode(va) == decoded ==> r == ResolveStop(rows, soft.entries, va)
  {
    if decoded.None? { return None; }
    match decoded.value {
      case Export(id) => return Some(Api(ExportOrUnknown(rows, id)));
      case Alias(id) => return Some(Api(ExportOrUnknown(rows, id)));
      case Unresolved(i) =>
        var e := soft.Get(i);
        return if e.Some? then Some(Api(e.value.api)) else None;
      case Com(iface, mtd) => return Some(ComMethod(iface, mtd));
      case Special(_) => return None;
    }
  }

  /** An import's address resolves back to the import, ignoring case. */
  lemma AddressResolves(rows: seq<Row>, entries: seq<Entry>, api: Import)
    requires Unique(rows) && TableOk(entries) && AddressOf(rows, entries, api).Some?
    ensures var va := AddressOf(rows, entries, api).value;
            var target := ResolveStop(rows, entries, va);
            && va % 0x10 == 0 && BASE <= va < BASE + WINDOW
            && target.Some? && target.value.Api? && Same(target.value.api, api)
  {
    var id := IdOf(rows, api);
    if id.Some? {
      var i :| 0 <= i < |rows| && rows[i].id == id.value && Same(rows[i].api, api);
      ExportOfRow(rows, i);
      DecodesWhatWasEncoded(Export(id.value));
    } else {
      DecodesWhatWasEncoded(Unresolved(Find(entries, api).value));
    }
  }

  /** Two imports have the same address exactly when they are the same import. */
  lemma AddressesAreDistinct(rows: seq<Row>, entries: seq<Entry>, a: Import, b: Import)
    requires Unique(rows) && TableOk(entries)
    requires AddressOf(rows, entries, a).Some? && AddressOf(rows, entries, b).Some?
    ensures AddressOf(rows, entries, a) == AddressOf(rows, entries, b) <==> Same(a, b)
  {
    AddressResolves(rows, entries, a);
    AddressResolves(rows, entries, b);
    if Same(a, b) { SameAddress(rows, entries, a, b); }
  }

  lemma {:induction false} SameId(rows: seq<Row>, a: Import, b: Import)
    requires Same(a, b)
    ensures IdOf(rows, a) == IdOf(rows, b)
    decreases |rows|
  {
    if rows != [] { SameId(rows[1..], a, b); }
  }

  lemma SameAddress(rows: seq<Row>, entries: seq<Entry>, a: Import, b: Import)
    requires TableOk(entries) && Same(a, b)
    ensures AddressOf(rows, entries, a) == AddressOf(rows, entries, b)
  {
    SameId(rows, a, b);
    var i := Find(entries, a);
    if i.Some? { FindIs(entries, b, i.value); }
  }

  // ---- any sequence of imports ---------------------------------------------------------

  datatype Request = Request(api: Import, iatSlot: u64)

  function AfterAll(rows: seq<Row>, entries: seq<Entry>, reqs: seq<Request>): seq<Entry>
    decreases |reqs|
  {
    if reqs == [] then entries else AfterAll(rows, AfterImport(rows, entries, reqs[0].api, reqs[0].iatSlot), reqs[1..])
  }

  lemma InternedOk(entries: seq<Entry>, api: Import, iatSlot: u64)
    requires TableOk(entries)
    ensures var later := Interned(entries, api, iatSlot);
            && TableOk(later) && entries <= later
            && (Find(later, api).Some? <==> Find(entries, api).Some? || |entries| < SOFT_BASE)
  {
    var later := Interned(entries, api, iatSlot);
    if |later| > |entries| { FindIs(later, api, |entries|); }
  }

  lemma ImportKeeps(rows: seq<Row>, entries: seq<Entry>, api: Import, iatSlot: u64)
    requires TableOk(entries)
    ensures var later := AfterImport(rows, entries, api, iatSlot);
            && TableOk(later) && entries <= later
            && (AddressOf(rows, later, api).Some? <==>
                IdOf(rows, api).Some? || Find(entries, api).Some? || |entries| < SOFT_BASE)
  {
    InternedOk(entries, api, iatSlot);
  }

  /** An address once given keeps its import: later imports only add to the table. */
  lemma {:induction false} AddressesStay(rows: seq<Row>, entries: seq<Entry>, reqs: seq<Request>, api: Import)
    requires TableOk(entries) && AddressOf(rows, entries, api).Some?
    ensures TableOk(AfterAll(rows, entries, reqs))
    ensures AddressOf(rows, AfterAll(rows, entries, reqs), api) == AddressOf(rows, entries, api)
    decreases |reqs|
  {
    if reqs != [] {
      var later := AfterImport(rows, entries, reqs[0].api, reqs[0].iatSlot);
      ImportKeeps(rows, entries, reqs[0].api, reqs[0].iatSlot);
      var i := Find(entries, api);
      if i.Some? {
        assert later[i.value] == entries[i.value];
        FindIs(later, api, i.value);
      }
      AddressesStay(rows, later, reqs[1..], api);
    }
  }

  /** The address each request was answered with resolves to its import in the table all the
      requests leave behind, and two answers are equal exactly for the same import. */
  lemma ImportsResolve(rows: seq<Row>, before: seq<Entry>, a: Request, mid: seq<Request>, b: Request, post: seq<Request>)
    requires Unique(rows) && TableOk(before)
    ensures var e1 := AfterImport(rows, before, a.api, a.iatSlot);
            var e2 := AfterImport(rows, AfterAll(rows, e1, mid), b.api, b.iatSlot);
            var end := AfterAll(rows, e2, post);
            var x, y := AddressOf(rows, e1, a.api), AddressOf(rows, e2, b.api);
            x.Some? && y.Some? ==>
              && (x == y <==> Same(a.api, b.api))
              && (var t := ResolveStop(rows, end, x.value); t.Some? && t.value.Api? && Same(t.value.api, a.api))
              && (var t := ResolveStop(rows, end, y.value); t.Some? && t.value.Api? && Same(t.value.api, b.api))
  {
    var e1 := AfterImport(rows, before, a.api, a.iatSlot);
    ImportKeeps(rows, before, a.api, a.iatSlot);
    if AddressOf(rows, e1, a.api).Some? {
      var m := AfterAll(rows, e1, mid);
      AddressesStay(rows, e1, mid, a.api);
      ImportKeeps(rows, m, b.api, b.iatSlot);
      AddressesStay(rows, m, [b] + post, a.api);
      var e2 := AfterImport(rows, m, b.api, b.iatSlot);
      assert ([b] + post)[1..] == post;
      if AddressOf(rows, e2, b.api).Some? {
        var end := AfterAll(rows, e2, post);
        AddressesStay(rows, e2, post, b.api);
        AddressResolves(rows, end, a.api);
        AddressResolves(rows, end, b.api);
        AddressesAreDistinct(rows, end, a.api, b.api);
      }
    }
  }
}
