/** `.pdata`: parsing the function table and finding the entry that covers an address. */
module FunctionTables {
  import opened Words
  import opened Memory
  import opened Unwind

  type Table = seq<RuntimeFunction>

  /** The address range of an entry, as the code computes it. */
  function BeginVa(base: u64, e: RuntimeFunction): u64 { SatAdd(base, e.beginAddress) }
  function EndVa(base: u64, e: RuntimeFunction): u64 { SatAdd(base, e.endAddress) }

  predicate Covers(base: u64, e: RuntimeFunction, va: u64) {
    BeginVa(base, e) <= va < EndVa(base, e)
  }

  datatype FunctionEntry = FunctionEntry(entry: RuntimeFunction, base: u64)

  /** Entries are non-empty ranges in increasing order that do not overlap. */
  ghost predicate Sorted(t: Table) {
    && (forall i :: 0 <= i < |t| ==> t[i].beginAddress < t[i].endAddress)
    && forall i, j :: 0 <= i < j < |t| ==> t[i].endAddress <= t[j].beginAddress
  }

  /** The addresses of a whole module, from its first entry to its last. */
  function Low(base: u64, t: Table): u64
    requires t != []
  {
    BeginVa(base, t[0])
  }

  function High(base: u64, t: Table): u64
    requires t != []
  {
    EndVa(base, t[|t| - 1])
  }

  ghost predicate Apart(a: u64, s: Table, b: u64, t: Table) {
    s != [] && t != [] ==> High(a, s) <= Low(b, t) || High(b, t) <= Low(a, s)
  }

  ghost predicate TablesOk(tables: map<u64, Table>) {
    && (forall b :: b in tables ==> Sorted(tables[b]))
    && forall a, b :: a in tables && b in tables && a != b ==> Apart(a, tables[a], b, tables[b])
  }

  /** `r` is a registered entry that covers `pc`. */
  ghost predicate Finds(tables: map<u64, Table>, pc: u64, r: FunctionEntry) {
    r.base in tables && r.entry in tables[r.base] && Covers(r.base, r.entry, pc)
  }

  lemma CoveredInside(base: u64, t: Table, e: RuntimeFunction, pc: u64)
    requires Sorted(t) && e in t && Covers(base, e, pc)
    ensures Low(base, t) <= pc < High(base, t)
  {
    var i :| 0 <= i < |t| && t[i] == e;
    assert i > 0 ==> t[0].endAddress <= t[i].beginAddress;
    assert i < |t| - 1 ==> t[i].endAddress <= t[|t| - 1].beginAddress;
  }

  lemma CoversOne(base: u64, t: Table, i: nat, j: nat, pc: u64)
    requires Sorted(t) && i < |t| && j < |t| && i != j && Covers(base, t[i], pc)
    ensures !Covers(base, t[j], pc)
  {
    assert i < j ==> t[i].endAddress <= t[j].beginAddress;
    assert j < i ==> t[j].endAddress <= t[i].beginAddress;
  }

  /** At most one registered entry covers an address, so the order in which the modules are tried
      cannot matter. */
  lemma CoveringIsUnique(tables: map<u64, Table>, pc: u64, r: FunctionEntry, s: FunctionEntry)
    requires TablesOk(tables) && Finds(tables, pc, r) && Finds(tables, pc, s)
    ensures r == s
  {
    CoveredInside(r.base, tables[r.base], r.entry, pc);
    CoveredInside(s.base, tables[s.base], s.entry, pc);
    var t, u := tables[r.base], tables[s.base];
    var i :| 0 <= i < |t| && t[i] == r.entry;
    var j :| 0 <= j < |u| && u[j] == s.entry;
    if r.base == s.base && i != j { CoversOne(r.base, t, i, j, pc); }
  }

  /** `binary_search_by_key` on `begin_address`: a hit, or where the key would be inserted. */
  method BinarySearch(t: Table, key: u32) returns (found: bool, at: nat)
    requires Sorted(t)
    ensures found ==> at < |t| && t[at].beginAddress == key
    ensures !found ==> at <= |t|
    ensures !found ==> forall i :: 0 <= i < at ==> t[i].beginAddress < key
    ensures !found ==> forall i :: at <= i < |t| ==> key < t[i].beginAddress
  {
    var lo, hi := 0, |t|;
    while lo < hi
      invariant 0 <= lo <= hi <= |t|
      invariant forall i :: 0 <= i < lo ==> t[i].beginAddress < key
      invariant forall i :: hi <= i < |t| ==> key < t[i].beginAddress
    {
      var mid := (lo + hi) / 2;
      if t[mid].beginAddress == key { return true, mid; }
      if t[mid].beginAddress < key { lo := mid + 1; } else { hi := mid; }
    }
    return false, lo;
  }

  /** The search of one module. */
  method LookupModule(base: u64, t: Table, pc: u64) returns (r: Option<RuntimeFunction>)
    requires Sorted(t)
    ensures r.Some? ==> r.value in t && Covers(base, r.value, pc)
    ensures r.None? ==> forall e :: e in t ==> !Covers(base, e, pc)
  {
    if t == [] { return None; }
    forall e | e in t && Covers(base, e, pc) ensures Low(base, t) <= pc < High(base, t) {
      CoveredInside(base, t, e, pc);
    }
    if pc < Low(base, t) || pc >= High(base, t) { return None; }
    var key: u32 := (pc - base) % TWO_32;
    assert key == pc - base;
    var found, at := BinarySearch(t, key);
    if found { return Some(t[at]); }
    if at == 0 { return None; }
    if pc - base < t[at - 1].endAddress { return Some(t[at - 1]); }
    forall i | 0 <= i < |t| ensures !Covers(base, t[i], pc) {
      assert i < at - 1 ==> t[i].endAddress <= t[at - 1].beginAddress;
    }
    return None;
  }

  /** `lookup_function_entry`, trying the modules in any order. */
  method LookupFunctionEntry(tables: map<u64, Table>, pc: u64) returns (r: Option<FunctionEntry>)
    requires TablesOk(tables)
    ensures r.Some? ==> Finds(tables, pc, r.value)
    ensures r.None? ==> forall f :: !Finds(tables, pc, f)
  {
    var left := tables.Keys;
    while left != {}
      invariant left <= tables.Keys
      invariant forall f :: Finds(tables, pc, f) ==> f.base in left
    {
      var base :| base in left;
      var e := LookupModule(base, tables[base], pc);
      if e.Some? { return Some(FunctionEntry(e.value, base)); }
      left := left - {base};
    }
    return None;
  }

  // ---- parsing -------------------------------------------------------------------------

  const ENTRY_BYTES := 12

  function NullEntry(): RuntimeFunction { RuntimeFunction(0, 0, 0) }

  function EntryBytes(e: RuntimeFunction): (b: Bytes)
    ensures |b| == ENTRY_BYTES
  {
    LE(e.beginAddress, 4) + LE(e.endAddress, 4) + LE(e.unwindData, 4)
  }

  /** `RuntimeFunction::from_bytes` on a slice that is long enough. */
  function EntryAt(b: Bytes, at: nat): RuntimeFunction
    requires at + ENTRY_BYTES <= |b|
  {
    RuntimeFunction(U32Of(b[at..at + 4]), U32Of(b[at + 4..at + 8]), U32Of(b[at + 8..at + 12]))
  }

  lemma EntryRoundTrip(b: Bytes, at: nat, e: RuntimeFunction)
    requires at + ENTRY_BYTES <= |b| && b[at..at + ENTRY_BYTES] == EntryBytes(e)
    ensures EntryAt(b, at) == e
  {
    assert Pow256(4) == TWO_32;
    FromLELE(e.beginAddress, 4); FromLELE(e.endAddress, 4); FromLELE(e.unwindData, 4);
    var s := b[at..at + ENTRY_BYTES];
    var x, y, z := LE(e.beginAddress, 4), LE(e.endAddress, 4), LE(e.unwindData, 4);
    assert b[at..at + 4] == s[..4] == x;
    assert b[at + 4..at + 8] == s[4..8];
    assert (x + y + z)[4..8] == y;
    assert b[at + 8..at + 12] == s[8..12] == z;
  }

  function TableBytes(t: Table): Bytes {
    if t == [] then [] else EntryBytes(t[0]) + TableBytes(t[1..])
  }

  function WithoutNulls(t: Table): Table {
    if t == [] then []
    else (if t[0] == NullEntry() then [] else [t[0]]) + WithoutNulls(t[1..])
  }

  /** The entries in a section, null ones included. */
  function Entries(b: Bytes): Table {
    if |b| < ENTRY_BYTES then [] else [EntryAt(b, 0)] + Entries(b[ENTRY_BYTES..])
  }

  lemma {:induction false} WithoutNullsAppend(s: Table, e: RuntimeFunction)
    ensures WithoutNulls(s + [e]) == WithoutNulls(s) + (if e == NullEntry() then [] else [e])
  {
    if s == [] {
      assert [] + [e] == [e] && [e][1..] == [];
    } else {
      WithoutNullsAppend(s[1..], e);
      assert (s + [e])[1..] == s[1..] + [e];
    }
  }

  lemma EntryShift(b: Bytes, at: nat)
    requires at + ENTRY_BYTES <= |b|
    ensures EntryAt(b, at) == EntryAt(b[at..], 0)
    ensures Entries(b[at..]) == [EntryAt(b, at)] + Entries(b[at + ENTRY_BYTES..])
  {
    var rest := b[at..];
    assert rest[0..4] == b[at..at + 4] && rest[4..8] == b[at + 4..at + 8] && rest[8..12] == b[at + 8..at + 12];
    assert rest[ENTRY_BYTES..] == b[at + ENTRY_BYTES..];
  }

  lemma ParseStep(b: Bytes, seen: Table, at: nat)
    requires at + ENTRY_BYTES <= |b| && seen + Entries(b[at..]) == Entries(b)
    ensures var e := EntryAt(b, at);
            && seen + [e] + Entries(b[at + ENTRY_BYTES..]) == Entries(b)
            && WithoutNulls(seen + [e]) == WithoutNulls(seen) + (if e == NullEntry() then [] else [e])
  {
    EntryShift(b, at);
    WithoutNullsAppend(seen, EntryAt(b, at));
  }

  /** `parse_pdata`. */
  method ParsePdata(b: Bytes) returns (entries: Table)
    ensures entries == WithoutNulls(Entries(b))
  {
    var count := |b| / ENTRY_BYTES;
    entries := [];
    ghost var seen: Table := [];
    assert b[0..] == b;
    for i := 0 to count
      invariant entries == WithoutNulls(seen) && seen + Entries(b[ENTRY_BYTES * i..]) == Entries(b)
    {
      var e := EntryAt(b, ENTRY_BYTES * i);
      ParseStep(b, seen, ENTRY_BYTES * i);
      seen := seen + [e];
      if e != NullEntry() { entries := entries + [e]; }
    }
    assert seen + [] == seen;
  }

  lemma {:induction false} EntriesOfTable(t: Table, junk: Bytes)
    requires |junk| < ENTRY_BYTES
    ensures Entries(TableBytes(t) + junk) == t
  {
    var b := TableBytes(t) + junk;
    if t == [] {
      assert b == junk;
    } else {
      assert b == EntryBytes(t[0]) + (TableBytes(t[1..]) + junk);
      EntryRoundTrip(b, 0, t[0]);
      EntriesOfTable(t[1..], junk);
    }
  }

  lemma {:induction false} WithoutNullsIsIdentity(t: Table)
    requires NullEntry() !in t
    ensures WithoutNulls(t) == t
  {
    if t != [] { WithoutNullsIsIdentity(t[1..]); }
  }

  function Nulls(n: nat): Table {
    if n == 0 then [] else Nulls(n - 1) + [NullEntry()]
  }

  lemma {:induction false} NullsDropOut(t: Table, n: nat)
    requires NullEntry() !in t
    ensures WithoutNulls(t + Nulls(n)) == t
    decreases n
  {
    if n == 0 {
      WithoutNullsIsIdentity(t);
      assert t + [] == t;
    } else {
      NullsDropOut(t, n - 1);
      assert t + Nulls(n) == (t + Nulls(n - 1)) + [NullEntry()];
      WithoutNullsAppend(t + Nulls(n - 1), NullEntry());
    }
  }

  /** A serialised table with null padding entries and trailing bytes parses back to the table. */
  lemma PdataRoundTrip(t: Table, nulls: nat, junk: Bytes)
    requires NullEntry() !in t && |junk| < ENTRY_BYTES
    ensures WithoutNulls(Entries(TableBytes(t + Nulls(nulls)) + junk)) == t
  {
    EntriesOfTable(t + Nulls(nulls), junk);
    NullsDropOut(t, nulls);
  }

  // ---- in plain numbers ----------------------------------------------------------------

  /** An entry covers the addresses from its begin up to its end, relative to the image, but for the topmost address. */
  lemma CoversIs(base: u64, e: RuntimeFunction, va: u64)
    ensures Covers(base, e, va) <==> base + e.beginAddress <= va < base + e.endAddress && va < 0xffff_ffff_ffff_ffff
  {
  }

  lemma {:induction false} ZeroIsZeros(b: Bytes)
    ensures FromLE(b) == 0 <==> forall k :: 0 <= k < |b| ==> b[k] == 0
  {
    if b != [] {
      ZeroIsZeros(b[1..]);
      assert forall k :: 0 < k < |b| ==> b[k] == b[1..][k - 1];
    }
  }

  /** The entry that is left out is the one of twelve zero bytes. */
  lemma NullIsZeros(b: Bytes, at: nat)
    requires at + 12 <= |b|
    ensures EntryAt(b, at) == NullEntry() <==> forall k :: at <= k < at + 12 ==> b[k] == 0
  {
    ZeroIsZeros(b[at..at + 4]);
    ZeroIsZeros(b[at + 4..at + 8]);
    ZeroIsZeros(b[at + 8..at + 12]);
    assert forall k :: at <= k < at + 4 ==> b[k] == b[at..at + 4][k - at];
    assert forall k :: at + 4 <= k < at + 8 ==> b[k] == b[at + 4..at + 8][k - at - 4];
    assert forall k :: at + 8 <= k < at + 12 ==> b[k] == b[at + 8..at + 12][k - at - 8];
  }
}
