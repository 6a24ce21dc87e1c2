/** Planting entry by entry: which imports get a stub and where, which addresses then stop, and when a
    write of it fails. */
module StubSlots {
  import opened Words
  import opened Memory
  import opened HostStops

  /** Bodies that do not fit a slot of sixteen bytes go to the helper region. */
  lemma FarBodies(k: StubKind)
    ensures OutOfLine(k) <==> BodyLen(k) > 16
    ensures BodyLen(k) > 0
  {
  }

  /** The span of bytes from `at`. */
  lemma CoveredIs(spans: seq<Span>, a: int)
    ensures Covered(spans, a) <==> exists i :: 0 <= i < |spans| && spans[i].at <= a && a - spans[i].at < spans[i].len
  {
    if Covered(spans, a) {
      var i :| 0 <= i < |spans| && spans[i].Has(a);
      assert spans[i].at <= a && a - spans[i].at < spans[i].len;
    }
    if i :| 0 <= i < |spans| && spans[i].at <= a && a - spans[i].at < spans[i].len { assert spans[i].Has(a); }
  }

  /** Bit `k` of byte `n` is that of address `8 * n + k` of the window. */
  lemma BitIs(bits: array<bv8>, n: nat, k: nat)
    requires n < bits.Length && k < 8
    ensures StopBit(bits, 8 * n + k) == (bits[n] & [0x01, 0x02, 0x04, 0x08, 0x10, 0x20, 0x40, 0x80][k] != 0)
  {
    assert (8 * n + k) / 8 == n && (8 * n + k) % 8 == k;
  }

  /** What the `n`-th entry gets, with `cursor` the first free byte of the helper region: the body itself, when it
      fits a slot, or the body there and a jump of twelve bytes; and nothing when either does not fit. */
  ghost predicate Gets(l: Layout, e: Entry, cursor: int, p: Option<Planted>) {
    if e.kind.None? || e.va < l.base then p == None
    else
      var n, room := BodyLen(e.kind.value), l.base + l.size - e.va;
      if n <= 16 then p == if n <= room then Some(Planted(Span(e.va, n), None)) else None
      else if n <= l.helperBase + l.helperSize - cursor && 12 <= room then p == Some(Planted(Span(e.va, 12), Some(Span(cursor, n))))
      else p == None
  }

  /** The first free byte: bodies are laid end to end, each rounded up to sixteen bytes. */
  ghost predicate Frees(p: Option<Planted>, cursor: int, next: int) {
    if p.Some? && p.value.helper.Some? then
      next % 16 == cursor % 16 && cursor + p.value.helper.value.len <= next < cursor + p.value.helper.value.len + 16
    else next == cursor
  }

  /** What is planted for the entries in turn. */
  function PlantedAt(l: Layout, entries: seq<Entry>, cursor: int, k: nat): Option<Planted>
    requires k < |entries|
  {
    PlantOne(l, entries[k], CursorAt(l, entries, cursor, k))
  }

  lemma {:induction false} CursorStep(l: Layout, entries: seq<Entry>, cursor: int, k: nat)
    requires k < |entries|
    ensures CursorAt(l, entries, cursor, 0) == cursor
    ensures CursorAt(l, entries, cursor, k + 1) == NextCursor(PlantedAt(l, entries, cursor, k), CursorAt(l, entries, cursor, k))
    decreases k
  {
    var next, rest := NextCursor(PlantOne(l, entries[0], cursor), cursor), entries[1..];
    if k > 0 {
      CursorStep(l, rest, next, k - 1);
    } else {
      assert CursorAt(l, entries, cursor, 1) == CursorAt(l, rest, next, 0) == next;
    }
  }

  lemma EntryGets(l: Layout, entries: seq<Entry>, cursor: int, k: nat)
    requires k < |entries|
    ensures var c, p := CursorAt(l, entries, cursor, k), PlantedAt(l, entries, cursor, k);
            Gets(l, entries[k], c, p) && Frees(p, c, CursorAt(l, entries, cursor, k + 1))
  {
    CursorStep(l, entries, cursor, k);
    if entries[k].kind.Some? { FarBodies(entries[k].kind.value); }
  }

  /** The list of what is planted: entry by entry, without those that get nothing. */
  lemma {:induction false} PlanIs(l: Layout, entries: seq<Entry>, cursor: int, p: Planted)
    ensures p in Plan(l, entries, cursor) <==> exists k :: 0 <= k < |entries| && PlantedAt(l, entries, cursor, k) == Some(p)
    decreases |entries|
  {
    if entries != [] {
      var q, rest := PlantOne(l, entries[0], cursor), entries[1..];
      var next := NextCursor(q, cursor);
      PlanIs(l, rest, next, p);
      assert PlantedAt(l, entries, cursor, 0) == q;
      if k :| 0 <= k < |rest| && PlantedAt(l, rest, next, k) == Some(p) {
        assert PlantedAt(l, entries, cursor, k + 1) == Some(p);
      }
      if k :| 0 < k < |entries| && PlantedAt(l, entries, cursor, k) == Some(p) {
        var j: nat := k - 1;
        assert PlantedAt(l, rest, next, j) == Some(p);
      }
    }
  }

  /** Entry `k` has its slot there, and a stub in it that reaches to the address. */
  predicate Reaches(l: Layout, entries: seq<Entry>, cursor: int, k: int, slot: int, a: int) {
    0 <= k < |entries| && entries[k].va == slot
    && PlantedAt(l, entries, cursor, k).Some? && a - slot < PlantedAt(l, entries, cursor, k).value.code.len
  }

  lemma GetsOwnSlot(l: Layout, entries: seq<Entry>, cursor: int, k: nat, p: Planted)
    requires k < |entries| && PlantedAt(l, entries, cursor, k) == Some(p)
    ensures p.code.at == entries[k].va && p.code.len <= 16
  {
    EntryGets(l, entries, cursor, k);
  }

  lemma CoveredReaches(l: Layout, entries: seq<Entry>, cursor: int, slot: int, a: int)
    requires forall i :: 0 <= i < |entries| ==> entries[i].va % 16 == 0
    requires slot % 16 == 0 && slot <= a < slot + 16 && Covered(Codes(Plan(l, entries, cursor)), a)
    ensures exists k :: Reaches(l, entries, cursor, k, slot, a)
  {
    var plan := Plan(l, entries, cursor);
    var i :| 0 <= i < |plan| && Codes(plan)[i].Has(a);
    PlanIs(l, entries, cursor, plan[i]);
    var k :| 0 <= k < |entries| && PlantedAt(l, entries, cursor, k) == Some(plan[i]);
    GetsOwnSlot(l, entries, cursor, k, plan[i]);
    SlotOf(entries[k].va, slot, a);
    assert Reaches(l, entries, cursor, k, slot, a);
  }

  lemma ReachesCovered(l: Layout, entries: seq<Entry>, cursor: int, k: int, slot: int, a: int)
    requires slot <= a && Reaches(l, entries, cursor, k, slot, a)
    ensures Covered(Codes(Plan(l, entries, cursor)), a)
  {
    var plan, p := Plan(l, entries, cursor), PlantedAt(l, entries, cursor, k).value;
    GetsOwnSlot(l, entries, cursor, k, p);
    PlanIs(l, entries, cursor, p);
    var i :| 0 <= i < |plan| && plan[i] == p;
    assert Codes(plan)[i].Has(a);
  }

  /** An address of a slot of sixteen bytes runs in the guest exactly if the import of that slot got a stub that
      reaches to it. */
  lemma SlotStops(l: Layout, entries: seq<Entry>, cursor: int, slot: int, a: int)
    requires forall i :: 0 <= i < |entries| ==> entries[i].va % 16 == 0
    requires slot % 16 == 0 && slot <= a < slot + 16
    ensures Covered(Codes(Plan(l, entries, cursor)), a) <==> exists k :: Reaches(l, entries, cursor, k, slot, a)
  {
    if Covered(Codes(Plan(l, entries, cursor)), a) { CoveredReaches(l, entries, cursor, slot, a); }
    if k :| Reaches(l, entries, cursor, k, slot, a) { ReachesCovered(l, entries, cursor, k, slot, a); }
  }

  /** The writes of one entry find memory. A body goes to the helper region before it is known whether the jump
      to it fits. */
  predicate Writable(l: Layout, e: Entry, cursor: int, m: Mem) {
    e.kind.Some? && e.va >= l.base ==>
      var n, room := BodyLen(e.kind.value), l.base + l.size - e.va;
      if n <= 16 then n <= room ==> Mapped(m, e.va, n)
      else n <= l.helperBase + l.helperSize - cursor ==> Mapped(m, cursor, n) && (12 <= room ==> Mapped(m, e.va, 12))
  }

  /** Planting fails exactly when some entry's writes do not find memory. */
  lemma {:induction false} FailsExactly(l: Layout, entries: seq<Entry>, cursor: int, m: Mem)
    ensures CanWriteAll(l, entries, cursor, m) <==>
            forall k :: 0 <= k < |entries| ==> Writable(l, entries[k], CursorAt(l, entries, cursor, k), m)
    decreases |entries|
  {
    if entries != [] {
      var next, rest := NextCursor(PlantOne(l, entries[0], cursor), cursor), entries[1..];
      if entries[0].kind.Some? { FarBodies(entries[0].kind.value); }
      FailsExactly(l, rest, next, m);
      assert CursorAt(l, entries, cursor, 0) == cursor;
      assert forall k :: 0 <= k < |rest| ==> rest[k] == entries[k + 1] && CursorAt(l, entries, cursor, k + 1) == CursorAt(l, rest, next, k);
      assert forall k :: 0 < k < |entries| ==> entries[k] == rest[k - 1] && CursorAt(l, entries, cursor, k) == CursorAt(l, rest, next, k - 1);
    }
  }
}
