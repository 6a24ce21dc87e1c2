/** Runs of MOVS and STOS in plain terms: what every byte holds afterwards, and where the pointers end. */
module StringFills {
  import opened Words
  import opened Memory
  import opened Alu
  import opened StringBlocks
  import Bits
  import opened StringRuns

  // ---- what is in memory afterwards ----------------------------------------------------

  /** The addresses of `n` elements from `a` on, in either direction, as the pointer wraps. */
  predicate InRun(x: int, a: int, n: nat, df: bool, size: nat) {
    Distance(x, a, df, size) % TWO_64 < n * size
  }

  /** How far a byte is into a run. */
  function Distance(x: int, a: int, df: bool, size: nat): int { if df then a + size - 1 - x else x - a }

  /** Every byte of the run holds its byte of the element, and every other byte is what it was. */
  ghost predicate Filled(m: Mem, m': Mem, a: int, n: nat, elem: Bytes, df: bool)
    requires elem != []
  {
    && m'.Keys == m.Keys
    && forall x :: x in m ==> m'[x] == if InRun(x, a, n, df, |elem|) then elem[(x - a) % |elem|] else m[x]
  }

  /** One element written over memory. */
  lemma {:induction false} OverwriteAt(m: Mem, a: int, data: Bytes, x: u64)
    requires x in m
    ensures x in Overwrite(m, a, data)
    ensures Overwrite(m, a, data)[x] == if a <= x < a + |data| then data[x - a] else m[x]
    decreases |data|
  {
    if data != [] { OverwriteAt(Poke(m, a, data[0]), a + 1, data[1..], x); }
  }

  lemma Around(v: int)
    requires -TWO_64 <= v < 2 * TWO_64
    ensures v % TWO_64 == if v < 0 then v + TWO_64 else if v < TWO_64 then v else v - TWO_64
  {
  }

  /** A distance `d`, and the distance from one element further on. */
  lemma FurtherOn(d: int, n: nat, size: OpSize)
    requires n > 0 && 0 <= d < TWO_64
    ensures d < n * size <==> d < size || (d - size) % TWO_64 < (n - 1) * size
  {
    assert n * size == (n - 1) * size + size;
    Around(d - size);
  }

  lemma AddMultiple(y: int, k: int, c: nat)
    requires c > 0
    ensures (y + c * k) % c == y % c
  {
    var q, r := y / c, y % c;
    assert c * (q + k) == c * q + c * k;
    Bits.ModUnique(y + c * k, c, q + k, r);
  }

  /** A byte keeps its place in the elements as the pointer moves by one. */
  lemma SamePlace(x: int, a: u64, df: bool, size: OpSize)
    ensures (x - Stepped(a, df, size)) % size == (x - a) % size
  {
    var all: int := match size case 1 => TWO_64 case 2 => 0x8000_0000_0000_0000 case 4 => 0x4000_0000_0000_0000 case _ => 0x2000_0000_0000_0000;
    assert size * all == TWO_64;
    var b := Stepped(a, df, size);
    var k := if df then (if a >= size then 1 else 1 - all) else if a + size < TWO_64 then -1 else all - 1;
    assert size * k == a - b;
    AddMultiple(x - a, k, size);
  }

  lemma DistanceOn(x: u64, a: u64, df: bool, size: OpSize)
    requires a + size <= TWO_64
    ensures var d := Distance(x, a, df, size) % TWO_64;
            && (d - size) % TWO_64 == Distance(x, Stepped(a, df, size), df, size) % TWO_64
            && (d < size <==> a <= x < a + size)
  {
    var v, w := Distance(x, a, df, size), Distance(x, Stepped(a, df, size), df, size);
    Around(v);
    Around(w);
    Around(v % TWO_64 - size);
  }

  /** Byte `x` seen from one element further on. */
  lemma RunOn(x: u64, a: u64, n: nat, df: bool, size: OpSize)
    requires n > 0 && a + size <= TWO_64
    ensures InRun(x, a, n, df, size) <==> a <= x < a + size || InRun(x, Stepped(a, df, size), n - 1, df, size)
  {
    DistanceOn(x, a, df, size);
    FurtherOn(Distance(x, a, df, size) % TWO_64, n, size);
  }

  lemma InElement(x: u64, a: u64, size: OpSize)
    requires a <= x < a + size
    ensures (x - a) % size == x - a
  {
  }

  lemma {:induction false} RanFills(elem: Bytes, s: State, n: nat, df: bool, size: OpSize)
    requires |elem| == size && Ran(RunnerOf(Stos(elem), df, size), s, n).how == Done
    ensures var t := Ran(RunnerOf(Stos(elem), df, size), s, n).state; Filled(s.mem, t.mem, s.rdi, n, elem, df)
    decreases n
  {
    if n > 0 {
      var t := Next(Stos(elem), s, df, size);
      OverwriteKeys(s.mem, s.rdi, elem);
      RanFills(elem, t, n - 1, df, size);
      forall x | x in s.mem
        ensures var u := Ran(RunnerOf(Stos(elem), df, size), s, n).state.mem;
                x in u && u[x] == if InRun(x, s.rdi, n, df, size) then elem[(x - s.rdi) % size] else s.mem[x]
      {
        OverwriteAt(s.mem, s.rdi, elem, x);
        RunOn(x, s.rdi, n, df, size);
        SamePlace(x, s.rdi, df, size);
        if s.rdi <= x < s.rdi + size { InElement(x, s.rdi, size); }
      }
    }
  }

  // ---- a copy whose ranges do not overlap ----------------------------------------------

  /** A byte that is both read and written. */
  predicate Shared(x: u64, s: State, n: nat, df: bool, size: nat) {
    InRun(x, s.rsi, n, df, size) && InRun(x, s.rdi, n, df, size)
  }

  ghost predicate NoneShared(s: State, n: nat, df: bool, size: nat) {
    forall x: u64 :: !Shared(x, s, n, df, size)
  }

  /** The byte a copy takes to `x`. */
  function Origin(x: int, s: State): int { (x - s.rdi + s.rsi) % TWO_64 }

  lemma OriginDistance(x: u64, s: State, df: bool, size: OpSize)
    ensures Distance(Origin(x, s), s.rsi, df, size) % TWO_64 == Distance(x, s.rdi, df, size) % TWO_64
  {
    var y := x - s.rdi + s.rsi;
    Around(y);
    Around(Distance(x, s.rdi, df, size));
    Around(Distance(Origin(x, s), s.rsi, df, size));
  }

  lemma OriginOn(x: u64, s: State, df: bool, size: OpSize)
    ensures Origin(x, Next(Movs, s, df, size)) == Origin(x, s)
  {
    var t := Next(Movs, s, df, size);
    Around(x - s.rdi + s.rsi);
    Around(x - t.rdi + t.rsi);
  }

  lemma {:induction false} SliceAt(m: Mem, a: int, n: nat, i: nat)
    requires i < n
    ensures Slice(m, a, n)[i] == Peek(m, a + i)
    decreases n
  {
    if i > 0 { SliceAt(m, a + 1, n - 1, i - 1); }
  }

  /** What the first element of a copy leaves at `x`. */
  lemma FirstCopied(s: State, df: bool, size: OpSize, x: u64)
    requires Ready(Movs, s, size) && x in s.mem
    ensures var m := Next(Movs, s, df, size).mem;
            x in m && m[x] == if s.rdi <= x < s.rdi + size then Peek(s.mem, Origin(x, s)) else s.mem[x]
  {
    OverwriteAt(s.mem, s.rdi, Slice(s.mem, s.rsi, size), x);
    if s.rdi <= x < s.rdi + size {
      SliceAt(s.mem, s.rsi, size, x - s.rdi);
      Around(x - s.rdi + s.rsi);
    }
  }

  /** Every byte of the run written to holds what its origin held, and every other byte is what it was. */
  ghost predicate Copied(m: Mem, m': Mem, s: State, n: nat, df: bool, size: nat) {
    && m'.Keys == m.Keys
    && forall x :: x in m ==> m'[x] == if InRun(x, s.rdi, n, df, size) then Peek(m, Origin(x, s)) else m[x]
  }

  lemma SharesOn(s: State, n: nat, df: bool, size: OpSize)
    requires n > 0 && NoneShared(s, n, df, size) && Ready(Movs, s, size)
    ensures NoneShared(Next(Movs, s, df, size), n - 1, df, size)
  {
    var t, k: nat := Next(Movs, s, df, size), n - 1;
    forall x: u64 ensures !Shared(x, t, k, df, size) {
      RunOn(x, s.rsi, n, df, size);
      RunOn(x, s.rdi, n, df, size);
      assert !Shared(x, s, n, df, size);
    }
  }

  lemma CopiedOn(s: State, n: nat, df: bool, size: OpSize, u: Mem, x: u64)
    requires n > 0 && NoneShared(s, n, df, size) && Ready(Movs, s, size) && x in s.mem
    requires Copied(Next(Movs, s, df, size).mem, u, Next(Movs, s, df, size), n - 1, df, size)
    ensures x in u && u[x] == if InRun(x, s.rdi, n, df, size) then Peek(s.mem, Origin(x, s)) else s.mem[x]
  {
    var t, y := Next(Movs, s, df, size), Origin(x, s);
    OverwriteKeys(s.mem, s.rdi, Slice(s.mem, s.rsi, size));
    RunOn(x, s.rdi, n, df, size);
    FirstCopied(s, df, size, x);
    if InRun(x, t.rdi, n - 1, df, size) {
      OriginOn(x, s, df, size);
      OriginDistance(x, s, df, size);
      RunOn(y, s.rdi, n, df, size);
      assert InRun(y, s.rsi, n, df, size) && !Shared(y, s, n, df, size);
      if y in s.mem { FirstCopied(s, df, size, y); }
    }
  }

  lemma {:induction false} RanCopies(s: State, n: nat, df: bool, size: OpSize)
    requires Ran(RunnerOf(Movs, df, size), s, n).how == Done && NoneShared(s, n, df, size)
    ensures Copied(s.mem, Ran(RunnerOf(Movs, df, size), s, n).state.mem, s, n, df, size)
    decreases n
  {
    if n > 0 {
      var t, u := Next(Movs, s, df, size), Ran(RunnerOf(Movs, df, size), s, n).state.mem;
      OverwriteKeys(s.mem, s.rdi, Slice(s.mem, s.rsi, size));
      SharesOn(s, n, df, size);
      RanCopies(t, n - 1, df, size);
      forall x | x in s.mem
        ensures x in u && u[x] == if InRun(x, s.rdi, n, df, size) then Peek(s.mem, Origin(x, s)) else s.mem[x]
      {
        CopiedOn(s, n, df, size, u, x);
      }
    }
  }

  /** One element is copied as it was, whether it overlaps itself or not. */
  lemma OneCopied(s: State, df: bool, size: OpSize)
    requires Ready(Movs, s, size)
    ensures Copied(s.mem, Next(Movs, s, df, size).mem, s, 1, df, size)
  {
    OverwriteKeys(s.mem, s.rdi, Slice(s.mem, s.rsi, size));
    forall x | x in s.mem
      ensures var m := Next(Movs, s, df, size).mem;
              x in m && m[x] == if InRun(x, s.rdi, 1, df, size) then Peek(s.mem, Origin(x, s)) else s.mem[x]
    {
      FirstCopied(s, df, size, x);
      RunOn(x, s.rdi, 1, df, size);
    }
  }

  // ---- the bytes of a register ---------------------------------------------------------

  /** Byte `i` of a number, the lowest being byte 0. */
  function ByteOf(v: nat, i: nat): u8 {
    if i == 0 then v % 0x100 else ByteOf(v / 0x100, i - 1)
  }

  lemma {:induction false} LEByte(v: nat, n: nat, i: nat)
    requires i < n
    ensures LE(v, n)[i] == ByteOf(v, i)
    decreases i
  {
    if i > 0 { LEByte(v / 0x100, n - 1, i - 1); }
  }

  lemma {:induction false} LowBytes(v: nat, w: nat, n: nat, i: nat)
    requires i < n && w == v % Pow256(n)
    ensures ByteOf(w, i) == ByteOf(v, i)
    decreases i
  {
    CutByte(v, Pow256(n - 1));
    if i > 0 { LowBytes(v / 0x100, w / 0x100, n - 1, i - 1); }
  }

  lemma CutByte(v: nat, p: nat)
    requires p > 0
    ensures v % (0x100 * p) % 0x100 == v % 0x100 && v % (0x100 * p) / 0x100 == v / 0x100 % p
  {
    var h, b := v / 0x100, v % 0x100;
    var q, r := h / p, h % p;
    assert 0x100 * (p * q + r) + b == (0x100 * p) * q + (0x100 * r + b);
    Bits.ModUnique(v, 0x100 * p, q, 0x100 * r + b);
  }

  /** The element that STOS takes from RAX holds its low bytes. */
  lemma MaskedByte(rax: u64, size: OpSize, i: nat)
    requires i < size
    ensures LE(Mask(rax, size), size)[i] == ByteOf(rax, i)
  {
    assert Pow256(1) == 0x100 && Pow256(2) == 0x1_0000 && Pow256(4) == 0x1_0000_0000 && Pow256(8) == TWO_64;
    LEByte(Mask(rax, size), size, i);
    LowBytes(rax, Mask(rax, size), size, i);
  }

  // ---- where the pointers end ----------------------------------------------------------

  /** A pointer after `n` elements, as it wraps. */
  function Onward(a: int, n: nat, df: bool, size: nat): int {
    (if df then a - n * size else a + n * size) % TWO_64
  }

  lemma OnwardOn(a: u64, n: nat, df: bool, size: OpSize)
    ensures Onward(Stepped(a, df, size), n, df, size) == Onward(a, n + 1, df, size)
    ensures Onward(a, 0, df, size) == a
  {
    assert (n + 1) * size == n * size + size;
    var b := Stepped(a, df, size);
    var v, w := if df then b - n * size else b + n * size, if df then a - n * size - size else a + n * size + size;
    assert v == w || v == w + TWO_64 || v == w - TWO_64;
    if v == w + TWO_64 { AddMultiple(w, 1, TWO_64); }
    if v == w - TWO_64 { AddMultiple(w, -1, TWO_64); }
    Around(a);
  }

  lemma {:induction false} RanLands(op: StringOp, s: State, n: nat, df: bool, size: OpSize)
    ensures var e := Ran(RunnerOf(op, df, size), s, n);
            && e.state.rdi == Onward(s.rdi, e.used, df, size)
            && e.state.rsi == if op.Movs? then Onward(s.rsi, e.used, df, size) else s.rsi
    decreases n
  {
    OnwardOn(s.rdi, 0, df, size);
    OnwardOn(s.rsi, 0, df, size);
    if n > 0 && Ready(op, s, size) {
      var t := Next(op, s, df, size);
      RanLands(op, t, n - 1, df, size);
      var k := Ran(RunnerOf(op, df, size), t, n - 1).used;
      OnwardOn(s.rdi, k, df, size);
      OnwardOn(s.rsi, k, df, size);
    }
  }
}
