/** LEB128 numbers in guest memory, read as the exception tables are read: at most nine bytes. */
module Leb128 {
  import opened Words
  import opened Memory
  import opened Bits

  /** A number read and the address after it. */
  datatype Num = Num(v: int, next: u64)

  const MAX_BYTES := 9

  function Pow128(n: nat): (p: nat)
    ensures p > 0
  {
    if n == 0 then 1 else 0x80 * Pow128(n - 1)
  }

  function Byte(m: Mem, c: u64): Option<u8> {
    if c in m then Some(m[c]) else None
  }

  /** The number whose first `n` bytes were already read: `left` bytes may still be. */
  function Uleb(m: Mem, c: u64, left: nat): (r: Option<Num>)
    ensures r.Some? ==> 0 <= r.value.v < Pow128(left)
    decreases left, c
  {
    if left == 0 then None
    else
      match Byte(m, c)
      case None => None
      case Some(b) =>
        if b < 0x80 then Some(Num(b, SatAdd(c, 1)))
        else
          match Uleb(m, SatAdd(c, 1), left - 1)
          case None => None
          case Some(r) => Some(Num(b - 0x80 + 0x80 * r.v, r.next))
  }

  /** What `n` groups of seven bits hold in two's complement. */
  predicate SlebFits(v: int, n: nat) {
    2 * v < Pow128(n) && -(2 * v) <= Pow128(n)
  }

  function Sleb(m: Mem, c: u64, left: nat): (r: Option<Num>)
    ensures r.Some? ==> SlebFits(r.value.v, left)
    decreases left, c
  {
    if left == 0 then None
    else
      match Byte(m, c)
      case None => None
      case Some(b) =>
        if b < 0x80 then Some(Num(if b < 0x40 then b else b - 0x80, SatAdd(c, 1)))
        else
          match Sleb(m, SatAdd(c, 1), left - 1)
          case None => None
          case Some(r) => Some(Num(b - 0x80 + 0x80 * r.v, r.next))
  }

  /** `1 << 7 * n`. */
  lemma {:induction false} ShiftIsWeight(n: nat)
    ensures Pow2(7 * n) == Pow128(n)
    decreases n
  {
    if n > 0 {
      ShiftIsWeight(n - 1);
      var s := 7 * n - 7;
      Pow2Add(7, s);
      assert Pow2(7) == 0x80;
    }
  }

  /** A further group of seven bits goes above those already there. */
  lemma NextGroup(acc: nat, weight: nat, group: nat, rest: int)
    requires acc < weight && group < 0x80
    ensures acc + group * weight < 0x80 * weight
    ensures acc + group * weight + rest * (0x80 * weight) == acc + (group + 0x80 * rest) * weight
  {
    assert group * weight <= 0x7f * weight;
  }

  /** `read_uleb128`: the value is assembled from disjoint groups of seven bits. */
  method ReadUleb(m: Mem, start: u64) returns (r: Option<Num>)
    ensures r == Uleb(m, start, MAX_BYTES)
  {
    var v, shift, c := 0, 0, start;
    ghost var n := 0;
    while true
      invariant 0 <= n < MAX_BYTES && shift == 7 * n && 0 <= v < Pow128(n)
      invariant Uleb(m, start, MAX_BYTES) ==
                match Uleb(m, c, MAX_BYTES - n)
                case None => None
                case Some(rest) => Some(Num(v + rest.v * Pow128(n), rest.next))
      decreases MAX_BYTES - n
    {
      var b := Byte(m, c);
      if b.None? { return None; }
      ShiftIsWeight(n);
      UlebGroup(m, c, v, n);
      c := SatAdd(c, 1);
      v := v + b.value % 0x80 * Pow2(shift);
      if b.value < 0x80 { return Some(Num(v, c)); }
      shift := shift + 7;
      if shift > 56 { return None; }
      n := n + 1;
    }
  }

  lemma UlebGroup(m: Mem, c: u64, acc: nat, n: nat)
    requires n < MAX_BYTES && acc < Pow128(n) && Byte(m, c).Some?
    ensures var b, u := Byte(m, c).value, Uleb(m, c, MAX_BYTES - n);
            var acc' := acc + b % 0x80 * Pow128(n);
            && acc' < Pow128(n + 1)
            && (b < 0x80 ==> u == Some(Num(b, SatAdd(c, 1))) && acc' == acc + b * Pow128(n))
            && (b >= 0x80 ==>
                var w := Uleb(m, SatAdd(c, 1), MAX_BYTES - n - 1);
                && u.Some? == w.Some?
                && (w.Some? ==> u.value.next == w.value.next && acc + u.value.v * Pow128(n) == acc' + w.value.v * Pow128(n + 1)))
  {
    var b := Byte(m, c).value;
    var w := Uleb(m, SatAdd(c, 1), MAX_BYTES - n - 1);
    NextGroup(acc, Pow128(n), b % 0x80, if w.Some? then w.value.v else 0);
  }

  /** `read_sleb128`: as unsigned, then sign-extended from the top bit of the last group. */
  method ReadSleb(m: Mem, start: u64) returns (r: Option<Num>)
    ensures r == Sleb(m, start, MAX_BYTES)
  {
    var v, shift, c := 0, 0, start;
    ghost var n := 0;
    while true
      invariant 0 <= n < MAX_BYTES && shift == 7 * n && 0 <= v < Pow128(n)
      invariant Sleb(m, start, MAX_BYTES) ==
                match Sleb(m, c, MAX_BYTES - n)
                case None => None
                case Some(rest) => Some(Num(v + rest.v * Pow128(n), rest.next))
      decreases MAX_BYTES - n
    {
      var b := Byte(m, c);
      if b.None? { return None; }
      ShiftIsWeight(n); ShiftIsWeight(n + 1);
      SlebGroup(m, c, v, n);
      c := SatAdd(c, 1);
      v := v + b.value % 0x80 * Pow2(shift);
      shift := shift + 7;
      if b.value < 0x80 {
        if shift < 64 && b.value >= 0x40 { v := v - Pow2(shift); }
        return Some(Num(v, c));
      }
      if shift > 56 { return None; }
      n := n + 1;
    }
  }

  lemma SlebGroup(m: Mem, c: u64, acc: nat, n: nat)
    requires n < MAX_BYTES && acc < Pow128(n) && Byte(m, c).Some?
    ensures var b, u := Byte(m, c).value, Sleb(m, c, MAX_BYTES - n);
            var acc' := acc + b % 0x80 * Pow128(n);
            && acc' < Pow128(n + 1)
            && (b < 0x80 ==>
                && u.Some? && u.value.next == SatAdd(c, 1)
                && acc + u.value.v * Pow128(n) == if b < 0x40 then acc' else acc' - Pow128(n + 1))
            && (b >= 0x80 ==>
                var w := Sleb(m, SatAdd(c, 1), MAX_BYTES - n - 1);
                && u.Some? == w.Some?
                && (w.Some? ==> u.value.next == w.value.next && acc + u.value.v * Pow128(n) == acc' + w.value.v * Pow128(n + 1)))
  {
    var b := Byte(m, c).value;
    var w := Sleb(m, SatAdd(c, 1), MAX_BYTES - n - 1);
    NextGroup(acc, Pow128(n), b % 0x80, if b < 0x80 then (if b < 0x40 then 0 else -1) else if w.Some? then w.value.v else 0);
  }

  // ---- writing -------------------------------------------------------------------------

  function EncodeUleb(v: nat): (b: Bytes)
    ensures |b| > 0
  {
    if v < 0x80 then [v] else [v % 0x80 + 0x80] + EncodeUleb(v / 0x80)
  }

  function EncodeSleb(v: int): (b: Bytes)
    ensures |b| > 0
    decreases if v < 0 then -v else v
  {
    if -0x40 <= v < 0x40 then [v % 0x80] else [v % 0x80 + 0x80] + EncodeSleb(v / 0x80)
  }

  /** `data` is stored at `a`, and not at the very top of the address space. */
  ghost predicate Stored(m: Mem, a: int, data: Bytes) {
    Mapped(m, a, |data|) && a + |data| < TWO_64 && Slice(m, a, |data|) == data
  }

  lemma StoredSplit(m: Mem, a: int, x: Bytes, y: Bytes)
    requires Stored(m, a, x + y)
    ensures Stored(m, a, x) && Stored(m, a + |x|, y)
  {
    SliceJoin(m, a, |x|, |y|);
    assert (x + y)[..|x|] == x && (x + y)[|x|..] == y;
  }

  lemma StoredFirst(m: Mem, a: int, data: Bytes)
    requires Stored(m, a, data) && data != []
    ensures Byte(m, a) == Some(data[0]) && SatAdd(a, 1) == a + 1
  {
    assert Slice(m, a, |data|)[0] == Peek(m, a);
  }

  /** Encoding and decoding are inverse below 2^63 unsigned. */
  lemma {:induction false} UlebRoundTrip(m: Mem, a: int, v: nat, left: nat)
    requires Stored(m, a, EncodeUleb(v)) && v < Pow128(left) && left > 0
    ensures Uleb(m, a, left) == Some(Num(v, a + |EncodeUleb(v)|))
    decreases left
  {
    StoredFirst(m, a, EncodeUleb(v));
    if v >= 0x80 {
      StoredSplit(m, a, [v % 0x80 + 0x80], EncodeUleb(v / 0x80));
      UlebRoundTrip(m, a + 1, v / 0x80, left - 1);
    }
  }

  /** And between -2^62 and 2^62 signed. */
  lemma {:induction false} SlebRoundTrip(m: Mem, a: int, v: int, left: nat)
    requires Stored(m, a, EncodeSleb(v)) && SlebFits(v, left) && left > 0
    ensures Sleb(m, a, left) == Some(Num(v, a + |EncodeSleb(v)|))
    decreases left
  {
    StoredFirst(m, a, EncodeSleb(v));
    if !(-0x40 <= v < 0x40) {
      StoredSplit(m, a, [v % 0x80 + 0x80], EncodeSleb(v / 0x80));
      SlebRoundTrip(m, a + 1, v / 0x80, left - 1);
    }
  }

  /** What does not fit is refused: the encoding of a larger number is never read back. */
  lemma {:induction false} UlebRefuses(m: Mem, a: int, v: nat, left: nat)
    requires Stored(m, a, EncodeUleb(v)) && v >= Pow128(left)
    ensures Uleb(m, a, left) == None
    decreases left
  {
    if left > 0 {
      StoredFirst(m, a, EncodeUleb(v));
      StoredSplit(m, a, [v % 0x80 + 0x80], EncodeUleb(v / 0x80));
      UlebRefuses(m, a + 1, v / 0x80, left - 1);
    }
  }

  lemma Limits()
    ensures Pow128(MAX_BYTES) == TWO_63
  {
  }
}
