/** Byte-addressed guest memory and little-endian words. */
module Memory {
  import opened Words

  type Bytes = seq<u8>
  type Mem = map<u64, u8>

  /** The `len` bytes from `a` are mapped and do not run past the top of the address space. */
  predicate Mapped(m: Mem, a: int, len: nat) {
    0 <= a && a + len <= TWO_64 && forall x: u64 :: a <= x < a + len ==> x in m
  }

  function Peek(m: Mem, a: int): u8 {
    if a in m then m[a] else 0
  }

  function Poke(m: Mem, a: int, v: u8): Mem {
    if a in m then m[a := v] else m
  }

  /** The `len` bytes from `a`; unmapped bytes read as zero. */
  function Slice(m: Mem, a: int, len: nat): (s: Bytes)
    ensures |s| == len
    decreases len, a
  {
    if len == 0 then [] else [Peek(m, a)] + Slice(m, a + 1, len - 1)
  }

  /** `m` with `data` written from `a`, wherever that is mapped. */
  function Overwrite(m: Mem, a: int, data: Bytes): Mem
    decreases |data|
  {
    if data == [] then m else Overwrite(Poke(m, a, data[0]), a + 1, data[1..])
  }

  /** `v.to_le_bytes()[..n]`. */
  function LE(v: nat, n: nat): (s: Bytes)
    ensures |s| == n
  {
    if n == 0 then [] else [v % 0x100] + LE(v / 0x100, n - 1)
  }

  function FromLE(s: Bytes): nat {
    if s == [] then 0 else s[0] + 0x100 * FromLE(s[1..])
  }

  function Pow256(n: nat): (p: nat)
    ensures p > 0
  {
    if n == 0 then 1 else 0x100 * Pow256(n - 1)
  }

  lemma {:induction false} FromLEBound(s: Bytes)
    ensures FromLE(s) < Pow256(|s|)
    decreases |s|
  {
    if s != [] { FromLEBound(s[1..]); }
  }

  lemma {:induction false} LEFromLE(s: Bytes)
    ensures LE(FromLE(s), |s|) == s
    decreases |s|
  {
    if s != [] {
      LEFromLE(s[1..]);
      assert FromLE(s) % 0x100 == s[0] && FromLE(s) / 0x100 == FromLE(s[1..]);
    }
  }

  lemma {:induction false} FromLELE(v: nat, n: nat)
    requires v < Pow256(n)
    ensures FromLE(LE(v, n)) == v
    decreases n
  {
    if n > 0 {
      FromLELE(v / 0x100, n - 1);
      assert LE(v, n)[1..] == LE(v / 0x100, n - 1);
    }
  }

  // ---- overwriting -------------------------------------------------------------------

  lemma {:induction false} OverwriteKeys(m: Mem, a: int, data: Bytes)
    ensures Overwrite(m, a, data).Keys == m.Keys
    decreases |data|
  {
    if data != [] {
      assert Poke(m, a, data[0]).Keys == m.Keys;
      OverwriteKeys(Poke(m, a, data[0]), a + 1, data[1..]);
    }
  }

  lemma {:induction false} OverwriteJoin(m: Mem, a: int, x: Bytes, y: Bytes)
    ensures Overwrite(Overwrite(m, a, x), a + |x|, y) == Overwrite(m, a, x + y)
    decreases |x|
  {
    if x == [] {
      assert [] + y == y;
    } else {
      OverwriteJoin(Poke(m, a, x[0]), a + 1, x[1..], y);
      assert (x + y)[0] == x[0] && (x + y)[1..] == x[1..] + y;
    }
  }

  lemma {:induction false} PokeLater(m: Mem, b: int, v: u8, a: int, x: Bytes)
    requires b < a || a + |x| <= b
    ensures Overwrite(Poke(m, b, v), a, x) == Poke(Overwrite(m, a, x), b, v)
    decreases |x|
  {
    if x != [] {
      assert Poke(Poke(m, b, v), a, x[0]) == Poke(Poke(m, a, x[0]), b, v);
      PokeLater(Poke(m, a, x[0]), b, v, a + 1, x[1..]);
    }
  }

  /** Writes to disjoint ranges commute. */
  lemma {:induction false} OverwriteSwap(m: Mem, a: int, x: Bytes, b: int, y: Bytes)
    requires a + |x| <= b || b + |y| <= a
    ensures Overwrite(Overwrite(m, b, y), a, x) == Overwrite(Overwrite(m, a, x), b, y)
    decreases |y|
  {
    if y != [] {
      OverwriteSwap(Poke(m, b, y[0]), a, x, b + 1, y[1..]);
      PokeLater(m, b, y[0], a, x);
    }
  }

  lemma {:induction false} SliceJoin(m: Mem, a: int, n: nat, k: nat)
    ensures Slice(m, a, n + k) == Slice(m, a, n) + Slice(m, a + n, k)
    decreases n
  {
    if n > 0 { SliceJoin(m, a + 1, n - 1, k); }
  }

  lemma {:induction false} SlicePoke(m: Mem, b: int, v: u8, a: int, k: nat)
    requires b < a || a + k <= b
    ensures Slice(Poke(m, b, v), a, k) == Slice(m, a, k)
    decreases k
  {
    if k > 0 { SlicePoke(m, b, v, a + 1, k - 1); }
  }

  /** Reading what was not overwritten. */
  lemma {:induction false} SliceApart(m: Mem, a: int, data: Bytes, b: int, k: nat)
    requires b + k <= a || a + |data| <= b
    ensures Slice(Overwrite(m, a, data), b, k) == Slice(m, b, k)
    decreases |data|
  {
    if data != [] {
      SliceApart(Poke(m, a, data[0]), a + 1, data[1..], b, k);
      SlicePoke(m, a, data[0], b, k);
    }
  }

  /** Reading back what was just written. */
  lemma {:induction false} SliceBack(m: Mem, a: int, data: Bytes)
    requires Mapped(m, a, |data|)
    ensures Slice(Overwrite(m, a, data), a, |data|) == data
    decreases |data|
  {
    if data != [] {
      var m1 := Poke(m, a, data[0]);
      SliceBack(m1, a + 1, data[1..]);
      PokeLater(m, a, data[0], a + 1, data[1..]);
      OverwriteKeys(m, a + 1, data[1..]);
      assert Peek(Overwrite(m, a, data), a) == data[0];
    }
  }
}
