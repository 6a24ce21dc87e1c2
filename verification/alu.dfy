/** Bitwise operators on unbounded naturals, bit by bit. */
module Bits {

  function Pow2(n: nat): (p: nat)
    ensures p > 0
  {
    if n == 0 then 1 else 2 * Pow2(n - 1)
  }

  function And(a: nat, b: nat): nat {
    if a == 0 || b == 0 then 0 else 2 * And(a / 2, b / 2) + (a % 2) * (b % 2)
  }

  function Xor(a: nat, b: nat): nat {
    if a == 0 then b else 2 * Xor(a / 2, b / 2) + (if a % 2 == b % 2 then 0 else 1)
  }

  function Or(a: nat, b: nat): nat {
    if a == 0 then b else if b == 0 then a
    else 2 * Or(a / 2, b / 2) + (if a % 2 == 0 && b % 2 == 0 then 0 else 1)
  }

  predicate Bit(x: nat, i: nat) {
    if i == 0 then x % 2 == 1 else Bit(x / 2, i - 1)
  }

  /** Number of set bits among the low `n`. */
  function Ones(x: nat, n: nat): nat {
    if n == 0 then 0 else x % 2 + Ones(x / 2, n - 1)
  }

  lemma {:induction false} Pow2Add(a: nat, b: nat)
    ensures Pow2(a + b) == Pow2(a) * Pow2(b)
    decreases a
  {
    if a > 0 { Pow2Add(a - 1, b); }
  }

  lemma BitOfZero(i: nat)
    ensures !Bit(0, i)
  {
  }

  lemma {:induction false} BitOfAnd(a: nat, b: nat, i: nat)
    ensures Bit(And(a, b), i) <==> Bit(a, i) && Bit(b, i)
    decreases i
  {
    BitOfZero(i);
    if a != 0 && b != 0 {
      assert And(a, b) / 2 == And(a / 2, b / 2);
      if i > 0 { BitOfAnd(a / 2, b / 2, i - 1); }
    }
  }

  lemma {:induction false} BitOfXor(a: nat, b: nat, i: nat)
    ensures Bit(Xor(a, b), i) <==> Bit(a, i) != Bit(b, i)
    decreases i
  {
    BitOfZero(i);
    if a != 0 {
      assert Xor(a, b) / 2 == Xor(a / 2, b / 2);
      if i > 0 { BitOfXor(a / 2, b / 2, i - 1); }
    }
  }

  /** Fields that do not overlap: or is plus. */
  lemma {:induction false} OrIsSum(q: nat, b: nat, n: nat)
    requires b < Pow2(n)
    ensures Or(Pow2(n) * q, b) == Pow2(n) * q + b
    decreases n
  {
    var a := Pow2(n) * q;
    if a != 0 && b != 0 {
      assert a == 2 * (Pow2(n - 1) * q);
      assert a / 2 == Pow2(n - 1) * q && a % 2 == 0;
      OrIsSum(q, b / 2, n - 1);
    }
  }

  /** Masking with a single bit tests it. */
  lemma {:induction false} TestBit(x: nat, i: nat)
    ensures And(x, Pow2(i)) != 0 <==> Bit(x, i)
    decreases i
  {
    BitOfZero(i);
    if x != 0 && i > 0 {
      TestBit(x / 2, i - 1);
      assert Pow2(i) / 2 == Pow2(i - 1) && Pow2(i) % 2 == 0;
    } else if i == 0 && x != 0 {
      assert And(x, 1) == 2 * And(x / 2, 0) + x % 2;
    }
  }

  /** Bit `i` says in which half of its 2^(i+1) period a number lies. */
  lemma {:induction false} BitIsHalf(x: nat, i: nat)
    ensures Bit(x, i) <==> x % (2 * Pow2(i)) >= Pow2(i)
    decreases i
  {
    if i > 0 {
      BitIsHalf(x / 2, i - 1);
      HalvePeriod(x, Pow2(i));
    }
  }

  lemma HalvePeriod(x: nat, p: nat)
    requires p > 0
    ensures x % (2 * p) == 2 * (x / 2 % p) + x % 2
  {
    var q, r := x / 2 / p, x / 2 % p;
    assert x / 2 == p * q + r;
    assert x == 2 * p * q + (2 * r + x % 2);
    ModUnique(x, 2 * p, q, 2 * r + x % 2);
  }

  lemma ModUnique(x: int, m: nat, q: int, r: int)
    requires m > 0 && x == m * q + r && 0 <= r < m
    ensures x % m == r && x / m == q
  {
    var q', r' := x / m, x % m;
    assert x == m * q' + r';
    if q' > q { MulGap(m, q, q'); }
    if q' < q { MulGap(m, q', q); }
  }

  lemma {:induction false} MulGap(m: nat, a: int, b: int)
    requires a < b
    ensures m * b >= m * a + m
    decreases b - a
  {
    if b > a + 1 { MulGap(m, a, b - 1); }
    assert m * b == m * (b - 1) + m;
  }
}

/** The register file and the arithmetic flags. */
module Alu {
  import opened Words
  import opened Bits

  type OpSize = s: nat | s == 1 || s == 2 || s == 4 || s == 8 witness 1

  /** One more than `size_mask`: masking an operand is reduction by this. */
  function Modulus(size: OpSize): int {
    match size case 1 => 0x100 case 2 => 0x1_0000 case 4 => 0x1_0000_0000 case _ => TWO_64
  }

  function Sign(size: OpSize): u64 {
    match size case 1 => 0x80 case 2 => 0x8000 case 4 => 0x8000_0000 case _ => 0x8000_0000_0000_0000
  }

  function Mask(v: u64, size: OpSize): u64 {
    match size case 1 => v % 0x100 case 2 => v % 0x1_0000 case 4 => v % 0x1_0000_0000 case _ => v
  }

  /** Wraps a sum or difference of operands back into the operand range. */
  function Wrap(v: int, size: OpSize): int {
    if v < 0 then v + Modulus(size) else if v >= Modulus(size) then v - Modulus(size) else v
  }

  /** Two's complement reading of an operand. */
  function Signed(v: int, size: OpSize): int {
    if v >= Sign(size) then v - Modulus(size) else v
  }

  predicate FitsSigned(v: int, size: OpSize) {
    0 <= v + Sign(size) < Modulus(size)
  }

  datatype Flags = Flags(cf: bool, pf: bool, af: bool, zf: bool, sf: bool, of: bool)

  lemma SignIsPow2(size: OpSize)
    ensures Pow2(8 * size - 1) == Sign(size) && 2 * Sign(size) == Modulus(size)
  {
    assert Pow2(7) == 0x80 && Pow2(15) == 0x8000 && Pow2(16) == 0x1_0000;
    Pow2Add(16, 15);
    Pow2Add(16, 16);
    Pow2Add(32, 31);
  }

  /** The sign bit of an operand, and the bit test the flag code does on it. */
  lemma SignBit(v: u64, size: OpSize)
    requires v < Modulus(size)
    ensures And(v, Sign(size)) != 0 <==> v >= Sign(size)
    ensures Bit(v, 8 * size - 1) <==> v >= Sign(size)
    ensures Pow2(8 * size - 1) == Sign(size)
  {
    SignIsPow2(size);
    TestBit(v, 8 * size - 1);
    BitIsHalf(v, 8 * size - 1);
    assert v % Modulus(size) == v;
  }

  // ---- bit-level overflow formulas ---------------------------------------------------

  /** `((d ^ r) & (s ^ r) & sign) != 0` is exactly signed overflow of `d + s`. */
  lemma AddOverflowBit(d: u64, s: u64, r: u64, size: OpSize)
    requires d < Modulus(size) && s < Modulus(size) && r == Wrap(d + s, size)
    ensures And(And(Xor(d, r), Xor(s, r)), Sign(size)) != 0
            <==> !FitsSigned(Signed(d, size) + Signed(s, size), size)
  {
    var i := 8 * size - 1;
    SignBit(d, size); SignBit(s, size); SignBit(r, size);
    TestBit(And(Xor(d, r), Xor(s, r)), i);
    BitOfAnd(Xor(d, r), Xor(s, r), i);
    BitOfXor(d, r, i);
    BitOfXor(s, r, i);
  }

  /** `((d ^ s) & (d ^ r) & sign) != 0` is exactly signed overflow of `d - s`. */
  lemma SubOverflowBit(d: u64, s: u64, r: u64, size: OpSize)
    requires d < Modulus(size) && s < Modulus(size) && r == Wrap(d - s, size)
    ensures And(And(Xor(d, s), Xor(d, r)), Sign(size)) != 0
            <==> !FitsSigned(Signed(d, size) - Signed(s, size), size)
  {
    var i := 8 * size - 1;
    SignBit(d, size); SignBit(s, size); SignBit(r, size);
    TestBit(And(Xor(d, s), Xor(d, r)), i);
    BitOfAnd(Xor(d, s), Xor(d, r), i);
    BitOfXor(d, s, i);
    BitOfXor(d, r, i);
  }

  /** `((d ^ s ^ r) & 0x10) != 0` is exactly the carry (borrow) into bit 4. */
  lemma NibbleBit(d: u64, s: u64, r: u64)
    ensures And(Xor(Xor(d, s), r), 0x10) != 0
            <==> ((d / 16 % 2 == 1) != (s / 16 % 2 == 1)) != (r / 16 % 2 == 1)
  {
    assert Pow2(4) == 0x10;
    TestBit(Xor(Xor(d, s), r), 4);
    BitOfXor(Xor(d, s), r, 4);
    BitOfXor(d, s, 4);
    FourthBit(d); FourthBit(s); FourthBit(r);
  }

  lemma FourthBit(x: nat)
    ensures Bit(x, 4) <==> x / 16 % 2 == 1
  {
    assert Bit(x, 4) == Bit(x / 2, 3) == Bit(x / 2 / 2, 2) == Bit(x / 2 / 2 / 2, 1) == Bit(x / 2 / 2 / 2 / 2, 0);
  }

  lemma ModulusIs32Fold(size: OpSize) returns (m: int)
    ensures Modulus(size) == 32 * m
  {
    m := Modulus(size) / 32;
  }

  /** Bit 4 and the low nibble of a number. */
  lemma Split32(x: int) returns (h: int, l: int)
    ensures h == x / 16 % 2 && l == x % 16
    ensures 0 <= h <= 1 && 0 <= l < 16 && x % 32 == 16 * h + l
  {
    h, l := x / 16 % 2, x % 16;
  }

  lemma Carry32(x: int, y: int, z: int, m: int)
    requires z == x + y + 32 * m
    ensures z % 32 == x % 32 + y % 32 || z % 32 == x % 32 + y % 32 - 32
  {
  }

  lemma Borrow32(x: int, y: int, c: int, z: int, m: int)
    requires z == x - y - c + 32 * m && 0 <= c <= 1
    ensures z % 32 == x % 32 - y % 32 - c || z % 32 == x % 32 - y % 32 - c + 32
  {
  }

  lemma NibbleCarry(d: u64, s: u64, r: u64, size: OpSize)
    requires d < Modulus(size) && s < Modulus(size) && r == Wrap(d + s, size)
    ensures ((d / 16 % 2 == 1) != (s / 16 % 2 == 1)) != (r / 16 % 2 == 1) <==> d % 16 + s % 16 >= 16
  {
    var m := ModulusIs32Fold(size);
    Carry32(d, s, r, if d + s >= Modulus(size) then -m else 0);
    var hd, ld := Split32(d);
    var hs, ls := Split32(s);
    var hr, lr := Split32(r);
  }

  lemma NibbleBorrow(d: u64, s: u64, c: int, r: u64, size: OpSize)
    requires 0 <= c <= 1 && d < Modulus(size) && s < Modulus(size) && r == Wrap(d - s - c, size)
    ensures ((d / 16 % 2 == 1) != (s / 16 % 2 == 1)) != (r / 16 % 2 == 1) <==> d % 16 < s % 16 + c
  {
    var m := ModulusIs32Fold(size);
    Borrow32(d, s, c, r, if d - s - c < 0 then m else 0);
    var hd, ld := Split32(d);
    var hs, ls := Split32(s);
    var hr, lr := Split32(r);
  }

  /** The AF test of an addition is the carry out of the low nibble. */
  lemma AddNibbleBit(d: u64, s: u64, r: u64, size: OpSize)
    requires d < Modulus(size) && s < Modulus(size) && r == Wrap(d + s, size)
    ensures And(Xor(Xor(d, s), r), 0x10) != 0 <==> d % 16 + s % 16 >= 16
  {
    NibbleBit(d, s, r);
    NibbleCarry(d, s, r, size);
  }

  /** The AF test of a subtraction is the borrow into the low nibble. */
  lemma SubNibbleBit(d: u64, s: u64, c: int, r: u64, size: OpSize)
    requires 0 <= c <= 1 && d < Modulus(size) && s < Modulus(size) && r == Wrap(d - s - c, size)
    ensures And(Xor(Xor(d, s), r), 0x10) != 0 <==> d % 16 < s % 16 + c
  {
    NibbleBit(d, s, r);
    NibbleBorrow(d, s, c, r, size);
  }
}
