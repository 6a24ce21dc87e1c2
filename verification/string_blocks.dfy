/** Runs of elements as blocks of bytes: what copying or filling element by element leaves behind. */
module StringBlocks {
  import opened Words
  import opened Memory
  import opened Alu

  /** Bytes in `n` elements. */
  function Span(n: nat, size: nat): nat {
    if n == 0 then 0 else size + Span(n - 1, size)
  }

  lemma {:induction false} SpanAdd(n: nat, k: nat, size: nat)
    ensures Span(n + k, size) == Span(n, size) + Span(k, size)
    decreases n
  {
    if n > 0 { SpanAdd(n - 1, k, size); }
  }

  /** The byte length the code computes for `n` elements. */
  function ByteLen(n: nat, size: OpSize): nat {
    match size case 1 => n case 2 => 2 * n case 4 => 4 * n case _ => 8 * n
  }

  lemma {:induction false} SpanIsByteLen(n: nat, size: OpSize)
    ensures Span(n, size) == ByteLen(n, size)
    decreases n
  {
    if n > 0 { SpanIsByteLen(n - 1, size); }
  }

  /** Where the pointer stands after `n` elements, before any wrap-around. */
  function At(a: int, n: nat, df: bool, size: nat): int {
    if df then a - Span(n, size) else a + Span(n, size)
  }

  lemma AtAt(a: int, k: nat, j: nat, df: bool, size: nat)
    ensures At(At(a, k, df, size), j, df, size) == At(a, k + j, df, size)
    ensures At(a, 0, df, size) == a
    ensures At(a, 1, df, size) == if df then a - size else a + size
  {
    SpanAdd(k, j, size);
    assert Span(1, size) == size + Span(0, size);
  }

  /** Lowest address of a run of `n` elements starting at `a`. */
  function Lowest(a: int, n: nat, df: bool, size: nat): int
    requires n > 0
  {
    if df then a - Span(n - 1, size) else a
  }

  /** Every element of the run is mapped and none of it wraps. */
  ghost predicate RunOk(m: Mem, a: int, n: nat, df: bool, size: nat) {
    n > 0 ==> Mapped(m, Lowest(a, n, df, size), Span(n, size))
  }

  lemma MappedPart(m: Mem, a: int, len: nat, b: int, k: nat)
    requires Mapped(m, a, len) && a <= b && b + k <= a + len
    ensures Mapped(m, b, k)
  {
  }

  /** A run splits into its first `k` elements and the rest. */
  lemma RunRest(m: Mem, a: int, n: nat, k: nat, df: bool, size: nat)
    requires RunOk(m, a, n, df, size) && k <= n
    ensures RunOk(m, a, k, df, size) && RunOk(m, At(a, k, df, size), n - k, df, size)
  {
    if n > 0 {
      var lo, len := Lowest(a, n, df, size), Span(n, size);
      SpanAdd(k, n - k, size);
      if k > 0 {
        SpanAdd(k - 1, 1, size);
        SpanAdd(k - 1, n - k, size);
        MappedPart(m, lo, len, Lowest(a, k, df, size), Span(k, size));
      }
      if k < n {
        SpanAdd(n - k - 1, k, size);
        MappedPart(m, lo, len, Lowest(At(a, k, df, size), n - k, df, size), Span(n - k, size));
      }
    }
  }

  // ---- one element at a time -----------------------------------------------------------

  /** The architecture's REP MOVS: copy an element, move both pointers, repeat. */
  function MovsElems(m: Mem, rsi: int, rdi: int, n: nat, df: bool, size: nat): Mem
    decreases n
  {
    if n == 0 then m
    else
      MovsElems(Overwrite(m, rdi, Slice(m, rsi, size)), At(rsi, 1, df, size), At(rdi, 1, df, size), n - 1, df, size)
  }

  /** The architecture's REP STOS. */
  function StosElems(m: Mem, rdi: int, n: nat, elem: Bytes, df: bool): Mem
    decreases n
  {
    if n == 0 then m
    else StosElems(Overwrite(m, rdi, elem), At(rdi, 1, df, |elem|), n - 1, elem, df)
  }

  // ---- whole blocks --------------------------------------------------------------------

  predicate Disjoint(a: int, b: int, len: nat) {
    a + len <= b || b + len <= a
  }

  lemma LowestRest(a: int, n: nat, df: bool, size: nat)
    requires n > 1
    ensures Lowest(At(a, 1, df, size), n - 1, df, size) == if df then Lowest(a, n, df, size) else a + size
    ensures df ==> Lowest(a, n, df, size) + Span(n - 1, size) == a
    ensures Span(n, size) == size + Span(n - 1, size)
  {
    AtAt(a, 0, 0, df, size);
    SpanAdd(n - 2, 1, size);
    SpanAdd(1, n - 2, size);
  }

  /** Copying the lower part of a block and then the upper part, or the other way round. */
  lemma CopyJoin(m: Mem, s: int, d: int, low: nat, high: nat)
    requires Disjoint(s, d, low + high)
    ensures var m1 := Overwrite(m, d, Slice(m, s, low));
            Overwrite(m1, d + low, Slice(m1, s + low, high)) == Overwrite(m, d, Slice(m, s, low + high))
    ensures var m1 := Overwrite(m, d + low, Slice(m, s + low, high));
            Overwrite(m1, d, Slice(m1, s, low)) == Overwrite(m, d, Slice(m, s, low + high))
  {
    var x, y := Slice(m, s, low), Slice(m, s + low, high);
    SliceJoin(m, s, low, high);
    SliceApart(m, d, x, s + low, high);
    SliceApart(m, d + low, y, s, low);
    OverwriteJoin(m, d, x, y);
    OverwriteSwap(m, d, x, d + low, y);
  }

  /** On ranges that do not overlap, element-wise copying in either direction is one block copy. */
  lemma {:induction false} MovsIsBlock(m: Mem, rsi: int, rdi: int, n: nat, df: bool, size: nat)
    requires n > 0
    requires Disjoint(Lowest(rsi, n, df, size), Lowest(rdi, n, df, size), Span(n, size))
    ensures MovsElems(m, rsi, rdi, n, df, size) ==
              Overwrite(m, Lowest(rdi, n, df, size), Slice(m, Lowest(rsi, n, df, size), Span(n, size)))
    decreases n
  {
    if n == 1 {
      assert Span(1, size) == size + Span(0, size);
      assert Lowest(rsi, 1, df, size) == rsi && Lowest(rdi, 1, df, size) == rdi;
    } else {
      LowestRest(rsi, n, df, size); LowestRest(rdi, n, df, size);
      MovsIsBlock(Overwrite(m, rdi, Slice(m, rsi, size)), At(rsi, 1, df, size), At(rdi, 1, df, size), n - 1, df, size);
      if df {
        CopyJoin(m, Lowest(rsi, n, df, size), Lowest(rdi, n, df, size), Span(n - 1, size), size);
      } else {
        CopyJoin(m, rsi, rdi, size, Span(n - 1, size));
      }
    }
  }

  function Repeat(elem: Bytes, n: nat): (s: Bytes)
  {
    if n == 0 then [] else elem + Repeat(elem, n - 1)
  }

  lemma {:induction false} RepeatAppend(elem: Bytes, n: nat, k: nat)
    ensures Repeat(elem, n) + Repeat(elem, k) == Repeat(elem, n + k)
    decreases n
  {
    if n > 0 {
      RepeatAppend(elem, n - 1, k);
      assert Repeat(elem, n) + Repeat(elem, k) == elem + (Repeat(elem, n - 1) + Repeat(elem, k));
    } else {
      assert Repeat(elem, 0) + Repeat(elem, k) == Repeat(elem, k);
    }
  }

  lemma {:induction false} RepeatSpan(elem: Bytes, n: nat)
    ensures |Repeat(elem, n)| == Span(n, |elem|)
    ensures n == 1 ==> Repeat(elem, n) == elem
    decreases n
  {
    if n > 0 { RepeatSpan(elem, n - 1); }
    if n == 1 { assert elem + [] == elem; }
  }

  /** Element-wise filling in either direction is one block fill. */
  lemma {:induction false} StosIsBlock(m: Mem, rdi: int, n: nat, elem: Bytes, df: bool)
    requires n > 0
    ensures StosElems(m, rdi, n, elem, df) == Overwrite(m, Lowest(rdi, n, df, |elem|), Repeat(elem, n))
    decreases n
  {
    var size := |elem|;
    RepeatSpan(elem, n);
    var m1, d := Overwrite(m, rdi, elem), At(rdi, 1, df, size);
    if n == 1 {
      assert Lowest(rdi, 1, df, size) == rdi;
    } else {
      LowestRest(rdi, n, df, size);
      StosIsBlock(m1, d, n - 1, elem, df);
      RepeatSpan(elem, n - 1);
      RepeatSpan(elem, 1);
      var dlo := Lowest(d, n - 1, df, size);
      if df {
        RepeatAppend(elem, n - 1, 1);
        OverwriteSwap(m, dlo, Repeat(elem, n - 1), rdi, elem);
        OverwriteJoin(m, dlo, Repeat(elem, n - 1), elem);
      } else {
        OverwriteJoin(m, rdi, elem, Repeat(elem, n - 1));
      }
    }
  }

  lemma RepeatTake(elem: Bytes, n: nat, k: nat)
    requires k <= n
    ensures Span(k, |elem|) <= |Repeat(elem, n)|
    ensures Repeat(elem, n)[..Span(k, |elem|)] == Repeat(elem, k)
  {
    RepeatAppend(elem, k, n - k);
    RepeatSpan(elem, k);
  }

  // ---- pointers ------------------------------------------------------------------------

  /** While elements remain, the pointer has not wrapped. */
  lemma RunInside(m: Mem, a: int, n: nat, k: nat, df: bool, size: OpSize)
    requires RunOk(m, a, n, df, size) && k < n
    ensures 0 <= At(a, k, df, size) && At(a, k, df, size) + size <= TWO_64
    ensures Mapped(m, At(a, k, df, size), size)
  {
    RunRest(m, a, n, k, df, size);
    RunRest(m, At(a, k, df, size), n - k, 1, df, size);
    assert Span(1, size) == size + Span(0, size);
  }

  lemma RunKeys(m: Mem, m': Mem, a: int, n: nat, df: bool, size: nat)
    requires RunOk(m, a, n, df, size) && m.Keys == m'.Keys
    ensures RunOk(m', a, n, df, size)
  {
  }

  /** The pointer after a whole run is a 64-bit value once wrapped. */
  lemma RunPointer(m: Mem, a: int, n: nat, df: bool, size: OpSize)
    requires RunOk(m, a, n, df, size) && 0 <= a < TWO_64
    ensures 0 <= Wrap64(At(a, n, df, size)) < TWO_64
    ensures 0 <= Span(n, size) <= TWO_64
  {
    if n > 0 {
      RunInside(m, a, n, n - 1, df, size);
      AtAt(a, n - 1, 1, df, size);
    }
  }

  /** `p.wrapping_add(step as u64)`: one element on, in the direction DF selects. */
  function Stepped(p: u64, df: bool, size: OpSize): u64 {
    if df then WrapSub(p, size) else WrapAdd(p, size)
  }

  /** Stepping the pointer of element `k` gives the pointer of element `k + 1`. */
  lemma PointerStep(m: Mem, a: u64, n: nat, k: nat, df: bool, size: OpSize)
    requires RunOk(m, a, n, df, size) && k < n
    ensures 0 <= At(a, k, df, size) < TWO_64
    ensures Stepped(At(a, k, df, size), df, size) == Wrap64(At(a, k + 1, df, size))
    ensures Wrap64(At(a, k, df, size)) == At(a, k, df, size)
  {
    RunInside(m, a, n, k, df, size);
    AtAt(a, k, 1, df, size);
  }

  /** Different counts span different lengths. */
  lemma SpanMonotone(n: nat, k: nat, size: nat)
    requires size > 0
    ensures n < k ==> Span(n, size) + size <= Span(k, size)
    ensures k < n ==> Span(k, size) + size <= Span(n, size)
  {
    if n < k { SpanAdd(n + 1, k - n - 1, size); SpanAdd(n, 1, size); }
    if k < n { SpanAdd(k + 1, n - k - 1, size); SpanAdd(k, 1, size); }
    assert Span(1, size) == size + Span(0, size);
  }
}
