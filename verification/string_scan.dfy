/** REPE/REPNE SCAS and CMPS: a search for the first element whose comparison ends the run. */
module StringScan {
  import opened Words
  import opened Memory
  import opened Alu
  import opened ExecArith
  import opened StringBlocks
  import opened StringOps
  import opened StringRuns
  import opened StringFills

  /** What is compared with the element at RDI: the accumulator, or the element at RSI. */
  datatype Scan = Scas(acc: u64, rdi: u64) | Cmps(rsi: u64, rdi: u64)

  /** The little-endian number in the `n` bytes from `a`. */
  function ValueAt(m: Mem, a: int, n: nat): nat
    decreases n, a
  {
    if n == 0 then 0 else Peek(m, a) + 0x100 * ValueAt(m, a + 1, n - 1)
  }

  lemma {:induction false} ValueIsSlice(m: Mem, a: int, n: nat)
    ensures ValueAt(m, a, n) == FromLE(Slice(m, a, n))
    decreases n
  {
    if n > 0 {
      ValueIsSlice(m, a + 1, n - 1);
      assert Slice(m, a, n)[1..] == Slice(m, a + 1, n - 1);
    }
  }

  function Left(m: Mem, s: Scan, size: OpSize): nat {
    match s
    case Scas(acc, _) => acc
    case Cmps(rsi, _) => ValueAt(m, rsi, size)
  }

  /** The two values a comparison loads. */
  function Pair(m: Mem, s: Scan, size: OpSize): (nat, nat) {
    (Left(m, s, size), ValueAt(m, s.rdi, size))
  }

  function SteppedScan(s: Scan, df: bool, size: OpSize): Scan {
    match s
    case Scas(acc, rdi) => Scas(acc, Stepped(rdi, df, size))
    case Cmps(rsi, rdi) => Cmps(Stepped(rsi, df, size), Stepped(rdi, df, size))
  }

  /** REPE stops on an unequal pair, REPNE on an equal one. */
  predicate Stops(pair: (nat, nat), repe: bool, repne: bool) {
    (repe && pair.0 != pair.1) || (repne && pair.0 == pair.1)
  }

  /** Both operands of the comparison are mapped. */
  predicate Loadable(m: Mem, s: Scan, size: OpSize) {
    Mapped(m, s.rdi, size) && (s.Cmps? ==> Mapped(m, s.rsi, size))
  }

  /** Why a run ends: no elements are left, a comparison stopped it, or an operand is not mapped. */
  datatype Outcome = Exhausted | Stopped | Faulted

  /** Where a run ends: the pointers, how many elements it used, the last pair compared, and why. */
  datatype End = End(scan: Scan, used: nat, last: Option<(nat, nat)>, how: Outcome)

  /** A scan's comparisons: what can be loaded, the pair it looks at, where it goes next, and what
      stops it. */
  datatype Scanner = Scanner(ready: Scan -> bool, pair: Scan -> (nat, nat), next: Scan -> Scan, stops: ((nat, nat)) -> bool)

  function Stepper(df: bool, size: OpSize): Scan -> Scan {
    s => SteppedScan(s, df, size)
  }

  function ScannerOf(m: Mem, df: bool, size: OpSize, repe: bool, repne: bool): Scanner {
    Scanner(s => Loadable(m, s, size), s => Pair(m, s, size), Stepper(df, size), pair => Stops(pair, repe, repne))
  }

  /** The architecture's repeated SCAS or CMPS over at most `n` elements. */
  function Scanned(sc: Scanner, s: Scan, last: Option<(nat, nat)>, n: nat): End
    decreases n
  {
    if n == 0 then End(s, 0, last, Exhausted)
    else if !sc.ready(s) then End(s, 0, last, Faulted)
    else
      var pair := sc.pair(s);
      if sc.stops(pair) then End(sc.next(s), 1, Some(pair), Stopped)
      else
        var e := Scanned(sc, sc.next(s), Some(pair), n - 1);
        e.(used := e.used + 1)
  }

  /** The scan seen from its `i`-th element. */
  function Nth(next: Scan -> Scan, s: Scan, i: nat): Scan
    decreases i
  {
    if i == 0 then s else Nth(next, next(s), i - 1)
  }

  /** A run uses the elements through the least one that stops it, or those in front of the least one
      that is not mapped, or all of them if there is neither; the pointers move over exactly those, and
      the last of them is what was compared last. Elements further on are never looked at. */
  lemma {:induction false} ScannedFindsLeast(sc: Scanner, s: Scan, last: Option<(nat, nat)>, n: nat)
    ensures var e := Scanned(sc, s, last, n);
            && e.used <= n && e.scan == Nth(sc.next, s, e.used)
            && (forall i :: 0 <= i < e.used ==>
                  var t := Nth(sc.next, s, i); sc.ready(t) && (sc.stops(sc.pair(t)) <==> e.how == Stopped && i == e.used - 1))
            && e.last == (if e.used == 0 then last else Some(sc.pair(Nth(sc.next, s, e.used - 1))))
            && (e.how == Stopped ==> e.used > 0) && (e.how == Exhausted ==> e.used == n)
            && (e.how == Faulted ==> e.used < n && !sc.ready(Nth(sc.next, s, e.used)))
    decreases n
  {
    if n > 0 && sc.ready(s) {
      var pair, t := sc.pair(s), sc.next(s);
      if !sc.stops(pair) {
        ScannedFindsLeast(sc, t, Some(pair), n - 1);
        var e := Scanned(sc, s, last, n);
        forall i | 0 < i <= e.used
          ensures Nth(sc.next, s, i) == Nth(sc.next, t, i - 1)
        {
        }
      } else {
        assert Nth(sc.next, s, 1) == Nth(sc.next, t, 0) == t;
      }
    }
  }

  // ---- the same in plain terms ---------------------------------------------------------

  /** The number in memory that is the `i`-th element from `a`. */
  function ElementAt(m: Mem, a: u64, i: nat, df: bool, size: OpSize): nat {
    FromLE(Slice(m, Onward(a, i, df, size), size))
  }

  /** What the `i`-th element is compared with: the accumulator, or the `i`-th element from RSI. */
  function Against(m: Mem, s: Scan, i: nat, df: bool, size: OpSize): nat {
    match s case Scas(acc, _) => acc case Cmps(rsi, _) => ElementAt(m, rsi, i, df, size)
  }

  /** The scan whose pointers have moved over `i` elements. */
  predicate MovedOver(t: Scan, s: Scan, i: nat, df: bool, size: OpSize) {
    && t.rdi == Onward(s.rdi, i, df, size)
    && (s.Scas? ==> t == Scas(s.acc, t.rdi)) && (s.Cmps? ==> t == Cmps(Onward(s.rsi, i, df, size), t.rdi))
  }

  lemma {:induction false} NthMoved(s: Scan, i: nat, df: bool, size: OpSize)
    ensures MovedOver(Nth(Stepper(df, size), s, i), s, i, df, size)
    decreases i
  {
    if i == 0 {
      OnwardOn(s.rdi, 0, df, size);
      if s.Cmps? { OnwardOn(s.rsi, 0, df, size); }
    } else {
      var k: nat := i - 1;
      NthMoved(SteppedScan(s, df, size), k, df, size);
      OnwardOn(s.rdi, k, df, size);
      if s.Cmps? { OnwardOn(s.rsi, k, df, size); }
    }
  }

  /** Element `i` does not end a REPE, or a REPNE, run. */
  predicate Passes(m: Mem, s: Scan, i: nat, df: bool, size: OpSize, repe: bool, repne: bool) {
    && (repe ==> Against(m, s, i, df, size) == ElementAt(m, s.rdi, i, df, size))
    && (repne ==> Against(m, s, i, df, size) != ElementAt(m, s.rdi, i, df, size))
  }

  /** Both operands at element `i` are mapped. */
  predicate Readable(m: Mem, s: Scan, i: nat, df: bool, size: OpSize) {
    Mapped(m, Onward(s.rdi, i, df, size), size) && (s.Cmps? ==> Mapped(m, Onward(s.rsi, i, df, size), size))
  }

  lemma NthPair(m: Mem, s: Scan, i: nat, df: bool, size: OpSize, repe: bool, repne: bool)
    ensures var sc := ScannerOf(m, df, size, repe, repne);
            var t := Nth(sc.next, s, i);
            && MovedOver(t, s, i, df, size) && sc.ready(t) == Loadable(m, t, size)
            && sc.pair(t) == (Against(m, s, i, df, size), ElementAt(m, s.rdi, i, df, size))
            && (sc.stops(sc.pair(t)) <==> !Passes(m, s, i, df, size, repe, repne))
  {
    NthMoved(s, i, df, size);
    var t := Nth(Stepper(df, size), s, i);
    ValueIsSlice(m, t.rdi, size);
    if t.Cmps? { ValueIsSlice(m, t.rsi, size); }
  }

  /** REPE passes over equal and REPNE over unequal pairs. The run ends behind the first pair it does not
      pass over, in front of the first that is not mapped, or with its count. */
  lemma ScanFinds(m: Mem, s: Scan, last: Option<(nat, nat)>, n: nat, df: bool, size: OpSize, repe: bool, repne: bool)
    ensures var e := Scanned(ScannerOf(m, df, size, repe, repne), s, last, n);
            && e.used <= n && MovedOver(e.scan, s, e.used, df, size)
            && (forall i: nat :: i < e.used ==> (Passes(m, s, i, df, size, repe, repne) <==> !(e.how == Stopped && i == e.used - 1)))
            && (forall i: nat :: i < e.used ==> Readable(m, s, i, df, size))
            && (e.how == Stopped ==> e.used > 0) && (e.how == Exhausted ==> e.used == n)
            && (e.how == Faulted ==> e.used < n && (!Mapped(m, e.scan.rdi, size) || (s.Cmps? && !Mapped(m, e.scan.rsi, size))))
            && (e.used > 0 ==> var k: nat := e.used - 1;
                  e.last == Some((Against(m, s, k, df, size), ElementAt(m, s.rdi, k, df, size))))
  {
    var sc := ScannerOf(m, df, size, repe, repne);
    var e := Scanned(sc, s, last, n);
    ScannedFindsLeast(sc, s, last, n);
    NthPair(m, s, e.used, df, size, repe, repne);
    if e.used > 0 { NthPair(m, s, e.used - 1, df, size, repe, repne); }
    forall i: nat | i < e.used
      ensures Passes(m, s, i, df, size, repe, repne) <==> !(e.how == Stopped && i == e.used - 1)
    {
      NthPair(m, s, i, df, size, repe, repne);
    }
    forall i: nat | i < e.used ensures Readable(m, s, i, df, size) {
      NthPair(m, s, i, df, size, repe, repne);
    }
  }

  /** Cutting a run after `b` elements and resuming it changes nothing. */
  lemma {:induction false} ScannedResumes(sc: Scanner, s: Scan, last: Option<(nat, nat)>, n: nat, b: nat)
    requires b <= n
    ensures var e, whole := Scanned(sc, s, last, b), Scanned(sc, s, last, n);
            if e.how != Exhausted then whole == e
            else
              var rest := Scanned(sc, e.scan, e.last, n - b);
              e.used == b && whole == rest.(used := rest.used + b)
    decreases b
  {
    if b > 0 && sc.ready(s) {
      var pair := sc.pair(s);
      if !sc.stops(pair) { ScannedResumes(sc, sc.next(s), Some(pair), n - 1, b - 1); }
    }
  }

  // ---- the interpreter -----------------------------------------------------------------

  class ScanCpu {
    var rax: u64
    var rcx: u64
    var rsi: u64
    var rdi: u64
    var df: bool
    const regs: RegFile

    constructor (regs: RegFile)
      ensures this.regs == regs
    {
      this.regs := regs;
    }

    /** The scan this state is about to make; `acc` is the accumulator cut to the operand. */
    function ScanOf(cmps: bool, acc: u64): Scan
      reads this
    {
      if cmps then Cmps(rsi, rdi) else Scas(acc, rdi)
    }

    /** Loads both operands of one comparison, sets the flags and moves the pointers. */
    method CompareStep(mem: GuestMemory, cmps: bool, acc: u64, size: OpSize) returns (zf: bool)
      requires Loadable(mem.bytes, ScanOf(cmps, acc), size) && acc < Modulus(size)
      modifies this, regs
      ensures var (a, b) := Pair(mem.bytes, old(ScanOf(cmps, acc)), size);
              Compared(old(regs.rflags), regs.rflags, Some((a, b)), size) && zf == (a == b)
      ensures ScanOf(cmps, acc) == SteppedScan(old(ScanOf(cmps, acc)), df, size)
      ensures rcx == old(rcx) && df == old(df) && rax == old(rax) && (!cmps ==> rsi == old(rsi))
    {
      var a := acc;
      ValueIsSlice(mem.bytes, rdi, size);
      if cmps {
        ValueIsSlice(mem.bytes, rsi, size);
        a := mem.ReadNumber(rsi, size);
      }
      var b := mem.ReadNumber(rdi, size);
      var difference := regs.ExecSub(a, b, size);
      rdi := Stepped(rdi, df, size);
      if cmps { rsi := Stepped(rsi, df, size); }
      zf := Reads(regs.rflags, ZF);
    }
  }

  /** RFLAGS shows the comparison of the last pair; it is what it `was` if there was none. */
  ghost predicate Compared(was: bv64, now: bv64, last: Option<(nat, nat)>, size: OpSize) {
    match last
    case None => now == was
    case Some(pair) =>
      && pair.0 < Modulus(size) && pair.1 < Modulus(size)
      && FlagsOf(now) == Arch(Cmp, pair.0, pair.1, false, size).1
  }

  /** One comparison of a scan. */
  function Single(sc: Scanner, s: Scan, last: Option<(nat, nat)>): End {
    if !sc.ready(s) then End(s, 0, last, Faulted)
    else End(sc.next(s), 1, Some(sc.pair(s)), if sc.stops(sc.pair(s)) then Stopped else Exhausted)
  }

  /** The CPU has run a scan with `rcx` elements to its end `e`. */
  ghost predicate Ran(e: End, s: Scan, rcx: int, left: int, was: bv64, now: bv64, size: OpSize) {
    s == e.scan && left == rcx - e.used && Compared(was, now, e.last, size)
  }

  /** One element: loaded, compared and counted, or a fault. */
  method ScanElement(cpu: ScanCpu, mem: GuestMemory, cmps: bool, acc: u64, size: OpSize, repe: bool, repne: bool,
                     ghost sc: Scanner, ghost was: bv64, ghost last: Option<(nat, nat)>) returns (how: Outcome)
    requires sc == ScannerOf(mem.bytes, cpu.df, size, repe, repne)
    requires cpu.rcx > 0 && acc < Modulus(size) && Compared(was, cpu.regs.rflags, last, size)
    modifies cpu, cpu.regs
    ensures var e := Single(sc, old(cpu.ScanOf(cmps, acc)), last);
            Ran(e, cpu.ScanOf(cmps, acc), old(cpu.rcx), cpu.rcx, was, cpu.regs.rflags, size) && how == e.how
    ensures cpu.rax == old(cpu.rax) && cpu.df == old(cpu.df) && (!cmps ==> cpu.rsi == old(cpu.rsi))
  {
    if !Loadable(mem.bytes, cpu.ScanOf(cmps, acc), size) { return Faulted; }
    var zf := cpu.CompareStep(mem, cmps, acc, size);
    cpu.rcx := cpu.rcx - 1;
    how := if (repe && !zf) || (repne && zf) then Stopped else Exhausted;
  }

  /** After `k` elements a run stands at `s`: what is left of it ends as the whole does, or it is over. */
  ghost predicate Continues(sc: Scanner, whole: End, s: Scan, last: Option<(nat, nat)>, left: nat, k: nat, how: Outcome) {
    if how == Exhausted then var e := Scanned(sc, s, last, left); whole == e.(used := e.used + k)
    else whole == End(s, k, last, how)
  }

  lemma TakeOne(sc: Scanner, whole: End, s: Scan, last: Option<(nat, nat)>, left: nat, k: nat)
    requires left > 0 && Continues(sc, whole, s, last, left, k, Exhausted)
    ensures var e := Single(sc, s, last);
            e.used == (if e.how == Faulted then 0 else 1) && Continues(sc, whole, e.scan, e.last, left - e.used, k + e.used, e.how)
  {
  }

  /** One element of a run, `left` before its end and `k` after its beginning. */
  method ScanTurn(cpu: ScanCpu, mem: GuestMemory, cmps: bool, acc: u64, size: OpSize, repe: bool, repne: bool,
                  ghost sc: Scanner, ghost was: bv64, ghost last: Option<(nat, nat)>, ghost whole: End, ghost left: nat, ghost k: nat)
      returns (how: Outcome, ghost seen: Option<(nat, nat)>)
    requires sc == ScannerOf(mem.bytes, cpu.df, size, repe, repne) && acc < Modulus(size)
    requires 0 < left <= cpu.rcx && Compared(was, cpu.regs.rflags, last, size)
    requires Continues(sc, whole, cpu.ScanOf(cmps, acc), last, left, k, Exhausted)
    modifies cpu, cpu.regs
    ensures Compared(was, cpu.regs.rflags, seen, size)
    ensures var done := if how == Faulted then 0 else 1;
            cpu.rcx == old(cpu.rcx) - done && Continues(sc, whole, cpu.ScanOf(cmps, acc), seen, left - done, k + done, how)
    ensures cpu.rax == old(cpu.rax) && cpu.df == old(cpu.df) && (!cmps ==> cpu.rsi == old(cpu.rsi))
  {
    seen := Single(sc, cpu.ScanOf(cmps, acc), last).last;
    TakeOne(sc, whole, cpu.ScanOf(cmps, acc), last, left, k);
    how := ScanElement(cpu, mem, cmps, acc, size, repe, repne, sc, was, last);
  }

  /** The element loop of SCAS and CMPS over at most `n` elements. */
  method ScanLoop(cpu: ScanCpu, mem: GuestMemory, cmps: bool, acc: u64, n: nat, size: OpSize, repe: bool, repne: bool,
                  ghost sc: Scanner, ghost was: bv64, ghost last: Option<(nat, nat)>) returns (how: Outcome)
    requires sc == ScannerOf(mem.bytes, cpu.df, size, repe, repne)
    requires n <= cpu.rcx && acc < Modulus(size) && Compared(was, cpu.regs.rflags, last, size)
    modifies cpu, cpu.regs
    ensures var e := Scanned(sc, old(cpu.ScanOf(cmps, acc)), last, n);
            Ran(e, cpu.ScanOf(cmps, acc), old(cpu.rcx), cpu.rcx, was, cpu.regs.rflags, size) && how == e.how
    ensures cpu.rax == old(cpu.rax) && cpu.df == old(cpu.df) && (!cmps ==> cpu.rsi == old(cpu.rsi))
  {
    ghost var seen, whole := last, Scanned(sc, cpu.ScanOf(cmps, acc), last, n);
    var count := n;
    how := Exhausted;
    while count > 0 && how == Exhausted
      invariant 0 <= count <= n && cpu.rcx == old(cpu.rcx) - (n - count)
      invariant cpu.rax == old(cpu.rax) && cpu.df == old(cpu.df) && (!cmps ==> cpu.rsi == old(cpu.rsi))
      invariant Compared(was, cpu.regs.rflags, seen, size)
      invariant Continues(sc, whole, cpu.ScanOf(cmps, acc), seen, count, n - count, how)
      decreases count, how == Exhausted
    {
      how, seen := ScanTurn(cpu, mem, cmps, acc, size, repe, repne, sc, was, seen, whole, count, n - count);
      if how != Faulted { count := count - 1; }
    }
  }

  /** `string_scas` and `string_cmps` with a repeat prefix: one batch of the scan. RIP stays exactly
      when the batch did something and no element stopped it; there is no answer after a fault. */
  method ScanBatch(cpu: ScanCpu, mem: GuestMemory, cmps: bool, acc: u64, size: OpSize, repe: bool, repne: bool,
                   ghost sc: Scanner, ghost was: bv64, ghost last: Option<(nat, nat)>) returns (stay: Option<bool>)
    requires sc == ScannerOf(mem.bytes, cpu.df, size, repe, repne)
    requires acc < Modulus(size) && Compared(was, cpu.regs.rflags, last, size)
    modifies cpu, cpu.regs
    ensures var e := Scanned(sc, old(cpu.ScanOf(cmps, acc)), last, Batch(old(cpu.rcx)));
            && Ran(e, cpu.ScanOf(cmps, acc), old(cpu.rcx), cpu.rcx, was, cpu.regs.rflags, size)
            && stay == (if e.how == Faulted then None else Some(old(cpu.rcx) > 0 && e.how != Stopped))
    ensures cpu.rax == old(cpu.rax) && cpu.df == old(cpu.df) && (!cmps ==> cpu.rsi == old(cpu.rsi))
  {
    if cpu.rcx == 0 { return Some(false); }
    var n := if cpu.rcx < REP_BULK_MAX then cpu.rcx else REP_BULK_MAX;
    var how := ScanLoop(cpu, mem, cmps, acc, n, size, repe, repne, sc, was, last);
    stay := if how == Faulted then None else Some(how != Stopped);
  }

  /** Finishing what a batch left is finishing the whole. */
  lemma RanAll(sc: Scanner, s: Scan, last: Option<(nat, nat)>, n: nat, b: nat, t: Scan, left: int, was: bv64, now: bv64, size: OpSize)
    requires b <= n && Scanned(sc, s, last, b).how == Exhausted
    requires var e := Scanned(sc, s, last, b); Ran(Scanned(sc, e.scan, e.last, n - b), t, n - b, left, was, now, size)
    ensures var e, whole := Scanned(sc, s, last, b), Scanned(sc, s, last, n);
            && Ran(whole, t, n, left, was, now, size) && whole.used >= b
            && whole.how == Scanned(sc, e.scan, e.last, n - b).how
  {
    ScannedResumes(sc, s, last, n, b);
  }

  /** A batch that ended the run, or had nothing to do. */
  lemma RanOut(sc: Scanner, s: Scan, last: Option<(nat, nat)>, n: nat, b: nat)
    requires b <= n && (n == 0 || Scanned(sc, s, last, b).how != Exhausted)
    ensures Scanned(sc, s, last, n) == Scanned(sc, s, last, b)
  {
    ScannedResumes(sc, s, last, n, b);
  }

  /** The steps; RAX does not change, so every step cuts the same accumulator. */
  method StepUntilDone(cpu: ScanCpu, mem: GuestMemory, cmps: bool, acc: u64, size: OpSize, repe: bool, repne: bool,
                       ghost sc: Scanner, ghost was: bv64, ghost last: Option<(nat, nat)>) returns (steps: nat, fault: bool)
    requires sc == ScannerOf(mem.bytes, cpu.df, size, repe, repne)
    requires acc < Modulus(size) && Compared(was, cpu.regs.rflags, last, size)
    modifies cpu, cpu.regs
    ensures var e := Scanned(sc, old(cpu.ScanOf(cmps, acc)), last, old(cpu.rcx));
            && Ran(e, cpu.ScanOf(cmps, acc), old(cpu.rcx), cpu.rcx, was, cpu.regs.rflags, size)
            && fault == (e.how == Faulted)
    ensures cpu.rax == old(cpu.rax) && cpu.df == old(cpu.df) && (!cmps ==> cpu.rsi == old(cpu.rsi))
    decreases cpu.rcx
  {
    ghost var s, n, b := cpu.ScanOf(cmps, acc), cpu.rcx, Batch(cpu.rcx);
    ghost var e := Scanned(sc, s, last, b);
    ScannedFindsLeast(sc, s, last, b);
    var stay := ScanBatch(cpu, mem, cmps, acc, size, repe, repne, sc, was, last);
    if stay != Some(true) {
      RanOut(sc, s, last, n, b);
      return 1, stay == None;
    }
    var rest;
    rest, fault := StepUntilDone(cpu, mem, cmps, acc, size, repe, repne, sc, was, e.last);
    RanAll(sc, s, last, n, b, cpu.ScanOf(cmps, acc), cpu.rcx, was, cpu.regs.rflags, size);
    steps := 1 + rest;
  }

  /** Stepping a repeated SCAS or CMPS until RIP leaves it or a load faults: the whole scan, wherever
      the batch limit cut it, on any memory; the flags are those of the last comparison, untouched if
      there was none. */
  method RunRepScan(cpu: ScanCpu, mem: GuestMemory, cmps: bool, size: OpSize, repe: bool, repne: bool)
      returns (steps: nat, fault: bool)
    modifies cpu, cpu.regs
    ensures var acc := Mask(old(cpu.rax), size);
            var e := Scanned(ScannerOf(mem.bytes, cpu.df, size, repe, repne), old(cpu.ScanOf(cmps, acc)), None, old(cpu.rcx));
            && Ran(e, cpu.ScanOf(cmps, acc), old(cpu.rcx), cpu.rcx, old(cpu.regs.rflags), cpu.regs.rflags, size)
            && fault == (e.how == Faulted)
    ensures cpu.rax == old(cpu.rax) && cpu.df == old(cpu.df) && (!cmps ==> cpu.rsi == old(cpu.rsi))
  {
    MaskBound(cpu.rax, size);
    ghost var sc := ScannerOf(mem.bytes, cpu.df, size, repe, repne);
    steps, fault := StepUntilDone(cpu, mem, cmps, Mask(cpu.rax, size), size, repe, repne, sc, cpu.regs.rflags, None);
  }
}
