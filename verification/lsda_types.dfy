/** What selects a landing pad, from the bytes: which filter matches the thrown type, and where control goes. */
module LsdaTypes {
  import opened Words
  import opened Memory
  import opened Leb128
  import opened Lsda
  import opened LsdaLists

  // ---- which handler an exception finds ------------------------------------------------

  /** Entry `index` of the type table stands for the type `stands`: for no particular one, written 0, when the stored
      value is zero; else for the pointer, or for what it points to when the encoding says so. */
  ghost predicate TypeStored(m: Mem, base: u64, encoding: u8, index: nat, imageBase: u64, funcStart: u64, stands: u64) {
    exists target: u64 :: TypeEntry(m, base, encoding, index, imageBase, funcStart, target)
      && if target == RelativeTo(encoding, base - index * FormatSize(encoding % 0x10), imageBase, funcStart) then stands == 0
         else if encoding >= 0x80 && target != 0 then Mapped(m, target, 8) && stands == FromLE(Slice(m, target, 8))
         else stands == target
  }

  /** The type table, from filter 1 on. */
  ghost predicate TypesStored(m: Mem, base: u64, encoding: u8, imageBase: u64, funcStart: u64, types: seq<u64>) {
    forall i :: 0 <= i < |types| ==> TypeStored(m, base, encoding, i + 1, imageBase, funcStart, types[i])
  }

  /** The filter is for the thrown type, or for a type at all when it is not known which was thrown. */
  predicate Catches(types: seq<u64>, thrown: Option<u64>, f: int) {
    1 <= f <= |types| && types[f - 1] != 0 && (thrown == None || thrown == Some(types[f - 1]))
  }

  /** The filter is for everything. */
  predicate CatchesAll(types: seq<u64>, f: int) {
    f == 0 || (1 <= f <= |types| && types[f - 1] == 0)
  }

  /** Of a chain of filters the `k`-th is selected: the first for the thrown type, or if there is none the
      first for everything. */
  ghost predicate Picks(types: seq<u64>, thrown: Option<u64>, chain: seq<int>, k: nat) {
    && k < |chain|
    && if Catches(types, thrown, chain[k]) then forall j :: 0 <= j < k ==> !Catches(types, thrown, chain[j])
       else
         && CatchesAll(types, chain[k])
         && (forall j :: 0 <= j < |chain| ==> !Catches(types, thrown, chain[j]))
         && (forall j :: 0 <= j < k ==> !CatchesAll(types, chain[j]))
  }

  /** What the code makes of a filter, on a type table as above. */
  lemma JudgesAsStored(t: Types, types: seq<u64>, f: int)
    requires f <= |types| && TypesStored(t.m, t.base, t.encoding, t.imageBase, t.funcStart, types)
    ensures t.Judge(f) == Match <==> Catches(types, t.thrown, f)
    ensures t.Judge(f) == CatchAll <==> CatchesAll(types, f)
  {
    if f > 0 {
      assert TypeStored(t.m, t.base, t.encoding, f - 1 + 1, t.imageBase, t.funcStart, types[f - 1]);
      var target: u64 :| TypeEntry(t.m, t.base, t.encoding, f, t.imageBase, t.funcStart, target)
        && if target == RelativeTo(t.encoding, t.base - f * FormatSize(t.encoding % 0x10), t.imageBase, t.funcStart) then types[f - 1] == 0
           else if t.encoding >= 0x80 && target != 0 then Mapped(t.m, target, 8) && types[f - 1] == FromLE(Slice(t.m, target, 8))
           else types[f - 1] == target;
      TypeEntryResolves(t.m, t.base, t.encoding, f, t.imageBase, t.funcStart, target);
    }
  }

  lemma {:induction false} FirstOfIs(judge: Judgement, filters: seq<int>, v: Verdict)
    ensures match FirstOf(judge, filters, v)
            case None => forall j :: 0 <= j < |filters| ==> judge(filters[j]) != v
            case Some(f) => exists k :: 0 <= k < |filters| && filters[k] == f && judge(f) == v && forall j :: 0 <= j < k ==> judge(filters[j]) != v
    decreases |filters|
  {
    if filters != [] && judge(filters[0]) != v {
      var rest := filters[1..];
      FirstOfIs(judge, rest, v);
      match FirstOf(judge, rest, v)
      case None =>
      case Some(f) =>
        var k :| 0 <= k < |rest| && rest[k] == f && judge(f) == v && forall j :: 0 <= j < k ==> judge(rest[j]) != v;
        assert filters[k + 1] == f;
        forall j | 0 <= j < k + 1 ensures judge(filters[j]) != v { if j > 0 { assert filters[j] == rest[j - 1]; } }
    }
  }

  lemma SelectPicks(t: Types, types: seq<u64>, chain: seq<int>)
    requires TypesStored(t.m, t.base, t.encoding, t.imageBase, t.funcStart, types)
    requires forall j :: 0 <= j < |chain| ==> chain[j] <= |types|
    ensures match Select(JudgementOf(t), chain)
            case None => forall k: nat :: !Picks(types, t.thrown, chain, k)
            case Some(f) => exists k: nat :: Picks(types, t.thrown, chain, k) && chain[k] == f
  {
    var judge := JudgementOf(t);
    forall j | 0 <= j < |chain|
      ensures judge(chain[j]) == Match <==> Catches(types, t.thrown, chain[j])
      ensures judge(chain[j]) == CatchAll <==> CatchesAll(types, chain[j])
    {
      JudgesAsStored(t, types, chain[j]);
    }
    FirstOfIs(judge, chain, Match);
    FirstOfIs(judge, chain, CatchAll);
    match FirstOf(judge, chain, Match)
    case Some(f) =>
      var k :| 0 <= k < |chain| && chain[k] == f && judge(f) == Match && forall j :: 0 <= j < k ==> judge(chain[j]) != Match;
      assert Picks(types, t.thrown, chain, k);
    case None =>
      match FirstOf(judge, chain, CatchAll)
      case None =>
      case Some(f) =>
        var k :| 0 <= k < |chain| && chain[k] == f && judge(f) == CatchAll && forall j :: 0 <= j < k ==> judge(chain[j]) != CatchAll;
        assert Picks(types, t.thrown, chain, k);
  }

  /** The chain of a site. */
  function ChainOf(t: Tables, s: Site): seq<int> {
    if s.action.Some? then Chain(t.recs, s.action.value, 32) else []
  }

  /** Where the addresses of the sites count from. */
  function SiteBase(t: Tables, base: u64): u64 { if t.Format() == ABSPTR then 0 else base }

  /** Site `i` covers `pc` or the address it follows, has a landing pad, and the `k`-th filter of its chain
      is selected. */
  ghost predicate Lands(t: Tables, base: u64, types: seq<u64>, pc: u64, thrown: Option<u64>, i: nat, k: nat) {
    && i < |t.sites| && t.sites[i].pad != 0 && t.sites[i].len > 0
    && SiteBase(t, base) + t.sites[i].start <= pc <= SiteBase(t, base) + t.sites[i].start + t.sites[i].len
    && Picks(types, thrown, ChainOf(t, t.sites[i]), k)
  }

  /** Addresses of the sites, and of their landing pads, do not run past the top of memory. */
  predicate InSpace(t: Tables, base: u64) {
    forall s :: s in t.sites ==> SiteBase(t, base) + s.start + s.len < TWO_64 && SiteBase(t, base) + s.pad < TWO_64
  }

  lemma {:induction false} ChainFilters(recs: seq<Record>, i: nat, left: nat, most: int)
    requires forall j :: 0 <= j < |recs| ==> recs[j].filter <= most
    ensures forall j :: 0 <= j < |Chain(recs, i, left)| ==> Chain(recs, i, left)[j] <= most
    decreases left
  {
    if left > 0 && i < |recs| && recs[i].link.Some? { ChainFilters(recs, recs[i].link.value, left - 1, most); }
  }

  /** One site of the search, in terms of what is thrown and what is caught. */
  lemma HandlesIs(t: Tables, ts: Types, h: Head, base: u64, types: seq<u64>, pc: u64, i: nat)
    requires i < |t.sites| && InSpace(t, base) && pc > 0 && (forall r :: r in t.recs ==> r.filter <= |types|)
    requires h.lpBase == base && h.format == t.Format() && h.typeEnc != OMIT
    requires TypesStored(ts.m, ts.base, ts.encoding, ts.imageBase, ts.funcStart, types)
    ensures match Handles(ts, h, t.recs, t.sites[i], pc)
            case None => forall k: nat :: !Lands(t, base, types, pc, ts.thrown, i, k)
            case Some(f) => exists k: nat :: Lands(t, base, types, pc, ts.thrown, i, k) && ChainOf(t, t.sites[i])[k] == f
  {
    var s := t.sites[i];
    assert s in t.sites;
    CoversReturnAddress(base, h.format == ABSPTR, s.start, s.len, pc);
    if s.action.Some? {
      forall j | 0 <= j < |t.recs| ensures t.recs[j].filter <= |types| { assert t.recs[j] in t.recs; }
      ChainFilters(t.recs, s.action.value, MAX_RECORDS, |types|);
      SelectPicks(ts, types, ChainOf(t, s));
    }
  }

  /** What an exception finds, given its handler or that there is none. */
  ghost predicate Found(t: Tables, base: u64, types: seq<u64>, pc: u64, thrown: Option<u64>, r: Option<LandingPad>) {
    match r
    case None => forall i: nat, k: nat :: !Lands(t, base, types, pc, thrown, i, k)
    case Some(lp) =>
      exists i: nat, k: nat :: Lands(t, base, types, pc, thrown, i, k) && LandsAt(t, base, i, k, lp)
        && forall j: nat, k': nat :: j < i ==> !Lands(t, base, types, pc, thrown, j, k')
  }

  /** The landing pad of site `i`, its action, and the `k`-th filter of its chain. */
  predicate LandsAt(t: Tables, base: u64, i: nat, k: nat, lp: LandingPad) {
    && i < |t.sites| && k < |ChainOf(t, t.sites[i])|
    && lp.pad == SiteBase(t, base) + t.sites[i].pad && lp.switchValue == ChainOf(t, t.sites[i])[k]
    && t.sites[i].action.Some? && t.sites[i].action.value < |t.offs| && lp.action == t.offs[t.sites[i].action.value] + 1
  }

  lemma AnswerIsFound(t: Tables, ts: Types, h: Head, base: u64, types: seq<u64>, pc: u64)
    requires InSpace(t, base) && pc > 0 && (forall r :: r in t.recs ==> r.filter <= |types|) && t.SitesFit()
    requires h.lpBase == base && h.format == t.Format() && h.typeEnc != OMIT
    requires TypesStored(ts.m, ts.base, ts.encoding, ts.imageBase, ts.funcStart, types)
    ensures Found(t, base, types, pc, ts.thrown, Answer(ts, h, t.recs, t.offs, t.sites, pc))
  {
    var first := FirstHandler(ts, h, t.recs, t.sites, pc);
    forall j: nat, k: nat | j < |t.sites| && (first.Some? ==> j < first.value) ensures !Lands(t, base, types, pc, ts.thrown, j, k) {
      HandlesIs(t, ts, h, base, types, pc, j);
    }
    if first.Some? {
      var i := first.value;
      HandlesIs(t, ts, h, base, types, pc, i);
      var f := Handles(ts, h, t.recs, t.sites[i], pc).value;
      var k: nat :| Lands(t, base, types, pc, ts.thrown, i, k) && ChainOf(t, t.sites[i])[k] == f;
      assert t.sites[i] in t.sites;
      assert LandsAt(t, base, i, k, Answer(ts, h, t.recs, t.offs, t.sites, pc).value);
    }
  }

  /** Where the type table of the tables ends. */
  function TypeBase(t: Tables, p: Place): u64
    requires t.start.Fits(p)
  {
    Sat(p.lsda + 2 + |t.start.Bytes(p)| + |EncodeUleb(t.typeOff)| + t.typeOff)
  }

  /** On bytes: an exception lands at the first call site that covers the address, has a landing pad and
      whose chain has a filter for the thrown type or for everything; the filter is the first for the
      type, or else the first for everything; and if there is no such site none is found. */
  lemma CatchIsFound(m: Mem, t: Tables, p: Place, base: u64, types: seq<u64>, pc: u64, thrown: Option<u64>)
    requires t.Fits(p) && Stored(m, p.lsda, t.Header(p) + t.Sites())
    requires Laid(m, p.lsda + |t.Header(p)| + |t.Sites()|, t.recs, t.offs)
    requires t.start.Base(m, p) == Some(base) && t.typeEnc != OMIT
    requires TypesStored(m, TypeBase(t, p), t.typeEnc, p.imageBase, p.funcStart, types)
    requires InSpace(t, base) && pc > 0 && forall r :: r in t.recs ==> r.filter <= |types|
    ensures Found(t, base, types, pc, thrown, Search(m, p.lsda, p.imageBase, p.funcStart, pc, thrown))
  {
    LandingPadOnBytes(m, t, p, pc, thrown);
    var h := t.HeadAt(p, base);
    AnswerIsFound(t, TypesOf(m, h, p.imageBase, p.funcStart, thrown), h, base, types, pc);
  }
}
