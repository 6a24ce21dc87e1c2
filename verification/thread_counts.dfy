/** What the steps of a run of the threads add up to: which of them create threads, end the process, count
    a call or put a thread to sleep, and what the process then shows. */
module ThreadCounts {
  import opened Words
  import opened Threads

  predicate Creates(r: Region, c: Choice) { c.Spawn? && (r.Dispatch? || r.PDispatch?) }

  predicate Ends(r: Region, c: Choice, dying: bool) {
    r.PJoin? || (r.PApiEnter? && c.Api? && c.exits) || (r.ApiEnter? && r.exits && !dying)
  }

  predicate Exits(r: Region, c: Choice, dying: bool) {
    || r.Finish? || (dying && r.Top?) || (r.ApiEnter? && (dying || r.exits))
    || (c.Failed? && (r.SehDispatch? || r.Dispatch?)) || (c.ExitThread? && r.Dispatch?)
  }

  /** Calls `finish_tid`. */
  predicate Marks(r: Region, c: Choice, dying: bool) { Exits(r, c, dying) || (dying && (r.Poll? || r.Result?)) }

  /** Starts the pending threads. */
  predicate Starts(r: Region) { r.PDrain? || r.PTargetDrain? || r.PRequestDrain? || r.PSliceDrain? }

  /** Makes the thread the active one. */
  predicate TakesOver(r: Region) { r.Top? || r.SehEnter? || r.ApiEnter? || r.PTop? || r.PApiEnter? || r.PActivate? }

  predicate Charges(r: Region, c: Choice) {
    || (r.PActivate? && r.charged) || (!c.Failed? && (r.PSeh? || r.PCallback?)) || (r.PDispatch? && (c.Go? || c.Spawn?))
  }

  predicate Noises(r: Region, c: Choice) { r.PDispatch? && c.NoisyApi? }
  predicate Idles(r: Region, c: Choice) { r.PApiEnter? && c.QuantumOver? }

  /** Ends a series of quanta without a stop. */
  predicate Stops(r: Region, c: Choice) { r.PApiEnter? && (c.Unknown? || c.Callback? || c.Seh? || c.Api?) }

  datatype Event = Creation | Ending | Mark | Charging | Noising | Idling | Stopping | Rerun

  predicate Happens(ev: Event, pc: Pc, c: Choice, dying: bool) {
    match pc
    case In(r) => (
      match ev
      case Creation => Creates(r, c)
      case Ending => Ends(r, c, dying)
      case Mark => Marks(r, c, dying)
      case Charging => Charges(r, c)
      case Noising => Noises(r, c)
      case Idling => Idles(r, c)
      case Stopping => Stops(r, c)
      case Rerun => false)
    case Free(a) => ev.Rerun? && a.PReturned?
    case Wait(_) => false
  }

  function One(b: bool): nat { if b then 1 else 0 }

  /** What an effect does to the threads, and to the process. */
  ghost predicate Staffs(e: Effect, r: Region, c: Choice) {
    e.spawn == Creates(r, c) && e.drain == Starts(r) && e.activate == TakesOver(r)
  }

  ghost predicate Flags(e: Effect, r: Region, c: Choice, dying: bool) {
    e.die == Ends(r, c, dying) && e.finish == Marks(r, c, dying) && HasLeft(e.next) == Exits(r, c, dying)
  }

  ghost predicate Does(e: Effect, r: Region, c: Choice, dying: bool) {
    Staffs(e, r, c) && Flags(e, r, c, dying)
  }

  /** And what it counts. */
  ghost predicate Counts(n: Count, r: Region, c: Choice) {
    n == if Charges(r, c) then Charge else if Noises(r, c) then Noise else if Idles(r, c) then Idle else if Stops(r, c) then Hit else Same
  }

  lemma WorkerStaffs(r: Region, c: Choice, dying: bool)
    requires !PrimaryRegion(r) && !r.Dispatch? && !r.ApiEnter?
    ensures var e := WorkerIn(r, c, dying); e.Some? ==> Staffs(e.value, r, c)
  {
  }

  lemma WorkerFlags(r: Region, c: Choice, dying: bool)
    requires !PrimaryRegion(r) && !r.Dispatch? && !r.ApiEnter?
    ensures var e := WorkerIn(r, c, dying); e.Some? ==> Flags(e.value, r, c, dying)
  {
  }

  lemma ApiEnterDoes(exits: bool, c: Choice, dying: bool)
    ensures var e := WorkerIn(ApiEnter(exits), c, dying); e.Some? ==> Does(e.value, ApiEnter(exits), c, dying)
  {
  }

  lemma HandlerDoes(c: Choice, dying: bool)
    ensures var e := AfterDispatch(c); e.Some? ==> Does(e.value, Dispatch, c, dying)
  {
  }

  lemma AfterRunDoes(c: Choice, spent: bool, dying: bool)
    ensures var e := PAfterRun(c, spent); e.Some? ==> Does(e.value, PApiEnter, c, dying) && Counts(e.value.count, PApiEnter, c)
  {
  }

  lemma AfterDispatchDoes(c: Choice, dying: bool)
    ensures var e := PAfterDispatch(c); e.Some? ==> Does(e.value, PDispatch, c, dying) && Counts(e.value.count, PDispatch, c)
  {
  }

  lemma PrimaryStaffs(r: Region, c: Choice, v: View)
    requires PrimaryRegion(r) && !r.PApiEnter? && !r.PDispatch?
    ensures var e := PrimaryIn(r, c, v); e.Some? ==> Staffs(e.value, r, c)
  {
  }

  lemma PrimaryFlags(r: Region, c: Choice, v: View)
    requires PrimaryRegion(r) && !r.PApiEnter? && !r.PDispatch?
    ensures var e := PrimaryIn(r, c, v); e.Some? ==> Flags(e.value, r, c, v.dying)
  {
  }

  lemma PrimaryTallies(r: Region, c: Choice, v: View)
    requires PrimaryRegion(r) && !r.PApiEnter? && !r.PDispatch?
    ensures var e := PrimaryIn(r, c, v); e.Some? ==> Counts(e.value.count, r, c)
  {
  }

  /** In a locked region. */
  lemma RegionDoes(t: nat, r: Region, c: Choice, v: View)
    requires LeadsOn(t == 0, In(r))
    ensures var e := Act(t, In(r), c, v); e.Some? ==> Does(e.value, r, c, v.dying)
  {
    if r.PApiEnter? {
      AfterRunDoes(c, v.spent, v.dying);
    } else if r.PDispatch? {
      AfterDispatchDoes(c, v.dying);
    } else if r.Dispatch? {
      HandlerDoes(c, v.dying);
    } else if r.ApiEnter? {
      ApiEnterDoes(r.exits, c, v.dying);
    } else if t == 0 {
      PrimaryStaffs(r, c, v);
      PrimaryFlags(r, c, v);
    } else {
      WorkerStaffs(r, c, v.dying);
      WorkerFlags(r, c, v.dying);
    }
  }

  lemma RegionCounts(r: Region, c: Choice, v: View)
    requires PrimaryRegion(r)
    ensures var e := PrimaryIn(r, c, v); e.Some? ==> Counts(e.value.count, r, c)
  {
    if r.PApiEnter? {
      AfterRunDoes(c, v.spent, v.dying);
    } else if r.PDispatch? {
      AfterDispatchDoes(c, v.dying);
    } else {
      PrimaryTallies(r, c, v);
    }
  }

  /** And without the lock, or in front of it. */
  lemma FreeDoes(t: nat, pc: Pc, c: Choice, v: View)
    requires LeadsOn(t == 0, pc) && !pc.In?
    ensures var e := Act(t, pc, c, v);
            e.Some? ==> var f := e.value;
              && !f.activate && !f.die && !f.spawn && !f.drain && !f.finish && !HasLeft(f.next)
              && (if pc == Free(PReturned) then c.Again? && f.count == Fresh(c.maxApi) else f.count == Same)
  {
  }

  /** One step, in these terms. */
  lemma StepShows(p: Proc, t: nat, c: Choice)
    requires Good(p) && Step(p, t, c).Some?
    ensures var q, pc := Step(p, t, c).value, p.pcs[t];
            && |q.pcs| + q.pending == |p.pcs| + p.pending + One(Happens(Creation, pc, c, p.dying))
            && |q.pcs| == |p.pcs| + (if pc.In? && Starts(pc.r) then p.pending else 0)
            && q.dying == (p.dying || Happens(Ending, pc, c, p.dying))
            && q.finished == p.finished + (if Happens(Mark, pc, c, p.dying) then {t} else {})
            && q.active == (if pc.In? && TakesOver(pc.r) then t else p.active)
            && (HasLeft(q.pcs[t]) <==> pc.In? && Exits(pc.r, c, p.dying))
  {
    var e, pc := Act(t, p.pcs[t], c, ViewOf(p)).value, p.pcs[t];
    if pc.In? {
      RegionDoes(t, pc.r, c, ViewOf(p));
      assert !(Creates(pc.r, c) && Starts(pc.r));
    } else {
      FreeDoes(t, pc, c, ViewOf(p));
    }
    assert After(p, t, e).pcs[t] == e.next;
  }

  ghost predicate Tallied(q: Tally, p: Tally, pc: Pc, c: Choice) {
    match pc
    case In(r) => q == Tally(if Stops(r, c) then 0 else p.idle + One(Idles(r, c)),
                             p.charged + One(Charges(r, c)), p.noisy + One(Noises(r, c)), p.max)
    case Free(PReturned) => c.Again? && q == Tally(p.idle, 0, 0, c.maxApi)
    case _ => q == p
  }

  /** At most one thing is counted. */
  lemma RegionTallies(p: Tally, n: Count, r: Region, c: Choice)
    requires Counts(n, r, c)
    ensures Tallied(Counted(p, n), p, In(r), c)
  {
    if r.PApiEnter? {
      assert !Charges(r, c) && !Noises(r, c);
    } else {
      assert !Stops(r, c) && !Idles(r, c);
    }
  }

  lemma FreeTallies(t: nat, pc: Pc, c: Choice, v: View, p: Tally)
    requires LeadsOn(t == 0, pc) && !pc.In? && Act(t, pc, c, v).Some?
    ensures Tallied(Counted(p, Act(t, pc, c, v).value.count), p, pc, c)
  {
    FreeDoes(t, pc, c, v);
  }

  lemma StepTallies(p: Proc, t: nat, c: Choice)
    requires Good(p) && Step(p, t, c).Some?
    ensures var q := Step(p, t, c).value.tally; if t == 0 then Tallied(q, p.tally, p.pcs[t], c) else q == p.tally
  {
    var pc, v := p.pcs[t], ViewOf(p);
    if t > 0 {
      ActsCount(t, pc, c, v, p.tally);
    } else if pc.In? {
      RegionCounts(pc.r, c, v);
      RegionTallies(p.tally, Act(t, pc, c, v).value.count, pc.r, c);
    } else {
      FreeTallies(t, pc, c, v, p.tally);
    }
  }

  /** How often an event happens in a run, in steps of `who` or of anybody. */
  ghost function Times(ev: Event, p: Proc, s: Schedule, who: Option<nat>): nat
    requires Possible(p, s)
    decreases |s|
  {
    if s == [] then 0
    else
      var t, c := s[0].0, s[0].1;
      One((who.None? || who == Some(t)) && Happens(ev, p.pcs[t], c, p.dying)) + Times(ev, Step(p, t, c).value, s[1..], who)
  }

  /** Over every run: each thread created is pending or started; the process is dying exactly if a step
      ended it; and `finish_tid` was called for exactly those whose steps call it. */
  lemma {:induction false} RunAddsUp(p: Proc, s: Schedule, u: nat)
    requires Good(p) && Possible(p, s)
    ensures var q := Run(p, s);
            && |q.pcs| + q.pending == |p.pcs| + p.pending + Times(Creation, p, s, None)
            && (q.dying <==> p.dying || Times(Ending, p, s, None) > 0)
            && (u in q.finished <==> u in p.finished || Times(Mark, p, s, Some(u)) > 0)
    decreases |s|
  {
    if s != [] {
      StepKeepsGood(p, s[0].0, s[0].1);
      StepShows(p, s[0].0, s[0].1);
      RunAddsUp(Step(p, s[0].0, s[0].1).value, s[1..], u);
    }
  }

  /** And the counters are the numbers of the primary's steps that they count, within one run of the
      session, or since the last stop. */
  lemma {:induction false} RunTallies(p: Proc, s: Schedule)
    requires Good(p) && Possible(p, s) && Times(Rerun, p, s, Some(0)) == 0
    ensures var q := Run(p, s).tally;
            && q.max == p.tally.max && q.charged == p.tally.charged + Times(Charging, p, s, Some(0))
            && q.noisy == p.tally.noisy + Times(Noising, p, s, Some(0))
    decreases |s|
  {
    if s != [] {
      StepKeepsGood(p, s[0].0, s[0].1);
      StepTallies(p, s[0].0, s[0].1);
      RunTallies(Step(p, s[0].0, s[0].1).value, s[1..]);
    }
  }

  lemma {:induction false} RunIdles(p: Proc, s: Schedule)
    requires Good(p) && Possible(p, s) && Times(Stopping, p, s, Some(0)) == 0
    ensures Run(p, s).tally.idle == p.tally.idle + Times(Idling, p, s, Some(0))
    decreases |s|
  {
    if s != [] {
      StepKeepsGood(p, s[0].0, s[0].1);
      StepTallies(p, s[0].0, s[0].1);
      RunIdles(Step(p, s[0].0, s[0].1).value, s[1..]);
    }
  }

  /** The limits: as many calls as were asked for, noisy ones up to fifty times that and at least fifty
      thousand more than that, and forty quanta in a row without a stop. */
  lemma LimitsAre(t: Tally)
    ensures t.Full() <==> t.charged >= t.max || (t.noisy >= 50 * t.max && t.noisy >= t.max + 50000)
    ensures t.Spent() <==> t.idle >= 39
  {
  }

  /** Where a locked region leads: to a handler only past the exit checks, to guest code only from the
      activation, and out of the loop exactly on these. */
  ghost predicate Continuing(next: Pc, r: Region, c: Choice, v: View) {
    && (Dispatching(next) <==>
          || r.SehEnter? || (r.ApiEnter? && !r.exits && !v.dying) || (r.PApiEnter? && (c.Seh? || (c.Api? && !c.exits))))
    && (next == Free(PRunning) <==> r.PTop?) && (next == Free(Ready) <==> r.Top? && !v.dying)
    && (next.Wait? && (next.r.Targets? || next.r.PTargets?) <==> (r.Request? || r.PRequest?) && !c.Failed?)
    && (next == Wait(PJoin) <==> (r.PDispatch? && c.ExitThread?) || (r.PApiEnter? && c.Api? && c.exits))
    && (next == Free(PReturned) <==>
          || (c.Failed? && (r.PSeh? || r.PCallback? || r.PDispatch? || r.PApiEnter?)) || (c.Yield? && r.PDispatch?)
          || (r.PApiEnter? && (c.BadAccess? || c.Unknown? || (c.QuantumOver? && v.spent))))
  }

  /** Where it puts the thread to sleep: on a queue, on a target that was found, or again after a poll in
      a living process. */
  ghost predicate Sleeping(next: Pc, r: Region, c: Choice, v: View) {
    && (next.Free? && (next.a.QueuePark? || next.a.PQueuePark?) <==> r.Queue? || r.PQueue?)
    && (Parked(next) ==> r.Queue? || r.PQueue? || Sought(next.a, r, c, v.dying))
    && (((r.Target? || r.Targets? || r.PTarget? || r.PTargets?) && !c.Failed?) || ((r.Poll? || r.PPoll?) && !v.dying) ==> Parked(next))
  }

  predicate Sought(a: Activity, r: Region, c: Choice, dying: bool) {
    match a
    case Waiting(f) => (!c.Failed? && (r == Target(f) || r == Targets(f))) || (f && !dying && r.Poll?)
    case PWaiting(f) => (!c.Failed? && (r == PTarget(f) || r == PTargets(f))) || (f && !dying && r.PPoll?)
    case _ => false
  }

  /** Where a thread goes that does not hold the lock. */
  ghost predicate Freely(next: Pc, a: Activity, c: Choice, v: View) {
    && (next == Free(Running) <==> a.Ready? && !c.AtZero?) && (next == Free(PReturned) <==> a.PLoop? && v.full)
    && (next == Wait(Poll) <==> a == Waiting(true) && c.SliceOver?) && (next == Wait(PSliceDrain) <==> a == PWaiting(true) && c.SliceOver?)
    && (next == Wait(Finish) <==>
          || (a.Start? && c.Failed?) || (a.Ready? && c.AtZero?)
          || (a.Running? && (c.Failed? || c.AtZero? || c.BadAccess? || c.Unknown?)))
    && (next.Wait? && next.r.ApiEnter? <==> a.Running? && c.Api?)
  }

  ghost predicate Enters(next: Pc, pc: Pc, c: Choice, v: View) {
    match pc
    case In(r) => Continuing(next, r, c, v) && Sleeping(next, r, c, v)
    case Free(a) => Freely(next, a, c, v)
    case Wait(r) => next == In(r)
  }

  lemma WorkerContinues(r: Region, c: Choice, v: View)
    requires !PrimaryRegion(r)
    ensures var e := WorkerIn(r, c, v.dying); e.Some? ==> Continuing(e.value.next, r, c, v)
  {
  }

  lemma WorkerSleeps(r: Region, c: Choice, v: View)
    requires !PrimaryRegion(r)
    ensures var e := WorkerIn(r, c, v.dying); e.Some? ==> Sleeping(e.value.next, r, c, v)
  {
  }

  lemma AfterRunEnters(c: Choice, v: View)
    ensures var e := PAfterRun(c, v.spent); e.Some? ==> Enters(e.value.next, In(PApiEnter), c, v)
  {
  }

  lemma AfterDispatchEnters(c: Choice, v: View)
    ensures var e := PAfterDispatch(c); e.Some? ==> Enters(e.value.next, In(PDispatch), c, v)
  {
  }

  lemma PrimaryContinues(r: Region, c: Choice, v: View)
    requires PrimaryRegion(r) && !r.PApiEnter? && !r.PDispatch?
    ensures var e := PrimaryIn(r, c, v); e.Some? ==> Continuing(e.value.next, r, c, v)
  {
  }

  lemma PrimarySleeps(r: Region, c: Choice, v: View)
    requires PrimaryRegion(r) && !r.PApiEnter? && !r.PDispatch?
    ensures var e := PrimaryIn(r, c, v); e.Some? ==> Sleeping(e.value.next, r, c, v)
  {
  }

  lemma PrimaryEnters(r: Region, c: Choice, v: View)
    requires PrimaryRegion(r)
    ensures var e := PrimaryIn(r, c, v); e.Some? ==> Enters(e.value.next, In(r), c, v)
  {
    if r.PApiEnter? {
      AfterRunEnters(c, v);
    } else if r.PDispatch? {
      AfterDispatchEnters(c, v);
    } else {
      PrimaryContinues(r, c, v);
      PrimarySleeps(r, c, v);
    }
  }

  lemma FreeEnters(t: nat, a: Activity, c: Choice, v: View)
    requires LeadsOn(t == 0, Free(a))
    ensures var e := Act(t, Free(a), c, v); e.Some? ==> Enters(e.value.next, Free(a), c, v)
  {
  }

  lemma StepEnters(p: Proc, t: nat, c: Choice)
    requires Good(p) && Step(p, t, c).Some?
    ensures Enters(Step(p, t, c).value.pcs[t], p.pcs[t], c, ViewOf(p))
  {
    match p.pcs[t]
    case Wait(_) =>
    case In(r) => if t == 0 { PrimaryEnters(r, c, ViewOf(p)); } else { WorkerContinues(r, c, ViewOf(p)); WorkerSleeps(r, c, ViewOf(p)); }
    case Free(a) => FreeEnters(t, a, c, ViewOf(p));
  }
}
