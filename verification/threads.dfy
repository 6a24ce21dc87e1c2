/** The lock, activate and park protocol between the primary thread and the guest workers, as a
    state machine whose steps interleave freely. */
module Threads {
  import opened Words

  /** What a thread takes the WinAPI lock for. Names starting with `P` belong to the primary. */
  datatype Region =
    // worker_main
    | Load | Top | SehEnter | SehDispatch | ApiEnter(exits: bool) | Dispatch | Finish
    // handle_park
    | Queue | Target(forever: bool) | Request(forever: bool) | Targets(forever: bool) | Poll | Result
    // run_until_stop
    | PDrain | PTop | PApiEnter | PSeh | PCallback | PDispatch | PQueue
    | PTargetDrain(forever: bool) | PTarget(forever: bool)
    | PRequestDrain(forever: bool) | PRequest(forever: bool) | PTargets(forever: bool)
    | PSliceDrain | PPoll | PActivate(charged: bool) | PJoin

  /** What a thread does without the lock. */
  datatype Activity =
    | Start | Ready | Running | QueuePark | Waiting(forever: bool) | Exited
    | PLoop | PRunning | PQueuePark | PWaiting(forever: bool) | PReturned | PJoining | PJoined

  /** Where a thread stands: blocked on the lock, holding it, or without it. */
  datatype Pc = Wait(r: Region) | In(r: Region) | Free(a: Activity)

  /** What the surroundings decide at a step: outcomes of guest code, of handlers and of waits. */
  datatype Choice =
    | Go              // nothing to decide
    | Failed          // hooks not installed, engine error, handler error, no such object
    | AtZero          // RIP is zero, or code returned to address zero
    | BadAccess
    | QuantumOver     // for a worker, also the callback trampoline
    | Seh             // the continuation trampoline
    | Unknown         // a stop at no known API
    | Api(exits: bool)
    | Spawn           // the handler ran CreateThread
    | ExitThread
    | Yield           // GetMessage found no message
    | Callback        // a handler asked for a guest callback, or one returned
    | NoisyApi        // the handler of a call that is not charged
    | Again(maxApi: nat)   // the session is run again, for so many calls
    | ParkCs | ParkObject(forever: bool) | ParkMany(forever: bool)
    | Signalled | SliceOver

  /** `no_hook_slice_limit`. */
  const NO_HOOK_LIMIT := 40

  /** What the primary counts: quanta in a row without a stop, and the charged and the noisy API calls
      of this run of the session, of which `max` charged ones were asked for. */
  datatype Tally = Tally(idle: nat, charged: nat, noisy: nat, max: nat) {
    function MaxNoisy(): nat { if max * 50 < max + 50000 then max + 50000 else max * 50 }

    /** The loop condition fails, or too many noisy calls were made. */
    predicate Full() { charged >= max || noisy >= MaxNoisy() }

    /** One more quantum without a stop is the last. */
    predicate Spent() { idle + 1 >= NO_HOOK_LIMIT }
  }

  /** What a step counts. */
  datatype Count = Same | Idle | Hit | Charge | Noise | Fresh(maxApi: nat)

  function Counted(t: Tally, c: Count): Tally {
    match c
    case Same => t
    case Idle => t.(idle := t.idle + 1)
    case Hit => t.(idle := 0)
    case Charge => t.(charged := t.charged + 1)
    case Noise => t.(noisy := t.noisy + 1)
    case Fresh(max) => Tally(t.idle, 0, 0, max)
  }

  /** Thread 0 is the primary; `finished` are the threads that called `finish_tid`. */
  datatype Proc = Proc(
    lock: Option<nat>, active: nat, dying: bool, pending: nat, finished: set<nat>, pcs: seq<Pc>, tally: Tally)

  /** What a step looks at besides its own place. */
  datatype View = View(dying: bool, full: bool, spent: bool)

  function ViewOf(p: Proc): View { View(p.dying, p.tally.Full(), p.tally.Spent()) }

  predicate PrimaryRegion(r: Region) {
    match r
    case Load | Top | SehEnter | SehDispatch | ApiEnter(_) | Dispatch | Finish | Queue | Target(_) | Request(_)
       | Targets(_) | Poll | Result => false
    case _ => true
  }

  predicate IsPrimary(pc: Pc) {
    match pc
    case Wait(r) => PrimaryRegion(r)
    case In(r) => PrimaryRegion(r)
    case Free(a) => a.PRunning? || a.PQueuePark? || a.PWaiting? || a.PJoining? || a.PJoined?
                    || a.PReturned? || a.PLoop?
  }

  /** A WinAPI handler is running for this thread. */
  predicate Dispatching(pc: Pc) { pc.In? && (pc.r.Dispatch? || pc.r.SehDispatch? || pc.r.PDispatch? || pc.r.PSeh?) }

  /** Guest code runs, or the host thread sleeps on a queue or an object. */
  predicate RunsGuest(pc: Pc) { pc == Free(Running) || pc == Free(PRunning) }
  predicate Parked(pc: Pc) { pc.Free? && (pc.a.QueuePark? || pc.a.Waiting? || pc.a.PQueuePark? || pc.a.PWaiting?) }

  predicate HasLeft(pc: Pc) { pc == Free(Exited) }

  // ---- steps ---------------------------------------------------------------------------

  datatype Hold = Keep | Acquire | Release

  /** What a step does besides moving on: to the lock, to the active thread, to the flags, and what it
      counts. */
  datatype Effect = Effect(
    hold: Hold, activate: bool, die: bool, spawn: bool, drain: bool, finish: bool, next: Pc, count: Count)

  function Do(a: Activity): Option<Effect> { Some(Effect(Keep, false, false, false, false, false, Free(a), Same)) }

  /** Go for the lock. */
  function Await(r: Region): Option<Effect> { Some(Effect(Keep, false, false, false, false, false, Wait(r), Same)) }

  function Drop(next: Pc): Option<Effect> { Some(Effect(Release, false, false, false, false, false, next, Same)) }

  /** Let the lock go after an API call that counts. */
  function DropCounting(next: Pc, c: Count): Option<Effect> {
    Some(Effect(Release, false, false, false, false, false, next, c))
  }

  /** `activate` under the lock, and on with it or without it. */
  function ActivateIn(r: Region, c: Count): Option<Effect> {
    Some(Effect(Keep, true, false, false, false, false, In(r), c))
  }
  function ActivateDrop(next: Pc, c: Count): Option<Effect> {
    Some(Effect(Release, true, false, false, false, false, next, c))
  }

  /** `finish_tid`, then out of `worker_main`. */
  function Leave(activate: bool, die: bool): Option<Effect> {
    Some(Effect(Release, activate, die, false, false, true, Free(Exited), Same))
  }

  function Drain(next: Pc): Option<Effect> { Some(Effect(Release, false, false, false, true, false, next, Same)) }
  function CreateThread(next: Pc, c: Count): Option<Effect> {
    Some(Effect(Release, false, false, true, false, false, next, c))
  }

  /** `finish_tid` if the process is dying, before going back to the loop that leaves for good. */
  function DropFinishing(dying: bool, next: Pc): Option<Effect> {
    Some(Effect(Release, false, false, false, false, dying, next, Same))
  }

  /** A locked region of a worker. */
  function WorkerIn(r: Region, c: Choice, dying: bool): Option<Effect> {
    match r
    case Load => Drop(Wait(Top))
    case Top => if dying then Leave(true, false) else ActivateDrop(Free(Ready), Same)
    case SehEnter => ActivateIn(SehDispatch, Same)
    case SehDispatch => if c == Failed then Leave(false, false) else Drop(Wait(Top))
    case ApiEnter(exits) =>
      if dying then Leave(true, false) else if exits then Leave(true, true) else ActivateIn(Dispatch, Same)
    case Dispatch => AfterDispatch(c)
    case Finish => Leave(false, false)
    case Queue => Drop(Free(QueuePark))
    case Target(forever) => Drop(if c == Failed then Wait(Result) else Free(Waiting(forever)))
    case Request(forever) => Drop(if c == Failed then Wait(Result) else Wait(Targets(forever)))
    case Targets(forever) => Drop(if c == Failed then Wait(Result) else Free(Waiting(forever)))
    case Poll => DropFinishing(dying, if dying then Wait(Result) else Free(Waiting(true)))
    case Result => DropFinishing(dying, Wait(Top))
    case _ => None
  }

  function AfterDispatch(c: Choice): Option<Effect> {
    match c
    case Go => Drop(Wait(Top))
    case NoisyApi => Drop(Wait(Top))
    case Spawn => CreateThread(Wait(Top), Same)
    case ExitThread => Leave(false, false)
    case Failed => Leave(false, false)
    case ParkCs => Drop(Wait(Queue))
    case ParkObject(forever) => Drop(Wait(Target(forever)))
    case ParkMany(forever) => Drop(Wait(Request(forever)))
    case _ => None
  }

  /** A worker without the lock. */
  function WorkerFree(a: Activity, c: Choice): Option<Effect> {
    match a
    case Start => Await(if c == Failed then Finish else Load)
    case Ready => if c == AtZero then Await(Finish) else Do(Running)
    case Running => AfterRun(c)
    case QueuePark => Await(Top)
    case Waiting(forever) => Await(if forever && c == SliceOver then Poll else Result)
    case _ => None
  }

  function AfterRun(c: Choice): Option<Effect> {
    match c
    case Failed => Await(Finish)
    case AtZero => Await(Finish)
    case BadAccess => Await(Finish)
    case Unknown => Await(Finish)
    case QuantumOver => Await(Top)
    case Seh => Await(SehEnter)
    case Api(exits) => Await(ApiEnter(exits))
    case _ => None
  }

  /** A locked region of the primary. */
  function PrimaryIn(r: Region, c: Choice, v: View): Option<Effect> {
    match r
    case PDrain => Drain(Wait(PTop))
    case PTop => ActivateDrop(Free(PRunning), Same)
    case PApiEnter => PAfterRun(c, v.spent)
    case PSeh => if c == Failed then Drop(Free(PReturned)) else DropCounting(Free(PLoop), Charge)
    case PCallback => if c == Failed then Drop(Free(PReturned)) else DropCounting(Free(PLoop), Charge)
    case PDispatch => PAfterDispatch(c)
    case PQueue => Drop(Free(PQueuePark))
    case PTargetDrain(forever) => Drain(Wait(PTarget(forever)))
    case PTarget(forever) => Drop(if c == Failed then Wait(PActivate(true)) else Free(PWaiting(forever)))
    case PRequestDrain(forever) => Drain(Wait(PRequest(forever)))
    case PRequest(forever) => Drop(if c == Failed then Wait(PActivate(true)) else Wait(PTargets(forever)))
    case PTargets(forever) => Drop(if c == Failed then Wait(PActivate(true)) else Free(PWaiting(forever)))
    case PSliceDrain => Drain(Wait(PPoll))
    case PPoll => Drop(if v.dying then Wait(PActivate(true)) else Free(PWaiting(true)))
    case PActivate(charged) => ActivateDrop(Free(PLoop), if charged then Charge else Same)
    case PJoin => Some(Effect(Release, false, true, false, false, false, Free(PJoining), Same))
    case _ => None
  }

  /** After a quantum: any stop ends the series of idle quanta, and too long a series ends the run. */
  function PAfterRun(c: Choice, spent: bool): Option<Effect> {
    match c
    case Failed => ActivateDrop(Free(PReturned), Same)
    case BadAccess => ActivateDrop(Free(PReturned), Same)
    case Unknown => ActivateDrop(Free(PReturned), Hit)
    case QuantumOver => ActivateDrop(if spent then Free(PReturned) else Free(PLoop), Idle)
    case Callback => ActivateDrop(Wait(PCallback), Hit)
    case Seh => ActivateIn(PSeh, Hit)
    case Api(exits) =>
      if exits then Some(Effect(Release, true, true, false, false, false, Wait(PJoin), Hit)) else ActivateIn(PDispatch, Hit)
    case _ => None
  }

  /** Parking on a critical section counts nothing: the call is made again. */
  function PAfterDispatch(c: Choice): Option<Effect> {
    match c
    case Go => DropCounting(Free(PLoop), Charge)
    case NoisyApi => DropCounting(Free(PLoop), Noise)
    case Spawn => CreateThread(Free(PLoop), Charge)
    case ExitThread => Drop(Wait(PJoin))
    case Failed => Drop(Free(PReturned))
    case Yield => Drop(Free(PReturned))
    case Callback => Drop(Wait(PCallback))
    case ParkCs => Drop(Wait(PQueue))
    case ParkObject(forever) => Drop(Wait(PTargetDrain(forever)))
    case ParkMany(forever) => Drop(Wait(PRequestDrain(forever)))
    case _ => None
  }

  /** The primary without the lock. After a return without joining the session may be run again. */
  function PrimaryFree(a: Activity, c: Choice, full: bool): Option<Effect> {
    match a
    case PLoop => if full then Do(PReturned) else Await(PDrain)
    case PReturned =>
      if c.Again? then Some(Effect(Keep, false, false, false, false, false, Free(PLoop), Fresh(c.maxApi))) else None
    case PRunning => Await(PApiEnter)
    case PQueuePark => Await(PActivate(false))
    case PWaiting(forever) => Await(if forever && c == SliceOver then PSliceDrain else PActivate(true))
    case PJoining => Do(PJoined)
    case _ => None
  }

  /** The step of thread `t` at `pc`. */
  function Act(t: nat, pc: Pc, c: Choice, v: View): Option<Effect> {
    match pc
    case Wait(r) => Some(Effect(Acquire, false, false, false, false, false, In(r), Same))
    case In(r) => if t == 0 then PrimaryIn(r, c, v) else WorkerIn(r, c, v.dying)
    case Free(a) => if t == 0 then PrimaryFree(a, c, v.full) else WorkerFree(a, c)
  }

  function Started(n: nat): (w: seq<Pc>)
    ensures |w| == n && forall i :: 0 <= i < n ==> w[i] == Free(Start)
  {
    if n == 0 then [] else Started(n - 1) + [Free(Start)]
  }

  /** The whole process after the effect of thread `t`. */
  function After(p: Proc, t: nat, e: Effect): (q: Proc)
    requires t < |p.pcs|
    ensures |q.pcs| >= |p.pcs|
  {
    Proc(match e.hold case Keep => p.lock case Acquire => Some(t) case Release => None,
         if e.activate then t else p.active,
         p.dying || e.die,
         if e.drain then 0 else if e.spawn then p.pending + 1 else p.pending,
         if e.finish then p.finished + {t} else p.finished,
         p.pcs[t := e.next] + (if e.drain then Started(p.pending) else []),
         Counted(p.tally, e.count))
  }

  ghost predicate AllExited(p: Proc) {
    forall t :: 0 < t < |p.pcs| ==> HasLeft(p.pcs[t])
  }

  /** The lock can be taken, and joining waits for every worker. */
  ghost predicate Allowed(p: Proc, t: nat, e: Effect)
    requires t < |p.pcs|
  {
    (e.hold == Acquire ==> p.lock == None) && (p.pcs[t] == Free(PJoining) ==> AllExited(p))
  }

  /** Thread `t` takes a step; none when it cannot, or not with this choice. */
  ghost function Step(p: Proc, t: nat, c: Choice): Option<Proc> {
    if t >= |p.pcs| then None
    else
      match Act(t, p.pcs[t], c, ViewOf(p))
      case None => None
      case Some(e) => if Allowed(p, t, e) then Some(After(p, t, e)) else None
  }

  // ---- what every step keeps -----------------------------------------------------------

  /** The lock is held by exactly the thread that is in a locked region. */
  ghost predicate LockOk(p: Proc) {
    && (p.lock.Some? ==> p.lock.value < |p.pcs|)
    && forall t :: 0 <= t < |p.pcs| ==> (p.pcs[t].In? <==> p.lock == Some(t))
  }

  /** Thread 0 runs the primary's code and the others a worker's. */
  ghost predicate RolesOk(p: Proc) {
    p.pcs != [] && forall t :: 0 <= t < |p.pcs| ==> LeadsOn(t == 0, p.pcs[t])
  }

  /** Whoever dispatches is the active thread. */
  ghost predicate ActiveOk(p: Proc) {
    forall t :: 0 <= t < |p.pcs| && Dispatching(p.pcs[t]) ==> p.active == t
  }

  /** A worker leaves only after `finish_tid`. */
  ghost predicate FinishedOk(p: Proc) {
    forall t :: 0 < t < |p.pcs| && HasLeft(p.pcs[t]) ==> t in p.finished
  }

  /** The primary is inside the loop of `run_until_stop`. */
  predicate Looping(pc: Pc) {
    IsPrimary(pc) &&
    match pc
    case Wait(r) => r != PJoin
    case In(r) => r != PJoin
    case Free(a) => a != PReturned && a != PJoining && a != PJoined
  }

  /** Inside a turn the loop condition held when the turn began, and nothing was counted since. */
  predicate TallyOk(pc: Pc, t: Tally) {
    Looping(pc) && pc != Free(PLoop) ==> !t.Full()
  }

  ghost predicate Good(p: Proc) {
    RolesOk(p) && LockOk(p) && ActiveOk(p) && FinishedOk(p) && TallyOk(p.pcs[0], p.tally)
  }

  /** The discipline of a single step. */
  ghost predicate Disciplined(pc: Pc, e: Effect) {
    && (match e.hold
        case Keep => e.next.In? == pc.In?
        case Acquire => !pc.In? && e.next.In?
        case Release => pc.In? && !e.next.In?)
    && (e.activate || e.die || e.spawn || e.drain || e.finish ==> pc.In?)
    && (Dispatching(e.next) ==> e.activate)
    && (HasLeft(e.next) ==> e.finish)
  }

  /** Where a step may lead from a point of the kind `primary`: never to waiting for the lock with a
      handler still to run. */
  ghost predicate LeadsOn(primary: bool, next: Pc) {
    IsPrimary(next) == primary && (next.Wait? ==> !Dispatching(In(next.r)))
  }

  lemma WorkerInActs(r: Region, c: Choice, dying: bool)
    requires !PrimaryRegion(r)
    ensures var e := WorkerIn(r, c, dying); e.Some? ==> Disciplined(In(r), e.value) && LeadsOn(false, e.value.next)
  {
  }

  lemma WorkerFreeActs(a: Activity, c: Choice)
    requires !IsPrimary(Free(a))
    ensures var e := WorkerFree(a, c); e.Some? ==> Disciplined(Free(a), e.value) && LeadsOn(false, e.value.next)
  {
  }

  lemma PrimaryInActs(r: Region, c: Choice, v: View)
    requires PrimaryRegion(r)
    ensures var e := PrimaryIn(r, c, v); e.Some? ==> Disciplined(In(r), e.value) && LeadsOn(true, e.value.next)
  {
    match r
    case PApiEnter => PAfterRunActs(c, v.spent);
    case PDispatch => PAfterDispatchActs(c);
    case _ =>
  }

  lemma PAfterRunActs(c: Choice, spent: bool)
    ensures var e := PAfterRun(c, spent); e.Some? ==> Disciplined(In(PApiEnter), e.value) && LeadsOn(true, e.value.next)
  {
  }

  lemma PAfterDispatchActs(c: Choice)
    ensures var e := PAfterDispatch(c); e.Some? ==> Disciplined(In(PDispatch), e.value) && LeadsOn(true, e.value.next)
  {
  }

  lemma PrimaryFreeActs(a: Activity, c: Choice, full: bool)
    requires IsPrimary(Free(a))
    ensures var e := PrimaryFree(a, c, full); e.Some? ==> Disciplined(Free(a), e.value) && LeadsOn(true, e.value.next)
  {
  }

  lemma ActsAreDisciplined(t: nat, pc: Pc, c: Choice, v: View)
    requires LeadsOn(t == 0, pc)
    ensures var e := Act(t, pc, c, v); e.Some? ==> Disciplined(pc, e.value) && LeadsOn(t == 0, e.value.next)
  {
    match pc
    case Wait(r) =>
    case In(r) => if t == 0 { PrimaryInActs(r, c, v); } else { WorkerInActs(r, c, v.dying); }
    case Free(a) => if t == 0 { PrimaryFreeActs(a, c, v.full); } else { WorkerFreeActs(a, c); }
  }

  /** Only the primary counts. */
  lemma ActsCount(t: nat, pc: Pc, c: Choice, v: View, tally: Tally)
    requires LeadsOn(t == 0, pc) && (t == 0 ==> TallyOk(pc, tally)) && v.full == tally.Full()
    ensures var e := Act(t, pc, c, v);
            e.Some? ==> if t == 0 then TallyOk(e.value.next, Counted(tally, e.value.count)) else e.value.count == Same
  {
    if t == 0 && pc.In? { PrimaryCounts(pc.r, c, v, tally); }
  }

  lemma PrimaryCounts(r: Region, c: Choice, v: View, tally: Tally)
    requires TallyOk(In(r), tally) && PrimaryRegion(r)
    ensures var e := PrimaryIn(r, c, v); e.Some? ==> TallyOk(e.value.next, Counted(tally, e.value.count))
  {
  }

  lemma StepKeepsGood(p: Proc, t: nat, c: Choice)
    requires Good(p) && Step(p, t, c).Some?
    ensures Good(Step(p, t, c).value)
  {
    ActsAreDisciplined(t, p.pcs[t], c, ViewOf(p));
    ActsCount(t, p.pcs[t], c, ViewOf(p), p.tally);
    EffectKeepsGood(p, t, Act(t, p.pcs[t], c, ViewOf(p)).value);
  }

  lemma EffectKeepsGood(p: Proc, t: nat, e: Effect)
    requires Good(p) && t < |p.pcs| && Allowed(p, t, e)
    requires Disciplined(p.pcs[t], e) && LeadsOn(t == 0, e.next)
    requires if t == 0 then TallyOk(e.next, Counted(p.tally, e.count)) else e.count == Same
    ensures Good(After(p, t, e))
  {
    var q := After(p, t, e);
    assert q.pcs[t] == e.next;
    assert forall u :: 0 <= u < |p.pcs| && u != t ==> q.pcs[u] == p.pcs[u];
    assert forall u :: |p.pcs| <= u < |q.pcs| ==> q.pcs[u] == Free(Start);
  }

  // ---- every interleaving --------------------------------------------------------------

  /** The process as it starts: the primary alone, asked for `max` API calls. */
  function Initial(max: nat): Proc { Proc(None, 0, false, 0, {}, [Free(PLoop)], Tally(0, 0, 0, max)) }

  type Schedule = seq<(nat, Choice)>

  /** Every step of the schedule can be taken. */
  ghost predicate Possible(p: Proc, s: Schedule)
    decreases |s|
  {
    s == [] || (Step(p, s[0].0, s[0].1).Some? && Possible(Step(p, s[0].0, s[0].1).value, s[1..]))
  }

  ghost function Run(p: Proc, s: Schedule): Proc
    requires Possible(p, s)
    decreases |s|
  {
    if s == [] then p else Run(Step(p, s[0].0, s[0].1).value, s[1..])
  }

  /** Handlers run under the lock as the active thread; nobody runs guest code or sleeps holding the
      lock; a worker that left has called `finish_tid`. */
  ghost predicate Safe(p: Proc) {
    forall t :: 0 <= t < |p.pcs| ==>
      && (Dispatching(p.pcs[t]) ==> p.lock == Some(t) && p.active == t)
      && (RunsGuest(p.pcs[t]) || Parked(p.pcs[t]) ==> p.lock != Some(t))
      && (HasLeft(p.pcs[t]) ==> t in p.finished)
  }

  lemma {:induction false} RunKeepsGood(p: Proc, s: Schedule)
    requires Good(p) && Possible(p, s)
    ensures Good(Run(p, s))
    decreases |s|
  {
    if s != [] {
      StepKeepsGood(p, s[0].0, s[0].1);
      RunKeepsGood(Step(p, s[0].0, s[0].1).value, s[1..]);
    }
  }

  lemma EveryRunIsSafe(max: nat, s: Schedule)
    requires Possible(Initial(max), s)
    ensures Safe(Run(Initial(max), s)) && Good(Run(Initial(max), s))
  {
    RunKeepsGood(Initial(max), s);
  }

  // ---- leaving a dying process ---------------------------------------------------------

  /** Own steps a worker may still take once the process is dying. */
  function RegionLeft(r: Region): nat {
    match r
    case Load => 3
    case Top => 1
    case SehEnter => 4
    case SehDispatch => 3
    case ApiEnter(_) => 1
    case Dispatch => 12
    case Finish => 1
    case Queue => 4
    case Target(_) => 8
    case Request(_) => 10
    case Targets(_) => 8
    case Poll => 5
    case Result => 3
    case _ => 0
  }

  function Left(pc: Pc): nat {
    match pc
    case In(r) => RegionLeft(r)
    case Wait(r) => 1 + RegionLeft(r)
    case Free(Start) => 5
    case Free(Ready) => 7
    case Free(Running) => 6
    case Free(QueuePark) => 3
    case Free(Waiting(_)) => 7
    case Free(_) => 0
  }

  lemma DyingActShrinks(t: nat, pc: Pc, c: Choice, v: View)
    requires t > 0 && LeadsOn(false, pc) && v.dying
    ensures var e := Act(t, pc, c, v); e.Some? ==> Left(e.value.next) < Left(pc)
    ensures Left(pc) <= 12
  {
    match pc
    case Wait(r) =>
    case In(r) => DyingRegionShrinks(r, c);
    case Free(a) =>
  }

  lemma DyingRegionShrinks(r: Region, c: Choice)
    requires !PrimaryRegion(r)
    ensures var e := WorkerIn(r, c, true); e.Some? ==> Left(e.value.next) < RegionLeft(r)
    ensures RegionLeft(r) <= 12
  {
  }

  lemma DyingStep(p: Proc, t: nat, c: Choice)
    requires Good(p) && p.dying && Step(p, t, c).Some?
    ensures var q := Step(p, t, c).value;
            && q.dying && |q.pcs| >= |p.pcs|
            && (forall u :: 0 <= u < |p.pcs| && u != t ==> q.pcs[u] == p.pcs[u])
            && (t > 0 ==> Left(q.pcs[t]) < Left(p.pcs[t]))
  {
    if t > 0 { DyingActShrinks(t, p.pcs[t], c, ViewOf(p)); }
  }

  /** Steps of thread `u` in a schedule. */
  function Own(s: Schedule, u: nat): nat {
    if s == [] then 0 else (if s[0].0 == u then 1 else 0) + Own(s[1..], u)
  }

  /** In a dying process a worker takes at most twelve more steps of its own, whatever the others
      do. */
  lemma {:induction false} DyingWorkerLeaves(p: Proc, s: Schedule, u: nat)
    requires Good(p) && p.dying && Possible(p, s) && 0 < u < |p.pcs|
    ensures |Run(p, s).pcs| >= |p.pcs| && Own(s, u) + Left(Run(p, s).pcs[u]) <= Left(p.pcs[u]) <= 12
    decreases |s|
  {
    DyingActShrinks(u, p.pcs[u], Go, ViewOf(p));
    if s != [] {
      StepKeepsGood(p, s[0].0, s[0].1);
      DyingStep(p, s[0].0, s[0].1);
      DyingWorkerLeaves(Step(p, s[0].0, s[0].1).value, s[1..], u);
    }
  }

  // ---- the primary in a dying process --------------------------------------------------

  /** What takes the primary out of the loop: errors, the end of the process or of its own thread, no
      message, as many API calls as were asked for, and the fortieth quantum in a row without a stop. */
  predicate Breaks(pc: Pc, c: Choice, v: View) {
    match pc
    case Free(PLoop) => v.full
    case In(PApiEnter) => c == Failed || c == BadAccess || c == Unknown || c == Api(true) || (c == QuantumOver && v.spent)
    case In(PDispatch) => c == Failed || c == Yield || c == ExitThread
    case In(PSeh) => c == Failed
    case In(PCallback) => c == Failed
    case _ => false
  }

  lemma BreaksLeavesLoop(pc: Pc, c: Choice, v: View)
    requires Looping(pc)
    ensures var e := Act(0, pc, c, v); e.Some? ==> (Looping(e.value.next) <==> !Breaks(pc, c, v))
  {
    match pc
    case Wait(r) =>
    case In(r) => LockedBreaks(r, c, v);
    case Free(a) =>
  }

  lemma AfterRunBreaks(c: Choice, v: View)
    ensures var e := PAfterRun(c, v.spent); e.Some? ==> (Looping(e.value.next) <==> !Breaks(In(PApiEnter), c, v))
  {
  }

  lemma AfterDispatchBreaks(c: Choice, v: View)
    ensures var e := PAfterDispatch(c); e.Some? ==> (Looping(e.value.next) <==> !Breaks(In(PDispatch), c, v))
  {
  }

  lemma LockedBreaks(r: Region, c: Choice, v: View)
    requires PrimaryRegion(r) && r != PJoin
    ensures var e := PrimaryIn(r, c, v); e.Some? ==> (Looping(e.value.next) <==> !Breaks(In(r), c, v))
  {
    match r
    case PApiEnter => AfterRunBreaks(c, v);
    case PDispatch => AfterDispatchBreaks(c, v);
    case _ =>
  }

  /** The primary is in the loop before and after every step. */
  ghost predicate KeepsLooping(p: Proc, s: Schedule)
    requires Possible(p, s)
    decreases |s|
  {
    p.pcs != [] && Looping(p.pcs[0]) && (s == [] || KeepsLooping(Step(p, s[0].0, s[0].1).value, s[1..]))
  }

  /** The primary breaks out somewhere in the schedule. */
  ghost predicate BreaksOut(p: Proc, s: Schedule)
    requires Possible(p, s)
    decreases |s|
  {
    s != [] &&
    ((s[0].0 == 0 && p.pcs != [] && Breaks(p.pcs[0], s[0].1, ViewOf(p))) || BreaksOut(Step(p, s[0].0, s[0].1).value, s[1..]))
  }

  /** In every run the primary stays in the loop exactly as long as none of these happens, whether
      the process is dying or not. */
  lemma {:induction false} LoopingUntilBreak(p: Proc, s: Schedule)
    requires Good(p) && Possible(p, s) && Looping(p.pcs[0])
    ensures KeepsLooping(p, s) <==> !BreaksOut(p, s)
    decreases |s|
  {
    if s != [] {
      var t, c := s[0].0, s[0].1;
      var q := Step(p, t, c).value;
      StepKeepsGood(p, t, c);
      if t == 0 { BreaksLeavesLoop(p.pcs[0], c, ViewOf(p)); }
      if Looping(q.pcs[0]) { LoopingUntilBreak(q, s[1..]); } else { assert !KeepsLooping(q, s[1..]); }
    }
  }

  // ---- how long the primary of a dying process can stay --------------------------------

  /** A step of the primary, and then `s`. */
  function Then(c: Choice, s: Schedule): Schedule { [(0, c)] + s }

  /** Turns of the loop that enter a critical section whose owner has left: start pending threads,
      activate, stop at the call at once, park, and go back to make the call again. */
  function Turns(n: nat): Schedule {
    if n == 0 then [] else Then(Go, Then(Go, Then(Go, EnterAgain(Turns(n - 1)))))
  }

  /** From the activation to the stop, and from there through the park. */
  function EnterAgain(s: Schedule): Schedule {
    Then(Go, Then(Go, Then(Go, Then(Go, Then(Api(false), Park(s))))))
  }

  function Park(s: Schedule): Schedule {
    Then(ParkCs, Then(Go, Then(Go, Then(Go, Then(Go, Then(Go, s))))))
  }

  /** At the head of the loop, nobody in the way and API calls left. */
  ghost predicate AtLoop(p: Proc) {
    Good(p) && p.lock == None && p.pcs[0] == Free(PLoop) && !p.tally.Full()
  }

  /** The primary moves on to `pc`, and takes or drops the lock. */
  function Moved(p: Proc, pc: Pc): Proc
    requires p.pcs != []
  {
    p.(lock := if pc.In? then Some(0) else None, pcs := p.pcs[0 := pc])
  }

  /** Running `s` from `p` is running `rest` from `q`. */
  ghost predicate Reaches(p: Proc, s: Schedule, q: Proc, rest: Schedule) {
    && (Possible(p, s) <==> Possible(q, rest))
    && (Possible(p, s) ==> Run(p, s) == Run(q, rest))
  }

  lemma StepThen(p: Proc, c: Choice, q: Proc, s: Schedule)
    requires Step(p, 0, c) == Some(q)
    ensures Reaches(p, Then(c, s), q, s)
  {
    assert Then(c, s)[1..] == s && Then(c, s)[0] == (0, c);
  }

  /** A step that does no more than move on. */
  lemma Moves(p: Proc, c: Choice, next: Pc, s: Schedule)
    requires p.pcs != [] && p.lock == (if p.pcs[0].In? then Some(0) else None)
    requires Act(0, p.pcs[0], c, ViewOf(p))
               == Some(Effect(if next.In? then Acquire else if p.pcs[0].In? then Release else Keep,
                              false, false, false, false, false, next, Same))
    requires p.pcs[0].In? ==> !next.In?
    requires p.pcs[0] != Free(PJoining)
    ensures Reaches(p, Then(c, s), Moved(p, next), s)
  {
    var e := Act(0, p.pcs[0], c, ViewOf(p)).value;
    assert After(p, 0, e) == Moved(p, next);
    StepThen(p, c, Moved(p, next), s);
  }

  lemma Activates(p: Proc, c: Choice, next: Pc, s: Schedule)
    requires p.pcs != [] && p.lock == Some(0) && p.pcs[0].In? && !next.In?
    requires Act(0, p.pcs[0], c, ViewOf(p)) == ActivateDrop(next, Same)
    ensures Reaches(p, Then(c, s), Moved(p.(active := 0), next), s)
  {
    var e := Act(0, p.pcs[0], c, ViewOf(p)).value;
    assert After(p, 0, e) == Moved(p.(active := 0), next);
    StepThen(p, c, Moved(p.(active := 0), next), s);
  }

  /** The first three steps of a turn start the pending threads. */
  lemma TurnDrains(p: Proc, s: Schedule)
    requires AtLoop(p)
    ensures var d := p.(pending := 0, pcs := p.pcs[0 := Wait(PTop)] + Started(p.pending));
            Reaches(p, Then(Go, Then(Go, Then(Go, s))), d, s)
  {
    var a := Moved(p, Wait(PDrain));
    var b := Moved(a, In(PDrain));
    var d := p.(pending := 0, pcs := p.pcs[0 := Wait(PTop)] + Started(p.pending));
    Moves(p, Go, Wait(PDrain), Then(Go, Then(Go, s)));
    Moves(a, Go, In(PDrain), Then(Go, s));
    assert After(b, 0, Drain(Wait(PTop)).value) == d;
    StepThen(b, Go, d, s);
  }

  lemma TurnActivates(d: Proc, s: Schedule)
    requires d.pcs != [] && d.lock == None && d.pcs[0] == Wait(PTop)
    ensures Reaches(d, Then(Go, Then(Go, s)), Moved(d.(active := 0), Free(PRunning)), s)
  {
    var a := Moved(d, In(PTop));
    Moves(d, Go, In(PTop), Then(Go, s));
    Activates(a, Go, Free(PRunning), s);
    assert Moved(a.(active := 0), Free(PRunning)) == Moved(d.(active := 0), Free(PRunning));
  }

  /** Any stop ends the series of idle quanta. */
  lemma TurnDispatches(b: Proc, s: Schedule)
    requires b.pcs != [] && b.lock == None && b.pcs[0] == Free(PRunning)
    ensures Reaches(b, Then(Go, Then(Go, Then(Api(false), s))), Moved(b.(active := 0, tally := b.tally.(idle := 0)), In(PDispatch)), s)
  {
    var c := Moved(b, Wait(PApiEnter));
    var e := Moved(c, In(PApiEnter));
    var h := Moved(b.(active := 0, tally := b.tally.(idle := 0)), In(PDispatch));
    Moves(b, Go, Wait(PApiEnter), Then(Go, Then(Api(false), s)));
    Moves(c, Go, In(PApiEnter), Then(Api(false), s));
    assert After(e, 0, ActivateIn(PDispatch, Hit).value) == h;
    StepThen(e, Api(false), h, s);
  }

  lemma ParkSleeps(h: Proc, s: Schedule)
    requires h.pcs != [] && h.lock == Some(0) && h.pcs[0] == In(PDispatch)
    ensures Reaches(h, Then(ParkCs, Then(Go, Then(Go, s))), Moved(h, Free(PQueuePark)), s)
  {
    var a := Moved(h, Wait(PQueue));
    var b := Moved(a, In(PQueue));
    Moves(h, ParkCs, Wait(PQueue), Then(Go, Then(Go, s)));
    Moves(a, Go, In(PQueue), Then(Go, s));
    Moves(b, Go, Free(PQueuePark), s);
    assert Moved(b, Free(PQueuePark)) == Moved(h, Free(PQueuePark));
  }

  lemma ParkWakes(c: Proc, s: Schedule)
    requires c.pcs != [] && c.lock == None && c.pcs[0] == Free(PQueuePark)
    ensures Reaches(c, Then(Go, Then(Go, Then(Go, s))), Moved(c.(active := 0), Free(PLoop)), s)
  {
    var d := Moved(c, Wait(PActivate(false)));
    var e := Moved(d, In(PActivate(false)));
    Moves(c, Go, Wait(PActivate(false)), Then(Go, Then(Go, s)));
    Moves(d, Go, In(PActivate(false)), Then(Go, s));
    Activates(e, Go, Free(PLoop), s);
    assert Moved(e.(active := 0), Free(PLoop)) == Moved(c.(active := 0), Free(PLoop));
  }

  lemma ParkReturns(h: Proc, s: Schedule)
    requires h.pcs != [] && h.lock == Some(0) && h.pcs[0] == In(PDispatch)
    ensures Reaches(h, Park(s), Moved(h.(active := 0), Free(PLoop)), s)
  {
    var c := Moved(h, Free(PQueuePark));
    ParkSleeps(h, Then(Go, Then(Go, Then(Go, s))));
    ParkWakes(c, s);
    assert Moved(c.(active := 0), Free(PLoop)) == Moved(h.(active := 0), Free(PLoop));
  }

  /** The process a turn later: pending threads are started, the primary is where it was, and no call
      was counted. */
  function Turned(p: Proc): Proc {
    p.(active := 0, pending := 0, pcs := p.pcs + Started(p.pending), tally := p.tally.(idle := 0))
  }

  lemma TurnReturns(p: Proc, s: Schedule)
    requires AtLoop(p)
    ensures AtLoop(Turned(p)) && Reaches(p, Then(Go, Then(Go, Then(Go, EnterAgain(s)))), Turned(p), s)
  {
    var d := p.(pending := 0, pcs := p.pcs[0 := Wait(PTop)] + Started(p.pending));
    var b := Moved(d.(active := 0), Free(PRunning));
    var h := Moved(b.(active := 0, tally := b.tally.(idle := 0)), In(PDispatch));
    TurnDrains(p, EnterAgain(s));
    TurnActivates(d, Then(Go, Then(Go, Then(Api(false), Park(s)))));
    TurnDispatches(b, Park(s));
    ParkReturns(h, s);
    assert Moved(h.(active := 0), Free(PLoop)) == Turned(p);
  }

  /** The flag and the limits together do not make the primary leave: from the head of the loop of a
      dying process, for every number there is a run of that many turns after which the primary is
      there again and no counter is nearer its limit. */
  lemma {:induction false} DyingPrimaryStays(p: Proc, n: nat)
    requires AtLoop(p) && p.dying
    ensures |Turns(n)| == 14 * n && Possible(p, Turns(n))
    ensures var q := Run(p, Turns(n)); AtLoop(q) && q.dying && q.tally == (if n == 0 then p else Turned(p)).tally
    decreases n
  {
    if n > 0 {
      TurnReturns(p, Turns(n - 1));
      DyingPrimaryStays(Turned(p), n - 1);
    }
  }

  /** API calls that can still be counted. */
  function Credits(t: Tally): nat {
    (if t.charged < t.max then t.max - t.charged else 0) + (if t.noisy < t.MaxNoisy() then t.MaxNoisy() - t.noisy else 0)
  }

  function IdleLeft(t: Tally): nat { if t.idle < NO_HOOK_LIMIT then NO_HOOK_LIMIT - t.idle else 0 }

  /** The call the primary has stopped at will be counted. */
  predicate Owes(pc: Pc) {
    match pc
    case In(r) => RegionOwes(r)
    case Wait(r) => RegionOwes(r)
    case Free(a) => a.PWaiting?
  }

  predicate RegionOwes(r: Region) {
    match r
    case PSeh | PCallback | PDispatch | PTargetDrain(_) | PTarget(_) | PRequestDrain(_) | PRequest(_) | PTargets(_)
       | PSliceDrain | PPoll => true
    case PActivate(charged) => charged
    case _ => false
  }

  /** Steps back to the head of the loop, or out of it, in a dying process. */
  function PLeft(pc: Pc): nat {
    match pc
    case In(r) => PRegionLeft(r)
    case Wait(r) => 1 + PRegionLeft(r)
    case Free(PLoop) => 8
    case Free(PRunning) => 3
    case Free(PQueuePark) => 11
    case Free(PWaiting(_)) => 15
    case Free(PJoining) => 1
    case Free(_) => 0
  }

  function PRegionLeft(r: Region): nat {
    match r
    case PDrain => 6
    case PTop => 4
    case PApiEnter => 1
    case PSeh | PCallback | PActivate(_) => 9
    case PQueue => 12
    case PPoll => 11
    case PSliceDrain => 13
    case PTarget(_) | PTargets(_) => 16
    case PTargetDrain(_) | PRequest(_) => 18
    case PRequestDrain(_) => 20
    case PDispatch => 22
    case PJoin => 2
    case _ => 0
  }

  /** Own steps the primary may still take in a dying process if it parks on no critical section: a
      turn is at most 32, and at most forty idle ones come between two calls that count. */
  function Fuel(pc: Pc, t: Tally): int {
    PLeft(pc) + if Looping(pc) then 32 * (41 * (Credits(t) - if Owes(pc) then 1 else 0) + IdleLeft(t)) else 0
  }

  /** What one park on a critical section may add: it forgives the idle quanta. */
  const PARK_FUEL := 1312

  lemma AfterRunBurns(c: Choice, t: Tally)
    requires !t.Full()
    ensures var e := PAfterRun(c, t.Spent());
            e.Some? ==> Fuel(e.value.next, Counted(t, e.value.count)) < Fuel(In(PApiEnter), t)
  {
  }

  lemma AfterDispatchBurns(c: Choice, t: Tally)
    requires !t.Full()
    ensures var e := PAfterDispatch(c);
            e.Some? ==> Fuel(e.value.next, Counted(t, e.value.count)) < Fuel(In(PDispatch), t) + (if c == ParkCs then PARK_FUEL else 0)
  {
  }

  lemma CountingBurns(r: Region, c: Choice, t: Tally)
    requires r.PSeh? || r.PCallback? || r.PActivate?
    requires !t.Full()
    ensures var e := PrimaryIn(r, c, View(true, t.Full(), t.Spent()));
            e.Some? ==> Fuel(e.value.next, Counted(t, e.value.count)) < Fuel(In(r), t)
  {
  }

  lemma RegionBurns(r: Region, c: Choice, t: Tally)
    requires PrimaryRegion(r) && TallyOk(In(r), t)
    ensures var e := PrimaryIn(r, c, View(true, t.Full(), t.Spent()));
            e.Some? ==> Fuel(e.value.next, Counted(t, e.value.count)) < Fuel(In(r), t) + (if c == ParkCs then PARK_FUEL else 0)
  {
    match r
    case PApiEnter => AfterRunBurns(c, t);
    case PDispatch => AfterDispatchBurns(c, t);
    case PSeh => CountingBurns(r, c, t);
    case PCallback => CountingBurns(r, c, t);
    case PActivate(_) => CountingBurns(r, c, t);
    case _ =>
  }

  lemma PrimaryBurns(pc: Pc, c: Choice, t: Tally)
    requires LeadsOn(true, pc) && TallyOk(pc, t) && !c.Again?
    ensures var e := Act(0, pc, c, View(true, t.Full(), t.Spent()));
            e.Some? ==> Fuel(e.value.next, Counted(t, e.value.count)) < Fuel(pc, t) + (if c == ParkCs then PARK_FUEL else 0)
  {
    match pc
    case Wait(r) =>
    case In(r) => RegionBurns(r, c, t);
    case Free(a) =>
  }

  /** Parks of the primary on critical sections in a schedule. */
  function Parks(s: Schedule): nat {
    if s == [] then 0 else (if s[0] == (0, ParkCs) then 1 else 0) + Parks(s[1..])
  }

  /** Steps of others leave the primary where it is, and its counters alone. */
  lemma OthersSpare(p: Proc, t: nat, c: Choice)
    requires Good(p) && t > 0 && Step(p, t, c).Some?
    ensures var q := Step(p, t, c).value; q.pcs != [] && q.pcs[0] == p.pcs[0] && q.tally == p.tally
  {
    ActsCount(t, p.pcs[t], c, ViewOf(p), p.tally);
  }

  /** In a dying process the primary takes, until the session is run again, no more steps of its own
      than its counters allow, and a fixed number for every park on a critical section. */
  lemma {:induction false} DyingPrimaryLeaves(p: Proc, s: Schedule)
    requires Good(p) && p.dying && Possible(p, s)
    requires forall i :: 0 <= i < |s| ==> !(s[i].0 == 0 && s[i].1.Again?)
    ensures var q := Run(p, s);
            q.pcs != [] && 0 <= Fuel(q.pcs[0], q.tally)
            && Own(s, 0) + Fuel(q.pcs[0], q.tally) <= Fuel(p.pcs[0], p.tally) + PARK_FUEL * Parks(s)
    decreases |s|
  {
    if s != [] {
      var t, c := s[0].0, s[0].1;
      var q := Step(p, t, c).value;
      StepKeepsGood(p, t, c);
      DyingStep(p, t, c);
      if t == 0 { PrimaryBurns(p.pcs[0], c, p.tally); } else { OthersSpare(p, t, c); }
      DyingPrimaryLeaves(q, s[1..]);
    }
  }

  /** Some choice lets the thread go on. */
  ghost predicate CanStep(p: Proc, t: nat) {
    exists c :: Step(p, t, c).Some?
  }

  /** A choice every locked region accepts. */
  function Accepted(r: Region): Choice {
    if r == PApiEnter then QuantumOver else Go
  }

  lemma HolderCanStep(p: Proc, t: nat)
    requires Good(p) && p.lock == Some(t)
    ensures CanStep(p, t)
  {
    var r := p.pcs[t].r;
    ActsAreDisciplined(t, p.pcs[t], Accepted(r), ViewOf(p));
    assert Step(p, t, Accepted(r)).Some?;
  }

  /** A thread that has not left, and is not the primary joining or done, can step, or the holder of
      the lock can. */
  lemma SomeoneCanStep(p: Proc, t: nat)
    requires Good(p) && t < |p.pcs| && !HasLeft(p.pcs[t])
    requires p.pcs[t] != Free(PJoining) && p.pcs[t] != Free(PJoined)
    ensures if p.lock.Some? then CanStep(p, p.lock.value) else CanStep(p, t)
  {
    if p.lock.Some? {
      HolderCanStep(p, p.lock.value);
    } else {
      assert Step(p, t, if p.pcs[t] == Free(PReturned) then Again(0) else QuantumOver).Some?;
    }
  }

  /** Until joining has returned, somebody can go on. */
  lemma JoiningNeverHangs(p: Proc)
    requires Good(p) && p.pcs[0] == Free(PJoining)
    ensures exists t :: CanStep(p, t)
  {
    if AllExited(p) {
      assert Step(p, 0, Go).Some?;
      assert CanStep(p, 0);
    } else {
      var t :| 0 < t < |p.pcs| && !HasLeft(p.pcs[t]);
      assert LeadsOn(false, p.pcs[t]);
      SomeoneCanStep(p, t);
      assert CanStep(p, if p.lock.Some? then p.lock.value else t);
    }
  }

  function TotalLeft(pcs: seq<Pc>): nat {
    if pcs == [] then 0 else Left(pcs[0]) + TotalLeft(pcs[1..])
  }

  lemma {:induction false} TotalLeftUpdate(pcs: seq<Pc>, i: nat, pc: Pc)
    requires i < |pcs|
    ensures TotalLeft(pcs[i := pc]) == TotalLeft(pcs) - Left(pcs[i]) + Left(pc)
    decreases |pcs|
  {
    if i > 0 {
      TotalLeftUpdate(pcs[1..], i - 1, pc);
      assert pcs[i := pc][1..] == pcs[1..][i - 1 := pc];
    }
  }

  /** While the primary joins, every run is bounded, and once it has returned every worker has left
      after `finish_tid`: with `JoiningNeverHangs`, joining always returns. */
  lemma {:induction false} JoiningEnds(p: Proc, s: Schedule)
    requires Good(p) && p.dying && Possible(p, s) && p.pcs[0] == Free(PJoining)
    ensures |s| <= TotalLeft(p.pcs) + 1
    ensures var q := Run(p, s);
            q.pcs != [] && q.pcs[0] == Free(PJoined) ==> forall t :: 0 < t < |q.pcs| ==> HasLeft(q.pcs[t]) && t in q.finished
    decreases |s|
  {
    if s != [] {
      var t, c := s[0].0, s[0].1;
      var q := Step(p, t, c).value;
      StepKeepsGood(p, t, c);
      if t == 0 {
        AllLeft(q, s[1..]);
      } else {
        WorkerEffect(p, t, c);
        DyingStep(p, t, c);
        TotalLeftUpdate(p.pcs, t, q.pcs[t]);
        JoiningEnds(q, s[1..]);
      }
    }
  }

  /** A worker's step changes its own place only. */
  lemma WorkerEffect(p: Proc, t: nat, c: Choice)
    requires Good(p) && t > 0 && Step(p, t, c).Some?
    ensures var q := Step(p, t, c).value; q.pcs == p.pcs[t := q.pcs[t]]
  {
    NoDrain(t, p.pcs[t], c, ViewOf(p));
  }

  lemma NoDrain(t: nat, pc: Pc, c: Choice, v: View)
    requires t > 0
    ensures var e := Act(t, pc, c, v); e.Some? ==> !e.value.drain
  {
  }

  /** When everybody has left, nothing more happens. */
  lemma AllLeft(p: Proc, s: Schedule)
    requires Good(p) && Possible(p, s) && p.pcs[0] == Free(PJoined) && AllExited(p)
    ensures s == [] && Run(p, s) == p
  {
  }
}
