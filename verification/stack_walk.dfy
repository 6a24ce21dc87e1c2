/** Walking the stack: function-table lookup and unwinding together, and the forced unwind to a
    target frame. */
module StackWalk {
  import opened Words
  import opened Memory
  import opened Unwind
  import opened UnwindCalls
  import opened FunctionTables

  const MAX_FRAMES := 64

  /** The context one frame up: by the table entry that covers RIP, or popped when there is none. At
      most `links` chained entries are followed. */
  ghost function Next(tables: map<u64, Table>, m: Mem, links: nat, ctx: Context): Option<Context> {
    if exists e :: Finds(tables, ctx.rip, e) then
      var e :| Finds(tables, ctx.rip, e);
      Finished(Follow(LevelOf(m, e.base), e.entry, ctx, links))
    else PopRip(m, ctx.regs)
  }

  function Finished(u: Option<Unwound>): Option<Context> {
    match u
    case Some(Done(c, _)) => Some(c)
    case _ => None
  }

  /** `unwind_one`. */
  method UnwindFrameAt(tables: map<u64, Table>, m: Mem, links: nat, ctx: Context) returns (r: Option<Context>)
    requires TablesOk(tables)
    ensures r == Next(tables, m, links, ctx)
  {
    var found := LookupFunctionEntry(tables, ctx.rip);
    if found.None? {
      assert !exists e :: Finds(tables, ctx.rip, e);
      return PopRip(m, ctx.regs);
    }
    NextIs(tables, m, links, ctx, found.value);
    var unwound := VirtualUnwind(m, found.value.base, found.value.entry, ctx, links);
    return Finished(unwound);
  }

  lemma NextIs(tables: map<u64, Table>, m: Mem, links: nat, ctx: Context, e: FunctionEntry)
    requires TablesOk(tables) && Finds(tables, ctx.rip, e)
    ensures Next(tables, m, links, ctx) == Finished(Follow(LevelOf(m, e.base), e.entry, ctx, links))
  {
    forall f | Finds(tables, ctx.rip, f) ensures f == e { CoveringIsUnique(tables, ctx.rip, e, f); }
  }

  /** What a forced unwind looks for: an instruction, a frame, or either. */
  datatype Target = Target(ip: u64, rsp: Option<u64>) {
    predicate AtFrame(c: Context) { rsp == Some(c.regs.rsp) }

    predicate Hit(c: Context) { AtFrame(c) || (ip != 0 && c.rip == ip) }
  }

  /** The walk from `ctx`, one unwinder step after the other. */
  ghost function Walk(next: Context -> Option<Context>, ctx: Context, target: Target, left: nat): Option<Context>
    decreases left, ctx
  {
    if left == 0 || target.AtFrame(ctx) then Some(ctx)
    else
      match next(ctx)
      case None => None
      case Some(c) =>
        if c.rip == 0 then Some(ctx)
        else if target.Hit(c) then Some(c)
        else Walk(next, c, target, left - 1)
  }

  ghost function NextOf(tables: map<u64, Table>, m: Mem, links: nat): Context -> Option<Context> {
    ctx => Next(tables, m, links, ctx)
  }

  /** The loop of `forced_unwind_to`. */
  method WalkUp(tables: map<u64, Table>, m: Mem, links: nat, start: Context, target: Target) returns (r: Option<Context>)
    requires TablesOk(tables)
    ensures r == Walk(NextOf(tables, m, links), start, target, MAX_FRAMES)
  {
    ghost var next := NextOf(tables, m, links);
    var frame, n := start, 0;
    while n < MAX_FRAMES
      invariant 0 <= n <= MAX_FRAMES
      invariant Walk(next, frame, target, MAX_FRAMES - n) == Walk(next, start, target, MAX_FRAMES)
    {
      if target.AtFrame(frame) { break; }
      var c := UnwindFrameAt(tables, m, links, frame);
      if c.None? { return None; }
      if c.value.rip == 0 { break; }
      frame := c.value;
      n := n + 1;
      if target.Hit(frame) { return Some(frame); }
    }
    return Some(frame);
  }

  /** Where the thread goes on: at the target instruction, if there is one, in the frame found. */
  function Landed(target: Target, frame: Context): Context {
    if target.ip != 0 then Context(target.ip, frame.regs) else frame
  }

  /** The context after a forced unwind asked for by a call with registers `s`. */
  ghost function Forced(next: Context -> Option<Context>, m: Mem, s: Regs, target: Target): Option<Context> {
    match PopRip(m, s)
    case None => None
    case Some(start) =>
      if target.ip == 0 && target.rsp == None then Some(start)
      else
        match Walk(next, start, target, MAX_FRAMES)
        case None => None
        case Some(frame) => Some(Landed(target, frame))
  }

  /** `forced_unwind_to`: without a target a plain return, else the walk and the move to its end. */
  method ForcedUnwind(tables: map<u64, Table>, m: Mem, links: nat, s: Regs, target: Target) returns (r: Option<Context>)
    requires TablesOk(tables)
    ensures r == Forced(NextOf(tables, m, links), m, s, target)
  {
    var start := PopRip(m, s);
    if start.None? || (target.ip == 0 && target.rsp == None) { return start; }
    var frame := WalkUp(tables, m, links, start.value, target);
    if frame.None? { return None; }
    return Some(Landed(target, frame.value));
  }

  // ---- walking the frames of a run -----------------------------------------------------

  /** RIP is covered by the registered entry of the function, or the function is a leaf without an
      entry. */
  ghost predicate At(tables: map<u64, Table>, rip: u64, f: Function) {
    Finds(tables, rip, FunctionEntry(f.entry, f.base)) || (f.Leaf() && forall e :: !Finds(tables, rip, e))
  }

  /** Every frame's RIP lies in its function. */
  ghost predicate Located(tables: map<u64, Table>, rip: u64, frames: seq<Frame>)
    decreases |frames|
  {
    frames != [] ==> At(tables, rip, Inner(frames).f) && Located(tables, Inner(frames).caller.rip, Outer(frames))
  }

  /** One step up the stack gives the context of the innermost caller. */
  lemma StepUp(tables: map<u64, Table>, m: Mem, links: nat, fr: Frame, ctx: Context) returns (c: Context)
    requires TablesOk(tables) && FrameOk(m, fr, ctx.regs) && At(tables, ctx.rip, fr.f)
    ensures NextOf(tables, m, links)(ctx) == Some(c) && Resumes(Some(c), fr.caller)
  {
    UnwindFrame(m, fr, ctx);
    c := UnwindOne(m, fr.f.base, fr.f.entry, ctx).value.ctx;
    if Finds(tables, ctx.rip, FunctionEntry(fr.f.entry, fr.f.base)) {
      NextIs(tables, m, links, ctx, FunctionEntry(fr.f.entry, fr.f.base));
      FollowFurther(LevelOf(m, fr.f.base), fr.f.entry, ctx, 0, links);
    }
  }

  /** The first caller that is the target is the `n`-th, and no RIP on the way is zero. */
  ghost predicate Reaches(frames: seq<Frame>, target: Target, n: nat)
    requires n <= |frames|
    decreases n
  {
    n > 0 ==>
      var home := Inner(frames).caller;
      home.rip != 0 && (target.Hit(home) <==> n == 1) && Reaches(Outer(frames), target, n - 1)
  }

  /** What makes a frame the innermost one of a context. */
  type WalkTest = (Frame, Context) -> bool

  ghost predicate Walkable(ok: WalkTest, ctx: Context, frames: seq<Frame>)
    decreases |frames|
  {
    frames != [] ==> ok(Inner(frames), ctx) && Walkable(ok, Inner(frames).caller, Outer(frames))
  }

  ghost predicate StepsUp(next: Context -> Option<Context>, ok: WalkTest) {
    forall fr: Frame, ctx: Context {:trigger ok(fr, ctx), next(ctx)} :: ok(fr, ctx) ==> Resumes(next(ctx), fr.caller)
  }

  /** The test looks only at RIP, RSP and the nonvolatile registers. */
  ghost predicate RespectsResuming(ok: WalkTest) {
    forall fr: Frame, c: Context, home: Context {:trigger ok(fr, home), ok(fr, c)} ::
      ok(fr, home) && Resumes(Some(c), home) ==> ok(fr, c)
  }

  lemma {:induction false} WalkReaches(
    next: Context -> Option<Context>, ok: WalkTest, frames: seq<Frame>, ctx: Context, target: Target, n: nat, left: nat)
    requires StepsUp(next, ok) && RespectsResuming(ok) && Walkable(ok, ctx, frames)
    requires 0 < n <= |frames| && n <= left && Reaches(frames, target, n) && !target.AtFrame(ctx)
    ensures Resumes(Walk(next, ctx, target, left), frames[|frames| - n].caller)
    decreases n
  {
    var home, outer := Inner(frames).caller, Outer(frames);
    assert ok(Inner(frames), ctx);
    var c := next(ctx).value;
    assert target.Hit(c) <==> target.Hit(home);
    if n > 1 {
      assert ok(Inner(outer), home) ==> ok(Inner(outer), c);
      WalkReaches(next, ok, outer, c, target, n - 1, left - 1);
    }
  }

  ghost function WalkTestOf(tables: map<u64, Table>, m: Mem): WalkTest {
    (fr: Frame, ctx: Context) => FrameOk(m, fr, ctx.regs) && At(tables, ctx.rip, fr.f)
  }

  lemma TestStepsUp(tables: map<u64, Table>, m: Mem, links: nat)
    requires TablesOk(tables)
    ensures StepsUp(NextOf(tables, m, links), WalkTestOf(tables, m))
  {
    var next, ok := NextOf(tables, m, links), WalkTestOf(tables, m);
    forall fr: Frame, ctx: Context {:trigger ok(fr, ctx), next(ctx)} | ok(fr, ctx) ensures Resumes(next(ctx), fr.caller) {
      var c := StepUp(tables, m, links, fr, ctx);
    }
  }

  lemma TestRespectsResuming(tables: map<u64, Table>, m: Mem)
    ensures RespectsResuming(WalkTestOf(tables, m))
  {
    var ok := WalkTestOf(tables, m);
    forall fr: Frame, c: Context, home: Context {:trigger ok(fr, home), ok(fr, c)} | ok(fr, home) && Resumes(Some(c), home)
      ensures ok(fr, c)
    {
      FrameAgree(m, fr, home.regs, c.regs);
    }
  }

  lemma {:induction false} StackedWalks(tables: map<u64, Table>, m: Mem, frames: seq<Frame>, ctx: Context)
    requires Stacked(m, ctx.regs, frames) && Located(tables, ctx.rip, frames)
    ensures Walkable(WalkTestOf(tables, m), ctx, frames)
    decreases |frames|
  {
    if frames != [] { StackedWalks(tables, m, Outer(frames), Inner(frames).caller); }
  }

  /** The walk to a caller that is active ends in that caller's context, whatever functions lie in
      between. */
  lemma WalkReachesTarget(
    tables: map<u64, Table>, m: Mem, links: nat, frames: seq<Frame>, ctx: Context, target: Target, n: nat, left: nat)
    requires TablesOk(tables) && Stacked(m, ctx.regs, frames) && Located(tables, ctx.rip, frames)
    requires 0 < n <= |frames| && n <= left && Reaches(frames, target, n) && !target.AtFrame(ctx)
    ensures Resumes(Walk(NextOf(tables, m, links), ctx, target, left), frames[|frames| - n].caller)
  {
    TestStepsUp(tables, m, links);
    TestRespectsResuming(tables, m);
    StackedWalks(tables, m, frames, ctx);
    WalkReaches(NextOf(tables, m, links), WalkTestOf(tables, m), frames, ctx, target, n, left);
  }

  /** A forced unwind, called from an active frame, to an instruction or a frame: the thread goes on
      with RSP and the nonvolatile registers of the first caller that is the target, at the target
      instruction if one was given and where that caller resumes otherwise. */
  lemma ForcedUnwindLands(
    tables: map<u64, Table>, m: Mem, links: nat, frames: seq<Frame>, s: Regs, ctx: Context, target: Target, n: nat)
    requires PopRip(m, s) == Some(ctx) && (target.ip != 0 || target.rsp != None)
    requires TablesOk(tables) && Stacked(m, ctx.regs, frames) && Located(tables, ctx.rip, frames)
    requires 0 < n <= |frames| && n <= 64 && Reaches(frames, target, n) && !target.AtFrame(ctx)
    ensures var home := frames[|frames| - n].caller;
            Resumes(Forced(NextOf(tables, m, links), m, s, target),
                    Context(if target.ip != 0 then target.ip else home.rip, home.regs))
  {
    WalkReachesTarget(tables, m, links, frames, ctx, target, n, MAX_FRAMES);
  }

  /** Return addresses on the way are not zero. */
  ghost predicate NonNull(frames: seq<Frame>, n: nat)
    requires n <= |frames|
    decreases n
  {
    n > 0 ==> Inner(frames).caller.rip != 0 && NonNull(Outer(frames), n - 1)
  }

  /** A caller named by its RSP is reached: RSP grows from frame to frame, so no other has it. */
  lemma {:induction false} FrameTargetReaches(m: Mem, s: Regs, frames: seq<Frame>, n: nat)
    requires Stacked(m, s, frames) && 0 < n <= |frames| && NonNull(frames, n)
    ensures var target := Target(0, Some(frames[|frames| - n].caller.regs.rsp));
            Reaches(frames, target, n) && s.rsp < target.rsp.value
    decreases n
  {
    var outer := Outer(frames);
    FramesAbove(m, s, frames, |frames| - n);
    if n > 1 {
      FrameTargetReaches(m, Inner(frames).caller.regs, outer, n - 1);
      assert outer[|outer| - (n - 1)] == frames[|frames| - n];
    }
  }

  /** `RtlUnwindEx` to the frame of any of the 64 innermost callers restores that caller's RIP, RSP
      and nonvolatile registers. */
  lemma UnwindToFrame(tables: map<u64, Table>, m: Mem, links: nat, frames: seq<Frame>, s: Regs, ctx: Context, n: nat)
    requires PopRip(m, s) == Some(ctx)
    requires TablesOk(tables) && Stacked(m, ctx.regs, frames) && Located(tables, ctx.rip, frames)
    requires 0 < n <= |frames| && n <= MAX_FRAMES && NonNull(frames, n)
    ensures var home := frames[|frames| - n].caller;
            Resumes(Forced(NextOf(tables, m, links), m, s, Target(0, Some(home.regs.rsp))), home)
  {
    FrameTargetReaches(m, ctx.regs, frames, n);
    ForcedUnwindLands(tables, m, links, frames, s, ctx, Target(0, Some(frames[|frames| - n].caller.regs.rsp)), n);
  }
}
