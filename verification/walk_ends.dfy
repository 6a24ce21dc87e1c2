/** Where the walk of a forced unwind ends, frame by frame. */
module WalkEnds {
  import opened Words
  import opened Unwind
  import opened StackWalk

  /** The context `k` frames up. */
  ghost function Up(next: Context -> Option<Context>, ctx: Context, k: nat): Option<Context>
    decreases k, ctx
  {
    if k == 0 then Some(ctx)
    else match next(ctx) case None => None case Some(c) => Up(next, c, k - 1)
  }

  /** The context is the target: by its RSP, or, but for the first, by its RIP. */
  predicate Wanted(c: Context, target: Target, k: nat) {
    target.rsp == Some(c.regs.rsp) || (k > 0 && target.ip != 0 && target.ip == c.rip)
  }

  /** The walk goes on above frame `k`: it is not the target, and there is a frame above it. */
  ghost predicate GoesOn(next: Context -> Option<Context>, ctx: Context, target: Target, k: nat) {
    && Up(next, ctx, k).Some? && !Wanted(Up(next, ctx, k).value, target, k)
    && Up(next, ctx, k + 1).Some? && Up(next, ctx, k + 1).value.rip != 0
  }

  /** It ends at the first frame where it does not go on, or after so many; unless that frame is no target and
      cannot be unwound, which is a failure. */
  lemma {:induction false} WalkIs(next: Context -> Option<Context>, ctx: Context, target: Target, left: nat, n: nat)
    requires n <= left && (forall k: nat :: k < n ==> GoesOn(next, ctx, target, k)) && (n < left ==> !GoesOn(next, ctx, target, n))
    ensures var end := Up(next, ctx, n);
            && end.Some?
            && Walk(next, ctx, target, left) ==
               if n == left || Wanted(end.value, target, n) || Up(next, ctx, n + 1).Some? then end else None
    decreases n
  {
    if n > 0 {
      assert GoesOn(next, ctx, target, 0);
      var c := next(ctx).value;
      assert Up(next, ctx, 1) == Up(next, c, 0) == Some(c);
      if target.Hit(c) {
        assert !GoesOn(next, ctx, target, 1);
      } else {
        forall k: nat ensures GoesOn(next, c, target, k) <==> GoesOn(next, ctx, target, k + 1) {
          GoesOnAbove(next, ctx, c, target, k);
        }
        WalkIs(next, c, target, left - 1, n - 1);
      }
    } else if left > 0 {
      assert !GoesOn(next, ctx, target, 0);
      assert next(ctx).Some? ==> Up(next, ctx, 1) == Up(next, next(ctx).value, 0);
    }
  }

  lemma GoesOnAbove(next: Context -> Option<Context>, ctx: Context, c: Context, target: Target, k: nat)
    requires next(ctx) == Some(c) && !target.Hit(c)
    ensures GoesOn(next, c, target, k) <==> GoesOn(next, ctx, target, k + 1)
  {
    assert Up(next, ctx, k + 1) == Up(next, c, k) && Up(next, ctx, k + 2) == Up(next, c, k + 1);
  }
}
