/**
 * The effect body of hooks/useVisibilityReconciler.ts with its closure variables
 * as fields that the callbacks update in place.  Every method is proved against
 * the step function of `ReconcilerModel`, whose runs carry the theorems.
 */
module ReconcilerHook {
  import opened Basics
  import Model = ReconcilerModel
  import opened ReconcilerModel

  class VisibilityReconciler {
    const cfg: Config
    var active: bool
    var inFlight: bool
    var rerun: bool
    var waiters: seq<Waiter>
    var lastCompletedAt: Option<int>
    var cooldownTimer: Option<int>
    var safetyTimer: Option<int>
    var scheduled: bool
    // The page and the clock.
    var visible: bool
    var now: int
    // What the hook has done so far.
    var begun: seq<int>
    var ended: seq<int>
    var queued: seq<Waiter>
    var released: seq<Release>

    ghost function View(): State
      reads this
    {
      State(active, inFlight, rerun, waiters, lastCompletedAt, cooldownTimer, safetyTimer, scheduled,
            visible, now, begun, ended, queued, released)
    }

    ghost predicate Valid()
      reads this
    {
      Inv(cfg, View())
    }

    constructor (cfg: Config, now: int, visible: bool)
      ensures this.cfg == cfg
      ensures View() == Mount(cfg, now, visible) && Valid()
    {
      this.cfg := cfg;
      active, inFlight, rerun, waiters := true, false, false, [];
      lastCompletedAt, cooldownTimer, safetyTimer, scheduled := None, None, None, false;
      this.visible, this.now := visible, now;
      begun, ended, queued, released := [], [], [], [];
      new;
      if cfg.reconcileOnEnable {
        Trigger();
      }
      ScheduleSafety();
      MountInv(cfg, now, visible);
    }

    /** Drains the queue, resolving each caller in turn. */
    method ReleaseAll()
      modifies this
      ensures View() == Model.ReleaseAll(old(View()))
    {
      var current := waiters;
      waiters := [];
      for i := 0 to |current|
        invariant View() == old(View()).(waiters := [],
                                         released := old(released) + Releases(current, old(View()))[..i])
      {
        released := released + [Release(current[i], now, |ended|, active, visible)];
      }
    }

    method ResolveWaiters()
      modifies this
      ensures View() == Model.ResolveWaiters(old(View()))
    {
      if inFlight || rerun || scheduled {
        return;
      }
      ReleaseAll();
    }

    method Pause()
      modifies this
      ensures View() == Model.Pause(old(View()))
    {
      safetyTimer := None;
      cooldownTimer := None;
      scheduled := false;
      rerun := false;
      ResolveWaiters();
    }

    method Schedule(delay: int)
      modifies this
      ensures View() == Model.Schedule(old(View()), delay)
    {
      if !active || !visible || cooldownTimer.Some? {
        return;
      }
      scheduled := true;
      cooldownTimer := Some(now + Max(0, delay));
    }

    method ScheduleSafety()
      modifies this
      ensures View() == Model.ScheduleSafety(cfg, old(View()))
    {
      if !active || !visible || safetyTimer.Some? {
        return;
      }
      safetyTimer := Some(now + Max(1, cfg.interval));
    }

    method Enqueue()
      modifies this
      ensures View() == Model.Enqueue(old(View()))
    {
      var waiter := Waiter(|queued|, now, |begun|);
      queued := queued + [waiter];
      waiters := waiters + [waiter];
    }

    /** The part of `run` before its first await; `EndReconcile` is the part after it. */
    method Run()
      modifies this
      ensures View() == Model.Run(cfg, old(View()))
    {
      if !active || !visible {
        return;
      }
      if inFlight {
        rerun := true;
        Enqueue();
        return;
      }
      var remainingGap := match lastCompletedAt case None => 0 case Some(t) => cfg.minimumGap - (now - t);
      if remainingGap > 0 {
        rerun := true;
        Schedule(remainingGap);
        Enqueue();
        return;
      }
      inFlight := true;
      begun := begun + [now];
    }

    method Trigger()
      modifies this
      ensures View() == Model.Run(cfg, old(View()))
    {
      if !active || !visible {
        return;
      }
      Run();
    }

    method Resume()
      modifies this
      ensures View() == Model.Resume(cfg, old(View()))
    {
      if !visible {
        Pause();
        return;
      }
      Trigger();
      ScheduleSafety();
    }

    /** The `finally` block: it runs whether the reconcile returned or threw. */
    method EndReconcile()
      modifies this
      ensures View() == Model.EndReconcile(cfg, old(View()))
    {
      lastCompletedAt := Some(now);
      inFlight := false;
      ended := ended + [now];
      if rerun && active && visible {
        rerun := false;
        Schedule(cfg.minimumGap);
      } else if !visible {
        rerun := false;
      }
      ResolveWaiters();
    }

    method CooldownFires()
      modifies this
      ensures View() == Model.FireCooldown(cfg, old(View()))
    {
      cooldownTimer := None;
      scheduled := false;
      Run();
    }

    method SafetyFires()
      modifies this
      ensures View() == Model.FireSafety(cfg, old(View()))
    {
      safetyTimer := None;
      Trigger();
      ScheduleSafety();
    }

    method Dispose()
      modifies this
      ensures View() == Model.Dispose(old(View()))
    {
      active := false;
      Pause();
      ReleaseAll();
    }

    /** Whatever the browser runs next, the hook takes the model's step and keeps the invariant. */
    method Deliver(e: Event)
      requires Valid() && Enabled(View(), e)
      modifies this
      ensures View() == Step(cfg, old(View()), e) && Valid()
    {
      StepKeepsInv(cfg, View(), e);
      match e {
        case Call => Run();
        case ReconcileEnds => EndReconcile();
        case CooldownFires => CooldownFires();
        case SafetyFires => SafetyFires();
        case VisibilityChanges(v) =>
          visible := v;
          if active { Resume(); }
        case GoesOnline =>
          if active { Resume(); }
        case Disposed => Dispose();
        case TimePasses(d) => now := now + d;
      }
    }
  }
}
