/**
 * The visible-tab reconciler of hooks/useVisibilityReconciler.ts.
 *
 * The effect's closure variables are the fields of `State`; every callback that
 * the browser can run to completion (a call, the end of a reconcile, a timer,
 * an event handler, the cleanup) is one step.  Time is a non-decreasing
 * integer.  The last four fields of `State` are a history that no step reads:
 * when each reconcile began and ended, and which callers queued and were released.
 */
module ReconcilerModel {
  import opened Basics

  /** A queued caller: its place among all queued callers, when it called, and how many reconciles had begun by then. */
  datatype Waiter = Waiter(caller: nat, calledAt: int, begunBefore: nat)

  /** One waiter's promise resolving, with what held at that moment. */
  datatype Release = Release(waiter: Waiter, at: int, endedBy: nat, active: bool, visible: bool)

  datatype Config = Config(minimumGap: int, interval: int, reconcileOnEnable: bool)

  datatype State = State(
    active: bool,
    inFlight: bool,
    rerun: bool,
    waiters: seq<Waiter>,
    lastCompletedAt: Option<int>,
    cooldownTimer: Option<int>,
    safetyTimer: Option<int>,
    scheduled: bool,
    visible: bool,
    now: int,
    begun: seq<int>,
    ended: seq<int>,
    queued: seq<Waiter>,
    released: seq<Release>)

  datatype Event =
    | Call
    | ReconcileEnds
    | CooldownFires
    | SafetyFires
    | VisibilityChanges(visible: bool)
    | GoesOnline
    | Disposed
    | TimePasses(amount: nat)

  // ---- The callbacks, as functions of the state ----

  function Releases(waiters: seq<Waiter>, s: State): seq<Release> {
    seq(|waiters|, i requires 0 <= i < |waiters| => Release(waiters[i], s.now, |s.ended|, s.active, s.visible))
  }

  function ReleaseAll(s: State): State {
    s.(waiters := [], released := s.released + Releases(s.waiters, s))
  }

  function ResolveWaiters(s: State): State {
    if s.inFlight || s.rerun || s.scheduled then s else ReleaseAll(s)
  }

  function Pause(s: State): State {
    ResolveWaiters(s.(safetyTimer := None, cooldownTimer := None, scheduled := false, rerun := false))
  }

  function Schedule(s: State, delay: int): State {
    if !s.active || !s.visible || s.cooldownTimer.Some? then s
    else s.(scheduled := true, cooldownTimer := Some(s.now + Max(0, delay)))
  }

  function ScheduleSafety(cfg: Config, s: State): State {
    if !s.active || !s.visible || s.safetyTimer.Some? then s
    else s.(safetyTimer := Some(s.now + Max(1, cfg.interval)))
  }

  function Enqueue(s: State): State {
    var w := Waiter(|s.queued|, s.now, |s.begun|);
    s.(waiters := s.waiters + [w], queued := s.queued + [w])
  }

  /** Minus infinity, the initial completion time, leaves no gap to wait for. */
  function RemainingGap(cfg: Config, s: State): int {
    match s.lastCompletedAt
    case None => 0
    case Some(t) => cfg.minimumGap - (s.now - t)
  }

  function Begin(s: State): State {
    s.(inFlight := true, begun := s.begun + [s.now])
  }

  function Run(cfg: Config, s: State): State {
    if !s.active || !s.visible then s
    else if s.inFlight then Enqueue(s.(rerun := true))
    else if RemainingGap(cfg, s) > 0 then
      Enqueue(Schedule(s.(rerun := true), RemainingGap(cfg, s)))
    else Begin(s)
  }

  function Resume(cfg: Config, s: State): State {
    if !s.visible then Pause(s) else ScheduleSafety(cfg, Run(cfg, s))
  }

  function End(s: State): State {
    s.(lastCompletedAt := Some(s.now), inFlight := false, ended := s.ended + [s.now])
  }

  function EndReconcile(cfg: Config, s: State): State {
    var done := End(s);
    var next :=
      if done.rerun && done.active && done.visible then Schedule(done.(rerun := false), cfg.minimumGap)
      else if !done.visible then done.(rerun := false)
      else done;
    ResolveWaiters(next)
  }

  function FireCooldown(cfg: Config, s: State): State {
    Run(cfg, s.(cooldownTimer := None, scheduled := false))
  }

  function FireSafety(cfg: Config, s: State): State {
    ScheduleSafety(cfg, Run(cfg, s.(safetyTimer := None)))
  }

  function Dispose(s: State): State {
    ReleaseAll(Pause(s.(active := false)))
  }

  // ---- Runs ----

  function Blank(now: int, visible: bool): State {
    State(true, false, false, [], None, None, None, false, visible, now, [], [], [], [])
  }

  function Mount(cfg: Config, now: int, visible: bool): State {
    var s := Blank(now, visible);
    ScheduleSafety(cfg, if cfg.reconcileOnEnable then Run(cfg, s) else s)
  }

  /** When the browser may run a step: only a pending timer that is due fires, and cleanup runs once. */
  predicate Enabled(s: State, e: Event) {
    match e
    case ReconcileEnds => s.inFlight
    case CooldownFires => s.cooldownTimer.Some? && s.cooldownTimer.value <= s.now
    case SafetyFires => s.safetyTimer.Some? && s.safetyTimer.value <= s.now
    case Disposed => s.active
    case _ => true
  }

  /** The listeners are removed by the cleanup, so a later visibility change or online event runs no handler. */
  function Step(cfg: Config, s: State, e: Event): State {
    match e
    case Call => Run(cfg, s)
    case ReconcileEnds => EndReconcile(cfg, s)
    case CooldownFires => FireCooldown(cfg, s)
    case SafetyFires => FireSafety(cfg, s)
    case VisibilityChanges(v) => if s.active then Resume(cfg, s.(visible := v)) else s.(visible := v)
    case GoesOnline => if s.active then Resume(cfg, s) else s
    case Disposed => Dispose(s)
    case TimePasses(d) => s.(now := s.now + d)
  }

  predicate ValidRun(cfg: Config, s: State, events: seq<Event>)
    decreases |events|
  {
    events == [] || (Enabled(s, events[0]) && ValidRun(cfg, Step(cfg, s, events[0]), events[1..]))
  }

  function Exec(cfg: Config, s: State, events: seq<Event>): State
    decreases |events|
  {
    if events == [] then s else Exec(cfg, Step(cfg, s, events[0]), events[1..])
  }

  // ---- The invariant ----

  ghost predicate TimersAgree(s: State) {
    && (s.scheduled <==> s.cooldownTimer.Some?)
    && (s.safetyTimer.Some? <==> s.active && s.visible)
  }

  ghost predicate FlagsAgree(s: State) {
    && (s.rerun || s.scheduled ==> s.active && s.visible)
    && (s.rerun ==> s.inFlight || s.scheduled)
    && (s.waiters != [] ==> s.active && (s.inFlight || s.scheduled))
  }

  /** Reconcile `k` ended no earlier than it began, and the next one began at least the minimum gap later. */
  predicate Spaced(cfg: Config, begun: seq<int>, ended: seq<int>, now: int, k: nat)
    requires k < |ended| <= |begun|
  {
    && begun[k] <= ended[k] <= now
    && (k + 1 < |begun| ==> ended[k] <= begun[k + 1] && ended[k] + cfg.minimumGap <= begun[k + 1])
  }

  /** Begins and ends alternate, so no two reconciles overlap. */
  ghost predicate HistoryAgrees(cfg: Config, s: State) {
    && |s.begun| == |s.ended| + (if s.inFlight then 1 else 0)
    && s.lastCompletedAt == (if s.ended == [] then None else Some(s.ended[|s.ended| - 1]))
    && (s.inFlight ==> s.begun[|s.ended|] <= s.now)
    && forall k :: 0 <= k < |s.ended| ==> Spaced(cfg, s.begun, s.ended, s.now, k)
  }

  /** `w` called before every reconcile that was still to begin. */
  ghost predicate CalledBefore(w: Waiter, s: State) {
    && w.begunBefore <= |s.begun|
    && w.calledAt <= s.now
    && forall k :: w.begunBefore <= k < |s.begun| ==> w.calledAt <= s.begun[k]
  }

  ghost predicate WaitersBounded(s: State) {
    forall w <- s.waiters :: CalledBefore(w, s)
  }

  /** Every waiter queued before the current reconcile started, unless `rerun` promises another one. */
  ghost predicate WaitersCovered(s: State) {
    s.active && s.visible && s.inFlight && !s.rerun ==> forall w <- s.waiters :: w.begunBefore < |s.begun|
  }

  /** The first reconcile to begin after the call had ended when the caller was released. */
  predicate Served(r: Release, begun: seq<int>, ended: seq<int>) {
    var k := r.waiter.begunBefore;
    && k < |begun| && k < r.endedBy <= |ended|
    && r.waiter.calledAt <= begun[k] <= ended[k] <= r.at
  }

  ghost predicate ReleasesServed(s: State) {
    forall r <- s.released :: r.active && r.visible ==> Served(r, s.begun, s.ended)
  }

  function WaitersOf(released: seq<Release>): seq<Waiter> {
    seq(|released|, i requires 0 <= i < |released| => released[i].waiter)
  }

  /** Each queued caller is waiting or was released, exactly once and in the order of the calls. */
  ghost predicate QueueConserved(s: State) {
    && s.queued == WaitersOf(s.released) + s.waiters
    && forall i :: 0 <= i < |s.queued| ==> s.queued[i].caller == i
  }

  ghost predicate Inv(cfg: Config, s: State) {
    && TimersAgree(s)
    && FlagsAgree(s)
    && HistoryAgrees(cfg, s)
    && WaitersBounded(s)
    && WaitersCovered(s)
    && ReleasesServed(s)
    && QueueConserved(s)
  }

  // ---- Every step keeps it ----

  lemma ReleaseAllConserves(s: State)
    requires QueueConserved(s)
    ensures QueueConserved(ReleaseAll(s))
  {
    assert WaitersOf(ReleaseAll(s).released) == WaitersOf(s.released) + s.waiters;
  }

  lemma EnqueueKeeps(s: State)
    requires QueueConserved(s) && WaitersBounded(s)
    ensures QueueConserved(Enqueue(s)) && WaitersBounded(Enqueue(s))
  {
    var t := Enqueue(s);
    assert t.queued == WaitersOf(t.released) + t.waiters;
  }

  lemma BeginKeeps(cfg: Config, s: State)
    requires HistoryAgrees(cfg, s) && !s.inFlight && RemainingGap(cfg, s) <= 0
    requires WaitersBounded(s) && ReleasesServed(s)
    ensures HistoryAgrees(cfg, Begin(s)) && WaitersBounded(Begin(s)) && ReleasesServed(Begin(s))
    ensures forall w <- s.waiters :: w.begunBefore < |Begin(s).begun|
  {
    var t := Begin(s);
    forall k | 0 <= k < |t.ended|
      ensures Spaced(cfg, t.begun, t.ended, t.now, k)
    {
      assert Spaced(cfg, s.begun, s.ended, s.now, k);
    }
  }

  /** What `run` needs and keeps: everything but the link from waiters to a pending timer or reconcile. */
  ghost predicate RunInv(cfg: Config, s: State) {
    && (s.scheduled <==> s.cooldownTimer.Some?)
    && HistoryAgrees(cfg, s) && WaitersBounded(s) && ReleasesServed(s) && QueueConserved(s)
  }

  /** `run` restores the invariant even when a fired cooldown has just left waiters without a timer. */
  lemma RunKeepsInv(cfg: Config, s: State)
    requires FlagsAgree(s) || (s.active && s.visible && !s.scheduled)
    requires RunInv(cfg, s)
    ensures var t := Run(cfg, s);
      && FlagsAgree(t) && RunInv(cfg, t) && (s.active && s.visible ==> WaitersCovered(t))
      && t.safetyTimer == s.safetyTimer && t.active == s.active && t.visible == s.visible
  {
    if s.active && s.visible {
      if s.inFlight {
        EnqueueKeeps(s.(rerun := true));
      } else if RemainingGap(cfg, s) > 0 {
        EnqueueKeeps(Schedule(s.(rerun := true), RemainingGap(cfg, s)));
      } else {
        BeginKeeps(cfg, s);
      }
    }
  }

  lemma PauseKeepsInv(cfg: Config, s: State)
    requires !s.active || !s.visible
    requires HistoryAgrees(cfg, s) && WaitersBounded(s) && ReleasesServed(s) && QueueConserved(s)
    requires s.waiters != [] ==> s.active
    ensures Inv(cfg, Pause(s))
  {
    ReleaseAllConserves(s);
  }

  lemma EndKeeps(cfg: Config, s: State)
    requires Inv(cfg, s) && s.inFlight
    ensures HistoryAgrees(cfg, End(s)) && WaitersBounded(End(s)) && ReleasesServed(End(s)) && QueueConserved(End(s))
  {
    var t := End(s);
    forall k | 0 <= k < |t.ended|
      ensures Spaced(cfg, t.begun, t.ended, t.now, k)
    {
      assert k < |s.ended| ==> Spaced(cfg, s.begun, s.ended, s.now, k);
    }
  }

  /** Waiters whose reconcile has ended may be released. */
  lemma ReleaseAllServes(s: State)
    requires ReleasesServed(s) && WaitersBounded(s)
    requires s.active && s.visible ==>
      forall w <- s.waiters ::
        w.begunBefore < |s.ended| <= |s.begun| && s.begun[w.begunBefore] <= s.ended[w.begunBefore] <= s.now
    ensures ReleasesServed(ReleaseAll(s))
  {
    var added := Releases(s.waiters, s);
    forall r | r in added && r.active && r.visible
      ensures Served(r, s.begun, s.ended)
    {
      var i :| 0 <= i < |added| && added[i] == r;
      assert s.waiters[i] in s.waiters;
    }
  }

  lemma EndReconcileKeepsInv(cfg: Config, s: State)
    requires Inv(cfg, s) && s.inFlight
    ensures Inv(cfg, EndReconcile(cfg, s))
  {
    EndKeeps(cfg, s);
    var t := End(s);
    if !t.rerun && !t.scheduled {
      ReleaseAllConserves(t);
      if s.active && s.visible {
        forall w <- s.waiters
          ensures w.begunBefore < |t.ended| && t.begun[w.begunBefore] <= t.ended[w.begunBefore] <= t.now
        {
          assert Spaced(cfg, t.begun, t.ended, t.now, w.begunBefore);
        }
      }
      ReleaseAllServes(t);
    } else if !s.visible {
      ReleaseAllConserves(t.(rerun := false));
    }
  }

  lemma TimePassesKeepsInv(cfg: Config, s: State, d: nat)
    requires Inv(cfg, s)
    ensures Inv(cfg, s.(now := s.now + d))
  {
    var t := s.(now := s.now + d);
    forall k | 0 <= k < |t.ended|
      ensures Spaced(cfg, t.begun, t.ended, t.now, k)
    {
      assert Spaced(cfg, s.begun, s.ended, s.now, k);
    }
  }

  lemma DisposeKeepsInv(cfg: Config, s: State)
    requires Inv(cfg, s)
    ensures Inv(cfg, Dispose(s))
  {
    ReleaseAllConserves(s);
    ReleaseAllConserves(Pause(s.(active := false)));
  }

  lemma ResumeKeepsInv(cfg: Config, s: State, visible: bool)
    requires Inv(cfg, s) && s.active
    ensures Inv(cfg, Resume(cfg, s.(visible := visible)))
  {
    if visible {
      RunKeepsInv(cfg, s.(visible := visible));
    } else {
      PauseKeepsInv(cfg, s.(visible := visible));
    }
  }

  lemma TimersKeepInv(cfg: Config, s: State)
    requires Inv(cfg, s)
    ensures s.cooldownTimer.Some? ==> Inv(cfg, FireCooldown(cfg, s))
    ensures s.safetyTimer.Some? ==> Inv(cfg, FireSafety(cfg, s))
  {
    if s.cooldownTimer.Some? {
      RunKeepsInv(cfg, s.(cooldownTimer := None, scheduled := false));
    }
    if s.safetyTimer.Some? {
      RunKeepsInv(cfg, s.(safetyTimer := None));
    }
  }

  lemma StepKeepsInv(cfg: Config, s: State, e: Event)
    requires Inv(cfg, s) && Enabled(s, e)
    ensures Inv(cfg, Step(cfg, s, e))
  {
    match e {
      case Call => RunKeepsInv(cfg, s);
      case ReconcileEnds => EndReconcileKeepsInv(cfg, s);
      case CooldownFires => TimersKeepInv(cfg, s);
      case SafetyFires => TimersKeepInv(cfg, s);
      case VisibilityChanges(v) => if s.active { ResumeKeepsInv(cfg, s, v); }
      case GoesOnline => if s.active { ResumeKeepsInv(cfg, s, s.visible); }
      case Disposed => DisposeKeepsInv(cfg, s);
      case TimePasses(d) => TimePassesKeepsInv(cfg, s, d);
    }
  }

  lemma MountInv(cfg: Config, now: int, visible: bool)
    ensures Inv(cfg, Mount(cfg, now, visible))
  {
    RunKeepsInv(cfg, Blank(now, visible));
  }

  lemma {:induction false} ExecKeepsInv(cfg: Config, s: State, events: seq<Event>)
    requires Inv(cfg, s) && ValidRun(cfg, s, events)
    ensures Inv(cfg, Exec(cfg, s, events))
    decreases |events|
  {
    if events != [] {
      StepKeepsInv(cfg, s, events[0]);
      ExecKeepsInv(cfg, Step(cfg, s, events[0]), events[1..]);
    }
  }

  /** The states some run of the hook reaches from its mounting. */
  ghost predicate Reachable(cfg: Config, s: State) {
    exists now: int, visible: bool, events: seq<Event> ::
      ValidRun(cfg, Mount(cfg, now, visible), events) && s == Exec(cfg, Mount(cfg, now, visible), events)
  }

  lemma ReachableInv(cfg: Config, s: State)
    requires Reachable(cfg, s)
    ensures Inv(cfg, s)
  {
    var now, visible, events :|
      ValidRun(cfg, Mount(cfg, now, visible), events) && s == Exec(cfg, Mount(cfg, now, visible), events);
    MountInv(cfg, now, visible);
    ExecKeepsInv(cfg, Mount(cfg, now, visible), events);
  }

  // ---- What every run guarantees ----

  /**
   * A queued caller released while the hook is active and the tab visible has
   * seen a whole reconcile: the first one to begin after its call had ended.
   */
  lemma CallersAreServed(cfg: Config, s: State)
    requires Reachable(cfg, s)
    ensures forall r <- s.released :: r.active && r.visible ==> Served(r, s.begun, s.ended)
  {
    ReachableInv(cfg, s);
  }

  /** Callers are released once each, in the order they called, and none waits without work to wake it. */
  lemma NoCallerIsStranded(cfg: Config, s: State)
    requires Reachable(cfg, s)
    ensures s.queued == WaitersOf(s.released) + s.waiters
    ensures forall i, j :: 0 <= i < j < |s.queued| ==> s.queued[i].caller < s.queued[j].caller
    ensures s.waiters != [] ==> s.active && (s.inFlight || s.cooldownTimer.Some?)
  {
    ReachableInv(cfg, s);
  }

  /** Reconciles never overlap, and each begins at least the minimum gap after the one before it ended. */
  lemma ReconcilesAreSpaced(cfg: Config, s: State)
    requires Reachable(cfg, s)
    ensures |s.ended| <= |s.begun| <= |s.ended| + 1
    ensures forall k :: 0 <= k < |s.ended| ==> Spaced(cfg, s.begun, s.ended, s.now, k)
  {
    ReachableInv(cfg, s);
  }

  /** `scheduled` mirrors the cooldown timer; a safety timer is pending exactly while active and visible. */
  lemma TimersAreExact(cfg: Config, s: State)
    requires Reachable(cfg, s)
    ensures s.scheduled <==> s.cooldownTimer.Some?
    ensures s.safetyTimer.Some? <==> s.active && s.visible
    ensures s.cooldownTimer.Some? ==> s.active && s.visible
    ensures s.rerun ==> s.active && s.visible && (s.inFlight || s.cooldownTimer.Some?)
  {
    ReachableInv(cfg, s);
  }

  /** These callers, and no others, were released at this step, in their order. */
  ghost predicate ReleasedNow(s: State, t: State, callers: seq<Waiter>) {
    && |t.released| == |s.released| + |callers| && t.released[..|s.released|] == s.released
    && forall i :: 0 <= i < |callers| ==>
         var r := t.released[|s.released| + i];
         r.waiter == callers[i] && r.at == s.now && r.endedBy == |t.ended|
         && r.active == t.active && r.visible == t.visible
  }

  /** The whole queue was released, or nobody was and none left it. */
  ghost predicate AllOrNobody(s: State, t: State, all: bool) {
    if all then t.waiters == [] && ReleasedNow(s, t, s.waiters)
    else t.released == s.released && |s.waiters| <= |t.waiters| && t.waiters[..|s.waiters|] == s.waiters
  }

  lemma RunReleasesNobody(cfg: Config, s: State)
    requires s.active && s.visible && (s.scheduled <==> s.cooldownTimer.Some?)
    ensures AllOrNobody(s, Run(cfg, s), false)
    ensures Run(cfg, s).inFlight || Run(cfg, s).cooldownTimer.Some?
  {}

  lemma EndReleases(cfg: Config, s: State)
    requires Inv(cfg, s) && s.inFlight
    ensures AllOrNobody(s, EndReconcile(cfg, s), EndReconcile(cfg, s).cooldownTimer.None?)
    ensures !EndReconcile(cfg, s).inFlight
  {}

  lemma PauseReleases(s: State)
    ensures AllOrNobody(s, Pause(s), !s.inFlight)
    ensures Pause(s).inFlight == s.inFlight && Pause(s).cooldownTimer.None?
  {}

  lemma ResumeReleases(cfg: Config, s: State, visible: bool)
    requires Inv(cfg, s)
    ensures var t := Resume(cfg, s.(visible := visible));
      s.active ==> AllOrNobody(s, t, !t.inFlight && t.cooldownTimer.None?)
  {
    if s.active && visible {
      RunReleasesNobody(cfg, s.(visible := visible));
    } else {
      PauseReleases(s.(visible := visible));
    }
  }

  lemma DisposeReleases(s: State)
    ensures AllOrNobody(s, Dispose(s), true)
  {}

  /**
   * A step releases the whole queue or nobody: the queue exactly when the step
   * is the cleanup or leaves neither a reconcile in flight nor a cooldown pending.
   */
  lemma ReleasedTogether(cfg: Config, s: State, e: Event)
    requires Reachable(cfg, s) && Enabled(s, e)
    ensures var t := Step(cfg, s, e);
      AllOrNobody(s, t, e.Disposed? || (!t.inFlight && t.cooldownTimer.None?))
  {
    ReachableInv(cfg, s);
    if !s.active {
      assert s.waiters == [];
    }
    match e
    case Call => if s.active && s.visible { RunReleasesNobody(cfg, s); }
    case ReconcileEnds => EndReleases(cfg, s);
    case CooldownFires => RunReleasesNobody(cfg, s.(cooldownTimer := None, scheduled := false));
    case SafetyFires => RunReleasesNobody(cfg, s.(safetyTimer := None));
    case VisibilityChanges(v) => ResumeReleases(cfg, s, v);
    case GoesOnline => ResumeReleases(cfg, s, s.visible);
    case Disposed => DisposeReleases(s);
    case TimePasses(_) =>
  }

  // ---- What starts a reconcile, in terms of its history ----

  /** A call, the tab shown, coming online, the safety timer, the cooldown timer: what asks for a reconcile. */
  predicate Asks(e: Event) {
    e.Call? || (e.VisibilityChanges? && e.visible) || e.GoesOnline? || e.SafetyFires? || e.CooldownFires?
  }

  /** No reconcile has ended within the minimum gap. */
  predicate GapIsOver(cfg: Config, s: State) {
    s.ended == [] || s.now - s.ended[|s.ended| - 1] >= cfg.minimumGap
  }

  /**
   * Whatever asks while the hook is active and the tab visible begins a reconcile
   * at once when none is in flight and the gap is over.  Inside the gap it leaves
   * a cooldown pending, during a flight it asks for another, and its caller waits.
   */
  lemma AskingBegins(cfg: Config, s: State, e: Event)
    requires Reachable(cfg, s) && Enabled(s, e) && Asks(e)
    requires s.active && (s.visible || e.VisibilityChanges?)
    ensures var t := Step(cfg, s, e);
      && t.active && t.visible
      && (!s.inFlight && GapIsOver(cfg, s) ==> t.begun == s.begun + [s.now] && t.inFlight && t.queued == s.queued)
      && (!s.inFlight && !GapIsOver(cfg, s) ==>
            t.begun == s.begun && !t.inFlight && t.cooldownTimer.Some? && |t.queued| == |s.queued| + 1)
      && (s.inFlight ==> t.begun == s.begun && t.inFlight && t.rerun && |t.queued| == |s.queued| + 1)
  {
    ReachableInv(cfg, s);
  }

  /** Nothing else begins one, and neither does asking while inactive or hidden, which queues nobody. */
  lemma OnlyAskingBegins(cfg: Config, s: State, e: Event)
    requires Reachable(cfg, s) && Enabled(s, e)
    requires !Asks(e) || !s.active || (!s.visible && !e.VisibilityChanges?)
    ensures Step(cfg, s, e).begun == s.begun && Step(cfg, s, e).queued == s.queued
  {
    ReachableInv(cfg, s);
  }

  /** Mounting begins a reconcile exactly if it is asked to and the tab is visible. */
  lemma MountingBegins(cfg: Config, now: int, visible: bool)
    ensures var s := Mount(cfg, now, visible);
      && s.active && s.visible == visible && s.now == now && s.ended == [] && s.queued == []
      && s.begun == (if cfg.reconcileOnEnable && visible then [now] else [])
      && (s.inFlight <==> s.begun != [])
  {}

  lemma LastEndIsPast(cfg: Config, s: State)
    requires HistoryAgrees(cfg, s)
    ensures s.ended != [] ==>
      s.ended[|s.ended| - 1] <= s.now && s.lastCompletedAt == Some(s.ended[|s.ended| - 1])
    ensures s.ended == [] ==> s.lastCompletedAt.None?
  {
    assert s.ended != [] ==> Spaced(cfg, s.begun, s.ended, s.now, |s.ended| - 1);
  }

  /** The end of the gap after the last reconcile. */
  function GapEnd(cfg: Config, s: State): int
    requires s.ended != []
  {
    s.ended[|s.ended| - 1] + Max(0, cfg.minimumGap)
  }

  /** From `s` to `t` the cooldown timer was kept, cancelled, or started for the end of the gap. */
  ghost predicate CooldownStartsExactly(cfg: Config, s: State, t: State) {
    t.cooldownTimer.Some? ==>
      if s.cooldownTimer.Some? then t.cooldownTimer == s.cooldownTimer
      else t.ended != [] && t.cooldownTimer.value == GapEnd(cfg, t)
  }

  lemma RunStartsExactly(cfg: Config, s: State)
    requires HistoryAgrees(cfg, s)
    ensures CooldownStartsExactly(cfg, s, Run(cfg, s)) && Run(cfg, s).ended == s.ended
    ensures Run(cfg, s).safetyTimer == s.safetyTimer && Run(cfg, s).now == s.now
  {
    LastEndIsPast(cfg, s);
  }

  /** A step that starts the cooldown starts it for exactly the end of the gap, and a pending one is not moved. */
  lemma CooldownIsExact(cfg: Config, s: State, e: Event)
    requires Reachable(cfg, s) && Enabled(s, e)
    ensures var t := Step(cfg, s, e);
      && (t.cooldownTimer.Some? && (s.cooldownTimer.None? || e.CooldownFires?) ==>
            t.ended != [] && t.cooldownTimer.value == t.ended[|t.ended| - 1] + Max(0, cfg.minimumGap))
      && (t.cooldownTimer.Some? && s.cooldownTimer.Some? && !e.CooldownFires? ==> t.cooldownTimer == s.cooldownTimer)
  {
    ReachableInv(cfg, s);
    match e
    case Call => RunStartsExactly(cfg, s);
    case ReconcileEnds => EndStartsExactly(cfg, s);
    case CooldownFires => RunStartsExactly(cfg, s.(cooldownTimer := None, scheduled := false));
    case SafetyFires => RunStartsExactly(cfg, s.(safetyTimer := None));
    case VisibilityChanges(v) => RunStartsExactly(cfg, s.(visible := v));
    case GoesOnline => RunStartsExactly(cfg, s);
    case Disposed =>
    case TimePasses(_) =>
  }

  /** A step that starts the safety timer starts it for the interval from now, and a pending one is not moved. */
  lemma SafetyIsExact(cfg: Config, s: State, e: Event)
    requires Reachable(cfg, s) && Enabled(s, e)
    ensures var t := Step(cfg, s, e);
      && (t.safetyTimer.Some? && (s.safetyTimer.None? || e.SafetyFires?) ==>
            t.safetyTimer.value == s.now + Max(1, cfg.interval))
      && (t.safetyTimer.Some? && s.safetyTimer.Some? && !e.SafetyFires? ==> t.safetyTimer == s.safetyTimer)
  {
    ReachableInv(cfg, s);
    match e
    case Call => RunStartsExactly(cfg, s);
    case ReconcileEnds => EndStartsExactly(cfg, s);
    case CooldownFires => RunStartsExactly(cfg, s.(cooldownTimer := None, scheduled := false));
    case SafetyFires => RunStartsExactly(cfg, s.(safetyTimer := None));
    case VisibilityChanges(v) => RunStartsExactly(cfg, s.(visible := v));
    case GoesOnline => RunStartsExactly(cfg, s);
    case Disposed =>
    case TimePasses(_) =>
  }

  lemma EndStartsExactly(cfg: Config, s: State)
    requires Inv(cfg, s) && s.inFlight
    ensures var t := EndReconcile(cfg, s);
      CooldownStartsExactly(cfg, s, t) && t.ended == s.ended + [s.now] && t.safetyTimer == s.safetyTimer
  {}

  ghost predicate TimersBounded(cfg: Config, s: State) {
    && (s.cooldownTimer.Some? ==> s.ended != [] && s.cooldownTimer.value <= GapEnd(cfg, s))
    && (s.safetyTimer.Some? ==> s.safetyTimer.value <= s.now + Max(1, cfg.interval))
  }

  lemma StepKeepsBounds(cfg: Config, s: State, e: Event)
    requires Inv(cfg, s) && Enabled(s, e) && TimersBounded(cfg, s)
    ensures TimersBounded(cfg, Step(cfg, s, e))
  {
    LastEndIsPast(cfg, s);
    match e
    case Call => RunStartsExactly(cfg, s);
    case ReconcileEnds => EndStartsExactly(cfg, s);
    case CooldownFires => RunStartsExactly(cfg, s.(cooldownTimer := None, scheduled := false));
    case SafetyFires => RunStartsExactly(cfg, s.(safetyTimer := None));
    case VisibilityChanges(v) => RunStartsExactly(cfg, s.(visible := v));
    case GoesOnline => RunStartsExactly(cfg, s);
    case Disposed =>
    case TimePasses(_) =>
  }

  lemma {:induction false} ExecKeepsBounds(cfg: Config, s: State, events: seq<Event>)
    requires Inv(cfg, s) && ValidRun(cfg, s, events) && TimersBounded(cfg, s)
    ensures TimersBounded(cfg, Exec(cfg, s, events))
    decreases |events|
  {
    if events != [] {
      StepKeepsInv(cfg, s, events[0]);
      StepKeepsBounds(cfg, s, events[0]);
      ExecKeepsBounds(cfg, Step(cfg, s, events[0]), events[1..]);
    }
  }

  /** A pending cooldown is due by the last end plus the gap, and a pending safety timer by now plus the interval. */
  lemma TimersAreDue(cfg: Config, s: State)
    requires Reachable(cfg, s)
    ensures s.cooldownTimer.Some? ==>
      s.ended != [] && s.cooldownTimer.value <= s.ended[|s.ended| - 1] + Max(0, cfg.minimumGap)
    ensures s.safetyTimer.Some? ==> s.safetyTimer.value <= s.now + Max(1, cfg.interval)
  {
    var now, visible, events :|
      ValidRun(cfg, Mount(cfg, now, visible), events) && s == Exec(cfg, Mount(cfg, now, visible), events);
    MountInv(cfg, now, visible);
    ExecKeepsBounds(cfg, Mount(cfg, now, visible), events);
  }

  // ---- Every request is met ----

  /** When something last asked, `before` if nothing does. */
  function LastAsked(cfg: Config, s: State, events: seq<Event>, before: Option<int>): Option<int>
    decreases |events|
  {
    if events == [] then before
    else LastAsked(cfg, Step(cfg, s, events[0]), events[1..], if Asks(events[0]) then Some(s.now) else before)
  }

  /** A reconcile has begun since then, or one is still to come. */
  ghost predicate Promised(s: State, asked: Option<int>) {
    asked.Some? ==>
      asked.value <= s.now && (s.rerun || s.scheduled || (s.begun != [] && s.begun[|s.begun| - 1] >= asked.value))
  }

  predicate Stays(e: Event) {
    !e.Disposed? && !(e.VisibilityChanges? && !e.visible)
  }

  lemma RunPromises(cfg: Config, s: State)
    requires s.active && s.visible && (s.scheduled <==> s.cooldownTimer.Some?)
    ensures Promised(Run(cfg, s), Some(s.now)) && Run(cfg, s).active && Run(cfg, s).visible
  {}

  lemma EndKeepsPromise(cfg: Config, s: State, asked: Option<int>)
    requires Inv(cfg, s) && s.inFlight && s.active && s.visible && Promised(s, asked)
    ensures Promised(EndReconcile(cfg, s), asked)
  {}

  lemma StepKeepsPromise(cfg: Config, s: State, e: Event, asked: Option<int>)
    requires Inv(cfg, s) && Enabled(s, e) && s.active && s.visible && Stays(e) && Promised(s, asked)
    ensures var t := Step(cfg, s, e);
      t.active && t.visible && Promised(t, if Asks(e) then Some(s.now) else asked)
  {
    match e
    case Call => RunPromises(cfg, s);
    case ReconcileEnds => EndKeepsPromise(cfg, s, asked);
    case CooldownFires => RunPromises(cfg, s.(cooldownTimer := None, scheduled := false));
    case SafetyFires => RunPromises(cfg, s.(safetyTimer := None));
    case VisibilityChanges(_) => RunPromises(cfg, s);
    case GoesOnline => RunPromises(cfg, s);
    case Disposed =>
    case TimePasses(_) =>
  }

  lemma {:induction false} RunKeepsPromise(cfg: Config, s: State, events: seq<Event>, asked: Option<int>)
    requires Inv(cfg, s) && ValidRun(cfg, s, events) && s.active && s.visible && Promised(s, asked)
    requires forall e <- events :: Stays(e)
    ensures Promised(Exec(cfg, s, events), LastAsked(cfg, s, events, asked))
    decreases |events|
  {
    if events != [] {
      var e := events[0];
      StepKeepsInv(cfg, s, e);
      StepKeepsPromise(cfg, s, e, asked);
      RunKeepsPromise(cfg, Step(cfg, s, e), events[1..], if Asks(e) then Some(s.now) else asked);
    }
  }

  /**
   * Without a hide or a dispose, once the hook has settled the last reconcile
   * began no earlier than the last time anything asked for one.
   */
  lemma RequestsAreMet(cfg: Config, s: State, events: seq<Event>)
    requires Reachable(cfg, s) && s.active && s.visible
    requires ValidRun(cfg, s, events) && forall e <- events :: Stays(e)
    ensures var t, asked := Exec(cfg, s, events), LastAsked(cfg, s, events, None);
      !t.inFlight && t.cooldownTimer.None? && asked.Some? ==>
        t.begun != [] && t.begun[|t.begun| - 1] >= asked.value
  {
    ReachableInv(cfg, s);
    RunKeepsPromise(cfg, s, events, None);
    ExecKeepsInv(cfg, s, events);
  }

  // ---- Quiet runs settle ----

  /** No new calls or events, and the safety timer set aside. */
  predicate Quiet(e: Event) {
    e.ReconcileEnds? || e.CooldownFires? || e.TimePasses?
  }

  predicate Settled(s: State) {
    !s.inFlight && s.cooldownTimer.None?
  }

  /** The pending cooldown will find that a later reconcile has moved the gap, and only reschedule. */
  predicate Stale(cfg: Config, s: State) {
    && s.cooldownTimer.Some? && s.lastCompletedAt.Some?
    && s.cooldownTimer.value < s.lastCompletedAt.value + cfg.minimumGap
  }

  /** How many reconciles can still begin. */
  function BeginsLeft(cfg: Config, s: State): nat {
    if s.inFlight then (if s.scheduled then 2 else if s.rerun then 1 else 0)
    else if s.scheduled then (if s.rerun || Stale(cfg, s) then 2 else 1)
    else 0
  }

  /** How many reconcile ends and cooldown firings can still happen. */
  function StepsLeft(cfg: Config, s: State): nat {
    if s.inFlight then (if s.scheduled then 6 else if s.rerun then 3 else 1)
    else if s.scheduled then (if Stale(cfg, s) then 5 else if s.rerun then 4 else 2)
    else 0
  }

  function CountSteps(events: seq<Event>): nat {
    if events == [] then 0
    else (if events[0].TimePasses? then 0 else 1) + CountSteps(events[1..])
  }

  lemma QuietStepDecreases(cfg: Config, s: State, e: Event)
    requires Inv(cfg, s) && s.active && s.visible && Enabled(s, e) && Quiet(e)
    ensures var t := Step(cfg, s, e);
      && t.active && t.visible
      && |t.begun| + BeginsLeft(cfg, t) <= |s.begun| + BeginsLeft(cfg, s)
      && StepsLeft(cfg, t) + (if e.TimePasses? then 0 else 1) <= StepsLeft(cfg, s)
  {}

  lemma {:induction false} QuietRunDecreases(cfg: Config, s: State, events: seq<Event>)
    requires Inv(cfg, s) && s.active && s.visible
    requires ValidRun(cfg, s, events) && forall e <- events :: Quiet(e)
    ensures var t := Exec(cfg, s, events);
      && t.active && t.visible
      && |t.begun| + BeginsLeft(cfg, t) <= |s.begun| + BeginsLeft(cfg, s)
      && CountSteps(events) + StepsLeft(cfg, t) <= StepsLeft(cfg, s)
    decreases |events|
  {
    if events != [] {
      StepKeepsInv(cfg, s, events[0]);
      QuietStepDecreases(cfg, s, events[0]);
      QuietRunDecreases(cfg, Step(cfg, s, events[0]), events[1..]);
    }
  }

  /** A quiet run begins at most two more reconciles, takes at most six steps, and settles with an empty queue. */
  lemma QuietRunsSettle(cfg: Config, s: State, events: seq<Event>)
    requires Reachable(cfg, s) && s.active && s.visible
    requires ValidRun(cfg, s, events) && forall e <- events :: Quiet(e)
    ensures var t := Exec(cfg, s, events);
      && |t.begun| <= |s.begun| + 2
      && CountSteps(events) <= 6
      && (CountSteps(events) == StepsLeft(cfg, s) ==> Settled(t))
      && (Settled(t) ==> t.waiters == [] && !t.rerun)
  {
    ReachableInv(cfg, s);
    QuietRunDecreases(cfg, s, events);
    ExecKeepsInv(cfg, s, events);
  }

  /** Until it settles some quiet step can always be taken, at the latest when the cooldown comes due. */
  lemma UnsettledCanStep(cfg: Config, s: State)
    requires Reachable(cfg, s) && !Settled(s)
    ensures s.inFlight ==> Enabled(s, ReconcileEnds)
    ensures !s.inFlight ==>
      var wait := TimePasses(Max(0, s.cooldownTimer.value - s.now));
      ValidRun(cfg, s, [wait, CooldownFires])
  {
    if !s.inFlight {
      var wait := TimePasses(Max(0, s.cooldownTimer.value - s.now));
      assert [wait, CooldownFires][1..] == [CooldownFires];
      assert ValidRun(cfg, Step(cfg, Step(cfg, s, wait), CooldownFires), []);
    }
  }

  lemma RunCons(cfg: Config, s: State, e: Event, rest: seq<Event>)
    ensures ValidRun(cfg, s, [e] + rest) <==> Enabled(s, e) && ValidRun(cfg, Step(cfg, s, e), rest)
    ensures Exec(cfg, s, [e] + rest) == Exec(cfg, Step(cfg, s, e), rest)
  {
    assert ([e] + rest)[1..] == rest;
  }

  /** Waiting out the cooldown begins a reconcile and leaves `rerun` as it was. */
  lemma CooldownBegins(cfg: Config, s: State, rest: seq<Event>) returns (wait: Event)
    requires Inv(cfg, s) && s.active && s.visible && !s.inFlight && s.scheduled && !Stale(cfg, s)
    ensures var t := Begin(s.(now := Max(s.now, s.cooldownTimer.value), cooldownTimer := None, scheduled := false));
      && Quiet(wait)
      && (ValidRun(cfg, s, [wait] + ([CooldownFires] + rest)) <==> ValidRun(cfg, t, rest))
      && Exec(cfg, s, [wait] + ([CooldownFires] + rest)) == Exec(cfg, t, rest)
  {
    wait := TimePasses(Max(0, s.cooldownTimer.value - s.now));
    RunCons(cfg, s, wait, [CooldownFires] + rest);
    RunCons(cfg, Step(cfg, s, wait), CooldownFires, rest);
  }

  /**
   * The bound of two is met by every cooldown in which someone called: the call
   * sets `rerun`, starting the awaited run does not clear it, and so its end
   * schedules a second one.
   */
  lemma CallInCooldownCostsTwo(cfg: Config, s: State) returns (events: seq<Event>)
    requires Reachable(cfg, s) && s.active && s.visible
    requires !s.inFlight && s.rerun && s.scheduled && !Stale(cfg, s)
    ensures ValidRun(cfg, s, events) && forall e <- events :: Quiet(e)
    ensures |Exec(cfg, s, events).begun| == |s.begun| + 2
  {
    ReachableInv(cfg, s);
    var t := Begin(s.(now := Max(s.now, s.cooldownTimer.value), cooldownTimer := None, scheduled := false));
    var u := Step(cfg, t, ReconcileEnds);
    var wait0 := CooldownBegins(cfg, s, []);
    RunCons(cfg, s, wait0, [CooldownFires]);
    StepKeepsInv(cfg, s, wait0);
    StepKeepsInv(cfg, Step(cfg, s, wait0), CooldownFires);
    StepKeepsInv(cfg, t, ReconcileEnds);
    var wait1 := CooldownBegins(cfg, u, []);
    var second := [wait1] + ([CooldownFires] + []);
    RunCons(cfg, t, ReconcileEnds, second);
    var wait := CooldownBegins(cfg, s, [ReconcileEnds] + second);
    events := [wait] + ([CooldownFires] + ([ReconcileEnds] + second));
  }
}
