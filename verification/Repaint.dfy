/** The repaint machine of wayland-host/src/compositor.c:30-53 and 241-283. */
module Repaint {
  import opened Common

  /** Four flags, and the totals of what happened so far. */
  datatype Flags = Flags(
    needed: bool, scheduled: bool, ready: bool, rendering: bool,
    requests: nat, started: nat, ticks: nat, armFailures: nat)

  const INITIAL := Flags(false, false, false, false, 0, 0, 0, 0)

  /** `armed`: whether timerfd_settime succeeds, should it be called. */
  datatype Step =
    | Request(armed: bool)
    | Tick
    | Begin
    | Failed(armed: bool)
    | Presented(armed: bool)

  function Schedule(f: Flags, armed: bool): Flags {
    if f.scheduled || f.ready || f.rendering then f
    else if armed then f.(scheduled := true)
    else f.(ready := true, armFailures := f.armFailures + 1)
  }

  function Apply(f: Flags, step: Step): Flags {
    match step
    case Request(armed) => Schedule(f.(needed := true, requests := f.requests + 1), armed)
    case Tick => f.(scheduled := false, ready := f.ready || (f.needed && !f.rendering), ticks := f.ticks + 1)
    case Begin =>
      if f.needed && f.ready && !f.rendering
      then f.(needed := false, ready := false, rendering := true, started := f.started + 1) else f
    case Failed(armed) => Schedule(f.(rendering := false, ready := false), armed)
    case Presented(armed) =>
      var g := f.(rendering := false, ready := false);
      if g.needed then Schedule(g, armed) else g
  }

  function Exec(f: Flags, steps: seq<Step>): Flags
    decreases steps
  {
    if steps == [] then f else Exec(Apply(f, steps[0]), steps[1..])
  }

  function Count(f: Flags): nat {
    (if f.scheduled then 1 else 0) + (if f.ready then 1 else 0) + (if f.rendering then 1 else 0)
  }

  /** A wanted frame is on its way, in one way only, and frames are paid for. */
  predicate OnItsWay(f: Flags) {
    && Count(f) <= 1
    && (f.needed ==> Count(f) == 1)
    && f.started + (if f.needed then 1 else 0) <= f.requests
    && f.started + (if f.ready then 1 else 0) <= f.ticks + f.armFailures
  }

  /** Holds in every run, whatever the order of the steps. */
  lemma {:induction false} RunKeeps(f: Flags, steps: seq<Step>)
    requires OnItsWay(f)
    ensures OnItsWay(Exec(f, steps))
    decreases steps
  {
    if steps != [] {
      RunKeeps(Apply(f, steps[0]), steps[1..]);
    }
  }

  lemma EveryRun(steps: seq<Step>)
    ensures OnItsWay(Exec(INITIAL, steps))
  {
    RunKeeps(INITIAL, steps);
  }

  /* ---------- no request is lost ---------- */

  /** The dispatch loop finishes a frame only while one is rendering. */
  predicate Legal(f: Flags, steps: seq<Step>)
    decreases steps
  {
    steps == [] ||
    (((steps[0].Failed? || steps[0].Presented?) ==> f.rendering) && Legal(Apply(f, steps[0]), steps[1..]))
  }

  /** The event that the current stage waits for. */
  predicate Advances(f: Flags, step: Step) {
    match step
    case Request(_) => false
    case Tick => f.scheduled
    case Begin => f.ready
    case Failed(_) => f.rendering
    case Presented(_) => f.rendering
  }

  function Advancing(f: Flags, steps: seq<Step>): nat
    decreases steps
  {
    if steps == [] then 0
    else (if Advances(f, steps[0]) then 1 else 0) + Advancing(Apply(f, steps[0]), steps[1..])
  }

  /** Events still due before a wanted frame starts: finish, tick, begin. */
  function Due(f: Flags): nat {
    if f.rendering then 3 else if f.scheduled then 2 else if f.ready then 1 else 0
  }

  lemma {:induction false} StartedGrows(f: Flags, steps: seq<Step>)
    ensures Exec(f, steps).started >= f.started
    decreases steps
  {
    if steps != [] {
      StartedGrows(Apply(f, steps[0]), steps[1..]);
    }
  }

  /**
    As long as the wanted frame has not started it stays wanted, and fewer
    awaited events than `Due` have happened; so at most two pass before the
    one that starts it, also for a request made while another frame renders.
   */
  lemma {:induction false} RequestReachesFrame(f: Flags, steps: seq<Step>)
    requires OnItsWay(f) && f.needed && Legal(f, steps)
    requires Exec(f, steps).started == f.started
    ensures Exec(f, steps).needed
    ensures Advancing(f, steps) + Due(Exec(f, steps)) <= Due(f)
    decreases steps
  {
    if steps != [] {
      var g := Apply(f, steps[0]);
      StartedGrows(g, steps[1..]);
      RequestReachesFrame(g, steps[1..]);
    }
  }

  /** The three awaited events, in order, do start it. */
  lemma ThreeEventsStartFrame(f: Flags, armed: bool)
    requires OnItsWay(f) && f.needed
    ensures var g := if f.rendering then Apply(f, Presented(armed)) else f;
      var h := if g.scheduled then Apply(g, Tick) else g;
      Apply(h, Begin).started == f.started + 1
  {
  }

  lemma {:induction false} ExecSplit(f: Flags, steps: seq<Step>, k: nat)
    requires k <= |steps|
    ensures Exec(f, steps) == Exec(Exec(f, steps[..k]), steps[k..])
    ensures Legal(f, steps) <==> Legal(f, steps[..k]) && Legal(Exec(f, steps[..k]), steps[k..])
    decreases steps
  {
    if k > 0 {
      ExecSplit(Apply(f, steps[0]), steps[1..], k - 1);
      assert steps[..k][1..] == steps[1..][..k - 1] && steps[1..][k - 1..] == steps[k..];
    } else {
      assert steps[k..] == steps;
    }
  }

  /**
    No request is lost: whatever the server was doing when it came, three
    awaited events later a frame has started that had not before.
   */
  lemma {:induction false} RequestStartsFrame(steps: seq<Step>, k: nat)
    requires k < |steps| && steps[k].Request? && Legal(INITIAL, steps)
    requires Advancing(Exec(INITIAL, steps[..k + 1]), steps[k + 1..]) >= 3
    ensures Exec(INITIAL, steps).started > Exec(INITIAL, steps[..k]).started
  {
    ExecSplit(INITIAL, steps, k + 1);
    ExecSplit(INITIAL, steps[..k + 1], k);
    assert steps[..k + 1][..k] == steps[..k] && steps[..k + 1][k..] == [steps[k]];
    var f := Exec(INITIAL, steps[..k]);
    OneStep(f, steps[k]);
    EveryRun(steps[..k + 1]);
    WantedStarts(Apply(f, steps[k]), steps[k + 1..]);
  }

  lemma {:induction false} OneStep(f: Flags, step: Step)
    ensures Exec(f, [step]) == Apply(f, step)
  {
    assert [step][1..] == [];
  }

  predicate RequestFree(steps: seq<Step>) {
    forall i :: 0 <= i < |steps| ==> !steps[i].Request?
  }

  /** Nothing starts a frame that nobody wants, however long one waits. */
  lemma {:induction false} UnwantedNeverStarts(f: Flags, steps: seq<Step>)
    requires !f.needed && RequestFree(steps)
    ensures Exec(f, steps).started == f.started && !Exec(f, steps).needed
    decreases steps
  {
    if steps != [] {
      UnwantedNeverStarts(Apply(f, steps[0]), steps[1..]);
    }
  }

  /** A wanted frame has started once as many awaited events have passed as were due. */
  lemma {:induction false} WantedStarts(f: Flags, steps: seq<Step>)
    requires OnItsWay(f) && f.needed && Legal(f, steps) && Advancing(f, steps) >= Due(f)
    ensures Exec(f, steps).started > f.started
  {
    StartedGrows(f, steps);
    RunKeeps(f, steps);
    if Exec(f, steps).started == f.started {
      RequestReachesFrame(f, steps);
    }
  }

  /**
    After a failed frame and without a new request: no continuation at all
    starts another frame unless one was already wanted when it failed, and then
    every continuation that brings the awaited events does.
   */
  lemma {:induction false} FailedFrameRetriedIff(f: Flags, armed: bool, steps: seq<Step>)
    requires OnItsWay(f) && f.rendering && RequestFree(steps) && Legal(Apply(f, Failed(armed)), steps)
    ensures !f.needed ==> Exec(Apply(f, Failed(armed)), steps).started == f.started
    ensures f.needed && Advancing(Apply(f, Failed(armed)), steps) >= Due(Apply(f, Failed(armed))) ==>
              Exec(Apply(f, Failed(armed)), steps).started > f.started
    ensures f.needed <==> exists more :: RequestFree(more) && Legal(Apply(f, Failed(armed)), more)
                                         && Exec(Apply(f, Failed(armed)), more).started > f.started
  {
    var g := Apply(f, Failed(armed));
    if f.needed {
      if Advancing(g, steps) >= Due(g) {
        WantedStarts(g, steps);
      }
      TickAndBegin(g);
      assert RequestFree([Tick, Begin]);
    } else {
      UnwantedNeverStarts(g, steps);
      forall more | RequestFree(more)
        ensures Exec(g, more).started == f.started
      {
        UnwantedNeverStarts(g, more);
      }
    }
  }

  lemma {:induction false} TickAndBegin(f: Flags)
    requires f.needed && !f.rendering
    ensures Legal(f, [Tick, Begin]) && Exec(f, [Tick, Begin]).started == f.started + 1
  {
    assert [Tick, Begin][1..] == [Begin];
    assert Exec(f, [Tick, Begin]) == Exec(Apply(f, Tick), [Begin]);
    assert Exec(Apply(f, Tick), [Begin]) == Apply(Apply(f, Tick), Begin);
  }

  /* ---------- no wake-up without a cause ---------- */

  lemma {:induction false} ExecLast(steps: seq<Step>)
    requires steps != []
    ensures var before := steps[..|steps| - 1];
      && Exec(INITIAL, steps) == Apply(Exec(INITIAL, before), steps[|steps| - 1])
      && (Legal(INITIAL, steps) ==> Legal(INITIAL, before))
      && (Legal(INITIAL, steps) && (steps[|steps| - 1].Failed? || steps[|steps| - 1].Presented?) ==>
            Exec(INITIAL, before).rendering)
  {
    ExecSplit(INITIAL, steps, |steps| - 1);
    assert steps[|steps| - 1..] == [steps[|steps| - 1]];
    OneStep(Exec(INITIAL, steps[..|steps| - 1]), steps[|steps| - 1]);
  }

  /** Arms the timer, if the machine lets it. */
  predicate Arms(step: Step) {
    (step.Request? || step.Failed? || step.Presented?) && step.armed
  }

  /** The last timer that was armed has not fired. */
  ghost predicate TimerPending(steps: seq<Step>) {
    exists k :: 0 <= k < |steps| && Arms(steps[k]) && forall j :: k < j < |steps| ==> !steps[j].Tick?
  }

  /** The machine never waits for a timer that nobody armed. */
  lemma {:induction false} ScheduledIsArmed(steps: seq<Step>)
    requires Exec(INITIAL, steps).scheduled
    ensures TimerPending(steps)
  {
    if steps != [] {
      var before, n := steps[..|steps| - 1], |steps| - 1;
      ExecLast(steps);
      if Exec(INITIAL, before).scheduled && !steps[n].Tick? {
        ScheduledIsArmed(before);
        var k :| 0 <= k < |before| && Arms(before[k]) && forall j :: k < j < |before| ==> !before[j].Tick?;
        assert Arms(steps[k]) && forall j :: k < j < |steps| ==> !steps[j].Tick?;
      } else {
        assert Arms(steps[n]);
      }
    }
  }

  /** What may follow a failed frame without making its leftover wake-up useful or using it up. */
  predicate LeavesWakeUp(armed: bool, step: Step) {
    step.Begin? || (step.Tick? && !armed)
  }

  /** A frame that nobody wants again failed at k, and its wake-up is still there. */
  ghost predicate FailedAt(steps: seq<Step>, k: nat, armed: bool)
    requires k < |steps|
  {
    && steps[k] == Failed(armed) && !Exec(INITIAL, steps[..k]).needed
    && forall j :: k < j < |steps| ==> LeavesWakeUp(armed, steps[j])
  }

  ghost predicate Leftover(steps: seq<Step>, armed: bool) {
    exists k :: 0 <= k < |steps| && FailedAt(steps, k, armed)
  }

  lemma {:induction false} LeftoverLast(steps: seq<Step>, armed: bool)
    requires steps != []
    ensures var before, last := steps[..|steps| - 1], steps[|steps| - 1];
      Leftover(steps, armed) <==>
        || (last == Failed(armed) && !Exec(INITIAL, before).needed)
        || (LeavesWakeUp(armed, last) && Leftover(before, armed))
  {
    var before, n := steps[..|steps| - 1], |steps| - 1;
    if Leftover(steps, armed) {
      var k :| 0 <= k < |steps| && FailedAt(steps, k, armed);
      if k < n {
        assert before[..k] == steps[..k];
        assert FailedAt(before, k, armed);
      }
    }
    if LeavesWakeUp(armed, steps[n]) && Leftover(before, armed) {
      var k :| 0 <= k < |before| && FailedAt(before, k, armed);
      assert before[..k] == steps[..k];
      assert FailedAt(steps, k, armed);
    }
    if steps[n] == Failed(armed) && !Exec(INITIAL, before).needed {
      assert FailedAt(steps, n, armed);
    }
  }

  /**
    While nothing is wanted the server is idle, except exactly after a failed
    frame: then a timer (or, without one, the ready flag) is left over.
   */
  lemma {:induction false} IdleUnlessFailed(steps: seq<Step>)
    requires Legal(INITIAL, steps) && !Exec(INITIAL, steps).needed
    ensures Exec(INITIAL, steps).scheduled <==> Leftover(steps, true)
    ensures Exec(INITIAL, steps).ready <==> Leftover(steps, false)
  {
    if steps != [] {
      var before := steps[..|steps| - 1];
      ExecLast(steps);
      EveryRun(before);
      LeftoverLast(steps, true);
      LeftoverLast(steps, false);
      if Exec(INITIAL, before).needed {
        NoneLeftover(before);
      } else {
        IdleUnlessFailed(before);
      }
    }
  }

  /** A request uses up what a failed frame left. */
  lemma {:induction false} NoneLeftover(steps: seq<Step>)
    requires Exec(INITIAL, steps).needed
    ensures !Leftover(steps, true) && !Leftover(steps, false)
  {
    if steps != [] {
      ExecLast(steps);
      LeftoverLast(steps, true);
      LeftoverLast(steps, false);
      if Exec(INITIAL, steps[..|steps| - 1]).needed {
        NoneLeftover(steps[..|steps| - 1]);
      }
    }
  }

  /* ---------- what is wanted and what is being drawn ---------- */

  ghost function Requests(): Moment<Step> {
    (before: seq<Step>, step: Step) => step.Request?
  }

  /** The step starts a frame. */
  ghost function Starts(): Moment<Step> {
    (before: seq<Step>, step: Step) => Exec(INITIAL, before + [step]).started > Exec(INITIAL, before).started
  }

  ghost function Finishes(): Moment<Step> {
    (before: seq<Step>, step: Step) => step.Failed? || step.Presented?
  }

  function Finished(steps: seq<Step>): nat {
    if steps == [] then 0
    else Finished(steps[..|steps| - 1]) + if steps[|steps| - 1].Failed? || steps[|steps| - 1].Presented? then 1 else 0
  }

  /**
    A frame is wanted from a request until a frame starts, and being drawn from
    its start until it is presented or fails; one frame at a time.
   */
  lemma {:induction false} WantedSince(steps: seq<Step>)
    requires Legal(INITIAL, steps)
    ensures var f := Exec(INITIAL, steps);
      && (f.needed <==> Since(steps, Requests(), Starts()))
      && (f.rendering <==> Since(steps, Starts(), Finishes()))
      && f.started == Finished(steps) + if f.rendering then 1 else 0
  {
    if steps != [] {
      var before, last := steps[..|steps| - 1], steps[|steps| - 1];
      ExecLast(steps);
      WantedSince(before);
      EveryRun(before);
      SinceLast(steps, Requests(), Starts());
      SinceLast(steps, Starts(), Finishes());
      assert before + [last] == steps;
      StepWants(Exec(INITIAL, before), last);
    }
  }

  lemma {:induction false} StepWants(f: Flags, step: Step)
    requires OnItsWay(f) && ((step.Failed? || step.Presented?) ==> f.rendering)
    ensures var g := Apply(f, step);
      && (g.needed <==> step.Request? || (f.needed && !(g.started > f.started)))
      && (g.rendering <==> g.started > f.started || (f.rendering && !(step.Failed? || step.Presented?)))
      && (g.started == f.started || (g.started == f.started + 1 && !f.rendering && step.Begin?))
  {
  }

  /* ---------- the server's flags ---------- */

  class Server {
    var needed: bool
    var scheduled: bool
    var ready: bool
    var rendering: bool
    ghost var requests: nat
    ghost var started: nat
    ghost var ticks: nat
    ghost var armFailures: nat

    ghost function Now(): Flags
      reads this
    {
      Flags(needed, scheduled, ready, rendering, requests, started, ticks, armFailures)
    }

    ghost predicate Valid()
      reads this
    {
      OnItsWay(Now())
    }

    constructor ()
      ensures Valid() && Now() == INITIAL
    {
      needed, scheduled, ready, rendering := false, false, false, false;
      requests, started, ticks, armFailures := 0, 0, 0, 0;
    }

    method ScheduleRepaint(armed: bool)
      modifies this`scheduled, this`ready, this`armFailures
      ensures Now() == Schedule(old(Now()), armed)
    {
      if scheduled || ready || rendering {
        return;
      }
      if armed {
        scheduled := true;
        return;
      }
      ready := true;
      armFailures := armFailures + 1;
    }

    method TimerFired()
      requires Valid()
      modifies this
      ensures Valid() && Now() == Apply(old(Now()), Tick)
    {
      ticks := ticks + 1;
      scheduled := false;
      if needed && !rendering {
        ready := true;
      }
    }

    method BeginRepaint() returns (begun: bool)
      requires Valid()
      modifies this
      ensures Valid() && Now() == Apply(old(Now()), Begin)
      ensures begun <==> Now().started == old(Now()).started + 1
    {
      if !needed || !ready || rendering {
        return false;
      }
      needed := false;
      ready := false;
      rendering := true;
      started := started + 1;
      return true;
    }

    method RequestRender(armed: bool)
      requires Valid()
      modifies this
      ensures Valid() && Now() == Apply(old(Now()), Request(armed))
    {
      requests := requests + 1;
      needed := true;
      ScheduleRepaint(armed);
    }

    method RepaintFailed(armed: bool)
      requires Valid()
      modifies this
      ensures Valid() && Now() == Apply(old(Now()), Failed(armed))
    {
      rendering := false;
      ready := false;
      ScheduleRepaint(armed);
    }

    method FramePresented(armed: bool)
      requires Valid()
      modifies this
      ensures Valid() && Now() == Apply(old(Now()), Presented(armed))
    {
      rendering := false;
      ready := false;
      if needed {
        ScheduleRepaint(armed);
      }
    }
  }
}
