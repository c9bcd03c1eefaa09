/** Every run of the compositor's dispatch thread over client buffers. */
module HostRuns {
  import opened Common
  import opened DeferredRelease
  import opened BufferLifetime
  import opened HostSteps

  /** Requests that name nothing alive change nothing; EGL and GPU results are inputs. */
  datatype Step =
    | CreateSurface(s: SurfaceId)
    | CreateBuffer(b: BufferId)
    | AttachTo(s: SurfaceId, target: Option<BufferId>)
    | CommitOn(s: SurfaceId)
    | SurfaceGone(s: SurfaceId, waitOk: bool)
    | BufferGone(b: BufferId, egl: bool, waitOk: bool)
    | Frame(drawn: set<SurfaceId>, waitOk: bool, outcome: Outcome)
    | RendererGone

  function Apply(h: Host, step: Step): Host {
    match step
    case CreateSurface(s) => NewSurface(h, s)
    case CreateBuffer(b) => NewBuffer(h, b)
    case AttachTo(s, target) => Attach(h, s, target)
    case CommitOn(s) => Commit(h, s)
    case SurfaceGone(s, waitOk) => DestroySurface(h, s, waitOk)
    case BufferGone(b, egl, waitOk) => DestroyBuffer(h, b, egl, waitOk)
    case Frame(drawn, waitOk, outcome) => Render(h, drawn, waitOk, outcome)
    case RendererGone => DestroyRenderer(h)
  }

  function Exec(steps: seq<Step>): Host {
    if steps == [] then INITIAL else Apply(Exec(steps[..|steps| - 1]), steps[|steps| - 1])
  }

  predicate WaitFails(h: Host, waitOk: bool) {
    !waitOk && h.gpu.reading != {}
  }

  /** GPU reads that the compositor stops tracking: a wait, a swap or a renderer lost them. */
  predicate Hazard(h: Host, step: Step) {
    match step
    case SurfaceGone(s, waitOk) => s in h.surfaces && h.surfaces[s].current.Some? && WaitFails(h, waitOk)
    case BufferGone(b, egl, waitOk) => egl && b in h.buffers && h.buffers[b].resource && WaitFails(h, waitOk)
    case Frame(_, waitOk, outcome) => WaitFails(h, waitOk) || (outcome.SwapFailed? && outcome.outstanding)
    case RendererGone => h.gpu.reading != {}
    case _ => false
  }

  predicate Clean(steps: seq<Step>) {
    steps == [] ||
    (Clean(steps[..|steps| - 1]) && !Hazard(Exec(steps[..|steps| - 1]), steps[|steps| - 1]))
  }

  lemma {:induction false} RequestKeeps(h: Host, step: Step, clean: bool)
    requires Invariant(h, clean) && (step.CreateSurface? || step.CreateBuffer? || step.AttachTo? || step.CommitOn?)
    ensures Invariant(Apply(h, step), clean)
  {
    match step
    case CreateSurface(s) => NewSurfaceKeeps(h, s, clean);
    case CreateBuffer(b) => NewBufferKeeps(h, b, clean);
    case AttachTo(s, target) => AttachKeeps(h, s, target, clean);
    case CommitOn(s) => CommitKeeps(h, s, clean);
  }

  lemma {:induction false} EndKeeps(h: Host, step: Step, clean: bool)
    requires Invariant(h, clean) && (clean ==> !Hazard(h, step)) && (step.SurfaceGone? || step.BufferGone?)
    ensures Invariant(Apply(h, step), clean)
  {
    match step
    case SurfaceGone(s, waitOk) => SurfaceGoneKeeps(h, s, waitOk, clean);
    case BufferGone(b, egl, waitOk) => BufferGoneKeeps(h, b, egl, waitOk, clean);
  }

  lemma {:induction false} SurfaceGoneKeeps(h: Host, s: SurfaceId, waitOk: bool, clean: bool)
    requires Invariant(h, clean) && (clean ==> !Hazard(h, SurfaceGone(s, waitOk)))
    ensures Invariant(Apply(h, SurfaceGone(s, waitOk)), clean)
  {
    DestroySurfaceKeeps(h, s, waitOk, clean);
  }

  lemma {:induction false} BufferGoneKeeps(h: Host, b: BufferId, egl: bool, waitOk: bool, clean: bool)
    requires Invariant(h, clean) && (clean ==> !Hazard(h, BufferGone(b, egl, waitOk)))
    ensures Invariant(Apply(h, BufferGone(b, egl, waitOk)), clean)
  {
    DestroyBufferKeeps(h, b, egl, waitOk, clean);
  }

  lemma {:induction false} FrameKeeps(h: Host, h': Host, drawn: set<SurfaceId>, waitOk: bool, outcome: Outcome, clean: bool)
    requires Invariant(h, clean) && h' == Render(h, drawn, waitOk, outcome)
    requires clean ==> (waitOk || h.gpu.reading == {}) && !(outcome.SwapFailed? && outcome.outstanding)
    ensures Invariant(h', clean)
  {
    RenderKeeps(h, drawn, waitOk, outcome, clean);
  }

  lemma {:induction false} RendererKeeps(h: Host, clean: bool)
    requires Invariant(h, clean) && (clean ==> !Hazard(h, RendererGone))
    ensures Invariant(Apply(h, RendererGone), clean)
  {
    DestroyRendererKeeps(h, clean);
  }

  lemma {:induction false} ApplyKeeps(h: Host, step: Step, clean: bool)
    requires Invariant(h, clean) && (clean ==> !Hazard(h, step))
    ensures Invariant(Apply(h, step), clean)
  {
    if step.SurfaceGone? || step.BufferGone? {
      EndKeeps(h, step, clean);
    } else if step.Frame? {
      FrameKeeps(h, Apply(h, step), step.drawn, step.waitOk, step.outcome, clean);
    } else if step.RendererGone? {
      RendererKeeps(h, clean);
    } else {
      RequestKeeps(h, step, clean);
    }
  }

  lemma Weaken(h: Host, clean: bool)
    requires Invariant(h, clean)
    ensures Invariant(h, false)
  {
    assert Unfold(0);
  }

  lemma {:induction false} RunKeeps(steps: seq<Step>)
    ensures Invariant(Exec(steps), Clean(steps))
  {
    if steps != [] {
      var before := steps[..|steps| - 1];
      RunKeeps(before);
      if !Clean(steps) {
        Weaken(Exec(before), Clean(before));
      }
      ApplyKeeps(Exec(before), steps[|steps| - 1], Clean(steps));
    }
  }

  ghost function Uses(h: Host, b: BufferId): nat {
    |Users(h.surfaces, b)| + multiset(h.enqueued)[b] + h.lost[b]
  }

  ghost function Holders(h: Host, b: BufferId): nat {
    (if b in h.buffers && h.buffers[b].resource then 1 else 0) + |Waiters(h.surfaces, b)| + Uses(h, b)
  }

  /**
    In every reachable state both counters are the number of holders, and
    storage exists exactly while somebody holds the buffer.
   */
  lemma CountsAreHolders(steps: seq<Step>, b: BufferId)
    ensures var h := Exec(steps);
      && (b in h.buffers <==> Holders(h, b) > 0)
      && (b in h.buffers ==> h.buffers[b].references == Holders(h, b) && h.buffers[b].busyUsers == Uses(h, b))
  {
    var h := Exec(steps);
    RunKeeps(steps);
    assert Unfold(0);
    if b in h.buffers {
      assert BufferCounted(h, Outstanding(h), multiset{}, b);
    } else {
      assert Users(h.surfaces, b) == {} && Waiters(h.surfaces, b) == {};
      assert b !in Outstanding(h);
    }
  }

  /** What a surface shows or has attached is never freed storage. */
  lemma NothingDangles(steps: seq<Step>, s: SurfaceId)
    ensures var h := Exec(steps); s in h.surfaces ==>
      && (h.surfaces[s].current.Some? ==> h.surfaces[s].current.value in h.buffers)
      && (h.surfaces[s].pending.Some? ==> h.surfaces[s].pending.value in h.buffers)
  {
    RunKeeps(steps);
    assert Unfold(0);
  }

  /** A release only ever goes out for a buffer that no surface shows. */
  lemma ReleasesAreLastUse(steps: seq<Step>, e: Event)
    requires e in Exec(steps).events && e.Released?
    ensures e.users == 0
  {
    RunKeeps(steps);
    assert Unfold(0);
  }

  /** Without a hazard nothing is released or freed under the GPU. */
  lemma NoReleaseUnderGpu(steps: seq<Step>, e: Event)
    requires Clean(steps) && e in Exec(steps).events
    ensures !e.read
  {
    RunKeeps(steps);
    assert Unfold(0);
  }

  /* ---------- repeated enqueues between two flushes ---------- */

  /** Every flush of the run finds at most its oldest entry repeated. */
  predicate FlushesDistinct(steps: seq<Step>) {
    steps == [] ||
    (&& FlushesDistinct(steps[..|steps| - 1])
     && (steps[|steps| - 1].Frame? ==> DistinctFrom(Exec(steps[..|steps| - 1]).enqueued, 1)))
  }

  lemma {:induction false} LostBySetPending(h: Host, s: SurfaceId, target: Option<BufferId>)
    requires s in h.surfaces && (target.Some? ==> target.value in h.buffers)
    ensures SetPending(h, s, target).lost == h.lost
  {
  }

  lemma {:induction false} LostByAttach(h: Host, s: SurfaceId, target: Option<BufferId>)
    ensures Apply(h, AttachTo(s, target)).lost == h.lost
  {
    if s in h.surfaces && (target.Some? ==> target.value in h.buffers) {
      LostBySetPending(h, s, target);
    }
  }

  lemma {:induction false} LostByCommit(h: Host, s: SurfaceId)
    ensures Apply(h, CommitOn(s)).lost == h.lost
  {
  }

  lemma {:induction false} LostByCurrent(h: Host, s: SurfaceId, waitOk: bool)
    requires s in h.surfaces
    ensures DestroyCurrent(h, s, waitOk).lost == h.lost && s in DestroyCurrent(h, s, waitOk).surfaces
  {
  }

  lemma {:induction false} LostByPending(h: Host, s: SurfaceId)
    requires s in h.surfaces
    ensures DestroyPending(h, s).lost == h.lost
  {
  }

  lemma {:induction false} LostBySurface(h: Host, s: SurfaceId, waitOk: bool)
    ensures Apply(h, SurfaceGone(s, waitOk)).lost == h.lost
  {
    if s in h.surfaces {
      LostByCurrent(h, s, waitOk);
      LostByPending(DestroyCurrent(h, s, waitOk), s);
    }
  }

  lemma {:induction false} LostByBuffer(h: Host, b: BufferId, egl: bool, waitOk: bool)
    ensures Apply(h, BufferGone(b, egl, waitOk)).lost == h.lost
  {
  }

  lemma {:induction false} LostByFrame(h: Host, drawn: set<SurfaceId>, waitOk: bool, outcome: Outcome)
    ensures Apply(h, Frame(drawn, waitOk, outcome)).lost == h.lost + Missed(h.enqueued)
  {
    var h1 := WaitIdle(h, waitOk);
    LostByFlush(h1);
    LostByDraw(Flush(h1), drawn, outcome);
  }

  lemma {:induction false} LostByFlush(h: Host)
    ensures Flush(h).lost == h.lost + Missed(h.enqueued)
  {
    FlushEntriesFrame(h.(enqueued := [], lost := h.lost + Missed(h.enqueued)), Visited(h.enqueued));
  }

  lemma {:induction false} LostByDraw(h: Host, drawn: set<SurfaceId>, outcome: Outcome)
    ensures Draw(h, drawn, outcome).lost == h.lost
  {
  }

  lemma {:induction false} LostByOther(h: Host, step: Step)
    requires step.CreateSurface? || step.CreateBuffer? || step.RendererGone?
    ensures Apply(h, step).lost == h.lost
  {
  }

  lemma {:induction false} LostStep(h: Host, step: Step)
    ensures Apply(h, step).lost == if step.Frame? then h.lost + Missed(h.enqueued) else h.lost
  {
    match step
    case AttachTo(s, target) => LostByAttach(h, s, target);
    case CommitOn(s) => LostByCommit(h, s);
    case SurfaceGone(s, waitOk) => LostBySurface(h, s, waitOk);
    case BufferGone(b, egl, waitOk) => LostByBuffer(h, b, egl, waitOk);
    case Frame(drawn, waitOk, outcome) => LostByFrame(h, drawn, waitOk, outcome);
    case _ => LostByOther(h, step);
  }

  lemma MissedNothingIff(enqueued: seq<BufferId>)
    ensures Missed(enqueued) == multiset{} <==> DistinctFrom(enqueued, 1)
  {
    NothingLostIff(enqueued);
    VisitedAtMostEnqueued(enqueued);
    assert multiset(enqueued) == multiset(Visited(enqueued)) + Missed(enqueued);
  }

  /** No deferred reference leaks exactly in the runs whose flushes are distinct. */
  lemma {:induction false} NothingLostInRunIff(steps: seq<Step>)
    ensures Exec(steps).lost == multiset{} <==> FlushesDistinct(steps)
  {
    if steps != [] {
      var before := steps[..|steps| - 1];
      NothingLostInRunIff(before);
      LostStep(Exec(before), steps[|steps| - 1]);
      MissedNothingIff(Exec(before).enqueued);
      var lost, missed := Exec(before).lost, Missed(Exec(before).enqueued);
      assert lost + missed == multiset{} ==> |lost| + |missed| == 0;
    }
  }

  lemma LostIsHeld(steps: seq<Step>, b: BufferId)
    ensures var h := Exec(steps); b in h.lost ==> b in h.buffers && h.buffers[b].busyUsers > 0
  {
    CountsAreHolders(steps, b);
  }

  lemma {:induction false} LostGrows(h: Host, step: Step, b: BufferId)
    requires b in h.lost
    ensures b in Apply(h, step).lost
  {
    LostStep(h, step);
  }

  lemma {:induction false} LostStays(run: seq<Step>, k: nat, b: BufferId)
    requires k <= |run| && b in Exec(run[..k]).lost
    ensures b in Exec(run).lost
    decreases |run|
  {
    if k == |run| {
      assert run[..k] == run;
    } else {
      var front := run[..|run| - 1];
      assert front[..k] == run[..k];
      LostStays(front, k, b);
      LostGrows(Exec(front), run[|run| - 1], b);
    }
  }

  /** A reference that a flush stepped over keeps its buffer allocated and busy for good. */
  lemma {:induction false} LostIsNeverReturned(steps: seq<Step>, more: seq<Step>, b: BufferId)
    requires b in Exec(steps).lost
    ensures var h := Exec(steps + more);
      b in h.lost && b in h.buffers && h.buffers[b].busyUsers > 0
  {
    assert (steps + more)[..|steps|] == steps;
    LostStays(steps + more, |steps|, b);
    LostIsHeld(steps + more, b);
  }

  lemma ExecAppend(steps: seq<Step>, step: Step)
    ensures Exec(steps + [step]) == Apply(Exec(steps), step)
  {
    assert (steps + [step])[..|steps + [step]| - 1] == steps;
  }

  /* ---------- a run that loses a reference ---------- */

  /** Surface 0 shows `a`, buffers 0 and 1 are alive, and `q` waits for the next frame. */
  ghost predicate Alternating(h: Host, a: BufferId, q: seq<BufferId>) {
    && h.surfaces == map[0 := Surface(None, Some(a), false)] && h.enqueued == q && h.lost == multiset{}
    && 0 in h.buffers && h.buffers[0].resource && 1 in h.buffers && h.buffers[1].resource
  }

  function Show(b: BufferId): seq<Step> {
    [AttachTo(0, Some(b))] + [CommitOn(0)]
  }

  lemma {:induction false} FlipState(h: Host, a: BufferId, b: BufferId, q: seq<BufferId>)
    requires Alternating(h, a, q) && a != b && a <= 1 && b <= 1
    ensures Alternating(Commit(Attach(h, 0, Some(b)), 0), b, q + [a])
  {
    var h1 := Attach(h, 0, Some(b));
    assert h1.surfaces == map[0 := Surface(Some(b), Some(a), false)] && h1.enqueued == q && h1.lost == multiset{};
  }

  lemma {:induction false} Flip(steps: seq<Step>, a: BufferId, b: BufferId, q: seq<BufferId>)
    requires Alternating(Exec(steps), a, q) && a != b && a <= 1 && b <= 1
    ensures Alternating(Exec(steps + Show(b)), b, q + [a])
  {
    ExecAppend(steps, AttachTo(0, Some(b)));
    ExecAppend(steps + [AttachTo(0, Some(b))], CommitOn(0));
    assert steps + [AttachTo(0, Some(b))] + [CommitOn(0)] == steps + Show(b);
    FlipState(Exec(steps), a, b, q);
  }

  function TwoBuffers(): seq<Step> {
    [Step.CreateSurface(0)] + [Step.CreateBuffer(0)] + [Step.CreateBuffer(1)]
  }

  lemma {:induction false} FirstShown()
    ensures Alternating(Exec(TwoBuffers() + Show(0)), 0, [])
  {
    Created([]);
    assert [] + [Step.CreateSurface(0)] == [Step.CreateSurface(0)];
    MadeTwo();
    ShowFirst(TwoBuffers(), Exec(TwoBuffers()));
  }

  lemma {:induction false} Created(steps: seq<Step>)
    ensures Exec(steps + [Step.CreateSurface(0)] + [Step.CreateBuffer(0)] + [Step.CreateBuffer(1)])
         == NewBuffer(NewBuffer(NewSurface(Exec(steps), 0), 0), 1)
  {
    ExecAppend(steps, Step.CreateSurface(0));
    ExecAppend(steps + [Step.CreateSurface(0)], Step.CreateBuffer(0));
    ExecAppend(steps + [Step.CreateSurface(0)] + [Step.CreateBuffer(0)], Step.CreateBuffer(1));
  }

  lemma {:induction false} MadeTwo()
    ensures
      var h := NewBuffer(NewBuffer(NewSurface(INITIAL, 0), 0), 1);
      && h.surfaces == map[0 := Surface(None, None, false)] && h.enqueued == [] && h.lost == multiset{}
      && h.buffers == map[0 := Buffer(1, 0, true), 1 := Buffer(1, 0, true)]
  {
  }

  lemma {:induction false} ShowFirst(steps: seq<Step>, h: Host)
    requires h == Exec(steps) && h.surfaces == map[0 := Surface(None, None, false)] && h.enqueued == [] && h.lost == multiset{}
    requires h.buffers == map[0 := Buffer(1, 0, true), 1 := Buffer(1, 0, true)]
    ensures Alternating(Exec(steps + Show(0)), 0, [])
  {
    ExecAppend(steps, AttachTo(0, Some(0)));
    ExecAppend(steps + [AttachTo(0, Some(0))], CommitOn(0));
    assert steps + [AttachTo(0, Some(0))] + [CommitOn(0)] == steps + Show(0);
    var h1 := Attach(h, 0, Some(0));
    assert h1.surfaces == map[0 := Surface(Some(0), None, false)] && h1.enqueued == [] && h1.lost == multiset{};
  }

  /** One surface that alternates two buffers four times between two frames. */
  function LeakingRun(): seq<Step> {
    TwoBuffers() + Show(0) + Show(1) + Show(0) + Show(1) + Show(0) + [Frame({0}, true, Swapped(true))]
  }

  const FLIPS: seq<BufferId> := [0, 1, 0, 1]

  lemma {:induction false} SkipsOldest()
    ensures Visited(FLIPS) == [1, 0, 1]
  {
    var es := FLIPS;
    assert Latest(es, 3) && Latest(es, 2);
    assert es[3] == es[1] && !Latest(es, 1);
    assert Walk(es, 2) == [1] && Walk(es, 3) == [0, 1] && Walk(es, 4) == [1, 0, 1];
  }

  /** It happens: buffer 0 keeps a use that no flush will ever end. */
  lemma {:induction false} LeakingRunLoses()
    ensures Exec(LeakingRun()).lost == multiset{0}
  {
    FirstShown();
    FourFlips(TwoBuffers() + Show(0));
    MissedOne();
    LosesAtFrame(TwoBuffers() + Show(0) + Show(1) + Show(0) + Show(1) + Show(0));
  }

  lemma {:induction false} FourFlips(steps: seq<Step>)
    requires Alternating(Exec(steps), 0, [])
    ensures Alternating(Exec(steps + Show(1) + Show(0) + Show(1) + Show(0)), 0, FLIPS)
  {
    Flip(steps, 0, 1, []);
    Flip(steps + Show(1), 1, 0, [] + [0]);
    Flip(steps + Show(1) + Show(0), 0, 1, [] + [0] + [1]);
    Flip(steps + Show(1) + Show(0) + Show(1), 1, 0, [] + [0] + [1] + [0]);
    assert [] + [0] + [1] + [0] + [1] == [0, 1, 0, 1];
  }

  lemma {:induction false} MissedOne()
    ensures Missed(FLIPS) == multiset{0}
  {
    SkipsOldest();
    assert multiset(FLIPS) == multiset{0, 0, 1, 1};
  }

  lemma {:induction false} LosesAtFrame(steps: seq<Step>)
    requires Missed(Exec(steps).enqueued) == multiset{0} && Exec(steps).lost == multiset{}
    ensures Exec(steps + [Frame({0}, true, Swapped(true))]).lost == multiset{0}
  {
    ExecAppend(steps, Frame({0}, true, Swapped(true)));
    LosesFrom(Exec(steps), Frame({0}, true, Swapped(true)));
  }

  lemma {:induction false} LosesFrom(h: Host, step: Step)
    requires Missed(h.enqueued) == multiset{0} && h.lost == multiset{} && step.Frame?
    ensures Apply(h, step).lost == multiset{0}
  {
    LostStep(h, step);
  }
}
