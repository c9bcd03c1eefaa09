/**
  What every surface shows, what waits for release and what the GPU reads after
  a run, read off the requests and frames of the run.
 */
module ShownContent {
  import opened Common
  import opened BufferLifetime
  import opened HostSteps
  import opened HostRuns

  /** An attach that names nothing, or a wl_buffer that is alive. */
  predicate Attaches(h: Host, step: Step, s: SurfaceId, target: Option<BufferId>) {
    && step == AttachTo(s, target) && s in h.surfaces
    && (target.Some? ==> target.value in h.buffers && h.buffers[target.value].resource)
  }

  /** Something was attached since the last commit. */
  predicate HasNews(x: Surface) {
    x.pending.Some? || x.pendingDetach
  }

  /** A pending buffer and a pending detach exclude each other. */
  predicate OneNews(h: Host, s: SurfaceId) {
    s in h.surfaces ==> !(h.surfaces[s].pending.Some? && h.surfaces[s].pendingDetach)
  }

  /** One surface after a step. */
  function SurfaceAfter(h: Host, step: Step, s: SurfaceId): Option<Surface> {
    if step.SurfaceGone? && step.s == s then None
    else if s !in h.surfaces then (if step == CreateSurface(s) then Some(Surface(None, None, false)) else None)
    else
      var x := h.surfaces[s];
      if step.AttachTo? && Attaches(h, step, s, step.target) then Some(Surface(step.target, x.current, step.target.None?))
      else if step == CommitOn(s) && HasNews(x) then Some(Surface(None, x.pending, false))
      else Some(x)
  }

  function At<K, V>(m: map<K, V>, k: K): Option<V> {
    if k in m then Some(m[k]) else None
  }

  /** What a commit takes off the screen: deferred until the next frame. */
  function TakenOff(h: Host, step: Step): seq<BufferId> {
    if step.CommitOn? && step.s in h.surfaces
       && HasNews(h.surfaces[step.s]) && h.surfaces[step.s].current.Some? && h.surfaces[step.s].current != h.surfaces[step.s].pending
    then [h.surfaces[step.s].current.value] else []
  }

  ghost predicate SurfaceLaws(h: Host, step: Step, s: SurfaceId) {
    && At(Apply(h, step).surfaces, s) == SurfaceAfter(h, step, s)
    && Apply(h, step).enqueued == if step.Frame? then [] else h.enqueued + TakenOff(h, step)
  }

  lemma {:induction false} SetPendingSurfaces(h: Host, t: SurfaceId, target: Option<BufferId>)
    requires t in h.surfaces && (target.Some? ==> target.value in h.buffers)
    ensures SetPending(h, t, target).surfaces == h.surfaces[t := h.surfaces[t].(pending := target)]
    ensures SetPending(h, t, target).enqueued == h.enqueued
  {
  }

  lemma {:induction false} AttachSurfaces(h: Host, t: SurfaceId, target: Option<BufferId>, s: SurfaceId)
    requires OneNews(h, t)
    ensures SurfaceLaws(h, AttachTo(t, target), s)
  {
    if Attaches(h, AttachTo(t, target), t, target) {
      SetPendingSurfaces(h, t, target);
    }
  }

  lemma {:induction false} CommitSurfaces(h: Host, t: SurfaceId, s: SurfaceId)
    ensures SurfaceLaws(h, CommitOn(t), s)
  {
  }

  lemma {:induction false} GoneSurfaces(h: Host, t: SurfaceId, waitOk: bool, s: SurfaceId)
    ensures SurfaceLaws(h, SurfaceGone(t, waitOk), s)
  {
    if t in h.surfaces {
      CurrentGone(h, t, waitOk);
      PendingGone(DestroyCurrent(h, t, waitOk), t);
    }
  }

  lemma {:induction false} CurrentGone(h: Host, t: SurfaceId, waitOk: bool)
    requires t in h.surfaces
    ensures DestroyCurrent(h, t, waitOk).surfaces == h.surfaces[t := h.surfaces[t].(current := None)]
    ensures DestroyCurrent(h, t, waitOk).enqueued == h.enqueued
  {
  }

  lemma {:induction false} PendingGone(h: Host, t: SurfaceId)
    requires t in h.surfaces
    ensures DestroyPending(h, t).surfaces == h.surfaces[t := h.surfaces[t].(pending := None)]
    ensures DestroyPending(h, t).enqueued == h.enqueued
  {
  }

  lemma {:induction false} FlushSurfaces(h: Host)
    ensures Flush(h).surfaces == h.surfaces && Flush(h).enqueued == [] && Flush(h).gpu == h.gpu
  {
    FlushEntriesFrame(h.(enqueued := [], lost := h.lost + Missed(h.enqueued)), DeferredRelease.Visited(h.enqueued));
  }

  lemma {:induction false} FrameSurfaces(h: Host, drawn: set<SurfaceId>, waitOk: bool, outcome: Outcome)
    ensures Render(h, drawn, waitOk, outcome).surfaces == h.surfaces && Render(h, drawn, waitOk, outcome).enqueued == []
  {
    FlushSurfaces(WaitIdle(h, waitOk));
  }

  lemma {:induction false} BufferGoneSurfaces(h: Host, b: BufferId, egl: bool, waitOk: bool)
    ensures DestroyBuffer(h, b, egl, waitOk).surfaces == h.surfaces && DestroyBuffer(h, b, egl, waitOk).enqueued == h.enqueued
  {
  }

  lemma {:induction false} FrameLaws(h: Host, drawn: set<SurfaceId>, waitOk: bool, outcome: Outcome, s: SurfaceId)
    ensures SurfaceLaws(h, Frame(drawn, waitOk, outcome), s)
  {
    FrameSurfaces(h, drawn, waitOk, outcome);
    ApplyFrame(h, drawn, waitOk, outcome);
  }

  lemma {:induction false} ApplyFrame(h: Host, drawn: set<SurfaceId>, waitOk: bool, outcome: Outcome)
    ensures Apply(h, Frame(drawn, waitOk, outcome)) == Render(h, drawn, waitOk, outcome)
  {
  }

  lemma {:induction false} BufferGoneLaws(h: Host, b: BufferId, egl: bool, waitOk: bool, s: SurfaceId)
    ensures SurfaceLaws(h, BufferGone(b, egl, waitOk), s)
  {
    BufferGoneSurfaces(h, b, egl, waitOk);
    assert TakenOff(h, BufferGone(b, egl, waitOk)) == [];
  }

  lemma {:induction false} OtherSurfaces(h: Host, step: Step, s: SurfaceId)
    requires step.CreateSurface? || step.CreateBuffer? || step.RendererGone?
    ensures SurfaceLaws(h, step, s)
  {
  }

  lemma {:induction false} StepSurfaces(h: Host, step: Step, s: SurfaceId)
    requires forall t :: OneNews(h, t)
    ensures SurfaceLaws(h, step, s)
  {
    match step
    case AttachTo(t, target) => AttachSurfaces(h, t, target, s);
    case CommitOn(t) => CommitSurfaces(h, t, s);
    case SurfaceGone(t, waitOk) => GoneSurfaces(h, t, waitOk, s);
    case BufferGone(b, egl, waitOk) => BufferGoneLaws(h, b, egl, waitOk, s);
    case Frame(drawn, waitOk, outcome) => FrameLaws(h, drawn, waitOk, outcome, s);
    case _ => OtherSurfaces(h, step, s);
  }

  lemma {:induction false} RunOneNews(steps: seq<Step>, s: SurfaceId)
    ensures OneNews(Exec(steps), s)
  {
    if steps != [] {
      var before := steps[..|steps| - 1];
      forall t
        ensures OneNews(Exec(before), t)
      {
        RunOneNews(before, t);
      }
      StepOneNews(Exec(before), steps[|steps| - 1], s);
    }
  }

  lemma {:induction false} StepOneNews(h: Host, step: Step, s: SurfaceId)
    requires forall t :: OneNews(h, t)
    ensures OneNews(Apply(h, step), s)
  {
    assert OneNews(h, s);
    StepSurfaces(h, step, s);
  }

  lemma {:induction false} RunNews(steps: seq<Step>)
    ensures forall t :: OneNews(Exec(steps), t)
  {
    forall t
      ensures OneNews(Exec(steps), t)
    {
      RunOneNews(steps, t);
    }
  }

  /** How one more step changes one surface and the list of deferred releases, in every run. */
  lemma {:induction false} RunSurfaces(steps: seq<Step>, step: Step, s: SurfaceId)
    ensures At(Exec(steps + [step]).surfaces, s) == SurfaceAfter(Exec(steps), step, s)
    ensures Exec(steps + [step]).enqueued == if step.Frame? then [] else Exec(steps).enqueued + TakenOff(Exec(steps), step)
  {
    ExecAppend(steps, step);
    RunNews(steps);
    StepSurfaces(Exec(steps), step, s);
  }

  /**
    Attach and commit: the surface shows exactly what was attached, nothing if
    that was nothing; the other surfaces stay; what it showed before waits for
    the next frame, unless it is shown again.
   */
  lemma {:induction false} AttachCommitShows(steps: seq<Step>, s: SurfaceId, target: Option<BufferId>)
    requires Attaches(Exec(steps), AttachTo(s, target), s, target)
    ensures var h, h' := Exec(steps), Exec(steps + [AttachTo(s, target)] + [CommitOn(s)]);
      && h'.surfaces == h.surfaces[s := Surface(None, target, false)]
      && var c := h.surfaces[s].current;
         h'.enqueued == if c.Some? && c != target then h.enqueued + [c.value] else h.enqueued
  {
    var h, h' := Exec(steps), Exec(steps + [AttachTo(s, target)] + [CommitOn(s)]);
    RunSurfaces(steps, AttachTo(s, target), s);
    forall t
      ensures At(h'.surfaces, t) == At(h.surfaces[s := Surface(None, target, false)], t)
    {
      RunSurfaces(steps, AttachTo(s, target), t);
      RunSurfaces(steps + [AttachTo(s, target)], CommitOn(s), t);
    }
    SameMaps(h'.surfaces, h.surfaces[s := Surface(None, target, false)]);
    RunSurfaces(steps + [AttachTo(s, target)], CommitOn(s), s);
  }

  lemma {:induction false} SameMaps<K, V>(m: map<K, V>, n: map<K, V>)
    requires forall k :: At(m, k) == At(n, k)
    ensures m == n
  {
    forall k
      ensures k in m <==> k in n
      ensures k in m ==> m[k] == n[k]
    {
      assert At(m, k) == At(n, k);
    }
  }

  /** A commit without a new attach is a commit of nothing. */
  lemma {:induction false} SecondCommitIdle(steps: seq<Step>, s: SurfaceId)
    ensures Exec(steps + [CommitOn(s)] + [CommitOn(s)]) == Exec(steps + [CommitOn(s)])
  {
    ExecAppend(steps + [CommitOn(s)], CommitOn(s));
    NewsCommitted(steps, s);
    CommitOfNothing(Exec(steps + [CommitOn(s)]), s);
  }

  lemma {:induction false} NewsCommitted(steps: seq<Step>, s: SurfaceId)
    ensures var h := Exec(steps + [CommitOn(s)]); s in h.surfaces ==> !HasNews(h.surfaces[s])
  {
    RunSurfaces(steps, CommitOn(s), s);
  }

  lemma {:induction false} CommitOfNothing(h: Host, s: SurfaceId)
    requires s in h.surfaces ==> !HasNews(h.surfaces[s])
    ensures Apply(h, CommitOn(s)) == h
  {
  }

  /* ---------- since when ---------- */

  ghost function Made(s: SurfaceId): Moment<Step> {
    (before: seq<Step>, step: Step) => step == CreateSurface(s)
  }

  ghost function Gone(s: SurfaceId): Moment<Step> {
    (before: seq<Step>, step: Step) => step.SurfaceGone? && step.s == s
  }

  ghost function Shows(s: SurfaceId, b: BufferId): Moment<Step> {
    (before: seq<Step>, step: Step) => step == CommitOn(s) && Pending(Exec(before), s, b)
  }

  /** A commit of something else, or of nothing. */
  ghost function ShowsOther(s: SurfaceId, b: BufferId): Moment<Step> {
    (before: seq<Step>, step: Step) =>
      || (step.SurfaceGone? && step.s == s)
      || (step == CommitOn(s) && s in Exec(before).surfaces && HasNews(Exec(before).surfaces[s]) && !Pending(Exec(before), s, b))
  }

  ghost function AttachedTo(s: SurfaceId, target: Option<BufferId>): Moment<Step> {
    (before: seq<Step>, step: Step) => Attaches(Exec(before), step, s, target)
  }

  ghost function Replaced(s: SurfaceId, target: Option<BufferId>): Moment<Step> {
    (before: seq<Step>, step: Step) =>
      || step == CommitOn(s) || (step.SurfaceGone? && step.s == s)
      || (step.AttachTo? && step.target != target && Attaches(Exec(before), step, s, step.target))
  }

  predicate Pending(h: Host, s: SurfaceId, b: BufferId) {
    s in h.surfaces && h.surfaces[s].pending == Some(b)
  }

  predicate Current(h: Host, s: SurfaceId, b: BufferId) {
    s in h.surfaces && h.surfaces[s].current == Some(b)
  }

  predicate Detaching(h: Host, s: SurfaceId) {
    s in h.surfaces && h.surfaces[s].pendingDetach
  }

  lemma {:induction false} LastSurface(steps: seq<Step>, s: SurfaceId)
    requires steps != []
    ensures SurfaceLaws(Exec(steps[..|steps| - 1]), steps[|steps| - 1], s)
  {
    RunNews(steps[..|steps| - 1]);
    StepSurfaces(Exec(steps[..|steps| - 1]), steps[|steps| - 1], s);
  }

  lemma {:induction false} SurfaceSince(steps: seq<Step>, s: SurfaceId)
    ensures s in Exec(steps).surfaces <==> Since(steps, Made(s), Gone(s))
  {
    if steps != [] {
      SurfaceSince(steps[..|steps| - 1], s);
      SinceLast(steps, Made(s), Gone(s));
      LastSurface(steps, s);
    }
  }

  /** A buffer is attached from the attach that named it to the commit or the next attach. */
  lemma {:induction false} AttachedSince(steps: seq<Step>, s: SurfaceId, b: BufferId)
    ensures Pending(Exec(steps), s, b) <==> Since(steps, AttachedTo(s, Some(b)), Replaced(s, Some(b)))
  {
    if steps != [] {
      AttachedSince(steps[..|steps| - 1], s, b);
      SinceLast(steps, AttachedTo(s, Some(b)), Replaced(s, Some(b)));
      LastSurface(steps, s);
    }
  }

  lemma {:induction false} DetachingSince(steps: seq<Step>, s: SurfaceId)
    ensures Detaching(Exec(steps), s) <==> Since(steps, AttachedTo(s, None), Replaced(s, None))
  {
    if steps != [] {
      DetachingSince(steps[..|steps| - 1], s);
      SinceLast(steps, AttachedTo(s, None), Replaced(s, None));
      LastSurface(steps, s);
    }
  }

  /** A buffer is shown from the commit that found it attached to the commit of something else. */
  lemma {:induction false} ShownSince(steps: seq<Step>, s: SurfaceId, b: BufferId)
    ensures Current(Exec(steps), s, b) <==> Since(steps, Shows(s, b), ShowsOther(s, b))
  {
    if steps != [] {
      ShownSince(steps[..|steps| - 1], s, b);
      SinceLast(steps, Shows(s, b), ShowsOther(s, b));
      LastSurface(steps, s);
    }
  }

  /* ---------- what the GPU reads ---------- */

  /** Steps that wait for the frame in flight, if there is one. */
  predicate Waits(h: Host, step: Step) {
    match step
    case Frame(_, _, _) => true
    case SurfaceGone(s, _) => s in h.surfaces && h.surfaces[s].current.Some?
    case BufferGone(b, egl, _) => egl && b in h.buffers && h.buffers[b].resource
    case _ => false
  }

  predicate WaitSucceeds(step: Step) {
    (step.Frame? || step.SurfaceGone? || step.BufferGone?) && step.waitOk
  }

  predicate Samples(h: Host, step: Step, b: BufferId) {
    && step.Frame? && (step.outcome == Swapped(true) || step.outcome == SwapFailed(true))
    && exists s :: s in step.drawn && Current(h, s, b)
  }

  /** Ends the reads of the renderer in use: a fence waited for, a glFinish, or its own end. */
  predicate Covers(h: Host, step: Step) {
    || (Waits(h, step) && h.gpu.fence && WaitSucceeds(step))
    || (step.Frame? && step.outcome == Swapped(false)) || step.RendererGone?
  }

  ghost predicate GpuLaws(h: Host, step: Step, b: BufferId) {
    var gpu := Apply(h, step).gpu;
    && (gpu.fence <==> (step.Frame? && step.outcome == Swapped(true)) || (h.gpu.fence && !Waits(h, step) && !step.RendererGone?))
    && (b in gpu.own <==> Samples(h, step, b) || (b in h.gpu.own && !Covers(h, step)))
    && (b in gpu.orphaned <==> b in h.gpu.orphaned || (step.RendererGone? && b in h.gpu.own))
  }

  lemma {:induction false} FrameGpu(h: Host, drawn: set<SurfaceId>, waitOk: bool, outcome: Outcome, b: BufferId)
    ensures GpuLaws(h, Frame(drawn, waitOk, outcome), b)
  {
    FlushSurfaces(WaitIdle(h, waitOk));
    ShownIs(h, drawn, b);
    DrawGpu(h, Flush(WaitIdle(h, waitOk)), drawn, outcome);
  }

  lemma {:induction false} ShownIs(h: Host, drawn: set<SurfaceId>, b: BufferId)
    ensures b in Shown(h, drawn) <==> exists s :: s in drawn && Current(h, s, b)
  {
  }

  lemma {:induction false} DrawGpu(h: Host, flushed: Host, drawn: set<SurfaceId>, outcome: Outcome)
    requires flushed.surfaces == h.surfaces
    ensures var gpu, gpu' := flushed.gpu, Draw(flushed, drawn, outcome).gpu;
      && (gpu'.fence <==> gpu.fence || outcome == Swapped(true)) && gpu'.orphaned == gpu.orphaned
      && gpu'.own == if outcome == Swapped(false) then {}
                     else if outcome == Swapped(true) || outcome == SwapFailed(true) then gpu.own + Shown(h, drawn)
                     else gpu.own
  {
  }

  lemma {:induction false} SurfaceGoneGpu(h: Host, s: SurfaceId, waitOk: bool)
    ensures DestroySurface(h, s, waitOk).gpu
         == if s in h.surfaces && h.surfaces[s].current.Some? then WaitIdle(h, waitOk).gpu else h.gpu
  {
    if s in h.surfaces {
      CurrentGoneGpu(h, s, waitOk);
    }
  }

  lemma {:induction false} CurrentGoneGpu(h: Host, s: SurfaceId, waitOk: bool)
    requires s in h.surfaces
    ensures DestroyCurrent(h, s, waitOk).gpu == if h.surfaces[s].current.Some? then WaitIdle(h, waitOk).gpu else h.gpu
    ensures s in DestroyCurrent(h, s, waitOk).surfaces
  {
  }

  lemma {:induction false} RequestGpu(h: Host, step: Step)
    requires step.CreateSurface? || step.CreateBuffer? || step.AttachTo? || step.CommitOn?
    ensures Apply(h, step).gpu == h.gpu
  {
  }

  lemma {:induction false} StepGpu(h: Host, step: Step, b: BufferId)
    ensures GpuLaws(h, step, b)
  {
    match step
    case Frame(drawn, waitOk, outcome) => FrameGpu(h, drawn, waitOk, outcome, b);
    case SurfaceGone(s, waitOk) => SurfaceGoneGpu(h, s, waitOk);
    case BufferGone(_, _, _) =>
    case RendererGone =>
    case _ => RequestGpu(h, step);
  }

  ghost function Fences(): Moment<Step> {
    (before: seq<Step>, step: Step) => step.Frame? && step.outcome == Swapped(true)
  }

  ghost function EndsFences(): Moment<Step> {
    (before: seq<Step>, step: Step) => Waits(Exec(before), step) || step.RendererGone?
  }

  ghost function SamplesAt(b: BufferId): Moment<Step> {
    (before: seq<Step>, step: Step) => Samples(Exec(before), step, b)
  }

  ghost function CoversAt(): Moment<Step> {
    (before: seq<Step>, step: Step) => Covers(Exec(before), step)
  }

  ghost function Orphans(b: BufferId): Moment<Step> {
    (before: seq<Step>, step: Step) => step.RendererGone? && b in Exec(before).gpu.own
  }

  ghost function Never(): Moment<Step> {
    (before: seq<Step>, step: Step) => false
  }

  /**
    The GPU reads a buffer from a frame that shows it until a wait for that
    frame's fence, a glFinish, or, as far as anybody can tell, for ever if the
    renderer went away first.
   */
  lemma {:induction false} ReadSince(steps: seq<Step>, b: BufferId)
    ensures Exec(steps).gpu.fence <==> Since(steps, Fences(), EndsFences())
    ensures b in Exec(steps).gpu.own <==> Since(steps, SamplesAt(b), CoversAt())
    ensures b in Exec(steps).gpu.orphaned <==> Since(steps, Orphans(b), Never())
  {
    if steps != [] {
      ReadSince(steps[..|steps| - 1], b);
      SinceLast(steps, Fences(), EndsFences());
      SinceLast(steps, SamplesAt(b), CoversAt());
      SinceLast(steps, Orphans(b), Never());
      StepGpu(Exec(steps[..|steps| - 1]), steps[|steps| - 1], b);
    }
  }
}
