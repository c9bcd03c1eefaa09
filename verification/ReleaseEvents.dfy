/**
  What the state of linux-explicit-synchronization is after a run, read off the
  requests: which fence and release object waits where, since when, and which
  release events went out.
 */
module ReleaseEvents {
  import opened Common
  import opened ExplicitSync

  /* ---------- one step, seen from one surface, one buffer and one release object ---------- */

  predicate Synced(st: State, s: SurfaceId) {
    s in st.surfaces && st.surfaces[s].sync
  }

  /** Fences and flags are as before, and so are the pointers, but for those to `gone`. */
  ghost predicate OnlyForgets(st: State, st': State, gone: Option<ReleaseId>, x: SurfaceId, c: BufferId, q: ReleaseId) {
    && st'.surfaces.Keys == st.surfaces.Keys && st'.buffers.Keys == st.buffers.Keys
    && st'.released == st.released && st'.objects == st.objects && st'.offered == st.offered
    && (x in st.surfaces ==> st'.surfaces[x].fence == st.surfaces[x].fence && st'.surfaces[x].sync == st.surfaces[x].sync)
    && (PointsToS(st', x, q) <==> PointsToS(st, x, q) && gone != Some(q))
    && (PointsToB(st', c, q) <==> PointsToB(st, c, q) && gone != Some(q))
  }

  lemma {:induction false} DestroyForgets(st: State, r: ReleaseId, x: SurfaceId, c: BufferId, q: ReleaseId)
    requires Owned(st, None) || Owned(st, Some(r))
    ensures OnlyForgets(st, Destroy(st, r), Some(r), x, c, q)
  {
    assert PointsToS(st, x, r) ==> st.bindings[r] == Binding(Some(x), None);
    assert PointsToB(st, c, r) ==> st.bindings[r] == Binding(None, Some(c));
  }

  lemma {:induction false} DestroyIfForgets(st: State, r: Option<ReleaseId>, x: SurfaceId, c: BufferId, q: ReleaseId)
    requires Owned(st, None)
    ensures OnlyForgets(st, DestroyIf(st, r), r, x, c, q)
  {
    if r.Some? {
      DestroyForgets(st, r.value, x, c, q);
    }
  }

  lemma {:induction false} CloseFenceView(st: State, s: SurfaceId, x: SurfaceId, c: BufferId, q: ReleaseId)
    requires s in st.surfaces
    ensures var st' := CloseFence(st, s);
      && st'.surfaces.Keys == st.surfaces.Keys && st'.buffers == st.buffers
      && st'.released == st.released && st'.objects == st.objects && st'.offered == st.offered
      && (x in st.surfaces ==> st'.surfaces[x] == if x == s then st.surfaces[s].(fence := None) else st.surfaces[x])
  {
  }

  lemma {:induction false} CommitBufferView(st: State, s: SurfaceId, b: BufferId, x: SurfaceId, c: BufferId, q: ReleaseId)
    requires Owned(st, None) && s in st.surfaces && b in st.buffers
    ensures var st' := ApplyCommitBuffer(st, s, b);
      && st'.surfaces.Keys == st.surfaces.Keys && st'.buffers.Keys == st.buffers.Keys
      && st'.released == st.released && st'.objects == st.objects && st'.offered == st.offered
      && (x in st.surfaces ==> st'.surfaces[x].sync == st.surfaces[x].sync)
      && (x in st.surfaces ==> st'.surfaces[x].fence == if x == s then None else st.surfaces[x].fence)
      && (PointsToS(st', x, q) <==> PointsToS(st, x, q) && x != s)
      && (PointsToB(st', c, q) <==> if c == b then PointsToS(st, s, q) else PointsToB(st, c, q))
  {
    CloseFenceOwned(st, s);
    CloseFenceView(st, s, x, c, q);
    CloseFenceView(st, s, s, c, q);
    var st1 := CloseFence(st, s);
    DestroyIfForgets(st1, st.buffers[b], x, c, q);
    DestroyIfForgets(st1, st.buffers[b], s, c, q);
    OneOwner(st, b, x, c, q);
    OneOwner(st, b, s, c, q);
  }

  /** The object at a buffer is at no surface and at no other buffer. */
  lemma {:induction false} OneOwner(st: State, b: BufferId, x: SurfaceId, c: BufferId, q: ReleaseId)
    requires Owned(st, None)
    ensures PointsToB(st, b, q) ==> !PointsToS(st, x, q) && (c != b ==> !PointsToB(st, c, q))
  {
  }

  lemma {:induction false} CommitDetachView(st: State, s: SurfaceId, x: SurfaceId, c: BufferId, q: ReleaseId)
    requires Owned(st, None) && s in st.surfaces
    ensures var st' := ApplyCommitDetach(st, s);
      && st'.surfaces.Keys == st.surfaces.Keys && st'.buffers.Keys == st.buffers.Keys
      && st'.released == st.released && st'.objects == st.objects && st'.offered == st.offered
      && (x in st.surfaces ==> st'.surfaces[x].sync == st.surfaces[x].sync)
      && (x in st.surfaces ==> st'.surfaces[x].fence == if x == s then None else st.surfaces[x].fence)
      && (PointsToS(st', x, q) <==> PointsToS(st, x, q) && x != s)
      && (PointsToB(st', c, q) <==> PointsToB(st, c, q))
  {
    CloseFenceOwned(st, s);
    CloseFenceView(st, s, x, c, q);
    DestroyIfForgets(CloseFence(st, s), st.surfaces[s].release, x, c, q);
    OneSurface(st, s, x, c, q);
  }

  /** The object at a surface is at no buffer and at no other surface. */
  lemma {:induction false} OneSurface(st: State, s: SurfaceId, x: SurfaceId, c: BufferId, q: ReleaseId)
    requires Owned(st, None)
    ensures PointsToS(st, s, q) ==> !PointsToB(st, c, q) && (x != s ==> !PointsToS(st, x, q))
  {
  }

  lemma {:induction false} DetachView(st: State, b: BufferId, x: SurfaceId, c: BufferId, q: ReleaseId)
    requires Owned(st, None) && b in st.buffers
    ensures OnlyForgets(st, DetachFromBuffer(st, b), st.buffers[b], x, c, q)
  {
    UnpointBuffer(st, b);
    OneOwner(st, b, x, c, q);
    if st.buffers[b].Some? {
      DestroyForgets(st.(buffers := st.buffers[b := None]), st.buffers[b].value, x, c, q);
    }
  }

  lemma {:induction false} DestroySurfaceView(st: State, s: SurfaceId, pending: Option<BufferId>, x: SurfaceId, c: BufferId, q: ReleaseId)
    requires Owned(st, None) && s in st.surfaces
    ensures var st' := ApplyDestroySurface(st, s, pending);
      && st'.surfaces.Keys == st.surfaces.Keys - {s} && st'.buffers.Keys == st.buffers.Keys
      && st'.released == st.released && st'.objects == st.objects && st'.offered == st.offered
      && (x in st.surfaces && x != s ==> st'.surfaces[x].sync == st.surfaces[x].sync && st'.surfaces[x].fence == st.surfaces[x].fence)
      && (PointsToS(st', x, q) <==> PointsToS(st, x, q) && x != s)
      && (PointsToB(st', c, q) <==> PointsToB(st, c, q) && pending != Some(c))
  {
    CloseFenceOwned(st, s);
    CloseFenceView(st, s, x, c, q);
    CloseFenceView(st, s, s, c, q);
    var st1 := CloseFence(st, s);
    var r := if pending.Some? && pending.value in st.buffers then st.buffers[pending.value] else None;
    DestroyIfOwned(st1, r);
    DestroyIfForgets(st1, r, x, c, q);
    DestroyIfForgets(st1, r, s, c, q);
    var st2 := DestroyIf(st1, r);
    DestroyIfForgets(st2, st2.surfaces[s].release, x, c, q);
    OneSurface(st2, s, x, c, q);
    if pending.Some? {
      OneOwner(st, pending.value, x, c, q);
    }
  }

  /* ---------- what starts and what ends ---------- */

  predicate SurfaceGoes(step: Step, s: SurfaceId) {
    step.DestroySurface? && step.s == s
  }

  /** A commit of s that takes effect. */
  predicate Commits(st: State, step: Step, s: SurfaceId) {
    (step.CommitBuffer? && step.s == s && step.b in st.buffers) || step == CommitDetach(s)
  }

  predicate TakesFence(st: State, step: Step, s: SurfaceId, fd: Fd) {
    step == SetFence(s, fd) && Synced(st, s) && st.surfaces[s].fence == None && fd !in st.offered
  }

  predicate EndsFence(st: State, step: Step, s: SurfaceId) {
    Commits(st, step, s) || step == DestroySync(s) || SurfaceGoes(step, s)
  }

  predicate TakesRelease(st: State, step: Step, s: SurfaceId, r: ReleaseId) {
    step == GetRelease(s, r) && Synced(st, s) && st.surfaces[s].release == None && r !in st.objects
  }

  predicate EndsRelease(st: State, step: Step, s: SurfaceId, r: ReleaseId) {
    Commits(st, step, s) || step == DestroyRelease(r) || SurfaceGoes(step, s)
  }

  /** The commit that carries r from its surface to the buffer. */
  predicate Carries(st: State, step: Step, b: BufferId, r: ReleaseId) {
    step.CommitBuffer? && step.b == b && b in st.buffers && PointsToS(st, step.s, r)
  }

  predicate EndsCarried(st: State, step: Step, b: BufferId, r: ReleaseId) {
    || (step.CommitBuffer? && step.b == b && step.s in st.surfaces)
    || step == ReleaseBuffer(b) || step == DestroyStorage(b) || step == DestroyRelease(r)
    || (step.DestroySurface? && step.s in st.surfaces && step.pending == Some(b))
  }

  ghost predicate StepLaws(st: State, step: Step, s: SurfaceId, b: BufferId, r: ReleaseId, fd: Fd) {
    var st' := Apply(st, step);
    && (s in st'.surfaces <==> step == NewSurface(s) || (s in st.surfaces && !SurfaceGoes(step, s)))
    && (b in st'.buffers <==> step == NewBuffer(b) || (b in st.buffers && step != DestroyStorage(b)))
    && (Synced(st', s) <==> (step == GetSync(s) && s in st.surfaces)
                            || (Synced(st, s) && step != DestroySync(s) && !SurfaceGoes(step, s)))
    && (Holds(st', s, fd) <==> TakesFence(st, step, s, fd) || (Holds(st, s, fd) && !EndsFence(st, step, s)))
    && (PointsToS(st', s, r) <==> TakesRelease(st, step, s, r) || (PointsToS(st, s, r) && !EndsRelease(st, step, s, r)))
    && (PointsToB(st', b, r) <==> Carries(st, step, b, r) || (PointsToB(st, b, r) && !EndsCarried(st, step, b, r)))
    && (r in st'.objects <==> r in st.objects || (step.GetRelease? && TakesRelease(st, step, step.s, r)))
    && (fd in st'.offered <==> fd in st.offered || (step.SetFence? && step.fd == fd && step.s in st.surfaces))
    && st'.released == st.released + ReleasedBy(st, step)
  }

  /** A release event goes out exactly for the object that the released buffer carries. */
  function ReleasedBy(st: State, step: Step): seq<ReleaseId> {
    if step.ReleaseBuffer? && step.b in st.buffers && st.buffers[step.b].Some? then [st.buffers[step.b].value] else []
  }

  lemma {:induction false} NewLaws(st: State, step: Step, s: SurfaceId, b: BufferId, r: ReleaseId, fd: Fd)
    requires step.NewSurface? || step.NewBuffer? || step.GetSync?
    ensures StepLaws(st, step, s, b, r, fd)
  {
  }

  lemma {:induction false} DestroySyncLaws(st: State, t: SurfaceId, s: SurfaceId, b: BufferId, r: ReleaseId, fd: Fd)
    requires Fenced(st)
    ensures StepLaws(st, DestroySync(t), s, b, r, fd)
  {
    assert Holds(st, s, fd) ==> Synced(st, s);
    if t in st.surfaces {
      CloseFenceView(SetSurface(st, t, st.surfaces[t].(sync := false)), t, s, b, r);
    }
  }

  lemma {:induction false} SetFenceLaws(st: State, t: SurfaceId, f: Fd, s: SurfaceId, b: BufferId, r: ReleaseId, fd: Fd)
    requires Fenced(st)
    ensures StepLaws(st, SetFence(t, f), s, b, r, fd)
  {
    assert Holds(st, s, fd) ==> fd in st.offered;
  }

  lemma {:induction false} GetReleaseLaws(st: State, t: SurfaceId, q: ReleaseId, s: SurfaceId, b: BufferId, r: ReleaseId, fd: Fd)
    requires Owned(st, None)
    ensures StepLaws(st, GetRelease(t, q), s, b, r, fd)
  {
    assert PointsToS(st, s, r) || PointsToB(st, b, r) ==> r in st.objects;
  }

  lemma {:induction false} RequestLaws(st: State, step: Step, s: SurfaceId, b: BufferId, r: ReleaseId, fd: Fd)
    requires Owned(st, None) && Fenced(st)
    requires step.NewSurface? || step.NewBuffer? || step.GetSync? || step.DestroySync? || step.SetFence? || step.GetRelease?
    ensures StepLaws(st, step, s, b, r, fd)
  {
    match step
    case DestroySync(t) => DestroySyncLaws(st, t, s, b, r, fd);
    case SetFence(t, f) => SetFenceLaws(st, t, f, s, b, r, fd);
    case GetRelease(t, q) => GetReleaseLaws(st, t, q, s, b, r, fd);
    case _ => NewLaws(st, step, s, b, r, fd);
  }

  lemma {:induction false} EndLaws(st: State, step: Step, s: SurfaceId, b: BufferId, r: ReleaseId, fd: Fd)
    requires Owned(st, None)
    requires step.CommitBuffer? || step.CommitDetach? || step.DestroySurface?
    ensures StepLaws(st, step, s, b, r, fd)
  {
    match step
    case CommitBuffer(t, c) => CommitBufferLaws(st, t, c, s, b, r, fd);
    case CommitDetach(t) => CommitDetachLaws(st, t, s, b, r, fd);
    case DestroySurface(t, pending) => DestroySurfaceLaws(st, t, pending, s, b, r, fd);
  }

  lemma {:induction false} CommitBufferLaws(st: State, t: SurfaceId, c: BufferId, s: SurfaceId, b: BufferId, r: ReleaseId, fd: Fd)
    requires Owned(st, None)
    ensures StepLaws(st, CommitBuffer(t, c), s, b, r, fd)
  {
    if t in st.surfaces && c in st.buffers {
      CommitBufferView(st, t, c, s, b, r);
    }
  }

  lemma {:induction false} CommitDetachLaws(st: State, t: SurfaceId, s: SurfaceId, b: BufferId, r: ReleaseId, fd: Fd)
    requires Owned(st, None)
    ensures StepLaws(st, CommitDetach(t), s, b, r, fd)
  {
    if t in st.surfaces {
      CommitDetachView(st, t, s, b, r);
    }
  }

  lemma {:induction false} DestroySurfaceLaws(st: State, t: SurfaceId, pending: Option<BufferId>, s: SurfaceId, b: BufferId, r: ReleaseId, fd: Fd)
    requires Owned(st, None)
    ensures StepLaws(st, DestroySurface(t, pending), s, b, r, fd)
  {
    if t in st.surfaces {
      DestroySurfaceView(st, t, pending, s, b, r);
    }
  }

  lemma {:induction false} BufferLaws(st: State, step: Step, s: SurfaceId, b: BufferId, r: ReleaseId, fd: Fd)
    requires Owned(st, None)
    requires step.ReleaseBuffer? || step.DestroyStorage? || step.DestroyRelease?
    ensures StepLaws(st, step, s, b, r, fd)
  {
    match step
    case ReleaseBuffer(c) => ReleaseBufferLaws(st, c, s, b, r, fd);
    case DestroyStorage(c) => DestroyStorageLaws(st, c, s, b, r, fd);
    case DestroyRelease(q) => DestroyForgets(st, q, s, b, r);
  }

  lemma {:induction false} ReleaseBufferLaws(st: State, c: BufferId, s: SurfaceId, b: BufferId, r: ReleaseId, fd: Fd)
    requires Owned(st, None)
    ensures StepLaws(st, ReleaseBuffer(c), s, b, r, fd)
  {
    if c in st.buffers {
      DetachView(st, c, s, b, r);
      OneOwner(st, c, s, b, r);
    }
  }

  lemma {:induction false} DestroyStorageLaws(st: State, c: BufferId, s: SurfaceId, b: BufferId, r: ReleaseId, fd: Fd)
    requires Owned(st, None)
    ensures StepLaws(st, DestroyStorage(c), s, b, r, fd)
  {
    if c in st.buffers {
      DetachView(st, c, s, b, r);
      OneOwner(st, c, s, b, r);
    }
  }

  lemma {:induction false} RunLaws(steps: seq<Step>, s: SurfaceId, b: BufferId, r: ReleaseId, fd: Fd)
    requires steps != []
    ensures StepLaws(Exec(steps[..|steps| - 1]), steps[|steps| - 1], s, b, r, fd)
  {
    var st, step := Exec(steps[..|steps| - 1]), steps[|steps| - 1];
    RunKeeps(steps[..|steps| - 1]);
    if step.CommitBuffer? || step.CommitDetach? || step.DestroySurface? {
      EndLaws(st, step, s, b, r, fd);
    } else if step.ReleaseBuffer? || step.DestroyStorage? || step.DestroyRelease? {
      BufferLaws(st, step, s, b, r, fd);
    } else {
      RequestLaws(st, step, s, b, r, fd);
    }
  }

  /* ---------- every run ---------- */

  ghost function CreatesSurface(s: SurfaceId): Moment<Step> {
    (before: seq<Step>, step: Step) => step == NewSurface(s)
  }

  ghost function DestroysSurface(s: SurfaceId): Moment<Step> {
    (before: seq<Step>, step: Step) => SurfaceGoes(step, s)
  }

  ghost function CreatesBuffer(b: BufferId): Moment<Step> {
    (before: seq<Step>, step: Step) => step == NewBuffer(b)
  }

  ghost function DestroysBuffer(b: BufferId): Moment<Step> {
    (before: seq<Step>, step: Step) => step == DestroyStorage(b)
  }

  ghost function GetsSync(s: SurfaceId): Moment<Step> {
    (before: seq<Step>, step: Step) => step == GetSync(s) && s in Exec(before).surfaces
  }

  ghost function LosesSync(s: SurfaceId): Moment<Step> {
    (before: seq<Step>, step: Step) => step == DestroySync(s) || SurfaceGoes(step, s)
  }

  /** Surfaces, buffers and sync objects are there from their creation until they are destroyed. */
  lemma {:induction false} LivesSince(steps: seq<Step>, s: SurfaceId, b: BufferId)
    ensures s in Exec(steps).surfaces <==> Since(steps, CreatesSurface(s), DestroysSurface(s))
    ensures b in Exec(steps).buffers <==> Since(steps, CreatesBuffer(b), DestroysBuffer(b))
    ensures Synced(Exec(steps), s) <==> Since(steps, GetsSync(s), LosesSync(s))
  {
    if steps != [] {
      LivesSince(steps[..|steps| - 1], s, b);
      SinceLast(steps, CreatesSurface(s), DestroysSurface(s));
      SinceLast(steps, CreatesBuffer(b), DestroysBuffer(b));
      SinceLast(steps, GetsSync(s), LosesSync(s));
      RunLaws(steps, s, b, 0, 0);
    }
  }

  ghost function FenceTaken(s: SurfaceId, fd: Fd): Moment<Step> {
    (before: seq<Step>, step: Step) => TakesFence(Exec(before), step, s, fd)
  }

  ghost function FenceEnded(s: SurfaceId): Moment<Step> {
    (before: seq<Step>, step: Step) => EndsFence(Exec(before), step, s)
  }

  /** A surface holds a fence from the request that set it to the next commit, or until sync object or surface go. */
  lemma {:induction false} FenceHeldSince(steps: seq<Step>, s: SurfaceId, fd: Fd)
    ensures Holds(Exec(steps), s, fd) <==> Since(steps, FenceTaken(s, fd), FenceEnded(s))
  {
    if steps != [] {
      FenceHeldSince(steps[..|steps| - 1], s, fd);
      SinceLast(steps, FenceTaken(s, fd), FenceEnded(s));
      RunLaws(steps, s, 0, 0, fd);
    }
  }

  ghost function ReleaseTaken(s: SurfaceId, r: ReleaseId): Moment<Step> {
    (before: seq<Step>, step: Step) => TakesRelease(Exec(before), step, s, r)
  }

  ghost function ReleaseEnded(s: SurfaceId, r: ReleaseId): Moment<Step> {
    (before: seq<Step>, step: Step) => EndsRelease(Exec(before), step, s, r)
  }

  /** A surface holds a release object from the request that made it to the next commit. */
  lemma {:induction false} ReleasePendingSince(steps: seq<Step>, s: SurfaceId, r: ReleaseId)
    ensures PointsToS(Exec(steps), s, r) <==> Since(steps, ReleaseTaken(s, r), ReleaseEnded(s, r))
  {
    if steps != [] {
      ReleasePendingSince(steps[..|steps| - 1], s, r);
      SinceLast(steps, ReleaseTaken(s, r), ReleaseEnded(s, r));
      RunLaws(steps, s, 0, r, 0);
    }
  }

  ghost function Carried(b: BufferId, r: ReleaseId): Moment<Step> {
    (before: seq<Step>, step: Step) => Carries(Exec(before), step, b, r)
  }

  ghost function CarriedNoMore(b: BufferId, r: ReleaseId): Moment<Step> {
    (before: seq<Step>, step: Step) => EndsCarried(Exec(before), step, b, r)
  }

  /** A buffer carries a release object from the commit that brought both together until one of them goes. */
  lemma {:induction false} ReleaseCarriedSince(steps: seq<Step>, b: BufferId, r: ReleaseId)
    ensures PointsToB(Exec(steps), b, r) <==> Since(steps, Carried(b, r), CarriedNoMore(b, r))
  {
    if steps != [] {
      ReleaseCarriedSince(steps[..|steps| - 1], b, r);
      SinceLast(steps, Carried(b, r), CarriedNoMore(b, r));
      RunLaws(steps, 0, b, r, 0);
    }
  }

  ghost function Offers(fd: Fd): Moment<Step> {
    (before: seq<Step>, step: Step) => step.SetFence? && step.fd == fd && step.s in Exec(before).surfaces
  }

  ghost function Never(): Moment<Step> {
    (before: seq<Step>, step: Step) => false
  }

  /** The fences to account for are all that ever came with a request on a surface. */
  lemma {:induction false} OfferedIff(steps: seq<Step>, fd: Fd)
    ensures fd in Exec(steps).offered <==> Since(steps, Offers(fd), Never())
  {
    if steps != [] {
      OfferedIff(steps[..|steps| - 1], fd);
      SinceLast(steps, Offers(fd), Never());
      RunLaws(steps, 0, 0, 0, fd);
    }
  }

  ghost function MakesRelease(r: ReleaseId): Moment<Step> {
    (before: seq<Step>, step: Step) => step.GetRelease? && TakesRelease(Exec(before), step, step.s, r)
  }

  lemma {:induction false} ObjectsIff(steps: seq<Step>, r: ReleaseId)
    ensures r in Exec(steps).objects <==> Since(steps, MakesRelease(r), Never())
  {
    if steps != [] {
      ObjectsIff(steps[..|steps| - 1], r);
      SinceLast(steps, MakesRelease(r), Never());
      RunLaws(steps, 0, 0, r, 0);
    }
  }

  /* ---------- the release events ---------- */

  /** Step k releases a buffer that carries r at that point. */
  ghost predicate ReleasesAt(steps: seq<Step>, k: nat, r: ReleaseId)
    requires k < |steps|
  {
    steps[k].ReleaseBuffer? && PointsToB(Exec(steps[..k]), steps[k].b, r)
  }

  lemma {:induction false} ReleasesStay(steps: seq<Step>, k: nat, r: ReleaseId)
    requires steps != [] && k < |steps| - 1
    ensures ReleasesAt(steps, k, r) <==> ReleasesAt(steps[..|steps| - 1], k, r)
  {
    assert steps[..|steps| - 1][..k] == steps[..k];
  }

  lemma {:induction false} ReleasedGrows(steps: seq<Step>)
    requires steps != []
    ensures Exec(steps).released
         == Exec(steps[..|steps| - 1]).released + ReleasedBy(Exec(steps[..|steps| - 1]), steps[|steps| - 1])
  {
    RunLaws(steps, 0, 0, 0, 0);
  }

  /** The event of a release object goes out exactly when a buffer that carries it is released. */
  lemma {:induction false} ReleasedIff(steps: seq<Step>, r: ReleaseId)
    ensures r in Exec(steps).released <==> exists k :: 0 <= k < |steps| && ReleasesAt(steps, k, r)
  {
    if steps != [] {
      var before, n := steps[..|steps| - 1], |steps| - 1;
      ReleasedIff(before, r);
      ReleasedGrows(steps);
      forall k | 0 <= k < n
        ensures ReleasesAt(steps, k, r) <==> ReleasesAt(before, k, r)
      {
        ReleasesStay(steps, k, r);
      }
      ReleasedLast(Exec(before), steps[n], r);
      assert r in ReleasedBy(Exec(before), steps[n]) <==> ReleasesAt(steps, n, r);
    }
  }

  lemma {:induction false} ReleasedLast(st: State, step: Step, r: ReleaseId)
    ensures r in ReleasedBy(st, step) <==> step.ReleaseBuffer? && PointsToB(st, step.b, r)
  {
  }

  ghost predicate ReleasedEarlier(steps: seq<Step>, r: ReleaseId, q: ReleaseId) {
    exists k, l :: 0 <= k < l < |steps| && ReleasesAt(steps, k, r) && ReleasesAt(steps, l, q)
  }

  lemma {:induction false} EarlierStays(steps: seq<Step>, r: ReleaseId, q: ReleaseId)
    requires steps != [] && ReleasedEarlier(steps[..|steps| - 1], r, q)
    ensures ReleasedEarlier(steps, r, q)
  {
    var before := steps[..|steps| - 1];
    var k, l :| 0 <= k < l < |before| && ReleasesAt(before, k, r) && ReleasesAt(before, l, q);
    ReleasesStay(steps, k, r);
    ReleasesStay(steps, l, q);
  }

  /** And in the order of those releases. */
  lemma {:induction false} ReleasedInOrder(steps: seq<Step>, i: nat, j: nat)
    requires i < j < |Exec(steps).released|
    ensures ReleasedEarlier(steps, Exec(steps).released[i], Exec(steps).released[j])
  {
    var before, n, released := steps[..|steps| - 1], |steps| - 1, Exec(steps).released;
    ReleasedGrows(steps);
    var was := Exec(before).released;
    if j < |was| {
      ReleasedInOrder(before, i, j);
      EarlierStays(steps, was[i], was[j]);
    } else {
      assert released[i] == was[i] && was[i] in was;
      ReleasedIff(before, was[i]);
      var k :| 0 <= k < |before| && ReleasesAt(before, k, was[i]);
      ReleasesStay(steps, k, was[i]);
      assert ReleasesAt(steps, n, released[j]);
    }
  }
}
