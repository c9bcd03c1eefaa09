/**
  Release objects and acquire fences of linux-explicit-synchronization:
  wayland-host/src/explicit_sync.c, and their part of surface.c (commit 385-403,
  destroy 241-295) and buffer_shm.c (storage 113-121, release 311-319).
 */
module ExplicitSync {
  import opened Common

  type SurfaceId = nat
  type BufferId = nat
  type ReleaseId = nat
  type Fd = nat

  /** The owner a release object's destroy hook would clear. */
  datatype Binding = Binding(surface: Option<SurfaceId>, buffer: Option<BufferId>)

  datatype Surface = Surface(sync: bool, fence: Option<Fd>, release: Option<ReleaseId>)

  /** `released` are the events sent, `closed` the close() calls, `offered` every fd received. */
  datatype State = State(
    surfaces: map<SurfaceId, Surface>,
    buffers: map<BufferId, Option<ReleaseId>>,
    bindings: map<ReleaseId, Binding>,
    released: seq<ReleaseId>, objects: set<ReleaseId>,
    closed: seq<Fd>, offered: set<Fd>)

  const INITIAL := State(map[], map[], map[], [], {}, [], {})

  /* ---------- primitives ---------- */

  function SetSurface(st: State, s: SurfaceId, x: Surface): State {
    st.(surfaces := st.surfaces[s := x])
  }

  /** wl_resource_destroy and its hook release_destroy: clear the pointer that still names the object. */
  function Destroy(st: State, r: ReleaseId): State {
    if r !in st.bindings then st
    else
      var o := st.bindings[r];
      var st1 := if o.surface.Some? && o.surface.value in st.surfaces && st.surfaces[o.surface.value].release == Some(r)
                 then SetSurface(st, o.surface.value, st.surfaces[o.surface.value].(release := None)) else st;
      var st2 := if o.buffer.Some? && o.buffer.value in st.buffers && st.buffers[o.buffer.value] == Some(r)
                 then st1.(buffers := st1.buffers[o.buffer.value := None]) else st1;
      st2.(bindings := st2.bindings - {r})
  }

  function DestroyIf(st: State, r: Option<ReleaseId>): State {
    if r.Some? then Destroy(st, r.value) else st
  }

  /** Close the surface's fence, if it has one. */
  function CloseFence(st: State, s: SurfaceId): State
    requires s in st.surfaces
  {
    var x := st.surfaces[s];
    if x.fence.None? then st
    else SetSurface(st, s, x.(fence := None)).(closed := st.closed + [x.fence.value])
  }

  /* ---------- requests and hooks ---------- */

  datatype Step =
    | NewSurface(s: SurfaceId)
    | NewBuffer(b: BufferId)
    | GetSync(s: SurfaceId)
    | DestroySync(s: SurfaceId)
    | SetFence(s: SurfaceId, fd: Fd)
    | GetRelease(s: SurfaceId, r: ReleaseId)
    | CommitBuffer(s: SurfaceId, b: BufferId)  // a commit that replaces the current buffer
    | CommitDetach(s: SurfaceId)               // a commit that removes it
    | ReleaseBuffer(b: BufferId)               // its last user is gone
    | DestroyStorage(b: BufferId)
    | DestroyRelease(r: ReleaseId)             // the client's object goes away
    | DestroySurface(s: SurfaceId, pending: Option<BufferId>)

  /** A second fence for the same commit, or one without a sync object, is closed at once. */
  function ApplySetFence(st: State, s: SurfaceId, fd: Fd): State {
    if s !in st.surfaces || fd in st.offered then st
    else
      var st1 := st.(offered := st.offered + {fd});
      if !st.surfaces[s].sync || st.surfaces[s].fence.Some? then st1.(closed := st.closed + [fd])
      else SetSurface(st1, s, st.surfaces[s].(fence := Some(fd)))
  }

  function ApplyGetRelease(st: State, s: SurfaceId, r: ReleaseId): State {
    if s !in st.surfaces || r in st.objects || !st.surfaces[s].sync || st.surfaces[s].release.Some? then st
    else SetSurface(st, s, st.surfaces[s].(release := Some(r))).(
           bindings := st.bindings[r := Binding(Some(s), None)], objects := st.objects + {r})
  }

  /** The fence is waited for and closed; the release object changes owner. */
  function ApplyCommitBuffer(st: State, s: SurfaceId, b: BufferId): State {
    if s !in st.surfaces || b !in st.buffers then st
    else
      var st1 := CloseFence(st, s);
      var st2 := DestroyIf(st1, st1.buffers[b]);
      Adopt(st2, s, b)
  }

  function Adopt(st: State, s: SurfaceId, b: BufferId): State
    requires s in st.surfaces
  {
    var r := st.surfaces[s].release;
    var st1 := SetSurface(st, s, st.surfaces[s].(release := None)).(buffers := st.buffers[b := r]);
    if r.Some? && r.value in st.bindings then st1.(bindings := st1.bindings[r.value := Binding(None, Some(b))]) else st1
  }

  function ApplyCommitDetach(st: State, s: SurfaceId): State {
    if s !in st.surfaces then st
    else DestroyIf(CloseFence(st, s), st.surfaces[s].release)
  }

  /** The pointer is cleared first, so the hook finds nothing to clear. */
  function DetachFromBuffer(st: State, b: BufferId): State
    requires b in st.buffers
  {
    DestroyIf(st.(buffers := st.buffers[b := None]), st.buffers[b])
  }

  function ApplyReleaseBuffer(st: State, b: BufferId): State {
    if b !in st.buffers || st.buffers[b].None? then st
    else DetachFromBuffer(st, b).(released := st.released + [st.buffers[b].value])
  }

  function ApplyDestroyStorage(st: State, b: BufferId): State {
    if b !in st.buffers then st
    else
      var st1 := DetachFromBuffer(st, b);
      st1.(buffers := st1.buffers - {b})
  }

  function ApplyDestroySurface(st: State, s: SurfaceId, pending: Option<BufferId>): State {
    if s !in st.surfaces then st
    else
      var st1 := CloseFence(st, s);
      var st2 := if pending.Some? && pending.value in st1.buffers then DestroyIf(st1, st1.buffers[pending.value]) else st1;
      var st3 := DestroyIf(st2, st2.surfaces[s].release);
      st3.(surfaces := st3.surfaces - {s})
  }

  function Apply(st: State, step: Step): State {
    match step
    case NewSurface(s) => if s in st.surfaces then st else SetSurface(st, s, Surface(false, None, None))
    case NewBuffer(b) => if b in st.buffers then st else st.(buffers := st.buffers[b := None])
    case GetSync(s) =>
      if s !in st.surfaces then st else SetSurface(st, s, st.surfaces[s].(sync := true))
    case DestroySync(s) =>
      if s !in st.surfaces || !st.surfaces[s].sync then st
      else CloseFence(SetSurface(st, s, st.surfaces[s].(sync := false)), s)
    case SetFence(s, fd) => ApplySetFence(st, s, fd)
    case GetRelease(s, r) => ApplyGetRelease(st, s, r)
    case CommitBuffer(s, b) => ApplyCommitBuffer(st, s, b)
    case CommitDetach(s) => ApplyCommitDetach(st, s)
    case ReleaseBuffer(b) => ApplyReleaseBuffer(st, b)
    case DestroyStorage(b) => ApplyDestroyStorage(st, b)
    case DestroyRelease(r) => Destroy(st, r)
    case DestroySurface(s, pending) => ApplyDestroySurface(st, s, pending)
  }

  function Exec(steps: seq<Step>): State {
    if steps == [] then INITIAL else Apply(Exec(steps[..|steps| - 1]), steps[|steps| - 1])
  }

  /* ---------- owners ---------- */

  predicate PointsToS(st: State, s: SurfaceId, r: ReleaseId) {
    s in st.surfaces && st.surfaces[s].release == Some(r)
  }

  predicate PointsToB(st: State, b: BufferId, r: ReleaseId) {
    b in st.buffers && st.buffers[b] == Some(r)
  }

  /** `free` (if any) is an object that is no longer pointed to and about to be destroyed. */
  ghost predicate Owned(st: State, free: Option<ReleaseId>) {
    && (forall s, r {:trigger PointsToS(st, s, r)} :: PointsToS(st, s, r) ==>
          r in st.bindings && st.bindings[r] == Binding(Some(s), None) && free != Some(r))
    && (forall b, r {:trigger PointsToB(st, b, r)} :: PointsToB(st, b, r) ==>
          r in st.bindings && st.bindings[r] == Binding(None, Some(b)) && free != Some(r))
    && (forall r {:trigger r in st.bindings} :: r in st.bindings && free != Some(r) ==> Pointed(st, r))
    && (forall r {:trigger r in st.bindings} :: r in st.bindings ==> r in st.objects && r !in st.released)
    && (forall r {:trigger r in st.released} :: r in st.released ==> r in st.objects)
    && NoDup(st.released)
  }

  /** The binding names the one owner, and that owner points back. */
  predicate Pointed(st: State, r: ReleaseId)
    requires r in st.bindings
  {
    var o := st.bindings[r];
    || (o.surface.Some? && o.buffer.None? && PointsToS(st, o.surface.value, r))
    || (o.surface.None? && o.buffer.Some? && PointsToB(st, o.buffer.value, r))
  }

  lemma DestroyOwned(st: State, r: ReleaseId)
    requires Owned(st, None) || Owned(st, Some(r))
    ensures Owned(Destroy(st, r), None)
  {
    var st' := Destroy(st, r);
    if r in st.bindings {
      assert Owned(st, None) ==> Pointed(st, r);
      DestroyUnpoints(st, r);
      forall q | q in st'.bindings
        ensures Pointed(st', q)
      {
        assert Pointed(st, q);
        var o := st.bindings[q];
        assert o.surface.Some? ==> (PointsToS(st, o.surface.value, q) <==> PointsToS(st', o.surface.value, q));
        assert o.buffer.Some? ==> (PointsToB(st, o.buffer.value, q) <==> PointsToB(st', o.buffer.value, q));
      }
    }
  }

  /** Nothing points at the object any more, and everything else points where it did. */
  lemma {:induction false} DestroyUnpoints(st: State, r: ReleaseId)
    requires (Owned(st, None) || Owned(st, Some(r))) && r in st.bindings
    ensures forall s, q :: PointsToS(Destroy(st, r), s, q) <==> PointsToS(st, s, q) && q != r
    ensures forall b, q :: PointsToB(Destroy(st, r), b, q) <==> PointsToB(st, b, q) && q != r
  {
    forall s, q
      ensures PointsToS(Destroy(st, r), s, q) <==> PointsToS(st, s, q) && q != r
    {
      assert PointsToS(st, s, r) ==> st.bindings[r] == Binding(Some(s), None);
    }
    forall b, q
      ensures PointsToB(Destroy(st, r), b, q) <==> PointsToB(st, b, q) && q != r
    {
      assert PointsToB(st, b, r) ==> st.bindings[r] == Binding(None, Some(b));
    }
  }

  /** Fences, flags and new empty owners do not matter to ownership. */
  lemma SameOwners(st: State, st': State, free: Option<ReleaseId>)
    requires Owned(st, free)
    requires forall s, r :: PointsToS(st', s, r) <==> PointsToS(st, s, r)
    requires forall b, r :: PointsToB(st', b, r) <==> PointsToB(st, b, r)
    requires st'.bindings == st.bindings && st'.objects == st.objects && st'.released == st.released
    ensures Owned(st', free)
  {
    forall r | r in st'.bindings && free != Some(r)
      ensures Pointed(st', r)
    {
      assert Pointed(st, r);
    }
  }

  lemma CloseFenceOwned(st: State, s: SurfaceId)
    requires s in st.surfaces && Owned(st, None)
    ensures Owned(CloseFence(st, s), None)
  {
    SameOwners(st, CloseFence(st, s), None);
  }

  lemma GetReleaseOwned(st: State, s: SurfaceId, r: ReleaseId)
    requires Owned(st, None)
    ensures Owned(ApplyGetRelease(st, s, r), None)
  {
    var st' := ApplyGetRelease(st, s, r);
    if s in st.surfaces && r !in st.objects && st.surfaces[s].sync && st.surfaces[s].release.None? {
      forall q | q in st'.bindings
        ensures Pointed(st', q)
      {
        if q == r {
          assert PointsToS(st', s, r);
        } else {
          assert Pointed(st, q);
          var o := st.bindings[q];
          assert o.surface.Some? ==> PointsToS(st', o.surface.value, q);
        }
      }
      forall t, q | PointsToS(st', t, q)
        ensures q in st'.bindings && st'.bindings[q] == Binding(Some(t), None)
      {
        if t != s {
          assert PointsToS(st, t, q);
        }
      }
      forall b, q | PointsToB(st', b, q)
        ensures q in st'.bindings && st'.bindings[q] == Binding(None, Some(b))
      {
        assert PointsToB(st, b, q);
      }
    }
  }

  lemma AdoptOwned(st: State, s: SurfaceId, b: BufferId)
    requires Owned(st, None) && s in st.surfaces && b in st.buffers && st.buffers[b] == None
    ensures Owned(Adopt(st, s, b), None)
  {
    var st', r := Adopt(st, s, b), st.surfaces[s].release;
    if r.Some? {
      assert PointsToS(st, s, r.value);
    }
    forall q | q in st'.bindings
      ensures Pointed(st', q)
    {
      if Some(q) == r {
        assert PointsToB(st', b, q);
      } else {
        assert Pointed(st, q);
        var o := st.bindings[q];
        assert o.surface.Some? ==> PointsToS(st', o.surface.value, q);
        assert o.buffer.Some? ==> PointsToB(st', o.buffer.value, q);
      }
    }
    forall t, q | PointsToS(st', t, q)
      ensures q in st'.bindings && st'.bindings[q] == Binding(Some(t), None)
    {
      assert PointsToS(st, t, q);
    }
    forall c, q | PointsToB(st', c, q)
      ensures q in st'.bindings && st'.bindings[q] == Binding(None, Some(c))
    {
      if c != b {
        assert PointsToB(st, c, q);
      }
    }
  }

  lemma UnpointBuffer(st: State, b: BufferId)
    requires Owned(st, None) && b in st.buffers
    ensures Owned(st.(buffers := st.buffers[b := None]), st.buffers[b])
  {
    var st' := st.(buffers := st.buffers[b := None]);
    if st.buffers[b].Some? {
      assert PointsToB(st, b, st.buffers[b].value);
    }
    forall q | q in st'.bindings && st.buffers[b] != Some(q)
      ensures Pointed(st', q)
    {
      assert Pointed(st, q);
      var o := st.bindings[q];
      assert o.buffer.Some? ==> PointsToB(st', o.buffer.value, q);
      assert o.surface.Some? && o.buffer.None? ==> PointsToS(st', o.surface.value, q);
    }
    forall t, q | PointsToS(st', t, q)
      ensures q in st'.bindings && st'.bindings[q] == Binding(Some(t), None) && st.buffers[b] != Some(q)
    {
      assert PointsToS(st, t, q);
    }
    forall c, q | PointsToB(st', c, q)
      ensures q in st'.bindings && st'.bindings[q] == Binding(None, Some(c)) && st.buffers[b] != Some(q)
    {
      assert PointsToB(st, c, q);
    }
  }

  lemma DetachFromBufferOwned(st: State, b: BufferId)
    requires Owned(st, None) && b in st.buffers
    ensures Owned(DetachFromBuffer(st, b), None) && b in DetachFromBuffer(st, b).buffers
    ensures DetachFromBuffer(st, b).buffers[b] == None && DetachFromBuffer(st, b).released == st.released
    ensures st.buffers[b].Some? ==>
      && st.buffers[b].value !in DetachFromBuffer(st, b).bindings
      && st.buffers[b].value in st.objects && st.buffers[b].value !in st.released
      && DetachFromBuffer(st, b).objects == st.objects
  {
    UnpointBuffer(st, b);
    if st.buffers[b].Some? {
      assert PointsToB(st, b, st.buffers[b].value);
      DestroyOwned(st.(buffers := st.buffers[b := None]), st.buffers[b].value);
    }
  }

  lemma ReleaseBufferOwned(st: State, b: BufferId)
    requires Owned(st, None)
    ensures Owned(ApplyReleaseBuffer(st, b), None)
  {
    if b in st.buffers && st.buffers[b].Some? {
      DetachFromBufferOwned(st, b);
      var st1, st' := DetachFromBuffer(st, b), ApplyReleaseBuffer(st, b);
      forall q | q in st'.bindings
        ensures Pointed(st', q)
      {
        assert Pointed(st1, q);
        var o := st1.bindings[q];
        assert o.buffer.Some? ==> PointsToB(st', o.buffer.value, q);
        assert o.surface.Some? && o.buffer.None? ==> PointsToS(st', o.surface.value, q);
      }
      forall t, q | PointsToS(st', t, q)
        ensures q in st'.bindings && st'.bindings[q] == Binding(Some(t), None)
      {
        assert PointsToS(st1, t, q);
      }
      forall c, q | PointsToB(st', c, q)
        ensures q in st'.bindings && st'.bindings[q] == Binding(None, Some(c))
      {
        assert PointsToB(st1, c, q);
      }
    }
  }

  lemma DestroyStorageOwned(st: State, b: BufferId)
    requires Owned(st, None)
    ensures Owned(ApplyDestroyStorage(st, b), None)
  {
    if b in st.buffers {
      DetachFromBufferOwned(st, b);
      SameOwners(DetachFromBuffer(st, b), ApplyDestroyStorage(st, b), None);
    }
  }

  lemma DestroyIfOwned(st: State, r: Option<ReleaseId>)
    requires Owned(st, None)
    ensures Owned(DestroyIf(st, r), None)
    ensures DestroyIf(st, r).surfaces.Keys == st.surfaces.Keys && DestroyIf(st, r).buffers.Keys == st.buffers.Keys
  {
    if r.Some? {
      DestroyOwned(st, r.value);
    }
  }

  lemma CommitBufferOwned(st: State, s: SurfaceId, b: BufferId)
    requires Owned(st, None)
    ensures Owned(ApplyCommitBuffer(st, s, b), None)
  {
    if s in st.surfaces && b in st.buffers {
      CloseFenceOwned(st, s);
      var st1 := CloseFence(st, s);
      DestroyIfOwned(st1, st1.buffers[b]);
      if st1.buffers[b].Some? {
        assert PointsToB(st1, b, st1.buffers[b].value);
      }
      AdoptOwned(DestroyIf(st1, st1.buffers[b]), s, b);
    }
  }

  lemma DestroySurfaceOwned(st: State, s: SurfaceId, pending: Option<BufferId>)
    requires Owned(st, None)
    ensures Owned(ApplyDestroySurface(st, s, pending), None)
  {
    if s in st.surfaces {
      CloseFenceOwned(st, s);
      var st1 := CloseFence(st, s);
      var r := if pending.Some? && pending.value in st1.buffers then st1.buffers[pending.value] else None;
      DestroyIfOwned(st1, r);
      var st2 := DestroyIf(st1, r);
      DestroyIfOwned(st2, st2.surfaces[s].release);
      var st3 := DestroyIf(st2, st2.surfaces[s].release);
      if st2.surfaces[s].release.Some? {
        assert PointsToS(st2, s, st2.surfaces[s].release.value);
      }
      SameOwners(st3, st3.(surfaces := st3.surfaces - {s}), None);
    }
  }

  /** Steps that leave every release pointer alone. */
  lemma QuietOwned(st: State, step: Step)
    requires Owned(st, None)
    requires step.NewSurface? || step.NewBuffer? || step.GetSync? || step.DestroySync? || step.SetFence?
    ensures Owned(Apply(st, step), None)
  {
    SameOwners(st, Apply(st, step), None);
  }

  lemma StepOwned(st: State, step: Step)
    requires Owned(st, None)
    ensures Owned(Apply(st, step), None)
  {
    match step
    case NewSurface(_) => QuietOwned(st, step);
    case NewBuffer(_) => QuietOwned(st, step);
    case GetSync(_) => QuietOwned(st, step);
    case DestroySync(_) => QuietOwned(st, step);
    case SetFence(_, _) => QuietOwned(st, step);
    case GetRelease(s, r) => GetReleaseOwned(st, s, r);
    case CommitBuffer(s, b) => CommitBufferOwned(st, s, b);
    case CommitDetach(s) =>
      if s in st.surfaces {
        CloseFenceOwned(st, s);
        DestroyIfOwned(CloseFence(st, s), st.surfaces[s].release);
      }
    case ReleaseBuffer(b) => ReleaseBufferOwned(st, b);
    case DestroyStorage(b) => DestroyStorageOwned(st, b);
    case DestroyRelease(r) => DestroyOwned(st, r);
    case DestroySurface(s, pending) => DestroySurfaceOwned(st, s, pending);
  }

  /* ---------- fences ---------- */

  predicate Holds(st: State, s: SurfaceId, fd: Fd) {
    s in st.surfaces && st.surfaces[s].fence == Some(fd)
  }

  ghost predicate Held(st: State, fd: Fd) {
    exists s :: Holds(st, s, fd)
  }

  /** Every fd received is held by one surface or closed, once. */
  ghost predicate Fenced(st: State) {
    && (forall s, fd {:trigger Holds(st, s, fd)} :: Holds(st, s, fd) ==>
          fd in st.offered && fd !in st.closed && st.surfaces[s].sync)
    && (forall s, t, fd {:trigger Holds(st, s, fd), Holds(st, t, fd)} :: Holds(st, s, fd) && Holds(st, t, fd) ==> s == t)
    && (forall fd :: fd in st.offered ==> fd in st.closed || Held(st, fd))
    && (forall fd :: fd in st.closed ==> fd in st.offered)
    && NoDup(st.closed)
  }

  /** Release objects do not matter to fences. */
  lemma SameFences(st: State, st': State)
    requires Fenced(st)
    requires forall s, fd :: Holds(st', s, fd) <==> Holds(st, s, fd)
    requires forall s, fd :: Holds(st', s, fd) ==> st'.surfaces[s].sync
    requires st'.offered == st.offered && st'.closed == st.closed
    ensures Fenced(st')
  {
    forall fd | fd in st'.offered && fd !in st'.closed
      ensures Held(st', fd)
    {
      var s :| Holds(st, s, fd);
      assert Holds(st', s, fd);
    }
  }

  predicate SameFenceFields(st: State, st': State) {
    && st'.surfaces.Keys == st.surfaces.Keys && st'.offered == st.offered && st'.closed == st.closed
    && forall s :: s in st.surfaces ==>
         st'.surfaces[s].fence == st.surfaces[s].fence && st'.surfaces[s].sync == st.surfaces[s].sync
  }

  lemma SameFieldsFenced(st: State, st': State)
    requires Fenced(st) && SameFenceFields(st, st')
    ensures Fenced(st')
  {
    forall s, fd | Holds(st', s, fd)
      ensures st'.surfaces[s].sync
    {
      assert Holds(st, s, fd);
    }
    SameFences(st, st');
  }

  lemma DestroyIfSameFences(st: State, r: Option<ReleaseId>)
    ensures SameFenceFields(st, DestroyIf(st, r))
  {
  }

  lemma CloseFenceFenced(st: State, s: SurfaceId)
    requires s in st.surfaces && Fenced(st)
    ensures Fenced(CloseFence(st, s)) && CloseFence(st, s).surfaces[s].fence == None
  {
    var st', x := CloseFence(st, s), st.surfaces[s];
    if x.fence.Some? {
      assert Holds(st, s, x.fence.value);
      forall t, fd | Holds(st', t, fd)
        ensures fd in st'.offered && fd !in st'.closed && st'.surfaces[t].sync && Holds(st, t, fd)
      {
        assert Holds(st, t, fd);
      }
      forall fd | fd in st'.offered && fd !in st'.closed
        ensures Held(st', fd)
      {
        var t :| Holds(st, t, fd);
        assert Holds(st', t, fd);
      }
    }
  }

  lemma SetFenceFenced(st: State, s: SurfaceId, fd: Fd)
    requires Fenced(st)
    ensures Fenced(ApplySetFence(st, s, fd))
  {
    var st' := ApplySetFence(st, s, fd);
    if s in st.surfaces && fd !in st.offered {
      assert fd !in st.closed;
      forall t, f | Holds(st', t, f)
        ensures f in st'.offered && f !in st'.closed && st'.surfaces[t].sync
        ensures (t == s && f == fd) || Holds(st, t, f)
      {
        if !(t == s && st.surfaces[s].sync && st.surfaces[s].fence.None?) {
          assert Holds(st, t, f);
        }
      }
      forall f | f in st'.offered && f !in st'.closed
        ensures Held(st', f)
      {
        if f == fd {
          assert Holds(st', s, fd);
        } else {
          var t :| Holds(st, t, f);
          assert Holds(st', t, f);
        }
      }
    }
  }

  lemma DestroySurfaceFenced(st: State, s: SurfaceId, pending: Option<BufferId>)
    requires Fenced(st) && s in st.surfaces
    ensures Fenced(ApplyDestroySurface(st, s, pending))
    ensures ApplyDestroySurface(st, s, pending).closed
         == st.closed + if st.surfaces[s].fence.Some? then [st.surfaces[s].fence.value] else []
  {
    CloseFenceFenced(st, s);
    var st1 := CloseFence(st, s);
    var r := if pending.Some? && pending.value in st1.buffers then st1.buffers[pending.value] else None;
    DestroyIfSameFences(st1, r);
    var st2 := DestroyIf(st1, r);
    DestroyIfSameFences(st2, st2.surfaces[s].release);
    var st3 := DestroyIf(st2, st2.surfaces[s].release);
    SameFieldsFenced(st1, st3);
    var st4 := st3.(surfaces := st3.surfaces - {s});
    forall t, fd | Holds(st4, t, fd)
      ensures st4.surfaces[t].sync
    {
      assert Holds(st3, t, fd);
    }
    SameFences(st3, st4);
  }

  lemma DestroySyncFenced(st: State, s: SurfaceId)
    requires Fenced(st) && s in st.surfaces
    ensures Fenced(CloseFence(SetSurface(st, s, st.surfaces[s].(sync := false)), s))
  {
    CloseFenceFenced(st, s);
    var st1, st' := CloseFence(st, s), CloseFence(SetSurface(st, s, st.surfaces[s].(sync := false)), s);
    forall t, fd | Holds(st', t, fd)
      ensures st'.surfaces[t].sync
    {
      assert Holds(st1, t, fd);
    }
    SameFences(st1, st');
  }

  lemma CommitDetachFenced(st: State, s: SurfaceId)
    requires Fenced(st) && s in st.surfaces
    ensures Fenced(ApplyCommitDetach(st, s))
  {
    CloseFenceFenced(st, s);
    var st1 := CloseFence(st, s);
    DestroyIfSameFences(st1, st.surfaces[s].release);
    SameFieldsFenced(st1, DestroyIf(st1, st.surfaces[s].release));
  }

  lemma CommitBufferFenced(st: State, s: SurfaceId, b: BufferId)
    requires Fenced(st) && s in st.surfaces && b in st.buffers
    ensures Fenced(ApplyCommitBuffer(st, s, b))
  {
    CloseFenceFenced(st, s);
    var st1 := CloseFence(st, s);
    DestroyIfSameFences(st1, st1.buffers[b]);
    var st2 := DestroyIf(st1, st1.buffers[b]);
    SameFieldsFenced(st1, st2);
    SameFieldsFenced(st2, Adopt(st2, s, b));
  }

  lemma QuietFenced(st: State, step: Step)
    requires Fenced(st) && (step.NewSurface? || step.GetSync?)
    ensures Fenced(Apply(st, step))
  {
    SameFences(st, Apply(st, step));
  }

  /** Steps on buffers and release objects only. */
  lemma UnfencedStep(st: State, step: Step)
    requires Fenced(st)
    requires step.NewBuffer? || step.GetRelease? || step.ReleaseBuffer? || step.DestroyStorage? || step.DestroyRelease?
    ensures Fenced(Apply(st, step))
  {
    SameFieldsFenced(st, Apply(st, step));
  }

  lemma StepFenced(st: State, step: Step)
    requires Fenced(st)
    ensures Fenced(Apply(st, step))
  {
    match step
    case NewSurface(s) => QuietFenced(st, step);
    case GetSync(s) => QuietFenced(st, step);
    case DestroySync(s) =>
      if s in st.surfaces { DestroySyncFenced(st, s); }
    case SetFence(s, fd) => SetFenceFenced(st, s, fd);
    case CommitBuffer(s, b) =>
      if s in st.surfaces && b in st.buffers { CommitBufferFenced(st, s, b); }
    case CommitDetach(s) =>
      if s in st.surfaces { CommitDetachFenced(st, s); }
    case DestroySurface(s, pending) =>
      if s in st.surfaces { DestroySurfaceFenced(st, s, pending); }
    case _ => UnfencedStep(st, step);
  }

  /* ---------- every run ---------- */

  lemma {:induction false} RunKeeps(steps: seq<Step>)
    ensures Owned(Exec(steps), None) && Fenced(Exec(steps))
  {
    if steps != [] {
      RunKeeps(steps[..|steps| - 1]);
      StepOwned(Exec(steps[..|steps| - 1]), steps[|steps| - 1]);
      StepFenced(Exec(steps[..|steps| - 1]), steps[|steps| - 1]);
    }
  }

  /**
    In any order of commits and destructions, a live release object is pointed
    to by exactly one surface or buffer, and its binding names that owner.
   */
  lemma ReleaseHasOneOwner(steps: seq<Step>, r: ReleaseId)
    requires r in Exec(steps).bindings
    ensures var st := Exec(steps); var o := st.bindings[r];
      && (forall s :: PointsToS(st, s, r) <==> o == Binding(Some(s), None))
      && (forall b :: PointsToB(st, b, r) <==> o == Binding(None, Some(b)))
      && (o.surface.Some? <==> o.buffer.None?)
  {
    RunKeeps(steps);
    assert Pointed(Exec(steps), r);
  }

  /** No dangling pointer: whatever a surface or buffer points to is alive. */
  lemma PointersAreLive(steps: seq<Step>, s: SurfaceId, b: BufferId, r: ReleaseId)
    ensures var st := Exec(steps); PointsToS(st, s, r) || PointsToB(st, b, r) ==> r in st.bindings
  {
    RunKeeps(steps);
  }

  /** At most one release event per object, and the object is gone once it is sent. */
  lemma ReleasedOnce(steps: seq<Step>)
    ensures var st := Exec(steps); NoDup(st.released) && forall r :: r in st.released ==> r !in st.bindings
  {
    RunKeeps(steps);
  }

  /** Every fence received is held by exactly one surface, or was closed exactly once. */
  lemma FenceClosedOnce(steps: seq<Step>, fd: Fd)
    requires fd in Exec(steps).offered
    ensures var st := Exec(steps);
      && NoDup(st.closed)
      && (fd in st.closed <==> !Held(st, fd))
      && forall s, t :: Holds(st, s, fd) && Holds(st, t, fd) ==> s == t
  {
    RunKeeps(steps);
  }

  /* ---------- the mutable state ---------- */

  /** The pointers and bindings as the C code changes them; `history` names the run. */
  class SyncObjects {
    var surfaces: map<SurfaceId, Surface>
    var buffers: map<BufferId, Option<ReleaseId>>
    var bindings: map<ReleaseId, Binding>
    var released: seq<ReleaseId>
    var closed: seq<Fd>
    ghost var objects: set<ReleaseId>
    ghost var offered: set<Fd>
    ghost var history: seq<Step>

    ghost function Now(): State
      reads this
    {
      State(surfaces, buffers, bindings, released, objects, closed, offered)
    }

    ghost predicate Valid()
      reads this
    {
      Now() == Exec(history)
    }

    constructor ()
      ensures Valid() && history == []
    {
      surfaces, buffers, bindings, released, closed := map[], map[], map[], [], [];
      objects, offered, history := {}, {}, [];
    }

    lemma Recorded(before: State, steps: seq<Step>, step: Step)
      requires before == Exec(steps) && Now() == Apply(before, step)
      ensures Now() == Exec(steps + [step])
    {
      assert (steps + [step])[..|steps + [step]| - 1] == steps;
    }

    /** wl_resource_destroy(release), with release_destroy as its hook. */
    method DestroyObject(r: ReleaseId)
      modifies this`surfaces, this`buffers, this`bindings
      ensures Now() == Destroy(old(Now()), r)
      ensures surfaces.Keys == old(surfaces).Keys && buffers.Keys == old(buffers).Keys
    {
      if r !in bindings {
        return;
      }
      var binding := bindings[r];
      if binding.surface.Some? && binding.surface.value in surfaces && surfaces[binding.surface.value].release == Some(r) {
        surfaces := surfaces[binding.surface.value := surfaces[binding.surface.value].(release := None)];
      }
      if binding.buffer.Some? && binding.buffer.value in buffers && buffers[binding.buffer.value] == Some(r) {
        buffers := buffers[binding.buffer.value := None];
      }
      bindings := bindings - {r};
    }

    /** close(surface->acquire_fence_fd) where it is set. */
    method CloseSurfaceFence(s: SurfaceId)
      requires s in surfaces
      modifies this`surfaces, this`closed
      ensures Now() == CloseFence(old(Now()), s)
      ensures surfaces.Keys == old(surfaces).Keys
    {
      if surfaces[s].fence.Some? {
        closed := closed + [surfaces[s].fence.value];
        surfaces := surfaces[s := surfaces[s].(fence := None)];
      }
    }

    method OnSetAcquireFence(s: SurfaceId, fd: Fd)
      requires Valid() && s in surfaces && fd !in offered
      modifies this
      ensures Valid() && history == old(history) + [SetFence(s, fd)]
    {
      offered := offered + {fd};
      if !surfaces[s].sync || surfaces[s].fence.Some? {
        closed := closed + [fd];
      } else {
        surfaces := surfaces[s := surfaces[s].(fence := Some(fd))];
      }
      Recorded(old(Now()), history, SetFence(s, fd));
      history := history + [SetFence(s, fd)];
    }

    method OnGetRelease(s: SurfaceId, r: ReleaseId)
      requires Valid() && s in surfaces && r !in objects
      modifies this
      ensures Valid() && history == old(history) + [GetRelease(s, r)]
    {
      if surfaces[s].sync && surfaces[s].release.None? {
        bindings := bindings[r := Binding(Some(s), None)];
        objects := objects + {r};
        surfaces := surfaces[s := surfaces[s].(release := Some(r))];
      }
      Recorded(old(Now()), history, GetRelease(s, r));
      history := history + [GetRelease(s, r)];
    }

    /** The explicit-sync part of a commit that installs buffer b. */
    method OnCommitBuffer(s: SurfaceId, b: BufferId)
      requires Valid() && s in surfaces && b in buffers
      modifies this
      ensures Valid() && history == old(history) + [CommitBuffer(s, b)]
    {
      CloseSurfaceFence(s);
      if buffers[b].Some? {
        DestroyObject(buffers[b].value);
      }
      AdoptRelease(s, b);
      Recorded(old(Now()), history, CommitBuffer(s, b));
      history := history + [CommitBuffer(s, b)];
    }

    method AdoptRelease(s: SurfaceId, b: BufferId)
      requires s in surfaces
      modifies this`surfaces, this`buffers, this`bindings
      ensures Now() == Adopt(old(Now()), s, b)
    {
      var r := surfaces[s].release;
      buffers := buffers[b := r];
      if r.Some? && r.value in bindings {
        bindings := bindings[r.value := Binding(None, Some(b))];
      }
      surfaces := surfaces[s := surfaces[s].(release := None)];
    }

    /** trierarch_explicit_sync_buffer_release */
    method OnReleaseBuffer(b: BufferId)
      requires Valid() && b in buffers
      modifies this
      ensures Valid() && history == old(history) + [ReleaseBuffer(b)]
    {
      if buffers[b].Some? {
        var r := buffers[b].value;
        buffers := buffers[b := None];
        released := released + [r];
        DestroyObject(r);
      }
      Recorded(old(Now()), history, ReleaseBuffer(b));
      history := history + [ReleaseBuffer(b)];
    }

    /** The explicit-sync part of surface_resource_destroy. */
    method OnDestroySurface(s: SurfaceId, pending: Option<BufferId>)
      requires Valid() && s in surfaces && (pending.Some? ==> pending.value in buffers)
      modifies this
      ensures Valid() && history == old(history) + [DestroySurface(s, pending)]
    {
      CloseSurfaceFence(s);
      if pending.Some? && buffers[pending.value].Some? {
        DestroyObject(buffers[pending.value].value);
      }
      if surfaces[s].release.Some? {
        DestroyObject(surfaces[s].release.value);
      }
      surfaces := surfaces - {s};
      Recorded(old(Now()), history, DestroySurface(s, pending));
      history := history + [DestroySurface(s, pending)];
    }
  }
}
