/**
  The requests and frames of the compositor as steps over `BufferLifetime.Host`,
  what every step keeps, and what follows for every run.
 */
module HostSteps {
  import opened Common
  import opened DeferredRelease
  import opened BufferLifetime

  /* ---------- safety of what leaves the compositor ---------- */

  /** GPU work in flight has a fence and only reads buffers still in use. */
  ghost predicate ReadsCovered(h: Host) {
    && (h.gpu.reading != {} ==> h.gpu.fence) && h.gpu.orphaned == {}
    && forall b :: b in h.gpu.reading ==> b in h.buffers && h.buffers[b].busyUsers > 0
  }

  /** A release goes out only when no surface shows the buffer. */
  ghost predicate EventsUnused(h: Host) {
    forall e :: e in h.events && e.Released? ==> e.users == 0
  }

  /** Nothing is released or freed while the GPU still reads it. */
  ghost predicate EventsUnread(h: Host) {
    forall e :: e in h.events ==> !e.read
  }

  ghost predicate SentSafely(h: Host, clean: bool) {
    EventsUnused(h) && (clean ==> ReadsCovered(h) && EventsUnread(h))
  }

  ghost predicate Fine(h: Host, uses: multiset<BufferId>, refs: multiset<BufferId>, clean: bool) {
    Counted(h, uses, refs) && SentSafely(h, clean)
  }

  /** Changes that send nothing and end no use. */
  lemma {:induction false} SilentlySafe(h: Host, h': Host, clean: bool)
    requires SentSafely(h, clean) && h'.events == h.events && h'.gpu == h.gpu
    requires forall b :: b in h.buffers ==> b in h'.buffers && h'.buffers[b].busyUsers >= h.buffers[b].busyUsers
    ensures SentSafely(h', clean)
  {
  }

  /** Keeps `Fine` folded until a proof mentions `Unfold`. */
  predicate Unfold(t: nat) {
    true
  }

  /** `clean`: no hazard so far, see `Hazard`. */
  ghost predicate Good(h: Host, uses: multiset<BufferId>, refs: multiset<BufferId>, clean: bool) {
    forall t {:trigger Unfold(t)} :: Unfold(t) ==> Fine(h, uses, refs, clean)
  }

  ghost function Outstanding(h: Host): multiset<BufferId> {
    multiset(h.enqueued) + h.lost
  }

  predicate SameDeferred(h: Host, h': Host) {
    h'.enqueued == h.enqueued && h'.lost == h.lost
  }

  ghost predicate Invariant(h: Host, clean: bool) {
    Good(h, Outstanding(h), multiset{}, clean)
  }

  lemma UnrefGood(h: Host, uses: multiset<BufferId>, refs: multiset<BufferId>, clean: bool, b: BufferId)
    requires b in refs && Good(h, uses, refs, clean)
    ensures Good(Unref(h, b), uses, refs - multiset{b}, clean)
  {
    assert Unfold(0);
    UnrefCounts(h, uses, refs, b);
    UnrefSafe(h, b, clean);
  }

  /** What is freed is not in use, so in a clean run not being read. */
  lemma {:induction false} UnrefSafe(h: Host, b: BufferId, clean: bool)
    requires SentSafely(h, clean) && b in h.buffers && h.buffers[b].references > 0
    requires b !in Unref(h, b).buffers ==> h.buffers[b].busyUsers == 0
    ensures SentSafely(Unref(h, b), clean)
  {
    if h.buffers[b].references > 1 {
      SilentlySafe(h, Unref(h, b), clean);
    }
  }

  lemma UnrefLastGood(h: Host, uses: multiset<BufferId>, clean: bool, b: BufferId)
    requires Good(h, uses, multiset{b}, clean)
    ensures Good(Unref(h, b), uses, multiset{}, clean)
    ensures SameDeferred(h, Unref(h, b)) && Unref(h, b).surfaces == h.surfaces
  {
    UnrefGood(h, uses, multiset{b}, clean, b);
    assert multiset{b} - multiset{b} == multiset{};
  }

  lemma EndUseGood(h: Host, uses: multiset<BufferId>, refs: multiset<BufferId>, clean: bool, b: BufferId)
    requires b in uses && Good(h, uses, refs, clean)
    requires clean ==> h.gpu.reading == {}
    ensures Good(EndUse(h, b), uses - multiset{b}, refs + multiset{b}, clean)
  {
    assert Unfold(0);
    EndUseCounts(h, uses, refs, b);
    assert BufferCounted(h, uses, refs, b);
    EndUseSafe(h, b, clean);
  }

  lemma {:induction false} EndUseSafe(h: Host, b: BufferId, clean: bool)
    requires SentSafely(h, clean) && b in h.buffers && (clean ==> h.gpu.reading == {})
    requires h.buffers[b].busyUsers == 1 ==> Users(h.surfaces, b) == {}
    ensures SentSafely(EndUse(h, b), clean)
  {
  }

  lemma AddReferenceGood(h: Host, uses: multiset<BufferId>, clean: bool, target: Option<BufferId>)
    requires Good(h, uses, multiset{}, clean)
    requires target.Some? ==> target.value in h.buffers
    ensures Good(if target.Some? then AddReference(h, target.value) else h, uses, RefsOf(target), clean)
  {
    if target.Some? {
      assert Unfold(0);
      AddReferenceCounts(h, uses, target.value);
      SilentlySafe(h, AddReference(h, target.value), clean);
    }
  }

  lemma ReplacePendingGood(h: Host, uses: multiset<BufferId>, clean: bool, s: SurfaceId, target: Option<BufferId>)
    requires s in h.surfaces && Good(h, uses, RefsOf(target), clean)
    ensures Good(SetSurface(h, s, h.surfaces[s].(pending := target)), uses, RefsOf(h.surfaces[s].pending), clean)
  {
    assert Unfold(0);
    ReplacePendingCounts(h, uses, s, target);
    SilentlySafe(h, SetSurface(h, s, h.surfaces[s].(pending := target)), clean);
  }

  lemma FlagGood(h: Host, uses: multiset<BufferId>, refs: multiset<BufferId>, clean: bool, s: SurfaceId, x: Surface)
    requires s in h.surfaces && Good(h, uses, refs, clean)
    requires x.current == h.surfaces[s].current && x.pending == h.surfaces[s].pending
    ensures Good(SetSurface(h, s, x), uses, refs, clean)
  {
    assert Unfold(0);
    FlagCounts(h, uses, refs, s, x);
    SilentlySafe(h, SetSurface(h, s, x), clean);
  }

  lemma DropResourceGood(h: Host, uses: multiset<BufferId>, clean: bool, b: BufferId)
    requires b in h.buffers && h.buffers[b].resource && Good(h, uses, multiset{}, clean)
    ensures Good(DropResource(h, b), uses, multiset{b}, clean)
  {
    assert Unfold(0);
    DropResourceCounts(h, uses, b);
    SilentlySafe(h, DropResource(h, b), clean);
  }

  lemma DropCurrentGood(h: Host, uses: multiset<BufferId>, refs: multiset<BufferId>, clean: bool, s: SurfaceId, b: BufferId)
    requires s in h.surfaces && h.surfaces[s].current == Some(b) && Good(h, uses, refs, clean)
    ensures Good(SetSurface(h, s, h.surfaces[s].(current := None)), uses + multiset{b}, refs, clean)
  {
    assert Unfold(0);
    DropCurrentCounts(h, uses, refs, s, b);
    SilentlySafe(h, SetSurface(h, s, h.surfaces[s].(current := None)), clean);
  }

  /** `Good` does not look at the deferred list itself. */
  lemma DeferredFieldsGood(h: Host, h': Host, uses: multiset<BufferId>, clean: bool)
    requires Good(h, uses, multiset{}, clean)
    requires h' == h.(enqueued := h'.enqueued, lost := h'.lost)
    ensures Good(h', uses, multiset{}, clean)
  {
    assert Unfold(0);
    SameHoldersCounts(h, h', uses, multiset{});
    SilentlySafe(h, h', clean);
  }

  /* ---------- requests ---------- */

  function NewSurface(h: Host, s: SurfaceId): Host {
    if s in h.surfaces then h else SetSurface(h, s, Surface(None, None, false))
  }

  lemma NewSurfaceKeeps(h: Host, s: SurfaceId, clean: bool)
    requires Invariant(h, clean)
    ensures Invariant(NewSurface(h, s), clean)
  {
    if s !in h.surfaces {
      assert Unfold(0);
      AddSurfaceCounts(h, Outstanding(h), s);
    }
  }

  /** A fresh wl_buffer, or the cached wrapper made on the first attach of an EGL buffer. */
  function NewBuffer(h: Host, b: BufferId): Host {
    if b in h.created then h else AddBuffer(h, b)
  }

  lemma NewBufferKeeps(h: Host, b: BufferId, clean: bool)
    requires Invariant(h, clean)
    ensures Invariant(NewBuffer(h, b), clean)
  {
    if b !in h.created {
      assert Unfold(0);
      AddBufferCounts(h, Outstanding(h), b);
    }
  }

  /** wl_buffer destroyed; an EGL wrapper first waits for the frame in flight. */
  function DestroyBuffer(h: Host, b: BufferId, egl: bool, waitOk: bool): Host {
    if b !in h.buffers || !h.buffers[b].resource then h
    else
      var h1 := if egl then WaitIdle(h, waitOk) else h;
      Unref(DropResource(h1, b), b)
  }

  function WaitIdle(h: Host, ok: bool): Host {
    if !h.gpu.fence then h
    else h.(gpu := Gpu(false, if ok then {} else h.gpu.own, h.gpu.orphaned))
  }

  lemma WaitIdleGood(h: Host, uses: multiset<BufferId>, refs: multiset<BufferId>, clean: bool, ok: bool)
    requires Good(h, uses, refs, clean)
    requires clean ==> ok || h.gpu.reading == {}
    ensures Good(WaitIdle(h, ok), uses, refs, clean)
    ensures clean ==> WaitIdle(h, ok).gpu.reading == {}
  {
    assert Unfold(0);
    SameHoldersCounts(h, WaitIdle(h, ok), uses, refs);
    WaitSafe(h, ok, clean);
  }

  lemma {:induction false} WaitSafe(h: Host, ok: bool, clean: bool)
    requires SentSafely(h, clean) && (clean ==> ok || h.gpu.reading == {})
    ensures SentSafely(WaitIdle(h, ok), clean) && (clean ==> WaitIdle(h, ok).gpu.reading == {})
  {
  }

  lemma DestroyBufferKeeps(h: Host, b: BufferId, egl: bool, waitOk: bool, clean: bool)
    requires Invariant(h, clean)
    requires clean && egl && b in h.buffers && h.buffers[b].resource ==> waitOk || h.gpu.reading == {}
    ensures Invariant(DestroyBuffer(h, b, egl, waitOk), clean)
  {
    if b in h.buffers && h.buffers[b].resource {
      var uses := Outstanding(h);
      if egl {
        WaitIdleGood(h, uses, multiset{}, clean, waitOk);
      }
      var h1 := if egl then WaitIdle(h, waitOk) else h;
      DropResourceGood(h1, uses, clean, b);
      UnrefLastGood(DropResource(h1, b), uses, clean, b);
    }
  }

  /** surface_set_pending_buffer: reference the new buffer, then drop the old one. */
  function SetPending(h: Host, s: SurfaceId, target: Option<BufferId>): Host
    requires s in h.surfaces && (target.Some? ==> target.value in h.buffers)
  {
    var old_ := h.surfaces[s].pending;
    if old_ == target then h
    else
      var h1 := if target.Some? then AddReference(h, target.value) else h;
      var h2 := SetSurface(h1, s, h1.surfaces[s].(pending := target));
      if old_.Some? then Unref(h2, old_.value) else h2
  }

  lemma SetPendingKeeps(h: Host, s: SurfaceId, target: Option<BufferId>, clean: bool)
    requires s in h.surfaces && (target.Some? ==> target.value in h.buffers)
    requires Invariant(h, clean)
    ensures Invariant(SetPending(h, s, target), clean)
    ensures s in SetPending(h, s, target).surfaces
  {
    var uses, old_ := Outstanding(h), h.surfaces[s].pending;
    if old_ != target {
      AddReferenceGood(h, uses, clean, target);
      var h1 := if target.Some? then AddReference(h, target.value) else h;
      ReplacePendingGood(h1, uses, clean, s, target);
      if old_.Some? {
        UnrefLastGood(SetSurface(h1, s, h1.surfaces[s].(pending := target)), uses, clean, old_.value);
      }
    }
  }

  /** wl_surface.attach; only a live wl_buffer can be named. */
  function Attach(h: Host, s: SurfaceId, target: Option<BufferId>): Host {
    if s !in h.surfaces || (target.Some? && (target.value !in h.buffers || !h.buffers[target.value].resource)) then h
    else if target.None? then
      var h1 := SetPending(h, s, None);
      SetSurface(h1, s, h1.surfaces[s].(pendingDetach := true))
    else if h.surfaces[s].pending == target then h
    else
      var h1 := SetPending(h, s, target);
      SetSurface(h1, s, h1.surfaces[s].(pendingDetach := false))
  }

  lemma AttachKeeps(h: Host, s: SurfaceId, target: Option<BufferId>, clean: bool)
    requires Invariant(h, clean)
    ensures Invariant(Attach(h, s, target), clean)
  {
    if s in h.surfaces && (target.Some? ==> target.value in h.buffers) {
      SetPendingKeeps(h, s, target, clean);
      var h1 := SetPending(h, s, target);
      FlagGood(h1, Outstanding(h1), multiset{}, clean, s, h1.surfaces[s].(pendingDetach := true));
      FlagGood(h1, Outstanding(h1), multiset{}, clean, s, h1.surfaces[s].(pendingDetach := false));
    }
  }

  function Defer(h: Host, b: BufferId): Host {
    h.(enqueued := h.enqueued + [b])
  }

  /** The buffer part of trierarch_surface_commit. */
  function Commit(h: Host, s: SurfaceId): Host {
    if s !in h.surfaces then h
    else
      var x := h.surfaces[s];
      if x.pending == None && !x.pendingDetach then h
      else if x.pending == x.current then
        var h1 := SetSurface(h, s, Surface(None, x.current, false));
        if x.pending.Some? then Unref(h1, x.pending.value) else h1
      else
        BeginUse(if x.current.Some? then Defer(SetSurface(h, s, x.(current := None)), x.current.value) else h, s)
  }

  lemma BeginUseGood(h: Host, uses: multiset<BufferId>, clean: bool, s: SurfaceId)
    requires s in h.surfaces && h.surfaces[s].current == None && Good(h, uses, multiset{}, clean)
    ensures Good(BeginUse(h, s), uses, multiset{}, clean)
  {
    assert Unfold(0);
    BeginUseCounts(h, uses, s);
    BeginUseKeepsUses(h, s);
    SilentlySafe(h, BeginUse(h, s), clean);
  }

  lemma {:induction false} BeginUseKeepsUses(h: Host, s: SurfaceId)
    requires s in h.surfaces
    ensures BeginUse(h, s).events == h.events && BeginUse(h, s).gpu == h.gpu
    ensures forall b :: b in h.buffers ==>
              b in BeginUse(h, s).buffers && BeginUse(h, s).buffers[b].busyUsers >= h.buffers[b].busyUsers
  {
  }

  lemma CommitSameKeeps(h: Host, s: SurfaceId, clean: bool)
    requires s in h.surfaces && h.surfaces[s].pending == h.surfaces[s].current && Invariant(h, clean)
    requires h.surfaces[s].pending.Some? || h.surfaces[s].pendingDetach
    ensures Invariant(Commit(h, s), clean)
  {
    var x, uses := h.surfaces[s], Outstanding(h);
    var h1 := SetSurface(h, s, x.(pending := None));
    ReplacePendingGood(h, uses, clean, s, None);
    FlagGood(h1, uses, RefsOf(x.pending), clean, s, Surface(None, x.current, false));
    var h2 := SetSurface(h, s, Surface(None, x.current, false));
    assert h2 == SetSurface(h1, s, Surface(None, x.current, false));
    if x.pending.Some? {
      UnrefLastGood(h2, uses, clean, x.pending.value);
    }
  }

  lemma CommitKeeps(h: Host, s: SurfaceId, clean: bool)
    requires Invariant(h, clean)
    ensures Invariant(Commit(h, s), clean)
  {
    if s in h.surfaces && (h.surfaces[s].pending.Some? || h.surfaces[s].pendingDetach) {
      var x, uses := h.surfaces[s], Outstanding(h);
      if x.pending == x.current {
        CommitSameKeeps(h, s, clean);
      } else if x.current.Some? {
        var c := x.current.value;
        DropCurrentGood(h, uses, multiset{}, clean, s, c);
        var h1 := SetSurface(h, s, x.(current := None));
        DeferredFieldsGood(h1, Defer(h1, c), uses + multiset{c}, clean);
        BeginUseGood(Defer(h1, c), uses + multiset{c}, clean, s);
        assert Outstanding(Commit(h, s)) == uses + multiset{c};
      } else {
        BeginUseGood(h, uses, clean, s);
      }
    }
  }

  /* ---------- surface destruction and frames ---------- */

  function EndUseAndUnref(h: Host, b: BufferId): Host {
    Unref(EndUse(h, b), b)
  }

  lemma EndUseAndUnrefGood(h: Host, uses: multiset<BufferId>, clean: bool, b: BufferId)
    requires b in uses && Good(h, uses, multiset{}, clean)
    requires clean ==> h.gpu.reading == {}
    ensures Good(EndUseAndUnref(h, b), uses - multiset{b}, multiset{}, clean)
  {
    EndUseGood(h, uses, multiset{}, clean, b);
    assert multiset{} + multiset{b} == multiset{b};
    UnrefLastGood(EndUse(h, b), uses - multiset{b}, clean, b);
  }

  /** Waits only if there is a current buffer to release. */
  function DestroyCurrent(h: Host, s: SurfaceId, waitOk: bool): Host
    requires s in h.surfaces
  {
    var x := h.surfaces[s];
    if x.current.None? then h
    else EndUseAndUnref(WaitIdle(SetSurface(h, s, x.(current := None)), waitOk), x.current.value)
  }

  function DestroyPending(h: Host, s: SurfaceId): Host
    requires s in h.surfaces
  {
    var x := h.surfaces[s];
    var h1 := SetSurface(h, s, x.(pending := None));
    if x.pending.Some? then Unref(h1, x.pending.value) else h1
  }

  function DestroySurface(h: Host, s: SurfaceId, waitOk: bool): Host {
    if s !in h.surfaces then h
    else
      var h2 := DestroyPending(DestroyCurrent(h, s, waitOk), s);
      h2.(surfaces := h2.surfaces - {s})
  }

  lemma DestroyCurrentGood(h: Host, uses: multiset<BufferId>, clean: bool, s: SurfaceId, waitOk: bool)
    requires s in h.surfaces && Good(h, uses, multiset{}, clean)
    requires clean && h.surfaces[s].current.Some? ==> waitOk || h.gpu.reading == {}
    ensures Good(DestroyCurrent(h, s, waitOk), uses, multiset{}, clean)
    ensures SameDeferred(h, DestroyCurrent(h, s, waitOk))
    ensures DestroyCurrent(h, s, waitOk).surfaces == h.surfaces[s := h.surfaces[s].(current := None)]
  {
    var x := h.surfaces[s];
    if x.current.Some? {
      var c := x.current.value;
      DropCurrentGood(h, uses, multiset{}, clean, s, c);
      var h1 := SetSurface(h, s, x.(current := None));
      WaitIdleGood(h1, uses + multiset{c}, multiset{}, clean, waitOk);
      EndUseAndUnrefGood(WaitIdle(h1, waitOk), uses + multiset{c}, clean, c);
      assert uses + multiset{c} - multiset{c} == uses;
    }
  }

  lemma DestroyPendingGood(h: Host, uses: multiset<BufferId>, clean: bool, s: SurfaceId)
    requires s in h.surfaces && Good(h, uses, multiset{}, clean)
    ensures Good(DestroyPending(h, s), uses, multiset{}, clean)
    ensures SameDeferred(h, DestroyPending(h, s))
    ensures DestroyPending(h, s).surfaces == h.surfaces[s := h.surfaces[s].(pending := None)]
  {
    ReplacePendingGood(h, uses, clean, s, None);
    if h.surfaces[s].pending.Some? {
      UnrefLastGood(SetSurface(h, s, h.surfaces[s].(pending := None)), uses, clean, h.surfaces[s].pending.value);
    }
  }

  lemma RemoveSurfaceGood(h: Host, uses: multiset<BufferId>, clean: bool, s: SurfaceId)
    requires s in h.surfaces && h.surfaces[s].current == None && h.surfaces[s].pending == None
    requires Good(h, uses, multiset{}, clean)
    ensures Good(h.(surfaces := h.surfaces - {s}), uses, multiset{}, clean)
  {
    assert Unfold(0);
    RemoveSurfaceCounts(h, uses, s);
  }

  lemma DestroySurfaceKeeps(h: Host, s: SurfaceId, waitOk: bool, clean: bool)
    requires Invariant(h, clean)
    requires clean && s in h.surfaces && h.surfaces[s].current.Some? ==> waitOk || h.gpu.reading == {}
    ensures Invariant(DestroySurface(h, s, waitOk), clean)
  {
    if s in h.surfaces {
      var uses := Outstanding(h);
      DestroyCurrentGood(h, uses, clean, s, waitOk);
      var h1 := DestroyCurrent(h, s, waitOk);
      assert h1.surfaces[s].current == None;
      DestroyPendingGood(h1, uses, clean, s);
      RemoveSurfaceGood(DestroyPending(h1, s), uses, clean, s);
    }
  }

  function FlushEntries(h: Host, entries: seq<BufferId>): Host
    decreases entries
  {
    if entries == [] then h else FlushEntries(EndUseAndUnref(h, entries[0]), entries[1..])
  }

  lemma {:induction false} FlushEntriesFrame(h: Host, entries: seq<BufferId>)
    ensures SameDeferred(h, FlushEntries(h, entries))
    ensures FlushEntries(h, entries).surfaces == h.surfaces && FlushEntries(h, entries).gpu == h.gpu
    decreases entries
  {
    if entries != [] {
      FlushEntriesFrame(EndUseAndUnref(h, entries[0]), entries[1..]);
    }
  }

  lemma {:induction false} FlushEntriesGood(h: Host, uses: multiset<BufferId>, clean: bool, entries: seq<BufferId>)
    requires Good(h, uses + multiset(entries), multiset{}, clean)
    requires clean ==> h.gpu.reading == {}
    ensures Good(FlushEntries(h, entries), uses, multiset{}, clean)
    decreases entries
  {
    if entries == [] {
      assert uses + multiset(entries) == uses;
    } else {
      assert entries == [entries[0]] + entries[1..];
      EndUseAndUnrefGood(h, uses + multiset(entries), clean, entries[0]);
      assert uses + multiset(entries) - multiset{entries[0]} == uses + multiset(entries[1..]);
      FlushEntriesGood(EndUseAndUnref(h, entries[0]), uses, clean, entries[1..]);
    }
  }

  function Missed(enqueued: seq<BufferId>): multiset<BufferId> {
    multiset(enqueued) - multiset(Visited(enqueued))
  }

  function Flush(h: Host): Host {
    FlushEntries(h.(enqueued := [], lost := h.lost + Missed(h.enqueued)), Visited(h.enqueued))
  }

  lemma FlushKeeps(h: Host, clean: bool)
    requires Invariant(h, clean)
    requires clean ==> h.gpu.reading == {}
    ensures Invariant(Flush(h), clean)
    ensures Flush(h).surfaces == h.surfaces && Flush(h).gpu == h.gpu
    ensures Flush(h).enqueued == [] && Flush(h).lost == h.lost + Missed(h.enqueued)
  {
    var entries, lost := Visited(h.enqueued), h.lost + Missed(h.enqueued);
    VisitedAtMostEnqueued(h.enqueued);
    assert Outstanding(h) == lost + multiset(entries);
    var h1 := h.(enqueued := [], lost := lost);
    assert Good(h1, lost + multiset(entries), multiset{}, clean) by {
      DeferredFieldsGood(h, h1, lost + multiset(entries), clean);
    }
    FlushEntriesGood(h1, lost, clean, entries);
    FlushEntriesFrame(h1, entries);
    assert Outstanding(FlushEntries(h1, entries)) == lost;
  }

  /** Result of one composition, as trierarch_renderer_render meets it. */
  datatype Outcome =
    | NotCurrent                     // eglMakeCurrent failed, nothing was drawn
    | SwapFailed(outstanding: bool)  // the draws may or may not still execute
    | Swapped(fenced: bool)          // a fence was inserted, or glFinish ran

  function ShownBy(surfaces: map<SurfaceId, Surface>, drawn: set<SurfaceId>): set<BufferId> {
    set s | s in drawn && s in surfaces && surfaces[s].current.Some? :: surfaces[s].current.value
  }

  function Shown(h: Host, drawn: set<SurfaceId>): set<BufferId> {
    ShownBy(h.surfaces, drawn)
  }

  function Draw(h: Host, drawn: set<SurfaceId>, outcome: Outcome): Host {
    var own := h.gpu.own + Shown(h, drawn);
    match outcome
    case NotCurrent => h
    case SwapFailed(outstanding) => if outstanding then h.(gpu := h.gpu.(own := own)) else h
    case Swapped(fenced) => h.(gpu := if fenced then h.gpu.(fence := true, own := own) else h.gpu.(own := {}))
  }

  function Render(h: Host, drawn: set<SurfaceId>, waitOk: bool, outcome: Outcome): Host {
    Draw(Flush(WaitIdle(h, waitOk)), drawn, outcome)
  }

  lemma DrawKeeps(h: Host, drawn: set<SurfaceId>, outcome: Outcome, clean: bool)
    requires Invariant(h, clean)
    requires clean ==> h.gpu.reading == {} && !(outcome.SwapFailed? && outcome.outstanding)
    ensures Invariant(Draw(h, drawn, outcome), clean)
  {
    assert Unfold(0);
    SameHoldersCounts(h, Draw(h, drawn, outcome), Outstanding(h), multiset{});
    forall b | b in Shown(h, drawn)
      ensures b in h.buffers && h.buffers[b].busyUsers > 0
    {
      ShownIsUsed(h, drawn, b);
    }
    DrawSafe(h, drawn, outcome, clean);
  }

  lemma {:induction false} DrawSafe(h: Host, drawn: set<SurfaceId>, outcome: Outcome, clean: bool)
    requires SentSafely(h, clean) && forall b :: b in Shown(h, drawn) ==> b in h.buffers && h.buffers[b].busyUsers > 0
    requires clean ==> h.gpu.reading == {} && !(outcome.SwapFailed? && outcome.outstanding)
    ensures SentSafely(Draw(h, drawn, outcome), clean)
  {
  }

  lemma ShownIsUsed(h: Host, drawn: set<SurfaceId>, b: BufferId)
    requires b in Shown(h, drawn) && Counted(h, Outstanding(h), multiset{})
    ensures b in h.buffers && h.buffers[b].busyUsers > 0
  {
    var s :| s in drawn && s in h.surfaces && h.surfaces[s].current == Some(b);
    assert BufferCounted(h, Outstanding(h), multiset{}, b);
    assert s in Users(h.surfaces, b);
  }

  lemma RenderKeeps(h: Host, drawn: set<SurfaceId>, waitOk: bool, outcome: Outcome, clean: bool)
    requires Invariant(h, clean)
    requires clean ==> (waitOk || h.gpu.reading == {}) && !(outcome.SwapFailed? && outcome.outstanding)
    ensures Invariant(Render(h, drawn, waitOk, outcome), clean)
  {
    WaitIdleGood(h, Outstanding(h), multiset{}, clean, waitOk);
    FlushKeeps(WaitIdle(h, waitOk), clean);
    DrawKeeps(Flush(WaitIdle(h, waitOk)), drawn, outcome, clean);
  }

  /** The renderer goes away with its fence and its context; nobody waits for it, and nobody can any more. */
  function DestroyRenderer(h: Host): Host {
    h.(gpu := Gpu(false, {}, h.gpu.own + h.gpu.orphaned))
  }

  lemma DestroyRendererKeeps(h: Host, clean: bool)
    requires Invariant(h, clean)
    requires clean ==> h.gpu.reading == {}
    ensures Invariant(DestroyRenderer(h), clean)
  {
    assert Unfold(0);
    SameHoldersCounts(h, DestroyRenderer(h), Outstanding(h), multiset{});
  }
}
