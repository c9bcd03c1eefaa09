/**
  What the compositor sends and frees: for each buffer exactly one release when
  its last use ends and one free when its last holder goes, in every run.
 */
module ReleaseNotices {
  import opened Common
  import opened DeferredRelease
  import opened BufferLifetime
  import opened HostSteps
  import opened HostRuns
  import opened PrematureReleases
  import opened ShownContent

  datatype Notice = Release(onWire: bool) | Free

  function NoticeOf(e: Event, b: BufferId): seq<Notice> {
    if e.buffer != b then [] else if e.Released? then [Release(e.onWire)] else [Free]
  }

  function NoticesOf(events: seq<Event>, b: BufferId): seq<Notice> {
    if events == [] then [] else NoticesOf(events[..|events| - 1], b) + NoticeOf(events[|events| - 1], b)
  }

  lemma {:induction false} OneMoreEvent(events: seq<Event>, e: Event, b: BufferId)
    ensures NoticesOf(events + [e], b) == NoticesOf(events, b) + NoticeOf(e, b)
  {
    assert (events + [e])[..|events + [e]| - 1] == events;
  }

  /** What is due when a buffer goes from x to y. */
  function Due(x: Option<Buffer>, y: Option<Buffer>): seq<Notice> {
    if x.None? then []
    else if y.None? then (if x.value.busyUsers > 0 then [Release(x.value.resource), Free] else [Free])
    else if x.value.busyUsers > 0 && y.value.busyUsers == 0 then [Release(x.value.resource)]
    else []
  }

  /** Uses only end. */
  predicate Down(x: Option<Buffer>, y: Option<Buffer>) {
    y.Some? ==> x.Some? && y.value.busyUsers <= x.value.busyUsers && y.value.resource == x.value.resource
  }

  lemma DueInTwo(x: Option<Buffer>, y: Option<Buffer>, z: Option<Buffer>)
    requires Down(x, y) && Down(y, z)
    ensures Due(x, z) == Due(x, y) + Due(y, z) && Down(x, z)
  {
    if y.None? {
      assert Due(x, y) + [] == Due(x, y);
    }
  }

  ghost predicate Notified(h: Host, h': Host, b: BufferId) {
    NoticesOf(h'.events, b) == NoticesOf(h.events, b) + Due(At(h.buffers, b), At(h'.buffers, b))
  }

  ghost predicate NotifiedDown(h: Host, h': Host, b: BufferId) {
    Notified(h, h', b) && Down(At(h.buffers, b), At(h'.buffers, b))
  }

  lemma {:induction false} NotifiedInTwo(h: Host, h1: Host, h2: Host, b: BufferId)
    requires NotifiedDown(h, h1, b) && NotifiedDown(h1, h2, b)
    ensures NotifiedDown(h, h2, b)
  {
    DueInTwo(At(h.buffers, b), At(h1.buffers, b), At(h2.buffers, b));
    ConcatAssoc(NoticesOf(h.events, b), Due(At(h.buffers, b), At(h1.buffers, b)), Due(At(h1.buffers, b), At(h2.buffers, b)));
  }

  lemma {:induction false} UntouchedNotified(h: Host, h': Host, b: BufferId)
    requires NoticesOf(h'.events, b) == NoticesOf(h.events, b) && At(h'.buffers, b) == At(h.buffers, b)
    ensures NotifiedDown(h, h', b)
  {
    assert NoticesOf(h.events, b) + [] == NoticesOf(h.events, b);
  }

  lemma {:induction false} SameNotified(h: Host, h': Host, b: BufferId)
    requires h'.events == h.events && h'.buffers == h.buffers
    ensures NotifiedDown(h, h', b)
  {
    UntouchedNotified(h, h', b);
  }

  /* ---------- primitive operations ---------- */

  lemma {:induction false} UnrefNotifies(h: Host, c: BufferId, b: BufferId)
    requires c in h.buffers && h.buffers[c].busyUsers < h.buffers[c].references
    ensures NotifiedDown(h, Unref(h, c), b)
  {
    if h.buffers[c].references > 1 {
      UnrefKeeps(h, c, b);
    } else {
      UnrefFrees(h, c, b);
    }
  }

  lemma {:induction false} UnrefKeeps(h: Host, c: BufferId, b: BufferId)
    requires c in h.buffers && h.buffers[c].references > 1
    ensures NotifiedDown(h, Unref(h, c), b)
  {
    var n := NoticesOf(h.events, b);
    assert n + [] == n;
  }

  lemma {:induction false} UnrefFrees(h: Host, c: BufferId, b: BufferId)
    requires c in h.buffers && h.buffers[c].references == 1 && h.buffers[c].busyUsers == 0
    ensures NotifiedDown(h, Unref(h, c), b)
  {
    FreedNotified(h, Unref(h, c), c, Freed(c, c in h.gpu.reading), b);
  }

  lemma {:induction false} FreedNotified(h: Host, h': Host, c: BufferId, e: Event, b: BufferId)
    requires c in h.buffers && h.buffers[c].busyUsers == 0 && e.Freed? && e.buffer == c
    requires h'.events == h.events + [e] && h'.buffers == h.buffers - {c}
    ensures NotifiedDown(h, h', b)
  {
    OneMoreEvent(h.events, e, b);
    if b != c {
      assert NoticesOf(h.events, b) + [] == NoticesOf(h.events, b);
      UntouchedNotified(h, h', b);
    }
  }

  lemma {:induction false} EndUseNotifies(h: Host, c: BufferId, b: BufferId)
    requires c in h.buffers && h.buffers[c].busyUsers > 0
    ensures NotifiedDown(h, EndUse(h, c), b)
  {
    OneMoreEvent(h.events, Released(c, h.buffers[c].resource, |Users(h.surfaces, c)|, c in h.gpu.reading), b);
    var n := NoticesOf(h.events, b);
    assert n + [] == n;
  }

  lemma {:induction false} EndUseAndUnrefNotifies(h: Host, c: BufferId, b: BufferId)
    requires c in h.buffers && 0 < h.buffers[c].busyUsers <= h.buffers[c].references
    ensures NotifiedDown(h, EndUseAndUnref(h, c), b)
  {
    EndUseNotifies(h, c, b);
    UnrefNotifies(EndUse(h, c), c, b);
    NotifiedInTwo(h, EndUse(h, c), EndUseAndUnref(h, c), b);
  }

  lemma {:induction false} FlushNotifies(h: Host, entries: seq<BufferId>, b: BufferId)
    requires Enough(h, entries)
    ensures NotifiedDown(h, FlushEntries(h, entries), b)
    decreases entries
  {
    if entries == [] {
      SameNotified(h, h, b);
    } else {
      var c, rest, h1 := entries[0], entries[1..], EndUseAndUnref(h, entries[0]);
      assert EnoughFor(h, entries, c);
      CountRest(entries, c);
      EndUseAndUnrefNotifies(h, c, b);
      forall d
        ensures EnoughFor(h1, rest, d)
      {
        assert EnoughFor(h, entries, d);
        AfterFirst(h, entries, d);
      }
      FlushNotifies(h1, rest, b);
      NotifiedInTwo(h, h1, FlushEntries(h1, rest), b);
    }
  }

  /* ---------- steps ---------- */

  lemma {:induction false} FrameNotifies(h: Host, drawn: set<SurfaceId>, waitOk: bool, outcome: Outcome, b: BufferId)
    requires Invariant(h, false)
    ensures Notified(h, Render(h, drawn, waitOk, outcome), b)
  {
    var h1, entries := FlushStart(h, waitOk), Visited(h.enqueued);
    forall c
      ensures EnoughFor(h1, entries, c)
    {
      FlushEnough(h, c);
    }
    FlushNotifies(h1, entries, b);
    DrawTouchesNothing(h, drawn, waitOk, outcome, FlushEntries(h1, entries));
    SameDue(h, h1, FlushEntries(h1, entries), Render(h, drawn, waitOk, outcome), b);
  }

  lemma {:induction false} DrawTouchesNothing(h: Host, drawn: set<SurfaceId>, waitOk: bool, outcome: Outcome, flushed: Host)
    requires flushed == FlushEntries(FlushStart(h, waitOk), Visited(h.enqueued))
    ensures Render(h, drawn, waitOk, outcome).events == flushed.events && Render(h, drawn, waitOk, outcome).buffers == flushed.buffers
    ensures FlushStart(h, waitOk).events == h.events && FlushStart(h, waitOk).buffers == h.buffers
  {
    RenderIs(h, drawn, waitOk, outcome);
    DrawIsSilent(flushed, drawn, outcome);
  }

  lemma {:induction false} RenderIs(h: Host, drawn: set<SurfaceId>, waitOk: bool, outcome: Outcome)
    ensures Render(h, drawn, waitOk, outcome) == Draw(FlushEntries(FlushStart(h, waitOk), Visited(h.enqueued)), drawn, outcome)
  {
  }

  lemma {:induction false} DrawIsSilent(h: Host, drawn: set<SurfaceId>, outcome: Outcome)
    ensures Draw(h, drawn, outcome).events == h.events && Draw(h, drawn, outcome).buffers == h.buffers
  {
  }

  lemma {:induction false} SameDue(h: Host, h1: Host, h2: Host, h': Host, b: BufferId)
    requires Notified(h1, h2, b) && h1.events == h.events && h1.buffers == h.buffers
    requires h'.events == h2.events && h'.buffers == h2.buffers
    ensures Notified(h, h', b)
  {
  }

  lemma {:induction false} AttachNotifies(h: Host, s: SurfaceId, target: Option<BufferId>, b: BufferId)
    requires Invariant(h, false)
    ensures Notified(h, Attach(h, s, target), b)
  {
    if Attaches(h, AttachTo(s, target), s, target) {
      SetPendingNotifies(h, s, target, b);
      AttachIsSetPending(h, s, target);
      SameDue(h, h, SetPending(h, s, target), Attach(h, s, target), b);
    } else {
      SameNotified(h, h, b);
    }
  }

  lemma {:induction false} AttachIsSetPending(h: Host, s: SurfaceId, target: Option<BufferId>)
    requires Attaches(h, AttachTo(s, target), s, target)
    ensures var h', h1 := Attach(h, s, target), SetPending(h, s, target); h'.events == h1.events && h'.buffers == h1.buffers
  {
  }

  lemma {:induction false} SetPendingNotifies(h: Host, s: SurfaceId, target: Option<BufferId>, b: BufferId)
    requires Invariant(h, false) && Attaches(h, AttachTo(s, target), s, target)
    ensures Notified(h, SetPending(h, s, target), b)
  {
    var p := h.surfaces[s].pending;
    if p == target {
      SameNotified(h, h, b);
    } else {
      var h1 := if target.Some? then AddReference(h, target.value) else h;
      var h2 := SetSurface(h1, s, h1.surfaces[s].(pending := target));
      ReferenceNotifies(h, h2, target, b);
      if p.Some? {
        WaiterCounts(h, s);
        UnrefNotifies(h2, p.value, b);
        NotifiedInTwo(h, h2, Unref(h2, p.value), b);
      }
    }
  }

  /** One more reference is no news. */
  lemma {:induction false} ReferenceNotifies(h: Host, h': Host, target: Option<BufferId>, b: BufferId)
    requires target.Some? ==> target.value in h.buffers
    requires h'.events == h.events
    requires h'.buffers == (if target.Some? then AddReference(h, target.value) else h).buffers
    ensures NotifiedDown(h, h', b)
  {
    assert NoticesOf(h.events, b) + [] == NoticesOf(h.events, b);
  }

  /** An attached buffer has more references than uses. */
  lemma {:induction false} WaiterCounts(h: Host, s: SurfaceId)
    requires Invariant(h, false) && s in h.surfaces
    ensures h.surfaces[s].pending.Some? ==>
      var p := h.surfaces[s].pending.value;
      && p in h.buffers && h.buffers[p].busyUsers < h.buffers[p].references
      && (h.buffers[p].resource ==> h.buffers[p].busyUsers + 1 < h.buffers[p].references)
  {
    assert Unfold(0);
    if h.surfaces[s].pending.Some? {
      CountsOf(h, h.surfaces[s].pending.value);
      NonEmpty(Waiters(h.surfaces, h.surfaces[s].pending.value), s);
    }
  }

  lemma {:induction false} CommitNotifies(h: Host, s: SurfaceId, b: BufferId)
    requires Invariant(h, false)
    ensures Notified(h, Commit(h, s), b)
  {
    if s in h.surfaces {
      var x := h.surfaces[s];
      WaiterCounts(h, s);
      SurfaceCounts(h, s);
      if HasNews(x) && x.pending == x.current && x.pending.Some? {
        UnrefNotifies(SetSurface(h, s, Surface(None, x.current, false)), x.pending.value, b);
      }
    }
  }

  lemma {:induction false} CurrentNotifies(h: Host, s: SurfaceId, waitOk: bool, b: BufferId)
    requires Invariant(h, false) && s in h.surfaces
    ensures NotifiedDown(h, DestroyCurrent(h, s, waitOk), b)
  {
    var x := h.surfaces[s];
    if x.current.Some? {
      SurfaceCounts(h, s);
      EndUseAndUnrefNotifies(WaitIdle(SetSurface(h, s, x.(current := None)), waitOk), x.current.value, b);
    } else {
      SameNotified(h, h, b);
    }
  }

  lemma {:induction false} PendingNotifies(h: Host, s: SurfaceId, b: BufferId)
    requires s in h.surfaces
    requires h.surfaces[s].pending.Some? ==>
      h.surfaces[s].pending.value in h.buffers && h.buffers[h.surfaces[s].pending.value].busyUsers < h.buffers[h.surfaces[s].pending.value].references
    ensures NotifiedDown(h, DestroyPending(h, s), b)
  {
    var h1 := SetSurface(h, s, h.surfaces[s].(pending := None));
    if h.surfaces[s].pending.Some? {
      UnrefNotifies(h1, h.surfaces[s].pending.value, b);
    } else {
      SameNotified(h, h1, b);
    }
  }

  /** The pending buffer is untouched by the end of the current one, or has lost one use and one reference. */
  lemma {:induction false} PendingAfterCurrent(h: Host, s: SurfaceId, waitOk: bool)
    requires Invariant(h, false) && s in h.surfaces && h.surfaces[s].pending.Some?
    ensures var h1, p := DestroyCurrent(h, s, waitOk), h.surfaces[s].pending.value;
      && s in h1.surfaces && h1.surfaces[s].pending == Some(p)
      && p in h1.buffers && h1.buffers[p].busyUsers < h1.buffers[p].references
  {
    SurfaceCounts(h, s);
    WaiterCounts(h, s);
  }

  lemma {:induction false} SurfaceNotifies(h: Host, s: SurfaceId, waitOk: bool, b: BufferId)
    requires Invariant(h, false)
    ensures Notified(h, DestroySurface(h, s, waitOk), b)
  {
    if s in h.surfaces {
      var h1 := DestroyCurrent(h, s, waitOk);
      CurrentNotifies(h, s, waitOk, b);
      CurrentGone(h, s, waitOk);
      if h.surfaces[s].pending.Some? {
        PendingAfterCurrent(h, s, waitOk);
      }
      PendingNotifies(h1, s, b);
      NotifiedInTwo(h, h1, DestroyPending(h1, s), b);
    }
  }

  lemma {:induction false} BufferNotifies(h: Host, c: BufferId, egl: bool, waitOk: bool, b: BufferId)
    requires Invariant(h, false)
    ensures Notified(h, DestroyBuffer(h, c, egl, waitOk), b)
  {
    if c in h.buffers && h.buffers[c].resource {
      var h1 := if egl then WaitIdle(h, waitOk) else h;
      CountsOf(h, c);
      ResourceDropped(h1, c, b);
      SameDue(h, h1, DestroyBuffer(h, c, egl, waitOk), DestroyBuffer(h, c, egl, waitOk), b);
    } else {
      SameNotified(h, h, b);
    }
  }

  /** Without its resource a buffer in use stays, and an unused one goes silently. */
  lemma {:induction false} ResourceDropped(h: Host, c: BufferId, b: BufferId)
    requires c in h.buffers && h.buffers[c].busyUsers < h.buffers[c].references
    ensures Notified(h, Unref(DropResource(h, c), c), b)
  {
    UnrefNotifies(DropResource(h, c), c, b);
  }

  lemma {:induction false} NewNotifies(h: Host, step: Step, b: BufferId)
    requires Invariant(h, false) && (step.CreateSurface? || step.CreateBuffer? || step.RendererGone?)
    ensures Notified(h, Apply(h, step), b)
  {
    match step
    case CreateBuffer(c) => MadeNotifies(h, c, b);
    case _ => SilentNotifies(h, step, b);
  }

  lemma {:induction false} SilentNotifies(h: Host, step: Step, b: BufferId)
    requires step.CreateSurface? || step.RendererGone?
    ensures Notified(h, Apply(h, step), b)
  {
    SameNotified(h, Apply(h, step), b);
  }

  lemma {:induction false} MadeNotifies(h: Host, c: BufferId, b: BufferId)
    requires Invariant(h, false)
    ensures Notified(h, NewBuffer(h, c), b)
  {
    assert Unfold(0);
    if b != c || c in h.created {
      UntouchedNotified(h, NewBuffer(h, c), b);
    } else {
      assert NoticesOf(h.events, b) + [] == NoticesOf(h.events, b);
    }
  }

  lemma {:induction false} StepNotifies(h: Host, step: Step, b: BufferId)
    requires Invariant(h, false)
    ensures Notified(h, Apply(h, step), b)
  {
    match step
    case AttachTo(s, target) => AttachNotifies(h, s, target, b);
    case CommitOn(s) => CommitNotifies(h, s, b);
    case SurfaceGone(s, waitOk) => SurfaceNotifies(h, s, waitOk, b);
    case BufferGone(c, egl, waitOk) => BufferNotifies(h, c, egl, waitOk, b);
    case Frame(drawn, waitOk, outcome) => FrameNotifies(h, drawn, waitOk, outcome, b);
    case _ => NewNotifies(h, step, b);
  }

  predicate HasResource(h: Host, b: BufferId) {
    b in h.buffers && h.buffers[b].resource
  }

  /**
    In every run each step releases a buffer, once, exactly if it ends the last
    use of it, on the wire exactly if the wl_buffer is alive, and frees it
    exactly if it takes the last holder away.
   */
  lemma {:induction false} ReleasedAtLastUse(steps: seq<Step>, step: Step, b: BufferId)
    ensures var h, h' := Exec(steps), Exec(steps + [step]);
      NoticesOf(h'.events, b)
      == NoticesOf(h.events, b)
         + (if Uses(h, b) > 0 && Uses(h', b) == 0 then [Release(HasResource(h, b))] else [])
         + (if Holders(h, b) > 0 && Holders(h', b) == 0 then [Free] else [])
  {
    var h, h' := Exec(steps), Exec(steps + [step]);
    RunNotifies(steps, step, b);
    CountsAreHolders(steps, b);
    CountsAreHolders(steps + [step], b);
    DueByHolders(At(h.buffers, b), At(h'.buffers, b), Uses(h, b), Uses(h', b), Holders(h, b), Holders(h', b));
    ConcatAssoc(NoticesOf(h.events, b),
                if Uses(h, b) > 0 && Uses(h', b) == 0 then [Release(HasResource(h, b))] else [],
                if Holders(h, b) > 0 && Holders(h', b) == 0 then [Free] else []);
  }

  lemma {:induction false} RunNotifies(steps: seq<Step>, step: Step, b: BufferId)
    ensures Notified(Exec(steps), Exec(steps + [step]), b)
  {
    ExecAppend(steps, step);
    RunKeeps(steps);
    Weaken(Exec(steps), Clean(steps));
    StepNotifies(Exec(steps), step, b);
  }

  /** What is due, in terms of holders instead of counters. */
  lemma {:induction false} DueByHolders(x: Option<Buffer>, y: Option<Buffer>, uses: nat, uses': nat, holders: nat, holders': nat)
    requires (x.Some? <==> holders > 0) && (if x.Some? then x.value.busyUsers == uses else uses == 0)
    requires (y.Some? <==> holders' > 0) && (if y.Some? then y.value.busyUsers == uses' else uses' == 0)
    ensures Due(x, y) == (if uses > 0 && uses' == 0 then [Release(x.Some? && x.value.resource)] else [])
                         + (if holders > 0 && holders' == 0 then [Free] else [])
  {
  }

  /* ---------- how long a wl_buffer lives ---------- */

  /** The resource is a holder besides the uses. */
  lemma {:induction false} ResourceHolds(h: Host, b: BufferId)
    requires Invariant(h, false) && HasResource(h, b)
    ensures h.buffers[b].busyUsers < h.buffers[b].references
  {
    CountsOf(h, b);
  }

  lemma {:induction false} AttachKeepsResource(h: Host, s: SurfaceId, target: Option<BufferId>, b: BufferId)
    requires Invariant(h, false)
    ensures HasResource(Attach(h, s, target), b) <==> HasResource(h, b)
  {
    if s in h.surfaces {
      WaiterCounts(h, s);
    }
  }

  lemma {:induction false} CommitKeepsResource(h: Host, s: SurfaceId, b: BufferId)
    requires Invariant(h, false)
    ensures HasResource(Commit(h, s), b) <==> HasResource(h, b)
  {
    if s in h.surfaces {
      WaiterCounts(h, s);
    }
  }

  lemma {:induction false} CurrentKeepsResource(h: Host, s: SurfaceId, waitOk: bool, b: BufferId)
    requires Invariant(h, false) && s in h.surfaces
    ensures var h1 := DestroyCurrent(h, s, waitOk);
      && (HasResource(h1, b) <==> HasResource(h, b))
      && (HasResource(h, b) && h.surfaces[s].pending == Some(b) ==> h1.buffers[b].references > 1)
  {
    SurfaceCounts(h, s);
    WaiterCounts(h, s);
    if HasResource(h, b) {
      ResourceHolds(h, b);
    }
  }

  lemma {:induction false} PendingKeepsResource(h: Host, s: SurfaceId, b: BufferId)
    requires s in h.surfaces && (HasResource(h, b) && h.surfaces[s].pending == Some(b) ==> h.buffers[b].references > 1)
    ensures HasResource(DestroyPending(h, s), b) <==> HasResource(h, b)
  {
  }

  lemma {:induction false} SurfaceKeepsResource(h: Host, s: SurfaceId, waitOk: bool, b: BufferId)
    requires Invariant(h, false)
    ensures HasResource(DestroySurface(h, s, waitOk), b) <==> HasResource(h, b)
  {
    if s in h.surfaces {
      CurrentGone(h, s, waitOk);
      CurrentKeepsResource(h, s, waitOk, b);
      PendingKeepsResource(DestroyCurrent(h, s, waitOk), s, b);
    }
  }

  lemma {:induction false} FrameKeepsResource(h: Host, drawn: set<SurfaceId>, waitOk: bool, outcome: Outcome, b: BufferId)
    requires Invariant(h, false)
    ensures HasResource(Render(h, drawn, waitOk, outcome), b) <==> HasResource(h, b)
  {
    var h1 := FlushStart(h, waitOk);
    var entries: seq<BufferId> := Visited(h.enqueued);
    forall c
      ensures EnoughFor(h1, entries, c)
    {
      FlushEnough(h, c);
    }
    FlushNotifies(h1, entries, b);
    DrawTouchesNothing(h, drawn, waitOk, outcome, FlushEntries(h1, entries));
    if HasResource(h, b) {
      ResourceHolds(h, b);
      FlushDrops(h1, entries, b);
      assert EnoughFor(h1, entries, b);
      assert b !in entries ==> multiset(entries)[b] == 0;
    }
  }

  lemma {:induction false} BufferKeepsResource(h: Host, c: BufferId, egl: bool, waitOk: bool, b: BufferId)
    ensures HasResource(DestroyBuffer(h, c, egl, waitOk), b) <==> HasResource(h, b) && b != c
  {
  }

  lemma {:induction false} ResourceAfter(h: Host, step: Step, b: BufferId)
    requires Invariant(h, false)
    ensures HasResource(Apply(h, step), b) <==>
              (step == CreateBuffer(b) && b !in h.created) || (HasResource(h, b) && !(step.BufferGone? && step.b == b))
  {
    match step
    case AttachTo(s, target) => AttachKeepsResource(h, s, target, b);
    case CommitOn(s) => CommitKeepsResource(h, s, b);
    case SurfaceGone(s, waitOk) => SurfaceKeepsResource(h, s, waitOk, b);
    case BufferGone(c, egl, waitOk) => BufferKeepsResource(h, c, egl, waitOk, b);
    case Frame(drawn, waitOk, outcome) => FrameKeepsResource(h, drawn, waitOk, outcome, b);
    case _ =>
  }

  lemma {:induction false} CreatedBy(h: Host, step: Step, b: BufferId)
    ensures b in Apply(h, step).created <==> b in h.created || step == CreateBuffer(b)
  {
    match step
    case SurfaceGone(s, waitOk) => CreatedBySurface(h, s, waitOk);
    case Frame(drawn, waitOk, outcome) => CreatedByFrame(h, drawn, waitOk, outcome);
    case _ => CreatedByRequest(h, step, b);
  }

  lemma {:induction false} CreatedByRequest(h: Host, step: Step, b: BufferId)
    requires !step.SurfaceGone? && !step.Frame?
    ensures b in Apply(h, step).created <==> b in h.created || step == CreateBuffer(b)
  {
  }

  lemma {:induction false} CreatedByFrame(h: Host, drawn: set<SurfaceId>, waitOk: bool, outcome: Outcome)
    ensures Render(h, drawn, waitOk, outcome).created == h.created
  {
    CreatedByFlush(FlushStart(h, waitOk), Visited(h.enqueued));
  }

  lemma {:induction false} CreatedBySurface(h: Host, s: SurfaceId, waitOk: bool)
    ensures DestroySurface(h, s, waitOk).created == h.created
  {
    if s in h.surfaces {
      assert DestroyCurrent(h, s, waitOk).created == h.created;
    }
  }

  lemma {:induction false} CreatedByFlush(h: Host, entries: seq<BufferId>)
    ensures FlushEntries(h, entries).created == h.created
    decreases entries
  {
    if entries != [] {
      CreatedByFlush(EndUseAndUnref(h, entries[0]), entries[1..]);
    }
  }

  ghost function BufferMade(b: BufferId): Moment<Step> {
    (before: seq<Step>, step: Step) => step == CreateBuffer(b) && CreateBuffer(b) !in before
  }

  ghost function BufferDestroyed(b: BufferId): Moment<Step> {
    (before: seq<Step>, step: Step) => step.BufferGone? && step.b == b
  }

  /** A wl_buffer can be attached from its creation to its destruction, and never again. */
  lemma {:induction false} ResourceSince(steps: seq<Step>, b: BufferId)
    ensures HasResource(Exec(steps), b) <==> Since(steps, BufferMade(b), BufferDestroyed(b))
    ensures b in Exec(steps).created <==> CreateBuffer(b) in steps
  {
    if steps != [] {
      var before, last := steps[..|steps| - 1], steps[|steps| - 1];
      ResourceSince(before, b);
      SinceLast(steps, BufferMade(b), BufferDestroyed(b));
      LastResource(steps, b);
      assert steps == before + [last];
    }
  }

  lemma {:induction false} LastResource(steps: seq<Step>, b: BufferId)
    requires steps != []
    ensures var h, step := Exec(steps[..|steps| - 1]), steps[|steps| - 1];
      && (HasResource(Exec(steps), b) <==>
            (step == CreateBuffer(b) && b !in h.created) || (HasResource(h, b) && !(step.BufferGone? && step.b == b)))
      && (b in Exec(steps).created <==> b in h.created || step == CreateBuffer(b))
  {
    var before, last := steps[..|steps| - 1], steps[|steps| - 1];
    RunKeeps(before);
    Weaken(Exec(before), Clean(before));
    ResourceAfter(Exec(before), last, b);
    CreatedBy(Exec(before), last, b);
  }
}
