/**
  Exactly when something is released or freed while the GPU still reads it:
  a guard for every step, and the same over whole runs.
 */
module PrematureReleases {
  import opened Common
  import opened DeferredRelease
  import opened BufferLifetime
  import opened HostSteps
  import opened HostRuns

  predicate AnyRead(events: seq<Event>) {
    exists i :: 0 <= i < |events| && events[i].read
  }

  lemma {:induction false} AnyReadAppend(events: seq<Event>, e: Event)
    ensures AnyRead(events + [e]) <==> AnyRead(events) || e.read
  {
    assert (events + [e])[|events|] == e;
    if i :| 0 <= i < |events| && events[i].read {
      assert (events + [e])[i].read;
    }
  }

  /* ---------- primitive operations ---------- */

  lemma {:induction false} UnrefReads(h: Host, b: BufferId)
    requires b in h.buffers && h.buffers[b].references > 0
    ensures AnyRead(Unref(h, b).events) <==> AnyRead(h.events) || (h.buffers[b].references == 1 && b in h.gpu.reading)
  {
    AnyReadAppend(h.events, Freed(b, b in h.gpu.reading));
  }

  lemma {:induction false} EndUseReads(h: Host, b: BufferId)
    requires b in h.buffers && h.buffers[b].busyUsers > 0
    ensures AnyRead(EndUse(h, b).events) <==> AnyRead(h.events) || (h.buffers[b].busyUsers == 1 && b in h.gpu.reading)
  {
    AnyReadAppend(h.events, Released(b, h.buffers[b].resource, |Users(h.surfaces, b)|, b in h.gpu.reading));
  }

  /** Storage outlives uses, so the release is the first event that can be premature. */
  lemma {:induction false} EndUseAndUnrefReads(h: Host, b: BufferId)
    requires b in h.buffers && 0 < h.buffers[b].busyUsers <= h.buffers[b].references
    ensures AnyRead(EndUseAndUnref(h, b).events) <==>
              AnyRead(h.events) || (h.buffers[b].busyUsers == 1 && b in h.gpu.reading)
  {
    EndUseReads(h, b);
    UnrefReads(EndUse(h, b), b);
  }

  /* ---------- a flush ---------- */

  predicate EnoughFor(h: Host, entries: seq<BufferId>, b: BufferId) {
    b in entries ==>
      b in h.buffers && multiset(entries)[b] <= h.buffers[b].busyUsers <= h.buffers[b].references
  }

  ghost predicate Enough(h: Host, entries: seq<BufferId>) {
    forall b {:trigger EnoughFor(h, entries, b)} :: EnoughFor(h, entries, b)
  }

  /** The entries are all the uses a buffer has left, and it is being read. */
  predicate LastUseRead(h: Host, entries: seq<BufferId>, b: BufferId) {
    b in entries && b in h.buffers && b in h.gpu.reading && h.buffers[b].busyUsers == multiset(entries)[b]
  }

  ghost predicate AnyLastUseRead(h: Host, entries: seq<BufferId>) {
    exists b :: LastUseRead(h, entries, b)
  }

  lemma {:induction false} CountRest(entries: seq<BufferId>, b: BufferId)
    requires entries != []
    ensures multiset(entries)[b] == multiset(entries[1..])[b] + if entries[0] == b then 1 else 0
  {
    assert entries == [entries[0]] + entries[1..];
  }

  lemma {:induction false} AfterFirst(h: Host, entries: seq<BufferId>, b: BufferId)
    requires entries != [] && EnoughFor(h, entries, entries[0]) && EnoughFor(h, entries, b)
    ensures EnoughFor(EndUseAndUnref(h, entries[0]), entries[1..], b)
    ensures LastUseRead(h, entries, b) && (b != entries[0] || b in entries[1..]) <==>
              LastUseRead(EndUseAndUnref(h, entries[0]), entries[1..], b)
  {
    CountRest(entries, b);
    CountRest(entries, entries[0]);
  }

  lemma {:induction false} FlushReads(h: Host, entries: seq<BufferId>)
    requires Enough(h, entries)
    ensures AnyRead(FlushEntries(h, entries).events) <==> AnyRead(h.events) || AnyLastUseRead(h, entries)
    decreases entries
  {
    if entries != [] {
      var c, rest, h1 := entries[0], entries[1..], EndUseAndUnref(h, entries[0]);
      assert EnoughFor(h, entries, c);
      CountRest(entries, c);
      EndUseAndUnrefReads(h, c);
      forall b
        ensures EnoughFor(h1, rest, b)
        ensures LastUseRead(h, entries, b) && (b != c || b in rest) <==> LastUseRead(h1, rest, b)
      {
        assert EnoughFor(h, entries, b);
        AfterFirst(h, entries, b);
      }
      FlushReads(h1, rest);
      assert LastUseRead(h, entries, c) && c !in rest <==> h.buffers[c].busyUsers == 1 && c in h.gpu.reading;
      if AnyLastUseRead(h, entries) {
        var b :| LastUseRead(h, entries, b);
        assert LastUseRead(h1, rest, b) || (b == c && c !in rest);
      }
      if AnyLastUseRead(h1, rest) {
        var b :| LastUseRead(h1, rest, b);
        assert LastUseRead(h, entries, b);
      }
    }
  }

  /** A flush takes from each buffer as many uses and references as it visits it, and frees it with the last. */
  lemma {:induction false} FlushDrops(h: Host, entries: seq<BufferId>, b: BufferId)
    requires Enough(h, entries) && b in h.buffers && h.buffers[b].references > 0
    ensures
      var x, h', k := h.buffers[b], FlushEntries(h, entries), multiset(entries)[b];
      && (b in h'.buffers <==> x.references > k)
      && (b in h'.buffers ==>
            && h'.buffers[b].references == x.references - k && h'.buffers[b].busyUsers == x.busyUsers - k
            && h'.buffers[b].resource == x.resource)
    decreases entries
  {
    if entries != [] {
      var rest, h1 := entries[1..], EndUseAndUnref(h, entries[0]);
      assert EnoughFor(h, entries, entries[0]) && EnoughFor(h, entries, b);
      CountRest(entries, b);
      CountRest(entries, entries[0]);
      forall c
        ensures EnoughFor(h1, rest, c)
      {
        assert EnoughFor(h, entries, c);
        AfterFirst(h, entries, c);
      }
      if b in h1.buffers {
        FlushDrops(h1, rest, b);
      } else {
        StaysFreed(h1, rest, b);
      }
    }
  }

  lemma {:induction false} StaysFreed(h: Host, entries: seq<BufferId>, b: BufferId)
    requires b !in h.buffers
    ensures b !in FlushEntries(h, entries).buffers
    decreases entries
  {
    if entries != [] {
      StaysFreed(EndUseAndUnref(h, entries[0]), entries[1..], b);
    }
  }

  /* ---------- the guard of each step ---------- */

  predicate LastReference(h: Host, b: BufferId, reading: set<BufferId>) {
    b in h.buffers && b in reading && h.buffers[b].references == 1
  }

  /** The reads left when a surface with this current buffer goes. */
  function ReadsAfterWait(h: Host, waits: bool, waitOk: bool): set<BufferId> {
    if waits then WaitIdle(h, waitOk).gpu.reading else h.gpu.reading
  }

  /** The current buffer loses its last use, or the pending one its last reference, under the GPU. */
  predicate SurfaceGoneReads(h: Host, s: SurfaceId, waitOk: bool) {
    s in h.surfaces &&
    var x := h.surfaces[s];
    var reading := ReadsAfterWait(h, x.current.Some?, waitOk);
    || (x.current.Some? && x.current.value in h.buffers && x.current.value in reading
        && h.buffers[x.current.value].busyUsers == 1)
    || (x.pending.Some? && x.pending != x.current && LastReference(h, x.pending.value, reading))
  }

  /** Can be told from the state before the step. */
  ghost predicate Premature(h: Host, step: Step) {
    match step
    case Frame(_, waitOk, _) => AnyLastUseRead(WaitIdle(h, waitOk), Visited(h.enqueued))
    case SurfaceGone(s, waitOk) => SurfaceGoneReads(h, s, waitOk)
    case BufferGone(b, egl, waitOk) =>
      b in h.buffers && h.buffers[b].resource && LastReference(h, b, ReadsAfterWait(h, egl, waitOk))
    case AttachTo(s, target) =>
      && s in h.surfaces && (target.Some? ==> target.value in h.buffers && h.buffers[target.value].resource)
      && h.surfaces[s].pending.Some? && h.surfaces[s].pending != target
      && LastReference(h, h.surfaces[s].pending.value, h.gpu.reading)
    case _ => false
  }

  lemma {:induction false} CountsOf(h: Host, b: BufferId)
    requires Invariant(h, false) && b in h.buffers
    ensures BufferCounted(h, Outstanding(h), multiset{}, b)
    ensures 0 < h.buffers[b].references && h.buffers[b].busyUsers <= h.buffers[b].references
    ensures multiset(h.enqueued)[b] <= h.buffers[b].busyUsers
  {
    assert Unfold(0);
    assert BufferCounted(h, Outstanding(h), multiset{}, b);
  }

  lemma {:induction false} NonEmpty(a: set<SurfaceId>, s: SurfaceId)
    requires s in a
    ensures |a| > 0
  {
  }

  /** What a surface shows is in use; what it shows and has attached too has two references, or more than one use. */
  lemma {:induction false} SurfaceCounts(h: Host, s: SurfaceId)
    requires Invariant(h, false) && s in h.surfaces
    ensures var x := h.surfaces[s];
      && (x.current.Some? ==>
            && x.current.value in h.buffers
            && 0 < h.buffers[x.current.value].busyUsers <= h.buffers[x.current.value].references)
      && (x.pending.Some? ==> x.pending.value in h.buffers && 0 < h.buffers[x.pending.value].references)
      && (x.pending.Some? && x.pending == x.current ==>
            && h.buffers[x.current.value].references >= 2
            && (h.buffers[x.current.value].references == 2 ==> h.buffers[x.current.value].busyUsers == 1))
  {
    assert Unfold(0);
    var x := h.surfaces[s];
    if x.current.Some? {
      CountsOf(h, x.current.value);
      NonEmpty(Users(h.surfaces, x.current.value), s);
    }
    if x.pending.Some? {
      CountsOf(h, x.pending.value);
      NonEmpty(Waiters(h.surfaces, x.pending.value), s);
    }
  }

  /** What a flush visits, the counters can pay for. */
  lemma {:induction false} FlushEnough(h: Host, b: BufferId)
    requires Invariant(h, false)
    ensures EnoughFor(h, Visited(h.enqueued), b)
  {
    var entries: seq<BufferId> := Visited(h.enqueued);
    if b in entries {
      VisitedAtMostEnqueued(h.enqueued);
      assert b in multiset(entries);
      assert multiset(entries)[b] <= multiset(h.enqueued)[b];
      assert b in Outstanding(h);
      assert b in h.buffers by {
        assert Unfold(0);
      }
      CountsOf(h, b);
    }
  }

  /** The state in which the flush of a frame starts. */
  function FlushStart(h: Host, waitOk: bool): Host {
    var h0 := WaitIdle(h, waitOk);
    h0.(enqueued := [], lost := h0.lost + Missed(h0.enqueued))
  }

  lemma {:induction false} DrawSendsNothing(h: Host, drawn: set<SurfaceId>, waitOk: bool, outcome: Outcome)
    ensures Render(h, drawn, waitOk, outcome).events == FlushEntries(FlushStart(h, waitOk), Visited(h.enqueued)).events
  {
  }

  lemma {:induction false} FrameReads(h: Host, drawn: set<SurfaceId>, waitOk: bool, outcome: Outcome)
    requires Invariant(h, false)
    ensures AnyRead(Render(h, drawn, waitOk, outcome).events) <==>
              AnyRead(h.events) || AnyLastUseRead(WaitIdle(h, waitOk), Visited(h.enqueued))
  {
    var h0, h1, entries := WaitIdle(h, waitOk), FlushStart(h, waitOk), Visited(h.enqueued);
    forall b
      ensures EnoughFor(h1, entries, b)
    {
      FlushEnough(h, b);
    }
    FlushReads(h1, entries);
    DrawSendsNothing(h, drawn, waitOk, outcome);
    SameLastUses(h0, h1, entries);
  }

  lemma {:induction false} FrameStepReads(h: Host, drawn: set<SurfaceId>, waitOk: bool, outcome: Outcome)
    requires Invariant(h, false)
    ensures AnyRead(Apply(h, Frame(drawn, waitOk, outcome)).events) <==>
              AnyRead(h.events) || Premature(h, Frame(drawn, waitOk, outcome))
  {
    FrameReads(h, drawn, waitOk, outcome);
  }

  lemma {:induction false} SameLastUses(h: Host, h': Host, entries: seq<BufferId>)
    requires h'.buffers == h.buffers && h'.gpu == h.gpu
    ensures AnyLastUseRead(h', entries) <==> AnyLastUseRead(h, entries)
  {
    if b :| LastUseRead(h', entries, b) {
      assert LastUseRead(h, entries, b);
    }
    if b :| LastUseRead(h, entries, b) {
      assert LastUseRead(h', entries, b);
    }
  }

  /** The first half of a surface's end: its current buffer. */
  lemma {:induction false} CurrentReads(h: Host, s: SurfaceId, waitOk: bool)
    requires s in h.surfaces && h.surfaces[s].current.Some?
    requires var c := h.surfaces[s].current.value;
      c in h.buffers && 0 < h.buffers[c].busyUsers <= h.buffers[c].references
    ensures var h1, c := DestroyCurrent(h, s, waitOk), h.surfaces[s].current.value;
      && (AnyRead(h1.events) <==>
            AnyRead(h.events) || (h.buffers[c].busyUsers == 1 && c in ReadsAfterWait(h, true, waitOk)))
      && h1.gpu.reading == ReadsAfterWait(h, true, waitOk)
      && s in h1.surfaces && h1.surfaces[s].pending == h.surfaces[s].pending
      && (forall p :: p in h.buffers && p != c ==> p in h1.buffers && h1.buffers[p] == h.buffers[p])
      && (h.buffers[c].references > 1 ==> c in h1.buffers && h1.buffers[c].references == h.buffers[c].references - 1)
  {
    EndUseAndUnrefReads(WaitIdle(SetSurface(h, s, h.surfaces[s].(current := None)), waitOk), h.surfaces[s].current.value);
  }

  /** The second half: its pending buffer. */
  lemma {:induction false} PendingReads(h: Host, s: SurfaceId)
    requires s in h.surfaces
    requires h.surfaces[s].pending.Some? ==>
               h.surfaces[s].pending.value in h.buffers && h.buffers[h.surfaces[s].pending.value].references > 0
    ensures AnyRead(DestroyPending(h, s).events) <==>
              AnyRead(h.events) || (h.surfaces[s].pending.Some? && LastReference(h, h.surfaces[s].pending.value, h.gpu.reading))
  {
    if h.surfaces[s].pending.Some? {
      UnrefReads(SetSurface(h, s, h.surfaces[s].(pending := None)), h.surfaces[s].pending.value);
    }
  }

  lemma {:induction false} SurfaceReads(h: Host, s: SurfaceId, waitOk: bool)
    requires Invariant(h, false)
    ensures AnyRead(Apply(h, SurfaceGone(s, waitOk)).events) <==> AnyRead(h.events) || Premature(h, SurfaceGone(s, waitOk))
  {
    if s in h.surfaces {
      SurfaceCounts(h, s);
      if h.surfaces[s].current.Some? {
        CurrentReads(h, s, waitOk);
      }
      PendingReads(DestroyCurrent(h, s, waitOk), s);
    }
  }

  lemma {:induction false} AttachReads(h: Host, s: SurfaceId, target: Option<BufferId>)
    requires Invariant(h, false)
    ensures AnyRead(Apply(h, AttachTo(s, target)).events) <==> AnyRead(h.events) || Premature(h, AttachTo(s, target))
  {
    if s in h.surfaces && (target.Some? ==> target.value in h.buffers && h.buffers[target.value].resource) {
      SurfaceCounts(h, s);
      var p := h.surfaces[s].pending;
      if p != target && p.Some? {
        var h1 := if target.Some? then AddReference(h, target.value) else h;
        UnrefReads(SetSurface(h1, s, h1.surfaces[s].(pending := target)), p.value);
      }
    }
  }

  lemma {:induction false} CommitReads(h: Host, s: SurfaceId)
    requires Invariant(h, false)
    ensures AnyRead(Apply(h, CommitOn(s)).events) <==> AnyRead(h.events)
  {
    if s in h.surfaces {
      SurfaceCounts(h, s);
    }
  }

  lemma {:induction false} BufferReads(h: Host, b: BufferId, egl: bool, waitOk: bool)
    requires Invariant(h, false)
    ensures AnyRead(Apply(h, BufferGone(b, egl, waitOk)).events) <==>
              AnyRead(h.events) || Premature(h, BufferGone(b, egl, waitOk))
  {
    if b in h.buffers && h.buffers[b].resource {
      CountsOf(h, b);
      UnrefReads(DropResource(if egl then WaitIdle(h, waitOk) else h, b), b);
    }
  }

  /** A step lets something go under the GPU exactly when its guard holds. */
  lemma {:induction false} StepReadsIff(h: Host, step: Step)
    requires Invariant(h, false)
    ensures AnyRead(Apply(h, step).events) <==> AnyRead(h.events) || Premature(h, step)
  {
    match step
    case CreateSurface(s) => SilentStep(h, step);
    case CreateBuffer(b) => SilentStep(h, step);
    case AttachTo(s, target) => AttachReads(h, s, target);
    case CommitOn(s) => CommitReads(h, s);
    case SurfaceGone(s, waitOk) => SurfaceReads(h, s, waitOk);
    case BufferGone(b, egl, waitOk) => BufferReads(h, b, egl, waitOk);
    case Frame(drawn, waitOk, outcome) => FrameStepReads(h, drawn, waitOk, outcome);
    case RendererGone => SilentStep(h, step);
  }

  lemma {:induction false} SilentStep(h: Host, step: Step)
    requires step.CreateSurface? || step.CreateBuffer? || step.RendererGone?
    ensures Apply(h, step).events == h.events
  {
  }

  /* ---------- over runs ---------- */

  ghost predicate PrematureAt(steps: seq<Step>, k: nat)
    requires k < |steps|
  {
    Premature(Exec(steps[..k]), steps[k])
  }

  ghost predicate ReadBy(steps: seq<Step>, n: nat)
    requires n <= |steps|
  {
    AnyRead(Exec(steps[..n]).events)
  }

  lemma {:induction false} ReadAt(steps: seq<Step>, k: nat)
    requires k < |steps|
    ensures ReadBy(steps, k + 1) <==> ReadBy(steps, k) || PrematureAt(steps, k)
  {
    assert steps[..k + 1][..k] == steps[..k];
    RunKeeps(steps[..k]);
    Weaken(Exec(steps[..k]), Clean(steps[..k]));
    StepReadsIff(Exec(steps[..k]), steps[k]);
  }

  /** Step k leaves the flag as it was, or raises it. */
  predicate RaisesAt(flag: seq<bool>, raise: seq<bool>, k: nat) {
    k < |raise| && k + 1 < |flag| && (flag[k + 1] <==> flag[k] || raise[k])
  }

  /** A flag that is only ever raised is up exactly if it was raised at some point. */
  lemma {:induction false} RaisedIff(flag: seq<bool>, raise: seq<bool>, n: nat)
    requires |flag| == |raise| + 1 && !flag[0] && n <= |raise|
    requires forall k {:trigger RaisesAt(flag, raise, k)} :: 0 <= k < |raise| ==> RaisesAt(flag, raise, k)
    ensures flag[n] <==> exists k :: 0 <= k < n && raise[k]
  {
    if n > 0 {
      RaisedIff(flag, raise, n - 1);
      assert RaisesAt(flag, raise, n - 1);
    }
  }

  /** The history of a run: whether a read has happened after n steps, and which steps were premature. */
  lemma {:induction false} RunFlags(steps: seq<Step>) returns (read: seq<bool>, premature: seq<bool>)
    ensures |read| == |steps| + 1 && |premature| == |steps|
    ensures forall n :: 0 <= n <= |steps| ==> (read[n] <==> ReadBy(steps, n))
    ensures forall k :: 0 <= k < |steps| ==> (premature[k] <==> PrematureAt(steps, k))
  {
    read := seq(|steps| + 1, n requires 0 <= n <= |steps| => ReadBy(steps, n));
    premature := seq(|steps|, k requires 0 <= k < |steps| => PrematureAt(steps, k));
  }

  /**
    In every run, clean or not, something is released or freed while the GPU
    reads it exactly if some step of the run was taken with its guard true.
   */
  lemma {:induction false} ReleasedUnderGpuIff(steps: seq<Step>)
    ensures AnyRead(Exec(steps).events) <==> exists k :: 0 <= k < |steps| && PrematureAt(steps, k)
  {
    var read, premature := RunFlags(steps);
    forall k | 0 <= k < |steps|
      ensures RaisesAt(read, premature, k)
    {
      ReadAt(steps, k);
    }
    assert !ReadBy(steps, 0);
    RaisedIff(read, premature, |steps|);
    assert steps[..|steps|] == steps;
    if k :| 0 <= k < |steps| && premature[k] {
      assert PrematureAt(steps, k);
    }
    if k :| 0 <= k < |steps| && PrematureAt(steps, k) {
      assert premature[k];
    }
  }

  /* ---------- it happens ---------- */

  /** One surface shows one buffer and nothing else ever happened. */
  function ShownOnce(): seq<Step> {
    [Step.CreateSurface(0)] + [Step.CreateBuffer(0)] + [AttachTo(0, Some(0))] + [CommitOn(0)]
  }

  lemma {:induction false} ShownOnceState()
    ensures Exec(ShownOnce()) == SHOWN
  {
    ShownFrom([]);
    assert [] + [Step.CreateSurface(0)] == [Step.CreateSurface(0)];
    FirstCommit();
  }

  lemma {:induction false} ShownFrom(steps: seq<Step>)
    ensures Exec(steps + [Step.CreateSurface(0)] + [Step.CreateBuffer(0)] + [AttachTo(0, Some(0))] + [CommitOn(0)])
         == Commit(Attach(NewBuffer(NewSurface(Exec(steps), 0), 0), 0, Some(0)), 0)
  {
    var a, b, c := [Step.CreateSurface(0)], [Step.CreateBuffer(0)], [AttachTo(0, Some(0))];
    ExecAppend(steps, Step.CreateSurface(0));
    ExecAppend(steps + a, Step.CreateBuffer(0));
    ExecAppend(steps + a + b, AttachTo(0, Some(0)));
    ExecAppend(steps + a + b + c, CommitOn(0));
  }

  const MADE := Host(map[0 := Surface(None, None, false)], map[0 := Buffer(1, 0, true)], {0}, [], multiset{}, Gpu(false, {}, {}), [])

  const ATTACHED := MADE.(surfaces := map[0 := Surface(Some(0), None, false)], buffers := map[0 := Buffer(2, 0, true)])

  lemma {:induction false} FirstCommit()
    ensures Commit(Attach(NewBuffer(NewSurface(INITIAL, 0), 0), 0, Some(0)), 0) == SHOWN
  {
    assert NewBuffer(NewSurface(INITIAL, 0), 0) == MADE;
    AttachedToMade();
    CommittedAttached();
  }

  lemma {:induction false} AttachedToMade()
    ensures Attach(MADE, 0, Some(0)) == ATTACHED
  {
  }

  lemma {:induction false} CommittedAttached()
    ensures Commit(ATTACHED, 0) == SHOWN
  {
  }

  /** The hazard: a swap that failed, or a renderer that went away, with its reads outstanding. */
  function HazardAfter(start: seq<Step>, swap: bool): seq<Step> {
    if swap then start + [Frame({0}, true, SwapFailed(true))]
    else start + [Frame({0}, true, Swapped(true))] + [RendererGone]
  }

  function WithHazard(swap: bool): seq<Step> {
    HazardAfter(ShownOnce(), swap)
  }

  const SHOWN := Host(map[0 := Surface(None, Some(0), false)], map[0 := Buffer(2, 1, true)], {0}, [], multiset{}, Gpu(false, {}, {}), [])

  /** The one frame of the run: nothing to wait for or flush, buffer 0 sampled. */
  lemma OnlyFrame(outcome: Outcome)
    ensures Render(SHOWN, {0}, true, outcome) == Draw(SHOWN, {0}, outcome) && Shown(SHOWN, {0}) == {0}
  {
    assert Flush(SHOWN) == SHOWN;
  }

  lemma {:induction false} HazardState(start: seq<Step>, swap: bool)
    requires Exec(start) == SHOWN
    ensures Exec(HazardAfter(start, swap)) == SHOWN.(gpu := if swap then Gpu(false, {0}, {}) else Gpu(false, {}, {0}))
  {
    if swap {
      OnlyFrame(SwapFailed(true));
      ExecAppend(start, Frame({0}, true, SwapFailed(true)));
    } else {
      OnlyFrame(Swapped(true));
      ExecAppend(start, Frame({0}, true, Swapped(true)));
      ExecAppend(start + [Frame({0}, true, Swapped(true))], RendererGone);
    }
  }

  /** Surface 0 shows buffer 0, which is being read with no wait to come. */
  ghost predicate ShownUncovered(h: Host) {
    && h.surfaces == SHOWN.surfaces && h.buffers == SHOWN.buffers
    && 0 in h.gpu.reading && (h.gpu.fence ==> 0 in h.gpu.orphaned)
  }

  lemma {:induction false} DestroyUncovered(start: seq<Step>)
    requires ShownUncovered(Exec(start))
    ensures var run := start + [SurfaceGone(0, true)]; AnyRead(Exec(run).events) && !Clean(run)
  {
    var run := start + [SurfaceGone(0, true)];
    ExecAppend(start, SurfaceGone(0, true));
    RunKeeps(start);
    Weaken(Exec(start), Clean(start));
    StepReadsIff(Exec(start), SurfaceGone(0, true));
    if Clean(run) {
      var i :| 0 <= i < |Exec(run).events| && Exec(run).events[i].read;
      NoReleaseUnderGpu(run, Exec(run).events[i]);
    }
  }

  /** Each hazard does let a release go out under the GPU. */
  lemma {:induction false} HazardsReleaseEarly(swap: bool)
    ensures var run := WithHazard(swap) + [SurfaceGone(0, true)]; AnyRead(Exec(run).events) && !Clean(run)
  {
    ShownOnceState();
    HazardState(ShownOnce(), swap);
    DestroyUncovered(WithHazard(swap));
  }

  /** A frame of the new renderer, with its fence and a successful wait, covers none of the old one's reads. */
  lemma {:induction false} NewFenceCoversNothingOld()
    ensures
      var run := WithHazard(false) + [Frame({}, true, Swapped(true))] + [SurfaceGone(0, true)];
      AnyRead(Exec(run).events)
  {
    var start, frame := WithHazard(false), Frame({}, true, Swapped(true));
    ShownOnceState();
    HazardState(ShownOnce(), false);
    ExecAppend(start, frame);
    EmptyFrame(SHOWN.(gpu := Gpu(false, {}, {0})));
    DestroyUncovered(start + [frame]);
  }

  lemma {:induction false} EmptyFrame(h: Host)
    requires h == SHOWN.(gpu := Gpu(false, {}, {0}))
    ensures ShownUncovered(Apply(h, Frame({}, true, Swapped(true))))
  {
    assert Flush(h) == h;
    assert Shown(h, {}) == {};
  }

  /* ---------- reads of a renderer that went away ---------- */

  lemma {:induction false} OrphanedByStep(h: Host, step: Step)
    ensures Apply(h, step).gpu.orphaned == if step.RendererGone? then h.gpu.own + h.gpu.orphaned else h.gpu.orphaned
  {
    match step
    case CreateSurface(s) =>
    case CreateBuffer(b) =>
    case AttachTo(s, target) =>
    case CommitOn(s) =>
    case SurfaceGone(s, waitOk) => OrphanedBySurface(h, s, waitOk);
    case BufferGone(b, egl, waitOk) =>
    case Frame(drawn, waitOk, outcome) => OrphanedByFrame(h, drawn, waitOk, outcome);
    case RendererGone =>
  }

  lemma {:induction false} OrphanedBySurface(h: Host, s: SurfaceId, waitOk: bool)
    ensures DestroySurface(h, s, waitOk).gpu.orphaned == h.gpu.orphaned
  {
    if s in h.surfaces {
      assert DestroyCurrent(h, s, waitOk).gpu.orphaned == h.gpu.orphaned;
    }
  }

  lemma {:induction false} OrphanedByFrame(h: Host, drawn: set<SurfaceId>, waitOk: bool, outcome: Outcome)
    ensures Render(h, drawn, waitOk, outcome).gpu.orphaned == h.gpu.orphaned
  {
    var h1 := WaitIdle(h, waitOk);
    FlushEntriesFrame(h1.(enqueued := [], lost := h1.lost + Missed(h1.enqueued)), Visited(h1.enqueued));
    assert Flush(h1).gpu == h1.gpu;
  }

  /** They count as uncovered in every continuation, whatever is drawn and waited for. */
  lemma {:induction false} OrphanedForGood(run: seq<Step>, k: nat, b: BufferId)
    requires k <= |run| && b in Exec(run[..k]).gpu.orphaned
    ensures b in Exec(run).gpu.reading
    decreases |run|
  {
    OrphanedStays(run, k, b);
  }

  lemma {:induction false} OrphanedStays(run: seq<Step>, k: nat, b: BufferId)
    requires k <= |run| && b in Exec(run[..k]).gpu.orphaned
    ensures b in Exec(run).gpu.orphaned
    decreases |run|
  {
    if k == |run| {
      assert run[..k] == run;
    } else {
      var front := run[..|run| - 1];
      assert front[..k] == run[..k];
      OrphanedStays(front, k, b);
      OrphanedByStep(Exec(front), run[|run| - 1]);
    }
  }
}
