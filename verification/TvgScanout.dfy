/**
  Scan-out tokens presented by surface commits and released by the renderer
  (wayland-host/src/tvg_scanout.c), as `trierarch_renderer_render` drives them.
  Lists are head first.
 */
module TvgScanout {
  import opened Common

  type ResId = nat  // 0 means "no resource"

  /** One send_release, and whether that token was in GPU work that no wait had covered. */
  datatype Release = Release(id: ResId, read: bool)

  /**
    `own`: tokens in uncovered work of the renderer in use, which its next fence
    or glFinish covers; `orphaned`: in work of renderers that went away, which
    nothing covers any more. The token lists are global and survive a renderer.
   */
  datatype State = State(
    pending: seq<ResId>, inflight: seq<ResId>, sent: seq<Release>,
    fence: bool, own: set<ResId>, orphaned: set<ResId>)
  {
    const reading: set<ResId> := own + orphaned
  }

  const INITIAL := State([], [], [], false, {}, {})

  datatype Outcome =
    | Invalid                         // no valid renderer: nothing happens
    | NotCurrent                      // eglMakeCurrent failed
    | SwapFailed(outstanding: bool)   // outstanding: the GPU goes on reading
    | Swapped(fenced: bool)           // without a fence the frame ends in glFinish

  datatype Step =
    | Present(id: ResId, memory: bool)
    | Frame(waitOk: bool, drawn: set<ResId>, outcome: Outcome)
    | Waited(ok: bool)  // a surface or EGL buffer that goes waits for the fence too
    | RendererGone      // its fence is dropped without a wait

  function Remember(pending: seq<ResId>, id: ResId, memory: bool): seq<ResId> {
    if id == 0 || id in pending || !memory then pending else [id] + pending
  }

  function WaitIdle(st: State, ok: bool): State {
    if !st.fence then st else st.(fence := false, own := if ok then {} else st.own)
  }

  function Releases(ids: seq<ResId>, reading: set<ResId>): seq<Release> {
    seq(|ids|, i requires 0 <= i < |ids| => Release(ids[i], ids[i] in reading))
  }

  function Begin(st: State): State {
    st.(inflight := [], sent := st.sent + Releases(st.inflight, st.reading))
  }

  function End(st: State): State {
    st.(pending := [], inflight := Reverse(st.pending) + st.inflight)
  }

  function Draw(st: State, drawn: set<ResId>, outcome: Outcome): State {
    match outcome
    case Invalid => st
    case NotCurrent => st
    case SwapFailed(outstanding) => if outstanding then st.(own := st.own + drawn) else st
    case Swapped(fenced) =>
      End(if fenced then st.(fence := true, own := st.own + drawn) else st.(own := {}))
  }

  function Apply(st: State, step: Step): State {
    match step
    case Present(id, memory) => st.(pending := Remember(st.pending, id, memory))
    case Frame(waitOk, drawn, outcome) =>
      if outcome.Invalid? then st else Draw(Begin(WaitIdle(st, waitOk)), drawn, outcome)
    case Waited(ok) => WaitIdle(st, ok)
    case RendererGone => st.(fence := false, own := {}, orphaned := st.own + st.orphaned)
  }

  function Exec(steps: seq<Step>): State {
    if steps == [] then INITIAL else Apply(Exec(steps[..|steps| - 1]), steps[|steps| - 1])
  }

  /* ---------- reference: what a run presents ---------- */

  /** Everything presented since the last frame that reached the screen, repeats included. */
  function Raw(steps: seq<Step>): seq<ResId> {
    if steps == [] then []
    else
      var front, last := steps[..|steps| - 1], steps[|steps| - 1];
      match last
      case Present(id, memory) => if id == 0 || !memory then Raw(front) else Raw(front) + [id]
      case Frame(_, _, outcome) => if outcome.Swapped? then [] else Raw(front)
      case _ => Raw(front)
  }

  /** The batches handed to the screen, one per swapped frame, oldest first. */
  function Batches(steps: seq<Step>): seq<seq<ResId>> {
    if steps == [] then []
    else
      var front, last := steps[..|steps| - 1], steps[|steps| - 1];
      if last.Frame? && last.outcome.Swapped? then Batches(front) + [Firsts(Raw(front))] else Batches(front)
  }

  /** Each value once, in order of first occurrence. */
  function Firsts(s: seq<ResId>): seq<ResId> {
    if s == [] then []
    else
      var front, last := Firsts(s[..|s| - 1]), s[|s| - 1];
      if last in front then front else front + [last]
  }

  /** The batch of the last frame, if it was swapped: what the next frame has to release. */
  function Awaiting(steps: seq<Step>): seq<ResId> {
    if steps == [] then []
    else
      var front, last := steps[..|steps| - 1], steps[|steps| - 1];
      match last
      case Present(_, _) => Awaiting(front)
      case Frame(_, _, outcome) =>
        if outcome.Invalid? then Awaiting(front)
        else if outcome.Swapped? then Firsts(Raw(front)) else []
      case _ => Awaiting(front)
  }

  lemma {:induction false} FirstsExactly(s: seq<ResId>)
    ensures NoDup(Firsts(s)) && forall x :: x in Firsts(s) <==> x in s
  {
    if s != [] {
      FirstsExactly(s[..|s| - 1]);
      assert s == s[..|s| - 1] + [s[|s| - 1]];
    }
  }

  lemma {:induction false} IndexOfPrefix(s: seq<ResId>, t: seq<ResId>, x: ResId)
    requires x in s
    ensures IndexOf(s + t, x) == IndexOf(s, x)
  {
    assert (s + t)[0] == s[0];
    if s[0] != x {
      IndexOfPrefix(s[1..], t, x);
      assert (s + t)[1..] == s[1..] + t;
    }
  }

  /** Firsts really is ordered by first occurrence. */
  lemma {:induction false} FirstsInOrder(s: seq<ResId>, i: nat, j: nat)
    requires i < j < |Firsts(s)|
    ensures Firsts(s)[i] in s && Firsts(s)[j] in s && IndexOf(s, Firsts(s)[i]) < IndexOf(s, Firsts(s)[j])
  {
    var front, last := s[..|s| - 1], s[|s| - 1];
    var a, b := Firsts(s)[i], Firsts(s)[j];
    FirstsExactly(s);
    FirstsExactly(front);
    assert s == front + [last];
    assert a in Firsts(front);
    IndexOfPrefix(front, [last], a);
    if j < |Firsts(front)| {
      FirstsInOrder(front, i, j);
      IndexOfPrefix(front, [last], b);
    } else {
      assert b == last && b !in front;
      IndexOfLast(front, b);
    }
  }

  lemma {:induction false} IndexOfLast(s: seq<ResId>, x: ResId)
    requires x !in s
    ensures IndexOf(s + [x], x) == |s|
  {
    if s == [] {
      assert s + [x] == [x];
    } else {
      IndexOfLast(s[1..], x);
      assert (s + [x])[1..] == s[1..] + [x];
    }
  }

  /* ---------- every run ---------- */

  function Ids(sent: seq<Release>): seq<ResId> {
    seq(|sent|, i requires 0 <= i < |sent| => sent[i].id)
  }

  /** The state is exactly what the run's presentations and swaps say. */
  ghost predicate Tracks(st: State, steps: seq<Step>) {
    && Reverse(st.pending) == Firsts(Raw(steps))
    && st.inflight == Awaiting(steps)
    && Ids(st.sent) + st.inflight == Flatten<ResId>(Batches(steps))
  }

  lemma {:induction false} PendingElements(p: seq<ResId>)
    ensures forall x :: x in Reverse(p) <==> x in p
  {
    ReverseMultiset(p);
    forall x
      ensures x in Reverse(p) <==> x in p
    {
      assert x in p <==> x in multiset(p);
      assert x in Reverse(p) <==> x in multiset(Reverse(p));
    }
  }

  lemma {:induction false} PresentTracks(st: State, steps: seq<Step>, id: ResId, memory: bool)
    requires Tracks(st, steps)
    ensures Tracks(Apply(st, Present(id, memory)), steps + [Present(id, memory)])
  {
    var all := steps + [Present(id, memory)];
    assert all[..|all| - 1] == steps;
    PendingElements(st.pending);
    FirstsExactly(Raw(steps));
    var raw := Raw(steps) + [id];
    assert raw[..|raw| - 1] == Raw(steps);
    if id != 0 && memory && id !in st.pending {
      ReverseSplit([id], st.pending);
      assert Reverse([id]) == [id];
    }
  }

  lemma {:induction false} IdsOfReleases(sent: seq<Release>, ids: seq<ResId>, reading: set<ResId>)
    ensures Ids(sent + Releases(ids, reading)) == Ids(sent) + ids
  {
  }

  lemma {:induction false} FrameTracks(st: State, steps: seq<Step>, step: Step)
    requires Tracks(st, steps) && step.Frame?
    ensures Tracks(Apply(st, step), steps + [step])
  {
    if step.outcome.Invalid? {
      assert (steps + [step])[..|steps + [step]| - 1] == steps;
    } else {
      var st2 := Begin(WaitIdle(st, step.waitOk));
      BeginTracks(st, steps, step.waitOk);
      if step.outcome.Swapped? {
        SwapTracks(st2, steps, step);
      } else {
        FailTracks(st2, steps, step);
      }
    }
  }

  /** After its releases a frame has nothing in flight and everything else sent. */
  lemma {:induction false} BeginTracks(st: State, steps: seq<Step>, waitOk: bool)
    requires Tracks(st, steps)
    ensures
      var st2 := Begin(WaitIdle(st, waitOk));
      Started(st2, steps)
  {
    var st1 := WaitIdle(st, waitOk);
    IdsOfReleases(st1.sent, st1.inflight, st1.reading);
  }

  ghost predicate Started(st: State, steps: seq<Step>) {
    && Reverse(st.pending) == Firsts(Raw(steps)) && st.inflight == []
    && Ids(st.sent) == Flatten<ResId>(Batches(steps))
  }

  lemma {:induction false} SwapTracks(st: State, steps: seq<Step>, step: Step)
    requires Started(st, steps) && step.Frame? && step.outcome.Swapped?
    ensures Tracks(Draw(st, step.drawn, step.outcome), steps + [step])
  {
    var all, batch := steps + [step], Firsts(Raw(steps));
    assert all[..|all| - 1] == steps;
    var bs := Batches(steps) + [batch];
    assert bs[..|bs| - 1] == Batches(steps);
    assert Reverse(st.pending) + [] == batch;
  }

  lemma {:induction false} FailTracks(st: State, steps: seq<Step>, step: Step)
    requires Started(st, steps) && step.Frame? && (step.outcome.NotCurrent? || step.outcome.SwapFailed?)
    ensures Tracks(Draw(st, step.drawn, step.outcome), steps + [step])
  {
    var all := steps + [step];
    assert all[..|all| - 1] == steps;
    assert Ids(st.sent) + [] == Ids(st.sent);
  }

  lemma {:induction false} QuietTracks(st: State, steps: seq<Step>, step: Step)
    requires Tracks(st, steps) && (step.Waited? || step.RendererGone?)
    ensures Tracks(Apply(st, step), steps + [step])
  {
    assert (steps + [step])[..|steps + [step]| - 1] == steps;
  }

  lemma {:induction false} RunTracks(steps: seq<Step>)
    ensures Tracks(Exec(steps), steps)
    decreases |steps|
  {
    if steps != [] {
      var front, last := steps[..|steps| - 1], steps[|steps| - 1];
      RunTracks(front);
      assert steps == front + [last];
      match last
      case Present(id, memory) => PresentTracks(Exec(front), front, id, memory);
      case Frame(_, _, _) => FrameTracks(Exec(front), front, last);
      case _ => QuietTracks(Exec(front), front, last);
    } else {
      assert Ids([]) == [];
    }
  }

  /** Whenever a frame ends, nothing is in flight yet; and no list ever repeats a token. */
  lemma {:induction false} InflightEmptyAtEnd(steps: seq<Step>, waitOk: bool)
    ensures Begin(WaitIdle(Exec(steps), waitOk)).inflight == []
    ensures NoDup(Exec(steps).inflight) && NoDup(Exec(steps).pending)
    ensures 0 !in Exec(steps).inflight && 0 !in Exec(steps).pending
  {
    var st := Exec(steps);
    RunTracks(steps);
    AwaitingDistinct(steps);
    FirstsExactly(Raw(steps));
    RawNonZero(steps);
    PendingElements(st.pending);
    ReverseNoDup(st.pending);
  }

  lemma {:induction false} RawNonZero(steps: seq<Step>)
    ensures 0 !in Raw(steps)
  {
    if steps != [] {
      RawNonZero(steps[..|steps| - 1]);
    }
  }

  lemma {:induction false} AwaitingDistinct(steps: seq<Step>)
    ensures NoDup(Awaiting(steps)) && 0 !in Awaiting(steps)
  {
    if steps != [] {
      var front := steps[..|steps| - 1];
      AwaitingDistinct(front);
      FirstsExactly(Raw(front));
      RawNonZero(front);
    }
  }

  lemma {:induction false} ReverseNoDup(s: seq<ResId>)
    requires NoDup(Reverse(s))
    ensures NoDup(s)
  {
    if s != [] {
      var r := Reverse(s[1..]);
      assert NoDup(r) by {
        forall i, j | 0 <= i < j < |r|
          ensures r[i] != r[j]
        {
          assert r[i] == Reverse(s)[i] && r[j] == Reverse(s)[j];
        }
      }
      ReverseNoDup(s[1..]);
      PendingElements(s[1..]);
      forall i | 0 <= i < |r|
        ensures r[i] != s[0]
      {
        assert r[i] == Reverse(s)[i] && Reverse(s)[|r|] == s[0];
      }
      NoDupCons(s);
    }
  }

  /** Presentations, waits and replaced renderers, but no frame that gets as far as its wait. */
  predicate NoFrame(steps: seq<Step>) {
    forall i :: 0 <= i < |steps| ==> !(steps[i].Frame? && !steps[i].outcome.Invalid?)
  }

  /**
    What reaches the screen in a swapped frame is released exactly once, in
    order of first presentation, at the start of the next frame whatever that
    frame's own fate, and not before.
   */
  lemma {:induction false} ReleasedAtNextFrame(steps: seq<Step>, w: bool, d: set<ResId>, fenced: bool,
                                               between: seq<Step>, waitOk: bool, drawn: set<ResId>, outcome: Outcome)
    requires NoFrame(between) && !outcome.Invalid?
    ensures
      var shown := steps + [Frame(w, d, Swapped(fenced))];
      var waiting := shown + between;
      && Exec(waiting).sent == Exec(shown).sent
      && Ids(Exec(waiting + [Frame(waitOk, drawn, outcome)]).sent) == Ids(Exec(shown).sent) + Firsts(Raw(steps))
  {
    var shown := steps + [Frame(w, d, Swapped(fenced))];
    var waiting := shown + between;
    assert shown[..|shown| - 1] == steps;
    NothingSentBetween(shown, between);
    RunTracks(waiting);
    var st := Exec(waiting);
    var all := waiting + [Frame(waitOk, drawn, outcome)];
    assert all[..|all| - 1] == waiting;
    var st1 := WaitIdle(st, waitOk);
    IdsOfReleases(st1.sent, st1.inflight, st1.reading);
  }

  lemma {:induction false} NothingSentBetween(steps: seq<Step>, between: seq<Step>)
    requires NoFrame(between)
    ensures Exec(steps + between).sent == Exec(steps).sent && Awaiting(steps + between) == Awaiting(steps)
    decreases |between|
  {
    if between == [] {
      assert steps + between == steps;
    } else {
      var all, front := steps + between, between[..|between| - 1];
      assert all[..|all| - 1] == steps + front;
      NothingSentBetween(steps, front);
    }
  }

  /** Over a whole run, a token goes out as often as swapped frames carried it, or once less while in flight. */
  lemma {:induction false} SentPerBatch(steps: seq<Step>, id: ResId)
    ensures multiset(Ids(Exec(steps).sent))[id] + multiset(Awaiting(steps))[id] == CarriedBy(Batches(steps), id)
    ensures multiset(Awaiting(steps))[id] <= 1
  {
    RunTracks(steps);
    BatchesDistinct(steps);
    FlattenCounts(Batches(steps), id);
    AwaitingDistinct(steps);
    NoDupOnce(Awaiting(steps), id);
    var st := Exec(steps);
    assert multiset(Ids(st.sent) + st.inflight) == multiset(Ids(st.sent)) + multiset(st.inflight);
  }

  /** Number of batches that hold the id. */
  function CarriedBy(bs: seq<seq<ResId>>, id: ResId): nat {
    if bs == [] then 0 else CarriedBy(bs[..|bs| - 1], id) + if id in bs[|bs| - 1] then 1 else 0
  }

  predicate AllDistinct(bs: seq<seq<ResId>>) {
    forall i :: 0 <= i < |bs| ==> NoDup(bs[i])
  }

  lemma {:induction false} BatchesDistinct(steps: seq<Step>)
    ensures AllDistinct(Batches(steps))
  {
    if steps != [] {
      BatchesDistinct(steps[..|steps| - 1]);
      FirstsExactly(Raw(steps[..|steps| - 1]));
    }
  }

  lemma {:induction false} FlattenCounts(bs: seq<seq<ResId>>, id: ResId)
    requires AllDistinct(bs)
    ensures multiset(Flatten<ResId>(bs))[id] == CarriedBy(bs, id)
  {
    if bs != [] {
      FlattenCounts(bs[..|bs| - 1], id);
      NoDupOnce(bs[|bs| - 1], id);
    }
  }

  /* ---------- releases and the GPU ---------- */

  predicate AnyRead(sent: seq<Release>) {
    exists i :: 0 <= i < |sent| && sent[i].read
  }

  /** A frame gets past its wait with a token of the last frame still in uncovered work. */
  ghost predicate ReleasesRead(steps: seq<Step>, k: nat)
    requires k < |steps|
  {
    && steps[k].Frame? && !steps[k].outcome.Invalid?
    && exists id :: id in Awaiting(steps[..k]) && id in WaitIdle(Exec(steps[..k]), steps[k].waitOk).reading
  }

  lemma {:induction false} AnyReadConcat(sent: seq<Release>, ids: seq<ResId>, reading: set<ResId>)
    ensures AnyRead(sent + Releases(ids, reading)) <==> AnyRead(sent) || exists id :: id in ids && id in reading
  {
    var more := Releases(ids, reading);
    if AnyRead(sent) {
      var i :| 0 <= i < |sent| && sent[i].read;
      assert (sent + more)[i].read;
    }
    if id :| id in ids && id in reading {
      var i :| 0 <= i < |ids| && ids[i] == id;
      assert (sent + more)[|sent| + i] == more[i];
    }
    if AnyRead(sent + more) && !AnyRead(sent) {
      var i :| 0 <= i < |sent + more| && (sent + more)[i].read;
      assert i >= |sent| && ids[i - |sent|] in reading;
    }
  }

  lemma {:induction false} FrameReads(steps: seq<Step>, k: nat)
    requires k < |steps|
    ensures AnyRead(Apply(Exec(steps[..k]), steps[k]).sent) <==> AnyRead(Exec(steps[..k]).sent) || ReleasesRead(steps, k)
  {
    var st, step := Exec(steps[..k]), steps[k];
    if step.Frame? && !step.outcome.Invalid? {
      RunTracks(steps[..k]);
      AnyReadConcat(st.sent, st.inflight, WaitIdle(st, step.waitOk).reading);
    }
  }

  /**
    In every run a token is released under the GPU exactly if some frame gets
    past its own wait while a token of the frame before is in work that no wait
    has covered: its wait fails, an earlier one did, or the renderer went away.
   */
  lemma {:induction false} ReleasedReadIff(steps: seq<Step>)
    ensures AnyRead(Exec(steps).sent) <==> exists k :: 0 <= k < |steps| && ReleasesRead(steps, k)
  {
    if steps != [] {
      var n := |steps| - 1;
      var front := steps[..n];
      ReleasedReadIff(front);
      FrameReads(steps, n);
      forall k | 0 <= k < n
        ensures ReleasesRead(front, k) <==> ReleasesRead(steps, k)
      {
        assert front[..k] == steps[..k] && front[k] == steps[k];
      }
    }
  }

  /** Waits succeed, and no renderer goes away with reads that no wait has covered. */
  predicate Careful(steps: seq<Step>, k: nat)
    requires k < |steps|
  {
    match steps[k]
    case Frame(waitOk, _, _) => waitOk
    case Waited(ok) => ok
    case RendererGone => Exec(steps[..k]).reading == {}
    case Present(_, _) => true
  }

  /** Tokens in flight while the GPU reads have a fence: a failed swap leaves none in flight. */
  predicate Covered(st: State) {
    st.orphaned == {} && (st.inflight != [] && st.reading != {} ==> st.fence)
  }

  lemma {:induction false} CarefulCovered(steps: seq<Step>, n: nat)
    requires n <= |steps| && forall k :: 0 <= k < |steps| ==> Careful(steps, k)
    ensures Covered(Exec(steps[..n]))
  {
    if n > 0 {
      CarefulCovered(steps, n - 1);
      assert Careful(steps, n - 1);
      assert steps[..n][..n - 1] == steps[..n - 1];
      CoveredStep(Exec(steps[..n - 1]), steps[n - 1]);
    }
  }

  lemma {:induction false} CoveredStep(st: State, step: Step)
    requires Covered(st) && (step.Frame? ==> step.waitOk) && (step.Waited? ==> step.ok) && (step.RendererGone? ==> st.reading == {})
    ensures Covered(Apply(st, step))
  {
  }

  /** In such runs, failed swaps included, no token is released under the GPU. */
  lemma {:induction false} NoReleaseUnderGpu(steps: seq<Step>)
    requires forall k :: 0 <= k < |steps| ==> Careful(steps, k)
    ensures !AnyRead(Exec(steps).sent)
  {
    ReleasedReadIff(steps);
    forall k | 0 <= k < |steps|
      ensures !ReleasesRead(steps, k)
    {
      CarefulCovered(steps, k);
      RunTracks(steps[..k]);
      assert Careful(steps, k);
    }
  }

  lemma {:induction false} ExecAppend(steps: seq<Step>, step: Step)
    ensures Exec(steps + [step]) == Apply(Exec(steps), step)
  {
    assert (steps + [step])[..|steps + [step]| - 1] == steps;
  }

  /** A token shown by one fenced frame. */
  function ShownOnce(id: ResId): seq<Step> {
    [Present(id, true)] + [Frame(true, {id}, Swapped(true))]
  }

  lemma {:induction false} ShownOnceState(id: ResId)
    requires id != 0
    ensures Exec(ShownOnce(id)) == State([], [id], [], true, {id}, {})
  {
    ExecAppend([], Present(id, true));
    assert [] + [Present(id, true)] == [Present(id, true)] && Exec([]) == INITIAL;
    ExecAppend([Present(id, true)], Frame(true, {id}, Swapped(true)));
    assert Reverse([id]) == [id];
  }

  /** A failed wait of the frame itself does release a token that is being read. */
  lemma {:induction false} FailedWaitReleasesRead(id: ResId)
    requires id != 0
    ensures Exec(ShownOnce(id) + [Frame(false, {}, Swapped(true))]).sent == [Release(id, true)]
  {
    ShownOnceState(id);
    ExecAppend(ShownOnce(id), Frame(false, {}, Swapped(true)));
    assert Releases([id], {id}) == [Release(id, true)];
  }

  /**
    So does a frame whose own wait succeeds, after a replaced renderer or after
    a failed wait outside a frame: there is no fence left to wait for.
   */
  lemma {:induction false} LostFenceReleasesRead(id: ResId, lost: Step)
    requires id != 0 && (lost == RendererGone || lost == Waited(false))
    ensures Exec(ShownOnce(id) + [lost] + [Frame(true, {}, Swapped(true))]).sent == [Release(id, true)]
  {
    ShownOnceState(id);
    ExecAppend(ShownOnce(id), lost);
    ExecAppend(ShownOnce(id) + [lost], Frame(true, {}, Swapped(true)));
    assert {id} + {} == {id} && {} + {id} == {id};
    assert Releases([id], {id}) == [Release(id, true)];
  }

  /* ---------- tokens sampled after their release ---------- */

  /** The token was presented and the presentation has not been released yet. */
  predicate Owed(st: State, id: ResId) {
    id in st.pending || id in st.inflight
  }

  /** Presented since the last frame that reached the screen, in terms of the run. */
  lemma {:induction false} RawIff(steps: seq<Step>, id: ResId)
    ensures id in Raw(steps) <==>
              exists k :: 0 <= k < |steps| && id != 0 && steps[k] == Present(id, true)
                          && forall m :: k < m < |steps| ==> !(steps[m].Frame? && steps[m].outcome.Swapped?)
  {
    if steps != [] {
      var n := |steps| - 1;
      RawIff(steps[..n], id);
      assert forall k :: 0 <= k < n ==> steps[..n][k] == steps[k];
    }
  }

  /** After the releases of any frame of any run: what is owed is what was presented again, and all else went out. */
  lemma {:induction false} OwedIff(steps: seq<Step>, waitOk: bool, id: ResId)
    ensures
      var st := Begin(WaitIdle(Exec(steps), waitOk));
      && (Owed(st, id) <==> id in Raw(steps))
      && multiset(Ids(st.sent))[id] == CarriedBy(Batches(steps), id)
  {
    var st0 := WaitIdle(Exec(steps), waitOk);
    RunTracks(steps);
    PendingElements(st0.pending);
    FirstsExactly(Raw(steps));
    IdsOfReleases(st0.sent, st0.inflight, st0.reading);
    BatchesDistinct(steps);
    FlattenCounts(Batches(steps), id);
  }

  /**
    A frame samples a token all of whose presentations have been released
    exactly if the token reached the screen before and no commit has presented
    it again since; a surface that keeps showing it is enough.
   */
  lemma {:induction false} ReleasedThenSampledIff(steps: seq<Step>, waitOk: bool, drawn: set<ResId>, outcome: Outcome, id: ResId)
    requires !outcome.Invalid? && !outcome.NotCurrent? && id in drawn && CarriedBy(Batches(steps), id) > 0
    ensures
      var st := Exec(steps + [Frame(waitOk, drawn, outcome)]);
      && multiset(Ids(st.sent))[id] == CarriedBy(Batches(steps), id)
      && (!Owed(st, id) <==> id !in Raw(steps))
      && (outcome == Swapped(true) || outcome == SwapFailed(true) ==> id in st.reading)
  {
    ExecAppend(steps, Frame(waitOk, drawn, outcome));
    OwedIff(steps, waitOk, id);
    var st := Begin(WaitIdle(Exec(steps), waitOk));
    PendingElements(st.pending);
  }

  /** It happens with the simplest run: shown once, and still shown. */
  lemma {:induction false} ReleasedThenSampled(id: ResId)
    requires id != 0
    ensures
      var st := Exec(ShownOnce(id) + [Frame(true, {id}, Swapped(true))]);
      st.sent == [Release(id, false)] && id in st.reading && !Owed(st, id)
  {
    ShownOnceState(id);
    ExecAppend(ShownOnce(id), Frame(true, {id}, Swapped(true)));
    assert Releases([id], {}) == [Release(id, false)];
  }

  /* ---------- what the GPU reads, and since when ---------- */

  ghost function Fences(): Moment<Step> {
    (before: seq<Step>, step: Step) => step.Frame? && step.outcome == Swapped(true)
  }

  ghost function EndsFence(): Moment<Step> {
    (before: seq<Step>, step: Step) => (step.Frame? && !step.outcome.Invalid?) || step.Waited? || step.RendererGone?
  }

  /** A frame that leaves the GPU reading the token. */
  ghost function Reads(id: ResId): Moment<Step> {
    (before: seq<Step>, step: Step) =>
      step.Frame? && id in step.drawn && (step.outcome == Swapped(true) || step.outcome == SwapFailed(true))
  }

  /** A wait for the fence that succeeds, a glFinish, or the renderer's end. */
  ghost function EndsReads(): Moment<Step> {
    (before: seq<Step>, step: Step) =>
      || (step.Frame? && !step.outcome.Invalid? && (step.outcome == Swapped(false) || (Exec(before).fence && step.waitOk)))
      || (step.Waited? && Exec(before).fence && step.ok) || step.RendererGone?
  }

  ghost function Orphans(id: ResId): Moment<Step> {
    (before: seq<Step>, step: Step) => step.RendererGone? && id in Exec(before).own
  }

  ghost function Never(): Moment<Step> {
    (before: seq<Step>, step: Step) => false
  }

  /** A token is read from a frame that draws it until a wait or glFinish of the same renderer covers that frame. */
  lemma {:induction false} ReadSince(steps: seq<Step>, id: ResId)
    ensures Exec(steps).fence <==> Since(steps, Fences(), EndsFence())
    ensures id in Exec(steps).own <==> Since(steps, Reads(id), EndsReads())
    ensures id in Exec(steps).orphaned <==> Since(steps, Orphans(id), Never())
  {
    if steps != [] {
      ReadSince(steps[..|steps| - 1], id);
      SinceLast(steps, Fences(), EndsFence());
      SinceLast(steps, Reads(id), EndsReads());
      SinceLast(steps, Orphans(id), Never());
      StepReads(Exec(steps[..|steps| - 1]), steps[|steps| - 1], id);
    }
  }

  lemma {:induction false} StepReads(st: State, step: Step, id: ResId)
    ensures var st' := Apply(st, step);
      && (st'.fence <==> (step.Frame? && step.outcome == Swapped(true))
                         || (st.fence && !(step.Frame? && !step.outcome.Invalid?) && !step.Waited? && !step.RendererGone?))
      && (id in st'.own <==>
            || (step.Frame? && id in step.drawn && (step.outcome == Swapped(true) || step.outcome == SwapFailed(true)))
            || (id in st.own
                && !(step.Frame? && !step.outcome.Invalid? && (step.outcome == Swapped(false) || (st.fence && step.waitOk)))
                && !(step.Waited? && st.fence && step.ok) && !step.RendererGone?))
      && (id in st'.orphaned <==> id in st.orphaned || (step.RendererGone? && id in st.own))
  {
  }

  /* ---------- the lists as the code changes them ---------- */

  class Scanout {
    var pending: seq<ResId>
    var inflight: seq<ResId>
    var sent: seq<Release>
    var fence: bool
    var own: set<ResId>       // what the GPU reads; never consulted by a decision
    var orphaned: set<ResId>
    ghost var history: seq<Step>

    ghost function Now(): State
      reads this
    {
      State(pending, inflight, sent, fence, own, orphaned)
    }

    ghost predicate Valid()
      reads this
    {
      Now() == Exec(history)
    }

    constructor ()
      ensures Valid() && history == []
    {
      pending, inflight, sent, fence, own, orphaned, history := [], [], [], false, {}, {}, [];
    }

    /** remember_presented: walk the list, then push at its head. */
    method RememberPresented(id: ResId, memory: bool)
      requires Valid()
      modifies this
      ensures Valid() && history == old(history) + [Present(id, memory)]
      ensures inflight == old(inflight) && sent == old(sent)
      ensures pending == if id == 0 || id in old(pending) || !memory then old(pending) else [id] + old(pending)
    {
      var known := id == 0;
      var i := 0;
      while !known && i < |pending|
        invariant i <= |pending| && pending == old(pending) && inflight == old(inflight) && sent == old(sent)
        invariant Now() == old(Now()) && history == old(history)
        invariant known <==> id == 0 || id in pending[..i]
      {
        known := pending[i] == id;
        i := i + 1;
      }
      assert known <==> id == 0 || id in pending;
      if !known && memory {
        pending := [id] + pending;
      }
      var all := history + [Present(id, memory)];
      assert all[..|all| - 1] == history;
      history := all;
    }

    /** tvg_scanout_begin_frame: detach the in-flight list, then send its entries from the head. */
    method BeginFrame()
      modifies this`inflight, this`sent
      ensures Now() == Begin(old(Now()))
    {
      var list := inflight;
      inflight := [];
      ghost var done := 0;
      while list != []
        invariant done <= |old(inflight)| && list == old(inflight)[done..]
        invariant inflight == []
        invariant sent == old(sent) + Releases(old(inflight)[..done], own + orphaned)
        decreases |list|
      {
        assert old(inflight)[..done + 1] == old(inflight)[..done] + [list[0]];
        assert Releases(old(inflight)[..done + 1], own + orphaned)
            == Releases(old(inflight)[..done], own + orphaned) + [Release(list[0], list[0] in own + orphaned)];
        sent := sent + [Release(list[0], list[0] in own + orphaned)];
        list := list[1..];
        done := done + 1;
      }
      assert old(inflight)[..done] == old(inflight);
    }

    /** tvg_scanout_end_frame: move the pending entries one by one onto the in-flight list. */
    method EndFrame()
      modifies this`pending, this`inflight
      ensures Now() == End(old(Now()))
    {
      var list := pending;
      pending := [];
      ghost var done := 0;
      while list != []
        invariant done <= |old(pending)| && list == old(pending)[done..]
        invariant pending == []
        invariant inflight == Reverse(old(pending)[..done]) + old(inflight)
        decreases |list|
      {
        assert old(pending)[..done + 1] == old(pending)[..done] + [list[0]];
        ReverseSplit(old(pending)[..done], [list[0]]);
        assert Reverse([list[0]]) == [list[0]];
        inflight := [list[0]] + inflight;
        list := list[1..];
        done := done + 1;
      }
      assert old(pending)[..done] == old(pending);
    }

    /** trierarch_renderer_render, as far as tokens are concerned; tells whether the frame was presented. */
    method Render(waitOk: bool, drawn: set<ResId>, outcome: Outcome) returns (presented: bool)
      requires Valid()
      modifies this
      ensures Valid() && history == old(history) + [Frame(waitOk, drawn, outcome)]
      ensures presented <==> outcome.Swapped?
      ensures presented ==> pending == [] && inflight == Reverse(old(pending))
      ensures !presented ==> pending == old(pending)
      ensures Ids(sent) == Ids(old(sent)) + (if outcome.Invalid? then [] else old(inflight))
    {
      presented := TryFrame(waitOk, drawn, outcome);
      ExecAppend(history, Frame(waitOk, drawn, outcome));
      history := history + [Frame(waitOk, drawn, outcome)];
    }

    /** Nothing happens without a valid renderer. */
    method TryFrame(waitOk: bool, drawn: set<ResId>, outcome: Outcome) returns (presented: bool)
      modifies this`pending, this`inflight, this`sent, this`fence, this`own
      ensures Now() == Apply(old(Now()), Frame(waitOk, drawn, outcome))
      ensures presented <==> outcome.Swapped?
      ensures presented ==> pending == [] && inflight == Reverse(old(pending))
      ensures !presented ==> pending == old(pending)
      ensures Ids(sent) == Ids(old(sent)) + (if outcome.Invalid? then [] else old(inflight))
    {
      presented := false;
      if outcome.Invalid? {
        assert Ids(sent) + [] == Ids(sent);
      } else {
        presented := RunFrame(waitOk, drawn, outcome);
      }
    }

    /** Wait, release, draw and hand over, in this order. */
    method RunFrame(waitOk: bool, drawn: set<ResId>, outcome: Outcome) returns (presented: bool)
      requires !outcome.Invalid?
      modifies this`pending, this`inflight, this`sent, this`fence, this`own
      ensures Now() == Draw(Begin(WaitIdle(old(Now()), waitOk)), drawn, outcome)
      ensures presented <==> outcome.Swapped?
      ensures presented ==> pending == [] && inflight == Reverse(old(pending))
      ensures !presented ==> pending == old(pending)
      ensures Ids(sent) == Ids(old(sent)) + old(inflight)
    {
      Wait(waitOk);
      IdsOfReleases(sent, inflight, own + orphaned);
      BeginFrame();
      presented := DrawFrame(drawn, outcome);
      assert presented ==> inflight == Reverse(old(pending)) + [];
    }

    /** trierarch_renderer_wait_idle */
    method Wait(ok: bool)
      modifies this`fence, this`own
      ensures Now() == WaitIdle(old(Now()), ok)
    {
      if fence {
        if ok {
          own := {};
        }
        fence := false;
      }
    }

    /** A wait outside a frame, when a surface or an EGL buffer goes. */
    method WaitOutsideFrame(ok: bool)
      requires Valid()
      modifies this
      ensures Valid() && history == old(history) + [Waited(ok)] && inflight == old(inflight) && sent == old(sent)
    {
      Wait(ok);
      ExecAppend(history, Waited(ok));
      history := history + [Waited(ok)];
    }

    /** trierarch_renderer_destroy: the fence goes, the global token lists stay. */
    method DestroyRenderer()
      requires Valid()
      modifies this
      ensures Valid() && history == old(history) + [RendererGone] && inflight == old(inflight) && sent == old(sent)
    {
      fence := false;
      own, orphaned := {}, own + orphaned;
      ExecAppend(history, RendererGone);
      history := history + [RendererGone];
    }

    /** Drawing and swapping; a swapped frame hands its tokens over. */
    method DrawFrame(drawn: set<ResId>, outcome: Outcome) returns (presented: bool)
      modifies this`pending, this`inflight, this`fence, this`own
      ensures Now() == Draw(old(Now()), drawn, outcome) && (presented <==> outcome.Swapped?)
    {
      presented := false;
      match outcome {
        case Invalid =>
        case NotCurrent =>
        case SwapFailed(outstanding) =>
          if outstanding {
            own := own + drawn;
          }
        case Swapped(fenced) =>
          if fenced {
            fence, own := true, own + drawn;
          } else {
            own := {};
          }
          EndFrame();
          presented := true;
      }
    }
  }
}
