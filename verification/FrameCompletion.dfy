/**
  Every frame callback that was shown completes, and the log of a run is what
  the requests and compositions of that run amount to.
 */
module FrameCompletion {
  import opened Common
  import opened DrawOrder
  import opened FrameCallbacks

  /* ---------- where a requested callback is ---------- */

  ghost predicate IsRequested(st: State, s: SurfaceId, cb: CallbackId) {
    RequestedBefore(st.log, |st.log|, s, cb)
  }

  ghost predicate IsCommitted(st: State, s: SurfaceId, cb: CallbackId) {
    CommittedBefore(st.log, |st.log|, s, cb)
  }

  /** Unless cancelled, what the log says was requested and committed is in the surface's lists. */
  ghost predicate TrackedOn(st: State, s: SurfaceId, cb: CallbackId) {
    && (IsRequested(st, s, cb) ==> cb in st.used && s in st.born)
    && (s in st.lists && IsRequested(st, s, cb) && Cancelled(s, cb) !in st.log ==> cb in st.lists[s].requested)
    && (s in st.lists && IsCommitted(st, s, cb) && Cancelled(s, cb) !in st.log ==>
          cb in st.lists[s].done || cb in st.lists[s].committed)
  }

  lemma {:induction false} RequestedSplit(log: seq<Event>, more: seq<Event>, s: SurfaceId, cb: CallbackId)
    ensures RequestedBefore(log + more, |log + more|, s, cb) <==>
              RequestedBefore(log, |log|, s, cb) || Requested(s, cb) in more
  {
    if RequestedBefore(log + more, |log + more|, s, cb) {
      var i :| 0 <= i < |log + more| && (log + more)[i] == Requested(s, cb);
      assert i < |log| ==> log[i] == Requested(s, cb);
    }
    if RequestedBefore(log, |log|, s, cb) {
      RequestedStays(log, more, |log|, |log + more|, s, cb);
    }
    if Requested(s, cb) in more {
      var i :| 0 <= i < |more| && more[i] == Requested(s, cb);
      assert (log + more)[|log| + i] == Requested(s, cb);
    }
  }

  /** Events other than a commit of s commit nothing on it. */
  lemma {:induction false} CommittedSame(log: seq<Event>, more: seq<Event>, s: SurfaceId, cb: CallbackId)
    requires Committed(s) !in more
    ensures CommittedBefore(log + more, |log + more|, s, cb) <==> CommittedBefore(log, |log|, s, cb)
  {
    if CommittedBefore(log + more, |log + more|, s, cb) {
      var j :| 0 <= j < |log + more| && (log + more)[j] == Committed(s) && RequestedBefore(log + more, j, s, cb);
      assert j < |log|;
      var i :| 0 <= i < j && (log + more)[i] == Requested(s, cb);
      assert log[i] == Requested(s, cb) && log[j] == Committed(s);
    }
    if CommittedBefore(log, |log|, s, cb) {
      CommittedStays(log, more, |log|, |log + more|, s, cb);
    }
  }

  lemma {:induction false} CommittedNow(log: seq<Event>, s: SurfaceId, cb: CallbackId)
    ensures CommittedBefore(log + [Committed(s)], |log| + 1, s, cb) ==> RequestedBefore(log, |log|, s, cb)
  {
    if CommittedBefore(log + [Committed(s)], |log| + 1, s, cb) {
      var j :| 0 <= j < |log| + 1 && (log + [Committed(s)])[j] == Committed(s) && RequestedBefore(log + [Committed(s)], j, s, cb);
      var i :| 0 <= i < j && (log + [Committed(s)])[i] == Requested(s, cb);
      assert log[i] == Requested(s, cb);
    }
  }

  /** New events that neither request the callback nor commit its surface. */
  lemma {:induction false} TrackedStays(st: State, st': State, more: seq<Event>, s: SurfaceId, cb: CallbackId)
    requires TrackedOn(st, s, cb) && st'.log == st.log + more && st.used <= st'.used && st.born <= st'.born
    requires Requested(s, cb) !in more && Committed(s) !in more
    requires s in st'.lists && Cancelled(s, cb) !in st'.log && IsRequested(st, s, cb) ==>
      && s in st.lists
      && (cb in st.lists[s].requested ==> cb in st'.lists[s].requested)
      && (cb in st.lists[s].done || cb in st.lists[s].committed ==> cb in st'.lists[s].done || cb in st'.lists[s].committed)
    ensures TrackedOn(st', s, cb)
  {
    RequestedSplit(st.log, more, s, cb);
    CommittedSame(st.log, more, s, cb);
    if IsCommitted(st, s, cb) {
      var j :| 0 <= j < |st.log| && st.log[j] == Committed(s) && RequestedBefore(st.log, j, s, cb);
      assert st.log == st.log + [];
      RequestedStays(st.log, [], j, |st.log|, s, cb);
    }
    assert Cancelled(s, cb) in st.log ==> Cancelled(s, cb) in st'.log;
  }

  lemma {:induction false} FrameTracked(st: State, t: SurfaceId, c: CallbackId, s: SurfaceId, cb: CallbackId)
    requires Queued(st) && TrackedOn(st, s, cb)
    ensures TrackedOn(Apply(st, Frame(t, c)), s, cb)
  {
    if t in st.lists && c !in st.used {
      var st', e := Apply(st, Frame(t, c)), Requested(t, c);
      if e == Requested(s, cb) {
        CommittedSame(st.log, [e], s, cb);
        RequestedSplit(st.log, [e], s, cb);
      } else {
        TrackedStays(st, st', [e], s, cb);
      }
    }
  }

  lemma {:induction false} CommitTracked(st: State, t: SurfaceId, s: SurfaceId, cb: CallbackId)
    requires Queued(st) && TrackedOn(st, s, cb)
    ensures TrackedOn(Apply(st, Commit(t)), s, cb)
  {
    if t in st.lists {
      var st', e := Apply(st, Commit(t)), Committed(t);
      if t == s {
        RequestedSplit(st.log, [e], s, cb);
        CommittedNow(st.log, s, cb);
        assert ListsOk(st, s);
      } else {
        TrackedStays(st, st', [e], s, cb);
      }
    }
  }

  lemma {:induction false} CancelTracked(st: State, t: SurfaceId, c: CallbackId, s: SurfaceId, cb: CallbackId)
    requires Queued(st) && TrackedOn(st, s, cb)
    ensures TrackedOn(Apply(st, Cancel(t, c)), s, cb)
  {
    if t in st.lists && c in st.lists[t].requested && c !in st.lists[t].done {
      ExceptFacts(st.lists[t].requested, c);
      ExceptFacts(st.lists[t].committed, c);
      TrackedStays(st, Apply(st, Cancel(t, c)), [Cancelled(t, c)], s, cb);
    }
  }

  lemma {:induction false} RenderTracked(st: State, sc: Scene, depth: map<SurfaceId, nat>, bound: nat, outcome: Outcome,
                                         s: SurfaceId, cb: CallbackId)
    requires Queued(st) && TrackedOn(st, s, cb) && Forest(sc, depth, bound)
    ensures TrackedOn(ApplyRender(st, sc, depth, bound, outcome), s, cb)
  {
    if outcome.Swapped? {
      var latched := LatchedBy(st, sc, depth, bound);
      var more := [Swap(DrawAll(sc, depth, bound))] + AllDone(latched, st.order);
      forall e | e in more
        ensures !e.Requested? && !e.Committed?
      {
        if e in AllDone(latched, st.order) {
          AllDoneIsPresented(latched, st.order, e);
        }
      }
      assert ApplyRender(st, sc, depth, bound, outcome).log == st.log + more;
      TrackedStays(st, ApplyRender(st, sc, depth, bound, outcome), more, s, cb);
    } else {
      RenderFailedSame(st, sc, depth, bound, outcome);
    }
  }

  lemma {:induction false} RenderFailedSame(st: State, sc: Scene, depth: map<SurfaceId, nat>, bound: nat, outcome: Outcome)
    requires Queued(st) && Forest(sc, depth, bound) && !outcome.Swapped?
    ensures ApplyRender(st, sc, depth, bound, outcome) == st
  {
    forall t | t in st.lists
      ensures st.lists[t].presented == []
    {
      assert ListsOk(st, t);
    }
    RequeueUndoesLatch(st.lists, Participants(st, sc, depth, bound));
  }

  lemma {:induction false} StepTracked(st: State, step: Step, s: SurfaceId, cb: CallbackId)
    requires Queued(st) && TrackedOn(st, s, cb)
    ensures TrackedOn(Apply(st, step), s, cb)
  {
    match step
    case Frame(t, c) => FrameTracked(st, t, c, s, cb);
    case Commit(t) => CommitTracked(st, t, s, cb);
    case Cancel(t, c) => CancelTracked(st, t, c, s, cb);
    case NewSurface(t) =>
      assert st.log == st.log + [];
      TrackedStays(st, Apply(st, step), [], s, cb);
    case DestroySurface(t) =>
      assert st.log == st.log + [];
      TrackedStays(st, Apply(st, step), [], s, cb);
    case Render(sc, depth, bound, outcome) =>
      if Forest(sc, depth, bound) && sc.order == st.order { RenderTracked(st, sc, depth, bound, outcome, s, cb); }
  }

  lemma {:induction false} RunTracked(steps: seq<Step>, s: SurfaceId, cb: CallbackId)
    ensures TrackedOn(Exec(steps), s, cb)
  {
    if steps != [] {
      RunTracked(steps[..|steps| - 1], s, cb);
      RunKeeps(steps[..|steps| - 1]);
      StepTracked(Exec(steps[..|steps| - 1]), steps[|steps| - 1], s, cb);
    }
  }

  /* ---------- shown means done ---------- */

  /** Done by the end of the composition at m: after it, nothing but completions came first. */
  ghost predicate DoneBy(log: seq<Event>, m: nat, s: SurfaceId, cb: CallbackId) {
    exists k :: 0 <= k < |log| && log[k] == Done(s, cb) && forall j :: m < j <= k ==> log[j].Done?
  }

  lemma {:induction false} DoneByStays(log: seq<Event>, more: seq<Event>, m: nat, s: SurfaceId, cb: CallbackId)
    requires DoneBy(log, m, s, cb)
    ensures DoneBy(log + more, m, s, cb)
  {
    var k :| 0 <= k < |log| && log[k] == Done(s, cb) && forall j :: m < j <= k ==> log[j].Done?;
    assert (log + more)[k] == Done(s, cb);
    forall j | m < j <= k
      ensures (log + more)[j].Done?
    {
      assert (log + more)[j] == log[j];
    }
  }

  lemma {:induction false} ShowedBefore(log: seq<Event>, more: seq<Event>, m: nat, s: SurfaceId, cb: CallbackId)
    requires m < |log| && ShowsAt(log + more, m, s, cb)
    ensures ShowsAt(log, m, s, cb)
  {
    var all := log + more;
    assert all[m] == log[m] && all[..m] == log[..m];
    var j :| 0 <= j < m && all[j] == Committed(s) && RequestedBefore(all, j, s, cb);
    var i :| 0 <= i < j && all[i] == Requested(s, cb);
    assert log[i] == Requested(s, cb) && log[j] == Committed(s);
  }

  lemma {:induction false} InDoneEvents(lists: map<SurfaceId, Lists>, order: seq<SurfaceId>, s: SurfaceId, cb: CallbackId)
    requires s in order && s in lists && cb in lists[s].presented
    ensures Done(s, cb) in AllDone(lists, order)
  {
    if order[0] == s {
      var i :| 0 <= i < |lists[s].presented| && lists[s].presented[i] == cb;
      assert DoneEvents(s, lists[s].presented)[i] == Done(s, cb);
    } else {
      InDoneEvents(lists, order[1..], s, cb);
    }
  }

  lemma {:induction false} DoneOnMember(log: seq<Event>, s: SurfaceId, cb: CallbackId)
    requires cb in DoneOn(log, s)
    ensures Done(s, cb) in log
  {
    if log != [] && cb in DoneOn(log[..|log| - 1], s) {
      DoneOnMember(log[..|log| - 1], s, cb);
    }
  }

  lemma {:induction false} DoneAlready(log: seq<Event>, more: seq<Event>, s: SurfaceId, cb: CallbackId)
    requires cb in DoneOn(log, s)
    ensures DoneBy(log + more, |log|, s, cb)
  {
    DoneOnMember(log, s, cb);
    var k :| 0 <= k < |log| && log[k] == Done(s, cb);
    assert (log + more)[k] == Done(s, cb);
  }

  lemma {:induction false} DoneNow(log: seq<Event>, swap: Event, done: seq<Event>, s: SurfaceId, cb: CallbackId)
    requires Done(s, cb) in done && forall e :: e in done ==> e.Done?
    ensures DoneBy(log + ([swap] + done), |log|, s, cb)
  {
    var all := log + ([swap] + done);
    var k :| 0 <= k < |done| && done[k] == Done(s, cb);
    assert all[|log| + 1 + k] == Done(s, cb);
    forall j | |log| < j <= |log| + 1 + k
      ensures all[j].Done?
    {
      assert all[j] == done[j - |log| - 1];
    }
  }

  /** The composition at the end of the log completes what it shows, unless that was complete already. */
  lemma {:induction false} SwapCompletes(st: State, sc: Scene, depth: map<SurfaceId, nat>, bound: nat, s: SurfaceId, cb: CallbackId)
    requires Queued(st) && TrackedOn(st, s, cb) && LoggedOn(st, s) && Forest(sc, depth, bound) && sc.order == st.order
    requires s in DrawAll(sc, depth, bound) && IsCommitted(st, s, cb) && Cancelled(s, cb) !in st.log
    ensures DoneBy(ApplyRender(st, sc, depth, bound, Swapped).log, |st.log|, s, cb)
  {
    var latched := LatchedBy(st, sc, depth, bound);
    var swap, done := Swap(DrawAll(sc, depth, bound)), AllDone(latched, st.order);
    assert ApplyRender(st, sc, depth, bound, Swapped).log == st.log + ([swap] + done);
    DrawnIsAlive(st, sc, depth, bound, s);
    if cb in st.lists[s].done {
      DoneAlready(st.log, [swap] + done, s, cb);
    } else {
      InDoneEvents(latched, st.order, s, cb);
      forall e | e in done
        ensures e.Done?
      {
        AllDoneIsPresented(latched, st.order, e);
      }
      DoneNow(st.log, swap, done, s, cb);
    }
  }

  lemma {:induction false} SwapShowsWhat(st: State, sc: Scene, depth: map<SurfaceId, nat>, bound: nat, s: SurfaceId, cb: CallbackId)
    requires Forest(sc, depth, bound) && ShowsAt(ApplyRender(st, sc, depth, bound, Swapped).log, |st.log|, s, cb)
    ensures s in DrawAll(sc, depth, bound) && IsCommitted(st, s, cb) && Cancelled(s, cb) !in st.log
  {
    var more := [Swap(DrawAll(sc, depth, bound))] + AllDone(LatchedBy(st, sc, depth, bound), st.order);
    var log := ApplyRender(st, sc, depth, bound, Swapped).log;
    assert log == st.log + more && log[|st.log|] == more[0] && log[..|st.log|] == st.log;
    CommittedByThen(st.log, more, s, cb);
  }

  lemma {:induction false} CommittedByThen(log: seq<Event>, more: seq<Event>, s: SurfaceId, cb: CallbackId)
    requires CommittedBefore(log + more, |log|, s, cb)
    ensures CommittedBefore(log, |log|, s, cb)
  {
    var j :| 0 <= j < |log| && (log + more)[j] == Committed(s) && RequestedBefore(log + more, j, s, cb);
    var i :| 0 <= i < j && (log + more)[i] == Requested(s, cb);
    assert log[i] == Requested(s, cb) && log[j] == Committed(s);
  }

  lemma {:induction false} DrawnIsAlive(st: State, sc: Scene, depth: map<SurfaceId, nat>, bound: nat, s: SurfaceId)
    requires Queued(st) && Forest(sc, depth, bound) && sc.order == st.order && s in DrawAll(sc, depth, bound)
    ensures s in st.lists && s in Participants(st, sc, depth, bound) && s in st.order
  {
    DrawnInOrder(sc, depth, bound);
    DrawnFromScene(sc, depth, bound, s);
    assert s in st.order;
    DrawnIffParticipates(sc, depth, bound, s);
  }

  lemma {:induction false} DrawnFromScene(sc: Scene, depth: map<SurfaceId, nat>, bound: nat, s: SurfaceId)
    requires Forest(sc, depth, bound) && s in DrawAll(sc, depth, bound)
    ensures s in sc.surfaces
  {
    forall pass: nat
      ensures Painted(sc, depth, bound, pass, DrawPass(sc, depth, bound, pass, sc.order))
    {
      PassPainted(sc, depth, bound, pass);
    }
  }

  /** Whatever a composition shows is done by the end of that composition at the latest. */
  lemma {:induction false} ShownIsDone(steps: seq<Step>, m: nat, s: SurfaceId, cb: CallbackId)
    requires m < |Exec(steps).log| && ShowsAt(Exec(steps).log, m, s, cb)
    ensures DoneBy(Exec(steps).log, m, s, cb)
  {
    var before, last := steps[..|steps| - 1], steps[|steps| - 1];
    var st := Exec(before);
    LogGrows(st, last);
    var more := Exec(steps).log[|st.log|..];
    assert Exec(steps).log == st.log + more;
    if m < |st.log| {
      ShowedBefore(st.log, more, m, s, cb);
      ShownIsDone(before, m, s, cb);
      DoneByStays(st.log, more, m, s, cb);
    } else {
      SwapAtEnd(st, last, m);
      RunKeeps(before);
      RunTracked(before, s, cb);
      RunLogged(before, s);
      SwapShowsWhat(st, last.sc, last.depth, last.bound, s, cb);
      SwapCompletes(st, last.sc, last.depth, last.bound, s, cb);
    }
  }

  lemma {:induction false} LogGrows(st: State, step: Step)
    ensures |st.log| <= |Apply(st, step).log| && Apply(st, step).log[..|st.log|] == st.log
  {
  }

  /** Only a swapped composition logs a swap, and as the first of its events. */
  lemma {:induction false} SwapAtEnd(st: State, step: Step, m: nat)
    requires |st.log| <= m < |Apply(st, step).log| && Apply(st, step).log[m].Swap?
    ensures step.Render? && step.outcome.Swapped? && m == |st.log|
    ensures Forest(step.sc, step.depth, step.bound) && step.sc.order == st.order
  {
    if step.Render? && m > |st.log| {
      var done := AllDone(LatchedBy(st, step.sc, step.depth, step.bound), st.order);
      assert Apply(st, step).log[m] == done[m - |st.log| - 1];
      AllDoneIsPresented(LatchedBy(st, step.sc, step.depth, step.bound), st.order, done[m - |st.log| - 1]);
    }
  }

  /**
    A callback completes exactly if it was requested, then committed, and then,
    not cancelled, part of a composition whose swap succeeded.
   */
  lemma {:induction false} DoneIffShown(steps: seq<Step>, s: SurfaceId, cb: CallbackId)
    ensures var log := Exec(steps).log; Done(s, cb) in log <==> ShownBefore(log, |log|, s, cb)
  {
    var log := Exec(steps).log;
    if Done(s, cb) in log {
      var k :| 0 <= k < |log| && log[k] == Done(s, cb);
      DoneOnlyAfterShown(steps, k);
      assert log + [] == log;
      ShownStays(log, [], k, |log|, s, cb);
    }
    if ShownBefore(log, |log|, s, cb) {
      var m :| 0 <= m < |log| && ShowsAt(log, m, s, cb);
      ShownIsDone(steps, m, s, cb);
    }
  }

  /* ---------- the log is what happened ---------- */

  ghost predicate CreatedAt(steps: seq<Step>, k: nat, s: SurfaceId)
    requires k < |steps|
  {
    steps[k] == NewSurface(s) && NewSurface(s) !in steps[..k]
  }

  ghost predicate AliveSince(steps: seq<Step>, k: nat, s: SurfaceId)
    requires k < |steps|
  {
    CreatedAt(steps, k, s) && DestroySurface(s) !in steps[k..]
  }

  /** Created and not destroyed since; an id is used once. */
  ghost predicate Alive(steps: seq<Step>, s: SurfaceId) {
    exists k :: 0 <= k < |steps| && AliveSince(steps, k, s)
  }

  lemma {:induction false} AliveLast(steps: seq<Step>, s: SurfaceId)
    requires steps != []
    ensures var before, last := steps[..|steps| - 1], steps[|steps| - 1];
      Alive(steps, s) <==>
        if last == NewSurface(s) && NewSurface(s) !in before then true
        else last != DestroySurface(s) && Alive(before, s)
  {
    var before, n := steps[..|steps| - 1], |steps| - 1;
    if steps[n] == NewSurface(s) && NewSurface(s) !in before {
      assert steps[n..] == [steps[n]];
      assert AliveSince(steps, n, s);
    } else {
      if Alive(steps, s) {
        var k :| 0 <= k < |steps| && AliveSince(steps, k, s);
        assert k < n && steps[k..] == before[k..] + [steps[n]] && steps[..k] == before[..k];
        assert AliveSince(before, k, s);
      }
      if steps[n] != DestroySurface(s) && Alive(before, s) {
        var k :| 0 <= k < |before| && AliveSince(before, k, s);
        assert steps[k..] == before[k..] + [steps[n]] && steps[..k] == before[..k];
        assert AliveSince(steps, k, s);
      }
    }
  }

  lemma {:induction false} AliveIff(steps: seq<Step>, s: SurfaceId)
    ensures s in Exec(steps).lists <==> Alive(steps, s)
    ensures s in Exec(steps).born <==> NewSurface(s) in steps
  {
    if steps != [] {
      var before, last := steps[..|steps| - 1], steps[|steps| - 1];
      AliveIff(before, s);
      AliveLast(steps, s);
      RunKeeps(before);
      assert steps == before + [last];
      if last.Render? {
        RenderSameSurfaces(Exec(before), last);
      }
    }
  }

  lemma {:induction false} RenderSameSurfaces(st: State, step: Step)
    requires step.Render?
    ensures Apply(st, step).lists.Keys == st.lists.Keys && Apply(st, step).born == st.born && Apply(st, step).used == st.used
  {
  }

  /** The log without the completions. */
  function Happened(log: seq<Event>): seq<Event> {
    if log == [] then []
    else Happened(log[..|log| - 1]) + (if log[|log| - 1].Done? then [] else [log[|log| - 1]])
  }

  /** What one more step of a run adds, judged by the steps before it. */
  ghost function Noted(before: seq<Step>, step: Step): seq<Event>
    decreases |before|, 1
  {
    match step
    case Frame(s, cb) =>
      if Alive(before, s) && forall t: SurfaceId :: Requested(t, cb) !in Trace(before) then [Requested(s, cb)] else []
    case Commit(s) => if Alive(before, s) then [Committed(s)] else []
    case Cancel(s, cb) =>
      if && Alive(before, s) && Requested(s, cb) in Trace(before) && Cancelled(s, cb) !in Trace(before)
         && Done(s, cb) !in Exec(before).log
      then [Cancelled(s, cb)] else []
    case Render(sc, depth, bound, outcome) =>
      if outcome.Swapped? && Forest(sc, depth, bound) && sc.order == Exec(before).order
      then [Swap(DrawAll(sc, depth, bound))] else []
    case NewSurface(_) => []
    case DestroySurface(_) => []
  }

  ghost function Trace(steps: seq<Step>): seq<Event>
    decreases |steps|, 0
  {
    if steps == [] then [] else Trace(steps[..|steps| - 1]) + Noted(steps[..|steps| - 1], steps[|steps| - 1])
  }

  lemma {:induction false} HappenedConcat(a: seq<Event>, b: seq<Event>)
    ensures Happened(a + b) == Happened(a) + Happened(b)
    decreases b
  {
    if b == [] {
      assert a + b == a;
    } else {
      HappenedConcat(a, b[..|b| - 1]);
      assert (a + b)[..|a + b| - 1] == a + b[..|b| - 1];
    }
  }

  lemma {:induction false} HappenedOne(log: seq<Event>, e: Event)
    requires !e.Done?
    ensures Happened(log + [e]) == Happened(log) + [e]
  {
    assert (log + [e])[..|log + [e]| - 1] == log;
  }

  lemma {:induction false} NothingButDone(done: seq<Event>)
    requires forall e :: e in done ==> e.Done?
    ensures Happened(done) == []
  {
    if done != [] {
      NothingButDone(done[..|done| - 1]);
    }
  }

  lemma {:induction false} HappenedIn(log: seq<Event>, e: Event)
    requires !e.Done?
    ensures e in Happened(log) <==> e in log
  {
    if log != [] {
      HappenedIn(log[..|log| - 1], e);
      assert log == log[..|log| - 1] + [log[|log| - 1]];
    }
  }

  ghost predicate UsedIff(st: State, cb: CallbackId) {
    cb in st.used <==> exists t: SurfaceId :: Requested(t, cb) in st.log
  }

  lemma {:induction false} RunUsed(steps: seq<Step>, cb: CallbackId)
    ensures UsedIff(Exec(steps), cb)
  {
    if steps != [] {
      var st, step := Exec(steps[..|steps| - 1]), steps[|steps| - 1];
      RunUsed(steps[..|steps| - 1], cb);
      LogGrows(st, step);
      forall t: SurfaceId | Requested(t, cb) in st.log
        ensures Requested(t, cb) in Apply(st, step).log
      {
        var i :| 0 <= i < |st.log| && st.log[i] == Requested(t, cb);
        assert Apply(st, step).log[..|st.log|][i] == Apply(st, step).log[i];
      }
      StepUsed(st, step, cb);
    }
  }

  lemma {:induction false} StepUsed(st: State, step: Step, cb: CallbackId)
    requires UsedIff(st, cb)
    requires forall t: SurfaceId :: Requested(t, cb) in st.log ==> Requested(t, cb) in Apply(st, step).log
    ensures UsedIff(Apply(st, step), cb)
  {
    var st' := Apply(st, step);
    if step.Render? {
      RenderSameSurfaces(st, step);
      forall t: SurfaceId | Requested(t, cb) in st'.log
        ensures Requested(t, cb) in st.log
      {
        RenderRequestsNothing(st, step, Requested(t, cb));
      }
    } else if step.Frame? && step.s in st.lists && step.cb !in st.used {
      assert Requested(step.s, step.cb) in st'.log;
    }
  }

  /** Whether a cancel is heeded can be read off the log. */
  lemma {:induction false} CancellableIff(steps: seq<Step>, s: SurfaceId, cb: CallbackId)
    requires s in Exec(steps).lists
    ensures var st := Exec(steps);
      (cb in st.lists[s].requested && cb !in st.lists[s].done) <==>
        (Requested(s, cb) in st.log && Cancelled(s, cb) !in st.log && Done(s, cb) !in st.log)
  {
    var st := Exec(steps);
    RunKeeps(steps);
    RunLogged(steps, s);
    RunTracked(steps, s, cb);
    assert ListsOk(st, s) && ListsCaused(st, s);
    if Done(s, cb) in st.log {
      var k :| 0 <= k < |st.log| && st.log[k] == Done(s, cb);
      DoneIn(st.log, k);
    }
    if cb in st.lists[s].done {
      DoneOnMember(st.log, s, cb);
    } else if cb in st.lists[s].requested {
      WaitingWasRequested(st, s, cb);
    }
  }

  lemma {:induction false} WaitingWasRequested(st: State, s: SurfaceId, cb: CallbackId)
    requires s in st.lists && ListsOk(st, s) && ListsCaused(st, s)
    requires cb in st.lists[s].requested && cb !in st.lists[s].done
    ensures Requested(s, cb) in st.log && Cancelled(s, cb) !in st.log
  {
    if cb in st.lists[s].committed {
      var j :| 0 <= j < |st.log| && st.log[j] == Committed(s) && RequestedBefore(st.log, j, s, cb);
    } else {
      assert cb in st.lists[s].pending;
    }
  }

  lemma {:induction false} RenderNoted(before: seq<Step>, step: Step)
    requires step.Render?
    ensures Happened(Apply(Exec(before), step).log) == Happened(Exec(before).log) + Noted(before, step)
  {
    var st := Exec(before);
    RunKeeps(before);
    if Forest(step.sc, step.depth, step.bound) && step.sc.order == st.order {
      if step.outcome.Swapped? {
        var latched := LatchedBy(st, step.sc, step.depth, step.bound);
        var swap, done := Swap(DrawAll(step.sc, step.depth, step.bound)), AllDone(latched, st.order);
        forall e | e in done
          ensures e.Done?
        {
          AllDoneIsPresented(latched, st.order, e);
        }
        HappenedConcat(st.log + [swap], done);
        HappenedOne(st.log, swap);
        NothingButDone(done);
      } else {
        RenderFailedSame(st, step.sc, step.depth, step.bound, step.outcome);
      }
    }
  }

  lemma {:induction false} FrameNoted(before: seq<Step>, s: SurfaceId, cb: CallbackId)
    requires Happened(Exec(before).log) == Trace(before)
    ensures Happened(Apply(Exec(before), Frame(s, cb)).log) == Trace(before) + Noted(before, Frame(s, cb))
  {
    var st := Exec(before);
    AliveIff(before, s);
    FreshIff(before, cb);
    if s in st.lists && cb !in st.used {
      HappenedOne(st.log, Requested(s, cb));
    }
  }

  /** A callback id is free exactly if the trace has no request for it. */
  lemma {:induction false} FreshIff(before: seq<Step>, cb: CallbackId)
    requires Happened(Exec(before).log) == Trace(before)
    ensures cb !in Exec(before).used <==> forall t: SurfaceId :: Requested(t, cb) !in Trace(before)
  {
    RunUsed(before, cb);
    forall t: SurfaceId
      ensures Requested(t, cb) in Trace(before) <==> Requested(t, cb) in Exec(before).log
    {
      HappenedIn(Exec(before).log, Requested(t, cb));
    }
  }

  lemma {:induction false} CancelNoted(before: seq<Step>, s: SurfaceId, cb: CallbackId)
    requires Happened(Exec(before).log) == Trace(before)
    ensures Happened(Apply(Exec(before), Cancel(s, cb)).log) == Trace(before) + Noted(before, Cancel(s, cb))
  {
    var st := Exec(before);
    AliveIff(before, s);
    HappenedIn(st.log, Requested(s, cb));
    HappenedIn(st.log, Cancelled(s, cb));
    if s in st.lists {
      CancellableIff(before, s, cb);
    }
    HappenedOne(st.log, Cancelled(s, cb));
  }

  lemma {:induction false} RequestNoted(before: seq<Step>, step: Step)
    requires !step.Render? && Happened(Exec(before).log) == Trace(before)
    ensures Happened(Apply(Exec(before), step).log) == Trace(before) + Noted(before, step)
  {
    match step
    case Frame(s, cb) => FrameNoted(before, s, cb);
    case Commit(s) =>
      AliveIff(before, s);
      HappenedOne(Exec(before).log, Committed(s));
    case Cancel(s, cb) => CancelNoted(before, s, cb);
    case NewSurface(_) =>
    case DestroySurface(_) =>
  }

  /**
    Apart from the completions the log is exactly the accepted requests, the
    heeded cancels and the swapped compositions of the run, in order.
   */
  lemma {:induction false} LogIsTrace(steps: seq<Step>)
    ensures Happened(Exec(steps).log) == Trace(steps)
  {
    if steps != [] {
      var before, last := steps[..|steps| - 1], steps[|steps| - 1];
      LogIsTrace(before);
      if last.Render? {
        RenderNoted(before, last);
      } else {
        RequestNoted(before, last);
      }
    }
  }

  lemma {:induction false} ExceptKeepsOrder(a: seq<nat>, x: nat, i: nat, j: nat)
    requires i < j < |Except(a, x)|
    ensures exists k, l :: 0 <= k < l < |a| && a[k] == Except(a, x)[i] && a[l] == Except(a, x)[j]
    decreases a
  {
    if a[0] == x {
      ExceptKeepsOrder(a[1..], x, i, j);
      var k, l :| 0 <= k < l < |a[1..]| && a[1..][k] == Except(a, x)[i] && a[1..][l] == Except(a, x)[j];
      assert a[k + 1] == Except(a, x)[i] && a[l + 1] == Except(a, x)[j];
    } else if i > 0 {
      ExceptKeepsOrder(a[1..], x, i - 1, j - 1);
      var k, l :| 0 <= k < l < |a[1..]| && a[1..][k] == Except(a[1..], x)[i - 1] && a[1..][l] == Except(a[1..], x)[j - 1];
      assert a[k + 1] == Except(a, x)[i] && a[l + 1] == Except(a, x)[j];
    } else {
      var y := Except(a, x)[j];
      assert y == Except(a[1..], x)[j - 1] && y in Except(a[1..], x);
      ExceptFacts(a[1..], x);
      var l :| 0 <= l < |a[1..]| && a[1..][l] == y;
      assert a[0] == Except(a, x)[0] && a[l + 1] == y;
    }
  }

  ghost predicate Older(steps: seq<Step>, s: SurfaceId, t: SurfaceId) {
    exists k, l :: 0 <= k < l < |steps| && CreatedAt(steps, k, s) && CreatedAt(steps, l, t)
  }

  lemma {:induction false} OlderStays(steps: seq<Step>, step: Step, s: SurfaceId, t: SurfaceId)
    requires Older(steps, s, t)
    ensures Older(steps + [step], s, t)
  {
    var k, l :| 0 <= k < l < |steps| && CreatedAt(steps, k, s) && CreatedAt(steps, l, t);
    var more := steps + [step];
    assert more[..k] == steps[..k] && more[..l] == steps[..l];
    assert CreatedAt(more, k, s) && CreatedAt(more, l, t);
  }

  lemma {:induction false} OlderThanNew(steps: seq<Step>, s: SurfaceId, t: SurfaceId)
    requires NewSurface(s) in steps && NewSurface(t) !in steps
    ensures Older(steps + [NewSurface(t)], s, t)
  {
    var more := steps + [NewSurface(t)];
    FirstCreation(steps, s);
    var k :| 0 <= k < |steps| && CreatedAt(steps, k, s);
    assert more[..k] == steps[..k] && more[..|steps|] == steps;
    assert CreatedAt(more, k, s) && CreatedAt(more, |steps|, t);
  }

  lemma {:induction false} FirstCreation(steps: seq<Step>, s: SurfaceId)
    requires NewSurface(s) in steps
    ensures exists k :: 0 <= k < |steps| && CreatedAt(steps, k, s)
  {
    var n, before := |steps| - 1, steps[..|steps| - 1];
    if NewSurface(s) in before {
      FirstCreation(before, s);
      var k :| 0 <= k < |before| && CreatedAt(before, k, s);
      assert steps[..k] == before[..k];
      assert CreatedAt(steps, k, s);
    } else {
      assert CreatedAt(steps, n, s);
    }
  }

  lemma {:induction false} OrderStays(st: State, step: Step)
    requires !step.DestroySurface? && (step.NewSurface? ==> step.s in st.born)
    ensures Apply(st, step).order == st.order
  {
  }

  lemma {:induction false} ListedIsOlder(steps: seq<Step>, s: SurfaceId, t: SurfaceId)
    requires s in Exec(steps).order && t !in Exec(steps).born
    ensures Older(steps + [NewSurface(t)], s, t)
  {
    RunKeeps(steps);
    AliveIff(steps, s);
    AliveIff(steps, t);
    OlderThanNew(steps, s, t);
  }

  /** The surface list holds the living surfaces, newest first. */
  lemma {:induction false} NewestFirst(steps: seq<Step>, i: nat, j: nat)
    requires i < j < |Exec(steps).order|
    ensures Older(steps, Exec(steps).order[j], Exec(steps).order[i])
  {
    var order, before, last := Exec(steps).order, steps[..|steps| - 1], steps[|steps| - 1];
    var was := Exec(before).order;
    assert steps == before + [last];
    if last.NewSurface? && last.s !in Exec(before).born {
      if i == 0 {
        assert order[j] == was[j - 1] && order[j] in was;
        ListedIsOlder(before, order[j], last.s);
      } else {
        NewestFirst(before, i - 1, j - 1);
        OlderStays(before, last, order[j], order[i]);
      }
    } else if last.DestroySurface? {
      ExceptKeepsOrder(was, last.s, i, j);
      var k, l :| 0 <= k < l < |was| && was[k] == order[i] && was[l] == order[j];
      NewestFirst(before, k, l);
      OlderStays(before, last, order[j], order[i]);
    } else {
      OrderStays(Exec(before), last);
      NewestFirst(before, i, j);
      OlderStays(before, last, order[j], order[i]);
    }
  }

  predicate NotAfter(order: seq<SurfaceId>, s: SurfaceId, t: SurfaceId) {
    exists i, j :: 0 <= i <= j < |order| && order[i] == s && order[j] == t
  }

  /** Completions only, surface by surface in list order. */
  ghost predicate DoneInOrder(order: seq<SurfaceId>, done: seq<Event>) {
    && (forall k :: 0 <= k < |done| ==> done[k].Done?)
    && (forall j, k :: 0 <= j <= k < |done| ==> NotAfter(order, done[j].s, done[k].s))
  }

  lemma {:induction false} NotAfterCons(order: seq<SurfaceId>, s: SurfaceId, t: SurfaceId)
    requires order != [] && NotAfter(order[1..], s, t)
    ensures NotAfter(order, s, t) && NotAfter(order, order[0], t)
  {
    var i, j :| 0 <= i <= j < |order[1..]| && order[1..][i] == s && order[1..][j] == t;
    assert order[i + 1] == s && order[j + 1] == t;
  }

  lemma {:induction false} DoneAppend(order: seq<SurfaceId>, first: seq<Event>, rest: seq<Event>)
    requires order != [] && (forall k :: 0 <= k < |first| ==> first[k].Done? && first[k].s == order[0])
    requires DoneInOrder(order[1..], rest)
    ensures DoneInOrder(order, first + rest)
  {
    var done := first + rest;
    forall j, k | 0 <= j <= k < |done|
      ensures done[j].Done? && done[k].Done? && NotAfter(order, done[j].s, done[k].s)
    {
      if |first| <= k {
        assert done[k] == rest[k - |first|];
        if |first| <= j {
          NotAfterCons(order, rest[j - |first|].s, rest[k - |first|].s);
        } else {
          NotAfterCons(order, rest[k - |first|].s, rest[k - |first|].s);
        }
      } else {
        assert order[0] == first[j].s == first[k].s;
      }
    }
  }

  lemma {:induction false} AllDoneInOrder(lists: map<SurfaceId, Lists>, order: seq<SurfaceId>)
    ensures DoneInOrder(order, AllDone(lists, order))
  {
    if order != [] {
      AllDoneInOrder(lists, order[1..]);
      var first := if order[0] in lists then DoneEvents(order[0], lists[order[0]].presented) else [];
      DoneAppend(order, first, AllDone(lists, order[1..]));
    }
  }

  /** Completions of one composition are sent surface by surface, the newest surface first. */
  lemma {:induction false} DoneNewestFirst(steps: seq<Step>, j: nat, k: nat)
    requires j < k < |Exec(steps).log| && forall i :: j <= i <= k ==> Exec(steps).log[i].Done?
    ensures var log := Exec(steps).log; log[j].s == log[k].s || Older(steps, log[k].s, log[j].s)
  {
    var before, last := steps[..|steps| - 1], steps[|steps| - 1];
    var st, log := Exec(before), Exec(steps).log;
    assert steps == before + [last];
    LogGrows(st, last);
    assert forall i :: 0 <= i < |st.log| ==> log[i] == log[..|st.log|][i];
    if k < |st.log| {
      DoneNewestFirst(before, j, k);
      if log[j].s != log[k].s {
        OlderStays(before, last, log[k].s, log[j].s);
      }
    } else {
      NewDone(before, last, j, k);
    }
  }

  lemma {:induction false} NewDone(before: seq<Step>, step: Step, j: nat, k: nat)
    requires |Exec(before).log| <= k < |Apply(Exec(before), step).log| && j < k
    requires forall i :: j <= i <= k ==> Apply(Exec(before), step).log[i].Done?
    ensures var log := Apply(Exec(before), step).log; log[j].s == log[k].s || Older(before + [step], log[k].s, log[j].s)
  {
    var st, log := Exec(before), Apply(Exec(before), step).log;
    NewDoneAt(st, step, j, k);
    var a, b :| 0 <= a <= b < |st.order| && st.order[a] == log[j].s && st.order[b] == log[k].s;
    if a < b {
      NewestFirst(before, a, b);
      OlderStays(before, step, log[k].s, log[j].s);
    }
  }

  lemma {:induction false} NewDoneAt(st: State, step: Step, j: nat, k: nat)
    requires |st.log| <= k < |Apply(st, step).log| && j < k
    requires forall i :: j <= i <= k ==> Apply(st, step).log[i].Done?
    ensures var log := Apply(st, step).log; NotAfter(st.order, log[j].s, log[k].s)
  {
    assert Apply(st, step).log[k].Done?;
    DoneIsSwapped(st, step, k);
    var latched, swap := LatchedBy(st, step.sc, step.depth, step.bound), Swap(DrawAll(step.sc, step.depth, step.bound));
    AllDoneInOrder(latched, st.order);
    NewDoneIn(st.log, swap, AllDone(latched, st.order), st.order, j, k);
  }

  /** Only a swapped composition completes anything. */
  lemma {:induction false} DoneIsSwapped(st: State, step: Step, k: nat)
    requires |st.log| <= k < |Apply(st, step).log| && Apply(st, step).log[k].Done?
    ensures step.Render? && Forest(step.sc, step.depth, step.bound) && step.sc.order == st.order && step.outcome.Swapped?
  {
  }

  lemma {:induction false} NewDoneIn(log: seq<Event>, swap: Event, done: seq<Event>, order: seq<SurfaceId>, j: nat, k: nat)
    requires DoneInOrder(order, done) && swap.Swap? && |log| <= k < |log + [swap] + done| && j < k
    requires forall i :: j <= i <= k ==> (log + [swap] + done)[i].Done?
    ensures var all := log + [swap] + done; NotAfter(order, all[j].s, all[k].s)
  {
    var all, base := log + [swap] + done, |log| + 1;
    assert all[|log|] == swap;
    assert base <= j && all[j] == done[j - base] && all[k] == done[k - base];
  }
}
