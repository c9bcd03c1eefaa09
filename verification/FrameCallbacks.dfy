/**
  wl_surface.frame callbacks: wayland-host/src/surface.c:42-100, 289-291,
  366-375, 448-484 and the render path of wayland-host/src/renderer.c:811-853.

  A callback waits in `pending` for a commit, in `committed` for a
  composition and in `presented` for the swap of that composition.
 */
module FrameCallbacks {
  import opened Common
  import opened DrawOrder

  type CallbackId = nat

  /** `requested` and `done` are the surface's history, in order of occurrence. */
  datatype Lists = Lists(
    pending: seq<CallbackId>, committed: seq<CallbackId>, presented: seq<CallbackId>,
    requested: seq<CallbackId>, done: seq<CallbackId>)

  datatype Event =
    | Requested(s: SurfaceId, cb: CallbackId)
    | Committed(s: SurfaceId)
    | Cancelled(s: SurfaceId, cb: CallbackId)
    | Swap(drawn: seq<SurfaceId>)
    | Done(s: SurfaceId, cb: CallbackId)

  datatype State = State(
    order: seq<SurfaceId>, lists: map<SurfaceId, Lists>,
    born: set<SurfaceId>, used: set<CallbackId>, log: seq<Event>)

  const INITIAL := State([], map[], {}, {}, [])

  datatype Outcome = NotCurrent | SwapFailed | Swapped

  datatype Step =
    | NewSurface(s: SurfaceId)
    | Frame(s: SurfaceId, cb: CallbackId)
    | Commit(s: SurfaceId)
    | Cancel(s: SurfaceId, cb: CallbackId)  // the client's wl_callback goes away unanswered
    | DestroySurface(s: SurfaceId)
    | Render(sc: Scene, depth: map<SurfaceId, nat>, bound: nat, outcome: Outcome)  // of the surfaces alive

  /* ---------- operations ---------- */

  function Except(cbs: seq<CallbackId>, cb: CallbackId): seq<CallbackId> {
    if cbs == [] then []
    else if cbs[0] == cb then Except(cbs[1..], cb)
    else [cbs[0]] + Except(cbs[1..], cb)
  }

  function Latched(x: Lists): Lists {
    x.(presented := x.presented + x.committed, committed := [])
  }

  function Requeued(x: Lists): Lists {
    x.(committed := x.committed + x.presented, presented := [])
  }

  function Sent(x: Lists): Lists {
    x.(done := x.done + x.presented, presented := [])
  }

  function Latch(lists: map<SurfaceId, Lists>, shown: set<SurfaceId>): map<SurfaceId, Lists> {
    map s | s in lists :: if s in shown then Latched(lists[s]) else lists[s]
  }

  function Requeue(lists: map<SurfaceId, Lists>): map<SurfaceId, Lists> {
    map s | s in lists :: Requeued(lists[s])
  }

  function Send(lists: map<SurfaceId, Lists>): map<SurfaceId, Lists> {
    map s | s in lists :: Sent(lists[s])
  }

  function DoneEvents(s: SurfaceId, cbs: seq<CallbackId>): seq<Event> {
    seq(|cbs|, i requires 0 <= i < |cbs| => Done(s, cbs[i]))
  }

  /** The done events of all surfaces, in list order. */
  function AllDone(lists: map<SurfaceId, Lists>, order: seq<SurfaceId>): seq<Event>
  {
    if order == [] then []
    else (if order[0] in lists then DoneEvents(order[0], lists[order[0]].presented) else [])
         + AllDone(lists, order[1..])
  }

  ghost function Participants(st: State, sc: Scene, depth: map<SurfaceId, nat>, bound: nat): set<SurfaceId>
    requires Forest(sc, depth, bound)
  {
    set s | s in st.lists && s in sc.surfaces && Participates(sc, depth, bound, s)
  }

  ghost function ApplyRender(st: State, sc: Scene, depth: map<SurfaceId, nat>, bound: nat, outcome: Outcome): State
    requires Forest(sc, depth, bound)
  {
    var latched := Latch(st.lists, Participants(st, sc, depth, bound));
    match outcome
    case NotCurrent => st
    case SwapFailed => st.(lists := Requeue(latched))
    case Swapped => st.(lists := Send(latched),
                        log := st.log + [Swap(DrawAll(sc, depth, bound))] + AllDone(latched, st.order))
  }

  ghost function Apply(st: State, step: Step): State {
    match step
    case NewSurface(s) =>
      if s in st.born then st
      else st.(order := [s] + st.order, born := st.born + {s}, lists := st.lists[s := Lists([], [], [], [], [])])
    case Frame(s, cb) =>
      if s !in st.lists || cb in st.used then st
      else
        var x := st.lists[s];
        st.(lists := st.lists[s := x.(pending := x.pending + [cb], requested := x.requested + [cb])],
            used := st.used + {cb}, log := st.log + [Requested(s, cb)])
    case Commit(s) =>
      if s !in st.lists then st
      else
        var x := st.lists[s];
        st.(lists := st.lists[s := x.(committed := x.committed + x.pending, pending := [])],
            log := st.log + [Committed(s)])
    case Cancel(s, cb) =>
      if s !in st.lists || cb !in st.lists[s].requested || cb in st.lists[s].done then st
      else
        var x := st.lists[s];
        st.(lists := st.lists[s := x.(pending := Except(x.pending, cb), committed := Except(x.committed, cb),
                                      presented := Except(x.presented, cb), requested := Except(x.requested, cb))],
            log := st.log + [Cancelled(s, cb)])
    case DestroySurface(s) =>
      st.(order := Except(st.order, s), lists := st.lists - {s})
    case Render(sc, depth, bound, outcome) =>
      if Forest(sc, depth, bound) && sc.order == st.order then ApplyRender(st, sc, depth, bound, outcome) else st
  }

  ghost function Exec(steps: seq<Step>): State {
    if steps == [] then INITIAL else Apply(Exec(steps[..|steps| - 1]), steps[|steps| - 1])
  }

  /* ---------- what every step keeps ---------- */

  /** Between steps nothing is latched, and the history is the done ones followed by the lists in order. */
  ghost predicate InOrder(x: Lists) {
    && x.presented == []
    && x.requested == x.done + x.committed + x.pending
    && NoDup(x.requested)
  }

  /** A failed swap puts back exactly what the latch took, in place. */
  lemma RequeueUndoesLatch(lists: map<SurfaceId, Lists>, shown: set<SurfaceId>)
    requires forall s :: s in lists ==> lists[s].presented == []
    ensures Requeue(Latch(lists, shown)) == lists
  {
    forall s | s in lists
      ensures Requeue(Latch(lists, shown))[s] == lists[s]
    {
      assert [] + ([] + lists[s].committed) == lists[s].committed;
    }
  }

  ghost predicate ListsOk(st: State, s: SurfaceId)
    requires s in st.lists
  {
    && InOrder(st.lists[s])
    && (forall cb :: cb in st.lists[s].requested ==> cb in st.used)
  }

  ghost predicate Apart(st: State, s: SurfaceId, t: SurfaceId)
    requires s in st.lists && t in st.lists
  {
    forall cb :: cb in st.lists[s].requested ==> cb !in st.lists[t].requested
  }

  ghost predicate Queued(st: State) {
    && NoDup(st.order) && (forall s :: s in st.order <==> s in st.lists) && st.lists.Keys <= st.born
    && (forall s {:trigger ListsOk(st, s)} :: s in st.lists ==> ListsOk(st, s))
    && (forall s, t {:trigger Apart(st, s, t)} :: s in st.lists && t in st.lists && s != t ==> Apart(st, s, t))
  }

  lemma {:induction false} ExceptFacts(a: seq<CallbackId>, cb: CallbackId)
    ensures forall x :: x in Except(a, cb) <==> x in a && x != cb
    ensures NoDup(a) ==> NoDup(Except(a, cb))
    ensures cb !in a ==> Except(a, cb) == a
  {
    if a != [] {
      ExceptFacts(a[1..], cb);
      NoDupCons(a);
      assert a == [a[0]] + a[1..];
      if a[0] != cb {
        NoDupCons(Except(a, cb));
      }
    }
  }

  lemma {:induction false} ExceptConcat(a: seq<CallbackId>, b: seq<CallbackId>, cb: CallbackId)
    ensures Except(a + b, cb) == Except(a, cb) + Except(b, cb)
  {
    if a == [] {
      assert a + b == b;
    } else {
      var x, y := Except(a[1..], cb), Except(b, cb);
      ExceptConcat(a[1..], b, cb);
      assert (a + b)[0] == a[0] && (a + b)[1..] == a[1..] + b;
      assert [a[0]] + (x + y) == [a[0]] + x + y;
    }
  }

  lemma CancelInOrder(x: Lists, cb: CallbackId)
    requires InOrder(x) && cb !in x.done
    ensures InOrder(x.(pending := Except(x.pending, cb), committed := Except(x.committed, cb),
                       presented := Except(x.presented, cb), requested := Except(x.requested, cb)))
  {
    ExceptConcat(x.done + x.committed, x.pending, cb);
    ExceptConcat(x.done, x.committed, cb);
    ExceptFacts(x.done, cb);
    ExceptFacts(x.requested, cb);
  }

  /** Replacing one surface's lists: enough that its requests stay its own. */
  lemma UpdateQueued(st: State, st': State, s: SurfaceId, x: Lists)
    requires Queued(st) && s in st.lists && InOrder(x)
    requires st'.order == st.order && st'.born == st.born && st'.lists == st.lists[s := x] && st.used <= st'.used
    requires forall cb :: cb in x.requested ==> cb in st'.used && (cb in st.lists[s].requested || cb !in st.used)
    ensures Queued(st')
  {
    forall t | t in st'.lists
      ensures ListsOk(st', t)
    {
      assert ListsOk(st, t);
    }
    forall t, u | t in st'.lists && u in st'.lists && t != u
      ensures Apart(st', t, u)
    {
      assert ListsOk(st, t) && ListsOk(st, u) && Apart(st, t, u);
    }
  }

  lemma CommitInOrder(x: Lists)
    requires InOrder(x)
    ensures InOrder(x.(committed := x.committed + x.pending, pending := []))
  {
    assert x.done + x.committed + x.pending == x.done + (x.committed + x.pending) + [];
  }

  lemma FrameInOrder(x: Lists, cb: CallbackId)
    requires InOrder(x) && cb !in x.requested
    ensures InOrder(x.(pending := x.pending + [cb], requested := x.requested + [cb]))
  {
    assert x.done + x.committed + x.pending + [cb] == x.done + x.committed + (x.pending + [cb]);
  }

  lemma SentInOrder(x: Lists, shown: bool)
    requires InOrder(x)
    ensures InOrder(Sent(if shown then Latched(x) else x))
  {
    assert [] + x.committed == x.committed;
    if shown {
      assert x.done + x.committed + x.pending == (x.done + x.committed) + [] + x.pending;
    } else {
      assert x.done + [] == x.done;
    }
  }

  lemma RenderQueued(st: State, sc: Scene, depth: map<SurfaceId, nat>, bound: nat, outcome: Outcome)
    requires Queued(st) && Forest(sc, depth, bound)
    ensures Queued(ApplyRender(st, sc, depth, bound, outcome))
  {
    var st' := ApplyRender(st, sc, depth, bound, outcome);
    var shown := Participants(st, sc, depth, bound);
    forall s | s in st.lists
      ensures st.lists[s].presented == []
    {
      assert ListsOk(st, s);
    }
    RequeueUndoesLatch(st.lists, shown);
    if outcome.Swapped? {
      forall t | t in st'.lists
        ensures ListsOk(st', t)
      {
        assert ListsOk(st, t);
        SentInOrder(st.lists[t], t in shown);
      }
      forall t, u | t in st'.lists && u in st'.lists && t != u
        ensures Apart(st', t, u)
      {
        assert Apart(st, t, u);
      }
    }
  }

  lemma NewSurfaceQueued(st: State, s: SurfaceId)
    requires Queued(st) && s !in st.born
    ensures Queued(Apply(st, NewSurface(s)))
  {
    var st' := Apply(st, NewSurface(s));
    forall t | t in st'.lists
      ensures ListsOk(st', t)
    {
      if t != s {
        assert ListsOk(st, t);
      }
    }
    forall t, u | t in st'.lists && u in st'.lists && t != u
      ensures Apart(st', t, u)
    {
      if t != s && u != s {
        assert Apart(st, t, u);
      }
    }
  }

  lemma DestroySurfaceQueued(st: State, s: SurfaceId)
    requires Queued(st)
    ensures Queued(Apply(st, DestroySurface(s)))
  {
    var st' := Apply(st, DestroySurface(s));
    ExceptFacts(st.order, s);
    forall t | t in st'.lists
      ensures ListsOk(st', t)
    {
      assert ListsOk(st, t);
    }
    forall t, u | t in st'.lists && u in st'.lists && t != u
      ensures Apart(st', t, u)
    {
      assert Apart(st, t, u);
    }
  }

  lemma StepQueued(st: State, step: Step)
    requires Queued(st)
    ensures Queued(Apply(st, step))
  {
    var st' := Apply(st, step);
    match step
    case NewSurface(s) =>
      if s !in st.born { NewSurfaceQueued(st, s); }
    case Frame(s, cb) =>
      if s in st.lists && cb !in st.used {
        assert ListsOk(st, s);
        FrameInOrder(st.lists[s], cb);
        UpdateQueued(st, st', s, st'.lists[s]);
      }
    case Commit(s) =>
      if s in st.lists {
        assert ListsOk(st, s);
        CommitInOrder(st.lists[s]);
        UpdateQueued(st, st', s, st'.lists[s]);
      }
    case Cancel(s, cb) =>
      if s in st.lists && cb in st.lists[s].requested && cb !in st.lists[s].done {
        assert ListsOk(st, s);
        CancelInOrder(st.lists[s], cb);
        ExceptFacts(st.lists[s].requested, cb);
        UpdateQueued(st, st', s, st'.lists[s]);
      }
    case DestroySurface(s) => DestroySurfaceQueued(st, s);
    case Render(sc, depth, bound, outcome) =>
      if Forest(sc, depth, bound) && sc.order == st.order { RenderQueued(st, sc, depth, bound, outcome); }
  }

  /* ---------- why a callback completes ---------- */

  ghost predicate RequestedBefore(log: seq<Event>, n: nat, s: SurfaceId, cb: CallbackId)
    requires n <= |log|
  {
    exists i :: 0 <= i < n && log[i] == Requested(s, cb)
  }

  ghost predicate CommittedBefore(log: seq<Event>, n: nat, s: SurfaceId, cb: CallbackId)
    requires n <= |log|
  {
    exists j :: 0 <= j < n && log[j] == Committed(s) && RequestedBefore(log, j, s, cb)
  }

  /** Requested, then committed, not cancelled, and now part of a composition whose swap succeeded. */
  ghost predicate ShowsAt(log: seq<Event>, m: nat, s: SurfaceId, cb: CallbackId)
    requires m < |log|
  {
    log[m].Swap? && s in log[m].drawn && CommittedBefore(log, m, s, cb) && Cancelled(s, cb) !in log[..m]
  }

  ghost predicate ShownBefore(log: seq<Event>, n: nat, s: SurfaceId, cb: CallbackId)
    requires n <= |log|
  {
    exists m :: 0 <= m < n && ShowsAt(log, m, s, cb)
  }

  lemma RequestedStays(log: seq<Event>, more: seq<Event>, n: nat, n': nat, s: SurfaceId, cb: CallbackId)
    requires n <= |log| && n <= n' <= |log + more| && RequestedBefore(log, n, s, cb)
    ensures RequestedBefore(log + more, n', s, cb)
  {
    var i :| 0 <= i < n && log[i] == Requested(s, cb);
    assert (log + more)[i] == log[i];
  }

  lemma CommittedStays(log: seq<Event>, more: seq<Event>, n: nat, n': nat, s: SurfaceId, cb: CallbackId)
    requires n <= |log| && n <= n' <= |log + more| && CommittedBefore(log, n, s, cb)
    ensures CommittedBefore(log + more, n', s, cb)
  {
    var j :| 0 <= j < n && log[j] == Committed(s) && RequestedBefore(log, j, s, cb);
    RequestedStays(log, more, j, j, s, cb);
    assert (log + more)[j] == log[j];
  }

  lemma ShownStays(log: seq<Event>, more: seq<Event>, n: nat, n': nat, s: SurfaceId, cb: CallbackId)
    requires n <= |log| && n <= n' <= |log + more| && ShownBefore(log, n, s, cb)
    ensures ShownBefore(log + more, n', s, cb)
  {
    var m :| 0 <= m < n && ShowsAt(log, m, s, cb);
    CommittedStays(log, more, m, m, s, cb);
    assert (log + more)[m] == log[m] && (log + more)[..m] == log[..m];
    assert ShowsAt(log + more, m, s, cb);
  }

  ghost predicate ListsCaused(st: State, s: SurfaceId)
    requires s in st.lists
  {
    && (forall cb :: cb in st.lists[s].pending ==> RequestedBefore(st.log, |st.log|, s, cb) && Cancelled(s, cb) !in st.log)
    && (forall cb :: cb in st.lists[s].committed ==> CommittedBefore(st.log, |st.log|, s, cb) && Cancelled(s, cb) !in st.log)
  }

  ghost predicate DoneCaused(log: seq<Event>, k: nat)
    requires k < |log|
  {
    log[k].Done? ==> ShownBefore(log, k, log[k].s, log[k].cb)
  }

  ghost predicate Causal(st: State) {
    && (forall s {:trigger ListsCaused(st, s)} :: s in st.lists ==> ListsCaused(st, s))
    && (forall k {:trigger DoneCaused(st.log, k)} :: 0 <= k < |st.log| ==> DoneCaused(st.log, k))
    && (forall s, cb {:trigger Cancelled(s, cb)} :: Cancelled(s, cb) in st.log ==> cb in st.used)
  }

  /** Appending to the log keeps the cause of everything already in the lists. */
  lemma ListsCausedStay(st: State, more: seq<Event>, s: SurfaceId)
    requires s in st.lists && ListsCaused(st, s) && forall e :: e in more ==> !e.Cancelled? || e.s != s
    ensures ListsCaused(st.(log := st.log + more), s)
  {
    forall cb | cb in st.lists[s].pending
      ensures RequestedBefore(st.log + more, |st.log + more|, s, cb)
    {
      RequestedStays(st.log, more, |st.log|, |st.log + more|, s, cb);
    }
    forall cb | cb in st.lists[s].committed
      ensures CommittedBefore(st.log + more, |st.log + more|, s, cb)
    {
      CommittedStays(st.log, more, |st.log|, |st.log + more|, s, cb);
    }
  }

  /** New events are harmless to old ones; a new done event must itself be caused. */
  lemma LogCausedStays(st: State, more: seq<Event>)
    requires Causal(st)
    requires forall k :: |st.log| <= k < |st.log + more| ==> DoneCaused(st.log + more, k)
    ensures forall k :: 0 <= k < |st.log + more| ==> DoneCaused(st.log + more, k)
  {
    forall k | 0 <= k < |st.log|
      ensures DoneCaused(st.log + more, k)
    {
      assert DoneCaused(st.log, k);
      assert (st.log + more)[k] == st.log[k];
      if st.log[k].Done? {
        ShownStays(st.log, more, k, k, st.log[k].s, st.log[k].cb);
      }
    }
  }

  /** A step on one surface that adds at most one event, not a done event. */
  lemma UpdateCausal(st: State, st': State, s: SurfaceId, more: seq<Event>)
    requires Causal(st) && st'.log == st.log + more && st'.lists.Keys == st.lists.Keys
    requires forall t :: t in st.lists && t != s ==> st'.lists[t] == st.lists[t]
    requires forall e :: e in more ==> !e.Done? && (e.Cancelled? ==> e.s == s && e.cb in st.used)
    requires s in st'.lists && ListsCaused(st', s) && st.used <= st'.used
    ensures Causal(st')
  {
    forall t | t in st'.lists
      ensures ListsCaused(st', t)
    {
      if t != s {
        assert ListsCaused(st, t);
        ListsCausedStay(st, more, t);
        assert st.(log := st.log + more).lists[t] == st'.lists[t];
      }
    }
    forall k | |st.log| <= k < |st'.log|
      ensures DoneCaused(st.log + more, k)
    {
      assert (st.log + more)[k] == more[k - |st.log|];
    }
    LogCausedStays(st, more);
  }

  lemma FrameCausal(st: State, s: SurfaceId, cb: CallbackId)
    requires Causal(st) && s in st.lists && cb !in st.used
    ensures Causal(Apply(st, Frame(s, cb)))
  {
    var st', e := Apply(st, Frame(s, cb)), Requested(s, cb);
    assert ListsCaused(st, s);
    ListsCausedStay(st, [e], s);
    assert st'.log[|st.log|] == e;
    assert RequestedBefore(st'.log, |st'.log|, s, cb);
    UpdateCausal(st, st', s, [e]);
  }

  lemma CommitCausal(st: State, s: SurfaceId)
    requires Causal(st) && s in st.lists
    ensures Causal(Apply(st, Commit(s)))
  {
    var st', e := Apply(st, Commit(s)), Committed(s);
    assert ListsCaused(st, s);
    ListsCausedStay(st, [e], s);
    forall cb | cb in st.lists[s].pending
      ensures CommittedBefore(st'.log, |st'.log|, s, cb)
    {
      RequestedStays(st.log, [e], |st.log|, |st.log|, s, cb);
      assert st'.log[|st.log|] == e;
    }
    UpdateCausal(st, st', s, [e]);
  }

  lemma CancelCausal(st: State, s: SurfaceId, cb: CallbackId)
    requires Queued(st) && Causal(st) && s in st.lists && cb in st.lists[s].requested && cb !in st.lists[s].done
    ensures Causal(Apply(st, Cancel(s, cb)))
  {
    var st', e := Apply(st, Cancel(s, cb)), Cancelled(s, cb);
    assert ListsCaused(st, s) && ListsOk(st, s);
    CancelListsCaused(st, s, cb);
    UpdateCausal(st, st', s, [e]);
  }

  lemma CancelListsCaused(st: State, s: SurfaceId, cb: CallbackId)
    requires s in st.lists && ListsCaused(st, s) && cb in st.lists[s].requested && cb !in st.lists[s].done
    ensures ListsCaused(Apply(st, Cancel(s, cb)), s)
  {
    var st', e := Apply(st, Cancel(s, cb)), Cancelled(s, cb);
    ExceptFacts(st.lists[s].pending, cb);
    ExceptFacts(st.lists[s].committed, cb);
    forall c | c in st'.lists[s].pending
      ensures RequestedBefore(st'.log, |st'.log|, s, c)
    {
      RequestedStays(st.log, [e], |st.log|, |st'.log|, s, c);
    }
    forall c | c in st'.lists[s].committed
      ensures CommittedBefore(st'.log, |st'.log|, s, c)
    {
      CommittedStays(st.log, [e], |st.log|, |st'.log|, s, c);
    }
  }

  lemma {:induction false} AllDoneIsPresented(lists: map<SurfaceId, Lists>, order: seq<SurfaceId>, e: Event)
    requires e in AllDone(lists, order)
    ensures e.Done? && e.s in lists && e.cb in lists[e.s].presented
  {
    if e !in AllDone(lists, order[1..]) {
      assert e in DoneEvents(order[0], lists[order[0]].presented);
    } else {
      AllDoneIsPresented(lists, order[1..], e);
    }
  }

  ghost function LatchedBy(st: State, sc: Scene, depth: map<SurfaceId, nat>, bound: nat): map<SurfaceId, Lists>
    requires Forest(sc, depth, bound)
  {
    Latch(st.lists, Participants(st, sc, depth, bound))
  }

  /** A callback completed with a swap is shown by that swap. */
  lemma {:induction false} SwapShows(st: State, sc: Scene, depth: map<SurfaceId, nat>, bound: nat, more: seq<Event>, e: Event)
    requires Queued(st) && Causal(st) && Forest(sc, depth, bound)
    requires more != [] && more[0] == Swap(DrawAll(sc, depth, bound)) && e in AllDone(LatchedBy(st, sc, depth, bound), st.order)
    ensures e.Done? && ShowsAt(st.log + more, |st.log|, e.s, e.cb)
  {
    AllDoneIsPresented(LatchedBy(st, sc, depth, bound), st.order, e);
    assert ListsOk(st, e.s) && ListsCaused(st, e.s);
    DrawnIffParticipates(sc, depth, bound, e.s);
    CommittedStays(st.log, more, |st.log|, |st.log|, e.s, e.cb);
    assert (st.log + more)[|st.log|] == more[0] && (st.log + more)[..|st.log|] == st.log;
  }

  lemma {:induction false} SwapListsCaused(st: State, sc: Scene, depth: map<SurfaceId, nat>, bound: nat, t: SurfaceId)
    requires Queued(st) && Causal(st) && Forest(sc, depth, bound) && t in st.lists
    ensures ListsCaused(ApplyRender(st, sc, depth, bound, Swapped), t)
  {
    var done := AllDone(LatchedBy(st, sc, depth, bound), st.order);
    var more := [Swap(DrawAll(sc, depth, bound))] + done;
    forall e | e in more
      ensures !e.Cancelled?
    {
      if e in done {
        AllDoneIsPresented(LatchedBy(st, sc, depth, bound), st.order, e);
      }
    }
    assert ListsCaused(st, t);
    ListsCausedStay(st, more, t);
    assert ApplyRender(st, sc, depth, bound, Swapped).log == st.log + more;
  }

  lemma {:induction false} SwapCausal(st: State, sc: Scene, depth: map<SurfaceId, nat>, bound: nat)
    requires Queued(st) && Causal(st) && Forest(sc, depth, bound)
    ensures Causal(ApplyRender(st, sc, depth, bound, Swapped))
  {
    var st', done := ApplyRender(st, sc, depth, bound, Swapped), AllDone(LatchedBy(st, sc, depth, bound), st.order);
    var more := [Swap(DrawAll(sc, depth, bound))] + done;
    assert st'.log == st.log + more;
    forall t | t in st'.lists
      ensures ListsCaused(st', t)
    {
      SwapListsCaused(st, sc, depth, bound, t);
    }
    NewDoneCaused(st, sc, depth, bound, done);
    LogCausedStays(st, more);
  }

  lemma {:induction false} NewDoneCaused(st: State, sc: Scene, depth: map<SurfaceId, nat>, bound: nat, done: seq<Event>)
    requires Queued(st) && Causal(st) && Forest(sc, depth, bound) && done == AllDone(LatchedBy(st, sc, depth, bound), st.order)
    ensures var all := st.log + ([Swap(DrawAll(sc, depth, bound))] + done);
      (forall k :: |st.log| <= k < |all| ==> DoneCaused(all, k)) && (forall e :: e in done ==> e.Done?)
  {
    var more := [Swap(DrawAll(sc, depth, bound))] + done;
    forall e | e in done
      ensures e.Done? && ShowsAt(st.log + more, |st.log|, e.s, e.cb)
    {
      SwapShows(st, sc, depth, bound, more, e);
    }
    forall k | |st.log| <= k < |st.log + more|
      ensures DoneCaused(st.log + more, k)
    {
      assert (st.log + more)[k] == more[k - |st.log|];
    }
  }

  lemma StepCausal(st: State, step: Step)
    requires Queued(st) && Causal(st)
    ensures Causal(Apply(st, step))
  {
    var st' := Apply(st, step);
    match step
    case NewSurface(s) =>
      if s !in st.born {
        forall t | t in st'.lists
          ensures ListsCaused(st', t)
        {
          if t != s {
            assert ListsCaused(st, t);
          }
        }
      }
    case Frame(s, cb) => if s in st.lists && cb !in st.used { FrameCausal(st, s, cb); }
    case Commit(s) => if s in st.lists { CommitCausal(st, s); }
    case Cancel(s, cb) =>
      if s in st.lists && cb in st.lists[s].requested && cb !in st.lists[s].done { CancelCausal(st, s, cb); }
    case DestroySurface(s) =>
      forall t | t in st'.lists
        ensures ListsCaused(st', t)
      {
        assert ListsCaused(st, t);
      }
    case Render(sc, depth, bound, outcome) =>
      if Forest(sc, depth, bound) && sc.order == st.order {
        RenderCausal(st, sc, depth, bound, outcome);
      }
  }

  lemma RenderCausal(st: State, sc: Scene, depth: map<SurfaceId, nat>, bound: nat, outcome: Outcome)
    requires Queued(st) && Causal(st) && Forest(sc, depth, bound)
    ensures Causal(ApplyRender(st, sc, depth, bound, outcome))
  {
    if outcome.Swapped? {
      SwapCausal(st, sc, depth, bound);
    } else {
      forall s | s in st.lists
        ensures st.lists[s].presented == []
      {
        assert ListsOk(st, s);
      }
      RequeueUndoesLatch(st.lists, Participants(st, sc, depth, bound));
    }
  }

  /* ---------- the log holds each surface's completions, in order ---------- */

  function DoneOn(log: seq<Event>, s: SurfaceId): seq<CallbackId> {
    if log == [] then []
    else DoneOn(log[..|log| - 1], s)
         + (if log[|log| - 1].Done? && log[|log| - 1].s == s then [log[|log| - 1].cb] else [])
  }

  lemma {:induction false} DoneOnConcat(a: seq<Event>, b: seq<Event>, s: SurfaceId)
    ensures DoneOn(a + b, s) == DoneOn(a, s) + DoneOn(b, s)
    decreases b
  {
    if b == [] {
      assert a + b == a;
    } else {
      DoneOnConcat(a, b[..|b| - 1], s);
      assert (a + b)[..|a + b| - 1] == a + b[..|b| - 1];
    }
  }

  lemma {:induction false} DoneOnOne(log: seq<Event>, s: SurfaceId, cb: CallbackId, t: SurfaceId)
    ensures DoneOn(log + [Done(s, cb)], t) == DoneOn(log, t) + if s == t then [cb] else []
  {
    assert (log + [Done(s, cb)])[..|log + [Done(s, cb)]| - 1] == log;
  }

  lemma {:induction false} DoneEventsSnoc(s: SurfaceId, cbs: seq<CallbackId>, cb: CallbackId)
    ensures DoneEvents(s, cbs + [cb]) == DoneEvents(s, cbs) + [Done(s, cb)]
  {
  }

  lemma {:induction false} DoneOnEvents(s: SurfaceId, t: SurfaceId, cbs: seq<CallbackId>)
    ensures DoneOn(DoneEvents(s, cbs), t) == if s == t then cbs else []
  {
    if cbs != [] {
      var fewer, cb := cbs[..|cbs| - 1], cbs[|cbs| - 1];
      DoneOnEvents(s, t, fewer);
      DoneEventsSnoc(s, fewer, cb);
      assert cbs == fewer + [cb];
      DoneOnOne(DoneEvents(s, fewer), s, cb, t);
    }
  }

  lemma {:induction false} DoneOnAll(lists: map<SurfaceId, Lists>, order: seq<SurfaceId>, s: SurfaceId)
    requires NoDup(order)
    ensures DoneOn(AllDone(lists, order), s) == if s in order && s in lists then lists[s].presented else []
  {
    if order != [] {
      NoDupCons(order);
      DoneOnAll(lists, order[1..], s);
      DoneOnCons(lists, order, s);
      DoneOnFirst(lists, order[0], s);
      assert s in order <==> s == order[0] || s in order[1..];
    }
  }

  lemma {:induction false} DoneOnCons(lists: map<SurfaceId, Lists>, order: seq<SurfaceId>, s: SurfaceId)
    requires order != []
    ensures DoneOn(AllDone(lists, order), s)
         == DoneOn(if order[0] in lists then DoneEvents(order[0], lists[order[0]].presented) else [], s)
            + DoneOn(AllDone(lists, order[1..]), s)
  {
    DoneOnConcat(if order[0] in lists then DoneEvents(order[0], lists[order[0]].presented) else [], AllDone(lists, order[1..]), s);
  }

  lemma {:induction false} DoneOnFirst(lists: map<SurfaceId, Lists>, t: SurfaceId, s: SurfaceId)
    ensures DoneOn(if t in lists then DoneEvents(t, lists[t].presented) else [], s)
         == if t == s && t in lists then lists[s].presented else []
  {
    if t in lists {
      DoneOnEvents(t, s, lists[t].presented);
    }
  }

  ghost predicate LoggedOn(st: State, s: SurfaceId) {
    && NoDup(DoneOn(st.log, s))
    && (s in st.lists ==> DoneOn(st.log, s) == st.lists[s].done)
    && (s !in st.born ==> DoneOn(st.log, s) == [])
  }

  lemma NoDupPrefix(a: seq<CallbackId>, b: seq<CallbackId>)
    requires NoDup(a + b)
    ensures NoDup(a)
  {
    assert forall i :: 0 <= i < |a| ==> a[i] == (a + b)[i];
  }

  lemma DoneOnOther(log: seq<Event>, e: Event, s: SurfaceId)
    requires !e.Done?
    ensures DoneOn(log + [e], s) == DoneOn(log, s)
  {
    assert (log + [e])[..|log + [e]| - 1] == log;
  }

  lemma SwapLog(log: seq<Event>, latched: map<SurfaceId, Lists>, order: seq<SurfaceId>, swap: Event, s: SurfaceId)
    requires NoDup(order) && (s in order <==> s in latched) && swap.Swap?
    ensures DoneOn(log + [swap] + AllDone(latched, order), s)
            == DoneOn(log, s) + if s in latched then latched[s].presented else []
  {
    DoneOnConcat(log + [swap], AllDone(latched, order), s);
    DoneOnOther(log, swap, s);
    DoneOnAll(latched, order, s);
  }

  lemma DoneNoDup(x: Lists)
    requires InOrder(x)
    ensures NoDup(x.done)
  {
    assert x.done + x.committed + x.pending == x.done + (x.committed + x.pending);
    NoDupPrefix(x.done, x.committed + x.pending);
  }

  lemma RenderLogged(st: State, sc: Scene, depth: map<SurfaceId, nat>, bound: nat, outcome: Outcome, s: SurfaceId)
    requires Queued(st) && Forest(sc, depth, bound) && LoggedOn(st, s)
    ensures LoggedOn(ApplyRender(st, sc, depth, bound, outcome), s)
  {
    var shown := Participants(st, sc, depth, bound);
    var latched := Latch(st.lists, shown);
    if outcome.Swapped? {
      SwapLog(st.log, latched, st.order, Swap(DrawAll(sc, depth, bound)), s);
      if s in st.lists {
        assert ListsOk(st, s);
        SentInOrder(st.lists[s], s in shown);
        DoneNoDup(Sent(latched[s]));
      }
    } else {
      forall t | t in st.lists
        ensures st.lists[t].presented == []
      {
        assert ListsOk(st, t);
      }
      RequeueUndoesLatch(st.lists, shown);
    }
  }

  /** A step that completes nothing. */
  lemma {:induction false} QuietLogged(st: State, st': State, s: SurfaceId)
    requires LoggedOn(st, s) && DoneOn(st'.log, s) == DoneOn(st.log, s) && st.born <= st'.born
    requires s in st'.lists ==>
               (if s in st.lists then st'.lists[s].done == st.lists[s].done else s !in st.born && st'.lists[s].done == [])
    ensures LoggedOn(st', s)
  {
  }

  lemma {:induction false} StepLogged(st: State, step: Step, s: SurfaceId)
    requires Queued(st) && LoggedOn(st, s)
    ensures LoggedOn(Apply(st, step), s)
  {
    match step
    case Render(sc, depth, bound, outcome) =>
      if Forest(sc, depth, bound) && sc.order == st.order { RenderLogged(st, sc, depth, bound, outcome, s); }
    case _ => QuietStep(st, step, s);
  }

  lemma {:induction false} QuietStep(st: State, step: Step, s: SurfaceId)
    requires LoggedOn(st, s) && !step.Render?
    ensures LoggedOn(Apply(st, step), s)
  {
    match step
    case Frame(t, cb) => RequestLogged(st, t, cb, s);
    case Commit(t) => CommitLogged(st, t, s);
    case NewSurface(t) => QuietLogged(st, Apply(st, step), s);
    case Cancel(t, cb) => CancelLogged(st, t, cb, s);
    case DestroySurface(t) => QuietLogged(st, Apply(st, step), s);
  }

  lemma {:induction false} CancelLogged(st: State, t: SurfaceId, cb: CallbackId, s: SurfaceId)
    requires LoggedOn(st, s)
    ensures LoggedOn(Apply(st, Cancel(t, cb)), s)
  {
    if t in st.lists && cb in st.lists[t].requested && cb !in st.lists[t].done {
      NotedOn(st, Apply(st, Cancel(t, cb)), t, Cancelled(t, cb), s);
    }
  }

  lemma {:induction false} RequestLogged(st: State, t: SurfaceId, cb: CallbackId, s: SurfaceId)
    requires LoggedOn(st, s)
    ensures LoggedOn(Apply(st, Frame(t, cb)), s)
  {
    if t in st.lists && cb !in st.used {
      var st' := Apply(st, Frame(t, cb));
      NotedOn(st, st', t, Requested(t, cb), s);
    }
  }

  /** One more entry in the log that completes nothing, and one surface's waiting lists changed. */
  lemma {:induction false} NotedOn(st: State, st': State, t: SurfaceId, e: Event, s: SurfaceId)
    requires LoggedOn(st, s) && t in st.lists && !e.Done? && st'.log == st.log + [e] && st'.born == st.born
    requires t in st'.lists && st'.lists == st.lists[t := st'.lists[t]] && st'.lists[t].done == st.lists[t].done
    ensures LoggedOn(st', s)
  {
    DoneOnOther(st.log, e, s);
    QuietLogged(st, st', s);
  }

  lemma {:induction false} CommitLogged(st: State, t: SurfaceId, s: SurfaceId)
    requires LoggedOn(st, s)
    ensures LoggedOn(Apply(st, Commit(t)), s)
  {
    if t in st.lists {
      NotedOn(st, Apply(st, Commit(t)), t, Committed(t), s);
    }
  }

  /* ---------- every run ---------- */

  lemma {:induction false} RunKeeps(steps: seq<Step>)
    ensures Queued(Exec(steps)) && Causal(Exec(steps))
  {
    if steps != [] {
      RunKeeps(steps[..|steps| - 1]);
      StepQueued(Exec(steps[..|steps| - 1]), steps[|steps| - 1]);
      StepCausal(Exec(steps[..|steps| - 1]), steps[|steps| - 1]);
    }
  }

  lemma {:induction false} RunLogged(steps: seq<Step>, s: SurfaceId)
    ensures LoggedOn(Exec(steps), s)
  {
    if steps != [] {
      RunLogged(steps[..|steps| - 1], s);
      RunKeeps(steps[..|steps| - 1]);
      StepLogged(Exec(steps[..|steps| - 1]), steps[|steps| - 1], s);
    }
  }

  /**
    Whatever fails in between, a live surface's requests are its completions so
    far followed by the committed and the pending ones: each is in exactly one
    place, none is lost, and completions keep the order of the requests.
   */
  lemma CallbacksInRequestOrder(steps: seq<Step>, s: SurfaceId)
    ensures var st := Exec(steps); s in st.lists ==>
      && st.lists[s].presented == []
      && st.lists[s].requested == DoneOn(st.log, s) + st.lists[s].committed + st.lists[s].pending
      && NoDup(st.lists[s].requested)
  {
    RunKeeps(steps);
    RunLogged(steps, s);
    if s in Exec(steps).lists {
      assert ListsOk(Exec(steps), s);
    }
  }

  /** A callback is requested on one surface only. */
  ghost predicate RequestedOnce(st: State) {
    && (forall s, cb {:trigger Requested(s, cb)} :: Requested(s, cb) in st.log ==> cb in st.used)
    && (forall s, t, cb {:trigger Requested(s, cb), Requested(t, cb)} ::
          Requested(s, cb) in st.log && Requested(t, cb) in st.log ==> s == t)
  }

  lemma {:induction false} RenderRequestsNothing(st: State, step: Step, e: Event)
    requires step.Render? && e in Apply(st, step).log && e.Requested?
    ensures e in st.log
  {
    if Forest(step.sc, step.depth, step.bound) && step.sc.order == st.order && step.outcome.Swapped? && e !in st.log {
      var latched := Latch(st.lists, Participants(st, step.sc, step.depth, step.bound));
      assert e in AllDone(latched, st.order);
      AllDoneIsPresented(latched, st.order, e);
    }
  }

  lemma {:induction false} StepRequestedOnce(st: State, step: Step)
    requires RequestedOnce(st)
    ensures RequestedOnce(Apply(st, step))
  {
    if step.Render? {
      forall s, cb | Requested(s, cb) in Apply(st, step).log
        ensures Requested(s, cb) in st.log
      {
        RenderRequestsNothing(st, step, Requested(s, cb));
      }
    }
  }

  lemma {:induction false} RunRequestedOnce(steps: seq<Step>)
    ensures RequestedOnce(Exec(steps))
  {
    if steps != [] {
      RunRequestedOnce(steps[..|steps| - 1]);
      StepRequestedOnce(Exec(steps[..|steps| - 1]), steps[|steps| - 1]);
    }
  }

  lemma {:induction false} DoneIn(log: seq<Event>, i: nat)
    requires i < |log| && log[i].Done?
    ensures log[i].cb in DoneOn(log, log[i].s)
  {
    if i < |log| - 1 {
      DoneIn(log[..|log| - 1], i);
    }
  }

  lemma {:induction false} DoneTwice(log: seq<Event>, i: nat, j: nat)
    requires i < j < |log| && log[i] == log[j] && log[i].Done?
    ensures !NoDup(DoneOn(log, log[i].s))
  {
    var s, a, b := log[i].s, log[..j], log[j..];
    assert log == a + b && a[i] == log[i] && b[0] == log[j];
    DoneOnConcat(a, b, s);
    DoneIn(a, i);
    DoneIn(b, 0);
    var x, y := DoneOn(a, s), DoneOn(b, s);
    var k :| 0 <= k < |x| && x[k] == log[i].cb;
    var l :| 0 <= l < |y| && y[l] == log[i].cb;
    assert (x + y)[k] == (x + y)[|x| + l];
  }

  /** No two completions of a run are for the same callback, destroyed surfaces included. */
  lemma {:induction false} DoneAtMostOnce(steps: seq<Step>, i: nat, j: nat)
    requires i < j < |Exec(steps).log| && Exec(steps).log[i].Done? && Exec(steps).log[j].Done?
    ensures Exec(steps).log[i].cb != Exec(steps).log[j].cb
  {
    var log := Exec(steps).log;
    DoneOnlyAfterShown(steps, i);
    DoneOnlyAfterShown(steps, j);
    RunRequestedOnce(steps);
    RunLogged(steps, log[i].s);
    if log[i].cb == log[j].cb {
      assert Requested(log[i].s, log[i].cb) in log && Requested(log[j].s, log[j].cb) in log;
      DoneTwice(log, i, j);
    }
  }

  /** Each completion has its request, a later commit, and a later swap that showed the surface. */
  lemma DoneOnlyAfterShown(steps: seq<Step>, k: nat)
    requires k < |Exec(steps).log| && Exec(steps).log[k].Done?
    ensures var log := Exec(steps).log; ShownBefore(log, k, log[k].s, log[k].cb)
  {
    RunKeeps(steps);
    assert DoneCaused(Exec(steps).log, k);
  }
}
