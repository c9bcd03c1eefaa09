/**
  The compositor's buffers as heap objects: counters and links are fields of
  the buffers themselves, surfaces point at them, and a flush walks the links
  (wayland-host/src/surface.c, buffer_shm.c, egl_buffer.c, renderer.c).
  `history` names the run so far, so every lemma about runs applies to every
  state of the object; and every buffer that is touched is proved to be live.
 */
module HostRuntime {
  import opened Common
  import opened DeferredRelease
  import opened BufferLifetime
  import HostSteps
  import opened HostRuns
  import opened PrematureReleases

  datatype Slots = Slots(pending: ShmBuffer?, current: ShmBuffer?, pendingDetach: bool)

  function IdOf(o: ShmBuffer?): Option<BufferId> {
    if o == null then None else Some(o.id)
  }

  function SurfaceOf(x: Slots): Surface {
    Surface(IdOf(x.pending), IdOf(x.current), x.pendingDetach)
  }

  function SurfacesOf(m: map<SurfaceId, Slots>): map<SurfaceId, Surface> {
    map s | s in m :: SurfaceOf(m[s])
  }

  function Ids(es: seq<ShmBuffer>): seq<BufferId> {
    seq(|es|, i requires 0 <= i < |es| => es[i].id)
  }

  /** Different buffers have different ids. */
  ghost predicate Distinct(es: seq<ShmBuffer>) {
    forall i, j :: 0 <= i < |es| && 0 <= j < |es| && es[i].id == es[j].id ==> es[i] == es[j]
  }

  lemma {:induction false} LatestIds(es: seq<ShmBuffer>, i: nat)
    requires Distinct(es) && i < |es|
    ensures Latest(Ids(es), i) <==> Latest(es, i)
  {
    assert forall j :: 0 <= j < |es| ==> Ids(es)[j] == es[j].id;
    if Latest(es, i) {
      forall j | i < j < |es|
        ensures Ids(es)[j] != Ids(es)[i]
      {
        assert es[j] != es[i];
      }
    }
    if Latest(Ids(es), i) {
      forall j | i < j < |es|
        ensures es[j] != es[i]
      {
        assert Ids(es)[j] != Ids(es)[i];
      }
    }
  }

  /** Walking links visits the buffers whose ids the run machine predicts. */
  lemma {:induction false} WalkIds(es: seq<ShmBuffer>, n: nat)
    requires Distinct(es) && n <= |es|
    ensures Ids(Walk(es, n)) == Walk(Ids(es), n)
  {
    if n > 0 {
      LatestIds(es, n - 1);
      WalkIds(es, n - 1);
    }
  }

  /** `h` is the state of the run `steps`; folded until a proof mentions `Unfold`. */
  ghost predicate Reached(steps: seq<Step>, h: Host) {
    forall t {:trigger HostSteps.Unfold(t)} :: HostSteps.Unfold(t) ==> h == Exec(steps)
  }

  lemma {:induction false} Started()
    ensures Reached([], INITIAL)
  {
  }

  lemma {:induction false} Extended(steps: seq<Step>, h: Host, step: Step)
    requires Reached(steps, h)
    ensures Reached(steps + [step], Apply(h, step))
  {
    assert HostSteps.Unfold(0);
    ExecAppend(steps, step);
  }

  /** What a reached state guarantees. */
  lemma {:induction false} ReachedKeeps(steps: seq<Step>, h: Host)
    requires Reached(steps, h)
    ensures h == Exec(steps) && HostSteps.Invariant(h, false)
  {
    assert HostSteps.Unfold(0);
    RunKeeps(steps);
    Weaken(h, Clean(steps));
  }

  lemma {:induction false} ReachedLive(steps: seq<Step>, h: Host, s: SurfaceId)
    requires Reached(steps, h) && s in h.surfaces
    ensures h.surfaces[s].current.Some? ==> h.surfaces[s].current.value in h.buffers
    ensures h.surfaces[s].pending.Some? ==> h.surfaces[s].pending.value in h.buffers
  {
    ReachedKeeps(steps, h);
    NothingDangles(steps, s);
  }

  ghost function View(o: ShmBuffer): Buffer
    reads o`references, o`busyUsers, o`resource
  {
    Buffer(o.references, o.busyUsers, o.resource)
  }

  class Compositor {
    var surfaces: map<SurfaceId, Slots>
    const deferred: DeferredList
    var fence: bool
    ghost var own: set<BufferId>                 // what this renderer's frames sample
    ghost var orphaned: set<BufferId>            // what the frames of earlier ones may still sample
    ghost var events: seq<Event>                 // releases sent and buffers freed
    ghost var all: map<BufferId, ShmBuffer>      // every buffer ever made
    ghost var live: set<BufferId>                // those not freed
    ghost var lost: multiset<BufferId>
    ghost var history: seq<Step>

    ghost predicate Known(o: ShmBuffer?)
      reads this`all
    {
      o != null ==> o.id in all && all[o.id] == o
    }

    /** Pointers lead to buffers the compositor made. */
    ghost predicate Formed()
      reads this`surfaces, this`all, this`live, deferred`enqueued
    {
      && live <= all.Keys && (forall b :: b in all ==> all[b].id == b)
      && (forall s :: s in surfaces ==> Known(surfaces[s].pending) && Known(surfaces[s].current))
      && (forall i :: 0 <= i < |deferred.enqueued| ==> Known(deferred.enqueued[i]))
    }

    ghost function Buffers(): map<BufferId, Buffer>
      reads this`all, this`live, all.Values`references, all.Values`busyUsers, all.Values`resource
    {
      map b | b in live && b in all :: View(all[b])
    }

    ghost function State(): Host
      reads this`surfaces, this`all, this`live, this`lost, this`fence, this`own, this`orphaned, this`events,
            deferred`enqueued, all.Values`references, all.Values`busyUsers, all.Values`resource
    {
      Host(SurfacesOf(surfaces), Buffers(), all.Keys, Ids(deferred.enqueued), lost, Gpu(fence, own, orphaned), events)
    }

    ghost predicate Valid()
      reads this, deferred, deferred.enqueued`deferredNext,
            all.Values`references, all.Values`busyUsers, all.Values`resource
    {
      Formed() && deferred.Valid() && Reached(history, State())
    }

    constructor ()
      ensures Valid() && history == [] && fresh(deferred)
    {
      deferred := new DeferredList();
      surfaces, fence := map[], false;
      own, orphaned, events, all, live, lost, history := {}, {}, [], map[], {}, multiset{}, [];
      new;
      Started();
    }

    /* ---------- counters ---------- */

    /** Changing one live buffer's fields changes its entry and no other. */
    method SetReferences(o: ShmBuffer, n: nat)
      requires Formed() && Known(o) && o.id in live
      modifies o`references
      ensures o.references == n && Buffers() == old(Buffers())[o.id := old(View(o)).(references := n)]
    {
      o.references := n;
      assert forall b :: b in all && b != o.id ==> all[b] != o;
    }

    method SetBusyUsers(o: ShmBuffer, n: nat)
      requires Formed() && Known(o) && o.id in live
      modifies o`busyUsers
      ensures o.busyUsers == n && Buffers() == old(Buffers())[o.id := old(View(o)).(busyUsers := n)]
    {
      o.busyUsers := n;
      assert forall b :: b in all && b != o.id ==> all[b] != o;
    }

    /** trierarch_buffer_ref */
    method Ref(o: ShmBuffer)
      requires Formed() && Known(o) && o.id in live
      modifies o`references
      ensures Formed() && State() == BufferLifetime.AddReference(old(State()), o.id)
    {
      SetReferences(o, o.references + 1);
    }

    /** trierarch_buffer_unref */
    method Unref(o: ShmBuffer)
      requires Formed() && Known(o) && o.id in live
      modifies o`references, this`live, this`events
      ensures Formed() && State() == BufferLifetime.Unref(old(State()), o.id)
    {
      if o.references == 0 {
        return;
      }
      SetReferences(o, o.references - 1);
      if o.references == 0 {
        live := live - {o.id};
        events := events + [Freed(o.id, o.id in own + orphaned)];
        assert Buffers() == old(Buffers()) - {o.id};
      }
    }

    /** trierarch_shm_buffer_release */
    method EndUse(o: ShmBuffer)
      requires Formed() && Known(o) && o.id in live
      modifies o`busyUsers, this`events
      ensures Formed() && State() == BufferLifetime.EndUse(old(State()), o.id)
    {
      if o.busyUsers == 0 {
        return;
      }
      ghost var h := State();
      SetBusyUsers(o, o.busyUsers - 1);
      if o.busyUsers == 0 {
        events := events + [Released(o.id, o.resource, |Users(SurfacesOf(surfaces), o.id)|, o.id in own + orphaned)];
      }
      EndUseIs(h, State(), o.id);
    }

    /** trierarch_renderer_wait_idle; `ok` is whether the fence wait succeeds. */
    method WaitIdle(ok: bool)
      modifies this`fence, this`own
      ensures State() == HostSteps.WaitIdle(old(State()), ok)
    {
      if fence {
        own := if ok then {} else own;
        fence := false;
      }
    }

    /* ---------- the deferred list ---------- */

    /** One use and one reference go together. */
    method Drop(o: ShmBuffer)
      requires Formed() && Known(o) && o.id in live
      modifies o`busyUsers, o`references, this`live, this`events
      ensures Formed() && State() == HostSteps.EndUseAndUnref(old(State()), o.id)
    {
      EndUse(o);
      Unref(o);
    }

    /** A flush stands at `buffer`; what is left of it leads to `goal`, and the counters can pay for it. */
    ghost predicate Walking(es: seq<ShmBuffer>, n: nat, buffer: ShmBuffer?, cleared: set<ShmBuffer>, goal: Host)
      reads this`surfaces, this`all, this`live, this`lost, this`fence, this`own, this`orphaned, this`events,
            deferred, deferred.enqueued`deferredNext, es`deferredNext,
            all.Values`references, all.Values`busyUsers, all.Values`resource
    {
      && Formed() && deferred.Valid() && deferred.enqueued == []
      && (forall i :: 0 <= i < |es| ==> Known(es[i]))
      && StandsAt(es, n, buffer, cleared)
      && Enough(State(), Ids(Left(es, n, buffer)))
      && HostSteps.FlushEntries(State(), Ids(Left(es, n, buffer))) == goal
    }

    /** One turn of the flush: read the link, clear it, release, unref. */
    method VisitOne(buffer: ShmBuffer, ghost es: seq<ShmBuffer>, ghost n: nat, ghost cleared: set<ShmBuffer>, ghost goal: Host)
      returns (next: ShmBuffer?)
      requires Walking(es, n, buffer, cleared, goal)
      modifies buffer`deferredNext, buffer`busyUsers, buffer`references, this`live, this`events
      ensures Walking(es, if next == null then n else n - 1, next, cleared + {buffer}, goal)
    {
      ghost var before, entries := State(), Ids(Left(es, n, buffer));
      assert EnoughFor(before, entries, buffer.id);
      next := Unlink(buffer, es, n, cleared);
      ghost var rest := Ids(Left(es, if next == null then n else n - 1, next));
      assert entries == [buffer.id] + rest;
      assert State() == before;
      Drop(buffer);
      EnoughAfterFirst(before, entries);
      assert entries[1..] == rest;
    }

    /** The loop of the flush: it ends on every chain, cyclic or not. */
    method WalkAll(first: ShmBuffer?, ghost es: seq<ShmBuffer>, ghost goal: Host)
      requires Walking(es, |es|, first, {}, goal)
      modifies this`live, this`events, all.Values
      ensures Formed() && deferred.Valid() && deferred.enqueued == [] && State() == goal
    {
      var buffer := first;
      ghost var n: nat, cleared: set<ShmBuffer> := |es|, {};
      while buffer != null
        invariant Walking(es, n, buffer, cleared, goal)
        decreases if buffer == null then 0 else n + 1
      {
        var b: ShmBuffer := buffer;
        buffer := VisitOne(b, es, n, cleared, goal);
        cleared := cleared + {b};
        n := if buffer == null then n else n - 1;
      }
    }

    /**
      trierarch_flush_deferred_releases, on the chain as it is linked: it ends
      on every chain and does what the run machine says of a flush, touching
      live buffers only.
     */
    method FlushDeferred()
      requires Formed() && deferred.Valid() && HostSteps.Invariant(State(), false)
      modifies this`live, this`events, this`lost, deferred, all.Values
      ensures Formed() && deferred.Valid() && deferred.enqueued == []
      ensures State() == HostSteps.Flush(old(State()))
    {
      ghost var es, h := deferred.enqueued, State();
      FlushIsPaid(h);
      var buffer := Detach();
      StartsFlush(h, State(), es, buffer);
      WalkAll(buffer, es, HostSteps.Flush(h));
    }

    /** The chain leaves the list head before anything else happens. */
    method Detach() returns (first: ShmBuffer?)
      requires Formed() && deferred.Valid()
      modifies this`lost, deferred
      ensures Formed() && deferred.Valid() && deferred.enqueued == []
      ensures StandsAt(old(deferred.enqueued), |old(deferred.enqueued)|, first, {})
      ensures first == null <==> old(deferred.enqueued) == []
      ensures var h := old(State()); State() == h.(enqueued := [], lost := h.lost + HostSteps.Missed(h.enqueued))
    {
      ghost var h := State();
      first := deferred.Take();
      lost := lost + HostSteps.Missed(h.enqueued);
      assert Ids(deferred.enqueued) == [] && Buffers() == h.buffers;
    }

    /* ---------- surfaces ---------- */

    /** One surface's pointers change; the buffers do not. */
    method SetSlots(s: SurfaceId, x: Slots)
      requires Formed() && Known(x.pending) && Known(x.current)
      modifies this`surfaces
      ensures Formed() && surfaces == old(surfaces)[s := x]
      ensures State() == SetSurface(old(State()), s, SurfaceOf(x))
    {
      surfaces := surfaces[s := x];
      assert SurfacesOf(surfaces) == SurfacesOf(old(surfaces))[s := SurfaceOf(x)];
    }

    /** surface_set_pending_buffer */
    method SetPending(s: SurfaceId, target: ShmBuffer?)
      requires Formed() && s in surfaces && Known(target) && (target != null ==> target.id in live)
      requires surfaces[s].pending != null ==> surfaces[s].pending.id in live
      modifies this`surfaces, this`live, this`events, all.Values`references
      ensures Formed() && s in surfaces && State() == HostSteps.SetPending(old(State()), s, IdOf(target))
      ensures surfaces[s] == old(surfaces)[s].(pending := target)
    {
      var replaced := surfaces[s].pending;
      if replaced == target {
        return;
      }
      if target != null {
        Ref(target);
      }
      SetSlots(s, surfaces[s].(pending := target));
      if replaced != null {
        Unref(replaced);
      }
    }

    /** The branch of a commit that installs a different buffer, or none. */
    method ReplaceCurrent(s: SurfaceId)
      requires Formed() && deferred.Valid() && s in surfaces && surfaces[s].pending != surfaces[s].current
      requires surfaces[s].pending != null ==> surfaces[s].pending.id in live
      requires surfaces[s].pending != null || surfaces[s].pendingDetach
      modifies this`surfaces, deferred, all.Values`deferredNext, all.Values`busyUsers
      ensures Formed() && deferred.Valid() && State() == HostSteps.Commit(old(State()), s)
    {
      ghost var h := State();
      DeferCurrentIfAny(s);
      CommitReplaces(h, s, State());
      BeginUse(s);
    }

    method DeferCurrentIfAny(s: SurfaceId)
      requires Formed() && deferred.Valid() && s in surfaces
      modifies this`surfaces, deferred, all.Values`deferredNext
      ensures Formed() && deferred.Valid() && surfaces == old(surfaces)[s := old(surfaces)[s].(current := null)]
      ensures
        var h, x := old(State()), SurfaceOf(old(surfaces)[s]);
        State() == if old(surfaces)[s].current == null then h
                   else HostSteps.Defer(SetSurface(h, s, x.(current := None)), old(surfaces)[s].current.id)
    {
      if surfaces[s].current != null {
        DeferCurrent(s);
      }
    }

    /** The current buffer goes to the deferred list with its use and its reference. */
    method DeferCurrent(s: SurfaceId)
      requires Formed() && deferred.Valid() && s in surfaces && surfaces[s].current != null
      modifies this`surfaces, deferred, all.Values`deferredNext
      ensures Formed() && deferred.Valid() && surfaces == old(surfaces)[s := old(surfaces)[s].(current := null)]
      ensures
        var h, x := old(State()), SurfaceOf(old(surfaces)[s]);
        State() == HostSteps.Defer(SetSurface(h, s, x.(current := None)), old(surfaces)[s].current.id)
    {
      var current: ShmBuffer := surfaces[s].current;
      SetSlots(s, surfaces[s].(current := null));
      Defer(current);
    }

    /** trierarch_defer_buffer_release */
    method Defer(o: ShmBuffer)
      requires Formed() && deferred.Valid() && Known(o)
      modifies deferred, o`deferredNext
      ensures Formed() && deferred.Valid() && State() == HostSteps.Defer(old(State()), o.id)
    {
      deferred.Defer(o);
      assert Ids(deferred.enqueued) == Ids(old(deferred.enqueued)) + [o.id];
    }

    /** The pending buffer becomes the current one. */
    method BeginUse(s: SurfaceId)
      requires Formed() && s in surfaces && (surfaces[s].pending != null ==> surfaces[s].pending.id in live)
      modifies this`surfaces, all.Values`busyUsers
      ensures Formed() && State() == BufferLifetime.BeginUse(old(State()), s)
    {
      var next := surfaces[s].pending;
      SetSlots(s, Slots(null, next, false));
      if next != null {
        SetBusyUsers(next, next.busyUsers + 1);
      }
    }

    /** The branch of a commit that attaches the buffer already shown. */
    method KeepCurrent(s: SurfaceId)
      requires Formed() && s in surfaces && surfaces[s].pending == surfaces[s].current
      requires surfaces[s].pending != null ==> surfaces[s].pending.id in live
      requires surfaces[s].pending != null || surfaces[s].pendingDetach
      modifies this`surfaces, this`live, this`events, all.Values`references
      ensures Formed() && State() == HostSteps.Commit(old(State()), s)
    {
      var pending := surfaces[s].pending;
      SetSlots(s, Slots(null, pending, false));
      if pending != null {
        Unref(pending);
      }
    }

    /** Wait, release and unref the current buffer, in this order. */
    method ReleaseCurrent(s: SurfaceId, waitOk: bool)
      requires Formed() && s in surfaces && (surfaces[s].current != null ==> surfaces[s].current.id in live)
      modifies this`surfaces, this`live, this`events, this`fence, this`own,
               all.Values`references, all.Values`busyUsers
      ensures Formed() && State() == HostSteps.DestroyCurrent(old(State()), s, waitOk)
      ensures s in surfaces && surfaces[s].pending == old(surfaces)[s].pending
    {
      var current := surfaces[s].current;
      if current != null {
        SetSlots(s, surfaces[s].(current := null));
        WaitIdle(waitOk);
        Drop(current);
      }
    }

    method DropPending(s: SurfaceId)
      requires Formed() && s in surfaces && (surfaces[s].pending != null ==> surfaces[s].pending.id in live)
      modifies this`surfaces, this`live, this`events, all.Values`references
      ensures Formed() && State() == HostSteps.DestroyPending(old(State()), s)
    {
      var pending := surfaces[s].pending;
      SetSlots(s, surfaces[s].(pending := null));
      if pending != null {
        Unref(pending);
      }
    }

    /* ---------- requests and frames ---------- */

    /** The step just taken joins the history. */
    ghost method Record(h: Host, step: Step)
      requires Formed() && deferred.Valid() && Reached(history, h) && State() == Apply(h, step)
      modifies this`history
      ensures Valid() && history == old(history) + [step]
    {
      Extended(history, h, step);
      history := history + [step];
    }

    /** The renderer goes away, and its fence with it; nobody waits. */
    method DestroyRenderer()
      requires Valid()
      modifies this
      ensures Valid() && history == old(history) + [RendererGone]
    {
      ghost var h := State();
      fence := false;
      own, orphaned := {}, own + orphaned;
      Record(h, RendererGone);
    }

    /** What the run so far says about the buffers a surface points at. */
    lemma LiveSlots(s: SurfaceId)
      requires Formed() && Reached(history, State()) && s in surfaces
      ensures surfaces[s].pending != null ==> surfaces[s].pending.id in live
      ensures surfaces[s].current != null ==> surfaces[s].current.id in live
    {
      ReachedLive(history, State(), s);
      assert State().surfaces[s] == SurfaceOf(surfaces[s]);
    }

    /** compositor_create_surface */
    method CreateSurface(s: SurfaceId)
      requires Valid() && s !in surfaces
      modifies this
      ensures Valid() && history == old(history) + [Step.CreateSurface(s)]
    {
      ghost var h := State();
      SetSlots(s, Slots(null, null, false));
      Record(h, Step.CreateSurface(s));
    }

    /** A new wl_buffer, or the wrapper of an EGL buffer at its first attach. */
    method CreateBuffer(b: BufferId) returns (o: ShmBuffer)
      requires Valid() && b !in all
      modifies this
      ensures Valid() && history == old(history) + [Step.CreateBuffer(b)]
      ensures fresh(o) && o.id == b && all == old(all)[b := o] && b in live
    {
      ghost var h := State();
      o := MakeBuffer(b);
      Record(h, Step.CreateBuffer(b));
    }

    method MakeBuffer(b: BufferId) returns (o: ShmBuffer)
      requires Formed() && b !in all
      modifies this`all, this`live
      ensures Formed() && State() == HostSteps.NewBuffer(old(State()), b)
      ensures fresh(o) && o.id == b && all == old(all)[b := o] && b in live
    {
      o := new ShmBuffer(b);
      assert Buffers() == old(Buffers());
      all := all[b := o];
      live := live + {b};
      assert forall c :: c in old(all) ==> all[c] == old(all)[c] && View(all[c]) == old(View(all[c]));
      assert Buffers() == old(Buffers())[b := Buffer(1, 0, true)];
    }

    /** surface_attach; the client can only name a buffer whose resource lives. */
    method Attach(s: SurfaceId, target: ShmBuffer?)
      requires Valid() && s in surfaces && Known(target) && (target != null ==> target.id in live && target.resource)
      modifies this, all.Values`references
      ensures Valid() && history == old(history) + [AttachTo(s, IdOf(target))]
    {
      ghost var h := State();
      LiveSlots(s);
      AttachBuffer(s, target);
      ApplyAttach(h, s, IdOf(target));
      Record(h, AttachTo(s, IdOf(target)));
    }

    method AttachBuffer(s: SurfaceId, target: ShmBuffer?)
      requires Formed() && s in surfaces && Known(target) && (target != null ==> target.id in live && target.resource)
      requires surfaces[s].pending != null ==> surfaces[s].pending.id in live
      modifies this`surfaces, this`live, this`events, all.Values`references
      ensures Formed() && State() == HostSteps.Attach(old(State()), s, IdOf(target))
    {
      if target == null {
        SetPending(s, null);
        SetSlots(s, surfaces[s].(pendingDetach := true));
      } else if surfaces[s].pending != target {
        SetPending(s, target);
        SetSlots(s, surfaces[s].(pendingDetach := false));
      }
    }

    /** The buffer part of trierarch_surface_commit. */
    method Commit(s: SurfaceId)
      requires Valid() && s in surfaces
      modifies this, deferred, all.Values
      ensures Valid() && history == old(history) + [CommitOn(s)]
    {
      ghost var h := State();
      LiveSlots(s);
      CommitBuffer(s);
      Record(h, CommitOn(s));
    }

    method CommitBuffer(s: SurfaceId)
      requires Formed() && deferred.Valid() && s in surfaces
      requires surfaces[s].pending != null ==> surfaces[s].pending.id in live
      modifies this`surfaces, this`live, this`events, deferred, all.Values
      ensures Formed() && deferred.Valid() && State() == HostSteps.Commit(old(State()), s)
    {
      if surfaces[s].pending != null || surfaces[s].pendingDetach {
        if surfaces[s].pending != surfaces[s].current {
          ReplaceCurrent(s);
        } else {
          KeepCurrent(s);
        }
      }
    }

    /** The buffer part of surface_resource_destroy. */
    method DestroySurface(s: SurfaceId, waitOk: bool)
      requires Valid() && s in surfaces
      modifies this, all.Values
      ensures Valid() && history == old(history) + [SurfaceGone(s, waitOk)]
    {
      LiveSlots(s);
      ghost var h := State();
      PendingOutlives(history, h, s, waitOk);
      EndSurface(s, waitOk);
      Record(h, SurfaceGone(s, waitOk));
    }

    method EndSurface(s: SurfaceId, waitOk: bool)
      requires Formed() && s in surfaces && (surfaces[s].current != null ==> surfaces[s].current.id in live)
      requires surfaces[s].pending != null ==>
                 surfaces[s].pending.id in HostSteps.DestroyCurrent(State(), s, waitOk).buffers
      modifies this`surfaces, this`live, this`events, this`fence, this`own,
               all.Values`references, all.Values`busyUsers
      ensures Formed() && State() == HostSteps.DestroySurface(old(State()), s, waitOk)
    {
      ReleaseCurrent(s, waitOk);
      DropPending(s);
      RemoveSurface(s);
    }

    method RemoveSurface(s: SurfaceId)
      requires Formed()
      modifies this`surfaces
      ensures Formed() && State() == old(State()).(surfaces := old(State()).surfaces - {s})
    {
      surfaces := surfaces - {s};
      assert SurfacesOf(surfaces) == SurfacesOf(old(surfaces)) - {s};
    }

    /** buffer_resource_destroy, or egl_resource_destroyed with its wait. */
    method DestroyBuffer(o: ShmBuffer, egl: bool, waitOk: bool)
      requires Valid() && Known(o) && o.id in live && o.resource
      modifies this, o
      ensures Valid() && history == old(history) + [BufferGone(o.id, egl, waitOk)]
    {
      ghost var h := State();
      EndBuffer(o, egl, waitOk);
      Record(h, BufferGone(o.id, egl, waitOk));
    }

    method EndBuffer(o: ShmBuffer, egl: bool, waitOk: bool)
      requires Formed() && Known(o) && o.id in live && o.resource
      modifies this`live, this`events, this`fence, this`own, o`resource, o`references
      ensures Formed() && State() == HostSteps.DestroyBuffer(old(State()), o.id, egl, waitOk)
    {
      if egl {
        WaitIdle(waitOk);
      }
      DropResource(o);
      Unref(o);
    }

    method DropResource(o: ShmBuffer)
      requires Formed() && Known(o) && o.id in live
      modifies o`resource
      ensures State() == BufferLifetime.DropResource(old(State()), o.id)
    {
      o.resource := false;
      assert forall b :: b in all && b != o.id ==> all[b] != o;
      assert Buffers() == old(Buffers())[o.id := old(View(o)).(resource := false)];
    }

    /** Drawing and swapping: which reads the GPU then has, and whether a fence covers them. */
    method DrawFrame(drawn: set<SurfaceId>, outcome: HostSteps.Outcome)
      modifies this`fence, this`own
      ensures State() == HostSteps.Draw(old(State()), drawn, outcome)
    {
      match outcome {
        case NotCurrent =>
        case SwapFailed(outstanding) =>
          own := if outstanding then own + HostSteps.Shown(State(), drawn) else own;
        case Swapped(fenced) =>
          own := if fenced then own + HostSteps.Shown(State(), drawn) else {};
          fence := fence || fenced;
      }
    }

    method RunFrame(drawn: set<SurfaceId>, waitOk: bool, outcome: HostSteps.Outcome)
      requires Formed() && deferred.Valid() && HostSteps.Invariant(HostSteps.WaitIdle(State(), waitOk), false)
      modifies this`live, this`events, this`lost, this`fence, this`own, deferred, all.Values
      ensures Formed() && deferred.Valid() && State() == HostSteps.Render(old(State()), drawn, waitOk, outcome)
    {
      WaitIdle(waitOk);
      FlushDeferred();
      DrawFrame(drawn, outcome);
    }

    /** trierarch_renderer_render: wait, flush, then draw and swap. */
    method Render(drawn: set<SurfaceId>, waitOk: bool, outcome: HostSteps.Outcome) returns (presented: bool)
      requires Valid()
      modifies this, deferred, all.Values
      ensures Valid() && history == old(history) + [Frame(drawn, waitOk, outcome)]
      ensures presented <==> outcome.Swapped?
    {
      ghost var h := State();
      WaitKeeps(history, h, waitOk);
      RunFrame(drawn, waitOk, outcome);
      presented := outcome.Swapped?;
      Record(h, Frame(drawn, waitOk, outcome));
    }
  }

  lemma {:induction false} EndUseIs(h: Host, h': Host, b: BufferId)
    requires b in h.buffers && h.buffers[b].busyUsers > 0
    requires
      var n := h.buffers[b].busyUsers - 1;
      h' == h.(buffers := h.buffers[b := h.buffers[b].(busyUsers := n)],
               events := if n > 0 then h.events
                         else h.events + [Released(b, h.buffers[b].resource, |Users(h.surfaces, b)|, b in h.gpu.reading)])
    ensures h' == BufferLifetime.EndUse(h, b)
  {
  }

  lemma {:induction false} ApplyAttach(h: Host, s: SurfaceId, target: Option<BufferId>)
    ensures Apply(h, AttachTo(s, target)) == HostSteps.Attach(h, s, target)
  {
  }

  lemma {:induction false} CommitReplaces(h: Host, s: SurfaceId, h1: Host)
    requires s in h.surfaces && h.surfaces[s].pending != h.surfaces[s].current
    requires h.surfaces[s].pending.Some? || h.surfaces[s].pendingDetach
    requires
      var x := h.surfaces[s];
      h1 == if x.current.Some? then HostSteps.Defer(SetSurface(h, s, x.(current := None)), x.current.value) else h
    ensures s in h1.surfaces && HostSteps.Commit(h, s) == BufferLifetime.BeginUse(h1, s)
  {
  }

  /** Releasing a surface's current buffer leaves its pending one allocated. */
  lemma {:induction false} PendingOutlives(steps: seq<Step>, h: Host, s: SurfaceId, waitOk: bool)
    requires Reached(steps, h) && s in h.surfaces
    ensures var p := h.surfaces[s].pending; p.Some? ==> p.value in HostSteps.DestroyCurrent(h, s, waitOk).buffers
  {
    ReachedKeeps(steps, h);
    StillAllocated(h, s, waitOk);
  }

  lemma {:induction false} StillAllocated(h: Host, s: SurfaceId, waitOk: bool)
    requires HostSteps.Invariant(h, false) && s in h.surfaces
    ensures var p := h.surfaces[s].pending; p.Some? ==> p.value in HostSteps.DestroyCurrent(h, s, waitOk).buffers
  {
    SurfaceCounts(h, s);
    if h.surfaces[s].current.Some? {
      CurrentReads(h, s, waitOk);
    }
  }

  lemma {:induction false} WaitKeeps(steps: seq<Step>, h: Host, waitOk: bool)
    requires Reached(steps, h)
    ensures HostSteps.Invariant(HostSteps.WaitIdle(h, waitOk), false)
  {
    ReachedKeeps(steps, h);
    HostSteps.WaitIdleGood(h, HostSteps.Outstanding(h), multiset{}, false, waitOk);
  }

  lemma {:induction false} StartsFlush(h: Host, start: Host, es: seq<ShmBuffer>, first: ShmBuffer?)
    requires Distinct(es) && (first == null <==> es == []) && h.enqueued == Ids(es) && Enough(h, Visited(h.enqueued))
    requires start == h.(enqueued := [], lost := h.lost + HostSteps.Missed(h.enqueued))
    ensures Enough(start, Ids(Left(es, |es|, first)))
    ensures HostSteps.FlushEntries(start, Ids(Left(es, |es|, first))) == HostSteps.Flush(h)
  {
    LeftAtFirst(es, first);
    SamePay(h, start, Visited(h.enqueued));
  }

  /** The buffers a flush standing at `buffer` has still to visit. */
  function Left(es: seq<ShmBuffer>, n: nat, buffer: ShmBuffer?): seq<ShmBuffer>
    requires n <= |es|
  {
    if buffer == null then [] else Walk(es, n)
  }

  lemma {:induction false} LeftAtFirst(es: seq<ShmBuffer>, first: ShmBuffer?)
    requires Distinct(es) && (first == null <==> es == [])
    ensures Ids(Left(es, |es|, first)) == Visited(Ids(es))
  {
    WalkIds(es, |es|);
  }

  lemma {:induction false} FlushIsPaid(h: Host)
    requires HostSteps.Invariant(h, false)
    ensures Enough(h, Visited(h.enqueued))
  {
    forall b
      ensures EnoughFor(h, Visited(h.enqueued), b)
    {
      FlushEnough(h, b);
    }
  }

  lemma {:induction false} SamePay(h: Host, h': Host, entries: seq<BufferId>)
    requires Enough(h, entries) && h'.buffers == h.buffers
    ensures Enough(h', entries)
  {
    forall b
      ensures EnoughFor(h', entries, b)
    {
      assert EnoughFor(h, entries, b);
    }
  }

  lemma {:induction false} EnoughAfterFirst(h: Host, entries: seq<BufferId>)
    requires entries != [] && Enough(h, entries)
    ensures Enough(HostSteps.EndUseAndUnref(h, entries[0]), entries[1..])
  {
    assert EnoughFor(h, entries, entries[0]);
    forall b
      ensures EnoughFor(HostSteps.EndUseAndUnref(h, entries[0]), entries[1..], b)
    {
      assert EnoughFor(h, entries, b);
      AfterFirst(h, entries, b);
    }
  }
}
