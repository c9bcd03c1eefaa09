/**
  Reference counts, busy counts, deferred releases and GPU reads of client
  buffers: wayland-host/src/surface.c, buffer_shm.c, egl_buffer.c, renderer.c.

  Buffers and surfaces are identified by number; a buffer that is freed
  leaves the map.  Every operation follows the order of the C statements.
 */
module BufferLifetime {
  import opened Common

  type BufferId = nat
  type SurfaceId = nat

  /** `resource`: the wl_buffer (or, for an EGL wrapper, its cache entry) is alive. */
  datatype Buffer = Buffer(references: nat, busyUsers: nat, resource: bool)

  datatype Surface = Surface(pending: Option<BufferId>, current: Option<BufferId>, pendingDetach: bool)

  /**
    Buffers sampled by GPU work that no wait has covered: `own` by the renderer
    in use, whose next fence or glFinish covers them, `orphaned` by renderers
    that went away, whose context no later fence belongs to.
   */
  datatype Gpu = Gpu(fence: bool, own: set<BufferId>, orphaned: set<BufferId>) {
    const reading: set<BufferId> := own + orphaned
  }

  /** What leaves the compositor, with the state in which it left. */
  datatype Event =
    | Released(buffer: BufferId, onWire: bool, users: nat, read: bool)
    | Freed(buffer: BufferId, read: bool)

  /** `lost`: deferred entries that some flush stepped over. */
  datatype Host = Host(
    surfaces: map<SurfaceId, Surface>,
    buffers: map<BufferId, Buffer>,
    created: set<BufferId>,
    enqueued: seq<BufferId>,
    lost: multiset<BufferId>,
    gpu: Gpu,
    events: seq<Event>)

  const INITIAL := Host(map[], map[], {}, [], multiset{}, Gpu(false, {}, {}), [])

  /* ---------- holders ---------- */

  function Users(surfaces: map<SurfaceId, Surface>, b: BufferId): set<SurfaceId> {
    set s | s in surfaces && surfaces[s].current == Some(b)
  }

  function Waiters(surfaces: map<SurfaceId, Surface>, b: BufferId): set<SurfaceId> {
    set s | s in surfaces && surfaces[s].pending == Some(b)
  }

  function One(x: Option<BufferId>, b: BufferId): nat {
    if x == Some(b) then 1 else 0
  }

  lemma SizeAfterUpdate(before: set<SurfaceId>, after: set<SurfaceId>, s: SurfaceId)
    requires before - {s} == after - {s}
    ensures |after| == |before| - (if s in before then 1 else 0) + (if s in after then 1 else 0)
  {
    var rest := before - {s};
    assert before == if s in before then rest + {s} else rest;
    assert after == if s in after then rest + {s} else rest;
  }

  lemma UsersAfterUpdate(m: map<SurfaceId, Surface>, s: SurfaceId, x: Surface, b: BufferId)
    requires s in m
    ensures |Users(m[s := x], b)| == |Users(m, b)| - One(m[s].current, b) + One(x.current, b)
    ensures |Waiters(m[s := x], b)| == |Waiters(m, b)| - One(m[s].pending, b) + One(x.pending, b)
  {
    SizeAfterUpdate(Users(m, b), Users(m[s := x], b), s);
    SizeAfterUpdate(Waiters(m, b), Waiters(m[s := x], b), s);
  }

  lemma UsersAfterInsert(m: map<SurfaceId, Surface>, s: SurfaceId, b: BufferId)
    requires s !in m
    ensures Users(m[s := Surface(None, None, false)], b) == Users(m, b)
    ensures Waiters(m[s := Surface(None, None, false)], b) == Waiters(m, b)
  {
  }

  lemma UsersAfterRemove(m: map<SurfaceId, Surface>, s: SurfaceId, b: BufferId)
    requires s in m && m[s].current == None && m[s].pending == None
    ensures Users(m - {s}, b) == Users(m, b) && Waiters(m - {s}, b) == Waiters(m, b)
  {
  }

  /**
    `uses` are outstanding uses outside any surface (each owns a reference and
    a busy count); `refs` are bare references in transit between two owners.
   */
  ghost predicate BufferCounted(h: Host, uses: multiset<BufferId>, refs: multiset<BufferId>, b: BufferId)
    requires b in h.buffers
  {
    var x := h.buffers[b];
    && x.references > 0
    && x.references == (if x.resource then 1 else 0) + |Users(h.surfaces, b)|
                       + |Waiters(h.surfaces, b)| + uses[b] + refs[b]
    && x.busyUsers == |Users(h.surfaces, b)| + uses[b]
  }

  /** Whatever is held is alive, and every count is the number of holders. */
  ghost predicate Counted(h: Host, uses: multiset<BufferId>, refs: multiset<BufferId>) {
    && (forall s :: s in h.surfaces ==>
          && (h.surfaces[s].current.Some? ==> h.surfaces[s].current.value in h.buffers)
          && (h.surfaces[s].pending.Some? ==> h.surfaces[s].pending.value in h.buffers))
    && (forall b :: b in uses ==> b in h.buffers)
    && (forall b :: b in refs ==> b in h.buffers)
    && (forall b :: b in h.buffers ==> BufferCounted(h, uses, refs, b))
    && h.buffers.Keys <= h.created
  }

  /** Counting looks at surfaces and buffers only. */
  lemma SameHoldersCounts(h: Host, h': Host, uses: multiset<BufferId>, refs: multiset<BufferId>)
    requires Counted(h, uses, refs)
    requires h'.surfaces == h.surfaces && h'.buffers == h.buffers && h'.created == h.created
    ensures Counted(h', uses, refs)
  {
    forall b | b in h'.buffers
      ensures BufferCounted(h', uses, refs, b)
    {
      assert BufferCounted(h, uses, refs, b);
    }
  }

  /* ---------- primitive operations ---------- */

  lemma AddSurfaceCounts(h: Host, uses: multiset<BufferId>, s: SurfaceId)
    requires s !in h.surfaces && Counted(h, uses, multiset{})
    ensures Counted(h.(surfaces := h.surfaces[s := Surface(None, None, false)]), uses, multiset{})
  {
    var h' := h.(surfaces := h.surfaces[s := Surface(None, None, false)]);
    forall b | b in h'.buffers
      ensures BufferCounted(h', uses, multiset{}, b)
    {
      assert BufferCounted(h, uses, multiset{}, b);
      UsersAfterInsert(h.surfaces, s, b);
    }
  }

  lemma RemoveSurfaceCounts(h: Host, uses: multiset<BufferId>, s: SurfaceId)
    requires s in h.surfaces && h.surfaces[s].current == None && h.surfaces[s].pending == None
    requires Counted(h, uses, multiset{})
    ensures Counted(h.(surfaces := h.surfaces - {s}), uses, multiset{})
  {
    var h' := h.(surfaces := h.surfaces - {s});
    forall b | b in h'.buffers
      ensures BufferCounted(h', uses, multiset{}, b)
    {
      assert BufferCounted(h, uses, multiset{}, b);
      UsersAfterRemove(h.surfaces, s, b);
    }
  }

  function AddBuffer(h: Host, b: BufferId): Host {
    h.(created := h.created + {b}, buffers := h.buffers[b := Buffer(1, 0, true)])
  }

  lemma AddBufferCounts(h: Host, uses: multiset<BufferId>, b: BufferId)
    requires b !in h.created && Counted(h, uses, multiset{})
    ensures Counted(AddBuffer(h, b), uses, multiset{})
  {
    var h' := AddBuffer(h, b);
    assert Users(h.surfaces, b) == {} && Waiters(h.surfaces, b) == {};
    forall c | c in h'.buffers
      ensures BufferCounted(h', uses, multiset{}, c)
    {
      if c != b {
        assert BufferCounted(h, uses, multiset{}, c);
      }
    }
  }

  function AddReference(h: Host, b: BufferId): Host
    requires b in h.buffers
  {
    var x := h.buffers[b];
    h.(buffers := h.buffers[b := x.(references := x.references + 1)])
  }

  lemma AddReferenceCounts(h: Host, uses: multiset<BufferId>, b: BufferId)
    requires b in h.buffers && Counted(h, uses, multiset{})
    ensures Counted(AddReference(h, b), uses, multiset{b})
  {
    var h' := AddReference(h, b);
    forall c | c in h'.buffers
      ensures BufferCounted(h', uses, multiset{b}, c)
    {
      assert BufferCounted(h, uses, multiset{}, c);
    }
  }

  function Unref(h: Host, b: BufferId): Host {
    if b !in h.buffers || h.buffers[b].references == 0 then h
    else
      var x := h.buffers[b];
      if x.references > 1 then h.(buffers := h.buffers[b := x.(references := x.references - 1)])
      else h.(buffers := h.buffers - {b}, events := h.events + [Freed(b, b in h.gpu.reading)])
  }

  /** Storage goes exactly with the last holder, and nothing points at it then. */
  lemma UnrefCounts(h: Host, uses: multiset<BufferId>, refs: multiset<BufferId>, b: BufferId)
    requires b in refs && Counted(h, uses, refs)
    ensures Counted(Unref(h, b), uses, refs - multiset{b})
    ensures b !in Unref(h, b).buffers ==> h.buffers[b].busyUsers == 0
  {
    var h' := Unref(h, b);
    assert BufferCounted(h, uses, refs, b);
    forall c | c in h'.buffers
      ensures BufferCounted(h', uses, refs - multiset{b}, c)
    {
      assert BufferCounted(h, uses, refs, c);
    }
    if b !in h'.buffers {
      assert Users(h.surfaces, b) == {} && Waiters(h.surfaces, b) == {};
      forall s | s in h.surfaces
        ensures h.surfaces[s].current != Some(b) && h.surfaces[s].pending != Some(b)
      {
        assert s !in Users(h.surfaces, b) && s !in Waiters(h.surfaces, b);
      }
    }
  }

  function DropResource(h: Host, b: BufferId): Host
    requires b in h.buffers
  {
    h.(buffers := h.buffers[b := h.buffers[b].(resource := false)])
  }

  lemma DropResourceCounts(h: Host, uses: multiset<BufferId>, b: BufferId)
    requires b in h.buffers && h.buffers[b].resource && Counted(h, uses, multiset{})
    ensures Counted(DropResource(h, b), uses, multiset{b})
  {
    var h' := DropResource(h, b);
    forall c | c in h'.buffers
      ensures BufferCounted(h', uses, multiset{b}, c)
    {
      assert BufferCounted(h, uses, multiset{}, c);
    }
  }

  /** One use ends; the release events go out with the last one. */
  function EndUse(h: Host, b: BufferId): Host {
    if b !in h.buffers || h.buffers[b].busyUsers == 0 then h
    else
      var x := h.buffers[b];
      var y := x.(busyUsers := x.busyUsers - 1);
      h.(buffers := h.buffers[b := y],
         events := if y.busyUsers > 0 then h.events
                   else h.events + [Released(b, x.resource, |Users(h.surfaces, b)|, b in h.gpu.reading)])
  }

  lemma EndUseCounts(h: Host, uses: multiset<BufferId>, refs: multiset<BufferId>, b: BufferId)
    requires b in uses && Counted(h, uses, refs)
    ensures Counted(EndUse(h, b), uses - multiset{b}, refs + multiset{b})
  {
    var h' := EndUse(h, b);
    assert BufferCounted(h, uses, refs, b);
    forall c | c in h'.buffers
      ensures BufferCounted(h', uses - multiset{b}, refs + multiset{b}, c)
    {
      assert BufferCounted(h, uses, refs, c);
    }
  }

  function SetSurface(h: Host, s: SurfaceId, x: Surface): Host {
    h.(surfaces := h.surfaces[s := x])
  }

  /** A surface lets go of its current buffer: the use stays outstanding. */
  lemma DropCurrentCounts(h: Host, uses: multiset<BufferId>, refs: multiset<BufferId>, s: SurfaceId, b: BufferId)
    requires s in h.surfaces && h.surfaces[s].current == Some(b) && Counted(h, uses, refs)
    ensures Counted(SetSurface(h, s, h.surfaces[s].(current := None)), uses + multiset{b}, refs)
  {
    var x := h.surfaces[s].(current := None);
    var h' := SetSurface(h, s, x);
    forall c | c in h'.buffers
      ensures BufferCounted(h', uses + multiset{b}, refs, c)
    {
      assert BufferCounted(h, uses, refs, c);
      UsersAfterUpdate(h.surfaces, s, x, c);
    }
  }

  lemma FlagCounts(h: Host, uses: multiset<BufferId>, refs: multiset<BufferId>, s: SurfaceId, x: Surface)
    requires s in h.surfaces && Counted(h, uses, refs)
    requires x.current == h.surfaces[s].current && x.pending == h.surfaces[s].pending
    ensures Counted(SetSurface(h, s, x), uses, refs)
  {
    var h' := SetSurface(h, s, x);
    forall c | c in h'.buffers
      ensures BufferCounted(h', uses, refs, c)
    {
      assert BufferCounted(h, uses, refs, c);
      UsersAfterUpdate(h.surfaces, s, x, c);
    }
  }

  function RefsOf(x: Option<BufferId>): multiset<BufferId> {
    if x.Some? then multiset{x.value} else multiset{}
  }

  /** Bare references and the surface's pending buffer change places. */
  lemma ReplacePendingCounts(h: Host, uses: multiset<BufferId>, s: SurfaceId, target: Option<BufferId>)
    requires s in h.surfaces && Counted(h, uses, RefsOf(target))
    ensures Counted(SetSurface(h, s, h.surfaces[s].(pending := target)), uses, RefsOf(h.surfaces[s].pending))
  {
    var x := h.surfaces[s].(pending := target);
    var h' := SetSurface(h, s, x);
    forall c | c in h'.buffers
      ensures BufferCounted(h', uses, RefsOf(h.surfaces[s].pending), c)
    {
      assert BufferCounted(h, uses, RefsOf(target), c);
      UsersAfterUpdate(h.surfaces, s, x, c);
    }
  }

  /** The pending buffer becomes the current one: its reference stays, its use begins. */
  function BeginUse(h: Host, s: SurfaceId): Host
    requires s in h.surfaces
  {
    var x := h.surfaces[s];
    var h1 := SetSurface(h, s, Surface(None, x.pending, false));
    if x.pending.None? || x.pending.value !in h.buffers then h1
    else
      var y := h.buffers[x.pending.value];
      h1.(buffers := h.buffers[x.pending.value := y.(busyUsers := y.busyUsers + 1)])
  }

  lemma BeginUseCounts(h: Host, uses: multiset<BufferId>, s: SurfaceId)
    requires s in h.surfaces && h.surfaces[s].current == None && Counted(h, uses, multiset{})
    ensures Counted(BeginUse(h, s), uses, multiset{})
  {
    var h' := BeginUse(h, s);
    forall c | c in h'.buffers
      ensures BufferCounted(h', uses, multiset{}, c)
    {
      BeginUseOne(h, uses, s, c);
    }
    BeginUseHeld(h, s);
  }

  /** The same buffers, and every surface still points at allocated ones. */
  lemma {:induction false} BeginUseHeld(h: Host, s: SurfaceId)
    requires s in h.surfaces
    requires forall t :: t in h.surfaces ==>
               && (h.surfaces[t].current.Some? ==> h.surfaces[t].current.value in h.buffers)
               && (h.surfaces[t].pending.Some? ==> h.surfaces[t].pending.value in h.buffers)
    ensures BeginUse(h, s).buffers.Keys == h.buffers.Keys
    ensures forall t :: t in BeginUse(h, s).surfaces ==>
              && (BeginUse(h, s).surfaces[t].current.Some? ==> BeginUse(h, s).surfaces[t].current.value in h.buffers)
              && (BeginUse(h, s).surfaces[t].pending.Some? ==> BeginUse(h, s).surfaces[t].pending.value in h.buffers)
  {
  }

  lemma BeginUseOne(h: Host, uses: multiset<BufferId>, s: SurfaceId, c: BufferId)
    requires s in h.surfaces && h.surfaces[s].current == None && c in h.buffers
    requires BufferCounted(h, uses, multiset{}, c)
    ensures c in BeginUse(h, s).buffers && BufferCounted(BeginUse(h, s), uses, multiset{}, c)
  {
    UsersAfterUpdate(h.surfaces, s, Surface(None, h.surfaces[s].pending, false), c);
  }
}
