/**
  Which pools and buffers there are after a run of shared-memory requests, with
  which mapping and shape, read off the requests.
 */
module PoolHistory {
  import opened Common
  import opened ShmPool

  /* ---------- views of a state ---------- */

  predicate BufferIs(st: State, b: BufferId, p: PoolId, shape: Shape) {
    b in st.buffers && st.buffers[b].pool == p && st.buffers[b].shape == shape
  }

  predicate PoolOpen(st: State, p: PoolId) {
    p in st.pools && st.pools[p].resource
  }

  predicate MappedAs(st: State, p: PoolId, base: Address, size: int) {
    p in st.pools && st.pools[p].base == base && st.pools[p].size == size
  }

  /* ---------- what changes them ---------- */

  /** A request that is granted. */
  predicate Grants(st: State, step: Step) {
    Enabled(st, step) &&
    match step
    case CreatePool(_, size, mapped) => size > 0 && mapped.Some?
    case Resize(p, size, mapped) => size > st.pools[p].size && mapped.Some?
    case CreateBuffer(p, _, shape, format) => AcceptsShape(st.pools[p].size, shape) && (format == ARGB8888 || format == XRGB8888)
    case _ => true
  }

  predicate MakesBuffer(st: State, step: Step, b: BufferId, p: PoolId, shape: Shape) {
    step.CreateBuffer? && step.b == b && step.p == p && step.shape == shape && Grants(st, step)
  }

  predicate Maps(st: State, step: Step, p: PoolId) {
    (step.CreatePool? || step.Resize?) && step.p == p && Grants(st, step)
  }

  /** The step takes the last holder of the pool away. */
  ghost predicate LastHolderGoes(st: State, step: Step, p: PoolId) {
    || (step == DestroyPool(p) && PoolOpen(st, p) && forall c :: c in st.buffers ==> st.buffers[c].pool != p)
    || (&& step.DestroyStorage? && step.b in st.buffers && st.buffers[step.b].pool == p && !PoolOpen(st, p)
        && forall c :: c in st.buffers && st.buffers[c].pool == p ==> c == step.b)
  }

  ghost predicate StepLaws(st: State, step: Step, b: BufferId, p: PoolId, shape: Shape, base: Address, size: int) {
    var st' := Apply(st, step);
    && (BufferIs(st', b, p, shape) <==> MakesBuffer(st, step, b, p, shape) || (BufferIs(st, b, p, shape) && step != DestroyStorage(b)))
    && (PoolOpen(st', p) <==> (step.CreatePool? && Maps(st, step, p)) || (PoolOpen(st, p) && step != DestroyPool(p)))
    && (MappedAs(st', p, base, size) <==>
          || (Maps(st, step, p) && step.size == size && step.mapped == Some(base))
          || (MappedAs(st, p, base, size) && !Maps(st, step, p) && !LastHolderGoes(st, step, p)))
    && (p in st'.used <==> p in st.used || (step.CreatePool? && Maps(st, step, p)))
    && (Enabled(st, step) && !Grants(st, step) ==> st' == st.(log := st.log + [Refused]))
  }

  /** An unref takes the pool away exactly if it was the last one, and nothing else. */
  lemma {:induction false} UnrefView(st: State, q: PoolId, p: PoolId)
    requires q in st.pools
    ensures var st' := PoolUnref(st, q);
      && st'.buffers == st.buffers && st'.used == st.used
      && (p in st'.pools <==> p in st.pools && (p != q || st.pools[q].references != 1))
      && (p in st'.pools ==> st'.pools[p].base == st.pools[p].base && st'.pools[p].size == st.pools[p].size
                             && st'.pools[p].resource == st.pools[p].resource)
  {
  }

  /** The list of a pool holds exactly its buffers. */
  lemma {:induction false} ListIs(st: State, p: PoolId, c: BufferId)
    requires Good(st) && p in st.pools
    ensures c in st.pools[p].buffers <==> c in st.buffers && st.buffers[c].pool == p
  {
    assert PoolOk(st, p, 0);
    if c in st.buffers {
      assert BufferOk(st, c);
      ListedOnlyInOwnPool(st, p, c);
    }
  }

  lemma {:induction false} NoneListed(st: State, p: PoolId)
    requires Good(st) && p in st.pools
    ensures st.pools[p].buffers == [] <==> forall c :: c in st.buffers ==> st.buffers[c].pool != p
  {
    if st.pools[p].buffers != [] {
      ListIs(st, p, st.pools[p].buffers[0]);
    } else {
      forall c | c in st.buffers
        ensures st.buffers[c].pool != p
      {
        ListIs(st, p, c);
      }
    }
  }

  lemma {:induction false} OnlyOneListed(st: State, p: PoolId, b: BufferId)
    requires Good(st) && p in st.pools && b in st.buffers && st.buffers[b].pool == p
    ensures |st.pools[p].buffers| == 1 <==> forall c :: c in st.buffers && st.buffers[c].pool == p ==> c == b
  {
    var list := st.pools[p].buffers;
    assert PoolOk(st, p, 0);
    ListIs(st, p, b);
    if |list| == 1 {
      forall c | c in st.buffers && st.buffers[c].pool == p
        ensures c == b
      {
        ListIs(st, p, c);
      }
    } else {
      var other := if list[0] == b then list[1] else list[0];
      assert other in list;
      ListIs(st, p, other);
    }
  }

  lemma {:induction false} MakeLaws(st: State, step: Step, b: BufferId, p: PoolId, shape: Shape, base: Address, size: int)
    requires Good(st) && (step.CreatePool? || step.Resize? || step.CreateBuffer?)
    ensures StepLaws(st, step, b, p, shape, base, size)
  {
    if p in st.pools {
      assert PoolOk(st, p, 0);
    }
  }

  lemma {:induction false} DestroyPoolLaws(st: State, q: PoolId, b: BufferId, p: PoolId, shape: Shape, base: Address, size: int)
    requires Good(st)
    ensures StepLaws(st, DestroyPool(q), b, p, shape, base, size)
  {
    if q in st.pools && st.pools[q].resource {
      assert PoolOk(st, q, 0);
      UnrefView(st.(pools := st.pools[q := st.pools[q].(resource := false)]), q, p);
      NoneListed(st, q);
    }
  }

  lemma {:induction false} DestroyStorageLaws(st: State, c: BufferId, b: BufferId, p: PoolId, shape: Shape, base: Address, size: int)
    requires Good(st)
    ensures StepLaws(st, DestroyStorage(c), b, p, shape, base, size)
  {
    if c in st.buffers {
      assert BufferOk(st, c);
      var q := st.buffers[c].pool;
      assert PoolOk(st, q, 0);
      UnrefView(Unlink(st, c), q, p);
      OnlyOneListed(st, q, c);
      ListIs(st, q, c);
    }
  }

  lemma {:induction false} RunLaws(steps: seq<Step>, b: BufferId, p: PoolId, shape: Shape, base: Address, size: int)
    requires steps != []
    ensures StepLaws(Exec(steps[..|steps| - 1]), steps[|steps| - 1], b, p, shape, base, size)
  {
    var st, step := Exec(steps[..|steps| - 1]), steps[|steps| - 1];
    RunGood(steps[..|steps| - 1]);
    match step
    case DestroyPool(q) => DestroyPoolLaws(st, q, b, p, shape, base, size);
    case DestroyStorage(c) => DestroyStorageLaws(st, c, b, p, shape, base, size);
    case _ => MakeLaws(st, step, b, p, shape, base, size);
  }

  /* ---------- every run ---------- */

  ghost function Made(b: BufferId, p: PoolId, shape: Shape): Moment<Step> {
    (before: seq<Step>, step: Step) => MakesBuffer(Exec(before), step, b, p, shape)
  }

  ghost function Destroyed(b: BufferId): Moment<Step> {
    (before: seq<Step>, step: Step) => step == DestroyStorage(b)
  }

  /** A buffer keeps the pool and shape it was made with until its storage goes. */
  lemma {:induction false} BufferSince(steps: seq<Step>, b: BufferId, p: PoolId, shape: Shape)
    ensures BufferIs(Exec(steps), b, p, shape) <==> Since(steps, Made(b, p, shape), Destroyed(b))
  {
    if steps != [] {
      BufferSince(steps[..|steps| - 1], b, p, shape);
      SinceLast(steps, Made(b, p, shape), Destroyed(b));
      RunLaws(steps, b, p, shape, 0, 0);
    }
  }

  ghost function Opened(p: PoolId): Moment<Step> {
    (before: seq<Step>, step: Step) => step.CreatePool? && Maps(Exec(before), step, p)
  }

  ghost function Closed(p: PoolId): Moment<Step> {
    (before: seq<Step>, step: Step) => step == DestroyPool(p)
  }

  ghost function MappedBy(p: PoolId, base: Address, size: int): Moment<Step> {
    (before: seq<Step>, step: Step) => Maps(Exec(before), step, p) && step.size == size && step.mapped == Some(base)
  }

  ghost function Remapped(p: PoolId): Moment<Step> {
    (before: seq<Step>, step: Step) => Maps(Exec(before), step, p) || LastHolderGoes(Exec(before), step, p)
  }

  /** A pool takes requests until its resource goes, and is mapped as last granted until its last holder goes. */
  lemma {:induction false} PoolSince(steps: seq<Step>, p: PoolId, base: Address, size: int)
    ensures PoolOpen(Exec(steps), p) <==> Since(steps, Opened(p), Closed(p))
    ensures MappedAs(Exec(steps), p, base, size) <==> Since(steps, MappedBy(p, base, size), Remapped(p))
  {
    if steps != [] {
      PoolSince(steps[..|steps| - 1], p, base, size);
      SinceLast(steps, Opened(p), Closed(p));
      SinceLast(steps, MappedBy(p, base, size), Remapped(p));
      RunLaws(steps, 0, p, Shape(0, 0, 0, 0), base, size);
    }
  }

  /** What is not granted is answered with an error and changes nothing. */
  lemma {:induction false} RefusedChangesNothing(steps: seq<Step>, step: Step)
    requires Enabled(Exec(steps), step) && !Grants(Exec(steps), step)
    ensures Exec(steps + [step]) == Exec(steps).(log := Exec(steps).log + [Refused])
  {
    var run := steps + [step];
    assert run[..|run| - 1] == steps;
    RunLaws(run, 0, 0, Shape(0, 0, 0, 0), 0, 0);
  }
}
