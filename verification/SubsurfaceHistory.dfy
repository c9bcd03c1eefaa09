/**
  Roles, parents and stacking order of sub-surfaces after a run, read off the
  requests.
 */
module SubsurfaceHistory {
  import opened Common
  import opened Subcompositor

  predicate HasRole(st: State, s: SurfaceId) {
    s in st.surfaces && st.surfaces[s].role
  }

  predicate ChildOf(st: State, s: SurfaceId, p: SurfaceId) {
    s in st.surfaces && st.surfaces[s].parent == Some(p)
  }

  function ChildrenOf(st: State, p: SurfaceId): seq<SurfaceId> {
    if p in st.surfaces then st.surfaces[p].children else []
  }

  /** get_subsurface on two live surfaces, the first without the role. */
  predicate Attaches(st: State, step: Step, s: SurfaceId, p: SurfaceId) {
    step == GetSubsurface(s, p) && s != p && s in st.surfaces && p in st.surfaces && !st.surfaces[s].role
  }

  predicate Goes(step: Step, s: SurfaceId) {
    step == DestroySurface(s)
  }

  /** The children list of p after a step that is not a placement. */
  function ChildrenAfter(st: State, step: Step, p: SurfaceId): seq<SurfaceId> {
    match step
    case GetSubsurface(s, q) => if q == p && Attaches(st, step, s, p) then [s] + ChildrenOf(st, p) else ChildrenOf(st, p)
    case DestroySubsurface(s) => if HasRole(st, s) then Without(ChildrenOf(st, p), s) else ChildrenOf(st, p)
    case DestroySurface(s) => if s == p then [] else if s in st.surfaces then Without(ChildrenOf(st, p), s) else ChildrenOf(st, p)
    case _ => ChildrenOf(st, p)
  }

  ghost predicate StepLaws(st: State, step: Step, s: SurfaceId, p: SurfaceId) {
    var st' := Apply(st, step);
    && (s in st'.surfaces <==> step == Create(s) || (s in st.surfaces && !Goes(step, s)))
    && (HasRole(st', s) <==> (step.GetSubsurface? && Attaches(st, step, s, step.p))
                             || (HasRole(st, s) && step != DestroySubsurface(s) && !Goes(step, s)))
    && (ChildOf(st', s, p) <==> Attaches(st, step, s, p)
                                || (ChildOf(st, s, p) && step != DestroySubsurface(s) && !Goes(step, s) && !Goes(step, p)))
    && (!step.PlaceAbove? && !step.PlaceBelow? ==> ChildrenOf(st', p) == ChildrenAfter(st, step, p))
  }

  lemma {:induction false} WithoutAbsent(list: seq<SurfaceId>, s: SurfaceId)
    requires s !in list
    ensures Without(list, s) == list
  {
  }

  lemma {:induction false} DetachView(st: State, t: SurfaceId, s: SurfaceId, p: SurfaceId)
    requires Consistent(st) && t in st.surfaces
    ensures var st' := Detach(st, t);
      && st'.surfaces.Keys == st.surfaces.Keys
      && (HasRole(st', s) <==> HasRole(st, s) && s != t)
      && (ChildOf(st', s, p) <==> ChildOf(st, s, p) && s != t)
      && ChildrenOf(st', p) == Without(ChildrenOf(st, p), t)
  {
    assert SurfaceOk(st, t);
    if p in st.surfaces {
      ListedIff(st, t, p);
    }
    if !ChildOf(st, t, p) {
      WithoutAbsent(ChildrenOf(st, p), t);
    }
  }

  lemma {:induction false} OrphanView(st: State, t: SurfaceId, s: SurfaceId, p: SurfaceId)
    requires Consistent(st) && t in st.surfaces
    ensures var st' := Orphan(st, t);
      && st'.surfaces.Keys == st.surfaces.Keys - {t}
      && (HasRole(st', s) <==> HasRole(st, s) && s != t)
      && (ChildOf(st', s, p) <==> ChildOf(st, s, p) && s != t && p != t)
      && ChildrenOf(st', p) == if p == t then [] else ChildrenOf(st, p)
  {
    if s in st.surfaces {
      ListedIff(st, s, t);
    }
  }

  lemma {:induction false} DestroyLaws(st: State, t: SurfaceId, s: SurfaceId, p: SurfaceId)
    requires Consistent(st) && st.alive
    ensures StepLaws(st, DestroySurface(t), s, p)
  {
    if t in st.surfaces {
      DetachView(st, t, s, p);
      DetachConsistent(st, t);
      OrphanView(Detach(st, t), t, s, p);
    }
    if s in st.surfaces {
      assert SurfaceOk(st, s);
    }
  }

  lemma {:induction false} RoleLaws(st: State, t: SurfaceId, s: SurfaceId, p: SurfaceId)
    requires Consistent(st) && st.alive
    ensures StepLaws(st, DestroySubsurface(t), s, p)
  {
    if HasRole(st, t) {
      DetachView(st, t, s, p);
    }
    if s in st.surfaces {
      assert SurfaceOk(st, s);
    }
  }

  lemma {:induction false} GetLaws(st: State, t: SurfaceId, q: SurfaceId, s: SurfaceId, p: SurfaceId)
    requires Consistent(st) && st.alive
    ensures StepLaws(st, GetSubsurface(t, q), s, p)
  {
    if s in st.surfaces {
      assert SurfaceOk(st, s);
    }
  }

  lemma {:induction false} PlaceLaws(st: State, step: Step, s: SurfaceId, p: SurfaceId)
    requires st.alive && (step.PlaceAbove? || step.PlaceBelow? || step.Create?)
    ensures StepLaws(st, step, s, p)
  {
  }

  lemma {:induction false} StepChanges(st: State, step: Step, s: SurfaceId, p: SurfaceId)
    requires Consistent(st) && st.alive
    ensures StepLaws(st, step, s, p)
  {
    match step
    case GetSubsurface(t, q) => GetLaws(st, t, q, s, p);
    case DestroySubsurface(t) => RoleLaws(st, t, s, p);
    case DestroySurface(t) => DestroyLaws(st, t, s, p);
    case _ => PlaceLaws(st, step, s, p);
  }

  /* ---------- every run ---------- */

  ghost function Created(s: SurfaceId): Moment<Step> {
    (before: seq<Step>, step: Step) => step == Create(s)
  }

  ghost function Gone(s: SurfaceId): Moment<Step> {
    (before: seq<Step>, step: Step) => Goes(step, s)
  }

  ghost function GetsRole(s: SurfaceId): Moment<Step> {
    (before: seq<Step>, step: Step) => step.GetSubsurface? && Attaches(Exec(before), step, s, step.p)
  }

  ghost function LosesRole(s: SurfaceId): Moment<Step> {
    (before: seq<Step>, step: Step) => step == DestroySubsurface(s) || Goes(step, s)
  }

  ghost function GetsParent(s: SurfaceId, p: SurfaceId): Moment<Step> {
    (before: seq<Step>, step: Step) => Attaches(Exec(before), step, s, p)
  }

  ghost function LosesParent(s: SurfaceId, p: SurfaceId): Moment<Step> {
    (before: seq<Step>, step: Step) => step == DestroySubsurface(s) || Goes(step, s) || Goes(step, p)
  }

  /**
    A surface has the role from get_subsurface until role or surface go, and its
    parent until one of the two or the parent goes.
   */
  lemma {:induction false} ChildSince(steps: seq<Step>, s: SurfaceId, p: SurfaceId)
    requires NoSelfPlacement(steps)
    ensures s in Exec(steps).surfaces <==> Since(steps, Created(s), Gone(s))
    ensures HasRole(Exec(steps), s) <==> Since(steps, GetsRole(s), LosesRole(s))
    ensures ChildOf(Exec(steps), s, p) <==> Since(steps, GetsParent(s, p), LosesParent(s, p))
  {
    if steps != [] {
      var before := steps[..|steps| - 1];
      ChildSince(before, s, p);
      SinceLast(steps, Created(s), Gone(s));
      SinceLast(steps, GetsRole(s), LosesRole(s));
      SinceLast(steps, GetsParent(s, p), LosesParent(s, p));
      RunConsistent(before);
      StepChanges(Exec(before), steps[|steps| - 1], s, p);
    }
  }

  /**
    A new child goes below its siblings, and nothing but a placement ever
    changes the order of those that stay.
   */
  lemma {:induction false} OrderKept(steps: seq<Step>, step: Step, p: SurfaceId)
    requires NoSelfPlacement(steps) && !step.PlaceAbove? && !step.PlaceBelow?
    ensures ChildrenOf(Exec(steps + [step]), p) == ChildrenAfter(Exec(steps), step, p)
  {
    ExecAppend(steps, step);
    RunConsistent(steps);
    StepChanges(Exec(steps), step, p, p);
  }
}
