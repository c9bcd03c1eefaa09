/**
  Cycles among parents. get_subsurface only refuses a surface as its own
  parent (wayland-host/src/subcompositor.c:128), so it is up to the caller to
  keep the parents a forest.
 */
module SurfaceAncestry {
  import opened Common
  import opened Subcompositor

  type Surfaces = map<SurfaceId, Surface>

  /** The k-th ancestor. */
  function Up(ss: Surfaces, s: SurfaceId, k: nat): Option<SurfaceId> {
    if k == 0 then Some(s)
    else
      var below := Up(ss, s, k - 1);
      if below.None? || below.value !in ss then None else ss[below.value].parent
  }

  ghost predicate Acyclic(ss: Surfaces) {
    forall s, k {:trigger Up(ss, s, k)} :: s in ss && k > 0 ==> Up(ss, s, k) != Some(s)
  }

  /** `p` is `s` or one of its descendants. */
  ghost predicate Beneath(ss: Surfaces, p: SurfaceId, s: SurfaceId) {
    exists k :: Up(ss, p, k) == Some(s)
  }

  lemma {:induction false} UpAdd(ss: Surfaces, s: SurfaceId, i: nat, m: SurfaceId, j: nat)
    requires Up(ss, s, i) == Some(m)
    ensures Up(ss, s, i + j) == Up(ss, m, j)
  {
    if j > 0 {
      UpAdd(ss, s, i, m, j - 1);
    }
  }

  /** A path ends at a surface without a parent. */
  lemma {:induction false} EndsAtRoot(ss: Surfaces, x: SurfaceId, i: nat, s: SurfaceId, j: nat)
    requires Up(ss, x, i) == Some(s) && (s !in ss || ss[s].parent == None) && j > i
    ensures Up(ss, x, j) == None
  {
    if j > i + 1 {
      EndsAtRoot(ss, x, i, s, j - 1);
    }
  }

  /** `after` gives `s` the parent `p`; other parents are as before. */
  ghost predicate Adopted(before: Surfaces, after: Surfaces, s: SurfaceId, p: SurfaceId) {
    && after.Keys == before.Keys && s in before && p in before && before[s].parent == None && after[s].parent == Some(p)
    && forall r :: r in before && r != s ==> after[r].parent == before[r].parent
  }

  lemma {:induction false} UpToFirst(before: Surfaces, after: Surfaces, s: SurfaceId, p: SurfaceId, x: SurfaceId, k: nat)
    requires Adopted(before, after, s, p)
    requires forall j {:trigger Up(before, x, j)} :: 0 <= j < k ==> Up(before, x, j) != Some(s)
    ensures Up(after, x, k) == Up(before, x, k)
  {
    if k > 0 {
      UpToFirst(before, after, s, p, x, k - 1);
      assert Up(before, x, k - 1) != Some(s);
    }
  }

  /** The path to `s` is the same before and after. */
  lemma {:induction false} UpToS(before: Surfaces, after: Surfaces, s: SurfaceId, p: SurfaceId, x: SurfaceId, k: nat)
    requires Adopted(before, after, s, p) && Up(before, x, k) == Some(s)
    ensures Up(after, x, k) == Some(s)
  {
    forall j | 0 <= j < k
      ensures Up(before, x, j) != Some(s)
    {
      if Up(before, x, j) == Some(s) {
        EndsAtRoot(before, x, j, s, k);
      }
    }
    UpToFirst(before, after, s, p, x, k);
  }

  lemma {:induction false} AdoptAcyclic(before: Surfaces, after: Surfaces, s: SurfaceId, p: SurfaceId)
    requires Adopted(before, after, s, p) && Acyclic(before) && !Beneath(before, p, s)
    ensures Acyclic(after)
  {
    forall x, k: nat | x in after && k > 0
      ensures Up(after, x, k) != Some(x)
    {
      if j: nat :| j < k && Up(before, x, j) == Some(s) {
        UpToS(before, after, s, p, x, j);
        NotOnCycle(before, after, s, p, k);
        if Up(after, x, k) == Some(x) {
          UpAdd(after, x, j, s, k - j);
          UpAdd(after, s, k - j, x, j);
        }
      } else {
        UpToFirst(before, after, s, p, x, k);
      }
    }
  }

  lemma {:induction false} NotOnCycle(before: Surfaces, after: Surfaces, s: SurfaceId, p: SurfaceId, k: nat)
    requires Adopted(before, after, s, p) && !Beneath(before, p, s) && k > 0
    ensures Up(after, s, k) != Some(s)
  {
    assert Up(after, s, 0) == Some(s);
    assert Up(after, s, 1) == Some(p);
    UpAdd(after, s, 1, p, k - 1);
    UpToFirst(before, after, s, p, p, k - 1);
  }

  lemma {:induction false} AdoptCycle(before: Surfaces, after: Surfaces, s: SurfaceId, p: SurfaceId)
    requires Adopted(before, after, s, p) && Beneath(before, p, s)
    ensures !Acyclic(after)
  {
    var k: nat :| Up(before, p, k) == Some(s);
    UpToS(before, after, s, p, p, k);
    assert Up(after, s, 0) == Some(s);
    assert Up(after, s, 1) == Some(p);
    UpAdd(after, s, 1, p, k);
  }

  /** An accepted get_subsurface keeps the parents free of cycles exactly when the parent is not beneath the surface. */
  lemma {:induction false} GetSubsurfaceAcyclicIff(st: State, s: SurfaceId, p: SurfaceId)
    requires Consistent(st) && Acyclic(st.surfaces)
    requires s in st.surfaces && p in st.surfaces && s != p && !st.surfaces[s].role
    ensures Acyclic(ApplyGet(st, s, p).surfaces) <==> !Beneath(st.surfaces, p, s)
  {
    assert SurfaceOk(st, s);
    var after := ApplyGet(st, s, p).surfaces;
    assert Adopted(st.surfaces, after, s, p);
    if Beneath(st.surfaces, p, s) {
      AdoptCycle(st.surfaces, after, s, p);
    } else {
      AdoptAcyclic(st.surfaces, after, s, p);
    }
  }

  /** `after` has fewer surfaces and parents. */
  ghost predicate Fewer(before: Surfaces, after: Surfaces) {
    forall r {:trigger r in after} :: r in after ==>
      r in before && (after[r].parent == None || after[r].parent == before[r].parent)
  }

  lemma {:induction false} FewerUp(before: Surfaces, after: Surfaces, x: SurfaceId, k: nat)
    requires Fewer(before, after) && Up(after, x, k).Some?
    ensures Up(before, x, k) == Up(after, x, k)
  {
    if k > 0 {
      FewerUp(before, after, x, k - 1);
    }
  }

  lemma {:induction false} FewerAcyclic(before: Surfaces, after: Surfaces)
    requires Fewer(before, after) && Acyclic(before)
    ensures Acyclic(after)
  {
    forall x, k: nat | x in after && k > 0
      ensures Up(after, x, k) != Some(x)
    {
      if Up(after, x, k).Some? {
        FewerUp(before, after, x, k);
      }
    }
  }

  lemma {:induction false} CreateAcyclic(ss: Surfaces, s: SurfaceId)
    requires s !in ss && Acyclic(ss)
    ensures Acyclic(ss[s := Surface(None, false, [])])
  {
    var after := ss[s := Surface(None, false, [])];
    forall x, k: nat | x in after && k > 0
      ensures Up(after, x, k) != Some(x)
    {
      if x == s {
        assert Up(after, s, 0) == Some(s);
        EndsAtRoot(after, s, 0, s, k);
      } else if Up(after, x, k) == Some(x) {
        CreateUp(ss, s, x, k);
      }
    }
  }

  lemma {:induction false} CreateUp(ss: Surfaces, s: SurfaceId, x: SurfaceId, k: nat)
    requires s !in ss
    ensures Up(ss[s := Surface(None, false, [])], x, k) == Up(ss, x, k)
  {
    if k > 0 {
      CreateUp(ss, s, x, k - 1);
    }
  }

  /** No accepted get_subsurface of the run made a surface the child of its own descendant. */
  ghost predicate ForestSteps(steps: seq<Step>) {
    steps == [] || (ForestSteps(steps[..|steps| - 1]) && ForestStep(Exec(steps[..|steps| - 1]), steps[|steps| - 1]))
  }

  ghost predicate ForestStep(st: State, step: Step) {
    step.GetSubsurface? && step.s in st.surfaces && step.p in st.surfaces && step.s != step.p && !st.surfaces[step.s].role
    ==> !Beneath(st.surfaces, step.p, step.s)
  }

  lemma {:induction false} StepAcyclic(st: State, step: Step)
    requires Consistent(st) && Acyclic(st.surfaces) && ForestStep(st, step)
    ensures Acyclic(Apply(st, step).surfaces)
  {
    match step
    case Create(s) => if s !in st.surfaces { CreateAcyclic(st.surfaces, s); }
    case GetSubsurface(s, p) =>
      if s in st.surfaces && p in st.surfaces && s != p && !st.surfaces[s].role {
        GetSubsurfaceAcyclicIff(st, s, p);
      }
    case PlaceAbove(s, sibling) => FewerAcyclic(st.surfaces, Apply(st, step).surfaces);
    case PlaceBelow(s, sibling) => FewerAcyclic(st.surfaces, Apply(st, step).surfaces);
    case DestroySubsurface(s) => FewerAcyclic(st.surfaces, Apply(st, step).surfaces);
    case DestroySurface(s) => FewerAcyclic(st.surfaces, Apply(st, step).surfaces);
  }

  /** Two accepted requests are enough for a cycle. */
  lemma {:induction false} CyclicRun()
    ensures
      var st := Exec([Create(0)] + [Create(1)] + [GetSubsurface(1, 0)] + [GetSubsurface(0, 1)]);
      Consistent(st) && Up(st.surfaces, 0, 2) == Some(0) && !Acyclic(st.surfaces)
  {
    ParentAndChildState();
    ExecAppend(ParentAndChild(), GetSubsurface(0, 1));
    var st := Exec(ParentAndChild() + [GetSubsurface(0, 1)]);
    var none: seq<SurfaceId> := [];
    assert [0] + none == [0];
    assert st.surfaces == map[0 := Surface(Some(1), true, [1]), 1 := Surface(Some(0), true, [0])];
    assert st == State(map[0 := Surface(Some(1), true, [1]), 1 := Surface(Some(0), true, [0])], true);
    assert SurfaceOk(st, 0) && SurfaceOk(st, 1);
    assert Up(st.surfaces, 0, 0) == Some(0) && Up(st.surfaces, 0, 1) == Some(1);
  }

  /** In such a run the parents always form a forest. */
  lemma {:induction false} RunAcyclic(steps: seq<Step>)
    requires NoSelfPlacement(steps) && ForestSteps(steps)
    ensures Acyclic(Exec(steps).surfaces)
    decreases |steps|
  {
    if steps != [] {
      var front := steps[..|steps| - 1];
      RunAcyclic(front);
      RunConsistent(front);
      StepAcyclic(Exec(front), steps[|steps| - 1]);
    }
  }
}
