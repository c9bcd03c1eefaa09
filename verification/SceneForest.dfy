/**
  The surface forest that compositions traverse is the one sub-surface
  requests build: in every run that keeps parents free of cycles, any scene
  over the current surfaces is a forest, so visibility and drawing agree on it.
 */
module SceneForest {
  import opened Common
  import S = Subcompositor
  import A = SurfaceAncestry
  import D = DrawOrder

  type SurfaceId = nat

  /** Ancestors 0 to n of `s`. */
  function Line(ss: A.Surfaces, s: SurfaceId, n: nat): set<SurfaceId> {
    (if n == 0 then {} else Line(ss, s, n - 1)) + (if A.Up(ss, s, n).Some? then {A.Up(ss, s, n).value} else {})
  }

  lemma {:induction false} LineMembers(ss: A.Surfaces, s: SurfaceId, n: nat, x: SurfaceId)
    requires x in Line(ss, s, n)
    ensures exists i: nat :: i <= n && A.Up(ss, s, i) == Some(x)
  {
    if A.Up(ss, s, n) != Some(x) {
      LineMembers(ss, s, n - 1, x);
    }
  }

  /** Every parent is itself a surface. */
  ghost predicate Closed(ss: A.Surfaces) {
    forall s {:trigger s in ss} :: s in ss && ss[s].parent.Some? ==> ss[s].parent.value in ss
  }

  lemma {:induction false} SomeBelow(ss: A.Surfaces, s: SurfaceId, n: nat)
    requires Closed(ss) && s in ss && A.Up(ss, s, n).Some?
    ensures A.Up(ss, s, n).value in ss && (n > 0 ==> A.Up(ss, s, n - 1).Some?)
  {
    if n > 0 {
      SomeBelow(ss, s, n - 1);
    }
  }

  /** Without cycles ancestors are distinct, so there are fewer of them than surfaces. */
  lemma {:induction false} LineSize(ss: A.Surfaces, s: SurfaceId, n: nat)
    requires Closed(ss) && A.Acyclic(ss) && s in ss && A.Up(ss, s, n).Some?
    ensures |Line(ss, s, n)| == n + 1 && Line(ss, s, n) <= ss.Keys
  {
    SomeBelow(ss, s, n);
    if n > 0 {
      LineSize(ss, s, n - 1);
      NotInLine(ss, s, n);
    }
  }

  lemma {:induction false} NotInLine(ss: A.Surfaces, s: SurfaceId, n: nat)
    requires A.Acyclic(ss) && n > 0 && A.Up(ss, s, n).Some? && A.Up(ss, s, n).value in ss
    ensures A.Up(ss, s, n).value !in Line(ss, s, n - 1)
  {
    var x := A.Up(ss, s, n).value;
    if x in Line(ss, s, n - 1) {
      LineMembers(ss, s, n - 1, x);
      var i: nat :| i <= n - 1 && A.Up(ss, s, i) == Some(x);
      A.UpAdd(ss, s, i, x, n - i);
      assert false;
    }
  }

  lemma {:induction false} SubsetSize(a: set<SurfaceId>, b: set<SurfaceId>)
    requires a <= b
    ensures |a| <= |b|
  {
    if a != {} {
      var x :| x in a;
      SubsetSize(a - {x}, b - {x});
    }
  }

  lemma {:induction false} LineEnds(ss: A.Surfaces, s: SurfaceId)
    requires Closed(ss) && A.Acyclic(ss) && s in ss
    ensures A.Up(ss, s, |ss|) == None
  {
    assert |ss.Keys| == |ss|;
    if A.Up(ss, s, |ss|).Some? {
      LineSize(ss, s, |ss|);
      SubsetSize(Line(ss, s, |ss|), ss.Keys);
    }
  }

  /** The largest k up to `n` with a k-th ancestor. */
  function Height(ss: A.Surfaces, s: SurfaceId, n: nat): (k: nat)
    ensures k <= n && A.Up(ss, s, k).Some?
  {
    if n == 0 || A.Up(ss, s, n).Some? then n else Height(ss, s, n - 1)
  }

  lemma {:induction false} NoneStays(ss: A.Surfaces, s: SurfaceId, i: nat, j: nat)
    requires i <= j && A.Up(ss, s, i) == None
    ensures A.Up(ss, s, j) == None
  {
    if i < j {
      NoneStays(ss, s, i, j - 1);
    }
  }

  lemma {:induction false} HeightIs(ss: A.Surfaces, s: SurfaceId, n: nat, k: nat)
    requires k <= n && A.Up(ss, s, k).Some? && A.Up(ss, s, k + 1) == None
    ensures Height(ss, s, n) == k
  {
    if k < n {
      NoneStays(ss, s, k + 1, n);
      HeightIs(ss, s, n - 1, k);
    }
  }

  function Depth(ss: A.Surfaces): map<SurfaceId, nat> {
    map s | s in ss :: Height(ss, s, |ss|)
  }

  lemma {:induction false} HeightTop(ss: A.Surfaces, s: SurfaceId, n: nat)
    requires A.Up(ss, s, n) == None
    ensures Height(ss, s, n) < n && A.Up(ss, s, Height(ss, s, n) + 1) == None
  {
    if n > 0 && A.Up(ss, s, n - 1) == None {
      HeightTop(ss, s, n - 1);
    }
  }

  lemma {:induction false} DepthOf(ss: A.Surfaces, s: SurfaceId)
    requires Closed(ss) && A.Acyclic(ss) && s in ss
    ensures Depth(ss)[s] < |ss|
    ensures ss[s].parent == None ==> Depth(ss)[s] == 0
    ensures ss[s].parent.Some? ==> Depth(ss)[s] == Depth(ss)[ss[s].parent.value] + 1
  {
    LineEnds(ss, s);
    HeightTop(ss, s, |ss|);
    assert A.Up(ss, s, 0) == Some(s);
    assert A.Up(ss, s, 1) == ss[s].parent;
    if ss[s].parent == None {
      HeightIs(ss, s, |ss|, 0);
    } else {
      var p := ss[s].parent.value;
      LineEnds(ss, p);
      HeightTop(ss, p, |ss|);
      var k := Height(ss, p, |ss|);
      A.UpAdd(ss, s, 1, p, k);
      A.UpAdd(ss, s, 1, p, k + 1);
      assert A.Up(ss, s, k + 1) == A.Up(ss, p, k);
      HeightIs(ss, s, |ss|, k + 1);
    }
  }

  /** The scene has the run's surfaces, parents and children, whatever else it shows. */
  ghost predicate Pictures(sc: D.Scene, ss: A.Surfaces) {
    && sc.surfaces.Keys == ss.Keys
    && NoDup(sc.order) && (forall s :: s in sc.order <==> s in sc.surfaces)
    && (forall s {:trigger sc.surfaces[s]} :: s in ss ==>
          sc.surfaces[s].parent == ss[s].parent && sc.surfaces[s].children == ss[s].children)
  }

  lemma {:induction false} SceneIsForest(st: S.State, sc: D.Scene)
    requires S.Consistent(st) && A.Acyclic(st.surfaces) && Pictures(sc, st.surfaces)
    ensures D.Forest(sc, Depth(st.surfaces), |st.surfaces|)
  {
    var ss := st.surfaces;
    assert Closed(ss) by {
      forall s | s in ss && ss[s].parent.Some?
        ensures ss[s].parent.value in ss
      {
        assert S.SurfaceOk(st, s);
      }
    }
    forall s | s in sc.surfaces
      ensures D.Linked(sc, Depth(ss), |ss|, s)
    {
      assert S.SurfaceOk(st, s);
      DepthOf(ss, s);
      forall c | c in ss[s].children
        ensures c in sc.surfaces && sc.surfaces[c].parent == Some(s)
      {
        var i :| 0 <= i < |ss[s].children| && ss[s].children[i] == c;
      }
    }
  }

  /**
    In every run without self-placement in which no surface was made the child
    of its own descendant, a surface is drawn by a composition exactly when
    the bottom-up test says it participates.
   */
  lemma {:induction false} RunDrawsWhatParticipates(steps: seq<S.Step>, sc: D.Scene, x: SurfaceId)
    requires S.NoSelfPlacement(steps) && A.ForestSteps(steps)
    requires Pictures(sc, S.Exec(steps).surfaces) && x in sc.surfaces
    ensures
      var ss := S.Exec(steps).surfaces;
      && D.Forest(sc, Depth(ss), |ss|)
      && (x in D.DrawAll(sc, Depth(ss), |ss|) <==> D.Participates(sc, Depth(ss), |ss|, x))
  {
    S.RunConsistent(steps);
    A.RunAcyclic(steps);
    var st := S.Exec(steps);
    SceneIsForest(st, sc);
    D.DrawnIffParticipates(sc, Depth(st.surfaces), |st.surfaces|, x);
  }
}
