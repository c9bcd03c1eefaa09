/**
  Parents, children lists and restacking of sub-surfaces
  (wayland-host/src/subcompositor.c:29-145, wayland-host/src/surface.c:227-262).
  A children list is drawn from its first entry to its last, over the parent.
 */
module Subcompositor {
  import opened Common

  type SurfaceId = nat

  /** `role`: a wl_subsurface object exists for the surface. */
  datatype Surface = Surface(parent: Option<SurfaceId>, role: bool, children: seq<SurfaceId>)

  /** `alive` ends when a link that is null gets followed. */
  datatype State = State(surfaces: map<SurfaceId, Surface>, alive: bool)

  const INITIAL := State(map[], true)

  datatype Step =
    | Create(s: SurfaceId)
    | GetSubsurface(s: SurfaceId, p: SurfaceId)
    | PlaceAbove(s: SurfaceId, sibling: SurfaceId)
    | PlaceBelow(s: SurfaceId, sibling: SurfaceId)
    | DestroySubsurface(s: SurfaceId)
    | DestroySurface(s: SurfaceId)

  /* ---------- lists ---------- */

  function InsertAt(list: seq<SurfaceId>, k: nat, s: SurfaceId): seq<SurfaceId>
    requires k <= |list|
  {
    list[..k] + [s] + list[k..]
  }

  /** Where place_above puts a surface among the `rest`: one entry after the sibling's successor. */
  function AboveIndex(rest: seq<SurfaceId>, p: SurfaceId, sibling: SurfaceId): (k: nat)
    ensures k <= |rest|
  {
    if sibling == p || sibling !in rest then |rest|
    else if IndexOf(rest, sibling) + 1 < |rest| then IndexOf(rest, sibling) + 2
    else 0
  }

  function BelowIndex(rest: seq<SurfaceId>, p: SurfaceId, sibling: SurfaceId): (k: nat)
    ensures k <= |rest|
  {
    if sibling == p || sibling !in rest then 0 else IndexOf(rest, sibling) + 1
  }

  /* ---------- steps ---------- */

  function Relist(st: State, p: SurfaceId, list: seq<SurfaceId>): State
    requires p in st.surfaces
  {
    st.(surfaces := st.surfaces[p := st.surfaces[p].(children := list)])
  }

  /** The guard shared by place_above and place_below. */
  predicate MayPlace(st: State, s: SurfaceId, sibling: SurfaceId) {
    && s in st.surfaces && sibling in st.surfaces && st.surfaces[s].parent.Some? && st.surfaces[s].parent.value in st.surfaces
    && (Some(sibling) == st.surfaces[s].parent || st.surfaces[sibling].parent == st.surfaces[s].parent)
  }

  function Rest(st: State, s: SurfaceId): seq<SurfaceId>
    requires s in st.surfaces && st.surfaces[s].parent.Some? && st.surfaces[s].parent.value in st.surfaces
  {
    Without(st.surfaces[st.surfaces[s].parent.value].children, s)
  }

  function ApplyAbove(st: State, s: SurfaceId, sibling: SurfaceId): State {
    if !MayPlace(st, s, sibling) then st
    else if sibling == s then st.(alive := false)
    else
      var p := st.surfaces[s].parent.value;
      Relist(st, p, InsertAt(Rest(st, s), AboveIndex(Rest(st, s), p, sibling), s))
  }

  /** Against itself the surface ends up linked to itself only. */
  function ApplyBelow(st: State, s: SurfaceId, sibling: SurfaceId): State {
    if !MayPlace(st, s, sibling) then st
    else
      var p := st.surfaces[s].parent.value;
      if sibling == s then Relist(st, p, Rest(st, s))
      else Relist(st, p, InsertAt(Rest(st, s), BelowIndex(Rest(st, s), p, sibling), s))
  }

  /** subsurface_resource_destroy */
  function Detach(st: State, s: SurfaceId): State
    requires s in st.surfaces
  {
    var x := st.surfaces[s];
    var st1 := if x.parent.Some? && x.parent.value in st.surfaces then Relist(st, x.parent.value, Rest(st, s)) else st;
    st1.(surfaces := st1.surfaces[s := st1.surfaces[s].(parent := None, role := false)])
  }

  /** Every child of `s` loses its parent, then `s` goes. */
  function Orphan(st: State, s: SurfaceId): State
    requires s in st.surfaces
  {
    var list := st.surfaces[s].children;
    st.(surfaces := map c | c in st.surfaces && c != s ::
          if c in list then st.surfaces[c].(parent := None) else st.surfaces[c])
  }

  function ApplyGet(st: State, s: SurfaceId, p: SurfaceId): State {
    if s !in st.surfaces || p !in st.surfaces || s == p || st.surfaces[s].role then st
    else
      var st1 := st.(surfaces := st.surfaces[s := st.surfaces[s].(parent := Some(p), role := true)]);
      Relist(st1, p, [s] + st1.surfaces[p].children)
  }

  function Apply(st: State, step: Step): State {
    if !st.alive then st
    else
      match step
      case Create(s) =>
        if s in st.surfaces then st else st.(surfaces := st.surfaces[s := Surface(None, false, [])])
      case GetSubsurface(s, p) => ApplyGet(st, s, p)
      case PlaceAbove(s, sibling) => ApplyAbove(st, s, sibling)
      case PlaceBelow(s, sibling) => ApplyBelow(st, s, sibling)
      case DestroySubsurface(s) => if s in st.surfaces && st.surfaces[s].role then Detach(st, s) else st
      case DestroySurface(s) => if s in st.surfaces then Orphan(Detach(st, s), s) else st
  }

  function Exec(steps: seq<Step>): State {
    if steps == [] then INITIAL else Apply(Exec(steps[..|steps| - 1]), steps[|steps| - 1])
  }

  /* ---------- list facts ---------- */

  lemma {:induction false} InsertElement(list: seq<SurfaceId>, k: nat, s: SurfaceId, i: nat)
    requires k <= |list| && i <= |list|
    ensures |InsertAt(list, k, s)| == |list| + 1
    ensures InsertAt(list, k, s)[i] == if i < k then list[i] else if i == k then s else list[i - 1]
  {
  }

  lemma {:induction false} InsertDistinct(list: seq<SurfaceId>, k: nat, s: SurfaceId)
    requires NoDup(list) && k <= |list| && s !in list
    ensures NoDup(InsertAt(list, k, s)) && IndexOf(InsertAt(list, k, s), s) == k
  {
    var r := InsertAt(list, k, s);
    forall i, j | 0 <= i < j < |r|
      ensures r[i] != r[j]
    {
      InsertElement(list, k, s, i);
      InsertElement(list, k, s, j);
    }
    InsertElement(list, k, s, k);
  }

  lemma {:induction false} InsertMembers(list: seq<SurfaceId>, k: nat, s: SurfaceId, x: SurfaceId)
    requires k <= |list|
    ensures x in InsertAt(list, k, s) <==> x in list || x == s
  {
    assert list == list[..k] + list[k..];
  }

  lemma {:induction false} InsertIs(list: seq<SurfaceId>, k: nat, s: SurfaceId)
    requires NoDup(list) && k <= |list| && s !in list
    ensures NoDup(InsertAt(list, k, s)) && (forall x :: x in InsertAt(list, k, s) <==> x in list || x == s)
    ensures Without(InsertAt(list, k, s), s) == list && IndexOf(InsertAt(list, k, s), s) == k
  {
    InsertDistinct(list, k, s);
    forall x
      ensures x in InsertAt(list, k, s) <==> x in list || x == s
    {
      InsertMembers(list, k, s, x);
    }
    InsertAndCut(list, k, s);
  }

  lemma {:induction false} InsertAndCut(list: seq<SurfaceId>, k: nat, s: SurfaceId)
    requires k <= |list|
    ensures var r := InsertAt(list, k, s); r[..k] + r[k + 1..] == list
  {
    var r := InsertAt(list, k, s);
    assert r[..k] == list[..k] && r[k + 1..] == list[k..];
  }

  lemma {:induction false} InsertShifts(list: seq<SurfaceId>, k: nat, s: SurfaceId, x: SurfaceId)
    requires NoDup(list) && k <= |list| && s !in list && x in list
    ensures x in InsertAt(list, k, s)
    ensures IndexOf(InsertAt(list, k, s), x) == IndexOf(list, x) + if IndexOf(list, x) < k then 0 else 1
  {
    var r, i := InsertAt(list, k, s), IndexOf(list, x);
    var j := if i < k then i else i + 1;
    assert r[j] == x;
    var l := IndexOf(r, x);
    assert x == if l < k then list[l] else if l == k then s else list[l - 1];
  }

  /* ---------- the invariant ---------- */

  /** A surface is in the list of its parent, once, and in its own list are exactly its children. */
  predicate SurfaceOk(st: State, s: SurfaceId)
    requires s in st.surfaces
  {
    var x := st.surfaces[s];
    && x.parent != Some(s)
    && (x.parent.Some? ==> x.role && x.parent.value in st.surfaces && s in st.surfaces[x.parent.value].children)
    && NoDup(x.children)
    && (forall i {:trigger x.children[i]} :: 0 <= i < |x.children| ==>
          x.children[i] in st.surfaces && st.surfaces[x.children[i]].parent == Some(s))
  }

  ghost predicate Consistent(st: State) {
    forall s {:trigger SurfaceOk(st, s)} :: s in st.surfaces ==> SurfaceOk(st, s)
  }

  /** In the list of a parent exactly when it is the parent. */
  lemma {:induction false} ListedIff(st: State, s: SurfaceId, p: SurfaceId)
    requires Consistent(st) && s in st.surfaces && p in st.surfaces
    ensures s in st.surfaces[p].children <==> st.surfaces[s].parent == Some(p)
  {
    assert SurfaceOk(st, s) && SurfaceOk(st, p);
    if s in st.surfaces[p].children {
      var i :| 0 <= i < |st.surfaces[p].children| && st.surfaces[p].children[i] == s;
    }
  }

  /** Reordering one list changes nothing else. */
  lemma {:induction false} RelistConsistent(st: State, p: SurfaceId, list: seq<SurfaceId>)
    requires Consistent(st) && p in st.surfaces && NoDup(list)
    requires forall x :: x in list <==> x in st.surfaces[p].children
    ensures Consistent(Relist(st, p, list))
  {
    var st' := Relist(st, p, list);
    forall s | s in st'.surfaces
      ensures SurfaceOk(st', s)
    {
      assert SurfaceOk(st, s) && SurfaceOk(st, p);
      forall i | 0 <= i < |st'.surfaces[s].children|
        ensures st'.surfaces[s].children[i] in st'.surfaces && st'.surfaces[st'.surfaces[s].children[i]].parent == Some(s)
      {
        assert st'.surfaces[s].children[i] in st.surfaces[s].children;
      }
    }
  }

  /** Other surfaces stay listed where they were. */
  lemma {:induction false} DetachKeepsListed(st: State, s: SurfaceId, r: SurfaceId)
    requires Consistent(st) && s in st.surfaces && r in st.surfaces && r != s && st.surfaces[r].parent.Some?
    ensures
      var q := st.surfaces[r].parent.value;
      q in Detach(st, s).surfaces && r in Detach(st, s).surfaces[q].children
  {
    assert SurfaceOk(st, r);
    var q := st.surfaces[r].parent.value;
    assert SurfaceOk(st, q);
    WithoutIs(st.surfaces[q].children, s);
  }

  /** The parent's list loses one entry and keeps children only. */
  lemma {:induction false} DetachShortens(st: State, s: SurfaceId, r: SurfaceId)
    requires s in st.surfaces && r in st.surfaces && r != s && st.surfaces[s].parent == Some(r) && SurfaceOk(st, r)
    ensures
      var st' := Detach(st, s);
      var list := st'.surfaces[r].children;
      NoDup(list) && forall i {:trigger list[i]} :: 0 <= i < |list| ==>
                       list[i] in st'.surfaces && st'.surfaces[list[i]].parent == Some(r)
  {
    var st' := Detach(st, s);
    var list := Without(st.surfaces[r].children, s);
    WithoutIs(st.surfaces[r].children, s);
    assert st'.surfaces[r].children == list;
    forall i | 0 <= i < |list|
      ensures list[i] in st'.surfaces && st'.surfaces[list[i]].parent == Some(r)
    {
      assert list[i] in st.surfaces[r].children && list[i] != s;
    }
  }

  lemma {:induction false} DetachConsistent(st: State, s: SurfaceId)
    requires Consistent(st) && s in st.surfaces
    ensures Consistent(Detach(st, s)) && s in Detach(st, s).surfaces
    ensures Detach(st, s).surfaces[s].parent == None && !Detach(st, s).surfaces[s].role
  {
    var st' := Detach(st, s);
    assert SurfaceOk(st, s);
    forall r | r in st'.surfaces
      ensures SurfaceOk(st', r)
    {
      assert SurfaceOk(st, r);
      ListedIff(st, s, r);
      if r != s && st.surfaces[r].parent.Some? {
        DetachKeepsListed(st, s, r);
      }
      if st.surfaces[s].parent == Some(r) {
        DetachShortens(st, s, r);
      } else {
        assert st'.surfaces[r].children == st.surfaces[r].children;
      }
    }
  }

  lemma {:induction false} OrphanConsistent(st: State, s: SurfaceId)
    requires Consistent(st) && s in st.surfaces && st.surfaces[s].parent == None
    ensures Consistent(Orphan(st, s))
    ensures forall c :: c in Orphan(st, s).surfaces ==> Orphan(st, s).surfaces[c].parent != Some(s)
  {
    var st' := Orphan(st, s);
    forall r | r in st'.surfaces
      ensures SurfaceOk(st', r) && st'.surfaces[r].parent != Some(s)
    {
      assert SurfaceOk(st, r);
      ListedIff(st, r, s);
      ListedIff(st, s, r);
      var list := st.surfaces[r].children;
      forall i | 0 <= i < |list|
        ensures list[i] in st'.surfaces && st'.surfaces[list[i]].parent == Some(r)
      {
        ListedIff(st, list[i], s);
      }
    }
  }

  lemma {:induction false} GetConsistent(st: State, s: SurfaceId, p: SurfaceId)
    requires Consistent(st)
    ensures Consistent(ApplyGet(st, s, p))
  {
    var st' := ApplyGet(st, s, p);
    if st' != st {
      assert SurfaceOk(st, s);
      ListedIff(st, s, p);
      NoDupCons([s] + st.surfaces[p].children);
      assert ([s] + st.surfaces[p].children)[1..] == st.surfaces[p].children;
      forall r | r in st'.surfaces
        ensures SurfaceOk(st', r)
      {
        assert SurfaceOk(st, r);
        ListedIff(st, s, r);
        assert st.surfaces[r].parent.Some? ==> SurfaceOk(st, st.surfaces[r].parent.value);
      }
    }
  }

  /** Placing keeps the list's members and the order of the others. */
  lemma {:induction false} PlacePermutes(st: State, s: SurfaceId, sibling: SurfaceId)
    requires Consistent(st) && MayPlace(st, s, sibling) && sibling != s
    ensures
      var p := st.surfaces[s].parent.value;
      var list, above, below :=
        st.surfaces[p].children, ApplyAbove(st, s, sibling).surfaces[p].children, ApplyBelow(st, s, sibling).surfaces[p].children;
      && multiset(above) == multiset(list) == multiset(below)
      && Without(above, s) == Without(list, s) == Without(below, s)
      && Consistent(ApplyAbove(st, s, sibling)) && Consistent(ApplyBelow(st, s, sibling))
  {
    var p := st.surfaces[s].parent.value;
    var list, rest := st.surfaces[p].children, Rest(st, s);
    ListedIff(st, s, p);
    assert SurfaceOk(st, p);
    var above, below := AboveIndex(rest, p, sibling), BelowIndex(rest, p, sibling);
    Reinserted(list, s, above);
    Reinserted(list, s, below);
    RelistConsistent(st, p, InsertAt(rest, above, s));
    RelistConsistent(st, p, InsertAt(rest, below, s));
  }

  lemma {:induction false} Reinserted(list: seq<SurfaceId>, s: SurfaceId, k: nat)
    requires NoDup(list) && s in list && k <= |Without(list, s)|
    ensures
      var moved := InsertAt(Without(list, s), k, s);
      && NoDup(moved) && multiset(moved) == multiset(list) && Without(moved, s) == Without(list, s)
      && (forall x :: x in moved <==> x in list)
  {
    var rest, i := Without(list, s), IndexOf(list, s);
    WithoutIs(list, s);
    InsertIs(rest, k, s);
    InsertMultiset(rest, k, s);
    RemovedFrom(list, s);
    InsertMultiset(rest, i, s);
  }

  lemma {:induction false} RemovedFrom(list: seq<SurfaceId>, s: SurfaceId)
    requires s in list
    ensures IndexOf(list, s) <= |Without(list, s)| && InsertAt(Without(list, s), IndexOf(list, s), s) == list
  {
    CutAndInsert(list, IndexOf(list, s));
  }

  lemma {:induction false} CutAndInsert(list: seq<SurfaceId>, i: nat)
    requires i < |list|
    ensures InsertAt(list[..i] + list[i + 1..], i, list[i]) == list
  {
    var rest := list[..i] + list[i + 1..];
    assert rest[..i] == list[..i] && rest[i..] == list[i + 1..];
  }

  lemma {:induction false} InsertMultiset(list: seq<SurfaceId>, k: nat, s: SurfaceId)
    requires k <= |list|
    ensures multiset(InsertAt(list, k, s)) == multiset(list) + multiset{s}
  {
    assert list == list[..k] + list[k..];
  }

  predicate SelfPlacement(st: State, step: Step) {
    (step.PlaceAbove? || step.PlaceBelow?) && step.s == step.sibling && MayPlace(st, step.s, step.sibling)
  }

  /** A step keeps parents and lists in agreement exactly when it does not place a surface against itself. */
  lemma {:induction false} StepConsistentIff(st: State, step: Step)
    requires Consistent(st) && st.alive
    ensures Apply(st, step).alive && Consistent(Apply(st, step)) <==> !SelfPlacement(st, step)
  {
    match step
    case Create(s) =>
      var st' := Apply(st, step);
      forall r | r in st'.surfaces
        ensures SurfaceOk(st', r)
      {
        assert r in st.surfaces ==> SurfaceOk(st, r);
      }
    case GetSubsurface(s, p) => GetConsistent(st, s, p);
    case PlaceAbove(s, sibling) =>
      if MayPlace(st, s, sibling) && sibling != s {
        PlacePermutes(st, s, sibling);
      }
    case PlaceBelow(s, sibling) =>
      if MayPlace(st, s, sibling) {
        if sibling != s {
          PlacePermutes(st, s, sibling);
        } else {
          SelfBelowDetaches(st, s);
        }
      }
    case DestroySubsurface(s) => if s in st.surfaces { DetachConsistent(st, s); }
    case DestroySurface(s) =>
      if s in st.surfaces {
        DetachConsistent(st, s);
        OrphanConsistent(Detach(st, s), s);
      }
  }

  lemma {:induction false} SelfBelowDetaches(st: State, s: SurfaceId)
    requires Consistent(st) && MayPlace(st, s, s)
    ensures !Consistent(ApplyBelow(st, s, s))
  {
    var p := st.surfaces[s].parent.value;
    assert SurfaceOk(st, p);
    WithoutIs(st.surfaces[p].children, s);
    assert !SurfaceOk(ApplyBelow(st, s, s), s);
  }

  /** No step of the run was an accepted placement of a surface against itself. */
  predicate NoSelfPlacement(steps: seq<Step>) {
    steps == [] ||
    (NoSelfPlacement(steps[..|steps| - 1]) && !SelfPlacement(Exec(steps[..|steps| - 1]), steps[|steps| - 1]))
  }

  lemma {:induction false} ExecAppend(steps: seq<Step>, step: Step)
    ensures Exec(steps + [step]) == Apply(Exec(steps), step)
  {
    assert (steps + [step])[..|steps + [step]| - 1] == steps;
  }

  /** Surface 1 as a child of surface 0. */
  function ParentAndChild(): seq<Step> {
    [Create(0)] + [Create(1)] + [GetSubsurface(1, 0)]
  }

  lemma {:induction false} ParentAndChildState()
    ensures Exec(ParentAndChild()) == State(map[0 := Surface(None, false, [1]), 1 := Surface(Some(0), true, [])], true)
  {
    var a, b, c := [Create(0)], [Create(1)], [GetSubsurface(1, 0)];
    assert Exec([]) == INITIAL && [] + a == a;
    ExecAppend([], a[0]);
    ExecAppend(a, b[0]);
    ExecAppend(a + b, c[0]);
    var st := Apply(Apply(INITIAL, Create(0)), Create(1));
    assert st == State(map[0 := Surface(None, false, []), 1 := Surface(None, false, [])], true);
    var none: seq<SurfaceId> := [];
    assert [1] + none == [1];
    assert ApplyGet(st, 1, 0).surfaces == map[0 := Surface(None, false, [1]), 1 := Surface(Some(0), true, [])];
  }

  /** Both are accepted: above itself follows a null link, below itself leaves the surface in no list. */
  lemma {:induction false} SelfPlacementRuns()
    ensures !Exec(ParentAndChild() + [PlaceAbove(1, 1)]).alive
    ensures
      var st := Exec(ParentAndChild() + [PlaceBelow(1, 1)]);
      st.surfaces == map[0 := Surface(None, false, []), 1 := Surface(Some(0), true, [])]
  {
    ParentAndChildState();
    ExecAppend(ParentAndChild(), PlaceAbove(1, 1));
    ExecAppend(ParentAndChild(), PlaceBelow(1, 1));
    PlacedOnItself(Exec(ParentAndChild()));
  }

  lemma {:induction false} PlacedOnItself(st: State)
    requires st == State(map[0 := Surface(None, false, [1]), 1 := Surface(Some(0), true, [])], true)
    ensures !Apply(st, PlaceAbove(1, 1)).alive
    ensures Apply(st, PlaceBelow(1, 1)).surfaces == map[0 := Surface(None, false, []), 1 := Surface(Some(0), true, [])]
  {
    var one: seq<SurfaceId> := [1];
    assert Rest(st, 1) == Without(one, 1) == [];
  }

  lemma {:induction false} RunConsistent(steps: seq<Step>)
    requires NoSelfPlacement(steps)
    ensures Consistent(Exec(steps)) && Exec(steps).alive
    decreases |steps|
  {
    if steps != [] {
      RunConsistent(steps[..|steps| - 1]);
      StepConsistentIff(Exec(steps[..|steps| - 1]), steps[|steps| - 1]);
    }
  }

  /** Over a run: in a list exactly under its parent, and once. */
  lemma {:induction false} ListedExactlyOnce(steps: seq<Step>, s: SurfaceId, p: SurfaceId)
    requires NoSelfPlacement(steps) && s in Exec(steps).surfaces && p in Exec(steps).surfaces
    ensures
      var st := Exec(steps);
      multiset(st.surfaces[p].children)[s] == if st.surfaces[s].parent == Some(p) then 1 else 0
  {
    RunConsistent(steps);
    var st := Exec(steps);
    ListedIff(st, s, p);
    assert SurfaceOk(st, p);
    NoDupOnce(st.surfaces[p].children, s);
  }

  /**
    Destroying a surface leaves nobody with it as parent or in a list; its
    former children keep their role, and destroying that role later touches
    no list.
   */
  lemma {:induction false} DestroyOrphans(steps: seq<Step>, s: SurfaceId, c: SurfaceId)
    requires NoSelfPlacement(steps) && s in Exec(steps).surfaces && c in Exec(steps).surfaces && c != s
    ensures
      var st, st' := Exec(steps), Exec(steps + [DestroySurface(s)]);
      && s !in st'.surfaces && c in st'.surfaces
      && st'.surfaces[c].parent == (if st.surfaces[c].parent == Some(s) then None else st.surfaces[c].parent)
      && st'.surfaces[c].role == st.surfaces[c].role
      && st'.surfaces[c].children == (if st.surfaces[s].parent == Some(c) then Without(st.surfaces[c].children, s)
                                      else st.surfaces[c].children)
      && s !in st'.surfaces[c].children
      && (st.surfaces[c].parent == Some(s) ==>
            Apply(st', DestroySubsurface(c)).surfaces == st'.surfaces[c := st'.surfaces[c].(role := false)])
  {
    RunConsistent(steps);
    var st := Exec(steps);
    assert (steps + [DestroySurface(s)])[..|steps + [DestroySurface(s)]| - 1] == steps;
    assert SurfaceOk(st, s) && SurfaceOk(st, c);
    ListedIff(st, c, s);
    ListedIff(st, s, c);
    WithoutIs(st.surfaces[c].children, s);
    WithoutIs(st.surfaces[s].children, s);
    DetachConsistent(st, s);
    OrphanConsistent(Detach(st, s), s);
    var st1 := Detach(st, s);
    ListedIff(st1, c, s);
    ListedIff(st1, s, c);
    var st' := Orphan(st1, s);
    if st.surfaces[c].parent == Some(s) {
      assert SurfaceOk(st, s);
      assert st'.surfaces[c].role;
    }
  }

  /* ---------- where a placed surface is drawn ---------- */

  /** `a` is drawn before, hence under, `b`. */
  predicate Under(list: seq<SurfaceId>, a: SurfaceId, b: SurfaceId) {
    a in list && b in list && IndexOf(list, a) < IndexOf(list, b)
  }

  /** place_above a sibling works exactly when the sibling is not topmost among the others. */
  lemma {:induction false} PlacedAboveIff(st: State, s: SurfaceId, sibling: SurfaceId)
    requires Consistent(st) && MayPlace(st, s, sibling) && sibling != s && st.surfaces[s].parent != Some(sibling)
    ensures
      var p := st.surfaces[s].parent.value;
      var rest, list := Rest(st, s), ApplyAbove(st, s, sibling).surfaces[p].children;
      && sibling in rest
      && (Under(list, sibling, s) <==> rest[|rest| - 1] != sibling)
      && (Under(list, sibling, s) ==> IndexOf(list, s) == IndexOf(list, sibling) + 2)
      && (!Under(list, sibling, s) ==> IndexOf(list, s) == 0)
  {
    var p := st.surfaces[s].parent.value;
    ListedIff(st, sibling, p);
    assert SurfaceOk(st, p);
    WithoutIs(st.surfaces[p].children, s);
    AboveOrder(Rest(st, s), p, s, sibling);
  }

  lemma {:induction false} AboveOrder(rest: seq<SurfaceId>, p: SurfaceId, s: SurfaceId, sibling: SurfaceId)
    requires NoDup(rest) && sibling in rest && sibling != p && s !in rest
    ensures
      var list := InsertAt(rest, AboveIndex(rest, p, sibling), s);
      && (Under(list, sibling, s) <==> rest[|rest| - 1] != sibling)
      && (Under(list, sibling, s) ==> IndexOf(list, s) == IndexOf(list, sibling) + 2)
      && (!Under(list, sibling, s) ==> s in list && IndexOf(list, s) == 0)
  {
    var k, i := AboveIndex(rest, p, sibling), IndexOf(rest, sibling);
    var list := InsertAt(rest, k, s);
    InsertDistinct(rest, k, s);
    InsertMembers(rest, k, s, s);
    InsertShifts(rest, k, s, sibling);
    LastIndex(rest, sibling);
    Landing(|rest|, i, k, IndexOf(list, sibling));
  }

  lemma {:induction false} Landing(n: nat, i: nat, k: nat, j: nat)
    requires i < n && k == (if i + 1 < n then i + 2 else 0) && j == i + if i < k then 0 else 1
    ensures i == n - 1 ==> k == 0 && j == n
    ensures i != n - 1 ==> k == j + 2
  {
  }

  lemma {:induction false} LastIndex(list: seq<SurfaceId>, x: SurfaceId)
    requires NoDup(list) && x in list
    ensures list[|list| - 1] == x <==> IndexOf(list, x) == |list| - 1
  {
    assert list[IndexOf(list, x)] == x;
  }

  /** place_below a sibling never does: the surface is drawn right over it. */
  lemma {:induction false} PlacedBelowIsAbove(st: State, s: SurfaceId, sibling: SurfaceId)
    requires Consistent(st) && MayPlace(st, s, sibling) && sibling != s && st.surfaces[s].parent != Some(sibling)
    ensures
      var p := st.surfaces[s].parent.value;
      var list := ApplyBelow(st, s, sibling).surfaces[p].children;
      sibling in list && s in list && IndexOf(list, s) == IndexOf(list, sibling) + 1
  {
    var p := st.surfaces[s].parent.value;
    var rest := Rest(st, s);
    ListedIff(st, s, p);
    ListedIff(st, sibling, p);
    assert SurfaceOk(st, p);
    WithoutIs(st.surfaces[p].children, s);
    InsertIs(rest, BelowIndex(rest, p, sibling), s);
    InsertShifts(rest, BelowIndex(rest, p, sibling), s, sibling);
  }

  /** Against the parent: above is the top of the children, below their bottom. */
  lemma {:induction false} PlacedAgainstParent(st: State, s: SurfaceId, p: SurfaceId)
    requires Consistent(st) && MayPlace(st, s, p) && st.surfaces[s].parent == Some(p)
    ensures
      var above, below := ApplyAbove(st, s, p).surfaces[p].children, ApplyBelow(st, s, p).surfaces[p].children;
      && s in above && IndexOf(above, s) == |above| - 1
      && s in below && IndexOf(below, s) == 0
  {
    var rest := Rest(st, s);
    assert SurfaceOk(st, s) && SurfaceOk(st, p);
    WithoutIs(st.surfaces[p].children, s);
    InsertIs(rest, |rest|, s);
    InsertIs(rest, 0, s);
  }
}
