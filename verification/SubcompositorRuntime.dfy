/** Sub-surface requests on the links themselves (wayland-host/src/subcompositor.c:29-145, surface.c:227-262). */
module SubcompositorRuntime {
  import opened Common
  import opened WlList
  import opened Subcompositor

  /** The ring a children list is: the parent's list head, then the children's links. */
  function Circle(p: SurfaceId, list: seq<SurfaceId>): seq<Link> {
    [Head(p)] + seq(|list|, i requires 0 <= i < |list| => Of(list[i]))
  }

  ghost predicate OwnList(st: State, p: SurfaceId)
    requires p in st.surfaces
  {
    var list := st.surfaces[p].children;
    NoDup(list)
    && forall i {:trigger list[i]} :: 0 <= i < |list| ==> list[i] in st.surfaces && st.surfaces[list[i]].parent == Some(p)
  }

  /** Lists hold children only; a child may be missing while it is being moved. */
  ghost predicate Owned(st: State) {
    forall p {:trigger OwnList(st, p)} :: p in st.surfaces ==> OwnList(st, p)
  }

  ghost predicate RingOf(l: Links, st: State, p: SurfaceId)
    requires p in st.surfaces
  {
    Ring(l, Circle(p, st.surfaces[p].children))
  }

  ghost predicate AllRings(l: Links, st: State) {
    forall p {:trigger RingOf(l, st, p)} :: p in st.surfaces ==> RingOf(l, st, p)
  }

  lemma {:induction false} ConsistentOwned(st: State)
    requires Consistent(st)
    ensures Owned(st)
  {
    forall p | p in st.surfaces
      ensures OwnList(st, p)
    {
      assert SurfaceOk(st, p);
    }
  }

  lemma {:induction false} InCircle(st: State, p: SurfaceId, x: Link)
    requires p in st.surfaces && OwnList(st, p) && x in Circle(p, st.surfaces[p].children)
    ensures x == Head(p) || (x.Of? && x.surface in st.surfaces && st.surfaces[x.surface].parent == Some(p)
                             && x.surface in st.surfaces[p].children)
  {
  }

  lemma {:induction false} CirclesDisjoint(st: State, p: SurfaceId, q: SurfaceId)
    requires Owned(st) && p in st.surfaces && q in st.surfaces && p != q
    ensures Disjoint(Circle(p, st.surfaces[p].children), Circle(q, st.surfaces[q].children))
  {
    var c, d := Circle(p, st.surfaces[p].children), Circle(q, st.surfaces[q].children);
    assert OwnList(st, p) && OwnList(st, q);
    forall x | x in c
      ensures x !in d
    {
      InCircle(st, p, x);
      if x in d {
        InCircle(st, q, x);
      }
    }
  }

  lemma {:induction false} CircleCut(p: SurfaceId, list: seq<SurfaceId>, i: nat)
    requires i < |list|
    ensures Cut(Circle(p, list), i + 1) == Circle(p, list[..i] + list[i + 1..])
  {
  }

  lemma {:induction false} CircleSpliced(p: SurfaceId, list: seq<SurfaceId>, k: nat, s: SurfaceId)
    requires k <= |list|
    ensures Spliced(Circle(p, list), k, Of(s)) == Circle(p, InsertAt(list, k, s))
  {
  }

  /** Taking a listed child's link out shortens its parent's ring and no other. */
  lemma {:induction false} RemoveLink(l: Links, st: State, p: SurfaceId, s: SurfaceId)
    requires Owned(st) && AllRings(l, st) && p in st.surfaces && s in st.surfaces[p].children
    ensures Of(s) in l.next && Of(s) in l.prev
    ensures
      var st' := Relist(st, p, Without(st.surfaces[p].children, s));
      AllRings(Removed(l, Of(s)), st') && Owned(st')
  {
    var list, i := st.surfaces[p].children, IndexOf(st.surfaces[p].children, s);
    var c := Circle(p, list);
    assert c[i + 1] == Of(s);
    assert RingOf(l, st, p) && OwnList(st, p);
    RemoveRing(l, c, i + 1);
    CircleCut(p, list, i);
    var st' := Relist(st, p, Without(list, s));
    WithoutIs(list, s);
    forall q | q in st'.surfaces
      ensures RingOf(Removed(l, Of(s)), st', q) && OwnList(st', q)
    {
      assert RingOf(l, st, q) && OwnList(st, q);
      if q != p {
        CirclesDisjoint(st, p, q);
        RemoveKeeps(l, c, i + 1, Circle(q, st.surfaces[q].children));
      } else {
        OwnSublist(st, p, Without(list, s));
      }
    }
  }

  lemma {:induction false} OwnSublist(st: State, p: SurfaceId, list: seq<SurfaceId>)
    requires p in st.surfaces && OwnList(st, p) && NoDup(list)
    requires forall x :: x in list ==> x in st.surfaces && st.surfaces[x].parent == Some(p)
    ensures OwnList(Relist(st, p, list), p)
  {
    forall i | 0 <= i < |list|
      ensures list[i] in st.surfaces && st.surfaces[list[i]].parent == Some(p)
    {
      assert list[i] in list;
    }
  }

  /** Linking an unlisted child after entry k of its parent's ring. */
  lemma {:induction false} InsertLink(l: Links, st: State, p: SurfaceId, k: nat, s: SurfaceId)
    requires Owned(st) && AllRings(l, st) && p in st.surfaces && k <= |st.surfaces[p].children|
    requires s in st.surfaces && st.surfaces[s].parent == Some(p) && s !in st.surfaces[p].children
    ensures Circle(p, st.surfaces[p].children)[k] in l.next
    ensures AllRings(Inserted(l, Circle(p, st.surfaces[p].children)[k], Of(s)),
                     Relist(st, p, InsertAt(st.surfaces[p].children, k, s)))
  {
    var list := st.surfaces[p].children;
    var c := Circle(p, list);
    assert RingOf(l, st, p) && OwnList(st, p);
    if Of(s) in c {
      InCircle(st, p, Of(s));
    }
    InsertRing(l, c, k, Of(s));
    CircleSpliced(p, list, k, s);
    var l', st' := Inserted(l, c[k], Of(s)), Relist(st, p, InsertAt(list, k, s));
    forall q | q in st'.surfaces
      ensures RingOf(l', st', q)
    {
      assert RingOf(l, st, q) && OwnList(st, q);
      if q != p {
        CirclesDisjoint(st, p, q);
        if Of(s) in Circle(q, st.surfaces[q].children) {
          InCircle(st, q, Of(s));
        }
        InsertKeeps(l, c, k, Of(s), Circle(q, st.surfaces[q].children));
      }
    }
  }

  /** Re-initialising a link that is in no list. */
  lemma {:induction false} InitLink(l: Links, st: State, x: Link)
    requires AllRings(l, st)
    requires forall q :: q in st.surfaces ==> x != Head(q) && !(x.Of? && x.surface in st.surfaces[q].children)
    ensures AllRings(Initialised(l, x), st)
  {
    forall q | q in st.surfaces
      ensures RingOf(Initialised(l, x), st, q)
    {
      assert RingOf(l, st, q);
      var c := Circle(q, st.surfaces[q].children);
      assert forall i :: 1 <= i < |c| ==> c[i] == Of(st.surfaces[q].children[i - 1]);
      InitKeeps(l, x, c);
    }
  }

  /** The link place_above inserts after. */
  lemma {:induction false} AboveTarget(l: Links, p: SurfaceId, rest: seq<SurfaceId>, sibling: SurfaceId)
    requires Ring(l, Circle(p, rest)) && (sibling == p || sibling in rest)
    ensures
      var target := Circle(p, rest)[AboveIndex(rest, p, sibling)];
      if sibling == p then Head(p) in l.prev && l.prev[Head(p)] == target
      else Of(sibling) in l.next && l.next[Of(sibling)] == target
  {
    var c := Circle(p, rest);
    if sibling == p {
      assert Placed(l, c, 0);
    } else {
      var j := IndexOf(rest, sibling);
      assert Placed(l, c, j + 1) && c[j + 1] == Of(sibling);
    }
  }

  lemma {:induction false} BelowTarget(p: SurfaceId, rest: seq<SurfaceId>, sibling: SurfaceId)
    requires sibling == p || sibling in rest
    ensures Circle(p, rest)[BelowIndex(rest, p, sibling)] == if sibling == p then Head(p) else Of(sibling)
  {
  }

  function Parents(st: State): map<SurfaceId, Option<SurfaceId>> {
    map s | s in st.surfaces :: st.surfaces[s].parent
  }

  function Roles(st: State): map<SurfaceId, bool> {
    map s | s in st.surfaces :: st.surfaces[s].role
  }

  class SubsurfaceLinks {
    var next: map<Link, Link>
    var prev: map<Link, Link>
    var parent: map<SurfaceId, Option<SurfaceId>>
    var role: map<SurfaceId, bool>
    ghost var history: seq<Step>

    ghost function L(): Links
      reads this
    {
      Links(next, prev)
    }

    /** The fields and links spell out the state the requests have built. */
    ghost predicate Shows(st: State)
      reads this
    {
      parent == Parents(st) && role == Roles(st) && AllRings(L(), st)
    }

    ghost predicate Valid()
      reads this
    {
      NoSelfPlacement(history) && Shows(Exec(history))
    }

    lemma Recorded(step: Step)
      requires NoSelfPlacement(history)
      ensures Exec(history + [step]) == Apply(Exec(history), step)
      ensures NoSelfPlacement(history + [step]) <==> !SelfPlacement(Exec(history), step)
      ensures Consistent(Exec(history)) && Owned(Exec(history)) && Exec(history).alive
    {
      assert (history + [step])[..|history + [step]| - 1] == history;
      RunConsistent(history);
      ConsistentOwned(Exec(history));
    }

    constructor ()
      ensures Valid() && history == []
    {
      next, prev, parent, role, history := map[], map[], map[], map[], [];
    }

    method Init(x: Link)
      modifies this`next, this`prev
      ensures L() == Initialised(old(L()), x)
    {
      next, prev := next[x := x], prev[x := x];
    }

    method Insert(list: Link, x: Link)
      requires list in next && list != x
      modifies this`next, this`prev
      ensures L() == Inserted(old(L()), list, x)
    {
      prev := prev[x := list];
      next := next[x := next[list]];
      next := next[list := x];
      prev := prev[next[x] := x];
    }

    method Remove(x: Link)
      requires x in next && x in prev
      modifies this`next, this`prev
      ensures L() == Removed(old(L()), x)
    {
      next := next[prev[x] := next[x]];
      prev := prev[next[x] := prev[x]];
      next, prev := next - {x}, prev - {x};
    }

    /** compositor_create_surface */
    method CreateSurface(s: SurfaceId)
      requires Valid() && s !in parent
      modifies this
      ensures Valid() && history == old(history) + [Create(s)]
    {
      ghost var st := Exec(history);
      Recorded(Create(s));
      CreatedRings(L(), st, s);
      Init(Head(s));
      Init(Of(s));
      parent, role := parent[s := None], role[s := false];
      assert Shows(Apply(st, Create(s)));
      history := history + [Create(s)];
    }

    /** The accepted branch of subcompositor_get_subsurface. */
    method Adopt(s: SurfaceId, p: SurfaceId, ghost st: State)
      requires Consistent(st) && Shows(st) && s in parent && p in parent && s != p && !role[s]
      modifies this`next, this`prev, this`parent, this`role
      ensures Shows(ApplyGet(st, s, p))
      ensures parent == old(parent)[s := Some(p)] && role == old(role)[s := true]
    {
      ghost var st1 := st.(surfaces := st.surfaces[s := st.surfaces[s].(parent := Some(p), role := true)]);
      AdoptedRings(L(), st, s, p);
      InsertLink(L(), st1, p, 0, s);
      role := role[s := true];
      parent := parent[s := Some(p)];
      Insert(Head(p), Of(s));
      assert InsertAt(st1.surfaces[p].children, 0, s) == [s] + st1.surfaces[p].children;
    }

    /** The accepted branch of subsurface_place_above. */
    method MoveAbove(s: SurfaceId, sibling: SurfaceId, ghost st: State)
      requires Consistent(st) && Shows(st) && MayPlace(st, s, sibling) && s != sibling
      modifies this`next, this`prev
      ensures Shows(ApplyAbove(st, s, sibling))
    {
      var p := parent[s].value;
      AbovePlaced(L(), st, s, sibling);
      Remove(Of(s));
      if sibling == p {
        Insert(prev[Head(p)], Of(s));
      } else {
        Insert(next[Of(sibling)], Of(s));
      }
    }

    /** The accepted branch of subsurface_place_below. */
    method MoveBelow(s: SurfaceId, sibling: SurfaceId, ghost st: State)
      requires Consistent(st) && Shows(st) && MayPlace(st, s, sibling) && s != sibling
      modifies this`next, this`prev
      ensures Shows(ApplyBelow(st, s, sibling))
    {
      var p := parent[s].value;
      BelowPlaced(L(), st, s, sibling);
      Remove(Of(s));
      if sibling == p {
        Insert(Head(p), Of(s));
      } else {
        Insert(Of(sibling), Of(s));
      }
    }

    /** subcompositor_get_subsurface */
    method GetSubsurface(s: SurfaceId, p: SurfaceId) returns (ok: bool)
      requires Valid() && s in parent && p in parent
      modifies this
      ensures Valid() && history == old(history) + [Step.GetSubsurface(s, p)]
      ensures ok <==> s != p && !old(role)[s]
      ensures ok ==> parent == old(parent)[s := Some(p)] && role == old(role)[s := true]
      ensures !ok ==> parent == old(parent) && role == old(role) && L() == old(L())
    {
      ghost var st := Exec(history);
      ghost var step := Step.GetSubsurface(s, p);
      Recorded(step);
      ok := s != p && !role[s];
      if ok {
        Adopt(s, p, st);
      }
      history := history + [step];
    }

    /** subsurface_place_above; `crashed`: the link to insert after is null. */
    method PlaceAbove(s: SurfaceId, sibling: SurfaceId) returns (ok: bool, crashed: bool)
      requires Valid() && s in parent && sibling in parent
      modifies this
      ensures history == old(history) + [Step.PlaceAbove(s, sibling)] && (!crashed ==> Valid())
      ensures parent == old(parent) && role == old(role)
      ensures ok <==> parent[s].Some? && (parent[s] == Some(sibling) || parent[sibling] == parent[s])
      ensures crashed <==> ok && s == sibling
      ensures crashed <==> !Exec(history).alive
    {
      ghost var st := Exec(history);
      ghost var step := Step.PlaceAbove(s, sibling);
      Recorded(step);
      assert SurfaceOk(st, s) && SurfaceOk(st, sibling);
      ok := parent[s].Some? && (parent[s] == Some(sibling) || parent[sibling] == parent[s]);
      crashed := false;
      if ok && s == sibling {
        DetachedRings(L(), st, s);
        Remove(Of(s));
        crashed := Of(sibling) !in next;
      } else if ok {
        MoveAbove(s, sibling, st);
      }
      history := history + [step];
    }

    /** The accepted branch of subsurface_place_below against itself: an insertion after a link just cleared. */
    method MoveBelowItself(s: SurfaceId, ghost st: State)
      requires Consistent(st) && Shows(st) && MayPlace(st, s, s)
      modifies this`next, this`prev
      ensures Shows(ApplyBelow(st, s, s))
    {
      DetachedRings(L(), st, s);
      Remove(Of(s));
      prev := prev[Of(s) := Of(s)];
      next := next - {Of(s)};
      next := next[Of(s) := Of(s)];
      prev := prev[next[Of(s)] := Of(s)];
      assert L() == Initialised(Removed(old(L()), Of(s)), Of(s));
      SelfBelowRings(old(L()), st, s);
    }

    /** subsurface_place_below; against itself the links still spell out the state, but not a consistent one. */
    method PlaceBelow(s: SurfaceId, sibling: SurfaceId) returns (ok: bool)
      requires Valid() && s in parent && sibling in parent
      modifies this
      ensures history == old(history) + [Step.PlaceBelow(s, sibling)]
      ensures Shows(Exec(history)) && (!(ok && s == sibling) ==> Valid())
      ensures parent == old(parent) && role == old(role)
      ensures ok <==> parent[s].Some? && (parent[s] == Some(sibling) || parent[sibling] == parent[s])
    {
      ghost var st := Exec(history);
      ghost var step := Step.PlaceBelow(s, sibling);
      Recorded(step);
      assert SurfaceOk(st, s) && SurfaceOk(st, sibling);
      ok := parent[s].Some? && (parent[s] == Some(sibling) || parent[sibling] == parent[s]);
      if ok && s == sibling {
        MoveBelowItself(s, st);
      } else if ok {
        MoveBelow(s, sibling, st);
      }
      history := history + [step];
    }

    /** subsurface_resource_destroy, on a surface that has the role */
    method Unlink(s: SurfaceId, ghost st: State)
      requires Consistent(st) && Shows(st) && s in parent
      modifies this`next, this`prev, this`parent, this`role
      ensures Shows(Detach(st, s))
    {
      DetachedRings(L(), st, s);
      role := role[s := false];
      if parent[s].Some? {
        Remove(Of(s));
        Init(Of(s));
      }
      parent := parent[s := None];
    }

    method DestroySubsurface(s: SurfaceId)
      requires Valid() && s in role && role[s]
      modifies this
      ensures Valid() && history == old(history) + [Step.DestroySubsurface(s)]
      ensures parent == old(parent)[s := None] && role == old(role)[s := false]
    {
      ghost var st := Exec(history);
      Recorded(Step.DestroySubsurface(s));
      assert SurfaceOk(st, s);
      DetachedRings(L(), st, s);
      Unlink(s, st);
      history := history + [Step.DestroySubsurface(s)];
    }

    /** One child is unlinked and loses its parent. */
    method LetGo(s: SurfaceId, ghost st: State, ghost i: nat, child: Link)
      requires Consistent(st) && s in st.surfaces && st.surfaces[s].parent == None && i < |st.surfaces[s].children|
      requires Owned(OrphanFirst(st, s, i)) && Shows(OrphanFirst(st, s, i)) && child == Of(st.surfaces[s].children[i])
      modifies this`next, this`prev, this`parent
      ensures Owned(OrphanFirst(st, s, i + 1)) && Shows(OrphanFirst(st, s, i + 1))
    {
      OrphanNext(L(), st, s, i);
      Remove(child);
      Init(child);
      parent := parent[child.surface := None];
    }

    /** The loop over the children: the successor is read before the child is unlinked. */
    method OrphanChildren(s: SurfaceId, ghost st: State)
      requires Consistent(st) && Shows(st) && s in parent && parent[s] == None
      modifies this`next, this`prev, this`parent
      ensures Shows(OrphanFirst(st, s, |st.surfaces[s].children|))
    {
      ghost var list := st.surfaces[s].children;
      ghost var i := 0;
      OrphanNone(L(), st, s);
      NextInRing(L(), st, s, 0);
      var child := next[Head(s)];
      var following := next[child];
      while child != Head(s)
        invariant i <= |list| && Owned(OrphanFirst(st, s, i)) && Shows(OrphanFirst(st, s, i))
        invariant child == LinkAt(s, list, i) && following == LinkAt(s, list, i + 1)
        decreases |list| - i
      {
        LetGo(s, st, i, child);
        i := i + 1;
        NextInRing(L(), st, s, i);
        child := following;
        following := next[child];
      }
    }

    /** Role first, then the children, then the surface itself. */
    method LeaveForest(s: SurfaceId, ghost st: State)
      requires Consistent(st) && Shows(st) && s in parent && (parent[s].Some? ==> role[s])
      modifies this`next, this`prev, this`parent, this`role
      ensures Shows(Orphan(Detach(st, s), s)) && s !in parent && s !in role
    {
      DetachConsistent(st, s);
      if role[s] {
        Unlink(s, st);
      } else {
        assert Detach(st, s).surfaces == st.surfaces;
      }
      OrphanChildren(s, Detach(st, s));
      OrphanLast(L(), Detach(st, s), s);
      parent, role := parent - {s}, role - {s};
    }

    /** The sub-surface part of surface_resource_destroy. */
    method DestroySurface(s: SurfaceId)
      requires Valid() && s in parent
      modifies this
      ensures Valid() && history == old(history) + [Step.DestroySurface(s)]
      ensures s !in parent && s !in role
    {
      ghost var st := Exec(history);
      Recorded(Step.DestroySurface(s));
      assert SurfaceOk(st, s);
      LeaveForest(s, st);
      history := history + [Step.DestroySurface(s)];
    }
  }

  /** The new child is linked nowhere yet. */
  lemma {:induction false} AdoptedRings(l: Links, st: State, s: SurfaceId, p: SurfaceId)
    requires Consistent(st) && AllRings(l, st) && s in st.surfaces && p in st.surfaces && !st.surfaces[s].role
    ensures
      var st1 := st.(surfaces := st.surfaces[s := st.surfaces[s].(parent := Some(p), role := true)]);
      Owned(st1) && AllRings(l, st1) && s !in st1.surfaces[p].children
  {
    var st1 := st.(surfaces := st.surfaces[s := st.surfaces[s].(parent := Some(p), role := true)]);
    assert SurfaceOk(st, s);
    forall q | q in st1.surfaces
      ensures OwnList(st1, q) && RingOf(l, st1, q)
    {
      assert SurfaceOk(st, q) && RingOf(l, st, q);
      ListedIff(st, s, q);
    }
    ListedIff(st, s, p);
  }

  lemma {:induction false} BeforePlacing(l: Links, st: State, s: SurfaceId, sibling: SurfaceId)
    requires Consistent(st) && AllRings(l, st) && MayPlace(st, s, sibling) && s != sibling
    ensures Of(s) in l.next && Of(s) in l.prev
    ensures
      var p, rest := st.surfaces[s].parent.value, Rest(st, s);
      && s !in rest && (sibling == p || sibling in rest) && Of(s) !in Circle(p, rest)
      && Owned(Relist(st, p, rest)) && AllRings(Removed(l, Of(s)), Relist(st, p, rest))
  {
    var p, rest := st.surfaces[s].parent.value, Rest(st, s);
    ConsistentOwned(st);
    ListedIff(st, s, p);
    ListedIff(st, sibling, p);
    assert SurfaceOk(st, p);
    WithoutIs(st.surfaces[p].children, s);
    RemoveLink(l, st, p, s);
    assert forall i :: 1 <= i < |Circle(p, rest)| ==> Circle(p, rest)[i] == Of(rest[i - 1]);
  }

  /** Replacing one list twice; parents and roles do not notice. */
  lemma {:induction false} RelistTwice(st: State, p: SurfaceId, a: seq<SurfaceId>, b: seq<SurfaceId>)
    requires p in st.surfaces
    ensures Relist(Relist(st, p, a), p, b) == Relist(st, p, b)
    ensures Parents(Relist(st, p, b)) == Parents(st) && Roles(Relist(st, p, b)) == Roles(st)
  {
  }

  lemma {:induction false} AbovePlaced(l: Links, st: State, s: SurfaceId, sibling: SurfaceId)
    requires Consistent(st) && AllRings(l, st) && MayPlace(st, s, sibling) && s != sibling
    ensures Of(s) in l.next && Of(s) in l.prev
    ensures
      var p, l1, st' := st.surfaces[s].parent.value, Removed(l, Of(s)), ApplyAbove(st, s, sibling);
      && (sibling == p ==> Head(p) in l1.prev) && (sibling != p ==> Of(sibling) in l1.next)
      && var target := if sibling == p then l1.prev[Head(p)] else l1.next[Of(sibling)];
      && target in l1.next && target != Of(s)
      && AllRings(Inserted(l1, target, Of(s)), st') && Parents(st') == Parents(st) && Roles(st') == Roles(st)
  {
    var p, rest := st.surfaces[s].parent.value, Rest(st, s);
    BeforePlacing(l, st, s, sibling);
    var l1, st1, k := Removed(l, Of(s)), Relist(st, p, rest), AboveIndex(rest, p, sibling);
    assert RingOf(l1, st1, p);
    AboveTarget(l1, p, rest, sibling);
    InsertLink(l1, st1, p, k, s);
    RelistTwice(st, p, rest, InsertAt(rest, k, s));
    assert Circle(p, rest)[k] in Circle(p, rest);
  }

  lemma {:induction false} BelowPlaced(l: Links, st: State, s: SurfaceId, sibling: SurfaceId)
    requires Consistent(st) && AllRings(l, st) && MayPlace(st, s, sibling) && s != sibling
    ensures Of(s) in l.next && Of(s) in l.prev
    ensures
      var p, l1, st' := st.surfaces[s].parent.value, Removed(l, Of(s)), ApplyBelow(st, s, sibling);
      var target := if sibling == p then Head(p) else Of(sibling);
      && target in l1.next && target != Of(s)
      && AllRings(Inserted(l1, target, Of(s)), st') && Parents(st') == Parents(st) && Roles(st') == Roles(st)
  {
    var p, rest := st.surfaces[s].parent.value, Rest(st, s);
    BeforePlacing(l, st, s, sibling);
    var l1, st1, k := Removed(l, Of(s)), Relist(st, p, rest), BelowIndex(rest, p, sibling);
    BelowTarget(p, rest, sibling);
    InsertLink(l1, st1, p, k, s);
    RelistTwice(st, p, rest, InsertAt(rest, k, s));
    assert Circle(p, rest)[k] in Circle(p, rest);
  }

  lemma {:induction false} CreatedRings(l: Links, st: State, s: SurfaceId)
    requires Consistent(st) && st.alive && AllRings(l, st) && s !in st.surfaces
    ensures
      var st' := Apply(st, Create(s));
      && AllRings(Initialised(Initialised(l, Head(s)), Of(s)), st')
      && Parents(st') == Parents(st)[s := None] && Roles(st') == Roles(st)[s := false]
  {
    var st' := Apply(st, Create(s));
    var l1 := Initialised(l, Head(s));
    var l2 := Initialised(l1, Of(s));
    forall q | q in st.surfaces
      ensures s !in st.surfaces[q].children
    {
      assert SurfaceOk(st, q);
    }
    InitLink(l, st, Head(s));
    InitLink(l1, st, Of(s));
    InitRing(l, Head(s));
    InitKeeps(l1, Of(s), [Head(s)]);
    assert Circle(s, []) == [Head(s)];
    forall q | q in st'.surfaces
      ensures RingOf(l2, st', q)
    {
      assert q != s ==> RingOf(l2, st, q);
    }
  }

  lemma {:induction false} DetachedRings(l: Links, st: State, s: SurfaceId)
    requires Consistent(st) && AllRings(l, st) && s in st.surfaces
    ensures st.surfaces[s].parent.Some? ==> Of(s) in l.next && Of(s) in l.prev
    ensures
      var st' := Detach(st, s);
      && AllRings(if st.surfaces[s].parent.Some? then Initialised(Removed(l, Of(s)), Of(s)) else l, st')
      && Parents(st') == Parents(st)[s := None] && Roles(st') == Roles(st)[s := false]
  {
    var st' := Detach(st, s);
    assert SurfaceOk(st, s);
    if st.surfaces[s].parent.Some? {
      var p := st.surfaces[s].parent.value;
      ConsistentOwned(st);
      RemoveLink(l, st, p, s);
      var st1, l1 := Relist(st, p, Rest(st, s)), Removed(l, Of(s));
      forall q | q in st1.surfaces
        ensures s !in st1.surfaces[q].children
      {
        ListedIff(st, s, q);
        assert SurfaceOk(st, q);
        WithoutIs(st.surfaces[q].children, s);
      }
      InitLink(l1, st1, Of(s));
      SameLists(Initialised(l1, Of(s)), st1, st');
    } else {
      SameLists(l, st, st');
    }
  }

  lemma {:induction false} SelfBelowRings(l: Links, st: State, s: SurfaceId)
    requires Consistent(st) && AllRings(l, st) && MayPlace(st, s, s) && Of(s) in l.next && Of(s) in l.prev
    ensures var st' := ApplyBelow(st, s, s);
      AllRings(Initialised(Removed(l, Of(s)), Of(s)), st') && Parents(st') == Parents(st) && Roles(st') == Roles(st)
  {
    var p := st.surfaces[s].parent.value;
    DetachedRings(l, st, s);
    assert SurfaceOk(st, s);
    SameLists(Initialised(Removed(l, Of(s)), Of(s)), Detach(st, s), ApplyBelow(st, s, s));
    RelistTwice(st, p, [], Rest(st, s));
  }

  lemma {:induction false} SameLists(l: Links, st: State, st': State)
    requires AllRings(l, st)
    requires forall q :: q in st'.surfaces ==> q in st.surfaces && st'.surfaces[q].children == st.surfaces[q].children
    ensures AllRings(l, st')
  {
    forall q | q in st'.surfaces
      ensures RingOf(l, st', q)
    {
      assert RingOf(l, st, q);
    }
  }

  /** The state when the first `i` children of `s` have been let go. */
  function OrphanFirst(st: State, s: SurfaceId, i: nat): State
    requires s in st.surfaces && i <= |st.surfaces[s].children|
  {
    var list := st.surfaces[s].children;
    st.(surfaces := map c | c in st.surfaces ::
          if c == s then st.surfaces[s].(children := list[i..])
          else if c in list[..i] then st.surfaces[c].(parent := None) else st.surfaces[c])
  }

  /** Entry `i` of a list, its head after the last. */
  function LinkAt(s: SurfaceId, list: seq<SurfaceId>, i: nat): Link {
    if i < |list| then Of(list[i]) else Head(s)
  }

  lemma {:induction false} OrphanNone(l: Links, st: State, s: SurfaceId)
    requires Consistent(st) && AllRings(l, st) && s in st.surfaces
    ensures OrphanFirst(st, s, 0) == st && Owned(st)
  {
    assert st.surfaces[s].children[0..] == st.surfaces[s].children;
    ConsistentOwned(st);
  }

  lemma {:induction false} NextInRing(l: Links, st: State, s: SurfaceId, i: nat)
    requires s in st.surfaces && i <= |st.surfaces[s].children| && AllRings(l, OrphanFirst(st, s, i))
    ensures
      var list := st.surfaces[s].children;
      && Head(s) in l.next && l.next[Head(s)] == LinkAt(s, list, i)
      && LinkAt(s, list, i) in l.next && l.next[LinkAt(s, list, i)] == LinkAt(s, list, i + 1)
  {
    var list := st.surfaces[s].children;
    assert RingOf(l, OrphanFirst(st, s, i), s);
    var c := Circle(s, list[i..]);
    assert Placed(l, c, 0);
    if i < |list| {
      assert Placed(l, c, 1);
    }
  }

  /** What letting go of one more child changes. */
  lemma {:induction false} OrphanOneMore(st: State, s: SurfaceId, i: nat)
    requires s in st.surfaces && i < |st.surfaces[s].children| && NoDup(st.surfaces[s].children)
    requires st.surfaces[s].children[i] in st.surfaces && st.surfaces[s].children[i] != s
    ensures
      var x, before, after := st.surfaces[s].children[i], OrphanFirst(st, s, i), OrphanFirst(st, s, i + 1);
      && after.surfaces.Keys == before.surfaces.Keys
      && before.surfaces[x].parent == st.surfaces[x].parent
      && (forall q :: q in before.surfaces ==>
            after.surfaces[q].children == if q == s then st.surfaces[s].children[i + 1..] else before.surfaces[q].children)
      && (forall q :: q in before.surfaces && q != x ==> after.surfaces[q].parent == before.surfaces[q].parent)
  {
    var list := st.surfaces[s].children;
    assert list[..i + 1] == list[..i] + [list[i]];
  }

  lemma {:induction false} OrphanOneFields(st: State, s: SurfaceId, i: nat)
    requires s in st.surfaces && i < |st.surfaces[s].children|
    requires st.surfaces[s].children[i] in st.surfaces && st.surfaces[s].children[i] != s
    ensures
      var x, before, after := st.surfaces[s].children[i], OrphanFirst(st, s, i), OrphanFirst(st, s, i + 1);
      Parents(after) == Parents(before)[x := None] && Roles(after) == Roles(before)
  {
    OrphanOneParents(st, s, i);
    OrphanOneRoles(st, s, i);
  }

  lemma {:induction false} OrphanOneParents(st: State, s: SurfaceId, i: nat)
    requires s in st.surfaces && i < |st.surfaces[s].children|
    requires st.surfaces[s].children[i] in st.surfaces && st.surfaces[s].children[i] != s
    ensures Parents(OrphanFirst(st, s, i + 1)) == Parents(OrphanFirst(st, s, i))[st.surfaces[s].children[i] := None]
  {
    var list := st.surfaces[s].children;
    assert list[..i + 1] == list[..i] + [list[i]];
  }

  lemma {:induction false} OrphanOneRoles(st: State, s: SurfaceId, i: nat)
    requires s in st.surfaces && i < |st.surfaces[s].children|
    ensures Roles(OrphanFirst(st, s, i + 1)) == Roles(OrphanFirst(st, s, i))
  {
  }

  lemma {:induction false} HeadDropped(list: seq<SurfaceId>, i: nat)
    requires NoDup(list) && i < |list|
    ensures list[i] in list[i..] && Without(list[i..], list[i]) == list[i + 1..] && list[i] !in list[i + 1..]
  {
    var left := list[i..];
    assert left[0] == list[i] && IndexOf(left, list[i]) == 0;
  }

  lemma {:induction false} OrphanNext(l: Links, st: State, s: SurfaceId, i: nat)
    requires Consistent(st) && s in st.surfaces && st.surfaces[s].parent == None && i < |st.surfaces[s].children|
    requires Owned(OrphanFirst(st, s, i)) && AllRings(l, OrphanFirst(st, s, i))
    ensures Of(st.surfaces[s].children[i]) in l.next && Of(st.surfaces[s].children[i]) in l.prev
    ensures
      var x, before, after := st.surfaces[s].children[i], OrphanFirst(st, s, i), OrphanFirst(st, s, i + 1);
      && AllRings(Initialised(Removed(l, Of(x)), Of(x)), after) && Owned(after)
      && Parents(after) == Parents(before)[x := None] && Roles(after) == Roles(before)
  {
    var list := st.surfaces[s].children;
    var x, before, after := list[i], OrphanFirst(st, s, i), OrphanFirst(st, s, i + 1);
    assert SurfaceOk(st, s);
    HeadDropped(list, i);
    OrphanOneMore(st, s, i);
    OrphanOneFields(st, s, i);
    RemoveLink(l, before, s, x);
    var st1, l1 := Relist(before, s, list[i + 1..]), Removed(l, Of(x));
    forall q | q in st1.surfaces
      ensures x !in st1.surfaces[q].children && st1.surfaces[q].children == after.surfaces[q].children
    {
      NotElsewhere(st1, x, s, q);
    }
    InitLink(l1, st1, Of(x));
    SameLists(Initialised(l1, Of(x)), st1, after);
    OrphanOwned(st1, after, x);
  }

  lemma {:induction false} NotElsewhere(st: State, x: SurfaceId, s: SurfaceId, q: SurfaceId)
    requires Owned(st) && q in st.surfaces && s in st.surfaces && x in st.surfaces
    requires st.surfaces[x].parent == Some(s) && x !in st.surfaces[s].children
    ensures x !in st.surfaces[q].children
  {
    assert OwnList(st, q);
  }

  lemma {:induction false} OrphanOwned(st: State, st': State, x: SurfaceId)
    requires Owned(st) && st'.surfaces.Keys == st.surfaces.Keys
    requires forall q :: q in st.surfaces ==> x !in st.surfaces[q].children && st'.surfaces[q].children == st.surfaces[q].children
    requires forall q :: q in st.surfaces && q != x ==> st'.surfaces[q].parent == st.surfaces[q].parent
    ensures Owned(st')
  {
    forall q | q in st'.surfaces
      ensures OwnList(st', q)
    {
      assert OwnList(st, q);
    }
  }

  lemma {:induction false} OrphanLast(l: Links, st: State, s: SurfaceId)
    requires Consistent(st) && s in st.surfaces && AllRings(l, OrphanFirst(st, s, |st.surfaces[s].children|))
    ensures
      var last, st' := OrphanFirst(st, s, |st.surfaces[s].children|), Orphan(st, s);
      AllRings(l, st') && Parents(st') == Parents(last) - {s} && Roles(st') == Roles(last) - {s}
  {
    var list := st.surfaces[s].children;
    assert list[..|list|] == list;
    SameLists(l, OrphanFirst(st, s, |list|), Orphan(st, s));
  }
}
