/**
  Which surfaces a composition shows: the bottom-up test of
  wayland-host/src/surface.c:436-446 against the multi-pass, top-down
  traversal of wayland-host/src/renderer.c:724-742 and 782-809.
 */
module DrawOrder {
  import opened Common

  type SurfaceId = nat

  datatype Layer = Background | Bottom | Top | Overlay

  /** `shows`: has a current buffer of `area` pixels; `viewport`: a viewport destination is set. */
  datatype Surface = Surface(
    mapped: bool, shows: bool, viewport: bool, area: int,
    layer: Option<Layer>, parent: Option<SurfaceId>, children: seq<SurfaceId>)

  datatype Scene = Scene(
    order: seq<SurfaceId>, surfaces: map<SurfaceId, Surface>,
    cursor: Option<SurfaceId>, cursorVisible: bool)

  /** Parents and children agree, and `depth` (below `bound`) counts the ancestors. */
  ghost predicate Forest(sc: Scene, depth: map<SurfaceId, nat>, bound: nat) {
    && depth.Keys == sc.surfaces.Keys
    && NoDup(sc.order) && (forall s :: s in sc.order <==> s in sc.surfaces)
    && (forall s {:trigger Linked(sc, depth, bound, s)} :: s in sc.surfaces ==> Linked(sc, depth, bound, s))
  }

  ghost predicate Linked(sc: Scene, depth: map<SurfaceId, nat>, bound: nat, s: SurfaceId)
    requires depth.Keys == sc.surfaces.Keys && s in sc.surfaces
  {
    var x := sc.surfaces[s];
    && depth[s] < bound
    && (x.parent == None ==> depth[s] == 0)
    && (x.parent.Some? ==>
          && x.parent.value in sc.surfaces
          && depth[s] == depth[x.parent.value] + 1
          && s in sc.surfaces[x.parent.value].children)
    && NoDup(x.children)
    && (forall c :: c in x.children ==> c in sc.surfaces && sc.surfaces[c].parent == Some(s))
  }

  predicate Open(sc: Scene, s: SurfaceId) {
    s in sc.surfaces && sc.cursor != Some(s) && sc.surfaces[s].mapped && sc.surfaces[s].shows
  }

  /* ---------- bottom-up ---------- */

  ghost predicate AncestorsOpen(sc: Scene, depth: map<SurfaceId, nat>, bound: nat, s: SurfaceId)
    requires Forest(sc, depth, bound) && s in sc.surfaces
    decreases depth[s]
  {
    assert Linked(sc, depth, bound, s);
    var p := sc.surfaces[s].parent;
    p == None || (Open(sc, p.value) && AncestorsOpen(sc, depth, bound, p.value))
  }

  ghost predicate Participates(sc: Scene, depth: map<SurfaceId, nat>, bound: nat, s: SurfaceId)
    requires Forest(sc, depth, bound) && s in sc.surfaces
  {
    && sc.surfaces[s].mapped && sc.surfaces[s].shows
    && if sc.cursor == Some(s) then sc.cursorVisible else AncestorsOpen(sc, depth, bound, s)
  }

  /** surface_participates_in_output: the loop over parents. */
  method ParticipatesInOutput(sc: Scene, s: SurfaceId, ghost depth: map<SurfaceId, nat>, ghost bound: nat)
    returns (r: bool)
    requires Forest(sc, depth, bound) && s in sc.surfaces
    ensures r == Participates(sc, depth, bound, s)
  {
    if !sc.surfaces[s].mapped || !sc.surfaces[s].shows {
      return false;
    }
    if sc.cursor == Some(s) {
      return sc.cursorVisible;
    }
    assert Linked(sc, depth, bound, s);
    var parent := sc.surfaces[s].parent;
    while parent.Some?
      invariant parent.Some? ==> parent.value in sc.surfaces
      invariant AncestorsOpen(sc, depth, bound, s) ==
        (parent == None || (Open(sc, parent.value) && AncestorsOpen(sc, depth, bound, parent.value)))
      decreases if parent.Some? then depth[parent.value] + 1 else 0
    {
      var p := parent.value;
      assert Linked(sc, depth, bound, p);
      if !sc.surfaces[p].mapped || !sc.surfaces[p].shows || sc.cursor == Some(p) {
        return false;
      }
      parent := sc.surfaces[p].parent;
    }
    return true;
  }

  /* ---------- top-down ---------- */

  ghost predicate AllAt(sc: Scene, depth: map<SurfaceId, nat>, bound: nat, level: nat, cs: seq<SurfaceId>)
    requires depth.Keys == sc.surfaces.Keys
  {
    forall c :: c in cs ==> c in sc.surfaces && depth[c] == level
  }

  lemma ChildrenOneBelow(sc: Scene, depth: map<SurfaceId, nat>, bound: nat, s: SurfaceId)
    requires Forest(sc, depth, bound) && s in sc.surfaces
    ensures AllAt(sc, depth, bound, depth[s] + 1, sc.surfaces[s].children) && NoDup(sc.surfaces[s].children)
    ensures depth[s] < bound
  {
    assert Linked(sc, depth, bound, s);
    forall c | c in sc.surfaces[s].children
      ensures depth[c] == depth[s] + 1
    {
      assert Linked(sc, depth, bound, c);
    }
  }

  /** draw_surface_tree */
  function DrawTree(sc: Scene, ghost depth: map<SurfaceId, nat>, ghost bound: nat, s: SurfaceId): seq<SurfaceId>
    requires Forest(sc, depth, bound) && s in sc.surfaces
    decreases bound - depth[s], 0
  {
    if !Open(sc, s) then []
    else
      ChildrenOneBelow(sc, depth, bound, s);
      [s] + DrawList(sc, depth, bound, depth[s] + 1, sc.surfaces[s].children)
  }

  function DrawList(sc: Scene, ghost depth: map<SurfaceId, nat>, ghost bound: nat, ghost level: nat, cs: seq<SurfaceId>): seq<SurfaceId>
    requires Forest(sc, depth, bound) && AllAt(sc, depth, bound, level, cs)
    decreases bound - level, 1 + |cs|
  {
    if cs == [] then []
    else DrawTree(sc, depth, bound, cs[0]) + DrawList(sc, depth, bound, level, cs[1..])
  }


  /* ---------- the two agree ---------- */

  /** x lies under s and everything from x up to s is open. */
  ghost predicate Chain(sc: Scene, depth: map<SurfaceId, nat>, bound: nat, x: SurfaceId, s: SurfaceId)
    requires Forest(sc, depth, bound) && x in sc.surfaces
    decreases depth[x]
  {
    assert Linked(sc, depth, bound, x);
    var p := sc.surfaces[x].parent;
    Open(sc, x) && (x == s || (p.Some? && Chain(sc, depth, bound, p.value, s)))
  }

  lemma {:induction false} ChainFacts(sc: Scene, depth: map<SurfaceId, nat>, bound: nat, x: SurfaceId, s: SurfaceId)
    requires Forest(sc, depth, bound) && x in sc.surfaces && Chain(sc, depth, bound, x, s)
    ensures s in sc.surfaces && Open(sc, s) && depth[s] <= depth[x] && (depth[s] == depth[x] ==> s == x)
    decreases depth[x]
  {
    assert Linked(sc, depth, bound, x);
    if x != s {
      ChainFacts(sc, depth, bound, sc.surfaces[x].parent.value, s);
    }
  }

  /** One ancestor per level. */
  lemma {:induction false} ChainUnique(sc: Scene, depth: map<SurfaceId, nat>, bound: nat, x: SurfaceId, s: SurfaceId, t: SurfaceId)
    requires Forest(sc, depth, bound) && x in sc.surfaces
    requires Chain(sc, depth, bound, x, s) && Chain(sc, depth, bound, x, t)
    requires s in sc.surfaces && t in sc.surfaces && depth[s] == depth[t]
    ensures s == t
    decreases depth[x]
  {
    ChainFacts(sc, depth, bound, x, s);
    ChainFacts(sc, depth, bound, x, t);
    if x != s {
      assert Linked(sc, depth, bound, x);
      ChainUnique(sc, depth, bound, sc.surfaces[x].parent.value, s, t);
    }
  }

  ghost predicate ChainInto(sc: Scene, depth: map<SurfaceId, nat>, bound: nat, x: SurfaceId, cs: seq<SurfaceId>)
    requires Forest(sc, depth, bound) && x in sc.surfaces
  {
    exists c :: c in cs && Chain(sc, depth, bound, x, c)
  }

  /** Seen from the top: a chain into s passes through exactly one of its children. */
  lemma {:induction false} ChainThroughChild(sc: Scene, depth: map<SurfaceId, nat>, bound: nat, x: SurfaceId, s: SurfaceId)
    requires Forest(sc, depth, bound) && x in sc.surfaces && s in sc.surfaces && x != s && Open(sc, s)
    ensures Chain(sc, depth, bound, x, s) <==> ChainInto(sc, depth, bound, x, sc.surfaces[s].children)
    decreases depth[x]
  {
    assert Linked(sc, depth, bound, x) && Linked(sc, depth, bound, s);
    var kids := sc.surfaces[s].children;
    var p := sc.surfaces[x].parent;
    if Open(sc, x) && p.Some? {
      if p.value == s {
        assert Linked(sc, depth, bound, s);
        assert x in kids && Chain(sc, depth, bound, x, x);
      } else {
        ChainThroughChild(sc, depth, bound, p.value, s);
        forall c | c in kids && Chain(sc, depth, bound, x, c)
          ensures Chain(sc, depth, bound, x, s)
        {
          assert sc.surfaces[c].parent == Some(s);
        }
        if Chain(sc, depth, bound, p.value, s) {
          var c :| c in kids && Chain(sc, depth, bound, p.value, c);
          assert Chain(sc, depth, bound, x, c);
        }
      }
    }
  }

  ghost function Bit(b: bool): nat {
    if b then 1 else 0
  }

  /** A tree draw reaches each surface below it at most once, and exactly along open chains. */
  lemma {:induction false} TreeCount(sc: Scene, depth: map<SurfaceId, nat>, bound: nat, s: SurfaceId, x: SurfaceId)
    requires Forest(sc, depth, bound) && s in sc.surfaces && x in sc.surfaces
    ensures multiset(DrawTree(sc, depth, bound, s))[x] == Bit(Chain(sc, depth, bound, x, s))
    decreases bound - depth[s], 0
  {
    if !Open(sc, s) {
      if Chain(sc, depth, bound, x, s) {
        ChainFacts(sc, depth, bound, x, s);
      }
    } else {
      ChildrenOneBelow(sc, depth, bound, s);
      var kids := sc.surfaces[s].children;
      ListCount(sc, depth, bound, depth[s] + 1, kids, x);
      OpenTreeChain(sc, depth, bound, s, x);
      CountCons(s, DrawList(sc, depth, bound, depth[s] + 1, kids), x);
    }
  }

  lemma OpenTreeChain(sc: Scene, depth: map<SurfaceId, nat>, bound: nat, s: SurfaceId, x: SurfaceId)
    requires Forest(sc, depth, bound) && s in sc.surfaces && x in sc.surfaces && Open(sc, s)
    ensures Bit(Chain(sc, depth, bound, x, s)) == Bit(x == s) + Bit(ChainInto(sc, depth, bound, x, sc.surfaces[s].children))
  {
    if x == s {
      NotUnderOwnChild(sc, depth, bound, s);
    } else {
      ChainThroughChild(sc, depth, bound, x, s);
    }
  }

  lemma CountCons(s: SurfaceId, rest: seq<SurfaceId>, x: SurfaceId)
    ensures multiset([s] + rest)[x] == Bit(x == s) + multiset(rest)[x]
  {
  }

  lemma NotUnderOwnChild(sc: Scene, depth: map<SurfaceId, nat>, bound: nat, s: SurfaceId)
    requires Forest(sc, depth, bound) && s in sc.surfaces
    ensures !ChainInto(sc, depth, bound, s, sc.surfaces[s].children)
  {
    assert Linked(sc, depth, bound, s);
    forall c | c in sc.surfaces[s].children
      ensures !Chain(sc, depth, bound, s, c)
    {
      assert Linked(sc, depth, bound, c);
      if Chain(sc, depth, bound, s, c) {
        ChainFacts(sc, depth, bound, s, c);
      }
    }
  }

  lemma {:induction false} ListCount(sc: Scene, depth: map<SurfaceId, nat>, bound: nat, level: nat, cs: seq<SurfaceId>, x: SurfaceId)
    requires Forest(sc, depth, bound) && AllAt(sc, depth, bound, level, cs) && NoDup(cs) && x in sc.surfaces
    ensures multiset(DrawList(sc, depth, bound, level, cs))[x] == Bit(ChainInto(sc, depth, bound, x, cs))
    decreases bound - level, 1 + |cs|
  {
    if cs != [] {
      TreeCount(sc, depth, bound, cs[0], x);
      ListCount(sc, depth, bound, level, cs[1..], x);
      if Chain(sc, depth, bound, x, cs[0]) && ChainInto(sc, depth, bound, x, cs[1..]) {
        var c :| c in cs[1..] && Chain(sc, depth, bound, x, c);
        ChainUnique(sc, depth, bound, x, cs[0], c);
        assert false;
      }
      assert forall c :: c in cs <==> c == cs[0] || c in cs[1..];
    }
  }

  /* ---------- the passes over the roots ---------- */

  /** is_tiny_viewport_underlay */
  predicate TinyUnderlay(x: Surface) {
    x.shows && x.viewport && x.area <= 256
  }

  /** The four loops of trierarch_renderer_render, in order. */
  predicate InPass(sc: Scene, pass: nat, s: SurfaceId)
    requires s in sc.surfaces
  {
    var x := sc.surfaces[s];
    && x.parent == None
    && match pass
       case 0 => x.layer == Some(Background)
       case 1 => sc.cursor != Some(s) && TinyUnderlay(x)
       case 2 => sc.cursor != Some(s) && (x.layer == None || x.layer == Some(Bottom)) && !TinyUnderlay(x)
       case 3 => x.layer == Some(Top) || x.layer == Some(Overlay)
       case _ => false
  }

  function DrawPass(sc: Scene, ghost depth: map<SurfaceId, nat>, ghost bound: nat, pass: nat, order: seq<SurfaceId>): seq<SurfaceId>
    requires Forest(sc, depth, bound) && forall s :: s in order ==> s in sc.surfaces
  {
    if order == [] then []
    else (if InPass(sc, pass, order[0]) then DrawTree(sc, depth, bound, order[0]) else [])
         + DrawPass(sc, depth, bound, pass, order[1..])
  }

  function DrawCursor(sc: Scene): seq<SurfaceId> {
    if sc.cursorVisible && sc.cursor.Some? && sc.cursor.value in sc.surfaces
       && sc.surfaces[sc.cursor.value].mapped && sc.surfaces[sc.cursor.value].shows
    then [sc.cursor.value] else []
  }

  function DrawAll(sc: Scene, ghost depth: map<SurfaceId, nat>, ghost bound: nat): seq<SurfaceId>
    requires Forest(sc, depth, bound)
  {
    DrawPass(sc, depth, bound, 0, sc.order) + DrawPass(sc, depth, bound, 1, sc.order)
    + DrawPass(sc, depth, bound, 2, sc.order) + DrawPass(sc, depth, bound, 3, sc.order)
    + DrawCursor(sc)
  }

  ghost function Root(sc: Scene, depth: map<SurfaceId, nat>, bound: nat, s: SurfaceId): (r: SurfaceId)
    requires Forest(sc, depth, bound) && s in sc.surfaces
    ensures r in sc.surfaces && sc.surfaces[r].parent == None && depth[r] == 0
    decreases depth[s]
  {
    assert Linked(sc, depth, bound, s);
    var p := sc.surfaces[s].parent;
    if p == None then s else Root(sc, depth, bound, p.value)
  }

  /** From below: an open surface with open ancestors is one chained to its root. */
  lemma {:induction false} OpenAncestorsReachRoot(sc: Scene, depth: map<SurfaceId, nat>, bound: nat, x: SurfaceId)
    requires Forest(sc, depth, bound) && x in sc.surfaces
    ensures Chain(sc, depth, bound, x, Root(sc, depth, bound, x)) <==> Open(sc, x) && AncestorsOpen(sc, depth, bound, x)
    decreases depth[x]
  {
    assert Linked(sc, depth, bound, x);
    var p := sc.surfaces[x].parent;
    if p.Some? {
      OpenAncestorsReachRoot(sc, depth, bound, p.value);
    }
  }

  /** A chain into any root is a chain into the surface's own root. */
  lemma {:induction false} ChainRoot(sc: Scene, depth: map<SurfaceId, nat>, bound: nat, x: SurfaceId, r: SurfaceId)
    requires Forest(sc, depth, bound) && x in sc.surfaces && r in sc.surfaces && sc.surfaces[r].parent == None
    requires Chain(sc, depth, bound, x, r)
    ensures r == Root(sc, depth, bound, x)
    decreases depth[x]
  {
    assert Linked(sc, depth, bound, x);
    if x != r {
      ChainRoot(sc, depth, bound, sc.surfaces[x].parent.value, r);
    }
  }

  lemma {:induction false} PassCount(sc: Scene, depth: map<SurfaceId, nat>, bound: nat, pass: nat, order: seq<SurfaceId>, x: SurfaceId)
    requires Forest(sc, depth, bound) && x in sc.surfaces
    requires NoDup(order) && forall s :: s in order ==> s in sc.surfaces
    ensures var r := Root(sc, depth, bound, x);
      multiset(DrawPass(sc, depth, bound, pass, order))[x]
      == Bit(r in order && InPass(sc, pass, r) && Chain(sc, depth, bound, x, r))
  {
    if order != [] {
      var s, r := order[0], Root(sc, depth, bound, x);
      PassCount(sc, depth, bound, pass, order[1..], x);
      TreeCount(sc, depth, bound, s, x);
      if InPass(sc, pass, s) && Chain(sc, depth, bound, x, s) {
        ChainRoot(sc, depth, bound, x, s);
      }
      assert r in order <==> r == s || r in order[1..];
      assert s !in order[1..];
    }
  }

  /** How many of the four passes draw a root. */
  function Passes(x: Surface): nat {
    if x.layer.Some? && x.layer.value != Bottom && TinyUnderlay(x) then 2 else 1
  }

  /**
    The traversal and the bottom-up test agree on every surface; a surface
    below a root is drawn once per pass its root is in, the cursor once.
   */
  lemma DrawnExactly(sc: Scene, depth: map<SurfaceId, nat>, bound: nat, x: SurfaceId)
    requires Forest(sc, depth, bound) && x in sc.surfaces
    ensures multiset(DrawAll(sc, depth, bound))[x] ==
      if !Participates(sc, depth, bound, x) then 0
      else if sc.cursor == Some(x) then 1
      else Passes(sc.surfaces[Root(sc, depth, bound, x)])
  {
    AllPassesCount(sc, depth, bound, x);
    OpenAncestorsReachRoot(sc, depth, bound, x);
    CountConcat(DrawPass(sc, depth, bound, 0, sc.order), DrawPass(sc, depth, bound, 1, sc.order),
                DrawPass(sc, depth, bound, 2, sc.order), DrawPass(sc, depth, bound, 3, sc.order), DrawCursor(sc), x);
  }

  ghost function CountIn(sc: Scene, depth: map<SurfaceId, nat>, bound: nat, pass: nat, x: SurfaceId): nat
    requires Forest(sc, depth, bound)
  {
    multiset(DrawPass(sc, depth, bound, pass, sc.order))[x]
  }

  lemma AllPassesCount(sc: Scene, depth: map<SurfaceId, nat>, bound: nat, x: SurfaceId)
    requires Forest(sc, depth, bound) && x in sc.surfaces
    ensures var r := Root(sc, depth, bound, x);
      CountIn(sc, depth, bound, 0, x) + CountIn(sc, depth, bound, 1, x)
      + CountIn(sc, depth, bound, 2, x) + CountIn(sc, depth, bound, 3, x)
      == if Chain(sc, depth, bound, x, r) then Passes(sc.surfaces[r]) else 0
  {
    var r := Root(sc, depth, bound, x);
    PassCount(sc, depth, bound, 0, sc.order, x);
    PassCount(sc, depth, bound, 1, sc.order, x);
    PassCount(sc, depth, bound, 2, sc.order, x);
    PassCount(sc, depth, bound, 3, sc.order, x);
    if Chain(sc, depth, bound, x, r) {
      ChainFacts(sc, depth, bound, x, r);
      PassesOfRoot(sc, r);
    }
  }

  lemma PassesOfRoot(sc: Scene, r: SurfaceId)
    requires Open(sc, r) && sc.surfaces[r].parent == None
    ensures Bit(InPass(sc, 0, r)) + Bit(InPass(sc, 1, r)) + Bit(InPass(sc, 2, r)) + Bit(InPass(sc, 3, r))
            == Passes(sc.surfaces[r])
  {
  }

  lemma CountConcat(a: seq<SurfaceId>, b: seq<SurfaceId>, c: seq<SurfaceId>, d: seq<SurfaceId>, e: seq<SurfaceId>, x: SurfaceId)
    ensures multiset(a + b + c + d + e)[x]
            == multiset(a)[x] + multiset(b)[x] + multiset(c)[x] + multiset(d)[x] + multiset(e)[x]
  {
  }

  lemma DrawnIffParticipates(sc: Scene, depth: map<SurfaceId, nat>, bound: nat, x: SurfaceId)
    requires Forest(sc, depth, bound) && x in sc.surfaces
    ensures x in DrawAll(sc, depth, bound) <==> Participates(sc, depth, bound, x)
  {
    DrawnExactly(sc, depth, bound, x);
    assert x in DrawAll(sc, depth, bound) <==> x in multiset(DrawAll(sc, depth, bound));
  }

  /* ---------- the order of painting ---------- */

  /** x is s or lies somewhere beneath it. */
  ghost predicate Under(sc: Scene, depth: map<SurfaceId, nat>, bound: nat, x: SurfaceId, s: SurfaceId)
    requires Forest(sc, depth, bound) && x in sc.surfaces
    decreases depth[x]
  {
    assert Linked(sc, depth, bound, x);
    x == s || (sc.surfaces[x].parent.Some? && Under(sc, depth, bound, sc.surfaces[x].parent.value, s))
  }

  predicate Earlier(list: seq<SurfaceId>, a: SurfaceId, b: SurfaceId) {
    exists i, j :: 0 <= i < j < |list| && list[i] == a && list[j] == b
  }

  /** Two branches that hang off one list, a before b, with x in the first and y in the second. */
  ghost predicate Branches(sc: Scene, depth: map<SurfaceId, nat>, bound: nat, list: seq<SurfaceId>, x: SurfaceId, y: SurfaceId)
    requires Forest(sc, depth, bound) && x in sc.surfaces && y in sc.surfaces
  {
    exists a, b :: Earlier(list, a, b) && Under(sc, depth, bound, x, a) && Under(sc, depth, bound, y, b)
  }

  /** In one tree x is painted below y: y lies beneath x, or x is in the branch of an earlier sibling. */
  ghost predicate BelowInTree(sc: Scene, depth: map<SurfaceId, nat>, bound: nat, x: SurfaceId, y: SurfaceId)
    requires Forest(sc, depth, bound) && x in sc.surfaces && y in sc.surfaces
  {
    || (x != y && Under(sc, depth, bound, y, x))
    || exists p :: p in sc.surfaces && Branches(sc, depth, bound, sc.surfaces[p].children, x, y)
  }

  /** Across trees: the tree of the root that comes first in the surface list is painted below. */
  ghost predicate Below(sc: Scene, depth: map<SurfaceId, nat>, bound: nat, x: SurfaceId, y: SurfaceId)
    requires Forest(sc, depth, bound) && x in sc.surfaces && y in sc.surfaces
  {
    var r, t := Root(sc, depth, bound, x), Root(sc, depth, bound, y);
    if r == t then BelowInTree(sc, depth, bound, x, y) else Earlier(sc.order, r, t)
  }

  /** Every entry is painted below every later one. */
  ghost predicate Stacked(sc: Scene, depth: map<SurfaceId, nat>, bound: nat, drawn: seq<SurfaceId>)
    requires Forest(sc, depth, bound)
  {
    && (forall i :: 0 <= i < |drawn| ==> drawn[i] in sc.surfaces)
    && (forall i, j :: 0 <= i < j < |drawn| ==> Below(sc, depth, bound, drawn[i], drawn[j]))
  }

  lemma {:induction false} UnderFacts(sc: Scene, depth: map<SurfaceId, nat>, bound: nat, x: SurfaceId, s: SurfaceId)
    requires Forest(sc, depth, bound) && x in sc.surfaces && Under(sc, depth, bound, x, s)
    ensures s in sc.surfaces && depth[s] <= depth[x] && (depth[s] == depth[x] ==> s == x)
    ensures Root(sc, depth, bound, x) == Root(sc, depth, bound, s)
    ensures sc.surfaces[s].parent.Some? ==> Under(sc, depth, bound, x, sc.surfaces[s].parent.value)
    decreases depth[x]
  {
    assert Linked(sc, depth, bound, x);
    if x != s {
      UnderFacts(sc, depth, bound, sc.surfaces[x].parent.value, s);
    }
  }

  ghost predicate TreeStacked(sc: Scene, depth: map<SurfaceId, nat>, bound: nat, s: SurfaceId, drawn: seq<SurfaceId>)
    requires Forest(sc, depth, bound)
  {
    && (forall i :: 0 <= i < |drawn| ==> drawn[i] in sc.surfaces && Under(sc, depth, bound, drawn[i], s))
    && (forall i, j :: 0 <= i < j < |drawn| ==> BelowInTree(sc, depth, bound, drawn[i], drawn[j]))
  }

  /** The children of p from the n-th on: each entry is in one of their branches. */
  ghost predicate ListStacked(sc: Scene, depth: map<SurfaceId, nat>, bound: nat, cs: seq<SurfaceId>, drawn: seq<SurfaceId>)
    requires Forest(sc, depth, bound)
  {
    && (forall i :: 0 <= i < |drawn| ==> drawn[i] in sc.surfaces && UnderSome(sc, depth, bound, drawn[i], cs))
    && (forall i, j :: 0 <= i < j < |drawn| ==> BelowInTree(sc, depth, bound, drawn[i], drawn[j]))
  }

  ghost predicate UnderSome(sc: Scene, depth: map<SurfaceId, nat>, bound: nat, x: SurfaceId, cs: seq<SurfaceId>)
    requires Forest(sc, depth, bound) && x in sc.surfaces
  {
    exists k :: 0 <= k < |cs| && Under(sc, depth, bound, x, cs[k])
  }

  lemma {:induction false} TreeIsStacked(sc: Scene, depth: map<SurfaceId, nat>, bound: nat, s: SurfaceId)
    requires Forest(sc, depth, bound) && s in sc.surfaces
    ensures TreeStacked(sc, depth, bound, s, DrawTree(sc, depth, bound, s))
    decreases bound - depth[s], 0
  {
    if Open(sc, s) {
      ChildrenOneBelow(sc, depth, bound, s);
      var kids := sc.surfaces[s].children;
      assert kids[0..] == kids;
      ListIsStacked(sc, depth, bound, s, 0);
      var rest := DrawList(sc, depth, bound, depth[s] + 1, kids);
      forall i | 0 <= i < |rest|
        ensures Under(sc, depth, bound, rest[i], s) && rest[i] != s
      {
        BeneathChild(sc, depth, bound, s, rest[i]);
      }
      FirstBelow(sc, depth, bound, s, rest);
    }
  }

  lemma {:induction false} BeneathChild(sc: Scene, depth: map<SurfaceId, nat>, bound: nat, s: SurfaceId, x: SurfaceId)
    requires Forest(sc, depth, bound) && s in sc.surfaces && x in sc.surfaces
    requires UnderSome(sc, depth, bound, x, sc.surfaces[s].children)
    ensures Under(sc, depth, bound, x, s) && x != s
  {
    var kids := sc.surfaces[s].children;
    var k :| 0 <= k < |kids| && Under(sc, depth, bound, x, kids[k]);
    assert Linked(sc, depth, bound, s);
    assert kids[k] in kids;
    assert Linked(sc, depth, bound, kids[k]);
    UnderFacts(sc, depth, bound, x, kids[k]);
  }

  lemma {:induction false} FirstBelow(sc: Scene, depth: map<SurfaceId, nat>, bound: nat, s: SurfaceId, rest: seq<SurfaceId>)
    requires Forest(sc, depth, bound) && s in sc.surfaces && ListStacked(sc, depth, bound, sc.surfaces[s].children, rest)
    requires forall i :: 0 <= i < |rest| ==> Under(sc, depth, bound, rest[i], s) && rest[i] != s
    ensures TreeStacked(sc, depth, bound, s, [s] + rest)
  {
    var drawn := [s] + rest;
    forall i, j | 0 <= i < j < |drawn|
      ensures drawn[i] in sc.surfaces && drawn[j] in sc.surfaces && BelowInTree(sc, depth, bound, drawn[i], drawn[j])
    {
      assert drawn[j] == rest[j - 1];
      if i > 0 {
        assert drawn[i] == rest[i - 1];
      }
    }
  }

  lemma {:induction false} ListIsStacked(sc: Scene, depth: map<SurfaceId, nat>, bound: nat, p: SurfaceId, n: nat)
    requires Forest(sc, depth, bound) && p in sc.surfaces && n <= |sc.surfaces[p].children|
    requires AllAt(sc, depth, bound, depth[p] + 1, sc.surfaces[p].children[n..])
    ensures var cs := sc.surfaces[p].children[n..];
      ListStacked(sc, depth, bound, cs, DrawList(sc, depth, bound, depth[p] + 1, cs))
    decreases bound - (depth[p] + 1), 1 + |sc.surfaces[p].children| - n
  {
    var kids := sc.surfaces[p].children;
    var cs := kids[n..];
    if cs != [] {
      assert cs[1..] == kids[n + 1..] && cs[0] in cs;
      TreeIsStacked(sc, depth, bound, cs[0]);
      ListIsStacked(sc, depth, bound, p, n + 1);
      AppendStacked(sc, depth, bound, p, n, DrawTree(sc, depth, bound, cs[0]),
                    DrawList(sc, depth, bound, depth[p] + 1, cs[1..]));
    }
  }

  lemma {:induction false} AppendStacked(sc: Scene, depth: map<SurfaceId, nat>, bound: nat, p: SurfaceId, n: nat,
                                         tree: seq<SurfaceId>, rest: seq<SurfaceId>)
    requires Forest(sc, depth, bound) && p in sc.surfaces && n < |sc.surfaces[p].children|
    requires TreeStacked(sc, depth, bound, sc.surfaces[p].children[n], tree)
    requires ListStacked(sc, depth, bound, sc.surfaces[p].children[n + 1..], rest)
    ensures ListStacked(sc, depth, bound, sc.surfaces[p].children[n..], tree + rest)
  {
    var kids, drawn := sc.surfaces[p].children, tree + rest;
    forall i | 0 <= i < |drawn|
      ensures drawn[i] in sc.surfaces && UnderSome(sc, depth, bound, drawn[i], kids[n..])
    {
      if i < |tree| {
        assert kids[n..][0] == kids[n];
      } else {
        var k :| 0 <= k < |kids[n + 1..]| && Under(sc, depth, bound, rest[i - |tree|], kids[n + 1..][k]);
        assert kids[n..][k + 1] == kids[n + 1..][k];
      }
    }
    forall i, j | 0 <= i < j < |drawn|
      ensures BelowInTree(sc, depth, bound, drawn[i], drawn[j])
    {
      if i < |tree| <= j {
        var y := rest[j - |tree|];
        var k :| 0 <= k < |kids[n + 1..]| && Under(sc, depth, bound, y, kids[n + 1..][k]);
        assert kids[n + 1..][k] == kids[n + 1 + k];
        assert Earlier(kids, kids[n], kids[n + 1 + k]);
        assert Branches(sc, depth, bound, kids, tree[i], y);
      }
    }
  }

  /** The ancestors of one surface lie beneath each other. */
  lemma {:induction false} UnderBetween(sc: Scene, depth: map<SurfaceId, nat>, bound: nat, x: SurfaceId, s: SurfaceId, t: SurfaceId)
    requires Forest(sc, depth, bound) && x in sc.surfaces && s in sc.surfaces && t in sc.surfaces
    requires Under(sc, depth, bound, x, s) && Under(sc, depth, bound, x, t) && depth[s] <= depth[t]
    ensures Under(sc, depth, bound, t, s) && (depth[s] == depth[t] ==> s == t)
    decreases depth[x]
  {
    assert Linked(sc, depth, bound, x);
    if x != t {
      UnderFacts(sc, depth, bound, x, s);
      UnderFacts(sc, depth, bound, x, t);
      UnderBetween(sc, depth, bound, sc.surfaces[x].parent.value, s, t);
    } else {
      UnderFacts(sc, depth, bound, x, s);
    }
  }

  lemma {:induction false} UnderTrans(sc: Scene, depth: map<SurfaceId, nat>, bound: nat, x: SurfaceId, s: SurfaceId, t: SurfaceId)
    requires Forest(sc, depth, bound) && x in sc.surfaces && s in sc.surfaces
    requires Under(sc, depth, bound, x, s) && Under(sc, depth, bound, s, t)
    ensures Under(sc, depth, bound, x, t)
    decreases depth[x]
  {
    assert Linked(sc, depth, bound, x);
    if x != s {
      UnderTrans(sc, depth, bound, sc.surfaces[x].parent.value, s, t);
    }
  }

  /** Branches of one parent have nothing in common. */
  lemma {:induction false} BranchesApart(sc: Scene, depth: map<SurfaceId, nat>, bound: nat, p: SurfaceId, a: SurfaceId, b: SurfaceId)
    requires Forest(sc, depth, bound) && p in sc.surfaces && Earlier(sc.surfaces[p].children, a, b)
    ensures a in sc.surfaces && b in sc.surfaces && depth[a] == depth[p] + 1 == depth[b] && a != b
    ensures sc.surfaces[a].parent == sc.surfaces[b].parent == Some(p) && !Earlier(sc.surfaces[p].children, b, a)
    ensures forall x :: x in sc.surfaces && Under(sc, depth, bound, x, a) ==> !Under(sc, depth, bound, x, b)
  {
    assert Linked(sc, depth, bound, p);
    assert Linked(sc, depth, bound, a) && Linked(sc, depth, bound, b);
    forall x | x in sc.surfaces && Under(sc, depth, bound, x, a)
      ensures !Under(sc, depth, bound, x, b)
    {
      if Under(sc, depth, bound, x, b) {
        UnderBetween(sc, depth, bound, x, a, b);
      }
    }
  }

  /** Two pairs of branches cannot order the same two surfaces both ways. */
  lemma {:induction false} BranchesAgree(sc: Scene, depth: map<SurfaceId, nat>, bound: nat, x: SurfaceId, y: SurfaceId,
                                         p: SurfaceId, a: SurfaceId, b: SurfaceId, q: SurfaceId, c: SurfaceId, d: SurfaceId)
    requires Forest(sc, depth, bound) && x in sc.surfaces && y in sc.surfaces && p in sc.surfaces && q in sc.surfaces
    requires Earlier(sc.surfaces[p].children, a, b) && Under(sc, depth, bound, x, a) && Under(sc, depth, bound, y, b)
    requires Earlier(sc.surfaces[q].children, c, d) && depth[p] <= depth[q]
    ensures !(Under(sc, depth, bound, y, c) && Under(sc, depth, bound, x, d))
  {
    BranchesApart(sc, depth, bound, p, a, b);
    BranchesApart(sc, depth, bound, q, c, d);
    if Under(sc, depth, bound, y, c) && Under(sc, depth, bound, x, d) {
      UnderBetween(sc, depth, bound, x, a, d);
      UnderBetween(sc, depth, bound, y, b, c);
    }
  }

  /** The order of painting has no two surfaces below each other. */
  lemma {:induction false} BelowIsStrict(sc: Scene, depth: map<SurfaceId, nat>, bound: nat, x: SurfaceId, y: SurfaceId)
    requires Forest(sc, depth, bound) && x in sc.surfaces && y in sc.surfaces
    requires Below(sc, depth, bound, x, y)
    ensures !Below(sc, depth, bound, y, x)
  {
    if Root(sc, depth, bound, x) == Root(sc, depth, bound, y) {
      StrictInTree(sc, depth, bound, x, y);
    }
  }

  lemma {:induction false} StrictInTree(sc: Scene, depth: map<SurfaceId, nat>, bound: nat, x: SurfaceId, y: SurfaceId)
    requires Forest(sc, depth, bound) && x in sc.surfaces && y in sc.surfaces && BelowInTree(sc, depth, bound, x, y)
    ensures !BelowInTree(sc, depth, bound, y, x)
  {
    if x != y && Under(sc, depth, bound, y, x) {
      AncestorFirst(sc, depth, bound, x, y);
    } else {
      var p :| p in sc.surfaces && Branches(sc, depth, bound, sc.surfaces[p].children, x, y);
      var a, b :| Earlier(sc.surfaces[p].children, a, b) && Under(sc, depth, bound, x, a) && Under(sc, depth, bound, y, b);
      if x != y && Under(sc, depth, bound, x, y) {
        AncestorFirst(sc, depth, bound, y, x);
      }
      forall q | q in sc.surfaces
        ensures !Branches(sc, depth, bound, sc.surfaces[q].children, y, x)
      {
        BranchedOnce(sc, depth, bound, x, y, p, a, b, q);
      }
    }
  }

  lemma {:induction false} BranchedOnce(sc: Scene, depth: map<SurfaceId, nat>, bound: nat, x: SurfaceId, y: SurfaceId,
                                        p: SurfaceId, a: SurfaceId, b: SurfaceId, q: SurfaceId)
    requires Forest(sc, depth, bound) && x in sc.surfaces && y in sc.surfaces && p in sc.surfaces && q in sc.surfaces
    requires Earlier(sc.surfaces[p].children, a, b) && Under(sc, depth, bound, x, a) && Under(sc, depth, bound, y, b)
    ensures !Branches(sc, depth, bound, sc.surfaces[q].children, y, x)
  {
    forall c, d | Earlier(sc.surfaces[q].children, c, d) && Under(sc, depth, bound, y, c)
      ensures !Under(sc, depth, bound, x, d)
    {
      if depth[p] <= depth[q] {
        BranchesAgree(sc, depth, bound, x, y, p, a, b, q, c, d);
      } else if Under(sc, depth, bound, x, d) {
        BranchesAgree(sc, depth, bound, y, x, q, c, d, p, a, b);
      }
    }
  }

  lemma {:induction false} AncestorFirst(sc: Scene, depth: map<SurfaceId, nat>, bound: nat, x: SurfaceId, y: SurfaceId)
    requires Forest(sc, depth, bound) && x in sc.surfaces && y in sc.surfaces && x != y && Under(sc, depth, bound, y, x)
    ensures !BelowInTree(sc, depth, bound, y, x)
  {
    UnderFacts(sc, depth, bound, y, x);
    if Under(sc, depth, bound, x, y) {
      UnderFacts(sc, depth, bound, x, y);
    }
    forall p | p in sc.surfaces
      ensures !Branches(sc, depth, bound, sc.surfaces[p].children, y, x)
    {
      if Branches(sc, depth, bound, sc.surfaces[p].children, y, x) {
        var a, b :| Earlier(sc.surfaces[p].children, a, b) && Under(sc, depth, bound, y, a) && Under(sc, depth, bound, x, b);
        BranchesApart(sc, depth, bound, p, a, b);
        UnderTrans(sc, depth, bound, y, x, b);
      }
    }
  }

  /** One pass over the surface list from its n-th entry on. */
  lemma {:induction false} PassIsStacked(sc: Scene, depth: map<SurfaceId, nat>, bound: nat, pass: nat, n: nat)
    requires Forest(sc, depth, bound) && n <= |sc.order| && forall s :: s in sc.order[n..] ==> s in sc.surfaces
    ensures var drawn := DrawPass(sc, depth, bound, pass, sc.order[n..]);
      && Stacked(sc, depth, bound, drawn)
      && forall i :: 0 <= i < |drawn| ==> Root(sc, depth, bound, drawn[i]) in sc.order[n..]
                                          && InPass(sc, pass, Root(sc, depth, bound, drawn[i]))
    decreases |sc.order| - n
  {
    var order := sc.order[n..];
    if order != [] {
      var s := order[0];
      assert order[1..] == sc.order[n + 1..] && s in order;
      PassIsStacked(sc, depth, bound, pass, n + 1);
      if InPass(sc, pass, s) {
        TreeIsStacked(sc, depth, bound, s);
        AppendPass(sc, depth, bound, pass, n, DrawTree(sc, depth, bound, s), DrawPass(sc, depth, bound, pass, order[1..]));
      } else {
        assert DrawPass(sc, depth, bound, pass, order) == DrawPass(sc, depth, bound, pass, order[1..]);
      }
    }
  }

  lemma {:induction false} AppendPass(sc: Scene, depth: map<SurfaceId, nat>, bound: nat, pass: nat, n: nat,
                                      tree: seq<SurfaceId>, rest: seq<SurfaceId>)
    requires Forest(sc, depth, bound) && n < |sc.order| && sc.order[n] in sc.surfaces && InPass(sc, pass, sc.order[n])
    requires TreeStacked(sc, depth, bound, sc.order[n], tree) && Stacked(sc, depth, bound, rest)
    requires forall i :: 0 <= i < |rest| ==> Root(sc, depth, bound, rest[i]) in sc.order[n + 1..]
                                             && InPass(sc, pass, Root(sc, depth, bound, rest[i]))
    ensures Stacked(sc, depth, bound, tree + rest)
    ensures forall i :: 0 <= i < |tree + rest| ==> Root(sc, depth, bound, (tree + rest)[i]) in sc.order[n..]
                                                   && InPass(sc, pass, Root(sc, depth, bound, (tree + rest)[i]))
  {
    var s, drawn := sc.order[n], tree + rest;
    assert Root(sc, depth, bound, s) == s;
    forall i | 0 <= i < |drawn|
      ensures drawn[i] in sc.surfaces && Root(sc, depth, bound, drawn[i]) in sc.order[n..]
      ensures InPass(sc, pass, Root(sc, depth, bound, drawn[i])) && (i < |tree| ==> Root(sc, depth, bound, drawn[i]) == s)
    {
      if i < |tree| {
        UnderFacts(sc, depth, bound, tree[i], s);
        assert sc.order[n..][0] == s;
      } else {
        assert drawn[i] == rest[i - |tree|];
        assert sc.order[n..] == [s] + sc.order[n + 1..];
      }
    }
    forall i, j | 0 <= i < j < |drawn|
      ensures Below(sc, depth, bound, drawn[i], drawn[j])
    {
      if i < |tree| <= j {
        LaterRoot(sc, n, Root(sc, depth, bound, drawn[j]));
      }
    }
  }

  lemma LaterRoot(sc: Scene, n: nat, t: SurfaceId)
    requires NoDup(sc.order) && n < |sc.order| && t in sc.order[n + 1..]
    ensures Earlier(sc.order, sc.order[n], t) && t != sc.order[n]
  {
    var k :| 0 <= k < |sc.order[n + 1..]| && sc.order[n + 1..][k] == t;
    assert sc.order[n + 1 + k] == t;
  }

  /** What each pass is for, by the root's layer. */
  predicate BelongsTo(pass: nat, x: Surface) {
    match pass
    case 0 => x.layer == Some(Background)
    case 1 => x.shows && x.viewport && x.area <= 256
    case 2 => (x.layer == None || x.layer == Some(Bottom)) && !(x.shows && x.viewport && x.area <= 256)
    case 3 => x.layer == Some(Top) || x.layer == Some(Overlay)
    case _ => false
  }

  ghost predicate Painted(sc: Scene, depth: map<SurfaceId, nat>, bound: nat, pass: nat, drawn: seq<SurfaceId>)
    requires Forest(sc, depth, bound)
  {
    && Stacked(sc, depth, bound, drawn)
    && forall i :: 0 <= i < |drawn| ==> BelongsTo(pass, sc.surfaces[Root(sc, depth, bound, drawn[i])])
  }

  /**
    From bottom to top: backgrounds, tiny underlays, windows and bottom layers,
    top layers and overlays, and the cursor over everything.  Within each of
    the four a surface is painted below its descendants, an earlier sibling
    with its whole branch below a later one, and the tree of an earlier root
    below that of a later one.
   */
  ghost predicate PaintedInOrder(sc: Scene, depth: map<SurfaceId, nat>, bound: nat, drawn: seq<SurfaceId>)
    requires Forest(sc, depth, bound)
  {
    exists a: nat, b: nat, c: nat, d: nat :: PaintedWithCuts(sc, depth, bound, drawn, a, b, c, d)
  }

  ghost predicate PaintedWithCuts(sc: Scene, depth: map<SurfaceId, nat>, bound: nat, drawn: seq<SurfaceId>, a: nat, b: nat, c: nat, d: nat)
    requires Forest(sc, depth, bound)
  {
    && a <= b <= c <= d <= |drawn|
    && Painted(sc, depth, bound, 0, drawn[..a])
    && Painted(sc, depth, bound, 1, drawn[a..b])
    && Painted(sc, depth, bound, 2, drawn[b..c])
    && Painted(sc, depth, bound, 3, drawn[c..d])
    && |drawn| <= d + 1 && (forall i :: 0 <= i < |drawn| ==> (sc.cursor == Some(drawn[i]) <==> i == d))
  }

  lemma {:induction false} PassPainted(sc: Scene, depth: map<SurfaceId, nat>, bound: nat, pass: nat)
    requires Forest(sc, depth, bound)
    ensures Painted(sc, depth, bound, pass, DrawPass(sc, depth, bound, pass, sc.order))
  {
    assert sc.order[0..] == sc.order;
    PassIsStacked(sc, depth, bound, pass, 0);
  }

  lemma {:induction false} PassSkipsCursor(sc: Scene, depth: map<SurfaceId, nat>, bound: nat, pass: nat)
    requires Forest(sc, depth, bound)
    ensures sc.cursor.Some? ==> sc.cursor.value !in DrawPass(sc, depth, bound, pass, sc.order)
  {
    var drawn := DrawPass(sc, depth, bound, pass, sc.order);
    PassPainted(sc, depth, bound, pass);
    if sc.cursor.Some? && sc.cursor.value in sc.surfaces {
      var x: SurfaceId := sc.cursor.value;
      PassCount(sc, depth, bound, pass, sc.order, x);
      assert x !in multiset(drawn);
    }
  }

  /** The order in which a composition paints, for every forest. */
  lemma {:induction false} DrawnInOrder(sc: Scene, depth: map<SurfaceId, nat>, bound: nat)
    requires Forest(sc, depth, bound)
    ensures PaintedInOrder(sc, depth, bound, DrawAll(sc, depth, bound))
  {
    var p0, p1 := DrawPass(sc, depth, bound, 0, sc.order), DrawPass(sc, depth, bound, 1, sc.order);
    var p2, p3 := DrawPass(sc, depth, bound, 2, sc.order), DrawPass(sc, depth, bound, 3, sc.order);
    forall pass: nat
      ensures Painted(sc, depth, bound, pass, DrawPass(sc, depth, bound, pass, sc.order))
      ensures sc.cursor.Some? ==> sc.cursor.value !in DrawPass(sc, depth, bound, pass, sc.order)
    {
      PassPainted(sc, depth, bound, pass);
      PassSkipsCursor(sc, depth, bound, pass);
    }
    PutTogether(sc, depth, bound, p0, p1, p2, p3, DrawCursor(sc));
  }

  lemma {:induction false} PutTogether(sc: Scene, depth: map<SurfaceId, nat>, bound: nat,
      p0: seq<SurfaceId>, p1: seq<SurfaceId>, p2: seq<SurfaceId>, p3: seq<SurfaceId>, cursor: seq<SurfaceId>)
    requires Forest(sc, depth, bound)
    requires Painted(sc, depth, bound, 0, p0) && Painted(sc, depth, bound, 1, p1)
    requires Painted(sc, depth, bound, 2, p2) && Painted(sc, depth, bound, 3, p3)
    requires forall x :: x in p0 + p1 + p2 + p3 ==> sc.cursor != Some(x)
    requires |cursor| <= 1 && forall x :: x in cursor ==> sc.cursor == Some(x)
    ensures PaintedInOrder(sc, depth, bound, p0 + p1 + p2 + p3 + cursor)
  {
    var drawn := p0 + p1 + p2 + p3 + cursor;
    var a, b, c, d := |p0|, |p0| + |p1|, |p0| + |p1| + |p2|, |p0| + |p1| + |p2| + |p3|;
    assert drawn[..a] == p0 && drawn[a..b] == p1 && drawn[b..c] == p2 && drawn[c..d] == p3;
    forall i | 0 <= i < |drawn|
      ensures sc.cursor == Some(drawn[i]) <==> i == d
    {
      if i < d {
        assert drawn[i] == (p0 + p1 + p2 + p3)[i];
        assert drawn[i] in p0 + p1 + p2 + p3;
      } else {
        assert drawn[i] == cursor[i - d];
      }
    }
    assert PaintedWithCuts(sc, depth, bound, drawn, a, b, c, d);
  }

  /* ---------- the loops of the renderer ---------- */

  method RunPass(sc: Scene, pass: nat, ghost depth: map<SurfaceId, nat>, ghost bound: nat) returns (drawn: seq<SurfaceId>)
    requires Forest(sc, depth, bound)
    ensures drawn == DrawPass(sc, depth, bound, pass, sc.order)
  {
    drawn := [];
    var i := 0;
    while i < |sc.order|
      invariant 0 <= i <= |sc.order|
      invariant drawn + DrawPass(sc, depth, bound, pass, sc.order[i..]) == DrawPass(sc, depth, bound, pass, sc.order)
    {
      assert sc.order[i..][1..] == sc.order[i + 1..];
      var tree := if InPass(sc, pass, sc.order[i]) then DrawTree(sc, depth, bound, sc.order[i]) else [];
      ConcatAssoc(drawn, tree, DrawPass(sc, depth, bound, pass, sc.order[i + 1..]));
      drawn := drawn + tree;
      i := i + 1;
    }
  }

  /** One composition: what it draws is what the bottom-up test admits. */
  method Compose(sc: Scene, ghost depth: map<SurfaceId, nat>, ghost bound: nat) returns (drawn: seq<SurfaceId>)
    requires Forest(sc, depth, bound)
    ensures drawn == DrawAll(sc, depth, bound)
    ensures forall x :: x in sc.surfaces ==> (x in drawn <==> Participates(sc, depth, bound, x))
    ensures PaintedInOrder(sc, depth, bound, drawn)
  {
    DrawnInOrder(sc, depth, bound);
    var p0 := RunPass(sc, 0, depth, bound);
    var p1 := RunPass(sc, 1, depth, bound);
    var p2 := RunPass(sc, 2, depth, bound);
    var p3 := RunPass(sc, 3, depth, bound);
    drawn := p0 + p1 + p2 + p3 + DrawCursor(sc);
    forall x | x in sc.surfaces
      ensures x in drawn <==> Participates(sc, depth, bound, x)
    {
      DrawnIffParticipates(sc, depth, bound, x);
    }
  }
}
