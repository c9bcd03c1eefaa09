/**
  One wrapper per EGL wl_buffer (wayland-host/src/egl_buffer.c): a resource is
  looked up in the cache list first, and its wrapper leaves the list when the
  resource is destroyed. Resources are addresses, which the allocator may reuse.
 */
module EglCache {
  import opened Common

  type Resource = nat
  type Wrapper = nat

  datatype Entry = Entry(wrapper: Wrapper, resource: Resource)

  /** `returned`: what each lookup so far gave back. */
  datatype State = State(cache: seq<Entry>, made: nat, returned: seq<Entry>)

  const INITIAL := State([], 0, [])

  datatype Step = Lookup(resource: Resource) | Gone(resource: Resource)

  function Find(cache: seq<Entry>, r: Resource): Option<Wrapper> {
    if cache == [] then None
    else if cache[0].resource == r then Some(cache[0].wrapper)
    else Find(cache[1..], r)
  }

  /** The destroy listener of the resource's own wrapper unlinks that wrapper. */
  function Unlinked(cache: seq<Entry>, r: Resource): seq<Entry> {
    if cache == [] then []
    else if cache[0].resource == r then cache[1..]
    else [cache[0]] + Unlinked(cache[1..], r)
  }

  function Apply(st: State, step: Step): State {
    match step
    case Lookup(r) =>
      var found := Find(st.cache, r);
      if found.Some? then st.(returned := st.returned + [Entry(found.value, r)])
      else
        var e := Entry(st.made, r);
        State([e] + st.cache, st.made + 1, st.returned + [e])
    case Gone(r) => st.(cache := Unlinked(st.cache, r))
  }

  function Exec(steps: seq<Step>): State {
    if steps == [] then INITIAL else Apply(Exec(steps[..|steps| - 1]), steps[|steps| - 1])
  }

  /* ---------- reference: whose wrapper a resource has ---------- */

  /** The first lookup since the resource last went, counted among all lookups that had to make a wrapper. */
  function Owner(steps: seq<Step>, r: Resource): Option<Wrapper> {
    if steps == [] then None
    else
      var front, last := steps[..|steps| - 1], steps[|steps| - 1];
      if last.resource != r then Owner(front, r)
      else if last.Gone? then None
      else if Owner(front, r).Some? then Owner(front, r)
      else Some(Made(front))
  }

  /** How many lookups found their resource without a wrapper. */
  function Made(steps: seq<Step>): nat {
    if steps == [] then 0
    else
      var front, last := steps[..|steps| - 1], steps[|steps| - 1];
      Made(front) + if last.Lookup? && Owner(front, last.resource).None? then 1 else 0
  }

  /* ---------- every run ---------- */

  /** One entry per resource, no wrapper twice, and none that was not made. */
  ghost predicate Distinct(cache: seq<Entry>, made: nat) {
    && (forall i :: 0 <= i < |cache| ==> cache[i].wrapper < made)
    && (forall i, j :: 0 <= i < j < |cache| ==>
          cache[i].resource != cache[j].resource && cache[i].wrapper != cache[j].wrapper)
  }

  lemma {:induction false} FindIs(cache: seq<Entry>, r: Resource)
    ensures Find(cache, r) == None <==> forall i :: 0 <= i < |cache| ==> cache[i].resource != r
    ensures Find(cache, r).Some? ==> Entry(Find(cache, r).value, r) in cache
  {
    if cache != [] && cache[0].resource != r {
      FindIs(cache[1..], r);
    }
  }

  lemma {:induction false} FindOther(cache: seq<Entry>, r: Resource, q: Resource, made: nat)
    requires Distinct(cache, made)
    ensures Distinct(Unlinked(cache, r), made)
    ensures Find(Unlinked(cache, r), q) == if q == r then None else Find(cache, q)
    ensures forall e :: e in Unlinked(cache, r) ==> e in cache
  {
    if cache != [] {
      var rest := cache[1..];
      assert Distinct(rest, made);
      if cache[0].resource == r {
        FindIs(rest, r);
      } else {
        FindOther(rest, r, q, made);
        var kept := [cache[0]] + Unlinked(rest, r);
        forall i, j | 0 <= i < j < |kept|
          ensures kept[i].resource != kept[j].resource && kept[i].wrapper != kept[j].wrapper
        {
          assert kept[j] in rest;
        }
        assert kept[1..] == Unlinked(rest, r);
      }
    }
  }

  /** The cache is exactly the map from resources to their owners. */
  lemma {:induction false} CacheIs(steps: seq<Step>, q: Resource)
    ensures
      var st := Exec(steps);
      Distinct(st.cache, st.made) && st.made == Made(steps) && Find(st.cache, q) == Owner(steps, q)
  {
    if steps != [] {
      var front, last := steps[..|steps| - 1], steps[|steps| - 1];
      var st := Exec(front);
      CacheIs(front, q);
      CacheIs(front, last.resource);
      if last.Gone? {
        FindOther(st.cache, last.resource, q, st.made);
      } else if Owner(front, last.resource).None? {
        FindIs(st.cache, last.resource);
        var e := Entry(st.made, last.resource);
        assert ([e] + st.cache)[1..] == st.cache;
      }
    }
  }

  /**
    At most one wrapper per resource: all lookups of a resource between two
    destructions of it return the same wrapper, the one its first lookup made.
   */
  lemma {:induction false} SameWrapper(steps: seq<Step>, more: seq<Step>, r: Resource)
    requires forall i :: 0 <= i < |more| ==> more[i] != Gone(r)
    ensures
      var first := steps + [Lookup(r)];
      var again := first + more + [Lookup(r)];
      && Exec(first).returned != [] && Exec(again).returned != []
      && Exec(again).returned[|Exec(again).returned| - 1] == Exec(first).returned[|Exec(first).returned| - 1]
  {
    var first := steps + [Lookup(r)];
    Returns(steps, r);
    Returns(first + more, r);
    assert first[..|first| - 1] == steps;
    OwnerStays(first, more, r);
  }

  /** After its resource went, a wrapper is never returned again, even if the address comes back. */
  lemma {:induction false} NewWrapperAfterGone(steps: seq<Step>, between: seq<Step>, more: seq<Step>, r: Resource)
    ensures
      var first := steps + [Lookup(r)];
      var again := first + between + [Gone(r)] + more + [Lookup(r)];
      && Exec(first).returned != [] && Exec(again).returned != []
      && Exec(first).returned[|Exec(first).returned| - 1].wrapper < Exec(again).returned[|Exec(again).returned| - 1].wrapper
  {
    var first := steps + [Lookup(r)];
    var gone := first + between + [Gone(r)];
    Returns(steps, r);
    Returns(gone + more, r);
    OwnerBelow(first, r);
    assert first[..|first| - 1] == steps;
    MadeGrows(first, between);
    assert gone[..|gone| - 1] == first + between;
    OwnerIsNew(gone, more, r);
  }

  /** What a lookup returns is the owner it leaves behind. */
  lemma {:induction false} Returns(steps: seq<Step>, r: Resource)
    ensures
      var all := steps + [Lookup(r)];
      && Owner(all, r).Some? && Exec(all).returned != []
      && Exec(all).returned[|Exec(all).returned| - 1] == Entry(Owner(all, r).value, r)
  {
    var all := steps + [Lookup(r)];
    assert all[..|all| - 1] == steps;
    CacheIs(steps, r);
  }

  lemma {:induction false} OwnerStays(steps: seq<Step>, more: seq<Step>, r: Resource)
    requires Owner(steps, r).Some? && forall i :: 0 <= i < |more| ==> more[i] != Gone(r)
    ensures Owner(steps + more, r) == Owner(steps, r) && Owner(steps + more + [Lookup(r)], r) == Owner(steps, r)
    decreases |more|
  {
    var again := steps + more + [Lookup(r)];
    assert again[..|again| - 1] == steps + more;
    if more == [] {
      assert steps + more == steps;
    } else {
      var front := more[..|more| - 1];
      OwnerStays(steps, front, r);
      assert (steps + more)[..|steps + more| - 1] == steps + front;
      assert (steps + more)[|steps + more| - 1] == more[|more| - 1];
    }
  }

  lemma {:induction false} OwnerBelow(steps: seq<Step>, r: Resource)
    ensures Owner(steps, r).Some? ==> Owner(steps, r).value < Made(steps)
  {
    if steps != [] {
      OwnerBelow(steps[..|steps| - 1], r);
    }
  }

  lemma {:induction false} MadeGrows(steps: seq<Step>, more: seq<Step>)
    ensures Made(steps) <= Made(steps + more)
    decreases |more|
  {
    if more == [] {
      assert steps + more == steps;
    } else {
      MadeGrows(steps, more[..|more| - 1]);
      assert (steps + more)[..|steps + more| - 1] == steps + more[..|more| - 1];
    }
  }

  lemma {:induction false} OwnerIsNew(steps: seq<Step>, more: seq<Step>, r: Resource)
    requires Owner(steps, r) == None
    ensures Owner(steps + more, r).Some? ==> Owner(steps + more, r).value >= Made(steps)
    ensures Owner(steps + more + [Lookup(r)], r).Some? && Owner(steps + more + [Lookup(r)], r).value >= Made(steps)
    decreases |more|
  {
    var again := steps + more + [Lookup(r)];
    assert again[..|again| - 1] == steps + more;
    MadeGrows(steps, more);
    if more == [] {
      assert steps + more == steps;
    } else {
      var front := more[..|more| - 1];
      OwnerIsNew(steps, front, r);
      MadeGrows(steps, front);
      assert (steps + more)[..|steps + more| - 1] == steps + front;
      assert (steps + more)[|steps + more| - 1] == more[|more| - 1];
    }
  }

  /* ---------- the cache list ---------- */

  class WrapperCache {
    var cache: seq<Entry>
    var made: nat
    ghost var returned: seq<Entry>
    ghost var history: seq<Step>

    ghost predicate Valid()
      reads this
    {
      State(cache, made, returned) == Exec(history)
    }

    constructor ()
      ensures Valid() && history == []
    {
      cache, made, returned, history := [], 0, [], [];
    }

    /** find_cached: the loop over the list. */
    method FindCached(r: Resource) returns (found: Option<Wrapper>)
      ensures found == Find(cache, r)
    {
      found := None;
      var i := 0;
      assert cache[0..] == cache;
      while i < |cache|
        invariant i <= |cache| && Find(cache, r) == Find(cache[i..], r)
      {
        if cache[i].resource == r {
          return Some(cache[i].wrapper);
        }
        assert cache[i..][1..] == cache[i + 1..];
        i := i + 1;
      }
    }

    /** trierarch_egl_buffer_from_resource */
    method FromResource(r: Resource) returns (w: Wrapper)
      requires Valid()
      modifies this
      ensures Valid() && history == old(history) + [Lookup(r)]
      ensures Owner(history, r) == Some(w)
      ensures cache == if Owner(old(history), r).Some? then old(cache) else [Entry(w, r)] + old(cache)
    {
      CacheIs(history, r);
      Returns(history, r);
      ghost var all := history + [Lookup(r)];
      assert all[..|all| - 1] == history;
      var found := FindCached(r);
      if found.Some? {
        w := found.value;
      } else {
        w := made;
        cache, made := [Entry(w, r)] + cache, made + 1;
      }
      returned, history := returned + [Entry(w, r)], all;
    }

    /** egl_resource_destroyed: the listener of a cached wrapper unlinks that wrapper. */
    method ResourceDestroyed(w: Wrapper, r: Resource)
      requires Valid() && Entry(w, r) in cache
      modifies this
      ensures Valid() && history == old(history) + [Gone(r)] && Owner(history, r) == None
      ensures cache == Without(old(cache), Entry(w, r))
    {
      CacheIs(history, r);
      UnlinkedIs(cache, Entry(w, r), made);
      ghost var all := history + [Gone(r)];
      assert all[..|all| - 1] == history;
      cache := Without(cache, Entry(w, r));
      history := all;
    }
  }

  lemma {:induction false} UnlinkedIs(cache: seq<Entry>, e: Entry, made: nat)
    requires Distinct(cache, made) && e in cache
    ensures Unlinked(cache, e.resource) == Without(cache, e)
  {
    var rest := cache[1..];
    if cache[0].resource == e.resource {
      assert cache[0] == e;
    } else {
      assert Distinct(rest, made) && e in rest;
      UnlinkedIs(rest, e, made);
      WithoutLater(cache, e);
    }
  }

  lemma {:induction false} WithoutLater(cache: seq<Entry>, e: Entry)
    requires e in cache && cache[0] != e
    ensures e in cache[1..] && Without(cache, e) == [cache[0]] + Without(cache[1..], e)
  {
    var rest := cache[1..];
    assert cache[0] != e && e in rest;
    var i := IndexOf(rest, e);
    assert IndexOf(cache, e) == 1 + i;
    CutLater(cache, i);
    assert Without(rest, e) == rest[..i] + rest[i + 1..];
    assert Without(cache, e) == cache[..i + 1] + cache[i + 2..];
  }

  lemma {:induction false} CutLater(cache: seq<Entry>, i: nat)
    requires i + 1 < |cache|
    ensures cache[..i + 1] + cache[i + 2..] == [cache[0]] + (cache[1..][..i] + cache[1..][i + 1..])
  {
    assert cache[..i + 1] == [cache[0]] + cache[1..][..i] && cache[i + 2..] == cache[1..][i + 1..];
  }
}
