/**
  The deferred-release list of wayland-host/src/buffer_shm.c.

  A buffer replaced by a commit is linked through its own `deferred_next`
  field until the renderer has finished the frame that may still sample it.
  Nothing stops a buffer from being linked a second time before the next
  flush; that overwrites its link and can make the chain cyclic.
 */
module DeferredRelease {
  import opened Common

  /* ---------- what a flush visits, as a function of the enqueues ---------- */

  /** Entry i is the latest enqueue of its buffer. */
  predicate Latest<T(==)>(es: seq<T>, i: nat)
    requires i < |es|
  {
    forall j :: i < j < |es| ==> es[j] != es[i]
  }

  /** Newest entry first; an entry met before has an already cleared link. */
  function Walk<T(==)>(es: seq<T>, n: nat): seq<T>
    requires n <= |es|
  {
    if n == 0 then []
    else if Latest(es, n - 1) then [es[n - 1]] + Walk(es, n - 1)
    else [es[n - 1]]
  }

  function Visited<T(==)>(es: seq<T>): seq<T> {
    Walk(es, |es|)
  }

  predicate DistinctFrom<T(==)>(es: seq<T>, d: nat) {
    forall i :: d <= i < |es| ==> Latest(es, i)
  }

  /** es[d..] is the longest duplicate-free suffix. */
  predicate LongestDistinctSuffix<T(==)>(es: seq<T>, d: nat) {
    d <= |es| && DistinctFrom(es, d) && (d > 0 ==> !Latest(es, d - 1))
  }

  lemma {:induction false} LongestDistinctSuffixExists<T>(es: seq<T>, n: nat) returns (d: nat)
    requires n <= |es| && DistinctFrom(es, n)
    ensures d <= n && LongestDistinctSuffix(es, d)
  {
    if n > 0 && Latest(es, n - 1) {
      d := LongestDistinctSuffixExists(es, n - 1);
    } else {
      d := n;
    }
  }

  /** One older entry beyond the distinct suffix is visited, if there is one. */
  function FirstVisited(d: nat): nat {
    if d == 0 then 0 else d - 1
  }

  lemma {:induction false} WalkIsSuffix<T>(es: seq<T>, d: nat, n: nat)
    requires LongestDistinctSuffix(es, d) && d <= n <= |es|
    ensures |Walk(es, n)| == n - FirstVisited(d)
    ensures forall i :: 0 <= i < n - FirstVisited(d) ==> Walk(es, n)[i] == es[n - 1 - i]
  {
    if n > d {
      WalkIsSuffix(es, d, n - 1);
    }
  }

  /** The exact visited sequence: the longest distinct suffix, newest first, and one more. */
  lemma VisitedIsLongestDistinctSuffix<T>(es: seq<T>, d: nat)
    requires LongestDistinctSuffix(es, d)
    ensures |Visited(es)| == |es| - FirstVisited(d)
    ensures forall i :: 0 <= i < |Visited(es)| ==> Visited(es)[i] == es[|es| - 1 - i]
  {
    WalkIsSuffix(es, d, |es|);
  }

  /** What follows the first entry of a walk. */
  function WalkRest<T(==)>(es: seq<T>, n: nat): seq<T>
    requires 0 < n <= |es|
  {
    if Latest(es, n - 1) then Walk(es, n - 1) else []
  }

  lemma {:induction false} WalkCons<T>(es: seq<T>, n: nat, bound: multiset<T>)
    requires 0 < n <= |es| && multiset(Walk(es, n - 1)) <= bound
    ensures Walk(es, n) == [es[n - 1]] + WalkRest(es, n) && multiset(WalkRest(es, n)) <= bound
  {
  }

  lemma {:induction false} WalkAtMost<T>(es: seq<T>, n: nat)
    requires n <= |es|
    ensures multiset(Walk(es, n)) <= multiset(es[..n])
  {
    if n > 0 {
      var front := es[..n - 1];
      WalkAtMost(es, n - 1);
      WalkCons(es, n, multiset(front));
      OneMore(es[n - 1], WalkRest(es, n), front);
      Longer(es, n);
    }
  }

  lemma {:induction false} Longer<T>(es: seq<T>, n: nat)
    requires 0 < n <= |es|
    ensures es[..n] == es[..n - 1] + [es[n - 1]]
  {
  }

  lemma {:induction false} OneMore<T>(x: T, a: seq<T>, b: seq<T>)
    requires multiset(a) <= multiset(b)
    ensures multiset([x] + a) <= multiset(b + [x])
  {
    assert multiset([x] + a) == multiset(a) + multiset{x};
    assert multiset(b + [x]) == multiset(b) + multiset{x};
  }

  /** No entry is dropped more often than it was enqueued. */
  lemma VisitedAtMostEnqueued<T>(es: seq<T>)
    ensures multiset(Visited(es)) <= multiset(es)
  {
    WalkAtMost(es, |es|);
    assert es[..|es|] == es;
  }

  lemma SameSizeSubmultiset<T>(a: multiset<T>, b: multiset<T>)
    requires a <= b && |a| == |b|
    ensures a == b
  {
    assert b == a + (b - a);
  }

  /**
    A flush drops every entry exactly as often as it was enqueued precisely
    when at most the oldest entry is enqueued again later.
   */
  lemma NothingLostIff<T>(es: seq<T>)
    ensures multiset(Visited(es)) == multiset(es) <==> DistinctFrom(es, 1)
  {
    var d := LongestDistinctSuffixExists(es, |es|);
    VisitedIsLongestDistinctSuffix(es, d);
    VisitedAtMostEnqueued(es);
    if d <= 1 {
      SameSizeSubmultiset(multiset(Visited(es)), multiset(es));
    } else {
      assert !Latest(es, d - 1);
      assert |multiset(Visited(es))| < |multiset(es)|;
    }
  }

  /* ---------- the intrusive list ---------- */

  class ShmBuffer {
    const id: nat
    var resource: bool
    var references: nat
    var busyUsers: nat
    var deferredNext: ShmBuffer?

    constructor (b: nat)
      ensures id == b && resource && references == 1 && busyUsers == 0 && deferredNext == null
    {
      id, resource, references, busyUsers, deferredNext := b, true, 1, 0, null;
    }
  }

  ghost predicate LinkAt(es: seq<ShmBuffer>, i: nat)
    reads es`deferredNext
    requires i < |es|
  {
    es[i].deferredNext == if i == 0 then null else es[i - 1]
  }

  /** The link of each buffer reflects its latest enqueue only. */
  ghost predicate Linked(es: seq<ShmBuffer>, n: nat)
    reads es`deferredNext
    requires n <= |es|
  {
    forall i :: 0 <= i < n && Latest(es, i) ==> LinkAt(es, i)
  }

  /** A walk over the chain stands at entry n - 1, or at its end. */
  ghost predicate StandsAt(es: seq<ShmBuffer>, n: nat, buffer: ShmBuffer?, cleared: set<ShmBuffer>)
    reads es`deferredNext
  {
    && n <= |es|
    && (forall b :: b in cleared ==> b in es && b.deferredNext == null)
    && (buffer != null ==>
          && n > 0 && buffer == es[n - 1] && Linked(es, n)
          && forall i :: n <= i < |es| ==> es[i] in cleared)
  }

  class DeferredList {
    var head: ShmBuffer?
    ghost var enqueued: seq<ShmBuffer>

    ghost predicate Valid()
      reads this, enqueued`deferredNext
    {
      && head == (if enqueued == [] then null else enqueued[|enqueued| - 1])
      && Linked(enqueued, |enqueued|)
    }

    constructor ()
      ensures Valid() && enqueued == []
    {
      head, enqueued := null, [];
    }

    /** trierarch_defer_buffer_release; a buffer already in the chain is linked again. */
    method Defer(buffer: ShmBuffer)
      requires Valid()
      modifies this, buffer`deferredNext
      ensures Valid() && enqueued == old(enqueued) + [buffer]
    {
      ghost var es := enqueued;
      buffer.deferredNext := head;
      head := buffer;
      enqueued := es + [buffer];
      forall i | 0 <= i < |enqueued| && Latest(enqueued, i)
        ensures LinkAt(enqueued, i)
      {
        if i < |es| {
          assert enqueued[|es|] == buffer;
          assert Latest(es, i) by {
            assert forall j :: i < j < |es| ==> es[j] == enqueued[j];
          }
          assert LinkAt(es, i);
        }
      }
    }

    /** The chain is detached from its head before it is walked. */
    method Take() returns (first: ShmBuffer?)
      requires Valid()
      modifies this
      ensures Valid() && enqueued == []
      ensures StandsAt(old(enqueued), |old(enqueued)|, first, {}) && (first == null <==> old(enqueued) == [])
    {
      first := head;
      head, enqueued := null, [];
    }
  }

  /**
    One step of the walk: the link is read, then cleared. The walk ends at the
    oldest entry, or at one met before, whose link is gone: so it ends on every
    chain, cyclic or not.
   */
  method Unlink(buffer: ShmBuffer, ghost es: seq<ShmBuffer>, ghost n: nat, ghost cleared: set<ShmBuffer>)
    returns (next: ShmBuffer?)
    requires StandsAt(es, n, buffer, cleared)
    modifies buffer`deferredNext
    ensures StandsAt(es, if next == null then n else n - 1, next, cleared + {buffer})
    ensures next == null <==> n == 1 || !Latest(es, n - 1)
    ensures Walk(es, n) == [buffer] + if next == null then [] else Walk(es, n - 1)
  {
    assert if Latest(es, n - 1) then LinkAt(es, n - 1) else buffer in cleared;
    next := buffer.deferredNext;
    buffer.deferredNext := null;
    forall i | 0 <= i < n - 1 && Latest(es, i)
      ensures LinkAt(es, i)
    {
      assert old(LinkAt(es, i));
      assert es[i] != es[n - 1];
    }
  }
}
