/**
  The circular doubly linked lists of libwayland, link by link: a list head
  and its elements form a ring, and insertion goes right after a given link.
 */
module WlList {
  import opened Common

  /** A surface's own list head, and its link in its parent's list. */
  datatype Link = Head(surface: nat) | Of(surface: nat)

  /** A link without an entry is null. */
  datatype Links = Links(next: map<Link, Link>, prev: map<Link, Link>)

  function After(i: int, n: int): int {
    if i + 1 == n then 0 else i + 1
  }

  function Before(i: int, n: int): int {
    if i == 0 then n - 1 else i - 1
  }

  predicate Placed(l: Links, c: seq<Link>, i: int)
    requires 0 <= i < |c|
  {
    c[i] in l.next && c[i] in l.prev && l.next[c[i]] == c[After(i, |c|)] && l.prev[c[i]] == c[Before(i, |c|)]
  }

  /** Following `next` from c[0] runs through c and back; `prev` is the inverse. */
  ghost predicate Ring(l: Links, c: seq<Link>) {
    |c| > 0 && NoDup(c) && forall i {:trigger Placed(l, c, i)} :: 0 <= i < |c| ==> Placed(l, c, i)
  }

  /** wl_list_init */
  function Initialised(l: Links, x: Link): Links {
    Links(l.next[x := x], l.prev[x := x])
  }

  /** wl_list_insert */
  function Inserted(l: Links, list: Link, x: Link): Links
    requires list in l.next
  {
    Links(l.next[x := l.next[list]][list := x], l.prev[x := list][l.next[list] := x])
  }

  /** wl_list_remove */
  function Removed(l: Links, x: Link): Links
    requires x in l.next && x in l.prev
  {
    Links(l.next[l.prev[x] := l.next[x]] - {x}, l.prev[l.next[x] := l.prev[x]] - {x})
  }

  lemma {:induction false} InitRing(l: Links, x: Link)
    ensures Ring(Initialised(l, x), [x])
  {
    assert Placed(Initialised(l, x), [x], 0);
  }

  /** A ring none of whose links was written to stays. */
  lemma {:induction false} RingKept(l: Links, l': Links, d: seq<Link>)
    requires Ring(l, d)
    requires forall x :: x in d ==> x in l'.next && x in l'.prev
    requires forall x :: x in d && x in l.next && x in l.prev ==> l'.next[x] == l.next[x] && l'.prev[x] == l.prev[x]
    ensures Ring(l', d)
  {
    forall i | 0 <= i < |d|
      ensures Placed(l', d, i)
    {
      assert Placed(l, d, i);
      assert d[i] in d;
    }
  }

  predicate Disjoint(c: seq<Link>, d: seq<Link>) {
    forall x :: x in c ==> x !in d
  }

  lemma {:induction false} InsertKeeps(l: Links, c: seq<Link>, k: nat, x: Link, d: seq<Link>)
    requires Ring(l, c) && k < |c| && Ring(l, d) && Disjoint(c, d) && x !in d
    ensures c[k] in l.next && Ring(Inserted(l, c[k], x), d)
  {
    assert Placed(l, c, k);
    assert c[k] in c && c[After(k, |c|)] in c;
    forall y | y in d
      ensures y in l.next && y in l.prev
    {
      var i :| 0 <= i < |d| && d[i] == y;
      assert Placed(l, d, i);
    }
    RingKept(l, Inserted(l, c[k], x), d);
  }

  lemma {:induction false} RemoveKeeps(l: Links, c: seq<Link>, k: nat, d: seq<Link>)
    requires Ring(l, c) && k < |c| && Ring(l, d) && Disjoint(c, d)
    ensures c[k] in l.next && c[k] in l.prev && Ring(Removed(l, c[k]), d)
  {
    assert Placed(l, c, k);
    assert c[k] in c && c[After(k, |c|)] in c && c[Before(k, |c|)] in c;
    forall y | y in d
      ensures y in l.next && y in l.prev
    {
      var i :| 0 <= i < |d| && d[i] == y;
      assert Placed(l, d, i);
    }
    RingKept(l, Removed(l, c[k]), d);
  }

  lemma {:induction false} InitKeeps(l: Links, x: Link, d: seq<Link>)
    requires Ring(l, d) && x !in d
    ensures Ring(Initialised(l, x), d)
  {
    forall y | y in d
      ensures y in l.next && y in l.prev
    {
      var i :| 0 <= i < |d| && d[i] == y;
      assert Placed(l, d, i);
    }
    RingKept(l, Initialised(l, x), d);
  }

  function Spliced(c: seq<Link>, k: nat, x: Link): seq<Link>
    requires k < |c|
  {
    c[..k + 1] + [x] + c[k + 1..]
  }

  /** Where entry `i` of the longer ring comes from. */
  function Source(i: int, k: int): int {
    if i <= k then i else i - 1
  }

  lemma {:induction false} SplicedAt(c: seq<Link>, k: nat, x: Link, i: nat)
    requires k < |c| && i <= |c|
    ensures |Spliced(c, k, x)| == |c| + 1 && Spliced(c, k, x)[i] == if i == k + 1 then x else c[Source(i, k)]
  {
  }

  lemma {:induction false} SplicedDistinct(c: seq<Link>, k: nat, x: Link)
    requires k < |c| && NoDup(c) && x !in c
    ensures NoDup(Spliced(c, k, x))
  {
    var d := Spliced(c, k, x);
    forall i, j | 0 <= i < j < |d|
      ensures d[i] != d[j]
    {
      SplicedAt(c, k, x, i);
      SplicedAt(c, k, x, j);
    }
  }

  lemma {:induction false} InsertPlaced(l: Links, c: seq<Link>, k: nat, x: Link, i: nat)
    requires Ring(l, c) && k < |c| && x !in c && i <= |c|
    ensures c[k] in l.next && i < |Spliced(c, k, x)| && Placed(Inserted(l, c[k], x), Spliced(c, k, x), i)
  {
    var n := |c|;
    assert Placed(l, c, k);
    SplicedAt(c, k, x, i);
    SplicedAt(c, k, x, After(i, n + 1));
    SplicedAt(c, k, x, Before(i, n + 1));
    if i != k + 1 {
      var j := Source(i, k);
      assert Placed(l, c, j);
      assert c[j] != x;
      assert j != k ==> c[j] != c[k];
      assert j != After(k, n) ==> c[j] != c[After(k, n)];
    }
  }

  /** Insertion after c[k] puts the new link at place k + 1 of the ring. */
  lemma {:induction false} InsertRing(l: Links, c: seq<Link>, k: nat, x: Link)
    requires Ring(l, c) && k < |c| && x !in c
    ensures c[k] in l.next && Ring(Inserted(l, c[k], x), Spliced(c, k, x))
  {
    assert Placed(l, c, k);
    SplicedDistinct(c, k, x);
    forall i | 0 <= i < |Spliced(c, k, x)|
      ensures Placed(Inserted(l, c[k], x), Spliced(c, k, x), i)
    {
      InsertPlaced(l, c, k, x, i);
    }
  }

  function Cut(c: seq<Link>, k: nat): seq<Link>
    requires k < |c|
  {
    c[..k] + c[k + 1..]
  }

  function CutSource(i: int, k: int): int {
    if i < k then i else i + 1
  }

  lemma {:induction false} CutAt(c: seq<Link>, k: nat, i: nat)
    requires k < |c| && i < |c| - 1
    ensures |Cut(c, k)| == |c| - 1 && Cut(c, k)[i] == c[CutSource(i, k)]
  {
  }

  /** Only the neighbours of a removed link are written to. */
  lemma {:induction false} RemovedLinks(l: Links, c: seq<Link>, k: nat, j: nat)
    requires Ring(l, c) && k < |c| && j < |c| && j != k
    ensures c[k] in l.next && c[k] in l.prev
    ensures
      var l', n := Removed(l, c[k]), |c|;
      && c[j] in l'.next && l'.next[c[j]] == (if j == Before(k, n) then c[After(k, n)] else c[After(j, n)])
      && c[j] in l'.prev && l'.prev[c[j]] == (if j == After(k, n) then c[Before(k, n)] else c[Before(j, n)])
  {
    var n := |c|;
    assert Placed(l, c, k) && Placed(l, c, j);
    assert c[j] != c[k];
    assert j != After(k, n) ==> c[j] != c[After(k, n)];
    assert j != Before(k, n) ==> c[j] != c[Before(k, n)];
  }

  lemma {:induction false} RemovePlaced(l: Links, c: seq<Link>, k: nat, i: nat)
    requires Ring(l, c) && k < |c| && i < |c| - 1
    ensures c[k] in l.next && c[k] in l.prev && i < |Cut(c, k)| && Placed(Removed(l, c[k]), Cut(c, k), i)
  {
    var n, j := |c|, CutSource(i, k);
    RemovedLinks(l, c, k, j);
    CutAt(c, k, i);
    CutAt(c, k, After(i, n - 1));
    CutAt(c, k, Before(i, n - 1));
    CutNeighbours(i, k, n);
  }

  /** Neighbours in the shorter ring, in terms of the longer one. */
  lemma {:induction false} CutNeighbours(i: nat, k: nat, n: nat)
    requires k < n && i < n - 1
    ensures
      var j := CutSource(i, k);
      && CutSource(After(i, n - 1), k) == (if j == Before(k, n) then After(k, n) else After(j, n))
      && CutSource(Before(i, n - 1), k) == (if j == After(k, n) then Before(k, n) else Before(j, n))
  {
  }

  lemma {:induction false} RemoveRing(l: Links, c: seq<Link>, k: nat)
    requires Ring(l, c) && k < |c| && |c| > 1
    ensures c[k] in l.next && c[k] in l.prev && Ring(Removed(l, c[k]), Cut(c, k))
  {
    assert Placed(l, c, k);
    var d := Cut(c, k);
    forall i, j | 0 <= i < j < |d|
      ensures d[i] != d[j]
    {
      CutAt(c, k, i);
      CutAt(c, k, j);
    }
    forall i | 0 <= i < |d|
      ensures Placed(Removed(l, c[k]), d, i)
    {
      RemovePlaced(l, c, k, i);
    }
  }
}
