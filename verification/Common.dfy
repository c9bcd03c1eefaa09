/** Small vocabulary shared by every component model. */
module Common {

  datatype Option<+T> = None | Some(value: T)

  predicate NoDup<T(==)>(s: seq<T>) {
    forall i, j :: 0 <= i < j < |s| ==> s[i] != s[j]
  }

  lemma NoDupCons<T>(s: seq<T>)
    requires s != []
    ensures NoDup(s) <==> NoDup(s[1..]) && s[0] !in s[1..]
  {
    if NoDup(s[1..]) && s[0] !in s[1..] {
      forall i, j | 0 <= i < j < |s|
        ensures s[i] != s[j]
      {
        assert s[j] == s[1..][j - 1];
        if i > 0 {
          assert s[i] == s[1..][i - 1];
        }
      }
    }
  }

  lemma {:induction false} NoDupOnce<T>(s: seq<T>, x: T)
    requires NoDup(s)
    ensures multiset(s)[x] == if x in s then 1 else 0
  {
    if s != [] {
      NoDupCons(s);
      NoDupOnce(s[1..], x);
      assert s == [s[0]] + s[1..];
    }
  }

  function Reverse<T>(s: seq<T>): seq<T> {
    if s == [] then [] else Reverse(s[1..]) + [s[0]]
  }

  lemma {:induction false} ReverseSplit<T>(s: seq<T>, t: seq<T>)
    ensures Reverse(s + t) == Reverse(t) + Reverse(s)
  {
    if s == [] {
      assert s + t == t;
    } else {
      ReverseSplit(s[1..], t);
      assert (s + t)[1..] == s[1..] + t;
    }
  }

  lemma {:induction false} ReverseMultiset<T>(s: seq<T>)
    ensures multiset(Reverse(s)) == multiset(s)
  {
    if s != [] {
      ReverseMultiset(s[1..]);
      assert s == [s[0]] + s[1..];
    }
  }

  /** Position of the first occurrence. */
  function IndexOf<T(==)>(list: seq<T>, x: T): (i: nat)
    requires x in list
    ensures i < |list| && list[i] == x
  {
    if list[0] == x then 0 else 1 + IndexOf(list[1..], x)
  }

  /** One list entry unlinked. */
  function Without<T(==)>(list: seq<T>, x: T): seq<T> {
    if x !in list then list else var i := IndexOf(list, x); list[..i] + list[i + 1..]
  }

  lemma {:induction false} WithoutIs<T>(list: seq<T>, x: T)
    requires NoDup(list)
    ensures NoDup(Without(list, x)) && (forall y :: y in Without(list, x) <==> y in list && y != x)
    ensures |Without(list, x)| == |list| - if x in list then 1 else 0
  {
    if x in list {
      var i, rest := IndexOf(list, x), Without(list, x);
      forall y | y in list && y != x
        ensures y in rest
      {
        var k :| 0 <= k < |list| && list[k] == y;
        assert y == if k < i then rest[k] else rest[k - 1];
      }
    }
  }

  lemma ConcatAssoc<T>(a: seq<T>, b: seq<T>, c: seq<T>)
    ensures a + (b + c) == (a + b) + c
  {
  }

  function Flatten<T>(ss: seq<seq<T>>): seq<T> {
    if ss == [] then [] else Flatten(ss[..|ss| - 1]) + ss[|ss| - 1]
  }

  function FlatMap<A, B>(f: A -> seq<B>, s: seq<A>): seq<B> {
    if s == [] then [] else FlatMap(f, s[..|s| - 1]) + f(s[|s| - 1])
  }

  lemma {:induction false} FlatMapConcat<A, B>(f: A -> seq<B>, s: seq<A>, t: seq<A>)
    ensures FlatMap(f, s + t) == FlatMap(f, s) + FlatMap(f, t)
    decreases t
  {
    if t == [] {
      assert s + t == s;
    } else {
      var fewer, last := t[..|t| - 1], f(t[|t| - 1]);
      FlatMapConcat(f, s, fewer);
      assert (s + t)[..|s + t| - 1] == s + fewer;
      assert FlatMap(f, s) + FlatMap(f, fewer) + last == FlatMap(f, s) + (FlatMap(f, fewer) + last);
    }
  }

  /** Something about a step, given the steps before it. */
  type Moment<!T> = (seq<T>, T) -> bool

  ghost predicate StartedAt<T>(steps: seq<T>, start: Moment<T>, stop: Moment<T>, k: nat)
    requires k < |steps|
  {
    start(steps[..k], steps[k]) && forall j :: k < j < |steps| ==> !stop(steps[..j], steps[j])
  }

  /** Started by one of the steps and not stopped by a later one. */
  ghost predicate Since<T>(steps: seq<T>, start: Moment<T>, stop: Moment<T>) {
    exists k :: 0 <= k < |steps| && StartedAt(steps, start, stop, k)
  }

  lemma {:induction false} SinceLast<T>(steps: seq<T>, start: Moment<T>, stop: Moment<T>)
    requires steps != []
    ensures var before, last := steps[..|steps| - 1], steps[|steps| - 1];
      Since(steps, start, stop) <==> start(before, last) || (Since(before, start, stop) && !stop(before, last))
  {
    var before, n := steps[..|steps| - 1], |steps| - 1;
    assert forall j :: 0 <= j < n ==> before[..j] == steps[..j];
    if Since(steps, start, stop) {
      var k :| 0 <= k < |steps| && StartedAt(steps, start, stop, k);
      assert k < n ==> StartedAt(before, start, stop, k);
    }
    if start(before, steps[n]) {
      assert StartedAt(steps, start, stop, n);
    } else if Since(before, start, stop) && !stop(before, steps[n]) {
      var k :| 0 <= k < |before| && StartedAt(before, start, stop, k);
      assert StartedAt(steps, start, stop, k);
    }
  }
}
