/** Small facts about numbers, sets and multisets that several modules use. */
module Basics {

  function Min(a: int, b: int): int { if a <= b then a else b }

  function Pow(b: nat, n: nat): nat {
    if n == 0 then 1 else b * Pow(b, n - 1)
  }

  /** A list without repeats holds each of its elements once. */
  lemma {:induction false} OnceEach<T>(a: seq<T>, x: T)
    requires forall i, j :: 0 <= i < j < |a| ==> a[i] != a[j]
    ensures multiset(a)[x] == if x in a then 1 else 0
  {
    if a == [] {
    } else {
      var n := |a| - 1;
      OnceEach(a[..n], x);
      assert a == a[..n] + [a[n]];
    }
  }

  lemma {:induction false} SubsetSize<T>(a: set<T>, b: set<T>)
    requires a <= b
    ensures |a| <= |b|
  {
    if a == {} {
    } else {
      var x :| x in a;
      SubsetSize(a - {x}, b - {x});
    }
  }

  /** The positions of the elements that satisfy p: all of them, in order. */
  ghost predicate Chosen<T(!new)>(xs: seq<T>, p: T -> bool, at: seq<nat>) {
    && (forall i :: 0 <= i < |at| ==> at[i] < |xs| && p(xs[at[i]]))
    && (forall i, j :: 0 <= i < j < |at| ==> at[i] < at[j])
    && (forall i :: 0 <= i < |xs| && p(xs[i]) ==> i in at)
  }

  /** The elements that satisfy p. */
  function Filter<T>(xs: seq<T>, p: T -> bool): seq<T> {
    if xs == [] then []
    else
      var n := |xs| - 1;
      if p(xs[n]) then Filter(xs[..n], p) + [xs[n]] else Filter(xs[..n], p)
  }

  ghost predicate Picks<T(!new)>(xs: seq<T>, p: T -> bool, at: seq<nat>, found: seq<T>) {
    Chosen(xs, p, at) && |at| == |found| && forall i :: 0 <= i < |at| ==> found[i] == xs[at[i]]
  }

  lemma PicksNext<T(!new)>(xs: seq<T>, x: T, p: T -> bool, at: seq<nat>, found: seq<T>)
    requires Picks(xs, p, at, found) && p(x)
    ensures Picks(xs + [x], p, at + [|xs|], found + [x])
  {
    var all, after := xs + [x], at + [|xs|];
    forall i | 0 <= i < |after|
      ensures after[i] < |all| && p(all[after[i]]) && (found + [x])[i] == all[after[i]]
    {
      assert i < |at| ==> all[at[i]] == xs[at[i]];
    }
    forall i | 0 <= i < |all| && p(all[i])
      ensures i in after
    {
      if i < |xs| {
        assert p(xs[i]) && i in at;
      } else {
        assert after[|at|] == i;
      }
    }
  }

  lemma PicksOver<T(!new)>(xs: seq<T>, x: T, p: T -> bool, at: seq<nat>, found: seq<T>)
    requires Picks(xs, p, at, found) && !p(x)
    ensures Picks(xs + [x], p, at, found)
  {
    var all := xs + [x];
    forall i | 0 <= i < |all| && p(all[i])
      ensures i in at
    {
      assert p(xs[i]);
    }
  }

  /** The filter keeps exactly the elements that satisfy p, in order, repeats included. */
  lemma {:induction false} FilterPicks<T(!new)>(xs: seq<T>, p: T -> bool, found: seq<T>) returns (at: seq<nat>)
    requires found == Filter(xs, p)
    ensures Picks(xs, p, at, found)
  {
    if xs == [] {
      at := [];
    } else {
      var n := |xs| - 1;
      var rest, last := xs[..n], xs[n];
      var before := Filter(rest, p);
      assert xs == rest + [last];
      at := FilterPicks(rest, p, before);
      if p(last) {
        PicksNext(rest, last, p, at, before);
        at := at + [n];
      } else {
        PicksOver(rest, last, p, at, before);
      }
    }
  }
}
