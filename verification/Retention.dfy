/** Retention deletes of resolved records cannot be told from what the engine announces. */
module Retention {
  import opened Basics
  import opened Findings
  import opened Store
  import opened Lifecycle

  /** A finding without what a re-inserted row cannot keep. */
  function Anonymous(f: Finding): Finding { f.(id := "", firstSeen := 0, groupId := None) }

  predicate SameButAnonymous(p: Record, u: Record) {
    p.absentStreak == u.absentStreak && Anonymous(p.finding) == Anonymous(u.finding)
  }

  /** p, in a store with deletes, stands for u, in a store without. */
  predicate StandsFor(p: Option<Record>, u: Option<Record>) {
    if p.None? then !Unresolved(u)
    else u.Some? && SameButAnonymous(p.value, u.value)
  }

  lemma StepStandsFor(who: Key -> Origin, b: Backend, s: Scan, k: Key, p: Option<Record>, u: Option<Record>)
    requires CollectorFields(s) && Attributed(who, s) && Owned(who, k, p) && Owned(who, k, u) && StandsFor(p, u)
    ensures StandsFor(Step(b, s, k, p), Step(b, s, k, u))
  {
    StepOwned(who, b, s, k, p);
    var hits := Hits(s.reports, k.fingerprint);
    if k.moduleId == s.mod.id && hits != [] {
      assert hits[0] in hits && hits[|hits| - 1] in hits;
    }
  }

  function Unpruned(acts: seq<Action>): seq<Action> {
    if acts == [] then []
    else
      var n := |acts| - 1;
      Unpruned(acts[..n]) + if acts[n].DoForget? then [] else [acts[n]]
  }

  /** A status change of k that the unpruned store carries out and the pruned one refuses: k was deleted there. */
  predicate ComesLate(a: Action, k: Key, p: Option<Record>, u: Option<Record>) {
    a.DoStatus? && a.key == k && a.next != Resolved && p.None? && u.Some?
  }

  /** Any action but a delete, applied on both sides: only a late status change can be seen. */
  lemma ActStandsFor(who: Key -> Origin, b: Backend, a: Action, k: Key, p: Option<Record>, u: Option<Record>)
    requires !a.DoForget? && (a.DoScan? ==> CollectorFields(a.scan) && Attributed(who, a.scan))
    requires Owned(who, k, p) && Owned(who, k, u) && StandsFor(p, u)
    ensures StandsFor(ApplyAt(b, a, k, p), ApplyAt(b, a, k, u)) <==> !ComesLate(a, k, p, u)
    ensures Owned(who, k, ApplyAt(b, a, k, p)) && Owned(who, k, ApplyAt(b, a, k, u))
  {
    if a.DoScan? {
      StepStandsFor(who, b, a.scan, k, p, u);
      StepOwned(who, b, a.scan, k, p);
      StepOwned(who, b, a.scan, k, u);
    }
  }

  /** No status change of the run asks for a record that was deleted. */
  ghost predicate NoneLate(b: Backend, acts: seq<Action>, k: Key) {
    acts == [] ||
    (var before := acts[..|acts| - 1];
     NoneLate(b, before, k) &&
     !ComesLate(acts[|acts| - 1], k, Lookup(Run(b, before), k), Lookup(Run(b, Unpruned(before)), k)))
  }

  lemma {:induction false} PrunedRunStandsFor(who: Key -> Origin, b: Backend, acts: seq<Action>, k: Key)
    requires OwnedRun(who, acts) && NoneLate(b, acts, k)
    ensures StandsFor(Lookup(Run(b, acts), k), Lookup(Run(b, Unpruned(acts)), k))
    ensures Owned(who, k, Lookup(Run(b, acts), k)) && Owned(who, k, Lookup(Run(b, Unpruned(acts)), k))
  {
    if acts == [] {
    } else {
      var n := |acts| - 1;
      var a, rest := acts[n], Unpruned(acts[..n]);
      PartOwned(who, acts);
      PrunedRunStandsFor(who, b, acts[..n], k);
      RunSnoc(b, acts, k);
      if a.DoForget? {
        assert Unpruned(acts) == rest;
      } else {
        assert Unpruned(acts)[..|rest|] == rest && Unpruned(acts)[|rest|] == a;
        RunSnoc(b, Unpruned(acts), k);
        ActStandsFor(who, b, a, k, Lookup(Run(b, acts[..n]), k), Lookup(Run(b, rest), k));
      }
    }
  }

  function AnonymousAll(fs: seq<Finding>): seq<Finding> { seq(|fs|, i requires 0 <= i < |fs| => Anonymous(fs[i])) }

  /**
   * A store from which any resolved records were deleted at any times, and the store that kept
   * them, driven by the same scans and by status changes none of which asks for a deleted record,
   * announce the same newly-open list and the same resolved findings at the next scan, whatever
   * order each lists its rows in, up to ID, FirstSeen and GroupID.
   */
  lemma PruningIsInvisible(who: Key -> Origin, b: Backend, acts: seq<Action>, s: Scan, resolved: seq<Finding>,
    resolved': seq<Finding>)
    requires OwnedRun(who, acts) && CollectorFields(s) && Attributed(who, s) && forall k :: NoneLate(b, acts, k)
    requires ListsResolved(resolved, s, Run(b, acts)) && ListsResolved(resolved', s, Run(b, Unpruned(acts)))
    ensures AnonymousAll(OpenedBy(s, Run(b, acts), s.reports)) ==
      AnonymousAll(OpenedBy(s, Run(b, Unpruned(acts)), s.reports))
    ensures multiset(AnonymousAll(resolved)) == multiset(AnonymousAll(resolved'))
  {
    var m, n := Run(b, acts), Run(b, Unpruned(acts));
    forall k
      ensures StandsFor(Lookup(m, k), Lookup(n, k)) && Owned(who, k, Lookup(m, k)) && Owned(who, k, Lookup(n, k))
    {
      PrunedRunStandsFor(who, b, acts, k);
    }
    SameOpened(who, s, m, n, s.reports);
    SameResolved(s, m, n, resolved, resolved');
  }

  lemma OpenedOneStandsFor(who: Key -> Origin, s: Scan, m: Records, n: Records, inc: Incoming)
    requires CollectorFields(s) && Attributed(who, s) && inc in s.reports
    requires StandsFor(Lookup(m, KeyIn(s, inc)), Lookup(n, KeyIn(s, inc)))
    requires Owned(who, KeyIn(s, inc), Lookup(m, KeyIn(s, inc))) && Owned(who, KeyIn(s, inc), Lookup(n, KeyIn(s, inc)))
    ensures AnonymousAll(OpenedOne(s, m, inc)) == AnonymousAll(OpenedOne(s, n, inc))
  {
  }

  lemma {:induction false} SameOpened(who: Key -> Origin, s: Scan, m: Records, n: Records, reports: seq<Incoming>)
    requires CollectorFields(s) && Attributed(who, s) && forall inc :: inc in reports ==> inc in s.reports
    requires forall k :: StandsFor(Lookup(m, k), Lookup(n, k))
    requires forall k :: Owned(who, k, Lookup(m, k)) && Owned(who, k, Lookup(n, k))
    ensures AnonymousAll(OpenedBy(s, m, reports)) == AnonymousAll(OpenedBy(s, n, reports))
  {
    if reports == [] {
    } else {
      var i := |reports| - 1;
      SameOpened(who, s, m, n, reports[..i]);
      OpenedOneStandsFor(who, s, m, n, reports[i]);
      AnonymousConcat(OpenedBy(s, m, reports[..i]), OpenedOne(s, m, reports[i]));
      AnonymousConcat(OpenedBy(s, n, reports[..i]), OpenedOne(s, n, reports[i]));
    }
  }

  lemma AnonymousConcat(a: seq<Finding>, c: seq<Finding>)
    ensures AnonymousAll(a + c) == AnonymousAll(a) + AnonymousAll(c)
  {
  }

  lemma SameResolved(s: Scan, m: Records, n: Records, a: seq<Finding>, c: seq<Finding>)
    requires forall k :: StandsFor(Lookup(m, k), Lookup(n, k))
    requires ListsResolved(a, s, m) && ListsResolved(c, s, n)
    ensures multiset(AnonymousAll(a)) == multiset(AnonymousAll(c))
  {
    forall k
      ensures Resolves(s, k, Lookup(m, k)) <==> Resolves(s, k, Lookup(n, k))
      ensures Resolves(s, k, Lookup(m, k)) ==>
        Anonymous(ResolvedFinding(s, m, k)) == Anonymous(ResolvedFinding(s, n, k))
    {
      assert StandsFor(Lookup(m, k), Lookup(n, k));
    }
    Covers(s, m, n, a, c);
    Covers(s, n, m, c, a);
    SameElements(AnonymousAll(a), AnonymousAll(c));
  }

  lemma Covers(s: Scan, m: Records, n: Records, a: seq<Finding>, c: seq<Finding>)
    requires ListsResolved(a, s, m) && ListsResolved(c, s, n)
    requires forall k :: Resolves(s, k, Lookup(m, k)) ==>
      Resolves(s, k, Lookup(n, k)) && Anonymous(ResolvedFinding(s, m, k)) == Anonymous(ResolvedFinding(s, n, k))
    ensures forall x :: x in AnonymousAll(a) ==> x in AnonymousAll(c)
    ensures forall i, j :: 0 <= i < j < |a| ==> AnonymousAll(a)[i] != AnonymousAll(a)[j]
  {
    forall i | 0 <= i < |a|
      ensures Anonymous(a[i]) in AnonymousAll(c)
    {
      assert IsResolved(a[i], s, m);
      var f := ResolvedFinding(s, n, Key(s.mod.id, a[i].fingerprint));
      assert f in c;
      var j :| 0 <= j < |c| && c[j] == f;
      assert AnonymousAll(c)[j] == Anonymous(f);
    }
    forall i, j | 0 <= i < j < |a|
      ensures AnonymousAll(a)[i] != AnonymousAll(a)[j]
    {
      assert Anonymous(a[i]).fingerprint == a[i].fingerprint;
    }
  }

  /** Two lists without repeats and with the same elements are permutations of each other. */
  lemma SameElements<T>(a: seq<T>, c: seq<T>)
    requires forall i, j :: 0 <= i < j < |a| ==> a[i] != a[j]
    requires forall i, j :: 0 <= i < j < |c| ==> c[i] != c[j]
    requires forall x :: x in a <==> x in c
    ensures multiset(a) == multiset(c)
  {
    forall x: T
      ensures multiset(a)[x] == multiset(c)[x]
    {
      OnceEach(a, x);
      OnceEach(c, x);
    }
  }
}
