/** The in-memory reference and the SQLite store, driven by the same runs. */
module LockStep {
  import opened Findings
  import opened Store
  import opened Lifecycle

  predicate SameButId(a: Option<Record>, c: Option<Record>) {
    if a.Some? && c.Some? then a.value == c.value.(finding := c.value.finding.(id := a.value.finding.id)) else a == c
  }

  /** Does this scan insert k under one ID in memory and another in SQL? */
  predicate SplitsNow(s: Scan, k: Key) {
    k.moduleId == s.mod.id &&
    var hits := Hits(s.reports, k.fingerprint);
    hits != [] && hits[0].id != hits[|hits| - 1].id
  }

  predicate Inserts(s: Scan, k: Key, prev: Option<Record>) {
    prev.None? && k.moduleId == s.mod.id && Hits(s.reports, k.fingerprint) != []
  }

  /** One scan keeps the stores equal up to ID; an insertion decides whether IDs agree, anything else keeps it. */
  lemma StepLockStep(who: Key -> Origin, s: Scan, k: Key, a: Option<Record>, c: Option<Record>)
    requires CollectorFields(s) && Attributed(who, s) && Owned(who, k, a) && SameButId(a, c)
    ensures SameButId(Step(Memory, s, k, a), Step(Sqlite, s, k, c))
    ensures Step(Memory, s, k, a) == Step(Sqlite, s, k, c) <==> if Inserts(s, k, a) then !SplitsNow(s, k) else a == c
  {
    StepOwned(who, Memory, s, k, a);
    var hits := Hits(s.reports, k.fingerprint);
    if k.moduleId == s.mod.id && hits != [] {
      assert hits[0] in hits && hits[|hits| - 1] in hits;
      if a.None? {
        InsertedIds(s, k);
      }
    }
  }

  /** Whether the latest insertion of k, not deleted since, gave it two IDs. */
  ghost predicate Split(acts: seq<Action>, k: Key) {
    if acts == [] then false
    else
      var before, m := acts[..|acts| - 1], Run(Memory, acts[..|acts| - 1]);
      match acts[|acts| - 1]
      case DoScan(s) => if Inserts(s, k, Lookup(m, k)) then SplitsNow(s, k) else Split(before, k)
      case DoStatus(_, _) => Split(before, k)
      case DoForget(keys) => !(k in keys && k in m && m[k].finding.status == Resolved) && Split(before, k)
  }

  lemma ActLockStep(who: Key -> Origin, x: Action, k: Key, a: Option<Record>, c: Option<Record>)
    requires x.DoScan? ==> CollectorFields(x.scan) && Attributed(who, x.scan)
    requires Owned(who, k, a) && SameButId(a, c)
    ensures SameButId(ApplyAt(Memory, x, k, a), ApplyAt(Sqlite, x, k, c))
    ensures ApplyAt(Memory, x, k, a) == ApplyAt(Sqlite, x, k, c) <==>
      match x
      case DoScan(s) => if Inserts(s, k, a) then !SplitsNow(s, k) else a == c
      case DoStatus(_, _) => a == c
      case DoForget(keys) => (k in keys && a.Some? && a.value.finding.status == Resolved) || a == c
  {
    if x.DoScan? {
      StepLockStep(who, x.scan, k, a, c);
    }
  }

  /**
   * After every run of scans, status changes and retention deletes, the two stores hold the same
   * records up to ID; and a key has the same ID in both exactly when it is not split.
   */
  lemma {:induction false} StoresAgree(who: Key -> Origin, acts: seq<Action>, k: Key)
    requires OwnedRun(who, acts)
    ensures SameButId(Lookup(Run(Memory, acts), k), Lookup(Run(Sqlite, acts), k))
    ensures Lookup(Run(Memory, acts), k) == Lookup(Run(Sqlite, acts), k) <==> !Split(acts, k)
  {
    if acts == [] {
    } else {
      var n := |acts| - 1;
      PartOwned(who, acts);
      StoresAgree(who, acts[..n], k);
      RunOwned(who, Memory, acts[..n], k);
      RunSnoc(Memory, acts, k);
      RunSnoc(Sqlite, acts, k);
      ActLockStep(who, acts[n], k, Lookup(Run(Memory, acts[..n]), k), Lookup(Run(Sqlite, acts[..n]), k));
    }
  }

  /** And they announce the same findings, up to ID. */
  lemma {:induction false} SameAnnouncements(s: Scan, m: Records, n: Records, reports: seq<Incoming>)
    requires forall k :: SameButId(Lookup(m, k), Lookup(n, k))
    ensures |OpenedBy(s, m, reports)| == |OpenedBy(s, n, reports)|
    ensures forall i :: 0 <= i < |OpenedBy(s, m, reports)| ==>
      OpenedBy(s, m, reports)[i] == OpenedBy(s, n, reports)[i].(id := OpenedBy(s, m, reports)[i].id)
    ensures forall k :: Resolves(s, k, Lookup(m, k)) <==> Resolves(s, k, Lookup(n, k))
  {
    forall k
      ensures Resolves(s, k, Lookup(m, k)) <==> Resolves(s, k, Lookup(n, k))
    {
      assert SameButId(Lookup(m, k), Lookup(n, k));
    }
    if reports == [] {
    } else {
      var inc := reports[|reports| - 1];
      SameAnnouncements(s, m, n, reports[..|reports| - 1]);
      assert SameButId(Lookup(m, KeyIn(s, inc)), Lookup(n, KeyIn(s, inc)));
    }
  }

  /** A scan that inserts k leaves the ID of its last report in memory and that of its first in SQL. */
  lemma InsertedIds(s: Scan, k: Key)
    requires Inserts(s, k, None)
    ensures
      var hits := Hits(s.reports, k.fingerprint);
      var a, c := Step(Memory, s, k, None), Step(Sqlite, s, k, None);
      a.Some? && c.Some? && a.value.finding.id == hits[|hits| - 1].id && c.value.finding.id == hits[0].id
  {
  }

  /** For instance, the first scan of a finding that is reported twice. */
  lemma TwiceReportedSplits(who: Key -> Origin, mod: ModuleInfo, f: Finding)
    requires ValidateForIngest(f).None? && f.resolvedAt == None
    requires who(Key(mod.id, f.fingerprint)) == Origin(f.target, f.check)
    ensures
      var acts, k := [DoScan(TwiceReported(mod, f))], Key(mod.id, f.fingerprint);
      OwnedRun(who, acts) && Split(acts, k) && Lookup(Run(Memory, acts), k) != Lookup(Run(Sqlite, acts), k)
  {
    var acts, k := [DoScan(TwiceReported(mod, f))], Key(mod.id, f.fingerprint);
    assert acts[..0] == [];
    TwiceReportedHits(mod, f);
    TwiceReportedOwned(who, mod, f);
    StoresAgree(who, acts, k);
  }
}
