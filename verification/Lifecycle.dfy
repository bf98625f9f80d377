/**
 * Whole runs of the finding store: scans of any modules and targets, status changes by users
 * (web/server.go) and retention deletes, in any order.
 */
module Lifecycle {
  import opened Findings
  import opened Store

  datatype Action =
    | DoScan(scan: Scan)
    | DoStatus(key: Key, next: Status)
    | DoForget(keys: set<Key>)

  function WithStatus(r: Record, next: Status): Record { r.(finding := r.finding.(status := next)) }

  function Apply(b: Backend, a: Action, m: Records): Records {
    match a
    case DoScan(s) => Scanned(b, s, m)
    case DoStatus(k, next) => if next != Resolved && k in m then Upserted(b, m, WithStatus(m[k], next)) else m
    case DoForget(keys) => map k | k in m && !(k in keys && m[k].finding.status == Resolved) :: m[k]
  }

  /** The store after a run that started empty. */
  function Run(b: Backend, acts: seq<Action>): Records {
    if acts == [] then map[] else Apply(b, acts[|acts| - 1], Run(b, acts[..|acts| - 1]))
  }

  datatype Reply = Done | BadRequest | NotFound

  /** handleFindingStatus; None stands for a status string outside the four known ones. */
  method HandleFindingStatus(store: FindingStore, moduleId: string, fingerprint: string, requested: Option<Status>)
    returns (reply: Reply)
    requires store.Valid()
    modifies store
    ensures store.Valid()
    ensures reply == BadRequest <==> requested == None || requested == Some(Resolved)
    ensures reply == NotFound <==> reply != BadRequest && Key(moduleId, fingerprint) !in old(store.recs)
    ensures store.recs == if requested.Some?
      then Apply(store.backend, DoStatus(Key(moduleId, fingerprint), requested.value), old(store.recs))
      else old(store.recs)
    ensures
      var k := Key(moduleId, fingerprint);
      if reply == Done
      then store.recs == old(store.recs)[k := old(store.recs)[k].(
        finding := old(store.recs)[k].finding.(status := requested.value))]
      else store.recs == old(store.recs)
  {
    if requested == None || requested == Some(Resolved) {
      return BadRequest;
    }
    var rec := store.Get(moduleId, fingerprint);
    if rec.None? {
      return NotFound;
    }
    assert KeyOf(rec.value) == Key(moduleId, fingerprint);
    store.Upsert(rec.value.(finding := rec.value.finding.(status := requested.value)));
    reply := Done;
  }

  /** Retention deletes only resolved rows, so it is one way of forgetting. */
  lemma PruneForgets(b: Backend, m: Records, cutoff: int)
    ensures Pruned(m, cutoff) == Apply(b, DoForget(set k | k in m && Prunable(m[k], cutoff)), m)
  {
  }

  // ----- one key at a time ----------------------------------------------------

  function ApplyAt(b: Backend, a: Action, k: Key, prev: Option<Record>): Option<Record> {
    match a
    case DoScan(s) => Step(b, s, k, prev)
    case DoStatus(key, next) =>
      if k == key && next != Resolved && prev.Some? then Some(WithStatus(prev.value, next)) else prev
    case DoForget(keys) => if k in keys && prev.Some? && prev.value.finding.status == Resolved then None else prev
  }

  lemma ApplyPointwise(b: Backend, a: Action, m: Records)
    requires WellKeyed(m)
    ensures WellKeyed(Apply(b, a, m))
    ensures forall k :: Lookup(Apply(b, a, m), k) == ApplyAt(b, a, k, Lookup(m, k))
  {
    if a.DoScan? {
      forall k
        ensures Lookup(Apply(b, a, m), k) == ApplyAt(b, a, k, Lookup(m, k))
        ensures k in Apply(b, a, m) ==> KeyOf(Apply(b, a, m)[k]) == k
      {
        ScannedAt(b, a.scan, m, k);
        StepKeepsKey(b, a.scan, k, Lookup(m, k));
      }
    }
  }

  lemma StepKeepsKey(b: Backend, s: Scan, k: Key, prev: Option<Record>)
    requires prev.Some? ==> KeyOf(prev.value) == k
    ensures Step(b, s, k, prev).Some? ==> KeyOf(Step(b, s, k, prev).value) == k
  {
    HitsAre(s.reports, k.fingerprint);
    var hits := Hits(s.reports, k.fingerprint);
    if hits != [] {
      assert hits[|hits| - 1] in hits && hits[0] in hits;
    }
  }

  lemma {:induction false} RunWellKeyed(b: Backend, acts: seq<Action>)
    ensures WellKeyed(Run(b, acts))
  {
    if acts == [] {
    } else {
      RunWellKeyed(b, acts[..|acts| - 1]);
      ApplyPointwise(b, acts[|acts| - 1], Run(b, acts[..|acts| - 1]));
    }
  }

  /** A run of the store is, at every key, the run of that key alone. */
  lemma RunSnoc(b: Backend, acts: seq<Action>, k: Key)
    requires acts != []
    ensures Lookup(Run(b, acts), k) == ApplyAt(b, acts[|acts| - 1], k, Lookup(Run(b, acts[..|acts| - 1]), k))
  {
    RunWellKeyed(b, acts[..|acts| - 1]);
    ApplyPointwise(b, acts[|acts| - 1], Run(b, acts[..|acts| - 1]));
  }

  // ----- disciplined runs -------------------------------------------------------

  /** Reports carry the scanned target and leave the core-owned resolution time unset. */
  predicate CollectorFields(s: Scan) {
    forall inc :: inc in s.reports && ValidateForIngest(inc.finding).None? ==>
      inc.finding.target == s.target && inc.finding.resolvedAt == None
  }

  datatype Origin = Origin(target: string, check: string)

  /** Fingerprints determine target and check. */
  predicate Attributed(who: Key -> Origin, s: Scan) {
    forall inc :: inc in s.reports && ValidateForIngest(inc.finding).None? ==>
      who(KeyIn(s, inc)) == Origin(inc.finding.target, inc.finding.check)
  }

  /** Runs whose scans report what a collector fills in, under fingerprints that say where they belong. */
  ghost predicate OwnedRun(who: Key -> Origin, acts: seq<Action>) {
    forall a :: a in acts && a.DoScan? ==> CollectorFields(a.scan) && Attributed(who, a.scan)
  }

  lemma PartOwned(who: Key -> Origin, acts: seq<Action>)
    requires OwnedRun(who, acts) && acts != []
    ensures OwnedRun(who, acts[..|acts| - 1]) && OwnedRun(who, [acts[|acts| - 1]])
    ensures
      var a := acts[|acts| - 1];
      a.DoScan? ==> CollectorFields(a.scan) && Attributed(who, a.scan)
  {
    assert acts[|acts| - 1] in acts;
  }

  ghost predicate Owned(who: Key -> Origin, k: Key, r: Option<Record>) {
    r.Some? ==> KeyOf(r.value) == k && Origin(r.value.finding.target, r.value.finding.check) == who(k)
  }

  lemma StepOwned(who: Key -> Origin, b: Backend, s: Scan, k: Key, prev: Option<Record>)
    requires CollectorFields(s) && Attributed(who, s) && Owned(who, k, prev)
    ensures Owned(who, k, Step(b, s, k, prev))
    ensures k.moduleId == s.mod.id && Hits(s.reports, k.fingerprint) != [] ==> who(k).target == s.target
    ensures k.moduleId == s.mod.id ==> forall h :: h in Hits(s.reports, k.fingerprint) ==>
      KeyIn(s, h) == k && ValidateForIngest(h.finding).None? &&
        Origin(h.finding.target, h.finding.check) == who(k) && h.finding.resolvedAt == None
  {
    HitsAre(s.reports, k.fingerprint);
    var hits := Hits(s.reports, k.fingerprint);
    if k.moduleId == s.mod.id && hits != [] {
      assert hits[0] in hits && hits[|hits| - 1] in hits;
      assert KeyIn(s, hits[0]) == k && KeyIn(s, hits[|hits| - 1]) == k;
    }
  }

  /** Every stored record sits under the target and check its fingerprint determines. */
  lemma {:induction false} RunOwned(who: Key -> Origin, b: Backend, acts: seq<Action>, k: Key)
    requires OwnedRun(who, acts)
    ensures Owned(who, k, Lookup(Run(b, acts), k))
  {
    if acts == [] {
    } else {
      var n := |acts| - 1;
      PartOwned(who, acts);
      RunOwned(who, b, acts[..n], k);
      RunSnoc(b, acts, k);
      if acts[n].DoScan? {
        StepOwned(who, b, acts[n].scan, k, Lookup(Run(b, acts[..n]), k));
      }
    }
  }

  predicate Unresolved(r: Option<Record>) { r.Some? && r.value.finding.status != Resolved }

  /** The user changes the status of k, and finds it resolved: the code does not look. */
  predicate Revives(a: Action, m: Records, k: Key) {
    a.DoStatus? && a.key == k && a.next != Resolved && k in m && m[k].finding.status == Resolved
  }

  /** A scan that reports one finding twice, as when two ports share a fingerprint; each report drew its own ID. */
  function TwiceReported(mod: ModuleInfo, f: Finding): Scan {
    Scan(mod, f.target, 0, [Incoming(f, "a"), Incoming(f, "b")])
  }

  lemma TwiceReportedHits(mod: ModuleInfo, f: Finding)
    requires ValidateForIngest(f).None?
    ensures Hits(TwiceReported(mod, f).reports, f.fingerprint) == [Incoming(f, "a"), Incoming(f, "b")]
  {
    var reports := TwiceReported(mod, f).reports;
    assert reports[..1] == [Incoming(f, "a")] && reports[..1][..0] == [];
    assert Hits(reports[..1], f.fingerprint) == [Incoming(f, "a")];
  }

  lemma TwiceReportedOwned(who: Key -> Origin, mod: ModuleInfo, f: Finding)
    requires ValidateForIngest(f).None? && f.resolvedAt == None
    requires who(Key(mod.id, f.fingerprint)) == Origin(f.target, f.check)
    ensures OwnedRun(who, [DoScan(TwiceReported(mod, f))])
  {
  }

  /** A fingerprint built by core.Fingerprint from separator-free parts. */
  ghost predicate Genuine(digest: string -> string, s: Scan) {
    BarFree(s.mod.id) &&
    forall inc :: inc in s.reports && ValidateForIngest(inc.finding).None? ==>
      BarFree(inc.finding.target) && BarFree(inc.finding.check) &&
      exists d :: inc.finding.fingerprint == Fingerprint(digest, s.mod.id, inc.finding.target, inc.finding.check, d)
  }

  ghost predicate Named(digest: string -> string, k: Key, o: Origin, d: string) {
    BarFree(k.moduleId) && BarFree(o.target) && BarFree(o.check) &&
      k.fingerprint == Fingerprint(digest, k.moduleId, o.target, o.check, d)
  }

  ghost function Owner(digest: string -> string): Key -> Origin {
    k => if exists o, d :: Named(digest, k, o, d) then var o, d :| Named(digest, k, o, d); o else Origin("", "")
  }

  /** Under a collision-free digest, genuine fingerprints do determine target and check. */
  lemma GenuineIsAttributed(digest: string -> string, s: Scan)
    requires CollisionFree(digest) && Genuine(digest, s)
    ensures Attributed(Owner(digest), s)
  {
    forall inc | inc in s.reports && ValidateForIngest(inc.finding).None?
      ensures Owner(digest)(KeyIn(s, inc)) == Origin(inc.finding.target, inc.finding.check)
    {
      var k, f := KeyIn(s, inc), inc.finding;
      var d :| f.fingerprint == Fingerprint(digest, s.mod.id, f.target, f.check, d);
      assert Named(digest, k, Origin(f.target, f.check), d);
      var o := Owner(digest)(k);
      var d' :| Named(digest, k, o, d');
      FingerprintIdentifies(digest, k.moduleId, f.target, f.check, d, k.moduleId, o.target, o.check, d');
    }
  }
}
