/** Persistence and the reconcile engine (store/memory.go, store/sqlite.go, store/reconcile.go). */
module Store {
  import opened Basics
  import opened Findings

  datatype Record = Record(finding: Finding, absentStreak: int)

  /** Rows are unique per module and fingerprint. */
  datatype Key = Key(moduleId: string, fingerprint: string)

  type Records = map<Key, Record>

  function KeyOf(r: Record): Key { Key(r.finding.moduleId, r.finding.fingerprint) }

  ghost predicate WellKeyed(m: Records) { forall k :: k in m ==> KeyOf(m[k]) == k }

  function Lookup(m: Records, k: Key): Option<Record> { if k in m then Some(m[k]) else None }

  // ----- upsert -------------------------------------------------------------

  datatype Backend = Memory | Sqlite

  /** ON CONFLICT DO UPDATE rewrites nine columns; id, target, check_id and first_seen stay. */
  function Overlay(row: Record, r: Record): Record {
    r.(finding := r.finding.(id := row.finding.id, target := row.finding.target, check := row.finding.check,
      firstSeen := row.finding.firstSeen))
  }

  function Stored(b: Backend, row: Option<Record>, r: Record): Record {
    if b.Sqlite? && row.Some? then Overlay(row.value, r) else r
  }

  function Upserted(b: Backend, m: Records, r: Record): Records {
    m[KeyOf(r) := Stored(b, Lookup(m, KeyOf(r)), r)]
  }

  predicate Matches(r: Record, moduleId: string, target: string) {
    r.finding.moduleId == moduleId && r.finding.target == target
  }

  /** rows lists the matching records, each once, in some order. */
  ghost predicate Lists(rows: seq<Record>, m: Records, moduleId: string, target: string) {
    && (forall i :: 0 <= i < |rows| ==>
      Matches(rows[i], moduleId, target) && Lookup(m, KeyOf(rows[i])) == Some(rows[i]))
    && (forall i, j :: 0 <= i < j < |rows| ==> KeyOf(rows[i]) != KeyOf(rows[j]))
    && (forall k :: k in m && Matches(m[k], moduleId, target) ==> m[k] in rows)
  }

  predicate Prunable(r: Record, cutoff: int) {
    r.finding.status == Resolved && r.finding.resolvedAt.Some? && r.finding.resolvedAt.value < cutoff
  }

  function Pruned(m: Records, cutoff: int): Records {
    map k | k in m && !Prunable(m[k], cutoff) :: m[k]
  }

  /** The store behind the engine; `backend` says which implementation of the interface it is. */
  class FindingStore {
    const backend: Backend
    var recs: Records

    ghost predicate Valid() reads this { WellKeyed(recs) }

    constructor (backend: Backend)
      ensures Valid() && this.backend == backend && recs == map[]
    {
      this.backend := backend;
      recs := map[];
    }

    /** Go enumerates a map, and SQL a table, in no particular order. */
    method ListByTarget(moduleId: string, target: string) returns (rows: seq<Record>)
      requires Valid()
      ensures Lists(rows, recs, moduleId, target)
    {
      rows := [];
      var todo := recs.Keys;
      while todo != {}
        invariant todo <= recs.Keys
        invariant forall i :: 0 <= i < |rows| ==>
          Matches(rows[i], moduleId, target) && Lookup(recs, KeyOf(rows[i])) == Some(rows[i]) && KeyOf(rows[i]) !in todo
        invariant forall i, j :: 0 <= i < j < |rows| ==> KeyOf(rows[i]) != KeyOf(rows[j])
        invariant forall k :: k in recs && k !in todo && Matches(recs[k], moduleId, target) ==> recs[k] in rows
        decreases todo
      {
        var k :| k in todo;
        todo := todo - {k};
        if Matches(recs[k], moduleId, target) {
          ghost var before := rows;
          rows := rows + [recs[k]];
          assert rows[|rows| - 1] == recs[k];
          assert forall r :: r in before ==> r in rows;
        }
      }
    }

    method Upsert(r: Record)
      requires Valid()
      modifies this
      ensures Valid() && recs == Upserted(backend, old(recs), r)
    {
      var k := KeyOf(r);
      if backend.Sqlite? && k in recs {
        var row := recs[k];
        var f := row.finding.(title := r.finding.title, severity := r.finding.severity, status := r.finding.status,
          remediation := r.finding.remediation, evidence := r.finding.evidence, groupId := r.finding.groupId,
          lastSeen := r.finding.lastSeen, resolvedAt := r.finding.resolvedAt);
        recs := recs[k := Record(f, r.absentStreak)];
      } else {
        recs := recs[k := r];
      }
    }

    method Get(moduleId: string, fingerprint: string) returns (r: Option<Record>)
      ensures r == Lookup(recs, Key(moduleId, fingerprint))
    {
      var k := Key(moduleId, fingerprint);
      r := if k in recs then Some(recs[k]) else None;
    }

    /** DELETE of resolved findings older than the cutoff; returns the rows affected. */
    method PruneResolvedBefore(cutoff: int) returns (n: nat)
      requires Valid()
      modifies this
      ensures Valid() && recs == Pruned(old(recs), cutoff) && n == |old(recs)| - |recs|
    {
      var kept := Pruned(recs, cutoff);
      Shrinks(recs, cutoff);
      n := |recs| - |kept|;
      recs := kept;
    }
  }

  lemma Shrinks(m: Records, cutoff: int)
    ensures |Pruned(m, cutoff)| <= |m|
  {
    SubsetSize(Pruned(m, cutoff).Keys, m.Keys);
  }

  // ----- what one scan does to one key ----------------------------------------

  /** A fresh finding, with the identifier newID returns if it is asked at that point of the loop. */
  datatype Incoming = Incoming(finding: Finding, id: string)

  datatype Scan = Scan(mod: ModuleInfo, target: string, now: int, reports: seq<Incoming>)

  datatype Rejection = Rejection(finding: Finding, field: IngestField)

  datatype ReconcileResult = ReconcileResult(newlyOpen: seq<Finding>, resolved: seq<Finding>, rejected: seq<Rejection>)

  predicate Reports(inc: Incoming, fp: string) {
    ValidateForIngest(inc.finding).None? && inc.finding.fingerprint == fp
  }

  /** The valid fresh findings with fingerprint fp, in order. */
  function Hits(reports: seq<Incoming>, fp: string): seq<Incoming> {
    if reports == [] then []
    else
      var n := |reports| - 1;
      Hits(reports[..n], fp) + HitOne(reports[n], fp)
  }

  function HitOne(inc: Incoming, fp: string): seq<Incoming> { if Reports(inc, fp) then [inc] else [] }

  lemma HitsSnoc(reports: seq<Incoming>, i: nat, fp: string)
    requires i < |reports|
    ensures Hits(reports[..i + 1], fp) == Hits(reports[..i], fp) + HitOne(reports[i], fp)
  {
    assert reports[..i + 1][..i] == reports[..i];
  }

  lemma {:induction false} HitsAre(reports: seq<Incoming>, fp: string)
    ensures forall h :: h in Hits(reports, fp) <==> Reports(h, fp) && h in reports
  {
    if reports == [] {
    } else {
      var n := |reports| - 1;
      HitsAre(reports[..n], fp);
      HitsSnoc(reports, n, fp);
      assert reports[..n + 1] == reports == reports[..n] + [reports[n]];
    }
  }

  function NewRecord(moduleId: string, inc: Incoming, now: int): Record {
    Record(CapEvidence(inc.finding).(id := inc.id, moduleId := moduleId, status := Open, firstSeen := now,
      lastSeen := now), 0)
  }

  function Refreshed(prev: Record, f: Finding, now: int): Record {
    var merged := prev.finding.(title := f.title, severity := f.severity, remediation := f.remediation,
      evidence := CapEvidence(f).evidence, lastSeen := now);
    Record(if prev.finding.status == Resolved then merged.(status := Open, resolvedAt := None) else merged, 0)
  }

  function Missed(prev: Record, k: int, now: int): Record {
    if prev.finding.status == Resolved || prev.finding.status == Suppressed then prev
    else if prev.absentStreak + 1 >= k
      then Record(prev.finding.(status := Resolved, resolvedAt := Some(now)), prev.absentStreak + 1)
    else prev.(absentStreak := prev.absentStreak + 1)
  }

  /** The record as ListByTarget shows it: only under its own target. */
  function Snapshot(prev: Option<Record>, target: string): Option<Record> {
    if prev.Some? && prev.value.finding.target == target then prev else None
  }

  function Ingested(s: Scan, prev: Option<Record>, inc: Incoming): Record {
    match Snapshot(prev, s.target)
    case Some(p) => Refreshed(p, inc.finding, s.now)
    case None => NewRecord(s.mod.id, inc, s.now)
  }

  /** One report taken in: m is the store when the scan began, before the store so far. */
  function WithReport(b: Backend, s: Scan, m: Records, before: Records, inc: Incoming): Records {
    if ValidateForIngest(inc.finding).Some? then before
    else Upserted(b, before, Ingested(s, Lookup(m, KeyIn(s, inc)), inc))
  }

  /** The store after the first loop has walked these reports. */
  function Walked(b: Backend, s: Scan, m: Records, reports: seq<Incoming>): Records {
    if reports == [] then m
    else WithReport(b, s, m, Walked(b, s, m, reports[..|reports| - 1]), reports[|reports| - 1])
  }

  /** The fingerprints of the valid reports. */
  function SeenIn(reports: seq<Incoming>): set<string> {
    if reports == [] then {}
    else
      var f := reports[|reports| - 1].finding;
      SeenIn(reports[..|reports| - 1]) + if ValidateForIngest(f).None? then {f.fingerprint} else {}
  }

  /** After the first loop: the last report wins, over the first row inserted when there was none. */
  function AfterReports(b: Backend, s: Scan, prev: Option<Record>, hits: seq<Incoming>): Option<Record> {
    if hits == [] then prev
    else
      var r := Ingested(s, prev, hits[|hits| - 1]);
      var row := if prev.Some? then prev.value else NewRecord(s.mod.id, hits[0], s.now);
      Some(Stored(b, Some(row), r))
  }

  /** The pointwise meaning of Reconcile: what happens to the record of one key. */
  function Step(b: Backend, s: Scan, k: Key, prev: Option<Record>): Option<Record> {
    if k.moduleId != s.mod.id then prev
    else
      var hits := Hits(s.reports, k.fingerprint);
      if hits != [] then AfterReports(b, s, prev, hits)
      else if Snapshot(prev, s.target).Some? then Some(Missed(prev.value, ResolveAfterOrDefault(s.mod), s.now))
      else prev
  }

  /** Does this scan move the record of k into resolved? */
  predicate Resolves(s: Scan, k: Key, prev: Option<Record>) {
    && k.moduleId == s.mod.id
    && Hits(s.reports, k.fingerprint) == []
    && Snapshot(prev, s.target).Some?
    && prev.value.finding.status in {Open, Acknowledged}
    && prev.value.absentStreak + 1 >= ResolveAfterOrDefault(s.mod)
  }

  /** Does a report of inc open its key: nothing listed under this target, or listed as resolved? */
  predicate Opens(s: Scan, prev: Option<Record>, inc: Incoming) {
    && ValidateForIngest(inc.finding).None?
    && var snap := Snapshot(prev, s.target);
       snap.None? || snap.value.finding.status == Resolved
  }

  function KeyIn(s: Scan, inc: Incoming): Key { Key(s.mod.id, inc.finding.fingerprint) }

  function ScanKeys(s: Scan): set<Key> { set inc | inc in s.reports :: KeyIn(s, inc) }

  function Scanned(b: Backend, s: Scan, m: Records): Records {
    map k | k in m.Keys + ScanKeys(s) && Step(b, s, k, Lookup(m, k)).Some? :: Step(b, s, k, Lookup(m, k)).value
  }

  function OpenedOne(s: Scan, m: Records, inc: Incoming): seq<Finding> {
    var prev := Lookup(m, KeyIn(s, inc));
    if Opens(s, prev, inc) then [Ingested(s, prev, inc).finding] else []
  }

  /** The newly-open list, in the order of the fresh findings. */
  function OpenedBy(s: Scan, m: Records, reports: seq<Incoming>): seq<Finding> {
    if reports == [] then [] else OpenedBy(s, m, reports[..|reports| - 1]) + OpenedOne(s, m, reports[|reports| - 1])
  }

  function RejectedBy(reports: seq<Incoming>): seq<Rejection> {
    if reports == [] then []
    else RejectedBy(reports[..|reports| - 1]) + RejectedOne(reports[|reports| - 1].finding)
  }

  function RejectedOne(f: Finding): seq<Rejection> {
    match ValidateForIngest(f)
    case None => []
    case Some(e) => [Rejection(f, e)]
  }

  /** The finding announced when the scan resolves k. */
  function ResolvedFinding(s: Scan, m: Records, k: Key): Finding
    requires k in m
  {
    Missed(m[k], ResolveAfterOrDefault(s.mod), s.now).finding
  }

  predicate IsResolved(f: Finding, s: Scan, m: Records) {
    var k := Key(s.mod.id, f.fingerprint);
    Resolves(s, k, Lookup(m, k)) && f == ResolvedFinding(s, m, k)
  }

  /** resolved lists, each once and in some order, the findings of the keys this scan resolves. */
  ghost predicate ListsResolved(resolved: seq<Finding>, s: Scan, m: Records) {
    && (forall f :: f in resolved ==> IsResolved(f, s, m))
    && (forall i, j :: 0 <= i < j < |resolved| ==> resolved[i].fingerprint != resolved[j].fingerprint)
    && (forall k :: Resolves(s, k, Lookup(m, k)) ==> ResolvedFinding(s, m, k) in resolved)
  }

  // ----- the engine -----------------------------------------------------------

  class Engine {
    const store: FindingStore

    constructor (store: FindingStore)
      ensures this.store == store
    {
      this.store := store;
    }

    /** One scan, against any store and any order in which the store lists its rows. */
    method Reconcile(mod: ModuleInfo, target: string, reports: seq<Incoming>, now: int) returns (res: ReconcileResult)
      requires store.Valid()
      modifies store
      ensures store.Valid()
      ensures store.recs == Scanned(store.backend, Scan(mod, target, now, reports), old(store.recs))
      ensures res.newlyOpen == OpenedBy(Scan(mod, target, now, reports), old(store.recs), reports)
      ensures res.rejected == RejectedBy(reports)
      ensures ListsResolved(res.resolved, Scan(mod, target, now, reports), old(store.recs))
    {
      ghost var m := store.recs;
      ghost var s := Scan(mod, target, now, reports);
      var existing := store.ListByTarget(mod.id, target);
      var byFP: map<string, Record> := map[];
      for i := 0 to |existing|
        invariant forall fp :: fp in byFP <==> exists j :: 0 <= j < i && existing[j].finding.fingerprint == fp
        invariant forall j :: 0 <= j < i ==>
          existing[j].finding.fingerprint in byFP && byFP[existing[j].finding.fingerprint] == existing[j]
      {
        byFP := byFP[existing[i].finding.fingerprint := existing[i]];
      }
      SnapshotIs(s, m, existing, byFP);
      var newlyOpen, rejected, seen := Ingest(mod, target, reports, now, byFP, m);
      WalkedIs(store.backend, s, m);
      var resolved := Sweep(mod, target, now, existing, seen, m, s);
      ScannedIs(store.backend, s, m, store.recs);
      res := ReconcileResult(newlyOpen, resolved, rejected);
    }

    /** The loop over the fresh findings: insert, refresh or reopen. */
    method Ingest(mod: ModuleInfo, target: string, reports: seq<Incoming>, now: int, byFP: map<string, Record>,
      ghost m: Records)
      returns (newlyOpen: seq<Finding>, rejected: seq<Rejection>, seen: set<string>)
      requires store.Valid() && store.recs == m
      requires forall fp :: Snapshot(Lookup(m, Key(mod.id, fp)), target) == if fp in byFP then Some(byFP[fp]) else None
      modifies store
      ensures store.Valid()
      ensures store.recs == Walked(store.backend, Scan(mod, target, now, reports), m, reports)
      ensures seen == SeenIn(reports)
      ensures newlyOpen == OpenedBy(Scan(mod, target, now, reports), m, reports)
      ensures rejected == RejectedBy(reports)
    {
      ghost var s := Scan(mod, target, now, reports);
      newlyOpen, rejected, seen := [], [], {};
      for i := 0 to |reports|
        invariant store.Valid()
        invariant store.recs == Walked(store.backend, s, m, reports[..i])
        invariant seen == SeenIn(reports[..i])
        invariant newlyOpen == OpenedBy(s, m, reports[..i])
        invariant rejected == RejectedBy(reports[..i])
      {
        assert reports[..i + 1][..i] == reports[..i];
        var openings, refusals := IngestOne(mod, target, reports[i], now, byFP, m, s);
        newlyOpen := newlyOpen + openings;
        rejected := rejected + refusals;
        if refusals == [] {
          seen := seen + {reports[i].finding.fingerprint};
        }
      }
      assert reports[..|reports|] == reports;
    }

    /** The loop body: reject, or upsert the new or merged record and list it if it opens. */
    method IngestOne(mod: ModuleInfo, target: string, inc: Incoming, now: int, byFP: map<string, Record>,
      ghost m: Records, ghost s: Scan)
      returns (openings: seq<Finding>, refusals: seq<Rejection>)
      requires store.Valid() && s.mod == mod && s.target == target && s.now == now
      requires forall fp :: Snapshot(Lookup(m, Key(mod.id, fp)), target) == if fp in byFP then Some(byFP[fp]) else None
      modifies store
      ensures store.Valid()
      ensures store.recs == WithReport(store.backend, s, m, old(store.recs), inc)
      ensures openings == OpenedOne(s, m, inc)
      ensures refusals == RejectedOne(inc.finding)
    {
      openings, refusals := [], [];
      var f := inc.finding;
      match ValidateForIngest(f)
      case Some(e) =>
        refusals := [Rejection(f, e)];
      case None =>
        var fp := f.fingerprint;
        assert Snapshot(Lookup(m, KeyIn(s, inc)), target) == if fp in byFP then Some(byFP[fp]) else None;
        f := CapEvidence(f);
        if f.fingerprint !in byFP {
          var rec := Record(f.(id := inc.id, moduleId := mod.id, status := Open, firstSeen := now, lastSeen := now), 0);
          store.Upsert(rec);
          openings := [rec.finding];
        } else {
          var prev := byFP[f.fingerprint];
          var reopened := prev.finding.status == Resolved;
          var merged := prev.finding.(title := f.title, severity := f.severity, remediation := f.remediation,
            evidence := f.evidence, lastSeen := now);
          if reopened {
            merged := merged.(status := Open, resolvedAt := None);
          }
          store.Upsert(Record(merged, 0));
          if reopened {
            openings := [merged];
          }
        }
    }

    /** The loop over the snapshot: count the absence of what was not seen, and resolve. */
    method Sweep(mod: ModuleInfo, target: string, now: int, existing: seq<Record>, seen: set<string>,
      ghost m: Records, ghost s: Scan)
      returns (resolved: seq<Finding>)
      requires store.Valid() && s.mod == mod && s.target == target && s.now == now
      requires WellKeyed(m) && Lists(existing, m, mod.id, target)
      requires forall k :: Lookup(store.recs, k) == PartStep(store.backend, s, s.reports, k, Lookup(m, k))
      requires forall fp :: fp in seen <==> Hits(s.reports, fp) != []
      modifies store
      ensures store.Valid()
      ensures forall k :: Lookup(store.recs, k) == Step(store.backend, s, k, Lookup(m, k))
      ensures ListsResolved(resolved, s, m)
    {
      resolved := [];
      for i := 0 to |existing|
        invariant store.Valid()
        invariant forall k :: Lookup(store.recs, k) == SweptStep(store.backend, s, existing[..i], k, Lookup(m, k))
        invariant ListsResolvedAmong(resolved, existing[..i], s, m)
      {
        ghost var before, found := store.recs, resolved;
        var announced := SweepOne(mod, now, existing[i], seen);
        resolved := resolved + announced;
        SweptSnoc(store.backend, s, m, before, store.recs, existing, i);
        ResolvedSnoc(found, resolved, existing, i, s, m);
      }
      SweptAll(store.backend, s, m, existing);
      ResolvedAll(resolved, existing, s, m);
    }

    /** The loop body: one more absence, unless seen, resolved or suppressed. */
    method SweepOne(mod: ModuleInfo, now: int, row: Record, seen: set<string>) returns (announced: seq<Finding>)
      requires store.Valid()
      modifies store
      ensures store.Valid()
      ensures row.finding.fingerprint in seen || row.finding.status in {Resolved, Suppressed} ==>
        store.recs == old(store.recs) && announced == []
      ensures row.finding.fingerprint !in seen && row.finding.status !in {Resolved, Suppressed} ==>
        var r := Missed(row, ResolveAfterOrDefault(mod), now);
        store.recs == Upserted(store.backend, old(store.recs), r) &&
          announced == if r.finding.status == Resolved then [r.finding] else []
    {
      announced := [];
      var r := row;
      if r.finding.fingerprint in seen || r.finding.status == Resolved || r.finding.status == Suppressed {
        return;
      }
      r := r.(absentStreak := r.absentStreak + 1);
      if r.absentStreak >= ResolveAfterOrDefault(mod) {
        r := r.(finding := r.finding.(status := Resolved, resolvedAt := Some(now)));
        announced := [r.finding];
      }
      store.Upsert(r);
    }
  }

  // ----- proof of the loops ---------------------------------------------------

  /** Step with only a part of the fresh findings walked and no absences counted yet. */
  ghost function PartStep(b: Backend, s: Scan, reports: seq<Incoming>, k: Key, prev: Option<Record>): Option<Record> {
    if k.moduleId != s.mod.id then prev else AfterReports(b, s, prev, Hits(reports, k.fingerprint))
  }

  ghost predicate HasKey(rows: seq<Record>, k: Key) {
    exists r :: r in rows && KeyOf(r) == k
  }

  /** Step with absences counted for some rows only. */
  ghost function SweptStep(b: Backend, s: Scan, rows: seq<Record>, k: Key, prev: Option<Record>): Option<Record> {
    if HasKey(rows, k) then Step(b, s, k, prev) else PartStep(b, s, s.reports, k, prev)
  }

  ghost predicate ListsResolvedAmong(resolved: seq<Finding>, rows: seq<Record>, s: Scan, m: Records) {
    && (forall f :: f in resolved ==> IsResolved(f, s, m) && HasKey(rows, Key(s.mod.id, f.fingerprint)))
    && (forall i, j :: 0 <= i < j < |resolved| ==> resolved[i].fingerprint != resolved[j].fingerprint)
    && (forall k :: HasKey(rows, k) && Resolves(s, k, Lookup(m, k)) ==> ResolvedFinding(s, m, k) in resolved)
  }

  lemma SnapshotIs(s: Scan, m: Records, existing: seq<Record>, byFP: map<string, Record>)
    requires WellKeyed(m) && Lists(existing, m, s.mod.id, s.target)
    requires forall fp :: fp in byFP <==> exists j :: 0 <= j < |existing| && existing[j].finding.fingerprint == fp
    requires forall j :: 0 <= j < |existing| ==>
      existing[j].finding.fingerprint in byFP && byFP[existing[j].finding.fingerprint] == existing[j]
    ensures forall fp :: Snapshot(Lookup(m, Key(s.mod.id, fp)), s.target) == if fp in byFP then Some(byFP[fp]) else None
  {
    forall fp
      ensures Snapshot(Lookup(m, Key(s.mod.id, fp)), s.target) == if fp in byFP then Some(byFP[fp]) else None
    {
      var k := Key(s.mod.id, fp);
      if fp in byFP {
        var j :| 0 <= j < |existing| && existing[j].finding.fingerprint == fp;
        assert KeyOf(existing[j]) == k;
      }
    }
  }

  /** The first loop key by key: the last report wins, whatever the other keys do. */
  lemma {:induction false} WalkedAt(b: Backend, s: Scan, m: Records, reports: seq<Incoming>, k: Key)
    requires WellKeyed(m)
    ensures Lookup(Walked(b, s, m, reports), k) == PartStep(b, s, reports, k, Lookup(m, k))
    ensures k.fingerprint in SeenIn(reports) <==> Hits(reports, k.fingerprint) != []
  {
    if reports == [] {
    } else {
      var n := |reports| - 1;
      WalkedAt(b, s, m, reports[..n], k);
      PartStepAt(b, s, m, Walked(b, s, m, reports[..n]), reports, n, k);
      assert reports[..n + 1] == reports;
    }
  }

  lemma WalkedIs(b: Backend, s: Scan, m: Records)
    requires WellKeyed(m)
    ensures forall k :: Lookup(Walked(b, s, m, s.reports), k) == PartStep(b, s, s.reports, k, Lookup(m, k))
    ensures forall fp :: fp in SeenIn(s.reports) <==> Hits(s.reports, fp) != []
  {
    forall k
      ensures Lookup(Walked(b, s, m, s.reports), k) == PartStep(b, s, s.reports, k, Lookup(m, k))
    {
      WalkedAt(b, s, m, s.reports, k);
    }
    forall fp
      ensures fp in SeenIn(s.reports) <==> Hits(s.reports, fp) != []
    {
      WalkedAt(b, s, m, s.reports, Key(s.mod.id, fp));
    }
  }

  lemma PartStepAt(b: Backend, s: Scan, m: Records, before: Records, reports: seq<Incoming>, i: nat, k: Key)
    requires i < |reports| && WellKeyed(m)
    requires Lookup(before, k) == PartStep(b, s, reports[..i], k, Lookup(m, k))
    ensures Lookup(WithReport(b, s, m, before, reports[i]), k) == PartStep(b, s, reports[..i + 1], k, Lookup(m, k))
  {
    var inc := reports[i];
    HitsSnoc(reports, i, k.fingerprint);
    if k == KeyIn(s, inc) && Reports(inc, k.fingerprint) {
      IngestedKey(s, m, inc);
      UpsertAgain(b, s, Lookup(m, k), Hits(reports[..i], k.fingerprint), inc);
    } else if ValidateForIngest(inc.finding).None? {
      IngestedKey(s, m, inc);
      assert Lookup(WithReport(b, s, m, before, inc), k) == Lookup(before, k);
    }
  }

  lemma IngestedKey(s: Scan, m: Records, inc: Incoming)
    requires WellKeyed(m)
    ensures KeyOf(Ingested(s, Lookup(m, KeyIn(s, inc)), inc)) == KeyIn(s, inc)
  {
    assert KeyIn(s, inc) in m ==> KeyOf(m[KeyIn(s, inc)]) == KeyIn(s, inc);
  }

  /** One more report of a key: the row already there decides what an upsert keeps. */
  lemma UpsertAgain(b: Backend, s: Scan, prev: Option<Record>, hits: seq<Incoming>, inc: Incoming)
    ensures AfterReports(b, s, prev, hits + [inc]) ==
      Some(Stored(b, AfterReports(b, s, prev, hits), Ingested(s, prev, inc)))
  {
    if hits != [] {
      assert (hits + [inc])[0] == hits[0];
    }
  }

  lemma SweptSnoc(b: Backend, s: Scan, m: Records, before: Records, after: Records, existing: seq<Record>, i: nat)
    requires i < |existing| && WellKeyed(m) && Lists(existing, m, s.mod.id, s.target)
    requires forall k :: Lookup(before, k) == SweptStep(b, s, existing[..i], k, Lookup(m, k))
    requires after ==
      var r := existing[i];
      if Hits(s.reports, r.finding.fingerprint) == [] && r.finding.status != Resolved && r.finding.status != Suppressed
      then Upserted(b, before, Missed(r, ResolveAfterOrDefault(s.mod), s.now)) else before
    ensures forall k :: Lookup(after, k) == SweptStep(b, s, existing[..i + 1], k, Lookup(m, k))
  {
    var r := existing[i];
    assert !HasKey(existing[..i], KeyOf(r));
    forall k
      ensures Lookup(after, k) == SweptStep(b, s, existing[..i + 1], k, Lookup(m, k))
    {
      HasKeySnoc(existing, i, k);
      assert Lookup(before, k) == SweptStep(b, s, existing[..i], k, Lookup(m, k));
    }
  }

  lemma HasKeySnoc(rows: seq<Record>, i: nat, k: Key)
    requires i < |rows|
    ensures HasKey(rows[..i + 1], k) <==> HasKey(rows[..i], k) || k == KeyOf(rows[i])
  {
    assert rows[..i + 1] == rows[..i] + [rows[i]];
    assert rows[i] in rows[..i + 1];
  }

  lemma SweptAll(b: Backend, s: Scan, m: Records, existing: seq<Record>)
    requires Lists(existing, m, s.mod.id, s.target) && WellKeyed(m)
    ensures forall k :: SweptStep(b, s, existing[..|existing|], k, Lookup(m, k)) == Step(b, s, k, Lookup(m, k))
  {
    assert existing[..|existing|] == existing;
    forall k
      ensures SweptStep(b, s, existing, k, Lookup(m, k)) == Step(b, s, k, Lookup(m, k))
    {
      if k.moduleId == s.mod.id && Snapshot(Lookup(m, k), s.target).Some? {
        assert m[k] in existing && KeyOf(m[k]) == k;
      }
    }
  }

  lemma ResolvedSnoc(found: seq<Finding>, resolved: seq<Finding>, existing: seq<Record>, i: nat, s: Scan, m: Records)
    requires i < |existing| && WellKeyed(m) && Lists(existing, m, s.mod.id, s.target)
    requires ListsResolvedAmong(found, existing[..i], s, m)
    requires resolved == found + if Resolves(s, KeyOf(existing[i]), Some(existing[i]))
      then [ResolvedFinding(s, m, KeyOf(existing[i]))] else []
    ensures ListsResolvedAmong(resolved, existing[..i + 1], s, m)
  {
    var r := existing[i];
    assert !HasKey(existing[..i], KeyOf(r));
    assert Lookup(m, KeyOf(r)) == Some(r);
    forall k
      ensures HasKey(existing[..i + 1], k) <==> HasKey(existing[..i], k) || k == KeyOf(r)
    {
      HasKeySnoc(existing, i, k);
    }
  }

  lemma ResolvedAll(resolved: seq<Finding>, existing: seq<Record>, s: Scan, m: Records)
    requires Lists(existing, m, s.mod.id, s.target) && WellKeyed(m)
    requires ListsResolvedAmong(resolved, existing[..|existing|], s, m)
    ensures ListsResolved(resolved, s, m)
  {
    assert existing[..|existing|] == existing;
    forall k | Resolves(s, k, Lookup(m, k))
      ensures HasKey(existing, k)
    {
      assert m[k] in existing && KeyOf(m[k]) == k;
    }
  }

  /** A map that agrees with Step at every key is the scanned map. */
  lemma ScannedIs(b: Backend, s: Scan, m: Records, after: Records)
    requires forall k :: Lookup(after, k) == Step(b, s, k, Lookup(m, k))
    ensures after == Scanned(b, s, m)
  {
    forall k
      ensures Lookup(Scanned(b, s, m), k) == Step(b, s, k, Lookup(m, k))
    {
      ScannedAt(b, s, m, k);
    }
    SameLookups(after, Scanned(b, s, m));
  }

  lemma SameLookups(a: Records, b: Records)
    requires forall k :: Lookup(a, k) == Lookup(b, k)
    ensures a == b
  {
    assert forall k :: k in a <==> Lookup(a, k).Some?;
    assert forall k :: k in b <==> Lookup(b, k).Some?;
    assert forall k :: k in a ==> Lookup(a, k) == Some(a[k]) && Lookup(b, k) == Some(b[k]);
  }

  /** Each key moves by Step, whatever the other keys do; keys of other modules and targets stay. */
  lemma ScannedAt(b: Backend, s: Scan, m: Records, k: Key)
    ensures Lookup(Scanned(b, s, m), k) == Step(b, s, k, Lookup(m, k))
  {
    var hits := Hits(s.reports, k.fingerprint);
    HitsAre(s.reports, k.fingerprint);
    assert hits != [] ==> hits[0] in hits && KeyIn(s, hits[0]) in ScanKeys(s);
  }
}
