/** What one scan, one status change and one retention delete do to a record, field by field. */
module Effects {
  import opened Basics
  import opened Findings
  import opened Store
  import opened Lifecycle

  /** The key belongs to the scan: its module, its target. */
  predicate InScan(s: Scan, k: Key, r: Record) { k.moduleId == s.mod.id && r.finding.target == s.target }

  /** An absence counts for open and acknowledged records alike, and resolves at the threshold; nothing else changes. */
  lemma AbsenceCounts(b: Backend, s: Scan, k: Key, r: Record)
    requires InScan(s, k, r) && Hits(s.reports, k.fingerprint) == []
    requires r.finding.status == Open || r.finding.status == Acknowledged
    ensures
      var next := Step(b, s, k, Some(r));
      next.Some? && next.value.absentStreak == r.absentStreak + 1 &&
      if r.absentStreak + 1 >= ResolveAfterOrDefault(s.mod) then
        next.value.finding.status == Resolved && next.value.finding.resolvedAt == Some(s.now) &&
        next.value.finding.(status := r.finding.status, resolvedAt := r.finding.resolvedAt) == r.finding
      else next.value.finding == r.finding
  {
  }

  /** A resolved or suppressed record is not touched by an absence, and no record by a scan of something else. */
  lemma AbsenceSkips(b: Backend, s: Scan, k: Key, r: Record)
    requires !InScan(s, k, r) || r.finding.status == Resolved || r.finding.status == Suppressed
    requires k.moduleId == s.mod.id ==> Hits(s.reports, k.fingerprint) == []
    ensures Step(b, s, k, Some(r)) == Some(r)
  {
  }

  /** The descriptive fields are those of the report. */
  predicate Describes(r: Record, f: Finding) {
    r.finding.title == f.title && r.finding.severity == f.severity && r.finding.remediation == f.remediation &&
    r.finding.evidence == CapEvidence(f).evidence
  }

  function LastHit(s: Scan, k: Key): Finding
    requires Hits(s.reports, k.fingerprint) != []
  {
    Hits(s.reports, k.fingerprint)[|Hits(s.reports, k.fingerprint)| - 1].finding
  }

  /** A report describes the record anew and forgets its absences, whatever its status; only resolved becomes open. */
  lemma ReportRefreshes(b: Backend, s: Scan, k: Key, r: Record)
    requires InScan(s, k, r) && Hits(s.reports, k.fingerprint) != []
    ensures
      var next := Step(b, s, k, Some(r));
      next.Some? && next.value.absentStreak == 0 && Describes(next.value, LastHit(s, k)) &&
      next.value.finding.lastSeen == s.now &&
      next.value.finding.id == r.finding.id && next.value.finding.firstSeen == r.finding.firstSeen &&
      next.value.finding.groupId == r.finding.groupId && next.value.finding.check == r.finding.check &&
      next.value.finding.target == r.finding.target && KeyOf(next.value) == KeyOf(r) &&
      if r.finding.status == Resolved then next.value.finding.status == Open && next.value.finding.resolvedAt == None
      else next.value.finding.status == r.finding.status && next.value.finding.resolvedAt == r.finding.resolvedAt
  {
  }

  /** A new finding is open, first and last seen now, with no absence, and described by its last report. */
  lemma ReportInserts(b: Backend, s: Scan, k: Key)
    requires k.moduleId == s.mod.id && Hits(s.reports, k.fingerprint) != []
    ensures
      var next := Step(b, s, k, None);
      next.Some? && next.value.absentStreak == 0 && Describes(next.value, LastHit(s, k)) &&
      next.value.finding.status == Open && next.value.finding.firstSeen == s.now == next.value.finding.lastSeen &&
      KeyOf(next.value) == k && next.value.finding.groupId == LastHit(s, k).groupId &&
      next.value.finding.resolvedAt == LastHit(s, k).resolvedAt &&
      (b.Memory? ==>
         next.value.finding.target == LastHit(s, k).target && next.value.finding.check == LastHit(s, k).check)
  {
    HitsAre(s.reports, k.fingerprint);
    var hits := Hits(s.reports, k.fingerprint);
    assert hits[|hits| - 1] in hits && hits[0] in hits;
  }

  // ----- what is announced -----------------------------------------------------------

  /** The entry announced for a report that opens its key: open, described by the report, seen now. */
  lemma AnnouncedAsReported(s: Scan, m: Records, inc: Incoming)
    requires WellKeyed(m) && Opens(s, Lookup(m, KeyIn(s, inc)), inc)
    ensures
      var fs := OpenedOne(s, m, inc);
      |fs| == 1 && Announces(s, fs[0], inc)
  {
    assert KeyIn(s, inc) in m ==> KeyOf(m[KeyIn(s, inc)]) == KeyIn(s, inc);
  }

  /** What is announced for the last report of a key is what is stored, up to the ID that SQL keeps. */
  lemma AnnouncedAsStored(who: Key -> Origin, b: Backend, s: Scan, m: Records, inc: Incoming)
    requires CollectorFields(s) && Attributed(who, s) && WellKeyed(m)
    requires Owned(who, KeyIn(s, inc), Lookup(m, KeyIn(s, inc))) && Opens(s, Lookup(m, KeyIn(s, inc)), inc)
    requires
      var hits := Hits(s.reports, inc.finding.fingerprint);
      hits != [] && hits[|hits| - 1] == inc
    ensures
      var k, fs := KeyIn(s, inc), OpenedOne(s, m, inc);
      k in Scanned(b, s, m) && |fs| == 1 &&
      var stored := Scanned(b, s, m)[k].finding;
      stored.(id := fs[0].id) == fs[0] && (b.Memory? ==> stored == fs[0])
  {
    var k := KeyIn(s, inc);
    ScannedAt(b, s, m, k);
    StepOwned(who, b, s, k, Lookup(m, k));
    var hits := Hits(s.reports, inc.finding.fingerprint);
    assert hits[0] in hits && inc in hits;
  }

  /** What is announced as resolved is what is stored. */
  lemma ResolvedAsStored(b: Backend, s: Scan, m: Records, k: Key)
    requires Resolves(s, k, Lookup(m, k))
    ensures k in Scanned(b, s, m) && Scanned(b, s, m)[k].finding == ResolvedFinding(s, m, k)
    ensures ResolvedFinding(s, m, k).status == Resolved && ResolvedFinding(s, m, k).resolvedAt == Some(s.now)
  {
    ScannedAt(b, s, m, k);
  }

  /** The announcement of a report that opens its key. */
  predicate Announces(s: Scan, f: Finding, inc: Incoming) {
    f.status == Open && f.lastSeen == s.now && Describes(Record(f, 0), inc.finding) &&
    f.fingerprint == inc.finding.fingerprint && f.moduleId == s.mod.id
  }

  function Opening(s: Scan, m: Records): Incoming -> bool { (inc: Incoming) => Opens(s, Lookup(m, KeyIn(s, inc)), inc) }

  lemma {:induction false} OpenedAreFiltered(s: Scan, m: Records, reports: seq<Incoming>)
    requires WellKeyed(m)
    ensures
      var es, fs := Filter(reports, Opening(s, m)), OpenedBy(s, m, reports);
      |fs| == |es| && forall i :: 0 <= i < |es| ==> Announces(s, fs[i], es[i])
  {
    if reports == [] {
    } else {
      var rest, last := reports[..|reports| - 1], reports[|reports| - 1];
      OpenedAreFiltered(s, m, rest);
      if Opens(s, Lookup(m, KeyIn(s, last)), last) {
        AnnouncedAsReported(s, m, last);
      } else {
        assert OpenedBy(s, m, reports) == OpenedBy(s, m, rest);
      }
    }
  }

  /** The newly-open list announces exactly the reports that open their key, each once, in report order. */
  lemma OpenedInOrder(s: Scan, m: Records, reports: seq<Incoming>) returns (at: seq<nat>)
    requires WellKeyed(m)
    ensures Chosen(reports, Opening(s, m), at) && |at| == |OpenedBy(s, m, reports)|
    ensures forall i :: 0 <= i < |at| ==> Announces(s, OpenedBy(s, m, reports)[i], reports[at[i]])
  {
    OpenedAreFiltered(s, m, reports);
    at := FilterPicks(reports, Opening(s, m), Filter(reports, Opening(s, m)));
  }

  function Malformed(): Incoming -> bool { (inc: Incoming) => ValidateForIngest(inc.finding).Some? }

  predicate Rejects(r: Rejection, f: Finding) { r.finding == f && ValidateForIngest(f) == Some(r.field) }

  lemma {:induction false} RejectedAreFiltered(reports: seq<Incoming>)
    ensures
      var es, rs := Filter(reports, Malformed()), RejectedBy(reports);
      |rs| == |es| && forall i :: 0 <= i < |es| ==> Rejects(rs[i], es[i].finding)
  {
    if reports == [] {
    } else {
      RejectedAreFiltered(reports[..|reports| - 1]);
    }
  }

  /** The rejected list names exactly the malformed reports, each with its first malformed field, in report order. */
  lemma RejectedInOrder(reports: seq<Incoming>) returns (at: seq<nat>)
    ensures Chosen(reports, Malformed(), at) && |at| == |RejectedBy(reports)|
    ensures forall i :: 0 <= i < |at| ==> Rejects(RejectedBy(reports)[i], reports[at[i]].finding)
  {
    RejectedAreFiltered(reports);
    at := FilterPicks(reports, Malformed(), Filter(reports, Malformed()));
  }

  // ----- status changes and deletes ------------------------------------------------------

  /** A status change sets the status it was asked for, of that record, and nothing else. */
  lemma StatusChangesOnly(b: Backend, m: Records, k: Key, next: Status, l: Key)
    requires WellKeyed(m) && next != Resolved && k in m && l in m
    ensures
      var after := Apply(b, DoStatus(k, next), m);
      after.Keys == m.Keys && after[l].absentStreak == m[l].absentStreak &&
      after[l].finding.status == (if l == k then next else m[l].finding.status) &&
      after[l].finding.(status := m[l].finding.status) == m[l].finding
  {
  }

  /** A retention delete leaves every record that is not resolved, or was resolved at the cutoff or later. */
  lemma DeletesOnlyOld(m: Records, cutoff: int, k: Key)
    requires k in m
    ensures k !in Pruned(m, cutoff) <==>
      m[k].finding.status == Resolved && exists t :: m[k].finding.resolvedAt == Some(t) && t < cutoff
    ensures k in Pruned(m, cutoff) ==> Pruned(m, cutoff)[k] == m[k]
  {
    if Prunable(m[k], cutoff) {
      assert m[k].finding.resolvedAt == Some(m[k].finding.resolvedAt.value);
    }
  }

  /** The status of an unresolved record as its history has it: open when it was opened, then what the user set. */
  function LastSet(b: Backend, acts: seq<Action>, k: Key): Status {
    if acts == [] then Open
    else
      var n := |acts| - 1;
      var prev := Lookup(Run(b, acts[..n]), k);
      match acts[n]
      case DoScan(_) => if Unresolved(prev) then LastSet(b, acts[..n], k) else Open
      case DoStatus(key, next) => if key == k && next != Resolved && prev.Some? then next else LastSet(b, acts[..n], k)
      case DoForget(_) => LastSet(b, acts[..n], k)
  }

  /** Over every run an unresolved record has the status the user last gave it since it was opened. */
  lemma {:induction false} StatusIsLastSet(who: Key -> Origin, b: Backend, acts: seq<Action>, k: Key)
    requires OwnedRun(who, acts)
    ensures
      var r := Lookup(Run(b, acts), k);
      Unresolved(r) ==> r.value.finding.status == LastSet(b, acts, k)
  {
    if acts == [] {
    } else {
      var n := |acts| - 1;
      PartOwned(who, acts);
      StatusIsLastSet(who, b, acts[..n], k);
      RunOwned(who, b, acts[..n], k);
      RunSnoc(b, acts, k);
      if acts[n].DoScan? {
        ScanStatus(who, b, acts[n].scan, k, Lookup(Run(b, acts[..n]), k));
      }
    }
  }

  lemma ScanStatus(who: Key -> Origin, b: Backend, s: Scan, k: Key, prev: Option<Record>)
    requires CollectorFields(s) && Attributed(who, s) && Owned(who, k, prev)
    ensures
      var next := Step(b, s, k, prev);
      Unresolved(next) ==>
        next.value.finding.status == if Unresolved(prev) then prev.value.finding.status else Open
  {
    StepOwned(who, b, s, k, prev);
  }
}
