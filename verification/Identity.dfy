/** What a scan leaves alone: a record's identity, and the status a user gave it. */
module Identity {
  import opened Findings
  import opened Store
  import opened Lifecycle
  import opened Conservation

  /** Everything that says which finding a record is, and since when. */
  predicate SameIdentity(r: Record, later: Record) {
    r.finding.id == later.finding.id && r.finding.firstSeen == later.finding.firstSeen &&
    r.finding.groupId == later.finding.groupId && r.finding.fingerprint == later.finding.fingerprint &&
    r.finding.moduleId == later.finding.moduleId && r.finding.target == later.finding.target &&
    r.finding.check == later.finding.check
  }

  lemma StepKeepsIdentity(who: Key -> Origin, b: Backend, s: Scan, k: Key, r: Record)
    requires CollectorFields(s) && Attributed(who, s) && Owned(who, k, Some(r))
    ensures Step(b, s, k, Some(r)).Some? && SameIdentity(r, Step(b, s, k, Some(r)).value)
  {
    StepOwned(who, b, s, k, Some(r));
    var hits := Hits(s.reports, k.fingerprint);
    assert hits != [] ==> hits[|hits| - 1] in hits;
  }

  lemma ActKeepsIdentity(who: Key -> Origin, b: Backend, a: Action, k: Key, r: Record)
    requires a.DoScan? ==> CollectorFields(a.scan) && Attributed(who, a.scan)
    requires Owned(who, k, Some(r)) && (a.DoForget? ==> k !in a.keys)
    ensures ApplyAt(b, a, k, Some(r)).Some? && SameIdentity(r, ApplyAt(b, a, k, Some(r)).value)
  {
    if a.DoScan? {
      StepKeepsIdentity(who, b, a.scan, k, r);
    }
  }

  ghost predicate Continues(was: Option<Record>, now: Option<Record>) {
    was.Some? && now.Some? && SameIdentity(was.value, now.value)
  }

  lemma RunKeepsIdentity(who: Key -> Origin, b: Backend, run: seq<Action>, k: Key)
    requires run != [] && OwnedRun(who, run[..|run| - 1]) && Lookup(Run(b, run[..|run| - 1]), k).Some?
    requires OwnedRun(who, [run[|run| - 1]]) && (run[|run| - 1].DoForget? ==> k !in run[|run| - 1].keys)
    ensures Continues(Lookup(Run(b, run[..|run| - 1]), k), Lookup(Run(b, run), k))
  {
    var before, a := run[..|run| - 1], run[|run| - 1];
    RunOwned(who, b, before, k);
    RunSnoc(b, run, k);
    assert a in [a];
    ActKeepsIdentity(who, b, a, k, Lookup(Run(b, before), k).value);
  }

  ghost predicate Spares(acts: seq<Action>, n: nat, k: Key) {
    forall j :: n <= j < |acts| && acts[j].DoForget? ==> k !in acts[j].keys
  }

  /** From its first scan until it is deleted, a record keeps its ID, its first sight, its group and its place. */
  lemma {:induction false} IdentityIsStable(who: Key -> Origin, b: Backend, acts: seq<Action>, n: nat, k: Key)
    requires OwnedRun(who, acts) && n <= |acts| && Spares(acts, n, k) && Lookup(Run(b, acts[..n]), k).Some?
    ensures Continues(Lookup(Run(b, acts[..n]), k), Lookup(Run(b, acts), k))
    decreases |acts|
  {
    if n == |acts| {
      assert acts[..n] == acts;
    } else {
      var before := acts[..|acts| - 1];
      assert before[..n] == acts[..n];
      PartOwned(who, acts);
      IdentityIsStable(who, b, before, n, k);
      RunKeepsIdentity(who, b, acts, k);
    }
  }

  /** A scan changes the status of an unresolved record only by resolving it, and never that of a suppressed one. */
  lemma StatusSurvives(who: Key -> Origin, b: Backend, s: Scan, k: Key, r: Record)
    requires CollectorFields(s) && Attributed(who, s) && Owned(who, k, Some(r)) && r.finding.status != Resolved
    ensures
      var next := Step(b, s, k, Some(r));
      next.Some? && next.value.finding.status == (if Resolves(s, k, Some(r)) then Resolved else r.finding.status)
    ensures Resolves(s, k, Some(r)) ==> r.finding.status != Suppressed
  {
    StepOwned(who, b, s, k, Some(r));
    var hits := Hits(s.reports, k.fingerprint);
    assert hits != [] ==> hits[|hits| - 1] in hits;
  }

  predicate IsSuppressed(r: Option<Record>) { r.Some? && r.value.finding.status == Suppressed }

  lemma ActKeepsSuppressed(who: Key -> Origin, b: Backend, a: Action, m: Records, k: Key)
    requires a.DoScan? ==> CollectorFields(a.scan) && Attributed(who, a.scan)
    requires a.DoStatus? ==> a.key != k
    requires WellKeyed(m) && Owned(who, k, Lookup(m, k)) && IsSuppressed(Lookup(m, k))
    ensures IsSuppressed(ApplyAt(b, a, k, Lookup(m, k)))
    ensures a.DoScan? ==> EventsAt(a.scan, m, k) == []
  {
    if a.DoScan? {
      StatusSurvives(who, b, a.scan, k, m[k]);
      ScanEvents(who, b, a.scan, m, k);
    }
  }

  lemma RunKeepsSuppressed(who: Key -> Origin, b: Backend, run: seq<Action>, k: Key)
    requires run != [] && OwnedRun(who, run) && IsSuppressed(Lookup(Run(b, run[..|run| - 1]), k))
    requires run[|run| - 1].DoStatus? ==> run[|run| - 1].key != k
    ensures IsSuppressed(Lookup(Run(b, run), k))
    ensures Events(b, run, k) == Events(b, run[..|run| - 1], k)
  {
    var before, a := run[..|run| - 1], run[|run| - 1];
    PartOwned(who, run);
    RunOwned(who, b, before, k);
    RunWellKeyed(b, before);
    RunSnoc(b, run, k);
    ActKeepsSuppressed(who, b, a, Run(b, before), k);
  }

  ghost predicate Untouched(acts: seq<Action>, n: nat, k: Key) {
    forall j :: n <= j < |acts| && acts[j].DoStatus? ==> acts[j].key != k
  }

  /** Until the user changes it, a suppressed record stays suppressed and announces nothing, reported or not. */
  lemma {:induction false} SuppressedIsSilent(who: Key -> Origin, b: Backend, acts: seq<Action>, n: nat, k: Key)
    requires OwnedRun(who, acts) && n <= |acts| && Untouched(acts, n, k)
    requires IsSuppressed(Lookup(Run(b, acts[..n]), k))
    ensures IsSuppressed(Lookup(Run(b, acts), k))
    ensures Events(b, acts, k) == Events(b, acts[..n], k)
    decreases |acts|
  {
    if n == |acts| {
      assert acts[..n] == acts;
    } else {
      var before := acts[..|acts| - 1];
      assert before[..n] == acts[..n];
      PartOwned(who, acts);
      SuppressedIsSilent(who, b, before, n, k);
      RunKeepsSuppressed(who, b, acts, k);
    }
  }
}
