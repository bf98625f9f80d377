/** What the absence counter remembers: the record of a fingerprint is a function of the scan history. */
module Windows {
  import opened Basics
  import opened Findings
  import opened Store
  import opened Lifecycle
  import opened Effects

  function Script(scans: seq<Scan>): seq<Action> { seq(|scans|, i requires 0 <= i < |scans| => DoScan(scans[i])) }

  ghost predicate Reported(s: Scan, fp: string) {
    exists inc :: inc in s.reports && Reports(inc, fp)
  }

  ghost predicate LastReport(scans: seq<Scan>, fp: string, last: int) {
    && 0 <= last < |scans|
    && Reported(scans[last], fp)
    && forall j :: last < j < |scans| ==> !Reported(scans[j], fp)
  }

  /** r says what a history whose last report of fp was at index last, with threshold k, should say. */
  ghost predicate Remembers(r: Record, scans: seq<Scan>, fp: string, k: int, last: int)
    requires LastReport(scans, fp, last) && k >= 1
  {
    var missed := |scans| - 1 - last;
    var hits := Hits(scans[last].reports, fp);
    && r.absentStreak == Min(k, missed)
    && (r.finding.status == Resolved <==> missed >= k)
    && r.finding.status != Suppressed
    && r.finding.resolvedAt == (if missed >= k then Some(scans[last + k].now) else None)
    && r.finding.lastSeen == scans[last].now
    && r.finding.target == scans[last].target
    && hits != []
    && var f := CapEvidence(hits[|hits| - 1].finding);
       r.finding.title == f.title && r.finding.severity == f.severity && r.finding.remediation == f.remediation &&
         r.finding.evidence == f.evidence
  }

  /** r is what the scans so far should have left for fp. */
  ghost predicate Window(r: Option<Record>, scans: seq<Scan>, fp: string, k: int)
    requires k >= 1
  {
    && (r.Some? <==> exists s :: s in scans && Reported(s, fp))
    && (forall last :: LastReport(scans, fp, last) ==> r.Some? && Remembers(r.value, scans, fp, k, last))
  }

  /** Runs without a status change of k and without a delete that lists it. */
  ghost predicate LeftAlone(acts: seq<Action>, k: Key) {
    forall a :: a in acts ==> (a.DoStatus? ==> a.key != k) && (a.DoForget? ==> k !in a.keys)
  }

  /** The scans that concern k: of its module and its target. */
  function Own(who: Key -> Origin, acts: seq<Action>, k: Key): seq<Scan> {
    if acts == [] then []
    else
      var n := |acts| - 1;
      Own(who, acts[..n], k) + if Concerns(who, acts[n], k) then [acts[n].scan] else []
  }

  predicate Concerns(who: Key -> Origin, a: Action, k: Key) {
    a.DoScan? && a.scan.mod.id == k.moduleId && a.scan.target == who(k).target
  }

  lemma OtherActions(who: Key -> Origin, b: Backend, a: Action, k: Key, prev: Option<Record>)
    requires OwnedRun(who, [a]) && LeftAlone([a], k) && Owned(who, k, prev) && !Concerns(who, a, k)
    ensures ApplyAt(b, a, k, prev) == prev
  {
    assert a in [a];
    if a.DoScan? {
      StepOwned(who, b, a.scan, k, prev);
    }
  }

  /** Nothing but its own scans matters to a key: scans of other modules and targets drop out of the run. */
  lemma {:induction false} OnlyOwnScans(who: Key -> Origin, b: Backend, acts: seq<Action>, k: Key)
    requires OwnedRun(who, acts) && LeftAlone(acts, k)
    ensures Lookup(Run(b, acts), k) == Lookup(Run(b, Script(Own(who, acts, k))), k)
    ensures forall s :: s in Own(who, acts, k) ==>
      DoScan(s) in acts && s.mod.id == k.moduleId && s.target == who(k).target && CollectorFields(s)
  {
    if acts == [] {
    } else {
      var n := |acts| - 1;
      var own := Own(who, acts[..n], k);
      PartOwned(who, acts);
      assert acts[n] in acts && LeftAlone([acts[n]], k);
      OnlyOwnScans(who, b, acts[..n], k);
      RunSnoc(b, acts, k);
      if Concerns(who, acts[n], k) {
        ScriptSnoc(own, acts[n].scan);
        RunSnoc(b, Script(own + [acts[n].scan]), k);
      } else {
        RunOwned(who, b, acts[..n], k);
        OtherActions(who, b, acts[n], k, Lookup(Run(b, acts[..n]), k));
        assert Own(who, acts, k) == own;
      }
    }
  }

  lemma ScriptSnoc(scans: seq<Scan>, s: Scan)
    ensures Script(scans + [s]) == Script(scans) + [DoScan(s)]
  {
  }

  /** What the window says of fp after these scans of its target. */
  ghost predicate WindowHolds(r: Option<Record>, scans: seq<Scan>, fp: string, k: int)
    requires k >= 1
  {
    && Window(r, scans, fp, k)
    && (r.Some? && r.value.finding.status == Resolved <==>
          r.Some? && |scans| >= k && forall j :: |scans| - k <= j < |scans| ==> !Reported(scans[j], fp))
  }

  /**
   * Runs that leave counting to the scans: status changes find k unresolved and set it to open or
   * acknowledged, and no delete lists it.
   */
  ghost predicate Tended(b: Backend, acts: seq<Action>, k: Key) {
    acts == [] ||
    (var n := |acts| - 1;
     Tended(b, acts[..n], k) &&
     match acts[n]
     case DoScan(_) => true
     case DoStatus(key, next) =>
       key == k ==> next in {Open, Acknowledged} && !Revives(acts[n], Run(b, acts[..n]), k)
     case DoForget(keys) => k !in keys)
  }

  /** Runs that leave k alone are tended, and what the user last set is what it was opened with. */
  lemma {:induction false} LeftAloneIsTended(b: Backend, acts: seq<Action>, k: Key)
    requires LeftAlone(acts, k)
    ensures Tended(b, acts, k) && LastSet(b, acts, k) == Open
  {
    if acts == [] {
    } else {
      assert acts[|acts| - 1] in acts;
      LeftAloneIsTended(b, acts[..|acts| - 1], k);
    }
  }

  ghost predicate OneSetting(acts: seq<Action>, mod: ModuleInfo) {
    forall a :: a in acts && a.DoScan? && a.scan.mod.id == mod.id ==> a.scan.mod == mod
  }

  /**
   * Sliding window, in any run: a fingerprint has a record iff some scan of its target validly
   * reported it; the streak is the number of those scans since the last report, cut at the
   * threshold; and the record is resolved iff the last k of them all omitted it, whether it was
   * open or acknowledged before; until then it has the status the user last gave it.
   */
  lemma SlidingWindow(who: Key -> Origin, b: Backend, acts: seq<Action>, mod: ModuleInfo, fp: string)
    requires OwnedRun(who, acts) && Tended(b, acts, Key(mod.id, fp)) && OneSetting(acts, mod)
    ensures
      var key := Key(mod.id, fp);
      var r := Lookup(Run(b, acts), key);
      WindowHolds(r, Own(who, acts, key), fp, ResolveAfterOrDefault(mod)) &&
      (Unresolved(r) ==> r.value.finding.status == LastSet(b, acts, key))
  {
    var key := Key(mod.id, fp);
    StatusIsLastSet(who, b, acts, key);
    var scans := Own(who, acts, key);
    WindowInduction(who, b, acts, mod, fp);
    if exists s :: s in scans && Reported(s, fp) {
      var last := FindLast(scans, fp);
    }
  }

  lemma {:induction false} FindLast(scans: seq<Scan>, fp: string) returns (last: int)
    requires exists s :: s in scans && Reported(s, fp)
    ensures LastReport(scans, fp, last)
  {
    var n := |scans| - 1;
    if Reported(scans[n], fp) {
      last := n;
    } else {
      var s :| s in scans && Reported(s, fp);
      assert s in scans[..n];
      last := FindLast(scans[..n], fp);
    }
  }

  lemma {:induction false} WindowInduction(
      who: Key -> Origin, b: Backend, acts: seq<Action>, mod: ModuleInfo, fp: string)
    requires OwnedRun(who, acts) && Tended(b, acts, Key(mod.id, fp)) && OneSetting(acts, mod)
    ensures
      var key := Key(mod.id, fp);
      Window(Lookup(Run(b, acts), key), Own(who, acts, key), fp, ResolveAfterOrDefault(mod))
  {
    if acts == [] {
    } else {
      var key, before, a := Key(mod.id, fp), acts[..|acts| - 1], acts[|acts| - 1];
      PartOwned(who, acts);
      assert a in acts;
      WindowInduction(who, b, before, mod, fp);
      RunSnoc(b, acts, key);
      RunOwned(who, b, before, key);
      ActWindow(who, b, a, Run(b, before), Own(who, before, key), mod, fp);
      assert !Concerns(who, a, key) ==> Own(who, acts, key) == Own(who, before, key);
    }
  }

  /** One action of the run. */
  lemma ActWindow(
      who: Key -> Origin, b: Backend, a: Action, m: Records, scans: seq<Scan>, mod: ModuleInfo, fp: string)
    requires OwnedRun(who, [a]) && OneSetting([a], mod) && Owned(who, Key(mod.id, fp), Lookup(m, Key(mod.id, fp)))
    requires a.DoForget? ==> Key(mod.id, fp) !in a.keys
    requires a.DoStatus? && a.key == Key(mod.id, fp) ==> a.next in {Open, Acknowledged} && !Revives(a, m, a.key)
    requires Window(Lookup(m, Key(mod.id, fp)), scans, fp, ResolveAfterOrDefault(mod))
    ensures
      var key := Key(mod.id, fp);
      var all := if Concerns(who, a, key) then scans + [a.scan] else scans;
      Window(ApplyAt(b, a, key, Lookup(m, key)), all, fp, ResolveAfterOrDefault(mod))
  {
    var key := Key(mod.id, fp);
    assert a in [a];
    if Concerns(who, a, key) {
      assert (scans + [a.scan])[..|scans|] == scans;
      WindowStep(b, scans + [a.scan], fp, Lookup(m, key));
    } else if a.DoScan? {
      StepOwned(who, b, a.scan, key, Lookup(m, key));
    }
  }

  lemma WindowStep(b: Backend, scans: seq<Scan>, fp: string, prev: Option<Record>)
    requires scans != [] && CollectorFields(scans[|scans| - 1])
    requires Window(prev, scans[..|scans| - 1], fp, ResolveAfterOrDefault(scans[|scans| - 1].mod))
    requires prev.Some? ==> prev.value.finding.target == scans[|scans| - 1].target
    ensures
      var s := scans[|scans| - 1];
      Window(Step(b, s, Key(s.mod.id, fp), prev), scans, fp, ResolveAfterOrDefault(s.mod))
  {
    var s, before := scans[|scans| - 1], scans[..|scans| - 1];
    if prev.Some? {
      var was := FindLast(before, fp);
    }
    if Hits(s.reports, fp) != [] {
      WindowHit(b, scans, fp, prev);
    } else {
      HitsAre(s.reports, fp);
      assert !Reported(s, fp);
      WindowGap(scans, fp);
      if prev.Some? {
        var was := FindLast(before, fp);
        WindowMiss(prev.value, scans, fp, ResolveAfterOrDefault(s.mod), was);
        forall last | LastReport(scans, fp, last)
          ensures last == was
        {
          OneLast(before, fp, last, was);
        }
      }
    }
  }

  /** A scan that omits fp moves no last report. */
  lemma WindowGap(scans: seq<Scan>, fp: string)
    requires scans != [] && !Reported(scans[|scans| - 1], fp)
    ensures (exists s :: s in scans && Reported(s, fp)) <==> exists s :: s in scans[..|scans| - 1] && Reported(s, fp)
    ensures forall last :: LastReport(scans, fp, last) ==> LastReport(scans[..|scans| - 1], fp, last)
  {
    assert scans == scans[..|scans| - 1] + [scans[|scans| - 1]];
  }

  lemma OneLast(scans: seq<Scan>, fp: string, i: int, j: int)
    requires LastReport(scans, fp, i) && LastReport(scans, fp, j)
    ensures i == j
  {
  }

  /** A scan that reports fp. */
  lemma WindowHit(b: Backend, scans: seq<Scan>, fp: string, prev: Option<Record>)
    requires scans != [] && CollectorFields(scans[|scans| - 1]) && Hits(scans[|scans| - 1].reports, fp) != []
    requires prev.Some? ==> prev.value.finding.target == scans[|scans| - 1].target
    requires prev.Some? && prev.value.finding.status != Resolved ==>
      prev.value.finding.status != Suppressed && prev.value.finding.resolvedAt == None
    ensures LastReport(scans, fp, |scans| - 1)
    ensures
      var s := scans[|scans| - 1];
      var r := Step(b, s, Key(s.mod.id, fp), prev);
      r.Some? && Remembers(r.value, scans, fp, ResolveAfterOrDefault(s.mod), |scans| - 1)
  {
    var s := scans[|scans| - 1];
    var hits := Hits(s.reports, fp);
    HitsAre(s.reports, fp);
    assert hits[|hits| - 1] in hits && hits[0] in hits;
    assert Reported(s, fp);
  }

  /** One more omitted scan. */
  lemma WindowMiss(r: Record, scans: seq<Scan>, fp: string, k: int, last: int)
    requires scans != [] && k >= 1 && !Reported(scans[|scans| - 1], fp)
    requires LastReport(scans[..|scans| - 1], fp, last) && Remembers(r, scans[..|scans| - 1], fp, k, last)
    ensures LastReport(scans, fp, last) && Remembers(Missed(r, k, scans[|scans| - 1].now), scans, fp, k, last)
  {
  }
}
