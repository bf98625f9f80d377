/** Opened and resolved events over whole runs: they alternate, and they add up. */
module Conservation {
  import opened Findings
  import opened Store
  import opened Lifecycle

  function CountOf(fs: seq<Finding>, fp: string): nat {
    if fs == [] then 0 else CountOf(fs[..|fs| - 1], fp) + if fs[|fs| - 1].fingerprint == fp then 1 else 0
  }

  function Copies(kind: EventKind, n: nat): seq<EventKind> {
    if n == 0 then [] else Copies(kind, n - 1) + [kind]
  }

  /** The events a scan announces about key k: its entries in newly-open, then in resolved. */
  function EventsAt(s: Scan, m: Records, k: Key): seq<EventKind> {
    if k.moduleId != s.mod.id then []
    else Copies(KindOpened, CountOf(OpenedBy(s, m, s.reports), k.fingerprint))
         + if Resolves(s, k, Lookup(m, k)) then [KindResolved] else []
  }

  function Events(b: Backend, acts: seq<Action>, k: Key): seq<EventKind> {
    if acts == [] then []
    else
      var n := |acts| - 1;
      Events(b, acts[..n], k) + if acts[n].DoScan? then EventsAt(acts[n].scan, Run(b, acts[..n]), k) else []
  }

  lemma {:induction false} CountSplit(a: seq<Finding>, c: seq<Finding>, fp: string)
    ensures CountOf(a + c, fp) == CountOf(a, fp) + CountOf(c, fp)
  {
    if c == [] {
      assert a + c == a;
    } else {
      assert (a + c)[..|a + c| - 1] == a + c[..|c| - 1];
      CountSplit(a, c[..|c| - 1], fp);
    }
  }

  /** How often a key is opened: once per report of it, if it was absent from the snapshot or resolved. */
  lemma {:induction false} OpenedCount(s: Scan, m: Records, reports: seq<Incoming>, k: Key)
    requires k.moduleId == s.mod.id && WellKeyed(m)
    ensures CountOf(OpenedBy(s, m, reports), k.fingerprint) ==
      if !Unresolved(Snapshot(Lookup(m, k), s.target)) then |Hits(reports, k.fingerprint)| else 0
  {
    if reports == [] {
    } else {
      var n := |reports| - 1;
      OpenedCount(s, m, reports[..n], k);
      var one := OpenedOne(s, m, reports[n]);
      CountSplit(OpenedBy(s, m, reports[..n]), one, k.fingerprint);
      OpenedKey(s, m, reports[n]);
      assert one != [] ==> one[..0] == [];
      assert CountOf(one, k.fingerprint) == if one != [] && one[0].fingerprint == k.fingerprint then 1 else 0;
    }
  }

  lemma OpenedKey(s: Scan, m: Records, inc: Incoming)
    requires WellKeyed(m)
    ensures OpenedOne(s, m, inc) != [] ==>
      OpenedOne(s, m, inc)[0].fingerprint == inc.finding.fingerprint && OpenedOne(s, m, inc)[0].moduleId == s.mod.id
  {
    assert KeyIn(s, inc) in m ==> KeyOf(m[KeyIn(s, inc)]) == KeyIn(s, inc);
  }

  /** How many valid reports of k the scan carries. */
  function ReportsOf(s: Scan, k: Key): nat {
    if k.moduleId == s.mod.id then |Hits(s.reports, k.fingerprint)| else 0
  }

  /** What a scan announces about a key: one opening per report, or, if it was unresolved, at most a resolution. */
  function Announces(was: bool, now: bool, reports: nat): seq<EventKind> {
    if !was then Copies(KindOpened, reports) else if now then [] else [KindResolved]
  }

  lemma ScanEvents(who: Key -> Origin, b: Backend, s: Scan, m: Records, k: Key)
    requires CollectorFields(s) && Attributed(who, s) && WellKeyed(m) && Owned(who, k, Lookup(m, k))
    ensures
      var was, now := Unresolved(Lookup(m, k)), Unresolved(Step(b, s, k, Lookup(m, k)));
      EventsAt(s, m, k) == Announces(was, now, ReportsOf(s, k)) && (!was ==> (now <==> ReportsOf(s, k) > 0))
  {
    Crossings(who, b, s, m, k);
  }

  lemma Crossings(who: Key -> Origin, b: Backend, s: Scan, m: Records, k: Key)
    requires CollectorFields(s) && Attributed(who, s) && WellKeyed(m) && Owned(who, k, Lookup(m, k))
    ensures k.moduleId == s.mod.id ==>
      CountOf(OpenedBy(s, m, s.reports), k.fingerprint) == if Unresolved(Lookup(m, k)) then 0 else ReportsOf(s, k)
    ensures
      var was, now := Unresolved(Lookup(m, k)), Unresolved(Step(b, s, k, Lookup(m, k)));
      (Resolves(s, k, Lookup(m, k)) <==> was && !now) && (!was ==> (now <==> ReportsOf(s, k) > 0))
  {
    if k.moduleId == s.mod.id {
      OpenedCount(s, m, s.reports, k);
      StepOwned(who, b, s, k, Lookup(m, k));
      StepStatus(b, s, k, Lookup(m, k));
    }
  }

  /** Which status a scan leaves, key by key. */
  lemma StepStatus(b: Backend, s: Scan, k: Key, prev: Option<Record>)
    requires k.moduleId == s.mod.id
    ensures Hits(s.reports, k.fingerprint) != [] ==> Unresolved(Step(b, s, k, prev))
    ensures Hits(s.reports, k.fingerprint) == [] ==>
      (Unresolved(Step(b, s, k, prev)) <==> Unresolved(prev) && !Resolves(s, k, prev))
  {
  }

  /** Opened first, then in turns. */
  ghost predicate Alternates(es: seq<EventKind>) {
    (es != [] ==> es[0] == KindOpened) && forall i :: 0 < i < |es| ==> es[i] != es[i - 1]
  }

  predicate LastOpened(es: seq<EventKind>) { es != [] && es[|es| - 1] == KindOpened }

  /** The last event says whether the record is unresolved. */
  predicate Tells(es: seq<EventKind>, unresolved: bool) { unresolved <==> LastOpened(es) }

  lemma {:induction false} CopiesAre(kind: EventKind, n: nat)
    ensures |Copies(kind, n)| == n && forall i :: 0 <= i < n ==> Copies(kind, n)[i] == kind
  {
    if n == 0 {
    } else {
      CopiesAre(kind, n - 1);
    }
  }

  /** One more scan of the key, which a user's status change may have revived without an event. */
  lemma EventsSnoc(es: seq<EventKind>, silent: bool, was: bool, now: bool, reports: nat)
    requires (was <==> LastOpened(es) || silent) && (silent ==> !LastOpened(es)) && (!was ==> (now <==> reports > 0))
    ensures
      var all, still := es + Announces(was, now, reports), silent && now;
      (now <==> LastOpened(all) || still) && (still ==> !LastOpened(all)) &&
      (Alternates(all) <==> Alternates(es) && if was then now || !silent else reports < 2)
  {
    var all := es + Announces(was, now, reports);
    CopiesAre(KindOpened, reports);
    assert Alternates(all) ==> Alternates(es) by {
      assert forall i :: 0 <= i < |es| ==> es[i] == all[i];
    }
    assert !was && reports >= 2 ==> all[|es| + 1] == all[|es|];
    assert was && !now && silent && es != [] ==> all[|es|] == all[|es| - 1];
  }

  /** The scan opens k more than once: k was not unresolved, and two valid reports carry its fingerprint. */
  predicate OpensTwice(s: Scan, m: Records, k: Key) { !Unresolved(Lookup(m, k)) && ReportsOf(s, k) >= 2 }

  /** A status change revived k, and no scan has resolved it since: nothing was announced. */
  ghost predicate Silent(b: Backend, acts: seq<Action>, k: Key) {
    if acts == [] then false
    else
      var n := |acts| - 1;
      var m := Run(b, acts[..n]);
      if acts[n].DoScan? then Silent(b, acts[..n], k) && !Resolves(acts[n].scan, k, Lookup(m, k))
      else Silent(b, acts[..n], k) || Revives(acts[n], m, k)
  }

  /** No scan of the run opened k more than once, or resolved it a second time after a silent revival. */
  ghost predicate Orderly(b: Backend, acts: seq<Action>, k: Key) {
    acts == [] ||
    (var n := |acts| - 1;
     var m := Run(b, acts[..n]);
     Orderly(b, acts[..n], k) &&
     (acts[n].DoScan? ==>
       !OpensTwice(acts[n].scan, m, k) && !(Silent(b, acts[..n], k) && Resolves(acts[n].scan, k, Lookup(m, k)))))
  }

  /** What the events of k say about its record, after every run. */
  ghost predicate Says(b: Backend, acts: seq<Action>, k: Key) {
    var es, unresolved, silent := Events(b, acts, k), Unresolved(Lookup(Run(b, acts), k)), Silent(b, acts, k);
    (unresolved <==> LastOpened(es) || silent) && (silent ==> !LastOpened(es)) &&
    (Alternates(es) <==> Orderly(b, acts, k))
  }

  /**
   * Over every run the last event of a key tells whether its record is unresolved, exactly unless a
   * status change silently revived it; and the events alternate, starting with opened, exactly when
   * no scan opened the key more than once or resolved it after a silent revival.
   */
  lemma Alternation(who: Key -> Origin, b: Backend, acts: seq<Action>, k: Key)
    requires OwnedRun(who, acts)
    ensures Tells(Events(b, acts, k), Unresolved(Lookup(Run(b, acts), k))) <==> !Silent(b, acts, k)
    ensures Alternates(Events(b, acts, k)) <==> Orderly(b, acts, k)
  {
    EventsSay(who, b, acts, k);
  }

  lemma {:induction false} EventsSay(who: Key -> Origin, b: Backend, acts: seq<Action>, k: Key)
    requires OwnedRun(who, acts)
    ensures Says(b, acts, k)
  {
    if acts == [] {
    } else {
      var n := |acts| - 1;
      PartOwned(who, acts);
      EventsSay(who, b, acts[..n], k);
      RunSnoc(b, acts, k);
      if acts[n].DoScan? {
        ScanSays(who, b, acts, k);
      } else {
        assert Events(b, acts, k) == Events(b, acts[..n], k);
      }
    }
  }

  lemma ScanSays(who: Key -> Origin, b: Backend, acts: seq<Action>, k: Key)
    requires acts != [] && acts[|acts| - 1].DoScan? && OwnedRun(who, acts) && Says(b, acts[..|acts| - 1], k)
    ensures Says(b, acts, k)
  {
    var before, s := acts[..|acts| - 1], acts[|acts| - 1].scan;
    var m := Run(b, before);
    PartOwned(who, acts);
    RunSnoc(b, acts, k);
    RunWellKeyed(b, before);
    RunOwned(who, b, before, k);
    Crossings(who, b, s, m, k);
    ScanEvents(who, b, s, m, k);
    EventsSnoc(
      Events(b, before, k), Silent(b, before, k), Unresolved(Lookup(m, k)), Unresolved(Lookup(Run(b, acts), k)),
      ReportsOf(s, k));
  }

  /** For instance, the first scan of a finding that is reported twice. */
  lemma TwiceReportedIsDisorderly(b: Backend, mod: ModuleInfo, f: Finding)
    requires ValidateForIngest(f).None?
    ensures
      var acts, k := [DoScan(TwiceReported(mod, f))], Key(mod.id, f.fingerprint);
      !Orderly(b, acts, k) && Events(b, acts, k) == [KindOpened, KindOpened]
  {
    var s, k := TwiceReported(mod, f), Key(mod.id, f.fingerprint);
    var acts := [DoScan(s)];
    assert acts[..0] == [];
    TwiceReportedHits(mod, f);
    OpenedCount(s, map[], s.reports, k);
    CopiesAre(KindOpened, 2);
    assert Copies(KindOpened, 2) == [KindOpened, KindOpened];
    assert Events(b, acts, k) == Events(b, [], k) + EventsAt(s, map[], k);
  }

  /** For instance, an acknowledgement that arrives just after a scan resolved the record. */
  lemma LateChangeIsSilent(who: Key -> Origin, b: Backend, acts: seq<Action>, k: Key, next: Status)
    requires OwnedRun(who, acts) && next != Resolved
    requires k in Run(b, acts) && Run(b, acts)[k].finding.status == Resolved
    ensures
      var all := acts + [DoStatus(k, next)];
      Silent(b, all, k) && Events(b, all, k) == Events(b, acts, k) && Unresolved(Lookup(Run(b, all), k)) &&
      !Tells(Events(b, all, k), true)
  {
    var all := acts + [DoStatus(k, next)];
    assert all[..|all| - 1] == acts;
    assert OwnedRun(who, all);
    RunSnoc(b, all, k);
    EventsSay(who, b, all, k);
  }

  // ----- totals ---------------------------------------------------------------

  function UnresolvedKeys(m: Records): set<Key> {
    set k | k in m && m[k].finding.status != Resolved
  }

  function ResolvedKeys(s: Scan, m: Records): set<Key> {
    set k | k in m && Resolves(s, k, Some(m[k]))
  }

  function FindingKeys(moduleId: string, fs: seq<Finding>): set<Key> {
    set f | f in fs :: Key(moduleId, f.fingerprint)
  }

  /** The keys in the newly-open list. */
  function OpenedKeys(s: Scan, m: Records): set<Key> { FindingKeys(s.mod.id, OpenedBy(s, m, s.reports)) }

  /** Reports that open their key once more, after an earlier report of the same scan. */
  function Repeats(s: Scan, m: Records, reports: seq<Incoming>): nat {
    if reports == [] then 0
    else
      var n := |reports| - 1;
      var again := Opens(s, Lookup(m, KeyIn(s, reports[n])), reports[n]) &&
                   Hits(reports[..n], reports[n].finding.fingerprint) != [];
      Repeats(s, m, reports[..n]) + if again then 1 else 0
  }

  function TotalOpened(b: Backend, acts: seq<Action>): nat {
    if acts == [] then 0
    else
      var n := |acts| - 1;
      var m := Run(b, acts[..n]);
      TotalOpened(b, acts[..n]) + if acts[n].DoScan? then |OpenedBy(acts[n].scan, m, acts[n].scan.reports)| else 0
  }

  function TotalOpenedKeys(b: Backend, acts: seq<Action>): nat {
    if acts == [] then 0
    else
      var n := |acts| - 1;
      var m := Run(b, acts[..n]);
      TotalOpenedKeys(b, acts[..n]) + if acts[n].DoScan? then |OpenedKeys(acts[n].scan, m)| else 0
  }

  function TotalRepeats(b: Backend, acts: seq<Action>): nat {
    if acts == [] then 0
    else
      var n := |acts| - 1;
      var m := Run(b, acts[..n]);
      TotalRepeats(b, acts[..n]) + if acts[n].DoScan? then Repeats(acts[n].scan, m, acts[n].scan.reports) else 0
  }

  function TotalResolved(b: Backend, acts: seq<Action>): nat {
    if acts == [] then 0
    else
      var n := |acts| - 1;
      TotalResolved(b, acts[..n]) + if acts[n].DoScan? then |ResolvedKeys(acts[n].scan, Run(b, acts[..n]))| else 0
  }

  lemma ResolvedListIs(resolved: seq<Finding>, s: Scan, m: Records)
    requires WellKeyed(m) && ListsResolved(resolved, s, m)
    ensures FindingKeys(s.mod.id, resolved) == ResolvedKeys(s, m)
  {
    forall k | k in ResolvedKeys(s, m)
      ensures k in FindingKeys(s.mod.id, resolved)
    {
      assert ResolvedFinding(s, m, k) in resolved;
    }
    forall f | f in resolved
      ensures Key(s.mod.id, f.fingerprint) in ResolvedKeys(s, m)
    {
      assert IsResolved(f, s, m);
    }
  }

  /** However the engine orders its resolved list, it has one entry per resolved key. */
  lemma ResolvedLength(resolved: seq<Finding>, s: Scan, m: Records)
    requires WellKeyed(m) && ListsResolved(resolved, s, m)
    ensures |resolved| == |ResolvedKeys(s, m)|
  {
    DistinctKeys(resolved, s.mod.id);
    ResolvedListIs(resolved, s, m);
  }

  lemma {:induction false} DistinctKeys(fs: seq<Finding>, moduleId: string)
    requires forall i, j :: 0 <= i < j < |fs| ==> fs[i].fingerprint != fs[j].fingerprint
    ensures |FindingKeys(moduleId, fs)| == |fs|
  {
    if fs == [] {
    } else {
      var n := |fs| - 1;
      DistinctKeys(fs[..n], moduleId);
      KeysSnoc(moduleId, fs[..n], fs[n]);
      KeyListed(moduleId, fs[..n], fs[n].fingerprint);
      assert fs == fs[..n] + [fs[n]];
    }
  }

  lemma KeysSnoc(moduleId: string, fs: seq<Finding>, f: Finding)
    ensures FindingKeys(moduleId, fs + [f]) == FindingKeys(moduleId, fs) + {Key(moduleId, f.fingerprint)}
  {
  }

  lemma KeyListed(moduleId: string, fs: seq<Finding>, fp: string)
    ensures Key(moduleId, fp) in FindingKeys(moduleId, fs) <==> exists i :: 0 <= i < |fs| && fs[i].fingerprint == fp
  {
  }

  lemma KeysGrow(moduleId: string, fs: seq<Finding>, f: Finding)
    ensures |FindingKeys(moduleId, fs + [f])| ==
      |FindingKeys(moduleId, fs)| + if CountOf(fs, f.fingerprint) > 0 then 0 else 1
  {
    var k := Key(moduleId, f.fingerprint);
    KeysSnoc(moduleId, fs, f);
    CountPositive(fs, f.fingerprint);
    KeyListed(moduleId, fs, f.fingerprint);
    if CountOf(fs, f.fingerprint) > 0 {
      assert FindingKeys(moduleId, fs) + {k} == FindingKeys(moduleId, fs);
    }
  }

  /** The newly-open list exceeds its keys exactly by the repeats. */
  lemma {:induction false} OpenedLength(s: Scan, m: Records, reports: seq<Incoming>)
    requires WellKeyed(m)
    ensures |OpenedBy(s, m, reports)| == |FindingKeys(s.mod.id, OpenedBy(s, m, reports))| + Repeats(s, m, reports)
  {
    if reports == [] {
    } else {
      var n := |reports| - 1;
      var inc, fs := reports[n], OpenedBy(s, m, reports[..n]);
      OpenedLength(s, m, reports[..n]);
      OpenedKey(s, m, inc);
      if Opens(s, Lookup(m, KeyIn(s, inc)), inc) {
        var f := OpenedOne(s, m, inc)[0];
        OpenedCount(s, m, reports[..n], KeyIn(s, inc));
        KeysGrow(s.mod.id, fs, f);
        assert OpenedBy(s, m, reports) == fs + [f];
        assert CountOf(fs, f.fingerprint) == |Hits(reports[..n], f.fingerprint)|;
      } else {
        assert OpenedBy(s, m, reports) == fs;
      }
    }
  }

  /** Status changes that revived a resolved record, each without an event. */
  function TotalRevived(b: Backend, acts: seq<Action>): nat {
    if acts == [] then 0
    else
      var n := |acts| - 1;
      var revived := acts[n].DoStatus? && Revives(acts[n], Run(b, acts[..n]), acts[n].key);
      TotalRevived(b, acts[..n]) + if revived then 1 else 0
  }

  /**
   * After every run, keys opened minus keys resolved, plus what status changes revived, is the number
   * of unresolved records; the listed openings exceed the keys opened by the repeats, so they balance
   * by themselves exactly when there were as many repeats as revivals.
   */
  lemma {:induction false} Balance(who: Key -> Origin, b: Backend, acts: seq<Action>)
    requires OwnedRun(who, acts)
    ensures TotalOpenedKeys(b, acts) - TotalResolved(b, acts) + TotalRevived(b, acts) == |UnresolvedKeys(Run(b, acts))|
    ensures TotalOpened(b, acts) == TotalOpenedKeys(b, acts) + TotalRepeats(b, acts)
    ensures TotalOpened(b, acts) - TotalResolved(b, acts) == |UnresolvedKeys(Run(b, acts))| <==>
      TotalRepeats(b, acts) == TotalRevived(b, acts)
  {
    if acts == [] {
    } else {
      var n := |acts| - 1;
      PartOwned(who, acts);
      Balance(who, b, acts[..n]);
      RunWellKeyed(b, acts[..n]);
      var m := Run(b, acts[..n]);
      if acts[n].DoScan? {
        forall k
          ensures Owned(who, k, Lookup(m, k))
        {
          RunOwned(who, b, acts[..n], k);
        }
        ScanBalance(who, b, acts[n].scan, m);
        OpenedLength(acts[n].scan, m, acts[n].scan.reports);
      } else {
        SilentActions(b, acts[n], m);
      }
    }
  }

  /** Of the actions that announce nothing, only a revival changes which records are unresolved. */
  lemma SilentActions(b: Backend, a: Action, m: Records)
    requires !a.DoScan? && WellKeyed(m)
    ensures |UnresolvedKeys(Apply(b, a, m))| ==
      |UnresolvedKeys(m)| + if a.DoStatus? && Revives(a, m, a.key) then 1 else 0
  {
    forall k
      ensures k in UnresolvedKeys(Apply(b, a, m)) <==> k in UnresolvedKeys(m) || Revives(a, m, k)
    {
      SilentAction(b, a, m, k);
    }
    RevivedCount(a, m, Apply(b, a, m));
  }

  lemma RevivedCount(a: Action, m: Records, after: Records)
    requires forall k :: k in UnresolvedKeys(after) <==> k in UnresolvedKeys(m) || Revives(a, m, k)
    ensures |UnresolvedKeys(after)| == |UnresolvedKeys(m)| + if a.DoStatus? && Revives(a, m, a.key) then 1 else 0
  {
    var revived := if a.DoStatus? && Revives(a, m, a.key) then {a.key} else {};
    assert UnresolvedKeys(after) == UnresolvedKeys(m) + revived;
  }

  lemma SilentAction(b: Backend, a: Action, m: Records, k: Key)
    requires !a.DoScan? && WellKeyed(m)
    ensures k in UnresolvedKeys(Apply(b, a, m)) <==> k in UnresolvedKeys(m) || Revives(a, m, k)
  {
    ApplyPointwise(b, a, m);
    var was, now := Lookup(m, k), Lookup(Apply(b, a, m), k);
    assert now == ApplyAt(b, a, k, was);
    assert k in UnresolvedKeys(m) <==> Unresolved(was);
    assert k in UnresolvedKeys(Apply(b, a, m)) <==> Unresolved(now);
  }

  /** In one scan, keys opened minus keys resolved is the change in the number of unresolved records. */
  lemma ScanBalance(who: Key -> Origin, b: Backend, s: Scan, m: Records)
    requires CollectorFields(s) && Attributed(who, s) && WellKeyed(m)
    requires forall k :: Owned(who, k, Lookup(m, k))
    ensures |OpenedKeys(s, m)| - |ResolvedKeys(s, m)| == |UnresolvedKeys(Scanned(b, s, m))| - |UnresolvedKeys(m)|
  {
    var before, after := UnresolvedKeys(m), UnresolvedKeys(Scanned(b, s, m));
    forall k
      ensures k in OpenedKeys(s, m) <==> k !in before && k in after
      ensures k in ResolvedKeys(s, m) <==> k in before && k !in after
    {
      ScannedAt(b, s, m, k);
      Crossings(who, b, s, m, k);
      CountPositive(OpenedBy(s, m, s.reports), k.fingerprint);
      assert k in before <==> Unresolved(Lookup(m, k));
      assert k in after <==> Unresolved(Lookup(Scanned(b, s, m), k));
    }
    SetBalance(before, after, OpenedKeys(s, m), ResolvedKeys(s, m));
  }

  lemma SetBalance<T>(before: set<T>, after: set<T>, openings: set<T>, closed: set<T>)
    requires forall k :: k in openings <==> k !in before && k in after
    requires forall k :: k in closed <==> k in before && k !in after
    ensures |openings| - |closed| == |after| - |before|
  {
    assert after == (before - closed) + openings;
    assert closed <= before && openings !! before;
  }

  lemma {:induction false} CountPositive(fs: seq<Finding>, fp: string)
    ensures CountOf(fs, fp) > 0 <==> exists f :: f in fs && f.fingerprint == fp
  {
    if fs == [] {
    } else {
      CountPositive(fs[..|fs| - 1], fp);
      assert fs == fs[..|fs| - 1] + [fs[|fs| - 1]];
    }
  }

  lemma {:induction false} CountOnce(fs: seq<Finding>, fp: string)
    requires forall i, j :: 0 <= i < j < |fs| ==> fs[i].fingerprint != fs[j].fingerprint
    ensures CountOf(fs, fp) <= 1
  {
    if fs == [] {
    } else {
      CountOnce(fs[..|fs| - 1], fp);
      CountPositive(fs[..|fs| - 1], fp);
    }
  }

  // ----- counters -------------------------------------------------------------

  /** Unresolved records are below their threshold and have no resolution time; resolved ones are at it and have one. */
  predicate Counted(r: Record, k: int) {
    if r.finding.status == Resolved then r.absentStreak == k && r.finding.resolvedAt.Some?
    else 0 <= r.absentStreak < k && r.finding.resolvedAt.None?
  }

  /**
   * The counters of k are off: a status change revived it, and since then no report of it has found it
   * resolved, and no resolution has come at the threshold itself.
   */
  ghost predicate Miscounted(b: Backend, acts: seq<Action>, k: Key) {
    if acts == [] then false
    else
      var n := |acts| - 1;
      Miscounts(acts[n], Run(b, acts[..n]), k, Miscounted(b, acts[..n], k))
  }

  predicate Miscounts(a: Action, m: Records, k: Key, before: bool) {
    match a
    case DoScan(s) =>
      if k.moduleId == s.mod.id && Hits(s.reports, k.fingerprint) != [] then
        before && Unresolved(Snapshot(Lookup(m, k), s.target))
      else if Resolves(s, k, Lookup(m, k)) then m[k].absentStreak >= ResolveAfterOrDefault(s.mod)
      else before
    case DoStatus(_, _) => before || Revives(a, m, k)
    case DoForget(keys) => before && !(k in keys && k in m && m[k].finding.status == Resolved)
  }

  /** What the counters of a record may be: right, or left over from a revival. */
  predicate CountedUnless(r: Record, k: int, off: bool) {
    if off then
      r.finding.resolvedAt.Some? && (r.finding.status == Resolved ==> r.absentStreak > k)
    else Counted(r, k)
  }

  /** With one fixed threshold per module, after every run a record is Counted exactly unless it is miscounted. */
  lemma CountersMeanStatus(threshold: string -> int, b: Backend, acts: seq<Action>, k: Key)
    requires forall a :: a in acts && a.DoScan? ==>
      CollectorFields(a.scan) && threshold(a.scan.mod.id) == ResolveAfterOrDefault(a.scan.mod)
    ensures k in Run(b, acts) ==> (Counted(Run(b, acts)[k], threshold(k.moduleId)) <==> !Miscounted(b, acts, k))
  {
    CountersAre(threshold, b, acts, k);
  }

  lemma {:induction false} CountersAre(threshold: string -> int, b: Backend, acts: seq<Action>, k: Key)
    requires forall a :: a in acts && a.DoScan? ==>
      CollectorFields(a.scan) && threshold(a.scan.mod.id) == ResolveAfterOrDefault(a.scan.mod)
    ensures
      var r := Lookup(Run(b, acts), k);
      if r.Some? then CountedUnless(r.value, threshold(k.moduleId), Miscounted(b, acts, k))
      else !Miscounted(b, acts, k)
  {
    if acts == [] {
    } else {
      var n := |acts| - 1;
      assert forall a :: a in acts[..n] ==> a in acts;
      assert acts[n] in acts;
      CountersAre(threshold, b, acts[..n], k);
      RunSnoc(b, acts, k);
      ActCounted(b, acts[n], Run(b, acts[..n]), k, threshold(k.moduleId), Miscounted(b, acts[..n], k));
    }
  }

  lemma ActCounted(b: Backend, a: Action, m: Records, k: Key, threshold: int, off: bool)
    requires a.DoScan? && a.scan.mod.id == k.moduleId ==>
      CollectorFields(a.scan) && threshold == ResolveAfterOrDefault(a.scan.mod)
    requires if k in m then CountedUnless(m[k], threshold, off) else !off
    ensures
      var r, now := ApplyAt(b, a, k, Lookup(m, k)), Miscounts(a, m, k, off);
      if r.Some? then CountedUnless(r.value, threshold, now) else !now
  {
    if a.DoScan? {
      StepCounted(b, a.scan, m, k, threshold, off);
    }
  }

  lemma StepCounted(b: Backend, s: Scan, m: Records, k: Key, threshold: int, off: bool)
    requires s.mod.id == k.moduleId ==> CollectorFields(s) && threshold == ResolveAfterOrDefault(s.mod)
    requires if k in m then CountedUnless(m[k], threshold, off) else !off
    ensures
      var r, now := Step(b, s, k, Lookup(m, k)), Miscounts(DoScan(s), m, k, off);
      if r.Some? then CountedUnless(r.value, threshold, now) else !now
  {
    HitsAre(s.reports, k.fingerprint);
    var hits := Hits(s.reports, k.fingerprint);
    assert hits != [] ==> hits[|hits| - 1] in hits;
  }

  /** A status change keeps the counters meaningful exactly when its record is not resolved. */
  lemma StatusOnResolvedBreaksCounters(r: Record, next: Status, k: int)
    requires Counted(r, k) && next != Resolved
    ensures Counted(WithStatus(r, next), k) <==> r.finding.status != Resolved
  {
  }
}
