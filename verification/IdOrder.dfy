/** Identifiers sort findings by the time they were first seen. */
module IdOrder {
  import opened Findings
  import opened Store
  import opened Lifecycle
  import opened Text
  import opened Ulid

  ghost predicate Minted(id: string, t: int) {
    exists e: seq<Byte> :: |e| == 10 && id == UlidOf(t, e)
  }

  /** The engine's production wiring: identifiers come from NewULID at the scan's clock reading. */
  ghost predicate Wired(s: Scan) {
    InRange(s.now) && forall inc :: inc in s.reports ==> Minted(inc.id, s.now)
  }

  ghost predicate Stamped(r: Record) {
    InRange(r.finding.firstSeen) && Minted(r.finding.id, r.finding.firstSeen)
  }

  lemma StepStamped(b: Backend, s: Scan, k: Key, prev: Option<Record>)
    requires Wired(s) && (prev.Some? ==> Stamped(prev.value))
    ensures Step(b, s, k, prev).Some? ==> Stamped(Step(b, s, k, prev).value)
  {
    HitsAre(s.reports, k.fingerprint);
    var hits := Hits(s.reports, k.fingerprint);
    if hits != [] {
      assert hits[0] in hits && hits[|hits| - 1] in hits;
    }
  }

  lemma {:induction false} RunStamped(b: Backend, acts: seq<Action>, k: Key)
    requires forall a :: a in acts && a.DoScan? ==> Wired(a.scan)
    ensures k in Run(b, acts) ==> Stamped(Run(b, acts)[k])
  {
    if acts == [] {
    } else {
      var n := |acts| - 1;
      assert forall a :: a in acts[..n] ==> a in acts;
      assert acts[n] in acts;
      RunStamped(b, acts[..n], k);
      RunSnoc(b, acts, k);
      if acts[n].DoScan? {
        StepStamped(b, acts[n].scan, k, Lookup(Run(b, acts[..n]), k));
      }
    }
  }

  /** In every reachable store, a record first seen in an earlier millisecond has a smaller ID. */
  lemma IdsFollowCreation(b: Backend, acts: seq<Action>, k: Key, l: Key)
    requires forall a :: a in acts && a.DoScan? ==> Wired(a.scan)
    ensures
      var m := Run(b, acts);
      k in m && l in m && UnixMilli(m[k].finding.firstSeen) < UnixMilli(m[l].finding.firstSeen) ==>
        LexLess(m[k].finding.id, m[l].finding.id)
  {
    var m := Run(b, acts);
    if k in m && l in m && UnixMilli(m[k].finding.firstSeen) < UnixMilli(m[l].finding.firstSeen) {
      RunStamped(b, acts, k);
      RunStamped(b, acts, l);
      StampedOrder(m[k].finding, m[l].finding);
    }
  }

  lemma StampedOrder(f: Finding, g: Finding)
    requires InRange(f.firstSeen) && Minted(f.id, f.firstSeen) && InRange(g.firstSeen) && Minted(g.id, g.firstSeen)
    requires UnixMilli(f.firstSeen) < UnixMilli(g.firstSeen)
    ensures LexLess(f.id, g.id)
  {
    var e: seq<Byte> :| |e| == 10 && f.id == UlidOf(f.firstSeen, e);
    var h: seq<Byte> :| |h| == 10 && g.id == UlidOf(g.firstSeen, h);
    UlidsSortByTime(f.firstSeen, e, g.firstSeen, h);
  }

  // ----- no two records share an ID -----------------------------------------------------

  ghost predicate ReportAt(acts: seq<Action>, i: nat, j: nat) {
    i < |acts| && acts[i].DoScan? && j < |acts[i].scan.reports|
  }

  /** The report at (i, j) is one of k and was given this ID. */
  ghost predicate Gave(acts: seq<Action>, i: nat, j: nat, k: Key, id: string) {
    ReportAt(acts, i, j) && KeyIn(acts[i].scan, acts[i].scan.reports[j]) == k && acts[i].scan.reports[j].id == id
  }

  ghost predicate Given(acts: seq<Action>, k: Key, id: string) { exists i, j :: Gave(acts, i, j, k, id) }

  lemma StepGives(b: Backend, s: Scan, k: Key, prev: Option<Record>)
    requires Step(b, s, k, prev).Some?
    ensures
      var id := Step(b, s, k, prev).value.finding.id;
      (prev.Some? && prev.value.finding.id == id) ||
      exists j :: 0 <= j < |s.reports| && KeyIn(s, s.reports[j]) == k && s.reports[j].id == id
  {
    HitsAre(s.reports, k.fingerprint);
    var hits := Hits(s.reports, k.fingerprint);
    if hits != [] {
      assert hits[0] in hits && hits[|hits| - 1] in hits;
    }
  }

  /** A record's ID is one that was given to a report of its own key. */
  lemma {:induction false} RunGives(b: Backend, acts: seq<Action>, k: Key)
    ensures k in Run(b, acts) ==> Given(acts, k, Run(b, acts)[k].finding.id)
  {
    if acts == [] {
    } else if k in Run(b, acts) {
      var n := |acts| - 1;
      var id := Run(b, acts)[k].finding.id;
      var prev := Lookup(Run(b, acts[..n]), k);
      RunGives(b, acts[..n], k);
      RunSnoc(b, acts, k);
      if prev.Some? && prev.value.finding.id == id {
        var i, j :| Gave(acts[..n], i, j, k, id);
        assert Gave(acts, i, j, k, id);
      } else {
        StepGives(b, acts[n].scan, k, prev);
        var j :| 0 <= j < |acts[n].scan.reports| && KeyIn(acts[n].scan, acts[n].scan.reports[j]) == k &&
          acts[n].scan.reports[j].id == id;
        assert Gave(acts, n, j, k, id);
      }
    }
  }

  /** drawn says which ten random bytes NewULID read for the report at (i, j). */
  ghost predicate Draws(acts: seq<Action>, drawn: (nat, nat) -> seq<Byte>) {
    forall i: nat, j: nat :: ReportAt(acts, i, j) ==>
      |drawn(i, j)| == 10 && acts[i].scan.reports[j].id == UlidOf(acts[i].scan.now, drawn(i, j))
  }

  predicate SameMillis(t: int, u: int) { UnixMilli(t) % TWO48 == UnixMilli(u) % TWO48 }

  /** The reports at p and q drew the same bytes in the same millisecond (modulo 2^48). */
  ghost predicate SameDraw(acts: seq<Action>, drawn: (nat, nat) -> seq<Byte>, p: (nat, nat), q: (nat, nat))
    requires ReportAt(acts, p.0, p.1) && ReportAt(acts, q.0, q.1)
  {
    drawn(p.0, p.1) == drawn(q.0, q.1) && SameMillis(acts[p.0].scan.now, acts[q.0].scan.now)
  }

  /** Different reports never draw the same. */
  ghost predicate NoRepeatedDraw(acts: seq<Action>, drawn: (nat, nat) -> seq<Byte>) {
    forall p: (nat, nat), q: (nat, nat) | ReportAt(acts, p.0, p.1) && ReportAt(acts, q.0, q.1) && p != q ::
      !SameDraw(acts, drawn, p, q)
  }

  lemma SameIdSameDraw(
      acts: seq<Action>, drawn: (nat, nat) -> seq<Byte>, p: (nat, nat), q: (nat, nat), k: Key, l: Key, id: string)
    requires Draws(acts, drawn) && Gave(acts, p.0, p.1, k, id) && Gave(acts, q.0, q.1, l, id)
    ensures SameDraw(acts, drawn, p, q)
  {
    UlidsDiffer(acts[p.0].scan.now, drawn(p.0, p.1), acts[q.0].scan.now, drawn(q.0, q.1));
  }

  /** In every reachable store no two records share an ID, so the primary key never refuses one. */
  lemma IdsAreUnique(b: Backend, acts: seq<Action>, drawn: (nat, nat) -> seq<Byte>, k: Key, l: Key)
    requires Draws(acts, drawn) && NoRepeatedDraw(acts, drawn)
    requires k in Run(b, acts) && l in Run(b, acts) && k != l
    ensures Run(b, acts)[k].finding.id != Run(b, acts)[l].finding.id
  {
    var x := Run(b, acts)[k].finding.id;
    RunGives(b, acts, k);
    RunGives(b, acts, l);
    if Run(b, acts)[l].finding.id == x {
      var i, j :| Gave(acts, i, j, k, x);
      var i', j' :| Gave(acts, i', j', l, x);
      assert (i, j) != (i', j');
      SameIdSameDraw(acts, drawn, (i, j), (i', j'), k, l, x);
    }
  }
}
