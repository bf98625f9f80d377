/**
 * The target list: what is saved (store/memory.go), what is scheduled (sched/scheduler.go), and the add, remove
 * and boot paths that keep the two together (web/server.go, cmd/asm/main.go).
 */
module Targets {
  import opened Basics
  import opened Findings
  import opened Ownership
  import opened Gate

  datatype Saved = Saved(raw: string, canonical: string)

  /** live is the scheduler's table, gone at a restart; saved and challenges persist. */
  datatype Book = Book(saved: seq<Saved>, live: map<string, Target>, challenges: Challenges)

  const EMPTY := Book([], map[], map[])

  // ----- the saved list -----------------------------------------------------------

  predicate Has(s: seq<Saved>, canonical: string) { exists i :: 0 <= i < |s| && s[i].canonical == canonical }

  function With(s: seq<Saved>, raw: string, canonical: string): seq<Saved> {
    if Has(s, canonical) then s else s + [Saved(raw, canonical)]
  }

  function Without(s: seq<Saved>, canonical: string): seq<Saved> {
    if s == [] then []
    else
      var n := |s| - 1;
      Without(s[..n], canonical) + if s[n].canonical != canonical then [s[n]] else []
  }

  function Raws(s: seq<Saved>): seq<string> { seq(|s|, i requires 0 <= i < |s| => s[i].raw) }

  class SavedTargets {
    var cells: array<Saved>
    var n: nat

    ghost predicate Valid()
      reads this
    {
      n <= cells.Length
    }

    ghost function Contents(): seq<Saved>
      requires Valid()
      reads this, cells
    {
      cells[..n]
    }

    constructor ()
      ensures Valid() && Contents() == [] && fresh(cells)
    {
      cells, n := new Saved[0], 0;
    }

    method SaveTarget(raw: string, canonical: string)
      requires Valid()
      modifies this, cells
      ensures Valid() && (cells == old(cells) || fresh(cells))
      ensures Contents() == With(old(Contents()), raw, canonical)
    {
      for i := 0 to n
        invariant forall j :: 0 <= j < i ==> cells[j].canonical != canonical
      {
        if cells[i].canonical == canonical {
          assert Contents()[i].canonical == canonical;
          return;
        }
      }
      assert !Has(Contents(), canonical);
      if n == cells.Length {
        Grow();
      }
      cells[n] := Saved(raw, canonical);
      n := n + 1;
    }

    method Grow()
      requires Valid()
      modifies this
      ensures Valid() && fresh(cells) && n == old(n) < cells.Length && Contents() == old(Contents())
    {
      var bigger := new Saved[2 * n + 1];
      for i := 0 to n
        invariant cells == old(cells) && n == old(n)
        invariant bigger[..i] == cells[..i] == old(cells[..i])
      {
        bigger[i] := cells[i];
      }
      cells := bigger;
    }

    /** Filters the list inside its own array. */
    method DeleteTarget(canonical: string)
      requires Valid()
      modifies this, cells
      ensures Valid() && cells == old(cells)
      ensures Contents() == Without(old(Contents()), canonical)
    {
      ghost var was := Contents();
      var kept := 0;
      for i := 0 to n
        invariant cells == old(cells) && n == old(n) && kept <= i
        invariant forall j :: i <= j < n ==> cells[j] == was[j]
        invariant cells[..kept] == Without(was[..i], canonical)
      {
        ghost var done := cells[..kept];
        assert was[..i + 1][..i] == was[..i];
        if cells[i].canonical != canonical {
          cells[kept] := cells[i];
          kept := kept + 1;
          assert cells[..kept] == done + [was[i]];
        }
      }
      assert was[..n] == was;
      n := kept;
    }

    method ListSavedTargets() returns (raws: seq<string>)
      requires Valid()
      ensures raws == Raws(Contents())
    {
      raws := [];
      for i := 0 to n
        invariant |raws| == i && forall j :: 0 <= j < i ==> raws[j] == cells[j].raw
      {
        raws := raws + [cells[i].raw];
      }
    }
  }

  // ----- add, remove, restart ---------------------------------------------------------

  predicate CanAdd(maxTargets: int, current: nat) { maxTargets == 0 || current < maxTargets }

  predicate Takes(e: Env, m: Challenges, raw: string) {
    LooksLikeDomain(e.isIP, e.norm(raw)) && (At(e.norm(raw)) in m || e.norm(e.norm(raw)) != "")
  }

  /** The scheduler's AddTarget. */
  function Scheduled(e: Env, b: Book, raw: string, token: string, now: int): Book {
    b.(challenges := IssuedAs(e.isIP, b.challenges, e.norm(raw), e.norm(e.norm(raw)), token, now),
       live := if Takes(e, b.challenges, raw) then b.live[e.norm(raw) := Target(raw, e.norm(raw))] else b.live)
  }

  function Added(e: Env, maxTargets: int, b: Book, raw: string, token: string, now: int): Book {
    if !CanAdd(maxTargets, |b.live|) then b
    else if !Takes(e, b.challenges, raw) then Scheduled(e, b, raw, token, now)
    else Scheduled(e, b, raw, token, now).(saved := With(b.saved, raw, e.norm(raw)))
  }

  function Removed(b: Book, canonical: string): Book {
    if canonical == "" then b
    else b.(live := b.live - {canonical}, saved := Without(b.saved, canonical))
  }

  /** The boot loop; a name that is no longer accepted is skipped. */
  function Replayed(e: Env, b: Book, raws: seq<string>, tokens: int -> string, now: int): Book {
    if raws == [] then b
    else
      var n := |raws| - 1;
      Scheduled(e, Replayed(e, b, raws[..n], tokens, now), raws[n], tokens(n), now)
  }

  function Restarted(e: Env, b: Book, tokens: int -> string, now: int): Book {
    Replayed(e, b.(live := map[]), Raws(b.saved), tokens, now)
  }

  datatype Step =
    | Add(raw: string, token: string, at: int)
    | Remove(canonical: string)
    | Restart(tokens: int -> string, bootedAt: int)
    | Scan(domain: string, verifier: Verifier, scannedAt: int)

  function Next(e: Env, maxTargets: int, b: Book, s: Step): Book {
    match s
    case Add(raw, token, now) => Added(e, maxTargets, b, raw, token, now)
    case Remove(canonical) => Removed(b, canonical)
    case Restart(tokens, now) => Restarted(e, b, tokens, now)
    case Scan(domain, v, now) => b.(challenges := Collected(b.challenges, domain, v, now))
  }

  function Run(e: Env, maxTargets: int, steps: seq<Step>): Book {
    if steps == [] then EMPTY else Next(e, maxTargets, Run(e, maxTargets, steps[..|steps| - 1]), steps[|steps| - 1])
  }

  // ----- the same paths as the code runs them -------------------------------------------

  class Server {
    const collector: Collector
    const saved: SavedTargets
    const maxTargets: int
    var targets: map<string, Target>

    ghost predicate Valid()
      reads this, saved
    {
      saved.Valid()
    }

    ghost function View(): Book
      requires Valid()
      reads this, saved, saved.cells, collector.store
    {
      Book(saved.Contents(), targets, collector.store.m)
    }

    constructor (collector: Collector, saved: SavedTargets, maxTargets: int)
      requires saved.Valid()
      ensures this.collector == collector && this.saved == saved && this.maxTargets == maxTargets
      ensures Valid() && targets == map[]
    {
      this.collector := collector;
      this.saved := saved;
      this.maxTargets := maxTargets;
      targets := map[];
    }

    method AddTarget(raw: string, token: string, now: int) returns (r: Validation)
      requires Valid()
      modifies this, collector.store
      ensures Valid() && View() == Scheduled(Asm(collector.lower, collector.isIP), old(View()), raw, token, now)
      ensures r.Accepted? <==> Takes(Asm(collector.lower, collector.isIP), old(View()).challenges, raw)
      ensures r.Accepted? ==> r.target == Target(raw, Normalize(collector.lower, raw))
    {
      r := collector.ValidateTarget(raw, token, now);
      if r.Refused? {
        return;
      }
      targets := targets[r.target.canonical := r.target];
    }

    method HandleAddTarget(raw: string, token: string, now: int)
      requires Valid()
      modifies this, collector.store, saved, saved.cells
      ensures Valid() && View() == Added(Asm(collector.lower, collector.isIP), maxTargets, old(View()), raw, token, now)
    {
      var current := |targets|;
      if !CanAdd(maxTargets, current) {
        return;
      }
      var t := AddTarget(raw, token, now);
      if t.Refused? {
        return;
      }
      saved.SaveTarget(t.target.raw, t.target.canonical);
    }

    method HandleRemoveTarget(canonical: string)
      requires Valid()
      modifies this, saved, saved.cells
      ensures Valid() && View() == Removed(old(View()), canonical)
    {
      if canonical == "" {
        return;
      }
      targets := targets - {canonical};
      saved.DeleteTarget(canonical);
    }

    /** A fresh process: an empty scheduler, then the boot loop. */
    method Boot(tokens: int -> string, now: int)
      requires Valid()
      modifies this, collector.store
      ensures Valid() && View() == Restarted(Asm(collector.lower, collector.isIP), old(View()), tokens, now)
    {
      targets := map[];
      var raws := saved.ListSavedTargets();
      ghost var start := View();
      for i := 0 to |raws|
        invariant Valid() && View() == Replayed(Asm(collector.lower, collector.isIP), start, raws[..i], tokens, now)
      {
        assert raws[..i + 1][..i] == raws[..i];
        var _ := AddTarget(raws[i], tokens(i), now);
      }
      assert raws[..|raws|] == raws;
    }
  }

  // ----- what every run keeps ------------------------------------------------------------

  ghost predicate Distinct(s: seq<Saved>) {
    forall i, j :: 0 <= i < j < |s| ==> s[i].canonical != s[j].canonical
  }

  /** Every saved input still normalises to its saved name and would be accepted again. */
  ghost predicate Replayable(e: Env, m: Challenges, s: seq<Saved>) {
    forall i :: 0 <= i < |s| ==> e.norm(s[i].raw) == s[i].canonical && Takes(e, m, s[i].raw)
  }

  /** The scheduler runs exactly the saved names. */
  ghost predicate InStep(live: map<string, Target>, s: seq<Saved>) {
    forall c :: c in live <==> Has(s, c)
  }

  ghost predicate Inv(e: Env, maxTargets: int, b: Book) {
    Distinct(b.saved) && Replayable(e, b.challenges, b.saved) && InStep(b.live, b.saved) &&
    |b.live| == |b.saved| && (maxTargets > 0 ==> |b.saved| <= maxTargets) && (maxTargets < 0 ==> b.saved == [])
  }

  /** Challenges are never deleted, so what was accepted stays acceptable. */
  lemma AcceptedForGood(e: Env, m: Challenges, op: Op, raw: string)
    requires Takes(e, m, raw)
    ensures Takes(e, Applied(e, m, op), raw)
  {
  }

  lemma {:induction false} WithoutFacts(s: seq<Saved>, c: string, d: string)
    ensures Has(Without(s, c), d) <==> Has(s, d) && d != c
    ensures |Without(s, c)| <= |s|
    ensures forall x :: x in Without(s, c) ==> x in s
  {
    if s == [] {
    } else {
      var n := |s| - 1;
      WithoutFacts(s[..n], c, d);
      SnocHas(s[..n], s[n], d);
      assert s == s[..n] + [s[n]];
      if s[n].canonical != c {
        SnocHas(Without(s[..n], c), s[n], d);
      } else {
        assert Without(s, c) == Without(s[..n], c);
      }
    }
  }

  lemma SnocHas(s: seq<Saved>, x: Saved, d: string)
    ensures Has(s + [x], d) <==> Has(s, d) || x.canonical == d
  {
    var t := s + [x];
    if Has(s, d) {
      var i :| 0 <= i < |s| && s[i].canonical == d;
      assert t[i].canonical == d;
    }
    if x.canonical == d {
      assert t[|s|].canonical == d;
    }
  }

  lemma {:induction false} WithoutDistinct(s: seq<Saved>, c: string)
    requires Distinct(s)
    ensures Distinct(Without(s, c))
    ensures |Without(s, c)| == |s| - if Has(s, c) then 1 else 0
  {
    if s == [] {
    } else {
      var n := |s| - 1;
      WithoutDistinct(s[..n], c);
      SnocHas(s[..n], s[n], c);
      assert s == s[..n] + [s[n]];
      WithoutFacts(s[..n], c, s[n].canonical);
      assert !Has(s[..n], s[n].canonical);
      SnocDistinct(Without(s[..n], c), s[n]);
    }
  }

  lemma SnocDistinct(s: seq<Saved>, x: Saved)
    requires Distinct(s) && !Has(s, x.canonical)
    ensures Distinct(s + [x])
  {
  }

  // ----- a restart rebuilds the table ------------------------------------------------------

  /** The table that holds exactly the saved inputs. */
  function Table(s: seq<Saved>): map<string, Target> {
    if s == [] then map[]
    else
      var n := |s| - 1;
      Table(s[..n])[s[n].canonical := Target(s[n].raw, s[n].canonical)]
  }

  lemma {:induction false} TableHolds(s: seq<Saved>)
    requires Distinct(s)
    ensures InStep(Table(s), s) && |Table(s)| == |s|
    ensures forall i :: 0 <= i < |s| ==> Table(s)[s[i].canonical] == Target(s[i].raw, s[i].canonical)
  {
    if s == [] {
    } else {
      var n := |s| - 1;
      var rest := s[..n];
      TableHolds(rest);
      assert s == rest + [s[n]];
      forall d
        ensures d in Table(s) <==> Has(s, d)
      {
        SnocHas(rest, s[n], d);
      }
      assert !Has(rest, s[n].canonical);
      forall i | 0 <= i < n
        ensures Table(s)[s[i].canonical] == Target(s[i].raw, s[i].canonical)
      {
        assert rest[i] == s[i] && Has(rest, s[i].canonical);
      }
    }
  }

  /** The boot loop on any prefix of the saved inputs. */
  lemma {:induction false} ReplayFills(e: Env, b: Book, s: seq<Saved>, tokens: int -> string, now: int)
    requires Replayable(e, b.challenges, s) && b.live == map[]
    ensures
      var r := Replayed(e, b, Raws(s), tokens, now);
      r.live == Table(s) && r.saved == b.saved &&
      forall raw :: Takes(e, b.challenges, raw) ==> Takes(e, r.challenges, raw)
  {
    if s == [] {
    } else {
      var n := |s| - 1;
      ReplayFills(e, b, s[..n], tokens, now);
      assert Raws(s)[..n] == Raws(s[..n]);
      var r := Replayed(e, b, Raws(s[..n]), tokens, now);
      assert Takes(e, r.challenges, s[n].raw);
      forall raw | Takes(e, b.challenges, raw)
        ensures Takes(e, Scheduled(e, r, s[n].raw, tokens(n), now).challenges, raw)
      {
        AcceptedForGood(e, r.challenges, Validate(s[n].raw, tokens(n), now), raw);
      }
    }
  }

  /** A restart keeps the saved list and the scheduled names; each is scheduled under its first input. */
  lemma RestartChangesNothing(e: Env, maxTargets: int, b: Book, tokens: int -> string, now: int)
    requires Inv(e, maxTargets, b)
    ensures
      var r := Restarted(e, b, tokens, now);
      r.saved == b.saved && r.live.Keys == b.live.Keys && r.live == Table(b.saved) && Inv(e, maxTargets, r)
  {
    var r := Restarted(e, b, tokens, now);
    ReplayFills(e, b.(live := map[]), b.saved, tokens, now);
    TableHolds(b.saved);
    assert r.live.Keys == b.live.Keys;
  }

  lemma AddKeeps(e: Env, maxTargets: int, b: Book, raw: string, token: string, now: int)
    requires Inv(e, maxTargets, b)
    ensures Inv(e, maxTargets, Added(e, maxTargets, b, raw, token, now))
  {
    var r := Added(e, maxTargets, b, raw, token, now);
    if CanAdd(maxTargets, |b.live|) && Takes(e, b.challenges, raw) {
      var op := Validate(raw, token, now);
      var c := e.norm(raw);
      StayReplayable(e, b.challenges, op, b.saved);
      AcceptedForGood(e, b.challenges, op, raw);
      if Has(b.saved, c) {
        ScheduledAgain(b.live, b.saved, raw, c);
      } else {
        ScheduledAnew(b.live, b.saved, raw, c);
        assert r.saved == b.saved + [Saved(raw, c)];
      }
    }
  }

  predicate Room(maxTargets: int, b: Book) { maxTargets == 0 || |b.saved| < maxTargets }

  /** Nothing else in the table changes. */
  ghost predicate OnlyAt(before: map<string, Target>, after: map<string, Target>, c: string) {
    forall d :: d != c ==> (d in after <==> d in before) && (d in before ==> after[d] == before[d])
  }

  /** An input takes effect exactly when it is accepted and there is room; otherwise nothing is scheduled. */
  lemma AddTakesEffect(e: Env, maxTargets: int, b: Book, raw: string, token: string, now: int)
    requires Inv(e, maxTargets, b)
    ensures
      var r := Added(e, maxTargets, b, raw, token, now);
      var c := e.norm(raw);
      if Takes(e, b.challenges, raw) && Room(maxTargets, b)
      then c in r.live && r.live[c].raw == raw && r.live[c].canonical == c && OnlyAt(b.live, r.live, c) &&
        (if c in b.live then r.saved == b.saved else r.saved == b.saved + [Saved(raw, c)])
      else r.live == b.live && r.saved == b.saved
  {
  }

  lemma ScheduledAgain(live: map<string, Target>, s: seq<Saved>, raw: string, c: string)
    requires InStep(live, s) && Has(s, c)
    ensures
      var after := live[c := Target(raw, c)];
      InStep(after, s) && |after| == |live|
  {
    var after := live[c := Target(raw, c)];
    assert after.Keys == live.Keys;
    assert |after| == |after.Keys| && |live| == |live.Keys|;
  }

  lemma ScheduledAnew(live: map<string, Target>, s: seq<Saved>, raw: string, c: string)
    requires InStep(live, s) && Distinct(s) && !Has(s, c)
    ensures
      var after := live[c := Target(raw, c)];
      InStep(after, s + [Saved(raw, c)]) && Distinct(s + [Saved(raw, c)]) && |after| == |live| + 1
  {
    var after := live[c := Target(raw, c)];
    SnocDistinct(s, Saved(raw, c));
    forall d
      ensures d in after <==> Has(s + [Saved(raw, c)], d)
    {
      SnocHas(s, Saved(raw, c), d);
    }
    assert after.Keys == live.Keys + {c};
    assert |after| == |after.Keys| && |live| == |live.Keys|;
  }

  lemma StayReplayable(e: Env, m: Challenges, op: Op, s: seq<Saved>)
    requires Replayable(e, m, s)
    ensures Replayable(e, Applied(e, m, op), s)
  {
    forall i | 0 <= i < |s|
      ensures Takes(e, Applied(e, m, op), s[i].raw)
    {
      AcceptedForGood(e, m, op, s[i].raw);
    }
  }

  lemma RemoveKeeps(e: Env, maxTargets: int, b: Book, canonical: string)
    requires Inv(e, maxTargets, b)
    ensures Inv(e, maxTargets, Removed(b, canonical))
  {
    if canonical != "" {
      WithoutDistinct(b.saved, canonical);
      RemovedInStep(b.live, b.saved, canonical);
      RemovedReplayable(e, b.challenges, b.saved, canonical);
    }
  }

  lemma RemovedReplayable(e: Env, m: Challenges, s: seq<Saved>, canonical: string)
    requires Replayable(e, m, s)
    ensures Replayable(e, m, Without(s, canonical))
  {
    var after := Without(s, canonical);
    WithoutFacts(s, canonical, "");
    forall i | 0 <= i < |after|
      ensures e.norm(after[i].raw) == after[i].canonical && Takes(e, m, after[i].raw)
    {
      assert after[i] in s;
    }
  }

  lemma RemovedInStep(live: map<string, Target>, s: seq<Saved>, canonical: string)
    requires InStep(live, s)
    ensures InStep(live - {canonical}, Without(s, canonical))
    ensures |live - {canonical}| == |live| - if Has(s, canonical) then 1 else 0
  {
    var after := live - {canonical};
    forall d
      ensures d in after <==> Has(Without(s, canonical), d)
    {
      WithoutFacts(s, canonical, d);
    }
    assert after.Keys == live.Keys - {canonical};
    assert |after| == |after.Keys| && |live| == |live.Keys|;
  }

  /** Over any run: scheduled and saved names agree, without duplicates, within the limit. */
  lemma {:induction false} TargetsStayInStep(e: Env, maxTargets: int, steps: seq<Step>)
    ensures Inv(e, maxTargets, Run(e, maxTargets, steps))
  {
    if steps == [] {
    } else {
      var n := |steps| - 1;
      TargetsStayInStep(e, maxTargets, steps[..n]);
      var b := Run(e, maxTargets, steps[..n]);
      NextKeeps(e, maxTargets, b, steps[n]);
    }
  }

  lemma NextKeeps(e: Env, maxTargets: int, b: Book, step: Step)
    requires Inv(e, maxTargets, b)
    ensures Inv(e, maxTargets, Next(e, maxTargets, b, step))
  {
    match step
    case Add(raw, token, now) => AddKeeps(e, maxTargets, b, raw, token, now);
    case Remove(canonical) => RemoveKeeps(e, maxTargets, b, canonical);
    case Restart(tokens, now) => RestartChangesNothing(e, maxTargets, b, tokens, now);
    case Scan(domain, v, now) => StayReplayable(e, b.challenges, Collect(domain, v, now), b.saved);
  }

  // ----- first-insertion order -----------------------------------------------------------------

  /** The scheduled names after each step. */
  function Lives(e: Env, maxTargets: int, steps: seq<Step>): (r: seq<set<string>>)
    ensures |r| == |steps|
  {
    if steps == [] then []
    else Lives(e, maxTargets, steps[..|steps| - 1]) + [Run(e, maxTargets, steps).live.Keys]
  }

  /** For how many of the latest steps the name has been scheduled without a break. */
  function Age(lives: seq<set<string>>, c: string): (r: nat)
    ensures r <= |lives|
  {
    if lives == [] || c !in lives[|lives| - 1] then 0 else 1 + Age(lives[..|lives| - 1], c)
  }

  ghost predicate OldestFirst(lives: seq<set<string>>, s: seq<Saved>) {
    forall i, j :: 0 <= i < j < |s| ==> Age(lives, s[i].canonical) > Age(lives, s[j].canonical)
  }

  /** The entry was made by the step that began the name's present stay, with that step's input. */
  ghost predicate FirstInput(e: Env, lives: seq<set<string>>, steps: seq<Step>, x: Saved) {
    var k := |steps| - Age(lives, x.canonical);
    0 <= k < |steps| && steps[k].Add? && steps[k].raw == x.raw && e.norm(x.raw) == x.canonical
  }

  ghost predicate InOrder(e: Env, lives: seq<set<string>>, steps: seq<Step>, s: seq<Saved>) {
    OldestFirst(lives, s) && forall i :: 0 <= i < |s| ==> FirstInput(e, lives, steps, s[i])
  }

  /** The saved list is in the order the names were last newly added, each under the input that added it. */
  lemma {:induction false} SavedInInsertionOrder(e: Env, maxTargets: int, steps: seq<Step>)
    ensures InOrder(e, Lives(e, maxTargets, steps), steps, Run(e, maxTargets, steps).saved)
  {
    if steps == [] {
    } else {
      var n := |steps| - 1;
      SavedInInsertionOrder(e, maxTargets, steps[..n]);
      OrderedStep(e, maxTargets, steps, Run(e, maxTargets, steps[..n]), Run(e, maxTargets, steps));
    }
  }

  lemma OrderedStep(e: Env, maxTargets: int, steps: seq<Step>, b: Book, r: Book)
    requires steps != [] && b == Run(e, maxTargets, steps[..|steps| - 1]) && r == Run(e, maxTargets, steps)
    requires InOrder(e, Lives(e, maxTargets, steps[..|steps| - 1]), steps[..|steps| - 1], b.saved)
    ensures InOrder(e, Lives(e, maxTargets, steps), steps, r.saved)
  {
    var n := |steps| - 1;
    var lives := Lives(e, maxTargets, steps[..n]);
    assert Moves(e, steps[n], b.live, b.saved, r.saved) by {
      TargetsStayInStep(e, maxTargets, steps[..n]);
      SavedMoves(e, maxTargets, b, steps[n]);
    }
    assert InStep(r.live, r.saved) by {
      TargetsStayInStep(e, maxTargets, steps);
    }
    UnscheduledHasNoAge(e, maxTargets, steps[..n]);
    StepKeepsOrder(e, lives, steps[..n], steps[n], b.live, b.saved, r.live, r.saved);
    assert steps == steps[..n] + [steps[n]];
  }

  lemma UnscheduledHasNoAge(e: Env, maxTargets: int, steps: seq<Step>)
    ensures forall c :: c !in Run(e, maxTargets, steps).live ==> Age(Lives(e, maxTargets, steps), c) == 0
  {
  }

  /** The ways one step can change the saved list. */
  ghost predicate Moves(e: Env, step: Step, live: map<string, Target>, s: seq<Saved>, after: seq<Saved>) {
    || after == s
    || (step.Add? && e.norm(step.raw) !in live && after == s + [Saved(step.raw, e.norm(step.raw))])
    || (step.Remove? && after == Without(s, step.canonical))
  }

  lemma SavedMoves(e: Env, maxTargets: int, b: Book, step: Step)
    requires Inv(e, maxTargets, b)
    ensures Moves(e, step, b.live, b.saved, Next(e, maxTargets, b, step).saved)
  {
    if step.Restart? {
      RestartChangesNothing(e, maxTargets, b, step.tokens, step.bootedAt);
    }
  }

  lemma StepKeepsOrder(
      e: Env, lives: seq<set<string>>, steps: seq<Step>, step: Step,
      live: map<string, Target>, s: seq<Saved>, now: map<string, Target>, after: seq<Saved>)
    requires |lives| == |steps| && InOrder(e, lives, steps, s) && Moves(e, step, live, s, after)
    requires InStep(now, after)
    requires forall c :: c !in live ==> Age(lives, c) == 0
    ensures InOrder(e, lives + [now.Keys], steps + [step], after)
  {
    forall i | 0 <= i < |after|
      ensures after[i].canonical in now.Keys
    {
      assert Has(after, after[i].canonical);
    }
    if after == s {
      Older(e, lives, steps, now.Keys, step, s);
    } else if step.Add? {
      assert forall i :: 0 <= i < |s| ==> after[i] == s[i];
      assert after[|s|].canonical in now.Keys;
      Appended(e, lives, steps, now.Keys, step, s);
    } else {
      WithoutOrdered(e, lives, steps, s, step.canonical);
      Older(e, lives, steps, now.Keys, step, after);
    }
  }

  lemma AgesByOne(lives: seq<set<string>>, now: set<string>, c: string)
    ensures Age(lives + [now], c) == if c in now then 1 + Age(lives, c) else 0
  {
    assert (lives + [now])[..|lives|] == lives;
  }

  /** Entries that stay age together. */
  lemma Older(e: Env, lives: seq<set<string>>, steps: seq<Step>, now: set<string>, step: Step, s: seq<Saved>)
    requires |lives| == |steps| && InOrder(e, lives, steps, s)
    requires forall i :: 0 <= i < |s| ==> s[i].canonical in now
    ensures InOrder(e, lives + [now], steps + [step], s)
  {
    forall i | 0 <= i < |s|
      ensures Age(lives + [now], s[i].canonical) == 1 + Age(lives, s[i].canonical)
      ensures FirstInput(e, lives + [now], steps + [step], s[i])
    {
      AgesByOne(lives, now, s[i].canonical);
      assert FirstInput(e, lives, steps, s[i]);
    }
  }

  lemma Appended(e: Env, lives: seq<set<string>>, steps: seq<Step>, now: set<string>, step: Step, s: seq<Saved>)
    requires |lives| == |steps| && InOrder(e, lives, steps, s) && step.Add?
    requires forall i :: 0 <= i < |s| ==> s[i].canonical in now
    requires e.norm(step.raw) in now && Age(lives, e.norm(step.raw)) == 0
    ensures InOrder(e, lives + [now], steps + [step], s + [Saved(step.raw, e.norm(step.raw))])
  {
    var x := Saved(step.raw, e.norm(step.raw));
    Older(e, lives, steps, now, step, s);
    AgesByOne(lives, now, x.canonical);
    assert (steps + [step])[|steps|] == step;
    forall i | 0 <= i < |s|
      ensures Age(lives + [now], s[i].canonical) > 1
    {
      AgesByOne(lives, now, s[i].canonical);
      assert FirstInput(e, lives, steps, s[i]);
    }
    SnocOrdered(e, lives + [now], steps + [step], s, x);
  }

  lemma SnocOrdered(e: Env, lives: seq<set<string>>, steps: seq<Step>, s: seq<Saved>, x: Saved)
    requires InOrder(e, lives, steps, s) && FirstInput(e, lives, steps, x)
    requires forall i :: 0 <= i < |s| ==> Age(lives, s[i].canonical) > Age(lives, x.canonical)
    ensures InOrder(e, lives, steps, s + [x])
  {
  }

  lemma {:induction false} WithoutOrdered(
      e: Env, lives: seq<set<string>>, steps: seq<Step>, s: seq<Saved>, c: string)
    requires InOrder(e, lives, steps, s)
    ensures InOrder(e, lives, steps, Without(s, c))
  {
    if s == [] {
    } else {
      var n := |s| - 1;
      WithoutOrdered(e, lives, steps, s[..n], c);
      WithoutFacts(s[..n], c, c);
      var kept := Without(s[..n], c);
      forall i | 0 <= i < |kept|
        ensures Age(lives, kept[i].canonical) > Age(lives, s[n].canonical)
      {
        assert kept[i] in s[..n];
      }
      if s[n].canonical != c {
        SnocOrdered(e, lives, steps, kept, s[n]);
      }
    }
  }

  // ----- what is removed and what is scheduled ---------------------------------------------

  function OtherThan(c: string): Saved -> bool { (x: Saved) => x.canonical != c }

  lemma {:induction false} WithoutIsFilter(s: seq<Saved>, c: string)
    ensures Without(s, c) == Filter(s, OtherThan(c))
  {
    if s == [] {
    } else {
      WithoutIsFilter(s[..|s| - 1], c);
    }
  }

  /** Removing a name unschedules and forgets it, and leaves everything else, order included, as it was. */
  lemma RemoveTakesEffect(b: Book, c: string) returns (at: seq<nat>)
    requires c != ""
    ensures
      var r := Removed(b, c);
      c !in r.live && !Has(r.saved, c) && OnlyAt(b.live, r.live, c) && r.challenges == b.challenges &&
      Chosen(b.saved, OtherThan(c), at) && |at| == |r.saved| &&
      forall i :: 0 <= i < |at| ==> r.saved[i] == b.saved[at[i]]
  {
    WithoutFacts(b.saved, c, c);
    WithoutIsFilter(b.saved, c);
    at := FilterPicks(b.saved, OtherThan(c), Without(b.saved, c));
  }

  /** The step is an accepted add of c that finds room. */
  predicate Admits(e: Env, maxTargets: int, b: Book, step: Step, c: string) {
    step.Add? && e.norm(step.raw) == c && Takes(e, b.challenges, step.raw) && Room(maxTargets, b)
  }

  lemma NamesAreNotEmpty(e: Env, maxTargets: int, b: Book)
    requires Inv(e, maxTargets, b)
    ensures "" !in b.live
  {
  }

  lemma ScheduledStep(e: Env, maxTargets: int, b: Book, step: Step, c: string)
    requires Inv(e, maxTargets, b)
    ensures c in Next(e, maxTargets, b, step).live <==>
      Admits(e, maxTargets, b, step, c) || (c in b.live && !Removes(step, c))
  {
    NamesAreNotEmpty(e, maxTargets, b);
    if step.Restart? {
      RestartChangesNothing(e, maxTargets, b, step.tokens, step.bootedAt);
      assert Next(e, maxTargets, b, step).live.Keys == b.live.Keys;
    }
  }

  predicate Removes(step: Step, c: string) { step.Remove? && step.canonical == c }

  ghost predicate SparedFrom(steps: seq<Step>, c: string, i: nat) {
    forall j :: i < j < |steps| ==> !Removes(steps[j], c)
  }

  /** Step i admitted c, and no later step removes it. */
  ghost predicate AdmittedAt(e: Env, maxTargets: int, steps: seq<Step>, c: string, i: nat) {
    i < |steps| && Admits(e, maxTargets, Run(e, maxTargets, steps[..i]), steps[i], c) && SparedFrom(steps, c, i)
  }

  ghost predicate Admitted(e: Env, maxTargets: int, steps: seq<Step>, c: string) {
    exists i :: AdmittedAt(e, maxTargets, steps, c, i)
  }

  /** After every run a name is scheduled, and saved, exactly if it was admitted and not removed since. */
  lemma {:induction false} ScheduledExactly(e: Env, maxTargets: int, steps: seq<Step>, c: string)
    ensures c in Run(e, maxTargets, steps).live <==> Admitted(e, maxTargets, steps, c)
    ensures Has(Run(e, maxTargets, steps).saved, c) <==> Admitted(e, maxTargets, steps, c)
  {
    TargetsStayInStep(e, maxTargets, steps);
    if steps == [] {
    } else {
      var n := |steps| - 1;
      ScheduledExactly(e, maxTargets, steps[..n], c);
      TargetsStayInStep(e, maxTargets, steps[..n]);
      ScheduledStep(e, maxTargets, Run(e, maxTargets, steps[..n]), steps[n], c);
      AdmittedSnoc(e, maxTargets, steps, c);
    }
  }

  lemma SparedSnoc(steps: seq<Step>, c: string, i: nat)
    requires i < |steps| - 1
    ensures
      var n := |steps| - 1;
      SparedFrom(steps, c, i) <==> SparedFrom(steps[..n], c, i) && !Removes(steps[n], c)
  {
    var n := |steps| - 1;
    if SparedFrom(steps, c, i) {
      forall j | i < j < n
        ensures !Removes(steps[..n][j], c)
      {
        assert steps[..n][j] == steps[j];
      }
    }
    if SparedFrom(steps[..n], c, i) && !Removes(steps[n], c) {
      forall j | i < j <= n
        ensures !Removes(steps[j], c)
      {
        assert j < n ==> steps[..n][j] == steps[j];
      }
    }
  }

  lemma AdmittedEarlier(e: Env, maxTargets: int, steps: seq<Step>, c: string, i: nat)
    requires i < |steps| - 1
    ensures
      var n := |steps| - 1;
      AdmittedAt(e, maxTargets, steps, c, i) <==>
        AdmittedAt(e, maxTargets, steps[..n], c, i) && !Removes(steps[n], c)
  {
    SparedSnoc(steps, c, i);
    assert steps[..|steps| - 1][..i] == steps[..i];
  }

  lemma AdmittedSnoc(e: Env, maxTargets: int, steps: seq<Step>, c: string)
    requires steps != []
    ensures
      var n := |steps| - 1;
      Admitted(e, maxTargets, steps, c) <==>
        Admits(e, maxTargets, Run(e, maxTargets, steps[..n]), steps[n], c) ||
        (Admitted(e, maxTargets, steps[..n], c) && !Removes(steps[n], c))
  {
    var n := |steps| - 1;
    if Admits(e, maxTargets, Run(e, maxTargets, steps[..n]), steps[n], c) {
      assert AdmittedAt(e, maxTargets, steps, c, n);
    }
    if Admitted(e, maxTargets, steps[..n], c) && !Removes(steps[n], c) {
      var i: nat :| AdmittedAt(e, maxTargets, steps[..n], c, i);
      AdmittedEarlier(e, maxTargets, steps, c, i);
    }
    if Admitted(e, maxTargets, steps, c) {
      var i: nat :| AdmittedAt(e, maxTargets, steps, c, i);
      if i < n {
        AdmittedEarlier(e, maxTargets, steps, c, i);
      }
    }
  }
}
