/**
 * From the engine to the user: whether what the dispatcher accepts about a finding keeps up with
 * what happens to its record (store/reconcile.go, notify/bridge.go, notify/notify.go).
 */
module Delivery {
  import opened Findings
  import opened Store
  import opened Lifecycle
  import opened Conservation
  import opened Notify
  import opened Dispatchers

  predicate About(e: Event, k: Key) { e.moduleId == k.moduleId && e.finding.fingerprint == k.fingerprint }

  /** The kinds of the events about k, in order. */
  function KindsOf(evs: seq<Event>, k: Key): seq<EventKind> {
    if evs == [] then []
    else
      var n := |evs| - 1;
      KindsOf(evs[..n], k) + if About(evs[n], k) then [evs[n].kind] else []
  }

  lemma KindsSnoc(evs: seq<Event>, e: Event, k: Key)
    ensures KindsOf(evs + [e], k) == KindsOf(evs, k) + if About(e, k) then [e.kind] else []
  {
    assert (evs + [e])[..|evs|] == evs;
  }

  // ----- the bridge ---------------------------------------------------------------

  lemma {:induction false} KindsConcat(a: seq<Event>, c: seq<Event>, k: Key)
    ensures KindsOf(a + c, k) == KindsOf(a, k) + KindsOf(c, k)
  {
    if c == [] {
      assert a + c == a;
    } else {
      var n := |c| - 1;
      KindsConcat(a, c[..n], k);
      KindsSnoc(a + c[..n], c[n], k);
      assert a + c == a + c[..n] + [c[n]];
    }
  }

  lemma {:induction false} TaggedKinds(kind: EventKind, moduleId: string, fs: seq<Finding>, k: Key)
    ensures KindsOf(Tagged(kind, moduleId, fs), k) ==
      if moduleId == k.moduleId then Copies(kind, CountOf(fs, k.fingerprint)) else []
  {
    if fs == [] {
    } else {
      var n := |fs| - 1;
      var e := Event(kind, moduleId, fs[n]);
      TaggedKinds(kind, moduleId, fs[..n], k);
      assert Tagged(kind, moduleId, fs) == Tagged(kind, moduleId, fs[..n]) + [e];
      KindsSnoc(Tagged(kind, moduleId, fs[..n]), e, k);
    }
  }

  lemma ResolvedCount(resolved: seq<Finding>, s: Scan, m: Records, k: Key)
    requires WellKeyed(m) && ListsResolved(resolved, s, m) && k.moduleId == s.mod.id
    ensures CountOf(resolved, k.fingerprint) == if Resolves(s, k, Lookup(m, k)) then 1 else 0
  {
    ResolvedListIs(resolved, s, m);
    CountOnce(resolved, k.fingerprint);
    CountPositive(resolved, k.fingerprint);
    assert k in ResolvedKeys(s, m) <==> Resolves(s, k, Lookup(m, k));
    assert k in FindingKeys(s.mod.id, resolved) <==> exists f :: f in resolved && f.fingerprint == k.fingerprint;
  }

  /** The bridge enqueues about each key exactly the events of the scan. */
  lemma BridgeCarriesEvents(s: Scan, m: Records, res: ReconcileResult, k: Key)
    requires WellKeyed(m)
    requires res.newlyOpen == OpenedBy(s, m, s.reports) && ListsResolved(res.resolved, s, m)
    ensures KindsOf(Announced(s.mod.id, res), k) == EventsAt(s, m, k)
  {
    var opening, closing := Tagged(KindOpened, s.mod.id, res.newlyOpen), Tagged(KindResolved, s.mod.id, res.resolved);
    KindsConcat(opening, closing, k);
    TaggedKinds(KindOpened, s.mod.id, res.newlyOpen, k);
    TaggedKinds(KindResolved, s.mod.id, res.resolved, k);
    if k.moduleId == s.mod.id {
      ResolvedCount(res.resolved, s, m, k);
      CopiesAre(KindResolved, 1);
      assert KindsOf(closing, k) == if Resolves(s, k, Lookup(m, k)) then [KindResolved] else [];
    }
  }

  // ----- what the dispatcher hears and drops -----------------------------------------

  /** The events of the Enqueue calls that took place. */
  ghost function Enqueued(cfg: Config, ops: seq<Op>): seq<Event> {
    if ops == [] then []
    else
      var before, op := ops[..|ops| - 1], ops[|ops| - 1];
      Enqueued(cfg, before) + if op.DoEnqueue? && Enabled(cfg, After(cfg, before), op) then [op.event] else []
  }

  /** Not below the severity floor, and the dispatcher is open. */
  predicate Heard(cfg: Config, st: State, e: Event) {
    !st.closed && (e.kind == KindOpened ==> PassesSeverity(cfg, e.finding.severity))
  }

  /** The kinds heard about k in the current window, that is since nothing was pending. */
  ghost function Window(cfg: Config, ops: seq<Op>, k: Key): seq<EventKind> {
    if ops == [] || After(cfg, ops).pending == map[] then []
    else
      var before, op := ops[..|ops| - 1], ops[|ops| - 1];
      var st := After(cfg, before);
      var heard := op.DoEnqueue? && Enabled(cfg, st, op) && About(op.event, k) && Heard(cfg, st, op.event);
      Window(cfg, before, k) + if heard then [op.event.kind] else []
  }

  ghost predicate BarFreeModules(ops: seq<Op>) {
    forall op :: op in ops && op.DoEnqueue? ==> BarFree(op.event.moduleId)
  }

  ghost predicate PendingHas(st: State, kind: EventKind, k: Key) {
    exists x :: x in PendingSet(st.pending) && About(x, k) && x.kind == kind
  }

  lemma {:induction false} PendingBarFree(cfg: Config, ops: seq<Op>)
    requires BarFreeModules(ops)
    ensures forall m :: m in After(cfg, ops).pending ==> BarFree(m)
  {
    if ops == [] {
    } else {
      assert ops[|ops| - 1] in ops;
      PendingBarFree(cfg, ops[..|ops| - 1]);
    }
  }

  /** What one operation does to what is pending about k, unless it empties the window. */
  lemma StepPending(cfg: Config, st: State, op: Op, kind: EventKind, k: Key)
    requires cfg.maxBatch >= 1 && Inv(cfg, st) && Enabled(cfg, st, op) && Next(cfg, st, op).pending != map[]
    ensures PendingHas(Next(cfg, st, op), kind, k) <==>
      PendingHas(st, kind, k) ||
      (op.DoEnqueue? && Accepts(cfg, st, op.event) && About(op.event, k) && op.event.kind == kind)
  {
    if op.DoEnqueue? && Accepts(cfg, st, op.event) {
      AddedKeeps(cfg, st, op.event);
    }
  }

  /** An event about k is accepted exactly when it is heard and nothing of its kind is pending about k. */
  lemma AcceptedWhen(cfg: Config, st: State, e: Event, k: Key)
    requires Inv(cfg, st) && About(e, k) && BarFree(e.moduleId) && forall m :: m in st.pending ==> BarFree(m)
    ensures Accepts(cfg, st, e) <==> Heard(cfg, st, e) && !PendingHas(st, e.kind, k)
  {
    DedupIsExact(cfg, st, e);
  }

  /** So what is pending about k is what the window has heard about it. */
  lemma {:induction false} WindowIsPending(cfg: Config, ops: seq<Op>, kind: EventKind, k: Key)
    requires cfg.maxBatch >= 1 && BarFreeModules(ops)
    ensures kind in Window(cfg, ops, k) <==> PendingHas(After(cfg, ops), kind, k)
  {
    if ops == [] {
    } else {
      var before, op := ops[..|ops| - 1], ops[|ops| - 1];
      var st := After(cfg, before);
      assert op in ops;
      WindowIsPending(cfg, before, kind, k);
      AlwaysInv(cfg, before);
      PendingBarFree(cfg, before);
      if Enabled(cfg, st, op) && Next(cfg, st, op).pending != map[] {
        StepPending(cfg, st, op, kind, k);
        if op.DoEnqueue? && About(op.event, k) {
          AcceptedWhen(cfg, st, op.event, k);
        }
      }
    }
  }

  // ----- keeping up -----------------------------------------------------------------

  function LastKind(es: seq<EventKind>): Option<EventKind> { if es == [] then None else Some(es[|es| - 1]) }

  /** What the dispatcher has accepted about k, in order. */
  ghost function Told(cfg: Config, ops: seq<Op>, k: Key): seq<EventKind> { KindsOf(After(cfg, ops).accepted, k) }

  /** What has been enqueued about k, in order. */
  ghost function Happened(cfg: Config, ops: seq<Op>, k: Key): seq<EventKind> { KindsOf(Enqueued(cfg, ops), k) }

  /** The last event accepted about k is of the kind of the last one enqueued about it. */
  ghost predicate UpToDate(cfg: Config, ops: seq<Op>, k: Key) {
    LastKind(Told(cfg, ops, k)) == LastKind(Happened(cfg, ops, k))
  }

  ghost predicate AlwaysUpToDate(cfg: Config, ops: seq<Op>, k: Key) {
    UpToDate(cfg, ops, k) && (ops == [] || AlwaysUpToDate(cfg, ops[..|ops| - 1], k))
  }

  /** The operation enqueues an event about k. */
  ghost predicate Speaks(cfg: Config, before: seq<Op>, op: Op, k: Key) {
    op.DoEnqueue? && Enabled(cfg, After(cfg, before), op) && About(op.event, k)
  }

  /** The event is heard, and the first of its kind about k in this window. */
  ghost predicate Passes(cfg: Config, before: seq<Op>, e: Event, k: Key) {
    Heard(cfg, After(cfg, before), e) && e.kind !in Window(cfg, before, k)
  }

  /** The operation enqueues a change of k, an event of another kind than the last, that does not pass. */
  ghost predicate LosesChange(cfg: Config, before: seq<Op>, op: Op, k: Key) {
    Speaks(cfg, before, op, k) && !Passes(cfg, before, op.event, k) &&
    LastKind(Happened(cfg, before, k)) != Some(op.event.kind)
  }

  ghost predicate NoChangeLost(cfg: Config, ops: seq<Op>, k: Key) {
    ops == [] || (NoChangeLost(cfg, ops[..|ops| - 1], k) && !LosesChange(cfg, ops[..|ops| - 1], ops[|ops| - 1], k))
  }

  lemma HappenedSnoc(cfg: Config, ops: seq<Op>, k: Key)
    requires ops != []
    ensures
      var before, op := ops[..|ops| - 1], ops[|ops| - 1];
      if Speaks(cfg, before, op, k) then Happened(cfg, ops, k) == Happened(cfg, before, k) + [op.event.kind]
      else Happened(cfg, ops, k) == Happened(cfg, before, k)
  {
    var before, op := ops[..|ops| - 1], ops[|ops| - 1];
    if op.DoEnqueue? && Enabled(cfg, After(cfg, before), op) {
      KindsSnoc(Enqueued(cfg, before), op.event, k);
    } else {
      assert Enqueued(cfg, ops) == Enqueued(cfg, before);
    }
  }

  /** Only an accepted event adds to what was accepted. */
  lemma AcceptedGrows(cfg: Config, st: State, op: Op)
    ensures
      var next := StepIfEnabled(cfg, st, op);
      if op.DoEnqueue? && Enabled(cfg, st, op) && Accepts(cfg, st, op.event)
      then next.accepted == st.accepted + [op.event]
      else next.accepted == st.accepted
  {
  }

  /** An event about k is told exactly if it passes. */
  lemma ToldSnoc(cfg: Config, ops: seq<Op>, k: Key)
    requires cfg.maxBatch >= 1 && BarFreeModules(ops) && ops != []
    ensures
      var before, op := ops[..|ops| - 1], ops[|ops| - 1];
      if Speaks(cfg, before, op, k) && Passes(cfg, before, op.event, k)
      then Told(cfg, ops, k) == Told(cfg, before, k) + [op.event.kind]
      else Told(cfg, ops, k) == Told(cfg, before, k)
  {
    var before, op := ops[..|ops| - 1], ops[|ops| - 1];
    AcceptedGrows(cfg, After(cfg, before), op);
    if op.DoEnqueue? {
      KindsSnoc(After(cfg, before).accepted, op.event, k);
      if Speaks(cfg, before, op, k) {
        assert before + [op] == ops;
        PassesMeansAccepted(cfg, before, op, k);
      }
    }
  }

  lemma PassesMeansAccepted(cfg: Config, before: seq<Op>, op: Op, k: Key)
    requires cfg.maxBatch >= 1 && BarFreeModules(before + [op]) && Speaks(cfg, before, op, k)
    ensures Accepts(cfg, After(cfg, before), op.event) <==> Passes(cfg, before, op.event, k)
  {
    assert op in before + [op] && forall x :: x in before ==> x in before + [op];
    AlwaysInv(cfg, before);
    PendingBarFree(cfg, before);
    WindowIsPending(cfg, before, op.event.kind, k);
    AcceptedWhen(cfg, After(cfg, before), op.event, k);
  }

  lemma StepUpToDate(cfg: Config, ops: seq<Op>, k: Key)
    requires cfg.maxBatch >= 1 && BarFreeModules(ops) && ops != [] && UpToDate(cfg, ops[..|ops| - 1], k)
    ensures UpToDate(cfg, ops, k) <==> !LosesChange(cfg, ops[..|ops| - 1], ops[|ops| - 1], k)
  {
    HappenedSnoc(cfg, ops, k);
    ToldSnoc(cfg, ops, k);
  }

  /**
   * Under every interleaving, the dispatcher's word about k is the latest one at every moment exactly
   * when no change of k falls below the floor, comes after Close, or repeats its kind in one window.
   */
  lemma {:induction false} KeepsUpExactly(cfg: Config, ops: seq<Op>, k: Key)
    requires cfg.maxBatch >= 1 && BarFreeModules(ops)
    ensures AlwaysUpToDate(cfg, ops, k) <==> NoChangeLost(cfg, ops, k)
  {
    if ops == [] {
    } else {
      KeepsUpExactly(cfg, ops[..|ops| - 1], k);
      if AlwaysUpToDate(cfg, ops[..|ops| - 1], k) {
        StepUpToDate(cfg, ops, k);
      }
    }
  }

  lemma {:induction false} AllAccepted(cfg: Config, ops: seq<Op>, k: Key)
    requires cfg.maxBatch >= 1 && BarFreeModules(ops) && NoChangeLost(cfg, ops, k)
    requires Alternates(Happened(cfg, ops, k))
    ensures Told(cfg, ops, k) == Happened(cfg, ops, k)
  {
    if ops == [] {
    } else {
      var before := ops[..|ops| - 1];
      HappenedSnoc(cfg, ops, k);
      ToldSnoc(cfg, ops, k);
      PrefixAlternates(Happened(cfg, before, k), Happened(cfg, ops, k));
      AllAccepted(cfg, before, k);
    }
  }

  lemma PrefixAlternates(was: seq<EventKind>, now: seq<EventKind>)
    requires Alternates(now) && was <= now
    ensures Alternates(was)
    ensures |now| == |was| + 1 ==> LastKind(was) != Some(now[|was|])
  {
    assert forall i :: 0 <= i < |was| ==> was[i] == now[i];
  }

  // ----- engine and dispatcher together ----------------------------------------------

  /** One step of the whole: an action of the engine with what Reconcile returned, or a step of the dispatcher. */
  datatype Joint = Engine(action: Action, res: ReconcileResult) | Lock(op: Op)

  function ActsOf(trace: seq<Joint>): seq<Action> {
    if trace == [] then []
    else
      var n := |trace| - 1;
      ActsOf(trace[..n]) + if trace[n].Engine? then [trace[n].action] else []
  }

  function OpsOf(trace: seq<Joint>): seq<Op> {
    if trace == [] then []
    else
      var n := |trace| - 1;
      OpsOf(trace[..n]) + if trace[n].Lock? then [trace[n].op] else []
  }

  /** What Reconcile's contract says of its result. */
  ghost predicate Returned(m: Records, a: Action, res: ReconcileResult) {
    a.DoScan? ==>
      res.newlyOpen == OpenedBy(a.scan, m, a.scan.reports) && ListsResolved(res.resolved, a.scan, m)
  }

  /** The kinds announced about k that the bridge has not enqueued yet. */
  ghost function Owed(cfg: Config, trace: seq<Joint>, k: Key): seq<EventKind> {
    if trace == [] then []
    else
      var before, last := trace[..|trace| - 1], trace[|trace| - 1];
      var owed := Owed(cfg, before, k);
      match last
      case Engine(a, res) => owed + if a.DoScan? then KindsOf(Announced(a.scan.mod.id, res), k) else []
      case Lock(op) => if Speaks(cfg, OpsOf(before), op, k) && owed != [] then owed[1..] else owed
  }

  /** The bridge enqueues about k what was announced about it, in that order, and nothing else does. */
  ghost predicate Bridged(b: Backend, cfg: Config, trace: seq<Joint>, k: Key) {
    trace == [] ||
    (var before, last := trace[..|trace| - 1], trace[|trace| - 1];
     Bridged(b, cfg, before, k) &&
     match last
     case Engine(a, res) => Returned(Run(b, ActsOf(before)), a, res)
     case Lock(op) =>
       Speaks(cfg, OpsOf(before), op, k) ==> Owed(cfg, before, k) != [] && Owed(cfg, before, k)[0] == op.event.kind)
  }

  /** Enqueued so far and still owed together are the events of the engine's run. */
  lemma {:induction false} NothingForgotten(b: Backend, cfg: Config, trace: seq<Joint>, k: Key)
    requires Bridged(b, cfg, trace, k)
    ensures Happened(cfg, OpsOf(trace), k) + Owed(cfg, trace, k) == Events(b, ActsOf(trace), k)
  {
    if trace == [] {
    } else {
      var before, last := trace[..|trace| - 1], trace[|trace| - 1];
      NothingForgotten(b, cfg, before, k);
      match last
      case Engine(a, res) => EngineOwes(b, cfg, trace, k);
      case Lock(op) => LockPays(b, cfg, trace, k);
    }
  }

  lemma LockPays(b: Backend, cfg: Config, trace: seq<Joint>, k: Key)
    requires trace != [] && trace[|trace| - 1].Lock? && Bridged(b, cfg, trace, k)
    ensures
      var before := trace[..|trace| - 1];
      ActsOf(trace) == ActsOf(before) &&
      Happened(cfg, OpsOf(trace), k) + Owed(cfg, trace, k) == Happened(cfg, OpsOf(before), k) + Owed(cfg, before, k)
  {
    var before, op := trace[..|trace| - 1], trace[|trace| - 1].op;
    Paid(cfg, OpsOf(before), op, k, Owed(cfg, before, k));
  }

  lemma Paid(cfg: Config, before: seq<Op>, op: Op, k: Key, owed: seq<EventKind>)
    requires Speaks(cfg, before, op, k) ==> owed != [] && owed[0] == op.event.kind
    ensures Happened(cfg, before + [op], k) + (if Speaks(cfg, before, op, k) then owed[1..] else owed) ==
      Happened(cfg, before, k) + owed
  {
    var ops := before + [op];
    assert ops[..|ops| - 1] == before;
    HappenedSnoc(cfg, ops, k);
    if Speaks(cfg, before, op, k) {
      assert owed == [op.event.kind] + owed[1..];
    }
  }

  lemma EngineOwes(b: Backend, cfg: Config, trace: seq<Joint>, k: Key)
    requires trace != [] && trace[|trace| - 1].Engine? && Bridged(b, cfg, trace, k)
    ensures
      var before := trace[..|trace| - 1];
      OpsOf(trace) == OpsOf(before) &&
      forall h :: h + Owed(cfg, before, k) == Events(b, ActsOf(before), k) ==>
        h + Owed(cfg, trace, k) == Events(b, ActsOf(trace), k)
  {
    var before, a, res := trace[..|trace| - 1], trace[|trace| - 1].action, trace[|trace| - 1].res;
    Announcement(b, ActsOf(before), a, res, k);
    var more := if a.DoScan? then KindsOf(Announced(a.scan.mod.id, res), k) else [];
    forall h
      ensures h + (Owed(cfg, before, k) + more) == h + Owed(cfg, before, k) + more
    {
    }
  }

  lemma Announcement(b: Backend, acts: seq<Action>, a: Action, res: ReconcileResult, k: Key)
    requires Returned(Run(b, acts), a, res)
    ensures Events(b, acts + [a], k) ==
      Events(b, acts, k) + if a.DoScan? then KindsOf(Announced(a.scan.mod.id, res), k) else []
  {
    assert (acts + [a])[..|acts|] == acts;
    if a.DoScan? {
      RunWellKeyed(b, acts);
      BridgeCarriesEvents(a.scan, Run(b, acts), res, k);
    }
  }

  /**
   * End to end, over every interleaving of the engine, the bridge and the dispatcher's lock regions:
   * what is accepted about k is the latest at every moment exactly when no change was lost; and once the
   * bridge has caught up it tells whether the record is unresolved, exactly unless a status change
   * silently revived it; and if nothing was lost and the run was orderly, the user heard every event.
   */
  lemma UserIsTold(who: Key -> Origin, b: Backend, cfg: Config, trace: seq<Joint>, k: Key)
    requires OwnedRun(who, ActsOf(trace)) && Bridged(b, cfg, trace, k)
    requires cfg.maxBatch >= 1 && BarFreeModules(OpsOf(trace))
    ensures
      var acts, ops := ActsOf(trace), OpsOf(trace);
      && (AlwaysUpToDate(cfg, ops, k) <==> NoChangeLost(cfg, ops, k))
      && (Owed(cfg, trace, k) == [] && UpToDate(cfg, ops, k) ==>
           (Tells(Told(cfg, ops, k), Unresolved(Lookup(Run(b, acts), k))) <==> !Silent(b, acts, k)))
      && (Owed(cfg, trace, k) == [] && NoChangeLost(cfg, ops, k) && Orderly(b, acts, k) ==>
           Told(cfg, ops, k) == Events(b, acts, k) && Alternates(Told(cfg, ops, k)))
  {
    var acts, ops := ActsOf(trace), OpsOf(trace);
    KeepsUpExactly(cfg, ops, k);
    NothingForgotten(b, cfg, trace, k);
    Alternation(who, b, acts, k);
    if Owed(cfg, trace, k) == [] {
      assert Happened(cfg, ops, k) == Events(b, acts, k);
      if NoChangeLost(cfg, ops, k) && Orderly(b, acts, k) {
        AllAccepted(cfg, ops, k);
      }
    }
  }

  // ----- a change that is lost ----------------------------------------------------------

  /** Opened, resolved and opened again within one window. */
  function Flicker(f: Finding, moduleId: string, now: int): seq<Op> {
    var order := [moduleId];
    [DoEnqueue(Event(KindOpened, moduleId, f), now, order),
     DoEnqueue(Event(KindResolved, moduleId, f), now, order),
     DoEnqueue(Event(KindOpened, moduleId, f), now, order)]
  }

  lemma PendingOfOne(m: string, evs: seq<Event>)
    ensures PendingSet(map[m := evs]) == set e | e in evs
  {
    var p := map[m := evs];
    forall e | e in evs
      ensures e in PendingSet(p)
    {
      var i :| 0 <= i < |evs| && evs[i] == e;
      assert p[m][i] == e;
    }
  }

  lemma {:induction false} AtMostItsLength(evs: seq<Event>)
    ensures |set e | e in evs| <= |evs|
  {
    if evs == [] {
    } else {
      var n := |evs| - 1;
      AtMostItsLength(evs[..n]);
      assert evs == evs[..n] + [evs[n]];
      assert (set e | e in evs) == (set e | e in evs[..n]) + {evs[n]};
    }
  }

  /** With room in the batch, an accepted event joins the pending ones of the only module. */
  lemma OneMorePending(cfg: Config, st: State, e: Event, now: int, evs: seq<Event>)
    requires st.pending == (if evs == [] then map[] else map[e.moduleId := evs])
    requires Accepts(cfg, st, e) && |evs| + 1 < cfg.maxBatch
    ensures
      var op := DoEnqueue(e, now, [e.moduleId]);
      Enabled(cfg, st, op) &&
      var next := Next(cfg, st, op);
      next.accepted == st.accepted + [e] && next.seen == st.seen + {EventKey(e)} && next.closed == st.closed &&
      next.pending == map[e.moduleId := evs + [e]]
  {
    assert Listed(st.pending, e.moduleId) == evs;
    assert Added(st, e).pending == map[e.moduleId := evs + [e]];
    PendingOfOne(e.moduleId, evs + [e]);
    AtMostItsLength(evs + [e]);
  }

  lemma DifferentKinds(moduleId: string, f: Finding)
    ensures EventKey(Event(KindOpened, moduleId, f)) != EventKey(Event(KindResolved, moduleId, f))
  {
    assert EventKey(Event(KindOpened, moduleId, f))[0] == 'o' && EventKey(Event(KindResolved, moduleId, f))[0] == 'r';
  }

  lemma FirstAccepted(cfg: Config, f: Finding, moduleId: string, now: int)
    requires cfg.maxBatch >= 4 && cfg.minSeverity == None
    ensures
      var ops, o := Flicker(f, moduleId, now), Event(KindOpened, moduleId, f);
      var st := After(cfg, ops[..1]);
      Enqueued(cfg, ops[..1]) == [o] && st.accepted == [o] && !st.closed &&
      st.seen == {EventKey(o)} && st.pending == map[moduleId := [o]]
  {
    var ops, o := Flicker(f, moduleId, now), Event(KindOpened, moduleId, f);
    assert ops[..1][..0] == [];
    OneMorePending(cfg, INITIAL, o, now, []);
    assert [] + [o] == [o] && {} + {EventKey(o)} == {EventKey(o)};
  }

  lemma FirstTwoAccepted(cfg: Config, f: Finding, moduleId: string, now: int)
    requires cfg.maxBatch >= 4 && cfg.minSeverity == None
    ensures
      var ops, o, r := Flicker(f, moduleId, now), Event(KindOpened, moduleId, f), Event(KindResolved, moduleId, f);
      var st := After(cfg, ops[..2]);
      Enqueued(cfg, ops[..2]) == [o, r] && st.accepted == [o, r] && !st.closed &&
      st.seen == {EventKey(o), EventKey(r)} && st.pending == map[moduleId := [o, r]]
  {
    var ops := Flicker(f, moduleId, now);
    var o, r := Event(KindOpened, moduleId, f), Event(KindResolved, moduleId, f);
    assert ops[..2][..1] == ops[..1];
    DifferentKinds(moduleId, f);
    FirstAccepted(cfg, f, moduleId, now);
    OneMorePending(cfg, After(cfg, ops[..1]), r, now, [o]);
    assert [o] + [r] == [o, r];
  }

  lemma ThirdIsDropped(cfg: Config, f: Finding, moduleId: string, now: int)
    requires cfg.maxBatch >= 4 && cfg.minSeverity == None
    ensures
      var ops, o, r := Flicker(f, moduleId, now), Event(KindOpened, moduleId, f), Event(KindResolved, moduleId, f);
      Enqueued(cfg, ops) == [o, r] + [o] && After(cfg, ops).accepted == [o, r]
  {
    var ops := Flicker(f, moduleId, now);
    FirstTwoAccepted(cfg, f, moduleId, now);
    var st := After(cfg, ops[..2]);
    assert ops[..|ops| - 1] == ops[..2];
    assert !Accepts(cfg, st, ops[2].event) && Enabled(cfg, st, ops[2]);
  }

  lemma TwoKinds(o: Event, r: Event, k: Key)
    requires About(o, k) && About(r, k)
    ensures KindsOf([o, r], k) == [o.kind, r.kind]
  {
    KindsSnoc([], o, k);
    KindsSnoc([o], r, k);
    assert [] + [o] == [o] && [o] + [r] == [o, r];
  }

  /** The user hears that the finding was opened and resolved; it is open. */
  lemma FlickerIsLost(cfg: Config, f: Finding, k: Key, now: int)
    requires cfg.maxBatch >= 4 && cfg.minSeverity == None && k.fingerprint == f.fingerprint
    ensures
      var ops := Flicker(f, k.moduleId, now);
      Told(cfg, ops, k) == [KindOpened, KindResolved] &&
      Happened(cfg, ops, k) == [KindOpened, KindResolved, KindOpened] && !UpToDate(cfg, ops, k)
  {
    var o, r := Event(KindOpened, k.moduleId, f), Event(KindResolved, k.moduleId, f);
    ThirdIsDropped(cfg, f, k.moduleId, now);
    TwoKinds(o, r, k);
    KindsSnoc([o, r], o, k);
  }
}
