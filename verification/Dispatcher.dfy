/** The dispatcher object and its methods, proved against the step functions of Notify. */
module Dispatchers {
  import opened Findings
  import opened SeveritySort
  import opened Notify
  import Store

  lemma NewWindowSize(cfg: Config, st: State, ds: seq<Digest>)
    ensures |NewWindow(cfg, st, ds).inflight| == |st.inflight| + |SendsOf(ds, cfg.channels)|
  {
  }

  class Dispatcher {
    const cfg: Config
    var pending: map<string, seq<Event>>
    var seen: set<string>
    var timer: Timer
    var closed: bool
    var wg: nat

    /** The same state with its history; Coupled ties it to the fields. */
    ghost var model: State

    ghost predicate Coupled() reads this {
      model.pending == pending && model.seen == seen && model.timer == timer && model.closed == closed &&
        wg == |model.inflight|
    }

    ghost predicate Valid() reads this {
      Coupled() && cfg.maxBatch >= 1 && Inv(cfg, model)
    }

    constructor (config: Config)
      ensures Valid() && cfg == WithDefaults(config) && model == INITIAL
    {
      cfg := WithDefaults(config);
      pending, seen, timer, closed, wg := map[], {}, NoTimer, false, 0;
      model := INITIAL;
      new;
      NothingPending();
    }

    /** The lock region of Enqueue, or nothing for an event below the severity floor. */
    method Enqueue(e: Event, now: int) returns (ghost order: seq<string>)
      requires Valid()
      modifies this
      ensures Valid()
      ensures Enabled(cfg, old(model), DoEnqueue(e, now, order)) &&
        model == Next(cfg, old(model), DoEnqueue(e, now, order))
    {
      ghost var st := model;
      if (e.kind == KindOpened && !PassesSeverity(cfg, e.finding.severity)) || closed || EventKey(e) in seen {
        order := AnyOrder(pending);
        return;
      }
      AddedKeeps(cfg, st, e);
      order := Add(e, now);
      NextKeeps(cfg, st, DoEnqueue(e, now, order));
    }

    method Add(e: Event, now: int) returns (ghost order: seq<string>)
      requires Coupled() && PendingOk(Added(model, e).pending)
      modifies this
      ensures Coupled() && Enumerates(order, Added(old(model), e).pending)
      ensures model ==
        var added := Added(old(model), e);
        if |PendingSet(added.pending)| >= cfg.maxBatch then Flushed(cfg, added, now, order)
        else if added.timer == NoTimer then added.(timer := Armed)
        else added
    {
      seen := seen + {EventKey(e)};
      pending := pending[e.moduleId := Listed(pending, e.moduleId) + [e]];
      model := Added(model, e);
      var total := CountPending(pending);
      if total >= cfg.maxBatch {
        order := FlushLocked(now);
        return;
      }
      order := AnyOrder(pending);
      if timer == NoTimer {
        timer := Armed;
        model := model.(timer := Armed);
      }
    }

    /** The window timer expires and starts a goroutine that will call Flush. */
    method Expire()
      requires Valid() && timer == Armed
      modifies this
      ensures Valid() && model == Next(cfg, old(model), TimerFires)
    {
      NextKeeps(cfg, model, TimerFires);
      timer := Fired;
      model := Next(cfg, model, TimerFires);
    }

    /** Flush, called directly or by the timer's goroutine. */
    method Flush(now: int, ghost timed: bool) returns (ghost op: Op)
      requires Valid() && (timed ==> model.waiting > 0)
      modifies this
      ensures Valid()
      ensures if timed then op.TimedFlush? else op.DirectFlush?
      ensures Enabled(cfg, old(model), op) && model == Next(cfg, old(model), op)
    {
      ghost var st := model;
      if timed {
        model := model.(waiting := model.waiting - 1);
      }
      ghost var order := FlushLocked(now);
      op := if timed then TimedFlush(now, order) else DirectFlush(now, order);
      NextKeeps(cfg, st, op);
    }

    /** The lock region of Close; its return is CloseReturns, enabled when the wait group is zero. */
    method Close(now: int) returns (ghost order: seq<string>)
      requires Valid()
      modifies this
      ensures Valid()
      ensures Enabled(cfg, old(model), DoClose(now, order)) && model == Next(cfg, old(model), DoClose(now, order))
    {
      ghost var st := model;
      order := CloseLocked(now);
      CloseKeeps(cfg, st, now, order);
    }

    method CloseLocked(now: int) returns (ghost order: seq<string>)
      requires Coupled()
      modifies this
      ensures Coupled() && Enumerates(order, old(pending)) &&
        model == Flushed(cfg, old(model), now, order).(closed := true)
    {
      order := FlushLocked(now);
      closed := true;
      model := model.(closed := true);
    }

    /** A sender goroutine is done with its digest. */
    method Done(ghost s: Send)
      requires Valid() && s in model.inflight
      modifies this
      ensures Valid() && model == Next(cfg, old(model), SendReturns(s))
    {
      MoveOne(model.inflight, model.finished, s);
      NextKeeps(cfg, model, SendReturns(s));
      model := Next(cfg, model, SendReturns(s));
      wg := wg - 1;
    }

    method FlushLocked(now: int) returns (ghost order: seq<string>)
      requires Coupled()
      modifies this
      ensures Coupled() && Enumerates(order, old(pending)) && model == Flushed(cfg, old(model), now, order)
    {
      timer := NoTimer;
      model := model.(timer := NoTimer);
      if pending == map[] {
        order := [];
        return;
      }
      var digests, visited := BuildAll(pending, now);
      order := visited;
      pending, seen := map[], {};
      var started := LaunchAll(digests, cfg.channels);
      NewWindowSize(cfg, model, digests);
      wg := wg + started;
      model := NewWindow(cfg, model, digests);
    }
  }

  /** The loop that builds one digest per pending module, in whatever order the map yields them. */
  method BuildAll(pending: map<string, seq<Event>>, now: int) returns (digests: seq<Digest>, order: seq<string>)
    ensures Enumerates(order, pending) && digests == Digests(pending, order, now)
  {
    order, digests := [], [];
    var todo := pending.Keys;
    while todo != {}
      invariant todo <= pending.Keys
      invariant forall m :: m in order <==> m in pending && m !in todo
      invariant forall i, j :: 0 <= i < j < |order| ==> order[i] != order[j]
      invariant digests == Digests(pending, order, now)
      decreases todo
    {
      var m :| m in todo;
      todo := todo - {m};
      var dg := BuildDigest(m, pending[m], now);
      DigestsSnoc(pending, order, m, now);
      digests := digests + [dg];
      order := order + [m];
    }
  }

  lemma DigestsSnoc(pending: map<string, seq<Event>>, order: seq<string>, m: string, now: int)
    requires m in pending && forall x :: x in order ==> x in pending
    ensures Digests(pending, order + [m], now) == Digests(pending, order, now) + [DigestOf(m, pending[m], now)]
  {
  }

  /** The loop that starts one sender per non-empty digest and channel; how many it adds to the wait group. */
  method LaunchAll(digests: seq<Digest>, channels: nat) returns (started: nat)
    ensures started == |SendsOf(digests, channels)|
  {
    started := 0;
    for i := 0 to |digests|
      invariant started == |SendsOf(digests[..i], channels)|
    {
      assert digests[..i + 1][..i] == digests[..i];
      SendsToSize(digests[i], channels);
      if Empty(digests[i]) {
        continue;
      }
      for ch := 0 to channels
        invariant started == |SendsOf(digests[..i], channels)| + ch
      {
        started := started + 1;
      }
    }
    assert digests[..|digests|] == digests;
  }

  method BuildDigest(moduleId: string, events: seq<Event>, now: int) returns (dg: Digest)
    ensures dg == DigestOf(moduleId, events, now)
  {
    var opening: seq<Finding>, resolved: seq<Finding> := [], [];
    for i := 0 to |events|
      invariant opening == FindingsOf(events[..i], KindOpened) && resolved == FindingsOf(events[..i], KindResolved)
    {
      assert events[..i + 1][..i] == events[..i];
      match events[i].kind
      case KindOpened => opening := opening + [events[i].finding];
      case KindResolved => resolved := resolved + [events[i].finding];
    }
    assert events[..|events|] == events;
    var fs := new Finding[|opening|](i requires 0 <= i < |opening| => opening[i]);
    assert fs[..] == opening;
    SortBySeverity(fs);
    dg := Digest(moduleId, fs[..], resolved, now);
  }

  /** Some order in which Go could range over the map. */
  lemma AnyOrder(pending: map<string, seq<Event>>) returns (order: seq<string>)
    ensures Enumerates(order, pending)
  {
    order := [];
    var todo := pending.Keys;
    while todo != {}
      invariant todo <= pending.Keys
      invariant forall m :: m in order <==> m in pending && m !in todo
      invariant forall i, j :: 0 <= i < j < |order| ==> order[i] != order[j]
      decreases todo
    {
      var m :| m in todo;
      todo := todo - {m};
      order := order + [m];
    }
  }

  /** total: the loop adds the list lengths; distinct keys make it the number of pending events. */
  method CountPending(pending: map<string, seq<Event>>) returns (total: nat)
    requires PendingOk(pending)
    ensures total == |PendingSet(pending)|
  {
    total := 0;
    var todo := pending.Keys;
    ghost var counted: set<Event> := {};
    while todo != {}
      invariant todo <= pending.Keys
      invariant counted == set e | e in PendingSet(pending) && e.moduleId !in todo
      invariant total == |counted|
      decreases todo
    {
      var m :| m in todo;
      ghost var here := set e | e in pending[m];
      DistinctSize(pending[m]);
      forall e
        ensures e in PendingSet(pending) && e.moduleId == m <==> e in here
      {
        InPending(pending, e);
      }
      Disjoint(counted, here, PendingSet(pending), todo, m);
      todo := todo - {m};
      total := total + |pending[m]|;
      counted := counted + here;
    }
    assert counted == PendingSet(pending);
  }

  /** The events of one more module join those counted so far. */
  lemma Disjoint(counted: set<Event>, here: set<Event>, all: set<Event>, todo: set<string>, m: string)
    requires m in todo && counted == (set e | e in all && e.moduleId !in todo)
    requires forall e :: e in here <==> e in all && e.moduleId == m
    ensures counted + here == (set e | e in all && e.moduleId !in todo - {m})
    ensures |counted + here| == |counted| + |here|
  {
    assert counted !! here;
  }

  lemma {:induction false} DistinctSize(evs: seq<Event>)
    requires DistinctKeys(evs)
    ensures |set e | e in evs| == |evs|
  {
    if evs == [] {
    } else {
      var n := |evs| - 1;
      DistinctSize(evs[..n]);
      assert evs == evs[..n] + [evs[n]];
      assert evs[n] !in evs[..n];
      assert (set e | e in evs) == (set e | e in evs[..n]) + {evs[n]};
    }
  }

  // ----- sending --------------------------------------------------------------

  /** sendWithRetry; `ok` says which attempts the channel would accept. */
  method SendWithRetry(cfg: Config, ok: nat -> bool) returns (attempts: nat, reported: bool)
    requires cfg.retries >= 1
    ensures 1 <= attempts <= cfg.retries
    ensures forall a :: 0 <= a < attempts - 1 ==> !ok(a)
    ensures ok(attempts - 1) || attempts == cfg.retries
    ensures reported <==> forall a :: 0 <= a < cfg.retries ==> !ok(a)
  {
    attempts, reported := 0, false;
    while attempts < cfg.retries
      invariant 0 <= attempts <= cfg.retries
      invariant forall a :: 0 <= a < attempts ==> !ok(a)
    {
      var sent := ok(attempts);
      attempts := attempts + 1;
      if sent {
        return;
      }
    }
    reported := true;
  }

  // ----- the bridge from the scheduler ------------------------------------------

  function Announced(moduleId: string, res: Store.ReconcileResult): (evs: seq<Event>)
    ensures |evs| == |res.newlyOpen| + |res.resolved|
  {
    Tagged(KindOpened, moduleId, res.newlyOpen) + Tagged(KindResolved, moduleId, res.resolved)
  }

  ghost function Replay(cfg: Config, st: State, ops: seq<Op>): State {
    if ops == [] then st else StepIfEnabled(cfg, Replay(cfg, st, ops[..|ops| - 1]), ops[|ops| - 1])
  }

  lemma {:induction false} ReplayConcat(cfg: Config, st: State, a: seq<Op>, b: seq<Op>)
    ensures Replay(cfg, st, a + b) == Replay(cfg, Replay(cfg, st, a), b)
  {
    if b == [] {
      assert a + b == a;
    } else {
      assert (a + b)[..|a + b| - 1] == a + b[..|b| - 1];
      ReplayConcat(cfg, st, a, b[..|b| - 1]);
    }
  }

  ghost predicate Enqueues(ops: seq<Op>, evs: seq<Event>) {
    |ops| == |evs| && forall i :: 0 <= i < |ops| ==> ops[i].DoEnqueue? && ops[i].event == evs[i]
  }

  lemma ReplaySnoc(cfg: Config, st: State, ops: seq<Op>, op: Op)
    ensures Replay(cfg, st, ops + [op]) == StepIfEnabled(cfg, Replay(cfg, st, ops), op)
  {
    assert (ops + [op])[..|ops|] == ops;
  }

  method EnqueueOne(d: Dispatcher, e: Event, now: int) returns (ghost op: Op)
    requires d.Valid()
    modifies d
    ensures d.Valid() && op.DoEnqueue? && op.event == e && d.model == StepIfEnabled(d.cfg, old(d.model), op)
  {
    ghost var order := d.Enqueue(e, now);
    op := DoEnqueue(e, now, order);
  }

  lemma EnqueuesSnoc(ops: seq<Op>, evs: seq<Event>, i: nat, op: Op)
    requires i < |evs| && Enqueues(ops, evs[..i]) && op.DoEnqueue? && op.event == evs[i]
    ensures Enqueues(ops + [op], evs[..i + 1])
  {
  }

  method EnqueueAll(d: Dispatcher, evs: seq<Event>, now: int) returns (ghost ops: seq<Op>)
    requires d.Valid()
    modifies d
    ensures d.Valid() && Enqueues(ops, evs) && d.model == Replay(d.cfg, old(d.model), ops)
  {
    ops := [];
    ghost var st := d.model;
    for i := 0 to |evs|
      invariant d.Valid()
      invariant Enqueues(ops, evs[..i])
      invariant d.model == Replay(d.cfg, st, ops)
    {
      ghost var op := EnqueueOne(d, evs[i], now);
      ReplaySnoc(d.cfg, st, ops, op);
      EnqueuesSnoc(ops, evs, i, op);
      ops := ops + [op];
    }
    assert evs[..|evs|] == evs;
  }

  /** OnResult, when nothing else takes the lock in between: newly-open findings, then resolved ones. */
  method OnResult(d: Dispatcher, moduleId: string, res: Store.ReconcileResult, now: int) returns (ghost ops: seq<Op>)
    requires d.Valid()
    modifies d
    ensures d.Valid() && Enqueues(ops, Announced(moduleId, res)) && d.model == Replay(d.cfg, old(d.model), ops)
  {
    ghost var st := d.model;
    ghost var a := EnqueueAll(d, Tagged(KindOpened, moduleId, res.newlyOpen), now);
    ghost var b := EnqueueAll(d, Tagged(KindResolved, moduleId, res.resolved), now);
    ReplayConcat(d.cfg, st, a, b);
    ops := a + b;
  }
}
