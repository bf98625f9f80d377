/** The notification dispatcher (notify/notify.go, notify/bridge.go): batch, deduplicate, flush, close. */
module Notify {
  import opened Basics
  import opened Findings
  import opened SeveritySort
  import opened Text

  datatype Event = Event(kind: EventKind, moduleId: string, finding: Finding)

  datatype Digest = Digest(moduleId: string, newlyOpen: seq<Finding>, resolved: seq<Finding>, at: int)

  /** One send of one digest to one channel. */
  datatype Send = Send(channel: nat, digest: Digest)

  /** minSeverity None is the empty string: send all. */
  datatype Config = Config(
    flushInterval: int,
    maxBatch: int,
    minSeverity: Option<Severity>,
    retries: int,
    retryDelay: int,
    channels: nat)

  const SECOND := 1_000_000_000

  /** What an empty configuration stands for: 30 s windows, 100 events, 3 tries 5 s apart. */
  const DEFAULTS := Config(30 * SECOND, 100, None, 3, 5 * SECOND, 0)

  predicate SetOr(given: int, used: int, fallback: int) { used == if given > 0 then given else fallback }

  /** Every limit is positive: the one given, if it is, else the default. */
  function WithDefaults(c: Config): (r: Config)
    ensures SetOr(c.flushInterval, r.flushInterval, DEFAULTS.flushInterval) && r.flushInterval > 0
    ensures SetOr(c.maxBatch, r.maxBatch, DEFAULTS.maxBatch) && r.maxBatch > 0
    ensures SetOr(c.retries, r.retries, DEFAULTS.retries) && r.retries > 0
    ensures SetOr(c.retryDelay, r.retryDelay, DEFAULTS.retryDelay) && r.retryDelay > 0
    ensures r.minSeverity == c.minSeverity && r.channels == c.channels
  {
    var c1 := if c.flushInterval <= 0 then c.(flushInterval := 30 * SECOND) else c;
    var c2 := if c1.maxBatch <= 0 then c1.(maxBatch := 100) else c1;
    var c3 := if c2.retries <= 0 then c2.(retries := 3) else c2;
    if c3.retryDelay <= 0 then c3.(retryDelay := 5 * SECOND) else c3
  }

  function KindText(k: EventKind): string { if k == KindOpened then "opened" else "resolved" }

  /** The deduplication key. */
  function EventKey(e: Event): string { KindText(e.kind) + "|" + e.moduleId + "|" + e.finding.fingerprint }

  predicate PassesSeverity(cfg: Config, s: Severity) {
    cfg.minSeverity.None? || SeverityRank(s) >= SeverityRank(cfg.minSeverity.value)
  }

  /** Fired: the timer's goroutine is started but its Flush does not have the lock yet. */
  datatype Timer = NoTimer | Armed | Fired

  /**
   * The dispatcher between lock regions. `waiting` counts fired Flush calls without the lock; the
   * last four fields are history: events accepted, the digests of each flush, sends started and
   * sends finished.
   */
  datatype State = State(
    pending: map<string, seq<Event>>,
    seen: set<string>,
    timer: Timer,
    closed: bool,
    waiting: nat,
    inflight: multiset<Send>,
    accepted: seq<Event>,
    emitted: seq<seq<Digest>>,
    launched: multiset<Send>,
    finished: multiset<Send>)

  const INITIAL := State(map[], {}, NoTimer, false, 0, multiset{}, [], [], multiset{}, multiset{})

  // ----- flushing -------------------------------------------------------------

  function FindingsOf(evs: seq<Event>, kind: EventKind): seq<Finding> {
    if evs == [] then []
    else
      var n := |evs| - 1;
      FindingsOf(evs[..n], kind) + if evs[n].kind == kind then [evs[n].finding] else []
  }

  function DigestOf(moduleId: string, evs: seq<Event>, now: int): Digest {
    Digest(moduleId, BySeverity(FindingsOf(evs, KindOpened)), FindingsOf(evs, KindResolved), now)
  }

  /** order is the order in which the flush happens to visit the pending modules. */
  function Digests(pending: map<string, seq<Event>>, order: seq<string>, now: int): seq<Digest>
    requires forall m :: m in order ==> m in pending
  {
    seq(|order|, i requires 0 <= i < |order| => DigestOf(order[i], pending[order[i]], now))
  }

  ghost predicate Enumerates(order: seq<string>, pending: map<string, seq<Event>>) {
    && (forall m :: m in order <==> m in pending)
    && (forall i, j :: 0 <= i < j < |order| ==> order[i] != order[j])
  }

  predicate Empty(d: Digest) { d.newlyOpen == [] && d.resolved == [] }

  function SendsTo(d: Digest, channels: nat): multiset<Send> {
    if channels == 0 then multiset{} else SendsTo(d, channels - 1) + multiset{Send(channels - 1, d)}
  }

  lemma {:induction false} SendsToSize(d: Digest, channels: nat)
    ensures |SendsTo(d, channels)| == channels
  {
    if channels == 0 {
    } else {
      SendsToSize(d, channels - 1);
    }
  }

  /** Every non-empty digest once to every channel. */
  function SendsOf(ds: seq<Digest>, channels: nat): multiset<Send> {
    if ds == [] then multiset{}
    else
      var n := |ds| - 1;
      SendsOf(ds[..n], channels) + if Empty(ds[n]) then multiset{} else SendsTo(ds[n], channels)
  }

  /** The digests leave, and a new window starts. */
  function NewWindow(cfg: Config, st: State, ds: seq<Digest>): State {
    var sends := SendsOf(ds, cfg.channels);
    st.(pending := map[], seen := {}, emitted := st.emitted + [ds], inflight := st.inflight + sends,
      launched := st.launched + sends)
  }

  function Flushed(cfg: Config, st: State, now: int, order: seq<string>): State
    requires forall m :: m in order ==> m in st.pending
  {
    if st.pending == map[] then st.(timer := NoTimer)
    else NewWindow(cfg, st.(timer := NoTimer), Digests(st.pending, order, now))
  }

  // ----- steps ----------------------------------------------------------------

  /** One lock region, or one event outside the lock. */
  datatype Op =
    | DoEnqueue(event: Event, now: int, order: seq<string>)
    | TimerFires
    | TimedFlush(now: int, order: seq<string>)
    | DirectFlush(now: int, order: seq<string>)
    | DoClose(now: int, order: seq<string>)
    | SendReturns(send: Send)
    | CloseReturns

  predicate Accepts(cfg: Config, st: State, e: Event) {
    && (e.kind == KindOpened ==> PassesSeverity(cfg, e.finding.severity))
    && !st.closed
    && EventKey(e) !in st.seen
  }

  function Listed(pending: map<string, seq<Event>>, m: string): seq<Event> { if m in pending then pending[m] else [] }

  function Added(st: State, e: Event): State {
    st.(seen := st.seen + {EventKey(e)}, pending := st.pending[e.moduleId := Listed(st.pending, e.moduleId) + [e]],
      accepted := st.accepted + [e])
  }

  function PendingSet(pending: map<string, seq<Event>>): set<Event> {
    set m, i | m in pending && 0 <= i < |pending[m]| :: pending[m][i]
  }

  ghost predicate Enabled(cfg: Config, st: State, op: Op) {
    match op
    case DoEnqueue(e, _, order) => Enumerates(order, if Accepts(cfg, st, e) then Added(st, e).pending else st.pending)
    case TimerFires => st.timer == Armed
    case TimedFlush(_, order) => st.waiting > 0 && Enumerates(order, st.pending)
    case DirectFlush(_, order) => Enumerates(order, st.pending)
    case DoClose(_, order) => Enumerates(order, st.pending)
    case SendReturns(s) => s in st.inflight
    case CloseReturns => st.closed && st.inflight == multiset{}
  }

  function Next(cfg: Config, st: State, op: Op): State
    requires Enabled(cfg, st, op)
  {
    match op
    case DoEnqueue(e, now, order) =>
      if !Accepts(cfg, st, e) then st
      else
        var added := Added(st, e);
        if |PendingSet(added.pending)| >= cfg.maxBatch then Flushed(cfg, added, now, order)
        else if added.timer == NoTimer then added.(timer := Armed)
        else added
    case TimerFires => st.(timer := Fired, waiting := st.waiting + 1)
    case TimedFlush(now, order) => Flushed(cfg, st.(waiting := st.waiting - 1), now, order)
    case DirectFlush(now, order) => Flushed(cfg, st, now, order)
    case DoClose(now, order) => Flushed(cfg, st, now, order).(closed := true)
    case SendReturns(s) => st.(inflight := st.inflight - multiset{s}, finished := st.finished + multiset{s})
    case CloseReturns => st
  }

  // ----- the state invariant ----------------------------------------------------

  ghost predicate DistinctKeys(evs: seq<Event>) {
    forall i, j :: 0 <= i < j < |evs| ==> EventKey(evs[i]) != EventKey(evs[j])
  }

  /** Pending lists are non-empty, hold their own module's events, and no key occurs twice. */
  ghost predicate PendingOk(pending: map<string, seq<Event>>) {
    && (forall m :: m in pending ==> pending[m] != [] && DistinctKeys(pending[m]))
    && (forall m, i :: m in pending && 0 <= i < |pending[m]| ==> pending[m][i].moduleId == m)
    && (forall e, f :: e in PendingSet(pending) && f in PendingSet(pending) && EventKey(e) == EventKey(f) ==> e == f)
  }

  function PendingKeys(pending: map<string, seq<Event>>): set<string> {
    set e | e in PendingSet(pending) :: EventKey(e)
  }

  /** The events a digest announces. */
  function Tagged(kind: EventKind, moduleId: string, fs: seq<Finding>): seq<Event> {
    seq(|fs|, i requires 0 <= i < |fs| => Event(kind, moduleId, fs[i]))
  }

  function DigestEvents(d: Digest): seq<Event> {
    Tagged(KindOpened, d.moduleId, d.newlyOpen) + Tagged(KindResolved, d.moduleId, d.resolved)
  }

  function WindowEvents(ds: seq<Digest>): seq<Event> {
    if ds == [] then [] else WindowEvents(ds[..|ds| - 1]) + DigestEvents(ds[|ds| - 1])
  }

  function EmittedEvents(ws: seq<seq<Digest>>): seq<Event> {
    if ws == [] then [] else EmittedEvents(ws[..|ws| - 1]) + WindowEvents(ws[|ws| - 1])
  }

  function EmittedSends(ws: seq<seq<Digest>>, channels: nat): multiset<Send> {
    if ws == [] then multiset{} else EmittedSends(ws[..|ws| - 1], channels) + SendsOf(ws[|ws| - 1], channels)
  }

  /** One flush: one non-empty digest per module, most severe first, no event key twice. */
  ghost predicate WindowOk(ds: seq<Digest>) {
    && (forall i :: 0 <= i < |ds| ==> !Empty(ds[i]) && Descending(ds[i].newlyOpen))
    && (forall i, j :: 0 <= i < j < |ds| ==> ds[i].moduleId != ds[j].moduleId)
    && DistinctKeys(WindowEvents(ds))
  }

  ghost predicate WindowsOk(ws: seq<seq<Digest>>) {
    forall ds :: ds in ws ==> WindowOk(ds)
  }

  /** Accounting: accepted events are emitted or pending, and emitted digests are in flight or sent. */
  ghost predicate Accounted(cfg: Config, st: State) {
    && PendingOk(st.pending)
    && multiset(st.accepted) == multiset(EmittedEvents(st.emitted)) + multiset(PendingSet(st.pending))
    && WindowsOk(st.emitted)
    && st.launched == EmittedSends(st.emitted, cfg.channels)
    && st.launched == st.inflight + st.finished
  }

  ghost predicate Inv(cfg: Config, st: State) {
    && Accounted(cfg, st)
    && st.seen == PendingKeys(st.pending)
    && |PendingSet(st.pending)| < cfg.maxBatch
    && (st.timer == Fired ==> st.waiting > 0)
    && (st.pending != map[] ==> st.timer != NoTimer)
    && (st.closed ==> st.pending == map[] && st.timer == NoTimer)
  }

  // ----- accounting lemmas --------------------------------------------------------

  /** A digest announces its module's events, with their multiplicities. */
  lemma DigestCount(moduleId: string, evs: seq<Event>, now: int, x: Event)
    requires forall i :: 0 <= i < |evs| ==> evs[i].moduleId == moduleId
    ensures multiset(DigestEvents(DigestOf(moduleId, evs, now)))[x] == multiset(evs)[x]
  {
    var opening, resolved := FindingsOf(evs, KindOpened), FindingsOf(evs, KindResolved);
    DigestOrder(opening);
    TaggedCount(KindOpened, moduleId, BySeverity(opening), x);
    TaggedCount(KindResolved, moduleId, resolved, x);
    ConcatCount(Tagged(KindOpened, moduleId, BySeverity(opening)), Tagged(KindResolved, moduleId, resolved), x);
    KindCount(moduleId, evs, x);
  }

  lemma {:induction false} TaggedCount(kind: EventKind, moduleId: string, fs: seq<Finding>, x: Event)
    ensures multiset(Tagged(kind, moduleId, fs))[x] ==
      if x.kind == kind && x.moduleId == moduleId then multiset(fs)[x.finding] else 0
  {
    if fs == [] {
    } else {
      var n := |fs| - 1;
      TaggedCount(kind, moduleId, fs[..n], x);
      assert Tagged(kind, moduleId, fs) == Tagged(kind, moduleId, fs[..n]) + [Event(kind, moduleId, fs[n])];
      assert fs == fs[..n] + [fs[n]];
    }
  }

  lemma {:induction false} KindCount(moduleId: string, evs: seq<Event>, x: Event)
    requires forall i :: 0 <= i < |evs| ==> evs[i].moduleId == moduleId
    ensures multiset(evs)[x] == if x.moduleId == moduleId then multiset(FindingsOf(evs, x.kind))[x.finding] else 0
  {
    if evs == [] {
    } else {
      var n := |evs| - 1;
      KindCount(moduleId, evs[..n], x);
      assert evs == evs[..n] + [evs[n]];
    }
  }

  lemma InPending(pending: map<string, seq<Event>>, e: Event)
    requires PendingOk(pending)
    ensures e in PendingSet(pending) <==> e.moduleId in pending && e in pending[e.moduleId]
  {
  }

  lemma ConcatCount(a: seq<Event>, b: seq<Event>, x: Event)
    ensures multiset(a + b)[x] == multiset(a)[x] + multiset(b)[x]
  {
  }

  lemma WindowSnoc(pending: map<string, seq<Event>>, order: seq<string>, now: int)
    requires order != [] && forall m :: m in order ==> m in pending
    ensures
      var n := |order| - 1;
      WindowEvents(Digests(pending, order, now)) ==
        WindowEvents(Digests(pending, order[..n], now)) + DigestEvents(DigestOf(order[n], pending[order[n]], now))
  {
    assert Digests(pending, order, now)[..|order| - 1] == Digests(pending, order[..|order| - 1], now);
  }

  lemma {:induction false} WindowCount(pending: map<string, seq<Event>>, order: seq<string>, now: int, e: Event)
    requires PendingOk(pending) && forall m :: m in order ==> m in pending
    requires forall i, j :: 0 <= i < j < |order| ==> order[i] != order[j]
    ensures multiset(WindowEvents(Digests(pending, order, now)))[e] ==
      if e.moduleId in order && e in pending[e.moduleId] then 1 else 0
  {
    if order == [] {
    } else {
      var n := |order| - 1;
      var m := order[n];
      WindowCount(pending, order[..n], now, e);
      WindowSnoc(pending, order, now);
      ConcatCount(WindowEvents(Digests(pending, order[..n], now)), DigestEvents(DigestOf(m, pending[m], now)), e);
      DigestCount(m, pending[m], now, e);
      OnceEach(pending[m], e);
      InOrder(order, e.moduleId);
    }
  }

  lemma InOrder(order: seq<string>, m: string)
    requires order != [] && forall i, j :: 0 <= i < j < |order| ==> order[i] != order[j]
    ensures m in order <==> m in order[..|order| - 1] || m == order[|order| - 1]
    ensures order[|order| - 1] !in order[..|order| - 1]
  {
  }

  lemma CountTwo(evs: seq<Event>, i: nat, j: nat)
    requires i < j < |evs| && evs[i] == evs[j]
    ensures multiset(evs)[evs[i]] >= 2
  {
    assert evs == evs[..j] + ([evs[j]] + evs[j + 1..]);
    assert evs[i] in evs[..j];
  }

  lemma FlushCounts(pending: map<string, seq<Event>>, order: seq<string>, now: int, e: Event)
    requires PendingOk(pending) && Enumerates(order, pending)
    ensures multiset(WindowEvents(Digests(pending, order, now)))[e] == if e in PendingSet(pending) then 1 else 0
  {
    WindowCount(pending, order, now, e);
    InPending(pending, e);
  }

  /** A flush announces exactly the pending events, each once. */
  lemma FlushEvents(pending: map<string, seq<Event>>, order: seq<string>, now: int)
    requires PendingOk(pending) && Enumerates(order, pending)
    ensures multiset(WindowEvents(Digests(pending, order, now))) == multiset(PendingSet(pending))
  {
    var evs := WindowEvents(Digests(pending, order, now));
    forall e
      ensures multiset(evs)[e] == multiset(PendingSet(pending))[e]
    {
      FlushCounts(pending, order, now, e);
    }
  }

  lemma FlushWindow(pending: map<string, seq<Event>>, order: seq<string>, now: int)
    requires PendingOk(pending) && Enumerates(order, pending)
    ensures WindowOk(Digests(pending, order, now))
  {
    var ds := Digests(pending, order, now);
    var evs := WindowEvents(ds);
    forall i, j | 0 <= i < j < |evs|
      ensures EventKey(evs[i]) != EventKey(evs[j])
    {
      FlushCounts(pending, order, now, evs[i]);
      FlushCounts(pending, order, now, evs[j]);
      if evs[i] == evs[j] {
        CountTwo(evs, i, j);
      }
    }
    forall i | 0 <= i < |ds|
      ensures !Empty(ds[i]) && Descending(ds[i].newlyOpen)
    {
      var events := pending[order[i]];
      DigestCount(order[i], events, now, events[0]);
      DigestOrder(FindingsOf(events, KindOpened));
      assert multiset(events)[events[0]] > 0;
      EmptyAnnouncesNothing(ds[i]);
    }
  }

  lemma EmptyAnnouncesNothing(d: Digest)
    ensures Empty(d) <==> DigestEvents(d) == []
  {
    assert |DigestEvents(d)| == |d.newlyOpen| + |d.resolved|;
  }

  lemma EmittedSnoc(ws: seq<seq<Digest>>, ds: seq<Digest>, channels: nat)
    ensures multiset(EmittedEvents(ws + [ds])) == multiset(EmittedEvents(ws)) + multiset(WindowEvents(ds))
    ensures EmittedSends(ws + [ds], channels) == EmittedSends(ws, channels) + SendsOf(ds, channels)
  {
    assert (ws + [ds])[..|ws|] == ws;
  }

  lemma FlushAccounts(cfg: Config, st: State, now: int, order: seq<string>)
    requires Accounted(cfg, st) && Enumerates(order, st.pending) && st.pending != map[]
    ensures Accounted(cfg, Flushed(cfg, st, now, order))
  {
    var ds := Digests(st.pending, order, now);
    FlushEvents(st.pending, order, now);
    FlushWindow(st.pending, order, now);
    WindowAccounts(cfg, st.(timer := NoTimer), ds);
  }

  lemma WindowAccounts(cfg: Config, st: State, ds: seq<Digest>)
    requires Accounted(cfg, st) && WindowOk(ds) && multiset(WindowEvents(ds)) == multiset(PendingSet(st.pending))
    ensures Accounted(cfg, NewWindow(cfg, st, ds))
  {
    NothingPending();
    EmittedSnoc(st.emitted, ds, cfg.channels);
    Rebalance(st.launched, st.inflight, st.finished, SendsOf(ds, cfg.channels));
    assert multiset(EmittedEvents(st.emitted + [ds])) == multiset(st.accepted);
  }

  lemma Rebalance(all: multiset<Send>, a: multiset<Send>, b: multiset<Send>, more: multiset<Send>)
    requires all == a + b
    ensures all + more == (a + more) + b
  {
  }

  lemma FlushKeeps(cfg: Config, st: State, now: int, order: seq<string>)
    requires cfg.maxBatch >= 1 && Accounted(cfg, st) && Enumerates(order, st.pending)
    requires st.seen == PendingKeys(st.pending) && !st.closed
    ensures Inv(cfg, Flushed(cfg, st, now, order)) && Flushed(cfg, st, now, order).pending == map[]
  {
    NothingPending();
    if st.pending != map[] {
      FlushAccounts(cfg, st, now, order);
    }
  }

  lemma NothingPending()
    ensures PendingSet(map[]) == {} && PendingKeys(map[]) == {} && PendingOk(map[])
  {
  }

  lemma SetPlus<T>(s: set<T>, x: T)
    requires x !in s
    ensures multiset(s + {x}) == multiset(s) + multiset{x}
  {
  }

  lemma AddedKeeps(cfg: Config, st: State, e: Event)
    requires Inv(cfg, st) && Accepts(cfg, st, e)
    ensures Accounted(cfg, Added(st, e)) && Added(st, e).seen == PendingKeys(Added(st, e).pending)
    ensures PendingSet(Added(st, e).pending) == PendingSet(st.pending) + {e} && e !in PendingSet(st.pending)
  {
    PendingAdds(st.pending, e);
    SetPlus(PendingSet(st.pending), e);
    AcceptedSnoc(st.accepted, e);
    KeysAdd(st.pending, Added(st, e).pending, e);
  }

  lemma AcceptedSnoc(evs: seq<Event>, e: Event)
    ensures multiset(evs + [e]) == multiset(evs) + multiset{e}
  {
  }

  lemma KeysAdd(pending: map<string, seq<Event>>, more: map<string, seq<Event>>, e: Event)
    requires PendingSet(more) == PendingSet(pending) + {e}
    ensures PendingKeys(more) == PendingKeys(pending) + {EventKey(e)}
  {
  }

  lemma PendingAdds(pending: map<string, seq<Event>>, e: Event)
    requires PendingOk(pending) && EventKey(e) !in PendingKeys(pending)
    ensures
      var more := pending[e.moduleId := Listed(pending, e.moduleId) + [e]];
      PendingOk(more) && PendingSet(more) == PendingSet(pending) + {e} && e !in PendingSet(pending)
  {
    var was := Listed(pending, e.moduleId);
    var more := pending[e.moduleId := was + [e]];
    forall i | 0 <= i < |was|
      ensures was[i] in PendingSet(pending) && EventKey(was[i]) in PendingKeys(pending)
    {
    }
    forall x
      ensures x in PendingSet(more) <==> x in PendingSet(pending) || x == e
    {
      if x in PendingSet(pending) {
        InPending(pending, x);
        var i :| 0 <= i < |pending[x.moduleId]| && pending[x.moduleId][i] == x;
        assert x.moduleId in more && more[x.moduleId][i] == x;
      }
      if x == e {
        assert more[e.moduleId][|was|] == e;
      }
    }
    assert e in PendingSet(pending) ==> EventKey(e) in PendingKeys(pending);
    assert DistinctKeys(was + [e]);
  }

  lemma MoveOne(a: multiset<Send>, b: multiset<Send>, x: Send)
    requires x in a
    ensures (a - multiset{x}) + (b + multiset{x}) == a + b && |a - multiset{x}| == |a| - 1
  {
  }

  lemma EnqueueKeeps(cfg: Config, st: State, e: Event, now: int, order: seq<string>)
    requires cfg.maxBatch >= 1 && Inv(cfg, st) && Accepts(cfg, st, e) && Enumerates(order, Added(st, e).pending)
    ensures Inv(cfg, Next(cfg, st, DoEnqueue(e, now, order)))
  {
    AddedKeeps(cfg, st, e);
    if |PendingSet(Added(st, e).pending)| >= cfg.maxBatch {
      FlushKeeps(cfg, Added(st, e), now, order);
    }
  }

  lemma NextKeeps(cfg: Config, st: State, op: Op)
    requires cfg.maxBatch >= 1 && Inv(cfg, st) && Enabled(cfg, st, op)
    ensures Inv(cfg, Next(cfg, st, op))
  {
    match op
    case DoEnqueue(e, now, order) =>
      if Accepts(cfg, st, e) {
        EnqueueKeeps(cfg, st, e, now, order);
      }
    case TimedFlush(now, order) =>
      ClosedFlush(cfg, st.(waiting := st.waiting - 1), now, order);
      if !st.closed {
        FlushKeeps(cfg, st.(waiting := st.waiting - 1), now, order);
      }
    case DirectFlush(now, order) =>
      ClosedFlush(cfg, st, now, order);
      if !st.closed {
        FlushKeeps(cfg, st, now, order);
      }
    case DoClose(now, order) =>
      ClosedFlush(cfg, st, now, order);
      if !st.closed {
        FlushKeeps(cfg, st, now, order);
      }
    case SendReturns(send) =>
      MoveOne(st.inflight, st.finished, send);
    case TimerFires =>
    case CloseReturns =>
  }

  lemma CloseKeeps(cfg: Config, st: State, now: int, order: seq<string>)
    requires cfg.maxBatch >= 1 && Inv(cfg, st) && Enumerates(order, st.pending)
    ensures
      var op, closed := DoClose(now, order), Flushed(cfg, st, now, order).(closed := true);
      Enabled(cfg, st, op) && Next(cfg, st, op) == closed && Inv(cfg, closed)
  {
    NextKeeps(cfg, st, DoClose(now, order));
  }

  /** With nothing pending, a flush only drops the timer. */
  lemma ClosedFlush(cfg: Config, st: State, now: int, order: seq<string>)
    requires forall m :: m in order ==> m in st.pending
    ensures st.pending == map[] ==> Flushed(cfg, st, now, order) == st.(timer := NoTimer)
  {
  }

  // ----- every interleaving -------------------------------------------------------

  /** Operations that cannot happen at their point of the interleaving are skipped. */
  ghost function StepIfEnabled(cfg: Config, st: State, op: Op): State {
    if Enabled(cfg, st, op) then Next(cfg, st, op) else st
  }

  /** The state after an interleaving of lock regions, timer expiries and send completions. */
  ghost function After(cfg: Config, ops: seq<Op>): State {
    if ops == [] then INITIAL else StepIfEnabled(cfg, After(cfg, ops[..|ops| - 1]), ops[|ops| - 1])
  }

  lemma {:induction false} AlwaysInv(cfg: Config, ops: seq<Op>)
    requires cfg.maxBatch >= 1
    ensures Inv(cfg, After(cfg, ops))
  {
    if ops == [] {
      NothingPending();
    } else {
      var st, op := After(cfg, ops[..|ops| - 1]), ops[|ops| - 1];
      AlwaysInv(cfg, ops[..|ops| - 1]);
      if Enabled(cfg, st, op) {
        NextKeeps(cfg, st, op);
      }
    }
  }

  /**
   * Exactly once: under every interleaving, the accepted events are those in emitted digests plus
   * those pending; no event key occurs twice in one flush; and every emitted digest was handed
   * to exactly one sender per channel, which is in flight or finished (delivered or given up).
   */
  lemma ExactlyOnce(cfg: Config, ops: seq<Op>)
    requires cfg.maxBatch >= 1
    ensures
      var st := After(cfg, ops);
      && multiset(st.accepted) == multiset(EmittedEvents(st.emitted)) + multiset(PendingSet(st.pending))
      && WindowsOk(st.emitted)
      && st.inflight + st.finished == EmittedSends(st.emitted, cfg.channels)
      && (st.closed ==> multiset(st.accepted) == multiset(EmittedEvents(st.emitted)))
  {
    AlwaysInv(cfg, ops);
    NothingPending();
  }

  /** A severity as the floor sees it: the core's rank, with anything unknown as low as info. */
  function Urgency(s: Severity): int { if s.Valid() then s.Rank() else 0 }

  /** An opened event passes a floor exactly from its rank upwards; no floor stops nothing. */
  lemma FloorIsRank(cfg: Config, s: Severity)
    ensures PassesSeverity(cfg, s) <==> cfg.minSeverity.None? || Urgency(s) >= Urgency(cfg.minSeverity.value)
    ensures cfg.minSeverity == Some(Critical) && s == Critical ==> PassesSeverity(cfg, s)
    ensures cfg.minSeverity == Some(Critical) && s == Info ==> !PassesSeverity(cfg, s)
  {
  }

  /** No opened event below the severity floor is ever accepted. */
  lemma {:induction false} FloorHolds(cfg: Config, ops: seq<Op>)
    ensures cfg.minSeverity.Some? ==>
      forall e :: e in After(cfg, ops).accepted && e.kind == KindOpened ==>
        Urgency(e.finding.severity) >= Urgency(cfg.minSeverity.value)
  {
    if ops == [] {
    } else {
      FloorHolds(cfg, ops[..|ops| - 1]);
      if ops[|ops| - 1].DoEnqueue? {
        FloorIsRank(cfg, ops[|ops| - 1].event.finding.severity);
      }
    }
  }

  /** Resolved events and opened ones from the floor upwards are accepted, if open and not pending already. */
  lemma UrgentIsAccepted(cfg: Config, st: State, op: Op)
    requires op.DoEnqueue? && Enabled(cfg, st, op) && !st.closed && EventKey(op.event) !in st.seen
    requires op.event.kind == KindResolved || cfg.minSeverity.None? ||
      Urgency(op.event.finding.severity) >= Urgency(cfg.minSeverity.value)
    ensures Next(cfg, st, op).accepted == st.accepted + [op.event]
  {
    FloorIsRank(cfg, op.event.finding.severity);
  }

  /** A digest goes to each channel once. */
  lemma {:induction false} OnePerChannel(d: Digest, channels: nat, s: Send)
    ensures SendsTo(d, channels)[s] == if s.digest == d && s.channel < channels then 1 else 0
  {
    if channels == 0 {
    } else {
      OnePerChannel(d, channels - 1, s);
    }
  }

  lemma SendsSnoc(ds: seq<Digest>, last: Digest, channels: nat, s: Send)
    ensures SendsOf(ds + [last], channels)[s] ==
      SendsOf(ds, channels)[s] + if Empty(last) then 0 else SendsTo(last, channels)[s]
  {
    assert (ds + [last])[..|ds|] == ds;
  }

  function TimesIn(ds: seq<Digest>, channels: nat, s: Send): nat {
    if s.channel < channels && !Empty(s.digest) then multiset(ds)[s.digest] else 0
  }

  lemma OneMoreDigest(ds: seq<Digest>, last: Digest, channels: nat, s: Send)
    ensures TimesIn(ds + [last], channels, s) ==
      TimesIn(ds, channels, s) + if Empty(last) then 0 else SendsTo(last, channels)[s]
  {
    OnePerChannel(last, channels, s);
    CountSnoc(ds, last, s.digest);
  }

  /** Each non-empty digest of a window is sent once to every channel, and nothing else is sent. */
  lemma {:induction false} EverySendOnce(ds: seq<Digest>, channels: nat, s: Send)
    ensures SendsOf(ds, channels)[s] == TimesIn(ds, channels, s)
  {
    if ds == [] {
    } else {
      var rest, last := ds[..|ds| - 1], ds[|ds| - 1];
      EverySendOnce(rest, channels, s);
      SendsSnoc(rest, last, channels, s);
      OneMoreDigest(rest, last, channels, s);
      assert ds == rest + [last];
    }
  }

  lemma CountSnoc(ds: seq<Digest>, last: Digest, d: Digest)
    ensures multiset(ds + [last])[d] == multiset(ds)[d] + if last == d then 1 else 0
  {
  }

  function OfKind(kind: EventKind): Event -> bool { (e: Event) => e.kind == kind }

  lemma {:induction false} FindingsAreFiltered(evs: seq<Event>, kind: EventKind)
    ensures
      var es := Filter(evs, OfKind(kind));
      |FindingsOf(evs, kind)| == |es| && forall i :: 0 <= i < |es| ==> FindingsOf(evs, kind)[i] == es[i].finding
  {
    if evs == [] {
    } else {
      FindingsAreFiltered(evs[..|evs| - 1], kind);
    }
  }

  /** A digest's findings are exactly those of the pending events of its kind, in the order of acceptance. */
  lemma FindingsInOrder(evs: seq<Event>, kind: EventKind) returns (at: seq<nat>)
    ensures Chosen(evs, OfKind(kind), at) && |at| == |FindingsOf(evs, kind)|
    ensures forall i :: 0 <= i < |at| ==> FindingsOf(evs, kind)[i] == evs[at[i]].finding
  {
    FindingsAreFiltered(evs, kind);
    at := FilterPicks(evs, OfKind(kind), Filter(evs, OfKind(kind)));
  }

  /** An accepted event waits with the timer set while the batch has room, and else the whole batch goes at once. */
  lemma BatchOrWait(cfg: Config, st: State, op: Op)
    requires cfg.maxBatch >= 1 && Inv(cfg, st) && op.DoEnqueue? && Enabled(cfg, st, op) && Accepts(cfg, st, op.event)
    ensures
      var next := Next(cfg, st, op);
      if |PendingSet(st.pending)| + 1 < cfg.maxBatch
      then next.emitted == st.emitted && PendingSet(next.pending) == PendingSet(st.pending) + {op.event} &&
        next.timer != NoTimer
      else PendingSet(next.pending) == {} && |next.emitted| == |st.emitted| + 1 && next.timer == NoTimer
  {
    AddedKeeps(cfg, st, op.event);
    assert op.event in PendingSet(Added(st, op.event).pending);
    NothingPending();
  }

  /** Every digest of a flush carries the time of the flush. */
  lemma DigestsAreStamped(pending: map<string, seq<Event>>, order: seq<string>, now: int, d: Digest)
    requires Enumerates(order, pending) && d in Digests(pending, order, now)
    ensures d.at == now && d.moduleId in pending
  {
  }

  // ----- nothing gets stuck ---------------------------------------------------------

  lemma AfterSnoc(cfg: Config, ops: seq<Op>, op: Op)
    ensures After(cfg, ops + [op]) == StepIfEnabled(cfg, After(cfg, ops), op)
  {
    assert (ops + [op])[..|ops|] == ops;
  }

  lemma FlushTakesAll(cfg: Config, ops: seq<Op>, now: int, order: seq<string>)
    requires cfg.maxBatch >= 1 && Enabled(cfg, After(cfg, ops), TimedFlush(now, order))
    ensures
      var st := After(cfg, ops + [TimedFlush(now, order)]);
      st.pending == map[] && st.accepted == After(cfg, ops).accepted &&
      multiset(st.accepted) == multiset(EmittedEvents(st.emitted))
  {
    AfterSnoc(cfg, ops, TimedFlush(now, order));
    ExactlyOnce(cfg, ops + [TimedFlush(now, order)]);
    NothingPending();
  }

  /** Pending events always get out by themselves: the window timer fires and its flush takes the lock. */
  lemma PendingGetsOut(cfg: Config, ops: seq<Op>, now: int, order: seq<string>)
    requires cfg.maxBatch >= 1 && After(cfg, ops).pending != map[] && Enumerates(order, After(cfg, ops).pending)
    ensures
      var fire := if After(cfg, ops).timer == Armed then [TimerFires] else [];
      var st := After(cfg, ops + fire + [TimedFlush(now, order)]);
      st.pending == map[] && st.accepted == After(cfg, ops).accepted &&
      multiset(st.accepted) == multiset(EmittedEvents(st.emitted))
  {
    var st := After(cfg, ops);
    var fired := ops + if st.timer == Armed then [TimerFires] else [];
    AlwaysInv(cfg, ops);
    if st.timer == Armed {
      AfterSnoc(cfg, ops, TimerFires);
    } else {
      assert fired == ops;
    }
    FlushTakesAll(cfg, fired, now, order);
  }

  lemma OneSendReturns(cfg: Config, ops: seq<Op>, next: seq<Op>, s: Send)
    requires After(cfg, ops).closed && s in After(cfg, ops).inflight && next == ops + [SendReturns(s)]
    ensures After(cfg, next).closed && After(cfg, next).inflight == After(cfg, ops).inflight - multiset{s}
  {
    AfterSnoc(cfg, ops, SendReturns(s));
  }

  /** Once closed, the sends in flight can finish one by one, and Close then returns. */
  lemma {:induction false} CloseCanReturn(cfg: Config, ops: seq<Op>, inflight: multiset<Send>)
    returns (rest: seq<Op>)
    requires After(cfg, ops).closed && inflight == After(cfg, ops).inflight
    ensures Enabled(cfg, After(cfg, ops + rest), CloseReturns)
    decreases |inflight|
  {
    if inflight == multiset{} {
      rest := [];
      assert ops + rest == ops;
    } else {
      var s :| s in inflight;
      var next := ops + [SendReturns(s)];
      OneSendReturns(cfg, ops, next, s);
      var more := CloseCanReturn(cfg, next, inflight - multiset{s});
      rest := [SendReturns(s)] + more;
      assert ops + rest == next + more;
    }
  }

  /** Once closed, nothing is pending, accepted, emitted or launched again, and in-flight sends only drain. */
  lemma ClosedIsFinal(cfg: Config, st: State, op: Op)
    requires cfg.maxBatch >= 1 && Inv(cfg, st) && st.closed
    ensures
      var next := StepIfEnabled(cfg, st, op);
      next.closed && next.pending == map[] && next.accepted == st.accepted && next.emitted == st.emitted &&
        next.launched == st.launched && next.inflight <= st.inflight
  {
  }

  predicate Drained(st: State) { st.closed && st.inflight == multiset{} }

  /** From the moment Close returns every send of every accepted event has finished, delivered or given up. */
  lemma CloseWaits(cfg: Config, ops: seq<Op>, later: seq<Op>)
    requires cfg.maxBatch >= 1 && Enabled(cfg, After(cfg, ops), CloseReturns)
    ensures
      var st := After(cfg, ops + later);
      && Drained(st)
      && st.finished == EmittedSends(st.emitted, cfg.channels)
      && multiset(st.accepted) == multiset(EmittedEvents(st.emitted))
  {
    StaysDrained(cfg, ops, later);
    ExactlyOnce(cfg, ops + later);
    assert multiset{} + After(cfg, ops + later).finished == After(cfg, ops + later).finished;
  }

  lemma {:induction false} StaysDrained(cfg: Config, ops: seq<Op>, later: seq<Op>)
    requires cfg.maxBatch >= 1 && Drained(After(cfg, ops))
    ensures Drained(After(cfg, ops + later))
  {
    if later == [] {
      assert ops + later == ops;
    } else {
      var n := |later| - 1;
      StaysDrained(cfg, ops, later[..n]);
      AlwaysInv(cfg, ops + later[..n]);
      assert (ops + later)[..|ops + later| - 1] == ops + later[..n];
      ClosedIsFinal(cfg, After(cfg, ops + later[..n]), later[n]);
    }
  }

  /** With separator-free module names, exactly the repeats of a pending (kind, module, fingerprint) are dropped. */
  lemma DedupIsExact(cfg: Config, st: State, e: Event)
    requires Inv(cfg, st) && BarFree(e.moduleId) && forall m :: m in st.pending ==> BarFree(m)
    ensures EventKey(e) in st.seen <==>
      exists x :: x in PendingSet(st.pending) && x.kind == e.kind && x.moduleId == e.moduleId &&
        x.finding.fingerprint == e.finding.fingerprint
  {
    forall x | x in PendingSet(st.pending)
      ensures EventKey(x) == EventKey(e) <==>
        x.kind == e.kind && x.moduleId == e.moduleId && x.finding.fingerprint == e.finding.fingerprint
    {
      InPending(st.pending, x);
      KeyIsExact(x, e);
    }
  }

  lemma KeyIsExact(x: Event, e: Event)
    requires BarFree(x.moduleId) && BarFree(e.moduleId)
    ensures EventKey(x) == EventKey(e) <==>
      x.kind == e.kind && x.moduleId == e.moduleId && x.finding.fingerprint == e.finding.fingerprint
  {
    if EventKey(x) == EventKey(e) {
      var a, b := x.moduleId + ['|'] + x.finding.fingerprint, e.moduleId + ['|'] + e.finding.fingerprint;
      assert EventKey(x) == KindText(x.kind) + ['|'] + a && EventKey(e) == KindText(e.kind) + ['|'] + b;
      CutInjective('|', KindText(x.kind), a, KindText(e.kind), b);
      CutInjective('|', x.moduleId, x.finding.fingerprint, e.moduleId, e.finding.fingerprint);
      assert "opened"[0] != "resolved"[0];
    }
  }
}
