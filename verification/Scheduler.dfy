/** Worker slots, the wait group and shutdown of the scheduler (sched/scheduler.go) as interleaved steps. */
module Scheduler {

  /** Who launched a scan goroutine; ScanNow's are not in the scheduler's wait group. */
  datatype Origin = LoopScan(moduleId: string) | AddScan | NowScan

  /**
   * `loops` are the live module loops; `waiting` scans have not passed the select on the semaphore;
   * `running` ones hold a slot; `adds` counts AddTarget calls between their context check and
   * wg.Add; `sem` and `wg` are the counters the code keeps.
   */
  datatype State = State(
    workers: nat,
    modules: set<string>,
    started: bool,
    cancelled: bool,
    loops: set<string>,
    waiting: map<nat, Origin>,
    running: map<nat, Origin>,
    adds: nat,
    sem: nat,
    wg: nat)

  datatype Op =
    | Register(moduleId: string)
    | Start
    | Cancel
    | LoopLaunches(moduleId: string, id: nat)
    | LoopReturns(moduleId: string)
    | AddChecks
    | AddLaunches(id: nat)
    | NowLaunches(id: nat)
    | Acquires(id: nat)
    | GivesUp(id: nat)
    | Finishes(id: nat)

  function Init(workers: nat): State {
    State(workers, {}, false, false, {}, map[], map[], 0, 0, 0)
  }

  predicate Unused(st: State, id: nat) { id !in st.waiting && id !in st.running }

  /** Cancel is Stop's cancel() or the caller's context ending; Stop before Start has nothing to cancel. */
  predicate Enabled(st: State, op: Op) {
    match op
    case Register(m) => m != "" && m !in st.modules
    case Start => !st.started
    case Cancel => st.started
    case LoopLaunches(m, id) => m in st.loops && Unused(st, id)
    case LoopReturns(m) => m in st.loops && st.cancelled
    case AddChecks => st.started && !st.cancelled
    case AddLaunches(id) => st.adds > 0 && Unused(st, id)
    case NowLaunches(id) => Unused(st, id)
    case Acquires(id) => id in st.waiting && st.sem < st.workers
    case GivesUp(id) => id in st.waiting && (st.cancelled || st.waiting[id] == NowScan)
    case Finishes(id) => id in st.running
  }

  function Tracked(o: Origin): nat { if o == NowScan then 0 else 1 }

  /** wg.Done is deferred by every goroutine that was counted. */
  function Less(wg: nat, n: nat): nat { if wg >= n then wg - n else 0 }

  function Next(st: State, op: Op): State {
    if !Enabled(st, op) then st
    else match op
    case Register(m) => st.(modules := st.modules + {m})
    case Start => st.(started := true, loops := st.modules, wg := st.wg + |st.modules|)
    case Cancel => st.(cancelled := true)
    case LoopLaunches(m, id) => st.(waiting := st.waiting[id := LoopScan(m)], wg := st.wg + 1)
    case LoopReturns(m) => st.(loops := st.loops - {m}, wg := Less(st.wg, 1))
    case AddChecks => st.(adds := st.adds + 1)
    case AddLaunches(id) => st.(adds := st.adds - 1, waiting := st.waiting[id := AddScan], wg := st.wg + 1)
    case NowLaunches(id) => st.(waiting := st.waiting[id := NowScan])
    case Acquires(id) => st.(waiting := st.waiting - {id}, running := st.running[id := st.waiting[id]],
      sem := st.sem + 1)
    case GivesUp(id) => st.(waiting := st.waiting - {id}, wg := Less(st.wg, Tracked(st.waiting[id])))
    case Finishes(id) => st.(running := st.running - {id}, sem := Less(st.sem, 1),
      wg := Less(st.wg, Tracked(st.running[id])))
  }

  function After(st: State, ops: seq<Op>): State {
    if ops == [] then st else Next(After(st, ops[..|ops| - 1]), ops[|ops| - 1])
  }

  /** The scans that count in the wait group. */
  function Counted(scans: map<nat, Origin>): set<nat> { set id | id in scans && scans[id] != NowScan }

  ghost predicate Inv(st: State) {
    && st.waiting.Keys !! st.running.Keys
    && st.sem == |st.running| <= st.workers
    && st.wg == |st.loops| + |Counted(st.waiting)| + |Counted(st.running)|
    && (!st.started ==> st.loops == {} && !st.cancelled && NoLoopScans(st))
  }

  ghost predicate NoLoopScans(st: State) {
    && (forall id :: id in st.waiting ==> !st.waiting[id].LoopScan?)
    && (forall id :: id in st.running ==> !st.running[id].LoopScan?)
  }

  lemma CountedAdd(scans: map<nat, Origin>, id: nat, o: Origin)
    requires id !in scans
    ensures |Counted(scans[id := o])| == |Counted(scans)| + Tracked(o)
  {
    if o == NowScan {
      assert Counted(scans[id := o]) == Counted(scans);
    } else {
      assert Counted(scans[id := o]) == Counted(scans) + {id};
    }
  }

  lemma CountedRemove(scans: map<nat, Origin>, id: nat)
    requires id in scans
    ensures |Counted(scans - {id})| == |Counted(scans)| - Tracked(scans[id])
  {
    if scans[id] == NowScan {
      assert Counted(scans - {id}) == Counted(scans);
    } else {
      assert Counted(scans) == Counted(scans - {id}) + {id};
    }
  }

  lemma SizeRemove(scans: map<nat, Origin>, id: nat)
    requires id in scans
    ensures |scans - {id}| == |scans| - 1
  {
    assert scans.Keys == (scans - {id}).Keys + {id};
  }

  lemma AcquireKeeps(st: State, id: nat)
    requires Inv(st) && Enabled(st, Acquires(id))
    ensures Inv(Next(st, Acquires(id)))
  {
    CountedRemove(st.waiting, id);
    CountedAdd(st.running, id, st.waiting[id]);
  }

  lemma FinishKeeps(st: State, id: nat)
    requires Inv(st) && Enabled(st, Finishes(id))
    ensures Inv(Next(st, Finishes(id)))
  {
    CountedRemove(st.running, id);
    SizeRemove(st.running, id);
  }

  lemma GiveUpKeeps(st: State, id: nat)
    requires Inv(st) && Enabled(st, GivesUp(id))
    ensures Inv(Next(st, GivesUp(id)))
  {
    CountedRemove(st.waiting, id);
  }

  lemma LaunchKeeps(st: State, op: Op)
    requires Inv(st) && Enabled(st, op) && (op.LoopLaunches? || op.AddLaunches? || op.NowLaunches?)
    ensures Inv(Next(st, op))
  {
    var o := if op.LoopLaunches? then LoopScan(op.moduleId) else if op.AddLaunches? then AddScan else NowScan;
    CountedAdd(st.waiting, op.id, o);
  }

  lemma NextKeeps(st: State, op: Op)
    requires Inv(st)
    ensures Inv(Next(st, op))
  {
    if Enabled(st, op) {
      match op
      case LoopLaunches(m, id) => LaunchKeeps(st, op);
      case AddLaunches(id) => LaunchKeeps(st, op);
      case NowLaunches(id) => LaunchKeeps(st, op);
      case Acquires(id) => AcquireKeeps(st, id);
      case GivesUp(id) => GiveUpKeeps(st, id);
      case Finishes(id) => FinishKeeps(st, id);
      case Register(_) =>
      case Start =>
      case Cancel =>
      case LoopReturns(m) =>
      case AddChecks =>
    }
  }

  lemma {:induction false} AlwaysInv(st: State, ops: seq<Op>)
    requires Inv(st)
    ensures Inv(After(st, ops))
  {
    if ops == [] {
    } else {
      AlwaysInv(st, ops[..|ops| - 1]);
      NextKeeps(After(st, ops[..|ops| - 1]), ops[|ops| - 1]);
    }
  }

  /**
   * In every interleaving the occupied slots are exactly the scans between acquire and release, of
   * any origin, and never more than the workers; a scan that gave up holds none.
   */
  lemma WorkerBound(workers: nat, ops: seq<Op>)
    ensures
      var st := After(Init(workers), ops);
      st.sem == |st.running| <= workers && st.waiting.Keys !! st.running.Keys
  {
    assert Inv(Init(workers));
    AlwaysInv(Init(workers), ops);
    SameWorkers(Init(workers), ops);
  }

  lemma NextWorkers(st: State, op: Op)
    ensures Next(st, op).workers == st.workers
  {
  }

  lemma {:induction false} SameWorkers(st: State, ops: seq<Op>)
    ensures After(st, ops).workers == st.workers
  {
    if ops == [] {
    } else {
      SameWorkers(st, ops[..|ops| - 1]);
      NextWorkers(After(st, ops[..|ops| - 1]), ops[|ops| - 1]);
    }
  }

  // ----- shutdown ---------------------------------------------------------------

  /** No module loop and no scan launched by one is alive. */
  ghost predicate Quiet(st: State) { st.loops == {} && NoLoopScans(st) }

  lemma {:induction false} QuietForever(st: State, ops: seq<Op>)
    requires st.started && Quiet(st)
    ensures After(st, ops).started && Quiet(After(st, ops))
  {
    if ops == [] {
    } else {
      QuietForever(st, ops[..|ops| - 1]);
    }
  }

  lemma WaitGroupZero(st: State)
    requires Inv(st) && st.wg == 0
    ensures Quiet(st)
  {
    assert Counted(st.waiting) == {} && Counted(st.running) == {};
    forall id | id in st.waiting
      ensures !st.waiting[id].LoopScan?
    {
      assert id !in Counted(st.waiting);
    }
    forall id | id in st.running
      ensures !st.running[id].LoopScan?
    {
      assert id !in Counted(st.running);
    }
  }

  /**
   * Stop returns once the wait group is zero. From then on no module loop and no loop-launched scan
   * is alive or ever starts, exactly when the scheduler had been started: a Stop before Start
   * cancels nothing, and a later Start still brings up the loops of what is registered by then.
   */
  lemma StopIsFinal(workers: nat, ops: seq<Op>)
    requires After(Init(workers), ops).wg == 0
    ensures
      var st := After(Init(workers), ops);
      (forall later :: Quiet(After(st, later))) <==> st.started
  {
    var st := After(Init(workers), ops);
    assert Inv(Init(workers));
    AlwaysInv(Init(workers), ops);
    WaitGroupZero(st);
    if st.started {
      forall later
        ensures Quiet(After(st, later))
      {
        QuietForever(st, later);
      }
    } else {
      LateStart(st);
    }
  }

  lemma LateStart(st: State)
    requires !st.started
    ensures exists later :: !Quiet(After(st, later))
  {
    var later := [Register("asm"), Start];
    assert later[..1] == [Register("asm")] && [Register("asm")][..0] == [];
    assert After(st, [Register("asm")]) == Next(After(st, []), Register("asm"));
    assert After(st, later) == Next(After(st, [Register("asm")]), Start);
    assert "asm" in After(st, later).loops;
    assert !Quiet(After(st, later));
  }

  lemma {:induction false} AfterCons(st: State, op: Op, rest: seq<Op>)
    ensures After(st, [op] + rest) == After(Next(st, op), rest)
  {
    var ops := [op] + rest;
    if rest == [] {
      assert ops == [op] && ops[..0] == [];
    } else {
      AfterCons(st, op, rest[..|rest| - 1]);
      assert ops[..|ops| - 1] == [op] + rest[..|rest| - 1];
    }
  }

  /** One more goroutine of a cancelled scheduler leaves: a loop returns, a scan gives up or finishes. */
  lemma OneLeaves(st: State) returns (op: Op)
    requires Inv(st) && st.cancelled && st.wg > 0
    ensures op.LoopReturns? || op.GivesUp? || op.Finishes?
    ensures Enabled(st, op)
  {
    if st.loops != {} {
      var m :| m in st.loops;
      op := LoopReturns(m);
    } else if Counted(st.waiting) != {} {
      var id :| id in Counted(st.waiting);
      op := GivesUp(id);
    } else {
      assert |Counted(st.waiting)| == 0;
      var id :| id in Counted(st.running);
      op := Finishes(id);
    }
  }

  lemma LeavingShrinks(st: State, op: Op)
    requires Inv(st) && st.cancelled && Enabled(st, op) && (op.LoopReturns? || op.GivesUp? || op.Finishes?)
    ensures Inv(Next(st, op)) && Next(st, op).cancelled
    ensures |Next(st, op).loops| + |Next(st, op).waiting| + |Next(st, op).running| <
      |st.loops| + |st.waiting| + |st.running|
  {
    NextKeeps(st, op);
    if op.GivesUp? {
      SizeRemove(st.waiting, op.id);
    }
    if op.Finishes? {
      SizeRemove(st.running, op.id);
    }
  }

  lemma {:induction false} Drains(st: State) returns (rest: seq<Op>)
    requires Inv(st) && st.cancelled
    ensures After(st, rest).wg == 0
    decreases |st.loops| + |st.waiting| + |st.running|
  {
    if st.wg == 0 {
      rest := [];
    } else {
      var op := OneLeaves(st);
      LeavingShrinks(st, op);
      var more := Drains(Next(st, op));
      rest := [op] + more;
      AfterCons(st, op, more);
    }
  }

  /** Once a started scheduler is cancelled, its loops and scans can always all leave, so Stop can return. */
  lemma StopCanReturn(workers: nat, ops: seq<Op>) returns (rest: seq<Op>)
    requires After(Init(workers), ops).started
    ensures After(After(Init(workers), ops), [Cancel] + rest).wg == 0
  {
    var st := After(Init(workers), ops);
    assert Inv(Init(workers));
    AlwaysInv(Init(workers), ops);
    NextKeeps(st, Cancel);
    rest := Drains(Next(st, Cancel));
    AfterCons(st, Cancel, rest);
  }

  /** A scan that waits finds a slot as soon as fewer scans run than there are workers. */
  lemma FreeSlotIsUsable(workers: nat, ops: seq<Op>, id: nat)
    requires id in After(Init(workers), ops).waiting && |After(Init(workers), ops).running| < workers
    ensures id in Next(After(Init(workers), ops), Acquires(id)).running
  {
    WorkerBound(workers, ops);
    SameWorkers(Init(workers), ops);
  }

  /** A started loop can launch a scan, and the scan can run, whenever a slot is free. */
  lemma LoopCanScan(workers: nat, ops: seq<Op>, m: string, id: nat)
    requires m in After(Init(workers), ops).loops && Unused(After(Init(workers), ops), id)
    requires |After(Init(workers), ops).running| < workers
    ensures
      var st := After(Init(workers), ops);
      var on := After(st, [LoopLaunches(m, id), Acquires(id)]);
      on.running == st.running[id := LoopScan(m)] && on.waiting == st.waiting && on.wg == st.wg + 1
  {
    var st := After(Init(workers), ops);
    WorkerBound(workers, ops);
    SameWorkers(Init(workers), ops);
    var both := [LoopLaunches(m, id), Acquires(id)];
    assert both[..1] == [LoopLaunches(m, id)] && [LoopLaunches(m, id)][..0] == [];
    assert After(st, [LoopLaunches(m, id)]) == Next(After(st, []), LoopLaunches(m, id));
    assert After(st, both) == Next(After(st, [LoopLaunches(m, id)]), Acquires(id));
  }

  // ----- the scheduler's own counters ---------------------------------------------

  /** The fields the goroutines share, one method per locked or atomic region; `model` adds who is where. */
  class Pool {
    const workers: nat
    var modules: set<string>
    var started: bool
    var cancelled: bool
    var sem: nat
    var wg: nat
    ghost var model: State

    ghost predicate Valid()
      reads this
    {
      Inv(model) && model.workers == workers && model.modules == modules && model.started == started &&
      model.cancelled == cancelled && model.sem == sem && model.wg == wg
    }

    constructor (workers: nat)
      ensures Valid() && model == Init(workers)
    {
      this.workers, modules := workers, {};
      started, cancelled, sem, wg := false, false, 0, 0;
      model := Init(workers);
    }

    /** An empty or repeated ID is refused. */
    method Enrol(moduleId: string) returns (ok: bool)
      requires Valid()
      modifies this
      ensures Valid() && model == Next(old(model), Register(moduleId))
      ensures ok <==> moduleId != "" && moduleId !in old(modules)
    {
      NextKeeps(model, Register(moduleId));
      model := Next(model, Register(moduleId));
      if moduleId == "" || moduleId in modules {
        return false;
      }
      modules := modules + {moduleId};
      ok := true;
    }

    /** A second Start is refused; the first adds one loop per module to the wait group. */
    method Begin() returns (ok: bool)
      requires Valid()
      modifies this
      ensures Valid() && ok == !old(started) && model == Next(old(model), Start)
    {
      NextKeeps(model, Start);
      ok := !started;
      if started {
        return;
      }
      started := true;
      var rest := modules;
      while rest != {}
        invariant rest <= modules && wg == old(wg) + |modules| - |rest|
        invariant model == old(model) && modules == old(modules)
        invariant started && cancelled == old(cancelled) && sem == old(sem)
        decreases rest
      {
        var id :| id in rest;
        rest := rest - {id};
        wg := wg + 1;
      }
      model := Next(model, Start);
    }

    /** The first half of Stop; it then waits for wg to be zero. */
    method CancelAll()
      requires Valid()
      modifies this
      ensures Valid() && model == Next(old(model), Cancel)
    {
      NextKeeps(model, Cancel);
      if started {
        cancelled := true;
      }
      model := Next(model, Cancel);
    }

    /** AddTarget's look at the context; its launch comes later. */
    method CheckRunning() returns (running: bool)
      requires Valid()
      modifies this
      ensures Valid() && model == Next(old(model), AddChecks)
      ensures running <==> model.adds == old(model).adds + 1
    {
      NextKeeps(model, AddChecks);
      running := started && !cancelled;
      model := Next(model, AddChecks);
    }

    /** A goroutine for one scan is started; all but ScanNow's are added to the wait group first. */
    method Launch(o: Origin, ghost op: Op)
      requires Valid() && Enabled(model, op)
      requires op.LoopLaunches? || op.AddLaunches? || op.NowLaunches?
      requires o == if op.LoopLaunches? then LoopScan(op.moduleId) else if op.AddLaunches? then AddScan else NowScan
      modifies this
      ensures Valid() && model == Next(old(model), op)
    {
      NextKeeps(model, op);
      if o != NowScan {
        wg := wg + 1;
      }
      model := Next(model, op);
    }

    /** scanOne's select, when the send on the semaphore wins. */
    method Acquire(ghost id: nat)
      requires Valid() && id in model.waiting && sem < workers
      modifies this
      ensures Valid() && model == Next(old(model), Acquires(id))
    {
      NextKeeps(model, Acquires(id));
      sem := sem + 1;
      model := Next(model, Acquires(id));
    }

    /** scanOne's select, when the context is done: no slot is taken. */
    method GiveUp(o: Origin, ghost id: nat)
      requires Valid() && Enabled(model, GivesUp(id)) && o == model.waiting[id]
      modifies this
      ensures Valid() && model == Next(old(model), GivesUp(id))
    {
      NextKeeps(model, GivesUp(id));
      CountedRemove(model.waiting, id);
      if o != NowScan {
        wg := wg - 1;
      }
      model := Next(model, GivesUp(id));
    }

    /** Every return of scanOne after the acquire, then the goroutine's deferred Done. */
    method Release(o: Origin, ghost id: nat)
      requires Valid() && id in model.running && o == model.running[id]
      modifies this
      ensures Valid() && model == Next(old(model), Finishes(id))
    {
      NextKeeps(model, Finishes(id));
      CountedRemove(model.running, id);
      SizeRemove(model.running, id);
      sem := sem - 1;
      if o != NowScan {
        wg := wg - 1;
      }
      model := Next(model, Finishes(id));
    }

    /** A module loop sees the cancelled context and returns. */
    method LeaveLoop(ghost moduleId: string)
      requires Valid() && moduleId in model.loops && cancelled
      modifies this
      ensures Valid() && model == Next(old(model), LoopReturns(moduleId))
    {
      NextKeeps(model, LoopReturns(moduleId));
      wg := wg - 1;
      model := Next(model, LoopReturns(moduleId));
    }
  }
}
