/** Retry backoff and its gate in the module loop (sched/scheduler.go). */
module Backoff {
  import opened Basics
  import opened Findings

  const TWO62 := 0x4000_0000_0000_0000
  const TWO63 := 0x8000_0000_0000_0000
  const TWO64 := 0x1_0000_0000_0000_0000

  /** time.Duration. */
  type Int64 = x: int | -TWO63 <= x < TWO63

  /** int64 wrap-around of a sum of two int64 values, such as d + d. */
  function Wrap(x: int): (r: Int64)
    requires -TWO64 <= x < TWO64
    ensures r % TWO64 == x % TWO64
  {
    if x >= TWO63 then x - TWO64 else if x < -TWO63 then x + TWO64 else x
  }

  /** d after n more doublings of the loop, with its early return and its final cap. */
  function Delay(d: Int64, max: Int64, n: nat): Int64
    decreases n
  {
    if n == 0 then if d > max then max else d
    else
      var e := Wrap(d * 2);
      if e >= max then max else Delay(e, max, n - 1)
  }

  function Doublings(consecutive: int): nat { if consecutive > 1 then consecutive - 1 else 0 }

  /** What the delay is meant to be: the base, doubled once for each failure after the first, up to the cap. */
  function Ideal(retryBase: nat, retryMax: int, consecutive: int): int {
    if consecutive <= 1 then Min(retryBase, retryMax) else Min(retryBase * Pow(2, consecutive - 1), retryMax)
  }

  /** withDefaults makes both durations positive. */
  method BackoffFor(retryBase: Int64, retryMax: Int64, consecutive: int) returns (d: Int64)
    requires retryBase > 0 && retryMax > 0
    ensures d == Delay(retryBase, retryMax, Doublings(consecutive))
    ensures Safe(retryBase, retryMax) ==> d == Ideal(retryBase, retryMax, consecutive)
  {
    if Safe(retryBase, retryMax) {
      SafeIsIdeal(retryBase, retryMax, consecutive);
    }
    d := retryBase;
    var i := 1;
    while i < consecutive
      invariant 1 <= i && (consecutive >= 1 ==> i <= consecutive)
      invariant Delay(retryBase, retryMax, Doublings(consecutive)) ==
        Delay(d, retryMax, if consecutive > i then consecutive - i else 0)
    {
      d := Wrap(d * 2);
      if d >= retryMax {
        return retryMax;
      }
      i := i + 1;
    }
    if d > retryMax {
      d := retryMax;
    }
  }

  /** b doubled until it no longer fits in 62 bits. */
  function Grown(b: int): int
    requires b > 0
    decreases TWO62 - b
  {
    if b >= TWO62 then b else Grown(2 * b)
  }

  function Steps(b: int): nat
    requires b > 0
    decreases TWO62 - b
  {
    if b >= TWO62 then 0 else 1 + Steps(2 * b)
  }

  /** Durations the loop handles without overflow: a caller can check this before configuring them. */
  predicate Safe(retryBase: int, retryMax: int)
    requires retryBase > 0
  {
    retryBase < TWO62 && retryMax <= Grown(retryBase)
  }

  lemma {:induction false} GrownBound(b: int)
    requires 0 < b < TWO62
    ensures TWO62 <= Grown(b) < TWO63
    decreases TWO62 - b
  {
    if 2 * b < TWO62 {
      GrownBound(2 * b);
    }
  }

  lemma {:induction false} PowPositive(n: nat)
    ensures Pow(2, n) >= 1
  {
    if n == 0 {
    } else {
      PowPositive(n - 1);
    }
  }

  lemma Regroup(d: nat, p: nat, q: nat)
    requires p >= 1 && q == 2 * p
    ensures d * q == (2 * d) * p && d * q >= 2 * d
  {
  }

  lemma {:induction false} SafeDelay(d: int, max: Int64, n: nat)
    requires 0 < d && Safe(d, max)
    ensures Delay(d, max, n) == Min(d * Pow(2, n), max)
    decreases n
  {
    if n == 0 {
    } else {
      var e := 2 * d;
      PowPositive(n - 1);
      assert Wrap(d * 2) == e;
      Regroup(d, Pow(2, n - 1), Pow(2, n));
      assert Grown(d) == Grown(e);
      if e < max {
        SafeDelay(e, max, n - 1);
      }
    }
  }

  /** Below its largest 62-bit doubling the delay just doubles. */
  lemma {:induction false} DelayReaches(d: int, max: Int64, n: nat)
    requires 0 < d < TWO63 && TWO62 <= Grown(d) < max
    ensures Delay(d, max, Steps(d) + n) == Delay(Grown(d), max, n)
    decreases TWO62 - d
  {
    if d < TWO62 {
      assert Wrap(d * 2) == 2 * d;
      GrownMonotone(2 * d);
      DelayReaches(2 * d, max, n);
    }
  }

  lemma {:induction false} GrownMonotone(d: int)
    requires 0 < d
    ensures d <= Grown(d)
    decreases TWO62 - d
  {
    if d < TWO62 {
      GrownMonotone(2 * d);
    }
  }

  lemma OverflowAt(g: int, max: Int64)
    requires TWO62 <= g < TWO63 && max > 0
    ensures Delay(g, max, 1) < 0
  {
    assert Wrap(g * 2) == 2 * g - TWO64;
    assert Delay(g, max, 1) == Delay(2 * g - TWO64, max, 0);
  }

  lemma SafeIsIdeal(retryBase: Int64, retryMax: Int64, consecutive: int)
    requires retryBase > 0 && Safe(retryBase, retryMax)
    ensures Delay(retryBase, retryMax, Doublings(consecutive)) == Ideal(retryBase, retryMax, consecutive)
  {
    SafeDelay(retryBase, retryMax, Doublings(consecutive));
  }

  /** Exponential backoff with a cap: exactly the safe configurations get it after every number of failures. */
  lemma BackoffClosedForm(retryBase: Int64, retryMax: Int64)
    requires retryBase > 0 && retryMax > 0
    ensures
      (forall n :: Delay(retryBase, retryMax, Doublings(n)) == Ideal(retryBase, retryMax, n)) <==>
      Safe(retryBase, retryMax)
  {
    if Safe(retryBase, retryMax) {
      forall n
        ensures Delay(retryBase, retryMax, Doublings(n)) == Ideal(retryBase, retryMax, n)
      {
        SafeIsIdeal(retryBase, retryMax, n);
      }
    } else {
      var n := OverflowCount(retryBase, retryMax);
      PowPositive(n);
      assert retryBase * Pow(2, n) > 0;
      assert Doublings(n + 1) == n;
    }
  }

  lemma OverflowCount(retryBase: Int64, retryMax: Int64) returns (n: nat)
    requires retryBase > 0 && retryMax > 0 && !Safe(retryBase, retryMax)
    ensures Delay(retryBase, retryMax, n) < 0
  {
    if retryBase >= TWO62 {
      n := 1;
      OverflowAt(retryBase, retryMax);
    } else {
      n := Steps(retryBase) + 1;
      GrownBound(retryBase);
      DelayReaches(retryBase, retryMax, 1);
      OverflowAt(Grown(retryBase), retryMax);
    }
  }

  /** In particular any base below 2^62 with a cap of at most 2^62 is safe. */
  lemma SmallIsSafe(retryBase: Int64, retryMax: Int64)
    requires 0 < retryBase < TWO62 && retryMax <= TWO62
    ensures Safe(retryBase, retryMax)
  {
    GrownBound(retryBase);
  }

  // ----- the gate ---------------------------------------------------------------

  datatype Outcome = Succeeded | Canceled | Failed

  /** What happens to one module's targets, in the order of the lock that guards the two maps. */
  datatype Event = Launched(target: string, now: int) | Completed(target: string, outcome: Outcome, now: int)

  /** Length of the run of failures that ends the completions of t. */
  function Trail(hist: seq<Event>, t: string): nat {
    if hist == [] then 0
    else
      var e, before := hist[|hist| - 1], hist[..|hist| - 1];
      if e.Completed? && e.target == t then if e.outcome == Failed then 1 + Trail(before, t) else 0
      else Trail(before, t)
  }

  /** When the last completion of t was a failure, its time. */
  function LastFailure(hist: seq<Event>, t: string): Option<int> {
    if hist == [] then None
    else
      var e, before := hist[|hist| - 1], hist[..|hist| - 1];
      if e.Completed? && e.target == t then if e.outcome == Failed then Some(e.now) else None
      else LastFailure(before, t)
  }

  /** The earliest moment the history lets t be launched; None is the zero time. */
  function GateOf(retryBase: Int64, retryMax: Int64, hist: seq<Event>, t: string): Option<int> {
    match LastFailure(hist, t)
    case None => None
    case Some(at) => Some(at + Delay(retryBase, retryMax, Doublings(Trail(hist, t))))
  }

  /** When exponential backoff lets t be launched: its last failure plus the doubled, capped base. */
  predicate Due(retryBase: nat, retryMax: int, hist: seq<Event>, t: string, now: int) {
    match LastFailure(hist, t)
    case None => true
    case Some(at) => now >= at + Ideal(retryBase, retryMax, Trail(hist, t))
  }

  predicate Before(now: int, gate: Option<int>) { gate.Some? && now < gate.value }

  /** Histories in which every launch passed its gate. */
  ghost predicate Gated(retryBase: Int64, retryMax: Int64, hist: seq<Event>) {
    forall i :: 0 <= i < |hist| && hist[i].Launched? ==>
      !Before(hist[i].now, GateOf(retryBase, retryMax, hist[..i], hist[i].target))
  }

  lemma GatedSnoc(retryBase: Int64, retryMax: Int64, hist: seq<Event>, e: Event)
    requires Gated(retryBase, retryMax, hist)
    requires e.Launched? ==> !Before(e.now, GateOf(retryBase, retryMax, hist, e.target))
    ensures Gated(retryBase, retryMax, hist + [e])
  {
    forall i | 0 <= i < |hist|
      ensures (hist + [e])[..i] == hist[..i]
    {
    }
    assert (hist + [e])[..|hist|] == hist;
  }

  /** The failure bookkeeping of one module loop. */
  class ModuleLoop {
    const retryBase: Int64
    const retryMax: Int64
    var failures: map<string, int>
    var nextOK: map<string, Option<int>>
    ghost var hist: seq<Event>

    /** The maps say what the history of launches and completions says, and every launch passed its gate. */
    ghost predicate Valid() reads this {
      && retryBase > 0 && retryMax > 0
      && Gated(retryBase, retryMax, hist)
      && (forall t :: (if t in failures then failures[t] else 0) == Trail(hist, t))
      && (forall t :: (if t in nextOK then nextOK[t] else None) == GateOf(retryBase, retryMax, hist, t))
    }

    /** In a safe configuration every launch of the loop's history was due. */
    lemma NoEarlyRetry(i: nat)
      requires Valid() && Safe(retryBase, retryMax) && i < |hist| && hist[i].Launched?
      ensures Due(retryBase, retryMax, hist[..i], hist[i].target, hist[i].now)
    {
      GateIsDue(retryBase, retryMax, hist[..i], hist[i].target, hist[i].now);
    }

    constructor (retryBase: Int64, retryMax: Int64)
      requires retryBase > 0 && retryMax > 0
      ensures Valid() && hist == [] && this.retryBase == retryBase && this.retryMax == retryMax
    {
      this.retryBase, this.retryMax := retryBase, retryMax;
      failures, nextOK, hist := map[], map[], [];
    }

    /** The gate check of one target in a sweep. */
    method Check(t: string, now: int) returns (passed: bool)
      requires Valid()
      ensures passed <==> !Before(now, GateOf(retryBase, retryMax, hist, t))
      ensures Safe(retryBase, retryMax) ==> (passed <==> Due(retryBase, retryMax, hist, t, now))
    {
      var gate := if t in nextOK then nextOK[t] else None;
      GateIsDue(retryBase, retryMax, hist, t, now);
      passed := !Before(now, gate);
    }

    /** The gate check, and the launch if it passes. */
    method TryLaunch(t: string, now: int) returns (launched: bool)
      requires Valid()
      modifies this`hist
      ensures Valid()
      ensures launched <==> !Before(now, GateOf(retryBase, retryMax, old(hist), t))
      ensures Safe(retryBase, retryMax) ==> (launched <==> Due(retryBase, retryMax, old(hist), t, now))
      ensures hist == old(hist) + if launched then [Launched(t, now)] else []
    {
      launched := Check(t, now);
      if !launched {
        return;
      }
      HistSnoc(hist, Launched(t, now));
      GatedSnoc(retryBase, retryMax, hist, Launched(t, now));
      hist := hist + [Launched(t, now)];
    }

    /** The end of a launched scan: a failure other than cancellation backs off, anything else resets. */
    method Complete(t: string, outcome: Outcome, now: int) returns (attempt: int, nextTry: int)
      requires Valid()
      modifies this
      ensures Valid() && hist == old(hist) + [Completed(t, outcome, now)]
      ensures outcome == Failed ==>
        attempt == Trail(hist, t) >= 1 && GateOf(retryBase, retryMax, hist, t) == Some(now + nextTry)
    {
      attempt, nextTry := 0, 0;
      if outcome == Failed {
        attempt, nextTry := Fail(t, now);
        return;
      }
      HistSnoc(hist, Completed(t, outcome, now));
      GatedSnoc(retryBase, retryMax, hist, Completed(t, outcome, now));
      hist := hist + [Completed(t, outcome, now)];
      failures := failures[t := 0];
      nextOK := nextOK[t := None];
    }

    method Fail(t: string, now: int) returns (attempt: int, nextTry: int)
      requires Valid()
      modifies this
      ensures Valid() && hist == old(hist) + [Completed(t, Failed, now)]
      ensures attempt == Trail(hist, t) >= 1 && GateOf(retryBase, retryMax, hist, t) == Some(now + nextTry)
    {
      ghost var before := hist;
      HistSnoc(hist, Completed(t, Failed, now));
      GatedSnoc(retryBase, retryMax, hist, Completed(t, Failed, now));
      attempt := (if t in failures then failures[t] else 0) + 1;
      var backoff := BackoffFor(retryBase, retryMax, attempt);
      nextTry := backoff;
      failures := failures[t := attempt];
      nextOK := nextOK[t := Some(now + backoff)];
      hist := hist + [Completed(t, Failed, now)];
      assert GateOf(retryBase, retryMax, hist, t) == Some(now + backoff);
      forall u
        ensures (if u in failures then failures[u] else 0) == Trail(hist, u)
        ensures (if u in nextOK then nextOK[u] else None) == GateOf(retryBase, retryMax, hist, u)
      {
        if u != t {
          assert Trail(hist, u) == Trail(before, u) && LastFailure(hist, u) == LastFailure(before, u);
        }
      }
    }
  }

  lemma HistSnoc(hist: seq<Event>, e: Event)
    ensures forall t :: (e.Completed? && e.target == t ==>
      Trail(hist + [e], t) == (if e.outcome == Failed then 1 + Trail(hist, t) else 0) &&
      LastFailure(hist + [e], t) == if e.outcome == Failed then Some(e.now) else None)
    ensures forall t :: (!e.Completed? || e.target != t ==>
      Trail(hist + [e], t) == Trail(hist, t) && LastFailure(hist + [e], t) == LastFailure(hist, t))
  {
    assert (hist + [e])[..|hist|] == hist;
  }

  /** There is a last failure to wait for exactly when the trailing run is not empty. */
  lemma {:induction false} TrailMeans(hist: seq<Event>, t: string)
    ensures LastFailure(hist, t).Some? <==> Trail(hist, t) >= 1
  {
    if hist == [] {
    } else {
      TrailMeans(hist[..|hist| - 1], t);
    }
  }

  /** In a safe configuration the gate is the closed form. */
  lemma GateIsDue(retryBase: Int64, retryMax: Int64, hist: seq<Event>, t: string, now: int)
    requires retryBase > 0 && retryMax > 0
    ensures Safe(retryBase, retryMax) ==>
      (!Before(now, GateOf(retryBase, retryMax, hist, t)) <==> Due(retryBase, retryMax, hist, t, now))
  {
    if Safe(retryBase, retryMax) {
      SafeIsIdeal(retryBase, retryMax, Trail(hist, t));
    }
  }

  /** How the scans of t ended, in order. */
  function Outcomes(hist: seq<Event>, t: string): seq<Outcome> {
    if hist == [] then []
    else
      var e, before := hist[|hist| - 1], hist[..|hist| - 1];
      if e.Completed? && e.target == t then Outcomes(before, t) + [e.outcome] else Outcomes(before, t)
  }

  /** The counter is the length of the run of failures at the end of t's outcomes. */
  lemma {:induction false} TrailCounts(hist: seq<Event>, t: string)
    ensures
      var os, n := Outcomes(hist, t), Trail(hist, t);
      n <= |os| && (forall i :: |os| - n <= i < |os| ==> os[i] == Failed) &&
      (n < |os| ==> os[|os| - n - 1] != Failed)
  {
    if hist == [] {
    } else {
      TrailCounts(hist[..|hist| - 1], t);
    }
  }

  ghost predicate FailedLast(hist: seq<Event>, t: string, i: nat, at: int) {
    i < |hist| && hist[i] == Completed(t, Failed, at) &&
    forall j :: i < j < |hist| ==> !(hist[j].Completed? && hist[j].target == t)
  }

  /** The wait starts at the last completion of t, if that was a failure. */
  lemma {:induction false} WaitsFromLast(hist: seq<Event>, t: string, at: int)
    ensures LastFailure(hist, t) == Some(at) <==> exists i :: FailedLast(hist, t, i, at)
  {
    if hist == [] {
    } else {
      var n := |hist| - 1;
      var e, before := hist[n], hist[..n];
      WaitsFromLast(before, t, at);
      if e.Completed? && e.target == t {
        if e.outcome == Failed && e.now == at {
          assert FailedLast(hist, t, n, at);
        }
      } else {
        if i: nat :| FailedLast(before, t, i, at) {
          assert FailedLast(hist, t, i, at);
        }
        if i: nat :| FailedLast(hist, t, i, at) {
          assert before[i] == hist[i];
          assert FailedLast(before, t, i, at);
        }
      }
    }
  }
}
