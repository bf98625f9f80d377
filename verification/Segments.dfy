/** What is inside a digest: the accepted events of one window, in the order they were accepted (notify/notify.go). */
module Segments {
  import opened Findings
  import opened SeveritySort
  import opened Notify

  /** The events of one module, in order. */
  function Of(evs: seq<Event>, m: string): seq<Event> {
    if evs == [] then []
    else
      var n := |evs| - 1;
      Of(evs[..n], m) + if evs[n].moduleId == m then [evs[n]] else []
  }

  lemma OfSnoc(evs: seq<Event>, e: Event, m: string)
    ensures Of(evs + [e], m) == if e.moduleId == m then Of(evs, m) + [e] else Of(evs, m)
  {
    assert (evs + [e])[..|evs|] == evs;
  }

  function Flat(segs: seq<seq<Event>>): seq<Event> {
    if segs == [] then [] else Flat(segs[..|segs| - 1]) + segs[|segs| - 1]
  }

  /** The segments after an event joined the last one. */
  function Joined(segs: seq<seq<Event>>, e: Event): seq<seq<Event>>
    requires segs != []
  {
    segs[..|segs| - 1] + [segs[|segs| - 1] + [e]]
  }

  lemma FlatJoined(segs: seq<seq<Event>>, e: Event)
    requires segs != []
    ensures Flat(Joined(segs, e)) == Flat(segs) + [e]
  {
    var n := |segs| - 1;
    assert Joined(segs, e)[..n] == segs[..n];
    assert Flat(segs[..n]) + (segs[n] + [e]) == Flat(segs[..n]) + segs[n] + [e];
  }

  /** The window holds exactly the digests of the segment: one per module that has events in it. */
  ghost predicate Digested(ds: seq<Digest>, seg: seq<Event>) {
    && (forall i :: 0 <= i < |ds| ==> ds[i] == DigestOf(ds[i].moduleId, Of(seg, ds[i].moduleId), ds[i].at))
    && (forall m :: Of(seg, m) != [] <==> exists i :: 0 <= i < |ds| && ds[i].moduleId == m)
  }

  ghost predicate Holds(pending: map<string, seq<Event>>, seg: seq<Event>) {
    forall m :: Listed(pending, m) == Of(seg, m) && (m in pending <==> Of(seg, m) != [])
  }

  /** segs cuts the accepted events at the flushes; the last piece is what is pending. */
  ghost predicate Cuts(
    segs: seq<seq<Event>>, accepted: seq<Event>, emitted: seq<seq<Digest>>, pending: map<string, seq<Event>>)
  {
    && |segs| == |emitted| + 1
    && Flat(segs) == accepted
    && (forall i :: 0 <= i < |emitted| ==> Digested(emitted[i], segs[i]))
    && Holds(pending, segs[|emitted|])
  }

  ghost predicate CutsState(segs: seq<seq<Event>>, st: State) { Cuts(segs, st.accepted, st.emitted, st.pending) }

  lemma AddedCuts(segs: seq<seq<Event>>, st: State, e: Event)
    requires CutsState(segs, st)
    ensures CutsState(Joined(segs, e), Added(st, e))
  {
    var seg := segs[|st.emitted|];
    FlatJoined(segs, e);
    forall m
      ensures Of(seg + [e], m) == if e.moduleId == m then Of(seg, m) + [e] else Of(seg, m)
    {
      OfSnoc(seg, e, m);
    }
  }

  /** A flush closes the last segment and starts an empty one. */
  lemma NewSegment(
      segs: seq<seq<Event>>, accepted: seq<Event>, emitted: seq<seq<Digest>>, pending: map<string, seq<Event>>,
      ds: seq<Digest>)
    requires Cuts(segs, accepted, emitted, pending) && Digested(ds, segs[|emitted|])
    ensures Cuts(segs + [[]], accepted, emitted + [ds], map[])
  {
    var all := segs + [[]];
    assert all[..|segs|] == segs;
    assert Flat(all) == Flat(segs) + [];
    forall i | 0 <= i < |emitted| + 1
      ensures Digested((emitted + [ds])[i], all[i])
    {
      if i < |emitted| {
        assert Digested(emitted[i], segs[i]);
      }
    }
  }

  lemma FlushDigested(pending: map<string, seq<Event>>, order: seq<string>, now: int, seg: seq<Event>)
    requires Enumerates(order, pending) && Holds(pending, seg)
    ensures Digested(Digests(pending, order, now), seg)
  {
    var ds := Digests(pending, order, now);
    forall m
      ensures Of(seg, m) != [] <==> exists i :: 0 <= i < |ds| && ds[i].moduleId == m
    {
      if m in pending {
        var i :| 0 <= i < |order| && order[i] == m;
        assert ds[i].moduleId == m;
      }
    }
  }

  lemma FlushedCuts(cfg: Config, segs: seq<seq<Event>>, st: State, now: int, order: seq<string>)
      returns (after: seq<seq<Event>>)
    requires CutsState(segs, st) && Enumerates(order, st.pending)
    ensures CutsState(after, Flushed(cfg, st, now, order))
  {
    after := segs;
    if st.pending != map[] {
      FlushDigested(st.pending, order, now, segs[|st.emitted|]);
      NewSegment(segs, st.accepted, st.emitted, st.pending, Digests(st.pending, order, now));
      after := segs + [[]];
    }
  }

  lemma EnqueueCuts(cfg: Config, segs: seq<seq<Event>>, st: State, op: Op) returns (after: seq<seq<Event>>)
    requires CutsState(segs, st) && op.DoEnqueue? && Enabled(cfg, st, op)
    ensures CutsState(after, Next(cfg, st, op))
  {
    after := segs;
    if Accepts(cfg, st, op.event) {
      AddedCuts(segs, st, op.event);
      after := Joined(segs, op.event);
      if |PendingSet(Added(st, op.event).pending)| >= cfg.maxBatch {
        after := FlushedCuts(cfg, after, Added(st, op.event), op.now, op.order);
      }
    }
  }

  lemma NextCuts(cfg: Config, segs: seq<seq<Event>>, st: State, op: Op) returns (after: seq<seq<Event>>)
    requires CutsState(segs, st) && Enabled(cfg, st, op)
    ensures CutsState(after, Next(cfg, st, op))
  {
    after := segs;
    match op
    case DoEnqueue(_, _, _) => after := EnqueueCuts(cfg, segs, st, op);
    case TimedFlush(now, order) => after := FlushedCuts(cfg, segs, st.(waiting := st.waiting - 1), now, order);
    case DirectFlush(now, order) => after := FlushedCuts(cfg, segs, st, now, order);
    case DoClose(now, order) => after := FlushedCuts(cfg, segs, st, now, order);
    case SendReturns(_) =>
    case TimerFires =>
    case CloseReturns =>
  }

  /**
   * Under every interleaving the accepted events fall into one segment per flush and one for what is
   * pending, and each digest is exactly its module's part of its segment: opened findings by severity
   * and, within one severity, in the order they were accepted; resolved ones in that order.
   */
  lemma {:induction false} DigestsKeepOrder(cfg: Config, ops: seq<Op>) returns (segs: seq<seq<Event>>)
    ensures CutsState(segs, After(cfg, ops))
  {
    if ops == [] {
      segs := [[]];
      assert segs[..0] == [];
    } else {
      var before, op := ops[..|ops| - 1], ops[|ops| - 1];
      segs := DigestsKeepOrder(cfg, before);
      if Enabled(cfg, After(cfg, before), op) {
        segs := NextCuts(cfg, segs, After(cfg, before), op);
      }
    }
  }
}
