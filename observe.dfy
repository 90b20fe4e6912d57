/**
 * The loop of `observe_events`, together with the exception a report can
 * raise in it. Each step ends with `check_high_water_mark`, which prints the
 * snapshot when the mark rises past the reporting threshold; when that
 * report raises, the exception leaves the loop and the script (which only
 * catches an interrupt), so no later step or event runs.
 */
module Observe {
  import opened Wrappers
  import opened ProbeCalls
  import opened Allocations
  import opened Reports

  /** The state a run reaches, and whether a report raised and ended the run there. */
  datatype Progress = Progress(state: State, raised: bool)

  /**
   * The check at the end of a step from `s` to `r` printed the snapshot:
   * the mark rose, to the footprint, and reached the reporting threshold.
   */
  predicate Reported(cfg: Config, s: State, r: State)
  {
    r.mark > s.mark && r.mark >= cfg.after
  }

  /** The check printed the snapshot and the report raised. */
  predicate StepRaises(cfg: Config, ignored: set<Allocation>, s: State, r: State)
  {
    Reported(cfg, s, r) && HighWaterSelection(cfg.track, r.snapshot, ignored).failed
  }

  /** One bucket-level step, and whether its closing check raised. */
  function Step(cfg: Config, ignored: set<Allocation>, s: State, e: CallEvent, op: Op): Progress
    requires Valid(s) && Fits(op, e.call)
  {
    var m := Do(cfg, s, e, op);
    Progress(m, StepRaises(cfg, ignored, s, m))
  }

  /** Steps run one after the other, until one raises. */
  function Apply(cfg: Config, ignored: set<Allocation>, s: State, e: CallEvent, ops: seq<Op>): (r: Progress)
    requires Valid(s) && forall op :: op in ops ==> Fits(op, e.call)
    ensures Valid(r.state) && s.keys <= r.state.keys && r.state.mark >= s.mark && r.state.lastEvent == s.lastEvent
    ensures ops != [] && cfg.track ==> r.state.mark >= r.state.footprint
    ensures r.raised ==> Reported(cfg, s, r.state) && HighWaterSelection(cfg.track, r.state.snapshot, ignored).failed
    decreases |ops|
  {
    if ops == [] then Progress(s, false)
    else
      assert ops[0] in ops;
      var p := Step(cfg, ignored, s, e, ops[0]);
      if p.raised then p else Apply(cfg, ignored, p.state, e, ops[1..])
  }

  lemma ApplyOne(cfg: Config, ignored: set<Allocation>, s: State, e: CallEvent, op: Op)
    requires Valid(s) && Fits(op, e.call)
    ensures Apply(cfg, ignored, s, e, [op]) == Step(cfg, ignored, s, e, op)
  {
    assert [op][1..] == [];
  }

  lemma ApplyTwo(cfg: Config, ignored: set<Allocation>, s: State, e: CallEvent)
    requires Valid(s) && e.call.HasOldId() && e.call.HasNewId()
    ensures var p := Step(cfg, ignored, s, e, FreeOp);
      Apply(cfg, ignored, s, e, [FreeOp, AllocOp]) == if p.raised then p else Step(cfg, ignored, p.state, e, AllocOp)
  {
    assert [FreeOp, AllocOp][1..] == [AllocOp];
    var p := Step(cfg, ignored, s, e, FreeOp);
    if !p.raised {
      ApplyOne(cfg, ignored, p.state, e, AllocOp);
    }
  }

  /**
   * One event of `observe_events`: the clock advances to the event's
   * timestamp if that is later; then, if the event's command matches, the
   * call's steps run, until one raises.
   */
  function ObserveEvent(cfg: Config, ignored: set<Allocation>, s: State, e: CallEvent): (r: Progress)
    requires Valid(s)
    ensures Valid(r.state) && s.keys <= r.state.keys && r.state.mark >= s.mark
    ensures r.state.lastEvent == if e.ts > s.lastEvent then e.ts else s.lastEvent
  {
    var s1 := s.(lastEvent := if e.ts > s.lastEvent then e.ts else s.lastEvent);
    OpsDispatch(e.call);
    if !CommMatches(e.comm) then Progress(s1, false) else Apply(cfg, ignored, s1, e, Ops(e.call))
  }

  /** A run of steps writes no bucket outside `written`, and keeps every key. */
  predicate WritesWithin(s: State, r: State, written: set<nat>)
  {
    && s.table.Keys <= r.table.Keys <= s.table.Keys + written
    && forall k :: k in s.table && k !in written ==> r.table[k] == s.table[k]
  }

  lemma {:induction false} ApplyBuckets(cfg: Config, ignored: set<Allocation>, s: State, e: CallEvent, ops: seq<Op>)
    requires Valid(s) && forall op :: op in ops ==> Fits(op, e.call)
    ensures var r := Apply(cfg, ignored, s, e, ops);
      && WritesWithin(s, r.state, Buckets(ops, e.call))
      && (!r.raised ==> WritesOnly(s, r.state, Buckets(ops, e.call)))
    decreases |ops|
  {
    if ops != [] {
      assert ops[0] in ops;
      var m := Do(cfg, s, e, ops[0]);
      DoBucket(cfg, s, e, ops[0]);
      if !StepRaises(cfg, ignored, s, m) {
        ApplyBuckets(cfg, ignored, m, e, ops[1..]);
        var r := Apply(cfg, ignored, s, e, ops);
        if !r.raised {
          WritesOnlyThen(s, m, r.state, {Bucket(ops[0], e.call)}, Buckets(ops[1..], e.call));
        }
      }
    }
  }

  /**
   * An event writes only the buckets of its call's ids; when no report
   * raised, each of them is in the dict afterwards.
   */
  lemma ObserveEventBuckets(cfg: Config, ignored: set<Allocation>, s: State, e: CallEvent)
    requires Valid(s)
    ensures var r := ObserveEvent(cfg, ignored, s, e);
      && WritesWithin(s, r.state, Touched(e.call))
      && (!r.raised && CommMatches(e.comm) ==> WritesOnly(s, r.state, Touched(e.call)))
  {
    var s1 := s.(lastEvent := if e.ts > s.lastEvent then e.ts else s.lastEvent);
    OpsBuckets(e.call);
    ApplyBuckets(cfg, ignored, s1, e, Ops(e.call));
  }

  /** With tracking on, the mark is at least the footprint after every event, one that raised included: each call runs at least one step, and each step ends with a check. */
  lemma ObserveEventMarkCovers(cfg: Config, ignored: set<Allocation>, s: State, e: CallEvent)
    requires Valid(s)
    ensures var r := ObserveEvent(cfg, ignored, s, e); cfg.track ==> r.state.mark >= r.state.footprint
  {
    OpsDispatch(e.call);
  }

  /**
   * An event raises only when tracking is on and the mark it set reaches the
   * threshold, and then the final snapshot is one the report raises on.
   */
  lemma ObserveEventRaises(cfg: Config, ignored: set<Allocation>, s: State, e: CallEvent)
    requires Valid(s)
    ensures var r := ObserveEvent(cfg, ignored, s, e);
      r.raised ==> && cfg.track && r.state.mark > s.mark && r.state.mark >= cfg.after
                   && HighWaterRaises(cfg.track, r.state.snapshot, ignored)
  {
    var r := ObserveEvent(cfg, ignored, s, e);
    HighWaterSelectionExactly(cfg.track, r.state.snapshot, ignored, Empty);
  }

  /** The latest timestamp among the events, or `start` if none is later. */
  function Latest(start: real, events: seq<CallEvent>): real
    decreases |events|
  {
    if events == [] then start
    else var t := Latest(start, events[..|events| - 1]); var ts := events[|events| - 1].ts; if ts > t then ts else t
  }

  lemma {:induction false} LatestBounds(start: real, events: seq<CallEvent>)
    ensures Latest(start, events) >= start
    ensures forall e :: e in events ==> Latest(start, events) >= e.ts
    decreases |events|
  {
    if events != [] {
      var init := events[..|events| - 1];
      LatestBounds(start, init);
      forall e | e in events ensures Latest(start, events) >= e.ts {
        if e != events[|events| - 1] {
          var i :| 0 <= i < |events| && events[i] == e;
          assert init[i] == e;
        }
      }
    }
  }

  /**
   * `observe_events` over a finite sequence of events, ended by the first
   * event whose report raises. Over the run the mark never falls, the dict's
   * keys keep their order and only gain new keys at the end, and the clock
   * never goes back; a run with no exception ends the clock at the latest
   * timestamp seen.
   */
  function ObserveAll(cfg: Config, ignored: set<Allocation>, s: State, events: seq<CallEvent>): (r: Progress)
    requires Valid(s)
    ensures Valid(r.state) && r.state.mark >= s.mark && s.keys <= r.state.keys && r.state.lastEvent >= s.lastEvent
    ensures !r.raised ==> r.state.lastEvent == Latest(s.lastEvent, events)
    decreases |events|
  {
    if events == [] then Progress(s, false)
    else
      var p := ObserveAll(cfg, ignored, s, events[..|events| - 1]);
      if p.raised then p else ObserveEvent(cfg, ignored, p.state, events[|events| - 1])
  }

  /** One more event: the run's outcome after it, from the outcome before. */
  lemma ObserveAllSnoc(cfg: Config, ignored: set<Allocation>, s: State, events: seq<CallEvent>, i: nat)
    requires Valid(s) && i < |events|
    ensures var p := ObserveAll(cfg, ignored, s, events[..i]);
      ObserveAll(cfg, ignored, s, events[..i + 1]) == if p.raised then p else ObserveEvent(cfg, ignored, p.state, events[i])
  {
    assert events[..i + 1][..i] == events[..i];
  }

  /** Once an event has raised, the events after it change nothing. */
  lemma {:induction false} ObserveAllStops(cfg: Config, ignored: set<Allocation>, s: State, events: seq<CallEvent>, j: nat)
    requires Valid(s) && j <= |events| && ObserveAll(cfg, ignored, s, events[..j]).raised
    ensures ObserveAll(cfg, ignored, s, events) == ObserveAll(cfg, ignored, s, events[..j])
    decreases |events|
  {
    if j < |events| {
      var init := events[..|events| - 1];
      assert init[..j] == events[..j];
      ObserveAllStops(cfg, ignored, s, init, j);
    } else {
      assert events[..j] == events;
    }
  }

  /** A run that raised stopped at its first raising event: what it left is that event's outcome on the quiet run before it. */
  lemma {:induction false} ObserveAllFirstRaise(cfg: Config, ignored: set<Allocation>, s: State, events: seq<CallEvent>) returns (k: nat)
    requires Valid(s) && ObserveAll(cfg, ignored, s, events).raised
    ensures k < |events| && !ObserveAll(cfg, ignored, s, events[..k]).raised
    ensures ObserveAll(cfg, ignored, s, events) == ObserveEvent(cfg, ignored, ObserveAll(cfg, ignored, s, events[..k]).state, events[k])
    decreases |events|
  {
    var init := events[..|events| - 1];
    if ObserveAll(cfg, ignored, s, init).raised {
      k := ObserveAllFirstRaise(cfg, ignored, s, init);
      assert init[..k] == events[..k];
    } else {
      k := |events| - 1;
      assert init == events[..k];
    }
  }

  /**
   * A run raises only when tracking is on, and then it ends on a snapshot
   * the report raises on, with the mark at or past the threshold; without
   * tracking it always runs to the end.
   */
  lemma ObserveAllRaises(cfg: Config, ignored: set<Allocation>, s: State, events: seq<CallEvent>)
    requires Valid(s)
    ensures var r := ObserveAll(cfg, ignored, s, events);
      r.raised ==> cfg.track && r.state.mark >= cfg.after && HighWaterRaises(cfg.track, r.state.snapshot, ignored)
    ensures !cfg.track ==> !ObserveAll(cfg, ignored, s, events).raised
  {
    if ObserveAll(cfg, ignored, s, events).raised {
      var k := ObserveAllFirstRaise(cfg, ignored, s, events);
      ObserveEventRaises(cfg, ignored, ObserveAll(cfg, ignored, s, events[..k]).state, events[k]);
    }
  }

  /** `LAST_EVENT` never decreases, and after a run with no exception it is at least every timestamp in it, filtered or not. */
  lemma ObserveAllClock(cfg: Config, ignored: set<Allocation>, s: State, events: seq<CallEvent>)
    requires Valid(s)
    ensures var r := ObserveAll(cfg, ignored, s, events);
      && r.state.lastEvent >= s.lastEvent
      && (!r.raised ==> forall e :: e in events ==> r.state.lastEvent >= e.ts)
  {
    LatestBounds(s.lastEvent, events);
  }
}
