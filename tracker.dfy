/**
 * The tracker's globals as the fields of one object, updated in place by
 * `observe_*`, `check_high_water_mark` and `print_old_allocs`. Each method
 * leaves the state the matching function of the Allocations and Reports
 * modules describes.
 */
module AllocTracker {
  import opened Wrappers
  import opened ProbeCalls
  import opened Allocations
  import opened Reports
  import opened Observe

  class Tracker {
    /** The settings read at start-up. */
    const cfg: Config
    /** `ALLOCATIONS`: its keys in insertion order, and its contents. */
    var keys: seq<nat>
    var table: map<nat, Allocation>
    /** `ESTIMATED_ALLOCATIONS_FOOTPRINT`. */
    var footprint: int
    /** `ALLOCATIONS_HIGH_WATER_MARK`. */
    var mark: int
    /** `ALLOCATIONS_AT_HIGH_WATER_MARK`. */
    var snapshot: seq<Allocation>
    /** `LAST_EVENT`. */
    var lastEvent: real
    /** `IGNORED_ALLOCS`. */
    var ignored: set<Allocation>

    /** The fields other than the ignore set, as one value. */
    function Model(): State
      reads this
    {
      Allocations.State(keys, table, footprint, mark, snapshot, lastEvent)
    }

    predicate Valid()
      reads this
    {
      Allocations.Valid(Model())
    }

    /** The globals as the script starts. */
    constructor (cfg: Config)
      ensures Valid() && Model() == Init && ignored == {} && this.cfg == cfg
    {
      this.cfg := cfg;
      keys := [];
      table := map[];
      footprint := 0;
      mark := 0;
      snapshot := [];
      lastEvent := 0.0;
      ignored := {};
    }

    /**
     * `check_high_water_mark`, with the report it prints when the mark
     * reaches the threshold; the result says whether that report raised.
     */
    method CheckHighWaterMark() returns (raised: bool)
      requires Valid()
      modifies this
      ensures Valid() && Model() == Allocations.CheckHighWaterMark(cfg, old(Model())) && ignored == old(ignored)
      ensures raised == (Announces(cfg, old(Model())) && HighWaterSelection(cfg.track, snapshot, ignored).failed)
    {
      if !cfg.track || mark >= footprint {
        return false;
      }
      mark := footprint;
      snapshot := LiveOf(keys, table);
      raised := false;
      if mark >= cfg.after {
        var out := PrintHighWaterMark();
        raised := out.failed;
      }
    }

    /** `ALLOCATIONS[key] = alloc`. */
    method Store(key: nat, alloc: Allocation)
      requires Valid()
      modifies this
      ensures Valid() && Model() == Allocations.Store(old(Model()), key, alloc) && ignored == old(ignored)
    {
      if key !in table {
        keys := keys + [key];
      }
      table := table[key := alloc];
    }

    /** `observe_alloc`. */
    method ObserveAlloc(e: CallEvent) returns (raised: bool)
      requires Valid() && e.call.HasNewId()
      modifies this
      ensures Valid() && Model() == Allocations.ObserveAlloc(cfg, old(Model()), e) && ignored == old(ignored)
      ensures Progress(Model(), raised) == Step(cfg, ignored, old(Model()), e, AllocOp)
    {
      var key := e.call.newId;
      var alloc := if key in table then table[key] else Empty;
      alloc := alloc.(ptr := Some(e.call.newPtr), size := Some(e.call.newSize), firstTs := Some(e.ts), firstStack := Some(e.stack));
      Store(key, alloc);
      footprint := footprint + Estimate(alloc, cfg.period);
      raised := CheckHighWaterMark();
    }

    /** `observe_free`. */
    method ObserveFree(e: CallEvent) returns (raised: bool)
      requires Valid() && e.call.HasOldId()
      modifies this
      ensures Valid() && Model() == Allocations.ObserveFree(cfg, old(Model()), e) && ignored == old(ignored)
      ensures Progress(Model(), raised) == Step(cfg, ignored, old(Model()), e, FreeOp)
    {
      var key := e.call.oldId;
      var current := if key in table then table[key] else Empty;
      Store(key, current.(freeTs := Some(e.ts), freeStack := Some(e.stack)));
      footprint := footprint - Estimate(current, cfg.period);
      raised := CheckHighWaterMark();
    }

    /** `observe_realloc`, whose assertion demands equal old and new ids. */
    method ObserveRealloc(e: CallEvent) returns (raised: bool)
      requires Valid() && e.call.HasOldId() && e.call.HasNewId() && e.call.oldId == e.call.newId
      modifies this
      ensures Valid() && Model() == Allocations.ObserveRealloc(cfg, old(Model()), e) && ignored == old(ignored)
      ensures Progress(Model(), raised) == Step(cfg, ignored, old(Model()), e, ReallocOp)
    {
      var key := e.call.oldId;
      var current := if key in table then table[key] else Empty;
      var next := current.(ptr := Some(e.call.newPtr), size := Some(e.call.newSize), lastTs := Some(e.ts), lastStack := Some(e.stack));
      Store(key, next);
      footprint := footprint - Estimate(current, cfg.period);
      footprint := footprint + Estimate(next, cfg.period);
      raised := CheckHighWaterMark();
    }

    /** The body of the loop in `observe_events`; the result says whether a report raised. */
    method ObserveEvent(e: CallEvent) returns (raised: bool)
      requires Valid()
      modifies this
      ensures Valid() && Progress(Model(), raised) == Observe.ObserveEvent(cfg, ignored, old(Model()), e) && ignored == old(ignored)
    {
      lastEvent := if e.ts > lastEvent then e.ts else lastEvent;
      ghost var s1 := Model();
      OpsDispatch(e.call);
      if !CommMatches(e.comm) {
        return false;
      }
      if InPlace(e.call) {
        raised := ObserveRealloc(e);
        ApplyOne(cfg, ignored, s1, e, ReallocOp);
        assert Ops(e.call) == [ReallocOp];
      } else if e.call.HasOldId() && e.call.HasNewId() {
        ApplyTwo(cfg, ignored, s1, e);
        assert Ops(e.call) == [FreeOp, AllocOp];
        raised := ObserveFree(e);
        if raised {
          return;
        }
        raised := ObserveAlloc(e);
      } else if e.call.HasOldId() {
        raised := ObserveFree(e);
        ApplyOne(cfg, ignored, s1, e, FreeOp);
        assert Ops(e.call) == [FreeOp];
      } else {
        raised := ObserveAlloc(e);
        ApplyOne(cfg, ignored, s1, e, AllocOp);
        assert Ops(e.call) == [AllocOp];
      }
    }

    /** `observe_events` over a finite sequence of events; it stops at the first event whose report raises. */
    method ObserveEvents(events: seq<CallEvent>) returns (raised: bool)
      requires Valid()
      modifies this
      ensures Valid() && Progress(Model(), raised) == ObserveAll(cfg, ignored, old(Model()), events) && ignored == old(ignored)
    {
      raised := false;
      var i := 0;
      while i < |events|
        invariant 0 <= i <= |events|
        invariant Valid() && Progress(Model(), false) == ObserveAll(cfg, ignored, old(Model()), events[..i]) && ignored == old(ignored)
      {
        ObserveAllSnoc(cfg, ignored, old(Model()), events, i);
        raised := ObserveEvent(events[i]);
        if raised {
          ObserveAllStops(cfg, ignored, old(Model()), events, i + 1);
          return;
        }
        i := i + 1;
      }
      assert events[..|events|] == events;
    }

    /**
     * `print_old_allocs`: what it prints, and whether a record made it raise;
     * the ignore set is replaced by the records seen only when the loop ran
     * to the end.
     */
    method PrintOldAllocs(allocs: seq<Allocation>, q: Query) returns (out: Printout)
      modifies this`ignored
      ensures out == ScanOld(allocs, old(ignored), q) && ignored == IgnoredAfter(allocs, old(ignored), q)
    {
      var seen: set<Allocation> := {};
      var printed: seq<Allocation> := [];
      for i := 0 to |allocs|
        invariant ScanOld(allocs[..i], ignored, q) == Printout(printed, false)
        invariant seen == Seen(allocs[..i], ignored, q)
        invariant ignored == old(ignored)
      {
        ScanSnoc(allocs, i, OldShows(q, ignored), OldRaises(q, ignored));
        assert allocs[..i + 1][..i] == allocs[..i];
        var alloc := allocs[i];
        if alloc in ignored || q.markIgnored {
          seen := seen + {alloc};
        }
        if alloc.freeTs.None? {
          if alloc.firstTs.None? {
            ScanStops(allocs, i + 1, OldShows(q, ignored), OldRaises(q, ignored));
            return Printout(printed, true);
          }
          var age := q.now - alloc.firstTs.value;
          if !Recent(alloc, q) && age > q.maxAge && alloc !in ignored {
            if AllocLineRaises(alloc) {
              ScanStops(allocs, i + 1, OldShows(q, ignored), OldRaises(q, ignored));
              return Printout(printed, true);
            }
            printed := printed + [alloc];
          }
        }
      }
      assert allocs[..|allocs|] == allocs;
      ignored := seen;
      out := Printout(printed, false);
    }

    /** `print_allocations_at_high_water_mark`: what it prints, and whether sorting the snapshot or a line raised. */
    method PrintHighWaterMark() returns (out: Printout)
      ensures out == HighWaterSelection(cfg.track, snapshot, ignored)
    {
      if !cfg.track || snapshot == [] {
        return Printout([], false);
      }
      var sorted := BySize(snapshot);
      if sorted.None? {
        return Printout([], true);
      }
      var s := sorted.value;
      var printed: seq<Allocation> := [];
      for i := 0 to |s|
        invariant Unignored(s[..i], ignored) == Printout(printed, false)
      {
        ScanSnoc(s, i, ShownShows(ignored), ShownRaises(ignored));
        var alloc := s[i];
        if alloc.freeTs.None? && alloc !in ignored {
          if AllocLineRaises(alloc) {
            ScanStops(s, i + 1, ShownShows(ignored), ShownRaises(ignored));
            return Printout(printed, true);
          }
          printed := printed + [alloc];
        }
      }
      assert s[..|s|] == s;
      out := Printout(printed, false);
    }
  }
}
