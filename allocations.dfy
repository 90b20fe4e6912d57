/**
 * The allocation tracker's state and what each `observe_*` step does to it,
 * as values: the `ALLOCATIONS` dict (its keys in insertion order and its
 * contents), the estimated footprint, the high-water mark with its snapshot,
 * and `LAST_EVENT`. The class in the AllocTracker module updates the same
 * state in place and is proved to follow these functions.
 */
module Allocations {
  import opened Wrappers
  import opened TraceParse
  import opened ProbeCalls

  /** An `Allocation` namedtuple; `None` stands for a field never set. */
  datatype Allocation = Allocation(
    ptr: Option<nat>, size: Option<nat>,
    firstTs: Option<real>, firstStack: Option<seq<Frame>>,
    lastTs: Option<real>, lastStack: Option<seq<Frame>>,
    freeTs: Option<real>, freeStack: Option<seq<Frame>>)

  /** `EMPTY_ALLOCATION`: every field `None`. */
  const Empty := Allocation(None, None, None, None, None, None, None, None)

  /**
   * The settings the tracker reads: whether the high-water mark is tracked,
   * the footprint from which it is reported, and the sampling period in bytes.
   */
  datatype Config = Config(track: bool, after: int, period: nat)

  /** The module's globals. `keys` lists the dict's keys in insertion order. */
  datatype State = State(
    keys: seq<nat>, table: map<nat, Allocation>,
    footprint: int, mark: int, snapshot: seq<Allocation>, lastEvent: real)

  /** The globals when the script starts. */
  const Init := State([], map[], 0, 0, [], 0.0)

  /** The key list and the dict agree, and no key is listed twice. */
  predicate Valid(s: State)
  {
    && (forall k :: k in s.keys ==> k in s.table)
    && (forall k :: k in s.table ==> k in s.keys)
    && (forall i, j :: 0 <= i < j < |s.keys| ==> s.keys[i] != s.keys[j])
  }

  lemma InitValid()
    ensures Valid(Init) && Init.table == map[] && Init.footprint == 0 && Init.mark == 0
  {
  }

  // ---------------------------------------------------------------------
  // estimate_allocation_size

  /** `not alloc.size`: the size is unset or zero. */
  predicate NoSize(a: Allocation) { a.size.None? || a.size.value == 0 }

  /** Each sample stands for at least one sampling period's worth of bytes. */
  function Estimate(a: Allocation, period: nat): (r: nat)
    ensures r == 0 <==> NoSize(a)
    ensures !NoSize(a) ==> r >= a.size.value && r >= period && (r == a.size.value || r == period)
  {
    if NoSize(a) then 0 else if a.size.value >= period then a.size.value else period
  }

  // ---------------------------------------------------------------------
  // The dict

  /** `ALLOCATIONS.get(key, EMPTY_ALLOCATION)`. */
  function Lookup(s: State, key: nat): Allocation
  {
    if key in s.table then s.table[key] else Empty
  }

  /** `ALLOCATIONS[key] = a`: a new key goes to the end of the order, an existing one keeps its place. */
  function Store(s: State, key: nat, a: Allocation): (r: State)
    ensures r.table == s.table[key := a]
    ensures r.footprint == s.footprint && r.mark == s.mark && r.snapshot == s.snapshot && r.lastEvent == s.lastEvent
  {
    s.(keys := if key in s.table then s.keys else s.keys + [key], table := s.table[key := a])
  }

  lemma StoreValid(s: State, key: nat, a: Allocation)
    requires Valid(s)
    ensures Valid(Store(s, key, a))
    ensures s.keys <= Store(s, key, a).keys
  {
  }

  /** `not record.free_ts`: never freed, or freed at time zero (a falsy float). */
  predicate Live(a: Allocation) { a.freeTs.None? || a.freeTs.value == 0.0 }

  /** `[record for record in ALLOCATIONS.values() if not record.free_ts]`, in dict order. */
  function LiveOf(keys: seq<nat>, table: map<nat, Allocation>): (r: seq<Allocation>)
    requires forall k :: k in keys ==> k in table
    ensures |r| <= |keys|
    decreases |keys|
  {
    if keys == [] then []
    else
      var rest := LiveOf(keys[..|keys| - 1], table);
      var a := table[keys[|keys| - 1]];
      if Live(a) then rest + [a] else rest
  }

  /** The snapshot holds exactly the live records of the dict. */
  lemma {:induction false} LiveOfExact(keys: seq<nat>, table: map<nat, Allocation>, x: Allocation)
    requires forall k :: k in keys ==> k in table
    ensures x in LiveOf(keys, table) <==> Live(x) && exists k :: k in keys && table[k] == x
    decreases |keys|
  {
    if keys != [] {
      var init := keys[..|keys| - 1];
      var last := keys[|keys| - 1];
      LiveOfExact(init, table, x);
      if x in LiveOf(keys, table) {
        if x !in LiveOf(init, table) {
          assert table[last] == x;
        } else {
          var k :| k in init && table[k] == x;
          assert k in keys;
        }
      }
      if Live(x) && exists k :: k in keys && table[k] == x {
        var k :| k in keys && table[k] == x;
        if k != last {
          assert k in init by {
            var i :| 0 <= i < |keys| && keys[i] == k;
            assert i < |keys| - 1;
            assert init[i] == k;
          }
        }
      }
    }
  }

  lemma LiveSnapshot(s: State, x: Allocation)
    requires Valid(s)
    ensures x in LiveOf(s.keys, s.table) <==> Live(x) && exists k :: k in s.table && s.table[k] == x
  {
    LiveOfExact(s.keys, s.table, x);
  }

  // ---------------------------------------------------------------------
  // check_high_water_mark

  /**
   * When tracking is on and the footprint has grown past the mark, the mark
   * rises to the footprint and the live records are captured; otherwise
   * nothing changes. The table, the footprint and the clock are never touched.
   */
  function CheckHighWaterMark(cfg: Config, s: State): (r: State)
    requires Valid(s)
    ensures r.keys == s.keys && r.table == s.table && r.footprint == s.footprint && r.lastEvent == s.lastEvent
    ensures r.mark >= s.mark
    ensures cfg.track ==> r.mark >= s.footprint
  {
    if !cfg.track || s.mark >= s.footprint then s
    else s.(mark := s.footprint, snapshot := LiveOf(s.keys, s.table))
  }

  /** The mark moves exactly when tracking is on and the footprint exceeds it, and then the snapshot is retaken. */
  lemma CheckUpdates(cfg: Config, s: State)
    requires Valid(s)
    ensures var r := CheckHighWaterMark(cfg, s);
      && (r.mark != s.mark <==> cfg.track && s.footprint > s.mark)
      && (r.mark != s.mark ==> r.mark == s.footprint && r.snapshot == LiveOf(s.keys, s.table))
      && (r.mark == s.mark ==> r.snapshot == s.snapshot)
  {
  }

  /** Whether the check goes on to print the snapshot: it was retaken and the mark has reached the reporting threshold. */
  predicate Announces(cfg: Config, s: State)
  {
    cfg.track && s.mark < s.footprint && s.footprint >= cfg.after
  }

  // ---------------------------------------------------------------------
  // observe_alloc, observe_free, observe_realloc

  /** `observe_alloc`: the bucket `new_id` gets the new pointer, size, time and stack; its other fields are kept. */
  function ObserveAlloc(cfg: Config, s: State, e: CallEvent): (r: State)
    requires Valid(s) && e.call.HasNewId()
    ensures Valid(r) && s.keys <= r.keys && r.mark >= s.mark && r.lastEvent == s.lastEvent
    ensures cfg.track ==> r.mark >= r.footprint
  {
    var key := e.call.newId;
    var a := Lookup(s, key).(ptr := Some(e.call.newPtr), size := Some(e.call.newSize), firstTs := Some(e.ts), firstStack := Some(e.stack));
    StoreValid(s, key, a);
    var s1 := Store(s, key, a);
    CheckHighWaterMark(cfg, s1.(footprint := s1.footprint + Estimate(a, cfg.period)))
  }

  /** `observe_free`: the bucket `old_id` gets the free time and stack, even when it held nothing before. */
  function ObserveFree(cfg: Config, s: State, e: CallEvent): (r: State)
    requires Valid(s) && e.call.HasOldId()
    ensures Valid(r) && s.keys <= r.keys && r.mark >= s.mark && r.lastEvent == s.lastEvent
    ensures cfg.track ==> r.mark >= r.footprint
  {
    var key := e.call.oldId;
    var current := Lookup(s, key);
    StoreValid(s, key, current.(freeTs := Some(e.ts), freeStack := Some(e.stack)));
    var s1 := Store(s, key, current.(freeTs := Some(e.ts), freeStack := Some(e.stack)));
    CheckHighWaterMark(cfg, s1.(footprint := s1.footprint - Estimate(current, cfg.period)))
  }

  /** `observe_realloc`, for a call whose old and new ids agree: the bucket gets the new pointer, size, time and stack. */
  function ObserveRealloc(cfg: Config, s: State, e: CallEvent): (r: State)
    requires Valid(s) && e.call.HasOldId() && e.call.HasNewId() && e.call.oldId == e.call.newId
    ensures Valid(r) && s.keys <= r.keys && r.mark >= s.mark && r.lastEvent == s.lastEvent
    ensures cfg.track ==> r.mark >= r.footprint
  {
    var key := e.call.oldId;
    var current := Lookup(s, key);
    var next := current.(ptr := Some(e.call.newPtr), size := Some(e.call.newSize), lastTs := Some(e.ts), lastStack := Some(e.stack));
    StoreValid(s, key, next);
    var s1 := Store(s, key, next);
    CheckHighWaterMark(cfg, s1.(footprint := s1.footprint - Estimate(current, cfg.period) + Estimate(next, cfg.period)))
  }

  /**
   * An allocation writes only bucket `new_id`: it sets pointer, size and
   * first time and stack, keeps the realloc and free fields of a record
   * already there, and adds that record's estimate to the footprint.
   */
  lemma ObserveAllocEffect(cfg: Config, s: State, e: CallEvent)
    requires Valid(s) && e.call.HasNewId()
    ensures var r := ObserveAlloc(cfg, s, e); var key := e.call.newId; var before := Lookup(s, key);
      && Valid(r) && s.keys <= r.keys
      && r.table.Keys == s.table.Keys + {key}
      && (forall k :: k in s.table && k != key ==> r.table[k] == s.table[k])
      && r.table[key].ptr == Some(e.call.newPtr) && r.table[key].size == Some(e.call.newSize)
      && r.table[key].firstTs == Some(e.ts) && r.table[key].firstStack == Some(e.stack)
      && r.table[key].lastTs == before.lastTs && r.table[key].lastStack == before.lastStack
      && r.table[key].freeTs == before.freeTs && r.table[key].freeStack == before.freeStack
      && r.footprint == s.footprint + Estimate(r.table[key], cfg.period)
      && r.mark >= s.mark && r.lastEvent == s.lastEvent
  {
    var key := e.call.newId;
    var a := Lookup(s, key).(ptr := Some(e.call.newPtr), size := Some(e.call.newSize), firstTs := Some(e.ts), firstStack := Some(e.stack));
    StoreValid(s, key, a);
  }

  /**
   * A free writes only bucket `old_id`: it sets the free time and stack,
   * keeps every other field (an absent bucket becomes an otherwise empty
   * record), and takes the previous record's estimate off the footprint.
   */
  lemma ObserveFreeEffect(cfg: Config, s: State, e: CallEvent)
    requires Valid(s) && e.call.HasOldId()
    ensures var r := ObserveFree(cfg, s, e); var key := e.call.oldId; var before := Lookup(s, key);
      && Valid(r) && s.keys <= r.keys
      && r.table.Keys == s.table.Keys + {key}
      && (forall k :: k in s.table && k != key ==> r.table[k] == s.table[k])
      && r.table[key] == before.(freeTs := Some(e.ts), freeStack := Some(e.stack))
      && (key !in s.table ==> r.table[key] == Empty.(freeTs := Some(e.ts), freeStack := Some(e.stack)))
      && r.footprint == s.footprint - Estimate(before, cfg.period)
      && r.mark >= s.mark && r.lastEvent == s.lastEvent
  {
    var key := e.call.oldId;
    StoreValid(s, key, Lookup(s, key).(freeTs := Some(e.ts), freeStack := Some(e.stack)));
  }

  /**
   * A realloc within one bucket keeps the key, the first and free fields,
   * replaces pointer, size and last time and stack, and moves the footprint
   * by the new record's estimate less the old one's.
   */
  lemma ObserveReallocEffect(cfg: Config, s: State, e: CallEvent)
    requires Valid(s) && e.call.HasOldId() && e.call.HasNewId() && e.call.oldId == e.call.newId
    ensures var r := ObserveRealloc(cfg, s, e); var key := e.call.oldId; var before := Lookup(s, key);
      && Valid(r) && s.keys <= r.keys
      && r.table.Keys == s.table.Keys + {key}
      && (forall k :: k in s.table && k != key ==> r.table[k] == s.table[k])
      && r.table[key].ptr == Some(e.call.newPtr) && r.table[key].size == Some(e.call.newSize)
      && r.table[key].lastTs == Some(e.ts) && r.table[key].lastStack == Some(e.stack)
      && r.table[key].firstTs == before.firstTs && r.table[key].firstStack == before.firstStack
      && r.table[key].freeTs == before.freeTs && r.table[key].freeStack == before.freeStack
      && r.footprint == s.footprint + Estimate(r.table[key], cfg.period) - Estimate(before, cfg.period)
      && r.mark >= s.mark && r.lastEvent == s.lastEvent
  {
    var key := e.call.oldId;
    var current := Lookup(s, key);
    StoreValid(s, key, current.(ptr := Some(e.call.newPtr), size := Some(e.call.newSize), lastTs := Some(e.ts), lastStack := Some(e.stack)));
  }

  /** Allocating a bucket and then freeing it leaves the footprint where it was, and the bucket freed. */
  lemma AllocThenFree(cfg: Config, s: State, a: CallEvent, f: CallEvent)
    requires Valid(s) && a.call.HasNewId() && f.call.HasOldId() && f.call.oldId == a.call.newId
    ensures var r := ObserveFree(cfg, ObserveAlloc(cfg, s, a), f);
      r.footprint == s.footprint && r.table[f.call.oldId].freeTs == Some(f.ts)
  {
    ObserveAllocEffect(cfg, s, a);
    ObserveFreeEffect(cfg, ObserveAlloc(cfg, s, a), f);
  }

  // ---------------------------------------------------------------------
  // observe_events

  /** `re.match(COMM_PATTERN, comm)` with the pattern `.*`, which matches at the start of every string. */
  predicate CommMatches(comm: string) { true }

  /** `call.old_id == call.new_id`, both present: the call is handled as a realloc in place. */
  predicate InPlace(c: Call) { c.HasOldId() && c.HasNewId() && c.oldId == c.newId }

  /** The three bucket-level steps `observe_events` chooses from. */
  datatype Op = ReallocOp | FreeOp | AllocOp

  /** The steps an event's call runs, in order: a realloc in place, or a free of the old id and then an allocation of the new id. */
  function Ops(c: Call): seq<Op>
  {
    if InPlace(c) then [ReallocOp]
    else (if c.HasOldId() then [FreeOp] else []) + (if c.HasNewId() then [AllocOp] else [])
  }

  /** A step can run on a call: the call carries the ids the step reads. */
  predicate Fits(op: Op, c: Call)
  {
    match op
    case ReallocOp => InPlace(c)
    case FreeOp => c.HasOldId()
    case AllocOp => c.HasNewId()
  }

  /** The bucket a step writes. */
  function Bucket(op: Op, c: Call): nat
    requires Fits(op, c)
  {
    match op
    case AllocOp => c.newId
    case _ => c.oldId
  }

  /** The realloc path runs exactly for a call with equal old and new ids; otherwise the free runs iff there is an old id, before the allocation, which runs iff there is a new id. */
  lemma OpsDispatch(c: Call)
    ensures Ops(c) != [] && forall op :: op in Ops(c) ==> Fits(op, c)
    ensures ReallocOp in Ops(c) <==> InPlace(c)
    ensures InPlace(c) ==> Ops(c) == [ReallocOp]
    ensures FreeOp in Ops(c) <==> c.HasOldId() && !InPlace(c)
    ensures AllocOp in Ops(c) <==> c.HasNewId() && !InPlace(c)
    ensures FreeOp in Ops(c) && AllocOp in Ops(c) ==> Ops(c) == [FreeOp, AllocOp]
  {
  }

  function Do(cfg: Config, s: State, e: CallEvent, op: Op): (r: State)
    requires Valid(s) && Fits(op, e.call)
    ensures Valid(r) && s.keys <= r.keys && r.mark >= s.mark && r.lastEvent == s.lastEvent
    ensures cfg.track ==> r.mark >= r.footprint
  {
    match op
    case ReallocOp => ObserveRealloc(cfg, s, e)
    case FreeOp => ObserveFree(cfg, s, e)
    case AllocOp => ObserveAlloc(cfg, s, e)
  }

  /** What a run of steps leaves: the dict gains `written`, and no other bucket changes. */
  predicate WritesOnly(s: State, r: State, written: set<nat>)
  {
    && r.table.Keys == s.table.Keys + written
    && forall k :: k in s.table && k !in written ==> r.table[k] == s.table[k]
  }

  lemma WritesOnlyThen(s: State, m: State, r: State, a: set<nat>, b: set<nat>)
    requires WritesOnly(s, m, a) && WritesOnly(m, r, b)
    ensures WritesOnly(s, r, a + b)
  {
  }

  /** Each step writes its own bucket and no other. */
  lemma DoBucket(cfg: Config, s: State, e: CallEvent, op: Op)
    requires Valid(s) && Fits(op, e.call)
    ensures WritesOnly(s, Do(cfg, s, e, op), {Bucket(op, e.call)})
  {
    match op
    case ReallocOp => ObserveReallocEffect(cfg, s, e);
    case FreeOp => ObserveFreeEffect(cfg, s, e);
    case AllocOp => ObserveAllocEffect(cfg, s, e);
  }

  /** The buckets a run of steps writes. */
  function Buckets(ops: seq<Op>, c: Call): set<nat>
    requires forall op :: op in ops ==> Fits(op, c)
    decreases |ops|
  {
    if ops == [] then {} else assert ops[0] in ops; {Bucket(ops[0], c)} + Buckets(ops[1..], c)
  }

  /** The buckets a call may write: its old id and its new id, when it has them. */
  function Touched(c: Call): set<nat>
  {
    (if c.HasOldId() then {c.oldId} else {}) + (if c.HasNewId() then {c.newId} else {})
  }

  lemma OpsBuckets(c: Call)
    ensures forall op :: op in Ops(c) ==> Fits(op, c)
    ensures Buckets(Ops(c), c) == Touched(c)
  {
    OpsDispatch(c);
    var ops := Ops(c);
    if |ops| == 2 {
      assert ops[1..] == [AllocOp] && ops[1..][1..] == [];
      assert Buckets(ops[1..], c) == {c.newId};
      assert Buckets(ops, c) == {c.oldId} + {c.newId};
    } else {
      assert ops[1..] == [];
      assert Buckets(ops, c) == {Bucket(ops[0], c)};
    }
  }
}
