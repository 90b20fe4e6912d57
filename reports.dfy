/**
 * What the reports select from the tracked records: the freed regions, the
 * old allocations with the ignore set they leave behind, and the live part
 * of the high-water-mark snapshot, largest first. Printing itself, and the
 * format of each line, are not modelled: a report is the sequence of
 * records it prints.
 */
module Reports {
  import opened Wrappers
  import opened Allocations

  // ---------------------------------------------------------------------
  // What a printed line reads

  /**
   * `print_alloc` formats the size with `%i`, `now - first_ts` with `%f`,
   * and `format_stack(first_stack)`, and for a reallocated record also
   * `format_stack(last_stack)`: each raises a `TypeError` on `None`.
   */
  predicate AllocLineRaises(a: Allocation)
  {
    a.size.None? || a.firstTs.None? || a.firstStack.None? || (a.lastTs.Some? && a.lastStack.None?)
  }

  /**
   * `print_dalloc` formats the pointer, the size, the free time, the free
   * and first stacks and the first time, and for a reallocated record the
   * last stack too: each raises on `None`.
   */
  predicate FreeLineRaises(a: Allocation)
  {
    || a.ptr.None? || a.size.None? || a.freeTs.None? || a.freeStack.None?
    || a.firstStack.None? || a.firstTs.None? || (a.lastTs.Some? && a.lastStack.None?)
  }

  // ---------------------------------------------------------------------
  // A report's loop

  /** What a report's loop printed, and whether an exception ended it. */
  datatype Printout = Printout(printed: seq<Allocation>, failed: bool)

  /**
   * A report's loop over `s`: the first record that `raises` ends it with an
   * exception; up to there, every record that `shows` is printed, in order.
   */
  function Scan(s: seq<Allocation>, shows: Allocation -> bool, raises: Allocation -> bool): Printout
    decreases |s|
  {
    if s == [] then Printout([], false)
    else
      var p := Scan(s[..|s| - 1], shows, raises);
      var a := s[|s| - 1];
      if p.failed then p
      else if raises(a) then Printout(p.printed, true)
      else if shows(a) then Printout(p.printed + [a], false)
      else p
  }

  /** One more record: the loop's state after it, from the state before. */
  lemma ScanSnoc(s: seq<Allocation>, i: nat, shows: Allocation -> bool, raises: Allocation -> bool)
    requires i < |s|
    ensures var p := Scan(s[..i], shows, raises); var a := s[i];
      Scan(s[..i + 1], shows, raises) ==
        if p.failed then p
        else if raises(a) then Printout(p.printed, true)
        else if shows(a) then Printout(p.printed + [a], false)
        else p
  {
    assert s[..i + 1][..i] == s[..i];
  }

  /** A loop fails exactly when some record raises. */
  lemma {:induction false} ScanFails(s: seq<Allocation>, shows: Allocation -> bool, raises: Allocation -> bool)
    ensures Scan(s, shows, raises).failed <==> exists k :: 0 <= k < |s| && raises(s[k])
    decreases |s|
  {
    if s != [] {
      var init := s[..|s| - 1];
      ScanFails(init, shows, raises);
      if Scan(init, shows, raises).failed {
        var k :| 0 <= k < |init| && raises(init[k]);
        assert s[k] == init[k];
      } else if exists k :: 0 <= k < |s| && raises(s[k]) {
        var k :| 0 <= k < |s| && raises(s[k]);
        if k < |init| { assert init[k] == s[k]; }
      }
    }
  }

  /** Whatever is printed is a record of the input that shows and does not raise. */
  lemma {:induction false} ScanPrinted(s: seq<Allocation>, shows: Allocation -> bool, raises: Allocation -> bool, x: Allocation)
    ensures x in Scan(s, shows, raises).printed ==> x in s && shows(x) && !raises(x)
    decreases |s|
  {
    if s != [] {
      var init := s[..|s| - 1];
      ScanPrinted(init, shows, raises, x);
      assert s == init + [s[|s| - 1]];
    }
  }

  /** A loop that runs to the end prints exactly the records that show. */
  lemma {:induction false} ScanExactly(s: seq<Allocation>, shows: Allocation -> bool, raises: Allocation -> bool, x: Allocation)
    requires !Scan(s, shows, raises).failed
    ensures x in Scan(s, shows, raises).printed <==> x in s && shows(x)
    decreases |s|
  {
    if s != [] {
      var init := s[..|s| - 1];
      var a := s[|s| - 1];
      assert !Scan(init, shows, raises).failed && !raises(a);
      ScanExactly(init, shows, raises, x);
      assert s == init + [a];
    }
  }

  /** Once the loop has raised, the records after that change nothing: this is what lets a loop return early. */
  lemma {:induction false} ScanStops(s: seq<Allocation>, j: nat, shows: Allocation -> bool, raises: Allocation -> bool)
    requires j <= |s| && Scan(s[..j], shows, raises).failed
    ensures Scan(s, shows, raises) == Scan(s[..j], shows, raises)
    decreases |s|
  {
    if j < |s| {
      var init := s[..|s| - 1];
      assert init[..j] == s[..j];
      ScanStops(init, j, shows, raises);
    } else {
      assert s[..j] == s;
    }
  }

  /**
   * A loop that fails stops at its first raising record: all it printed is
   * what the records before that one print.
   */
  lemma {:induction false} ScanFirstRaise(s: seq<Allocation>, shows: Allocation -> bool, raises: Allocation -> bool) returns (k: nat)
    requires Scan(s, shows, raises).failed
    ensures k < |s| && raises(s[k]) && !Scan(s[..k], shows, raises).failed
    ensures Scan(s, shows, raises) == Printout(Scan(s[..k], shows, raises).printed, true)
    decreases |s|
  {
    var init := s[..|s| - 1];
    if Scan(init, shows, raises).failed {
      k := ScanFirstRaise(init, shows, raises);
      assert init[..k] == s[..k];
    } else {
      k := |s| - 1;
      assert init == s[..k];
    }
  }

  /** The printed records keep the order of the input: a largest-first input prints largest first. */
  lemma {:induction false} ScanDescending(s: seq<Allocation>, shows: Allocation -> bool, raises: Allocation -> bool)
    requires Descending(s)
    ensures Descending(Scan(s, shows, raises).printed)
    decreases |s|
  {
    if s != [] {
      var init := s[..|s| - 1];
      var a := s[|s| - 1];
      assert Descending(init);
      ScanDescending(init, shows, raises);
      forall y | y in Scan(init, shows, raises).printed ensures Size(y) >= Size(a) {
        ScanPrinted(init, shows, raises, y);
        var j :| 0 <= j < |init| && init[j] == y;
        assert s[j] == y;
      }
    }
  }

  // ---------------------------------------------------------------------
  // print_frees

  /** `alloc.free_ts is not None`: the record `print_frees` prints. */
  function FreedShows(): Allocation -> bool { (a: Allocation) => a.freeTs.Some? }

  /** A freed record whose `print_dalloc` line raises. */
  function FreedRaises(): Allocation -> bool { (a: Allocation) => a.freeTs.Some? && FreeLineRaises(a) }

  /** The loop of `print_frees`. */
  function Frees(allocs: seq<Allocation>): Printout
  {
    Scan(allocs, FreedShows(), FreedRaises())
  }

  /**
   * `print_frees` raises exactly when a freed record lacks a field its line
   * formats; up to there it prints every freed record, in order, and when it
   * runs to the end it has printed exactly the freed records.
   */
  lemma FreesExactly(allocs: seq<Allocation>, x: Allocation)
    ensures Frees(allocs).failed <==> exists k :: 0 <= k < |allocs| && allocs[k].freeTs.Some? && FreeLineRaises(allocs[k])
    ensures !Frees(allocs).failed ==> (x in Frees(allocs).printed <==> x in allocs && x.freeTs.Some?)
    ensures x in Frees(allocs).printed ==> x in allocs && x.freeTs.Some? && !FreeLineRaises(x)
    ensures |Frees(allocs).printed| <= |allocs|
  {
    ScanFails(allocs, FreedShows(), FreedRaises());
    if exists k :: 0 <= k < |allocs| && allocs[k].freeTs.Some? && FreeLineRaises(allocs[k]) {
      var k :| 0 <= k < |allocs| && allocs[k].freeTs.Some? && FreeLineRaises(allocs[k]);
      assert FreedRaises()(allocs[k]);
    }
    if !Frees(allocs).failed {
      ScanExactly(allocs, FreedShows(), FreedRaises(), x);
    }
    ScanPrinted(allocs, FreedShows(), FreedRaises(), x);
    ScanShorter(allocs, FreedShows(), FreedRaises());
  }

  /** A loop prints no more records than it is given. */
  lemma {:induction false} ScanShorter(s: seq<Allocation>, shows: Allocation -> bool, raises: Allocation -> bool)
    ensures |Scan(s, shows, raises).printed| <= |s|
    decreases |s|
  {
    if s != [] { ScanShorter(s[..|s| - 1], shows, raises); }
  }

  /** `print_frees`: the loop, which ends at the first line that raises. */
  method PrintFrees(allocs: seq<Allocation>) returns (out: Printout)
    ensures out == Frees(allocs)
  {
    var printed: seq<Allocation> := [];
    for i := 0 to |allocs|
      invariant Frees(allocs[..i]) == Printout(printed, false)
    {
      ScanSnoc(allocs, i, FreedShows(), FreedRaises());
      var alloc := allocs[i];
      if alloc.freeTs.Some? {
        if FreeLineRaises(alloc) {
          ScanStops(allocs, i + 1, FreedShows(), FreedRaises());
          return Printout(printed, true);
        }
        printed := printed + [alloc];
      }
    }
    assert allocs[..|allocs|] == allocs;
    out := Printout(printed, false);
  }

  // ---------------------------------------------------------------------
  // print_old_allocs

  /** The arguments of `print_old_allocs`, with the time it reads as `now`. */
  datatype Query = Query(maxAge: real, maxStale: Option<real>, markIgnored: bool, now: real)

  /** `stale and max_stale and stale <= max_stale`: reallocated recently enough to be left out. */
  predicate Recent(a: Allocation, q: Query)
  {
    && a.lastTs.Some? && q.now - a.lastTs.value != 0.0
    && q.maxStale.Some? && q.maxStale.value != 0.0
    && q.now - a.lastTs.value <= q.maxStale.value
  }

  /** A live record with no first time: `now - alloc.first_ts` raises for it. */
  predicate Broken(a: Allocation) { a.freeTs.None? && a.firstTs.None? }

  /** A record the report prints: live, old enough, not recently reallocated, and not ignored. */
  predicate Old(a: Allocation, q: Query, ignored: set<Allocation>)
  {
    a.freeTs.None? && a.firstTs.Some? && !Recent(a, q) && q.now - a.firstTs.value > q.maxAge && a !in ignored
  }

  function OldShows(q: Query, ignored: set<Allocation>): Allocation -> bool { (a: Allocation) => Old(a, q, ignored) }

  /** The age of a live record raises without a first time; the line of an old record raises without a field it formats. */
  function OldRaises(q: Query, ignored: set<Allocation>): Allocation -> bool
  {
    (a: Allocation) => Broken(a) || (Old(a, q, ignored) && AllocLineRaises(a))
  }

  /** The loop of `print_old_allocs`. */
  function ScanOld(allocs: seq<Allocation>, ignored: set<Allocation>, q: Query): Printout
  {
    Scan(allocs, OldShows(q, ignored), OldRaises(q, ignored))
  }

  /** The records the loop adds to `seen_ignored`: the ignored ones, or all of them with `mark_ignored`. */
  function Seen(allocs: seq<Allocation>, ignored: set<Allocation>, q: Query): set<Allocation>
    decreases |allocs|
  {
    if allocs == [] then {}
    else
      var a := allocs[|allocs| - 1];
      Seen(allocs[..|allocs| - 1], ignored, q) + (if a in ignored || q.markIgnored then {a} else {})
  }

  /** `IGNORED_ALLOCS` afterwards: the records seen, or the old set when the loop raised before the assignment. */
  function IgnoredAfter(allocs: seq<Allocation>, ignored: set<Allocation>, q: Query): set<Allocation>
  {
    if ScanOld(allocs, ignored, q).failed then ignored else Seen(allocs, ignored, q)
  }

  /**
   * The loop raises exactly when a live record has no first time, or an old
   * record lacks a field its line formats; what it printed up to there are
   * old records whose lines format.
   */
  lemma ScanOldFails(allocs: seq<Allocation>, ignored: set<Allocation>, q: Query, x: Allocation)
    ensures ScanOld(allocs, ignored, q).failed <==>
      exists k :: 0 <= k < |allocs| && (Broken(allocs[k]) || (Old(allocs[k], q, ignored) && AllocLineRaises(allocs[k])))
    ensures x in ScanOld(allocs, ignored, q).printed ==> x in allocs && Old(x, q, ignored) && !AllocLineRaises(x)
  {
    ScanFails(allocs, OldShows(q, ignored), OldRaises(q, ignored));
    if exists k :: 0 <= k < |allocs| && (Broken(allocs[k]) || (Old(allocs[k], q, ignored) && AllocLineRaises(allocs[k]))) {
      var k :| 0 <= k < |allocs| && (Broken(allocs[k]) || (Old(allocs[k], q, ignored) && AllocLineRaises(allocs[k])));
      assert OldRaises(q, ignored)(allocs[k]);
    }
    ScanPrinted(allocs, OldShows(q, ignored), OldRaises(q, ignored), x);
  }

  /** When the loop runs to the end it prints exactly the old records. */
  lemma ScanOldPrinted(allocs: seq<Allocation>, ignored: set<Allocation>, q: Query, x: Allocation)
    requires !ScanOld(allocs, ignored, q).failed
    ensures x in ScanOld(allocs, ignored, q).printed <==> x in allocs && Old(x, q, ignored)
  {
    ScanExactly(allocs, OldShows(q, ignored), OldRaises(q, ignored), x);
  }

  /** The records seen are those of the input that were ignored before, or all of them when `mark_ignored` is set. */
  lemma {:induction false} SeenExactly(allocs: seq<Allocation>, ignored: set<Allocation>, q: Query, x: Allocation)
    ensures x in Seen(allocs, ignored, q) <==> x in allocs && (x in ignored || q.markIgnored)
    decreases |allocs|
  {
    if allocs != [] {
      var init := allocs[..|allocs| - 1];
      SeenExactly(init, ignored, q, x);
      assert allocs == init + [allocs[|allocs| - 1]];
    }
  }

  /** Afterwards the ignore set holds only records that were passed in: entries for records gone from the table are dropped. */
  lemma IgnoredShrinksToInput(allocs: seq<Allocation>, ignored: set<Allocation>, q: Query)
    requires !ScanOld(allocs, ignored, q).failed
    ensures IgnoredAfter(allocs, ignored, q) == set x | x in allocs && (x in ignored || q.markIgnored)
    ensures q.markIgnored ==> IgnoredAfter(allocs, ignored, q) == set x | x in allocs
  {
    forall x ensures x in IgnoredAfter(allocs, ignored, q) <==> x in allocs && (x in ignored || q.markIgnored) {
      SeenExactly(allocs, ignored, q, x);
    }
  }

  /** After a report with `mark_ignored`, a later report over the same records prints none of them. */
  lemma MarkedAreSkipped(allocs: seq<Allocation>, ignored: set<Allocation>, q: Query, q2: Query, x: Allocation)
    requires q.markIgnored && !ScanOld(allocs, ignored, q).failed
    ensures x !in ScanOld(allocs, IgnoredAfter(allocs, ignored, q), q2).printed
  {
    SeenExactly(allocs, ignored, q, x);
    ScanPrinted(allocs, OldShows(q2, IgnoredAfter(allocs, ignored, q)), OldRaises(q2, IgnoredAfter(allocs, ignored, q)), x);
  }

  // ---------------------------------------------------------------------
  // The selection of print_allocations_at_high_water_mark

  /** The sort key; an unset size only reaches a comparison when the list has two records or more. */
  function Size(a: Allocation): nat { if a.size.Some? then a.size.value else 0 }

  /** Puts `x` before the first record no larger than it, so it stays ahead of the equal ones that followed it. */
  function Insert(x: Allocation, t: seq<Allocation>): (r: seq<Allocation>)
    ensures multiset(r) == multiset(t) + multiset{x}
    decreases |t|
  {
    if t == [] || Size(t[0]) <= Size(x) then [x] + t
    else assert t == [t[0]] + t[1..]; [t[0]] + Insert(x, t[1..])
  }

  /** `sorted(..., key=lambda x: x.size, reverse=True)`: stable, largest first. */
  function SortBySize(s: seq<Allocation>): (r: seq<Allocation>)
    ensures multiset(r) == multiset(s)
    decreases |s|
  {
    if s == [] then [] else assert s == [s[0]] + s[1..]; Insert(s[0], SortBySize(s[1..]))
  }

  predicate Descending(s: seq<Allocation>) { forall i, j :: 0 <= i < j < |s| ==> Size(s[i]) >= Size(s[j]) }

  lemma {:induction false} InsertDescending(x: Allocation, t: seq<Allocation>)
    requires Descending(t)
    ensures Descending(Insert(x, t))
    ensures Insert(x, t) != [] && (Insert(x, t)[0] == x || (t != [] && Insert(x, t)[0] == t[0]))
    decreases |t|
  {
    if t != [] && Size(t[0]) > Size(x) {
      InsertDescending(x, t[1..]);
    }
  }

  lemma {:induction false} SortDescending(s: seq<Allocation>)
    ensures Descending(SortBySize(s))
    decreases |s|
  {
    if s != [] {
      SortDescending(s[1..]);
      InsertDescending(s[0], SortBySize(s[1..]));
    }
  }

  /** The records of one size, in order. */
  function OfSize(s: seq<Allocation>, v: nat): seq<Allocation>
    decreases |s|
  {
    if s == [] then [] else (if Size(s[0]) == v then [s[0]] else []) + OfSize(s[1..], v)
  }

  lemma {:induction false} InsertOfSize(x: Allocation, t: seq<Allocation>, v: nat)
    requires Descending(t)
    ensures OfSize(Insert(x, t), v) == (if Size(x) == v then [x] else []) + OfSize(t, v)
    decreases |t|
  {
    if t != [] && Size(t[0]) > Size(x) {
      InsertOfSize(x, t[1..], v);
      var r := Insert(x, t[1..]);
      assert ([t[0]] + r)[1..] == r;
      if Size(t[0]) == v {
        assert Size(x) != v;
      }
    } else if t != [] {
      assert ([x] + t)[1..] == t;
    }
  }

  /** The sort is stable: records of equal size keep their relative order. */
  lemma {:induction false} SortStable(s: seq<Allocation>, v: nat)
    ensures OfSize(SortBySize(s), v) == OfSize(s, v)
    decreases |s|
  {
    if s != [] {
      SortStable(s[1..], v);
      SortDescending(s[1..]);
      InsertOfSize(s[0], SortBySize(s[1..]), v);
    }
  }

  /** `sorted` compares sizes only when there are two records or more; an unset size then raises. */
  function BySize(snapshot: seq<Allocation>): (r: Option<seq<Allocation>>)
  {
    if |snapshot| >= 2 && exists k :: 0 <= k < |snapshot| && snapshot[k].size.None? then None
    else Some(SortBySize(snapshot))
  }

  /** `alloc.free_ts is None and alloc not in IGNORED_ALLOCS`: a sorted record the report prints. */
  predicate Shown(a: Allocation, ignored: set<Allocation>) { a.freeTs.None? && a !in ignored }

  function ShownShows(ignored: set<Allocation>): Allocation -> bool { (a: Allocation) => Shown(a, ignored) }

  /** A shown record whose `print_alloc` line raises. */
  function ShownRaises(ignored: set<Allocation>): Allocation -> bool { (a: Allocation) => Shown(a, ignored) && AllocLineRaises(a) }

  /** The loop of the report over the sorted snapshot. */
  function Unignored(s: seq<Allocation>, ignored: set<Allocation>): Printout
  {
    Scan(s, ShownShows(ignored), ShownRaises(ignored))
  }

  /** What the high-water-mark report prints, and whether sorting the snapshot or printing a line raises. */
  function HighWaterSelection(track: bool, snapshot: seq<Allocation>, ignored: set<Allocation>): Printout
  {
    if !track || snapshot == [] then Printout([], false)
    else match BySize(snapshot)
      case None => Printout([], true)
      case Some(sorted) => Unignored(sorted, ignored)
  }

  /**
   * Over the sorted records the loop raises exactly when a shown record
   * lacks a field its line formats; otherwise it prints exactly the shown
   * records; the printed ones keep the largest-first order.
   */
  lemma UnignoredExactly(s: seq<Allocation>, ignored: set<Allocation>, x: Allocation)
    ensures Unignored(s, ignored).failed <==> exists k :: 0 <= k < |s| && Shown(s[k], ignored) && AllocLineRaises(s[k])
    ensures !Unignored(s, ignored).failed ==> (x in Unignored(s, ignored).printed <==> x in s && Shown(x, ignored))
    ensures x in Unignored(s, ignored).printed ==> x in s && Shown(x, ignored) && !AllocLineRaises(x)
    ensures Descending(s) ==> Descending(Unignored(s, ignored).printed)
  {
    ScanFails(s, ShownShows(ignored), ShownRaises(ignored));
    if exists k :: 0 <= k < |s| && Shown(s[k], ignored) && AllocLineRaises(s[k]) {
      var k :| 0 <= k < |s| && Shown(s[k], ignored) && AllocLineRaises(s[k]);
      assert ShownRaises(ignored)(s[k]);
    }
    if !Unignored(s, ignored).failed {
      ScanExactly(s, ShownShows(ignored), ShownRaises(ignored), x);
    }
    ScanPrinted(s, ShownShows(ignored), ShownRaises(ignored), x);
    if Descending(s) {
      ScanDescending(s, ShownShows(ignored), ShownRaises(ignored));
    }
  }

  /** A raising record of one ordering is a raising record of the other. */
  lemma PermutedRaises(s: seq<Allocation>, t: seq<Allocation>, ignored: set<Allocation>)
    requires multiset(s) == multiset(t)
    ensures (exists k :: 0 <= k < |s| && Shown(s[k], ignored) && AllocLineRaises(s[k]))
        ==> (exists k :: 0 <= k < |t| && Shown(t[k], ignored) && AllocLineRaises(t[k]))
  {
    if exists k :: 0 <= k < |s| && Shown(s[k], ignored) && AllocLineRaises(s[k]) {
      var k :| 0 <= k < |s| && Shown(s[k], ignored) && AllocLineRaises(s[k]);
      var j := SameRecord(s, t, k);
      assert Shown(t[j], ignored) && AllocLineRaises(t[j]);
    }
  }

  /** A record of one ordering is at some index of the other. */
  lemma SameRecord(s: seq<Allocation>, t: seq<Allocation>, k: nat) returns (j: nat)
    requires multiset(s) == multiset(t) && k < |s|
    ensures j < |t| && t[j] == s[k]
  {
    assert s[k] in multiset(s);
    assert s[k] in t;
    j :| 0 <= j < |t| && t[j] == s[k];
  }

  /** The condition under which the high-water-mark report raises: sorting fails, or a shown record's line does. */
  predicate HighWaterRaises(track: bool, snapshot: seq<Allocation>, ignored: set<Allocation>)
  {
    && track && snapshot != []
    && ((|snapshot| >= 2 && exists k :: 0 <= k < |snapshot| && snapshot[k].size.None?)
        || exists k :: 0 <= k < |snapshot| && Shown(snapshot[k], ignored) && AllocLineRaises(snapshot[k]))
  }

  /**
   * The report raises exactly when tracking is on and either a snapshot of
   * two records or more has one without a size, or a live, unignored record
   * lacks a field its line formats. Otherwise it prints exactly the
   * snapshot records that were live when captured and are not ignored,
   * largest first. Without tracking it prints nothing.
   */
  lemma HighWaterSelectionExactly(track: bool, snapshot: seq<Allocation>, ignored: set<Allocation>, x: Allocation)
    ensures var r := HighWaterSelection(track, snapshot, ignored);
      && (r.failed <==> HighWaterRaises(track, snapshot, ignored))
      && (!r.failed && track ==> (x in r.printed <==> x in snapshot && Shown(x, ignored)))
      && (x in r.printed ==> x in snapshot && Shown(x, ignored) && !AllocLineRaises(x))
      && Descending(r.printed)
      && (!track ==> r == Printout([], false))
  {
    if track && snapshot != [] && BySize(snapshot).Some? {
      var sorted := SortBySize(snapshot);
      SortDescending(snapshot);
      UnignoredExactly(sorted, ignored, x);
      PermutedRaises(sorted, snapshot, ignored);
      PermutedRaises(snapshot, sorted, ignored);
      assert x in sorted <==> x in snapshot by {
        assert x in multiset(sorted) <==> x in multiset(snapshot);
      }
    }
  }
}
