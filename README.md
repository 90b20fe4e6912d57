# poireau in Dafny

poireau is a sampling heap profiler. Its C library samples about one
allocation per 32 MiB of requested bytes. Each sampled allocation gets its
own 1 GiB-aligned mapping, so `free` can tell it apart cheaply. The library
fires a USDT probe on every allocation, free and reallocation of a sampled
object. The Python script `poireau.py` reads the `perf` trace those probes
produce. It turns the trace into events, decodes each probe call and tracks
the live sampled allocations, with an estimate of the heap footprint and a
snapshot at its high-water mark. On request it reports the old allocations,
the freed ones and the allocations at the high-water mark.

This project models that pipeline and proves properties of the model.

- **Text** (`text.dfy`): the Python string operations the script relies on.
  These are `str.rstrip`, `str.split()`, `str.split(c)`, `str.replace`,
  `", ".join`, `int`, `int(s, 16)`, `str(n)` and `float`, plus character
  classes and runs. The same file holds **Words**, the 64-bit unsigned
  arithmetic of the C code.
- **TraceParse** (`trace_parse.dfy`): the three event-line formats and the
  two frame-line formats. Each regular expression is a recogniser that
  returns the spans of its groups; each greedy group is proved to end at
  the last place that still admits a match. EVENT_PATTERN is proved sound:
  every match is a line built from parts its groups admit. It is proved
  complete for calls without `/`: such a line matches, and the groups are
  its parts. For NEW_EVENT_PATTERN, SCRIPT_EVENT_PATTERN and the two frame
  patterns the model proves completeness on lines built from restricted
  parts, and that every match lies inside the line. Each restriction is on
  a "Left out" line that starts with the names of the lemmas it limits. `parse_event` and
  `parse_frame` sit on top of them; for plain lines the whole header they
  return is proved.
- **TraceSegment** (`trace_segment.dfy`): the `segment_trace` generator. It
  is a method with a loop, proved against a fold over the lines.
- **ProbeCalls** (`probe_calls.dfy`): the `_make_pattern` patterns, the
  handler table and its typed calls, and `parse_event_calls`. A probe line
  in either newer format is proved to reach its handler with its arguments.
- **Allocations** (`allocations.dfy`): the analyser's state and the
  `observe_*` and `check_high_water_mark` updates, all as functions on a
  state value.
- **Reports** (`reports.dfy`): what `print_frees`, `print_old_allocs` and
  the high-water-mark report print, and when they raise. A report is the
  sequence of records it prints up to the first record whose line raises a
  `TypeError`, and whether one did.
- **Observe** (`observe.dfy`): the loop of `observe_events`, with the
  exception the high-water-mark report can raise inside
  `check_high_water_mark`. An exception ends the loop and the script.
- **AllocTracker** (`tracker.dfy`): the script's globals as the fields of a
  `Tracker` object. Its methods update the fields in place. Each method is
  proved to leave the state, and the exception, that the Allocations,
  Observe or Reports function describes.
- **TrackedAlloc** (`tracked_alloc.dfy`): the tracked-allocation subsystem
  in `tracked_alloc.c` and `tracked_alloc.h`. What `mmap` answers is an
  input, and the `munmap` calls a routine makes are part of its result. The
  tables are arrays in a `Tables` class.
- **Sample** (`sample.dfy`): the countdown of `sample_request`, in both the
  portable and the x86-64 versions.

## Decisions

A few places where the code says less, or other than, its comments:

- **Running the script.** The script's globals are the `Tracker`'s fields.
  The command-line settings are a `Config` value: `TRACK_HIGH_WATER_MARK`,
  `TRACK_HIGH_WATER_MARK_AFTER` and `ALLOCATION_SAMPLING_BYTE_PERIOD`.
- **Clock.** "Now" is either `LAST_EVENT` or `time.monotonic()`. It is a
  field of the report query, because the clock is not modelled.
- **Timestamps.** Timestamps and ages are exact reals rather than floats.
- **Timestamps are divided by 1000 in every format.** `parse_event` reads
  every stamp as milliseconds, including the script format's, which
  `perf script` already prints in seconds. The model keeps the division
  (`StampValue`, `ParseScriptHeader`).
- **Live records.** `check_high_water_mark` keeps the records whose
  `free_ts` is falsy, which includes a free time of `0.0`.
  `print_allocations_at_high_water_mark` tests `free_ts is None`. The model
  keeps both tests as written.
- **Reports can raise.** `print_alloc` formats the size, the age and the
  first stack, and the last stack of a reallocated record; `print_dalloc`
  also formats the pointer, the free time and the free stack. Each raises a
  `TypeError` on `None` (`AllocLineRaises`, `FreeLineRaises`). So does
  `now - alloc.first_ts` in `print_old_allocs`. A report that raises has
  printed the records before the one that raised. `print_old_allocs` then
  does not reassign `IGNORED_ALLOCS`; the model returns `failed` and keeps
  the old set.
- **The exception ends the script.** The high-water-mark report runs
  inside `check_high_water_mark`, at the end of every `observe_*` call. If
  it raises, the exception leaves `observe_events`, and the `__main__`
  block catches only `KeyboardInterrupt`. So no later event is observed,
  and for an event with two ids an exception in the free skips the
  allocation. `Observe.Progress.raised` records this.
- **Reallocating an absent bucket.** `observe_realloc` on a bucket that is
  not in the dict stores a live record without a first time or first
  stack. The next high-water-mark report that shows it raises, which
  `HighWaterRaises` covers, as does the next `print_old_allocs`.
- **Sorting by size.** `sorted(..., key=size)` raises on a `None` size only
  when it has two records or more to compare. `BySize` returns `None` in
  exactly that case.
- **Parsing each line once.** `segment_trace` calls `parse_event` or
  `parse_frame` on a line depending on whether it holds an event.
  `SegmentTrace` classifies every non-blank line both ways up front
  (`Classify`), and uses each result only where the generator would have
  computed it. Both parsers are pure, so the events yielded are the same.
- **Script-format timestamps.** The timestamp group of
  `SCRIPT_EVENT_PATTERN` is `[0-9]+.[0-9]+`, with an unescaped dot.
  `TraceParse.ParseScriptLine` shows the consequence: a dotless timestamp
  is accepted by the script pattern, but the rewritten line is then
  refused.

## Model

| member | source | states |
|---|---|---|
| Words.Add | src/tracked_alloc.c:56-57 | 64-bit unsigned addition: the exact sum below 2^64, the sum less 2^64 above it |
| Words.Sub | src/sample.h:73-74 | 64-bit unsigned subtraction: the exact difference when no borrow occurs, the difference plus 2^64 when one does |
| Text.RStrip | scripts/poireau.py:185 | `line.rstrip()` is a prefix of the line, only whitespace was removed, and it does not end in whitespace |
| Text.Split | scripts/poireau.py:146 | `str.split()` gives non-empty words without whitespace, and no words exactly for an all-whitespace string |
| Text.SplitWord | scripts/poireau.py:146 | `str.split()` of blanks, a word and a rest that is empty or starts with a blank is that word followed by the split of the rest: the words are the maximal runs of non-blanks, in order |
| Text.SplitJoin | scripts/poireau.py:146 | `str.split()` gives back the words that `" ".join` put together, when they are non-empty and blank-free |
| Text.SplitAvoids | scripts/poireau.py:146 | a character absent from the string is absent from every word of its split |
| Text.Replace | scripts/poireau.py:147 | `param.replace("=", ": ")` leaves a string without `=` unchanged, turns a lone `=` into the replacement, and adds no characters besides those of the replacement |
| Text.ReplaceAppend | scripts/poireau.py:147 | `str.replace` of a concatenation is the concatenation of the replacements |
| Text.SplitOn | scripts/poireau.py:147 | `s.split(c)` gives at least one piece, and no piece holds `c` |
| Text.SplitOnJoin | scripts/poireau.py:147 | joining the pieces of `s.split(c)` with `c` gives `s` back |
| Text.ReplaceIsJoinOfSplit | scripts/poireau.py:147 | `s.replace(c, t)` is exactly `t.join(s.split(c))`: every `c`, and nothing else, is replaced by `t` |
| Text.JoinPrefixed | scripts/poireau.py:148 | `sep.join([x] + ys)` is `x` followed by each of `ys` after `sep` |
| Text.Decimal | scripts/poireau.py:146 | `str(n)` is a non-empty digit string whose value is `n` |
| TraceParse.LeadingStamp | scripts/poireau.py:111-113 | the `\s*[0-9]+\.[0-9]* ` prefix of an event line: the dot and the following space lie in order inside the line |
| TraceParse.MatchEvent | scripts/poireau.py:111-113 | EVENT_PATTERN's full match; the proved properties are in the rows below |
| TraceParse.EventRoundTrip | scripts/poireau.py:111-113 | an event line built from its parts (stamp, comm, tid, call without `/`) matches EVENT_PATTERN and captures exactly those parts |
| TraceParse.MatchEventSound | scripts/poireau.py:111-113 | every EVENT_PATTERN match is the rendering of parts each group admits, and its groups are exactly those parts |
| TraceParse.EventCommEndIsLast | scripts/poireau.py:111-113 | the greedy comm group of EVENT_PATTERN ends at the last place that admits the rest of the pattern: no later end does |
| TraceParse.ParseRenderedEvent | scripts/poireau.py:128-154 | `parse_event` on an event line rendered from a stamp, a comm, a tid and a call without `/` returns the stamp (as milliseconds) divided by 1000, the comm, the tid as a number and the call text |
| TraceParse.MatchNew | scripts/poireau.py:116-119 | NEW_EVENT_PATTERN's full match: its hex address group is lower-case hex inside the line |
| TraceParse.NewCommEndIsLast | scripts/poireau.py:116-119 | the greedy comm group of NEW_EVENT_PATTERN ends at the last place that admits a match of the rest |
| TraceParse.NewEndIsLast | scripts/poireau.py:116-119 | the greedy head group ends at the last colon that admits the address and arguments after it |
| TraceParse.MatchNewExact | scripts/poireau.py:116-119 | a newer-format line built from plain parts matches NEW_EVENT_PATTERN with its head, address and argument groups at exactly those parts |
| TraceParse.RewrittenArgsOnOneLine | scripts/poireau.py:146-147 | the rewritten argument list (`__probe_ip=<decimal>` and each `argK=v` with `=` turned into `: `) holds no newline |
| TraceParse.BracketedArgsOnOneLine | scripts/poireau.py:148 | the `", "`-joined arguments inside the brackets hold no newline |
| TraceParse.RewriteLayout | scripts/poireau.py:148 | the rewrite of any newer-format match keeps the head of the line character for character and closes it with a one-line `(...)` |
| TraceParse.RewriteMatchesEvent | scripts/poireau.py:139-150 | the rewrite of any newer-format line, with any arguments, matches EVENT_PATTERN and keeps the leading stamp |
| TraceParse.NewToEventStamp | scripts/poireau.py:139-154 | any newer-format line yields a header, whose timestamp is the line's leading stamp divided by 1000 |
| TraceParse.ParsedStampInSeconds | scripts/poireau.py:128-154 | `parse_event` accepts every line either perf-trace pattern matches, and the header's timestamp is the leading stamp divided by 1000 |
| TraceParse.NewRoundTrip | scripts/poireau.py:116-119 | a newer-format line built from any parts matches NEW_EVENT_PATTERN and yields a header with the stamp's value divided by 1000 |
| TraceParse.ReplaceProbeIp | scripts/poireau.py:146-147 | `__probe_ip=` and a decimal address become `__probe_ip: ` and the address |
| TraceParse.RewriteRendered | scripts/poireau.py:139-148 | the rewrite of a newer-format line built from plain parts is `stamp comm/tid name(__probe_ip: D, arg1: v1, ...)`, with the address D in decimal |
| TraceParse.NewCallShape | scripts/poireau.py:111-148 | that call text has the `name(...)` shape EVENT_PATTERN asks of its call group and holds no slash |
| TraceParse.NewToEventHeader | scripts/poireau.py:139-154 | such a line yields the full header: the stamp divided by 1000, the comm, the tid as a number and the rewritten call |
| TraceParse.ParseNewLine | scripts/poireau.py:128-154 | `parse_event` on such a line whose arguments do not end in `)` returns that full header |
| TraceParse.ReplaceEach | scripts/poireau.py:147 | the list comprehension replaces `=` in every argument and keeps their number |
| TraceParse.MatchScript | scripts/poireau.py:122-125 | SCRIPT_EVENT_PATTERN's full match: all of its groups lie inside the line |
| TraceParse.ScriptCommEndIsLast | scripts/poireau.py:122-125 | the greedy comm group of SCRIPT_EVENT_PATTERN ends at the last place that admits a match of the rest |
| TraceParse.StampShapeIsStamp | scripts/poireau.py:123 | a script timestamp group `[0-9]+.[0-9]+` is a perf-trace stamp exactly when it holds a dot |
| TraceParse.NoDotNoStamp | scripts/poireau.py:111-119 | a dotless timestamp at the head of the reordered line leaves it without a leading stamp, so neither event pattern matches |
| TraceParse.ParseScriptLine | scripts/poireau.py:141-154 | on a script-format line, `parse_event` yields a header exactly when the timestamp group holds a dot, with that group's value divided by 1000 |
| TraceParse.ParseScriptHeader | scripts/poireau.py:141-154 | on a script-format line with plain pieces and a dotted timestamp, `parse_event` returns the full header: the timestamp divided by 1000, the comm, the pid group as the tid and the rewritten call |
| TraceParse.MatchFrame | scripts/poireau.py:157 | FRAME_PATTERN's full match: the symbol and dso groups lie inside the line |
| TraceParse.MatchTraceFrame | scripts/poireau.py:159-161 | TRACE_FRAME_PATTERN's full match, with the offset group either capturing as written or not capturing as intended; its groups lie inside the line |
| TraceParse.TraceCaptures | scripts/poireau.py:159-161 | on a rendered perf-trace frame, the pattern captures the symbol, the offset and the dso |
| TraceParse.MatchTraceFramePlaced | scripts/poireau.py:159-161 | a perf-trace frame built from its parts matches TRACE_FRAME_PATTERN at exactly those parts, the lazy symbol stopping where the offset starts, whether the offset group captures or not |
| TraceParse.TraceFrameRoundTrip | scripts/poireau.py:159-177 | `parse_frame` as written puts the offset text (or None) where the dso belongs; the corrected pattern returns the symbol and the dso |
| TraceParse.DocumentedTraceFrame | scripts/poireau.py:164-177 | the docstring's example frame (twelve blanks, `7f4d353bd14d`, `sampled_malloc+0x59`, `(/opt/backtrace/lib/libpoireau.so)`) parses as written to (`sampled_malloc`, `+0x59`), and corrected to (`sampled_malloc`, the library path) |
| TraceParse.PlainIsNoTraceFrame | scripts/poireau.py:159-161 | a frame line whose symbol is not an address followed by a blank never matches TRACE_FRAME_PATTERN, so `parse_frame` falls back to FRAME_PATTERN; the indent is the leading whitespace |
| TraceParse.MatchFramePlaced | scripts/poireau.py:157 | such a frame line, built from parts, matches FRAME_PATTERN with the symbol and dso groups at exactly those parts and no address group |
| TraceParse.PlainFrameRoundTrip | scripts/poireau.py:164-177 | both readings of `parse_frame` return exactly the symbol and dso of such a frame line |
| TraceSegment.SegmentTrace | scripts/poireau.py:180-195 | the generator's loop yields exactly the events of the fold of the per-line Step over the trace |
| TraceSegment.YieldsOnlyOnNonFrame | scripts/poireau.py:186-195 | a line yields an event exactly when one is held and the line is neither blank nor a frame, and what it yields is the held header with its frames |
| TraceSegment.YieldedPrefix | scripts/poireau.py:180-195 | what has been yielded stays yielded: later lines only append |
| TraceSegment.FeedKeepsIdle | scripts/poireau.py:183-195 | while no event is held, no frames are held either |
| TraceSegment.BlankLinesIgnored | scripts/poireau.py:185 | dropping the lines that are empty after `rstrip` changes neither what is yielded nor what is held |
| TraceSegment.ClassifyBlank | scripts/poireau.py:185 | a line is skipped exactly when it is empty or all whitespace |
| TraceSegment.FeedAppend | scripts/poireau.py:185-195 | feeding two runs of lines is feeding their concatenation |
| TraceSegment.FeedFrames | scripts/poireau.py:189-191 | frame lines under a held event extend its stack in order and yield nothing |
| TraceSegment.SegmentBlocks | scripts/poireau.py:180-195 | for a trace made of header-and-frames blocks, every block but the last is yielded as its header with its frames, in order, and the last one is still held at the end |
| TraceSegment.SegmentBlocksYield | scripts/poireau.py:180-195 | the generator run on such a trace returns exactly those events: the last event of the input is never yielded |
| ProbeCalls.Tags | scripts/poireau.py:202-208 | `_make_pattern(name, n)` has n + 1 literal pieces, each followed by a `\d+` |
| ProbeCalls.MatchPattern | scripts/poireau.py:202-208 | a full match of `_make_pattern(name, n)` captures exactly n arguments |
| ProbeCalls.MatchPatternComplete | scripts/poireau.py:202-208 | a probe call rendered with a decimal address and decimal arguments matches its own pattern and captures the arguments |
| ProbeCalls.MatchPatternSound | scripts/poireau.py:202-208 | whatever matches a pattern is such a rendering, for some decimal address |
| ProbeCalls.MatchPatternNumbers | scripts/poireau.py:205 | every capture is a decimal numeral |
| ProbeCalls.HeadsAgree | scripts/poireau.py:203 | two probe names whose pattern heads both begin a call are the same name |
| ProbeCalls.HandleFields | scripts/poireau.py:234-318 | each typed call is what its handler builds from the probe's arguments, in the handler's arity |
| ProbeCalls.HandleNone | scripts/poireau.py:223-231 | a handler returns nothing exactly for the two failure probes, `mmap_failed` and `calloc_overflow` |
| ProbeCalls.Numerals | scripts/poireau.py:240 | the decimal spellings of the arguments read back (`int(match[k])`) to the same values |
| ProbeCalls.PatternsDisjoint | scripts/poireau.py:211-220 | no call matches the patterns of two different handlers in the table |
| ProbeCalls.DispatchMatching | scripts/poireau.py:326-334 | so order in the table does not matter: the handler whose pattern matches decides |
| ProbeCalls.DispatchUnhandled | scripts/poireau.py:335-340 | a call is unhandled (counted as `Unknown`) exactly when no pattern in the table matches it |
| ProbeCalls.DispatchProbe | scripts/poireau.py:326-334 | a probe call with a handler's name and arity reaches that handler with its arguments' values |
| ProbeCalls.DispatchRoundTrip | scripts/poireau.py:223-334 | a typed call, printed the way its probe prints it, dispatches back to the same typed call |
| ProbeCalls.ArgWordsRender | scripts/poireau.py:146-208 | the `argK=V` words, with `=` turned into `: ` and each after `, `, are the argument fields `_make_pattern` expects |
| ProbeCalls.NewCallRendered | scripts/poireau.py:139-208 | the call `parse_event` builds from a newer-format libpoireau probe line with arguments `arg1=V1 ...` is the text the probe's pattern matches, with the address in decimal |
| ProbeCalls.NewCallDispatches | scripts/poireau.py:321-334 | that call is handed to the probe's handler with the values V1, ... |
| ProbeCalls.NewLineDispatches | scripts/poireau.py:128-334 | a newer-format libpoireau probe line parses to the full header, and its call dispatches to the probe's handler with the argument values |
| ProbeCalls.ScriptLineDispatches | scripts/poireau.py:141-334 | the same for a script-format line with a dotted timestamp |
| ProbeCalls.FindHandler | scripts/poireau.py:324-334 | the inner loop finds a match exactly when the dispatch is handled, and its result is the handler's |
| ProbeCalls.ParseEventCalls | scripts/poireau.py:321-340 | the generator yields exactly the events whose call a handler turned into a typed call, and `event_type_count` is the count of their outcomes |
| ProbeCalls.CountsAgree | scripts/poireau.py:335-339 | each type's count is the number of yielded calls of that type, `Unknown` counts the unrecognised events, and failure probes are counted nowhere |
| Allocations.InitValid | scripts/poireau.py:374-387 | the initial globals are a consistent state with an empty table, a zero footprint and a zero mark |
| Allocations.Estimate | scripts/poireau.py:390-397 | the estimate is 0 exactly for a record without a size, and otherwise the larger of its size and the sampling period |
| Allocations.Store | scripts/poireau.py:447 | `ALLOCATIONS[key] = alloc` updates that key of the table and leaves the other globals alone |
| Allocations.StoreValid | scripts/poireau.py:447 | a store keeps the table consistent with the key order and only appends to it |
| Allocations.LiveOfExact | scripts/poireau.py:408-410 | the snapshot lists exactly the live records (whose `free_ts` is falsy) among the table's values |
| Allocations.LiveSnapshot | scripts/poireau.py:408-410 | in a consistent state the snapshot holds exactly the live records of the table |
| Allocations.CheckHighWaterMark | scripts/poireau.py:400-412 | the check never lowers the mark and changes no other global; with tracking on, the mark reaches the footprint |
| Allocations.CheckUpdates | scripts/poireau.py:402-410 | the mark moves exactly when tracking is on and the footprint is above it; then it becomes the footprint and the snapshot is retaken, otherwise the snapshot is kept |
| Allocations.ObserveAlloc | scripts/poireau.py:438-449 | an allocation keeps the state consistent, never lowers the mark, and with tracking on leaves the mark at or above the footprint |
| Allocations.ObserveAllocEffect | scripts/poireau.py:438-449 | an allocation writes only bucket `new_id`: it sets pointer, size, first time and stack, keeps the other fields, and adds the new record's estimate to the footprint |
| Allocations.ObserveFree | scripts/poireau.py:452-460 | a free keeps the state consistent, never lowers the mark, and with tracking on leaves the mark at or above the footprint |
| Allocations.ObserveFreeEffect | scripts/poireau.py:452-460 | a free writes only bucket `old_id`: it sets the free time and stack, and takes the old record's estimate off the footprint; an absent bucket becomes an otherwise empty record |
| Allocations.ObserveRealloc | scripts/poireau.py:463-477 | an in-place realloc keeps the state consistent, never lowers the mark, and with tracking on leaves the mark at or above the footprint |
| Allocations.ObserveReallocEffect | scripts/poireau.py:463-477 | an in-place realloc replaces pointer, size, last time and stack, keeps the first and free fields, and moves the footprint by the new estimate less the old one |
| Allocations.AllocThenFree | scripts/poireau.py:438-460 | allocating a bucket and then freeing it leaves the footprint where it was and the bucket freed |
| Allocations.OpsDispatch | scripts/poireau.py:486-496 | an event with equal old and new ids is one realloc; otherwise it is a free when it has an old id and an allocation when it has a new id, free first |
| Observe.Apply | scripts/poireau.py:400-496 | the steps of an event, each ending with the high-water check, keep the state consistent, only append keys, never lower the mark, leave the mark at or above the footprint with tracking on, and stop at a step whose report raised on the new snapshot |
| Observe.ApplyTwo | scripts/poireau.py:493-496 | for an event with both ids the free runs first; when its check raises the allocation does not run |
| Observe.ApplyBuckets | scripts/poireau.py:438-477 | the steps write no bucket outside their calls' ids, and when none raised each of those buckets is in the dict |
| Observe.ObserveEvent | scripts/poireau.py:482-496 | one event keeps the state consistent, only appends keys, never lowers the mark, and sets `LAST_EVENT` to the larger of it and the event's time |
| Observe.ObserveEventBuckets | scripts/poireau.py:482-496 | one event writes only the buckets of its call's ids and leaves every other bucket unchanged |
| Observe.ObserveEventMarkCovers | scripts/poireau.py:482-496 | with tracking on, after each event, one that raised included, the mark is at least the footprint |
| Observe.ObserveEventRaises | scripts/poireau.py:400-412 | an event raises only with tracking on when its check lifted the mark to the threshold or past it, and the snapshot it took is one the report raises on |
| Observe.LatestBounds | scripts/poireau.py:483 | the running maximum of the timestamps is at least its start and every timestamp seen |
| Observe.ObserveAll | scripts/poireau.py:480-496 | a run of events keeps the state consistent, never lowers the mark, only appends keys, never moves the clock back, and without an exception leaves `LAST_EVENT` at the running maximum |
| Observe.ObserveAllStops | scripts/poireau.py:480-496 | once an event has raised, the later events change nothing: the exception leaves the loop and the script |
| Observe.ObserveAllFirstRaise | scripts/poireau.py:480-496 | a run that raised ended at its first raising event, on the quiet run before it |
| Observe.ObserveAllRaises | scripts/poireau.py:400-496 | a run raises only with tracking on, with the mark at the threshold or past it and a snapshot the report raises on; without tracking it always runs to the end |
| Observe.ObserveAllClock | scripts/poireau.py:481-483 | `LAST_EVENT` never decreases, and after a run without an exception it is at least every timestamp of the run, filtered or not |
| Reports.ScanFails | scripts/poireau.py:626-651 | a report's loop raises exactly when some record raises |
| Reports.ScanPrinted | scripts/poireau.py:626-651 | whatever a report printed is a record of its input that it shows and that does not raise |
| Reports.ScanExactly | scripts/poireau.py:626-651 | a loop that runs to the end prints exactly the records that it shows |
| Reports.ScanStops | scripts/poireau.py:626-651 | once the loop has raised the later records change nothing |
| Reports.ScanFirstRaise | scripts/poireau.py:626-651 | a loop that raised stopped at its first raising record, keeping what the records before it printed |
| Reports.ScanDescending | scripts/poireau.py:594-599 | the printed records keep the input's order, so a largest-first input prints largest first |
| Reports.FreesExactly | scripts/poireau.py:528-651 | `print_frees` raises exactly when a freed record lacks a field `print_dalloc` formats; without that it prints exactly the freed records; what it printed are freed records whose lines format |
| Reports.PrintFrees | scripts/poireau.py:643-651 | the loop prints what Reports.Frees gives: the freed records in order, up to the first whose line raises, which ends it |
| Reports.ScanOldFails | scripts/poireau.py:509-639 | `print_old_allocs` raises exactly when a live record has no first time or an old record lacks a field `print_alloc` formats; whatever it printed is an old record whose line formats |
| Reports.ScanOldPrinted | scripts/poireau.py:626-639 | when it does not raise, it prints exactly the live records that are older than `max_age`, not recently reallocated and not ignored |
| Reports.SeenExactly | scripts/poireau.py:626-628 | the records seen are those of the input that were ignored before, or all of them with `mark_ignored` |
| Reports.IgnoredShrinksToInput | scripts/poireau.py:613-640 | after a report that ran to the end, `IGNORED_ALLOCS` is exactly the records of the list that were ignored, or all of them with `mark_ignored` |
| Reports.MarkedAreSkipped | scripts/poireau.py:672-679 | after a report with `mark_ignored` that ran to the end, a later report over the same records prints none of them |
| Reports.Insert | scripts/poireau.py:595-597 | inserting into the sorted run adds exactly the one record |
| Reports.SortBySize | scripts/poireau.py:595-597 | sorting is a permutation of the snapshot |
| Reports.SortDescending | scripts/poireau.py:595-597 | with `reverse=True` the sizes come out largest first |
| Reports.SortStable | scripts/poireau.py:595-597 | records of equal size keep their snapshot order, as Python's stable sort does |
| Reports.UnignoredExactly | scripts/poireau.py:509-599 | over the sorted records the loop raises exactly when a shown record lacks a field its line formats; otherwise it prints exactly the live, unignored records; printed records keep the largest-first order |
| Reports.PermutedRaises | scripts/poireau.py:594-599 | a raising record of the snapshot is one of its sorted order too, and the other way round |
| Reports.HighWaterSelectionExactly | scripts/poireau.py:564-599 | the report raises exactly when tracking is on and a snapshot of two records or more has one without a size, or a live, unignored record lacks a field its line formats; otherwise it prints exactly the live, unignored records; what it prints is largest first; without tracking it prints nothing |
| AllocTracker.Tracker.constructor | scripts/poireau.py:374-387 | the globals start as the initial state with an empty ignore set |
| AllocTracker.Tracker.CheckHighWaterMark | scripts/poireau.py:400-412 | the in-place update leaves the state the Allocations function gives, and raises exactly when the mark rises to at least `TRACK_HIGH_WATER_MARK_AFTER` and the report on the new snapshot raises |
| AllocTracker.Tracker.Store | scripts/poireau.py:447 | the dictionary assignment in place, as Allocations.Store describes |
| AllocTracker.Tracker.ObserveAlloc | scripts/poireau.py:438-449 | `observe_alloc` in place leaves the state Allocations.ObserveAlloc gives, and raises exactly when Observe.Step says its check does |
| AllocTracker.Tracker.ObserveFree | scripts/poireau.py:452-460 | `observe_free` in place leaves the state Allocations.ObserveFree gives, and raises exactly when Observe.Step says its check does |
| AllocTracker.Tracker.ObserveRealloc | scripts/poireau.py:463-477 | `observe_realloc` in place leaves the state Allocations.ObserveRealloc gives, and raises exactly when Observe.Step says its check does |
| AllocTracker.Tracker.ObserveEvent | scripts/poireau.py:482-496 | one pass of the loop in place leaves the state and the exception Observe.ObserveEvent gives; an exception in the free skips the allocation |
| AllocTracker.Tracker.ObserveEvents | scripts/poireau.py:480-496 | `observe_events` over a finite run leaves the state Observe.ObserveAll gives, and returns at the first event whose report raises |
| AllocTracker.Tracker.PrintOldAllocs | scripts/poireau.py:602-640 | the loop prints what Reports.ScanOld selects, stops at the first record that raises, and replaces `IGNORED_ALLOCS` by the records seen only when it runs to the end |
| AllocTracker.Tracker.PrintHighWaterMark | scripts/poireau.py:564-599 | what the report prints, and whether sorting or a line raises, are what Reports.HighWaterSelection gives for the current snapshot and ignore set |
| TrackedAlloc.TableGeometry | src/tracked_alloc.h:23-45 | the table has one slot per 1 GiB of the 2^47-byte address space, and every address below it indexes a slot |
| TrackedAlloc.RoundDown | src/tracked_alloc.c:45 | `x & -a` for a power of two is the largest multiple of `a` not above `x` |
| TrackedAlloc.RoundUp | src/tracked_alloc.c:56 | `(x + a - 1) & -a` without wrap-around is the least multiple of `a` at or above `x` |
| TrackedAlloc.RoundUpMonotone | src/tracked_alloc.c:140-141 | rounding up to a page keeps order |
| TrackedAlloc.MmapHint | src/tracked_alloc.c:26-46 | the hint for id `id`, computed modulo 2^64 then 2^47, is page-aligned, 1 GiB-aligned and inside the address space |
| TrackedAlloc.HintAligned | src/tracked_alloc.c:43 | `(id * (17 << 30)) % 2^64 % 2^47` is a multiple of 1 GiB |
| TrackedAlloc.RoundedSize | src/tracked_alloc.c:56 | `rounded_size` is a multiple of the page size, and the page round-up of any size up to SSIZE_MAX |
| TrackedAlloc.AlignedMmap | src/tracked_alloc.c:53-92 | it refuses exactly sizes above SSIZE_MAX; fails with the probe's arguments exactly when `mmap` fails; else returns an aligned chunk of the rounded size after the start of the mapping |
| TrackedAlloc.Carve | src/tracked_alloc.c:76-91 | the chunk starts at the first alignment boundary after the mapping's start and ends inside the mapping |
| TrackedAlloc.CarveKeepsExactlyTheChunk | src/tracked_alloc.c:79-89 | each address of the mapping is either in the chunk or in a released span, never both, and the released spans are non-empty and inside the mapping; when the mapping, the alignment and the rounded size are whole pages, each released span is page-aligned and is exactly what Linux's `munmap` removes, so exactly the chunk stays mapped |
| TrackedAlloc.SmallAlignmentLosesChunkPage | src/tracked_alloc.c:79-83 | for an alignment below a page, the chunk starts `alignment` bytes into the mapping, off a page boundary, and the header `munmap` of `alignment` bytes removes the whole first page, which holds the chunk's start |
| TrackedAlloc.SlopPartition | src/tracked_alloc.c:79-89 | the header and trailer slop, when non-empty, are exactly the complement of the chunk in the mapping |
| TrackedAlloc.AlignedMmapOfZeroBytes | src/tracked_alloc.c:53-92 | a zero-byte request keeps no address of its mapping |
| TrackedAlloc.AlignedMunmap | src/tracked_alloc.c:94-109 | NULL unmaps nothing; any other pointer unmaps, from itself, a whole number of pages covering the size by less than a page |
| TrackedAlloc.MunmapReleasesTheChunk | src/tracked_alloc.c:53-109 | unmapping a chunk from `aligned_mmap` with the same size asks `munmap` for exactly that chunk; the chunk starts on a page exactly when the alignment is at least a page, and is empty exactly when the size is 0 |
| TrackedAlloc.PageEnd | src/tracked_alloc.c:140-141 | `(begin + n + PAGE_SIZE - 1) & -PAGE_SIZE` without wrap-around is the page end of the block |
| TrackedAlloc.ShrinkMapping | src/tracked_alloc.c:136-150 | a shrink unmaps nothing when the page ends coincide, and otherwise exactly the pages past the desired size, up to the current page end |
| TrackedAlloc.GrowMapping | src/tracked_alloc.c:152-194 | a growth succeeds exactly when the kernel maps the pages right at the current end; without wrap-around it asks for exactly the pages from the current page end up to the desired one; it leaves no new mapping behind on failure |
| TrackedAlloc.IssuedIdValue | src/tracked_alloc.c:17-120 | the k-th id issued is k + 1 modulo 2^64 |
| TrackedAlloc.IssuedIdsIncrease | src/tracked_alloc.c:17-120 | until the counter wraps, ids are nonzero and strictly increasing, so never issued twice |
| TrackedAlloc.Tables.constructor | src/tracked_alloc.c:17-34 | the tables start zeroed and the counter starts at 1 |
| TrackedAlloc.Tables.TrackedP | src/tracked_alloc.h:47-60 | a pointer is tracked exactly when it is nonzero, 1 GiB-aligned and the entry of its slot |
| TrackedAlloc.Tables.Get | src/tracked_alloc.c:111-134 | on failure the id is 0 and the tables are unchanged; on success the chunk's slot, empty before, records the chunk, the fresh id and the request, and the chunk is tracked; the counter always moves on |
| TrackedAlloc.Tables.GetInfo | src/tracked_alloc.c:221-234 | the recorded id and size of the slot of a live pointer |
| TrackedAlloc.Tables.Put | src/tracked_alloc.c:236-261 | only the pointer's slot is cleared, the pointer is no longer tracked, and its chunk is unmapped with the recorded size |
| TrackedAlloc.Tables.Resize | src/tracked_alloc.c:196-219 | the same size always succeeds; a shrink always succeeds after unmapping the tail; a growth succeeds only when the pages can be mapped; the recorded size becomes the request exactly on success |
| TrackedAlloc.ChunkIndex | src/tracked_alloc.c:125 | an aligned chunk below the address space indexes an in-range slot, which stands for that very address |
| Sample.FlagsAgreeWithComparison | src/sample.h:58-78 | both versions of `sample_request` sample the same requests: the flags (borrow or zero) agree with `request >= current` |
| Sample.UnsampledLeavesPositive | src/sample.h:73-77 | an unsampled request leaves a positive countdown with no wrap-around |
| Sample.ZeroStateSamples | src/sample.h:23-29 | a zero-initialised state samples its first request |
| Sample.ExactRequestSamples | src/sample.h:73-77 | requesting exactly the countdown samples and leaves it at 0 |
| Sample.UnsampledRun | src/sample.h:53-81 | between two samples, fewer bytes are requested than the countdown held, and the countdown drops by exactly their total |
| Sample.SampleState.constructor | src/sample.h:23-29 | a thread's state starts with the countdown at 0 |
| Sample.SampleState.SampleRequest | src/sample.h:53-81 | the countdown is replaced by the wrapped difference, and the request is sampled exactly when it reaches the countdown |

## Left out

- Printing: a report is the sequence of records it would print, and whether
  a line raised. The text of each line, `format_stack`, the headers and the
  stderr warnings are not modelled. The unhandled-line and unhandled-call
  messages and the `LOG_ROW_PERIOD` progress log are also left out.
- `assert_empty_bucket` and `assert_present_bucket`: they only print
  warnings and change no state.
- The signal handlers, `signal.alarm`, argument parsing, `fileinput` and the
  `__main__` block: these are I/O and process control. Two of their effects
  are modelled: `MarkedAreSkipped` states the property of `usr1_handler`
  that matters here, and an exception from a report ends the run
  (`Observe.ObserveAllStops`), because `__main__` catches only
  `KeyboardInterrupt`. A report that a signal handler starts in the middle
  of an event is not modelled.
- `time.monotonic()`, `datetime.utcnow()` and `RECORDS_MATCH_REAL_TIME`:
  "now" is a parameter of the query.
- `ALLOCATION_SAMPLING_BYTE_PERIOD` read from the environment is a string
  that `max` would compare with an integer. The model takes the period as a
  natural number.
- `COMM_PATTERN` is `.*`, which matches every comm, so the filter is the
  constant predicate `CommMatches`.
- Floating-point timestamps: they are exact reals, so rounding in
  `float(...) / 1000` and in the age comparisons is not modelled.
- The generators are run on finite inputs. `SegmentTrace` and
  `ParseEventCalls` return the whole output rather than stream it.
- `print_allocations_at_high_water_mark`'s `new_record` argument only
  selects a header word, so it is dropped.
- The `mmap`, `munmap` and atomic operations: the kernel's answer is a
  parameter, the unmapped spans are results, and the atomics are sequential
  stores. Concurrency between threads is not modelled.
- `sample_request_reset`, `sample_uniform` and the xoshiro state of
  `struct sample_state` belong to `sample.c`, which is not part of this
  model.
- The `mmap_failed` and `calloc_overflow` handlers' stderr reports: only
  their `None` result is modelled.
- TraceParse.RewriteMatchesEvent, TraceParse.NewToEventStamp,
  TraceParse.ParsedStampInSeconds, TraceParse.RewriteLayout and
  TraceParse.NewRoundTrip: they hold for every newer-format line, and state
  the stamp and the layout but not the comm, tid and call of the header.
  The full header is stated by `NewToEventHeader`, `ParseNewLine` and
  `ParseScriptHeader`, for plain lines only (next item).
- TraceParse.MatchNewExact, TraceParse.RewriteRendered,
  TraceParse.NewToEventHeader, TraceParse.ParseNewLine and
  TraceParse.ParseScriptHeader: they require a plain call (`PlainCall`): no
  `/` in the probe name and no `/` or `:` in the arguments. With such a
  character, EVENT_PATTERN's greedy comm or NEW_EVENT_PATTERN's greedy head
  can reach into the call, and the header those lines give is not stated.
  `ParseNewLine` also requires arguments that do not end in `)`; otherwise
  EVENT_PATTERN may accept the line as it stands, before any rewrite.
- TraceParse.PlainIsNoTraceFrame, TraceParse.MatchFramePlaced and
  TraceParse.PlainFrameRoundTrip: they require plain parts (`PlainParts`).
  The symbol is non-empty and does not start with a digit, a dot or a blank.
  It does not start with four or more lower-case hex digits followed by a
  blank or by its end, which TRACE_FRAME_PATTERN could read as an address. The dso holds no blank
  followed by `(`, and neither part holds a newline. Frame lines outside
  these are not stated.
- TraceParse.ParseRenderedEvent and TraceParse.EventRoundTrip: they
  require a call without `/`. EVENT_PATTERN's comm group is greedy and may
  run up to a later `/` followed by digits and a blank, so for such a call the
  comm, the tid and the call that `parse_event` returns are not stated.
- TraceParse.MatchTraceFramePlaced and TraceParse.TraceFrameRoundTrip: they
  require the parts of `TraceParts`. The symbol (`TraceSymbol`) is
  non-empty, does not start with a digit, a dot or a blank, holds no
  blank and no `+`, and does not end in `:`. So demangled C++ symbols such
  as `operator new(unsigned long)+0x1c`, which hold blanks, are not stated.
  The address has four or more lower-case hex digits, the offset text is
  lower-case hex, and the dso holds no newline.
- TraceSegment.SegmentTrace and TraceSegment.Classify: the stacks of the
  events are read with the corrected `ParseFrame`, in which the dso is the
  library path. The program as written puts the offset group where the dso
  belongs; `ParseFrameAsWritten` models that, and the row under "Findings"
  shows the difference.
- TrackedAlloc.Tables.Get: its second precondition stands for the
  `assert(prev == 0)` at `tracked_alloc.c:130`, so the abort on a slot
  that is already taken is not modelled. A zero-byte chunk keeps no page of
  its mapping, so a caller can reach that abort.
- TrackedAlloc.CarveKeepsExactlyTheChunk and TrackedAlloc.MunmapReleasesTheChunk:
  `aligned_mmap` admits every power of two (the assert at
  `tracked_alloc.c:62`), but its only callers pass `TRACKING_ALIGNMENT`
  (`tracked_alloc.c:121` and `:259`). For an alignment below a page, Linux
  removes the whole first page at the header `munmap` (c:81), chunk start
  included (`SmallAlignmentLosesChunkPage`). A later `aligned_munmap` of the
  chunk then passes an address off a page boundary, which `munmap` refuses
  with EINVAL, and the assert at `tracked_alloc.c:107` aborts. The two
  lemmas state that exactly the chunk stays mapped, and that it is released,
  only for whole-page alignments. `MunmapReleasesTheChunk` states the
  refusal only as the chunk's start lying off a page; the abort itself is
  not modelled.
- TrackedAlloc.AlignedMunmap, TrackedAlloc.Tables.Put and
  TrackedAlloc.MunmapReleasesTheChunk: `munmap` is
  taken to succeed. For a size whose page round-up is 0 (a zero-byte
  record), `aligned_munmap` calls `munmap(ptr, 0)`, which Linux refuses
  with EINVAL, and the assert at `tracked_alloc.c:107` aborts. The model
  returns a zero-length release instead.
- TrackedAlloc.Tables.Put: its precondition `info[Slot(ptr)].id != 0`
  stands for the assert at `tracked_alloc.c:247`, so that abort is not
  modelled. `Valid()` does not imply it: the id counter wraps, and the
  2^64-th call to `tracked_alloc_get` issues id 0.
- TrackedAlloc.GrowMapping: the kernel's answer is a parameter. The call at
  `tracked_alloc.c:178-180` passes fd -1 without `MAP_ANONYMOUS`, and Linux
  refuses such a call with EBADF. The model does not say which answers the
  kernel can give, so its success branch is stated as reachable.
- TrackedAlloc.Tables.TrackedP: it requires an aligned pointer to lie below
  2^47, because the C code would index past the table otherwise.
- TrackedAlloc.RoundedSize: it states the page round-up only for sizes up
  to SSIZE_MAX, the only ones `aligned_mmap` goes on to map.

## Findings

| source | as written | input that shows it | evidently intended | confidence | as-written member | corrected member |
|---|---|---|---|---|---|---|
| scripts/poireau.py:159-161 | TRACE_FRAME_PATTERN writes the offset group as `(:?[+]0x[0-9a-f]+)?`, a capturing group, so `parse_frame` returns that group as `match[2]` | the docstring's frame, twelve blanks then `7f4d353bd14d sampled_malloc+0x59 (/opt/backtrace/lib/libpoireau.so)`, gives `Frame("sampled_malloc", "+0x59")`, and a frame without an offset gives a dso of `None` | `(?:...)`, a non-capturing group, so that `match[2]` is the dso path as the docstring says | not executed | TraceParse.DocumentedTraceFrame | TraceParse.TraceFrameRoundTrip |
