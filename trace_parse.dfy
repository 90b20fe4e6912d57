/**
 * The header and frame parsers of the trace analyser (`parse_event`,
 * `parse_frame`). Each regular expression is a recogniser that makes the
 * choices Python's backtracking matcher makes under `re.fullmatch` and
 * `re.ASCII`: a greedy `.*` takes the longest alternative that lets the rest of
 * the pattern succeed, a lazy `.*?` the shortest, an optional group is tried
 * before its absence. `.` never matches a newline; `\s` is ASCII whitespace.
 */
module TraceParse {
  import opened Wrappers
  import opened Text

  /** An event header: timestamp in seconds, comm, tid and the probe call text. */
  datatype Header = Header(ts: real, comm: string, tid: nat, call: string)

  /** A stack frame: the symbol and the object it lives in. */
  datatype Frame = Frame(symbol: string, dso: string)

  /** The span `[lo, hi)` of a capturing group in the line, as `Match.span` gives it. */
  datatype Group = Group(lo: nat, hi: nat)

  predicate Within(line: string, g: Group) { g.lo <= g.hi <= |line| }

  /** The text a group captured. */
  function Captured(line: string, g: Group): string
    requires Within(line, g)
  {
    line[g.lo..g.hi]
  }

  // ---------------------------------------------------------------------
  // Shared pieces

  /**
   * The `\s*[0-9]+\.[0-9]* ` prefix of the perf-trace formats: where the
   * digits start, where the dot is, and where the space after the fraction is.
   */
  datatype Lead = Lead(start: nat, dot: nat, space: nat)

  function LeadingStamp(line: string): (r: Option<Lead>)
    ensures r.Some? ==> var l := r.value;
      l.start < l.dot < l.space < |line| && line[l.dot] == '.' && line[l.space] == ' '
  {
    var s := Run(line, 0, RegexSpace);
    var d := Run(line, s, Digit);
    if d == 0 || s + d == |line| || line[s + d] != '.' then None
    else
      var f := Run(line, s + d + 1, Digit);
      if s + d + 1 + f == |line| || line[s + d + 1 + f] != ' ' then None
      else Some(Lead(s, s + d, s + d + 1 + f))
  }

  /** The stamp LeadingStamp finds is whitespace, digits, a dot, digits. */
  lemma LeadingStampSpans(line: string)
    requires LeadingStamp(line).Some?
    ensures var l := LeadingStamp(line).value;
      && Span(line, 0, l.start, RegexSpace) && Span(line, l.start, l.dot, Digit) && Span(line, l.dot + 1, l.space, Digit)
  {
    var s := Run(line, 0, RegexSpace);
    var d := Run(line, s, Digit);
    RunSpan(line, 0, RegexSpace);
    RunSpan(line, s, Digit);
    RunSpan(line, s + d + 1, Digit);
  }

  /**
   * `.*:.*[(].*[)]$` from `i`: a colon, later an open parenthesis, a closing
   * one last, and no newline.
   */
  predicate CallShapeAt(line: string, i: nat)
  {
    && i + 2 <= |line| && Span(line, i, |line|, NotNewline) && line[|line| - 1] == ')'
    && Precedes(line, i, |line| - 1, ':', '(')
  }

  /**
   * `(arg[1-9][0-9]*=.+)*$` from `i`: nothing, or `arg`, a non-zero digit,
   * more digits, `=` and at least one more character, with no newline. The
   * first `.+` runs to the end of the line, so the group matches at most once.
   */
  predicate ArgsAt(line: string, i: nat)
  {
    i == |line| ||
    (&& i + 4 <= |line| && line[i] == 'a' && line[i + 1] == 'r' && line[i + 2] == 'g' && '1' <= line[i + 3] <= '9'
     && Span(line, i, |line|, NotNewline)
     && var k := Run(line, i + 4, Digit); i + 4 + k + 1 < |line| && line[i + 4 + k] == '=')
  }

  /** The digits around the dot of a stamp laid out as `l`, a count of milliseconds, in seconds. */
  function LeadValue(line: string, l: Lead): real
    requires l.start <= l.dot < l.space <= |line|
    requires Span(line, l.start, l.dot, Digit) && Span(line, l.dot + 1, l.space, Digit)
  {
    SpanSlice(line, l.start, l.dot, Digit);
    SpanSlice(line, l.dot + 1, l.space, Digit);
    DecimalReal(line[l.start..l.dot], line[l.dot + 1..l.space]) / 1000.0
  }

  /** The leading `D.F` stamp of a line in seconds. */
  function StampSeconds(line: string): real
    requires LeadingStamp(line).Some?
  {
    LeadingStampSpans(line);
    LeadValue(line, LeadingStamp(line).value)
  }

  /** `\s*[0-9]+\.[0-9]*` and nothing more: a stamp on its own. */
  predicate IsStamp(s: string)
  {
    var w := Run(s, 0, RegexSpace);
    var d := Run(s, w, Digit);
    d > 0 && w + d < |s| && s[w + d] == '.' && Span(s, w + d + 1, |s|, Digit)
  }

  /** Where the digits and the dot of a stamp on its own are. */
  function StampLead(s: string): Lead
  {
    var w := Run(s, 0, RegexSpace);
    Lead(w, w + Run(s, w, Digit), |s|)
  }

  /**
   * The value of a stamp on its own divided by 1000: `parse_event` treats
   * every stamp as a count of milliseconds, also the script format's, which
   * perf already prints in seconds.
   */
  function StampValue(s: string): real
    requires IsStamp(s)
  {
    RunSpan(s, Run(s, 0, RegexSpace), Digit);
    LeadValue(s, StampLead(s))
  }

  // ---------------------------------------------------------------------
  // EVENT_PATTERN: ^\s*([0-9]+\.[0-9]*) (.*)/([0-9]+) (.*:.*[(].*[)])$

  /** The groups of EVENT_PATTERN, with the timestamp split at its dot. */
  datatype EventMatch = EventMatch(tsWhole: Group, tsFraction: Group, comm: Group, tid: Group, call: Group)

  /** The rest of EVENT_PATTERN succeeds when the comm ends at the slash at `j`. */
  predicate EventSplit(line: string, cs: nat, j: nat)
  {
    && cs <= j < |line| && line[j] == '/' && Span(line, cs, j, NotNewline)
    && var t := Run(line, j + 1, Digit);
      t > 0 && j + 1 + t < |line| && line[j + 1 + t] == ' ' && CallShapeAt(line, j + 2 + t)
  }

  /** The slash that ends the greedy comm: the last one after which the rest of EVENT_PATTERN matches. */
  function EventSplits(line: string, cs: nat): nat -> bool { (j: nat) => EventSplit(line, cs, j) }

  function EventCommEnd(line: string, cs: nat): (r: Option<nat>)
    ensures r.Some? ==> EventSplit(line, cs, r.value)
  {
    if cs > |line| then None
    else
      var r := LastWhere(cs, |line|, EventSplits(line, cs));
      assert r.Some? ==> EventSplits(line, cs)(r.value);
      r
  }

  lemma EventCommEndIsLast(line: string, cs: nat)
    ensures forall k :: cs <= k < |line| && (EventCommEnd(line, cs).None? || EventCommEnd(line, cs).value < k) ==> !EventSplit(line, cs, k)
  {
    if cs <= |line| { LastWhereIsLast(cs, |line|, EventSplits(line, cs)); }
    forall k | cs <= k < |line| && (EventCommEnd(line, cs).None? || EventCommEnd(line, cs).value < k) ensures !EventSplit(line, cs, k) {
      assert !EventSplits(line, cs)(k);
    }
  }

  /** The groups of EVENT_PATTERN once the timestamp and the comm's slash are known. */
  function EventGroups(line: string, l: Lead, j: nat): EventMatch
    requires l.space < j && EventSplit(line, l.space + 1, j)
  {
    var t := Run(line, j + 1, Digit);
    EventMatch(Group(l.start, l.dot), Group(l.dot + 1, l.space), Group(l.space + 1, j), Group(j + 1, j + 1 + t), Group(j + 2 + t, |line|))
  }

  /** EVENT_PATTERN.fullmatch(line): the greedy comm is the longest one after which the rest matches. */
  function MatchEvent(line: string): Option<EventMatch>
  {
    match LeadingStamp(line)
    case None => None
    case Some(l) =>
      match EventCommEnd(line, l.space + 1)
      case None => None
      case Some(j) => Some(EventGroups(line, l, j))
  }

  /** The groups of an EVENT_PATTERN match lie in the line, and the stamp and tid groups hold digits. */
  predicate EventWithin(line: string, m: EventMatch)
  {
    Within(line, m.tsWhole) && Within(line, m.tsFraction) && Within(line, m.comm) && Within(line, m.tid) && Within(line, m.call)
  }

  predicate EventDigits(line: string, m: EventMatch)
  {
    && EventWithin(line, m)
    && Span(line, m.tsWhole.lo, m.tsWhole.hi, Digit) && Span(line, m.tsFraction.lo, m.tsFraction.hi, Digit)
    && Span(line, m.tid.lo, m.tid.hi, Digit)
  }

  lemma EventGroupsDigits(line: string, l: Lead, j: nat)
    requires LeadingStamp(line) == Some(l) && l.space < j && EventSplit(line, l.space + 1, j)
    ensures EventDigits(line, EventGroups(line, l, j))
  {
    LeadingStampSpans(line);
    RunSpan(line, j + 1, Digit);
  }

  /** The timestamp and tid groups of EVENT_PATTERN are runs of digits, as `float` and `int` need. */
  lemma MatchEventDigits(line: string)
    requires MatchEvent(line).Some?
    ensures EventDigits(line, MatchEvent(line).value)
  {
    MatchEventIs(line);
    var l := LeadingStamp(line).value;
    var j := EventCommEnd(line, l.space + 1).value;
    assert MatchEvent(line).value == EventGroups(line, l, j);
    EventGroupsDigits(line, l, j);
  }

  // ---------------------------------------------------------------------
  // NEW_EVENT_PATTERN:
  //   ^(\s*[0-9]+\.[0-9]* .*/[0-9]+ .*:.*):\(([0-9a-f]+)\) ((arg[1-9][0-9]*=.+)*)$

  /** The groups of NEW_EVENT_PATTERN: the head, the hexadecimal probe address and the argument list. */
  datatype NewMatch = NewMatch(head: Group, ip: Group, args: Group)

  /** The groups of a NEW_EVENT_PATTERN match lie in the line, and the address group is hexadecimal. */
  predicate NewHex(line: string, g: NewMatch)
  {
    Within(line, g.head) && Within(line, g.ip) && Within(line, g.args) && Span(line, g.ip.lo, g.ip.hi, LowerHex)
  }

  /** `:\(([0-9a-f]+)\) ((arg[1-9][0-9]*=.+)*)$` at `e`: the length of the address, if it matches. */
  function NewTail(line: string, e: nat): (r: Option<nat>)
    ensures r.Some? ==> e + 4 + r.value <= |line|
  {
    if e + 2 > |line| || line[e] != ':' || line[e + 1] != '(' then None
    else
      var h := Run(line, e + 2, LowerHex);
      if h == 0 || e + 2 + h + 2 > |line| || line[e + 2 + h] != ')' || line[e + 3 + h] != ' ' then None
      else if ArgsAt(line, e + 4 + h) then Some(h)
      else None
  }

  /** `/[0-9]+ ` at `c`: the length of the tid, if it is there. */
  function TidAt(line: string, c: nat): (r: Option<nat>)
    ensures r.Some? ==> var t := r.value;
      && c < c + 1 + t < |line| && line[c] == '/' && t > 0 && line[c + 1 + t] == ' '
  {
    if c >= |line| || line[c] != '/' then None
    else
      var t := Run(line, c + 1, Digit);
      if t == 0 || c + 1 + t == |line| || line[c + 1 + t] != ' ' then None
      else Some(t)
  }

  /** The head ends at `e`, after a colon, with the comm ending at `c`, and the tail matches at `e`. */
  predicate NewHeadEnd(line: string, cs: nat, c: nat, t: nat, e: nat)
  {
    && c + 2 + t <= e <= |line| && cs <= c
    && Occurs(line, c + 2 + t, e, ':') && Span(line, cs, e, NotNewline) && NewTail(line, e).Some?
  }

  /** For the comm ending at `c`, the head end the matcher settles on: the last one that works. */
  function NewHeadEnds(line: string, cs: nat, c: nat, t: nat): nat -> bool { (e: nat) => NewHeadEnd(line, cs, c, t, e) }

  function NewEnd(line: string, cs: nat, c: nat): (r: Option<nat>)
    ensures r.Some? ==> TidAt(line, c).Some? && NewHeadEnd(line, cs, c, TidAt(line, c).value, r.value)
  {
    match TidAt(line, c)
    case None => None
    case Some(t) =>
      if c + 2 + t > |line| then None
      else
        var r := LastWhere(c + 2 + t, |line| + 1, NewHeadEnds(line, cs, c, t));
        assert r.Some? ==> NewHeadEnds(line, cs, c, t)(r.value);
        r
  }

  lemma NewEndIsLast(line: string, cs: nat, c: nat)
    requires TidAt(line, c).Some?
    ensures forall k :: 0 <= k <= |line| && (NewEnd(line, cs, c).None? || NewEnd(line, cs, c).value < k) ==> !NewHeadEnd(line, cs, c, TidAt(line, c).value, k)
  {
    var t := TidAt(line, c).value;
    if c + 2 + t <= |line| { LastWhereIsLast(c + 2 + t, |line| + 1, NewHeadEnds(line, cs, c, t)); }
    forall k | 0 <= k <= |line| && (NewEnd(line, cs, c).None? || NewEnd(line, cs, c).value < k) ensures !NewHeadEnd(line, cs, c, t, k) {
      if c + 2 + t <= k { assert !NewHeadEnds(line, cs, c, t)(k); }
    }
  }

  predicate NewComm(line: string, cs: nat, c: nat)
  {
    cs <= c <= |line| && Span(line, cs, c, NotNewline) && NewEnd(line, cs, c).Some?
  }

  /** The slash that ends the greedy comm of NEW_EVENT_PATTERN. */
  function NewComms(line: string, cs: nat): nat -> bool { (c: nat) => NewComm(line, cs, c) }

  function NewCommEnd(line: string, cs: nat): (r: Option<nat>)
    ensures r.Some? ==> NewComm(line, cs, r.value)
  {
    if cs > |line| then None
    else
      var r := LastWhere(cs, |line|, NewComms(line, cs));
      assert r.Some? ==> NewComms(line, cs)(r.value);
      r
  }

  lemma NewCommEndIsLast(line: string, cs: nat)
    ensures forall k :: cs <= k < |line| && (NewCommEnd(line, cs).None? || NewCommEnd(line, cs).value < k) ==> !NewComm(line, cs, k)
  {
    if cs <= |line| { LastWhereIsLast(cs, |line|, NewComms(line, cs)); }
    forall k | cs <= k < |line| && (NewCommEnd(line, cs).None? || NewCommEnd(line, cs).value < k) ensures !NewComm(line, cs, k) {
      assert !NewComms(line, cs)(k);
    }
  }

  /** The groups of NEW_EVENT_PATTERN once the head is known to end at `e`. */
  function NewGroups(line: string, e: nat): (g: NewMatch)
    requires NewTail(line, e).Some?
    ensures NewHex(line, g)
  {
    var h := NewTail(line, e).value;
    RunSpan(line, e + 2, LowerHex);
    NewMatch(Group(0, e), Group(e + 2, e + 2 + h), Group(e + 4 + h, |line|))
  }

  /** NEW_EVENT_PATTERN.fullmatch(line): the longest comm that admits a match, then the longest head. */
  function MatchNew(line: string): (r: Option<NewMatch>)
    ensures r.Some? ==> NewHex(line, r.value)
  {
    match LeadingStamp(line)
    case None => None
    case Some(l) =>
      var cs := l.space + 1;
      match NewCommEnd(line, cs)
      case None => None
      case Some(c) => Some(NewGroups(line, NewEnd(line, cs, c).value))
  }

  // ---------------------------------------------------------------------
  // SCRIPT_EVENT_PATTERN:
  //   ^\s*(.*/[0-9]+) ([0-9]+) [[][0-9]+[]] ([0-9]+.[0-9]+):\s*(.*:.*):\s*\(([0-9a-f]+)\) ((arg[1-9][0-9]*=.+)*)$

  /** The groups of SCRIPT_EVENT_PATTERN. */
  datatype ScriptMatch = ScriptMatch(commTid: Group, pid: Group, ts: Group, name: Group, ip: Group, args: Group)

  predicate ScriptWithin(line: string, g: ScriptMatch)
  {
    && Within(line, g.commTid) && Within(line, g.pid) && Within(line, g.ts)
    && Within(line, g.name) && Within(line, g.ip) && Within(line, g.args)
  }

  /** `:\s*\(([0-9a-f]+)\) ((arg[1-9][0-9]*=.+)*)$` at `f`: the offset of the address and its length. */
  function ScriptTail(line: string, f: nat): (r: Option<(nat, nat)>)
    ensures r.Some? ==> f < r.value.0 && r.value.0 + r.value.1 + 2 <= |line|
  {
    if f >= |line| || line[f] != ':' then None
    else
      var w := Run(line, f + 1, RegexSpace);
      if f + 1 + w == |line| || line[f + 1 + w] != '(' then None
      else
        var h := Run(line, f + 2 + w, LowerHex);
        if h == 0 || f + 2 + w + h + 2 > |line| || line[f + 2 + w + h] != ')' || line[f + 3 + w + h] != ' ' then None
        else if ArgsAt(line, f + 4 + w + h) then Some((f + 2 + w, h))
        else None
  }

  predicate ScriptNameEnd(line: string, ns: nat, f: nat)
  {
    ns <= f <= |line| && Occurs(line, ns, f, ':') && Span(line, ns, f, NotNewline) && ScriptTail(line, f).Some?
  }

  /** `\s*(.*:.*):\s*\(...` from `r`: where the probe name starts and the last place it can end. */
  function ScriptRest(line: string, r: nat): (q: Option<(nat, nat)>)
    ensures q.Some? ==> r <= q.value.0 <= q.value.1 < |line| && ScriptNameEnd(line, q.value.0, q.value.1)
  {
    if r > |line| then None
    else
      var ns := r + Run(line, r, RegexSpace);
      match LastWhere(ns, |line| + 1, (f: nat) => ScriptNameEnd(line, ns, f))
      case None => None
      case Some(f) => Some((ns, f))
  }

  /**
   * The timestamp group `([0-9]+.[0-9]+)` followed by `:` at `ts`, first with
   * the unescaped `.` after all the leading digits, then with `.` taken by a
   * digit: where the timestamp ends, in the order the matcher tries them.
   */
  function StampEnds(line: string, ts: nat): (r: seq<nat>)
    requires ts <= |line|
    ensures forall x :: x in r ==> ts < x < |line|
  {
    var d := Run(line, ts, Digit);
    var x := ts + d;
    var a :=
      if d > 0 && x < |line| && line[x] != '\n' && (var d2 := Run(line, x + 1, Digit); d2 > 0 && x + 1 + d2 < |line| && line[x + 1 + d2] == ':')
      then [x + 1 + Run(line, x + 1, Digit)] else [];
    var b := if d >= 3 && x < |line| && line[x] == ':' then [x] else [];
    a + b
  }

  /** The first of the timestamp ends after which the rest of the pattern matches. */
  function FirstStamp(line: string, ends: seq<nat>): (r: Option<(nat, nat, nat)>)
    ensures r.Some? ==> r.value.0 in ends && r.value.0 < r.value.1 <= r.value.2 < |line|
    ensures r.Some? ==> ScriptNameEnd(line, r.value.1, r.value.2)
  {
    if ends == [] then None
    else match (if ends[0] < |line| then ScriptRest(line, ends[0] + 1) else None)
      case Some((ns, f)) => Some((ends[0], ns, f))
      case None => FirstStamp(line, ends[1..])
  }

  /** `/[0-9]+ ([0-9]+) [[][0-9]+[]] ` at the slash `c`: where the pid, and then the timestamp, start. */
  function ScriptIds(line: string, c: nat): (r: Option<(nat, nat, nat)>)
    ensures r.Some? ==> c < r.value.0 < r.value.1 < r.value.2 <= |line|
  {
    match TidAt(line, c)
    case None => None
    case Some(t) =>
      var ps := c + 2 + t;
      var p := Run(line, ps, Digit);
      if p == 0 || ps + p + 2 > |line| || line[ps + p] != ' ' || line[ps + p + 1] != '[' then None
      else
        var k := Run(line, ps + p + 2, Digit);
        if k == 0 || ps + p + 2 + k + 2 > |line| || line[ps + p + 2 + k] != ']' || line[ps + p + 3 + k] != ' ' then None
        else Some((c + 1 + t, ps + p, ps + p + 4 + k))
  }

  /** With the comm part of group 1 ending at `c`: group 1's end, the pid's end, the timestamp's start and end, the name's start and end. */
  function ScriptAt(line: string, s: nat, c: nat): (r: Option<(nat, nat, nat, nat, nat, nat)>)
    ensures r.Some? ==> var (g1End, pidEnd, tsStart, tsEnd, ns, f) := r.value;
      && s <= c < g1End < pidEnd < tsStart < tsEnd < ns <= f < |line|
      && ScriptNameEnd(line, ns, f)
  {
    if !(s <= c < |line|) || !Span(line, s, c, NotNewline) then None
    else match ScriptIds(line, c)
      case None => None
      case Some((g1End, pidEnd, tsStart)) =>
        if tsStart > |line| then None
        else match FirstStamp(line, StampEnds(line, tsStart))
          case None => None
          case Some((tsEnd, ns, f)) => Some((g1End, pidEnd, tsStart, tsEnd, ns, f))
  }

  /** The slash that ends the comm part of the greedy group 1. */
  function ScriptComms(line: string, s: nat): nat -> bool { (c: nat) => ScriptAt(line, s, c).Some? }

  function ScriptCommEnd(line: string, s: nat): (r: Option<nat>)
    ensures r.Some? ==> ScriptAt(line, s, r.value).Some?
  {
    if s > |line| then None
    else
      var r := LastWhere(s, |line|, ScriptComms(line, s));
      assert r.Some? ==> ScriptComms(line, s)(r.value);
      r
  }

  lemma ScriptCommEndIsLast(line: string, s: nat)
    ensures forall k :: s <= k < |line| && (ScriptCommEnd(line, s).None? || ScriptCommEnd(line, s).value < k) ==> ScriptAt(line, s, k).None?
  {
    if s <= |line| { LastWhereIsLast(s, |line|, ScriptComms(line, s)); }
    forall k | s <= k < |line| && (ScriptCommEnd(line, s).None? || ScriptCommEnd(line, s).value < k) ensures ScriptAt(line, s, k).None? {
      assert !ScriptComms(line, s)(k);
    }
  }

  /** SCRIPT_EVENT_PATTERN.fullmatch(line). */
  function MatchScript(line: string): (r: Option<ScriptMatch>)
    ensures r.Some? ==> ScriptWithin(line, r.value)
  {
    var s := Run(line, 0, RegexSpace);
    match ScriptCommEnd(line, s)
    case None => None
    case Some(c) =>
      var (g1End, pidEnd, tsStart, tsEnd, ns, f) := ScriptAt(line, s, c).value;
      var (ipStart, h) := ScriptTail(line, f).value;
      Some(ScriptMatch(Group(s, g1End), Group(g1End + 1, pidEnd), Group(tsStart, tsEnd), Group(ns, f),
        Group(ipStart, ipStart + h), Group(ipStart + h + 2, |line|)))
  }

  // ---------------------------------------------------------------------
  // The rewrites of parse_event

  /** The parts of a newer-format line: stamp, comm, tid, probe name, hexadecimal address and argument text. */
  datatype NewLine = NewLine(stamp: string, comm: string, tid: string, name: string, ip: string, args: string)
  {
    /** Where RenderNew puts the comm's slash, the probe name, the colon after it, the address and the arguments. */
    function Slash(): nat { |stamp| + 1 + |comm| }
    function NameStart(): nat { Slash() + 2 + |tid| }
    function Colon(): nat { NameStart() + |name| }
    function IpStart(): nat { Colon() + 2 }
    function ArgsStart(): nat { IpStart() + |ip| + 2 }
  }

  function RenderNew(n: NewLine): string
  {
    n.stamp + " " + n.comm + "/" + n.tid + " " + n.name + ":(" + n.ip + ") " + n.args
  }

  /** The captures of a script-format line, as the reordered line uses them. */
  function ScriptPieces(line: string, g: ScriptMatch): NewLine
    requires ScriptWithin(line, g)
  {
    NewLine(Captured(line, g.ts), Captured(line, g.commTid), Captured(line, g.pid), Captured(line, g.name),
      Captured(line, g.ip), Captured(line, g.args))
  }

  /** The script-format line put in the order of the newer perf-trace format. */
  function ReorderScript(line: string, g: ScriptMatch): string
    requires ScriptWithin(line, g)
  {
    RenderNew(ScriptPieces(line, g))
  }

  function ReplaceEach(params: seq<string>): (r: seq<string>)
    ensures |r| == |params|
    ensures forall k :: 0 <= k < |r| ==> r[k] == Replace(params[k], '=', ": ")
  {
    if params == [] then [] else [Replace(params[0], '=', ": ")] + ReplaceEach(params[1..])
  }

  /** `__probe_ip=<decimal address>` and then the `argK=vK` words, each with `=` turned into `: `. */
  function RewrittenArgs(line: string, g: NewMatch): seq<string>
    requires NewHex(line, g)
  {
    SpanSlice(line, g.ip.lo, g.ip.hi, LowerHex);
    ReplaceEach(["__probe_ip=" + Decimal(HexValue(Captured(line, g.ip)))] + Split(Captured(line, g.args)))
  }

  /** The newer format rewritten into the columnar `name(__probe_ip: N, arg1: v1, ...)` form. */
  function Bracketed(s: string): string { "(" + s + ")" }

  function RewriteNew(line: string, g: NewMatch): string
    requires NewHex(line, g)
  {
    Captured(line, g.head) + Bracketed(Join(RewrittenArgs(line, g), ", "))
  }

  /** The header `parse_event` builds from an EVENT_PATTERN match: the stamp in milliseconds becomes seconds. */
  function HeaderOf(line: string, m: EventMatch): Header
    requires EventDigits(line, m)
  {
    SpanSlice(line, m.tsWhole.lo, m.tsWhole.hi, Digit);
    SpanSlice(line, m.tsFraction.lo, m.tsFraction.hi, Digit);
    SpanSlice(line, m.tid.lo, m.tid.hi, Digit);
    Header(DecimalReal(Captured(line, m.tsWhole), Captured(line, m.tsFraction)) / 1000.0, Captured(line, m.comm),
      DecimalValue(Captured(line, m.tid)), Captured(line, m.call))
  }

  /** A newer-format line through its rewrite: the header of the rewritten line, or None. */
  function NewToEvent(line: string): Option<Header>
  {
    match MatchNew(line)
    case None => None
    case Some(g) =>
      var y := RewriteNew(line, g);
      match MatchEvent(y)
      case None => None
      case Some(m) => MatchEventDigits(y); Some(HeaderOf(y, m))
  }

  /**
   * `parse_event(line)`: the header of an event line in any of the three
   * formats, or None. A line that matches neither EVENT_PATTERN nor
   * NEW_EVENT_PATTERN is tried as a script line, reordered into the newer format.
   */
  function ParseEvent(line: string): Option<Header>
  {
    match MatchEvent(line)
    case Some(m) => MatchEventDigits(line); Some(HeaderOf(line, m))
    case None =>
      if MatchNew(line).Some? then NewToEvent(line)
      else
        match MatchScript(line)
        case None => None
        case Some(g) => NewToEvent(ReorderScript(line, g))
  }

  // ---------------------------------------------------------------------
  // Frames. FRAME_PATTERN: ^\s*([^0-9.].*) [(](.*)[)]$

  /** `[^0-9.]`: anything but a digit or a dot, whitespace and newline included. */
  predicate NotDigitOrDot(c: char) { !IsDigit(c) && c != '.' }

  /** ` [(](.*)[)]$` at `j`. */
  predicate DsoAt(line: string, j: nat)
  {
    j + 3 <= |line| && line[j] == ' ' && line[j + 1] == '(' && line[|line| - 1] == ')' && Span(line, j + 2, |line| - 1, NotNewline)
  }

  /** The groups of FRAME_PATTERN or TRACE_FRAME_PATTERN. */
  datatype FrameMatch = FrameMatch(symbol: Group, offset: Option<Group>, dso: Group)

  predicate FrameWithin(line: string, m: FrameMatch)
  {
    Within(line, m.symbol) && Within(line, m.dso) && (m.offset.Some? ==> Within(line, m.offset.value))
  }

  /** With group 1 starting at `k`: the end of the greedy `.*` that lets the parenthesised dso close the line. */
  predicate FrameSplit(line: string, k: nat, j: nat)
  {
    k + 1 <= j <= |line| && Span(line, k + 1, j, NotNewline) && DsoAt(line, j)
  }

  function FrameSplits(line: string, k: nat): nat -> bool { (j: nat) => FrameSplit(line, k, j) }

  function FrameSymbolEnd(line: string, k: nat): (r: Option<nat>)
    ensures r.Some? ==> k < |line| && NotDigitOrDot(line[k]) && FrameSplit(line, k, r.value)
  {
    if k >= |line| || !NotDigitOrDot(line[k]) then None
    else
      var r := LastWhere(k + 1, |line|, FrameSplits(line, k));
      assert r.Some? ==> FrameSplits(line, k)(r.value);
      r
  }

  lemma FrameSymbolEndIsLast(line: string, k: nat)
    requires k < |line| && NotDigitOrDot(line[k])
    ensures forall j :: 0 <= j < |line| && (FrameSymbolEnd(line, k).None? || FrameSymbolEnd(line, k).value < j) ==> !FrameSplit(line, k, j)
  {
    LastWhereIsLast(k + 1, |line|, FrameSplits(line, k));
    forall j | 0 <= j < |line| && (FrameSymbolEnd(line, k).None? || FrameSymbolEnd(line, k).value < j) ensures !FrameSplit(line, k, j) {
      if k + 1 <= j { assert !FrameSplits(line, k)(j); }
    }
  }

  /** Where group 1 of FRAME_PATTERN starts: as late in the leading whitespace as works. */
  function FrameStarts(line: string): nat -> bool { (k: nat) => FrameSymbolEnd(line, k).Some? }

  function FrameStart(line: string, m: nat): (r: Option<nat>)
    ensures r.Some? ==> r.value <= m && FrameSymbolEnd(line, r.value).Some?
  {
    var r := LastWhere(0, m + 1, FrameStarts(line));
    assert r.Some? ==> FrameStarts(line)(r.value);
    r
  }

  lemma FrameStartIsLast(line: string, m: nat)
    ensures forall k :: 0 <= k <= m && (FrameStart(line, m).None? || FrameStart(line, m).value < k) ==> FrameSymbolEnd(line, k).None?
  {
    LastWhereIsLast(0, m + 1, FrameStarts(line));
    forall k | 0 <= k <= m && (FrameStart(line, m).None? || FrameStart(line, m).value < k) ensures FrameSymbolEnd(line, k).None? {
      assert !FrameStarts(line)(k);
    }
  }

  /** FRAME_PATTERN.fullmatch(line): the `\s*` gives back whitespace for `[^0-9.]` only if it must. */
  function MatchFrame(line: string): (r: Option<FrameMatch>)
    ensures r.Some? ==> FrameWithin(line, r.value)
  {
    var m := Run(line, 0, RegexSpace);
    match FrameStart(line, m)
    case None => None
    case Some(k) =>
      var j := FrameSymbolEnd(line, k).value;
      Some(FrameMatch(Group(k, j), None, Group(j + 2, |line| - 1)))
  }

  // TRACE_FRAME_PATTERN: ^\s*[0-9a-f]{4,}\s+([^0-9.].*?)(:?[+]0x[0-9a-f]+)? [(](.*)[)]$
  //
  // As written the offset group is `(:?[+]0x[0-9a-f]+)`: a capturing group
  // that admits a leading colon. The evidently intended `(?:[+]0x[0-9a-f]+)`
  // is non-capturing and admits none. The recognisers below take `colon` to
  // say which of the two they follow; which group is read is up to the callers.

  /** The offset group at `t`: where it ends. */
  function OffsetAt(line: string, t: nat, colon: bool): Option<nat>
  {
    var c := if colon && t < |line| && line[t] == ':' then 1 else 0;
    if t + c + 3 > |line| || line[t + c] != '+' || line[t + c + 1] != '0' || line[t + c + 2] != 'x' then None
    else
      var h := Run(line, t + c + 3, LowerHex);
      if h == 0 then None else Some(t + c + 3 + h)
  }

  /** The rest of the pattern after the lazy symbol ends at `t`: with the offset group if it can, else without. */
  function TraceRest(line: string, t: nat, colon: bool): Option<Option<nat>>
  {
    match OffsetAt(line, t, colon)
    case Some(u) => if DsoAt(line, u) then Some(Some(u)) else if DsoAt(line, t) then Some(None) else None
    case None => if DsoAt(line, t) then Some(None) else None
  }

  /** With group 1 starting at `w`: where the lazy `.*?` stops, the shortest symbol that works. */
  predicate TraceSplit(line: string, w: nat, t: nat, colon: bool)
  {
    w + 1 <= t <= |line| && Span(line, w + 1, t, NotNewline) && TraceRest(line, t, colon).Some?
  }

  function TraceSplits(line: string, w: nat, colon: bool): nat -> bool { (t: nat) => TraceSplit(line, w, t, colon) }

  function TraceSymbolEnd(line: string, w: nat, colon: bool): (r: Option<nat>)
    ensures r.Some? ==> w < |line| && NotDigitOrDot(line[w]) && TraceSplit(line, w, r.value, colon)
  {
    if w >= |line| || !NotDigitOrDot(line[w]) then None
    else
      var r := FirstWhere(w + 1, |line| + 1, TraceSplits(line, w, colon));
      assert r.Some? ==> TraceSplits(line, w, colon)(r.value);
      r
  }

  lemma TraceSymbolEndIsFirst(line: string, w: nat, colon: bool)
    requires w < |line| && NotDigitOrDot(line[w])
    ensures forall t :: 0 <= t <= |line| && (TraceSymbolEnd(line, w, colon).None? || t < TraceSymbolEnd(line, w, colon).value) ==> !TraceSplit(line, w, t, colon)
  {
    FirstWhereIsFirst(w + 1, |line| + 1, TraceSplits(line, w, colon));
    forall t | 0 <= t <= |line| && (TraceSymbolEnd(line, w, colon).None? || t < TraceSymbolEnd(line, w, colon).value) ensures !TraceSplit(line, w, t, colon) {
      if w + 1 <= t { assert !TraceSplits(line, w, colon)(t); }
    }
  }

  /** Where group 1 of TRACE_FRAME_PATTERN starts: the `\s+` is greedy, so as late as works. */
  function TraceStarts(line: string, colon: bool): nat -> bool { (w: nat) => TraceSymbolEnd(line, w, colon).Some? }

  function TraceStart(line: string, lo: nat, hi: nat, colon: bool): (r: Option<nat>)
    requires lo <= hi
    ensures r.Some? ==> lo <= r.value < hi && TraceSymbolEnd(line, r.value, colon).Some?
  {
    var r := LastWhere(lo, hi, TraceStarts(line, colon));
    assert r.Some? ==> TraceStarts(line, colon)(r.value);
    r
  }

  lemma TraceStartIsLast(line: string, lo: nat, hi: nat, colon: bool)
    requires lo <= hi
    ensures forall w :: lo <= w < hi && (TraceStart(line, lo, hi, colon).None? || TraceStart(line, lo, hi, colon).value < w) ==> TraceSymbolEnd(line, w, colon).None?
  {
    LastWhereIsLast(lo, hi, TraceStarts(line, colon));
    forall w | lo <= w < hi && (TraceStart(line, lo, hi, colon).None? || TraceStart(line, lo, hi, colon).value < w) ensures TraceSymbolEnd(line, w, colon).None? {
      assert !TraceStarts(line, colon)(w);
    }
  }

  /** TRACE_FRAME_PATTERN.fullmatch(line), with the offset group as written (`colon`) or as intended. */
  function MatchTraceFrame(line: string, colon: bool): (r: Option<FrameMatch>)
    ensures r.Some? ==> FrameWithin(line, r.value)
  {
    var m := Run(line, 0, RegexSpace);
    var x := Run(line, m, LowerHex);
    var ws := Run(line, m + x, RegexSpace);
    if x < 4 || ws == 0 then None else TraceAfterAddress(line, m + x, ws, colon)
  }

  /** The rest of TRACE_FRAME_PATTERN after an address ending at `a` and a gap of `ws` blanks. */
  function TraceAfterAddress(line: string, a: nat, ws: nat, colon: bool): (r: Option<FrameMatch>)
    ensures r.Some? ==> FrameWithin(line, r.value)
  {
    match TraceStart(line, a + 1, a + ws + 1, colon)
    case None => None
    case Some(w) =>
      var t := TraceSymbolEnd(line, w, colon).value;
      Some(TraceGroups(line, w, t, TraceRest(line, t, colon).value))
  }

  /** The groups once the symbol spans `[w, t)` and the offset group, if any, ends at `u`. */
  function TraceGroups(line: string, w: nat, t: nat, u: Option<nat>): FrameMatch
    requires line != []
  {
    match u
    case Some(v) => FrameMatch(Group(w, t), Some(Group(t, v)), Group(v + 2, |line| - 1))
    case None => FrameMatch(Group(w, t), None, Group(t + 2, |line| - 1))
  }

  /**
   * `parse_frame` as written: `Frame(match[1], match[2])`. For a perf-trace
   * frame group 2 is the offset group, so the second field is the offset
   * text, or None when the frame has no offset, and never the dso path.
   */
  function ParseFrameAsWritten(line: string): (r: Option<(string, Option<string>)>)
  {
    match MatchTraceFrame(line, true)
    case Some(m) => Some((Captured(line, m.symbol), if m.offset.Some? then Some(Captured(line, m.offset.value)) else None))
    case None =>
      match MatchFrame(line)
      case Some(m) => Some((Captured(line, m.symbol), Some(Captured(line, m.dso))))
      case None => None
  }

  /** `parse_frame` with the offset group non-capturing, as its documentation intends: the symbol and the dso path. */
  function ParseFrame(line: string): (r: Option<Frame>)
  {
    match MatchTraceFrame(line, false)
    case Some(m) => Some(Frame(Captured(line, m.symbol), Captured(line, m.dso)))
    case None =>
      match MatchFrame(line)
      case Some(m) => Some(Frame(Captured(line, m.symbol), Captured(line, m.dso)))
      case None => None
  }

  // ---------------------------------------------------------------------
  // Event lines built from their parts

  /** The parts of an EVENT_PATTERN line: indentation, the two halves of the stamp, comm, tid and the call. */
  datatype EventLine = EventLine(indent: string, whole: string, fraction: string, comm: string, tid: string, call: string)
  {
    /** Where RenderEvent puts the stamp's dot, the space after it, the comm's slash and the call. */
    function Dot(): nat { |indent| + |whole| }
    function Space(): nat { Dot() + 1 + |fraction| }
    function Slash(): nat { Space() + 1 + |comm| }
    function CallStart(): nat { Slash() + 2 + |tid| }
  }

  function RenderEvent(e: EventLine): string
  {
    e.indent + e.whole + "." + e.fraction + " " + e.comm + "/" + e.tid + " " + e.call
  }

  /** What each group of EVENT_PATTERN admits. */
  predicate EventParts(e: EventLine)
  {
    && All(e.indent, RegexSpace) && e.whole != [] && All(e.whole, Digit) && All(e.fraction, Digit)
    && NoNewline(e.comm) && e.tid != [] && All(e.tid, Digit) && CallShapeAt(e.call, 0)
  }

  /** `line` is laid out as the parts of `e`, each where RenderEvent puts it. */
  predicate EventPlaced(line: string, e: EventLine)
  {
    && |line| == e.CallStart() + |e.call|
    && Placed(line, 0, e.indent) && Placed(line, |e.indent|, e.whole) && line[e.Dot()] == '.'
    && Placed(line, e.Dot() + 1, e.fraction) && line[e.Space()] == ' ' && Placed(line, e.Space() + 1, e.comm)
    && line[e.Slash()] == '/' && Placed(line, e.Slash() + 1, e.tid) && line[e.CallStart() - 1] == ' '
    && Placed(line, e.CallStart(), e.call)
  }

  /** The groups EVENT_PATTERN should capture in a line laid out as `e`. */
  function EventSpans(e: EventLine): EventMatch
  {
    EventMatch(Group(|e.indent|, e.Dot()), Group(e.Dot() + 1, e.Space()), Group(e.Space() + 1, e.Slash()),
      Group(e.Slash() + 1, e.CallStart() - 1), Group(e.CallStart(), e.CallStart() + |e.call|))
  }

  lemma RenderEventPlaces(e: EventLine)
    ensures EventPlaced(RenderEvent(e), e)
  {
  }

  /** A call shape copied into a line keeps its shape, when it ends the line. */
  lemma CallShapePlaced(line: string, k: nat, call: string)
    requires Placed(line, k, call) && |line| == k + |call|
    ensures CallShapeAt(line, k) <==> CallShapeAt(call, 0)
  {
    forall m | 0 <= m < |call| ensures call[m] == line[m + k] { assert line[k + m] == CharAt(call, m); }
    SpanSame(call, line, 0, |call|, k, NotNewline);
    if |call| >= 1 {
      assert call[|call| - 1] == line[|line| - 1];
      OccursSame(call, line, 0, |call| - 1, k, ':', '(');
    }
  }

  /** LeadingStamp finds a stamp laid out at known places. */
  lemma LeadingStampAt(line: string, l: Lead)
    requires l.start < l.dot < l.space < |line|
    requires Span(line, 0, l.start, RegexSpace) && Span(line, l.start, l.dot, Digit) && line[l.dot] == '.'
    requires Span(line, l.dot + 1, l.space, Digit) && line[l.space] == ' '
    ensures LeadingStamp(line) == Some(l)
  {
    assert In(line[l.start], Digit);
    RunIsUnique(line, 0, RegexSpace, l.start);
    RunIsUnique(line, l.start, Digit, l.dot - l.start);
    RunIsUnique(line, l.dot + 1, Digit, l.space - l.dot - 1);
  }

  lemma LeadingStampPlaced(line: string, e: EventLine)
    requires EventParts(e) && EventPlaced(line, e)
    ensures LeadingStamp(line) == Some(Lead(|e.indent|, e.Dot(), e.Space()))
  {
    PlacedSpan(line, 0, e.indent, RegexSpace);
    PlacedSpan(line, |e.indent|, e.whole, Digit);
    PlacedSpan(line, e.Dot() + 1, e.fraction, Digit);
    LeadingStampAt(line, Lead(|e.indent|, e.Dot(), e.Space()));
  }

  /** The rest of EVENT_PATTERN matches after a slash laid out at known places. */
  lemma EventSplitAt(line: string, cs: nat, j: nat, t: nat)
    requires cs <= j < |line| && line[j] == '/' && Span(line, cs, j, NotNewline)
    requires t > 0 && Span(line, j + 1, j + 1 + t, Digit) && j + 1 + t < |line| && line[j + 1 + t] == ' '
    requires CallShapeAt(line, j + 2 + t)
    ensures EventSplit(line, cs, j) && Run(line, j + 1, Digit) == t
  {
    RunIsUnique(line, j + 1, Digit, t);
  }

  lemma EventSplitPlaced(line: string, e: EventLine)
    requires EventParts(e) && EventPlaced(line, e)
    ensures EventSplit(line, e.Space() + 1, e.Slash()) && Run(line, e.Slash() + 1, Digit) == |e.tid|
  {
    PlacedSpan(line, e.Space() + 1, e.comm, NotNewline);
    PlacedSpan(line, e.Slash() + 1, e.tid, Digit);
    CallShapePlaced(line, e.CallStart(), e.call);
    EventSplitAt(line, e.Space() + 1, e.Slash(), |e.tid|);
  }

  /** No slash follows the comm's when the call holds none. */
  lemma NoSlashPlaced(line: string, e: EventLine)
    requires EventParts(e) && '/' !in e.call && EventPlaced(line, e)
    ensures forall k :: e.Slash() < k < |line| ==> line[k] != '/'
  {
    PlacedSpan(line, e.Slash() + 1, e.tid, Digit);
    forall k | e.Slash() < k < |line| ensures line[k] != '/' {
      if k < e.CallStart() - 1 {
        assert In(line[k], Digit);
      } else if k >= e.CallStart() {
        assert line[e.CallStart() + (k - e.CallStart())] == CharAt(e.call, k - e.CallStart());
      }
    }
  }

  /** The greedy comm of EVENT_PATTERN ends at a slash with no slash after it. */
  lemma EventCommEndAt(line: string, cs: nat, j: nat)
    requires EventSplit(line, cs, j)
    requires forall k :: j < k < |line| ==> line[k] != '/'
    ensures EventCommEnd(line, cs) == Some(j)
  {
    LastWhereFinds(cs, |line|, EventSplits(line, cs), j);
  }

  /** MatchEvent on a line whose stamp and last slash are at known places. */
  lemma MatchEventAt(line: string, l: Lead, j: nat)
    requires LeadingStamp(line) == Some(l) && l.space < j && EventSplit(line, l.space + 1, j)
    requires forall k :: j < k < |line| ==> line[k] != '/'
    ensures MatchEvent(line) == Some(EventGroups(line, l, j))
  {
    EventCommEndAt(line, l.space + 1, j);
  }

  /** EVENT_PATTERN captures the parts of `e` in a line laid out as `e`. */
  lemma MatchEventPlaced(line: string, e: EventLine)
    requires EventParts(e) && '/' !in e.call && EventPlaced(line, e)
    ensures MatchEvent(line) == Some(EventSpans(e))
  {
    LeadingStampPlaced(line, e);
    EventSplitPlaced(line, e);
    NoSlashPlaced(line, e);
    MatchEventAt(line, Lead(|e.indent|, e.Dot(), e.Space()), e.Slash());
  }

  /**
   * Rendering the parts of an event line and matching EVENT_PATTERN captures
   * the parts, provided the call holds no slash that could extend the greedy comm.
   */
  lemma EventRoundTrip(e: EventLine)
    requires EventParts(e) && '/' !in e.call
    ensures MatchEvent(RenderEvent(e)) == Some(EventSpans(e))
  {
    RenderEventPlaces(e);
    MatchEventPlaced(RenderEvent(e), e);
  }

  /** Two lines laid out as the same parts are the same line. */
  lemma PlacedAgree(x: string, y: string, e: EventLine)
    requires EventPlaced(x, e) && EventPlaced(y, e)
    ensures x == y
  {
    forall k | 0 <= k < |x| ensures x[k] == y[k] {
      if k < |e.indent| {
        assert x[0 + k] == CharAt(e.indent, k) == y[0 + k];
      } else if k < e.Dot() {
        assert x[|e.indent| + (k - |e.indent|)] == CharAt(e.whole, k - |e.indent|) == y[|e.indent| + (k - |e.indent|)];
      } else if e.Dot() < k < e.Space() {
        assert x[e.Dot() + 1 + (k - e.Dot() - 1)] == CharAt(e.fraction, k - e.Dot() - 1) == y[e.Dot() + 1 + (k - e.Dot() - 1)];
      } else if e.Space() < k < e.Slash() {
        assert x[e.Space() + 1 + (k - e.Space() - 1)] == CharAt(e.comm, k - e.Space() - 1) == y[e.Space() + 1 + (k - e.Space() - 1)];
      } else if e.Slash() < k < e.CallStart() - 1 {
        assert x[e.Slash() + 1 + (k - e.Slash() - 1)] == CharAt(e.tid, k - e.Slash() - 1) == y[e.Slash() + 1 + (k - e.Slash() - 1)];
      } else if e.CallStart() <= k {
        assert x[e.CallStart() + (k - e.CallStart())] == CharAt(e.call, k - e.CallStart()) == y[e.CallStart() + (k - e.CallStart())];
      }
    }
  }

  lemma PlacedIsRendered(line: string, e: EventLine)
    requires EventPlaced(line, e)
    ensures RenderEvent(e) == line
  {
    RenderEventPlaces(e);
    PlacedAgree(RenderEvent(e), line, e);
  }

  /** The parts an EVENT_PATTERN match captured, with the leading whitespace before the stamp. */
  function EventOf(line: string, m: EventMatch): EventLine
    requires m.tsWhole.lo <= m.tsWhole.hi < m.tsFraction.hi < m.comm.hi < m.comm.hi + 2 <= m.call.lo <= |line|
  {
    EventCut(line, m.tsWhole.lo, m.tsWhole.hi, m.tsFraction.hi, m.comm.hi, m.call.lo)
  }

  /** The pieces between the cuts at the stamp's start, its dot, the space after it, the comm's slash and the call. */
  function EventCut(line: string, a: nat, b: nat, c: nat, d: nat, f: nat): EventLine
    requires a <= b < c < d < d + 2 <= f <= |line|
  {
    EventLine(line[..a], line[a..b], line[b + 1..c], line[c + 1..d], line[d + 1..f - 1], line[f..])
  }

  /** A line cut at its dot, space, slash and call start is laid out as the pieces between the cuts. */
  lemma CutsPlaced(line: string, a: nat, b: nat, c: nat, d: nat, f: nat)
    requires a <= b < c < d < d + 2 <= f <= |line|
    requires line[b] == '.' && line[c] == ' ' && line[d] == '/' && line[f - 1] == ' '
    ensures EventPlaced(line, EventCut(line, a, b, c, d, f))
  {
    SlicePlaced(line, 0, a);
    assert line[..a] == line[0..a];
    SlicePlaced(line, a, b);
    SlicePlaced(line, b + 1, c);
    SlicePlaced(line, c + 1, d);
    SlicePlaced(line, d + 1, f - 1);
    SlicePlaced(line, f, |line|);
    assert line[f..] == line[f..|line|];
  }

  lemma EventOfPlaced(line: string, l: Lead, j: nat)
    requires LeadingStamp(line) == Some(l) && l.space < j && EventSplit(line, l.space + 1, j)
    ensures EventWithin(line, EventGroups(line, l, j))
    ensures var e := EventOf(line, EventGroups(line, l, j)); EventPlaced(line, e) && EventSpans(e) == EventGroups(line, l, j)
  {
    var t := Run(line, j + 1, Digit);
    var f := j + 2 + t;
    var m := EventMatch(Group(l.start, l.dot), Group(l.dot + 1, l.space), Group(l.space + 1, j), Group(j + 1, f - 1), Group(f, |line|));
    assert m == EventGroups(line, l, j);
    assert f <= |line| && line[j] == '/' && line[f - 1] == ' ';
    CutSpans(line, l.start, l.dot, l.space, j, f, m);
  }

  /** A line cut into pieces is laid out as them, and its groups are the spans between the cuts. */
  lemma CutSpans(line: string, a: nat, b: nat, c: nat, d: nat, f: nat, m: EventMatch)
    requires a <= b < c < d < d + 2 <= f <= |line|
    requires line[b] == '.' && line[c] == ' ' && line[d] == '/' && line[f - 1] == ' '
    requires m == EventMatch(Group(a, b), Group(b + 1, c), Group(c + 1, d), Group(d + 1, f - 1), Group(f, |line|))
    ensures EventWithin(line, m) && EventOf(line, m) == EventCut(line, a, b, c, d, f)
    ensures EventPlaced(line, EventCut(line, a, b, c, d, f)) && EventSpans(EventCut(line, a, b, c, d, f)) == m
  {
    CutsPlaced(line, a, b, c, d, f);
  }

  /** The pieces between the cuts admit what the groups of EVENT_PATTERN admit. */
  lemma CutsParts(line: string, a: nat, b: nat, c: nat, d: nat, f: nat)
    requires a < b < c < d < d + 2 < f <= |line|
    requires Span(line, 0, a, RegexSpace) && Span(line, a, b, Digit) && Span(line, b + 1, c, Digit)
    requires Span(line, c + 1, d, NotNewline) && Span(line, d + 1, f - 1, Digit) && CallShapeAt(line, f)
    ensures EventParts(EventCut(line, a, b, c, d, f))
  {
    SpanSlice(line, 0, a, RegexSpace);
    assert line[..a] == line[0..a];
    SpanSlice(line, a, b, Digit);
    SpanSlice(line, b + 1, c, Digit);
    SpanSlice(line, c + 1, d, NotNewline);
    SpanSlice(line, d + 1, f - 1, Digit);
    SlicePlaced(line, f, |line|);
    assert line[f..] == line[f..|line|];
    CallShapePlaced(line, f, line[f..]);
  }

  lemma EventOfParts(line: string, l: Lead, j: nat)
    requires LeadingStamp(line) == Some(l) && l.space < j && EventSplit(line, l.space + 1, j)
    ensures EventWithin(line, EventGroups(line, l, j)) && EventParts(EventOf(line, EventGroups(line, l, j)))
  {
    var t := Run(line, j + 1, Digit);
    LeadingStampSpans(line);
    RunSpan(line, j + 1, Digit);
    CutsParts(line, l.start, l.dot, l.space, j, j + 2 + t);
    assert EventOf(line, EventGroups(line, l, j)) == EventCut(line, l.start, l.dot, l.space, j, j + 2 + t);
  }

  lemma EventGroupsSound(line: string, l: Lead, j: nat)
    requires LeadingStamp(line) == Some(l) && l.space < j && EventSplit(line, l.space + 1, j)
    ensures EventDigits(line, EventGroups(line, l, j))
    ensures var e := EventOf(line, EventGroups(line, l, j));
      EventParts(e) && RenderEvent(e) == line && EventSpans(e) == EventGroups(line, l, j)
  {
    EventGroupsDigits(line, l, j);
    EventOfPlaced(line, l, j);
    EventOfParts(line, l, j);
    PlacedIsRendered(line, EventOf(line, EventGroups(line, l, j)));
  }

  /** What MatchEvent found: the stamp, the comm's slash and the groups they give. */
  lemma MatchEventIs(line: string)
    requires MatchEvent(line).Some?
    ensures LeadingStamp(line).Some? && EventCommEnd(line, LeadingStamp(line).value.space + 1).Some?
    ensures var l := LeadingStamp(line).value; var j := EventCommEnd(line, l.space + 1).value;
      l.space < j && EventSplit(line, l.space + 1, j) && MatchEvent(line).value == EventGroups(line, l, j)
  {
  }

  /**
   * Every EVENT_PATTERN match is a rendering of parts each group admits:
   * the line is its leading whitespace, the stamp, a space, the comm, a
   * slash, the tid, a space and the call, and the groups are those parts.
   */
  lemma MatchEventSound(line: string)
    requires MatchEvent(line).Some?
    ensures EventDigits(line, MatchEvent(line).value)
    ensures var e := EventOf(line, MatchEvent(line).value);
      EventParts(e) && RenderEvent(e) == line && EventSpans(e) == MatchEvent(line).value
  {
    MatchEventIs(line);
    var l := LeadingStamp(line).value;
    var j := EventCommEnd(line, l.space + 1).value;
    assert MatchEvent(line).value == EventGroups(line, l, j);
    EventGroupsSound(line, l, j);
  }

  /** The header `parse_event` builds from the groups of a line laid out as `e` is made of the parts of `e`. */
  lemma HeaderPlaced(line: string, e: EventLine)
    requires EventPlaced(line, e) && EventDigits(line, EventSpans(e)) && EventParts(e)
    ensures HeaderOf(line, EventSpans(e)) == Header(DecimalReal(e.whole, e.fraction) / 1000.0, e.comm, DecimalValue(e.tid), e.call)
  {
    var m := EventSpans(e);
    assert Captured(line, m.tsWhole) == e.whole by { PlacedSlice(line, |e.indent|, e.whole); }
    assert Captured(line, m.tsFraction) == e.fraction by { PlacedSlice(line, e.Dot() + 1, e.fraction); }
    assert Captured(line, m.comm) == e.comm by { PlacedSlice(line, e.Space() + 1, e.comm); }
    assert Captured(line, m.tid) == e.tid by { PlacedSlice(line, e.Slash() + 1, e.tid); }
    assert Captured(line, m.call) == e.call by { PlacedSlice(line, e.CallStart(), e.call); }
  }

  /**
   * `parse_event` on a rendered event line returns its parts: the stamp read
   * as milliseconds and given in seconds, the comm, the tid as a number and
   * the call text.
   */
  lemma ParseRenderedEvent(e: EventLine)
    requires EventParts(e) && '/' !in e.call
    ensures ParseEvent(RenderEvent(e)) == Some(Header(DecimalReal(e.whole, e.fraction) / 1000.0, e.comm, DecimalValue(e.tid), e.call))
  {
    var line := RenderEvent(e);
    EventRoundTrip(e);
    MatchEventDigits(line);
    RenderEventPlaces(e);
    HeaderPlaced(line, e);
  }

  // ---------------------------------------------------------------------
  // The newer format's rewrite

  /** A string of characters from a class without the newline has no newline. */
  lemma ClassAvoidsNewline(s: string, p: Class)
    requires All(s, p) && !In('\n', p)
    ensures '\n' !in s
  {
    forall i | 0 <= i < |s| ensures s[i] != '\n' { assert In(s[i], p); }
  }

  /** Turning `=` into `: ` brings in no newline. */
  lemma ReplaceEachAvoidsNewline(params: seq<string>)
    requires forall k :: 0 <= k < |params| ==> '\n' !in params[k]
    ensures forall k :: 0 <= k < |ReplaceEach(params)| ==> '\n' !in ReplaceEach(params)[k]
  {
    forall k | 0 <= k < |params| ensures '\n' !in ReplaceEach(params)[k] {
      assert '\n' !in params[k];
    }
  }

  /** The rewritten argument list has no newline, so the call it forms stays on one line. */
  lemma RewrittenArgsOnOneLine(line: string, g: NewMatch)
    requires NewHex(line, g)
    ensures forall k :: 0 <= k < |RewrittenArgs(line, g)| ==> '\n' !in RewrittenArgs(line, g)[k]
  {
    SpanSlice(line, g.ip.lo, g.ip.hi, LowerHex);
    var d := Decimal(HexValue(Captured(line, g.ip)));
    var words := Split(Captured(line, g.args));
    ClassAvoidsNewline(d, Digit);
    var head := "__probe_ip=" + d;
    assert '\n' !in head;
    forall k | 0 <= k < |words| ensures '\n' !in words[k] {
      assert words[k] in words;
      ClassAvoidsNewline(words[k], NotPySpace);
    }
    ReplaceEachAvoidsNewline([head] + words);
  }

  /** The joined arguments inside their brackets: no newline between them. */
  lemma BracketedArgsOnOneLine(line: string, g: NewMatch)
    requires NewHex(line, g)
    ensures NoNewline(Join(RewrittenArgs(line, g), ", "))
  {
    RewrittenArgsOnOneLine(line, g);
    JoinAvoids(RewrittenArgs(line, g), ", ", '\n');
    NoNewlineAvoids(Join(RewrittenArgs(line, g), ", "));
  }

  /** The rewrite keeps the head of the line and puts the bracketed arguments after it. */
  lemma RewriteLayout(line: string, g: NewMatch)
    requires NewHex(line, g) && g.head.lo == 0
    ensures var y := RewriteNew(line, g); var e := g.head.hi;
      && |y| >= e + 2 && y[e] == '(' && y[|y| - 1] == ')' && Span(y, e + 1, |y| - 1, NotNewline)
      && forall k {:trigger line[k]} :: 0 <= k < e ==> line[k] == y[k + 0]
  {
    var y := RewriteNew(line, g);
    var e := g.head.hi;
    var j := Join(RewrittenArgs(line, g), ", ");
    assert y == line[..e] + ("(" + j + ")");
    BracketedArgsOnOneLine(line, g);
    forall k | e + 1 <= k < |y| - 1 ensures In(y[k], NotNewline) {
      assert y[k] == j[k - e - 1];
      assert In(j[k - e - 1], NotNewline);
    }
  }

  /** What MatchNew found: the stamp, the comm's slash, the tid and the end of the head. */
  lemma MatchNewIs(line: string)
    requires MatchNew(line).Some?
    ensures LeadingStamp(line).Some?
    ensures var cs := LeadingStamp(line).value.space + 1;
      && NewCommEnd(line, cs).Some? && NewComm(line, cs, NewCommEnd(line, cs).value)
      && var c := NewCommEnd(line, cs).value;
      && TidAt(line, c).Some? && NewEnd(line, cs, c).Some?
      && NewHeadEnd(line, cs, c, TidAt(line, c).value, NewEnd(line, cs, c).value)
      && MatchNew(line).value == NewGroups(line, NewEnd(line, cs, c).value)
  {
  }

  /** A line that agrees with another beyond the end of its stamp has the same stamp. */
  lemma StampKept(line: string, y: string, n: nat)
    requires LeadingStamp(line).Some? && LeadingStamp(line).value.space < n <= |y| && n <= |line|
    requires forall k {:trigger line[k]} :: 0 <= k < n ==> line[k] == y[k + 0]
    ensures LeadingStamp(y) == LeadingStamp(line)
  {
    var l := LeadingStamp(line).value;
    LeadingStampSpans(line);
    SpanSame(line, y, 0, l.start, 0, RegexSpace);
    SpanSame(line, y, l.start, l.dot, 0, Digit);
    SpanSame(line, y, l.dot + 1, l.space, 0, Digit);
    assert line[l.dot] == y[l.dot + 0] && line[l.space] == y[l.space + 0];
    LeadingStampAt(y, l);
  }

  /**
   * A line that agrees with a NEW_EVENT_PATTERN line up to the end of its head
   * and goes on with `(`, no newline and a final `)` admits the rest of
   * EVENT_PATTERN after the comm's slash.
   */
  lemma HeadKeptSplits(line: string, y: string, cs: nat, c: nat, t: nat, e: nat)
    requires cs <= c && c + 2 + t <= e <= |line| && t > 0 && line[c] == '/' && line[c + 1 + t] == ' '
    requires Span(line, cs, e, NotNewline) && Span(line, c + 1, c + 1 + t, Digit) && Occurs(line, c + 2 + t, e, ':')
    requires |y| >= e + 2 && y[e] == '(' && y[|y| - 1] == ')' && Span(y, e + 1, |y| - 1, NotNewline)
    requires forall k {:trigger line[k]} :: 0 <= k < e ==> line[k] == y[k + 0]
    ensures EventSplit(y, cs, c)
  {
    assert line[c] == y[c + 0] && line[c + 1 + t] == y[c + 1 + t + 0];
    SpanSame(line, y, cs, e, 0, NotNewline);
    SpanSame(line, y, c + 1, c + 1 + t, 0, Digit);
    forall k | c + 2 + t <= k < |y| ensures In(y[k], NotNewline) {
      if k < e { assert In(y[k + 0], NotNewline); }
    }
    var colon := OccursWhere(line, c + 2 + t, e, ':');
    assert line[colon] == y[colon + 0];
    PrecedesAt(y, c + 2 + t, |y| - 1, colon, e, ':', '(');
    EventSplitAt(y, cs, c, t);
  }

  /** The tid TidAt measures is a run of digits. */
  lemma TidDigits(line: string, c: nat)
    requires TidAt(line, c).Some?
    ensures Span(line, c + 1, c + 1 + TidAt(line, c).value, Digit)
  {
    RunSpan(line, c + 1, Digit);
  }

  /** A line kept up to the end of a NEW_EVENT_PATTERN head and closed as the rewrite closes it matches EVENT_PATTERN. */
  lemma KeptHeadMatchesEvent(line: string, y: string, c: nat, e: nat)
    requires LeadingStamp(line).Some? && NewComm(line, LeadingStamp(line).value.space + 1, c)
    requires NewEnd(line, LeadingStamp(line).value.space + 1, c) == Some(e)
    requires |y| >= e + 2 && y[e] == '(' && y[|y| - 1] == ')' && Span(y, e + 1, |y| - 1, NotNewline)
    requires forall k {:trigger line[k]} :: 0 <= k < e ==> line[k] == y[k + 0]
    ensures MatchEvent(y).Some? && LeadingStamp(y) == LeadingStamp(line)
  {
    var cs := LeadingStamp(line).value.space + 1;
    StampKept(line, y, e);
    var t := TidAt(line, c).value;
    TidDigits(line, c);
    assert NewHeadEnd(line, cs, c, t, e);
    HeadKeptSplits(line, y, cs, c, t, e);
    SplitMatchesEvent(y, cs, c);
  }

  /** A slash after which the rest of EVENT_PATTERN matches makes the whole pattern match. */
  lemma SplitMatchesEvent(y: string, cs: nat, c: nat)
    requires LeadingStamp(y).Some? && cs == LeadingStamp(y).value.space + 1 && EventSplit(y, cs, c)
    ensures MatchEvent(y).Some?
  {
    EventCommEndIsLast(y, cs);
  }

  /** The rewrite with the comm ending at `c` and the head at `e` matches EVENT_PATTERN and keeps the stamp. */
  lemma RewriteAtMatchesEvent(line: string, c: nat, e: nat)
    requires LeadingStamp(line).Some? && NewComm(line, LeadingStamp(line).value.space + 1, c)
    requires NewEnd(line, LeadingStamp(line).value.space + 1, c) == Some(e)
    ensures NewTail(line, e).Some?
    ensures var y := RewriteNew(line, NewGroups(line, e));
      MatchEvent(y).Some? && LeadingStamp(y) == LeadingStamp(line)
  {
    var g := NewGroups(line, e);
    RewriteLayout(line, g);
    KeptHeadMatchesEvent(line, RewriteNew(line, g), c, e);
  }

  /** The rewrite of a NEW_EVENT_PATTERN line always matches EVENT_PATTERN, and keeps the stamp. */
  lemma RewriteMatchesEvent(line: string)
    requires MatchNew(line).Some?
    ensures var y := RewriteNew(line, MatchNew(line).value);
      MatchEvent(y).Some? && LeadingStamp(y) == LeadingStamp(line)
  {
    MatchNewIs(line);
    var cs := LeadingStamp(line).value.space + 1;
    var c := NewCommEnd(line, cs).value;
    RewriteAtMatchesEvent(line, c, NewEnd(line, cs, c).value);
  }

  /** The stamp group of an EVENT_PATTERN match, as `parse_event` reads it, is the line's leading stamp in seconds. */
  lemma HeaderStamp(line: string)
    requires MatchEvent(line).Some?
    ensures EventDigits(line, MatchEvent(line).value)
    ensures HeaderOf(line, MatchEvent(line).value).ts == StampSeconds(line)
  {
    MatchEventDigits(line);
    MatchEventIs(line);
  }

  /** Agreeing beyond the stamp, two lines have the same stamp value. */
  lemma StampSecondsKept(line: string, y: string, n: nat)
    requires LeadingStamp(line).Some? && LeadingStamp(line).value.space < n <= |y| && n <= |line|
    requires forall k {:trigger line[k]} :: 0 <= k < n ==> line[k] == y[k + 0]
    ensures LeadingStamp(y) == LeadingStamp(line) && StampSeconds(y) == StampSeconds(line)
  {
    StampKept(line, y, n);
    var l := LeadingStamp(line).value;
    assert y[l.start..l.dot] == line[l.start..l.dot] by {
      forall k | l.start <= k < l.dot ensures y[k] == line[k] { assert line[k] == y[k + 0]; }
    }
    assert y[l.dot + 1..l.space] == line[l.dot + 1..l.space] by {
      forall k | l.dot + 1 <= k < l.space ensures y[k] == line[k] { assert line[k] == y[k + 0]; }
    }
  }

  /** A NEW_EVENT_PATTERN line always yields a header, whose timestamp is the line's own stamp in seconds. */
  lemma NewToEventStamp(line: string)
    requires MatchNew(line).Some?
    ensures NewToEvent(line).Some? && NewToEvent(line).value.ts == StampSeconds(line)
  {
    MatchNewIs(line);
    var g := MatchNew(line).value;
    RewriteLayout(line, g);
    var y := RewriteNew(line, g);
    RewriteMatchesEvent(line);
    HeaderStamp(y);
    StampSecondsKept(line, y, g.head.hi);
  }

  /**
   * `parse_event` accepts every line in the perf-trace formats, and the
   * header's timestamp is the line's leading stamp read as milliseconds and
   * given in seconds.
   */
  lemma ParsedStampInSeconds(line: string)
    requires MatchEvent(line).Some? || MatchNew(line).Some?
    ensures ParseEvent(line).Some? && ParseEvent(line).value.ts == StampSeconds(line)
  {
    if MatchEvent(line).Some? {
      HeaderStamp(line);
    } else {
      NewToEventStamp(line);
    }
  }

  // ---------------------------------------------------------------------
  // Newer-format and script-format lines built from their parts

  /** What each part of a newer-format line admits, besides the stamp. */
  predicate NewRest(n: NewLine)
  {
    && NoNewline(n.comm) && n.tid != [] && All(n.tid, Digit) && NoNewline(n.name) && ':' in n.name
    && n.ip != [] && All(n.ip, LowerHex) && ArgsAt(n.args, 0)
  }

  predicate NewParts(n: NewLine)
  {
    IsStamp(n.stamp) && NewRest(n)
  }

  /** `line` is laid out as the parts of `n`, each where RenderNew puts it. */
  predicate NewPlaced(line: string, n: NewLine)
  {
    && |line| == n.ArgsStart() + |n.args|
    && Placed(line, 0, n.stamp) && line[|n.stamp|] == ' ' && Placed(line, |n.stamp| + 1, n.comm)
    && line[n.Slash()] == '/' && Placed(line, n.Slash() + 1, n.tid) && line[n.NameStart() - 1] == ' '
    && Placed(line, n.NameStart(), n.name) && line[n.Colon()] == ':' && line[n.Colon() + 1] == '('
    && Placed(line, n.IpStart(), n.ip) && line[n.IpStart() + |n.ip|] == ')' && line[n.IpStart() + |n.ip| + 1] == ' '
    && Placed(line, n.ArgsStart(), n.args)
  }

  lemma RenderNewPlaces(n: NewLine)
    ensures NewPlaced(RenderNew(n), n)
  {
  }

  /** An argument list copied to the end of another line stays an argument list. */
  lemma ArgsSame(s: string, t: string, i: nat, d: int)
    requires i <= |s| && 0 <= i + d && |t| == |s| + d
    requires forall k {:trigger s[k]} :: i <= k < |s| ==> s[k] == t[k + d]
    ensures ArgsAt(s, i) <==> ArgsAt(t, i + d)
  {
    SpanSame(s, t, i, |s|, d, NotNewline);
    if i + 4 <= |s| {
      assert s[i] == t[i + d] && s[i + 1] == t[i + 1 + d] && s[i + 2] == t[i + 2 + d] && s[i + 3] == t[i + 3 + d];
      RunSame(s, t, i + 4, d, Digit);
      var k := Run(s, i + 4, Digit);
      if i + 4 + k < |s| { assert s[i + 4 + k] == t[i + 4 + k + d]; }
    }
  }

  /** A stamp placed at the start of a line, followed by a space, is the line's leading stamp. */
  lemma StampPlaced(line: string, stamp: string)
    requires Placed(line, 0, stamp) && IsStamp(stamp) && |stamp| < |line| && line[|stamp|] == ' '
    ensures LeadingStamp(line) == Some(StampLead(stamp))
  {
    var l := StampLead(stamp);
    PlacedSame(line, 0, stamp);
    RunSpan(stamp, 0, RegexSpace);
    RunSpan(stamp, l.start, Digit);
    SpanSame(stamp, line, 0, l.start, 0, RegexSpace);
    SpanSame(stamp, line, l.start, l.dot, 0, Digit);
    SpanSame(stamp, line, l.dot + 1, l.space, 0, Digit);
    assert stamp[l.dot] == line[l.dot + 0];
    LeadingStampAt(line, l);
  }

  /** ... and its value in seconds is the stamp's. */
  lemma StampSecondsPlaced(line: string, stamp: string)
    requires Placed(line, 0, stamp) && IsStamp(stamp) && |stamp| < |line| && line[|stamp|] == ' '
    ensures LeadingStamp(line) == Some(StampLead(stamp)) && StampSeconds(line) == StampValue(stamp)
  {
    StampPlaced(line, stamp);
    var l := StampLead(stamp);
    PlacedSame(line, 0, stamp);
    assert line[l.start..l.dot] == stamp[l.start..l.dot] by {
      forall k | l.start <= k < l.dot ensures line[k] == stamp[k] { assert stamp[k] == line[k + 0]; }
    }
    assert line[l.dot + 1..l.space] == stamp[l.dot + 1..l.space] by {
      forall k | l.dot + 1 <= k < l.space ensures line[k] == stamp[k] { assert stamp[k] == line[k + 0]; }
    }
  }

  /** The tail of NEW_EVENT_PATTERN matches at the colon after the probe name. */
  lemma NewTailPlaced(line: string, n: NewLine)
    requires NewRest(n) && NewPlaced(line, n)
    ensures NewTail(line, n.Colon()) == Some(|n.ip|)
  {
    PlacedSpan(line, n.IpStart(), n.ip, LowerHex);
    RunIsUnique(line, n.IpStart(), LowerHex, |n.ip|);
    PlacedSame(line, n.ArgsStart(), n.args);
    ArgsSame(n.args, line, 0, n.ArgsStart());
  }

  /** With the comm ending at the slash RenderNew puts: the tid, and a head ending at the probe name's colon. */
  lemma NewHeadPlaced(line: string, n: NewLine)
    requires NewRest(n) && NewPlaced(line, n)
    ensures TidAt(line, n.Slash()) == Some(|n.tid|)
    ensures NewHeadEnd(line, |n.stamp| + 1, n.Slash(), |n.tid|, n.Colon())
  {
    NewTidPlaced(line, n);
    var m :| 0 <= m < |n.name| && n.name[m] == ':';
    assert line[n.NameStart() + m] == CharAt(n.name, m);
    OccursAt(line, n.NameStart(), n.Colon(), n.NameStart() + m, ':');
    NewHeadOneLine(line, n);
    NewTailPlaced(line, n);
  }

  /** The tid after the comm's slash is the run of digits RenderNew puts there. */
  lemma NewTidPlaced(line: string, n: NewLine)
    requires NewRest(n) && NewPlaced(line, n)
    ensures TidAt(line, n.Slash()) == Some(|n.tid|) && Span(line, n.Slash() + 1, n.Slash() + 1 + |n.tid|, Digit)
  {
    PlacedSpan(line, n.Slash() + 1, n.tid, Digit);
    RunIsUnique(line, n.Slash() + 1, Digit, |n.tid|);
  }

  /** From the comm to the probe name's colon the head has no newline. */
  lemma NewHeadOneLine(line: string, n: NewLine)
    requires NewRest(n) && NewPlaced(line, n) && Span(line, n.Slash() + 1, n.Slash() + 1 + |n.tid|, Digit)
    ensures Span(line, |n.stamp| + 1, n.Colon(), NotNewline)
  {
    PlacedSpan(line, |n.stamp| + 1, n.comm, NotNewline);
    PlacedSpan(line, n.NameStart(), n.name, NotNewline);
    forall k | |n.stamp| + 1 <= k < n.Colon() ensures In(line[k], NotNewline) {
      if n.Slash() < k < n.NameStart() - 1 { assert In(line[k], Digit); }
    }
  }

  /** NEW_EVENT_PATTERN matches a line laid out as parts it admits, and finds its stamp. */
  lemma MatchNewPlaced(line: string, n: NewLine)
    requires NewParts(n) && NewPlaced(line, n)
    ensures MatchNew(line).Some? && LeadingStamp(line) == Some(StampLead(n.stamp))
  {
    StampPlaced(line, n.stamp);
    NewHeadPlaced(line, n);
    var cs := |n.stamp| + 1;
    NewEndIsLast(line, cs, n.Slash());
    assert NewEnd(line, cs, n.Slash()).Some?;
    PlacedSpan(line, cs, n.comm, NotNewline);
    assert NewComm(line, cs, n.Slash());
    assert LeadingStamp(line).value.space + 1 == cs;
    MatchNewOfComm(line, cs, n.Slash());
  }

  /** Once some slash ends a comm that admits a match, NEW_EVENT_PATTERN matches. */
  lemma MatchNewOfComm(line: string, cs: nat, c: nat)
    requires LeadingStamp(line).Some? && cs == LeadingStamp(line).value.space + 1
    requires c < |line| && NewComm(line, cs, c)
    ensures MatchNew(line).Some?
  {
    NewCommEndIsLast(line, cs);
  }

  /**
   * A newer-format line rendered from parts NEW_EVENT_PATTERN admits always
   * yields a header through the rewrite, with the stamp's value in seconds.
   */
  lemma NewRoundTrip(n: NewLine)
    requires NewParts(n)
    ensures MatchNew(RenderNew(n)).Some?
    ensures NewToEvent(RenderNew(n)).Some? && NewToEvent(RenderNew(n)).value.ts == StampValue(n.stamp)
  {
    var y := RenderNew(n);
    RenderNewPlaces(n);
    MatchNewPlaced(y, n);
    NewToEventStamp(y);
    StampSecondsPlaced(y, n.stamp);
  }

  // ---------------------------------------------------------------------
  // The header a newer-format line yields

  /**
   * What a newer-format line needs, beyond what its pattern admits, for the
   * greedy groups to stop where its parts meet: no slash in the probe name or
   * in the argument text, and no colon in the argument text. The probes print
   * `sdt_libpoireau:NAME` and `argK=N` words, which have neither.
   */
  predicate PlainCall(n: NewLine)
  {
    '/' !in n.name && '/' !in n.args && ':' !in n.args
  }

  /** The call `parse_event` makes of a newer-format line: `name(__probe_ip: N, arg1: v1, ...)`, with the address in decimal. */
  function NewCall(n: NewLine): string
    requires All(n.ip, LowerHex)
  {
    n.name + Bracketed(Join(["__probe_ip: " + Decimal(HexValue(n.ip))] + ReplaceEach(Split(n.args)), ", "))
  }

  /** Past the comm's slash a plain line holds no slash, and past the probe name's colon no colon. */
  lemma PlainPast(line: string, n: NewLine)
    requires NewRest(n) && NewPlaced(line, n) && PlainCall(n)
    ensures forall m :: n.Slash() < m < |line| ==> line[m] != '/'
    ensures forall m :: n.Colon() < m < |line| ==> line[m] != ':'
  {
    forall m | n.Slash() < m < |line| ensures line[m] != '/' && (n.Colon() < m ==> line[m] != ':') {
      if m < n.NameStart() - 1 {
        var i := m - n.Slash() - 1;
        assert line[m] == CharAt(n.tid, i) && In(n.tid[i], Digit);
      } else if n.NameStart() <= m < n.Colon() {
        var i := m - n.NameStart();
        assert line[m] == CharAt(n.name, i) && n.name[i] in n.name;
      } else if n.IpStart() <= m < n.IpStart() + |n.ip| {
        var i := m - n.IpStart();
        assert line[m] == CharAt(n.ip, i) && In(n.ip[i], LowerHex);
      } else if n.ArgsStart() <= m {
        var i := m - n.ArgsStart();
        assert line[m] == CharAt(n.args, i) && n.args[i] in n.args;
      }
    }
  }

  /** For the comm ending at the slash RenderNew puts, the greedy head ends at the probe name's colon. */
  lemma NewEndPlaced(line: string, n: NewLine)
    requires NewRest(n) && NewPlaced(line, n) && PlainCall(n)
    ensures NewEnd(line, |n.stamp| + 1, n.Slash()) == Some(n.Colon())
  {
    NewHeadPlaced(line, n);
    PlainPast(line, n);
    var cs, t := |n.stamp| + 1, |n.tid|;
    forall m | n.Colon() < m < |line| + 1 ensures !NewHeadEnds(line, cs, n.Slash(), t)(m) {
      assert NewTail(line, m).None?;
    }
    LastWhereFinds(n.Slash() + 2 + t, |line| + 1, NewHeadEnds(line, cs, n.Slash(), t), n.Colon());
  }

  /** The greedy comm ends at the slash RenderNew puts. */
  lemma NewCommPlaced(line: string, n: NewLine)
    requires NewRest(n) && NewPlaced(line, n) && PlainCall(n)
    ensures NewCommEnd(line, |n.stamp| + 1) == Some(n.Slash())
  {
    var cs := |n.stamp| + 1;
    NewEndPlaced(line, n);
    PlacedSpan(line, cs, n.comm, NotNewline);
    assert NewComm(line, cs, n.Slash());
    PlainPast(line, n);
    forall m | n.Slash() < m < |line| ensures !NewComms(line, cs)(m) {
      assert TidAt(line, m).None?;
    }
    LastWhereFinds(cs, |line|, NewComms(line, cs), n.Slash());
  }

  /** Once the stamp, the greedy comm and the greedy head are known, so is the match. */
  lemma MatchNewAt(line: string, cs: nat, c: nat, e: nat)
    requires LeadingStamp(line).Some? && LeadingStamp(line).value.space + 1 == cs
    requires NewCommEnd(line, cs) == Some(c) && NewEnd(line, cs, c) == Some(e)
    ensures NewTail(line, e).Some? && MatchNew(line) == Some(NewGroups(line, e))
  {
  }

  /** On a plain line laid out as parts it admits, NEW_EVENT_PATTERN captures exactly the head, the address and the arguments. */
  lemma {:induction false} MatchNewExact(line: string, n: NewLine)
    requires NewParts(n) && NewPlaced(line, n) && PlainCall(n)
    ensures MatchNew(line) == Some(NewMatch(Group(0, n.Colon()), Group(n.IpStart(), n.IpStart() + |n.ip|), Group(n.ArgsStart(), |line|)))
  {
    NewPlacedEnds(line, n);
    MatchNewEnds(line, n);
  }

  /** Given where the comm, the head and the address of such a line end, the match captures its head, address and arguments. */
  lemma MatchNewEnds(line: string, n: NewLine)
    requires LeadingStamp(line).Some? && LeadingStamp(line).value.space + 1 == |n.stamp| + 1
    requires NewCommEnd(line, |n.stamp| + 1) == Some(n.Slash()) && NewEnd(line, |n.stamp| + 1, n.Slash()) == Some(n.Colon())
    requires NewTail(line, n.Colon()) == Some(|n.ip|)
    ensures MatchNew(line) == Some(NewMatch(Group(0, n.Colon()), Group(n.IpStart(), n.IpStart() + |n.ip|), Group(n.ArgsStart(), |line|)))
  {
    MatchNewCuts(line, |n.stamp| + 1, n.Slash(), n.Colon(), n.IpStart(), |n.ip|, n.ArgsStart());
  }

  /** Where the comm, the head and the address of such a line end, as the parts of NEW_EVENT_PATTERN find them. */
  lemma NewPlacedEnds(line: string, n: NewLine)
    requires NewParts(n) && NewPlaced(line, n) && PlainCall(n)
    ensures LeadingStamp(line).Some? && LeadingStamp(line).value.space + 1 == |n.stamp| + 1
    ensures NewCommEnd(line, |n.stamp| + 1) == Some(n.Slash()) && NewEnd(line, |n.stamp| + 1, n.Slash()) == Some(n.Colon())
    ensures NewTail(line, n.Colon()) == Some(|n.ip|)
  {
    StampPlaced(line, n.stamp);
    NewCommPlaced(line, n);
    NewEndPlaced(line, n);
    NewTailPlaced(line, n);
  }

  /** Given where the comm, the head and the address end, the match is those groups. */
  lemma MatchNewCuts(line: string, cs: nat, c: nat, e: nat, ip: nat, h: nat, args: nat)
    requires LeadingStamp(line).Some? && LeadingStamp(line).value.space + 1 == cs
    requires NewCommEnd(line, cs) == Some(c) && NewEnd(line, cs, c) == Some(e) && NewTail(line, e) == Some(h)
    requires ip == e + 2 && args == ip + h + 2
    ensures MatchNew(line) == Some(NewMatch(Group(0, e), Group(ip, ip + h), Group(args, |line|)))
  {
    MatchNewAt(line, cs, c, e);
    NewGroupsAt(line, e, h);
  }

  /** The groups NEW_EVENT_PATTERN captures around the head's end `e` and an address of `h` digits. */
  lemma NewGroupsAt(line: string, e: nat, h: nat)
    requires NewTail(line, e) == Some(h)
    ensures NewGroups(line, e) == NewMatch(Group(0, e), Group(e + 2, e + 2 + h), Group(e + 4 + h, |line|))
  {
  }

  /** ReplaceEach of a list with a first word: that word replaced, then the rest. */
  lemma ReplaceEachCons(h: string, words: seq<string>)
    ensures ReplaceEach([h] + words) == [Replace(h, '=', ": ")] + ReplaceEach(words)
  {
    assert ([h] + words)[1..] == words;
  }

  /** `label=value` becomes `label: value` when neither part has an `=`. */
  lemma ReplaceLabel(a: string, d: string)
    requires '=' !in a && '=' !in d
    ensures Replace(a + "=" + d, '=', ": ") == a + ": " + d
  {
    ReplaceAppend(a + "=", d, '=', ": ");
    ReplaceAppend(a, "=", '=', ": ");
  }

  /** `__probe_ip=` and a decimal address become `__probe_ip: ` and the address. */
  lemma ReplaceProbeIp(d: string)
    requires All(d, Digit)
    ensures Replace("__probe_ip=" + d, '=', ": ") == "__probe_ip: " + d
  {
    assert '=' !in d by {
      forall k | 0 <= k < |d| ensures d[k] != '=' { assert In(d[k], Digit); }
    }
    ReplaceLabel("__probe_ip", d);
    assert "__probe_ip" + "=" + d == "__probe_ip=" + d;
    assert "__probe_ip" + ": " + d == "__probe_ip: " + d;
  }

  /** The rewrite of a match, given what its three groups capture. */
  lemma RewriteOfCaptures(line: string, g: NewMatch, head: string, ip: string, args: string)
    requires NewHex(line, g) && All(ip, LowerHex)
    requires Captured(line, g.head) == head && Captured(line, g.ip) == ip && Captured(line, g.args) == args
    ensures RewriteNew(line, g) == head + Bracketed(Join(["__probe_ip: " + Decimal(HexValue(ip))] + ReplaceEach(Split(args)), ", "))
  {
    var d := Decimal(HexValue(ip));
    ReplaceEachCons("__probe_ip=" + d, Split(args));
    ReplaceProbeIp(d);
  }

  /** What the three groups of MatchNewExact capture in a rendered line. */
  lemma RenderNewCaptures(n: NewLine)
    ensures var line := RenderNew(n);
      && line[0..n.Colon()] == n.stamp + " " + n.comm + "/" + n.tid + " " + n.name
      && line[n.IpStart()..n.IpStart() + |n.ip|] == n.ip
      && line[n.ArgsStart()..|line|] == n.args
  {
    var lead := n.stamp + " " + n.comm + "/" + n.tid + " " + n.name;
    var line := RenderNew(n);
    assert line == lead + ":(" + n.ip + ") " + n.args;
    assert line == lead + ":(" + n.ip + (") " + n.args);
  }

  /** The rewrite of a rendered plain line: the stamp, comm and tid kept, then the call NewCall describes. */
  lemma RewriteRendered(n: NewLine)
    requires NewParts(n) && PlainCall(n)
    ensures MatchNew(RenderNew(n)).Some?
    ensures RewriteNew(RenderNew(n), MatchNew(RenderNew(n)).value) == n.stamp + " " + n.comm + "/" + n.tid + " " + NewCall(n)
  {
    MatchRendered(n);
    var g := MatchNew(RenderNew(n)).value;
    RenderedCaptures(n, g);
    RewriteOfRendered(RenderNew(n), n, g);
  }

  /** What those groups capture. */
  lemma RenderedCaptures(n: NewLine, g: NewMatch)
    requires g == NewMatch(Group(0, n.Colon()), Group(n.IpStart(), n.IpStart() + |n.ip|), Group(n.ArgsStart(), |RenderNew(n)|))
    ensures NewHex(RenderNew(n), g) ==> 
      && Captured(RenderNew(n), g.head) == n.stamp + " " + n.comm + "/" + n.tid + " " + n.name
      && Captured(RenderNew(n), g.ip) == n.ip && Captured(RenderNew(n), g.args) == n.args
  {
    RenderNewCaptures(n);
  }

  /** NEW_EVENT_PATTERN on a rendered plain line: the head up to the probe name's colon, the address, the arguments. */
  lemma MatchRendered(n: NewLine)
    requires NewParts(n) && PlainCall(n)
    ensures MatchNew(RenderNew(n)) == Some(NewMatch(Group(0, n.Colon()), Group(n.IpStart(), n.IpStart() + |n.ip|), Group(n.ArgsStart(), |RenderNew(n)|)))
  {
    RenderNewPlaces(n);
    MatchNewExact(RenderNew(n), n);
  }

  /** ... the rewrite itself, once the groups and what they capture are known. */
  lemma RewriteOfRendered(line: string, n: NewLine, g: NewMatch)
    requires All(n.ip, LowerHex) && NewHex(line, g)
    requires Captured(line, g.head) == n.stamp + " " + n.comm + "/" + n.tid + " " + n.name
    requires Captured(line, g.ip) == n.ip && Captured(line, g.args) == n.args
    ensures RewriteNew(line, g) == n.stamp + " " + n.comm + "/" + n.tid + " " + NewCall(n)
  {
    var lead := n.stamp + " " + n.comm + "/" + n.tid + " ";
    var b := Bracketed(Join(["__probe_ip: " + Decimal(HexValue(n.ip))] + ReplaceEach(Split(n.args)), ", "));
    RewriteOfCaptures(line, g, lead + n.name, n.ip, n.args);
    AppendAssoc(lead, n.name, b);
  }

  /** A character absent from the argument text, from `__probe_ip: `, from `, ` and from the digits is absent from the rewritten arguments. */
  lemma NewArgsAvoid(n: NewLine, c: char)
    requires All(n.ip, LowerHex) && c !in n.args && c !in "__probe_ip: , " && !IsDigit(c)
    ensures c !in Join(["__probe_ip: " + Decimal(HexValue(n.ip))] + ReplaceEach(Split(n.args)), ", ")
  {
    var words := Split(n.args);
    SplitAvoids(n.args, c);
    var d := Decimal(HexValue(n.ip));
    var parts := ["__probe_ip: " + d] + ReplaceEach(words);
    assert c !in d by {
      forall i | 0 <= i < |d| ensures d[i] != c { assert In(d[i], Digit); }
    }
    forall k | 0 <= k < |parts| ensures c !in parts[k] {
      if k > 0 { assert parts[k] == Replace(words[k - 1], '=', ": "); }
    }
    JoinAvoids(parts, ", ", c);
  }

  /** A name with a colon, then a bracketed text, both on one line, has EVENT_PATTERN's call shape. */
  lemma BracketedShape(name: string, j: string, m: nat)
    requires NoNewline(name) && NoNewline(j) && m < |name| && name[m] == ':'
    ensures CallShapeAt(name + Bracketed(j), 0)
  {
    var call := name + Bracketed(j);
    forall k | 0 <= k < |call| ensures In(call[k], NotNewline) {
      if k < |name| { assert call[k] == name[k]; }
      else if |name| < k < |call| - 1 { assert call[k] == j[k - |name| - 1]; }
    }
    PrecedesAt(call, 0, |call| - 1, m, |name|, ':', '(');
  }

  /** The call a plain line's rewrite ends with has EVENT_PATTERN's call shape and no slash. */
  lemma NewCallShape(n: NewLine)
    requires NewRest(n) && PlainCall(n)
    ensures CallShapeAt(NewCall(n), 0) && '/' !in NewCall(n)
  {
    var j := Join(["__probe_ip: " + Decimal(HexValue(n.ip))] + ReplaceEach(Split(n.args)), ", ");
    NoNewlineAvoids(n.args);
    NewArgsAvoid(n, '\n');
    NewArgsAvoid(n, '/');
    NoNewlineAvoids(j);
    var m :| 0 <= m < |n.name| && n.name[m] == ':';
    BracketedShape(n.name, j, m);
  }

  /** The rewrite of a plain line as the parts of an EVENT_PATTERN line: the stamp split at its dot, the comm, the tid and NewCall. */
  function NewEvent(n: NewLine): (e: EventLine)
    requires NewParts(n)
    ensures e.comm == n.comm && e.tid == n.tid && e.call == NewCall(n)
  {
    var l := StampLead(n.stamp);
    RunSpan(n.stamp, Run(n.stamp, 0, RegexSpace), Digit);
    EventLine(n.stamp[..l.start], n.stamp[l.start..l.dot], n.stamp[l.dot + 1..l.space], n.comm, n.tid, NewCall(n))
  }

  /** A stamp is its indentation, its whole digits, a dot and its fraction digits, and its value is theirs. */
  lemma StampSplit(s: string)
    requires IsStamp(s)
    ensures var l := StampLead(s);
      && l.start <= l.dot < l.space == |s|
      && All(s[..l.start], RegexSpace) && s[l.start..l.dot] != [] && All(s[l.start..l.dot], Digit) && All(s[l.dot + 1..l.space], Digit)
      && s == s[..l.start] + s[l.start..l.dot] + "." + s[l.dot + 1..l.space]
      && DecimalReal(s[l.start..l.dot], s[l.dot + 1..l.space]) / 1000.0 == StampValue(s)
  {
    var l := StampLead(s);
    RunSpan(s, 0, RegexSpace);
    RunSpan(s, l.start, Digit);
    SpanSlice(s, 0, l.start, RegexSpace);
    SpanSlice(s, l.start, l.dot, Digit);
    SpanSlice(s, l.dot + 1, l.space, Digit);
    assert s == s[..l.start] + s[l.start..l.dot] + "." + s[l.dot + 1..l.space];
  }

  /** Those parts are admitted by EVENT_PATTERN, render the rewrite, and hold the stamp's value. */
  lemma NewEventParts(n: NewLine)
    requires NewParts(n) && PlainCall(n)
    ensures var e := NewEvent(n);
      && EventParts(e) && '/' !in e.call
      && e.comm == n.comm && e.tid == n.tid && e.call == NewCall(n)
      && RenderEvent(e) == n.stamp + " " + n.comm + "/" + n.tid + " " + NewCall(n)
      && DecimalReal(e.whole, e.fraction) / 1000.0 == StampValue(n.stamp)
  {
    var e := NewEvent(n);
    NewEventShape(n);
    NewEventStamp(n);
    RenderEventStamp(e, n.stamp);
  }

  /** The rewrite of plain parts is admitted by EVENT_PATTERN, and its call holds no slash. */
  lemma NewEventShape(n: NewLine)
    requires NewParts(n) && PlainCall(n)
    ensures EventParts(NewEvent(n)) && '/' !in NewEvent(n).call
  {
    StampSplit(n.stamp);
    NewCallShape(n);
  }

  /** The stamp groups of the rewrite put together are the stamp, and hold its value. */
  lemma NewEventStamp(n: NewLine)
    requires NewParts(n)
    ensures var e := NewEvent(n);
      && n.stamp == e.indent + e.whole + "." + e.fraction
      && All(e.whole, Digit) && All(e.fraction, Digit)
      && DecimalReal(e.whole, e.fraction) / 1000.0 == StampValue(n.stamp)
  {
    StampSplit(n.stamp);
  }

  /** An event line rendered is its stamp, then the rest of its parts in order. */
  lemma RenderEventStamp(e: EventLine, stamp: string)
    requires stamp == e.indent + e.whole + "." + e.fraction
    ensures RenderEvent(e) == stamp + " " + e.comm + "/" + e.tid + " " + e.call
  {
  }

  /**
   * The header a newer-format line built from plain parts yields through
   * the rewrite: the stamp (read as milliseconds) in seconds, the comm, the
   * tid, and the call with the address in decimal and each `=` of the
   * arguments turned into `: `.
   */
  lemma NewToEventHeader(n: NewLine)
    requires NewParts(n) && PlainCall(n)
    ensures NewToEvent(RenderNew(n)) == Some(Header(StampValue(n.stamp), n.comm, DecimalValue(n.tid), NewCall(n)))
  {
    RewriteRendered(n);
    NewEventHeader(n);
    NewToEventOfRewrite(RenderNew(n), RenderEvent(NewEvent(n)));
  }

  /** The EVENT_PATTERN line NewEvent describes is the rewrite, and it parses to the stamp's value, the comm, the tid and NewCall. */
  lemma NewEventHeader(n: NewLine)
    requires NewParts(n) && PlainCall(n)
    ensures RenderEvent(NewEvent(n)) == n.stamp + " " + n.comm + "/" + n.tid + " " + NewCall(n)
    ensures MatchEvent(RenderEvent(NewEvent(n))).Some?
    ensures ParseEvent(RenderEvent(NewEvent(n))) == Some(Header(StampValue(n.stamp), n.comm, DecimalValue(n.tid), NewCall(n)))
  {
    var e := NewEvent(n);
    NewEventParts(n);
    var h := Header(DecimalReal(e.whole, e.fraction) / 1000.0, e.comm, DecimalValue(e.tid), e.call);
    assert MatchEvent(RenderEvent(e)).Some? by { EventRoundTrip(e); }
    assert ParseEvent(RenderEvent(e)) == Some(h) by { ParseRenderedEvent(e); }
    assert h == Header(StampValue(n.stamp), n.comm, DecimalValue(n.tid), NewCall(n));
  }

  /** Once the rewrite of a newer-format line matches EVENT_PATTERN, its header is the rewrite's. */
  lemma NewToEventOfRewrite(line: string, y: string)
    requires MatchNew(line).Some? && RewriteNew(line, MatchNew(line).value) == y && MatchEvent(y).Some?
    ensures NewToEvent(line) == ParseEvent(y)
  {
  }

  /** `parse_event` on a newer-format line built from plain parts whose arguments do not end in `)`, so that EVENT_PATTERN refuses it as it stands. */
  lemma ParseNewLine(n: NewLine)
    requires NewParts(n) && PlainCall(n) && (n.args == [] || n.args[|n.args| - 1] != ')')
    ensures ParseEvent(RenderNew(n)) == Some(Header(StampValue(n.stamp), n.comm, DecimalValue(n.tid), NewCall(n)))
  {
    var line := RenderNew(n);
    RenderNewPlaces(n);
    assert line[|line| - 1] != ')' by {
      if n.args != [] { assert line[|line| - 1] == CharAt(n.args, |n.args| - 1); }
    }
    NoCallShapeNoEvent(line);
    RewriteRendered(n);
    NewToEventHeader(n);
  }

  /** A line that does not end in `)` has no EVENT_PATTERN match. */
  lemma NoCallShapeNoEvent(line: string)
    requires line == [] || line[|line| - 1] != ')'
    ensures MatchEvent(line).None?
  {
  }

  /**
   * `parse_event` on a script-format line whose pieces are plain: the header
   * of the reordered line. Its comm is the `comm/tid` group, its tid the pid
   * group, and its timestamp the timestamp group divided by 1000, like the
   * perf-trace stamps; this holds exactly when that group has a dot.
   */
  lemma ParseScriptHeader(line: string)
    requires MatchEvent(line).None? && MatchNew(line).None? && MatchScript(line).Some?
    requires var n := ScriptPieces(line, MatchScript(line).value); '.' in n.stamp && PlainCall(n)
    ensures var n := ScriptPieces(line, MatchScript(line).value);
      && NewParts(n)
      && ParseEvent(line) == Some(Header(StampValue(n.stamp), n.comm, DecimalValue(n.tid), NewCall(n)))
  {
    var n := ScriptPieces(line, MatchScript(line).value);
    ScriptPiecesParts(line);
    StampShapeIsStamp(n.stamp);
    NewToEventHeader(n);
  }

  /**
   * What the timestamp group of SCRIPT_EVENT_PATTERN admits: digits, then
   * either nothing more or one character other than a newline and more
   * digits (the unescaped `.` of `[0-9]+.[0-9]+`).
   */
  predicate StampShape(s: string)
  {
    var d := Run(s, 0, Digit);
    d > 0 && (d == |s| || (d + 1 < |s| && s[d] != '\n' && Span(s, d + 1, |s|, Digit)))
  }

  /** A timestamp group is a stamp exactly when it holds a dot. */
  lemma StampShapeIsStamp(s: string)
    requires StampShape(s)
    ensures '.' in s <==> IsStamp(s)
  {
    var d := Run(s, 0, Digit);
    RunSpan(s, 0, Digit);
    assert In(s[0], Digit);
    RunIsUnique(s, 0, RegexSpace, 0);
    if '.' in s {
      var k :| 0 <= k < |s| && s[k] == '.';
      assert !In(s[k], Digit);
    }
    if IsStamp(s) {
      assert s[d] in s;
    }
  }

  /** A dotless timestamp group at the start of a line leaves no leading stamp. */
  lemma NoDotNoStamp(line: string, stamp: string)
    requires Placed(line, 0, stamp) && |stamp| < |line| && line[|stamp|] == ' '
    requires StampShape(stamp) && '.' !in stamp
    ensures LeadingStamp(line).None?
  {
    PlacedSame(line, 0, stamp);
    var d := Run(stamp, 0, Digit);
    RunSpan(stamp, 0, Digit);
    assert In(stamp[0], Digit) && stamp[0] == line[0 + 0];
    RunIsUnique(line, 0, RegexSpace, 0);
    SpanSame(stamp, line, 0, d, 0, Digit);
    if d < |stamp| {
      assert stamp[d] == line[d + 0] && stamp[d] in stamp;
    }
    RunIsUnique(line, 0, Digit, d);
  }

  /** The timestamp group SCRIPT_EVENT_PATTERN settles on has the shape its pattern gives. */
  lemma StampEndsShape(line: string, i: nat, x: nat)
    requires i <= |line| && x in StampEnds(line, i)
    ensures i < x <= |line| && StampShape(line[i..x])
  {
    var d := Run(line, i, Digit);
    RunSpan(line, i, Digit);
    var s := line[i..x];
    forall k | 0 <= k < d ensures In(s[k], Digit) { assert s[k] == line[i + k]; }
    if x > i + d {
      var d2 := Run(line, i + d + 1, Digit);
      RunSpan(line, i + d + 1, Digit);
      assert x == i + d + 1 + d2;
      assert s[d] == line[i + d];
      forall k | d + 1 <= k < |s| ensures In(s[k], Digit) { assert s[k] == line[i + k]; }
    }
    RunIsUnique(s, 0, Digit, d);
  }

  /** What MatchScript found: group 1's start, the comm's slash, the places ScriptAt gives and the address. */
  lemma MatchScriptIs(line: string)
    requires MatchScript(line).Some?
    ensures var s := Run(line, 0, RegexSpace);
      && ScriptCommEnd(line, s).Some? && var c := ScriptCommEnd(line, s).value;
      && ScriptAt(line, s, c).Some? && var (g1End, pidEnd, tsStart, tsEnd, ns, f) := ScriptAt(line, s, c).value;
      && ScriptTail(line, f).Some? && var (ipStart, h) := ScriptTail(line, f).value;
      && MatchScript(line).value == ScriptMatch(Group(s, g1End), Group(g1End + 1, pidEnd), Group(tsStart, tsEnd), Group(ns, f),
        Group(ipStart, ipStart + h), Group(ipStart + h + 2, |line|))
  {
  }

  /** The comm and tid, then the pid, as ScriptIds reads them. */
  lemma ScriptIdsShape(line: string, c: nat)
    requires ScriptIds(line, c).Some?
    ensures var (g1End, pidEnd, tsStart) := ScriptIds(line, c).value;
      && line[c] == '/' && Span(line, c + 1, g1End, Digit) && line[g1End] == ' '
      && g1End + 1 < pidEnd && Span(line, g1End + 1, pidEnd, Digit)
  {
    TidDigits(line, c);
    var t := TidAt(line, c).value;
    RunSpan(line, c + 2 + t, Digit);
  }

  lemma ScriptTailShape(line: string, f: nat)
    requires ScriptTail(line, f).Some?
    ensures var (ipStart, h) := ScriptTail(line, f).value;
      h > 0 && Span(line, ipStart, ipStart + h, LowerHex) && ArgsAt(line, ipStart + h + 2)
  {
    var w := Run(line, f + 1, RegexSpace);
    RunSpan(line, f + 2 + w, LowerHex);
  }

  /** What the groups of a SCRIPT_EVENT_PATTERN match admit, said of the line itself. */
  predicate ScriptSpans(line: string, g: ScriptMatch)
  {
    && ScriptWithin(line, g) && Span(line, g.commTid.lo, g.commTid.hi, NotNewline)
    && g.pid.lo < g.pid.hi && Span(line, g.pid.lo, g.pid.hi, Digit)
    && Occurs(line, g.name.lo, g.name.hi, ':') && Span(line, g.name.lo, g.name.hi, NotNewline)
    && g.ip.lo < g.ip.hi && Span(line, g.ip.lo, g.ip.hi, LowerHex)
    && g.args.hi == |line| && ArgsAt(line, g.args.lo) && g.ts.hi in StampEnds(line, g.ts.lo)
  }

  /** The places ScriptAt gives bound a comm and tid without newline, a pid of digits and a timestamp StampEnds offers. */
  lemma ScriptAtSpans(line: string, s: nat, c: nat)
    requires ScriptAt(line, s, c).Some?
    ensures var (g1End, pidEnd, tsStart, tsEnd, ns, f) := ScriptAt(line, s, c).value;
      && Span(line, s, g1End, NotNewline) && g1End + 1 < pidEnd && Span(line, g1End + 1, pidEnd, Digit)
      && tsStart <= |line| && tsEnd in StampEnds(line, tsStart)
  {
    ScriptIdsShape(line, c);
    var (g1End, pidEnd, tsStart) := ScriptIds(line, c).value;
    forall k | s <= k < g1End ensures In(line[k], NotNewline) {
      if c < k { assert In(line[k], Digit); }
    }
  }

  lemma MatchScriptSpans(line: string)
    requires MatchScript(line).Some?
    ensures ScriptSpans(line, MatchScript(line).value)
  {
    MatchScriptIs(line);
    var s := Run(line, 0, RegexSpace);
    var c := ScriptCommEnd(line, s).value;
    var (g1End, pidEnd, tsStart, tsEnd, ns, f) := ScriptAt(line, s, c).value;
    ScriptAtSpans(line, s, c);
    ScriptTailShape(line, f);
  }

  /** The argument list at the end of a line is one on its own. */
  lemma SuffixArgs(line: string, a: nat)
    requires a <= |line| && ArgsAt(line, a)
    ensures ArgsAt(line[a..], 0)
  {
    var d: int := 0 - a as int;
    forall k | a <= k < |line| ensures line[k] == line[a..][k + d] { }
    ArgsSame(line, line[a..], a, d);
  }

  /** A colon somewhere in a stretch is in the slice of that stretch. */
  lemma OccursSlice(line: string, i: nat, j: nat, c: char)
    requires Occurs(line, i, j, c)
    ensures c in line[i..j]
  {
    var k := OccursWhere(line, i, j, c);
    assert line[i..j][k - i] == c;
  }

  /** The captures then admit what the newer format's groups admit, the stamp aside. */
  lemma ScriptSpansPieces(line: string, g: ScriptMatch)
    requires ScriptSpans(line, g)
    ensures var n := ScriptPieces(line, g); NewRest(n) && StampShape(n.stamp)
  {
    StampEndsShape(line, g.ts.lo, g.ts.hi);
    SpanSlice(line, g.commTid.lo, g.commTid.hi, NotNewline);
    SpanSlice(line, g.pid.lo, g.pid.hi, Digit);
    SpanSlice(line, g.name.lo, g.name.hi, NotNewline);
    OccursSlice(line, g.name.lo, g.name.hi, ':');
    SpanSlice(line, g.ip.lo, g.ip.hi, LowerHex);
    SuffixArgs(line, g.args.lo);
    assert Captured(line, g.args) == line[g.args.lo..];
  }

  lemma ScriptPiecesParts(line: string)
    requires MatchScript(line).Some?
    ensures var n := ScriptPieces(line, MatchScript(line).value); NewRest(n) && StampShape(n.stamp)
  {
    MatchScriptSpans(line);
    ScriptSpansPieces(line, MatchScript(line).value);
  }

  /**
   * `parse_event` on a script-format line (one neither EVENT_PATTERN nor
   * NEW_EVENT_PATTERN accepts): the line is reordered into the newer format,
   * which yields a header exactly when the timestamp group holds a dot, and
   * the header's timestamp is that group's value divided by 1000 (the
   * script's stamp is read as milliseconds like the others).
   */
  lemma ParseScriptLine(line: string)
    requires MatchEvent(line).None? && MatchNew(line).None? && MatchScript(line).Some?
    ensures var ts := Captured(line, MatchScript(line).value.ts);
      && (ParseEvent(line).Some? <==> '.' in ts)
      && ('.' in ts ==> IsStamp(ts) && ParseEvent(line).value.ts == StampValue(ts))
  {
    var g := MatchScript(line).value;
    var n := ScriptPieces(line, g);
    var y := RenderNew(n);
    assert ParseEvent(line) == NewToEvent(y);
    ScriptPiecesParts(line);
    StampShapeIsStamp(n.stamp);
    RenderNewPlaces(n);
    if '.' in n.stamp {
      NewRoundTrip(n);
    } else {
      NoDotNoStamp(y, n.stamp);
    }
  }

  // ---------------------------------------------------------------------
  // Frame lines built from their parts

  /** The parts of a perf-trace frame line: indentation, address, gap, symbol, hexadecimal offset if any, dso path. */
  datatype TraceLine = TraceLine(indent: string, addr: string, gap: string, symbol: string, offset: Option<string>, dso: string)
  {
    /** The offset as the line spells it, `+0x` and the digits, or nothing. */
    function OffsetText(): string { if offset.Some? then "+0x" + offset.value else "" }
    function SymStart(): nat { |indent| + |addr| + |gap| }
    function SymEnd(): nat { SymStart() + |symbol| }
    function DsoStart(): nat { SymEnd() + |OffsetText()| + 2 }
  }

  function RenderTrace(t: TraceLine): string
  {
    t.indent + t.addr + t.gap + t.symbol + t.OffsetText() + " (" + t.dso + ")"
  }

  /**
   * A symbol the lazy group 1 captures whole: it does not start with a digit,
   * a dot or whitespace, holds no whitespace and no `+`, and does not end with
   * the colon the offset group as written would take.
   */
  predicate TraceSymbol(s: string)
  {
    s != [] && NotDigitOrDot(s[0]) && All(s, NotPySpace) && '+' !in s && s[|s| - 1] != ':'
  }

  predicate TraceParts(t: TraceLine)
  {
    && All(t.indent, RegexSpace) && |t.addr| >= 4 && All(t.addr, LowerHex) && t.gap != [] && All(t.gap, RegexSpace)
    && TraceSymbol(t.symbol) && (t.offset.Some? ==> t.offset.value != [] && All(t.offset.value, LowerHex))
    && NoNewline(t.dso)
  }

  predicate TracePlaced(line: string, t: TraceLine)
  {
    && |line| == t.DsoStart() + |t.dso| + 1
    && Placed(line, 0, t.indent) && Placed(line, |t.indent|, t.addr) && Placed(line, |t.indent| + |t.addr|, t.gap)
    && Placed(line, t.SymStart(), t.symbol) && Placed(line, t.SymEnd(), t.OffsetText())
    && line[t.DsoStart() - 2] == ' ' && line[t.DsoStart() - 1] == '(' && Placed(line, t.DsoStart(), t.dso)
    && line[|line| - 1] == ')'
  }

  lemma RenderTracePlaces(t: TraceLine)
    ensures TracePlaced(RenderTrace(t), t)
  {
  }

  /** Whitespace of the regular expressions is whitespace to `str.split` too. */
  lemma RegexSpaceIsPySpace(c: char)
    ensures IsRegexSpace(c) ==> IsPySpace(c)
  {
  }

  /** The leading whitespace, the address and the gap are the runs the pattern's first three items take. */
  lemma TraceRunsPlaced(line: string, t: TraceLine)
    requires TraceParts(t) && TracePlaced(line, t)
    ensures Run(line, 0, RegexSpace) == |t.indent|
    ensures Run(line, |t.indent|, LowerHex) == |t.addr|
    ensures Run(line, |t.indent| + |t.addr|, RegexSpace) == |t.gap|
  {
    PlacedSpan(line, 0, t.indent, RegexSpace);
    PlacedSpan(line, |t.indent|, t.addr, LowerHex);
    PlacedSpan(line, |t.indent| + |t.addr|, t.gap, RegexSpace);
    assert line[|t.indent| + 0] == CharAt(t.addr, 0) && In(t.addr[0], LowerHex);
    assert line[|t.indent| + |t.addr| + 0] == CharAt(t.gap, 0) && In(t.gap[0], RegexSpace);
    assert line[t.SymStart() + 0] == CharAt(t.symbol, 0);
    assert In(t.symbol[0], NotPySpace);
    RegexSpaceIsPySpace(t.symbol[0]);
    RunIsUnique(line, 0, RegexSpace, |t.indent|);
    RunIsUnique(line, |t.indent|, LowerHex, |t.addr|);
    RunIsUnique(line, |t.indent| + |t.addr|, RegexSpace, |t.gap|);
  }

  /** The dso group closes the line after the symbol and the offset. */
  lemma TraceDsoPlaced(line: string, t: TraceLine)
    requires TraceParts(t) && TracePlaced(line, t)
    ensures DsoAt(line, t.DsoStart() - 2)
  {
    PlacedSpan(line, t.DsoStart(), t.dso, NotNewline);
  }

  /** After the symbol, the rest of the pattern matches, with the offset group exactly when there is an offset. */
  lemma TraceRestPlaced(line: string, t: TraceLine, colon: bool)
    requires TraceParts(t) && TracePlaced(line, t)
    ensures TraceRest(line, t.SymEnd(), colon) == Some(if t.offset.Some? then Some(t.DsoStart() - 2) else None)
  {
    TraceDsoPlaced(line, t);
    var e := t.SymEnd();
    if t.offset.Some? {
      var off := t.offset.value;
      assert line[e + 0] == CharAt(t.OffsetText(), 0) == '+';
      assert line[e + 1] == CharAt(t.OffsetText(), 1) == '0';
      assert line[e + 2] == CharAt(t.OffsetText(), 2) == 'x';
      forall k | e + 3 <= k < e + 3 + |off| ensures In(line[k], LowerHex) {
        assert line[e + (k - e)] == CharAt(t.OffsetText(), k - e);
        assert t.OffsetText()[k - e] == off[k - e - 3];
      }
      RunIsUnique(line, e + 3, LowerHex, |off|);
    }
  }

  /** No earlier end of the symbol lets the rest of the pattern match. */
  lemma NoEarlierTraceSplit(line: string, t: TraceLine, colon: bool)
    requires TraceParts(t) && TracePlaced(line, t)
    ensures forall m :: t.SymStart() + 1 <= m < t.SymEnd() ==> !TraceSplit(line, t.SymStart(), m, colon)
  {
    PlacedSame(line, t.SymStart(), t.symbol);
    forall m | t.SymStart() + 1 <= m < t.SymEnd() ensures OffsetAt(line, m, colon).None? && !DsoAt(line, m) {
      var k := m - t.SymStart();
      assert t.symbol[k] == line[k + t.SymStart()];
      assert In(t.symbol[k], NotPySpace) && t.symbol[k] in t.symbol;
      if m + 1 < t.SymEnd() {
        assert t.symbol[k + 1] == line[k + 1 + t.SymStart()] && t.symbol[k + 1] in t.symbol;
      }
    }
  }

  /** Group 1 of TRACE_FRAME_PATTERN starts where the symbol does and ends where it does. */
  lemma TraceSymbolPlaced(line: string, t: TraceLine, colon: bool)
    requires TraceParts(t) && TracePlaced(line, t)
    ensures TraceSymbolEnd(line, t.SymStart(), colon) == Some(t.SymEnd())
    ensures TraceStart(line, |t.indent| + |t.addr| + 1, t.SymStart() + 1, colon) == Some(t.SymStart())
  {
    var w := t.SymStart();
    assert line[w + 0] == CharAt(t.symbol, 0);
    PlacedSpan(line, w, t.symbol, NotPySpace);
    forall k | w + 1 <= k < t.SymEnd() ensures In(line[k], NotNewline) { assert In(line[k], NotPySpace); }
    TraceRestPlaced(line, t, colon);
    NoEarlierTraceSplit(line, t, colon);
    FirstWhereFinds(w + 1, |line| + 1, TraceSplits(line, w, colon), t.SymEnd());
    LastWhereFinds(|t.indent| + |t.addr| + 1, w + 1, TraceStarts(line, colon), w);
  }

  /** The groups TRACE_FRAME_PATTERN captures in a line laid out as `t`. */
  function TraceSpans(t: TraceLine): FrameMatch
  {
    FrameMatch(Group(t.SymStart(), t.SymEnd()), if t.offset.Some? then Some(Group(t.SymEnd(), t.DsoStart() - 2)) else None,
      Group(t.DsoStart(), t.DsoStart() + |t.dso|))
  }

  lemma MatchTraceFramePlaced(line: string, t: TraceLine, colon: bool)
    requires TraceParts(t) && TracePlaced(line, t)
    ensures MatchTraceFrame(line, colon) == Some(TraceSpans(t))
  {
    TraceRunsPlaced(line, t);
    TraceSymbolPlaced(line, t, colon);
    TraceRestPlaced(line, t, colon);
    var u := if t.offset.Some? then Some(t.DsoStart() - 2) else None;
    TraceSpansAre(line, t);
    MatchTraceFrameFrom(line, colon, |t.indent|, |t.addr|, |t.gap|, t.SymStart(), t.SymEnd(), u);
  }

  /** The groups of a line laid out as `t`, from the symbol's ends and the end of the rest. */
  lemma TraceSpansAre(line: string, t: TraceLine)
    requires |line| == t.DsoStart() + |t.dso| + 1
    ensures TraceSpans(t) == TraceGroups(line, t.SymStart(), t.SymEnd(), if t.offset.Some? then Some(t.DsoStart() - 2) else None)
  {
  }

  /** What the matcher returns once the runs, the symbol's start and end and the rest are known. */
  lemma MatchTraceFrameFrom(line: string, colon: bool, m: nat, x: nat, ws: nat, w: nat, e: nat, u: Option<nat>)
    requires Run(line, 0, RegexSpace) == m && Run(line, m, LowerHex) == x && Run(line, m + x, RegexSpace) == ws
    requires x >= 4 && ws > 0
    requires w == m + x + ws && TraceStart(line, m + x + 1, w + 1, colon) == Some(w)
    requires TraceSymbolEnd(line, w, colon) == Some(e) && TraceRest(line, e, colon) == Some(u)
    ensures MatchTraceFrame(line, colon) == Some(TraceGroups(line, w, e, u))
  {
    MatchTraceFrameAfter(line, colon, m, x, ws);
    TraceAfterAddressAt(line, m + x, ws, colon, w, e, u);
  }

  /** Past an address of four or more digits and a gap, TRACE_FRAME_PATTERN goes on after the address. */
  lemma MatchTraceFrameAfter(line: string, colon: bool, m: nat, x: nat, ws: nat)
    requires Run(line, 0, RegexSpace) == m && Run(line, m, LowerHex) == x && Run(line, m + x, RegexSpace) == ws
    requires x >= 4 && ws > 0
    ensures MatchTraceFrame(line, colon) == TraceAfterAddress(line, m + x, ws, colon)
  {
  }

  /** Once the symbol starts at `w`, ends at `e` and the rest ends at `u`, those are the groups. */
  lemma TraceAfterAddressAt(line: string, a: nat, ws: nat, colon: bool, w: nat, e: nat, u: Option<nat>)
    requires TraceStart(line, a + 1, a + ws + 1, colon) == Some(w)
    requires TraceSymbolEnd(line, w, colon) == Some(e) && TraceRest(line, e, colon) == Some(u)
    ensures TraceAfterAddress(line, a, ws, colon) == Some(TraceGroups(line, w, e, u))
  {
  }

  /** The texts of those groups are the symbol, the offset text and the dso. */
  lemma TraceCaptures(line: string, t: TraceLine)
    requires TracePlaced(line, t)
    ensures FrameWithin(line, TraceSpans(t))
    ensures Captured(line, TraceSpans(t).symbol) == t.symbol && Captured(line, TraceSpans(t).dso) == t.dso
    ensures t.offset.Some? ==> Captured(line, TraceSpans(t).offset.value) == t.OffsetText()
  {
    PlacedSlice(line, t.SymStart(), t.symbol);
    PlacedSlice(line, t.SymEnd(), t.OffsetText());
    PlacedSlice(line, t.DsoStart(), t.dso);
  }

  /**
   * The perf-trace frame line for its parts: `parse_frame` as written returns
   * the symbol with the offset text (or None) in place of the dso, while the
   * corrected pattern returns the symbol and the dso path.
   */
  lemma TraceFrameRoundTrip(t: TraceLine)
    requires TraceParts(t)
    ensures ParseFrameAsWritten(RenderTrace(t)) == Some((t.symbol, if t.offset.Some? then Some(t.OffsetText()) else None))
    ensures ParseFrame(RenderTrace(t)) == Some(Frame(t.symbol, t.dso))
  {
    var line := RenderTrace(t);
    RenderTracePlaces(t);
    MatchTraceFramePlaced(line, t, true);
    MatchTraceFramePlaced(line, t, false);
    TraceCaptures(line, t);
  }

  /**
   * The example perf-trace frame in the documentation of `parse_frame`:
   * twelve blanks, the address, one blank, `sampled_malloc+0x59` and the
   * library path in parentheses. As written, the second field is `+0x59`;
   * corrected, it is the library path.
   */
  lemma DocumentedTraceFrame()
    ensures var line := RenderTrace(TraceLine("            ", "7f4d353bd14d", " ", "sampled_malloc", Some("59"), "/opt/backtrace/lib/libpoireau.so"));
      && ParseFrameAsWritten(line) == Some(("sampled_malloc", Some("+0x59")))
      && ParseFrame(line) == Some(Frame("sampled_malloc", "/opt/backtrace/lib/libpoireau.so"))
  {
    var t := TraceLine("            ", "7f4d353bd14d", " ", "sampled_malloc", Some("59"), "/opt/backtrace/lib/libpoireau.so");
    DocumentedTraceRuns(t);
    DocumentedTraceSymbol(t);
    TraceFrameRoundTrip(t);
    assert t.OffsetText() == "+0x59";
  }

  /** The documented example frame's indentation, address and gap are well formed. */
  lemma DocumentedTraceRuns(t: TraceLine)
    requires t == TraceLine("            ", "7f4d353bd14d", " ", "sampled_malloc", Some("59"), "/opt/backtrace/lib/libpoireau.so")
    ensures All(t.indent, RegexSpace) && All(t.addr, LowerHex) && All(t.gap, RegexSpace)
  {
    assert All(t.indent, RegexSpace) by {
      forall k | 0 <= k < |t.indent| ensures In(t.indent[k], RegexSpace) { }
    }
    assert All(t.addr, LowerHex) by {
      forall k | 0 <= k < |t.addr| ensures In(t.addr[k], LowerHex) { }
    }
    assert All(t.gap, RegexSpace) by {
      forall k | 0 <= k < |t.gap| ensures In(t.gap[k], RegexSpace) { }
    }
  }

  /** The documented example frame's symbol, offset and dso are well formed. */
  lemma DocumentedTraceSymbol(t: TraceLine)
    requires t == TraceLine("            ", "7f4d353bd14d", " ", "sampled_malloc", Some("59"), "/opt/backtrace/lib/libpoireau.so")
    ensures TraceSymbol(t.symbol) && All(t.offset.value, LowerHex) && NoNewline(t.dso)
  {
    assert All(t.symbol, NotPySpace) by {
      forall k | 0 <= k < |t.symbol| ensures In(t.symbol[k], NotPySpace) { }
    }
    assert '+' !in t.symbol;
    assert All(t.offset.value, LowerHex) by {
      forall k | 0 <= k < |t.offset.value| ensures In(t.offset.value[k], LowerHex) { }
    }
    assert NoNewline(t.dso) by {
      forall k | 0 <= k < |t.dso| ensures In(t.dso[k], NotNewline) { }
    }
  }

  /** The parts of a frame line without an address: indentation, symbol, dso path. */
  datatype PlainLine = PlainLine(indent: string, symbol: string, dso: string)
  {
    function DsoStart(): nat { |indent| + |symbol| + 2 }
  }

  function RenderPlain(p: PlainLine): string
  {
    p.indent + p.symbol + " (" + p.dso + ")"
  }

  /**
   * What FRAME_PATTERN captures whole: a symbol that starts with neither a
   * digit, a dot nor whitespace, and whose leading hexadecimal letters are
   * too short, or not followed by whitespace, to be read as an address; and
   * a dso in which no ` (` could end the greedy symbol later.
   */
  predicate PlainParts(p: PlainLine)
  {
    && All(p.indent, RegexSpace) && p.symbol != [] && NotDigitOrDot(p.symbol[0])
    && !IsRegexSpace(p.symbol[0]) && NoNewline(p.symbol) && NoNewline(p.dso) && NoOpenAfterSpace(p.dso)
    && NoAddress(p.symbol)
  }

  /** The hexadecimal run at the start of `s` is no address followed by a gap. */
  predicate NoAddress(s: string)
  {
    var h := Run(s, 0, LowerHex);
    h < 4 || (h < |s| && !IsRegexSpace(s[h]))
  }

  /** No ` (` in `d`. */
  predicate NoOpenAfterSpace(d: string)
  {
    forall i :: 0 <= i < |d| - 1 && d[i] == ' ' ==> d[i + 1] != '('
  }

  predicate PlainPlaced(line: string, p: PlainLine)
  {
    && |line| == p.DsoStart() + |p.dso| + 1
    && Placed(line, 0, p.indent) && Placed(line, |p.indent|, p.symbol) && line[p.DsoStart() - 2] == ' '
    && line[p.DsoStart() - 1] == '(' && Placed(line, p.DsoStart(), p.dso) && line[|line| - 1] == ')'
  }

  lemma RenderPlainPlaces(p: PlainLine)
    ensures PlainPlaced(RenderPlain(p), p)
  {
  }

  /** A line that starts with its symbol after the indentation has no address for TRACE_FRAME_PATTERN. */
  lemma PlainIsNoTraceFrame(line: string, p: PlainLine, colon: bool)
    requires PlainParts(p) && PlainPlaced(line, p)
    ensures Run(line, 0, RegexSpace) == |p.indent| && MatchTraceFrame(line, colon).None?
  {
    PlacedSpan(line, 0, p.indent, RegexSpace);
    assert line[|p.indent| + 0] == CharAt(p.symbol, 0);
    RunIsUnique(line, 0, RegexSpace, |p.indent|);
    var m := |p.indent|;
    var h := Run(p.symbol, 0, LowerHex);
    RunSpan(p.symbol, 0, LowerHex);
    PlacedSame(line, m, p.symbol);
    forall k | m <= k < m + h ensures In(line[k], LowerHex) {
      assert line[k] == p.symbol[k - m];
    }
    if h < |p.symbol| {
      assert line[m + h] == p.symbol[h];
    } else {
      assert line[m + h] == ' ';
    }
    RunIsUnique(line, m, LowerHex, h);
    if h >= 4 {
      RunIsUnique(line, m + h, RegexSpace, 0);
    }
  }

  /** The greedy symbol of FRAME_PATTERN starting after the indentation ends before the only ` (`. */
  lemma PlainSymbolPlaced(line: string, p: PlainLine)
    requires PlainParts(p) && PlainPlaced(line, p)
    ensures FrameSymbolEnd(line, |p.indent|) == Some(p.DsoStart() - 2)
  {
    var k := |p.indent|;
    var j := p.DsoStart() - 2;
    assert line[k + 0] == CharAt(p.symbol, 0);
    PlacedSpan(line, k, p.symbol, NotNewline);
    PlacedSpan(line, p.DsoStart(), p.dso, NotNewline);
    assert FrameSplit(line, k, j);
    PlacedSame(line, p.DsoStart(), p.dso);
    forall m | j < m < |line| ensures !FrameSplit(line, k, m) {
      if m + 3 <= |line| && m >= p.DsoStart() {
        var i := m - p.DsoStart();
        assert p.dso[i] == line[i + p.DsoStart()];
        assert p.dso[i + 1] == line[i + 1 + p.DsoStart()];
      }
    }
    LastWhereFinds(k + 1, |line|, FrameSplits(line, k), j);
  }

  /** FRAME_PATTERN captures the symbol and the dso of a line laid out as `p`. */
  lemma MatchFramePlaced(line: string, p: PlainLine)
    requires PlainParts(p) && PlainPlaced(line, p)
    ensures MatchFrame(line) == Some(FrameMatch(Group(|p.indent|, p.DsoStart() - 2), None, Group(p.DsoStart(), |line| - 1)))
  {
    PlainIsNoTraceFrame(line, p, false);
    PlainSymbolPlaced(line, p);
    LastWhereFinds(0, |p.indent| + 1, FrameStarts(line), |p.indent|);
  }

  /**
   * A frame line without an address, rendered from parts FRAME_PATTERN
   * captures whole: both readings of `parse_frame` return its symbol and dso.
   */
  lemma PlainFrameRoundTrip(p: PlainLine)
    requires PlainParts(p)
    ensures ParseFrame(RenderPlain(p)) == Some(Frame(p.symbol, p.dso))
    ensures ParseFrameAsWritten(RenderPlain(p)) == Some((p.symbol, Some(p.dso)))
  {
    var line := RenderPlain(p);
    RenderPlainPlaces(p);
    PlainIsNoTraceFrame(line, p, true);
    PlainIsNoTraceFrame(line, p, false);
    MatchFramePlaced(line, p);
    PlacedSlice(line, |p.indent|, p.symbol);
    PlacedSlice(line, p.DsoStart(), p.dso);
  }
}
