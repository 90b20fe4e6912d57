/**
 * `parse_event_calls`: each event's call text is matched against the probe
 * patterns in the order the handlers are registered; the first handler
 * whose pattern matches decides the typed call, and the events whose call
 * is recognised are yielded again with the typed call in place of the text.
 */
module ProbeCalls {
  import opened Wrappers
  import opened Text
  import opened TraceParse
  import opened TraceSegment

  // ---------------------------------------------------------------------
  // `_make_pattern(name, n)`: `sdt_libpoireau:NAME(__probe_ip: D, arg1: (D), ..., argN: (D))`

  /** `\d+` under `re.ASCII`. */
  predicate Number(s: string) { s != [] && All(s, Digit) }

  predicate Numbers(args: seq<string>)
    decreases |args|
  {
    args == [] || (Number(args[0]) && Numbers(args[1..]))
  }

  /** What precedes the probe's address: the probe's name and the open parenthesis. */
  function Head(name: string): string { "sdt_libpoireau:" + name + "(__probe_ip: " }

  /** The separator and label before argument `i` (`", arg%i: "`). */
  function ArgLabel(i: nat): string { ", arg" + Decimal(i) + ": " }

  /** The labels of arguments `i` to `i + m - 1`. */
  function Labels(i: nat, m: nat): (r: seq<string>)
    ensures |r| == m
    decreases m
  {
    if m == 0 then [] else [ArgLabel(i)] + Labels(i + 1, m - 1)
  }

  /** The literal pieces of `_make_pattern(name, n)`, each followed by a `\d+`: the head, then one label per argument. */
  function Tags(name: string, n: nat): (r: seq<string>)
    ensures |r| == n + 1
  {
    [Head(name)] + Labels(1, n)
  }

  /** Each piece followed by its number, then the closing parenthesis. */
  function RenderFields(fields: seq<string>, tags: seq<string>): string
    requires |fields| == |tags|
    decreases |tags|
  {
    if tags == [] then ")" else tags[0] + fields[0] + RenderFields(fields[1..], tags[1..])
  }

  /** A probe call as `perf script` prints it, with address `ip` and arguments `args`. */
  function RenderCall(name: string, ip: string, args: seq<string>): string
  {
    RenderFields([ip] + args, Tags(name, |args|))
  }

  /**
   * The numbers a string of pieces and numbers holds, or None. A `\d+` is
   * followed by a piece or by `)`, neither starting with a digit, so its
   * greedy run is the only one that can let the rest match.
   */
  function MatchFields(s: string, tags: seq<string>): (r: Option<seq<string>>)
    ensures r.Some? ==> |r.value| == |tags|
    decreases |tags|
  {
    if tags == [] then (if s == ")" then Some([]) else None)
    else
      var tag := tags[0];
      if |s| < |tag| || s[..|tag|] != tag then None
      else
        var t := s[|tag|..];
        var d := Run(t, 0, Digit);
        if d == 0 then None
        else
          match MatchFields(t[d..], tags[1..])
          case None => None
          case Some(rest) => Some([t[..d]] + rest)
  }

  /** `_make_pattern(name, n).fullmatch(call)`: the `n` captured arguments (the address is not captured), or None. */
  function MatchPattern(call: string, name: string, n: nat): (r: Option<seq<string>>)
    ensures r.Some? ==> |r.value| == n
  {
    match MatchFields(call, Tags(name, n))
    case None => None
    case Some(fields) => Some(fields[1..])
  }

  /** Pieces that are not empty and do not start with a digit. */
  predicate TagsOk(tags: seq<string>)
    decreases |tags|
  {
    tags == [] || (tags[0] != [] && !IsDigit(tags[0][0]) && TagsOk(tags[1..]))
  }

  lemma {:induction false} LabelsOk(i: nat, m: nat)
    ensures TagsOk(Labels(i, m))
    decreases m
  {
    if m > 0 {
      assert ArgLabel(i)[0] == ',';
      LabelsOk(i + 1, m - 1);
      assert Labels(i, m)[1..] == Labels(i + 1, m - 1);
    }
  }

  lemma TagsAreOk(name: string, n: nat)
    ensures TagsOk(Tags(name, n))
  {
    LabelsOk(1, n);
    assert Tags(name, n)[1..] == Labels(1, n);
  }

  lemma RenderFieldsStart(fields: seq<string>, tags: seq<string>)
    requires |fields| == |tags| && TagsOk(tags)
    ensures RenderFields(fields, tags) != [] && !IsDigit(RenderFields(fields, tags)[0])
  {
    if tags != [] {
      var rest := fields[0] + RenderFields(fields[1..], tags[1..]);
      assert RenderFields(fields, tags) == tags[0] + rest;
      assert (tags[0] + rest)[0] == tags[0][0];
    }
  }

  lemma NumberRun(s: string, t: string)
    requires Number(s)
    ensures Run(s + t, 0, Digit) == |s| || (t != [] && In(t[0], Digit))
  {
    if t == [] || !In(t[0], Digit) {
      forall k | 0 <= k < |s| ensures In((s + t)[k], Digit) { assert (s + t)[k] == s[k]; }
      RunIsUnique(s + t, 0, Digit, |s|);
    }
  }

  /** One piece and its number, and what follows. */
  lemma MatchFieldsStep(s: string, tags: seq<string>, field: string, rest: string)
    requires tags != [] && s == tags[0] + field + rest
    requires Number(field) && rest != [] && !IsDigit(rest[0])
    ensures MatchFields(s, tags) == match MatchFields(rest, tags[1..]) case None => None case Some(r) => Some([field] + r)
  {
    var tag := tags[0];
    assert s == tag + (field + rest);
    assert s[..|tag|] == tag;
    var t := s[|tag|..];
    assert t == field + rest;
    NumberRun(field, rest);
    assert t[..|field|] == field;
    assert t[|field|..] == rest;
  }

  /** The first number after the first piece. */
  function FieldHead(s: string, tags: seq<string>): string
    requires tags != [] && |tags[0]| <= |s|
  {
    var t := s[|tags[0]|..];
    t[..Run(t, 0, Digit)]
  }

  /** What is left after the first piece and its number. */
  function FieldsRest(s: string, tags: seq<string>): string
    requires tags != [] && |tags[0]| <= |s|
  {
    var t := s[|tags[0]|..];
    t[Run(t, 0, Digit)..]
  }

  /** One unfolding of MatchFields on a string it accepts. */
  lemma MatchFieldsOnce(s: string, tags: seq<string>)
    requires tags != [] && MatchFields(s, tags).Some?
    ensures |tags[0]| <= |s| && s[..|tags[0]|] == tags[0] && FieldHead(s, tags) != []
    ensures MatchFields(FieldsRest(s, tags), tags[1..]).Some?
    ensures MatchFields(s, tags).value == [FieldHead(s, tags)] + MatchFields(FieldsRest(s, tags), tags[1..]).value
  {
  }

  /** The piece, its number and the rest make up the string, and the number is one. */
  lemma FieldSplit(s: string, tags: seq<string>)
    requires tags != [] && |tags[0]| <= |s| && s[..|tags[0]|] == tags[0] && FieldHead(s, tags) != []
    ensures s == tags[0] + FieldHead(s, tags) + FieldsRest(s, tags) && Number(FieldHead(s, tags))
  {
    var t := s[|tags[0]|..];
    var d := Run(t, 0, Digit);
    RunSpan(t, 0, Digit);
    assert Number(t[..d]) by { forall k | 0 <= k < d ensures In(t[..d][k], Digit) { assert t[..d][k] == t[k]; } }
    assert t == t[..d] + t[d..];
    assert s == s[..|tags[0]|] + t;
  }

  /** Conversely, what one piece and its number take apart. */
  lemma MatchFieldsUnstep(s: string, tags: seq<string>)
    requires tags != [] && MatchFields(s, tags).Some?
    ensures |tags[0]| <= |s|
    ensures var r := MatchFields(s, tags).value;
      s == tags[0] + r[0] + FieldsRest(s, tags) && MatchFields(FieldsRest(s, tags), tags[1..]) == Some(r[1..])
    ensures Number(MatchFields(s, tags).value[0])
  {
    MatchFieldsOnce(s, tags);
    FieldSplit(s, tags);
    var r := MatchFields(s, tags).value;
    assert r[0] == FieldHead(s, tags) && r[1..] == MatchFields(FieldsRest(s, tags), tags[1..]).value;
  }

  /** Rendered pieces and numbers are matched, capturing the numbers. */
  lemma {:induction false} MatchFieldsComplete(fields: seq<string>, tags: seq<string>)
    requires |fields| == |tags| && Numbers(fields) && TagsOk(tags)
    ensures MatchFields(RenderFields(fields, tags), tags) == Some(fields)
    decreases |tags|
  {
    if tags != [] {
      var s := RenderFields(fields, tags);
      var tail := RenderFields(fields[1..], tags[1..]);
      assert s == tags[0] + fields[0] + tail;
      assert Number(fields[0]) && Numbers(fields[1..]) && TagsOk(tags[1..]);
      RenderFieldsStart(fields[1..], tags[1..]);
      MatchFieldsStep(s, tags, fields[0], tail);
      MatchFieldsComplete(fields[1..], tags[1..]);
      assert [fields[0]] + fields[1..] == fields;
    }
  }

  /** What matches is rendered pieces and numbers. */
  lemma {:induction false} MatchFieldsSound(s: string, tags: seq<string>)
    requires MatchFields(s, tags).Some?
    ensures s == RenderFields(MatchFields(s, tags).value, tags) && Numbers(MatchFields(s, tags).value)
    decreases |tags|
  {
    if tags != [] {
      MatchFieldsUnstep(s, tags);
      MatchFieldsSound(FieldsRest(s, tags), tags[1..]);
    }
  }

  /** A rendered probe call matches its own pattern, capturing its arguments. */
  lemma MatchPatternComplete(name: string, ip: string, args: seq<string>)
    requires Number(ip) && Numbers(args)
    ensures MatchPattern(RenderCall(name, ip, args), name, |args|) == Some(args)
  {
    TagsAreOk(name, |args|);
    assert ([ip] + args)[1..] == args;
    MatchFieldsComplete([ip] + args, Tags(name, |args|));
  }

  /** Whatever matches a pattern is a rendered probe call with some address. */
  lemma MatchPatternSound(call: string, name: string, n: nat)
    requires MatchPattern(call, name, n).Some?
    ensures exists ip :: Number(ip) && call == RenderCall(name, ip, MatchPattern(call, name, n).value)
  {
    var fields := MatchFields(call, Tags(name, n)).value;
    MatchFieldsSound(call, Tags(name, n));
    assert fields == [fields[0]] + fields[1..];
  }

  /** The captures of a pattern are decimal numerals. */
  lemma MatchPatternNumbers(call: string, name: string, n: nat)
    requires MatchPattern(call, name, n).Some?
    ensures Numbers(MatchPattern(call, name, n).value)
  {
    MatchFieldsSound(call, Tags(name, n));
  }

  /** A call that matches a pattern starts with its head. */
  lemma MatchPatternHead(call: string, name: string, n: nat)
    requires MatchPattern(call, name, n).Some?
    ensures Head(name) <= call
  {
    assert Tags(name, n)[0] == Head(name);
  }

  /** How many characters from `i` on come before the first `c`. */
  function UpTo(s: string, i: nat, c: char): nat
    requires i <= |s|
    decreases |s| - i
  {
    if i < |s| && s[i] != c then 1 + UpTo(s, i + 1, c) else 0
  }

  lemma {:induction false} UpToPiece(s: string, i: nat, c: char, piece: string)
    requires i + |piece| < |s| && s[i + |piece|] == c && c !in piece
    requires forall m :: 0 <= m < |piece| ==> s[i + m] == piece[m]
    ensures UpTo(s, i, c) == |piece|
    decreases |piece|
  {
    if piece != [] {
      assert s[i] == piece[0];
      UpToPiece(s, i + 1, c, piece[1..]);
    }
  }

  /** Two probe names without a parenthesis whose patterns both match a call are the same name. */
  lemma HeadsAgree(call: string, a: string, b: string)
    requires '(' !in a && '(' !in b
    requires Head(a) <= call && Head(b) <= call
    ensures a == b
  {
    var k := |"sdt_libpoireau:"|;
    forall m | 0 <= m < |a| ensures call[k + m] == a[m] { assert Head(a)[k + m] == a[m]; }
    forall m | 0 <= m < |b| ensures call[k + m] == b[m] { assert Head(b)[k + m] == b[m]; }
    assert Head(a)[k + |a|] == '(' && Head(b)[k + |b|] == '(';
    UpToPiece(call, k, '(', a);
    UpToPiece(call, k, '(', b);
    assert a == call[k..k + |a|];
    assert b == call[k..k + |b|];
  }

  // ---------------------------------------------------------------------
  // The typed calls and the handler table

  /** The namedtuples the handlers build; the fields are the probe's arguments in order. */
  datatype Call =
    | FreeCall(oldId: nat, oldPtr: nat, oldSize: nat)
    | ReallocTrackedCall(oldId: nat, oldPtr: nat, oldSize: nat, newId: nat, newPtr: nat, newSize: nat)
    | ReallocUntrackedCall(oldPtr: nat, oldSize: nat, newId: nat, newPtr: nat, newSize: nat)
    | ReallocLoseCall(oldId: nat, oldPtr: nat, oldSize: nat, newPtr: nat, newSize: nat)
    | MallocCall(newId: nat, newPtr: nat, newSize: nat)
    | CallocCall(elcount: nat, elsize: nat, newId: nat, newPtr: nat, newSize: nat)
  {
    /** `hasattr(call, "old_id")`: the call releases a tracked allocation. */
    predicate HasOldId() { FreeCall? || ReallocTrackedCall? || ReallocLoseCall? }

    /** `hasattr(call, "new_id")`: the call creates a tracked allocation. */
    predicate HasNewId() { ReallocTrackedCall? || ReallocUntrackedCall? || MallocCall? || CallocCall? }

    /** `type(call).__name__`. */
    function TypeName(): string
    {
      match this
      case FreeCall(_, _, _) => "FreeCall"
      case ReallocTrackedCall(_, _, _, _, _, _) => "ReallocTrackedCall"
      case ReallocUntrackedCall(_, _, _, _, _) => "ReallocUntrackedCall"
      case ReallocLoseCall(_, _, _, _, _) => "ReallocLoseCall"
      case MallocCall(_, _, _) => "MallocCall"
      case CallocCall(_, _, _, _, _) => "CallocCall"
    }

    /** The fields in the order the probe passes them. */
    function Fields(): seq<nat>
    {
      match this
      case FreeCall(a, b, c) => [a, b, c]
      case ReallocTrackedCall(a, b, c, d, e, f) => [a, b, c, d, e, f]
      case ReallocUntrackedCall(a, b, c, d, e) => [a, b, c, d, e]
      case ReallocLoseCall(a, b, c, d, e) => [a, b, c, d, e]
      case MallocCall(a, b, c) => [a, b, c]
      case CallocCall(a, b, c, d, e) => [a, b, c, d, e]
    }
  }

  /** The registered handlers. */
  datatype Handler = MmapFailed | Free | ReallocFromTracked | Realloc | ReallocToRegular | Malloc | CallocOverflow | Calloc
  {
    function Name(): string
    {
      match this
      case MmapFailed => "mmap_failed"
      case Free => "free"
      case ReallocFromTracked => "realloc_from_tracked"
      case Realloc => "realloc"
      case ReallocToRegular => "realloc_to_regular"
      case Malloc => "malloc"
      case CallocOverflow => "calloc_overflow"
      case Calloc => "calloc"
    }

    function Arity(): nat
    {
      match this
      case MmapFailed => 4
      case Free => 3
      case ReallocFromTracked => 6
      case Realloc => 5
      case ReallocToRegular => 5
      case Malloc => 3
      case CallocOverflow => 2
      case Calloc => 5
    }
  }

  /** `CALL_HANDLER_TABLE`, in registration order. */
  const Table: seq<Handler> := [MmapFailed, Free, ReallocFromTracked, Realloc, ReallocToRegular, Malloc, CallocOverflow, Calloc]

  /** The handler that builds each kind of call. */
  function HandlerOf(c: Call): Handler
  {
    match c
    case FreeCall(_, _, _) => Free
    case ReallocTrackedCall(_, _, _, _, _, _) => ReallocFromTracked
    case ReallocUntrackedCall(_, _, _, _, _) => Realloc
    case ReallocLoseCall(_, _, _, _, _) => ReallocToRegular
    case MallocCall(_, _, _) => Malloc
    case CallocCall(_, _, _, _, _) => Calloc
  }

  /**
   * What a handler returns for its arguments: the failure probes
   * (`mmap_failed`, `calloc_overflow`) only report and return None.
   */
  function Handle(h: Handler, v: seq<nat>): Option<Call>
    requires |v| == h.Arity()
  {
    match h
    case MmapFailed => None
    case Free => Some(FreeCall(v[0], v[1], v[2]))
    case ReallocFromTracked => Some(ReallocTrackedCall(v[0], v[1], v[2], v[3], v[4], v[5]))
    case Realloc => Some(ReallocUntrackedCall(v[0], v[1], v[2], v[3], v[4]))
    case ReallocToRegular => Some(ReallocLoseCall(v[0], v[1], v[2], v[3], v[4]))
    case Malloc => Some(MallocCall(v[0], v[1], v[2]))
    case CallocOverflow => None
    case Calloc => Some(CallocCall(v[0], v[1], v[2], v[3], v[4]))
  }

  /** Each typed call is what its own handler builds from its fields; only the failure probes build nothing. */
  lemma HandleFields(c: Call)
    ensures |c.Fields()| == HandlerOf(c).Arity() && Handle(HandlerOf(c), c.Fields()) == Some(c)
  {
  }

  lemma HandleNone(h: Handler, v: seq<nat>)
    requires |v| == h.Arity()
    ensures Handle(h, v).None? <==> h == MmapFailed || h == CallocOverflow
  {
  }

  /** `int(match[k])` for each capture. */
  function Values(args: seq<string>): (r: seq<nat>)
    requires Numbers(args)
    ensures |r| == |args|
    decreases |args|
  {
    if args == [] then [] else [DecimalValue(args[0])] + Values(args[1..])
  }

  /** The arguments as the probe prints them, in decimal. */
  function Numerals(v: seq<nat>): (r: seq<string>)
    ensures |r| == |v| && Numbers(r) && Values(r) == v
    decreases |v|
  {
    if v == [] then []
    else
      var r := [Decimal(v[0])] + Numerals(v[1..]);
      assert r[1..] == Numerals(v[1..]);
      assert v == [v[0]] + v[1..];
      r
  }

  // ---------------------------------------------------------------------
  // Dispatching one call text

  /** No handler matched (the call is counted as `Unknown`), or one did and returned a call or None. */
  datatype Outcome = Unhandled | Handled(result: Option<Call>)

  /** The handlers from position `j` on, tried in order; the first that matches decides. */
  function DispatchFrom(call: string, j: nat): Outcome
    requires j <= |Table|
    decreases |Table| - j
  {
    if j == |Table| then Unhandled
    else
      var h := Table[j];
      match MatchPattern(call, h.Name(), h.Arity())
      case Some(args) =>
        MatchPatternNumbers(call, h.Name(), h.Arity());
        Handled(Handle(h, Values(args)))
      case None => DispatchFrom(call, j + 1)
  }

  function Dispatch(call: string): Outcome { DispatchFrom(call, 0) }

  lemma DispatchHit(call: string, j: nat)
    requires j < |Table| && MatchPattern(call, Table[j].Name(), Table[j].Arity()).Some?
    ensures Numbers(MatchPattern(call, Table[j].Name(), Table[j].Arity()).value)
    ensures DispatchFrom(call, j) == Handled(Handle(Table[j], Values(MatchPattern(call, Table[j].Name(), Table[j].Arity()).value)))
  {
    MatchPatternNumbers(call, Table[j].Name(), Table[j].Arity());
  }

  lemma DispatchMiss(call: string, j: nat)
    requires j < |Table| && MatchPattern(call, Table[j].Name(), Table[j].Arity()).None?
    ensures DispatchFrom(call, j) == DispatchFrom(call, j + 1)
  {
  }

  lemma TableNames(j: nat, k: nat)
    requires j < |Table| && k < |Table| && j != k
    ensures '(' !in Table[j].Name() && Table[j].Name() != Table[k].Name()
  {
  }

  /** Both patterns matching the same call means the same handler. */
  lemma PatternsDisjoint(call: string, j: nat, k: nat)
    requires j < |Table| && k < |Table|
    requires MatchPattern(call, Table[j].Name(), Table[j].Arity()).Some?
    requires MatchPattern(call, Table[k].Name(), Table[k].Arity()).Some?
    ensures j == k
  {
    if j != k {
      MatchPatternHead(call, Table[j].Name(), Table[j].Arity());
      MatchPatternHead(call, Table[k].Name(), Table[k].Arity());
      TableNames(j, k);
      TableNames(k, j);
      HeadsAgree(call, Table[j].Name(), Table[k].Name());
    }
  }

  /** The table's order does not matter: the handler whose pattern matches is the one that decides. */
  lemma {:induction false} DispatchMatching(call: string, j: nat, i: nat)
    requires i <= j < |Table|
    requires MatchPattern(call, Table[j].Name(), Table[j].Arity()).Some?
    ensures Numbers(MatchPattern(call, Table[j].Name(), Table[j].Arity()).value)
    ensures DispatchFrom(call, i) == Handled(Handle(Table[j], Values(MatchPattern(call, Table[j].Name(), Table[j].Arity()).value)))
    decreases j - i
  {
    MatchPatternNumbers(call, Table[j].Name(), Table[j].Arity());
    if i < j {
      if MatchPattern(call, Table[i].Name(), Table[i].Arity()).Some? {
        PatternsDisjoint(call, i, j);
      }
      DispatchMatching(call, j, i + 1);
    }
  }

  /** A call is unhandled exactly when no pattern in the table matches it. */
  lemma {:induction false} DispatchUnhandled(call: string, i: nat)
    requires i <= |Table|
    ensures DispatchFrom(call, i).Unhandled? <==> forall j :: i <= j < |Table| ==> MatchPattern(call, Table[j].Name(), Table[j].Arity()).None?
    decreases |Table| - i
  {
    if i < |Table| {
      if MatchPattern(call, Table[i].Name(), Table[i].Arity()).Some? {
        DispatchHit(call, i);
      } else {
        DispatchMiss(call, i);
      }
      DispatchUnhandled(call, i + 1);
    }
  }

  lemma HandlerInTable(h: Handler)
    ensures exists j :: 0 <= j < |Table| && Table[j] == h
  {
    var j := match h
      case MmapFailed => 0 case Free => 1 case ReallocFromTracked => 2 case Realloc => 3
      case ReallocToRegular => 4 case Malloc => 5 case CallocOverflow => 6 case Calloc => 7;
    assert Table[j] == h;
  }

  /** A probe call with a handler's name and arity is handed to that handler with its arguments' values. */
  lemma DispatchProbe(h: Handler, ip: string, args: seq<string>)
    requires Number(ip) && Numbers(args) && |args| == h.Arity()
    ensures Dispatch(RenderCall(h.Name(), ip, args)) == Handled(Handle(h, Values(args)))
  {
    HandlerInTable(h);
    var j :| 0 <= j < |Table| && Table[j] == h;
    MatchPatternComplete(h.Name(), ip, args);
    DispatchMatching(RenderCall(h.Name(), ip, args), j, 0);
  }

  /** Printing a typed call the way its probe does and dispatching it gives the call back. */
  lemma DispatchRoundTrip(c: Call, ip: string)
    requires Number(ip)
    ensures Dispatch(RenderCall(HandlerOf(c).Name(), ip, Numerals(c.Fields()))) == Handled(Some(c))
  {
    HandleFields(c);
    DispatchProbe(HandlerOf(c), ip, Numerals(c.Fields()));
  }

  // ---------------------------------------------------------------------
  // The calls of the newer `perf trace` format after `parse_event`'s rewrite

  /** The `argK=V` words the newer format prints for a probe's arguments, numbered from `i`. */
  function ArgWords(i: nat, v: seq<nat>): (r: seq<string>)
    ensures |r| == |v|
    decreases |v|
  {
    if v == [] then [] else ["arg" + Decimal(i) + "=" + Decimal(v[0])] + ArgWords(i + 1, v[1..])
  }

  /** The argument text of the newer format: the words separated by blanks. */
  function ArgText(v: seq<nat>): string { Join(ArgWords(1, v), " ") }

  /** An `argK=V` word has no blank. */
  lemma ArgWordIsWord(i: nat, d: nat)
    ensures Word("arg" + Decimal(i) + "=" + Decimal(d))
  {
    var w := "arg" + Decimal(i) + "=" + Decimal(d);
    forall k | 0 <= k < |w| ensures In(w[k], NotPySpace) {
      if 3 <= k < 3 + |Decimal(i)| { assert In(Decimal(i)[k - 3], Digit); }
      else if k > 3 + |Decimal(i)| { assert In(Decimal(d)[k - 4 - |Decimal(i)|], Digit); }
    }
  }

  lemma {:induction false} ArgWordsAreWords(i: nat, v: seq<nat>)
    ensures forall k :: 0 <= k < |v| ==> Word(ArgWords(i, v)[k])
    decreases |v|
  {
    if v != [] {
      ArgWordIsWord(i, v[0]);
      ArgWordsAreWords(i + 1, v[1..]);
      forall k | 1 <= k < |v| ensures ArgWords(i, v)[k] == ArgWords(i + 1, v[1..])[k - 1] { }
    }
  }

  /** With `=` turned into `: ` and `, ` before each, the words are the argument fields of the probe pattern. */
  lemma {:induction false} ArgWordsRender(i: nat, v: seq<nat>)
    ensures Prefixed(ReplaceEach(ArgWords(i, v)), ", ") + ")" == RenderFields(Numerals(v), Labels(i, |v|))
    decreases |v|
  {
    if v != [] {
      ArgWordsRender(i + 1, v[1..]);
      ReplaceArgWords(i, v);
      NumeralsCons(v);
      LabelsCons(i, |v|);
      ArgLabelParts(i);
      ArgFieldStep(ArgLabel(i), ", ", "arg" + Decimal(i), ": ", Decimal(v[0]),
        ReplaceEach(ArgWords(i + 1, v[1..])), Numerals(v[1..]), Labels(i + 1, |v| - 1));
    }
  }

  lemma ReplaceArgWords(i: nat, v: seq<nat>)
    requires v != []
    ensures ReplaceEach(ArgWords(i, v)) == ["arg" + Decimal(i) + ": " + Decimal(v[0])] + ReplaceEach(ArgWords(i + 1, v[1..]))
  {
    var a := "arg" + Decimal(i);
    var d := Decimal(v[0]);
    assert ArgWords(i, v) == [a + "=" + d] + ArgWords(i + 1, v[1..]);
    ReplaceEachCons(a + "=" + d, ArgWords(i + 1, v[1..]));
    DigitsAvoid(Decimal(i), '=');
    DigitsAvoid(d, '=');
    ReplaceLabel(a, d);
  }

  lemma LabelsCons(i: nat, m: nat)
    requires m > 0
    ensures Labels(i, m) == [ArgLabel(i)] + Labels(i + 1, m - 1)
  {
  }

  lemma NumeralsCons(v: seq<nat>)
    requires v != []
    ensures Numerals(v) == [Decimal(v[0])] + Numerals(v[1..])
  {
  }

  lemma ArgLabelParts(i: nat)
    ensures ArgLabel(i) == ", " + ("arg" + Decimal(i)) + ": "
  {
  }

  lemma ArgFieldStep(lab: string, sep: string, a: string, colon: string, d: string, tail: seq<string>, fields: seq<string>, tags: seq<string>)
    requires lab == sep + a + colon && |fields| == |tags|
    requires Prefixed(tail, sep) + ")" == RenderFields(fields, tags)
    ensures Prefixed([a + colon + d] + tail, sep) + ")" == RenderFields([d] + fields, [lab] + tags)
  {
    PrefixedCons(a + colon + d, tail, sep);
    RenderFieldsCons(d, fields, lab, tags);
    FieldAssoc(sep, a, colon, d, Prefixed(tail, sep));
  }

  lemma PrefixedCons(x: string, tail: seq<string>, sep: string)
    ensures Prefixed([x] + tail, sep) == sep + x + Prefixed(tail, sep)
  {
    assert ([x] + tail)[1..] == tail;
  }

  lemma RenderFieldsCons(f: string, fields: seq<string>, t: string, tags: seq<string>)
    requires |fields| == |tags|
    ensures RenderFields([f] + fields, [t] + tags) == t + f + RenderFields(fields, tags)
  {
    assert ([f] + fields)[1..] == fields && ([t] + tags)[1..] == tags;
  }

  lemma FieldAssoc(sep: string, a: string, colon: string, d: string, p: string)
    ensures sep + (a + colon + d) + p + ")" == sep + a + colon + d + (p + ")")
  {
  }

  lemma DigitsAvoid(s: string, c: char)
    requires All(s, Digit) && !IsDigit(c)
    ensures c !in s
  {
    forall k | 0 <= k < |s| ensures s[k] != c { assert In(s[k], Digit); }
  }

  /**
   * The call `parse_event` makes of a newer-format line whose probe is
   * `sdt_libpoireau:NAME` and whose arguments are `arg1=V1 arg2=V2 ...` is
   * the call text the NAME probe pattern is built to match, with the
   * address in decimal.
   */
  lemma NewCallRendered(n: NewLine, name: string, v: seq<nat>)
    requires All(n.ip, LowerHex) && n.name == "sdt_libpoireau:" + name && n.args == ArgText(v)
    ensures NewCall(n) == RenderCall(name, Decimal(HexValue(n.ip)), Numerals(v))
  {
    var ip := Decimal(HexValue(n.ip));
    IpArgRewritten(ip, v);
    CallFromFields(name, ip, v);
  }

  lemma CallFromFields(name: string, ip: string, v: seq<nat>)
    ensures "sdt_libpoireau:" + name + Bracketed(Join(["__probe_ip: " + ip] + ReplaceEach(ArgWords(1, v)), ", "))
      == RenderCall(name, ip, Numerals(v))
  {
    var rest := ReplaceEach(ArgWords(1, v));
    var p := Prefixed(rest, ", ");
    ArgWordsRender(1, v);
    JoinPrefixed("__probe_ip: " + ip, rest, ", ");
    RenderFieldsCons(ip, Numerals(v), Head(name), Labels(1, |v|));
    HeadParts(name);
    CallAssembly("sdt_libpoireau:" + name, "(", "__probe_ip: ", ip, p);
  }

  lemma IpArgRewritten(ip: string, v: seq<nat>)
    requires All(ip, Digit)
    ensures ReplaceEach(["__probe_ip=" + ip] + Split(Join(ArgWords(1, v), " "))) == ["__probe_ip: " + ip] + ReplaceEach(ArgWords(1, v))
  {
    ArgWordsAreWords(1, v);
    SplitJoin(ArgWords(1, v));
    ReplaceProbeIp(ip);
    ReplaceEachCons("__probe_ip=" + ip, ArgWords(1, v));
  }

  lemma HeadParts(name: string)
    ensures Head(name) == "sdt_libpoireau:" + name + "(" + "__probe_ip: "
  {
  }

  lemma CallAssembly(name: string, paren: string, tag: string, ip: string, p: string)
    ensures name + (paren + (tag + ip + p) + ")") == name + paren + tag + ip + (p + ")")
  {
  }

  /** ... and so it is handed to the NAME handler with the arguments' values. */
  lemma NewCallDispatches(n: NewLine, h: Handler, v: seq<nat>)
    requires All(n.ip, LowerHex) && n.name == "sdt_libpoireau:" + h.Name() && n.args == ArgText(v)
    requires |v| == h.Arity()
    ensures Dispatch(NewCall(n)) == Handled(Handle(h, v))
  {
    NewCallRendered(n, h.Name(), v);
    DispatchProbe(h, Decimal(HexValue(n.ip)), Numerals(v));
  }

  /** Probe names have no slash. */
  lemma NameHasNoSlash(h: Handler)
    ensures '/' !in "sdt_libpoireau:" + h.Name()
  {
  }

  /** The argument words hold letters of `arg`, digits, `=` and blanks only. */
  lemma {:induction false} ArgWordsAvoid(i: nat, v: seq<nat>, c: char)
    requires c !in "arg= " && !IsDigit(c)
    ensures c !in Join(ArgWords(i, v), " ")
  {
    var words := ArgWords(i, v);
    forall k | 0 <= k < |words| ensures c !in words[k] {
      ArgWordsAt(i, v, k);
      DigitsAvoid(Decimal(i + k), c);
      DigitsAvoid(Decimal(v[k]), c);
    }
    JoinAvoids(words, " ", c);
  }

  lemma {:induction false} ArgWordsAt(i: nat, v: seq<nat>, k: nat)
    requires k < |v|
    ensures ArgWords(i, v)[k] == "arg" + Decimal(i + k) + "=" + Decimal(v[k])
    decreases k
  {
    assert ArgWords(i, v) == ["arg" + Decimal(i) + "=" + Decimal(v[0])] + ArgWords(i + 1, v[1..]);
    if k > 0 {
      ArgWordsAt(i + 1, v[1..], k - 1);
    }
  }

  /**
   * `parse_event` on a newer-format line of a libpoireau probe with
   * arguments `arg1=V1 ...`: the header carries the rewritten call, and
   * dispatching that call hands the probe's handler the values V1, ....
   */
  lemma NewLineDispatches(n: NewLine, h: Handler, v: seq<nat>)
    requires NewParts(n) && n.name == "sdt_libpoireau:" + h.Name() && n.args == ArgText(v)
    requires |v| == h.Arity()
    ensures ParseEvent(RenderNew(n)) == Some(Header(StampValue(n.stamp), n.comm, DecimalValue(n.tid), NewCall(n)))
    ensures Dispatch(NewCall(n)) == Handled(Handle(h, v))
  {
    ProbeLinePlain(n, h, v);
    ParseNewLine(n);
    NewCallDispatches(n, h, v);
  }


  /** The same for a line in the `perf script` format, which `parse_event` first reorders into the newer one. */
  lemma ScriptLineDispatches(line: string, h: Handler, v: seq<nat>)
    requires MatchEvent(line).None? && MatchNew(line).None? && MatchScript(line).Some?
    requires var n := ScriptPieces(line, MatchScript(line).value);
      '.' in n.stamp && n.name == "sdt_libpoireau:" + h.Name() && n.args == ArgText(v)
    requires |v| == h.Arity()
    ensures var n := ScriptPieces(line, MatchScript(line).value);
      && NewParts(n)
      && ParseEvent(line) == Some(Header(StampValue(n.stamp), n.comm, DecimalValue(n.tid), NewCall(n)))
      && Dispatch(NewCall(n)) == Handled(Handle(h, v))
  {
    var n := ScriptPieces(line, MatchScript(line).value);
    ProbeLinePlain(n, h, v);
    ParseScriptHeader(line);
    NewCallDispatches(n, h, v);
  }

  lemma ProbeLinePlain(n: NewLine, h: Handler, v: seq<nat>)
    requires n.name == "sdt_libpoireau:" + h.Name() && n.args == ArgText(v)
    ensures PlainCall(n) && (n.args == [] || n.args[|n.args| - 1] != ')')
  {
    NameHasNoSlash(h);
    ArgWordsAvoid(1, v, '/');
    ArgWordsAvoid(1, v, ':');
    ArgWordsAvoid(1, v, ')');
  }

  // ---------------------------------------------------------------------
  // `parse_event_calls`

  /** An event whose call text has been replaced by the typed call (`event._replace(call=call)`). */
  datatype CallEvent = CallEvent(ts: real, comm: string, tid: nat, call: Call, stack: seq<Frame>)

  function WithCall(e: Event, c: Call): CallEvent
  {
    CallEvent(e.header.ts, e.header.comm, e.header.tid, c, e.stack)
  }

  /** What each event's call text comes to, in order. */
  function Outcomes(events: seq<Event>): (r: seq<Outcome>)
    ensures |r| == |events|
    decreases |events|
  {
    if events == [] then [] else Outcomes(events[..|events| - 1]) + [Dispatch(events[|events| - 1].header.call)]
  }

  /** What one event yields: itself with its typed call, when a handler returned one. */
  function Yield(e: Event, o: Outcome): (r: seq<CallEvent>)
    ensures |r| <= 1
  {
    match o
    case Handled(Some(c)) => [WithCall(e, c)]
    case _ => []
  }

  /** The events yielded for a run of events with their outcomes. */
  function CallsOf(events: seq<Event>, outcomes: seq<Outcome>): seq<CallEvent>
    requires |outcomes| == |events|
    decreases |events|
  {
    if events == [] then []
    else CallsOf(events[..|events| - 1], outcomes[..|events| - 1]) + Yield(events[|events| - 1], outcomes[|events| - 1])
  }

  /** A `defaultdict(int)` read. */
  function Get(counts: map<string, nat>, key: string): nat { if key in counts then counts[key] else 0 }

  function Bump(counts: map<string, nat>, key: string): map<string, nat> { counts[key := Get(counts, key) + 1] }

  /** `event_type_count` after a run of outcomes: the failure probes are not counted. */
  function CountsOf(outcomes: seq<Outcome>): map<string, nat>
    decreases |outcomes|
  {
    if outcomes == [] then map[]
    else
      var counts := CountsOf(outcomes[..|outcomes| - 1]);
      match outcomes[|outcomes| - 1]
      case Unhandled => Bump(counts, "Unknown")
      case Handled(None) => counts
      case Handled(Some(c)) => Bump(counts, c.TypeName())
  }

  /**
   * The search through `CALL_HANDLER_TABLE` for one event: whether a pattern
   * matched, and what its handler returned.
   */
  method FindHandler(call: string) returns (found: bool, result: Option<Call>)
    ensures found <==> Dispatch(call).Handled?
    ensures found ==> Dispatch(call) == Handled(result)
    ensures !found ==> result.None?
  {
    found := false;
    result := None;
    var j := 0;
    while j < |Table| && !found
      invariant j <= |Table|
      invariant !found ==> result == None && DispatchFrom(call, j) == Dispatch(call)
      invariant found ==> Dispatch(call) == Handled(result)
      decreases |Table| - j
    {
      var h := Table[j];
      var m := MatchPattern(call, h.Name(), h.Arity());
      if m.Some? {
        DispatchHit(call, j);
        var c := Handle(h, Values(m.value));
        if c.Some? {
          result := c;
        }
        found := true;
      } else {
        DispatchMiss(call, j);
      }
      j := j + 1;
    }
  }

  /** One more event: what it yields is appended, and its outcome is counted. */
  lemma Snoc(events: seq<Event>, i: nat)
    requires i < |events|
    ensures var o := Dispatch(events[i].header.call);
      && CallsOf(events[..i + 1], Outcomes(events[..i + 1])) == CallsOf(events[..i], Outcomes(events[..i])) + Yield(events[i], o)
      && CountsOf(Outcomes(events[..i + 1])) == match o
        case Unhandled => Bump(CountsOf(Outcomes(events[..i])), "Unknown")
        case Handled(None) => CountsOf(Outcomes(events[..i]))
        case Handled(Some(c)) => Bump(CountsOf(Outcomes(events[..i])), c.TypeName())
  {
    var before := Outcomes(events[..i]);
    var o := Dispatch(events[i].header.call);
    assert events[..i + 1][..i] == events[..i];
    assert Outcomes(events[..i + 1]) == before + [o];
    assert (before + [o])[..i] == before;
  }

  /** The yielded events and the final `event_type_count` of `parse_event_calls`. */
  method ParseEventCalls(events: seq<Event>) returns (out: seq<CallEvent>, counts: map<string, nat>)
    ensures out == CallsOf(events, Outcomes(events)) && counts == CountsOf(Outcomes(events))
  {
    out := [];
    counts := map[];
    for i := 0 to |events|
      invariant out == CallsOf(events[..i], Outcomes(events[..i])) && counts == CountsOf(Outcomes(events[..i]))
    {
      var event := events[i];
      ghost var before := Outcomes(events[..i]);
      ghost var o := Dispatch(event.header.call);
      Snoc(events, i);
      var found, result := FindHandler(event.header.call);
      if result.Some? {
        out := out + [WithCall(event, result.value)];
      }
      if found {
        if result.Some? {
          counts := Bump(counts, result.value.TypeName());
        }
      } else {
        counts := Bump(counts, "Unknown");
      }
    }
    assert events[..|events|] == events;
  }

  /** How many of `calls` are of type `name`. */
  function CountType(calls: seq<CallEvent>, name: string): nat
    decreases |calls|
  {
    if calls == [] then 0
    else CountType(calls[..|calls| - 1], name) + (if calls[|calls| - 1].call.TypeName() == name then 1 else 0)
  }

  lemma CountTypeAppend(a: seq<CallEvent>, b: seq<CallEvent>, name: string)
    requires |b| <= 1
    ensures CountType(a + b, name) == CountType(a, name) + CountType(b, name)
  {
    if b == [] {
      assert a + b == a;
    } else {
      assert (a + b)[..|a + b| - 1] == a;
      assert b[..0] == [];
    }
  }

  /** How many outcomes are unrecognised calls. */
  function CountUnhandled(outcomes: seq<Outcome>): nat
    decreases |outcomes|
  {
    if outcomes == [] then 0
    else CountUnhandled(outcomes[..|outcomes| - 1]) + (if outcomes[|outcomes| - 1].Unhandled? then 1 else 0)
  }

  lemma GetBump(counts: map<string, nat>, key: string, q: string)
    ensures Get(Bump(counts, key), q) == Get(counts, q) + (if key == q then 1 else 0)
  {
  }

  lemma TypeNameNotUnknown(c: Call)
    ensures c.TypeName() != "Unknown"
  {
  }

  /**
   * The counts agree with what is yielded: the count of each call type is the
   * number of yielded calls of that type, `Unknown` counts the unrecognised
   * events, and the failure probes are counted nowhere; at most one event is
   * yielded per input event.
   */
  lemma {:induction false} CountsAgree(events: seq<Event>, outcomes: seq<Outcome>, name: string)
    requires |outcomes| == |events|
    ensures |CallsOf(events, outcomes)| + CountUnhandled(outcomes) <= |events|
    ensures Get(CountsOf(outcomes), "Unknown") == CountUnhandled(outcomes)
    ensures name != "Unknown" ==> Get(CountsOf(outcomes), name) == CountType(CallsOf(events, outcomes), name)
    decreases |events|
  {
    if events != [] {
      var n := |events| - 1;
      CountsAgree(events[..n], outcomes[..n], name);
      var before := CountsOf(outcomes[..n]);
      var extra := Yield(events[n], outcomes[n]);
      CountTypeAppend(CallsOf(events[..n], outcomes[..n]), extra, name);
      match outcomes[n]
      case Unhandled =>
        assert CountsOf(outcomes) == Bump(before, "Unknown");
        GetBump(before, "Unknown", "Unknown");
        GetBump(before, "Unknown", name);
      case Handled(None) =>
        assert CountsOf(outcomes) == before;
      case Handled(Some(c)) =>
        assert CountsOf(outcomes) == Bump(before, c.TypeName());
        TypeNameNotUnknown(c);
        GetBump(before, c.TypeName(), "Unknown");
        GetBump(before, c.TypeName(), name);
        assert extra[..0] == [];
    }
  }
}
