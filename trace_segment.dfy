/**
 * `segment_trace`: folds the lines of a trace into events, each a parsed
 * header with the stack frames on the lines right after it. A header is
 * held back until a line that is not a frame arrives; only then is it
 * yielded with its stack.
 */
module TraceSegment {
  import opened Wrappers
  import opened Text
  import opened TraceParse

  /** An `Event` tuple: the header and its stack of frames, innermost first as the trace lists them. */
  datatype Event = Event(header: Header, stack: seq<Frame>)

  /**
   * What the generator makes of one line: nothing, for a line that is empty
   * once stripped of trailing whitespace; otherwise what the line parses to
   * as a header and as a frame.
   */
  datatype LineKind = Blank | Text(event: Option<Header>, frame: Option<Frame>)

  function Classify(raw: string): LineKind
  {
    var line := RStrip(raw);
    if line == [] then Blank else Text(ParseEvent(line), ParseFrame(line))
  }

  function Kinds(lines: seq<string>): (r: seq<LineKind>)
    ensures |r| == |lines|
    decreases |lines|
  {
    if lines == [] then [] else Kinds(lines[..|lines| - 1]) + [Classify(lines[|lines| - 1])]
  }

  /** The generator's state: what it has yielded, the event it holds back, and that event's frames so far. */
  datatype Segmenter = Segmenter(emitted: seq<Event>, pending: Option<Header>, stack: seq<Frame>)

  const Start := Segmenter([], None, [])

  /**
   * One line through `segment_trace`: a blank line is skipped; with no event
   * held, the line's header (if any) becomes the held event; with one held,
   * a frame line extends its stack and any other line yields the held event
   * and its header (if any) is held next.
   */
  function Step(s: Segmenter, kind: LineKind): Segmenter
  {
    match kind
    case Blank => s
    case Text(event, frame) =>
      match s.pending
      case None => Segmenter(s.emitted, event, s.stack)
      case Some(h) =>
        match frame
        case Some(f) => Segmenter(s.emitted, s.pending, s.stack + [f])
        case None => Segmenter(s.emitted + [Event(h, s.stack)], event, [])
  }

  /** The state after a run of lines, one Step at a time. */
  function Feed(s: Segmenter, kinds: seq<LineKind>): Segmenter
    decreases |kinds|
  {
    if kinds == [] then s else Step(Feed(s, kinds[..|kinds| - 1]), kinds[|kinds| - 1])
  }

  /**
   * `list(segment_trace(lines))`: the events the generator yields for a
   * finite input. Each line is stripped and parsed once, up front, as both
   * kinds; since the parsers are pure, using the header only where
   * `parse_event` is called and the frame only where `parse_frame` is called
   * gives the same result.
   */
  method SegmentTrace(lines: seq<string>) returns (events: seq<Event>)
    ensures events == Feed(Start, Kinds(lines)).emitted
  {
    var event: Option<Header> := None;
    var stack: seq<Frame> := [];
    events := [];
    for i := 0 to |lines|
      invariant Segmenter(events, event, stack) == Feed(Start, Kinds(lines[..i]))
    {
      assert lines[..i + 1][..i] == lines[..i];
      var kind := Classify(lines[i]);
      if kind.Text? {
        if event == None {
          event := kind.event;
        } else if kind.frame.Some? {
          stack := stack + [kind.frame.value];
        } else {
          events := events + [Event(event.value, stack)];
          event := kind.event;
          stack := [];
        }
      }
    }
    assert lines[..|lines|] == lines;
  }

  /** Feeding two runs of lines is feeding their concatenation. */
  lemma {:induction false} FeedAppend(s: Segmenter, a: seq<LineKind>, b: seq<LineKind>)
    ensures Feed(s, a + b) == Feed(Feed(s, a), b)
    decreases |b|
  {
    if b == [] {
      assert a + b == a;
    } else {
      var b' := b[..|b| - 1];
      assert (a + b)[..|a + b| - 1] == a + b';
      FeedAppend(s, a, b');
    }
  }

  /**
   * A line yields an event exactly when an event is held and the line is
   * neither blank nor a frame; the event yielded is the held header with the
   * frames gathered for it.
   */
  lemma YieldsOnlyOnNonFrame(s: Segmenter, kind: LineKind)
    ensures |Step(s, kind).emitted| != |s.emitted| <==> s.pending.Some? && kind.Text? && kind.frame.None?
    ensures Step(s, kind).emitted == s.emitted || Step(s, kind).emitted == s.emitted + [Event(s.pending.value, s.stack)]
  {
  }

  /** What has been yielded stays yielded: later lines only append. */
  lemma {:induction false} YieldedPrefix(s: Segmenter, kinds: seq<LineKind>)
    ensures s.emitted <= Feed(s, kinds).emitted
    decreases |kinds|
  {
    if kinds != [] {
      YieldedPrefix(s, kinds[..|kinds| - 1]);
      YieldsOnlyOnNonFrame(Feed(s, kinds[..|kinds| - 1]), kinds[|kinds| - 1]);
    }
  }

  /** While no event is held, no frames are held either. */
  predicate Idle(s: Segmenter) { s.pending.None? ==> s.stack == [] }

  lemma {:induction false} FeedKeepsIdle(s: Segmenter, kinds: seq<LineKind>)
    requires Idle(s)
    ensures Idle(Feed(s, kinds))
    decreases |kinds|
  {
    if kinds != [] {
      FeedKeepsIdle(s, kinds[..|kinds| - 1]);
    }
  }

  /** `filter(None, ...)`: the lines that are not blank, in order. */
  function NonBlank(kinds: seq<LineKind>): (r: seq<LineKind>)
    ensures forall k :: 0 <= k < |r| ==> r[k].Text?
    decreases |kinds|
  {
    if kinds == [] then []
    else if kinds[|kinds| - 1].Blank? then NonBlank(kinds[..|kinds| - 1])
    else NonBlank(kinds[..|kinds| - 1]) + [kinds[|kinds| - 1]]
  }

  /** Blank and whitespace-only lines make no difference to what is yielded or held. */
  lemma {:induction false} BlankLinesIgnored(s: Segmenter, kinds: seq<LineKind>)
    ensures Feed(s, NonBlank(kinds)) == Feed(s, kinds)
    decreases |kinds|
  {
    if kinds != [] {
      var init := kinds[..|kinds| - 1];
      var last := kinds[|kinds| - 1];
      BlankLinesIgnored(s, init);
      if last.Text? {
        FeedAppend(s, NonBlank(init), [last]);
        assert [last][..0] == [];
      }
    }
  }

  /** A line is blank for the generator exactly when it is empty or all whitespace. */
  lemma ClassifyBlank(raw: string)
    ensures Classify(raw).Blank? <==> All(raw, PySpace)
  {
    var r := RStrip(raw);
    if r == [] {
      assert raw[|r|..] == raw;
    }
    if r != [] {
      assert r[|r| - 1] == raw[|r| - 1];
      assert All(raw, PySpace) ==> In(raw[|r| - 1], PySpace);
    }
  }

  // ---------------------------------------------------------------------
  // A trace made of blocks: a header line and the frame lines below it

  /** A header line and the frame lines below it, as the generator classifies them. */
  datatype Block = Block(header: LineKind, frames: seq<LineKind>)

  /** The header line parses as a header and not as a frame; each line below parses as a frame. */
  predicate WellFormed(b: Block)
  {
    && b.header.Text? && b.header.event.Some? && b.header.frame.None?
    && forall k :: 0 <= k < |b.frames| ==> b.frames[k].Text? && b.frames[k].frame.Some?
  }

  predicate AllWellFormed(blocks: seq<Block>) { forall k :: 0 <= k < |blocks| ==> WellFormed(blocks[k]) }

  /** The frames of frame lines, in order. */
  function Frames(kinds: seq<LineKind>): (r: seq<Frame>)
    requires forall k :: 0 <= k < |kinds| ==> kinds[k].Text? && kinds[k].frame.Some?
    ensures |r| == |kinds| && forall k :: 0 <= k < |r| ==> r[k] == kinds[k].frame.value
    decreases |kinds|
  {
    if kinds == [] then [] else Frames(kinds[..|kinds| - 1]) + [kinds[|kinds| - 1].frame.value]
  }

  function BlockLines(blocks: seq<Block>): seq<LineKind>
    decreases |blocks|
  {
    if blocks == [] then []
    else var b := blocks[|blocks| - 1]; BlockLines(blocks[..|blocks| - 1]) + ([b.header] + b.frames)
  }

  /** The event a block stands for: its header with its frames. */
  function BlockEvent(b: Block): Event
    requires WellFormed(b)
  {
    Event(b.header.event.value, Frames(b.frames))
  }

  function BlockEvents(blocks: seq<Block>): (r: seq<Event>)
    requires AllWellFormed(blocks)
    ensures |r| == |blocks| && forall k :: 0 <= k < |r| ==> r[k] == BlockEvent(blocks[k])
    decreases |blocks|
  {
    if blocks == [] then [] else BlockEvents(blocks[..|blocks| - 1]) + [BlockEvent(blocks[|blocks| - 1])]
  }

  /** Frame lines under a held event extend its stack in order and yield nothing. */
  lemma {:induction false} FeedFrames(s: Segmenter, kinds: seq<LineKind>)
    requires s.pending.Some?
    requires forall k :: 0 <= k < |kinds| ==> kinds[k].Text? && kinds[k].frame.Some?
    ensures Feed(s, kinds) == Segmenter(s.emitted, s.pending, s.stack + Frames(kinds))
    decreases |kinds|
  {
    if kinds != [] {
      FeedFrames(s, kinds[..|kinds| - 1]);
      assert s.stack + Frames(kinds) == s.stack + Frames(kinds[..|kinds| - 1]) + [kinds[|kinds| - 1].frame.value];
    }
  }

  /** One block fed to a state that either holds nothing or holds the previous block's event. */
  lemma FeedBlock(s: Segmenter, b: Block)
    requires WellFormed(b) && Idle(s)
    ensures Feed(s, [b.header] + b.frames) ==
      Segmenter(s.emitted + (if s.pending.Some? then [Event(s.pending.value, s.stack)] else []), b.header.event, Frames(b.frames))
  {
    FeedAppend(s, [b.header], b.frames);
    assert [b.header][..0] == [];
    FeedFrames(Step(s, b.header), b.frames);
  }

  /**
   * `segment_trace` on blocks of well-formed lines: every block but the last
   * is yielded as its header with its frames, in order; the last block's
   * event is still held when the input ends, and is never yielded.
   */
  lemma {:induction false} SegmentBlocks(blocks: seq<Block>)
    requires blocks != [] && AllWellFormed(blocks)
    ensures var last := blocks[|blocks| - 1];
      Feed(Start, BlockLines(blocks)) == Segmenter(BlockEvents(blocks[..|blocks| - 1]), last.header.event, Frames(last.frames))
    decreases |blocks|
  {
    var init := blocks[..|blocks| - 1];
    var last := blocks[|blocks| - 1];
    assert AllWellFormed(init) by {
      forall k | 0 <= k < |init| ensures WellFormed(init[k]) { assert init[k] == blocks[k]; }
    }
    assert WellFormed(last);
    FeedAppend(Start, BlockLines(init), [last.header] + last.frames);
    if init == [] {
      FeedBlock(Start, last);
    } else {
      SegmentBlocks(init);
      var prev := init[|init| - 1];
      assert init[..|init| - 1] + [prev] == init;
      FeedBlock(Feed(Start, BlockLines(init)), last);
    }
  }

  /**
   * So for a trace whose lines form blocks the generator yields exactly the
   * events of all blocks but the last (what `SegmentTrace` returns is this fold).
   */
  lemma SegmentBlocksYield(lines: seq<string>, blocks: seq<Block>)
    requires blocks != [] && AllWellFormed(blocks) && Kinds(lines) == BlockLines(blocks)
    ensures Feed(Start, Kinds(lines)).emitted == BlockEvents(blocks[..|blocks| - 1])
  {
    SegmentBlocks(blocks);
  }
}
