/**
  What any input at all can make the reader report: header blocks come whole and contiguous, within both
  bounds, and the bounds refuse nothing else; and the reader never loses its place in the input.
 */
module ReaderGrammar {
  import opened Octets
  import opened H2
  import opened Frames
  import opened FrameReader

  // ---------- The block grammar, read off the reported events alone ----------

  /** The event is a frame that carries a piece of a header block. */
  ghost predicate CarriesBlock(e: Event) {
    e.Got? && (e.frame.HeadersFrame? || e.frame.PushPromiseFrame? || e.frame.ContinuationFrame?)
  }

  /** The stream whose header block the first k events leave open, or zero. */
  ghost function OpenStream(events: seq<Event>, k: nat): uint32
    requires k <= |events|
  {
    if k == 0 || !CarriesBlock(events[k - 1]) || events[k - 1].frame.endHeaders then 0
    else events[k - 1].frame.streamId
  }

  /** The octets of the block that event k - 1 is part of, up to and including that event. */
  ghost function BlockOctets(events: seq<Event>, k: nat): nat
    requires k <= |events|
  {
    if k == 0 || !CarriesBlock(events[k - 1]) then 0
    else
      |events[k - 1].frame.fragment| +
      if events[k - 1].frame.ContinuationFrame? then BlockOctets(events, k - 1) else 0
  }

  /** The CONTINUATION frames of the block that event k - 1 is part of, up to and including that event. */
  ghost function BlockSpan(events: seq<Event>, k: nat): nat
    requires k <= |events|
  {
    if k == 0 || !CarriesBlock(events[k - 1]) || !events[k - 1].frame.ContinuationFrame? then 0
    else 1 + BlockSpan(events, k - 1)
  }

  ghost predicate Within(limits: Limits, events: seq<Event>, k: nat)
    requires k < |events|
  {
    CarriesBlock(events[k]) ==>
      BlockOctets(events, k + 1) <= limits.maxHeaderBlockSize && BlockSpan(events, k + 1) <= limits.maxContinuations
  }

  /** An open block is followed by a CONTINUATION on its own stream, and a CONTINUATION follows nothing else. */
  ghost predicate Contiguous(events: seq<Event>, k: nat)
    requires k < |events|
  {
    var s := OpenStream(events, k);
    (s != 0 <==> events[k].Got? && events[k].frame.ContinuationFrame?)
    && (s != 0 ==> events[k].frame.streamId == s)
  }

  ghost predicate Grammatical(limits: Limits, events: seq<Event>) {
    forall k | 0 <= k < |events| :: Contiguous(events, k) && Within(limits, events, k)
  }

  // The block an event is in depends on the events before it and on nothing after.

  lemma {:induction false} BlockOfPrefix(past: seq<Event>, rest: seq<Event>, k: nat)
    requires k <= |past|
    ensures OpenStream(past + rest, k) == OpenStream(past, k)
    ensures BlockOctets(past + rest, k) == BlockOctets(past, k)
    ensures BlockSpan(past + rest, k) == BlockSpan(past, k)
  {
    if k > 0 {
      BlockOfPrefix(past, rest, k - 1);
      assert (past + rest)[k - 1] == past[k - 1];
    }
  }

  lemma WithinPrefix(limits: Limits, past: seq<Event>, rest: seq<Event>, k: nat)
    requires k < |past|
    ensures Within(limits, past + rest, k) == Within(limits, past, k)
  {
    BlockOfPrefix(past, rest, k + 1);
    assert (past + rest)[k] == past[k];
  }

  lemma EmptyPrefix(events: seq<Event>)
    ensures [] + events == events
  {
  }

  lemma GrammaticalSnoc(limits: Limits, past: seq<Event>, e: Event)
    ensures var all := past + [e];
      Grammatical(limits, all) <==>
      Grammatical(limits, past) && Contiguous(all, |past|) && Within(limits, all, |past|)
  {
    var all := past + [e];
    forall k | 0 <= k < |past|
      ensures all[k] == past[k] && Contiguous(all, k) == Contiguous(past, k)
           && Within(limits, all, k) == Within(limits, past, k)
    {
      BlockOfPrefix(past, [e], k);
      BlockOfPrefix(past, [e], k + 1);
    }
    if Grammatical(limits, past) && Contiguous(all, |past|) && Within(limits, all, |past|) {
      forall k | 0 <= k < |all| ensures Contiguous(all, k) && Within(limits, all, k) {
        assert k == |past| || k < |past|;
      }
    }
  }

  lemma GrammaticalPrefix(limits: Limits, past: seq<Event>, rest: seq<Event>)
    requires Grammatical(limits, past + rest)
    ensures Grammatical(limits, past)
  {
    forall k | 0 <= k < |past| ensures Contiguous(past, k) && Within(limits, past, k) {
      assert Contiguous(past + rest, k) && Within(limits, past + rest, k);
      BlockOfPrefix(past, rest, k);
      BlockOfPrefix(past, rest, k + 1);
    }
  }

  // ---------- The reader's state is the block of the events reported so far ----------

  ghost predicate Agrees(past: seq<Event>, block: Block) {
    && block.stream == OpenStream(past, |past|)
    && (block.stream != 0 ==>
          block.size == BlockOctets(past, |past|) && block.continuations == BlockSpan(past, |past|))
  }

  lemma BlockOfLast(past: seq<Event>, e: Event)
    ensures var all, n := past + [e], |past|;
      && BlockOctets(all, n + 1) == (if !CarriesBlock(e) then 0
                                     else |e.frame.fragment|
                                          + if e.frame.ContinuationFrame? then BlockOctets(past, n) else 0)
      && BlockSpan(all, n + 1) == (if CarriesBlock(e) && e.frame.ContinuationFrame? then 1 + BlockSpan(past, n) else 0)
      && OpenStream(all, n + 1) == (if CarriesBlock(e) && !e.frame.endHeaders then e.frame.streamId else 0)
      && OpenStream(all, n) == OpenStream(past, n)
  {
    BlockOfPrefix(past, [e], |past|);
  }

  /** Parsed block frames are never on stream zero, so zero is free to mean that no block is open. */
  lemma BlockFramesNameAStream(h: Header, payload: seq<byte>)
    requires Known(h.kind) && h.length <= |payload| && Parse(h, payload).Ok?
    ensures var f := Parse(h, payload).value;
      && (f.HeadersFrame? || f.PushPromiseFrame? || f.ContinuationFrame? ==> f.streamId == h.streamId != 0)
      && (f.ContinuationFrame? <==> h.kind == TYPE_CONTINUATION)
  {
    hide Read32, Has, ReadSettings, SplitPadding;
  }

  lemma ContinuationNeverResets(h: Header, payload: seq<byte>)
    requires h.kind == TYPE_CONTINUATION && h.length <= |payload|
    ensures Parse(h, payload).Err? ==> !Parse(h, payload).fault.StreamError?
  {
  }

  /** One parsed frame: it extends the grammar, or it is refused for exceeding a bound. */
  lemma DeliverExtends(limits: Limits, past: seq<Event>, block: Block, h: Header, payload: seq<byte>)
    requires Known(h.kind) && |payload| == h.length
    requires Grammatical(limits, past) && Agrees(past, block)
    requires CheckContinuity(block, h).None?
    ensures var s := Deliver(limits, block, h, payload);
      && (!Fatal(s.result) ==>
            Grammatical(limits, past + [EventOf(s.result)]) && Agrees(past + [EventOf(s.result)], s.block))
  {
    var s := Deliver(limits, block, h, payload);
    if Parse(h, payload).Ok? {
      BlockFramesNameAStream(h, payload);
    } else if h.kind == TYPE_CONTINUATION {
      ContinuationNeverResets(h, payload);
    }
    if !Fatal(s.result) {
      var e := EventOf(s.result);
      hide Parse;
      BlockOfLast(past, e);
      GrammaticalSnoc(limits, past, e);
    }
  }

  lemma {:induction false} StepExtends(limits: Limits, past: seq<Event>, block: Block, input: seq<byte>, ending: Ending)
    requires Grammatical(limits, past) && Agrees(past, block)
    ensures var s := ReadStep(limits, block, input, ending);
      && (!Fatal(s.result) ==>
            Grammatical(limits, past + [EventOf(s.result)]) && Agrees(past + [EventOf(s.result)], s.block))
    decreases |input|
  {
    hide Grammatical, Agrees, ParseHeader, Parse, Deliver;
    match ReadOne(limits, block, input, ending)
    case Reported(step) =>
      if !Fatal(step.result) {
        var h := ParseHeader(input);
        DeliverExtends(limits, past, block, h, input[HEADER_LEN..HEADER_LEN + h.length]);
      }
    case Discarded(n) => StepExtends(limits, past, block, input[n..], ending);
  }

  lemma {:induction false} ReadingExtends(limits: Limits, past: seq<Event>, block: Block, input: seq<byte>,
                                          ending: Ending)
    requires Grammatical(limits, past) && Agrees(past, block)
    ensures Grammatical(limits, past + ReadAll(limits, block, input, ending).events)
    decreases |input|
  {
    hide Grammatical, Agrees, ReadStep;
    var s := ReadStep(limits, block, input, ending);
    if Fatal(s.result) {
      assert past + [] == past;
    } else {
      var e, rest := EventOf(s.result), ReadAll(limits, s.block, input[s.consumed..], ending);
      StepExtends(limits, past, block, input, ending);
      ReadingExtends(limits, past + [e], s.block, input[s.consumed..], ending);
      assert past + ([e] + rest.events) == past + [e] + rest.events;
    }
  }

  /**
    Whatever octets a peer sends, the frames and stream errors reported before the connection ends obey the
    block grammar: an open block is continued on its own stream and by nothing else, stream errors fall
    outside blocks, and no block exceeds either bound, its closing frame included.
   */
  lemma BlockGrammar(limits: Limits, input: seq<byte>, ending: Ending)
    ensures Grammatical(limits, ReadAll(limits, CLOSED, input, ending).events)
  {
    var events := ReadAll(limits, CLOSED, input, ending).events;
    ReadingExtends(limits, [], CLOSED, input, ending);
    hide *;
    EmptyPrefix(events);
  }

  // ---------- The bounds refuse nothing that is within them ----------

  /** The same reader with the two block bounds at least as wide. */
  ghost predicate Widens(limits: Limits, wide: Limits) {
    && wide.maxFrameSize == limits.maxFrameSize
    && limits.maxHeaderBlockSize <= wide.maxHeaderBlockSize
    && limits.maxContinuations <= wide.maxContinuations
  }

  lemma DeliverCut(limits: Limits, wide: Limits, past: seq<Event>, block: Block, h: Header, payload: seq<byte>)
    requires Widens(limits, wide)
    requires Known(h.kind) && |payload| == h.length
    requires Agrees(past, block) && CheckContinuity(block, h).None?
    ensures var narrow, full := Deliver(limits, block, h, payload), Deliver(wide, block, h, payload);
      || narrow == full
      || (narrow.result == Err(ConnError(ENHANCE_YOUR_CALM)) && full.result.Ok?
          && !Within(limits, past + [Got(full.result.value)], |past|))
  {
    if Parse(h, payload).Ok? {
      BlockFramesNameAStream(h, payload);
      BlockOfLast(past, Got(Parse(h, payload).value));
    }
  }

  lemma {:induction false} StepCut(limits: Limits, wide: Limits, past: seq<Event>, block: Block, input: seq<byte>,
                                   ending: Ending)
    requires Widens(limits, wide) && Agrees(past, block)
    ensures var narrow, full := ReadStep(limits, block, input, ending), ReadStep(wide, block, input, ending);
      || narrow == full
      || (narrow.result == Err(ConnError(ENHANCE_YOUR_CALM)) && full.result.Ok?
          && !Within(limits, past + [Got(full.result.value)], |past|))
    decreases |input|
  {
    hide Agrees, ParseHeader, Parse, Deliver, Within;
    match ReadOne(limits, block, input, ending)
    case Reported(step) =>
      if |input| >= HEADER_LEN {
        var h := ParseHeader(input);
        if h.length <= limits.maxFrameSize && CheckContinuity(block, h).None? && |input| >= HEADER_LEN + h.length {
          DeliverCut(limits, wide, past, block, h, input[HEADER_LEN..HEADER_LEN + h.length]);
        }
      }
    case Discarded(n) => StepCut(limits, wide, past, block, input[n..], ending);
  }

  /**
    Unless the readings after past are the same, the narrow one is cut where an event of the full one is past a
    bound.
   */
  ghost predicate CutShort(limits: Limits, past: seq<Event>, narrow: Reading, full: Reading) {
    || narrow == full
    || (narrow.events < full.events && narrow.fault == ConnError(ENHANCE_YOUR_CALM)
        && !Within(limits, past + full.events, |past| + |narrow.events|))
  }

  lemma CutHere(limits: Limits, past: seq<Event>, e: Event, narrow: Reading, full: Reading)
    requires narrow.events == [] && narrow.fault == ConnError(ENHANCE_YOUR_CALM) && [e] <= full.events
    requires !Within(limits, past + [e], |past|)
    ensures CutShort(limits, past, narrow, full)
  {
    hide Within;
    assert past + full.events == past + [e] + full.events[1..];
    WithinPrefix(limits, past + [e], full.events[1..], |past|);
  }

  lemma CutLater(limits: Limits, past: seq<Event>, e: Event, narrow: Reading, full: Reading)
    requires CutShort(limits, past + [e], narrow, full)
    ensures CutShort(limits, past, narrow.(events := [e] + narrow.events), full.(events := [e] + full.events))
  {
    hide Within;
    assert past + ([e] + full.events) == past + [e] + full.events;
    if narrow != full {
      assert [e] + full.events[..|narrow.events|] == ([e] + full.events)[..1 + |narrow.events|];
    }
  }

  lemma {:induction false} ReadingCut(limits: Limits, wide: Limits, past: seq<Event>, block: Block, input: seq<byte>,
                                      ending: Ending)
    requires Widens(limits, wide) && Grammatical(limits, past) && Agrees(past, block)
    ensures CutShort(limits, past, ReadAll(limits, block, input, ending), ReadAll(wide, block, input, ending))
    decreases |input|
  {
    var s, w := ReadStep(limits, block, input, ending), ReadStep(wide, block, input, ending);
    var narrow, full := ReadAll(limits, block, input, ending), ReadAll(wide, block, input, ending);
    hide Grammatical, Agrees, ReadStep, CutShort, Widens, Within;
    StepCut(limits, wide, past, block, input, ending);
    if s != w {
      CutHere(limits, past, Got(w.result.value), narrow, full);
    } else if Fatal(s.result) {
      SameIsNotCut(limits, past, narrow);
    } else {
      var e, rest := EventOf(s.result), input[s.consumed..];
      StepExtends(limits, past, block, input, ending);
      ReadingCut(limits, wide, past + [e], s.block, rest, ending);
      CutLater(limits, past, e, ReadAll(limits, s.block, rest, ending), ReadAll(wide, s.block, rest, ending));
    }
  }

  lemma SameIsNotCut(limits: Limits, past: seq<Event>, r: Reading)
    ensures CutShort(limits, past, r, r)
  {
  }

  lemma CutFromTheStart(limits: Limits, narrow: Reading, full: Reading)
    requires CutShort(limits, [], narrow, full)
    ensures narrow == full || (narrow.events < full.events && narrow.fault == ConnError(ENHANCE_YOUR_CALM)
                               && !Within(limits, full.events, |narrow.events|))
  {
    EmptyPrefix(full.events);
    hide Within;
  }

  lemma NothingIsGrammatical(limits: Limits)
    ensures Grammatical(limits, []) && Agrees([], CLOSED)
  {
  }

  lemma WithinWhole(limits: Limits, front: seq<Event>, events: seq<Event>)
    requires front <= events && Grammatical(limits, front)
    ensures forall k | 0 <= k < |front| :: Within(limits, events, k)
  {
    forall k | 0 <= k < |front| ensures Within(limits, events, k) {
      assert Within(limits, front, k);
      hide Within;
      WithinPrefix(limits, front, events[|front|..], k);
      assert events == front + events[|front|..];
    }
  }

  /**
    Tightening the two block bounds changes a reading in one way only: it is cut, with ENHANCE_YOUR_CALM, at
    the first frame that takes its block past a bound.
   */
  lemma BoundsRefuseOnlyExcess(limits: Limits, wide: Limits, input: seq<byte>, ending: Ending)
    requires Widens(limits, wide)
    ensures var narrow, full := ReadAll(limits, CLOSED, input, ending), ReadAll(wide, CLOSED, input, ending);
      && narrow.events <= full.events
      && (forall k | 0 <= k < |narrow.events| :: Within(limits, full.events, k))
      && (narrow == full || (|narrow.events| < |full.events| && !Within(limits, full.events, |narrow.events|)
                             && narrow.fault == ConnError(ENHANCE_YOUR_CALM)))
  {
    hide ReadAll, Within, Grammatical, Widens, Agrees, CutShort;
    var narrow, full := ReadAll(limits, CLOSED, input, ending), ReadAll(wide, CLOSED, input, ending);
    NothingIsGrammatical(limits);
    ReadingCut(limits, wide, [], CLOSED, input, ending);
    CutFromTheStart(limits, narrow, full);
    BlockGrammar(limits, input, ending);
    WithinWhole(limits, narrow.events, full.events);
  }
}
