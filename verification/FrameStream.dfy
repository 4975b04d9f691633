/**
  The frame layer end to end: what the reader makes of what the writer sent, and what frames of unknown
  type do to a reading.
 */
module FrameStream {
  import opened Octets
  import opened H2
  import opened Frames
  import opened FrameRoundTrip
  import opened FrameReader
  import opened ReaderGrammar
  import opened ReaderSync
  import FrameWriter

  // ---------- What follows a complete frame does not matter ----------

  lemma HeaderOfConcatenation(b: seq<byte>, rest: seq<byte>)
    requires |b| >= HEADER_LEN
    ensures ParseHeader(b + rest) == ParseHeader(b)
  {
    HeaderIsNineOctets(b);
    HeaderIsNineOctets(b + rest);
    assert (b + rest)[..HEADER_LEN] == b[..HEADER_LEN];
  }

  lemma OneThenMore(limits: Limits, block: Block, input: seq<byte>, more: seq<byte>, ending: Ending)
    ensures var one := ReadOne(limits, block, input, PeerClosed);
      one.Discarded? || !Fatal(one.step.result) ==> ReadOne(limits, block, input + more, ending) == one
    ensures var one := ReadOne(limits, block, input, PeerClosed);
      one.Reported? && one.step.result == Err(Eof) ==> input == [] && one.step.block == block
  {
    hide ParseHeader, Parse, Tracked;
    if |input| >= HEADER_LEN {
      HeaderOfConcatenation(input, more);
      var n := HEADER_LEN + ParseHeader(input).length;
      if n <= |input| {
        assert (input + more)[HEADER_LEN..n] == input[HEADER_LEN..n];
        NeverEof(limits, block, ParseHeader(input), input[HEADER_LEN..n]);
      }
    }
  }

  lemma NeverEof(limits: Limits, block: Block, h: Header, payload: seq<byte>)
    requires Known(h.kind) ==> |payload| == h.length
    ensures Known(h.kind) ==> Deliver(limits, block, h, payload).result != Err(Eof)
  {
    if Known(h.kind) {
      ParseFaults(h, payload);
      hide Parse;
    }
  }

  lemma {:induction false} StepThenMore(limits: Limits, block: Block, input: seq<byte>, more: seq<byte>, ending: Ending)
    ensures var s, t := ReadStep(limits, block, input, PeerClosed), ReadStep(limits, block, input + more, ending);
      && (!Fatal(s.result) ==> t == s)
      && (s.result == Err(Eof) ==>
            var after := ReadStep(limits, block, more, ending);
            t == after.(consumed := |input| + after.consumed) && s.block == block)
    decreases |input|
  {
    hide ReadOne;
    OneThenMore(limits, block, input, more, ending);
    match ReadOne(limits, block, input, PeerClosed)
    case Reported(step) =>
      if step.result == Err(Eof) {
        assert input + more == more;
      }
    case Discarded(n) =>
      StepThenMore(limits, block, input[n..], more, ending);
      assert (input + more)[n..] == input[n..] + more;
  }

  /** A reading that ends cleanly is continued by whatever comes next, from the block state it left. */
  lemma {:induction false} ReadingThenMore(limits: Limits, block: Block, input: seq<byte>, more: seq<byte>,
                                           ending: Ending)
    requires ReadAll(limits, block, input, PeerClosed).fault == Eof
    ensures var first := ReadAll(limits, block, input, PeerClosed);
      var second := ReadAll(limits, first.block, more, ending);
      ReadAll(limits, block, input + more, ending) == second.(events := first.events + second.events)
    decreases |input|
  {
    hide ReadStep;
    var s := ReadStep(limits, block, input, PeerClosed);
    StepThenMore(limits, block, input, more, ending);
    if Fatal(s.result) {
      var after := ReadStep(limits, block, more, ending);
      assert (input + more)[|input| + after.consumed..] == more[after.consumed..];
      EmptyPrefix(ReadAll(limits, block, more, ending).events);
    } else {
      var tail := input[s.consumed..];
      ReadingThenMore(limits, s.block, tail, more, ending);
      assert (input + more)[s.consumed..] == tail + more;
      var first := ReadAll(limits, s.block, tail, PeerClosed);
      var second := ReadAll(limits, first.block, more, ending);
      assert [EventOf(s.result)] + (first.events + second.events) == [EventOf(s.result)] + first.events + second.events;
    }
  }

  lemma OneAtAnySplit(limits: Limits, block: Block, input: seq<byte>, more: seq<byte>, ending: Ending)
    ensures var one := ReadOne(limits, block, input, PeerClosed);
      one.Discarded? || (one.step.result != Err(Eof) && one.step.result != Err(UnexpectedEof)) ==>
        ReadOne(limits, block, input + more, ending) == one
  {
    hide ParseHeader, Parse, Tracked;
    if |input| >= HEADER_LEN {
      HeaderOfConcatenation(input, more);
      var n := HEADER_LEN + ParseHeader(input).length;
      if n <= |input| {
        assert (input + more)[HEADER_LEN..n] == input[HEADER_LEN..n];
      }
    }
  }

  lemma {:induction false} StepAtAnySplit(limits: Limits, block: Block, input: seq<byte>, more: seq<byte>,
                                          ending: Ending)
    ensures var s := ReadStep(limits, block, input, PeerClosed);
      s.result != Err(Eof) && s.result != Err(UnexpectedEof) ==> ReadStep(limits, block, input + more, ending) == s
    decreases |input|
  {
    hide ReadOne;
    OneAtAnySplit(limits, block, input, more, ending);
    match ReadOne(limits, block, input, PeerClosed)
    case Reported(_) =>
    case Discarded(n) =>
      StepAtAnySplit(limits, block, input[n..], more, ending);
      assert (input + more)[n..] == input[n..] + more;
  }

  /**
    Wherever the octets happen to be split, in the middle of a frame as well: what was reported when the first part had
    arrived is the beginning of what is reported when all has, and a refusal in the first part is final.
   */
  lemma {:induction false} AnySplit(limits: Limits, block: Block, input: seq<byte>, more: seq<byte>, ending: Ending)
    ensures var first, full := ReadAll(limits, block, input, PeerClosed), ReadAll(limits, block, input + more, ending);
      && first.events <= full.events
      && (first.fault != Eof && first.fault != UnexpectedEof ==> full == first)
    decreases |input|
  {
    hide ReadStep;
    StepAtAnySplit(limits, block, input, more, ending);
    var s := ReadStep(limits, block, input, PeerClosed);
    if !Fatal(s.result) {
      var tail := input[s.consumed..];
      AnySplit(limits, s.block, tail, more, ending);
      assert (input + more)[s.consumed..] == tail + more;
    }
  }

  // ---------- Frames of unknown type ----------

  /** The octets are one whole frame of a type without a parser, no longer than the reader allows. */
  ghost predicate IsUnknownFrame(limits: Limits, u: seq<byte>) {
    |u| >= HEADER_LEN
    && var h := ParseHeader(u);
       !Known(h.kind) && h.length <= limits.maxFrameSize && |u| == HEADER_LEN + h.length
  }

  lemma UnknownFirst(limits: Limits, block: Block, u: seq<byte>, more: seq<byte>, ending: Ending)
    requires IsUnknownFrame(limits, u)
    ensures block.stream == 0 ==> ReadAll(limits, block, u + more, ending) == ReadAll(limits, block, more, ending)
    ensures block.stream != 0 ==>
              ReadAll(limits, block, u + more, ending) == Reading([], ConnError(PROTOCOL_ERROR), block)
  {
    HeaderOfConcatenation(u, more);
    hide ParseHeader;
    if block.stream == 0 {
      assert (u + more)[|u|..] == more;
      var s, t := ReadStep(limits, block, more, ending), ReadStep(limits, block, u + more, ending);
      assert t == s.(consumed := |u| + s.consumed);
      assert (u + more)[t.consumed..] == more[s.consumed..];
    }
  }

  lemma {:induction false} UnknownFramesFirst(limits: Limits, block: Block, us: seq<seq<byte>>, more: seq<byte>,
                                              ending: Ending)
    requires forall i | 0 <= i < |us| :: IsUnknownFrame(limits, us[i])
    requires block.stream == 0
    ensures ReadAll(limits, block, Concat(us) + more, ending) == ReadAll(limits, block, more, ending)
  {
    hide ReadAll, IsUnknownFrame;
    if us == [] {
      assert [] + more == more;
    } else {
      assert Concat(us) + more == us[0] + (Concat(us[1..]) + more);
      UnknownFirst(limits, block, us[0], Concat(us[1..]) + more, ending);
      UnknownFramesFirst(limits, block, us[1..], more, ending);
    }
  }

  /**
    Between header blocks, frames of unknown type can be put in or taken out without changing anything the
    reader reports. Inside an open block the first of them ends the connection.
   */
  lemma UnknownFramesAreInvisible(limits: Limits, before: seq<byte>, us: seq<seq<byte>>, more: seq<byte>,
                                  ending: Ending)
    requires forall i | 0 <= i < |us| :: IsUnknownFrame(limits, us[i])
    requires ReadAll(limits, CLOSED, before, PeerClosed).fault == Eof
    ensures var first := ReadAll(limits, CLOSED, before, PeerClosed);
      && (first.block.stream == 0 ==>
            ReadAll(limits, CLOSED, before + Concat(us) + more, ending)
            == ReadAll(limits, CLOSED, before + more, ending))
      && (first.block.stream != 0 && us != [] ==>
            ReadAll(limits, CLOSED, before + Concat(us) + more, ending)
            == Reading(first.events, ConnError(PROTOCOL_ERROR), first.block))
  {
    hide ReadAll, IsUnknownFrame;
    var first := ReadAll(limits, CLOSED, before, PeerClosed);
    assert before + Concat(us) + more == before + (Concat(us) + more);
    ReadingThenMore(limits, CLOSED, before, Concat(us) + more, ending);
    ReadingThenMore(limits, CLOSED, before, more, ending);
    if first.block.stream == 0 {
      UnknownFramesFirst(limits, first.block, us, more, ending);
    } else if us != [] {
      assert Concat(us) + more == us[0] + (Concat(us[1..]) + more);
      UnknownFirst(limits, first.block, us[0], Concat(us[1..]) + more, ending);
      assert first.events + [] == first.events;
    }
  }

  // ---------- Reading back what was written ----------

  ghost function Delivered(frames: seq<Frame>): seq<Event> {
    seq(|frames|, i requires 0 <= i < |frames| => Got(Normal(frames[i])))
  }

  /** Clearing the fields a frame's flags deny leaves what the block grammar looks at alone. */
  lemma NormalCarriesTheSameBlock(f: Frame)
    ensures var n := Normal(f);
      && CarriesBlock(Got(n)) == CarriesBlock(Got(f))
      && n.ContinuationFrame? == f.ContinuationFrame?
      && (CarriesBlock(Got(f)) ==> n.endHeaders == f.endHeaders && n.streamId == f.streamId && n.fragment == f.fragment)
      && n.Kind() == f.Kind()
  {
  }

  /** What the reader does with a written frame that continuity admits. */
  ghost function Redeliver(limits: Limits, block: Block, f: Frame): Step
    requires Representable(f)
  {
    WireLength(f);
    Deliver(limits, block, f.HeaderOf(), f.Payload())
  }

  lemma WireLength(f: Frame)
    requires Representable(f)
    ensures f.HeaderOf().length == |f.Payload()| <= MAX_LENGTH
    ensures f.HeaderOf().streamId <= STREAM_ID_MASK
    ensures |f.Wire()| == HEADER_LEN + f.HeaderOf().length
    ensures Known(f.HeaderOf().kind)
  {
    DeclaredLength(f);
    KindIsKnown(f);
    hide Frame.Payload, Frame.Flags, Frame.PayloadLen, Frame.Kind, Frame.Stream;
  }

  lemma Redelivered(limits: Limits, block: Block, f: Frame)
    requires Representable(f)
    ensures var s, t := Redeliver(limits, block, f), Tracked(limits, block, Normal(f));
      && s.consumed == |f.Wire()|
      && (Acceptable(f) ==> s.block == t.0 && s.result == if t.1.Some? then Err(t.1.value) else Ok(Normal(f)))
      && (!Acceptable(f) ==> s.result.Err?)
  {
    hide Parse, Frame.Payload, Frame.HeaderOf, Frame.Wire, Tracked, Normal, Acceptable, Representable;
    WireLength(f);
    PrintThenParse(f);
  }

  /** One written frame in front of anything: the reader sees exactly that frame. */
  lemma ReadOneWritten(limits: Limits, block: Block, f: Frame, more: seq<byte>, ending: Ending)
    requires Representable(f) && |f.Payload()| <= limits.maxFrameSize
    ensures var s := ReadStep(limits, block, f.Wire() + more, ending);
      match CheckContinuity(block, f.HeaderOf())
      case Some(fault) => s.result == Err(fault)
      case None => s == Redeliver(limits, block, f)
  {
    hide ParseHeader, Parse, AppendHeader, Deliver, CheckContinuity, Frame.Payload, Frame.HeaderOf, Representable;
    WireLength(f);
    var h, p := f.HeaderOf(), f.Payload();
    var input := f.Wire() + more;
    assert input == AppendHeader(h) + (p + more);
    HeaderRoundTrip(h, p + more);
    assert input[HEADER_LEN..HEADER_LEN + h.length] == p;
  }

  lemma KindIsKnown(f: Frame)
    ensures Known(f.Kind())
  {
  }

  ghost predicate Sendable(limits: Limits, frames: seq<Frame>) {
    forall i | 0 <= i < |frames| :: Representable(frames[i]) && |frames[i].Payload()| <= limits.maxFrameSize
  }

  ghost predicate AllAcceptable(frames: seq<Frame>) {
    forall i | 0 <= i < |frames| :: Acceptable(frames[i])
  }

  /** A frame that is acceptable and extends the grammar is read back in its normal form. */
  lemma GoodFrameIsRead(limits: Limits, past: seq<Event>, block: Block, f: Frame, more: seq<byte>, ending: Ending)
    requires Representable(f) && |f.Payload()| <= limits.maxFrameSize && Acceptable(f)
    requires Agrees(past, block)
    requires Contiguous(past + [Got(Normal(f))], |past|) && Within(limits, past + [Got(Normal(f))], |past|)
    ensures var s := ReadStep(limits, block, f.Wire() + more, ending);
      s.result == Ok(Normal(f)) && s.consumed == |f.Wire()|
  {
    var n := Normal(f);
    BlockOfLast(past, Got(n));
    NormalCarriesTheSameBlock(f);
    ReadOneWritten(limits, block, f, more, ending);
    Redelivered(limits, block, f);
    ContinuationKind(f);
    hide Normal, Acceptable, Representable, ReadStep, Redeliver, Frame.HeaderOf, Frame.Wire, Frame.Payload;
    assert CheckContinuity(block, f.HeaderOf()).None?;
    assert Tracked(limits, block, n).1.None?;
  }

  lemma ContinuationKind(f: Frame)
    ensures f.HeaderOf().kind == TYPE_CONTINUATION <==> f.ContinuationFrame?
    ensures f.ContinuationFrame? ==> f.HeaderOf().streamId == f.streamId
  {
  }

  lemma FirstThenRest(limits: Limits, block: Block, wire: seq<byte>, more: seq<byte>, ending: Ending, f: Frame)
    requires var s := ReadStep(limits, block, wire + more, ending); s.result == Ok(f) && s.consumed == |wire|
    ensures var tail := ReadAll(limits, ReadStep(limits, block, wire + more, ending).block, more, ending);
      ReadAll(limits, block, wire + more, ending) == tail.(events := [Got(f)] + tail.events)
  {
    hide ReadStep;
    assert (wire + more)[|wire|..] == more;
  }

  lemma GoodAfterGood(limits: Limits, past: seq<Event>, e: Event, rest: seq<Event>)
    requires Grammatical(limits, past + ([e] + rest))
    ensures Grammatical(limits, past + [e] + rest) && Grammatical(limits, past + [e])
    ensures Contiguous(past + [e], |past|) && Within(limits, past + [e], |past|)
  {
    hide Grammatical, Contiguous, Within;
    assert past + ([e] + rest) == past + [e] + rest;
    GrammaticalPrefix(limits, past + [e], rest);
    GrammaticalSnoc(limits, past, e);
  }

  lemma {:induction false} GoodFramesAreRead(limits: Limits, past: seq<Event>, block: Block, frames: seq<Frame>)
    requires Sendable(limits, frames) && AllAcceptable(frames)
    requires Grammatical(limits, past + Delivered(frames)) && Agrees(past, block)
    ensures var r := ReadAll(limits, block, FrameWriter.Encode(frames), PeerClosed);
      r.events == Delivered(frames) && r.fault == Eof
    decreases |frames|
  {
    if frames != [] {
      var f, rest := frames[0], frames[1..];
      var e, wire, more := Got(Normal(f)), f.Wire(), FrameWriter.Encode(rest);
      assert frames == [f] + rest;
      DeliveredCons(f, rest);
      hide Grammatical, Agrees, ReadStep, ReadAll, Normal, Acceptable, Representable, Contiguous, Within, Frame.Wire,
           Frame.Payload, Delivered;
      GoodAfterGood(limits, past, e, Delivered(rest));
      GrammaticalPrefix(limits, past, [e]);
      GoodFrameIsRead(limits, past, block, f, more, PeerClosed);
      StepExtends(limits, past, block, wire + more, PeerClosed);
      FirstThenRest(limits, block, wire, more, PeerClosed, Normal(f));
      GoodFramesAreRead(limits, past + [e], ReadStep(limits, block, wire + more, PeerClosed).block, rest);
    } else {
      assert Delivered([]) == [];
    }
  }

  lemma DeliveredCons(f: Frame, rest: seq<Frame>)
    ensures Delivered([f] + rest) == [Got(Normal(f))] + Delivered(rest)
  {
  }

  /** Reading a frame back means that it was acceptable. */
  lemma ReadFrameWasGood(limits: Limits, block: Block, f: Frame, more: seq<byte>, ending: Ending)
    requires Representable(f) && |f.Payload()| <= limits.maxFrameSize
    ensures var s := ReadStep(limits, block, f.Wire() + more, ending);
      s.result.Ok? ==> Acceptable(f) && s.consumed == |f.Wire()|
  {
    ReadOneWritten(limits, block, f, more, ending);
    Redelivered(limits, block, f);
    hide ReadStep, Normal, Acceptable, Representable, Redeliver, Tracked, CheckContinuity, Frame.HeaderOf, Frame.Wire,
         Frame.Payload;
  }

  lemma {:induction false} ReadFramesWereGood(limits: Limits, block: Block, frames: seq<Frame>)
    requires Sendable(limits, frames)
    requires ReadAll(limits, block, FrameWriter.Encode(frames), PeerClosed).events == Delivered(frames)
    ensures AllAcceptable(frames)
    decreases |frames|
  {
    if frames != [] {
      var f, rest := frames[0], frames[1..];
      var more := FrameWriter.Encode(rest);
      var input := f.Wire() + more;
      DeliveredCons(f, rest);
      ReadFrameWasGood(limits, block, f, more, PeerClosed);
      hide ReadStep, Normal, Acceptable, Representable, Frame.Wire, Frame.Payload, Delivered;
      assert frames == [f] + rest;
      var s := ReadStep(limits, block, input, PeerClosed);
      var tail := ReadAll(limits, s.block, input[s.consumed..], PeerClosed);
      assert ReadAll(limits, block, input, PeerClosed).events == [EventOf(s.result)] + tail.events;
      assert ([EventOf(s.result)] + tail.events)[1..] == tail.events;
      assert ([Got(Normal(f))] + Delivered(rest))[1..] == Delivered(rest);
      assert input[s.consumed..] == more;
      ReadFramesWereGood(limits, s.block, rest);
    }
  }

  /**
    Frames written one after another are read back in order, each in its normal form and nothing after them
    but a clean end, if and only if each one is acceptable to the parser and together they obey the block
    grammar within the reader's bounds.
   */
  lemma StreamRoundTrip(limits: Limits, frames: seq<Frame>)
    requires Sendable(limits, frames)
    ensures var r := ReadAll(limits, CLOSED, FrameWriter.Encode(frames), PeerClosed);
      r.events == Delivered(frames) && r.fault == Eof <==>
      AllAcceptable(frames) && Grammatical(limits, Delivered(frames))
  {
    var input := FrameWriter.Encode(frames);
    var r := ReadAll(limits, CLOSED, input, PeerClosed);
    if r.events == Delivered(frames) && r.fault == Eof {
      BlockGrammar(limits, input, PeerClosed);
      ReadFramesWereGood(limits, CLOSED, frames);
    }
    if AllAcceptable(frames) && Grammatical(limits, Delivered(frames)) {
      EmptyPrefix(Delivered(frames));
      GoodFramesAreRead(limits, [], CLOSED, frames);
    }
  }

  /**
    The writer's runs and the reader together: after any run without a write failure that ends flushed, the
    octets delivered read back as exactly the frames Queue accepted, under the condition of StreamRoundTrip.
   */
  lemma WrittenThenRead(maxFrameSize: uint32, ops: seq<FrameWriter.Op>, limits: Limits)
    requires var run := FrameWriter.RunOf(maxFrameSize, ops);
      && run.state.err.None? && run.state.buf == []
      && forall i | 0 <= i < |run.accepted| :: |run.accepted[i].Payload()| <= limits.maxFrameSize
    ensures var run := FrameWriter.RunOf(maxFrameSize, ops);
      var r := ReadAll(limits, CLOSED, run.state.delivered, PeerClosed);
      r.events == Delivered(run.accepted) && r.fault == Eof <==>
      AllAcceptable(run.accepted) && Grammatical(limits, Delivered(run.accepted))
  {
    var run := FrameWriter.RunOf(maxFrameSize, ops);
    FrameWriter.RunsWriteWholeFrames(maxFrameSize, ops);
    assert run.state.delivered + [] == run.state.delivered;
    StreamRoundTrip(limits, run.accepted);
  }
}
