/**
  The reader without its state: each frame judged by its own octets and by what was reported before it. The reader that
  keeps a block and two counters reports the same, on any octets.
 */
module ReaderHistory {
  import opened Octets
  import opened H2
  import opened Frames
  import opened FrameRoundTrip
  import opened FrameReader
  import opened ReaderGrammar
  import opened ReaderBounds

  /** What was reported, and why it ended. */
  datatype Told = Told(events: seq<Event>, fault: Fault)

  ghost function Before(e: Event, rest: Told): Told {
    rest.(events := [e] + rest.events)
  }

  /** After these events a header block is open and the frame does not continue it, or none is and the frame would. */
  ghost predicate OutOfPlace(past: seq<Event>, h: Header) {
    var open := OpenStream(past, |past|);
    if open == 0 then h.kind == 0x9 else h.kind != 0x9 || h.streamId != open
  }

  /** Input that ends before the octets that are due: cleanly only if it ends where a frame would start. */
  ghost function Missing(ending: Ending, atStart: bool): Fault {
    match ending
    case Broken => IoFailure
    case PeerClosed => if atStart then Eof else UnexpectedEof
  }

  /** A whole frame of a known type: an event to go on after, or the fault that ends the connection. */
  ghost function Judged(limits: Limits, past: seq<Event>, h: Header, payload: seq<byte>): Result<Event>
    requires Known(h.kind) && |payload| == h.length
  {
    match Parse(h, payload)
    case Err(StreamError(id, code)) => Ok(Reset(id, code))
    case Err(fault) => Err(fault)
    case Ok(f) => if Within(limits, past + [Got(f)], |past|) then Ok(Got(f)) else Err(CALM)
  }

  ghost function Judge(limits: Limits, past: seq<Event>, input: seq<byte>, ending: Ending): Told
    decreases |input|
  {
    if |input| < 9 then Told([], Missing(ending, input == []))
    else
      var h := ParseHeader(input);
      if h.length > limits.maxFrameSize then Told([], ConnError(FRAME_SIZE_ERROR))
      else if OutOfPlace(past, h) then Told([], ConnError(PROTOCOL_ERROR))
      else if |input| - 9 < h.length then Told([], Missing(ending, false))
      else if !Known(h.kind) then Judge(limits, past, input[9 + h.length..], ending)
      else
        match Judged(limits, past, h, input[9..9 + h.length])
        case Err(fault) => Told([], fault)
        case Ok(e) => Before(e, Judge(limits, past + [e], input[9 + h.length..], ending))
  }

  // ---------- One frame ----------

  lemma PlaceIsContinuity(past: seq<Event>, block: Block, h: Header)
    requires Agrees(past, block)
    ensures CheckContinuity(block, h) == if OutOfPlace(past, h) then Some(ConnError(PROTOCOL_ERROR)) else None
  {
    hide OpenStream;
  }

  lemma DeliverIsJudged(limits: Limits, past: seq<Event>, block: Block, h: Header, payload: seq<byte>)
    requires Known(h.kind) && |payload| == h.length && Agrees(past, block) && CheckContinuity(block, h).None?
    ensures Deliver(limits, block, h, payload).consumed == 9 + h.length
    ensures var s := Deliver(limits, block, h, payload);
      match Judged(limits, past, h, payload)
      case Ok(e) => !Fatal(s.result) && EventOf(s.result) == e
      case Err(fault) => s.result == Err(fault) && Fatal(s.result)
  {
    if Parse(h, payload).Ok? {
      BlockFramesNameAStream(h, payload);
      ContinuityIsContiguity(past, block, h, payload);
      hide Parse, Contiguous, Within, Agrees, CheckContinuity, Tracked;
      TrackedIsBounded(limits, past, block, Parse(h, payload).value);
    } else {
      hide Parse, Within, Tracked, Agrees, CheckContinuity;
    }
  }

  // ---------- A reading ----------

  ghost function ToldBy(r: Reading): Told {
    Told(r.events, r.fault)
  }

  /** Reading one frame and then the rest of the input. */
  lemma ReadingByOne(limits: Limits, block: Block, input: seq<byte>, ending: Ending)
    ensures var one, told := ReadOne(limits, block, input, ending), ToldBy(ReadAll(limits, block, input, ending));
      if one.Discarded? then told == ToldBy(ReadAll(limits, block, input[one.consumed..], ending))
      else if Fatal(one.step.result) then told == Told([], one.step.result.fault)
      else
        var rest := ToldBy(ReadAll(limits, one.step.block, input[one.step.consumed..], ending));
        told == Before(EventOf(one.step.result), rest)
  {
    hide ReadOne;
    match ReadOne(limits, block, input, ending)
    case Reported(s) =>
    case Discarded(n) =>
      var s := ReadStep(limits, block, input[n..], ending);
      assert ReadStep(limits, block, input, ending) == s.(consumed := n + s.consumed);
      if !Fatal(s.result) {
        assert input[n + s.consumed..] == input[n..][s.consumed..];
      }
  }

  lemma OneIsJudged(limits: Limits, past: seq<Event>, block: Block, input: seq<byte>, ending: Ending)
    requires Agrees(past, block) && |input| >= 9
    ensures var h := ParseHeader(input);
      var one := ReadOne(limits, block, input, ending);
      if h.length > limits.maxFrameSize then one == Reported(Step(Err(ConnError(FRAME_SIZE_ERROR)), 9, block))
      else if OutOfPlace(past, h) then one == Reported(Step(Err(ConnError(PROTOCOL_ERROR)), 9, block))
      else if |input| - 9 < h.length then one == Reported(Step(Err(Missing(ending, false)), |input|, block))
      else if !Known(h.kind) then one == Discarded(9 + h.length)
      else one == Reported(Deliver(limits, block, h, input[9..9 + h.length])) && CheckContinuity(block, h).None?
  {
    PlaceIsContinuity(past, block, ParseHeader(input));
    hide ParseHeader, Deliver, CheckContinuity, OutOfPlace, Agrees;
  }

  /** What one frame does to the events keeps the state in agreement with them. */
  lemma OneAgrees(limits: Limits, past: seq<Event>, block: Block, h: Header, payload: seq<byte>)
    requires Known(h.kind) && |payload| == h.length && Agrees(past, block) && CheckContinuity(block, h).None?
    requires Grammatical(limits, past)
    ensures var s := Deliver(limits, block, h, payload);
      !Fatal(s.result) ==>
        Grammatical(limits, past + [EventOf(s.result)]) && Agrees(past + [EventOf(s.result)], s.block)
  {
    DeliverExtends(limits, past, block, h, payload);
  }

  lemma {:induction false} ReadingIsJudged(limits: Limits, past: seq<Event>, block: Block, input: seq<byte>,
                                           ending: Ending)
    requires Agrees(past, block) && Grammatical(limits, past)
    ensures ToldBy(ReadAll(limits, block, input, ending)) == Judge(limits, past, input, ending)
    decreases |input|
  {
    ReadingByOne(limits, block, input, ending);
    hide ReadAll, Agrees, Grammatical, ParseHeader, Deliver, CheckContinuity, OutOfPlace, Judged;
    if |input| >= 9 {
      OneIsJudged(limits, past, block, input, ending);
      hide ReadOne;
      var h := ParseHeader(input);
      if h.length <= limits.maxFrameSize && !OutOfPlace(past, h) && h.length <= |input| - 9 {
        var payload, rest := input[9..9 + h.length], input[9 + h.length..];
        if Known(h.kind) {
          DeliverIsJudged(limits, past, block, h, payload);
          OneAgrees(limits, past, block, h, payload);
          var s := Deliver(limits, block, h, payload);
          if !Fatal(s.result) {
            ReadingIsJudged(limits, past + [EventOf(s.result)], s.block, rest, ending);
          }
        } else {
          ReadingIsJudged(limits, past, block, rest, ending);
        }
      }
    }
  }

  /**
    The reader refines its stateless form, on any octets: every frame and stream error reported, and the fault that ends
    the connection, is what the frame's own octets and the events before it decide.
   */
  lemma ReaderIsStateless(limits: Limits, input: seq<byte>, ending: Ending)
    ensures var r := ReadAll(limits, CLOSED, input, ending);
      Told(r.events, r.fault) == Judge(limits, [], input, ending)
  {
    NothingIsGrammatical(limits);
    hide ReadAll, Judge, Agrees, Grammatical;
    ReadingIsJudged(limits, [], CLOSED, input, ending);
  }

  // ---------- The frame size ----------

  /** A frame longer than the limit is refused when its header is read, whatever its type and whatever the block. */
  lemma OversizeIsRefused(limits: Limits, block: Block, input: seq<byte>, ending: Ending)
    requires |input| >= HEADER_LEN && ParseHeader(input).length > limits.maxFrameSize
    ensures ReadStep(limits, block, input, ending) == Step(Err(ConnError(FRAME_SIZE_ERROR)), HEADER_LEN, block)
  {
    hide ParseHeader;
  }

  lemma {:induction false} JudgedFit(limits: Limits, past: seq<Event>, input: seq<byte>, ending: Ending, i: nat)
    requires i < |Judge(limits, past, input, ending).events| && Judge(limits, past, input, ending).events[i].Got?
    ensures |Judge(limits, past, input, ending).events[i].frame.Payload()| <= limits.maxFrameSize
    decreases |input|
  {
    hide ParseHeader, OutOfPlace, Judged, Frame.Payload;
    var h := ParseHeader(input);
    var rest := input[9 + h.length..];
    if Known(h.kind) {
      var payload := input[9..9 + h.length];
      var e := Judged(limits, past, h, payload).value;
      if i == 0 {
        GotIsItsPayload(limits, past, h, payload);
        HeaderReprint(input);
      } else {
        JudgedFit(limits, past + [e], rest, ending, i - 1);
      }
    } else {
      JudgedFit(limits, past, rest, ending, i);
    }
  }

  lemma GotIsItsPayload(limits: Limits, past: seq<Event>, h: Header, payload: seq<byte>)
    requires Known(h.kind) && |payload| == h.length
    ensures h.length <= MAX_LENGTH && h.streamId <= STREAM_ID_MASK
            && Judged(limits, past, h, payload).Ok? && Judged(limits, past, h, payload).value.Got? ==>
              |Judged(limits, past, h, payload).value.frame.Payload()| == h.length
  {
    if h.length <= MAX_LENGTH && h.streamId <= STREAM_ID_MASK && Parse(h, payload).Ok? {
      ParseThenPrint(h, payload);
    }
    hide Parse, Frame.Payload, Within;
  }

  /** No frame a reader ever reports has a payload longer than its limit. */
  lemma ReportedFramesFit(limits: Limits, input: seq<byte>, ending: Ending, i: nat)
    requires var events := ReadAll(limits, CLOSED, input, ending).events; i < |events| && events[i].Got?
    ensures |ReadAll(limits, CLOSED, input, ending).events[i].frame.Payload()| <= limits.maxFrameSize
  {
    ReaderIsStateless(limits, input, ending);
    hide ReadAll, Judge, Frame.Payload;
    JudgedFit(limits, [], input, ending, i);
  }
}
