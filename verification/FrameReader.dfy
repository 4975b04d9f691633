/**
  The frame reader: the loop over the input, the rule that an open header block admits nothing but its
  own CONTINUATION frames, and the two bounds on a block. ReadStep specifies one call of ReadFrame on
  whatever input is left; ReadAll is what a caller sees who keeps calling until the connection ends.
 */
module FrameReader {
  import opened Octets
  import opened H2
  import opened Frames

  const DEFAULT_MAX_HEADER_BLOCK_SIZE: uint32 := 0x2_0000
  const DEFAULT_MAX_CONTINUATION_FRAMES := 32

  datatype Limits = Limits(maxFrameSize: uint32, maxHeaderBlockSize: uint32, maxContinuations: int)

  /** The open header block: its stream (zero when none is open), its octets and its CONTINUATION frames so far. */
  datatype Block = Block(stream: uint32, size: nat, continuations: nat)

  const CLOSED := Block(0, 0, 0)

  /** What the input is followed by: the peer's orderly close, or an I/O failure. */
  datatype Ending = PeerClosed | Broken

  datatype Step = Step(result: Result<Frame>, consumed: nat, block: Block)

  // ---------- The rules that span frames ----------

  function CheckContinuity(block: Block, h: Header): Option<Fault> {
    if block.stream != 0 then
      if h.kind != TYPE_CONTINUATION || h.streamId != block.stream then Some(ConnError(PROTOCOL_ERROR)) else None
    else if h.kind == TYPE_CONTINUATION then Some(ConnError(PROTOCOL_ERROR))
    else None
  }

  function CheckBlockLimits(limits: Limits, block: Block): Option<Fault> {
    if block.size > limits.maxHeaderBlockSize || block.continuations > limits.maxContinuations then
      Some(ConnError(ENHANCE_YOUR_CALM))
    else None
  }

  /** The bounds are applied before END_HEADERS closes the block, so the closing frame is bounded too. */
  function AfterFrame(limits: Limits, block: Block, endHeaders: bool): (Block, Option<Fault>) {
    (if endHeaders then CLOSED else block, CheckBlockLimits(limits, block))
  }

  function Tracked(limits: Limits, block: Block, f: Frame): (Block, Option<Fault>) {
    match f
    case HeadersFrame(streamId, _, endHeaders, fragment, _, _, _, _, _, _) =>
      AfterFrame(limits, Block(streamId, |fragment|, 0), endHeaders)
    case PushPromiseFrame(streamId, _, endHeaders, fragment, _, _) =>
      AfterFrame(limits, Block(streamId, |fragment|, 0), endHeaders)
    case ContinuationFrame(_, endHeaders, fragment) =>
      AfterFrame(limits, Block(block.stream, block.size + |fragment|, block.continuations + 1), endHeaders)
    case _ => (block, None)
  }

  // ---------- One call ----------

  /** The connection ends here. A stream error does not end it. */
  predicate Fatal(r: Result<Frame>) {
    r.Err? && !r.fault.StreamError?
  }

  /** Running out of input before n octets: a clean end only where nothing at all was read. */
  function Shortfall(got: nat, ending: Ending): Fault {
    if ending == Broken then IoFailure else if got == 0 then Eof else UnexpectedEof
  }

  /** One frame header and its payload: what is reported of it or, for an unknown type, that it is discarded. */
  datatype One = Reported(step: Step) | Discarded(consumed: nat)

  function ReadOne(limits: Limits, block: Block, input: seq<byte>, ending: Ending): (one: One)
    ensures one.Discarded? ==> HEADER_LEN <= one.consumed <= |input|
    ensures one.Reported? ==> one.step.consumed <= |input|
    ensures one.Reported? && !Fatal(one.step.result) ==> HEADER_LEN <= one.step.consumed
  {
    if |input| < HEADER_LEN then Reported(Step(Err(Shortfall(|input|, ending)), |input|, block))
    else
      var h := ParseHeader(input);
      if h.length > limits.maxFrameSize then Reported(Step(Err(ConnError(FRAME_SIZE_ERROR)), HEADER_LEN, block))
      else
        match CheckContinuity(block, h)
        case Some(fault) => Reported(Step(Err(fault), HEADER_LEN, block))
        case None =>
          if |input| < HEADER_LEN + h.length then
            Reported(Step(Err(if ending == Broken then IoFailure else UnexpectedEof), |input|, block))
          else
            var consumed := HEADER_LEN + h.length;
            if !Known(h.kind) then Discarded(consumed)
            else Reported(Deliver(limits, block, h, input[HEADER_LEN..consumed]))
  }

  /** Parsing a complete payload and keeping the block state. */
  function Deliver(limits: Limits, block: Block, h: Header, payload: seq<byte>): (s: Step)
    requires Known(h.kind) && |payload| == h.length
    ensures s.consumed == HEADER_LEN + h.length
  {
    match Parse(h, payload)
    case Err(fault) => Step(Err(fault), HEADER_LEN + h.length, block)
    case Ok(f) =>
      var (block', refusal) := Tracked(limits, block, f);
      Step(if refusal.Some? then Err(refusal.value) else Ok(f), HEADER_LEN + h.length, block')
  }

  /** ReadFrame on the input that is left: unknown frames are discarded until there is something to report. */
  function ReadStep(limits: Limits, block: Block, input: seq<byte>, ending: Ending): (s: Step)
    ensures s.consumed <= |input|
    ensures !Fatal(s.result) ==> HEADER_LEN <= s.consumed
    decreases |input|
  {
    match ReadOne(limits, block, input, ending)
    case Reported(step) => step
    case Discarded(n) =>
      var s := ReadStep(limits, block, input[n..], ending);
      s.(consumed := n + s.consumed)
  }

  lemma HeaderIsNineOctets(b: seq<byte>)
    requires |b| >= HEADER_LEN
    ensures ParseHeader(b) == ParseHeader(b[..HEADER_LEN])
  {
    assert b[5..HEADER_LEN] == b[..HEADER_LEN][5..HEADER_LEN];
  }

  // ---------- The class ----------

  class Reader {
    const input: seq<byte>
    const ending: Ending
    const maxFrameSize: uint32
    const maxHeaderBlockSize: uint32
    const maxContinuations: int

    var pos: nat
    var blockStream: uint32
    var blockSize: nat
    var continuations: nat

    ghost predicate Valid()
      reads this
    {
      pos <= |input|
    }

    function Bounds(): Limits {
      Limits(maxFrameSize, maxHeaderBlockSize, maxContinuations)
    }

    function Open(): Block
      reads this
    {
      Block(blockStream, blockSize, continuations)
    }

    function Rest(): seq<byte>
      requires Valid()
      reads this
    {
      input[pos..]
    }

    /** A zero field of the configuration takes its default, and the block bound is never below one frame. */
    constructor (input: seq<byte>, ending: Ending, maxFrameSize: uint32, maxHeaderBlockSize: uint32,
                 maxContinuations: int)
      ensures Valid() && Rest() == input && this.ending == ending && Open() == CLOSED
      ensures this.maxFrameSize == if maxFrameSize == 0 then DEFAULT_MAX_FRAME_SIZE else maxFrameSize
      ensures maxContinuations != 0 ==> this.maxContinuations == maxContinuations
      ensures maxContinuations == 0 ==> this.maxContinuations == DEFAULT_MAX_CONTINUATION_FRAMES
      ensures var asked := if maxHeaderBlockSize == 0 then DEFAULT_MAX_HEADER_BLOCK_SIZE else maxHeaderBlockSize;
        this.maxHeaderBlockSize == if asked < this.maxFrameSize then this.maxFrameSize else asked
    {
      var frame: uint32 := if maxFrameSize == 0 then DEFAULT_MAX_FRAME_SIZE else maxFrameSize;
      var block: uint32 := if maxHeaderBlockSize == 0 then DEFAULT_MAX_HEADER_BLOCK_SIZE else maxHeaderBlockSize;
      this.input, this.ending := input, ending;
      this.maxFrameSize := frame;
      this.maxHeaderBlockSize := if block < frame then frame else block;
      this.maxContinuations := if maxContinuations == 0 then DEFAULT_MAX_CONTINUATION_FRAMES else maxContinuations;
      pos, blockStream, blockSize, this.continuations := 0, 0, 0, 0;
    }

    /** Reads exactly n octets, or takes what there is and says why it stopped. */
    method ReadFull(n: nat) returns (r: Result<seq<byte>>)
      requires Valid()
      modifies this`pos
      ensures Valid()
      ensures n <= |old(Rest())| ==> r == Ok(old(Rest())[..n]) && Rest() == old(Rest())[n..]
      ensures n > |old(Rest())| ==> r == Err(Shortfall(|old(Rest())|, ending)) && Rest() == []
      ensures pos == if n <= |old(Rest())| then old(pos) + n else |input|
    {
      if n <= |input| - pos {
        assert Rest()[..n] == input[pos..pos + n] && Rest()[n..] == input[pos + n..];
        r := Ok(input[pos..pos + n]);
        pos := pos + n;
      } else {
        r := Err(Shortfall(|input| - pos, ending));
        pos := |input|;
      }
    }

    method FinishFrame(endHeaders: bool) returns (refusal: Option<Fault>)
      modifies this`blockStream, this`blockSize, this`continuations
      ensures (Open(), refusal) == AfterFrame(Bounds(), old(Open()), endHeaders)
    {
      refusal := CheckBlockLimits(Bounds(), Open());
      if endHeaders {
        blockStream, blockSize, continuations := 0, 0, 0;
      }
    }

    method TrackBlock(f: Frame) returns (refusal: Option<Fault>)
      modifies this`blockStream, this`blockSize, this`continuations
      ensures (Open(), refusal) == Tracked(Bounds(), old(Open()), f)
    {
      match f {
        case HeadersFrame(streamId, _, endHeaders, fragment, _, _, _, _, _, _) =>
          blockStream, blockSize, continuations := streamId, |fragment|, 0;
          refusal := FinishFrame(endHeaders);
        case PushPromiseFrame(streamId, _, endHeaders, fragment, _, _) =>
          blockStream, blockSize, continuations := streamId, |fragment|, 0;
          refusal := FinishFrame(endHeaders);
        case ContinuationFrame(_, endHeaders, fragment) =>
          blockSize, continuations := blockSize + |fragment|, continuations + 1;
          refusal := FinishFrame(endHeaders);
        case _ => refusal := None;
      }
    }

    /** Reads the next frame, discarding frames of unknown type, and leaves the input after what it consumed. */
    method ReadFrame() returns (r: Result<Frame>)
      requires Valid()
      modifies this
      ensures Valid()
      ensures var s := ReadStep(Bounds(), old(Open()), old(Rest()), ending);
        r == s.result && Open() == s.block && pos == old(pos) + s.consumed
    {
      hide Parse, ParseHeader, Tracked, CheckContinuity, Reads, ReadStep;
      ghost var limits, block := Bounds(), Open();
      ghost var whole, skipped: nat := ReadStep(limits, block, Rest(), ending), 0;
      ReadsFromTheStart(limits, block, Rest(), ending);
      while true
        invariant Valid() && pos == old(pos) + skipped && Open() == block
        invariant Reads(limits, block, Rest(), ending, skipped, whole)
        decreases |input| - pos
      {
        ghost var left := Rest();
        ReadsOn(limits, block, left, ending, skipped, whole);
        var hdr := ReadFull(HEADER_LEN);
        if hdr.Err? {
          return Err(hdr.fault);
        }
        var h := ParseHeader(hdr.value);
        HeaderIsNineOctets(left);
        if h.length > maxFrameSize {
          return Err(ConnError(FRAME_SIZE_ERROR));
        }
        var stray := CheckContinuity(Open(), h);
        if stray.Some? {
          return Err(stray.value);
        }
        var payload := ReadFull(h.length);
        if payload.Err? {
          return Err(if payload.fault == Eof then UnexpectedEof else payload.fault);
        }
        assert payload.value == left[HEADER_LEN..HEADER_LEN + h.length];
        assert Rest() == left[HEADER_LEN + h.length..];
        if !Known(h.kind) {
          skipped := skipped + HEADER_LEN + h.length;
          continue;
        }
        var f := Parse(h, payload.value);
        if f.Err? {
          return Err(f.fault);
        }
        var refusal := TrackBlock(f.value);
        if refusal.Some? {
          return Err(refusal.value);
        }
        return f;
      }
    }
  }

  /** Reading on from here, after skipped octets were discarded, comes to whole. */
  ghost predicate Reads(limits: Limits, block: Block, input: seq<byte>, ending: Ending, skipped: nat, whole: Step) {
    var s := ReadStep(limits, block, input, ending);
    whole == Step(s.result, skipped + s.consumed, s.block)
  }

  lemma ReadsFromTheStart(limits: Limits, block: Block, input: seq<byte>, ending: Ending)
    ensures Reads(limits, block, input, ending, 0, ReadStep(limits, block, input, ending))
  {
    hide ReadStep;
  }

  lemma ReadsOn(limits: Limits, block: Block, input: seq<byte>, ending: Ending, skipped: nat, whole: Step)
    requires Reads(limits, block, input, ending, skipped, whole)
    ensures match ReadOne(limits, block, input, ending)
            case Reported(step) => whole == Step(step.result, skipped + step.consumed, step.block)
            case Discarded(n) => Reads(limits, block, input[n..], ending, skipped + n, whole)
  {
    hide ReadOne;
  }

  // ---------- Calling until the connection ends ----------

  /** What one call reported, when the connection goes on afterwards. */
  datatype Event = Got(frame: Frame) | Reset(streamId: uint32, code: uint32)

  /** A reading of the whole input: the events, then the fault that ended it. */
  datatype Reading = Reading(events: seq<Event>, fault: Fault, block: Block)

  function ReadAll(limits: Limits, block: Block, input: seq<byte>, ending: Ending): Reading
    decreases |input|
  {
    var s := ReadStep(limits, block, input, ending);
    if Fatal(s.result) then Reading([], s.result.fault, s.block)
    else
      var rest := ReadAll(limits, s.block, input[s.consumed..], ending);
      rest.(events := [EventOf(s.result)] + rest.events)
  }

  function EventOf(r: Result<Frame>): Event
    requires !Fatal(r)
  {
    if r.Ok? then Got(r.value) else Reset(r.fault.streamId, r.fault.code)
  }
}
