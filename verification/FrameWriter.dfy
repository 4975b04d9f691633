/**
  The frame writer: a queue of serialised frames in front of one byte stream. Whatever is queued, refused,
  flushed or lost, what reaches the peer is a prefix of whole frames.
 */
module FrameWriter {
  import opened Octets
  import opened H2
  import opened Frames
  import opened FrameRoundTrip

  /** delivered is what the byte stream has taken so far. */
  datatype State = State(delivered: seq<byte>, buf: seq<byte>, maxFrameSize: uint32, err: Option<Fault>)

  function Clamp(n: uint32): uint32 {
    if n < DEFAULT_MAX_FRAME_SIZE then DEFAULT_MAX_FRAME_SIZE else if n > MAX_LENGTH then MAX_LENGTH else n
  }

  /** A frame can be sent if its true length fits the peer's bound and its stream fits 31 bits. */
  ghost predicate Accepts(w: State, f: Frame) {
    w.err.None? && |f.Payload()| <= w.maxFrameSize && f.Stream() <= STREAM_ID_MASK
  }

  /** One call of the byte stream's Write took n octets of a buffer, with or without an error. */
  function WriteFailure(n: nat, size: nat, failure: Option<Fault>): Option<Fault> {
    if failure.None? && n != size then Some(ShortWrite) else failure
  }

  class Writer {
    var delivered: seq<byte>
    var buf: seq<byte>
    var maxFrameSize: uint32
    var err: Option<Fault>

    ghost predicate Valid()
      reads this
    {
      DEFAULT_MAX_FRAME_SIZE <= maxFrameSize <= MAX_LENGTH
    }

    function Abstract(): State
      reads this
    {
      State(delivered, buf, maxFrameSize, err)
    }

    constructor (maxFrameSize: uint32)
      ensures Valid()
      ensures Abstract() == State([], [], Clamp(maxFrameSize), None)
    {
      delivered, buf, err := [], [], None;
      this.maxFrameSize := Clamp(if maxFrameSize == 0 then DEFAULT_MAX_FRAME_SIZE else maxFrameSize);
    }

    method SetMaxFrameSize(n: uint32)
      modifies this`maxFrameSize
      ensures Valid()
      ensures Abstract() == old(Abstract()).(maxFrameSize := Clamp(n))
      ensures DEFAULT_MAX_FRAME_SIZE <= n <= MAX_LENGTH ==> maxFrameSize == n
    {
      var size := n;
      if size < DEFAULT_MAX_FRAME_SIZE {
        size := DEFAULT_MAX_FRAME_SIZE;
      }
      if size > MAX_LENGTH {
        size := MAX_LENGTH;
      }
      maxFrameSize := size;
    }

    /**
      Appends a frame, or refuses it and leaves the buffer as it was. The bound is checked against a length
      that wraps at 2^32; the comparison after serialising catches every frame that slips past it that way.
     */
    method Queue(f: Frame) returns (refusal: Option<Fault>)
      requires Valid()
      modifies this`buf
      ensures Valid()
      ensures refusal.None? <==> Accepts(old(Abstract()), f)
      ensures Abstract() == old(Abstract()).(buf := if refusal.None? then old(buf) + f.Wire() else old(buf))
      ensures refusal.Some? ==> refusal == if old(err).Some? then old(err) else Some(ConnError(INTERNAL_ERROR))
    {
      DeclaredLength(f);
      if err.Some? {
        return err;
      }
      var max := maxFrameSize;
      if f.PayloadLen() > max {
        return Some(ConnError(INTERNAL_ERROR));
      }
      if f.Stream() > STREAM_ID_MASK {
        return Some(ConnError(INTERNAL_ERROR));
      }
      var start := |buf|;
      buf := buf + AppendHeader(f.HeaderOf());
      buf := buf + f.Payload();
      if |buf| - start - HEADER_LEN != f.PayloadLen() {
        buf := buf[..start];
        assert buf == old(buf);
        return Some(ConnError(INTERNAL_ERROR));
      }
      assert buf == old(buf) + f.Wire();
      return None;
    }

    /** Writes the whole buffer in one call. The environment decides how much is taken and whether it fails. */
    method Flush(n: nat, failure: Option<Fault>) returns (r: Option<Fault>)
      requires Valid() && n <= |buf|
      modifies this`delivered, this`buf, this`err
      ensures Valid()
      ensures Abstract() == AfterFlush(old(Abstract()), n, failure)
      ensures r == err
    {
      if err.Some? {
        return err;
      }
      if |buf| == 0 {
        return None;
      }
      var failed := WriteFailure(n, |buf|, failure);
      delivered := delivered + buf[..n];
      buf := [];
      if failed.Some? {
        err := failed;
      }
      return err;
    }

    method WriteFrame(f: Frame, n: nat, failure: Option<Fault>) returns (r: Option<Fault>)
      requires Valid() && n <= |buf| + |f.Wire()|
      modifies this
      ensures Valid()
      ensures !Accepts(old(Abstract()), f) ==> Abstract() == old(Abstract())
      ensures !Accepts(old(Abstract()), f) ==> r == if old(err).Some? then old(err) else Some(ConnError(INTERNAL_ERROR))
      ensures Accepts(old(Abstract()), f) ==>
                r == err && Abstract() == AfterFlush(AfterQueue(old(Abstract()), f), n, failure)
    {
      r := Queue(f);
      if r.None? {
        r := Flush(n, failure);
      }
    }
  }

  // ---------- Whole runs ----------

  ghost function AfterQueue(w: State, f: Frame): State {
    if Accepts(w, f) then w.(buf := w.buf + f.Wire()) else w
  }

  /** A failure is latched and the queue dropped: there is no offset a retry could resume from. */
  ghost function AfterFlush(w: State, n: nat, failure: Option<Fault>): State {
    if w.err.Some? || w.buf == [] || n > |w.buf| then w
    else State(w.delivered + w.buf[..n], [], w.maxFrameSize, WriteFailure(n, |w.buf|, failure))
  }

  datatype Op = QueueFrame(frame: Frame) | FlushQueue(n: nat, failure: Option<Fault>) | SetMax(size: uint32)

  /** A run: the state it reaches, and the frames Queue accepted, in order. */
  datatype Run = Run(state: State, accepted: seq<Frame>)

  ghost function After(run: Run, op: Op): Run {
    match op
    case QueueFrame(f) =>
      Run(AfterQueue(run.state, f), if Accepts(run.state, f) then run.accepted + [f] else run.accepted)
    case FlushQueue(n, failure) => run.(state := AfterFlush(run.state, n, failure))
    case SetMax(size) => run.(state := run.state.(maxFrameSize := Clamp(size)))
  }

  ghost function RunOf(maxFrameSize: uint32, ops: seq<Op>): Run {
    if ops == [] then Run(State([], [], Clamp(maxFrameSize), None), [])
    else After(RunOf(maxFrameSize, ops[..|ops| - 1]), ops[|ops| - 1])
  }

  function Encode(frames: seq<Frame>): seq<byte> {
    if frames == [] then [] else frames[0].Wire() + Encode(frames[1..])
  }

  lemma {:induction false} EncodeSnoc(frames: seq<Frame>, f: Frame)
    ensures Encode(frames + [f]) == Encode(frames) + f.Wire()
  {
    hide Frame.Wire;
    if frames == [] {
      assert ([] + [f])[1..] == [];
    } else {
      EncodeSnoc(frames[1..], f);
      assert (frames + [f])[1..] == frames[1..] + [f];
      assert frames[0].Wire() + (Encode(frames[1..]) + f.Wire()) == Encode(frames) + f.Wire();
    }
  }

  /**
    What has left and what is queued are together the accepted frames; after a failure, what left is a prefix of
    them.
   */
  ghost predicate WholeFrames(run: Run) {
    var w := run.state;
    && DEFAULT_MAX_FRAME_SIZE <= w.maxFrameSize <= MAX_LENGTH
    && (w.err.None? ==> w.delivered + w.buf == Encode(run.accepted))
    && (w.err.Some? ==> w.buf == [] && w.delivered <= Encode(run.accepted))
    && forall i | 0 <= i < |run.accepted| ::
         Representable(run.accepted[i]) && run.accepted[i].PayloadLen() == |run.accepted[i].Payload()|
  }

  lemma StepKeepsWholeFrames(run: Run, op: Op)
    requires WholeFrames(run)
    ensures WholeFrames(After(run, op))
  {
    hide Frame.Wire, Frame.Payload, Frame.PayloadLen, Frame.Stream;
    var w := run.state;
    match op
    case QueueFrame(f) =>
      if Accepts(w, f) {
        DeclaredLength(f);
        EncodeSnoc(run.accepted, f);
        assert w.delivered + (w.buf + f.Wire()) == w.delivered + w.buf + f.Wire();
      }
    case FlushQueue(n, _) =>
      if w.err.None? && w.buf != [] && n <= |w.buf| {
        var all := w.delivered + w.buf;
        assert w.delivered + w.buf[..n] == all[..|w.delivered| + n];
        assert n == |w.buf| ==> all[..|w.delivered| + n] == all;
        assert w.delivered + w.buf[..n] + [] == w.delivered + w.buf[..n];
      }
    case SetMax(_) =>
  }

  lemma {:induction false} RunsWriteWholeFrames(maxFrameSize: uint32, ops: seq<Op>)
    ensures WholeFrames(RunOf(maxFrameSize, ops))
  {
    if ops != [] {
      RunsWriteWholeFrames(maxFrameSize, ops[..|ops| - 1]);
      StepKeepsWholeFrames(RunOf(maxFrameSize, ops[..|ops| - 1]), ops[|ops| - 1]);
    }
  }
}
