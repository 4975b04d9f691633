/**
  The reader never loses its place. Frame boundaries are a property of the input alone: each header says
  where the next one starts. After every call that leaves the connection usable the reader stands on one,
  io.EOF is reported on one, and a truncation is reported only where there is none.
 */
module ReaderSync {
  import opened Octets
  import opened H2
  import opened Frames
  import opened FrameReader

  /** Position p of the input is where a frame header starts, or where the last frame ends. */
  ghost predicate IsBoundary(input: seq<byte>, p: nat)
    decreases |input|
  {
    p == 0 ||
    (|input| >= HEADER_LEN
     && var n := HEADER_LEN + ParseHeader(input).length; n <= p && n <= |input| && IsBoundary(input[n..], p - n))
  }

  lemma {:induction false} BoundaryAfterBoundary(input: seq<byte>, p: nat, q: nat)
    requires p <= |input| && IsBoundary(input, p)
    ensures IsBoundary(input[p..], q) <==> IsBoundary(input, p + q)
    decreases |input|
  {
    hide ParseHeader;
    if p == 0 {
      assert input[0..] == input;
    } else {
      var n := HEADER_LEN + ParseHeader(input).length;
      BoundaryAfterBoundary(input[n..], p - n, q);
      assert input[n..][p - n..] == input[p..];
    }
  }

  /** Where reading one frame leaves the reader, and what its faults say about the input. */
  ghost predicate StepInSync(input: seq<byte>, ending: Ending, s: Step) {
    && (!Fatal(s.result) ==> IsBoundary(input, s.consumed))
    && (s.result == Err(Eof) ==> ending == PeerClosed && s.consumed == |input| && IsBoundary(input, |input|))
    && (s.result == Err(UnexpectedEof) ==> ending == PeerClosed && !IsBoundary(input, |input|))
    && (s.result == Err(IoFailure) ==> ending == Broken)
  }

  lemma OneSynchronised(limits: Limits, block: Block, input: seq<byte>, ending: Ending)
    ensures var one := ReadOne(limits, block, input, ending);
      if one.Reported? then StepInSync(input, ending, one.step) else IsBoundary(input, one.consumed)
  {
    hide ParseHeader, Parse;
    if |input| >= HEADER_LEN {
      var h := ParseHeader(input);
      var n := HEADER_LEN + h.length;
      if n <= |input| {
        ParseFaults(h, input[HEADER_LEN..n]);
        assert IsBoundary(input[n..], n - n);
      }
    }
  }

  lemma {:induction false} StepSynchronised(limits: Limits, block: Block, input: seq<byte>, ending: Ending)
    ensures StepInSync(input, ending, ReadStep(limits, block, input, ending))
    decreases |input|
  {
    hide IsBoundary, ReadOne;
    OneSynchronised(limits, block, input, ending);
    match ReadOne(limits, block, input, ending)
    case Reported(_) =>
    case Discarded(n) =>
      var s := ReadStep(limits, block, input[n..], ending);
      StepSynchronised(limits, block, input[n..], ending);
      BoundaryAfterBoundary(input, n, s.consumed);
      BoundaryAfterBoundary(input, n, |input| - n);
  }

  /** A parser reports protocol faults and never an end of input. */
  lemma ParseFaults(h: Header, payload: seq<byte>)
    requires h.length <= |payload|
    ensures Known(h.kind) && Parse(h, payload).Err? ==>
              Parse(h, payload).fault.ConnError? || Parse(h, payload).fault.StreamError?
  {
    if h.length % SETTING_LEN == 0 {
      SettingsFaults(payload[..h.length]);
    }
  }

  lemma {:induction false} SettingsFaults(b: seq<byte>)
    requires |b| % SETTING_LEN == 0
    ensures ReadSettings(b).Err? ==> ReadSettings(b).fault.ConnError?
  {
    if b != [] {
      SettingsFaults(b[SETTING_LEN..]);
    }
  }

  /** The positions at which the successive calls of a reading returned. */
  ghost function Stops(limits: Limits, block: Block, input: seq<byte>, ending: Ending): seq<nat>
    decreases |input|
  {
    var s := ReadStep(limits, block, input, ending);
    if Fatal(s.result) then []
    else
      var rest := Stops(limits, s.block, input[s.consumed..], ending);
      [s.consumed] + seq(|rest|, i requires 0 <= i < |rest| => s.consumed + rest[i])
  }

  /**
    Over a whole reading: one stop for each event, every stop a frame boundary; a clean end only where the
    input ends on a boundary, and a truncation only where it does not.
   */
  lemma {:induction false} Synchronised(limits: Limits, block: Block, input: seq<byte>, ending: Ending)
    ensures var r, stops := ReadAll(limits, block, input, ending), Stops(limits, block, input, ending);
      && |stops| == |r.events|
      && (forall i | 0 <= i < |stops| :: stops[i] <= |input| && IsBoundary(input, stops[i]))
      && (r.fault == Eof ==> ending == PeerClosed && IsBoundary(input, |input|))
      && (r.fault == UnexpectedEof ==> ending == PeerClosed && !IsBoundary(input, |input|))
      && (r.fault == IoFailure ==> ending == Broken)
    decreases |input|
  {
    hide ReadStep, IsBoundary, ParseHeader;
    var s := ReadStep(limits, block, input, ending);
    StepSynchronised(limits, block, input, ending);
    if !Fatal(s.result) {
      var c, tail := s.consumed, input[s.consumed..];
      Synchronised(limits, s.block, tail, ending);
      var rest := Stops(limits, s.block, tail, ending);
      var stops := Stops(limits, block, input, ending);
      BoundaryAfterBoundary(input, c, |input| - c);
      forall i | 0 <= i < |stops| ensures stops[i] <= |input| && IsBoundary(input, stops[i]) {
        if i > 0 {
          assert stops[i] == c + rest[i - 1];
          BoundaryAfterBoundary(input, c, rest[i - 1]);
        }
      }
    }
  }
}
