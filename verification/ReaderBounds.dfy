/**
  When the reader's two bounds on a header block end a connection, exactly, on arbitrary octets: when a whole frame
  that the protocol allows where it stands takes its block past one of them. Nothing else is refused for them.
 */
module ReaderBounds {
  import opened Octets
  import opened H2
  import opened Frames
  import opened FrameReader
  import opened ReaderGrammar
  import FrameStream

  const CALM := ConnError(ENHANCE_YOUR_CALM)

  /** The octets start with a whole frame of a known type, no longer than the reader allows, that parses to f. */
  ghost predicate StartsWith(limits: Limits, input: seq<byte>, f: Frame) {
    |input| >= HEADER_LEN
    && var h := ParseHeader(input);
       && Known(h.kind) && h.length <= limits.maxFrameSize && HEADER_LEN + h.length <= |input|
       && Parse(h, input[HEADER_LEN..HEADER_LEN + h.length]) == Ok(f)
  }

  /** After past the frame stands where the grammar allows it, and takes the block it is in past a bound. */
  ghost predicate Oversteps(limits: Limits, past: seq<Event>, f: Frame) {
    Contiguous(past + [Got(f)], |past|) && !Within(limits, past + [Got(f)], |past|)
  }

  // ---------- One frame ----------

  lemma {:induction false} SettingsAreNotBounded(b: seq<byte>)
    requires |b| % SETTING_LEN == 0
    ensures ReadSettings(b) != Err(CALM)
    decreases |b|
  {
    if b != [] {
      SettingsAreNotBounded(b[SETTING_LEN..]);
    }
  }

  /** No parser refuses a frame for the bounds. */
  lemma ParsersAreNotBounded(h: Header, payload: seq<byte>)
    requires Known(h.kind) && |payload| == h.length
    ensures Parse(h, payload) != Err(CALM)
  {
    if h.length % SETTING_LEN == 0 {
      SettingsAreNotBounded(payload[..h.length]);
    }
    hide ReadSettings, SplitPadding, Read32, Has;
  }

  /** A frame that parsed is refused for the bounds if and only if its block is past one. */
  lemma TrackedIsBounded(limits: Limits, past: seq<Event>, block: Block, f: Frame)
    requires Agrees(past, block) && Contiguous(past + [Got(f)], |past|)
    requires f.HeadersFrame? || f.PushPromiseFrame? || f.ContinuationFrame? ==> f.streamId != 0
    ensures Tracked(limits, block, f).1 == if Within(limits, past + [Got(f)], |past|) then None else Some(CALM)
  {
    BlockOfLast(past, Got(f));
  }

  lemma ContinuityIsContiguity(past: seq<Event>, block: Block, h: Header, payload: seq<byte>)
    requires Agrees(past, block) && Known(h.kind) && |payload| == h.length && Parse(h, payload).Ok?
    ensures CheckContinuity(block, h).None? <==> Contiguous(past + [Got(Parse(h, payload).value)], |past|)
  {
    BlockFramesNameAStream(h, payload);
    BlockOfLast(past, Got(Parse(h, payload).value));
    hide Parse;
  }

  lemma DeliverIsBounded(limits: Limits, past: seq<Event>, block: Block, h: Header, payload: seq<byte>)
    requires Agrees(past, block) && Known(h.kind) && |payload| == h.length && CheckContinuity(block, h).None?
    ensures Deliver(limits, block, h, payload).result == Err(CALM)
       <==> Parse(h, payload).Ok? && Oversteps(limits, past, Parse(h, payload).value)
  {
    ParsersAreNotBounded(h, payload);
    if Parse(h, payload).Ok? {
      BlockFramesNameAStream(h, payload);
      ContinuityIsContiguity(past, block, h, payload);
      hide Parse, Contiguous, Within, Agrees, CheckContinuity, Tracked;
      TrackedIsBounded(limits, past, block, Parse(h, payload).value);
    }
  }

  // ---------- Octets after the frame do not matter ----------

  lemma HeaderOfFront(input: seq<byte>, n: nat)
    requires HEADER_LEN <= n <= |input|
    ensures ParseHeader(input[..n]) == ParseHeader(input)
  {
    HeaderIsNineOctets(input);
    HeaderIsNineOctets(input[..n]);
    assert input[..n][..HEADER_LEN] == input[..HEADER_LEN];
  }

  lemma OneOfFront(limits: Limits, block: Block, input: seq<byte>, ending: Ending, n: nat)
    requires n <= |input|
    ensures var one := ReadOne(limits, block, input, ending);
      && (one.Discarded? && one.consumed <= n ==> ReadOne(limits, block, input[..n], PeerClosed) == one)
      && (one.Reported? && !Fatal(one.step.result) && one.step.consumed <= n ==>
            ReadOne(limits, block, input[..n], PeerClosed) == one)
  {
    if n >= HEADER_LEN {
      HeaderOfFront(input, n);
      hide ParseHeader, Deliver, CheckContinuity;
      var end := HEADER_LEN + ParseHeader(input).length;
      if end <= n {
        assert input[..n][HEADER_LEN..end] == input[HEADER_LEN..end];
      }
    }
  }

  lemma {:induction false} StepOfFront(limits: Limits, block: Block, input: seq<byte>, ending: Ending, n: nat)
    requires n <= |input|
    requires var s := ReadStep(limits, block, input, ending); !Fatal(s.result) && s.consumed <= n
    ensures ReadStep(limits, block, input[..n], PeerClosed) == ReadStep(limits, block, input, ending)
    decreases |input|
  {
    hide ReadOne;
    OneOfFront(limits, block, input, ending, n);
    match ReadOne(limits, block, input, ending)
    case Reported(_) =>
    case Discarded(k) =>
      StepOfFront(limits, block, input[k..], ending, n - k);
      assert input[..n][k..] == input[k..][..n - k];
  }

  // ---------- A refusal has its frame ----------

  lemma FirstIsRefused(limits: Limits, past: seq<Event>, block: Block, input: seq<byte>, ending: Ending)
    returns (f: Frame)
    requires Agrees(past, block)
    requires var one := ReadOne(limits, block, input, ending); one.Reported? && one.step.result == Err(CALM)
    ensures StartsWith(limits, input, f) && Oversteps(limits, past, f)
  {
    hide ParseHeader, Parse, Deliver, Oversteps, Agrees;
    var h := ParseHeader(input);
    var payload := input[HEADER_LEN..HEADER_LEN + h.length];
    DeliverIsBounded(limits, past, block, h, payload);
    f := Parse(h, payload).value;
  }

  lemma {:induction false} StepIsRefused(limits: Limits, past: seq<Event>, block: Block, input: seq<byte>,
                                         ending: Ending)
    returns (n: nat, f: Frame)
    requires Agrees(past, block) && ReadStep(limits, block, input, ending).result == Err(CALM)
    ensures n <= |input| && StartsWith(limits, input[n..], f) && Oversteps(limits, past, f)
    ensures ReadStep(limits, block, input[..n], PeerClosed) == Step(Err(Eof), n, block)
    decreases |input|
  {
    hide Agrees, Oversteps, StartsWith;
    match ReadOne(limits, block, input, ending)
    case Reported(_) =>
      f := FirstIsRefused(limits, past, block, input, ending);
      n := 0;
      assert input[0..] == input && input[..0] == [];
    case Discarded(k) =>
      var m;
      m, f := StepIsRefused(limits, past, block, input[k..], ending);
      n := k + m;
      OneOfFront(limits, block, input, ending, n);
      hide ReadOne;
      assert input[..n][k..] == input[k..][..m] && input[n..] == input[k..][m..];
  }

  lemma {:induction false} ReadingIsRefused(limits: Limits, past: seq<Event>, block: Block, input: seq<byte>,
                                            ending: Ending)
    returns (n: nat, f: Frame)
    requires Grammatical(limits, past) && Agrees(past, block) && ReadAll(limits, block, input, ending).fault == CALM
    ensures n <= |input| && StartsWith(limits, input[n..], f)
    ensures var r := ReadAll(limits, block, input[..n], PeerClosed);
      r.fault == Eof && r.events == ReadAll(limits, block, input, ending).events
          && Oversteps(limits, past + r.events, f)
    decreases |input|
  {
    hide Grammatical, Agrees, ReadStep, Oversteps, StartsWith;
    var s := ReadStep(limits, block, input, ending);
    if Fatal(s.result) {
      n, f := StepIsRefused(limits, past, block, input, ending);
      assert past + [] == past;
    } else {
      var e, rest := EventOf(s.result), input[s.consumed..];
      StepExtends(limits, past, block, input, ending);
      var m;
      m, f := ReadingIsRefused(limits, past + [e], s.block, rest, ending);
      n := s.consumed + m;
      StepOfFront(limits, block, input, ending, n);
      assert input[..n][s.consumed..] == rest[..m] && input[n..] == rest[m..];
      var tail := ReadAll(limits, s.block, rest[..m], PeerClosed);
      assert past + ([e] + tail.events) == past + [e] + tail.events;
    }
  }

  // ---------- And such a frame is refused ----------

  lemma {:induction false} StepEndsInAgreement(limits: Limits, block: Block, input: seq<byte>, ending: Ending)
    ensures ReadStep(limits, block, input, ending).result == Err(Eof) ==>
              ReadStep(limits, block, input, ending).block == block
    decreases |input|
  {
    hide Deliver;
    match ReadOne(limits, block, input, ending)
    case Reported(_) =>
      FrameStream.OneThenMore(limits, block, input, [], ending);
      if |input| >= HEADER_LEN && HEADER_LEN + ParseHeader(input).length <= |input| {
        FrameStream.NeverEof(limits, block, ParseHeader(input),
            input[HEADER_LEN..HEADER_LEN + ParseHeader(input).length]);
      }
    case Discarded(k) => StepEndsInAgreement(limits, block, input[k..], ending);
  }

  lemma {:induction false} ReadingEndsInAgreement(limits: Limits, past: seq<Event>, block: Block, input: seq<byte>,
                                                  ending: Ending)
    requires Grammatical(limits, past) && Agrees(past, block) && ReadAll(limits, block, input, ending).fault == Eof
    ensures var r := ReadAll(limits, block, input, ending); Agrees(past + r.events, r.block)
    decreases |input|
  {
    hide Grammatical, Agrees, ReadStep;
    var s := ReadStep(limits, block, input, ending);
    if Fatal(s.result) {
      StepEndsInAgreement(limits, block, input, ending);
      assert past + [] == past;
    } else {
      var e, rest := EventOf(s.result), input[s.consumed..];
      StepExtends(limits, past, block, input, ending);
      ReadingEndsInAgreement(limits, past + [e], s.block, rest, ending);
      var tail := ReadAll(limits, s.block, rest, ending);
      assert past + ([e] + tail.events) == past + [e] + tail.events;
    }
  }

  lemma OversteppingIsRefused(limits: Limits, past: seq<Event>, block: Block, input: seq<byte>, ending: Ending,
                              f: Frame)
    requires Agrees(past, block) && StartsWith(limits, input, f) && Oversteps(limits, past, f)
    ensures ReadAll(limits, block, input, ending).fault == CALM
  {
    var h := ParseHeader(input);
    var payload := input[HEADER_LEN..HEADER_LEN + h.length];
    assert Contiguous(past + [Got(f)], |past|);
    hide ParseHeader, Parse, Deliver, Contiguous, Within, Agrees, CheckContinuity, Oversteps;
    ContinuityIsContiguity(past, block, h, payload);
    DeliverIsBounded(limits, past, block, h, payload);
    assert ReadOne(limits, block, input, ending) == Reported(Deliver(limits, block, h, payload));
  }

  /** The octets before position n read to a clean end, and at n stands a frame that oversteps a bound. */
  ghost predicate OverstepsAt(limits: Limits, input: seq<byte>, n: nat, f: Frame) {
    n <= |input| && StartsWith(limits, input[n..], f)
    && var before := ReadAll(limits, CLOSED, input[..n], PeerClosed);
       before.fault == Eof && Oversteps(limits, before.events, f)
  }

  lemma RefusedForExcess(limits: Limits, input: seq<byte>, ending: Ending) returns (n: nat, f: Frame)
    requires ReadAll(limits, CLOSED, input, ending).fault == CALM
    ensures OverstepsAt(limits, input, n, f)
    ensures ReadAll(limits, CLOSED, input[..n], PeerClosed).events == ReadAll(limits, CLOSED, input, ending).events
  {
    NothingIsGrammatical(limits);
    hide ReadAll, Agrees, Grammatical, StartsWith, Oversteps;
    n, f := ReadingIsRefused(limits, [], CLOSED, input, ending);
    EmptyPrefix(ReadAll(limits, CLOSED, input[..n], PeerClosed).events);
  }

  lemma ExcessIsRefused(limits: Limits, input: seq<byte>, ending: Ending, n: nat, f: Frame)
    requires OverstepsAt(limits, input, n, f)
    ensures ReadAll(limits, CLOSED, input, ending).fault == CALM
  {
    NothingIsGrammatical(limits);
    hide ReadAll, Agrees, Grammatical, StartsWith, Oversteps;
    var before := ReadAll(limits, CLOSED, input[..n], PeerClosed);
    EmptyPrefix(before.events);
    ReadingEndsInAgreement(limits, [], CLOSED, input[..n], PeerClosed);
    OversteppingIsRefused(limits, before.events, before.block, input[n..], ending, f);
    FrameStream.ReadingThenMore(limits, CLOSED, input[..n], input[n..], ending);
    assert input == input[..n] + input[n..];
  }

  /**
    For any octets at all, the reader ends the connection with ENHANCE_YOUR_CALM if and only if, somewhere, what comes
    before reads to a clean end and what comes next is a whole frame, allowed where it stands, that takes its header
    block past a bound. So a block within both bounds is never refused for them, and one past either always is.
   */
  lemma RefusedExactlyForExcess(limits: Limits, input: seq<byte>, ending: Ending)
    ensures ReadAll(limits, CLOSED, input, ending).fault == CALM <==> exists n, f :: OverstepsAt(limits, input, n, f)
  {
    hide *;
    if ReadAll(limits, CLOSED, input, ending).fault == CALM {
      var n, f := RefusedForExcess(limits, input, ending);
    }
    if n, f :| OverstepsAt(limits, input, n, f) {
      ExcessIsRefused(limits, input, ending, n, f);
    }
  }
}
