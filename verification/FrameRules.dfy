/**
  Which payloads are refused, and with what, rule by rule instead of type by type and on arbitrary octets. A payload
  that no rule refuses is accepted, so reserved bits, undefined flags and the contents of padding never count.
 */
module FrameRules {
  import opened Octets
  import opened H2
  import opened Frames
  import opened FrameRoundTrip

  // ---------- The rules ----------

  /** A frame of a request or a response needs a stream, a frame about the connection must not have one. */
  ghost predicate WrongStream(h: Header) {
    || (h.streamId == 0
        && h.kind in {TYPE_DATA, TYPE_HEADERS, TYPE_PRIORITY, TYPE_RST_STREAM, TYPE_PUSH_PROMISE, TYPE_CONTINUATION})
    || (h.streamId != 0 && h.kind in {TYPE_SETTINGS, TYPE_PING, TYPE_GOAWAY, TYPE_PRIORITY_UPDATE})
  }

  ghost predicate Enveloped(h: Header) {
    Paddable(h.kind) && Has(h.flags, Padded)
  }

  /** There is no room for the pad length, or none for the padding it announces. */
  ghost predicate NoPadLength(h: Header) {
    Enveloped(h) && h.length == 0
  }

  ghost predicate PaddingTooLong(h: Header, payload: seq<byte>)
    requires h.length <= |payload|
  {
    Enveloped(h) && h.length > 0 && payload[0] > h.length - 1
  }

  /** The octets inside the envelope, and how many of them the type cannot do without. */
  ghost function Room(h: Header, payload: seq<byte>): int
    requires h.length <= |payload|
  {
    if Enveloped(h) && h.length > 0 then h.length - 1 - payload[0] else h.length
  }

  ghost function Needed(h: Header): nat {
    if h.kind == TYPE_HEADERS && Has(h.flags, HasPriority) then 5
    else if h.kind == TYPE_PUSH_PROMISE || h.kind == TYPE_PRIORITY_UPDATE then 4
    else if h.kind == TYPE_GOAWAY then 8
    else 0
  }

  ghost predicate WrongSize(h: Header, payload: seq<byte>)
    requires h.length <= |payload|
  {
    || (h.kind == TYPE_PRIORITY && h.length != 5)
    || (h.kind in {TYPE_RST_STREAM, TYPE_WINDOW_UPDATE} && h.length != 4)
    || (h.kind == TYPE_PING && h.length != 8)
    || (h.kind == TYPE_SETTINGS && (h.length % 6 != 0 || (Has(h.flags, Ack) && h.length > 0)))
    || Room(h, payload) < Needed(h)
  }

  /** The 31 low bits of the four octets at a position. */
  ghost function Number31(b: seq<byte>, at: nat): nat
    requires at + 4 <= |b|
  {
    var first: int, second: int, third: int := b[at], b[at + 1], b[at + 2];
    first % 128 * 16777216 + second * 65536 + third * 256 + b[at + 3]
  }

  /** A stream that depends on itself, a promise of no stream, a priority for none, or credit of nothing. */
  ghost predicate NamesNothing(h: Header, payload: seq<byte>)
    requires h.length <= |payload| && !NoPadLength(h) && !PaddingTooLong(h, payload) && !WrongSize(h, payload)
  {
    match h.kind
    case 0x2 => Number31(payload, 0) == h.streamId
    case 0x5 => Number31(payload, if Enveloped(h) then 1 else 0) == 0
    case 0x8 => Number31(payload, 0) == 0
    case 0x10 => Number31(payload, 0) == 0
    case _ => false
  }

  /** The i-th pair of a SETTINGS payload. */
  ghost function Pair(b: seq<byte>, i: nat): Setting
    requires 6 * i + 6 <= |b|
  {
    var p := b[6 * i..6 * i + 6];
    var id: int, first: int, second: int, third: int := p[0], p[2], p[3], p[4];
    Setting(id * 256 + p[1], first * 16777216 + second * 65536 + third * 256 + p[5])
  }

  /** The k-th pair is the first that is out of range. */
  ghost predicate FirstBad(b: seq<byte>, k: nat) {
    6 * k + 6 <= |b| && !Permitted(Pair(b, k)) && forall i | 0 <= i < k :: Permitted(Pair(b, i))
  }

  /** The one range whose violation is not a PROTOCOL_ERROR is that of SETTINGS_INITIAL_WINDOW_SIZE. */
  ghost function RangeFault(id: uint16): Fault {
    ConnError(if id == 4 then FLOW_CONTROL_ERROR else PROTOCOL_ERROR)
  }

  /** Only two mistakes on a stream leave the connection usable: in its priority, and credit of nothing. */
  ghost function Scoped(h: Header, code: uint32): Fault {
    if h.streamId != 0 && h.kind in {TYPE_PRIORITY, TYPE_WINDOW_UPDATE} then StreamError(h.streamId, code)
    else ConnError(code)
  }

  /** The rules in the order they are applied; SETTINGS values come last. */
  ghost function Refusal(h: Header, payload: seq<byte>): Option<Fault>
    requires h.length <= |payload|
  {
    if WrongStream(h) then Some(ConnError(PROTOCOL_ERROR))
    else if NoPadLength(h) then Some(ConnError(FRAME_SIZE_ERROR))
    else if PaddingTooLong(h, payload) then Some(ConnError(PROTOCOL_ERROR))
    else if WrongSize(h, payload) then
      Some(if h.kind == TYPE_PRIORITY then Scoped(h, FRAME_SIZE_ERROR) else ConnError(FRAME_SIZE_ERROR))
    else if NamesNothing(h, payload) then Some(Scoped(h, PROTOCOL_ERROR))
    else None
  }

  // ---------- SETTINGS ----------

  lemma PairsOfRest(b: seq<byte>, i: nat)
    requires |b| >= 6 && 6 * i + 6 <= |b| - 6
    ensures Pair(b[6..], i) == Pair(b, i + 1)
  {
    assert b[6..][6 * i..6 * i + 6] == b[6 * (i + 1)..6 * (i + 1) + 6];
  }

  lemma FirstPair(b: seq<byte>)
    requires |b| >= 6
    ensures Pair(b, 0) == ReadSetting(b)
  {
    assert b[0..6][2..] == b[2..6];
  }

  lemma RangeIsChecked(s: Setting)
    ensures ValidateSetting(s) == if Permitted(s) then None else Some(RangeFault(s.id))
  {
  }

  lemma BadOfRest(b: seq<byte>, k: nat)
    requires |b| >= 6 && Permitted(Pair(b, 0)) && FirstBad(b[6..], k)
    ensures FirstBad(b, k + 1) && Pair(b, k + 1) == Pair(b[6..], k)
  {
    hide Permitted, Pair;
    forall i: nat | i <= k ensures Pair(b[6..], i) == Pair(b, i + 1) {
      PairsOfRest(b, i);
    }
    forall i | 0 <= i < k + 1 ensures Permitted(Pair(b, i)) {
      assert i > 0 ==> Permitted(Pair(b[6..], i - 1));
    }
  }

  /** The pairs are those of the payload, and each is permitted. */
  ghost predicate ArePairs(b: seq<byte>, settings: seq<Setting>) {
    && |b| == 6 * |settings|
    && forall i | 0 <= i < |settings| :: settings[i] == Pair(b, i) && Permitted(settings[i])
  }

  lemma PairsThenRest(b: seq<byte>, rest: seq<Setting>)
    requires |b| >= 6 && Permitted(Pair(b, 0)) && ArePairs(b[6..], rest)
    ensures ArePairs(b, [Pair(b, 0)] + rest)
  {
    hide Permitted, Pair;
    var all := [Pair(b, 0)] + rest;
    forall i | 0 <= i < |all| ensures all[i] == Pair(b, i) && Permitted(all[i]) {
      if i > 0 {
        PairsOfRest(b, i - 1);
      }
    }
  }

  /**
    A SETTINGS payload is read as its pairs in order if each is permitted, and otherwise refused for the first that is
    not, with FLOW_CONTROL_ERROR for an initial window size and PROTOCOL_ERROR for the others. A setting nobody knows is
    permitted whatever its value.
   */
  lemma {:induction false} SettingsExactly(b: seq<byte>)
    requires |b| % 6 == 0
    ensures match ReadSettings(b)
            case Ok(settings) => ArePairs(b, settings)
            case Err(fault) => exists k :: FirstBad(b, k) && fault == RangeFault(Pair(b, k).id)
  {
    if b != [] {
      var rest := b[6..];
      FirstPair(b);
      RangeIsChecked(ReadSetting(b));
      SettingsExactly(rest);
      if !Permitted(Pair(b, 0)) {
        assert FirstBad(b, 0);
      } else if ReadSettings(rest).Err? {
        hide ReadSetting, ValidateSetting, Permitted, Pair, FirstBad, ArePairs;
        var k: nat :| FirstBad(rest, k) && ReadSettings(rest).fault == RangeFault(Pair(rest, k).id);
        BadOfRest(b, k);
      } else {
        hide ReadSetting, ValidateSetting, Permitted, Pair, FirstBad, ArePairs;
        PairsThenRest(b, ReadSettings(rest).value);
      }
    }
  }

  /** So every initial window size that comes out of an accepted frame is one a window can have. */
  lemma AcceptedSizesFit(b: seq<byte>, size: uint32)
    requires |b| % 6 == 0 && ReadSettings(b).Ok? && Setting(4, size) in ReadSettings(b).value
    ensures size <= MAX_WINDOW_SIZE
  {
    SettingsExactly(b);
  }

  // ---------- The octets of a frame ----------

  ghost function Number(b: seq<byte>): nat {
    if b == [] then 0 else Number(b[..|b| - 1]) * 256 + b[|b| - 1]
  }

  lemma NumberSnoc(b: seq<byte>, last: byte)
    ensures Number(b + [last]) == Number(b) * 256 + last
  {
    assert (b + [last])[..|b|] == b;
  }

  lemma NumberOfThree(x: byte, y: byte, z: byte)
    ensures var p: int, q: int := x, y; Number([x, y, z]) == p * 65536 + q * 256 + z
  {
    NumberSnoc([], x);
    NumberSnoc([x], y);
    NumberSnoc([x, y], z);
    hide Number;
    assert Number([]) == 0 by { NothingIsZero(); }
    assert [] + [x] == [x] && [x] + [y] == [x, y] && [x, y] + [z] == [x, y, z];
  }

  lemma NothingIsZero()
    ensures Number([]) == 0
  {
  }

  lemma NumberOfBe32(v: uint32)
    ensures Number(Be32(v)) == v
    ensures Number(Be32(v)[1..]) == v % 16777216
  {
    var b := Be32(v);
    NumberOfThree(b[0], b[1], b[2]);
    NumberOfThree(b[1], b[2], b[3]);
    NumberSnoc(b[..3], b[3]);
    hide Number;
    assert b[..3] == [b[0], b[1], b[2]] && b[..3] + [b[3]] == b && b[1..] == [b[1], b[2], b[3]];
  }

  /** A header is nine octets: a length of 24 bits, a type, flags, and a stream of 31 bits, the first octets highest. */
  lemma HeaderOctets(h: Header)
    requires h.length <= MAX_LENGTH && h.streamId <= STREAM_ID_MASK
    ensures var b := AppendHeader(h);
      |b| == 9 && Number(b[..3]) == h.length && b[3] == h.kind && b[4] == h.flags && Number(b[5..]) == h.streamId
  {
    var b := AppendHeader(h);
    NumberOfBe32(h.length);
    NumberOfBe32(h.streamId);
    assert b[..3] == Be32(h.length)[1..] && b[5..] == Be32(h.streamId);
    hide Number, Be32;
  }

  /** The type and flags octets of each frame, as sections 6.1 to 6.10 of RFC 9113 and 7.1 of RFC 9218 number them. */
  lemma TypeAndFlagOctets(f: Frame)
    ensures (f.Kind(), f.Flags()) ==
            match f
            case DataFrame(_, e, _, p, _) => (0, (if e then 1 else 0) + (if p then 8 else 0))
            case HeadersFrame(_, e, h, _, r, _, _, _, p, _) =>
              (1, (if e then 1 else 0) + (if h then 4 else 0) + (if p then 8 else 0) + if r then 32 else 0)
            case PriorityFrame(_, _, _, _) => (2, 0)
            case RstStreamFrame(_, _) => (3, 0)
            case SettingsFrame(a, _) => (4, if a then 1 else 0)
            case PushPromiseFrame(_, _, h, _, p, _) => (5, (if h then 4 else 0) + (if p then 8 else 0))
            case PingFrame(a, _) => (6, if a then 1 else 0)
            case GoAwayFrame(_, _, _) => (7, 0)
            case WindowUpdateFrame(_, _) => (8, 0)
            case ContinuationFrame(_, h, _) => (9, if h then 4 else 0)
            case PriorityUpdateFrame(_, _) => (16, 0)
  {
  }

  // ---------- All eleven types ----------

  lemma MaskedNumber(b: seq<byte>)
    requires |b| >= 4
    ensures Mask31(Read32(b)) == Number31(b, 0)
  {
    assert b[2..][0] == b[2] && b[2..][1] == b[3];
  }

  lemma EnvelopeExactly(h: Header, payload: seq<byte>)
    requires h.length <= |payload| && Paddable(h.kind)
    ensures match SplitPadding(h, payload)
            case Err(fault) =>
              if NoPadLength(h) then fault == ConnError(FRAME_SIZE_ERROR)
              else PaddingTooLong(h, payload) && fault == ConnError(PROTOCOL_ERROR)
            case Ok((content, _)) =>
              && !NoPadLength(h) && !PaddingTooLong(h, payload) && |content| == Room(h, payload)
              && var at := if Enveloped(h) then 1 else 0;
                 |content| >= 4 ==> Number31(content, 0) == Number31(payload, at)
  {
    hide Has;
  }

  lemma HeadersExactly(h: Header, payload: seq<byte>)
    requires h.kind == TYPE_HEADERS && h.length <= |payload|
    ensures match Refusal(h, payload)
            case Some(fault) => ParseHeaders(h, payload) == Err(fault)
            case None => ParseHeaders(h, payload).Ok?
  {
    EnvelopeExactly(h, payload);
    hide SplitPadding, Has, Number31;
  }

  lemma PushPromiseExactly(h: Header, payload: seq<byte>)
    requires h.kind == TYPE_PUSH_PROMISE && h.length <= |payload|
    ensures match Refusal(h, payload)
            case Some(fault) => ParsePushPromise(h, payload) == Err(fault)
            case None => ParsePushPromise(h, payload).Ok?
  {
    EnvelopeExactly(h, payload);
    if SplitPadding(h, payload).Ok? && |SplitPadding(h, payload).value.0| >= 4 {
      MaskedNumber(SplitPadding(h, payload).value.0);
    }
    hide SplitPadding, Has, Number31, Mask31, Read32;
  }

  lemma UnpaddedExactly(h: Header, payload: seq<byte>)
    requires Known(h.kind) && h.length <= |payload|
    requires h.kind != TYPE_HEADERS && h.kind != TYPE_PUSH_PROMISE && h.kind != TYPE_SETTINGS && h.kind != TYPE_DATA
    ensures match Refusal(h, payload)
            case Some(fault) => Parse(h, payload) == Err(fault)
            case None => Parse(h, payload).Ok?
  {
    if h.length >= 4 {
      MaskedNumber(payload);
    }
    hide Has, Number31, Mask31, Read32;
  }

  /**
    Any payload, of every type: refused if and only if a rule refuses it, with the fault of the first that does; and
    SETTINGS also for the first of their values that is out of range.
   */
  lemma RefusedExactly(h: Header, payload: seq<byte>)
    requires Known(h.kind) && h.length <= |payload|
    ensures match Refusal(h, payload)
            case Some(fault) => Parse(h, payload) == Err(fault)
            case None =>
              if h.kind != TYPE_SETTINGS then Parse(h, payload).Ok?
              else match Parse(h, payload)
                   case Ok(f) =>
                     f.SettingsFrame? && ArePairs(payload[..h.length], f.settings)
                   case Err(fault) =>
                     exists k :: FirstBad(payload[..h.length], k)
                                 && fault == RangeFault(Pair(payload[..h.length], k).id)
  {
    if h.kind == TYPE_HEADERS {
      HeadersExactly(h, payload);
    } else if h.kind == TYPE_PUSH_PROMISE {
      PushPromiseExactly(h, payload);
    } else if h.kind == TYPE_DATA {
      EnvelopeExactly(h, payload);
      hide SplitPadding, Has, Number31;
    } else if h.kind == TYPE_SETTINGS {
      if h.length % 6 == 0 {
        SettingsExactly(payload[..h.length]);
      }
      hide Has, ReadSettings, Pair, Permitted, FirstBad, ArePairs;
    } else {
      UnpaddedExactly(h, payload);
      hide Refusal, Parse;
    }
  }
}
