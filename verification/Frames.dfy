/**
  The frame layer's data: the nine-octet header, the eleven frame types, and for each of them the
  payload printer and parser. Everything here is decided by one frame alone; the rules that span
  frames are in FrameReader.
 */
module Frames {
  import opened Octets
  import opened H2

  const HEADER_LEN := 9
  const MAX_LENGTH := 0xFF_FFFF
  const DEFAULT_MAX_FRAME_SIZE := 0x4000
  const STREAM_ID_MASK := 0x7FFF_FFFF

  const PRIORITY_LEN := 5
  const RST_STREAM_LEN := 4
  const SETTING_LEN := 6
  const PROMISED_ID_LEN := 4
  const PING_LEN := 8
  const GOAWAY_MIN_LEN := 8
  const WINDOW_UPDATE_LEN := 4
  const PRIORITY_UPDATE_FIXED_LEN := 4

  const TYPE_DATA: byte := 0x0
  const TYPE_HEADERS: byte := 0x1
  const TYPE_PRIORITY: byte := 0x2
  const TYPE_RST_STREAM: byte := 0x3
  const TYPE_SETTINGS: byte := 0x4
  const TYPE_PUSH_PROMISE: byte := 0x5
  const TYPE_PING: byte := 0x6
  const TYPE_GOAWAY: byte := 0x7
  const TYPE_WINDOW_UPDATE: byte := 0x8
  const TYPE_CONTINUATION: byte := 0x9
  const TYPE_PRIORITY_UPDATE: byte := 0x10

  /** A type has a parser, or is discarded. The assigned range has a hole from 0xa to 0xf. */
  predicate Known(t: byte) {
    t <= TYPE_CONTINUATION || t == TYPE_PRIORITY_UPDATE
  }

  // ---------- Flags ----------

  datatype Flag = EndStream | Ack | EndHeaders | Padded | HasPriority

  function Bit(f: Flag): byte {
    match f
    case EndStream => 0x1
    case Ack => 0x1
    case EndHeaders => 0x4
    case Padded => 0x8
    case HasPriority => 0x20
  }

  /** The octet fl has f's bit set. */
  predicate Has(fl: byte, f: Flag) {
    match f
    case EndStream => fl % 2 == 1
    case Ack => fl % 2 == 1
    case EndHeaders => fl / 0x4 % 2 == 1
    case Padded => fl / 0x8 % 2 == 1
    case HasPriority => fl / 0x20 % 2 == 1
  }

  /** Bitwise or with one flag: adding the bit, unless it is there already. */
  function SetFlag(fl: byte, f: Flag, cond: bool): byte {
    if cond && !Has(fl, f) then fl + Bit(f) else fl
  }

  // ---------- The frame header ----------

  datatype Header = Header(length: uint32, kind: byte, flags: byte, streamId: uint32)

  function ParseHeader(b: seq<byte>): Header
    requires |b| >= HEADER_LEN
  {
    Header(Read24(b), b[3], b[4], Mask31(Read32(b[5..HEADER_LEN])))
  }

  /** Length and stream identifier are truncated to 24 and 31 bits, not rejected. */
  function AppendHeader(h: Header): (s: seq<byte>)
    ensures |s| == HEADER_LEN
  {
    Be32(h.length)[1..] + [h.kind, h.flags] + Be32(Mask31(h.streamId))
  }

  // ---------- Frames ----------

  datatype Setting = Setting(id: uint16, value: uint32)

  type Octets8 = s: seq<byte> | |s| == 8 witness seq(8, _ => 0)

  datatype Frame =
    | DataFrame(streamId: uint32, endStream: bool, data: seq<byte>, padded: bool, padLen: byte)
    | HeadersFrame(streamId: uint32, endStream: bool, endHeaders: bool, fragment: seq<byte>,
                   priority: bool, exclusive: bool, dependency: uint32, weight: byte,
                   padded: bool, padLen: byte)
    | PriorityFrame(streamId: uint32, exclusive: bool, dependency: uint32, weight: byte)
    | RstStreamFrame(streamId: uint32, errCode: uint32)
    | SettingsFrame(ack: bool, settings: seq<Setting>)
    | PushPromiseFrame(streamId: uint32, promisedId: uint32, endHeaders: bool, fragment: seq<byte>,
                       padded: bool, padLen: byte)
    | PingFrame(ack: bool, opaqueData: Octets8)
    | GoAwayFrame(lastStreamId: uint32, errCode: uint32, debug: seq<byte>)
    | WindowUpdateFrame(streamId: uint32, increment: uint32)
    | ContinuationFrame(streamId: uint32, endHeaders: bool, fragment: seq<byte>)
    | PriorityUpdateFrame(prioritizedId: uint32, field: seq<byte>)
  {
    function Kind(): byte {
      match this
      case DataFrame(_, _, _, _, _) => TYPE_DATA
      case HeadersFrame(_, _, _, _, _, _, _, _, _, _) => TYPE_HEADERS
      case PriorityFrame(_, _, _, _) => TYPE_PRIORITY
      case RstStreamFrame(_, _) => TYPE_RST_STREAM
      case SettingsFrame(_, _) => TYPE_SETTINGS
      case PushPromiseFrame(_, _, _, _, _, _) => TYPE_PUSH_PROMISE
      case PingFrame(_, _) => TYPE_PING
      case GoAwayFrame(_, _, _) => TYPE_GOAWAY
      case WindowUpdateFrame(_, _) => TYPE_WINDOW_UPDATE
      case ContinuationFrame(_, _, _) => TYPE_CONTINUATION
      case PriorityUpdateFrame(_, _) => TYPE_PRIORITY_UPDATE
    }

    function Flags(): byte {
      match this
      case DataFrame(_, endStream, _, padded, _) =>
        SetFlag(SetFlag(0, EndStream, endStream), Padded, padded)
      case HeadersFrame(_, endStream, endHeaders, _, priority, _, _, _, padded, _) =>
        SetFlag(SetFlag(SetFlag(SetFlag(0, EndStream, endStream), EndHeaders, endHeaders), Padded, padded),
                HasPriority, priority)
      case SettingsFrame(ack, _) => SetFlag(0, Ack, ack)
      case PushPromiseFrame(_, _, endHeaders, _, padded, _) =>
        SetFlag(SetFlag(0, EndHeaders, endHeaders), Padded, padded)
      case PingFrame(ack, _) => SetFlag(0, Ack, ack)
      case ContinuationFrame(_, endHeaders, _) => SetFlag(0, EndHeaders, endHeaders)
      case _ => 0
    }

    /** The stream of the frame header; zero is the connection. */
    function Stream(): uint32 {
      match this
      case SettingsFrame(_, _) => 0
      case PingFrame(_, _) => 0
      case GoAwayFrame(_, _, _) => 0
      case PriorityUpdateFrame(_, _) => 0
      case _ => streamId
    }

    /** The declared wire length, computed in 32 bits as the source computes it, wrap-around included. */
    function PayloadLen(): uint32 {
      match this
      case DataFrame(_, _, data, padded, padLen) => PaddedLen(padded, padLen, |data|)
      case HeadersFrame(_, _, _, fragment, priority, _, _, _, padded, padLen) =>
        PaddedLen(padded, padLen, |fragment| + if priority then PRIORITY_LEN else 0)
      case PriorityFrame(_, _, _, _) => PRIORITY_LEN
      case RstStreamFrame(_, _) => RST_STREAM_LEN
      case SettingsFrame(ack, settings) => if ack then 0 else Wrap(Wrap(|settings|) * SETTING_LEN)
      case PushPromiseFrame(_, _, _, fragment, padded, padLen) =>
        PaddedLen(padded, padLen, PROMISED_ID_LEN + |fragment|)
      case PingFrame(_, _) => PING_LEN
      case GoAwayFrame(_, _, debug) => Wrap(GOAWAY_MIN_LEN + Wrap(|debug|))
      case WindowUpdateFrame(_, _) => WINDOW_UPDATE_LEN
      case ContinuationFrame(_, _, fragment) => Wrap(|fragment|)
      case PriorityUpdateFrame(_, field) => Wrap(PRIORITY_UPDATE_FIXED_LEN + Wrap(|field|))
    }

    /** The wire payload. */
    function Payload(): seq<byte> {
      match this
      case DataFrame(_, _, data, padded, padLen) => PaddedContent(padded, padLen, data)
      case HeadersFrame(_, _, _, fragment, priority, exclusive, dependency, weight, padded, padLen) =>
        if !priority then PaddedContent(padded, padLen, fragment)
        else PaddedContent(padded, padLen, PriorityBlock(exclusive, dependency, weight) + fragment)
      case PriorityFrame(_, exclusive, dependency, weight) => PriorityBlock(exclusive, dependency, weight)
      case RstStreamFrame(_, errCode) => Be32(errCode)
      case SettingsFrame(ack, settings) => if ack then [] else SettingsPayload(settings)
      case PushPromiseFrame(_, promisedId, _, fragment, padded, padLen) =>
        PaddedContent(padded, padLen, Be32(Mask31(promisedId)) + fragment)
      case PingFrame(_, opaqueData) => opaqueData
      case GoAwayFrame(lastStreamId, errCode, debug) => Be32(Mask31(lastStreamId)) + Be32(errCode) + debug
      case WindowUpdateFrame(_, increment) => Be32(Mask31(increment))
      case ContinuationFrame(_, _, fragment) => fragment
      case PriorityUpdateFrame(prioritizedId, field) => Be32(Mask31(prioritizedId)) + field
    }

    function HeaderOf(): Header {
      Header(PayloadLen(), Kind(), Flags(), Stream())
    }

    /** Header and payload as they go on the wire. */
    function Wire(): seq<byte> {
      AppendHeader(HeaderOf()) + Payload()
    }
  }

  // ---------- Printing ----------

  /** Conversion of a non-negative length to uint32. */
  function Wrap(n: nat): uint32 {
    n % TWO_TO_THE_32
  }

  function PaddedLen(padded: bool, padLen: byte, contentLen: nat): uint32 {
    if padded then Wrap(Wrap(contentLen) + 1 + padLen) else Wrap(contentLen)
  }

  function Zeros(n: nat): seq<byte> {
    seq(n, _ => 0)
  }

  function PaddedContent(padded: bool, padLen: byte, content: seq<byte>): seq<byte> {
    if padded then [padLen] + content + Zeros(padLen) else content
  }

  /** The exclusive bit shares an octet with the top of the dependency. */
  function PriorityBlock(exclusive: bool, dependency: uint32, weight: byte): (s: seq<byte>)
    ensures |s| == PRIORITY_LEN
  {
    MaskedOctets(dependency);
    var d := Be32(Mask31(dependency));
    [if exclusive then d[0] + 0x80 else d[0]] + d[1..] + [weight]
  }

  function SettingsPayload(settings: seq<Setting>): seq<byte> {
    if settings == [] then []
    else Be16(settings[0].id) + Be32(settings[0].value) + SettingsPayload(settings[1..])
  }

  // ---------- Parsing ----------

  /** Takes the padding envelope off a payload: the content inside it, and the pad length. */
  function SplitPadding(h: Header, payload: seq<byte>): Result<(seq<byte>, byte)>
    requires h.length <= |payload|
  {
    if !Has(h.flags, Padded) then Ok((payload[..h.length], 0))
    else if h.length < 1 then Err(ConnError(FRAME_SIZE_ERROR))
    else if payload[0] >= h.length then Err(ConnError(PROTOCOL_ERROR))
    else Ok((payload[1..h.length - payload[0]], payload[0]))
  }

  function ParsePriorityBlock(b: seq<byte>): (bool, uint32, byte)
    requires |b| >= PRIORITY_LEN
  {
    (b[0] >= 0x80, Mask31(Read32(b)), b[4])
  }

  function ParseData(h: Header, payload: seq<byte>): Result<Frame>
    requires h.length <= |payload|
  {
    if h.streamId == 0 then Err(ConnError(PROTOCOL_ERROR))
    else
      var (content, padLen) :- SplitPadding(h, payload);
      Ok(DataFrame(h.streamId, Has(h.flags, EndStream), content, Has(h.flags, Padded), padLen))
  }

  function ParseHeaders(h: Header, payload: seq<byte>): Result<Frame>
    requires h.length <= |payload|
  {
    if h.streamId == 0 then Err(ConnError(PROTOCOL_ERROR))
    else
      var (content, padLen) :- SplitPadding(h, payload);
      var endStream, endHeaders, padded := Has(h.flags, EndStream), Has(h.flags, EndHeaders), Has(h.flags, Padded);
      if !Has(h.flags, HasPriority) then
        Ok(HeadersFrame(h.streamId, endStream, endHeaders, content, false, false, 0, 0, padded, padLen))
      else if |content| < PRIORITY_LEN then Err(ConnError(FRAME_SIZE_ERROR))
      else
        var (exclusive, dependency, weight) := ParsePriorityBlock(content[..PRIORITY_LEN]);
        Ok(HeadersFrame(h.streamId, endStream, endHeaders, content[PRIORITY_LEN..], true, exclusive, dependency,
                        weight, padded, padLen))
  }

  /** The stream rule comes before the length rule: the first is fatal, the second only resets the stream. */
  function ParsePriority(h: Header, payload: seq<byte>): Result<Frame>
    requires h.length <= |payload|
  {
    if h.streamId == 0 then Err(ConnError(PROTOCOL_ERROR))
    else if h.length != PRIORITY_LEN then Err(StreamError(h.streamId, FRAME_SIZE_ERROR))
    else
      var (exclusive, dependency, weight) := ParsePriorityBlock(payload);
      if dependency == h.streamId then Err(StreamError(h.streamId, PROTOCOL_ERROR))
      else Ok(PriorityFrame(h.streamId, exclusive, dependency, weight))
  }

  function ParseRstStream(h: Header, payload: seq<byte>): Result<Frame>
    requires h.length <= |payload|
  {
    if h.streamId == 0 then Err(ConnError(PROTOCOL_ERROR))
    else if h.length != RST_STREAM_LEN then Err(ConnError(FRAME_SIZE_ERROR))
    else Ok(RstStreamFrame(h.streamId, Read32(payload)))
  }

  /** The range rules for the four identifiers that have one; any other identifier passes. */
  function ValidateSetting(s: Setting): Option<Fault> {
    if s.id == 0x2 && s.value > 1 then Some(ConnError(PROTOCOL_ERROR))
    else if s.id == 0x4 && s.value > MAX_WINDOW_SIZE then Some(ConnError(FLOW_CONTROL_ERROR))
    else if s.id == 0x5 && (s.value < DEFAULT_MAX_FRAME_SIZE || s.value > MAX_LENGTH) then
      Some(ConnError(PROTOCOL_ERROR))
    else if s.id == 0x9 && s.value > 1 then Some(ConnError(PROTOCOL_ERROR))
    else None
  }

  function ReadSetting(b: seq<byte>): Setting
    requires |b| >= SETTING_LEN
  {
    Setting(Read16(b), Read32(b[2..]))
  }

  /** The pairs of a payload in order, or the fault of the first pair out of range. */
  function ReadSettings(b: seq<byte>): Result<seq<Setting>>
    requires |b| % SETTING_LEN == 0
  {
    if b == [] then Ok([])
    else
      var s := ReadSetting(b);
      match ValidateSetting(s)
      case Some(fault) => Err(fault)
      case None =>
        var rest :- ReadSettings(b[SETTING_LEN..]);
        Ok([s] + rest)
  }

  function ParseSettings(h: Header, payload: seq<byte>): Result<Frame>
    requires h.length <= |payload|
  {
    if h.streamId != 0 then Err(ConnError(PROTOCOL_ERROR))
    else if Has(h.flags, Ack) && h.length != 0 then Err(ConnError(FRAME_SIZE_ERROR))
    else if h.length % SETTING_LEN != 0 then Err(ConnError(FRAME_SIZE_ERROR))
    else
      var settings :- ReadSettings(payload[..h.length]);
      Ok(SettingsFrame(Has(h.flags, Ack), settings))
  }

  function ParsePushPromise(h: Header, payload: seq<byte>): Result<Frame>
    requires h.length <= |payload|
  {
    if h.streamId == 0 then Err(ConnError(PROTOCOL_ERROR))
    else
      var (content, padLen) :- SplitPadding(h, payload);
      if |content| < PROMISED_ID_LEN then Err(ConnError(FRAME_SIZE_ERROR))
      else
        var promisedId := Mask31(Read32(content));
        if promisedId == 0 then Err(ConnError(PROTOCOL_ERROR))
        else Ok(PushPromiseFrame(h.streamId, promisedId, Has(h.flags, EndHeaders), content[PROMISED_ID_LEN..],
                                 Has(h.flags, Padded), padLen))
  }

  function ParsePing(h: Header, payload: seq<byte>): Result<Frame>
    requires h.length <= |payload|
  {
    if h.streamId != 0 then Err(ConnError(PROTOCOL_ERROR))
    else if h.length != PING_LEN then Err(ConnError(FRAME_SIZE_ERROR))
    else Ok(PingFrame(Has(h.flags, Ack), payload[..PING_LEN]))
  }

  function ParseGoAway(h: Header, payload: seq<byte>): Result<Frame>
    requires h.length <= |payload|
  {
    if h.streamId != 0 then Err(ConnError(PROTOCOL_ERROR))
    else if h.length < GOAWAY_MIN_LEN then Err(ConnError(FRAME_SIZE_ERROR))
    else Ok(GoAwayFrame(Mask31(Read32(payload)), Read32(payload[4..]), payload[GOAWAY_MIN_LEN..h.length]))
  }

  /** A zero increment is fatal on the connection and resets the stream on a stream. */
  function ParseWindowUpdate(h: Header, payload: seq<byte>): Result<Frame>
    requires h.length <= |payload|
  {
    if h.length != WINDOW_UPDATE_LEN then Err(ConnError(FRAME_SIZE_ERROR))
    else
      var increment := Mask31(Read32(payload));
      if increment == 0 then
        Err(if h.streamId == 0 then ConnError(PROTOCOL_ERROR) else StreamError(h.streamId, PROTOCOL_ERROR))
      else Ok(WindowUpdateFrame(h.streamId, increment))
  }

  function ParseContinuation(h: Header, payload: seq<byte>): Result<Frame>
    requires h.length <= |payload|
  {
    if h.streamId == 0 then Err(ConnError(PROTOCOL_ERROR))
    else Ok(ContinuationFrame(h.streamId, Has(h.flags, EndHeaders), payload[..h.length]))
  }

  function ParsePriorityUpdate(h: Header, payload: seq<byte>): Result<Frame>
    requires h.length <= |payload|
  {
    if h.streamId != 0 then Err(ConnError(PROTOCOL_ERROR))
    else if h.length < PRIORITY_UPDATE_FIXED_LEN then Err(ConnError(FRAME_SIZE_ERROR))
    else
      var id := Mask31(Read32(payload));
      if id == 0 then Err(ConnError(PROTOCOL_ERROR))
      else Ok(PriorityUpdateFrame(id, payload[PRIORITY_UPDATE_FIXED_LEN..h.length]))
  }

  /** The parser table. The payload may be longer than the frame: the reader's buffer is reused. */
  function Parse(h: Header, payload: seq<byte>): Result<Frame>
    requires Known(h.kind)
    requires h.length <= |payload|
  {
    if h.kind == TYPE_DATA then ParseData(h, payload)
    else if h.kind == TYPE_HEADERS then ParseHeaders(h, payload)
    else if h.kind == TYPE_PRIORITY then ParsePriority(h, payload)
    else if h.kind == TYPE_RST_STREAM then ParseRstStream(h, payload)
    else if h.kind == TYPE_SETTINGS then ParseSettings(h, payload)
    else if h.kind == TYPE_PUSH_PROMISE then ParsePushPromise(h, payload)
    else if h.kind == TYPE_PING then ParsePing(h, payload)
    else if h.kind == TYPE_GOAWAY then ParseGoAway(h, payload)
    else if h.kind == TYPE_WINDOW_UPDATE then ParseWindowUpdate(h, payload)
    else if h.kind == TYPE_CONTINUATION then ParseContinuation(h, payload)
    else ParsePriorityUpdate(h, payload)
  }
}
