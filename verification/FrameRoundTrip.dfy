/**
  Printing and parsing are inverse. A printed frame parses back to its normal form exactly when the
  frame is one the parser accepts, and a parsed frame prints back to the octets it came from, up to
  reserved bits, undefined flags and padding contents.
 */
module FrameRoundTrip {
  import opened Octets
  import opened H2
  import opened Frames

  /** The values section 6.5.2 of RFC 9113 and section 2.1 of RFC 9218 allow a setting; an unknown one may have any. */
  ghost predicate Permitted(s: Setting) {
    && (s.id == 2 ==> s.value == 0 || s.value == 1)
    && (s.id == 4 ==> s.value <= 2147483647)
    && (s.id == 5 ==> 16384 <= s.value <= 16777215)
    && (s.id == 9 ==> s.value == 0 || s.value == 1)
  }

  ghost predicate AllPermitted(settings: seq<Setting>) {
    forall i | 0 <= i < |settings| :: Permitted(settings[i])
  }

  /** What a sender has to put in a frame for the receiver's parser to accept it. */
  ghost predicate Acceptable(f: Frame) {
    match f
    case PriorityFrame(streamId, _, dependency, _) => streamId != 0 && Mask31(dependency) != streamId
    case SettingsFrame(ack, settings) => ack || AllPermitted(settings)
    case PushPromiseFrame(streamId, promisedId, _, _, _, _) => streamId != 0 && Mask31(promisedId) != 0
    case PingFrame(_, _) => true
    case GoAwayFrame(_, _, _) => true
    case WindowUpdateFrame(_, increment) => Mask31(increment) != 0
    case PriorityUpdateFrame(prioritizedId, _) => Mask31(prioritizedId) != 0
    case _ => f.streamId != 0
  }

  /** The frame with every field its flags say is absent cleared, and every 31-bit field masked. */
  ghost function Normal(f: Frame): Frame {
    match f
    case DataFrame(streamId, endStream, data, padded, padLen) =>
      DataFrame(streamId, endStream, data, padded, if padded then padLen else 0)
    case HeadersFrame(streamId, endStream, endHeaders, fragment, priority, exclusive, dependency, weight, padded,
        padLen) =>
      HeadersFrame(streamId, endStream, endHeaders, fragment, priority, priority && exclusive,
                   if priority then Mask31(dependency) else 0, if priority then weight else 0,
                   padded, if padded then padLen else 0)
    case PriorityFrame(streamId, exclusive, dependency, weight) =>
      PriorityFrame(streamId, exclusive, Mask31(dependency), weight)
    case SettingsFrame(ack, settings) => SettingsFrame(ack, if ack then [] else settings)
    case PushPromiseFrame(streamId, promisedId, endHeaders, fragment, padded, padLen) =>
      PushPromiseFrame(streamId, Mask31(promisedId), endHeaders, fragment, padded, if padded then padLen else 0)
    case GoAwayFrame(lastStreamId, errCode, debug) => GoAwayFrame(Mask31(lastStreamId), errCode, debug)
    case WindowUpdateFrame(streamId, increment) => WindowUpdateFrame(streamId, Mask31(increment))
    case PriorityUpdateFrame(prioritizedId, field) => PriorityUpdateFrame(Mask31(prioritizedId), field)
    case _ => f
  }

  /** The frame fits the 24-bit length field and the 31-bit stream field. */
  ghost predicate Representable(f: Frame) {
    |f.Payload()| <= MAX_LENGTH && f.Stream() <= STREAM_ID_MASK
  }

  // ---------- Lengths ----------

  lemma {:induction false} WrapMultiple(x: nat, k: nat)
    ensures Wrap(x + k * TWO_TO_THE_32) == Wrap(x)
  {
    if k > 0 {
      WrapMultiple(x, k - 1);
      var y := x + (k - 1) * TWO_TO_THE_32;
      assert x + k * TWO_TO_THE_32 == y + TWO_TO_THE_32;
    }
  }

  /** Narrowing to 32 bits before adding loses nothing more than narrowing the sum. */
  lemma WrapSum(a: nat, b: nat)
    ensures Wrap(Wrap(a) + b) == Wrap(a + b)
  {
    WrapMultiple(Wrap(a) + b, a / TWO_TO_THE_32);
  }

  lemma WrapSix(n: nat)
    ensures Wrap(Wrap(n) * 6) == Wrap(6 * n)
  {
    WrapMultiple(Wrap(n) * 6, 6 * (n / TWO_TO_THE_32));
  }

  lemma {:induction false} SettingsPayloadLength(settings: seq<Setting>)
    ensures |SettingsPayload(settings)| == SETTING_LEN * |settings|
  {
    if settings != [] {
      SettingsPayloadLength(settings[1..]);
    }
  }

  lemma PaddedLength(padded: bool, padLen: byte, content: seq<byte>)
    ensures PaddedLen(padded, padLen, |content|) == Wrap(|PaddedContent(padded, padLen, content)|)
  {
    WrapSum(|content|, 1 + padLen);
  }

  /** The declared length is the printed length modulo 2^32: it is right whenever it fits, and wraps otherwise. */
  lemma DeclaredLength(f: Frame)
    ensures f.PayloadLen() == Wrap(|f.Payload()|)
  {
    hide PriorityBlock, Be32, Mask31;
    match f
    case DataFrame(_, _, data, padded, padLen) => PaddedLength(padded, padLen, data);
    case HeadersFrame(_, _, _, fragment, priority, exclusive, dependency, weight, padded, padLen) =>
      var content := if priority then PriorityBlock(exclusive, dependency, weight) + fragment else fragment;
      PaddedLength(padded, padLen, content);
    case SettingsFrame(_, settings) =>
      SettingsPayloadLength(settings);
      WrapSix(|settings|);
    case PushPromiseFrame(_, promisedId, _, fragment, padded, padLen) =>
      PaddedLength(padded, padLen, Be32(Mask31(promisedId)) + fragment);
    case GoAwayFrame(_, _, debug) => WrapSum(|debug|, GOAWAY_MIN_LEN);
    case PriorityUpdateFrame(_, field) => WrapSum(|field|, PRIORITY_UPDATE_FIXED_LEN);
    case _ =>
  }

  // ---------- The header ----------

  lemma Read24Be32(v: uint32, rest: seq<byte>)
    requires v <= MAX_LENGTH
    ensures Read24(Be32(v)[1..] + rest) == v
  {
    var hi := v / 0x1_0000;
    assert hi / 0x100 == 0;
  }

  lemma HeaderRoundTrip(h: Header, rest: seq<byte>)
    requires h.length <= MAX_LENGTH && h.streamId <= STREAM_ID_MASK
    ensures ParseHeader(AppendHeader(h) + rest) == h
  {
    var b := AppendHeader(h) + rest;
    Read24Be32(h.length, [h.kind, h.flags] + Be32(h.streamId) + rest);
    assert b == Be32(h.length)[1..] + ([h.kind, h.flags] + Be32(h.streamId) + rest);
    assert b[5..HEADER_LEN] == Be32(h.streamId);
    ReadWhole(h.streamId);
  }

  /** Any nine octets are a header, and printing it again only clears the reserved bit. */
  lemma HeaderReprint(b: seq<byte>)
    requires |b| >= HEADER_LEN
    ensures ParseHeader(b).length <= MAX_LENGTH && ParseHeader(b).streamId <= STREAM_ID_MASK
    ensures AppendHeader(ParseHeader(b)) == b[..HEADER_LEN][5 := ClearTop(b[5])]
  {
    MaskedRead(b[5..HEADER_LEN]);
    Be32Read32([0] + b[..3]);
    assert Read32([0] + b[..3]) == Read24(b);
    assert Be32(Read24(b))[1..] == b[..3];
  }

  // ---------- The padding envelope ----------

  lemma SplitPadded(h: Header, padded: bool, padLen: byte, content: seq<byte>)
    requires Has(h.flags, Padded) == padded
    requires h.length == |PaddedContent(padded, padLen, content)|
    ensures SplitPadding(h, PaddedContent(padded, padLen, content)) == Ok((content, if padded then padLen else 0))
  {
    var p := PaddedContent(padded, padLen, content);
    if padded {
      assert p[1..h.length - padLen] == content;
    } else {
      assert p[..h.length] == content;
    }
  }

  lemma PriorityBlockRoundTrip(exclusive: bool, dependency: uint32, weight: byte)
    ensures ParsePriorityBlock(PriorityBlock(exclusive, dependency, weight))
         == (exclusive, Mask31(dependency), weight)
  {
    var b, m := PriorityBlock(exclusive, dependency, weight), Mask31(dependency);
    MaskedOctets(dependency);
    ReadWhole(m);
    Be32Read32(b);
    ReadTop(Be32(m), b);
  }

  /** Setting the top bit of the first octet adds 2^31. */
  lemma ReadTop(s: seq<byte>, t: seq<byte>)
    requires |s| >= 4 && |t| >= 4 && s[0] < 0x80 && s[1..4] == t[1..4] && (t[0] == s[0] || t[0] == s[0] + 0x80)
    ensures Read32(t) == Read32(s) + if t[0] == s[0] then 0 else 0x8000_0000
  {
    assert t[1] == t[1..4][0] && t[2] == t[1..4][1] && t[3] == t[1..4][2];
  }

  // ---------- SETTINGS ----------

  lemma AllPermittedFirst(settings: seq<Setting>)
    requires settings != []
    ensures AllPermitted(settings) <==> Permitted(settings[0]) && AllPermitted(settings[1..])
  {
    if Permitted(settings[0]) && AllPermitted(settings[1..]) {
      forall i | 0 <= i < |settings| ensures Permitted(settings[i]) {
        assert i == 0 || settings[i] == settings[1..][i - 1];
      }
    }
  }

  lemma {:induction false} SettingsRoundTrip(settings: seq<Setting>)
    ensures |SettingsPayload(settings)| % SETTING_LEN == 0
    ensures var r := ReadSettings(SettingsPayload(settings));
      if AllPermitted(settings) then r == Ok(settings) else r.Err?
  {
    SettingsPayloadLength(settings);
    if settings != [] {
      var s, b := settings[0], SettingsPayload(settings);
      assert b == Be16(s.id) + (Be32(s.value) + SettingsPayload(settings[1..]));
      Read16Be16(s.id, Be32(s.value) + SettingsPayload(settings[1..]));
      assert b[2..] == Be32(s.value) + SettingsPayload(settings[1..]);
      Read32Be32(s.value, SettingsPayload(settings[1..]));
      assert b[SETTING_LEN..] == SettingsPayload(settings[1..]);
      SettingsRoundTrip(settings[1..]);
      assert [s] + settings[1..] == settings;
      AllPermittedFirst(settings);
    }
  }

  lemma {:induction false} SettingsReprint(b: seq<byte>)
    requires |b| % SETTING_LEN == 0
    requires ReadSettings(b).Ok?
    ensures SettingsPayload(ReadSettings(b).value) == b
    ensures AllPermitted(ReadSettings(b).value)
  {
    if b != [] {
      var rest := b[SETTING_LEN..];
      SettingsReprint(rest);
      Be16Read16(b);
      Be32Read32(b[2..]);
      assert ReadSettings(b).value[1..] == ReadSettings(rest).value;
      AllPermittedFirst(ReadSettings(b).value);
      assert b == b[..2] + b[2..][..4] + rest;
    }
  }

  // ---------- Print, then parse ----------

  /** What the parser makes of a printed frame. */
  ghost function Reparse(f: Frame): Result<Frame>
    requires Representable(f)
  {
    DeclaredLength(f);
    Parse(f.HeaderOf(), f.Payload())
  }

  lemma MaskTwice(v: uint32)
    ensures Mask31(Mask31(v)) == Mask31(v)
  {
  }

  lemma PrintedFlags(endStream: bool, endHeaders: bool, padded: bool, priority: bool)
    ensures var fl := SetFlag(SetFlag(SetFlag(SetFlag(0,
                              EndStream, endStream), EndHeaders, endHeaders), Padded, padded),
                              HasPriority, priority);
      && Has(fl, EndStream) == endStream && Has(fl, EndHeaders) == endHeaders
      && Has(fl, Padded) == padded && Has(fl, HasPriority) == priority
  {
  }

  lemma ReparseHeaders(h: Header, f: Frame)
    requires f.HeadersFrame? && f.streamId != 0
    requires h == f.HeaderOf() && h.length == |f.Payload()|
    ensures ParseHeaders(h, f.Payload()) == Ok(Normal(f))
  {
    PrintedFlags(f.endStream, f.endHeaders, f.padded, f.priority);
    hide SetFlag, Has, Be32, Read32, Mask31, ParsePriorityBlock, PriorityBlock;
    if f.priority {
      var block := PriorityBlock(f.exclusive, f.dependency, f.weight);
      SplitPadded(h, f.padded, f.padLen, block + f.fragment);
      assert (block + f.fragment)[..PRIORITY_LEN] == block && (block + f.fragment)[PRIORITY_LEN..] == f.fragment;
      PriorityBlockRoundTrip(f.exclusive, f.dependency, f.weight);
    } else {
      SplitPadded(h, f.padded, f.padLen, f.fragment);
    }
  }

  lemma ReparsePushPromise(h: Header, f: Frame)
    requires f.PushPromiseFrame? && f.streamId != 0
    requires h == f.HeaderOf() && h.length == |f.Payload()|
    ensures ParsePushPromise(h, f.Payload())
         == if Mask31(f.promisedId) != 0 then Ok(Normal(f)) else Err(ConnError(PROTOCOL_ERROR))
  {
    PrintedFlags(false, f.endHeaders, f.padded, false);
    MaskTwice(f.promisedId);
    hide SetFlag, Has, Be32, Read32, Mask31;
    var id := Be32(Mask31(f.promisedId));
    SplitPadded(h, f.padded, f.padLen, id + f.fragment);
    Read32Be32(Mask31(f.promisedId), f.fragment);
    assert (id + f.fragment)[PROMISED_ID_LEN..] == f.fragment;
  }

  lemma ReparseGoAway(h: Header, f: Frame)
    requires f.GoAwayFrame? && h == f.HeaderOf() && h.length == |f.Payload()|
    ensures ParseGoAway(h, f.Payload()) == Ok(Normal(f))
  {
    MaskTwice(f.lastStreamId);
    hide Be32, Read32, Mask31;
    var id, p := Be32(Mask31(f.lastStreamId)), f.Payload();
    assert p == id + (Be32(f.errCode) + f.debug);
    Read32Be32(Mask31(f.lastStreamId), Be32(f.errCode) + f.debug);
    assert p[4..] == Be32(f.errCode) + f.debug;
    Read32Be32(f.errCode, f.debug);
    assert p[GOAWAY_MIN_LEN..|p|] == f.debug;
  }

  lemma ReparsePriorityUpdate(h: Header, f: Frame)
    requires f.PriorityUpdateFrame? && h == f.HeaderOf() && h.length == |f.Payload()|
    ensures ParsePriorityUpdate(h, f.Payload())
         == if Mask31(f.prioritizedId) != 0 then Ok(Normal(f)) else Err(ConnError(PROTOCOL_ERROR))
  {
    MaskTwice(f.prioritizedId);
    hide Be32, Read32, Mask31;
    Read32Be32(Mask31(f.prioritizedId), f.field);
    assert f.Payload()[PRIORITY_UPDATE_FIXED_LEN..|f.Payload()|] == f.field;
  }

  lemma ReparseSettings(h: Header, f: Frame)
    requires f.SettingsFrame? && h == f.HeaderOf() && h.length == |f.Payload()|
    ensures Acceptable(f) ==> ParseSettings(h, f.Payload()) == Ok(Normal(f))
    ensures !Acceptable(f) ==> ParseSettings(h, f.Payload()).Err?
  {
    hide ReadSettings, SettingsPayload, ValidateSetting;
    if f.ack {
      SettingsRoundTrip([]);
      SettingsPayloadLength([]);
      assert f.Payload()[..0] == SettingsPayload([]);
    } else {
      SettingsRoundTrip(f.settings);
      assert f.Payload()[..h.length] == SettingsPayload(f.settings);
    }
  }

  lemma ReparsePlain(h: Header, f: Frame)
    requires f.DataFrame? || f.PriorityFrame? || f.RstStreamFrame? || f.PingFrame? || f.WindowUpdateFrame?
              || f.ContinuationFrame?
    requires h == f.HeaderOf() && h.length == |f.Payload()|
    ensures Acceptable(f) ==> Parse(h, f.Payload()) == Ok(Normal(f))
    ensures !Acceptable(f) ==> Parse(h, f.Payload()).Err?
  {
    hide Be32, Read32, ParsePriorityBlock, PriorityBlock;
    match f
    case DataFrame(_, _, data, padded, padLen) => SplitPadded(h, padded, padLen, data);
    case PriorityFrame(_, exclusive, dependency, weight) => PriorityBlockRoundTrip(exclusive, dependency, weight);
    case RstStreamFrame(_, errCode) => ReadWhole(errCode);
    case PingFrame(_, opaqueData) => assert opaqueData[..PING_LEN] == opaqueData;
    case WindowUpdateFrame(_, increment) =>
      ReadWhole(Mask31(increment));
      MaskTwice(increment);
    case ContinuationFrame(_, _, fragment) => assert fragment[..|fragment|] == fragment;
  }

  /** A printed frame parses to its normal form if and only if the sender's frame was acceptable. */
  lemma PrintThenParse(f: Frame)
    requires Representable(f)
    ensures Reparse(f) == Ok(Normal(f)) <==> Acceptable(f)
    ensures Reparse(f).Err? <==> !Acceptable(f)
  {
    DeclaredLength(f);
    var h := f.HeaderOf();
    hide ParseHeaders, ParsePushPromise, ParseGoAway, ParsePriorityUpdate, ParseSettings;
    match f
    case HeadersFrame(streamId, _, _, _, _, _, _, _, _, _) =>
      if streamId != 0 {
        ReparseHeaders(h, f);
      } else {
        NeedsStream(h, f.Payload());
      }
    case PushPromiseFrame(streamId, _, _, _, _, _) =>
      if streamId != 0 {
        ReparsePushPromise(h, f);
      } else {
        NeedsStream(h, f.Payload());
      }
    case GoAwayFrame(_, _, _) => ReparseGoAway(h, f);
    case PriorityUpdateFrame(_, _) => ReparsePriorityUpdate(h, f);
    case SettingsFrame(_, _) => ReparseSettings(h, f);
    case _ => ReparsePlain(h, f);
  }

  lemma NeedsStream(h: Header, payload: seq<byte>)
    requires h.length <= |payload| && h.streamId == 0
    ensures ParseHeaders(h, payload) == Err(ConnError(PROTOCOL_ERROR))
    ensures ParsePushPromise(h, payload) == Err(ConnError(PROTOCOL_ERROR))
  {
  }

  // ---------- Parse, then print ----------

  predicate Paddable(kind: byte) {
    kind == TYPE_DATA || kind == TYPE_HEADERS || kind == TYPE_PUSH_PROMISE
  }

  /** The flags a frame type gives a meaning to. */
  predicate Defined(kind: byte, f: Flag) {
    match f
    case EndStream => kind == TYPE_DATA || kind == TYPE_HEADERS
    case Ack => kind == TYPE_SETTINGS || kind == TYPE_PING
    case EndHeaders => kind == TYPE_HEADERS || kind == TYPE_PUSH_PROMISE || kind == TYPE_CONTINUATION
    case Padded => Paddable(kind)
    case HasPriority => kind == TYPE_HEADERS
  }

  /** The flags octet with every bit the type gives no meaning to cleared. */
  function DefinedFlags(kind: byte, fl: byte): byte {
    SetFlag(SetFlag(SetFlag(SetFlag(SetFlag(0,
    EndStream, Defined(kind, EndStream) && Has(fl, EndStream)),
    Ack, Defined(kind, Ack) && Has(fl, Ack)),
    EndHeaders, Defined(kind, EndHeaders) && Has(fl, EndHeaders)),
    Padded, Defined(kind, Padded) && Has(fl, Padded)),
    HasPriority, Defined(kind, HasPriority) && Has(fl, HasPriority))
  }

  /** The payload octet at i with padding zeroed and a reserved bit cleared. */
  function CanonicalOctet(h: Header, payload: seq<byte>, i: nat): byte
    requires i < h.length <= |payload|
  {
    var padded := Paddable(h.kind) && Has(h.flags, Padded);
    if padded && i >= h.length - payload[0] then 0
    else if h.kind in {TYPE_GOAWAY, TYPE_WINDOW_UPDATE, TYPE_PRIORITY_UPDATE} && i == 0 then ClearTop(payload[i])
    else if h.kind == TYPE_PUSH_PROMISE && i == (if padded then 1 else 0) then ClearTop(payload[i])
    else payload[i]
  }

  /** The octets are those of the payload with padding zeroed and a reserved bit cleared, and as many. */
  ghost predicate IsCanonical(h: Header, payload: seq<byte>, printed: seq<byte>)
    requires h.length <= |payload|
  {
    |printed| == h.length && forall i | 0 <= i < h.length :: printed[i] == CanonicalOctet(h, payload, i)
  }

  lemma PriorityBlockReprint(b: seq<byte>)
    requires |b| >= PRIORITY_LEN
    ensures var (e, d, w) := ParsePriorityBlock(b);
      PriorityBlock(e, d, w) == b[..PRIORITY_LEN] && Mask31(d) == d
  {
    MaskedRead(b);
    hide Be32, Read32;
  }

  /** The accepted payload of a padded type is the envelope of its content, padding contents aside. */
  lemma Rewrap(h: Header, payload: seq<byte>)
    requires h.length <= |payload| && Paddable(h.kind)
    requires SplitPadding(h, payload).Ok?
    ensures var (content, padLen) := SplitPadding(h, payload).value;
      var printed := PaddedContent(Has(h.flags, Padded), padLen, content);
      && |printed| == h.length
      && (!Has(h.flags, Padded) ==> padLen == 0)
      && forall i | 0 <= i < h.length ::
        printed[i] == if Has(h.flags, Padded) && i >= h.length - payload[0] then 0 else payload[i]
  {
  }

  /**
    What is lost when an accepted frame is printed again: nothing but padding contents, reserved bits, unknown
    flags.
   */
  ghost predicate Reprints(h: Header, payload: seq<byte>, f: Frame)
    requires h.length <= |payload|
  {
    && f.Kind() == h.kind
    && f.Stream() == h.streamId
    && f.Flags() == DefinedFlags(h.kind, h.flags)
    && f.PayloadLen() == h.length
    && IsCanonical(h, payload, f.Payload())
  }

  lemma ReprintsBy(h: Header, payload: seq<byte>, f: Frame, printed: seq<byte>)
    requires h.length <= |payload| && f.Kind() == h.kind && f.Stream() == h.streamId
    requires f.Flags() == DefinedFlags(h.kind, h.flags)
    requires f.Payload() == printed && IsCanonical(h, payload, printed)
    ensures Reprints(h, payload, f)
  {
    DeclaredLength(f);
    hide DefinedFlags, CanonicalOctet, Frame.Payload, Frame.PayloadLen, Frame.Flags, Frame.Kind, Frame.Stream;
  }

  /** The content of a HEADERS payload, printed from the fields parsed out of it. */
  lemma HeadersContent(h: Header, payload: seq<byte>)
    requires h.length <= |payload| && ParseHeaders(h, payload).Ok?
    ensures var f := ParseHeaders(h, payload).value;
      && Normal(f) == f
      && f.Payload() == PaddedContent(Has(h.flags, Padded), f.padLen, SplitPadding(h, payload).value.0)
  {
    Rewrap(h.(kind := TYPE_HEADERS), payload);
    hide SetFlag, Has, Be32, Read32, Mask31, ParsePriorityBlock, PriorityBlock;
    var content := SplitPadding(h, payload).value.0;
    if Has(h.flags, HasPriority) {
      PriorityBlockReprint(content[..PRIORITY_LEN]);
      assert content[..PRIORITY_LEN][..PRIORITY_LEN] + content[PRIORITY_LEN..] == content;
    }
  }

  lemma HeadersFlags(h: Header, payload: seq<byte>)
    requires h.kind == TYPE_HEADERS && h.length <= |payload| && ParseHeaders(h, payload).Ok?
    ensures var f := ParseHeaders(h, payload).value;
      && f.Kind() == h.kind && f.Stream() == h.streamId && f.Flags() == DefinedFlags(h.kind, h.flags)
      && SplitPadding(h, payload).Ok? && f.padLen == SplitPadding(h, payload).value.1
  {
    hide SplitPadding, Read32;
  }

  /** The envelope of a payload's own content is the payload, padding contents aside. */
  lemma EnvelopeIsCanonical(h: Header, payload: seq<byte>)
    requires h.kind == TYPE_HEADERS && h.length <= |payload| && SplitPadding(h, payload).Ok?
    ensures var (content, padLen) := SplitPadding(h, payload).value;
      var printed := PaddedContent(Has(h.flags, Padded), padLen, content);
      IsCanonical(h, payload, printed)
  {
    Rewrap(h, payload);
    hide Has, PaddedContent, SplitPadding;
  }

  lemma ReprintHeaders(h: Header, payload: seq<byte>)
    requires h.kind == TYPE_HEADERS && h.length <= |payload|
    requires ParseHeaders(h, payload).Ok?
    ensures var f := ParseHeaders(h, payload).value; Normal(f) == f && Reprints(h, payload, f)
  {
    var f := ParseHeaders(h, payload).value;
    HeadersFlags(h, payload);
    EnvelopeIsCanonical(h, payload);
    HeadersContent(h, payload);
    hide *;
    ReprintsBy(h, payload, f, f.Payload());
  }

  /** The content of a PUSH_PROMISE payload, printed from the fields parsed out of it. */
  lemma PushPromiseContent(h: Header, payload: seq<byte>)
    requires h.length <= |payload| && ParsePushPromise(h, payload).Ok?
    ensures var f, content := ParsePushPromise(h, payload).value, SplitPadding(h, payload).value.0;
      && Normal(f) == f
      && f.Payload() == PaddedContent(Has(h.flags, Padded), f.padLen, [ClearTop(content[0])] + content[1..])
  {
    Rewrap(h.(kind := TYPE_PUSH_PROMISE), payload);
    var content := SplitPadding(h, payload).value.0;
    MaskTwice(Read32(content));
    MaskedRead(content);
    hide SetFlag, Has, Be32, Read32, Mask31;
    assert Be32(Mask31(Read32(content))) + content[PROMISED_ID_LEN..] == [ClearTop(content[0])] + content[1..];
  }

  lemma PushPromiseFlags(h: Header, payload: seq<byte>)
    requires h.kind == TYPE_PUSH_PROMISE && h.length <= |payload| && ParsePushPromise(h, payload).Ok?
    ensures var f := ParsePushPromise(h, payload).value;
      && f.Kind() == h.kind && f.Stream() == h.streamId && f.Flags() == DefinedFlags(h.kind, h.flags)
      && SplitPadding(h, payload).Ok? && |SplitPadding(h, payload).value.0| >= PROMISED_ID_LEN
      && f.padLen == SplitPadding(h, payload).value.1
  {
    hide SplitPadding, Read32;
  }

  /** Clearing an octet of the content is clearing it in the envelope. */
  lemma ClearedInside(padded: bool, padLen: byte, content: seq<byte>)
    requires content != []
    ensures PaddedContent(padded, padLen, [ClearTop(content[0])] + content[1..])
         == PaddedContent(padded, padLen, content)[if padded then 1 else 0 := ClearTop(content[0])]
  {
    hide ClearTop;
  }

  /** The same with the reserved bit in front of the content cleared. */
  lemma ClearedEnvelopeIsCanonical(h: Header, payload: seq<byte>)
    requires h.kind == TYPE_PUSH_PROMISE && h.length <= |payload|
    requires SplitPadding(h, payload).Ok? && |SplitPadding(h, payload).value.0| >= PROMISED_ID_LEN
    ensures var (content, padLen) := SplitPadding(h, payload).value;
      var printed := PaddedContent(Has(h.flags, Padded), padLen, [ClearTop(content[0])] + content[1..]);
      IsCanonical(h, payload, printed)
  {
    Rewrap(h, payload);
    var (content, padLen) := SplitPadding(h, payload).value;
    var k := if Has(h.flags, Padded) then 1 else 0;
    assert content[0] == payload[k] && (k == 1 ==> h.length - payload[0] > 1);
    ClearedInside(Has(h.flags, Padded), padLen, content);
    hide Has, ClearTop, SplitPadding, PaddedContent;
  }

  lemma ReprintPushPromise(h: Header, payload: seq<byte>)
    requires h.kind == TYPE_PUSH_PROMISE && h.length <= |payload|
    requires ParsePushPromise(h, payload).Ok?
    ensures var f := ParsePushPromise(h, payload).value; Normal(f) == f && Reprints(h, payload, f)
  {
    var f := ParsePushPromise(h, payload).value;
    PushPromiseFlags(h, payload);
    ClearedEnvelopeIsCanonical(h, payload);
    PushPromiseContent(h, payload);
    hide *;
    ReprintsBy(h, payload, f, f.Payload());
  }

  lemma ReprintGoAway(h: Header, payload: seq<byte>)
    requires h.kind == TYPE_GOAWAY && h.length <= |payload| && ParseGoAway(h, payload).Ok?
    ensures var f := ParseGoAway(h, payload).value; Normal(f) == f && Reprints(h, payload, f)
  {
    var f := ParseGoAway(h, payload).value;
    DeclaredLength(f);
    MaskTwice(Read32(payload));
    MaskedRead(payload);
    Be32Read32(payload[4..]);
    assert f.Flags() == DefinedFlags(h.kind, h.flags);
    TopIsCleared(h, payload);
    hide Be32, Read32, Mask31, DefinedFlags, SetFlag, Has, CanonicalOctet, ClearTop;
    assert f.Payload() == [ClearTop(payload[0])] + payload[1..4] + payload[4..8] + payload[8..h.length];
    assert f.Payload() == [ClearTop(payload[0])] + payload[1..h.length];
  }

  /** In these three types only the reserved bit in front is lost. */
  lemma TopIsCleared(h: Header, payload: seq<byte>)
    requires h.kind in {TYPE_GOAWAY, TYPE_WINDOW_UPDATE, TYPE_PRIORITY_UPDATE} && 1 <= h.length <= |payload|
    ensures IsCanonical(h, payload, [ClearTop(payload[0])] + payload[1..h.length])
  {
    hide Has, ClearTop;
  }

  lemma ReprintPriorityUpdate(h: Header, payload: seq<byte>)
    requires h.kind == TYPE_PRIORITY_UPDATE && h.length <= |payload| && ParsePriorityUpdate(h, payload).Ok?
    ensures var f := ParsePriorityUpdate(h, payload).value; Normal(f) == f && Reprints(h, payload, f)
  {
    var f := ParsePriorityUpdate(h, payload).value;
    DeclaredLength(f);
    MaskTwice(Read32(payload));
    MaskedRead(payload);
    assert f.Flags() == DefinedFlags(h.kind, h.flags);
    TopIsCleared(h, payload);
    hide Be32, Read32, Mask31, DefinedFlags, SetFlag, Has, CanonicalOctet, ClearTop;
    assert f.Payload() == [ClearTop(payload[0])] + payload[1..4] + payload[4..h.length];
    assert f.Payload() == [ClearTop(payload[0])] + payload[1..h.length];
  }

  lemma ReprintWindowUpdate(h: Header, payload: seq<byte>)
    requires h.kind == TYPE_WINDOW_UPDATE && h.length <= |payload| && ParseWindowUpdate(h, payload).Ok?
    ensures var f := ParseWindowUpdate(h, payload).value; Normal(f) == f && Reprints(h, payload, f)
  {
    MaskTwice(Read32(payload));
    MaskedRead(payload);
    hide Be32, Read32, Mask31;
  }

  /** In every other type nothing is lost from a payload without padding. */
  lemma NothingIsCleared(h: Header, payload: seq<byte>)
    requires h.kind in {TYPE_PRIORITY, TYPE_RST_STREAM, TYPE_SETTINGS, TYPE_PING, TYPE_CONTINUATION}
    requires h.length <= |payload|
    ensures IsCanonical(h, payload, payload[..h.length])
  {
    hide Has, ClearTop;
  }

  lemma SettingsFlags(h: Header, payload: seq<byte>)
    requires h.kind == TYPE_SETTINGS && h.length <= |payload| && ParseSettings(h, payload).Ok?
    ensures var f := ParseSettings(h, payload).value;
      && f.Kind() == h.kind && f.Stream() == h.streamId && f.Flags() == DefinedFlags(h.kind, h.flags)
  {
    hide ReadSettings;
  }

  lemma SettingsContent(h: Header, payload: seq<byte>)
    requires h.kind == TYPE_SETTINGS && h.length <= |payload| && ParseSettings(h, payload).Ok?
    ensures var f := ParseSettings(h, payload).value;
      Normal(f) == f && Acceptable(f) && f.Payload() == payload[..h.length]
  {
    SettingsReprint(payload[..h.length]);
    hide SettingsPayload, ValidateSetting, Permitted, Has;
    if h.length == 0 {
      assert payload[..0] == [];
    }
  }

  lemma ReprintSettings(h: Header, payload: seq<byte>)
    requires h.kind == TYPE_SETTINGS && h.length <= |payload| && ParseSettings(h, payload).Ok?
    ensures var f := ParseSettings(h, payload).value; Normal(f) == f && Acceptable(f) && Reprints(h, payload, f)
  {
    var f := ParseSettings(h, payload).value;
    SettingsFlags(h, payload);
    SettingsContent(h, payload);
    NothingIsCleared(h, payload);
    hide *;
    ReprintsBy(h, payload, f, payload[..h.length]);
  }

  lemma ReprintData(h: Header, payload: seq<byte>)
    requires h.kind == TYPE_DATA && h.length <= |payload| && ParseData(h, payload).Ok?
    ensures var f := ParseData(h, payload).value; Normal(f) == f && Reprints(h, payload, f)
  {
    var f := ParseData(h, payload).value;
    DeclaredLength(f);
    Rewrap(h, payload);
    assert f.Flags() == DefinedFlags(h.kind, h.flags);
    hide DefinedFlags, SetFlag, Has;
  }

  lemma ReprintPriority(h: Header, payload: seq<byte>)
    requires h.kind == TYPE_PRIORITY && h.length <= |payload| && ParsePriority(h, payload).Ok?
    ensures var f := ParsePriority(h, payload).value; Normal(f) == f && Reprints(h, payload, f)
  {
    PriorityBlockReprint(payload);
    hide ParsePriorityBlock, PriorityBlock;
  }

  lemma ReprintRstStream(h: Header, payload: seq<byte>)
    requires h.kind == TYPE_RST_STREAM && h.length <= |payload| && ParseRstStream(h, payload).Ok?
    ensures var f := ParseRstStream(h, payload).value; Normal(f) == f && Reprints(h, payload, f)
  {
    Be32Read32(payload);
    hide Be32, Read32;
  }

  lemma ReprintPing(h: Header, payload: seq<byte>)
    requires h.kind == TYPE_PING && h.length <= |payload| && ParsePing(h, payload).Ok?
    ensures var f := ParsePing(h, payload).value; Normal(f) == f && Reprints(h, payload, f)
  {
  }

  lemma ReprintContinuation(h: Header, payload: seq<byte>)
    requires h.kind == TYPE_CONTINUATION && h.length <= |payload| && ParseContinuation(h, payload).Ok?
    ensures var f := ParseContinuation(h, payload).value; Normal(f) == f && Reprints(h, payload, f)
  {
  }

  /** Every accepted frame accounts for its whole payload, and printing it again parses to the same frame. */
  lemma ParseThenPrint(h: Header, payload: seq<byte>)
    requires Known(h.kind) && h.length <= |payload| && h.length <= MAX_LENGTH && h.streamId <= STREAM_ID_MASK
    requires Parse(h, payload).Ok?
    ensures var f := Parse(h, payload).value;
      && Reprints(h, payload, f)
      && Acceptable(f) && Normal(f) == f && Representable(f)
      && Reparse(f) == Ok(f)
  {
    var f := Parse(h, payload).value;
    if h.kind == TYPE_HEADERS {
      ReprintHeaders(h, payload);
    } else if h.kind == TYPE_PUSH_PROMISE {
      ReprintPushPromise(h, payload);
    } else if h.kind == TYPE_GOAWAY {
      ReprintGoAway(h, payload);
    } else if h.kind == TYPE_PRIORITY_UPDATE {
      ReprintPriorityUpdate(h, payload);
    } else if h.kind == TYPE_WINDOW_UPDATE {
      ReprintWindowUpdate(h, payload);
    } else if h.kind == TYPE_SETTINGS {
      ReprintSettings(h, payload);
    } else if h.kind == TYPE_DATA {
      ReprintData(h, payload);
    } else if h.kind == TYPE_PRIORITY {
      ReprintPriority(h, payload);
    } else if h.kind == TYPE_RST_STREAM {
      ReprintRstStream(h, payload);
    } else if h.kind == TYPE_PING {
      ReprintPing(h, payload);
    } else {
      ReprintContinuation(h, payload);
    }
    PrintThenParse(f);
  }

  lemma SplitReadsItsFrameOnly(h: Header, payload: seq<byte>)
    requires h.length <= |payload|
    ensures SplitPadding(h, payload) == SplitPadding(h, payload[..h.length])
  {
    var p := payload[..h.length];
    hide Has;
    if !Has(h.flags, Padded) {
      assert p[..h.length] == p;
    } else if h.length >= 1 {
      var n := payload[0];
      assert p[0] == n;
      if n < h.length {
        assert payload[1..h.length - n] == p[1..h.length - n];
      }
    }
  }

  /** A parser reads the declared length and no further, so whatever follows in a reused buffer is invisible to it. */
  lemma ParseReadsItsFrameOnly(h: Header, payload: seq<byte>)
    requires Known(h.kind) && h.length <= |payload|
    ensures Parse(h, payload) == Parse(h, payload[..h.length])
  {
    var p := payload[..h.length];
    hide Has, ReadSettings, ValidateSetting;
    assert p[..h.length] == p;
    SplitReadsItsFrameOnly(h, payload);
    if h.length >= 4 {
      assert Read32(payload) == Read32(p);
      assert payload[PRIORITY_UPDATE_FIXED_LEN..h.length] == p[PRIORITY_UPDATE_FIXED_LEN..h.length];
    }
    if h.length >= PING_LEN {
      assert payload[..PING_LEN] == p[..PING_LEN];
      assert Read32(payload[4..]) == Read32(p[4..]);
      assert payload[GOAWAY_MIN_LEN..h.length] == p[GOAWAY_MIN_LEN..h.length];
    }
    hide SplitPadding, Read32;
  }
}
