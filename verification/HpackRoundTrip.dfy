/**
  What the production encoder writes is what the peer's decoder reads, block after block, while SETTINGS move
  the two tables' limits at different times. The encoder announces no size change, so the decoder's table may
  be the larger of the two; it must never be the smaller.
 */
module HpackRoundTrip {
  import opened Octets
  import opened H2
  import opened DynamicTable
  import opened HpackPrimitives
  import opened HpackCodec
  import opened HpackLockstep

  /** The largest SETTINGS_HEADER_TABLE_SIZE a frame can carry. */
  const MAX_TABLE_SIZE := 0xFFFF_FFFF

  /** The text fits in one string literal, in the shorter of its two forms. */
  ghost predicate Short(env: Env, text: seq<byte>) {
    |Data(env.huffman, Shorter(env.huffman, text))| <= MAX_STRING_LEN
  }

  ghost predicate AllShort(env: Env, fields: seq<Field>) {
    forall i | 0 <= i < |fields| :: Short(env, fields[i].name) && Short(env, fields[i].value)
  }

  /** A limit below the overhead of one entry holds none, and asks nothing of the other end. */
  predicate Allows(e: Contents, max: nat) {
    e.max <= max || e.max < ENTRY_OVERHEAD
  }

  /** The encoder's table is the front of the decoder's, within its own limit, and the decoder's limit allows it. */
  ghost predicate InStep(e: Contents, d: Contents) {
    && e.entries <= d.entries
    && Total(e.entries) <= e.max && Allows(e, d.max)
    && NoneSensitive(d.entries)
  }

  /** The instructions the encoder writes for a list of fields. */
  ghost function ChooseAll(env: Env, c: Contents, fields: seq<Field>): seq<Instr>
    decreases |fields|
  {
    if fields == [] then []
    else [Choose(env, c, fields[0])] + ChooseAll(env, AfterChoice(env, c, fields[0]), fields[1..])
  }

  lemma {:induction false} EncodedIsSerialized(env: Env, c: Contents, fields: seq<Field>)
    ensures Encoded(env, c, fields).0 == SerializeAll(env, ChooseAll(env, c, fields))
    decreases |fields|
  {
    if fields != [] {
      hide Choose, AfterChoice, Serialize;
      EncodedIsSerialized(env, AfterChoice(env, c, fields[0]), fields[1..]);
      var rest := ChooseAll(env, AfterChoice(env, c, fields[0]), fields[1..]);
      assert ([Choose(env, c, fields[0])] + rest)[1..] == rest;
    }
  }

  // ---------- Finding what is in a table ----------

  lemma {:induction false} NamedMatches(entries: seq<Field>, name: seq<byte>)
    ensures FirstNamed(entries, name) <= |entries|
    ensures FirstNamed(entries, name) > 0 ==> entries[FirstNamed(entries, name) - 1].name == name
  {
    if entries != [] {
      NamedMatches(entries[1..], name);
    }
  }

  lemma {:induction false} ExactMatches(entries: seq<Field>, name: seq<byte>, value: seq<byte>)
    ensures var i := FirstExact(entries, name, value);
      i <= |entries| && (i > 0 ==> entries[i - 1].name == name && entries[i - 1].value == value)
  {
    if entries != [] {
      ExactMatches(entries[1..], name, value);
    }
  }

  /**
    An index the encoder picks names, in both tables, an entry with the field's name, and with its value if it
    picked both.
   */
  lemma IndexesMatch(env: Env, e: Contents, d: Contents, f: Field)
    requires Sound(env) && InStep(e, d)
    ensures NameIndex(env, e, f.name) > 0 ==>
              NameText(env, d, ByIndex(NameIndex(env, e, f.name))) == Some(f.name)
    ensures ExactIndex(env, e, f) > 0 ==>
              Lookup(env, d, ExactIndex(env, e, f)) == Some(Field(f.name, f.value, false))
  {
    NamedMatches(env.statics, f.name);
    NamedMatches(e.entries, f.name);
    ExactMatches(env.statics, f.name, f.value);
    ExactMatches(e.entries, f.name, f.value);
    hide FirstNamed, FirstExact, Total, Lawful;
  }

  /** Inserting into both tables keeps the one the front of the other: what fits the smaller fits the larger. */
  lemma AddKeepsInStep(e: Contents, d: Contents, f: Field)
    requires InStep(e, d) && !f.sensitive
    ensures InStep(AfterAdd(e, f), AfterAdd(d, f))
  {
    var a, b := [f] + e.entries, [f] + d.entries;
    FitIsLongestFitting(a, e.max);
    FitIsLongestFitting(b, d.max);
    var small, large := Fit(a, e.max), Fit(b, d.max);
    assert a <= b;
    assert small == b[..|small|];
    EntriesAreFew(small);
    assert |small| <= |large|;
    AddKeepsNoneSensitive(d, f);
  }

  lemma ChoiceExecutes(env: Env, e: Contents, d: Contents, f: Field)
    requires Sound(env) && InStep(e, d)
    ensures WellFormed(Choose(env, e, f)) && !Choose(env, e, f).SizeUpdate?
    ensures Execute(env, d, Choose(env, e, f)).Some?
    ensures var effect := Execute(env, d, Choose(env, e, f)).value;
      && effect.fields == [f]
      && InStep(AfterChoice(env, e, f), effect.table)
      && (e == d ==> effect.table == AfterChoice(env, e, f))
  {
    IndexesMatch(env, e, d, f);
    if !f.sensitive {
      AddKeepsInStep(e, d, f);
    }
    hide NameIndex, ExactIndex, Lookup, AfterAdd, InStep, Sound;
  }

  /**
    Whatever fields are encoded, the instructions written denote those fields, at the encoder's table and at any in
    step with it.
   */
  lemma {:induction false} ChosenDenotes(env: Env, e: Contents, d: Contents, fields: seq<Field>, sawField: bool)
    requires Sound(env) && InStep(e, d)
    ensures AllWellFormed(ChooseAll(env, e, fields))
    ensures Denote(env, d, ChooseAll(env, e, fields), sawField).Some?
    ensures var effect := Denote(env, d, ChooseAll(env, e, fields), sawField).value;
      && effect.fields == fields
      && InStep(Encoded(env, e, fields).1, effect.table)
      && (e == d ==> effect.table == Encoded(env, e, fields).1)
    decreases |fields|
  {
    if fields != [] {
      var f, rest := fields[0], fields[1..];
      ChoiceExecutes(env, e, d, f);
      var instr := Choose(env, e, f);
      var first := Execute(env, d, instr).value;
      hide Choose, AfterChoice, Execute, InStep, Sound, WellFormed, Serialize;
      ChosenDenotes(env, AfterChoice(env, e, f), first.table, rest, true);
      var instrs := ChooseAll(env, AfterChoice(env, e, f), rest);
      assert ([instr] + instrs)[1..] == instrs;
      assert fields == [f] + rest;
    }
  }

  // ---------- What can be carried ----------

  lemma IndexesAreSmall(env: Env, c: Contents, f: Field)
    requires |env.statics| == STATIC_ENTRIES && Total(c.entries) <= c.max <= MAX_TABLE_SIZE
    ensures NameIndex(env, c, f.name) <= MAX_INT_VALUE && ExactIndex(env, c, f) <= MAX_INT_VALUE
  {
    EntriesAreFew(c.entries);
    NamedMatches(env.statics, f.name);
    NamedMatches(c.entries, f.name);
    ExactMatches(env.statics, f.name, f.value);
    ExactMatches(c.entries, f.name, f.value);
    hide FirstNamed, FirstExact, Total;
  }

  lemma ShortFieldIsTransmissible(env: Env, c: Contents, f: Field)
    requires |env.statics| == STATIC_ENTRIES && Total(c.entries) <= c.max <= MAX_TABLE_SIZE
    requires Short(env, f.name) && Short(env, f.value)
    ensures Transmissible(env, Choose(env, c, f))
  {
    IndexesAreSmall(env, c, f);
    hide NameIndex, ExactIndex, Total, Data, Shorter;
  }

  lemma ChoiceKeepsTotal(env: Env, c: Contents, f: Field)
    requires Total(c.entries) <= c.max
    ensures Total(AfterChoice(env, c, f).entries) <= AfterChoice(env, c, f).max == c.max
  {
    FitIsLongestFitting([f] + c.entries, c.max);
    hide ExactIndex, Fit, Total;
  }

  lemma {:induction false} ShortIsTransmissible(env: Env, c: Contents, fields: seq<Field>)
    requires |env.statics| == STATIC_ENTRIES && Total(c.entries) <= c.max <= MAX_TABLE_SIZE && AllShort(env, fields)
    ensures AllTransmissible(env, ChooseAll(env, c, fields))
    decreases |fields|
  {
    if fields != [] {
      var f, rest := fields[0], fields[1..];
      assert AllShort(env, rest) && Short(env, f.name) && Short(env, f.value);
      hide Short, Total, Choose, AfterChoice, Transmissible;
      ShortFieldIsTransmissible(env, c, f);
      ChoiceKeepsTotal(env, c, f);
      ShortIsTransmissible(env, AfterChoice(env, c, f), rest);
    }
  }

  lemma {:induction false} EntryWithinTotal(entries: seq<Field>, i: nat)
    requires i < |entries|
    ensures EntrySize(entries[i]) <= Total(entries)
  {
    if i > 0 {
      EntryWithinTotal(entries[1..], i - 1);
    }
  }

  lemma LongIsNowhere(env: Env, c: Contents, f: Field)
    requires Sound(env) && Total(c.entries) <= c.max <= MAX_STRING_LEN
    ensures !Short(env, f.name) ==> NameIndex(env, c, f.name) == 0
    ensures !Short(env, f.name) || !Short(env, f.value) ==> ExactIndex(env, c, f) == 0
  {
    NamedMatches(env.statics, f.name);
    NamedMatches(c.entries, f.name);
    ExactMatches(env.statics, f.name, f.value);
    ExactMatches(c.entries, f.name, f.value);
    forall i | 0 <= i < |c.entries| ensures EntrySize(c.entries[i]) <= c.max {
      EntryWithinTotal(c.entries, i);
    }
    hide FirstNamed, FirstExact, Total, Lawful;
  }

  lemma LongFieldIsNotTransmissible(env: Env, c: Contents, f: Field)
    requires Sound(env) && Total(c.entries) <= c.max <= MAX_STRING_LEN
    requires !Short(env, f.name) || !Short(env, f.value)
    ensures !Transmissible(env, Choose(env, c, f))
  {
    LongIsNowhere(env, c, f);
    hide NameIndex, ExactIndex, Total, Data, Shorter, Sound;
  }

  lemma {:induction false} LongIsNotTransmissible(env: Env, c: Contents, fields: seq<Field>)
    requires Sound(env) && Total(c.entries) <= c.max <= MAX_STRING_LEN && !AllShort(env, fields)
    ensures !AllTransmissible(env, ChooseAll(env, c, fields))
    decreases |fields|
  {
    var f, rest := fields[0], fields[1..];
    var instrs := ChooseAll(env, AfterChoice(env, c, f), rest);
    assert ChooseAll(env, c, fields) == [Choose(env, c, f)] + instrs;
    hide Short, Total, Choose, AfterChoice, Transmissible, Sound, ChooseAll;
    if Short(env, f.name) && Short(env, f.value) {
      ChoiceKeepsTotal(env, c, f);
      assert !AllShort(env, rest);
      LongIsNotTransmissible(env, AfterChoice(env, c, f), rest);
      var k :| 0 <= k < |instrs| && !Transmissible(env, instrs[k]);
      assert ([Choose(env, c, f)] + instrs)[k + 1] == instrs[k];
    } else {
      LongFieldIsNotTransmissible(env, c, f);
      assert ([Choose(env, c, f)] + instrs)[0] == Choose(env, c, f);
    }
  }

  // ---------- One block ----------

  /** Reading at d the block that was written at e gives the fields back and leaves the tables in step. */
  ghost predicate Delivers(env: Env, e: Contents, d: Contents, fields: seq<Field>) {
    var (block, after) := Encoded(env, e, fields);
    match DecodeRest(env, d, block, false)
    case None => false
    case Some(effect) => effect.fields == fields && InStep(after, effect.table) && (e == d ==> effect.table == after)
  }

  lemma BlockIsExact(env: Env, e: Contents, d: Contents, fields: seq<Field>)
    requires Sound(env) && InStep(e, d)
    ensures Delivers(env, e, d, fields) <==> AllTransmissible(env, ChooseAll(env, e, fields))
    ensures DecodeRest(env, d, Encoded(env, e, fields).0, false).Some?
       <==> AllTransmissible(env, ChooseAll(env, e, fields))
  {
    ChosenDenotes(env, e, d, fields, false);
    EncodedIsSerialized(env, e, fields);
    DecodeSerialized(env, d, ChooseAll(env, e, fields), false);
    hide Encoded, DecodeRest, Denote, ChooseAll, InStep, AllTransmissible, SerializeAll;
  }

  /** Every block of short fields is delivered, whatever SETTINGS allowed the table. */
  lemma ShortBlocksAreDelivered(env: Env, e: Contents, d: Contents, fields: seq<Field>)
    requires Sound(env) && InStep(e, d) && e.max <= MAX_TABLE_SIZE && AllShort(env, fields)
    ensures Delivers(env, e, d, fields)
  {
    BlockIsExact(env, e, d, fields);
    ShortIsTransmissible(env, e, fields);
  }

  /**
    A block is delivered if and only if its fields are short, and refused otherwise. An encoder's limit starts at 4096
    and is never raised, so its table cannot hold a field that is not.
   */
  lemma BlockRoundTrip(env: Env, e: Contents, d: Contents, fields: seq<Field>)
    requires Sound(env) && InStep(e, d) && e.max <= MAX_STRING_LEN
    ensures Delivers(env, e, d, fields) <==> AllShort(env, fields)
    ensures !AllShort(env, fields) ==> DecodeRest(env, d, Encoded(env, e, fields).0, false) == None
  {
    BlockIsExact(env, e, d, fields);
    if AllShort(env, fields) {
      ShortIsTransmissible(env, e, fields);
    } else {
      LongIsNotTransmissible(env, e, fields);
    }
  }

  // ---------- A connection ----------

  datatype Event = Send(fields: seq<Field>) | EncoderCeiling(n: nat) | DecoderCeiling(n: nat)

  /** The two ends, and what the decoder has handed up. Failed once a block was refused. */
  datatype Session = Session(encoder: Contents, decoder: Contents, received: seq<seq<Field>>) | Failed

  const FRESH := Contents([], DEFAULT_SIZE, DEFAULT_SIZE)

  ghost function Happen(env: Env, s: Session, event: Event): Session {
    if s.Failed? then s
    else
      match event
      case EncoderCeiling(n) => Session(AfterCeiling(s.encoder, n), s.decoder, s.received)
      case DecoderCeiling(n) => Session(s.encoder, AfterCeiling(s.decoder, n), s.received)
      case Send(fields) =>
        var (block, after) := Encoded(env, s.encoder, fields);
        match DecodeRest(env, s.decoder, block, false)
        case None => Failed
        case Some(effect) => Session(after, effect.table, s.received + [effect.fields])
  }

  ghost function Connection(env: Env, events: seq<Event>): Session {
    if events == [] then Session(FRESH, FRESH, [])
    else Happen(env, Connection(env, events[..|events| - 1]), events[|events| - 1])
  }

  ghost function Sent(events: seq<Event>): seq<seq<Field>> {
    if events == [] then []
    else
      var before, last := Sent(events[..|events| - 1]), events[|events| - 1];
      if last.Send? then before + [last.fields] else before
  }

  /** Every field of every block is short. */
  ghost predicate AllSentShort(env: Env, events: seq<Event>) {
    forall k | 0 <= k < |events| && events[k].Send? :: AllShort(env, events[k].fields)
  }

  /**
    The decoder's limit never goes below the encoder's: whoever lowers the limit by SETTINGS applies it after the
    encoder has, as the acknowledgement of SETTINGS arranges.
   */
  ghost predicate InOrder(env: Env, events: seq<Event>) {
    forall k | 0 <= k < |events| && events[k].DecoderCeiling? && Connection(env, events[..k]).Session? ::
      Allows(Connection(env, events[..k]).encoder, events[k].n)
  }

  lemma {:induction false} EncodedKeepsMax(env: Env, c: Contents, fields: seq<Field>)
    ensures Encoded(env, c, fields).1.max == c.max
    decreases |fields|
  {
    if fields != [] {
      hide Serialize, Choose, ExactIndex, Fit;
      EncodedKeepsMax(env, AfterChoice(env, c, fields[0]), fields[1..]);
    }
  }

  lemma CeilingsKeepInStep(e: Contents, d: Contents, n: nat)
    requires InStep(e, d)
    ensures InStep(AfterCeiling(e, n), d)
    ensures Allows(e, n) ==> InStep(e, AfterCeiling(d, n))
  {
    var low, high := if e.max > n then n else e.max, if d.max > n then n else d.max;
    FitIsLongestFitting(e.entries, low);
    FitIsLongestFitting(d.entries, high);
    FitKeepsNoneSensitive(d.entries, high);
    EntriesAreFew(e.entries);
    assert e.entries == d.entries[..|e.entries|];
  }

  /** Once a block is refused the connection is over. */
  lemma {:induction false} FailedForGood(env: Env, events: seq<Event>, k: nat)
    requires k <= |events| && Connection(env, events[..k]).Failed?
    ensures Connection(env, events).Failed?
    decreases |events|
  {
    hide Encoded, DecodeRest;
    if k == |events| {
      assert events[..k] == events;
    } else {
      var before := events[..|events| - 1];
      assert before[..k] == events[..k];
      FailedForGood(env, before, k);
    }
  }

  /** One event on a connection that is in step. */
  lemma EventKeepsInStep(env: Env, s: Session, event: Event)
    requires Sound(env) && s.Session? && InStep(s.encoder, s.decoder) && s.encoder.max <= DEFAULT_SIZE
    requires event.DecoderCeiling? ==> Allows(s.encoder, event.n)
    ensures var t := Happen(env, s, event);
      if event.Send? && !AllShort(env, event.fields) then t.Failed?
      else
        && t.Session? && InStep(t.encoder, t.decoder) && t.encoder.max <= DEFAULT_SIZE
        && t.received == if event.Send? then s.received + [event.fields] else s.received
  {
    hide Encoded, DecodeRest, InStep, Sound, AllShort, Allows;
    match event
    case Send(fields) =>
      BlockRoundTrip(env, s.encoder, s.decoder, fields);
      EncodedKeepsMax(env, s.encoder, fields);
    case EncoderCeiling(n) => CeilingsKeepInStep(s.encoder, s.decoder, n);
    case DecoderCeiling(n) => CeilingsKeepInStep(s.encoder, s.decoder, n);
  }

  lemma Before(env: Env, events: seq<Event>)
    requires events != [] && InOrder(env, events)
    ensures var before, last := events[..|events| - 1], events[|events| - 1];
      && InOrder(env, before)
      && (AllSentShort(env, events) <==> AllSentShort(env, before) && (last.Send? ==> AllShort(env, last.fields)))
      && (last.DecoderCeiling? && Connection(env, before).Session? ==> Allows(Connection(env, before).encoder, last.n))
  {
    hide Connection, AllShort, Allows;
    var before, last := events[..|events| - 1], events[|events| - 1];
    forall k | 0 <= k < |before| ensures before[k] == events[k] && before[..k] == events[..k] {
    }
    if AllSentShort(env, before) && (last.Send? ==> AllShort(env, last.fields)) {
      forall k | 0 <= k < |events| && events[k].Send? ensures AllShort(env, events[k].fields) {
        assert k == |before| || events[k] == before[k];
      }
    }
  }

  /**
    Over every connection on which limits are lowered in order: every block arrives as it was sent, if and only if every
    field is short. The first block with a field that is not ends it.
   */
  lemma {:induction false} EveryBlockArrives(env: Env, events: seq<Event>)
    requires Sound(env) && InOrder(env, events)
    ensures var s := Connection(env, events);
      if AllSentShort(env, events) then
        s.Session? && s.received == Sent(events) && InStep(s.encoder, s.decoder) && s.encoder.max <= DEFAULT_SIZE
      else s.Failed?
  {
    if events == [] {
      assert Total([]) == 0;
    } else {
      var before, last := events[..|events| - 1], events[|events| - 1];
      Before(env, events);
      EveryBlockArrives(env, before);
      hide InOrder, Happen, InStep, Sound, AllShort, AllSentShort, Allows;
      if AllSentShort(env, before) {
        EventKeepsInStep(env, Connection(env, before), last);
      } else {
        FailedForGood(env, events, |before|);
      }
    }
  }

  // ---------- Why the decoder may not go first ----------

  lemma OneField(env: Env, e: Contents, d: Contents, f: Field)
    requires Lawful(env.huffman)
    ensures WellFormed(Choose(env, e, f)) && !Choose(env, e, f).SizeUpdate?
    ensures Encoded(env, e, [f]).1 == AfterChoice(env, e, f)
    ensures DecodeRest(env, d, Encoded(env, e, [f]).0, false)
         == if Transmissible(env, Choose(env, e, f)) then Execute(env, d, Choose(env, e, f)) else None
  {
    var instr := Choose(env, e, f);
    assert WellFormed(instr) && !instr.SizeUpdate?;
    hide Choose, AfterChoice, Execute, Transmissible, Serialize, Lawful, WellFormed;
    assert ChooseAll(env, AfterChoice(env, e, f), []) == [];
    assert [f][1..] == [] && [instr][1..] == [] && [instr] + [] == [instr];
    EncodedIsSerialized(env, e, [f]);
    DecodeSerialized(env, d, [instr], false);
    if Execute(env, d, instr).Some? {
      var effect := Execute(env, d, instr).value;
      assert effect.fields + [] == effect.fields;
    }
  }

  /** The tables agree as far as the decoder's goes. */
  ghost predicate Agree(e: Contents, d: Contents) {
    forall i | 0 <= i < |e.entries| && i < |d.entries| :: e.entries[i] == d.entries[i]
  }

  ghost predicate Newest(c: Contents, f: Field) {
    c.entries != [] && c.entries[0] == f
  }

  /**
    A field that fits the encoder's limit and not the decoder's is in the one table already, and not in the other,
    or is about to be the newest there.
   */
  lemma OneSidedField(env: Env, e: Contents, d: Contents, f: Field)
    requires Agree(e, d) && Total(d.entries) <= d.max < EntrySize(f) <= e.max
    requires !f.sensitive && FirstExact(env.statics, f.name, f.value) == 0
    ensures ExactIndex(env, e, f) > 0 ==> Execute(env, d, Choose(env, e, f)) == None
    ensures ExactIndex(env, e, f) == 0 ==> Newest(AfterChoice(env, e, f), f)
  {
    ExactMatches(e.entries, f.name, f.value);
    forall i | 0 <= i < |d.entries| ensures EntrySize(d.entries[i]) <= d.max {
      EntryWithinTotal(d.entries, i);
    }
    assert Newest(AfterAdd(e, f), f);
    hide Total, FirstExact, Fit, ChooseName, Shorter;
  }

  /** What a decoder makes of a literal for a field too large for its table: that field, and an empty table. */
  lemma TooLargeToKeep(env: Env, e: Contents, d: Contents, f: Field)
    requires Agree(e, d) && d.max < EntrySize(f) && !f.sensitive && ExactIndex(env, e, f) == 0
    ensures var r := Execute(env, d, Choose(env, e, f)); r == None || r.value.table.entries == []
  {
    NamedMatches(env.statics, f.name);
    NamedMatches(e.entries, f.name);
    hide FirstNamed, FirstExact, ExactIndex, Data;
    assert ([f] + d.entries)[0] == f;
  }

  /**
    A field that fits the encoder's limit and not the decoder's: it is refused, or it enters the one table and
    empties the other.
   */
  lemma KeptAtOneEnd(env: Env, e: Contents, d: Contents, f: Field)
    requires Lawful(env.huffman) && Agree(e, d) && Total(d.entries) <= d.max < EntrySize(f) <= e.max
    requires !f.sensitive && FirstExact(env.statics, f.name, f.value) == 0
    ensures var r := DecodeRest(env, d, Encoded(env, e, [f]).0, false);
      r == None || (r.value.table.entries == [] && Newest(Encoded(env, e, [f]).1, f))
  {
    OneField(env, e, d, f);
    OneSidedField(env, e, d, f);
    if ExactIndex(env, e, f) == 0 {
      TooLargeToKeep(env, e, d, f);
    }
    hide DecodeRest, Encoded, Execute, Choose, AfterChoice, ExactIndex, Transmissible, Agree, Total, EntrySize,
        FirstExact,
         Lawful, Newest;
  }

  lemma IndexedButGone(env: Env, e: Contents, d: Contents, f: Field)
    requires Newest(e, f) && d.entries == [] && !f.sensitive && FirstExact(env.statics, f.name, f.value) == 0
    ensures Execute(env, d, Choose(env, e, f)) == None
  {
    assert FirstExact(e.entries, f.name, f.value) == 1;
    hide FirstExact, ChooseName, Shorter;
  }

  lemma LoweredDecoder(e: Contents, d: Contents, n: nat)
    requires InStep(e, d) && !Allows(e, n)
    ensures var lowered := AfterCeiling(d, n); Agree(e, lowered) && Total(lowered.entries) <= lowered.max == n
  {
    FitIsLongestFitting(d.entries, n);
  }

  /**
    The order matters in every state. If the decoder's limit is lowered below what the encoder still uses, a field
    between
    the two limits, sent twice, ends the connection.
   */
  lemma LoweringFirstLosesABlock(env: Env, s: Session, n: nat, f: Field)
    requires Sound(env) && s.Session? && InStep(s.encoder, s.decoder) && !Allows(s.encoder, n)
    requires n < EntrySize(f) <= s.encoder.max
    requires !f.sensitive && FirstExact(env.statics, f.name, f.value) == 0
    ensures Happen(env, Happen(env, Happen(env, s, DecoderCeiling(n)), Send([f])), Send([f])) == Failed
  {
    var e, d := s.encoder, AfterCeiling(s.decoder, n);
    LoweredDecoder(e, s.decoder, n);
    KeptAtOneEnd(env, e, d, f);
    var r := DecodeRest(env, d, Encoded(env, e, [f]).0, false);
    if r.Some? {
      var after := Encoded(env, e, [f]).1;
      OneField(env, after, r.value.table, f);
      IndexedButGone(env, after, r.value.table, f);
    }
    hide DecodeRest, Encoded, Execute, Choose, AfterCeiling, AfterChoice, InStep, Sound, FirstExact, EntrySize,
        Newest, Allows;
  }

  /**
    There always is such a field, of the size of the encoder's limit: with a name of one octet, which the static table
    does not have, or, where the limit is too small for a name, without one. The codec takes that as well.
   */
  lemma SomeFieldIsLost(env: Env, s: Session, n: nat) returns (f: Field)
    requires Sound(env) && s.Session? && InStep(s.encoder, s.decoder) && !Allows(s.encoder, n)
    requires s.encoder.max <= MAX_STRING_LEN
    ensures AllShort(env, [f]) && (s.encoder.max > ENTRY_OVERHEAD ==> f.name != [])
    ensures Happen(env, Happen(env, Happen(env, s, DecoderCeiling(n)), Send([f])), Send([f])) == Failed
  {
    var name: seq<byte> := if s.encoder.max > ENTRY_OVERHEAD then [0x78] else [];
    f := Field(name, seq(s.encoder.max - ENTRY_OVERHEAD - |name|, i => 0), false);
    NotFound(env.statics, f.name, f.value);
    hide Happen, InStep, Lawful;
    LoweringFirstLosesABlock(env, s, n, f);
  }

  ghost function SendAll(env: Env, s: Session, blocks: seq<seq<Field>>): Session {
    if blocks == [] then s else Happen(env, SendAll(env, s, blocks[..|blocks| - 1]), Send(blocks[|blocks| - 1]))
  }

  ghost predicate AllBlocksShort(env: Env, blocks: seq<seq<Field>>) {
    forall i | 0 <= i < |blocks| :: AllShort(env, blocks[i])
  }

  /** Whatever short fields are sent from here on, every block arrives. */
  ghost predicate Survives(env: Env, s: Session) {
    forall blocks | AllBlocksShort(env, blocks) :: SendAll(env, s, blocks).Session?
  }

  lemma ShortBlockKeepsInStep(env: Env, s: Session, block: seq<Field>)
    requires Sound(env) && s.Session? && InStep(s.encoder, s.decoder) && s.encoder.max <= MAX_STRING_LEN
              && AllShort(env, block)
    ensures var t := Happen(env, s, Send(block));
      t.Session? && InStep(t.encoder, t.decoder) && t.encoder.max == s.encoder.max && t.received == s.received + [block]
  {
    hide Encoded, DecodeRest, InStep, Sound, AllShort;
    ShortBlocksAreDelivered(env, s.encoder, s.decoder, block);
    EncodedKeepsMax(env, s.encoder, block);
  }

  lemma {:induction false} InStepSurvives(env: Env, s: Session, blocks: seq<seq<Field>>)
    requires Sound(env) && s.Session? && InStep(s.encoder, s.decoder) && s.encoder.max <= MAX_STRING_LEN
    requires AllBlocksShort(env, blocks)
    ensures var t := SendAll(env, s, blocks);
      t.Session? && InStep(t.encoder, t.decoder) && t.encoder.max == s.encoder.max && t.received == s.received + blocks
    decreases |blocks|
  {
    hide Happen, InStep, Sound, AllShort;
    if blocks == [] {
      assert s.received + [] == s.received;
    } else {
      var before, last := blocks[..|blocks| - 1], blocks[|blocks| - 1];
      assert AllBlocksShort(env, before) && AllShort(env, last);
      assert blocks == before + [last] && s.received + before + [last] == s.received + blocks;
      hide AllBlocksShort;
      InStepSurvives(env, s, before);
      ShortBlockKeepsInStep(env, SendAll(env, s, before), last);
    }
  }

  lemma TwiceIsAll(env: Env, s: Session, block: seq<Field>)
    ensures SendAll(env, s, [block, block]) == Happen(env, Happen(env, s, Send(block)), Send(block))
  {
    hide Happen;
    assert [block, block][..1] == [block] && [block][..0] == [];
    assert SendAll(env, s, [block]) == Happen(env, SendAll(env, s, []), Send(block));
  }

  /**
    The exact condition, in every state a connection can be in: after the decoder's limit is lowered to n every block of
    short fields still arrives, whatever is sent, if and only if n allows the encoder's limit.
   */
  lemma LoweringIsSafeExactly(env: Env, s: Session, n: nat)
    requires Sound(env) && s.Session? && InStep(s.encoder, s.decoder) && s.encoder.max <= MAX_STRING_LEN
    ensures Survives(env, Happen(env, s, DecoderCeiling(n))) <==> Allows(s.encoder, n)
  {
    var t := Happen(env, s, DecoderCeiling(n));
    if Allows(s.encoder, n) {
      CeilingsKeepInStep(s.encoder, s.decoder, n);
      hide InStep, Sound, SendAll, AllBlocksShort;
      forall blocks | AllBlocksShort(env, blocks) ensures SendAll(env, t, blocks).Session? {
        InStepSurvives(env, t, blocks);
      }
    } else {
      hide InStep, Sound, SendAll, AllShort, Allows;
      var f := SomeFieldIsLost(env, s, n);
      TwiceIsAll(env, t, [f]);
      assert AllBlocksShort(env, [[f], [f]]);
    }
  }
}
