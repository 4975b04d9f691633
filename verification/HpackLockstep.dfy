/**
  The two ends of an HPACK connection stay in lockstep. A decoded block means what its instructions denote,
  whatever octets it is, and what the encoder writes decodes to the fields it was given and to its own table.
 */
module HpackLockstep {
  import opened Octets
  import opened H2
  import opened DynamicTable
  import opened HpackPrimitives
  import opened HpackCodec

  // ---------- Serialising and parsing one instruction ----------

  /** A name index of zero is how an inline name is announced, so it is no index. */
  ghost predicate WellFormed(instr: Instr) {
    instr.Literal? && instr.name.ByIndex? ==> instr.name.index > 0
  }

  /** Every integer of the instruction is at most 2^32 and every string at most 2^24 octets on the wire. */
  ghost predicate Transmissible(env: Env, instr: Instr) {
    match instr
    case Indexed(index) => index <= MAX_INT_VALUE
    case SizeUpdate(max) => max <= MAX_INT_VALUE
    case Literal(_, name, value) => NameTransmissible(env, name) && |Data(env.huffman, value)| <= MAX_STRING_LEN
  }

  ghost predicate NameTransmissible(env: Env, name: Name) {
    match name
    case ByIndex(index) => index <= MAX_INT_VALUE
    case Inline(str) => |Data(env.huffman, str)| <= MAX_STRING_LEN
  }

  lemma NameRoundTrip(env: Env, mode: Mode, name: Name, rest: seq<byte>)
    requires Lawful(env.huffman) && (name.ByIndex? ==> name.index > 0)
    ensures ParseName(env, SerializeName(env, mode, name) + rest, LiteralFlags(mode).1)
         == if NameTransmissible(env, name) then Some(Read(name, |SerializeName(env, mode, name)|)) else None
  {
    var (flags, prefix) := LiteralFlags(mode);
    var wire := SerializeName(env, mode, name);
    match name
    case ByIndex(index) => IntRoundTrip(flags, prefix, index, rest);
    case Inline(str) =>
      var head, text := EncodeInt(flags, prefix, 0), EncodeString(env.huffman, str);
      hide EncodeInt, DecodeInt, EncodeString, DecodeString, Lawful;
      assert wire + rest == head + (text + rest);
      IntRoundTrip(flags, prefix, 0, text + rest);
      assert (wire + rest)[|head|..] == text + rest;
      StringRoundTrip(env.huffman, str, rest);
  }

  lemma NameFails(env: Env, src: seq<byte>, mode: Mode)
    requires ParseName(env, src, LiteralFlags(mode).1) == None
    ensures ParseLiteral(env, src, mode) == None
  {
  }

  lemma NameThenValue(env: Env, src: seq<byte>, mode: Mode, name: Name, n: nat, tail: seq<byte>)
    requires ParseName(env, src, LiteralFlags(mode).1) == Some(Read(name, n)) && src[n..] == tail
    ensures match DecodeString(env.huffman, tail)
            case None => ParseLiteral(env, src, mode) == None
            case Some(value) =>
              ParseLiteral(env, src, mode) == Some(Read(Literal(mode, name, value.value), n + value.consumed))
  {
    hide ParseName, DecodeString;
  }

  lemma Parts(head: seq<byte>, text: seq<byte>, rest: seq<byte>)
    ensures head + text + rest == head + (text + rest) && (head + text + rest)[|head|..] == text + rest
  {
  }

  lemma LiteralRoundTrip(env: Env, instr: Instr, rest: seq<byte>)
    requires Lawful(env.huffman) && instr.Literal? && WellFormed(instr)
    ensures ParseLiteral(env, Serialize(env, instr) + rest, instr.mode)
         == if Transmissible(env, instr) then Some(Read(instr, |Serialize(env, instr)|)) else None
  {
    var head, text := SerializeName(env, instr.mode, instr.name), EncodeString(env.huffman, instr.value);
    hide SerializeName, ParseName, EncodeString, DecodeString, Lawful, NameTransmissible, ParseLiteral, Data,
        LiteralFlags;
    Parts(head, text, rest);
    NameRoundTrip(env, instr.mode, instr.name, text + rest);
    StringRoundTrip(env.huffman, instr.value, rest);
    var src := head + text + rest;
    if NameTransmissible(env, instr.name) {
      NameThenValue(env, src, instr.mode, instr.name, |head|, text + rest);
    } else {
      NameFails(env, src, instr.mode);
    }
  }

  function AtMost(i: nat, n: nat): nat {
    if i < n then i else n
  }

  /** The number in front of a literal: the index of its name, or zero before a name that is spelled. */
  function Announced(name: Name): nat {
    match name
    case ByIndex(index) => index
    case Inline(_) => 0
  }

  /**
    The first octet of each representation, as section 6 of RFC 7541 lays it out: the bits that say which one it is, and
    below them the number, or all ones if it does not fit there.
   */
  lemma FirstOctet(env: Env, instr: Instr)
    ensures Serialize(env, instr)[0] ==
            match instr
            case Indexed(index) => 128 + AtMost(index, 127)
            case Literal(Incremental, name, _) => 64 + AtMost(Announced(name), 63)
            case SizeUpdate(max) => 32 + AtMost(max, 31)
            case Literal(NeverIndexed, name, _) => 16 + AtMost(Announced(name), 15)
            case Literal(WithoutIndexing, name, _) => AtMost(Announced(name), 15)
  {
    hide Tail, EncodeString;
  }

  /** An instruction is parsed back as itself if and only if its numbers and strings are in range. */
  lemma InstrRoundTrip(env: Env, instr: Instr, rest: seq<byte>)
    requires Lawful(env.huffman) && WellFormed(instr)
    ensures ParseInstr(env, Serialize(env, instr) + rest)
         == if Transmissible(env, instr) then Some(Read(instr, |Serialize(env, instr)|)) else None
  {
    FirstOctet(env, instr);
    hide EncodeInt, DecodeInt, SerializeName, EncodeString, ParseLiteral, Lawful;
    match instr
    case Indexed(index) => IntRoundTrip(0x80, P7, index, rest);
    case SizeUpdate(max) => IntRoundTrip(0x20, P5, max, rest);
    case Literal(_, _, _) =>
      LiteralRoundTrip(env, instr, rest);
      hide Serialize, Transmissible;
  }

  // ---------- A turn of the loop is one instruction ----------

  lemma TurnIsInstruction(env: Env, c: Contents, src: seq<byte>, sawField: bool)
    requires src != []
    ensures DecodeTurn(env, c, src, sawField) ==
            match ParseInstr(env, src)
            case None => None
            case Some(Read(instr, n)) =>
              if instr.SizeUpdate? && sawField then None
              else match Execute(env, c, instr)
                   case None => None
                   case Some(e) => Some(Turn(e.fields, e.table, n, sawField || !instr.SizeUpdate?))
  {
    hide DecodeInt, ParseName, DecodeString, Lookup, AfterAdd, AfterMax;
    ParsedLiteral(env, src, Incremental);
    ParsedLiteral(env, src, NeverIndexed);
    ParsedLiteral(env, src, WithoutIndexing);
    hide ParseLiteral;
  }

  lemma ParsedLiteral(env: Env, src: seq<byte>, mode: Mode)
    ensures ParseLiteral(env, src, mode).Some? ==>
              var instr := ParseLiteral(env, src, mode).value.value;
              instr.Literal? && instr.mode == mode && WellFormed(instr)
  {
  }

  ghost predicate AllWellFormed(instrs: seq<Instr>) {
    forall i | 0 <= i < |instrs| :: WellFormed(instrs[i])
  }

  ghost predicate AllTransmissible(env: Env, instrs: seq<Instr>) {
    forall i | 0 <= i < |instrs| :: Transmissible(env, instrs[i])
  }

  /**
    Decoding what was serialised is exactly what the instructions denote, fields and table both; and when
    some instruction is out of range the block is refused.
   */
  lemma {:induction false} DecodeSerialized(env: Env, c: Contents, instrs: seq<Instr>, sawField: bool)
    requires Lawful(env.huffman) && AllWellFormed(instrs)
    ensures DecodeRest(env, c, SerializeAll(env, instrs), sawField)
         == if AllTransmissible(env, instrs) then Denote(env, c, instrs, sawField) else None
    decreases |instrs|
  {
    if instrs != [] {
      var instr, rest := instrs[0], instrs[1..];
      var wire := SerializeAll(env, rest);
      var block := Serialize(env, instr) + wire;
      assert instrs == [instr] + rest;
      InstrRoundTrip(env, instr, wire);
      TurnIsInstruction(env, c, block, sawField);
      hide Serialize, Transmissible, WellFormed, ParseInstr, DecodeTurn, Execute, Lawful, Prepend;
      assert block[|Serialize(env, instr)|..] == wire;
      if Transmissible(env, instr) && !(instr.SizeUpdate? && sawField) {
        var e := Execute(env, c, instr);
        if e.Some? {
          DecodeSerialized(env, e.value.table, rest, sawField || !instr.SizeUpdate?);
          PrependNone(e.value.fields);
        }
      }
    }
  }

  lemma PrependNone(done: seq<Field>)
    ensures Prepend(done, None) == None
  {
  }

  /** Any block at all that decodes is the meaning of some list of instructions. */
  lemma {:induction false} DecodedHasMeaning(env: Env, c: Contents, block: seq<byte>, sawField: bool)
    returns (instrs: seq<Instr>)
    requires DecodeRest(env, c, block, sawField).Some?
    ensures AllWellFormed(instrs)
    ensures DecodeRest(env, c, block, sawField) == Denote(env, c, instrs, sawField)
    decreases |block|
  {
    if block == [] {
      instrs := [];
    } else {
      TurnIsInstruction(env, c, block, sawField);
      ParsedIsWellFormed(env, block);
      hide DecodeTurn, ParseInstr, Execute, Prepend, WellFormed;
      var instr, n := ParseInstr(env, block).value.value, ParseInstr(env, block).value.consumed;
      var e := Execute(env, c, instr).value;
      PrependNone(e.fields);
      var rest := DecodedHasMeaning(env, e.table, block[n..], sawField || !instr.SizeUpdate?);
      instrs := [instr] + rest;
      assert instrs[1..] == rest;
    }
  }

  lemma ParsedIsWellFormed(env: Env, src: seq<byte>)
    requires src != []
    ensures ParseInstr(env, src).Some? ==> WellFormed(ParseInstr(env, src).value.value)
  {
    ParsedLiteral(env, src, Incremental);
    ParsedLiteral(env, src, NeverIndexed);
    ParsedLiteral(env, src, WithoutIndexing);
    hide ParseLiteral, DecodeInt;
  }

  // ---------- What a successful block looks like ----------

  /** Size updates come first, and none exceeds the ceiling. */
  ghost predicate UpdatesFirst(instrs: seq<Instr>, ceiling: nat, sawField: bool) {
    forall i | 0 <= i < |instrs| && instrs[i].SizeUpdate? ::
      instrs[i].max <= ceiling && !sawField && forall j | 0 <= j < i :: instrs[j].SizeUpdate?
  }

  lemma {:induction false} SuccessMeansUpdatesFirst(env: Env, c: Contents, instrs: seq<Instr>, sawField: bool)
    requires Denote(env, c, instrs, sawField).Some?
    ensures UpdatesFirst(instrs, c.ceiling, sawField)
    decreases |instrs|
  {
    if instrs != [] {
      var e := Execute(env, c, instrs[0]).value;
      SuccessMeansUpdatesFirst(env, e.table, instrs[1..], sawField || !instrs[0].SizeUpdate?);
      hide Denote, AfterAdd, Lookup;
      forall i | 0 <= i < |instrs| && instrs[i].SizeUpdate?
        ensures instrs[i].max <= c.ceiling && !sawField && forall j | 0 <= j < i :: instrs[j].SizeUpdate?
      {
        if i > 0 {
          assert instrs[1..][i - 1] == instrs[i];
          assert forall j | 1 <= j < i :: instrs[j] == instrs[1..][j - 1];
        }
      }
    }
  }

  ghost predicate NoneSensitive(entries: seq<Field>) {
    forall i | 0 <= i < |entries| :: !entries[i].sensitive
  }

  lemma AddKeepsNoneSensitive(c: Contents, f: Field)
    requires NoneSensitive(c.entries) && !f.sensitive
    ensures NoneSensitive(AfterAdd(c, f).entries)
  {
    FitIsLongestFitting([f] + c.entries, c.max);
  }

  lemma FitKeepsNoneSensitive(entries: seq<Field>, max: nat)
    requires NoneSensitive(entries)
    ensures NoneSensitive(Fit(entries, max))
  {
    FitIsLongestFitting(entries, max);
  }

  /** Whatever a block says, no field marked sensitive ever enters the table. */
  lemma {:induction false} SensitiveIsNeverInserted(env: Env, c: Contents, instrs: seq<Instr>, sawField: bool)
    requires NoneSensitive(c.entries) && Denote(env, c, instrs, sawField).Some?
    ensures NoneSensitive(Denote(env, c, instrs, sawField).value.table.entries)
    decreases |instrs|
  {
    if instrs != [] {
      var e := Execute(env, c, instrs[0]).value;
      match instrs[0] {
        case Literal(mode, _, _) =>
          if mode == Incremental {
            AddKeepsNoneSensitive(c, e.fields[0]);
          }
        case SizeUpdate(max) => FitKeepsNoneSensitive(c.entries, max);
        case Indexed(_) =>
      }
      SensitiveIsNeverInserted(env, e.table, instrs[1..], sawField || !instrs[0].SizeUpdate?);
    }
  }

  /**
    What every block that decodes is: size updates first and within the ceiling, and nothing sensitive left in the
    table.
   */
  lemma DecodedBlocksAreWellBehaved(env: Env, c: Contents, block: seq<byte>)
    requires NoneSensitive(c.entries) && DecodeRest(env, c, block, false).Some?
    ensures NoneSensitive(DecodeRest(env, c, block, false).value.table.entries)
    ensures exists instrs ::
              Denote(env, c, instrs, false) == DecodeRest(env, c, block, false)
                  && UpdatesFirst(instrs, c.ceiling, false)
  {
    var instrs := DecodedHasMeaning(env, c, block, false);
    SuccessMeansUpdatesFirst(env, c, instrs, false);
    SensitiveIsNeverInserted(env, c, instrs, false);
  }
}
