/**
  HPACK header blocks: the five instructions of section 6 of RFC 7541, their wire forms, what they mean
  against a dynamic table, and the codec that decodes and encodes them.
 */
module HpackCodec {
  import opened Octets
  import opened H2
  import opened DynamicTable
  import opened HpackPrimitives

  const STATIC_ENTRIES := 61

  /** What does not change over a connection: the static table and the string code. */
  datatype Env = Env(statics: seq<Field>, huffman: Huffman)

  /**
    Every static entry has a name of two octets or more, none is sensitive, and none is too long for a string
    literal.
   */
  ghost predicate Sound(env: Env) {
    && |env.statics| == STATIC_ENTRIES
    && Lawful(env.huffman)
    && forall i | 0 <= i < |env.statics| ::
         |env.statics[i].name| >= 2 && !env.statics[i].sensitive && EntrySize(env.statics[i]) <= MAX_STRING_LEN
  }

  // ---------- Instructions ----------

  datatype Mode = Incremental | NeverIndexed | WithoutIndexing

  datatype Name = ByIndex(index: nat) | Inline(str: Str)

  datatype Instr =
    | Indexed(index: nat)
    | Literal(mode: Mode, name: Name, value: Str)
    | SizeUpdate(max: nat)

  function LiteralFlags(mode: Mode): (byte, Prefix) {
    match mode
    case Incremental => (0x40, P6)
    case NeverIndexed => (0x10, P4)
    case WithoutIndexing => (0x00, P4)
  }

  function SerializeName(env: Env, mode: Mode, name: Name): seq<byte> {
    var (flags, prefix) := LiteralFlags(mode);
    match name
    case ByIndex(index) => EncodeInt(flags, prefix, index)
    case Inline(str) => EncodeInt(flags, prefix, 0) + EncodeString(env.huffman, str)
  }

  function Serialize(env: Env, instr: Instr): (s: seq<byte>)
    ensures |s| >= 1
  {
    match instr
    case Indexed(index) => EncodeInt(0x80, P7, index)
    case Literal(mode, name, value) => SerializeName(env, mode, name) + EncodeString(env.huffman, value)
    case SizeUpdate(max) => EncodeInt(0x20, P5, max)
  }

  function SerializeAll(env: Env, instrs: seq<Instr>): seq<byte> {
    if instrs == [] then [] else Serialize(env, instrs[0]) + SerializeAll(env, instrs[1..])
  }

  /** The name part of a literal: an index, or zero and an inline string. */
  function ParseName(env: Env, src: seq<byte>, prefix: Prefix): (r: Option<Read<Name>>)
    ensures r.Some? ==> 1 <= r.value.consumed <= |src|
  {
    match DecodeInt(src, prefix)
    case None => None
    case Some(Read(index, n)) =>
      if index != 0 then Some(Read(ByIndex(index), n))
      else
        match DecodeString(env.huffman, src[n..])
        case None => None
        case Some(Read(str, m)) => Some(Read(Inline(str), n + m))
  }

  function ParseLiteral(env: Env, src: seq<byte>, mode: Mode): (r: Option<Read<Instr>>)
    ensures r.Some? ==> 1 <= r.value.consumed <= |src|
  {
    match ParseName(env, src, LiteralFlags(mode).1)
    case None => None
    case Some(Read(name, n)) =>
      match DecodeString(env.huffman, src[n..])
      case None => None
      case Some(Read(value, m)) => Some(Read(Literal(mode, name, value), n + m))
  }

  /** The instruction a block starts with. Its first octet's leading bits decide which of the five it is. */
  function ParseInstr(env: Env, src: seq<byte>): (r: Option<Read<Instr>>)
    requires src != []
    ensures r.Some? ==> 1 <= r.value.consumed <= |src|
  {
    var b := src[0];
    if b >= 0x80 then
      match DecodeInt(src, P7)
      case None => None
      case Some(Read(index, n)) => Some(Read(Indexed(index), n))
    else if b >= 0x40 then ParseLiteral(env, src, Incremental)
    else if b >= 0x20 then
      match DecodeInt(src, P5)
      case None => None
      case Some(Read(max, n)) => Some(Read(SizeUpdate(max), n))
    else if b >= 0x10 then ParseLiteral(env, src, NeverIndexed)
    else ParseLiteral(env, src, WithoutIndexing)
  }

  // ---------- Meaning ----------

  /** The combined index space: 1 to 61 is the static table, 62 and up the dynamic one, the newest first. */
  function Lookup(env: Env, c: Contents, index: nat): Option<Field> {
    if index == 0 then None
    else if index <= |env.statics| then Some(env.statics[index - 1])
    else if index - |env.statics| <= |c.entries| then Some(c.entries[index - |env.statics| - 1])
    else None
  }

  function NameText(env: Env, c: Contents, name: Name): Option<seq<byte>> {
    match name
    case Inline(str) => Some(str.text)
    case ByIndex(index) =>
      match Lookup(env, c, index)
      case None => None
      case Some(f) => Some(f.name)
  }

  /** What one instruction yields, and the table it leaves. */
  datatype Effect = Effect(fields: seq<Field>, table: Contents)

  function Execute(env: Env, c: Contents, instr: Instr): Option<Effect> {
    match instr
    case Indexed(index) =>
      (match Lookup(env, c, index)
       case None => None
       case Some(f) => Some(Effect([f], c)))
    case Literal(mode, name, value) =>
      (match NameText(env, c, name)
       case None => None
       case Some(text) =>
         var f := Field(text, value.text, mode == NeverIndexed);
         Some(Effect([f], if mode == Incremental then AfterAdd(c, f) else c)))
    case SizeUpdate(max) => if max <= c.ceiling then Some(Effect([], AfterMax(c, max))) else None
  }

  /** The fields a list of instructions denotes, started after a header field or not. */
  function Denote(env: Env, c: Contents, instrs: seq<Instr>, sawField: bool): Option<Effect>
    decreases |instrs|
  {
    if instrs == [] then Some(Effect([], c))
    else if instrs[0].SizeUpdate? && sawField then None
    else
      match Execute(env, c, instrs[0])
      case None => None
      case Some(first) =>
        Prepend(first.fields, Denote(env, first.table, instrs[1..], sawField || !instrs[0].SizeUpdate?))
  }

  // ---------- Decoding ----------

  /** A literal's field with its name resolved, not yet marked sensitive. */
  function LiteralField(env: Env, c: Contents, src: seq<byte>, mode: Mode): (r: Option<Read<Field>>)
    ensures r.Some? ==> 1 <= r.value.consumed <= |src|
  {
    match ParseLiteral(env, src, mode)
    case None => None
    case Some(Read(instr, n)) =>
      match NameText(env, c, instr.name)
      case None => None
      case Some(text) => Some(Read(Field(text, instr.value.text, false), n))
  }

  /**
    One turn of Decode's loop: what it appends, the table it leaves, the octets it took, and sawHeaderField after
    it.
   */
  datatype Turn = Turn(fields: seq<Field>, table: Contents, consumed: nat, sawField: bool)

  function DecodeTurn(env: Env, c: Contents, src: seq<byte>, sawField: bool): (r: Option<Turn>)
    requires src != []
    ensures r.Some? ==> 1 <= r.value.consumed <= |src|
  {
    var b := src[0];
    if b >= 0x80 then
      match DecodeInt(src, P7)
      case None => None
      case Some(Read(index, n)) =>
        match Lookup(env, c, index)
        case None => None
        case Some(f) => Some(Turn([f], c, n, true))
    else if b >= 0x40 then
      match LiteralField(env, c, src, Incremental)
      case None => None
      case Some(Read(f, n)) => Some(Turn([f], AfterAdd(c, f), n, true))
    else if b >= 0x20 then
      if sawField then None
      else
        match DecodeInt(src, P5)
        case None => None
        case Some(Read(max, n)) => if max > c.ceiling then None else Some(Turn([], AfterMax(c, max), n, sawField))
    else if b >= 0x10 then
      match LiteralField(env, c, src, NeverIndexed)
      case None => None
      case Some(Read(f, n)) => Some(Turn([f.(sensitive := true)], c, n, true))
    else
      match LiteralField(env, c, src, WithoutIndexing)
      case None => None
      case Some(Read(f, n)) => Some(Turn([f], c, n, true))
  }

  /** Decode on the octets that are left of a block. */
  function DecodeRest(env: Env, c: Contents, block: seq<byte>, sawField: bool): Option<Effect>
    decreases |block|
  {
    if block == [] then Some(Effect([], c))
    else
      match DecodeTurn(env, c, block, sawField)
      case None => None
      case Some(turn) => Prepend(turn.fields, DecodeRest(env, turn.table, block[turn.consumed..], turn.sawField))
  }

  function Prepend(done: seq<Field>, r: Option<Effect>): Option<Effect> {
    match r
    case None => None
    case Some(e) => Some(Effect(done + e.fields, e.table))
  }

  lemma PrependTwice(a: seq<Field>, b: seq<Field>, r: Option<Effect>)
    ensures Prepend(a, Prepend(b, r)) == Prepend(a + b, r)
  {
    if r.Some? {
      assert a + (b + r.value.fields) == a + b + r.value.fields;
    }
  }

  /** Decoding from position pos on, after the fields done so far, comes to goal. */
  ghost predicate Remains(env: Env, c: Contents, block: seq<byte>, pos: nat, sawField: bool, done: seq<Field>,
                          goal: Option<Effect>)
  {
    pos <= |block| && Prepend(done, DecodeRest(env, c, block[pos..], sawField)) == goal
  }

  /** What Decode returns for a block's effect, and the table it leaves when there is one. */
  ghost predicate Expands(effect: Option<Effect>, r: Option<seq<Field>>, table: Contents) {
    match effect
    case None => r == None
    case Some(e) => r == Some(e.fields) && table == e.table
  }

  lemma RemainsAtStart(env: Env, c: Contents, block: seq<byte>)
    ensures Remains(env, c, block, 0, false, [], DecodeRest(env, c, block, false))
  {
    assert block[0..] == block;
    PrependNothing(DecodeRest(env, c, block, false));
  }

  /** The turn from table c at position pos yields more, leaves table and sawAfter, and takes n octets. */
  ghost predicate Turns(env: Env, c: Contents, block: seq<byte>, pos: nat, sawField: bool,
                        more: seq<Field>, table: Contents, n: nat, sawAfter: bool)
  {
    pos < |block| && DecodeTurn(env, c, block[pos..], sawField) == Some(Turn(more, table, n, sawAfter))
  }

  ghost predicate Stops(env: Env, c: Contents, block: seq<byte>, pos: nat, sawField: bool) {
    pos < |block| && DecodeTurn(env, c, block[pos..], sawField) == None
  }

  lemma RemainsAfterTurn(env: Env, c: Contents, block: seq<byte>, pos: nat, sawField: bool, done: seq<Field>,
                         goal: Option<Effect>, more: seq<Field>, table: Contents, n: nat, sawAfter: bool)
    requires Remains(env, c, block, pos, sawField, done, goal)
    requires Turns(env, c, block, pos, sawField, more, table, n, sawAfter)
    ensures pos < pos + n <= |block| && Remains(env, table, block, pos + n, sawAfter, done + more, goal)
  {
    assert block[pos..][n..] == block[pos + n..];
    PrependTwice(done, more, DecodeRest(env, table, block[pos + n..], sawAfter));
  }

  lemma RemainsNothing(env: Env, c: Contents, block: seq<byte>, pos: nat, sawField: bool, done: seq<Field>,
                       goal: Option<Effect>, table: Contents)
    requires Remains(env, c, block, pos, sawField, done, goal) && Stops(env, c, block, pos, sawField)
    ensures Expands(goal, None, table)
  {
  }

  lemma RemainsAtEnd(env: Env, c: Contents, block: seq<byte>, sawField: bool, done: seq<Field>, goal: Option<Effect>)
    requires Remains(env, c, block, |block|, sawField, done, goal)
    ensures Expands(goal, Some(done), c)
  {
    assert block[|block|..] == [] && done + [] == done;
  }

  lemma PrependNothing(r: Option<Effect>)
    ensures Prepend([], r) == r
  {
    if r.Some? {
      assert [] + r.value.fields == r.value.fields;
    }
  }

  // ---------- The encoder's choice ----------

  /** The combined index of the first entry with this name and value, or zero. */
  function ExactIndex(env: Env, c: Contents, f: Field): nat {
    var s := FirstExact(env.statics, f.name, f.value);
    if s > 0 then s
    else
      var d := FirstExact(c.entries, f.name, f.value);
      if d > 0 then |env.statics| + d else 0
  }

  function NameIndex(env: Env, c: Contents, name: seq<byte>): nat {
    var s := FirstNamed(env.statics, name);
    if s > 0 then s
    else
      var d := FirstNamed(c.entries, name);
      if d > 0 then |env.statics| + d else 0
  }

  function ChooseName(env: Env, c: Contents, name: seq<byte>): Name {
    var index := NameIndex(env, c, name);
    if index > 0 then ByIndex(index) else Inline(Shorter(env.huffman, name))
  }

  /** A sensitive field is never indexed; a field in a table is one index; any other is inserted for next time. */
  function Choose(env: Env, c: Contents, f: Field): Instr {
    if f.sensitive then Literal(NeverIndexed, ChooseName(env, c, f.name), Shorter(env.huffman, f.value))
    else if ExactIndex(env, c, f) > 0 then Indexed(ExactIndex(env, c, f))
    else Literal(Incremental, ChooseName(env, c, f.name), Shorter(env.huffman, f.value))
  }

  function AfterChoice(env: Env, c: Contents, f: Field): Contents {
    if !f.sensitive && ExactIndex(env, c, f) == 0 then AfterAdd(c, f) else c
  }

  /** The block for a list of fields, and the encoder's table after it. */
  function Encoded(env: Env, c: Contents, fields: seq<Field>): (seq<byte>, Contents)
    decreases |fields|
  {
    if fields == [] then ([], c)
    else
      var (rest, after) := Encoded(env, AfterChoice(env, c, fields[0]), fields[1..]);
      (Serialize(env, Choose(env, c, fields[0])) + rest, after)
  }

  // ---------- The combined index space ----------

  /** Both tables as one list, which an index counts from one: the static table, then the dynamic one. */
  ghost function Combined(env: Env, c: Contents): seq<Field> {
    env.statics + c.entries
  }

  /** An index refers to the entry it counts to, and to none if it is zero or past the end. */
  ghost function At(all: seq<Field>, index: nat): Option<Field> {
    if 1 <= index <= |all| then Some(all[index - 1]) else None
  }

  lemma LookupIsCombined(env: Env, c: Contents, index: nat)
    ensures Lookup(env, c, index) == At(Combined(env, c), index)
  {
  }

  ghost predicate Matches(e: Field, name: seq<byte>, value: Option<seq<byte>>) {
    e.name == name && (value.Some? ==> e.value == value.value)
  }

  /** The index of the first entry that matches, or zero if none does. */
  ghost predicate IsFirst(all: seq<Field>, name: seq<byte>, value: Option<seq<byte>>, index: nat) {
    && index <= |all|
    && (index > 0 ==> Matches(all[index - 1], name, value))
    && forall j | 0 <= j < (if index > 0 then index - 1 else |all|) :: !Matches(all[j], name, value)
  }

  lemma {:induction false} ExactIsFirst(entries: seq<Field>, name: seq<byte>, value: seq<byte>)
    ensures IsFirst(entries, name, Some(value), FirstExact(entries, name, value))
  {
    if entries != [] && !Matches(entries[0], name, Some(value)) {
      ExactIsFirst(entries[1..], name, value);
      assert forall j | 1 <= j < |entries| :: entries[j] == entries[1..][j - 1];
    }
  }

  lemma {:induction false} NamedIsFirst(entries: seq<Field>, name: seq<byte>)
    ensures IsFirst(entries, name, None, FirstNamed(entries, name))
  {
    if entries != [] && !Matches(entries[0], name, None) {
      NamedIsFirst(entries[1..], name);
      assert forall j | 1 <= j < |entries| :: entries[j] == entries[1..][j - 1];
    }
  }

  lemma FirstOfBoth(a: seq<Field>, b: seq<Field>, name: seq<byte>, value: Option<seq<byte>>, i: nat, j: nat)
    requires IsFirst(a, name, value, i) && IsFirst(b, name, value, j)
    ensures IsFirst(a + b, name, value, if i > 0 then i else if j > 0 then |a| + j else 0)
  {
    hide Matches;
  }

  /** The encoder's searches find the least index of both tables together. */
  lemma SearchesFindTheFirst(env: Env, c: Contents, f: Field)
    ensures IsFirst(Combined(env, c), f.name, Some(f.value), ExactIndex(env, c, f))
    ensures IsFirst(Combined(env, c), f.name, None, NameIndex(env, c, f.name))
  {
    ExactIsFirst(env.statics, f.name, f.value);
    ExactIsFirst(c.entries, f.name, f.value);
    NamedIsFirst(env.statics, f.name);
    NamedIsFirst(c.entries, f.name);
    hide FirstExact, FirstNamed, IsFirst;
    FirstOfBoth(env.statics, c.entries, f.name, Some(f.value), FirstExact(env.statics, f.name, f.value),
        FirstExact(c.entries, f.name, f.value));
    FirstOfBoth(env.statics, c.entries, f.name, None, FirstNamed(env.statics, f.name), FirstNamed(c.entries, f.name));
  }

  // ---------- The class ----------

  /** The map gives each name of the static table the least index it stands at. */
  ghost predicate IndexesNames(names: map<seq<byte>, nat>, statics: seq<Field>) {
    && (forall name :: FirstNamed(statics, name) == if name in names then names[name] else 0)
    && forall name | name in names :: names[name] > 0
  }

  method BuildNameIndex(statics: seq<Field>) returns (names: map<seq<byte>, nat>)
    ensures IndexesNames(names, statics)
  {
    names := map[];
    for i := 0 to |statics|
      invariant IndexesNames(names, statics[..i])
    {
      ghost var before := names;
      if statics[i].name !in names {
        names := names[statics[i].name := i + 1];
      }
      forall name ensures FirstNamed(statics[..i + 1], name) == if name in names then names[name] else 0 {
        FirstNamedSnoc(statics[..i], statics[i], name);
        assert statics[..i + 1] == statics[..i] + [statics[i]];
        assert FirstNamed(statics[..i], name) == if name in before then before[name] else 0;
      }
    }
    assert statics[..|statics|] == statics;
  }

  class Codec {
    const env: Env
    const names: map<seq<byte>, nat>
    const dyn: Table

    /** The index of the static table's names is right. */
    ghost predicate Indexed() {
      IndexesNames(names, env.statics)
    }

    constructor (env: Env)
      ensures Indexed() && dyn.Valid() && fresh(dyn) && this.env == env
      ensures dyn.Value() == Contents([], DEFAULT_SIZE, DEFAULT_SIZE)
    {
      var index := BuildNameIndex(env.statics);
      this.env, names := env, index;
      dyn := new Table();
    }

    method LookupIndexed(index: nat) returns (r: Option<Field>)
      ensures r == Lookup(env, dyn.Value(), index) == At(Combined(env, dyn.Value()), index)
    {
      if index == 0 {
        return None;
      }
      if index <= |env.statics| {
        return Some(env.statics[index - 1]);
      }
      var f, ok := dyn.Get(index - |env.statics|);
      if !ok {
        return None;
      }
      return Some(f);
    }

    /** The shape the three literal representations share. It reads the dynamic table and does not touch it. */
    method DecodeLiteral(src: seq<byte>, mode: Mode) returns (r: Option<Read<Field>>)
      ensures r == LiteralField(env, dyn.Value(), src, mode)
    {
      hide DecodeInt, DecodeString, Lookup;
      var index := DecodeInt(src, LiteralFlags(mode).1);
      if index.None? {
        return None;
      }
      var pos := index.value.consumed;
      var name;
      if index.value.value == 0 {
        var s := DecodeString(env.huffman, src[pos..]);
        if s.None? {
          return None;
        }
        name := s.value.value.text;
        pos := pos + s.value.consumed;
      } else {
        var f := LookupIndexed(index.value.value);
        if f.None? {
          return None;
        }
        name := f.value.name;
      }
      var value := DecodeString(env.huffman, src[pos..]);
      if value.None? {
        return None;
      }
      return Some(Read(Field(name, value.value.value.text, false), pos + value.value.consumed));
    }

    /** The body of Decode's loop: the dispatch on the leading bits of the instruction's first octet. */
    method Dispatch(block: seq<byte>, pos: nat, sawHeaderField: bool)
      returns (ok: bool, fields: seq<Field>, n: nat, saw: bool)
      requires dyn.Valid() && pos < |block|
      modifies dyn
      ensures dyn.Valid()
      ensures ok ==> Turns(env, old(dyn.Value()), block, pos, sawHeaderField, fields, dyn.Value(), n, saw)
      ensures !ok ==> Stops(env, old(dyn.Value()), block, pos, sawHeaderField)
    {
      var src := block[pos..];
      hide LiteralField, DecodeInt, Lookup, AfterAdd, AfterMax;
      var b := src[0];
      if b >= 0x80 {
        var index := DecodeInt(src, P7);
        if index.None? {
          return false, [], 0, false;
        }
        var f := LookupIndexed(index.value.value);
        if f.None? {
          return false, [], 0, false;
        }
        return true, [f.value], index.value.consumed, true;
      } else if b >= 0x40 {
        var f := DecodeLiteral(src, Incremental);
        if f.None? {
          return false, [], 0, false;
        }
        dyn.Add(f.value.value);
        return true, [f.value.value], f.value.consumed, true;
      } else if b >= 0x20 {
        if sawHeaderField {
          return false, [], 0, false;
        }
        var size := DecodeInt(src, P5);
        if size.None? {
          return false, [], 0, false;
        }
        var fits := dyn.SetMax(size.value.value);
        return fits, [], size.value.consumed, sawHeaderField;
      } else if b >= 0x10 {
        var f := DecodeLiteral(src, NeverIndexed);
        if f.None? {
          return false, [], 0, false;
        }
        return true, [f.value.value.(sensitive := true)], f.value.consumed, true;
      } else {
        var f := DecodeLiteral(src, WithoutIndexing);
        if f.None? {
          return false, [], 0, false;
        }
        return true, [f.value.value], f.value.consumed, true;
      }
    }

    /**
      Expands a header block. On a failure the table's contents are unspecified, and the caller ends the connection.
     */
    method Decode(block: seq<byte>) returns (r: Option<seq<Field>>)
      requires dyn.Valid()
      modifies dyn
      ensures dyn.Valid()
      ensures Expands(DecodeRest(env, old(dyn.Value()), block, false), r, dyn.Value())
    {
      ghost var goal := DecodeRest(env, dyn.Value(), block, false);
      var fields: seq<Field>, pos: nat, sawHeaderField := [], 0, false;
      RemainsAtStart(env, dyn.Value(), block);
      hide *;
      while pos < |block|
        invariant dyn.Valid() && pos <= |block|
        invariant Remains(env, dyn.Value(), block, pos, sawHeaderField, fields, goal)
      {
        ghost var c := dyn.Value();
        var ok, more, n, saw := Dispatch(block, pos, sawHeaderField);
        if !ok {
          RemainsNothing(env, c, block, pos, sawHeaderField, fields, goal, dyn.Value());
          return None;
        }
        RemainsAfterTurn(env, c, block, pos, sawHeaderField, fields, goal, more, dyn.Value(), n, saw);
        pos, fields, sawHeaderField := pos + n, fields + more, saw;
      }
      RemainsAtEnd(env, dyn.Value(), block, sawHeaderField, fields, goal);
      return Some(fields);
    }

    method FindExact(f: Field) returns (index: nat)
      ensures index == ExactIndex(env, dyn.Value(), f)
      ensures IsFirst(Combined(env, dyn.Value()), f.name, Some(f.value), index)
    {
      SearchesFindTheFirst(env, dyn.Value(), f);
      hide IsFirst;
      for i := 0 to |env.statics|
        invariant forall j | 0 <= j < i :: env.statics[j].name != f.name || env.statics[j].value != f.value
      {
        if env.statics[i].name == f.name && env.statics[i].value == f.value {
          FoundAt(env.statics, f.name, f.value, i);
          return i + 1;
        }
      }
      NotFound(env.statics, f.name, f.value);
      var offset, exact := dyn.Find(f.name, f.value);
      return if exact then |env.statics| + offset else 0;
    }

    method FindName(name: seq<byte>) returns (index: nat)
      requires Indexed()
      ensures index == NameIndex(env, dyn.Value(), name)
      ensures IsFirst(Combined(env, dyn.Value()), name, None, index)
    {
      SearchesFindTheFirst(env, dyn.Value(), Field(name, [], false));
      hide IsFirst;
      if name in names {
        return names[name];
      }
      var offset := dyn.FindName(name);
      return if offset > 0 then |env.statics| + offset else 0;
    }

    method EncodeLiteral(dst: seq<byte>, f: Field, mode: Mode) returns (out: seq<byte>)
      requires Indexed()
      ensures var name := ChooseName(env, dyn.Value(), f.name);
        out == dst + Serialize(env, Literal(mode, name, Shorter(env.huffman, f.value)))
    {
      hide EncodeInt, IndexesNames, NameIndex;
      var (flags, prefix) := LiteralFlags(mode);
      var index := FindName(f.name);
      if index > 0 {
        out := AppendInt(dst, flags, prefix, index);
      } else {
        out := AppendInt(dst, flags, prefix, 0);
        out := out + EncodeString(env.huffman, Shorter(env.huffman, f.name));
      }
      out := out + EncodeString(env.huffman, Shorter(env.huffman, f.value));
    }

    method Encode(fields: seq<Field>) returns (block: seq<byte>)
      requires Indexed() && dyn.Valid()
      modifies dyn
      ensures dyn.Valid()
      ensures (block, dyn.Value()) == Encoded(env, old(dyn.Value()), fields)
    {
      hide Serialize, Choose, AfterAdd, ExactIndex, IndexesNames;
      block := [];
      ghost var (goal, after) := Encoded(env, dyn.Value(), fields);
      assert fields[0..] == fields && [] + goal == goal;
      for i := 0 to |fields|
        invariant dyn.Valid()
        invariant var (rest, end) := Encoded(env, dyn.Value(), fields[i..]); block + rest == goal && end == after
      {
        var f := fields[i];
        ghost var c := dyn.Value();
        ChoiceOf(env, c, f);
        assert fields[i..][0] == f && fields[i..][1..] == fields[i + 1..];
        ghost var (rest, _) := Encoded(env, AfterChoice(env, c, f), fields[i + 1..]);
        assert block + (Serialize(env, Choose(env, c, f)) + rest) == block + Serialize(env, Choose(env, c, f)) + rest;
        if f.sensitive {
          block := EncodeLiteral(block, f, NeverIndexed);
          continue;
        }
        var index := FindExact(f);
        if index > 0 {
          block := AppendInt(block, 0x80, P7, index);
          continue;
        }
        block := EncodeLiteral(block, f, Incremental);
        dyn.Add(f);
      }
      assert fields[|fields|..] == [] && block + [] == block;
    }
  }

  lemma ChoiceOf(env: Env, c: Contents, f: Field)
    ensures f.sensitive ==>
              Choose(env, c, f) == Literal(NeverIndexed, ChooseName(env, c, f.name), Shorter(env.huffman, f.value))
    ensures !f.sensitive && ExactIndex(env, c, f) > 0 ==>
              Choose(env, c, f) == Indexed(ExactIndex(env, c, f))
              && Serialize(env, Choose(env, c, f)) == EncodeInt(0x80, P7, ExactIndex(env, c, f))
    ensures !f.sensitive && ExactIndex(env, c, f) == 0 ==>
              Choose(env, c, f) == Literal(Incremental, ChooseName(env, c, f.name), Shorter(env.huffman, f.value))
  {
  }
}
