/**
  What each instruction of a header block means and which ones the encoder chooses, told of the two tables as one list;
  and how the meaning of a block is put together from that of its instructions.
 */
module HpackMeaning {
  import opened Octets
  import opened H2
  import opened DynamicTable
  import opened HpackPrimitives
  import opened HpackCodec

  // ---------- One instruction ----------

  /** The name a literal refers to or carries. */
  ghost function Named(env: Env, c: Contents, name: Name): Option<seq<byte>> {
    match name
    case Inline(str) => Some(str.text)
    case ByIndex(i) => if 1 <= i <= |Combined(env, c)| then Some(Combined(env, c)[i - 1].name) else None
  }

  /** The table is as it was. */
  ghost predicate Untouched(c: Contents, e: Effect) {
    e.table == c
  }

  /** The field went in at the front, and as much of the rest stayed as fits. */
  ghost predicate Inserted(c: Contents, f: Field, e: Effect) {
    LongestFitting(e.table.entries, [f] + c.entries, c.max) && e.table.max == c.max && e.table.ceiling == c.ceiling
  }

  /** The limit is n, and as much of the table stayed as fits it. */
  ghost predicate Limited(c: Contents, n: nat, e: Effect) {
    LongestFitting(e.table.entries, c.entries, n) && e.table.max == n && e.table.ceiling == c.ceiling
  }

  /**
    An index yields the entry it counts to and touches nothing. A literal yields its field, marked sensitive if and only
    if it is never to be indexed, and inserts it if and only if it says so. A size update yields nothing and evicts what
    no longer fits. Each is refused only for an index past the end, or zero, or a limit above the ceiling.
   */
  lemma InstructionMeans(env: Env, c: Contents, instr: Instr)
    ensures var r := Execute(env, c, instr);
      match instr
      case Indexed(i) =>
        if 1 <= i <= |Combined(env, c)|
        then r.Some? && r.value.fields == [Combined(env, c)[i - 1]] && Untouched(c, r.value)
        else r == None
      case SizeUpdate(n) =>
        if n <= c.ceiling then r.Some? && r.value.fields == [] && Limited(c, n, r.value) else r == None
      case Literal(mode, name, value) =>
        match Named(env, c, name)
        case None => r == None
        case Some(text) =>
          var f := Field(text, value.text, mode == NeverIndexed);
          && r.Some? && r.value.fields == [f]
          && if mode == Incremental then Inserted(c, f, r.value) else Untouched(c, r.value)
  {
    match instr
    case Indexed(i) => LookupIsCombined(env, c, i);
    case SizeUpdate(n) => FitIsLongestFitting(c.entries, n);
    case Literal(mode, name, value) =>
      if name.ByIndex? {
        LookupIsCombined(env, c, name.index);
      }
      if Named(env, c, name).Some? {
        FitIsLongestFitting([Field(Named(env, c, name).value, value.text, mode == NeverIndexed)] + c.entries, c.max);
      }
      hide Lookup, LongestFitting, Fit;
  }

  // ---------- A block ----------

  /** Some instruction yields a header field, so that no size update may follow. */
  ghost predicate HasField(instrs: seq<Instr>) {
    exists i :: 0 <= i < |instrs| && !instrs[i].SizeUpdate?
  }

  lemma OneInstruction(env: Env, c: Contents, instr: Instr, sawField: bool)
    ensures Denote(env, c, [instr], sawField) ==
            if instr.SizeUpdate? && sawField then None else Execute(env, c, instr)
  {
    hide Execute;
    if Execute(env, c, instr).Some? {
      var e := Execute(env, c, instr).value;
      assert [instr][1..] == [] && e.fields + [] == e.fields;
    }
  }

  /**
    The meaning of one part of a block and then the other: the fields of both in order, and the table of the second
    started from that of the first. What the second part may do depends on whether the first had a field, and on
    nothing else.
   */
  lemma {:induction false} PartsOfABlock(env: Env, c: Contents, a: seq<Instr>, b: seq<Instr>, sawField: bool)
    ensures Denote(env, c, a + b, sawField) ==
            match Denote(env, c, a, sawField)
            case None => None
            case Some(e) => Prepend(e.fields, Denote(env, e.table, b, sawField || HasField(a)))
    decreases |a|
  {
    if a == [] {
      assert a + b == b;
      PrependNothing(Denote(env, c, b, sawField));
    } else {
      var instr, rest := a[0], a[1..];
      assert (a + b)[0] == instr && (a + b)[1..] == rest + b;
      HasFieldFirst(a);
      hide Execute, HasField, Prepend;
      if !(instr.SizeUpdate? && sawField) && Execute(env, c, instr).Some? {
        var first := Execute(env, c, instr).value;
        var saw := sawField || !instr.SizeUpdate?;
        PartsOfABlock(env, first.table, rest, b, saw);
        PrependsTo(first.fields, Denote(env, first.table, rest, saw));
        PrependsTo(first.fields, None);
        if Denote(env, first.table, rest, saw).Some? {
          var e := Denote(env, first.table, rest, saw).value;
          PrependTwice(first.fields, e.fields, Denote(env, e.table, b, saw || HasField(rest)));
        }
      }
    }
  }

  lemma PrependsTo(done: seq<Field>, r: Option<Effect>)
    ensures Prepend(done, r) == match r case None => None case Some(e) => Some(Effect(done + e.fields, e.table))
  {
  }

  lemma HasFieldFirst(a: seq<Instr>)
    requires a != []
    ensures HasField(a) <==> !a[0].SizeUpdate? || HasField(a[1..])
  {
    if HasField(a) && a[0].SizeUpdate? {
      var i :| 0 <= i < |a| && !a[i].SizeUpdate?;
      assert !a[1..][i - 1].SizeUpdate?;
    }
    if HasField(a[1..]) {
      var i :| 0 <= i < |a[1..]| && !a[1..][i].SizeUpdate?;
      assert !a[i + 1].SizeUpdate?;
    }
  }

  // ---------- The encoder's choice ----------

  /** The instruction names the field by the first entry with that name, or spells the name if there is none. */
  ghost predicate NamesIt(env: Env, c: Contents, f: Field, name: Name) {
    match name
    case ByIndex(i) => i > 0 && IsFirst(Combined(env, c), f.name, None, i)
    case Inline(str) => IsFirst(Combined(env, c), f.name, None, 0) && str == Shorter(env.huffman, f.name)
  }

  /**
    A field that is not sensitive and stands in a table is its first index, and the table is untouched. Any other is a
    literal with its value spelled: one never to be indexed if it is sensitive, and then the table is untouched, and
    one that goes into the table if it is not.
   */
  lemma ChoiceIsExact(env: Env, c: Contents, f: Field)
    ensures var all, after := Combined(env, c), AfterChoice(env, c, f);
      match Choose(env, c, f)
      case Indexed(i) => !f.sensitive && i > 0 && IsFirst(all, f.name, Some(f.value), i) && after == c
      case SizeUpdate(_) => false
      case Literal(mode, name, value) =>
        && NamesIt(env, c, f, name) && value == Shorter(env.huffman, f.value)
        && if f.sensitive then mode == NeverIndexed && after == c
           else mode == Incremental && IsFirst(all, f.name, Some(f.value), 0)
                && LongestFitting(after.entries, [f] + c.entries, c.max)
                && after.max == c.max && after.ceiling == c.ceiling
  {
    SearchesFindTheFirst(env, c, f);
    FitIsLongestFitting([f] + c.entries, c.max);
    hide ExactIndex, NameIndex, IsFirst, LongestFitting, Fit, Shorter;
  }
}
