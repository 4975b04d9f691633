/**
  The HPACK dynamic table of section 2.3.2 of RFC 7541: a first-in first-out list, newest entry first,
  bounded by accounted size. Whatever evicts, what is left is the longest prefix that fits.
 */
module DynamicTable {
  import opened Octets

  datatype Field = Field(name: seq<byte>, value: seq<byte>, sensitive: bool)

  const DEFAULT_SIZE := 4096
  const ENTRY_OVERHEAD := 32

  function EntrySize(f: Field): nat {
    |f.name| + |f.value| + ENTRY_OVERHEAD
  }

  function Total(entries: seq<Field>): nat {
    if entries == [] then 0 else EntrySize(entries[0]) + Total(entries[1..])
  }

  /** kept is the longest prefix of entries whose accounted size is at most max. */
  ghost predicate LongestFitting(kept: seq<Field>, entries: seq<Field>, max: nat) {
    && kept <= entries
    && Total(kept) <= max
    && forall k | |kept| < k <= |entries| :: Total(entries[..k]) > max
  }

  function Fit(entries: seq<Field>, max: nat): seq<Field> {
    if entries == [] || EntrySize(entries[0]) > max then []
    else [entries[0]] + Fit(entries[1..], max - EntrySize(entries[0]))
  }

  // ---------- Sizes of prefixes ----------

  lemma {:induction false} TotalConcat(a: seq<Field>, b: seq<Field>)
    ensures Total(a + b) == Total(a) + Total(b)
  {
    if a == [] {
      assert a + b == b;
    } else {
      assert (a + b)[1..] == a[1..] + b;
      TotalConcat(a[1..], b);
    }
  }

  lemma TotalPrefix(entries: seq<Field>, k: nat)
    requires k <= |entries|
    ensures Total(entries[..k]) <= Total(entries)
  {
    TotalConcat(entries[..k], entries[k..]);
    assert entries == entries[..k] + entries[k..];
  }

  lemma TotalDropLast(entries: seq<Field>)
    requires entries != []
    ensures Total(entries) == Total(entries[..|entries| - 1]) + EntrySize(entries[|entries| - 1])
  {
    var last := |entries| - 1;
    TotalConcat(entries[..last], [entries[last]]);
    assert entries == entries[..last] + [entries[last]];
    assert Total([entries[last]]) == EntrySize(entries[last]);
  }

  // ---------- The longest fitting prefix ----------

  lemma {:induction false} FitIsLongestFitting(entries: seq<Field>, max: nat)
    ensures LongestFitting(Fit(entries, max), entries, max)
  {
    if entries != [] {
      var e, rest := entries[0], entries[1..];
      if EntrySize(e) <= max {
        FitIsLongestFitting(rest, max - EntrySize(e));
        var kept := Fit(rest, max - EntrySize(e));
        assert ([e] + kept)[1..] == kept;
        assert [e] + kept <= entries;
        forall k | |kept| + 1 < k <= |entries| ensures Total(entries[..k]) > max {
          assert entries[..k][1..] == rest[..k - 1];
        }
      } else {
        forall k | 0 < k <= |entries| ensures Total(entries[..k]) > max {
          assert entries[..k][0] == e;
        }
      }
    }
  }

  /** There is only one longest fitting prefix. */
  lemma LongestFittingIsUnique(a: seq<Field>, b: seq<Field>, entries: seq<Field>, max: nat)
    requires LongestFitting(a, entries, max) && LongestFitting(b, entries, max)
    ensures a == b
  {
    assert a == entries[..|a|] && b == entries[..|b|];
  }

  lemma FitWhole(entries: seq<Field>, max: nat)
    requires Total(entries) <= max
    ensures Fit(entries, max) == entries
  {
    FitIsLongestFitting(entries, max);
    LongestFittingIsUnique(Fit(entries, max), entries, entries, max);
  }

  /** Lowering the limit to a and then to b keeps what lowering it once to the smaller of the two keeps. */
  lemma {:induction false} FitTwice(entries: seq<Field>, a: nat, b: nat)
    ensures Fit(Fit(entries, a), b) == Fit(entries, if a < b then a else b)
  {
    var once, low := Fit(entries, a), if a < b then a else b;
    var twice := Fit(once, b);
    FitIsLongestFitting(entries, a);
    FitIsLongestFitting(once, b);
    TotalPrefix(once, |twice|);
    assert twice == once[..|twice|];
    forall k | |twice| < k <= |entries| ensures Total(entries[..k]) > low {
      if k <= |once| {
        assert once[..k] == entries[..k];
        if a < b {
          TotalPrefix(once, k);
        }
      }
    }
    assert LongestFitting(twice, entries, low);
    FitIsLongestFitting(entries, low);
    LongestFittingIsUnique(twice, Fit(entries, low), entries, low);
  }

  // ---------- The class ----------

  /** The value of a table. Its accounted size is the sum over its entries. */
  datatype Contents = Contents(entries: seq<Field>, max: nat, ceiling: nat)

  class Table {
    var entries: seq<Field>
    var size: int
    var max: nat
    var ceiling: nat

    ghost predicate Valid()
      reads this
    {
      size == Total(entries) && size <= max <= ceiling
    }

    function Value(): Contents
      reads this
    {
      Contents(entries, max, ceiling)
    }

    constructor ()
      ensures Valid() && Value() == Contents([], DEFAULT_SIZE, DEFAULT_SIZE)
    {
      entries, size, max, ceiling := [], 0, DEFAULT_SIZE, DEFAULT_SIZE;
    }

    /** Drops entries from the old end until the rest and room more octets fit. */
    method EvictFor(room: nat)
      requires size == Total(entries) && room <= max
      modifies this`entries, this`size
      ensures size == Total(entries)
      ensures LongestFitting(entries, old(entries), max - room)
    {
      while size + room > max && |entries| > 0
        invariant size == Total(entries)
        invariant entries <= old(entries)
        invariant forall k | |entries| < k <= |old(entries)| :: Total(old(entries)[..k]) > max - room
        decreases |entries|
      {
        var last := |entries| - 1;
        TotalDropLast(entries);
        assert old(entries)[..|entries|] == entries;
        size := size - EntrySize(entries[last]);
        entries := entries[..last];
      }
    }

    method EvictToFit()
      requires size == Total(entries)
      modifies this`entries, this`size
      ensures size == Total(entries)
      ensures LongestFitting(entries, old(entries), max) && entries == Fit(old(entries), max)
    {
      EvictFor(0);
      FitIsLongestFitting(old(entries), max);
      LongestFittingIsUnique(entries, Fit(old(entries), max), old(entries), max);
    }

    /** A new SETTINGS limit. It lowers the limit in force, and never raises it. */
    method SetCeiling(n: nat)
      requires Valid()
      modifies this
      ensures Valid() && ceiling == n && max == if old(max) > n then n else old(max)
      ensures Value() == AfterCeiling(old(Value()), n)
      ensures LongestFitting(entries, old(entries), max)
    {
      FitIsLongestFitting(entries, if max > n then n else max);
      FitWhole(entries, max);
      ceiling := n;
      if max > n {
        max := n;
        EvictToFit();
      }
    }

    /** A size update in a header block may not exceed the SETTINGS limit. */
    method SetMax(n: nat) returns (ok: bool)
      requires Valid()
      modifies this
      ensures Valid() && ok == (n <= old(ceiling))
      ensures Value() == if ok then AfterMax(old(Value()), n) else old(Value())
      ensures ok ==> max == n && ceiling == old(ceiling) && LongestFitting(entries, old(entries), n)
    {
      if n > ceiling {
        return false;
      }
      max := n;
      EvictToFit();
      return true;
    }

    /** An entry larger than the whole table empties it and is not inserted. */
    method Add(f: Field)
      requires Valid()
      modifies this`entries, this`size
      ensures Valid()
      ensures LongestFitting(entries, [f] + old(entries), max)
      ensures Value() == AfterAdd(old(Value()), f)
    {
      ghost var before := entries;
      var esize := EntrySize(f);
      FitIsLongestFitting([f] + before, max);
      if esize > max {
        entries := [];
        size := 0;
        LongestFittingIsUnique([], Fit([f] + before, max), [f] + before, max) by {
          assert Fit([f] + before, max) == [];
        }
        return;
      }
      EvictFor(esize);
      ghost var kept := entries;
      entries := [f] + entries;
      size := size + esize;
      assert entries[1..] == kept && ([f] + before)[1..] == before;
      FitIsLongestFitting(before, max - esize);
      LongestFittingIsUnique(kept, Fit(before, max - esize), before, max - esize);
    }

    /** The entry at a one-based offset, the newest first. */
    method Get(offset: int) returns (f: Field, ok: bool)
      ensures ok <==> 1 <= offset <= |entries|
      ensures ok ==> f == entries[offset - 1]
    {
      if offset < 1 || offset > |entries| {
        return Field([], [], false), false;
      }
      return entries[offset - 1], true;
    }

    /** The first entry with this name and value, or else the first with this name, or zero. */
    method Find(name: seq<byte>, value: seq<byte>) returns (offset: nat, exact: bool)
      ensures (offset, exact) == Found(entries, name, value)
      ensures exact <==> exists i | 0 <= i < |entries| :: entries[i].name == name && entries[i].value == value
      ensures offset <= |entries| && (offset > 0 ==> entries[offset - 1].name == name)
      ensures exact ==> offset > 0 && entries[offset - 1].value == value
                        && forall j | 0 <= j < offset - 1 :: entries[j].name != name || entries[j].value != value
      ensures !exact ==>
                forall j | 0 <= j < (if offset > 0 then offset - 1 else |entries|) :: entries[j].name != name
    {
      var nameOffset := 0;
      for i := 0 to |entries|
        invariant nameOffset == FirstNamed(entries[..i], name) <= i
        invariant nameOffset > 0 ==> entries[nameOffset - 1].name == name
        invariant forall j | 0 <= j < (if nameOffset > 0 then nameOffset - 1 else i) :: entries[j].name != name
        invariant forall j | 0 <= j < i :: entries[j].name != name || entries[j].value != value
      {
        FirstNamedSnoc(entries[..i], entries[i], name);
        assert entries[..i + 1] == entries[..i] + [entries[i]];
        if entries[i].name != name {
          continue;
        }
        if entries[i].value == value {
          FoundAt(entries, name, value, i);
          return i + 1, true;
        }
        if nameOffset == 0 {
          nameOffset := i + 1;
        }
      }
      assert entries[..|entries|] == entries;
      NotFound(entries, name, value);
      return nameOffset, false;
    }

    method FindName(name: seq<byte>) returns (offset: nat)
      ensures offset == FirstNamed(entries, name) <= |entries|
      ensures offset == 0 ==> forall i | 0 <= i < |entries| :: entries[i].name != name
      ensures offset > 0 ==>
                entries[offset - 1].name == name && forall i | 0 <= i < offset - 1 :: entries[i].name != name
    {
      for i := 0 to |entries|
        invariant FirstNamed(entries[..i], name) == 0
        invariant forall j | 0 <= j < i :: entries[j].name != name
      {
        FirstNamedSnoc(entries[..i], entries[i], name);
        assert entries[..i + 1] == entries[..i] + [entries[i]];
        if entries[i].name == name {
          FirstNamedPrefix(entries, name, i + 1);
          return i + 1;
        }
      }
      assert entries[..|entries|] == entries;
      return 0;
    }
  }

  // ---------- Searching ----------

  /** The one-based offset of the first entry with this name, or zero. */
  function FirstNamed(entries: seq<Field>, name: seq<byte>): nat {
    if entries == [] then 0
    else if entries[0].name == name then 1
    else
      var rest := FirstNamed(entries[1..], name);
      if rest == 0 then 0 else rest + 1
  }

  /** The one-based offset of the first entry with this name and value, or zero. */
  function FirstExact(entries: seq<Field>, name: seq<byte>, value: seq<byte>): nat {
    if entries == [] then 0
    else if entries[0].name == name && entries[0].value == value then 1
    else
      var rest := FirstExact(entries[1..], name, value);
      if rest == 0 then 0 else rest + 1
  }

  function Found(entries: seq<Field>, name: seq<byte>, value: seq<byte>): (nat, bool) {
    var exact := FirstExact(entries, name, value);
    if exact > 0 then (exact, true) else (FirstNamed(entries, name), false)
  }

  lemma {:induction false} FirstNamedSnoc(entries: seq<Field>, f: Field, name: seq<byte>)
    ensures FirstNamed(entries + [f], name)
         == if FirstNamed(entries, name) > 0 then FirstNamed(entries, name)
            else if f.name == name then |entries| + 1 else 0
  {
    if entries == [] {
      assert ([] + [f])[1..] == [];
    } else {
      assert (entries + [f])[1..] == entries[1..] + [f];
      FirstNamedSnoc(entries[1..], f, name);
    }
  }

  lemma {:induction false} FirstNamedPrefix(entries: seq<Field>, name: seq<byte>, k: nat)
    requires k <= |entries| && FirstNamed(entries[..k], name) > 0
    ensures FirstNamed(entries, name) == FirstNamed(entries[..k], name)
  {
    if entries[0].name != name {
      assert entries[..k][1..] == entries[1..][..k - 1];
      FirstNamedPrefix(entries[1..], name, k - 1);
    }
  }

  lemma {:induction false} FoundAt(entries: seq<Field>, name: seq<byte>, value: seq<byte>, i: nat)
    requires i < |entries| && entries[i].name == name && entries[i].value == value
    requires forall j | 0 <= j < i :: entries[j].name != name || entries[j].value != value
    ensures FirstExact(entries, name, value) == i + 1
  {
    if i > 0 {
      assert entries[0].name != name || entries[0].value != value;
      FoundAt(entries[1..], name, value, i - 1);
    }
  }

  lemma {:induction false} NotFound(entries: seq<Field>, name: seq<byte>, value: seq<byte>)
    requires forall j | 0 <= j < |entries| :: entries[j].name != name || entries[j].value != value
    ensures FirstExact(entries, name, value) == 0
  {
    if entries != [] {
      assert entries[0].name != name || entries[0].value != value;
      NotFound(entries[1..], name, value);
    }
  }

  // ---------- Runs ----------

  function AfterAdd(c: Contents, f: Field): Contents {
    c.(entries := Fit([f] + c.entries, c.max))
  }

  function AfterMax(c: Contents, n: nat): Contents {
    c.(max := n, entries := Fit(c.entries, n))
  }

  function AfterCeiling(c: Contents, n: nat): Contents {
    var max := if c.max > n then n else c.max;
    Contents(Fit(c.entries, max), max, n)
  }

  datatype Op = Add(f: Field) | SetMax(n: nat) | SetCeiling(n: nat)

  ghost function Exec(c: Contents, op: Op): Contents {
    match op
    case Add(f) => AfterAdd(c, f)
    case SetMax(n) => if n <= c.ceiling then AfterMax(c, n) else c
    case SetCeiling(n) => AfterCeiling(c, n)
  }

  ghost function Run(ops: seq<Op>): Contents {
    if ops == [] then Contents([], DEFAULT_SIZE, DEFAULT_SIZE)
    else Exec(Run(ops[..|ops| - 1]), ops[|ops| - 1])
  }

  /** Every field ever handed to Add, the newest first. */
  ghost function History(ops: seq<Op>): seq<Field> {
    if ops == [] then []
    else
      var before, op := History(ops[..|ops| - 1]), ops[|ops| - 1];
      if op.Add? then [op.f] + before else before
  }

  /** What is kept is the longest prefix that fits, of the entries there were and the field added, if one was. */
  lemma EveryStepKeepsTheLongest(c: Contents, op: Op)
    ensures var after := Exec(c, op);
      && (op.Add? ==> LongestFitting(after.entries, [op.f] + c.entries, c.max))
      && (op.SetMax? && op.n <= c.ceiling ==> LongestFitting(after.entries, c.entries, op.n))
      && (op.SetMax? && op.n > c.ceiling ==> after == c)
      && (op.SetCeiling? ==> LongestFitting(after.entries, c.entries, after.max))
  {
    FitIsLongestFitting([if op.Add? then op.f else Field([], [], false)] + c.entries, c.max);
    if !op.Add? {
      FitIsLongestFitting(c.entries, op.n);
      FitIsLongestFitting(c.entries, c.max);
    }
  }

  /** The limit in force, and the one SETTINGS put above it. */
  datatype Limits = Limits(max: nat, ceiling: nat)

  /** A header block sets the limit up to what SETTINGS allow, and SETTINGS lower it when they allow less. */
  ghost function LimitsAfter(ops: seq<Op>): Limits {
    if ops == [] then Limits(4096, 4096)
    else
      var l := LimitsAfter(ops[..|ops| - 1]);
      match ops[|ops| - 1]
      case Add(_) => l
      case SetMax(n) => if n <= l.ceiling then l.(max := n) else l
      case SetCeiling(n) => Limits(if n < l.max then n else l.max, n)
  }

  /** Every octet of every name and value in the table. */
  ghost function OctetsOf(entries: seq<Field>): seq<byte> {
    if entries == [] then [] else entries[0].name + entries[0].value + OctetsOf(entries[1..])
  }

  /** The accounted size is what section 4.1 of RFC 7541 makes it: the octets held, and 32 for each entry. */
  lemma {:induction false} TotalIsAccounted(entries: seq<Field>)
    ensures Total(entries) == |OctetsOf(entries)| + 32 * |entries|
  {
    if entries != [] {
      TotalIsAccounted(entries[1..]);
    }
  }

  /**
    After any run the table is a prefix of the insertion history, its octets and overhead within its limit, and that
    limit the one in force.
   */
  lemma {:induction false} TableIsRecentHistory(ops: seq<Op>)
    ensures var c := Run(ops);
      && c.entries <= History(ops) && Total(c.entries) <= c.max <= c.ceiling
      && |OctetsOf(c.entries)| + 32 * |c.entries| <= c.max
      && Limits(c.max, c.ceiling) == LimitsAfter(ops)
  {
    TotalIsAccounted(Run(ops).entries);
    if ops != [] {
      var before, op := ops[..|ops| - 1], ops[|ops| - 1];
      TableIsRecentHistory(before);
      EveryStepKeepsTheLongest(Run(before), op);
      hide OctetsOf, Total, Fit;
      if op.Add? {
        assert [op.f] + Run(before).entries <= [op.f] + History(before);
      }
    }
  }

  /** An entry takes at least its overhead, so a table holds at most one entry for every 32 octets of its limit. */
  lemma {:induction false} EntriesAreFew(entries: seq<Field>)
    ensures ENTRY_OVERHEAD * |entries| <= Total(entries)
  {
    if entries != [] {
      EntriesAreFew(entries[1..]);
    }
  }
}
