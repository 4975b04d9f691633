/**
  HPACK's integer and string representations, sections 5.1 and 5.2 of RFC 7541. None stands for the
  compression error every decoding failure is.
 */
module HpackPrimitives {
  import opened Octets
  import opened H2

  const MAX_CONTINUATION_BYTES := 5
  const MAX_INT_VALUE := 0x1_0000_0000
  const MAX_STRING_LEN := 0x100_0000

  // ---------- Integers ----------

  /** The width of an integer's prefix. HPACK uses these four. */
  datatype Prefix = P4 | P5 | P6 | P7

  /** All ones in the prefix: 2^n - 1. */
  function Ones(n: Prefix): byte {
    match n
    case P4 => 0xF
    case P5 => 0x1F
    case P6 => 0x3F
    case P7 => 0x7F
  }

  function LowBits(b: byte, n: Prefix): byte {
    match n
    case P4 => b % 0x10
    case P5 => b % 0x20
    case P6 => b % 0x40
    case P7 => b % 0x80
  }

  /**
    The octets after a prefix of ones: seven bits each, least significant first, the top bit set on all but the
    last.
   */
  function Tail(i: nat): seq<byte> {
    if i >= 0x80 then [More(i)] + Tail(i / 0x80) else [i]
  }

  /** The low seven bits of i under a continuation bit. */
  function More(i: nat): byte {
    i % 0x80 + 0x80
  }

  function EncodeInt(flags: byte, n: Prefix, i: nat): (s: seq<byte>)
    requires LowBits(flags, n) == 0
    ensures |s| >= 1 && flags <= s[0] <= flags + Ones(n)
  {
    if i < Ones(n) then [flags + i] else [flags + Ones(n)] + Tail(i - Ones(n))
  }

  /** A value, and how many octets it took. */
  datatype Read<+T> = Read(value: T, consumed: nat)

  /** A seven-bit group at its place: the source's left shift. */
  function Shifted(group: nat, scale: nat): nat {
    group * scale
  }

  function DecodeTail(src: seq<byte>, i: nat, value: nat, scale: nat): (r: Option<Read<nat>>)
    requires 1 <= i <= |src|
    ensures r.Some? ==> i < r.value.consumed <= |src| && r.value.value <= MAX_INT_VALUE
    decreases |src| - i
  {
    if i - 1 >= MAX_CONTINUATION_BYTES || i == |src| then None
    else
      var next := value + Shifted(src[i] % 0x80, scale);
      if next > MAX_INT_VALUE then None
      else if src[i] < 0x80 then Some(Read(next, i + 1))
      else DecodeTail(src, i + 1, next, scale * 0x80)
  }

  function DecodeInt(src: seq<byte>, n: Prefix): (r: Option<Read<nat>>)
    ensures r.Some? ==> 1 <= r.value.consumed <= |src| && r.value.value <= MAX_INT_VALUE
  {
    if src == [] then None
    else
      var v := LowBits(src[0], n);
      if v < Ones(n) then Some(Read(v, 1)) else DecodeTail(src, 1, Ones(n), 1)
  }

  /** The scale reached after a number of continuation octets. */
  function Power128(i: nat): nat {
    if i == 0 then 1 else Power128(i - 1) * 0x80
  }

  lemma ShiftedSum(a: nat, b: nat, scale: nat)
    ensures Shifted(a + b, scale) == Shifted(a, scale) + Shifted(b, scale)
  {
  }

  lemma ShiftedGroup(q: nat, scale: nat)
    ensures Shifted(q * 0x80, scale) == Shifted(q, scale * 0x80)
  {
    assert q * 0x80 * scale == q * (scale * 0x80);
  }

  lemma ShiftedAtLeast(k: nat, scale: nat)
    ensures k > 0 ==> Shifted(k, scale) >= scale
    ensures Shifted(k, 1) == k && Shifted(0, scale) == 0
  {
    if k > 0 {
      ShiftedSum(k - 1, 1, scale);
    }
  }

  lemma ShiftedDigits(k: nat, scale: nat)
    ensures Shifted(k, scale) == Shifted(k % 0x80, scale) + Shifted(k / 0x80, scale * 0x80)
    ensures k > 0 ==> Shifted(k, scale) >= scale
    ensures Shifted(k, 1) == k && Shifted(0, scale) == 0
  {
    hide Shifted;
    ShiftedAtLeast(k, scale);
    ShiftedGroup(k / 0x80, scale);
    ShiftedSum(k / 0x80 * 0x80, k % 0x80, scale);
    assert k / 0x80 * 0x80 + k % 0x80 == k;
  }

  lemma {:induction false} PastTheRange(i: nat)
    requires i >= MAX_CONTINUATION_BYTES
    ensures Power128(i) > MAX_INT_VALUE
  {
    if i == MAX_CONTINUATION_BYTES {
      assert Power128(1) == 0x80 && Power128(2) == 0x4000 && Power128(3) == 0x20_0000 && Power128(4) == 0x1000_0000;
    } else {
      PastTheRange(i - 1);
    }
  }

  /** The tail of k stands at position i. */
  ghost predicate TailAt(src: seq<byte>, i: nat, k: nat) {
    i + |Tail(k)| <= |src| && src[i..i + |Tail(k)|] == Tail(k)
  }

  lemma TailStart(src: seq<byte>, i: nat, k: nat)
    requires TailAt(src, i, k)
    ensures i < |src| && src[i] % 0x80 == k % 0x80 && (src[i] < 0x80 <==> k < 0x80)
    ensures k < 0x80 ==> |Tail(k)| == 1
    ensures k >= 0x80 ==> |Tail(k)| == 1 + |Tail(k / 0x80)| && TailAt(src, i + 1, k / 0x80)
  {
    assert src[i] == Tail(k)[0];
    if k >= 0x80 {
      assert src[i + 1..i + |Tail(k)|] == Tail(k)[1..];
    }
  }

  lemma OneGroup(src: seq<byte>, i: nat, value: nat, scale: nat, k: nat)
    requires 1 <= i < |src| && src[i] % 0x80 == k % 0x80 && (src[i] < 0x80 <==> k < 0x80)
    ensures var next := value + Shifted(k % 0x80, scale);
      DecodeTail(src, i, value, scale)
      == if i - 1 >= MAX_CONTINUATION_BYTES || next > MAX_INT_VALUE then None
         else if k < 0x80 then Some(Read(next, i + 1)) else DecodeTail(src, i + 1, next, scale * 0x80)
  {
    hide Shifted;
  }

  /** Reading the tail of k from position i on, whatever is around it: the total if it is in range, a failure if not. */
  lemma {:induction false} TailRoundTrip(src: seq<byte>, i: nat, k: nat, value: nat)
    requires 1 <= i && TailAt(src, i, k)
    requires i > 1 ==> k > 0
    ensures var total := value + Shifted(k, Power128(i - 1));
      DecodeTail(src, i, value, Power128(i - 1))
      == if total <= MAX_INT_VALUE then Some(Read(total, i + |Tail(k)|)) else None
    decreases k
  {
    var scale := Power128(i - 1);
    ShiftedDigits(k, scale);
    ShiftedDigits(0, scale * 0x80);
    TailStart(src, i, k);
    OneGroup(src, i, value, scale, k);
    hide Shifted, Tail, TailAt, DecodeTail;
    assert Power128(i) == scale * 0x80;
    if i - 1 >= MAX_CONTINUATION_BYTES {
      PastTheRange(i - 1);
    } else if k >= 0x80 {
      hide Power128;
      TailRoundTrip(src, i + 1, k / 0x80, value + Shifted(k % 0x80, scale));
    }
  }

  // Each width of prefix by itself, in whole multiples of it.

  lemma LowBits4(q: nat, v: nat)
    requires v < 0x10 && q < 0x10
    ensures (q * 0x10) % 0x10 == 0 && (q * 0x10 + v) % 0x10 == v && q * 0x10 + v < 0x100
  {
  }

  lemma LowBits5(q: nat, v: nat)
    requires v < 0x20 && q < 0x8
    ensures (q * 0x20) % 0x20 == 0 && (q * 0x20 + v) % 0x20 == v && q * 0x20 + v < 0x100
  {
  }

  lemma LowBits6(q: nat, v: nat)
    requires v < 0x40 && q < 0x4
    ensures (q * 0x40) % 0x40 == 0 && (q * 0x40 + v) % 0x40 == v && q * 0x40 + v < 0x100
  {
  }

  lemma LowBits7(q: nat, v: nat)
    requires v < 0x80 && q < 0x2
    ensures (q * 0x80) % 0x80 == 0 && (q * 0x80 + v) % 0x80 == v && q * 0x80 + v < 0x100
  {
  }

  lemma LowBitsOfSum(flags: byte, n: Prefix, v: byte)
    requires LowBits(flags, n) == 0 && v <= Ones(n)
    ensures flags + v < 0x100 && LowBits(flags + v, n) == v
  {
    match n
    case P4 => LowBits4(flags / 0x10, v);
    case P5 => LowBits5(flags / 0x20, v);
    case P6 => LowBits6(flags / 0x40, v);
    case P7 => LowBits7(flags / 0x80, v);
  }

  /** An integer is read back as itself if and only if it is at most 2^32; a larger one is refused, never misread. */
  lemma IntRoundTrip(flags: byte, n: Prefix, i: nat, rest: seq<byte>)
    requires LowBits(flags, n) == 0
    ensures DecodeInt(EncodeInt(flags, n, i) + rest, n)
         == if i <= MAX_INT_VALUE then Some(Read(i, |EncodeInt(flags, n, i)|)) else None
  {
    hide LowBits, Shifted;
    var src := EncodeInt(flags, n, i) + rest;
    if i < Ones(n) {
      LowBitsOfSum(flags, n, i);
    } else {
      LowBitsOfSum(flags, n, Ones(n));
      var k := i - Ones(n);
      assert src[1..1 + |Tail(k)|] == Tail(k);
      TailRoundTrip(src, 1, k, Ones(n));
      ShiftedDigits(k, 1);
      assert Power128(0) == 1;
    }
  }

  // ---------- What the octets of an integer are ----------

  /** One more than the prefix can hold: 2^n. */
  ghost function Cap(n: Prefix): nat {
    match n
    case P4 => 16
    case P5 => 32
    case P6 => 64
    case P7 => 128
  }

  /** The number that groups of seven bits spell, the least significant first. */
  ghost function Groups(s: seq<byte>): nat {
    if s == [] then 0 else s[0] % 128 + 128 * Groups(s[1..])
  }

  /** From position i to k stand groups: the top bit is set on all but the last, and there are at most five. */
  ghost predicate AreGroups(src: seq<byte>, i: nat, k: nat) {
    i < k <= |src| && k <= 6 && src[k - 1] < 128 && forall j | i <= j < k - 1 :: src[j] >= 128
  }

  /** The first k octets are an integer of value v, whether or not it could be written in fewer. */
  ghost predicate IsInt(src: seq<byte>, n: Prefix, v: nat, k: nat) {
    src != [] &&
    var low := src[0] % Cap(n);
    if low < Cap(n) - 1 then k == 1 && v == low
    else AreGroups(src, 1, k) && v == Cap(n) - 1 + Groups(src[1..k]) <= 4294967296
  }

  lemma ShiftedFirst(group: nat, rest: nat, scale: nat)
    ensures Shifted(group + 128 * rest, scale) == Shifted(group, scale) + Shifted(rest, scale * 0x80)
  {
    ShiftedSum(group, rest * 0x80, scale);
    ShiftedGroup(rest, scale);
    hide Shifted;
  }

  lemma {:induction false} TailExactly(src: seq<byte>, i: nat, value: nat, t: nat, k: nat)
    requires 1 <= i <= |src| && i < k
    ensures DecodeTail(src, i, value, Power128(i - 1)) == Some(Read(t, k))
       <==> AreGroups(src, i, k) && t == value + Shifted(Groups(src[i..k]), Power128(i - 1)) <= MAX_INT_VALUE
    decreases |src| - i
  {
    var scale := Power128(i - 1);
    hide Shifted, Power128;
    if i < |src| && i <= MAX_CONTINUATION_BYTES && k <= |src| {
      var group, rest := src[i] % 128, Groups(src[i + 1..k]);
      assert src[i..k][1..] == src[i + 1..k];
      assert Power128(i) == scale * 0x80 by { PowerNext(i); }
      ShiftedFirst(group, rest, scale);
      if k == i + 1 {
        assert src[i + 1..k] == [];
        ShiftedAtLeast(0, scale * 0x80);
      }
      if value + Shifted(group, scale) <= MAX_INT_VALUE && src[i] >= 0x80 && k > i + 1 {
        TailExactly(src, i + 1, value + Shifted(group, scale), t, k);
      }
    }
  }

  lemma PowerNext(i: nat)
    requires i > 0
    ensures Power128(i) == Power128(i - 1) * 0x80
  {
  }

  /** On any octets: what is read is the integer that stands there, and nothing is read only where none does. */
  lemma DecodeIntExactly(src: seq<byte>, n: Prefix, v: nat, k: nat)
    ensures DecodeInt(src, n) == Some(Read(v, k)) <==> IsInt(src, n, v, k)
  {
    if src != [] && k > 1 {
      TailExactly(src, 1, Ones(n), v, k);
      ShiftedAtLeast(Groups(src[1..if k <= |src| then k else 1]), 1);
      assert Power128(0) == 1;
    }
    hide Shifted, Groups, AreGroups, DecodeTail;
  }

  lemma {:induction false} TailIsShortest(s: seq<byte>)
    requires s != []
    ensures |Tail(Groups(s))| <= |s|
  {
    if |s| == 1 {
      assert s[1..] == [];
    } else {
      TailIsShortest(s[1..]);
      assert Groups(s) / 0x80 == Groups(s[1..]);
    }
  }

  /** No octets that read as an integer are fewer than the encoder writes for it. */
  lemma EncodedIntIsShortest(flags: byte, n: Prefix, src: seq<byte>, v: nat, k: nat)
    requires LowBits(flags, n) == 0 && IsInt(src, n, v, k)
    ensures |EncodeInt(flags, n, v)| <= k
  {
    if k > 1 {
      TailIsShortest(src[1..k]);
    }
    hide Groups, Tail, AreGroups, LowBits;
  }

  method AppendInt(dst: seq<byte>, flags: byte, n: Prefix, value: nat) returns (out: seq<byte>)
    requires LowBits(flags, n) == 0
    ensures out == dst + EncodeInt(flags, n, value)
  {
    LowBitsOfSum(flags, n, Ones(n));
    ghost var goal := dst + EncodeInt(flags, n, value);
    var max := Ones(n);
    if value < max {
      return dst + [flags + value];
    }
    out := dst + [flags + max];
    var i: nat := value - max;
    HeadAndTail(dst, flags, n, value);
    hide *;
    while i >= 0x80
      invariant out + Tail(i) == goal
    {
      TailStep(out, i);
      out := out + [More(i)];
      i := i / 0x80;
    }
    TailStep(out, i);
    out := out + [i];
  }

  lemma HeadAndTail(dst: seq<byte>, flags: byte, n: Prefix, value: nat)
    requires LowBits(flags, n) == 0 && value >= Ones(n) && flags + Ones(n) < 0x100
    ensures dst + [flags + Ones(n)] + Tail(value - Ones(n)) == dst + EncodeInt(flags, n, value)
  {
    hide LowBits, Ones, Tail;
  }

  lemma TailStep(out: seq<byte>, i: nat)
    ensures out + Tail(i) == if i >= 0x80 then out + [More(i)] + Tail(i / 0x80) else out + [i]
  {
    hide More;
    if i >= 0x80 {
      assert out + ([More(i)] + Tail(i / 0x80)) == out + [More(i)] + Tail(i / 0x80);
    }
  }

  method ReadInt(src: seq<byte>, n: Prefix) returns (r: Option<Read<nat>>)
    ensures r == DecodeInt(src, n)
  {
    if |src| == 0 {
      return None;
    }
    var max := Ones(n);
    var v := LowBits(src[0], n);
    if v < max {
      return Some(Read(v, 1));
    }
    var value: nat, scale: nat, i: nat := max, 1, 1;
    while true
      invariant 1 <= i <= |src|
      invariant DecodeInt(src, n) == DecodeTail(src, i, value, scale)
      decreases |src| - i
    {
      if i - 1 >= MAX_CONTINUATION_BYTES || i >= |src| {
        return None;
      }
      var b := src[i];
      value := value + Shifted(b % 0x80, scale);
      if value > MAX_INT_VALUE {
        return None;
      }
      scale := scale * 0x80;
      i := i + 1;
      if b < 0x80 {
        return Some(Read(value, i));
      }
    }
  }

  // ---------- Strings ----------

  /** The Huffman code of Appendix B, as the string representation uses it. */
  datatype Huffman = Huffman(encode: seq<byte> -> seq<byte>, decode: seq<byte> -> Option<seq<byte>>)

  ghost predicate Lawful(h: Huffman) {
    forall s: seq<byte> :: h.decode(h.encode(s)) == Some(s)
  }

  /** A string literal: its octets, and whether it travels Huffman-coded. */
  datatype Str = Str(text: seq<byte>, coded: bool)

  function Data(h: Huffman, s: Str): seq<byte> {
    if s.coded then h.encode(s.text) else s.text
  }

  /** The choice the encoder makes: coded when that is strictly shorter. */
  function Shorter(h: Huffman, text: seq<byte>): Str {
    Str(text, |h.encode(text)| < |text|)
  }

  /** Of the two forms of a text it is the shorter one, and the plain one if there is nothing between them. */
  lemma ShorterIsShortest(h: Huffman, text: seq<byte>, coded: bool)
    ensures var chosen, other := Shorter(h, text), Str(text, coded);
      && chosen.text == text
      && |Data(h, chosen)| <= |Data(h, other)|
      && (|Data(h, Str(text, false))| == |Data(h, Str(text, true))| ==> !chosen.coded)
  {
  }

  function EncodeString(h: Huffman, s: Str): seq<byte> {
    EncodeInt(if s.coded then 0x80 else 0, P7, |Data(h, s)|) + Data(h, s)
  }

  function DecodeString(h: Huffman, src: seq<byte>): (r: Option<Read<Str>>)
    ensures r.Some? ==> 1 <= r.value.consumed <= |src|
  {
    if src == [] then None
    else
      match DecodeInt(src, P7)
      case None => None
      case Some(Read(length, n)) =>
        if length > MAX_STRING_LEN || length > |src| - n then None
        else
          var data := src[n..n + length];
          if src[0] < 0x80 then Some(Read(Str(data, false), n + length))
          else
            match h.decode(data)
            case None => None
            case Some(text) => Some(Read(Str(text, true), n + length))
  }

  /**
    A string is read back as itself if and only if its octets on the wire are at most 2^24; a longer one is refused.
   */
  lemma StringRoundTrip(h: Huffman, s: Str, rest: seq<byte>)
    requires Lawful(h)
    ensures DecodeString(h, EncodeString(h, s) + rest)
         == if |Data(h, s)| <= MAX_STRING_LEN then Some(Read(s, |EncodeString(h, s)|)) else None
  {
    var flags: byte, data := if s.coded then 0x80 else 0, Data(h, s);
    var src := EncodeString(h, s) + rest;
    var head := EncodeInt(flags, P7, |data|);
    assert src == head + (data + rest);
    IntRoundTrip(flags, P7, |data|, data + rest);
    if |data| <= MAX_STRING_LEN {
      assert src[|head|..|head| + |data|] == data;
      assert s.coded ==> h.decode(h.encode(s.text)) == Some(s.text);
    }
  }
}
