/**
  The Huffman code HPACK compresses strings with, for any prefix-free table whose end-of-string word is thirty ones,
  as the table of Appendix B of RFC 7541 is: the accumulator that packs words into octets, and the trie walk that
  unpacks them. Every string has exactly one encoding that decodes, and it decodes to that string.
 */
module HuffmanCode {
  import opened Octets
  import opened H2

  type Bits = seq<bool>

  const EOS := 256

  // ---------- Numbers as bits ----------

  function Pow2(n: nat): (p: nat)
    ensures p >= 1
  {
    if n == 0 then 1 else 2 * Pow2(n - 1)
  }

  function Bit(b: bool): nat {
    if b then 1 else 0
  }

  /** The number that bits spell, most significant first. */
  function Val(bits: Bits): nat {
    if bits == [] then 0 else 2 * Val(bits[..|bits| - 1]) + Bit(bits[|bits| - 1])
  }

  /** The n low bits of v, most significant first. */
  function ToBits(v: nat, n: nat): (bits: Bits)
    ensures |bits| == n
  {
    if n == 0 then [] else ToBits(v / 2, n - 1) + [v % 2 == 1]
  }

  lemma ValSnoc(bits: Bits, b: bool)
    ensures Val(bits + [b]) == 2 * Val(bits) + Bit(b)
  {
    assert (bits + [b])[..|bits|] == bits;
  }

  lemma {:induction false} ValToBits(v: nat, n: nat)
    requires v < Pow2(n)
    ensures Val(ToBits(v, n)) == v
  {
    if n > 0 {
      ValToBits(v / 2, n - 1);
      ValSnoc(ToBits(v / 2, n - 1), v % 2 == 1);
      hide Val;
    }
  }

  lemma {:induction false} ToBitsVal(bits: Bits)
    ensures Val(bits) < Pow2(|bits|) && ToBits(Val(bits), |bits|) == bits
  {
    if bits != [] {
      ToBitsVal(bits[..|bits| - 1]);
    }
  }

  /** What is left of v in n bits. */
  function Low(v: nat, n: nat): nat {
    Val(ToBits(v, n))
  }

  function Octet(v: nat): byte {
    ToBitsVal(ToBits(v, 8));
    assert Pow2(8) == 0x100;
    Low(v, 8)
  }

  function ShiftLeft(v: nat, k: nat): nat {
    if k == 0 then v else 2 * ShiftLeft(v, k - 1)
  }

  function ShiftRight(v: nat, k: nat): nat {
    if k == 0 then v else ShiftRight(v / 2, k - 1)
  }

  lemma {:induction false} LowerBits(v: nat, n: nat, m: nat)
    requires m <= n
    ensures ToBits(v, n)[n - m..] == ToBits(v, m)
  {
    if m > 0 {
      LowerBits(v / 2, n - 1, m - 1);
    }
  }

  lemma BitsOfLow(v: nat, n: nat, m: nat)
    requires m <= n
    ensures ToBits(Low(v, n), m) == ToBits(v, m)
  {
    ToBitsVal(ToBits(v, n));
    LowerBits(v, n, m);
    LowerBits(Low(v, n), n, m);
  }

  lemma {:induction false} BitsOfShiftRight(v: nat, k: nat, n: nat)
    ensures ToBits(ShiftRight(v, k), n) == ToBits(v, n + k)[..n]
  {
    if k > 0 {
      BitsOfShiftRight(v / 2, k - 1, n);
    }
  }

  /** Shifting makes room for k more bits at the low end. */
  lemma {:induction false} BitsOfShiftLeft(v: nat, k: nat, more: nat, n: nat)
    requires more < Pow2(k)
    ensures ToBits(ShiftLeft(v, k) + more, n + k) == ToBits(v, n) + ToBits(more, k)
  {
    if k > 0 {
      BitsOfShiftLeft(v, k - 1, more / 2, n);
      assert (ShiftLeft(v, k) + more) / 2 == ShiftLeft(v, k - 1) + more / 2;
      assert (ShiftLeft(v, k) + more) % 2 == more % 2;
    }
  }

  // ---------- Octets as bits ----------

  function Unpack(s: seq<byte>): (bits: Bits)
    ensures |bits| == 8 * |s|
  {
    if s == [] then [] else ToBits(s[0], 8) + Unpack(s[1..])
  }

  function Pack(bits: Bits): (s: seq<byte>)
    requires |bits| % 8 == 0
    ensures 8 * |s| == |bits|
    decreases |bits|
  {
    if bits == [] then []
    else
      ToBitsVal(bits[..8]);
      assert Pow2(8) == 0x100;
      [Val(bits[..8])] + Pack(bits[8..])
  }

  lemma {:induction false} UnpackPack(bits: Bits)
    requires |bits| % 8 == 0
    ensures Unpack(Pack(bits)) == bits
    decreases |bits|
  {
    if bits != [] {
      UnpackPack(bits[8..]);
      ToBitsVal(bits[..8]);
      assert Pack(bits)[1..] == Pack(bits[8..]);
    }
  }

  lemma {:induction false} PackUnpack(s: seq<byte>)
    ensures Pack(Unpack(s)) == s
  {
    if s != [] {
      PackUnpack(s[1..]);
      assert Pow2(8) == 0x100;
      ValToBits(s[0], 8);
      assert Unpack(s)[..8] == ToBits(s[0], 8) && Unpack(s)[8..] == Unpack(s[1..]);
    }
  }

  lemma Associate(a: Bits, b: Bits, w: Bits)
    ensures a + (b + w) == a + b + w
  {
  }

  lemma {:induction false} UnpackSnoc(s: seq<byte>, b: byte)
    ensures Unpack(s + [b]) == Unpack(s) + ToBits(b, 8)
  {
    hide ToBits;
    if s == [] {
      assert [] + [b] == [b] && [b][1..] == [];
      assert Unpack([b]) == ToBits(b, 8) + Unpack([]);
    } else {
      assert (s + [b])[1..] == s[1..] + [b];
      UnpackSnoc(s[1..], b);
      Associate(ToBits(s[0], 8), Unpack(s[1..]), ToBits(b, 8));
    }
  }

  // ---------- The code ----------

  /** A word for each octet and one for the end of string: its value, and its length in bits. */
  datatype Code = Code(codes: seq<nat>, lens: seq<nat>)

  ghost predicate Sized(c: Code) {
    && |c.codes| == |c.lens| == EOS + 1
    && forall s | 0 <= s <= EOS :: 1 <= c.lens[s] <= 30 && c.codes[s] < Pow2(c.lens[s])
  }

  function Word(c: Code, s: nat): Bits
    requires s < |c.codes| == |c.lens|
  {
    ToBits(c.codes[s], c.lens[s])
  }

  ghost predicate AllOnes(bits: Bits) {
    forall i | 0 <= i < |bits| :: bits[i]
  }

  /** No word starts another, and the end of string is thirty ones. */
  ghost predicate PrefixFree(c: Code) {
    && Sized(c)
    && (forall s, t | 0 <= s <= EOS && 0 <= t <= EOS && Word(c, s) <= Word(c, t) :: s == t)
    && c.lens[EOS] == 30 && AllOnes(Word(c, EOS))
  }

  ghost function Words(c: Code, data: seq<byte>): Bits
    requires Sized(c)
  {
    if data == [] then [] else Word(c, data[0]) + Words(c, data[1..])
  }

  lemma {:induction false} WordsSnoc(c: Code, data: seq<byte>, b: byte)
    requires Sized(c)
    ensures Words(c, data + [b]) == Words(c, data) + Word(c, b)
  {
    if data == [] {
      assert [] + [b] == [b] && [b][1..] == [];
    } else {
      WordsSnoc(c, data[1..], b);
      assert (data + [b])[1..] == data[1..] + [b];
    }
  }

  function Ones(n: nat): (bits: Bits)
    ensures |bits| == n && AllOnes(bits)
  {
    seq(n, i => true)
  }

  /** Filled up to whole octets with ones. */
  function Padded(bits: Bits): (r: Bits)
    ensures |r| % 8 == 0
  {
    bits + Ones((8 - |bits| % 8) % 8)
  }

  ghost function Encoded(c: Code, data: seq<byte>): seq<byte>
    requires Sized(c)
  {
    Pack(Padded(Words(c, data)))
  }

  /** A walk that has taken path since the last symbol, with bits left to read. */
  ghost function DecodeBits(c: Code, path: Bits, bits: Bits): Option<seq<byte>>
    requires Sized(c)
    decreases |bits|
  {
    if bits == [] then (if |path| <= 7 && AllOnes(path) then Some([]) else None)
    else
      var next := path + [bits[0]];
      if !Starts(c, next) then None
      else if !IsWord(c, next) then DecodeBits(c, next, bits[1..])
      else if SymbolOf(c, next) == EOS then None
      else Prefixed([SymbolOf(c, next)], DecodeBits(c, [], bits[1..]))
  }

  function Prefixed(done: seq<byte>, r: Option<seq<byte>>): Option<seq<byte>> {
    if r.Some? then Some(done + r.value) else None
  }

  ghost predicate Starts(c: Code, path: Bits)
    requires Sized(c)
  {
    exists s :: 0 <= s <= EOS && path <= Word(c, s)
  }

  ghost predicate IsWord(c: Code, path: Bits)
    requires Sized(c)
  {
    exists s :: 0 <= s <= EOS && path == Word(c, s)
  }

  ghost function SymbolOf(c: Code, path: Bits): (s: nat)
    requires Sized(c) && IsWord(c, path)
    ensures s <= EOS && path == Word(c, s)
  {
    var s :| 0 <= s <= EOS && path == Word(c, s);
    s
  }

  // ---------- One encoding for each string ----------

  lemma FrontIsNoWord(c: Code, s: nat, k: nat)
    requires PrefixFree(c) && s <= EOS && k < |Word(c, s)|
    ensures !IsWord(c, Word(c, s)[..k])
  {
    forall t | 0 <= t <= EOS ensures Word(c, t) != Word(c, s)[..k] {
      if Word(c, t) <= Word(c, s) {
        assert t == s;
      }
    }
  }

  /** Walking the rest of a symbol's word reads that symbol. */
  lemma OneBitOn(c: Code, path: Bits, bits: Bits, bit: bool, rest: Bits, next: Bits)
    requires Sized(c) && bits == [bit] + rest && next == path + [bit] && Starts(c, next)
    ensures !IsWord(c, next) ==> DecodeBits(c, path, bits) == DecodeBits(c, next, rest)
    ensures IsWord(c, next) && SymbolOf(c, next) != EOS ==>
              DecodeBits(c, path, bits) == Prefixed([SymbolOf(c, next)], DecodeBits(c, [], rest))
  {
    hide Sized, Starts, IsWord;
    assert bits[0] == bit && bits[1..] == rest;
  }

  lemma NextSlice(w: Bits, k: nat, rest: Bits)
    requires k < |w|
    ensures w[k..] + rest == [w[k]] + (w[k + 1..] + rest) && w[..k] + [w[k]] == w[..k + 1]
    ensures k + 1 == |w| ==> w[..k + 1] == w && w[k + 1..] + rest == rest
  {
  }

  lemma FrontStarts(c: Code, s: nat, k: nat)
    requires Sized(c) && s <= EOS && k <= |Word(c, s)|
    ensures Starts(c, Word(c, s)[..k])
    ensures IsWord(c, Word(c, s))
  {
  }

  lemma {:induction false} WordIsRead(c: Code, s: byte, k: nat, rest: Bits)
    requires PrefixFree(c) && k < |Word(c, s)|
    ensures var w := Word(c, s);
      DecodeBits(c, w[..k], w[k..] + rest) == Prefixed([s], DecodeBits(c, [], rest))
    decreases |Word(c, s)| - k
  {
    var w := Word(c, s);
    assert Sized(c);
    hide Word, DecodeBits, Starts, IsWord, Sized, PrefixFree;
    NextSlice(w, k, rest);
    FrontStarts(c, s, k + 1);
    OneBitOn(c, w[..k], w[k..] + rest, w[k], w[k + 1..] + rest, w[..k + 1]);
    if k + 1 == |w| {
      OnlySymbol(c, s);
    } else {
      FrontIsNoWord(c, s, k + 1);
      WordIsRead(c, s, k + 1, rest);
    }
  }

  lemma OnlySymbol(c: Code, s: nat)
    requires PrefixFree(c) && s <= EOS && IsWord(c, Word(c, s))
    ensures SymbolOf(c, Word(c, s)) == s
  {
    hide Word;
    assert Word(c, SymbolOf(c, Word(c, s))) <= Word(c, s);
  }

  /** Up to seven ones after the last symbol are padding: they lead towards the end of string and not to it. */
  lemma {:induction false} PaddingIsRead(c: Code, k: nat, n: nat)
    requires PrefixFree(c) && k + n <= 7
    ensures DecodeBits(c, Ones(k), Ones(n)) == Some([])
    decreases n
  {
    if n > 0 {
      var next := Ones(k) + [true];
      var eos := Word(c, EOS);
      assert Ones(n)[0] && Ones(n)[1..] == Ones(n - 1) && next == Ones(k + 1);
      assert next == eos[..k + 1];
      assert Starts(c, next);
      FrontIsNoWord(c, EOS, k + 1);
      PaddingIsRead(c, k + 1, n - 1);
    }
  }

  lemma {:induction false} WordsAreRead(c: Code, data: seq<byte>, n: nat)
    requires PrefixFree(c) && n <= 7
    ensures DecodeBits(c, [], Words(c, data) + Ones(n)) == Some(data)
  {
    if data == [] {
      assert [] + Ones(n) == Ones(n);
      assert Ones(0) == [];
      PaddingIsRead(c, 0, n);
    } else {
      var w, rest := Word(c, data[0]), Words(c, data[1..]) + Ones(n);
      assert Words(c, data) + Ones(n) == w[0..] + rest;
      assert w[..0] == [];
      WordIsRead(c, data[0], 0, rest);
      WordsAreRead(c, data[1..], n);
      assert data == [data[0]] + data[1..];
    }
  }

  /** Whatever bits decode are the words of the result, and up to seven ones. */
  lemma {:induction false} DecodedIsWords(c: Code, path: Bits, bits: Bits)
    requires Sized(c) && DecodeBits(c, path, bits).Some?
    ensures var words := Words(c, DecodeBits(c, path, bits).value);
      && words <= path + bits && |path + bits| - |words| <= 7 && AllOnes((path + bits)[|words|..])
    decreases |bits|
  {
    if bits == [] {
      assert path + bits == path;
    } else {
      var next := path + [bits[0]];
      assert path + bits == next + bits[1..];
      if IsWord(c, next) {
        var s := SymbolOf(c, next);
        DecodedIsWords(c, [], bits[1..]);
        var data := DecodeBits(c, [], bits[1..]).value;
        assert ([s] + data)[1..] == data;
        assert [] + bits[1..] == bits[1..];
        assert (path + bits)[|next| + |Words(c, data)|..] == bits[1..][|Words(c, data)|..];
      } else {
        DecodedIsWords(c, next, bits[1..]);
      }
    }
  }

  ghost function Decoded(c: Code, src: seq<byte>): Option<seq<byte>>
    requires Sized(c)
  {
    DecodeBits(c, [], Unpack(src))
  }

  /** Octets decode to a string if and only if they are that string's encoding. */
  lemma OneEncoding(c: Code, src: seq<byte>, data: seq<byte>)
    requires PrefixFree(c)
    ensures Decoded(c, src) == Some(data) <==> src == Encoded(c, data)
  {
    EncodedDecodes(c, data);
    if Decoded(c, src) == Some(data) {
      DecodedIsEncoded(c, src);
    }
    hide *;
  }

  lemma EncodedDecodes(c: Code, data: seq<byte>)
    requires PrefixFree(c)
    ensures Decoded(c, Encoded(c, data)) == Some(data)
  {
    var words := Words(c, data);
    UnpackPack(Padded(words));
    WordsAreRead(c, data, (8 - |words| % 8) % 8);
    hide PrefixFree, DecodeBits, Unpack, Pack;
  }

  lemma DecodedIsEncoded(c: Code, src: seq<byte>)
    requires Sized(c) && Decoded(c, src).Some?
    ensures src == Encoded(c, Decoded(c, src).value)
  {
    var words := Words(c, Decoded(c, src).value);
    DecodedIsWords(c, [], Unpack(src));
    assert [] + Unpack(src) == Unpack(src);
    hide Unpack, Pack, DecodeBits, Words, Sized;
    PaddedIs(words, Unpack(src));
    PackUnpack(src);
  }

  /** There is one way to fill up to whole octets with at most seven ones. */
  lemma PaddedIs(words: Bits, bits: Bits)
    requires |bits| % 8 == 0 && words <= bits && |bits| - |words| <= 7 && AllOnes(bits[|words|..])
    ensures bits == Padded(words)
  {
    var n := |bits| - |words|;
    assert n == (8 - |words| % 8) % 8;
    assert bits[|words|..] == Ones(n);
    assert bits == words + bits[|words|..];
  }

  // ---------- Encoding ----------

  /** The source's accumulator is a uint64, which the longest word never fills. */
  const ACC_BITS := 64

  /** The accumulator with k more bits at its low end. */
  function ShiftIn(acc: nat, k: nat, more: nat): nat {
    Low(ShiftLeft(acc, k) + more, ACC_BITS)
  }

  lemma BitsOfShiftIn(acc: nat, k: nat, more: nat, nbits: nat)
    requires more < Pow2(k) && nbits + k <= ACC_BITS
    ensures ToBits(ShiftIn(acc, k, more), nbits + k) == ToBits(acc, nbits) + ToBits(more, k)
  {
    hide ToBits, ShiftLeft, Low, Pow2;
    var v := ShiftLeft(acc, k) + more;
    BitsOfLow(v, ACC_BITS, nbits + k);
    BitsOfShiftLeft(acc, k, more, nbits);
  }

  /** The octets written and the low nbits of the accumulator are the words so far. */
  ghost predicate Pending(dst: seq<byte>, acc: nat, nbits: nat, words: Bits) {
    Unpack(dst) + ToBits(acc, nbits) == words
  }

  /** One turn of the accumulator: a word comes in at the low end. */
  lemma WordComesIn(c: Code, dst: seq<byte>, acc: nat, nbits: nat, data: seq<byte>, i: nat)
    requires Sized(c) && i < |data| && nbits < 8 && Pending(dst, acc, nbits, Words(c, data[..i]))
    ensures var s := data[i];
      Pending(dst, ShiftIn(acc, c.lens[s], c.codes[s]), nbits + c.lens[s], Words(c, data[..i + 1]))
  {
    var s := data[i];
    WordsSnoc(c, data[..i], s);
    assert data[..i + 1] == data[..i] + [s];
    hide ToBits, ShiftIn, Pow2, Unpack, Words;
    BitsOfShiftIn(acc, c.lens[s], c.codes[s], nbits);
    Associate(Unpack(dst), ToBits(acc, nbits), Word(c, s));
  }

  lemma HighOctet(acc: nat, nbits: nat)
    ensures var pending := ToBits(acc, nbits + 8);
      pending[..8] == ToBits(Octet(ShiftRight(acc, nbits)), 8) && pending[8..] == ToBits(acc, nbits)
  {
    BitsOfLow(ShiftRight(acc, nbits), 8, 8);
    BitsOfShiftRight(acc, nbits, 8);
    LowerBits(acc, nbits + 8, nbits);
    hide ToBits, ShiftRight, Low;
  }

  lemma Regroup(u: Bits, a: Bits, b: Bits, w: Bits)
    requires |w| >= 8 && w[..8] == a && w[8..] == b
    ensures u + a + b == u + w
  {
    assert w == a + b;
  }

  /** And an octet goes out at the high end. */
  lemma OctetGoesOut(dst: seq<byte>, acc: nat, nbits: nat, words: Bits)
    requires Pending(dst, acc, nbits + 8, words)
    ensures Pending(dst + [Octet(ShiftRight(acc, nbits))], acc, nbits, words)
  {
    var b := Octet(ShiftRight(acc, nbits));
    hide Unpack, ToBits, ShiftRight, Low, Octet;
    UnpackSnoc(dst, b);
    HighOctet(acc, nbits);
    Regroup(Unpack(dst), ToBits(b, 8), ToBits(acc, nbits), ToBits(acc, nbits + 8));
  }

  lemma {:induction false} OnesAre(n: nat)
    ensures ToBits(Pow2(n) - 1, n) == Ones(n)
  {
    if n > 0 {
      OnesAre(n - 1);
      assert (Pow2(n) - 1) / 2 == Pow2(n - 1) - 1 && (Pow2(n) - 1) % 2 == 1;
      assert Ones(n) == Ones(n - 1) + [true];
    }
  }

  /** The accumulator filled up to eight bits with ones. */
  function Filled(acc: nat, nbits: nat): nat
    requires nbits < 8
  {
    ShiftIn(acc, 8 - nbits, Pow2(8 - nbits) - 1)
  }

  lemma FilledBits(acc: nat, nbits: nat)
    requires nbits < 8
    ensures ToBits(Filled(acc, nbits), 8) == ToBits(acc, nbits) + Ones(8 - nbits)
  {
    hide ToBits, ShiftIn, Pow2;
    BitsOfShiftIn(acc, 8 - nbits, Pow2(8 - nbits) - 1, nbits);
    OnesAre(8 - nbits);
  }

  lemma OctetBits(v: nat)
    ensures ToBits(Octet(v), 8) == ToBits(v, 8)
  {
    BitsOfLow(v, 8, 8);
  }

  /** The last octet is filled up with ones. */
  lemma LastOctet(dst: seq<byte>, acc: nat, nbits: nat, words: Bits)
    requires 0 < nbits < 8 && Pending(dst, acc, nbits, words)
    ensures Unpack(dst + [Octet(Filled(acc, nbits))]) == Padded(words)
  {
    var u, a := Unpack(dst), ToBits(acc, nbits);
    assert |u| % 8 == 0;
    hide Unpack, ToBits, Octet, Filled;
    OctetBits(Filled(acc, nbits));
    FilledBits(acc, nbits);
    UnpackSnoc(dst, Octet(Filled(acc, nbits)));
    PaddedSum(u, a);
  }

  lemma PaddedSum(u: Bits, a: Bits)
    requires |u| % 8 == 0 && 0 < |a| < 8
    ensures Padded(u + a) == u + (a + Ones(8 - |a|))
  {
    assert |u + a| % 8 == |a|;
    assert u + a + Ones(8 - |a|) == u + (a + Ones(8 - |a|));
  }

  lemma NothingPending(dst: seq<byte>, acc: nat, words: Bits)
    requires Pending(dst, acc, 0, words)
    ensures Unpack(dst) == Padded(words)
  {
    assert words == Unpack(dst) && words + Ones(0) == words;
  }

  lemma LensAreShort(c: Code)
    requires Sized(c)
    ensures |c.codes| == |c.lens| == EOS + 1 && forall b: byte :: 1 <= c.lens[b] <= 30
  {
  }

  /** Writes out every whole octet the accumulator holds. */
  method Emit(dst: seq<byte>, acc: nat, nbits: nat, ghost words: Bits) returns (out: seq<byte>, left: nat)
    requires Pending(dst, acc, nbits, words)
    ensures left < 8 && Pending(out, acc, left, words)
  {
    hide *;
    out, left := dst, nbits;
    while left >= 8
      invariant Pending(out, acc, left, words)
    {
      left := left - 8;
      OctetGoesOut(out, acc, left, words);
      out := out + [Octet(ShiftRight(acc, left))];
    }
  }

  lemma NothingWritten(c: Code, data: seq<byte>)
    requires Sized(c)
    ensures Pending([], 0, 0, Words(c, data[..0])) && data[..|data|] == data
  {
  }

  method Encode(c: Code, data: seq<byte>) returns (dst: seq<byte>)
    requires Sized(c)
    ensures dst == Encoded(c, data)
  {
    LensAreShort(c);
    NothingWritten(c, data);
    hide *;
    dst := [];
    var acc, nbits: nat := 0, 0;
    for i := 0 to |data|
      invariant nbits < 8 && Pending(dst, acc, nbits, Words(c, data[..i]))
    {
      WordComesIn(c, dst, acc, nbits, data, i);
      acc := ShiftIn(acc, c.lens[data[i]], c.codes[data[i]]);
      dst, nbits := Emit(dst, acc, nbits + c.lens[data[i]], Words(c, data[..i + 1]));
    }
    if nbits > 0 {
      LastOctet(dst, acc, nbits, Words(c, data));
      acc := Filled(acc, nbits);
      dst := dst + [Octet(acc)];
    } else {
      NothingPending(dst, acc, Words(c, data));
    }
    EncodedIs(c, data, dst);
  }

  lemma EncodedIs(c: Code, data: seq<byte>, dst: seq<byte>)
    requires Sized(c) && Unpack(dst) == Padded(Words(c, data))
    ensures dst == Encoded(c, data)
  {
    PackUnpack(dst);
  }

  /** The length of an encoding, without encoding. */
  method EncodedLen(c: Code, data: seq<byte>) returns (n: nat)
    requires Sized(c)
    ensures n == |Encoded(c, data)|
  {
    var bits := 0;
    for i := 0 to |data|
      invariant bits == |Words(c, data[..i])|
    {
      WordsSnoc(c, data[..i], data[i]);
      assert data[..i + 1] == data[..i] + [data[i]];
      bits := bits + c.lens[data[i]];
    }
    assert data[..|data|] == data;
    return (bits + 7) / 8;
  }
}
