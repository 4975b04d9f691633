/** HPACK over the Huffman code itself: the code is one HPACK may use, and there are texts it cannot carry. */
module HpackHuffman {
  import opened Octets
  import opened H2
  import opened DynamicTable
  import opened HpackPrimitives
  import HpackCodec
  import opened HpackRoundTrip
  import HuffmanCode
  import HuffmanTrie

  /** No word is empty, so the words of a text are at least as many bits as it has octets. */
  lemma {:induction false} WordsAreLong(c: HuffmanCode.Code, data: seq<byte>)
    requires HuffmanCode.Sized(c)
    ensures |HuffmanCode.Words(c, data)| >= |data|
  {
    if data != [] {
      WordsAreLong(c, data[1..]);
    }
  }

  /** A text of more than 2^27 octets does not fit a string literal in either form. */
  lemma LongTextIsNotShort(env: HpackCodec.Env, c: HuffmanCode.Code, text: seq<byte>)
    requires HuffmanCode.Sized(c) && env.huffman == HuffmanTrie.StringCode(c) && |text| > 8 * MAX_STRING_LEN
    ensures !Short(env, text)
  {
    WordsAreLong(c, text);
    hide HuffmanCode.Words, HuffmanCode.Pack;
    assert |env.huffman.encode(text)| == |HuffmanCode.Encoded(c, text)|;
  }

  /** So there is a connection that the encoder serves and the decoder ends: one field with such a value. */
  lemma SomeConnectionIsLost(env: HpackCodec.Env, c: HuffmanCode.Code) returns (f: Field)
    requires HuffmanCode.PrefixFree(c) && env.huffman == HuffmanTrie.StringCode(c) && HpackCodec.Sound(env)
    ensures Connection(env, [Send([f])]) == Failed
  {
    var text: seq<byte> := seq(8 * MAX_STRING_LEN + 1, i => 0);
    f := Field([0], text, false);
    LongTextIsNotShort(env, c, text);
    var events := [Send([f])];
    assert [f][0] == f && !AllShort(env, [f]);
    assert events[0] == Send([f]) && !AllSentShort(env, events);
    hide Connection, Short, HpackCodec.Sound, HuffmanCode.PrefixFree;
    EveryBlockArrives(env, events);
  }
}
