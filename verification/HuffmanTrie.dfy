/**
  The Huffman decoder: a trie built from the table once, and a walk over it bit by bit that starts again at the root
  after every symbol.
 */
module HuffmanTrie {
  import opened Octets
  import opened H2
  import opened HpackPrimitives
  import opened HuffmanCode

  /** A node of the trie, or no node. A leaf holds its symbol. */
  datatype Trie = Nil | Node(zero: Trie, one: Trie, leaf: Option<nat>)

  const ROOT := Node(Nil, Nil, None)

  function Child(t: Trie, bit: bool): Trie {
    if t.Nil? then Nil else if bit then t.one else t.zero
  }

  function Insert(t: Trie, word: Bits, s: nat): (r: Trie)
    ensures r.Node?
    decreases |word|
  {
    var n := if t.Nil? then ROOT else t;
    if word == [] then Node(n.zero, n.one, Some(s))
    else if word[0] then Node(n.zero, Insert(n.one, word[1..], s), n.leaf)
    else Node(Insert(n.zero, word[1..], s), n.one, n.leaf)
  }

  ghost function Walk(t: Trie, path: Bits): Trie
    decreases |path|
  {
    if path == [] then t else Walk(Child(t, path[0]), path[1..])
  }

  lemma {:induction false} WalkNil(path: Bits)
    ensures Walk(Nil, path) == Nil
  {
    if path != [] {
      WalkNil(path[1..]);
    }
  }

  function Leaf(t: Trie): Option<nat> {
    if t.Nil? then None else t.leaf
  }

  /**
    After a word is inserted its front leads somewhere and the word itself to its symbol, and nothing else is
    changed.
   */
  lemma {:induction false} WalkInserted(t: Trie, word: Bits, s: nat, path: Bits)
    ensures Walk(Insert(t, word, s), path).Node? <==> Walk(t, path).Node? || path <= word
    ensures Leaf(Walk(Insert(t, word, s), path)) == if path == word then Some(s) else Leaf(Walk(t, path))
    decreases |word|
  {
    if path != [] {
      var n := if t.Nil? then ROOT else t;
      WalkNil(path[1..]);
      if word != [] && word[0] == path[0] {
        WalkInserted(Child(n, word[0]), word[1..], s, path[1..]);
        assert path <= word <==> path[1..] <= word[1..];
        assert path == word <==> path[1..] == word[1..];
      }
    }
  }

  /** The trie after the first k symbols are inserted. */
  function Grown(c: Code, k: nat): (t: Trie)
    requires |c.codes| == |c.lens| == EOS + 1 && k <= EOS + 1
    ensures t.Node?
  {
    if k == 0 then ROOT else Insert(Grown(c, k - 1), Word(c, k - 1), k - 1)
  }

  method BuildTrie(c: Code) returns (root: Trie)
    requires Sized(c)
    ensures root == Grown(c, EOS + 1)
  {
    root := ROOT;
    for s := 0 to EOS + 1
      invariant root == Grown(c, s)
    {
      root := Insert(root, Word(c, s), s);
    }
  }

  lemma {:induction false} WalkGrown(c: Code, k: nat, path: Bits)
    requires Sized(c) && k <= EOS + 1
    ensures Walk(Grown(c, k), path).Node? <==> path == [] || exists s :: 0 <= s < k && path <= Word(c, s)
    ensures var leaf := Leaf(Walk(Grown(c, k), path));
      leaf.Some? <==> exists s :: 0 <= s < k && path == Word(c, s)
    ensures var leaf := Leaf(Walk(Grown(c, k), path));
      leaf.Some? ==> leaf.value < k && path == Word(c, leaf.value)
  {
    if k == 0 {
      if path != [] {
        WalkNil(path[1..]);
      }
    } else {
      WalkGrown(c, k - 1, path);
      WalkInserted(Grown(c, k - 1), Word(c, k - 1), k - 1, path);
    }
  }

  lemma {:induction false} WalkSnoc(t: Trie, path: Bits, bit: bool)
    ensures Walk(t, path + [bit]) == Child(Walk(t, path), bit)
    decreases |path|
  {
    if path == [] {
      assert [] + [bit] == [bit] && [bit][1..] == [];
    } else {
      WalkSnoc(Child(t, path[0]), path[1..], bit);
      assert (path + [bit])[1..] == path[1..] + [bit];
    }
  }

  /** The walk is at node n at the end of path, and the octets written and the bits left come to goal. */
  ghost predicate Walking(c: Code, n: Trie, dst: seq<byte>, left: Bits, path: Bits, goal: Option<seq<byte>>)
    requires Sized(c)
  {
    n == Walk(Grown(c, EOS + 1), path) && n.Node? && Prefixed(dst, DecodeBits(c, path, left)) == goal
  }

  lemma OneSymbol(c: Code, path: Bits, s: nat)
    requires PrefixFree(c) && s <= EOS && path == Word(c, s)
    ensures IsWord(c, path) && SymbolOf(c, path) == s && Starts(c, path)
  {
    OnlySymbol(c, s);
  }

  /** What the node after one more bit says of the path that leads to it. */
  lemma NextNode(c: Code, n: Trie, path: Bits, bit: bool)
    requires PrefixFree(c) && n == Walk(Grown(c, EOS + 1), path)
    ensures var next, child := path + [bit], Child(n, bit);
      && child == Walk(Grown(c, EOS + 1), next)
      && (child.Node? <==> Starts(c, next))
      && (Leaf(child).Some? <==> IsWord(c, next))
      && (Leaf(child).Some? ==> Leaf(child).value <= EOS && SymbolOf(c, next) == Leaf(child).value)
  {
    var next := path + [bit];
    WalkSnoc(Grown(c, EOS + 1), path, bit);
    WalkGrown(c, EOS + 1, next);
    hide Walk, Grown, Word;
    if Leaf(Child(n, bit)).Some? {
      OneSymbol(c, next, Leaf(Child(n, bit)).value);
    }
  }

  lemma NextStep(c: Code, n: Trie, dst: seq<byte>, left: Bits, path: Bits, goal: Option<seq<byte>>)
    requires PrefixFree(c) && Walking(c, n, dst, left, path, goal) && left != []
    ensures var child := Child(n, left[0]);
      && (child.Nil? ==> goal == None)
      && (child.Node? && child.leaf == None ==> Walking(c, child, dst, left[1..], path + [left[0]], goal))
      && (child.Node? && child.leaf == Some(EOS) ==> goal == None)
      && (child.Node? && child.leaf.Some? && child.leaf.value != EOS ==>
            child.leaf.value < EOS && Walking(c, Grown(c, EOS + 1), dst + [child.leaf.value], left[1..], [], goal))
  {
    NextNode(c, n, path, left[0]);
    hide Grown, Sized, PrefixFree, Starts, IsWord, Word;
    var rest := DecodeBits(c, [], left[1..]);
    var leaf := Leaf(Child(n, left[0]));
    if leaf.Some? && leaf.value < EOS && rest.Some? {
      assert dst + ([leaf.value] + rest.value) == dst + [leaf.value] + rest.value;
    }
  }

  lemma {:induction false} BitAt(v: nat, n: nat, k: nat)
    requires k < n
    ensures ToBits(v, n)[k] == (ShiftRight(v, n - 1 - k) % 2 == 1)
  {
    if k < n - 1 {
      BitAt(v / 2, n - 1, k);
    }
  }

  /** Bit k of octet b, the most significant first. */
  function BitOf(b: byte, k: nat): bool
    requires k < 8
  {
    ShiftRight(b, 7 - k) % 2 == 1
  }

  /** The bits that are left before bit k of octet i. */
  ghost function LeftAt(src: seq<byte>, i: nat, k: nat): Bits
    requires 8 * i + k <= 8 * |src|
  {
    Unpack(src)[8 * i + k..]
  }

  lemma {:induction false} OctetAt(src: seq<byte>, i: nat)
    requires i < |src|
    ensures Unpack(src)[8 * i..8 * i + 8] == ToBits(src[i], 8)
  {
    var head, tail := ToBits(src[0], 8), Unpack(src[1..]);
    assert Unpack(src) == head + tail;
    hide Unpack, ToBits;
    if i > 0 {
      OctetAt(src[1..], i - 1);
      SliceOfRest(head, tail, 8 * (i - 1));
    }
  }

  lemma SliceOfRest(head: Bits, tail: Bits, k: nat)
    requires |head| == 8 && k + 8 <= |tail|
    ensures (head + tail)[k + 8..k + 16] == tail[k..k + 8]
  {
  }

  lemma NextBit(src: seq<byte>, i: nat, k: nat)
    requires i < |src| && k < 8
    ensures LeftAt(src, i, k) != []
    ensures LeftAt(src, i, k)[0] == BitOf(src[i], k) && LeftAt(src, i, k)[1..] == LeftAt(src, i, k + 1)
  {
    OctetAt(src, i);
    BitAt(src[i], 8, k);
    assert Unpack(src)[8 * i + k] == Unpack(src)[8 * i..8 * i + 8][k];
  }

  /** Expands a string. The padding is at most seven bits, all ones; the end of string is never decoded. */
  method Decode(c: Code, root: Trie, src: seq<byte>) returns (r: Option<seq<byte>>)
    requires PrefixFree(c) && root == Grown(c, EOS + 1)
    ensures r == Decoded(c, src)
  {
    ghost var goal := Decoded(c, src);
    var n, depth: nat, allOnes, dst: seq<byte> := root, 0, true, [];
    ghost var path: Bits := [];
    WalkingAtStart(c, src);
    hide *;
    for i := 0 to |src|
      invariant depth == |path| && (allOnes <==> AllOnes(path))
      invariant Sized(c) && Walking(c, n, dst, LeftAt(src, i, 0), path, goal)
    {
      for k := 0 to 8
        invariant depth == |path| && (allOnes <==> AllOnes(path))
        invariant Walking(c, n, dst, LeftAt(src, i, k), path, goal)
      {
        var bit := BitOf(src[i], k);
        NextBit(src, i, k);
        NextStep(c, n, dst, LeftAt(src, i, k), path, goal);
        n := Child(n, bit);
        if n.Nil? {
          return None;
        }
        depth := depth + 1;
        if !bit {
          allOnes := false;
        }
        OnesSnoc(path, bit);
        path := path + [bit];
        if n.leaf.Some? {
          if n.leaf.value == EOS {
            return None;
          }
          dst := dst + [n.leaf.value];
          n, depth, allOnes := root, 0, true;
          path := [];
        }
      }
      NextOctet(src, i);
    }
    WalkingAtEnd(c, n, dst, LeftAt(src, |src|, 0), path, goal);
    if depth > 0 && (depth > 7 || !allOnes) {
      return None;
    }
    return Some(dst);
  }

  lemma WalkingAtStart(c: Code, src: seq<byte>)
    requires Sized(c)
    ensures Walking(c, Grown(c, EOS + 1), [], LeftAt(src, 0, 0), [], Decoded(c, src)) && AllOnes([])
  {
    assert LeftAt(src, 0, 0) == Unpack(src);
    if Decoded(c, src).Some? {
      assert [] + Decoded(c, src).value == Decoded(c, src).value;
    }
  }

  lemma WalkingAtEnd(c: Code, n: Trie, dst: seq<byte>, left: Bits, path: Bits, goal: Option<seq<byte>>)
    requires Sized(c) && Walking(c, n, dst, left, path, goal) && left == []
    ensures goal == if |path| <= 7 && AllOnes(path) then Some(dst) else None
    ensures path == [] ==> AllOnes(path)
  {
    assert dst + [] == dst;
  }

  lemma OnesSnoc(path: Bits, bit: bool)
    ensures AllOnes(path + [bit]) <==> AllOnes(path) && bit
    ensures AllOnes([])
  {
    if AllOnes(path + [bit]) {
      assert forall i | 0 <= i < |path| :: (path + [bit])[i] == path[i];
      assert (path + [bit])[|path|] == bit;
    }
  }

  lemma NextOctet(src: seq<byte>, i: nat)
    requires i < |src|
    ensures LeftAt(src, i, 8) == LeftAt(src, i + 1, 0)
    ensures i + 1 == |src| ==> LeftAt(src, i + 1, 0) == []
  {
  }

  /** The code as HPACK strings use it, with the round trip they rely on. */
  ghost function StringCode(c: Code): Huffman
    requires Sized(c)
  {
    Huffman(s => Encoded(c, s), s => Decoded(c, s))
  }

  lemma CodeIsLawful(c: Code)
    requires PrefixFree(c)
    ensures Lawful(StringCode(c))
  {
    forall s: seq<byte> ensures StringCode(c).decode(StringCode(c).encode(s)) == Some(s) {
      OneEncoding(c, Encoded(c, s), s);
    }
  }
}
