/** Octets and fixed-width unsigned integers, with their big-endian wire forms. */
module Octets {
  type byte = x: int | 0 <= x < 0x100
  type uint16 = x: int | 0 <= x < 0x1_0000
  type uint32 = x: int | 0 <= x < 0x1_0000_0000

  const TWO_TO_THE_32 := 0x1_0000_0000

  function Be16(v: uint16): (s: seq<byte>)
    ensures |s| == 2
  {
    [v / 0x100, v % 0x100]
  }

  function Be32(v: uint32): (s: seq<byte>)
    ensures |s| == 4
  {
    Be16(v / 0x1_0000) + Be16(v % 0x1_0000)
  }

  function Read16(s: seq<byte>): uint16
    requires |s| >= 2
  {
    var hi: int := s[0];
    hi * 0x100 + s[1]
  }

  function Read24(s: seq<byte>): uint32
    requires |s| >= 3
  {
    var a: int, b: int := s[0], s[1];
    a * 0x1_0000 + b * 0x100 + s[2]
  }

  function Read32(s: seq<byte>): uint32
    requires |s| >= 4
  {
    var hi: int := Read16(s);
    hi * 0x1_0000 + Read16(s[2..])
  }

  /** An octet with its top bit cleared: the mask 0x7f. */
  function ClearTop(b: byte): byte {
    if b >= 0x80 then b - 0x80 else b
  }

  /** A 32-bit field with its reserved top bit cleared: the mask 2^31-1. */
  function Mask31(v: uint32): uint32 {
    if v >= 0x8000_0000 then v - 0x8000_0000 else v
  }

  lemma Read16Be16(v: uint16, rest: seq<byte>)
    ensures Read16(Be16(v) + rest) == v
  {
  }

  lemma Be16Read16(s: seq<byte>)
    requires |s| >= 2
    ensures Be16(Read16(s)) == s[..2]
  {
  }

  lemma Read32Be32(v: uint32, rest: seq<byte>)
    ensures Read32(Be32(v) + rest) == v
  {
    Read16Be16(v / 0x1_0000, Be16(v % 0x1_0000) + rest);
    Read16Be16(v % 0x1_0000, rest);
    assert Be32(v) + rest == Be16(v / 0x1_0000) + (Be16(v % 0x1_0000) + rest);
    assert (Be32(v) + rest)[2..] == Be16(v % 0x1_0000) + rest;
  }

  lemma ReadWhole(v: uint32)
    ensures Read32(Be32(v)) == v
  {
    Read32Be32(v, []);
    assert Be32(v) + [] == Be32(v);
  }

  lemma Be32Read32(s: seq<byte>)
    requires |s| >= 4
    ensures Be32(Read32(s)) == s[..4]
  {
    Be16Read16(s);
    Be16Read16(s[2..]);
    assert s[..4] == s[..2] + s[2..][..2];
  }

  /** Masking a 32-bit field clears the top bit of its first octet and leaves the other three. */
  lemma MaskedOctets(v: uint32)
    ensures Be32(Mask31(v)) == [ClearTop(Be32(v)[0])] + Be32(v)[1..]
  {
    var hi := v / 0x1_0000;
    if v >= 0x8000_0000 {
      assert Mask31(v) / 0x1_0000 == hi - 0x8000 && Mask31(v) % 0x1_0000 == v % 0x1_0000;
      assert (hi - 0x8000) / 0x100 == hi / 0x100 - 0x80;
    }
  }

  lemma MaskedRead(s: seq<byte>)
    requires |s| >= 4
    ensures Be32(Mask31(Read32(s))) == [ClearTop(s[0])] + s[1..4]
  {
    MaskedOctets(Read32(s));
    Be32Read32(s);
  }

  function Concat(parts: seq<seq<byte>>): seq<byte> {
    if parts == [] then [] else parts[0] + Concat(parts[1..])
  }
}
