/**
 * The p44BTDMX payload codec: the system key, the 16-bit CRC and the
 * obfuscated frame layout shared by sender and receiver.
 *
 * A frame for plaintext `p` is `|p| + 2` bytes long: `p` followed by the
 * CRC of `p` (high byte first), every byte XORed with the key byte at its
 * position; key positions past the end of the key use 0x42.
 */
module Codec {
  import opened Wire
  import Crc16

  /** The 32 ASCII bytes of "NothingGreatButBetterThanNothing", used when no key is configured. */
  const DefaultKey: seq<byte> := [
    0x4E, 0x6F, 0x74, 0x68, 0x69, 0x6E, 0x67,        // Nothing
    0x47, 0x72, 0x65, 0x61, 0x74,                    // Great
    0x42, 0x75, 0x74,                                // But
    0x42, 0x65, 0x74, 0x74, 0x65, 0x72,              // Better
    0x54, 0x68, 0x61, 0x6E,                          // Than
    0x4E, 0x6F, 0x74, 0x68, 0x69, 0x6E, 0x67         // Nothing
  ]

  /** Key byte used for every position at or past the end of the system key. */
  const KeyFill: byte := 0x42

  /** User inputs of this many characters or more are read as hexadecimal. */
  const HexKeyInputLength := 64

  /**
   * The system key installed for a user input. `hexDecoded` is what the
   * hexadecimal decoder yields for `input` (only used for inputs of 64 or
   * more characters).
   */
  function KeyFromInput(input: seq<byte>, hexDecoded: seq<byte>): (key: seq<byte>)
    ensures input == [] ==> key == DefaultKey && |key| == 32
    ensures 0 < |input| < HexKeyInputLength ==> key == input
    ensures |input| >= HexKeyInputLength ==> key == hexDecoded
  {
    if input == [] then DefaultKey
    else if |input| >= HexKeyInputLength then hexDecoded
    else input
  }

  /** Key byte at frame position `i`. */
  function KeyByte(key: seq<byte>, i: nat): (r: byte)
    ensures i < |key| ==> r == key[i]
    ensures i >= |key| ==> r == KeyFill
  {
    if i >= |key| then KeyFill else key[i]
  }

  // ---------------------------------------------------------------- CRC

  /** The low `n` bits of `x` as a bit vector (bit i of the result is bit i of `x`). */
  function ToBits(x: nat, n: nat): bv8
    requires n <= 8
  {
    if n == 0 then 0 else (ToBits(x / 2, n - 1) << 1) | (if x % 2 == 1 then 1 else 0)
  }

  /** A byte as the `uint8_t` the CRC update takes. */
  function Bits(x: byte): bv8
  {
    ToBits(x, 8)
  }

  /**
   * The CRC of a plaintext: starting from 0, each byte in turn is folded in
   * with Crc16.Step, as the encode and decode loops do.
   */
  function Crc(s: seq<byte>): bv16
    decreases |s|
  {
    if s == [] then 0 else Crc16.Step(Crc(s[..|s| - 1]), Bits(s[|s| - 1]))
  }

  lemma CrcAppend(s: seq<byte>, b: byte)
    ensures Crc(s + [b]) == Crc16.Step(Crc(s), Bits(b))
  {
    assert (s + [b])[..|s|] == s;
  }

  /** The number whose low `n` bits are the low `n` bits of `v`. */
  function FromBits(v: bv16, n: nat): (r: nat)
    requires n <= 16
    ensures r < Pow2(n)
  {
    if n == 0 then 0 else (if v & 1 == 1 then 1 else 0) + 2 * FromBits(v >> 1, n - 1)
  }

  /** The two CRC bytes as they follow the plaintext: high byte first. */
  function CrcBytes(c: bv16): (r: seq<byte>)
    ensures |r| == 2
  {
    [FromBits(c >> 8, 8), FromBits(c, 8)]
  }

  lemma BitsOfCollisionBytes()
    ensures Bits(0x00) == 0x00 && Bits(0xDB) == 0xDB && Bits(0x8E) == 0x8E
  {
    assert ToBits(1, 1) == 1;
    assert ToBits(3, 2) == 3;
    assert ToBits(6, 3) == 6;
    assert ToBits(13, 4) == 13;
    assert ToBits(27, 5) == 27;
    assert ToBits(54, 6) == 54;
    assert ToBits(109, 7) == 109;
    assert ToBits(2, 2) == 2;
    assert ToBits(4, 3) == 4;
    assert ToBits(8, 4) == 8;
    assert ToBits(17, 5) == 17;
    assert ToBits(35, 6) == 35;
    assert ToBits(71, 7) == 71;
  }

  /** The plaintexts [0x00, 0x00] and [0xDB, 0x8E] have the same CRC. */
  lemma CrcCollision()
    ensures Crc([0x00, 0x00]) == Crc([0xDB, 0x8E])
  {
    BitsOfCollisionBytes();
    CrcAppend([0x00], 0x00);
    CrcAppend([0xDB], 0x8E);
    assert [0x00] + [0x00] == [0x00, 0x00];
    assert [0xDB] + [0x8E] == [0xDB, 0x8E];
    assert [0x00][..0] == [] && [0xDB][..0] == [];
    Crc16.TwoByteCollision();
  }

  // ---------------------------------------------------------------- frames

  /** `s` with byte `i` XORed with the key byte at position `from + i`. */
  function Scramble(key: seq<byte>, s: seq<byte>, from: nat): (r: seq<byte>)
    ensures |r| == |s|
    ensures forall i :: 0 <= i < |s| ==> r[i] == Xor(s[i], KeyByte(key, from + i))
    decreases |s|
  {
    if s == [] then [] else [Xor(s[0], KeyByte(key, from))] + Scramble(key, s[1..], from + 1)
  }

  /** Scrambling with the same key stream twice gives back the input. */
  lemma ScrambleTwice(key: seq<byte>, s: seq<byte>, from: nat)
    ensures Scramble(key, Scramble(key, s, from), from) == s
  {
    var r := Scramble(key, Scramble(key, s, from), from);
    forall i | 0 <= i < |s|
      ensures r[i] == s[i]
    {
      XorCancel(s[i], KeyByte(key, from + i));
    }
  }

  /** The frame for plaintext `p`: `p` and its CRC bytes, scrambled with the key stream from position 0. */
  function Encode(key: seq<byte>, p: seq<byte>): (f: seq<byte>)
    ensures |f| == |p| + 2
    ensures forall i :: 0 <= i < |p| ==> f[i] == Xor(p[i], KeyByte(key, i))
    ensures f[|p|] == Xor(CrcBytes(Crc(p))[0], KeyByte(key, |p|))
    ensures f[|p| + 1] == Xor(CrcBytes(Crc(p))[1], KeyByte(key, |p| + 1))
  {
    Scramble(key, p + CrcBytes(Crc(p)), 0)
  }

  /** A frame is its scrambled plaintext followed by its scrambled CRC bytes. */
  lemma EncodeLayout(key: seq<byte>, p: seq<byte>, body: seq<byte>, crc: bv16)
    requires |body| == |p| && forall j :: 0 <= j < |p| ==> body[j] == Xor(p[j], KeyByte(key, j))
    requires crc == Crc(p)
    ensures body + [Xor(CrcBytes(crc)[0], KeyByte(key, |p|)), Xor(CrcBytes(crc)[1], KeyByte(key, |p| + 1))]
      == Encode(key, p)
  {
  }

  /**
   * The receiver's decode of a frame of at least two bytes: unscramble, take
   * all but the last two bytes as plaintext and accept it only when the last
   * two bytes are its CRC (high byte first). Comparing the 16-bit value
   * `hi << 8 | lo` with the CRC, as the receiver does, is comparing both bytes.
   */
  function Decode(key: seq<byte>, f: seq<byte>): (r: Option<seq<byte>>)
    requires |f| >= 2
    ensures r.Some? ==> |r.value| == |f| - 2 && Encode(key, r.value) == f
  {
    var plain := Scramble(key, f, 0);
    var body := plain[..|f| - 2];
    if plain[|f| - 2..] == CrcBytes(Crc(body)) then
      ScrambleTwice(key, f, 0);
      assert body + plain[|f| - 2..] == plain;
      Some(body)
    else
      None
  }

  /** Decoding an encoded plaintext gives it back. */
  lemma DecodeEncode(key: seq<byte>, p: seq<byte>)
    ensures Decode(key, Encode(key, p)) == Some(p)
  {
    var q := p + CrcBytes(Crc(p));
    ScrambleTwice(key, q, 0);
    assert Scramble(key, Encode(key, p), 0) == q;
    assert q[..|p|] == p;
    assert q[|p|..] == CrcBytes(Crc(p));
  }

  /** A frame decodes to `p` exactly when it is the encoding of `p`; every other frame is rejected. */
  lemma DecodeExactly(key: seq<byte>, f: seq<byte>, p: seq<byte>)
    requires |f| >= 2
    ensures Decode(key, f) == Some(p) <==> Encode(key, p) == f
  {
    if Encode(key, p) == f {
      DecodeEncode(key, p);
    }
  }

  /** The scrambled plaintext part of a frame determines the plaintext. */
  lemma EncodeBodyDetermines(key: seq<byte>, p: seq<byte>, q: seq<byte>)
    requires |p| == |q| && Encode(key, p)[..|p|] == Encode(key, q)[..|q|]
    ensures p == q
  {
    var e, d := Encode(key, p), Encode(key, q);
    forall i | 0 <= i < |p|
      ensures p[i] == q[i]
    {
      assert e[i] == e[..|p|][i] == d[..|q|][i] == d[i];
      XorInjective(p[i], q[i], KeyByte(key, i));
    }
  }

  /** Any change confined to the two CRC bytes of a valid frame makes it fail the check. */
  lemma CrcFieldTamperRejected(key: seq<byte>, p: seq<byte>, hi: byte, lo: byte)
    requires [hi, lo] != Encode(key, p)[|p|..]
    ensures Decode(key, Encode(key, p)[..|p|] + [hi, lo]) == None
  {
    var f := Encode(key, p);
    var g := f[..|p|] + [hi, lo];
    assert g[..|p|] == f[..|p|] && g[|p|..] == [hi, lo];
    forall q: seq<byte>
      ensures Encode(key, q) != g
    {
      if |q| == |p| && Encode(key, q)[..|q|] == g[..|p|] {
        EncodeBodyDetermines(key, p, q);
      }
    }
  }

  /**
   * A frame whose plaintext bytes are replaced by those of another plaintext
   * with the same length and the same CRC still passes the check.
   */
  lemma SameCrcUndetected(key: seq<byte>, p: seq<byte>, q: seq<byte>)
    requires |p| == |q| && Crc(p) == Crc(q)
    ensures Decode(key, Encode(key, q)[..|q|] + Encode(key, p)[|p|..]) == Some(q)
  {
    var e, f := Encode(key, q), Encode(key, p);
    assert e[|q|..] == f[|p|..];
    assert e[..|q|] + f[|p|..] == e;
    DecodeEncode(key, q);
  }

  /**
   * The CRC is two-to-one in its state, so a two-byte corruption of a valid
   * frame can go unnoticed: in the frame for [0x00, 0x00], flipping the bits
   * 0xDB and 0x8E of the first two bytes gives the frame for [0xDB, 0x8E]
   * with the same CRC bytes, which is accepted.
   */
  lemma UndetectedTwoByteCorruption(key: seq<byte>)
    ensures Decode(key, Encode(key, [0xDB, 0x8E])[..2] + Encode(key, [0x00, 0x00])[2..]) == Some([0xDB, 0x8E])
  {
    CrcCollision();
    SameCrcUndetected(key, [0x00, 0x00], [0xDB, 0x8E]);
  }
}

/**
 * The crc16 update of p44BTDMX at bit level. It is kept apart from the
 * sequence-level codec so that its bit-vector facts are proved without any
 * other theory in scope.
 */
module Crc16 {

  /**
   * One crc16 update, bit for bit as the source computes it. The
   * intermediate is 16 bits wide, so `s ^ (s << 4)` keeps 12 bits and this
   * is not the textbook CRC-16/CCITT byte update (which keeps 8).
   */
  function Step(crc: bv16, b: bv8): bv16
  {
    var s0: bv16 := ((b as bv16) ^ crc) & 0xff;
    var s: bv16 := s0 ^ (s0 << 4);
    (crc >> 8) ^ (s << 8) ^ (s << 3) ^ (s >> 4)
  }

  /**
   * The 12-bit intermediate makes the update two-to-one in the CRC state:
   * two different two-byte inputs leave the CRC at the same value.
   */
  lemma TwoByteCollision()
    ensures Step(Step(0, 0x00), 0x00) == Step(Step(0, 0xDB), 0x8E)
  {
  }
}
