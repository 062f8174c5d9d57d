/**
 * Byte-level vocabulary shared by every part of the p44BTDMX model: the
 * unsigned 8-bit byte the protocol is written in, bitwise XOR on bytes, and
 * an Option type for parses that can fail.
 */
module Wire {

  /** An unsigned octet, as `uint8_t` (and, on the targets of this code, `char`) holds it. */
  type byte = x: int | 0 <= x < 256

  datatype Option<T> = None | Some(value: T)

  function Pow2(n: nat): (r: nat)
    ensures r >= 1
  {
    if n == 0 then 1 else 2 * Pow2(n - 1)
  }

  /** Bitwise exclusive or of the low `n` bits of `a` and `b`, least significant bit first. */
  function XorBits(a: nat, b: nat, n: nat): (r: nat)
    ensures r < Pow2(n)
  {
    if n == 0 then 0
    else (if a % 2 == b % 2 then 0 else 1) + 2 * XorBits(a / 2, b / 2, n - 1)
  }

  /** Bitwise exclusive or of two bytes. */
  function Xor(a: byte, b: byte): byte
  {
    XorBits(a, b, 8)
  }

  /** The low bit of an exclusive or and the rest of it. */
  lemma XorBitsSplit(a: nat, b: nat, n: nat)
    requires n > 0
    ensures XorBits(a, b, n) % 2 == (if a % 2 == b % 2 then 0 else 1)
    ensures XorBits(a, b, n) / 2 == XorBits(a / 2, b / 2, n - 1)
  {
  }

  lemma {:induction false} XorBitsCancel(a: nat, k: nat, n: nat)
    requires a < Pow2(n)
    ensures XorBits(XorBits(a, k, n), k, n) == a
  {
    if n > 0 {
      var x := XorBits(a, k, n);
      XorBitsSplit(a, k, n);
      XorBitsSplit(x, k, n);
      XorBitsCancel(a / 2, k / 2, n - 1);
    }
  }

  lemma {:induction false} XorBitsSame(a: nat, n: nat)
    requires a < Pow2(n)
    ensures XorBits(a, 0, n) == a
  {
    if n > 0 {
      XorBitsSame(a / 2, n - 1);
    }
  }

  lemma {:induction false} XorBitsKeyInjective(a: nat, k1: nat, k2: nat, n: nat)
    requires k1 < Pow2(n) && k2 < Pow2(n)
    requires XorBits(a, k1, n) == XorBits(a, k2, n)
    ensures k1 == k2
  {
    if n > 0 {
      XorBitsKeyInjective(a / 2, k1 / 2, k2 / 2, n - 1);
    }
  }

  lemma XorCancel(a: byte, k: byte)
    ensures Xor(Xor(a, k), k) == a
  {
    XorBitsCancel(a, k, 8);
  }

  lemma XorZero(a: byte)
    ensures Xor(a, 0) == a
  {
    XorBitsSame(a, 8);
  }

  lemma XorInjective(a: byte, b: byte, k: byte)
    requires Xor(a, k) == Xor(b, k)
    ensures a == b
  {
    XorCancel(a, k);
    XorCancel(b, k);
  }

  lemma XorNonzero(a: byte, e: byte)
    requires e != 0
    ensures Xor(a, e) != a
  {
    XorZero(a);
    if Xor(a, e) == a {
      XorBitsKeyInjective(a, e, 0, 8);
    }
  }
}
