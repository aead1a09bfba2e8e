/** Bitwise or and exclusive or of bytes, and why or-ing exclusive-ors decides equality. */
module Bits {

  newtype byte = x: int | 0 <= x < 256

  function BitOr(x: nat, y: nat): nat {
    if x == 0 && y == 0 then 0
    else BitOr(x / 2, y / 2) * 2 + if x % 2 == 1 || y % 2 == 1 then 1 else 0
  }

  function BitXor(x: nat, y: nat): nat {
    if x == 0 && y == 0 then 0
    else BitXor(x / 2, y / 2) * 2 + if x % 2 != y % 2 then 1 else 0
  }

  lemma {:induction false} OrIsZeroIff(x: nat, y: nat)
    ensures BitOr(x, y) == 0 <==> x == 0 && y == 0
  {
    if x == 0 && y == 0 {
    } else {
      OrIsZeroIff(x / 2, y / 2);
    }
  }

  lemma {:induction false} XorIsZeroIff(x: nat, y: nat)
    ensures BitXor(x, y) == 0 <==> x == y
  {
    if x == 0 && y == 0 {
    } else {
      XorIsZeroIff(x / 2, y / 2);
    }
  }

  /** Bytes stay bytes. */
  lemma {:induction false} StaysBelow(x: nat, y: nat, bits: nat)
    requires x < PowerOfTwo(bits) && y < PowerOfTwo(bits)
    ensures BitOr(x, y) < PowerOfTwo(bits) && BitXor(x, y) < PowerOfTwo(bits)
    decreases bits
  {
    if bits == 0 {
    } else {
      StaysBelow(x / 2, y / 2, bits - 1);
    }
  }

  function PowerOfTwo(n: nat): nat {
    if n == 0 then 1 else 2 * PowerOfTwo(n - 1)
  }

  function ByteOr(x: byte, y: byte): byte {
    StaysBelow(x as nat, y as nat, 8);
    assert PowerOfTwo(8) == 256;
    BitOr(x as nat, y as nat) as byte
  }

  function ByteXor(x: byte, y: byte): byte {
    StaysBelow(x as nat, y as nat, 8);
    assert PowerOfTwo(8) == 256;
    BitXor(x as nat, y as nat) as byte
  }

  /** One round of the comparison loop. */
  lemma DifferenceAccumulates(diff: byte, x: byte, y: byte)
    ensures ByteOr(diff, ByteXor(x, y)) == 0 <==> diff == 0 && x == y
  {
    OrIsZeroIff(diff as nat, ByteXor(x, y) as nat);
    XorIsZeroIff(x as nat, y as nat);
  }
}
