/** Bytes and base-32 digits as runs of bits, high-order bit first. */
module Base32Bits {
  import opened Bytes

  /** Bit `k`, counted from the high-order end. */
  function Bit(b: Byte, k: nat): bool
    requires k < 8
  {
    b & Shr(0x80, k) != 0
  }

  function Shr(b: Byte, k: nat): Byte
    requires k < 8
  {
    if k < 4 then if k < 2 then (if k == 0 then b else b >> 1) else (if k == 2 then b >> 2 else b >> 3)
    else if k < 6 then (if k == 4 then b >> 4 else b >> 5) else (if k == 6 then b >> 6 else b >> 7)
  }

  /** What a left shift leaves in the low eight bits. */
  function Shl(b: Byte, k: nat): Byte
    requires k < 8
  {
    if k < 4 then if k < 2 then (if k == 0 then b else b << 1) else (if k == 2 then b << 2 else b << 3)
    else if k < 6 then (if k == 4 then b << 4 else b << 5) else (if k == 6 then b << 6 else b << 7)
  }

  lemma BitOfShr(b: Byte, s: nat, k: nat)
    requires s < 8 && k < 8
    ensures Bit(Shr(b, s), k) == (s <= k && Bit(b, k - s))
  {
  }

  lemma BitOfShl(b: Byte, s: nat, k: nat)
    requires s < 8 && k < 8
    ensures Bit(Shl(b, s), k) == (k + s < 8 && Bit(b, k + s))
  {
  }

  lemma BitOfOr(x: Byte, y: Byte, k: nat)
    requires k < 8
    ensures Bit(x | y, k) == (Bit(x, k) || Bit(y, k))
  {
  }

  lemma BitOfAnd(x: Byte, y: Byte, k: nat)
    requires k < 8
    ensures Bit(x & y, k) == (Bit(x, k) && Bit(y, k))
  {
  }

  lemma SmallBits(d: Byte, k: nat)
    requires d < 32 && k < 3
    ensures !Bit(d, k)
  {
  }

  lemma LowMask(s: nat, k: nat)
    requires s < 8 && k < 8
    ensures Bit(Shr(0xff, s), k) == (s <= k)
  {
  }

  lemma ZeroBits(k: nat)
    requires k < 8
    ensures !Bit(0, k)
  {
  }

  lemma SameBits(x: Byte, y: Byte)
    requires forall k :: 0 <= k < 8 ==> Bit(x, k) == Bit(y, k)
    ensures x == y
  {
    assert Bit(x, 0) == Bit(y, 0) && Bit(x, 1) == Bit(y, 1) && Bit(x, 2) == Bit(y, 2) && Bit(x, 3) == Bit(y, 3);
    assert Bit(x, 4) == Bit(y, 4) && Bit(x, 5) == Bit(y, 5) && Bit(x, 6) == Bit(y, 6) && Bit(x, 7) == Bit(y, 7);
  }

  /** Bit `p` of a message, zero beyond its end. */
  function BitAt(bytes: seq<Byte>, p: nat): bool {
    p / 8 < |bytes| && Bit(bytes[p / 8], p % 8)
  }

  /** Bit `p` of a run of five-bit digits, zero beyond its end. */
  function DigitBitAt(digits: seq<Byte>, p: nat): bool {
    p / 5 < |digits| && Bit(digits[p / 5], 3 + p % 5)
  }

  function ByteOf(b0: bool, b1: bool, b2: bool, b3: bool, b4: bool, b5: bool, b6: bool, b7: bool): Byte {
    (if b0 then 0x80 else 0) | (if b1 then 0x40 else 0) | (if b2 then 0x20 else 0) | (if b3 then 0x10 else 0)
    | (if b4 then 8 else 0) | (if b5 then 4 else 0) | (if b6 then 2 else 0) | (if b7 then 1 else 0)
  }

  lemma BitsOfByte(b0: bool, b1: bool, b2: bool, b3: bool, b4: bool, b5: bool, b6: bool, b7: bool)
    ensures var b := ByteOf(b0, b1, b2, b3, b4, b5, b6, b7);
      && Bit(b, 0) == b0 && Bit(b, 1) == b1 && Bit(b, 2) == b2 && Bit(b, 3) == b3
      && Bit(b, 4) == b4 && Bit(b, 5) == b5 && Bit(b, 6) == b6 && Bit(b, 7) == b7
  {
  }

  /** Digit `j` of a message: five of its bits. */
  function DigitAt(bytes: seq<Byte>, j: nat): (d: Byte)
    ensures d < 32
  {
    ByteOf(false, false, false, BitAt(bytes, 5 * j), BitAt(bytes, 5 * j + 1), BitAt(bytes, 5 * j + 2),
      BitAt(bytes, 5 * j + 3), BitAt(bytes, 5 * j + 4))
  }

  /** Byte `q` of a run of digits: eight of its bits. */
  function ByteAt(digits: seq<Byte>, q: nat): Byte {
    ByteOf(DigitBitAt(digits, 8 * q), DigitBitAt(digits, 8 * q + 1), DigitBitAt(digits, 8 * q + 2),
      DigitBitAt(digits, 8 * q + 3), DigitBitAt(digits, 8 * q + 4), DigitBitAt(digits, 8 * q + 5),
      DigitBitAt(digits, 8 * q + 6), DigitBitAt(digits, 8 * q + 7))
  }

  lemma BitsOfDigitAt(bytes: seq<Byte>, j: nat, k: nat)
    requires k < 5
    ensures Bit(DigitAt(bytes, j), 3 + k) == BitAt(bytes, 5 * j + k)
  {
    hide Bit, BitAt, ByteOf;
    BitsOfByte(false, false, false, BitAt(bytes, 5 * j), BitAt(bytes, 5 * j + 1), BitAt(bytes, 5 * j + 2),
      BitAt(bytes, 5 * j + 3), BitAt(bytes, 5 * j + 4));
  }

  lemma BitsOfByteAt(digits: seq<Byte>, q: nat, k: nat)
    requires k < 8
    ensures Bit(ByteAt(digits, q), k) == DigitBitAt(digits, 8 * q + k)
  {
    hide Bit, DigitBitAt, ByteOf;
    BitsOfByte(DigitBitAt(digits, 8 * q), DigitBitAt(digits, 8 * q + 1), DigitBitAt(digits, 8 * q + 2),
      DigitBitAt(digits, 8 * q + 3), DigitBitAt(digits, 8 * q + 4), DigitBitAt(digits, 8 * q + 5),
      DigitBitAt(digits, 8 * q + 6), DigitBitAt(digits, 8 * q + 7));
  }

  // --- one step of the encoder at bit `index` of a byte ---

  /** The digit inside one byte. */
  function Within(cur: Byte, index: nat): Byte
    requires index <= 3
  {
    Shr(cur, 8 - (index + 5)) & 0x1f
  }

  /** The digit across the end of a byte. */
  function Across(cur: Byte, next: Byte, index: nat): Byte
    requires 3 < index < 8
  {
    Shl(cur & Shr(0xff, index), (index + 5) % 8) | Shr(next, 8 - (index + 5) % 8)
  }

  lemma InnerDigit(cur: Byte, index: nat, k: nat)
    requires index <= 3 && k < 5
    ensures Within(cur, index) < 32 && Bit(Within(cur, index), 3 + k) == Bit(cur, index + k)
  {
    BitOfAnd(Shr(cur, 3 - index), 0x1f, 3 + k);
    BitOfShr(cur, 3 - index, 3 + k);
    LowMask(3, 3 + k);
  }

  lemma SpanningDigit(cur: Byte, next: Byte, index: nat, k: nat)
    requires 3 < index < 8 && k < 5
    ensures Across(cur, next, index) < 32
    ensures Bit(Across(cur, next, index), 3 + k)
      == if index + k < 8 then Bit(cur, index + k) else Bit(next, index + k - 8)
  {
    var moved := index - 3;
    assert (index + 5) % 8 == moved;
    BitOfOr(Shl(cur & Shr(0xff, index), moved), Shr(next, 8 - moved), 3 + k);
    BitOfShl(cur & Shr(0xff, index), moved, 3 + k);
    BitOfShr(next, 8 - moved, 3 + k);
    if index + k < 8 {
      BitOfAnd(cur, Shr(0xff, index), index + k);
      LowMask(index, index + k);
    }
  }

  // --- one step of the decoder at bit `index` of byte `offset` ---

  lemma DigitBitsAppend(digits: seq<Byte>, d: Byte, p: nat)
    ensures DigitBitAt(digits + [d], p)
      == if p < 5 * |digits| then DigitBitAt(digits, p) else p < 5 * |digits| + 5 && Bit(d, 3 + p % 5)
    ensures p >= 5 * |digits| ==> !DigitBitAt(digits, p)
  {
  }

  /** A longer run of digits agrees on the bits of the shorter one. */
  lemma DigitBitsPrefix(digits: seq<Byte>, more: seq<Byte>, p: nat)
    requires digits <= more && p < 5 * |digits|
    ensures DigitBitAt(digits, p) == DigitBitAt(more, p)
  {
  }

  /** Where the bits of a digit go when it starts at bit `index` of a byte. */
  function FirstPart(d: Byte, index: nat): Byte
    requires index < 8
  {
    if index <= 3 then Shl(d, 3 - index) else Shr(d, index - 3)
  }

  lemma BitsOfFirstPart(d: Byte, index: nat, k: nat)
    requires d < 32 && index < 8 && k < 8
    ensures Bit(FirstPart(d, index), k) == (index <= k < index + 5 && Bit(d, 3 + k - index))
  {
    if index <= 3 {
      BitOfShl(d, 3 - index, k);
      if k < index {
        SmallBits(d, k + 3 - index);
      }
    } else {
      BitOfShr(d, index - 3, k);
      if index - 3 <= k < index {
        SmallBits(d, k - (index - 3));
      }
    }
  }

  lemma BitsOfSecondPart(d: Byte, index: nat, k: nat)
    requires d < 32 && 3 < index < 8 && k < 8
    ensures Bit(Shl(d, 11 - index), k) == (k < index - 3 && Bit(d, 11 + k - index))
  {
    BitOfShl(d, 11 - index, k);
  }
}
