/** The 64-bit arithmetic of the code: a long is its two 32-bit halves. */
module Md5Long {
  import opened BlockHash
  import opened Bytes
  import opened Md5Rfc

  datatype Long = Long(hi: Word, lo: Word)

  function Add(x: Long, y: Long): Long {
    var lo := Plus(x.lo, y.lo);
    Long(x.hi + y.hi + if lo < x.lo then 1 else 0, lo)
  }

  function And(x: Long, y: Long): Long { Long(x.hi & y.hi, x.lo & y.lo) }
  function Or(x: Long, y: Long): Long { Long(x.hi | y.hi, x.lo | y.lo) }
  function Xor(x: Long, y: Long): Long { Long(x.hi ^ y.hi, x.lo ^ y.lo) }
  function Not(x: Long): Long { Long(!x.hi, !x.lo) }

  function ShiftLeft(x: Long, s: Word): Long
    requires 0 < s < 32
  {
    Long((x.hi << s) | (x.lo >> (32 - s)), x.lo << s)
  }

  /** The unsigned right shift. */
  function ShiftRight(x: Long, s: Word): Long
    requires 0 < s < 32
  {
    Long(x.hi >> s, (x.hi << (32 - s)) | (x.lo >> s))
  }

  /** Assigning an int to a long extends its sign. */
  function FromInt(x: Word): Long {
    Long(if x & 0x8000_0000 == 0 then 0 else 0xFFFF_FFFF, x)
  }

  /** The bits of a number. */
  function LongOf(n: int): Long { Long(Bits32(n / 0x1_0000_0000), Bits32(n)) }

  function Constant(x: Word): Long { Long(0, x) }

  function F(x: Long, y: Long, z: Long): Long { Or(And(x, y), And(Not(x), z)) }
  function G(x: Long, y: Long, z: Long): Long { Or(And(x, z), And(y, Not(z))) }
  function H(x: Long, y: Long, z: Long): Long { Xor(Xor(x, y), z) }
  function I(x: Long, y: Long, z: Long): Long { Xor(y, Or(x, Not(z))) }

  /** What FF, GG, HH and II do with the value of their auxiliary function: the sum is cut to an
      int and rotated there, the result is sign-extended, and `b` is added to the long. */
  function Op(a: Long, b: Long, f: Long, x: Long, s: Word, ac: Long): (r: Long)
    requires s <= 32
  {
    Add(FromInt(RotateLeft(Add(a, Add(Add(f, x), ac)).lo, s)), b)
  }

  lemma PlusCommutes(x: Word, y: Word)
    ensures Plus(x, y) == Plus(y, x)
  {
  }

  lemma OpLow(a: Long, b: Long, f: Long, x: Long, s: Word, ac: Long)
    requires s <= 32
    ensures Op(a, b, f, x, s, ac).lo == Md5Rfc.Op(a.lo, b.lo, f.lo, x.lo, s, ac.lo)
  {
    PlusCommutes(b.lo, RotateLeft(Add(a, Add(Add(f, x), ac)).lo, s));
  }

  lemma FLow(x: Long, y: Long, z: Long)
    ensures F(x, y, z).lo == Md5Rfc.F(x.lo, y.lo, z.lo)
  {
  }

  lemma GLow(x: Long, y: Long, z: Long)
    ensures G(x, y, z).lo == Md5Rfc.G(x.lo, y.lo, z.lo)
  {
  }

  lemma HLow(x: Long, y: Long, z: Long)
    ensures H(x, y, z).lo == Md5Rfc.H(x.lo, y.lo, z.lo)
  {
  }

  lemma ILow(x: Long, y: Long, z: Long)
    ensures I(x, y, z).lo == Md5Rfc.I(x.lo, y.lo, z.lo)
  {
  }

  /** An int that becomes a long is its low half, and the 32 bits above are copies of the highest of the int. */
  lemma FromIntBits(x: Word, i: Word)
    requires i < 32
    ensures FromInt(x).lo == x && BitOf(FromInt(x).hi, i) == BitOf(x, 31)
  {
  }

  lemma LongOfHalves(high: int, low: int)
    requires 0 <= low < 0x1_0000_0000
    ensures LongOf(0x1_0000_0000 * high + low) == Long(Bits32(high), Bits32(low))
  {
    hide Bits32;
    Bits32Wraps(low, high);
    assert (0x1_0000_0000 * high + low) / 0x1_0000_0000 == high;
  }

  // --- bytes ---

  /** An unsigned byte. */
  function B2iu(b: Byte): Long { Constant(b as Word) }

  /** The four bytes of Decode, put together as longs. */
  function Joined(b0: Byte, b1: Byte, b2: Byte, b3: Byte): Long {
    Or(Or(Or(B2iu(b0), ShiftLeft(B2iu(b1), 8)), ShiftLeft(B2iu(b2), 16)), ShiftLeft(B2iu(b3), 24))
  }

  lemma JoinedIsWord(b0: Byte, b1: Byte, b2: Byte, b3: Byte)
    ensures Joined(b0, b1, b2, b3) == Constant(WordOf([b0, b1, b2, b3]))
  {
  }

  function LowByte(x: Long): Byte { (x.lo & 0xff) as Byte }

  lemma LowBytes(x: Long)
    ensures [LowByte(x), LowByte(ShiftRight(x, 8)), LowByte(ShiftRight(x, 16)), LowByte(ShiftRight(x, 24))]
        == BytesOf(x.lo)
  {
    assert ((x.lo >> 8) | (x.hi << 24)) & 0xff == (x.lo >> 8) & 0xff;
    assert ((x.lo >> 16) | (x.hi << 16)) & 0xff == (x.lo >> 16) & 0xff;
    assert ((x.lo >> 24) | (x.hi << 8)) & 0xff == (x.lo >> 24) & 0xff;
  }
}
