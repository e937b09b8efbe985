/** Sections 3.1 and 3.2 of RFC 1321, and hashing block by block with any compression function. */
module BlockHash {
  import opened Bytes

  type Word = bv32
  type Block = b: seq<Byte> | |b| == 64 witness Zeros(64)

  function Blocks<W>(f: (W, Block) -> W, w: W, bytes: seq<Byte>): W
    requires |bytes| % 64 == 0
  {
    if bytes == [] then w
    else f(Blocks(f, w, bytes[..|bytes| - 64]), bytes[|bytes| - 64..])
  }

  lemma {:induction false} BlocksSplit<W>(f: (W, Block) -> W, w: W, a: seq<Byte>, b: seq<Byte>)
    requires |a| % 64 == 0 && |b| % 64 == 0
    ensures Blocks(f, w, a + b) == Blocks(f, Blocks(f, w, a), b)
    decreases |b|
  {
    if b == [] {
      assert a + b == a;
    } else {
      var last := |b| - 64;
      BlocksSplit(f, w, a, b[..last]);
      assert (a + b)[..|a + b| - 64] == a + b[..last];
      assert (a + b)[|a + b| - 64..] == b[last..];
    }
  }

  lemma BlocksPush<W>(f: (W, Block) -> W, w: W, a: seq<Byte>, b: Block)
    requires |a| % 64 == 0
    ensures Blocks(f, w, a + b) == f(Blocks(f, w, a), b)
  {
    assert (a + b)[..|a + b| - 64] == a && (a + b)[|a + b| - 64..] == b;
  }

  // --- words and bytes ---

  /** Four bytes, low-order byte first. */
  function WordOf(b: seq<Byte>): Word
    requires |b| == 4
  {
    b[0] as bv32 | (b[1] as bv32 << 8) | (b[2] as bv32 << 16) | (b[3] as bv32 << 24)
  }

  function BytesOf(x: Word): (b: seq<Byte>)
    ensures |b| == 4
  {
    [(x & 0xff) as bv8, ((x >> 8) & 0xff) as bv8, ((x >> 16) & 0xff) as bv8, ((x >> 24) & 0xff) as bv8]
  }

  /** Encode and Decode are inverse on the low words. */
  lemma BytesRoundTrip(x: Word)
    ensures WordOf(BytesOf(x)) == x
  {
    assert (x & 0xff) | (((x >> 8) & 0xff) << 8) | (((x >> 16) & 0xff) << 16) | (((x >> 24) & 0xff) << 24) == x;
  }

  lemma WordRoundTrip(b: seq<Byte>)
    requires |b| == 4
    ensures BytesOf(WordOf(b)) == b
  {
  }

  /** Bit `j` of byte `k` is bit 8 k + j of the word, both counted from the low-order end. */
  lemma BytesHoldBits(x: Word, k: nat, j: bv8)
    requires k < 4 && j < 8
    ensures ((BytesOf(x)[k] >> j) & 1) as Word == (x >> (8 * k as bv32 + j as bv32)) & 1
  {
    if k == 0 {
    } else if k == 1 {
    } else if k == 2 {
    } else {
      assert k == 3;
    }
  }

  // --- padding and length ---

  /** Zero bytes that bring the message and its 0x80 to 56 modulo 64. */
  function ZeroCount(n: nat): (k: nat)
    ensures k < 64 && (n + 1 + k) % 64 == 56
  {
    (119 - n % 64) % 64
  }

  /** The low 32 bits of a number. */
  function Bits32(n: int): Word {
    (n % 0x1_0000_0000) as bv32
  }

  /** The length in bits as two 32-bit words, the low-order word first. */
  function LengthBytes(n: nat): (b: seq<Byte>)
    ensures |b| == 8
  {
    BytesOf(Bits32(8 * n)) + BytesOf(Bits32(8 * n / 0x1_0000_0000))
  }

  lemma Bits32Wraps(n: int, q: int)
    ensures Bits32(n + 0x1_0000_0000 * q) == Bits32(n)
  {
    assert (n + 0x1_0000_0000 * q) % 0x1_0000_0000 == n % 0x1_0000_0000;
  }

  lemma SmallWords()
    ensures Bits32(0) == 0 && Bits32(8) == 8 && Bits32(24) == 24
  {
  }

  lemma SmallBytes()
    ensures BytesOf(0) == [0, 0, 0, 0] && BytesOf(8) == [8, 0, 0, 0] && BytesOf(24) == [24, 0, 0, 0]
  {
  }

  /** The lengths in bits are 24, 8 * 2^32 + 24 and 2^64 + 8: the low-order word and byte come first, and a carry out of
      64 bits is lost. */
  lemma LengthsOf()
    ensures LengthBytes(3) == [24, 0, 0, 0, 0, 0, 0, 0]
    ensures LengthBytes(0x1_0000_0003) == [24, 0, 0, 0, 8, 0, 0, 0]
    ensures LengthBytes(0x2000_0000_0000_0001) == [8, 0, 0, 0, 0, 0, 0, 0]
  {
    hide Bits32, BytesOf;
    SmallWords();
    SmallBytes();
    Bits32Wraps(24, 8);
    Bits32Wraps(8, 0x1_0000_0000);
    Bits32Wraps(0, 1);
  }

  /** The message, 0x80, zeros, and the eight bytes of the length: whole blocks. */
  function Framed(msg: seq<Byte>, length: seq<Byte>): (p: seq<Byte>)
    requires |length| == 8
    ensures |p| % 64 == 0
  {
    msg + [0x80] + Zeros(ZeroCount(|msg|)) + length
  }

  function Padded(msg: seq<Byte>): (p: seq<Byte>)
    ensures |p| % 64 == 0
  {
    Framed(msg, LengthBytes(|msg|))
  }
}
