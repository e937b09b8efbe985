/** The first test value of appendix A.5 of RFC 1321, worked through the algorithm four operations at a time. */
module Md5Vectors {
  import opened BlockHash
  import opened Bytes
  import opened Md5Rfc
  import opened Md5Transform
  import Md5Digest
  import Md5Stream

  // --- padding to one block, and printing ---

  /** Byte `i` of a padded message of at most 55 bytes. */
  function PaddedByte(msg: seq<Byte>, i: nat): Byte
    requires |msg| < 56 && i < 64
  {
    if i < |msg| then msg[i] else if i == |msg| then 0x80 else if i < 56 then 0 else LengthBytes(|msg|)[i - 56]
  }

  lemma OneBlockPadded(msg: seq<Byte>)
    requires |msg| < 56
    ensures |Padded(msg)| == 64
    ensures forall i :: 0 <= i < 64 ==> Padded(msg)[i] == PaddedByte(msg, i)
  {
    hide LengthBytes;
  }

  lemma SliceWord(p: Block, i: nat)
    requires i < 16
    ensures WordsOf(p)[i] == WordOf([p[4 * i], p[4 * i + 1], p[4 * i + 2], p[4 * i + 3]])
  {
    hide WordOf;
    assert p[4 * i..4 * i + 4] == [p[4 * i], p[4 * i + 1], p[4 * i + 2], p[4 * i + 3]];
  }

  lemma PaddedWord(msg: seq<Byte>, i: nat, b0: Byte, b1: Byte, b2: Byte, b3: Byte)
    requires |msg| < 56 && i < 16 && b0 == PaddedByte(msg, 4 * i) && b1 == PaddedByte(msg, 4 * i + 1)
    requires b2 == PaddedByte(msg, 4 * i + 2) && b3 == PaddedByte(msg, 4 * i + 3)
    ensures |Padded(msg)| == 64 && WordsOf(Padded(msg))[i] == WordOf([b0, b1, b2, b3])
  {
    hide Padded, PaddedByte, WordsOf, WordOf;
    OneBlockPadded(msg);
    SliceWord(Padded(msg), i);
  }

  lemma {:induction false} HexConcat(a: seq<Byte>, b: seq<Byte>)
    ensures Md5Digest.Hex(a + b) == Md5Digest.Hex(a) + Md5Digest.Hex(b)
  {
    hide Md5Digest.ByteHex;
    if b == [] {
      assert a + b == a;
    } else {
      var front, last := b[..|b| - 1], b[|b| - 1];
      assert (a + b)[..|a + b| - 1] == a + front;
      HexConcat(a, front);
    }
  }

  lemma HexOfFour(a: seq<Byte>, b: seq<Byte>, c: seq<Byte>, d: seq<Byte>)
    ensures Md5Digest.Hex(a + b + c + d)
         == Md5Digest.Hex(a) + Md5Digest.Hex(b) + Md5Digest.Hex(c) + Md5Digest.Hex(d)
  {
    HexConcat(a + b + c, d);
    HexConcat(a + b, c);
    HexConcat(a, b);
  }

  lemma {:induction false} HexIs(bytes: seq<Byte>, s: string)
    requires |s| == 2 * |bytes|
    requires forall k :: 0 <= k < |bytes| ==> [s[2 * k], s[2 * k + 1]] == Md5Digest.ByteHex(bytes[k])
    ensures Md5Digest.Hex(bytes) == s
  {
    hide Md5Digest.ByteHex;
    if bytes != [] {
      var n := |bytes| - 1;
      HexIs(bytes[..n], s[..2 * n]);
      assert s == s[..2 * n] + [s[2 * n], s[2 * n + 1]];
    }
  }

  // --- the empty message ---

  function EmptyBlock(): seq<Word> {
    [0x00000080, 0x00000000, 0x00000000, 0x00000000, 0x00000000, 0x00000000, 0x00000000, 0x00000000,
     0x00000000, 0x00000000, 0x00000000, 0x00000000, 0x00000000, 0x00000000, 0x00000000, 0x00000000]
  }

  lemma EmptyWords()
    ensures |EmptyBlock()| == 16
    ensures EmptyBlock()[0] == 0x00000080 && forall i :: 0 < i < 16 ==> EmptyBlock()[i] == 0
  {
  }

  lemma EmptyOps0()
    ensures Op(0x67452301, 0xefcdab89, F(0xefcdab89, 0x98badcfe, 0x10325476), 0x00000080, 7, 0xd76aa478) == 0xa5202774
    ensures Op(0x10325476, 0xa5202774, F(0xa5202774, 0xefcdab89, 0x98badcfe), 0x00000000, 12, 0xe8c7b756) == 0xf59592dd
    ensures Op(0x98badcfe, 0xf59592dd, F(0xf59592dd, 0xa5202774, 0xefcdab89), 0x00000000, 17, 0x242070db) == 0xe7f06b23
    ensures Op(0xefcdab89, 0xe7f06b23, F(0xe7f06b23, 0xf59592dd, 0xa5202774), 0x00000000, 22, 0xc1bdceee) == 0x1b163203
  {
  }

  lemma Empty0()
    ensures FourSteps(0, Words(0x67452301, 0xefcdab89, 0x98badcfe, 0x10325476), EmptyBlock())
         == Words(0xa5202774, 0x1b163203, 0xe7f06b23, 0xf59592dd)
  {
    Table1a();
    EmptyWords();
    EmptyOps0();
    hide K, S, T, EmptyBlock, Op;
  }

  lemma EmptyOps4()
    ensures Op(0xa5202774, 0x1b163203, F(0x1b163203, 0xe7f06b23, 0xf59592dd), 0x00000000, 7, 0xf57c0faf) == 0x32033344
    ensures Op(0xf59592dd, 0x32033344, F(0x32033344, 0x1b163203, 0xe7f06b23), 0x00000000, 12, 0x4787c62a) == 0x2f35d494
    ensures Op(0xe7f06b23, 0x2f35d494, F(0x2f35d494, 0x32033344, 0x1b163203), 0x00000000, 17, 0xa8304613) == 0xf5b158db
    ensures Op(0x1b163203, 0xf5b158db, F(0xf5b158db, 0x2f35d494, 0x32033344), 0x00000000, 22, 0xfd469501) == 0x9bc13ce9
  {
  }

  lemma Empty4()
    ensures FourSteps(4, Words(0xa5202774, 0x1b163203, 0xe7f06b23, 0xf59592dd), EmptyBlock())
         == Words(0x32033344, 0x9bc13ce9, 0xf5b158db, 0x2f35d494)
  {
    Table1a();
    EmptyWords();
    EmptyOps4();
    hide K, S, T, EmptyBlock, Op;
  }

  lemma EmptyOps8()
    ensures Op(0x32033344, 0x9bc13ce9, F(0x9bc13ce9, 0xf5b158db, 0x2f35d494), 0x00000000, 7, 0x698098d8) == 0x3893b991
    ensures Op(0x2f35d494, 0x3893b991, F(0x3893b991, 0x9bc13ce9, 0xf5b158db), 0x00000000, 12, 0x8b44f7af) == 0xfce4a312
    ensures Op(0xf5b158db, 0xfce4a312, F(0xfce4a312, 0x3893b991, 0x9bc13ce9), 0x00000000, 17, 0xffff5bb1) == 0xe1ef0576
    ensures Op(0x9bc13ce9, 0xe1ef0576, F(0xe1ef0576, 0xfce4a312, 0x3893b991), 0x00000000, 22, 0x895cd7be) == 0x70768a29
  {
  }

  lemma Empty8()
    ensures FourSteps(8, Words(0x32033344, 0x9bc13ce9, 0xf5b158db, 0x2f35d494), EmptyBlock())
         == Words(0x3893b991, 0x70768a29, 0xe1ef0576, 0xfce4a312)
  {
    Table1b();
    EmptyWords();
    EmptyOps8();
    hide K, S, T, EmptyBlock, Op;
  }

  lemma EmptyOps12()
    ensures Op(0x3893b991, 0x70768a29, F(0x70768a29, 0xe1ef0576, 0xfce4a312), 0x00000000, 7, 0x6b901122) == 0xf56c7cf1
    ensures Op(0xfce4a312, 0xf56c7cf1, F(0xf56c7cf1, 0x70768a29, 0xe1ef0576), 0x00000000, 12, 0xfd987193) == 0x374943a7
    ensures Op(0xe1ef0576, 0x374943a7, F(0x374943a7, 0xf56c7cf1, 0x70768a29), 0x00000000, 17, 0xa679438e) == 0x5aa53f75
    ensures Op(0x70768a29, 0x5aa53f75, F(0x5aa53f75, 0x374943a7, 0xf56c7cf1), 0x00000000, 22, 0x49b40821) == 0xd6819c6a
  {
  }

  lemma Empty12()
    ensures FourSteps(12, Words(0x3893b991, 0x70768a29, 0xe1ef0576, 0xfce4a312), EmptyBlock())
         == Words(0xf56c7cf1, 0xd6819c6a, 0x5aa53f75, 0x374943a7)
  {
    Table1b();
    EmptyWords();
    EmptyOps12();
    hide K, S, T, EmptyBlock, Op;
  }

  lemma EmptyOps16()
    ensures Op(0xf56c7cf1, 0xd6819c6a, G(0xd6819c6a, 0x5aa53f75, 0x374943a7), 0x00000000, 5, 0xf61e2562) == 0x1c7d7513
    ensures Op(0x374943a7, 0x1c7d7513, G(0x1c7d7513, 0xd6819c6a, 0x5aa53f75), 0x00000000, 9, 0xc040b340) == 0x7bd57a3a
    ensures Op(0x5aa53f75, 0x7bd57a3a, G(0x7bd57a3a, 0x1c7d7513, 0xd6819c6a), 0x00000000, 14, 0x265e5a51) == 0xc095f13a
    ensures Op(0xd6819c6a, 0xc095f13a, G(0xc095f13a, 0x7bd57a3a, 0x1c7d7513), 0x00000080, 20, 0xe9b6c7aa) == 0xbd782e17
  {
  }

  lemma Empty16()
    ensures FourSteps(16, Words(0xf56c7cf1, 0xd6819c6a, 0x5aa53f75, 0x374943a7), EmptyBlock())
         == Words(0x1c7d7513, 0xbd782e17, 0xc095f13a, 0x7bd57a3a)
  {
    Table2a();
    EmptyWords();
    EmptyOps16();
    hide K, S, T, EmptyBlock, Op;
  }

  lemma EmptyOps20()
    ensures Op(0x1c7d7513, 0xbd782e17, G(0xbd782e17, 0xc095f13a, 0x7bd57a3a), 0x00000000, 5, 0xd62f105d) == 0x3d1e3e6c
    ensures Op(0x7bd57a3a, 0x3d1e3e6c, G(0x3d1e3e6c, 0xbd782e17, 0xc095f13a), 0x00000000, 9, 0x02441453) == 0x68b7b3e3
    ensures Op(0xc095f13a, 0x68b7b3e3, G(0x68b7b3e3, 0x3d1e3e6c, 0xbd782e17), 0x00000000, 14, 0xd8a1e681) == 0xeb41643e
    ensures Op(0xbd782e17, 0xeb41643e, G(0xeb41643e, 0x68b7b3e3, 0x3d1e3e6c), 0x00000000, 20, 0xe7d3fbc8) == 0xe422531a
  {
  }

  lemma Empty20()
    ensures FourSteps(20, Words(0x1c7d7513, 0xbd782e17, 0xc095f13a, 0x7bd57a3a), EmptyBlock())
         == Words(0x3d1e3e6c, 0xe422531a, 0xeb41643e, 0x68b7b3e3)
  {
    Table2a();
    EmptyWords();
    EmptyOps20();
    hide K, S, T, EmptyBlock, Op;
  }

  lemma EmptyOps24()
    ensures Op(0x3d1e3e6c, 0xe422531a, G(0xe422531a, 0xeb41643e, 0x68b7b3e3), 0x00000000, 5, 0x21e1cde6) == 0x306ec122
    ensures Op(0x68b7b3e3, 0x306ec122, G(0x306ec122, 0xe422531a, 0xeb41643e), 0x00000000, 9, 0xc33707d6) == 0xd28c77c2
    ensures Op(0xeb41643e, 0xd28c77c2, G(0xd28c77c2, 0x306ec122, 0xe422531a), 0x00000000, 14, 0xf4d50d87) == 0xa3c663da
    ensures Op(0xe422531a, 0xa3c663da, G(0xa3c663da, 0xd28c77c2, 0x306ec122), 0x00000000, 20, 0x455a14ed) == 0xa0572807
  {
  }

  lemma Empty24()
    ensures FourSteps(24, Words(0x3d1e3e6c, 0xe422531a, 0xeb41643e, 0x68b7b3e3), EmptyBlock())
         == Words(0x306ec122, 0xa0572807, 0xa3c663da, 0xd28c77c2)
  {
    Table2b();
    EmptyWords();
    EmptyOps24();
    hide K, S, T, EmptyBlock, Op;
  }

  lemma EmptyOps28()
    ensures Op(0x306ec122, 0xa0572807, G(0xa0572807, 0xa3c663da, 0xd28c77c2), 0x00000000, 5, 0xa9e3e905) == 0x13707036
    ensures Op(0xd28c77c2, 0x13707036, G(0x13707036, 0xa0572807, 0xa3c663da), 0x00000000, 9, 0xfcefa3f8) == 0xae7813db
    ensures Op(0xa3c663da, 0xae7813db, G(0xae7813db, 0x13707036, 0xa0572807), 0x00000000, 14, 0x676f02d9) == 0x1c31c384
    ensures Op(0xa0572807, 0x1c31c384, G(0x1c31c384, 0xae7813db, 0x13707036), 0x00000000, 20, 0x8d2a4c8a) == 0xa2205f1f
  {
  }

  lemma Empty28()
    ensures FourSteps(28, Words(0x306ec122, 0xa0572807, 0xa3c663da, 0xd28c77c2), EmptyBlock())
         == Words(0x13707036, 0xa2205f1f, 0x1c31c384, 0xae7813db)
  {
    Table2b();
    EmptyWords();
    EmptyOps28();
    hide K, S, T, EmptyBlock, Op;
  }

  lemma EmptyOps32()
    ensures Op(0x13707036, 0xa2205f1f, H(0xa2205f1f, 0x1c31c384, 0xae7813db), 0x00000000, 4, 0xfffa3942) == 0xdf63eaa1
    ensures Op(0xae7813db, 0xdf63eaa1, H(0xdf63eaa1, 0xa2205f1f, 0x1c31c384), 0x00000000, 11, 0x8771f681) == 0xc3689f5b
    ensures Op(0x1c31c384, 0xc3689f5b, H(0xc3689f5b, 0xdf63eaa1, 0xa2205f1f), 0x00000000, 16, 0x6d9d6122) == 0x12f3e755
    ensures Op(0xa2205f1f, 0x12f3e755, H(0x12f3e755, 0xc3689f5b, 0xdf63eaa1), 0x00000000, 23, 0xfde5380c) == 0x004b6669
  {
  }

  lemma Empty32()
    ensures FourSteps(32, Words(0x13707036, 0xa2205f1f, 0x1c31c384, 0xae7813db), EmptyBlock())
         == Words(0xdf63eaa1, 0x004b6669, 0x12f3e755, 0xc3689f5b)
  {
    Table3a();
    EmptyWords();
    EmptyOps32();
    hide K, S, T, EmptyBlock, Op;
  }

  lemma EmptyOps36()
    ensures Op(0xdf63eaa1, 0x004b6669, H(0x004b6669, 0x12f3e755, 0xc3689f5b), 0x00000000, 4, 0xa4beea44) == 0x5f7a9b2e
    ensures Op(0xc3689f5b, 0x5f7a9b2e, H(0x5f7a9b2e, 0x004b6669, 0x12f3e755), 0x00000000, 11, 0x4bdecfa9) == 0xabc34e16
    ensures Op(0x12f3e755, 0xabc34e16, H(0xabc34e16, 0x5f7a9b2e, 0x004b6669), 0x00000000, 16, 0xf6bb4b60) == 0x91ca4cb7
    ensures Op(0x004b6669, 0x91ca4cb7, H(0x91ca4cb7, 0xabc34e16, 0x5f7a9b2e), 0x00000000, 23, 0xbebfbc70) == 0xc5dc8c15
  {
  }

  lemma Empty36()
    ensures FourSteps(36, Words(0xdf63eaa1, 0x004b6669, 0x12f3e755, 0xc3689f5b), EmptyBlock())
         == Words(0x5f7a9b2e, 0xc5dc8c15, 0x91ca4cb7, 0xabc34e16)
  {
    Table3a();
    EmptyWords();
    EmptyOps36();
    hide K, S, T, EmptyBlock, Op;
  }

  lemma EmptyOps40()
    ensures Op(0x5f7a9b2e, 0xc5dc8c15, H(0xc5dc8c15, 0x91ca4cb7, 0xabc34e16), 0x00000000, 4, 0x289b7ec6) == 0x4497169d
    ensures Op(0xabc34e16, 0x4497169d, H(0x4497169d, 0xc5dc8c15, 0x91ca4cb7), 0x00000080, 11, 0xeaa127fa) == 0x76fd93d4
    ensures Op(0x91ca4cb7, 0x76fd93d4, H(0x76fd93d4, 0x4497169d, 0xc5dc8c15), 0x00000000, 16, 0xd4ef3085) == 0xfd95f243
    ensures Op(0xc5dc8c15, 0xfd95f243, H(0xfd95f243, 0x76fd93d4, 0x4497169d), 0x00000000, 23, 0x04881d05) == 0x0fe32453
  {
  }

  lemma Empty40()
    ensures FourSteps(40, Words(0x5f7a9b2e, 0xc5dc8c15, 0x91ca4cb7, 0xabc34e16), EmptyBlock())
         == Words(0x4497169d, 0x0fe32453, 0xfd95f243, 0x76fd93d4)
  {
    Table3b();
    EmptyWords();
    EmptyOps40();
    hide K, S, T, EmptyBlock, Op;
  }

  lemma EmptyOps44()
    ensures Op(0x4497169d, 0x0fe32453, H(0x0fe32453, 0xfd95f243, 0x76fd93d4), 0x00000000, 4, 0xd9d4d039) == 0x3f55edfd
    ensures Op(0x76fd93d4, 0x3f55edfd, H(0x3f55edfd, 0x0fe32453, 0xfd95f243), 0x00000000, 11, 0xe6db99e5) == 0x22a31f54
    ensures Op(0xfd95f243, 0x22a31f54, H(0x22a31f54, 0x3f55edfd, 0x0fe32453), 0x00000000, 16, 0x1fa27cf8) == 0x68d84ea2
    ensures Op(0x0fe32453, 0x68d84ea2, H(0x68d84ea2, 0x22a31f54, 0x3f55edfd), 0x00000000, 23, 0xc4ac5665) == 0xca7d2dbd
  {
  }

  lemma Empty44()
    ensures FourSteps(44, Words(0x4497169d, 0x0fe32453, 0xfd95f243, 0x76fd93d4), EmptyBlock())
         == Words(0x3f55edfd, 0xca7d2dbd, 0x68d84ea2, 0x22a31f54)
  {
    Table3b();
    EmptyWords();
    EmptyOps44();
    hide K, S, T, EmptyBlock, Op;
  }

  lemma EmptyOps48()
    ensures Op(0x3f55edfd, 0xca7d2dbd, I(0xca7d2dbd, 0x68d84ea2, 0x22a31f54), 0x00000080, 6, 0xf4292244) == 0x93aa2577
    ensures Op(0x22a31f54, 0x93aa2577, I(0x93aa2577, 0xca7d2dbd, 0x68d84ea2), 0x00000000, 10, 0x432aff97) == 0x1688dc85
    ensures Op(0x68d84ea2, 0x1688dc85, I(0x1688dc85, 0x93aa2577, 0xca7d2dbd), 0x00000000, 15, 0xab9423a7) == 0xcd85b8cb
    ensures Op(0xca7d2dbd, 0xcd85b8cb, I(0xcd85b8cb, 0x1688dc85, 0x93aa2577), 0x00000000, 21, 0xfc93a039) == 0x561e0689
  {
  }

  lemma Empty48()
    ensures FourSteps(48, Words(0x3f55edfd, 0xca7d2dbd, 0x68d84ea2, 0x22a31f54), EmptyBlock())
         == Words(0x93aa2577, 0x561e0689, 0xcd85b8cb, 0x1688dc85)
  {
    Table4a();
    EmptyWords();
    EmptyOps48();
    hide K, S, T, EmptyBlock, Op;
  }

  lemma EmptyOps52()
    ensures Op(0x93aa2577, 0x561e0689, I(0x561e0689, 0xcd85b8cb, 0x1688dc85), 0x00000000, 6, 0x655b59c3) == 0x5625a114
    ensures Op(0x1688dc85, 0x5625a114, I(0x5625a114, 0x561e0689, 0xcd85b8cb), 0x00000000, 10, 0x8f0ccc92) == 0x3450f42b
    ensures Op(0xcd85b8cb, 0x3450f42b, I(0x3450f42b, 0x5625a114, 0x561e0689), 0x00000000, 15, 0xffeff47d) == 0x392ad0d0
    ensures Op(0x561e0689, 0x392ad0d0, I(0x392ad0d0, 0x3450f42b, 0x5625a114), 0x00000000, 21, 0x85845dd1) == 0x1e77fa61
  {
  }

  lemma Empty52()
    ensures FourSteps(52, Words(0x93aa2577, 0x561e0689, 0xcd85b8cb, 0x1688dc85), EmptyBlock())
         == Words(0x5625a114, 0x1e77fa61, 0x392ad0d0, 0x3450f42b)
  {
    Table4a();
    EmptyWords();
    EmptyOps52();
    hide K, S, T, EmptyBlock, Op;
  }

  lemma EmptyOps56()
    ensures Op(0x5625a114, 0x1e77fa61, I(0x1e77fa61, 0x392ad0d0, 0x3450f42b), 0x00000000, 6, 0x6fa87e4f) == 0x474a9c8c
    ensures Op(0x3450f42b, 0x474a9c8c, I(0x474a9c8c, 0x1e77fa61, 0x392ad0d0), 0x00000000, 10, 0xfe2ce6e0) == 0xdfce00bc
    ensures Op(0x392ad0d0, 0xdfce00bc, I(0xdfce00bc, 0x474a9c8c, 0x1e77fa61), 0x00000000, 15, 0xa3014314) == 0x36594b14
    ensures Op(0x1e77fa61, 0x36594b14, I(0x36594b14, 0xdfce00bc, 0x474a9c8c), 0x00000000, 21, 0x4e0811a1) == 0x30130182
  {
  }

  lemma Empty56()
    ensures FourSteps(56, Words(0x5625a114, 0x1e77fa61, 0x392ad0d0, 0x3450f42b), EmptyBlock())
         == Words(0x474a9c8c, 0x30130182, 0x36594b14, 0xdfce00bc)
  {
    Table4b();
    EmptyWords();
    EmptyOps56();
    hide K, S, T, EmptyBlock, Op;
  }

  lemma EmptyOps60()
    ensures Op(0x474a9c8c, 0x30130182, I(0x30130182, 0x36594b14, 0xdfce00bc), 0x00000000, 6, 0xf7537e82) == 0x7246fad3
    ensures Op(0xdfce00bc, 0x7246fad3, I(0x7246fad3, 0x30130182, 0x36594b14), 0x00000000, 10, 0xbd3af235) == 0x6e10a476
    ensures Op(0x36594b14, 0x6e10a476, I(0x6e10a476, 0x7246fad3, 0x30130182), 0x00000000, 15, 0x2ad7d2bb) == 0xff4ea3eb
    ensures Op(0x30130182, 0xff4ea3eb, I(0xff4ea3eb, 0x6e10a476, 0x7246fad3), 0x00000000, 21, 0xeb86d391) == 0x14e45506
  {
  }

  lemma Empty60()
    ensures FourSteps(60, Words(0x474a9c8c, 0x30130182, 0x36594b14, 0xdfce00bc), EmptyBlock())
         == Words(0x7246fad3, 0x14e45506, 0xff4ea3eb, 0x6e10a476)
  {
    Table4b();
    EmptyWords();
    EmptyOps60();
    hide K, S, T, EmptyBlock, Op;
  }

  lemma EmptyPadded0()
    ensures |Padded([])| == 64
    ensures WordsOf(Padded([]))[0] == 0x00000080
    ensures WordsOf(Padded([]))[1] == 0x00000000
    ensures WordsOf(Padded([]))[2] == 0x00000000
    ensures WordsOf(Padded([]))[3] == 0x00000000
  {
    hide Padded, WordsOf, LengthBytes;
    EmptyLength();
    PaddedWord([], 0, 0x80, 0x00, 0x00, 0x00);
    PaddedWord([], 1, 0x00, 0x00, 0x00, 0x00);
    PaddedWord([], 2, 0x00, 0x00, 0x00, 0x00);
    PaddedWord([], 3, 0x00, 0x00, 0x00, 0x00);
    assert WordOf([0x00, 0x00, 0x00, 0x00]) == 0x00000000;
    assert WordOf([0x80, 0x00, 0x00, 0x00]) == 0x00000080;
  }

  lemma EmptyPadded1()
    ensures |Padded([])| == 64
    ensures WordsOf(Padded([]))[4] == 0x00000000
    ensures WordsOf(Padded([]))[5] == 0x00000000
    ensures WordsOf(Padded([]))[6] == 0x00000000
    ensures WordsOf(Padded([]))[7] == 0x00000000
  {
    hide Padded, WordsOf, LengthBytes;
    EmptyLength();
    PaddedWord([], 4, 0x00, 0x00, 0x00, 0x00);
    PaddedWord([], 5, 0x00, 0x00, 0x00, 0x00);
    PaddedWord([], 6, 0x00, 0x00, 0x00, 0x00);
    PaddedWord([], 7, 0x00, 0x00, 0x00, 0x00);
    assert WordOf([0x00, 0x00, 0x00, 0x00]) == 0x00000000;
  }

  lemma EmptyPadded2()
    ensures |Padded([])| == 64
    ensures WordsOf(Padded([]))[8] == 0x00000000
    ensures WordsOf(Padded([]))[9] == 0x00000000
    ensures WordsOf(Padded([]))[10] == 0x00000000
    ensures WordsOf(Padded([]))[11] == 0x00000000
  {
    hide Padded, WordsOf, LengthBytes;
    EmptyLength();
    PaddedWord([], 8, 0x00, 0x00, 0x00, 0x00);
    PaddedWord([], 9, 0x00, 0x00, 0x00, 0x00);
    PaddedWord([], 10, 0x00, 0x00, 0x00, 0x00);
    PaddedWord([], 11, 0x00, 0x00, 0x00, 0x00);
    assert WordOf([0x00, 0x00, 0x00, 0x00]) == 0x00000000;
  }

  lemma EmptyPadded3()
    ensures |Padded([])| == 64
    ensures WordsOf(Padded([]))[12] == 0x00000000
    ensures WordsOf(Padded([]))[13] == 0x00000000
    ensures WordsOf(Padded([]))[14] == 0x00000000
    ensures WordsOf(Padded([]))[15] == 0x00000000
  {
    hide Padded, WordsOf, LengthBytes;
    EmptyLength();
    PaddedWord([], 12, 0x00, 0x00, 0x00, 0x00);
    PaddedWord([], 13, 0x00, 0x00, 0x00, 0x00);
    PaddedWord([], 14, 0x00, 0x00, 0x00, 0x00);
    PaddedWord([], 15, 0x00, 0x00, 0x00, 0x00);
    assert WordOf([0x00, 0x00, 0x00, 0x00]) == 0x00000000;
  }

  lemma EmptyPadded()
    ensures |Padded([])| == 64 && WordsOf(Padded([])) == EmptyBlock()
  {
    hide Padded, WordsOf, EmptyBlock;
    EmptyWords();
    EmptyPadded0();
    EmptyPadded1();
    EmptyPadded2();
    EmptyPadded3();
  }

  lemma EmptyLength()
    ensures LengthBytes(0) == [0x00, 0, 0, 0, 0, 0, 0, 0]
  {
    hide Bits32, BytesOf;
    SmallWords();
    SmallBytes();
  }

  lemma EmptySteps()
    ensures Steps(64, INITIAL, EmptyBlock()) == Words(0x7246fad3, 0x14e45506, 0xff4ea3eb, 0x6e10a476)
  {
    hide FourSteps, EmptyBlock;
    EmptyWords();
    StepsByFour(0, INITIAL, EmptyBlock());
    Empty0();
    StepsByFour(4, INITIAL, EmptyBlock());
    Empty4();
    StepsByFour(8, INITIAL, EmptyBlock());
    Empty8();
    StepsByFour(12, INITIAL, EmptyBlock());
    Empty12();
    StepsByFour(16, INITIAL, EmptyBlock());
    Empty16();
    StepsByFour(20, INITIAL, EmptyBlock());
    Empty20();
    StepsByFour(24, INITIAL, EmptyBlock());
    Empty24();
    StepsByFour(28, INITIAL, EmptyBlock());
    Empty28();
    StepsByFour(32, INITIAL, EmptyBlock());
    Empty32();
    StepsByFour(36, INITIAL, EmptyBlock());
    Empty36();
    StepsByFour(40, INITIAL, EmptyBlock());
    Empty40();
    StepsByFour(44, INITIAL, EmptyBlock());
    Empty44();
    StepsByFour(48, INITIAL, EmptyBlock());
    Empty48();
    StepsByFour(52, INITIAL, EmptyBlock());
    Empty52();
    StepsByFour(56, INITIAL, EmptyBlock());
    Empty56();
    StepsByFour(60, INITIAL, EmptyBlock());
    Empty60();
  }

  lemma EmptyTransformed()
    ensures |Padded([])| == 64
    ensures Transform(INITIAL, Padded([])) == Words(0xd98c1dd4, 0x04b2008f, 0x980980e9, 0x7e42f8ec)
  {
    hide Padded, WordsOf, Steps, EmptyBlock;
    EmptyPadded();
    EmptySteps();
  }

  lemma EmptyHex0()
    ensures Md5Digest.Hex(BytesOf(0xd98c1dd4)) == "D41D8CD9"
  {
    assert BytesOf(0xd98c1dd4) == [0xd4, 0x1d, 0x8c, 0xd9];
    HexIs([0xd4, 0x1d, 0x8c, 0xd9], "D41D8CD9");
  }

  lemma EmptyHex1()
    ensures Md5Digest.Hex(BytesOf(0x04b2008f)) == "8F00B204"
  {
    assert BytesOf(0x04b2008f) == [0x8f, 0x00, 0xb2, 0x04];
    HexIs([0x8f, 0x00, 0xb2, 0x04], "8F00B204");
  }

  lemma EmptyHex2()
    ensures Md5Digest.Hex(BytesOf(0x980980e9)) == "E9800998"
  {
    assert BytesOf(0x980980e9) == [0xe9, 0x80, 0x09, 0x98];
    HexIs([0xe9, 0x80, 0x09, 0x98], "E9800998");
  }

  lemma EmptyHex3()
    ensures Md5Digest.Hex(BytesOf(0x7e42f8ec)) == "ECF8427E"
  {
    assert BytesOf(0x7e42f8ec) == [0xec, 0xf8, 0x42, 0x7e];
    HexIs([0xec, 0xf8, 0x42, 0x7e], "ECF8427E");
  }

  lemma EmptyText()
    ensures "D41D8CD9" + "8F00B204" + "E9800998" + "ECF8427E" == "D41D8CD98F00B204E9800998ECF8427E"
  {
    assert "D41D8CD9" + "8F00B204" == "D41D8CD98F00B204";
    assert "D41D8CD98F00B204" + "E9800998" == "D41D8CD98F00B204E9800998";
  }

  /** The digest of "" is d41d8cd98f00b204e9800998ecf8427e. */
  lemma EmptyDigest()
    ensures Md5Digest.Hex(Digest([])) == "D41D8CD98F00B204E9800998ECF8427E"
  {
    hide Padded, Transform, Blocks, BytesOf, Md5Digest.Hex;
    EmptyTransformed();
    Md5Stream.OneBlock(Transform, INITIAL, Padded([]));
    HexOfFour(BytesOf(0xd98c1dd4), BytesOf(0x04b2008f), BytesOf(0x980980e9), BytesOf(0x7e42f8ec));
    EmptyHex0();
    EmptyHex1();
    EmptyHex2();
    EmptyHex3();
    EmptyText();
  }
}
