/** The MD5 algorithm as RFC 1321 states it, on 32-bit words and the whole padded message. */
module Md5Rfc {
  import opened BlockHash
  import opened Bytes

  datatype Words = Words(a: Word, b: Word, c: Word, d: Word)

  /** Addition modulo 2^32. */
  function Plus(x: Word, y: Word): Word { x + y }

  // --- section 3.4: the auxiliary functions and the 64 operations ---

  function F(x: Word, y: Word, z: Word): Word { (x & y) | (!x & z) }
  function G(x: Word, y: Word, z: Word): Word { (x & z) | (y & !z) }
  function H(x: Word, y: Word, z: Word): Word { x ^ y ^ z }
  function I(x: Word, y: Word, z: Word): Word { y ^ (x | !z) }

  function Aux(i: nat, x: Word, y: Word, z: Word): Word {
    if i < 16 then F(x, y, z) else if i < 32 then G(x, y, z) else if i < 48 then H(x, y, z) else I(x, y, z)
  }

  function RotateLeft(x: Word, s: Word): Word
    requires s <= 32
  {
    (x << s) | (x >> (32 - s))
  }

  /** Bit `i`, counted from the low-order end. */
  function BitOf(x: Word, i: Word): Word
    requires i < 32
  {
    (x >> i) & 1
  }

  /** The rotation moves bit `i` up by `s` places, and to the bottom what would fall out at the top. */
  lemma RotateMovesBits(x: Word, s: Word, i: Word)
    requires 0 < s < 32 && i < 32
    ensures BitOf(RotateLeft(x, s), if i < 32 - s then i + s else i - (32 - s)) == BitOf(x, i)
  {
    hide BitOf, RotateLeft;
    RotateIs(x, s);
    if i < 32 - s {
      RotateUp(x, x, s, i);
    } else {
      RotateAround(x, x, s, i);
    }
  }

  lemma RotateIs(x: Word, s: Word)
    requires s <= 32
    ensures RotateLeft(x, s) == (x << s) | (x >> (32 - s))
  {
  }

  /** Of two words shifted together, the bits of the first move up, and the highest of the second come in below. */
  lemma RotateUp(x: Word, y: Word, s: Word, i: Word)
    requires 0 < s < 32 && i < 32 - s
    ensures BitOf((x << s) | (y >> (32 - s)), i + s) == BitOf(x, i)
  {
  }

  lemma RotateAround(x: Word, y: Word, s: Word, i: Word)
    requires 0 < s < 32 && 32 - s <= i < 32
    ensures BitOf((x << s) | (y >> (32 - s)), i - (32 - s)) == BitOf(y, i)
  {
  }

  /** The message word operation `i` uses. */
  function K(i: nat): (k: nat)
    ensures k < 16
  {
    if i < 16 then i else if i < 32 then (5 * i + 1) % 16 else if i < 48 then (3 * i + 5) % 16 else (7 * i) % 16
  }

  function Pick(r: int, a: Word, b: Word, c: Word, d: Word): Word {
    if r < 2 then (if r == 0 then a else b) else if r == 2 then c else d
  }

  /** The distance operation `i` rotates by. */
  function S(i: nat): (s: Word)
    ensures s <= 32
  {
    if i < 16 then Pick(i % 4, 7, 12, 17, 22)
    else if i < 32 then Pick(i % 4, 5, 9, 14, 20)
    else if i < 48 then Pick(i % 4, 4, 11, 16, 23)
    else Pick(i % 4, 6, 10, 15, 21)
  }

  /** 2^32 |sin(i + 1)|, rounded down. */
  function T(i: nat): Word {
    if i < 16 then T1(i)
    else if i < 32 then T2(i)
    else if i < 48 then T3(i)
    else T4(i)
  }

  function T1(i: nat): Word {
    if i < 8 then
      if i < 4 then Pick(i, 0xd76aa478, 0xe8c7b756, 0x242070db, 0xc1bdceee)
      else Pick(i - 4, 0xf57c0faf, 0x4787c62a, 0xa8304613, 0xfd469501)
    else
      if i < 12 then Pick(i - 8, 0x698098d8, 0x8b44f7af, 0xffff5bb1, 0x895cd7be)
      else Pick(i - 12, 0x6b901122, 0xfd987193, 0xa679438e, 0x49b40821)
  }

  function T2(i: nat): Word {
    if i < 24 then
      if i < 20 then Pick(i - 16, 0xf61e2562, 0xc040b340, 0x265e5a51, 0xe9b6c7aa)
      else Pick(i - 20, 0xd62f105d, 0x02441453, 0xd8a1e681, 0xe7d3fbc8)
    else
      if i < 28 then Pick(i - 24, 0x21e1cde6, 0xc33707d6, 0xf4d50d87, 0x455a14ed)
      else Pick(i - 28, 0xa9e3e905, 0xfcefa3f8, 0x676f02d9, 0x8d2a4c8a)
  }

  function T3(i: nat): Word {
    if i < 40 then
      if i < 36 then Pick(i - 32, 0xfffa3942, 0x8771f681, 0x6d9d6122, 0xfde5380c)
      else Pick(i - 36, 0xa4beea44, 0x4bdecfa9, 0xf6bb4b60, 0xbebfbc70)
    else
      if i < 44 then Pick(i - 40, 0x289b7ec6, 0xeaa127fa, 0xd4ef3085, 0x04881d05)
      else Pick(i - 44, 0xd9d4d039, 0xe6db99e5, 0x1fa27cf8, 0xc4ac5665)
  }

  function T4(i: nat): Word {
    if i < 56 then
      if i < 52 then Pick(i - 48, 0xf4292244, 0x432aff97, 0xab9423a7, 0xfc93a039)
      else Pick(i - 52, 0x655b59c3, 0x8f0ccc92, 0xffeff47d, 0x85845dd1)
    else
      if i < 60 then Pick(i - 56, 0x6fa87e4f, 0xfe2ce6e0, 0xa3014314, 0x4e0811a1)
      else Pick(i - 60, 0xf7537e82, 0xbd3af235, 0x2ad7d2bb, 0xeb86d391)
  }

  /** b + ((a + f + x + t) <<< s). */
  function Op(a: Word, b: Word, f: Word, x: Word, s: Word, t: Word): Word
    requires s <= 32
  {
    Plus(b, RotateLeft(Plus(a, Plus(Plus(f, x), t)), s))
  }

  /** One operation; the registers then change places. */
  function Step(i: nat, w: Words, x: seq<Word>): Words
    requires i < 64 && |x| == 16
  {
    Words(w.d, Op(w.a, w.b, Aux(i, w.b, w.c, w.d), x[K(i)], S(i), T(i)), w.b, w.c)
  }

  function Steps(n: nat, w: Words, x: seq<Word>): Words
    requires n <= 64 && |x| == 16
  {
    if n == 0 then w else Step(n - 1, Steps(n - 1, w, x), x)
  }

  function FourSteps(i: nat, w: Words, x: seq<Word>): Words
    requires i <= 60 && |x| == 16
  {
    Step(i + 3, Step(i + 2, Step(i + 1, Step(i, w, x), x), x), x)
  }

  lemma StepsByFour(i: nat, w: Words, x: seq<Word>)
    requires i <= 60 && |x| == 16
    ensures Steps(i + 4, w, x) == FourSteps(i, Steps(i, w, x), x)
  {
    assert Steps(i + 2, w, x) == Step(i + 1, Step(i, Steps(i, w, x), x), x);
  }

  lemma StepsByEight(i: nat, w: Words, x: seq<Word>)
    requires i <= 56 && |x| == 16
    ensures Steps(i + 8, w, x) == FourSteps(i + 4, FourSteps(i, Steps(i, w, x), x), x)
  {
    StepsByFour(i, w, x);
    StepsByFour(i + 4, w, x);
  }

  function WordsOf(block: Block): (x: seq<Word>)
    ensures |x| == 16
  {
    seq(16, i requires 0 <= i < 16 => WordOf(block[4 * i..4 * i + 4]))
  }

  function Transform(w: Words, block: Block): Words {
    var r := Steps(64, w, WordsOf(block));
    Words(Plus(w.a, r.a), Plus(w.b, r.b), Plus(w.c, r.c), Plus(w.d, r.d))
  }

  // --- section 3.3: initial buffer ---

  const INITIAL := Words(0x67452301, 0xefcdab89, 0x98badcfe, 0x10325476)

  // --- section 3.5: output ---

  function Output(w: Words): seq<Byte> {
    BytesOf(w.a) + BytesOf(w.b) + BytesOf(w.c) + BytesOf(w.d)
  }

  function Digest(msg: seq<Byte>): seq<Byte> {
    Output(Blocks(Transform, INITIAL, Padded(msg)))
  }
}
