/** The streaming side of MD5 on values: what md5Update and md5Final do to the count and the live part of the
    buffer, and that any way of cutting a message into chunks ends in the digest of RFC 1321. */
module Md5Stream {
  import opened BlockHash
  import opened Bytes
  import opened JavaInts

  /** The chaining words, and the bytes of the buffer that still wait for a full block. */
  datatype Hash<W> = Hash(words: W, live: seq<Byte>)

  /** `low` and `high` are the two longs of the bit count. */
  datatype Context<W> = Context(hash: Hash<W>, low: int, high: int)

  function Start<W>(w: W): Hash<W> { Hash(w, []) }

  /** md5Init. */
  function Init<W>(w: W): Context<W> { Context(Start(w), 0, 0) }

  // --- the operations ---

  function Full(n: nat): (f: nat)
    ensures f <= n && f % 64 == 0 && n - f < 64
  {
    n - n % 64
  }

  /** Whole blocks are transformed, the rest stays live. */
  function Absorb<W>(f: (W, Block) -> W, h: Hash<W>, input: seq<Byte>): Hash<W> {
    var all := h.live + input;
    Hash(Blocks(f, h.words, all[..Full(|all|)]), all[Full(|all|)..])
  }

  function CountLow(low: int, n: nat): int {
    Int64(low + Int32(8 * n))
  }

  /** A carry is seen when the new low count is below what was added. */
  function CountHigh(low: int, high: int, n: nat): int {
    Int64(high + (if CountLow(low, n) < Int32(8 * n) then 1 else 0) + n / 0x2000_0000)
  }

  /** The index read from the count moves with the input, whatever wraps around above it. */
  lemma IndexMoves(low: int, n: nat)
    requires low % 8 == 0
    ensures CountLow(low, n) % 8 == 0 && CountLow(low, n) / 8 % 64 == (low / 8 % 64 + n) % 64
  {
    var a, b := (8 * n + 0x8000_0000) / 0x1_0000_0000,
        (low + Int32(8 * n) + 0x8000_0000_0000_0000) / 0x1_0000_0000_0000_0000;
    Mod64(low / 8, n, 0x80_0000 * a + 0x80_0000_0000_0000 * b);
    assert CountLow(low, n) == 8 * (low / 8 + n - 64 * (0x80_0000 * a + 0x80_0000_0000_0000 * b));
  }

  lemma Mod64(m: int, n: nat, q: int)
    ensures (m + n - 64 * q) % 64 == (m % 64 + n) % 64
  {
  }

  lemma Int64Twice(x: int, y: int, z: int)
    ensures Int64(Int64(x + y) + z) == Int64(x + y + z)
  {
  }

  function Update<W>(f: (W, Block) -> W, c: Context<W>, input: seq<Byte>): Context<W> {
    Context(Absorb(f, c.hash, input), CountLow(c.low, |input|), CountHigh(c.low, c.high, |input|))
  }

  function PadLength(index: nat): (k: nat)
    requires index < 64
    ensures 0 < k <= 64
  {
    if index < 56 then 56 - index else 120 - index
  }

  function Padding(k: nat): (p: seq<Byte>)
    requires 0 < k
    ensures |p| == k
  {
    [0x80] + Zeros(k - 1)
  }

  /** The count as md5Final saves it. */
  function Saved<W>(c: Context<W>): (b: seq<Byte>)
    ensures |b| == 8
  {
    BytesOf(Bits32(c.low)) + BytesOf(Bits32(c.high))
  }

  function Final<W>(f: (W, Block) -> W, c: Context<W>): W
    requires |c.hash.live| < 64
  {
    Update(f, Update(f, c, Padding(PadLength(|c.hash.live|))), Saved(c)).hash.words
  }

  function UpdateAll<W>(f: (W, Block) -> W, c: Context<W>, chunks: seq<seq<Byte>>): Context<W> {
    if chunks == [] then c else Update(f, UpdateAll(f, c, chunks[..|chunks| - 1]), chunks[|chunks| - 1])
  }

  function Flatten(chunks: seq<seq<Byte>>): seq<Byte> {
    if chunks == [] then [] else Flatten(chunks[..|chunks| - 1]) + chunks[|chunks| - 1]
  }

  // --- the two cases of md5Update ---

  /** Too little input for a block: all of it is buffered. */
  lemma AbsorbShort<W>(f: (W, Block) -> W, h: Hash<W>, input: seq<Byte>)
    requires |h.live| + |input| < 64
    ensures Absorb(f, h, input) == Hash(h.words, h.live + input)
  {
    var all := h.live + input;
    assert Full(|all|) == 0 && all[..0] == [] && all[0..] == all;
  }

  /** One block out of the buffer, further blocks out of the input up to `i`, and the rest is buffered. */
  lemma AbsorbLong<W>(f: (W, Block) -> W, h: Hash<W>, inbuf: seq<Byte>, n: nat, p: nat, i: nat)
    requires |h.live| + p == 64 && p <= i <= n < i + 64 && (i - p) % 64 == 0 && n <= |inbuf|
    ensures Absorb(f, h, inbuf[..n]) == Hash(Blocks(f, f(h.words, h.live + inbuf[..p]), inbuf[p..i]), inbuf[i..n])
    ensures (|h.live| + n) % 64 == n - i
  {
    hide Absorb, Blocks, Full;
    var first, rest := h.live + inbuf[..p], inbuf[p..n];
    assert h.live + inbuf[..n] == first + rest;
    var k := (i - p) / 64;
    FullAt(|rest|, k);
    FullAt(|h.live| + n, k + 1);
    assert rest[..i - p] == inbuf[p..i] && rest[i - p..] == inbuf[i..n];
    AbsorbIs(f, h, inbuf[..n]);
    SplitFull(first, rest);
    BlocksSplit(f, h.words, first, inbuf[p..i]);
    OneBlock(f, h.words, first);
  }

  lemma AbsorbIs<W>(f: (W, Block) -> W, h: Hash<W>, input: seq<Byte>)
    ensures var all := h.live + input;
      Absorb(f, h, input) == Hash(Blocks(f, h.words, all[..Full(|all|)]), all[Full(|all|)..])
  {
    hide Blocks, Full;
  }

  lemma OneBlock<W>(f: (W, Block) -> W, w: W, b: Block)
    ensures Blocks(f, w, b) == f(w, b)
  {
    assert [] + b == b;
    BlocksPush(f, w, [], b);
  }

  lemma FullAt(n: nat, k: nat)
    requires 64 * k <= n < 64 * k + 64
    ensures Full(n) == 64 * k && n % 64 == n - 64 * k
  {
  }

  // --- chunks ---

  /** Absorbing in two pieces is absorbing in one. */
  lemma AbsorbAppend<W>(f: (W, Block) -> W, h: Hash<W>, a: seq<Byte>, b: seq<Byte>)
    ensures Absorb(f, Absorb(f, h, a), b) == Absorb(f, h, a + b)
  {
    var all := h.live + a;
    var m := Full(|all|);
    var rest := all[m..] + b;
    assert h.live + (a + b) == all[..m] + rest;
    SplitFull(all[..m], rest);
    BlocksSplit(f, h.words, all[..m], rest[..Full(|rest|)]);
  }

  lemma SplitFull(a: seq<Byte>, b: seq<Byte>)
    requires |a| % 64 == 0
    ensures (a + b)[..Full(|a + b|)] == a + b[..Full(|b|)]
    ensures (a + b)[Full(|a + b|)..] == b[Full(|b|)..]
  {
    FullShift(|a|, |b|);
  }

  lemma FullShift(m: nat, n: nat)
    requires m % 64 == 0
    ensures Full(m + n) == m + Full(n)
  {
    var a, b := m / 64, n / 64;
    assert m == 64 * a && 64 * b <= n < 64 * b + 64;
    hide Full;
    FullAt(n, b);
    FullAt(m + n, a + b);
  }

  lemma {:induction false} ChunksAreOneStream<W>(f: (W, Block) -> W, c: Context<W>, chunks: seq<seq<Byte>>)
    requires |c.hash.live| < 64
    ensures UpdateAll(f, c, chunks).hash == Absorb(f, c.hash, Flatten(chunks))
  {
    if chunks == [] {
      var live := c.hash.live;
      assert live + [] == live && live[..Full(|live|)] == [] && live[Full(|live|)..] == live;
    } else {
      var front := chunks[..|chunks| - 1];
      ChunksAreOneStream(f, c, front);
      AbsorbAppend(f, c.hash, Flatten(front), chunks[|chunks| - 1]);
    }
  }

  /** Chunks below 2^28 bytes never carry: the low long runs past 32 bits and the high one stays zero. */
  lemma {:induction false} SmallChunksCount<W>(f: (W, Block) -> W, w: W, chunks: seq<seq<Byte>>)
    requires forall k :: 0 <= k < |chunks| ==> |chunks[k]| < 0x1000_0000
    requires 8 * |Flatten(chunks)| < 0x8000_0000_0000_0000
    ensures UpdateAll(f, Init(w), chunks).low == 8 * |Flatten(chunks)| && UpdateAll(f, Init(w), chunks).high == 0
  {
    if chunks != [] {
      var front, last := chunks[..|chunks| - 1], chunks[|chunks| - 1];
      SmallChunksCount(f, w, front);
      CountStep(8 * |Flatten(front)|, |last|);
    }
  }

  lemma CountStep(low: nat, n: nat)
    requires n < 0x1000_0000 && low + 8 * n < 0x8000_0000_0000_0000
    ensures CountLow(low, n) == low + 8 * n && CountHigh(low, 0, n) == 0
  {
    hide Int32, Int64;
    Int32Keeps(8 * n);
    Int64Keeps(low + 8 * n);
    Int64Keeps(0);
  }

  lemma Int32Keeps(m: nat)
    requires m < 0x8000_0000
    ensures Int32(m) == m
  {
  }

  lemma Int64Keeps(m: int)
    requires -0x8000_0000_0000_0000 <= m < 0x8000_0000_0000_0000
    ensures Int64(m) == m
  {
  }

  /** Below 2^28 bytes, the chunks leave exactly the context that one call leaves. */
  lemma ChunksAreOneCall<W>(f: (W, Block) -> W, w: W, chunks: seq<seq<Byte>>)
    requires |Flatten(chunks)| < 0x1000_0000
    ensures UpdateAll(f, Init(w), chunks) == Update(f, Init(w), Flatten(chunks))
  {
    forall k | 0 <= k < |chunks|
      ensures |chunks[k]| <= |Flatten(chunks)|
    {
      ChunkWithin(chunks, k);
    }
    SmallChunksCount(f, w, chunks);
    ChunksAreOneStream(f, Init(w), chunks);
    CountStep(0, |Flatten(chunks)|);
  }

  lemma {:induction false} ChunkWithin(chunks: seq<seq<Byte>>, k: nat)
    requires k < |chunks|
    ensures |chunks[k]| <= |Flatten(chunks)|
  {
    if k < |chunks| - 1 {
      ChunkWithin(chunks[..|chunks| - 1], k);
    }
  }

  // --- the digest ---

  lemma FinalAbsorbs<W>(f: (W, Block) -> W, c: Context<W>)
    requires |c.hash.live| < 64
    ensures Final(f, c) ==
      Absorb(f, Absorb(f, c.hash, Padding(PadLength(|c.hash.live|))), Saved(c)).words
  {
    hide Absorb, CountLow, CountHigh, Saved, Padding, PadLength;
  }

  lemma LiveLength<W>(f: (W, Block) -> W, w: W, msg: seq<Byte>)
    ensures |Absorb(f, Start(w), msg).live| == |msg| % 64
  {
    hide Blocks;
    assert |Start(w).live + msg| == |msg|;
  }

  /** md5Final transforms exactly the framed message. */
  lemma FinalFrames<W>(f: (W, Block) -> W, w: W, c: Context<W>, msg: seq<Byte>)
    requires c.hash == Absorb(f, Start(w), msg)
    ensures Final(f, c) == Blocks(f, w, Framed(msg, Saved(c)))
  {
    hide Absorb, Blocks, Framed, Final, Saved, Padding, PadLength;
    var padding, saved := Padding(PadLength(|msg| % 64)), Saved(c);
    LiveLength(f, w, msg);
    FinalAbsorbs(f, c);
    AbsorbAppend(f, Start(w), msg, padding);
    AbsorbAppend(f, Start(w), msg + padding, saved);
    PaddingFrames(msg, saved);
    AbsorbWhole(f, w, Framed(msg, saved));
  }

  lemma PaddingFrames(msg: seq<Byte>, saved: seq<Byte>)
    requires |saved| == 8
    ensures msg + Padding(PadLength(|msg| % 64)) + saved == Framed(msg, saved)
  {
    assert PadLength(|msg| % 64) == 1 + ZeroCount(|msg|);
  }

  lemma AbsorbWhole<W>(f: (W, Block) -> W, w: W, all: seq<Byte>)
    requires |all| % 64 == 0
    ensures Absorb(f, Start(w), all).words == Blocks(f, w, all)
  {
    hide Blocks, Absorb, Full;
    AbsorbIs(f, Start(w), all);
    FullAt(|all|, |all| / 64);
    assert Start(w).live + all == all && all[..|all|] == all;
  }

  /** One call of md5Update, for every length an int can have, then md5Final: the digest of RFC 1321. */
  lemma OneCallDigest<W>(f: (W, Block) -> W, w: W, msg: seq<Byte>)
    requires |msg| < 0x8000_0000
    ensures Final(f, Update(f, Init(w), msg)) == Blocks(f, w, Padded(msg))
  {
    OneCallCount(|msg|);
    FinalFrames(f, w, Update(f, Init(w), msg), msg);
  }

  lemma Int32Congruent(m: int)
    ensures Int32(m) % 0x1_0000_0000 == m % 0x1_0000_0000
  {
    Wrapped(m, (m + 0x8000_0000) / 0x1_0000_0000);
  }

  lemma Wrapped(m: int, q: int)
    ensures (m - 0x1_0000_0000 * q) % 0x1_0000_0000 == m % 0x1_0000_0000
  {
  }

  lemma HighBits(n: nat)
    ensures 8 * n / 0x1_0000_0000 == n / 0x2000_0000
  {
  }

  lemma OneCallCount(n: nat)
    requires n < 0x8000_0000
    ensures CountLow(0, n) % 0x1_0000_0000 == 8 * n % 0x1_0000_0000 && CountHigh(0, 0, n) == 8 * n / 0x1_0000_0000
  {
    hide Int32, Int64;
    Int32Congruent(8 * n);
    Int64Keeps(Int32(8 * n));
    Int64Keeps(n / 0x2000_0000);
    HighBits(n);
  }

  /** Any chunks below 2^28 bytes: what md5Final transforms is the message padded as RFC 1321 asks exactly while the
      bit length modulo 2^64 fits its low word. Beyond that the carry into the high word is missing. */
  lemma ChunkedDigest<W>(f: (W, Block) -> W, w: W, chunks: seq<seq<Byte>>)
    requires forall k :: 0 <= k < |chunks| ==> |chunks[k]| < 0x1000_0000
    requires 8 * |Flatten(chunks)| < 0x8000_0000_0000_0000
    ensures var msg, c := Flatten(chunks), UpdateAll(f, Init(w), chunks);
      && Final(f, c) == Blocks(f, w, Framed(msg, Saved(c)))
      && (Framed(msg, Saved(c)) == Padded(msg) <==> 8 * |msg| < 0x1_0000_0000)
  {
    var msg, c := Flatten(chunks), UpdateAll(f, Init(w), chunks);
    ChunksAreOneStream(f, Init(w), chunks);
    SmallChunksCount(f, w, chunks);
    FinalFrames(f, w, c, msg);
    FramedInjective(msg, Saved(c), LengthBytes(|msg|));
    LengthFits(|msg|);
  }

  lemma FramedInjective(msg: seq<Byte>, a: seq<Byte>, b: seq<Byte>)
    requires |a| == |b| == 8
    ensures Framed(msg, a) == Framed(msg, b) <==> a == b
  {
    var front := msg + [0x80] + Zeros(ZeroCount(|msg|));
    assert Framed(msg, a)[|front|..] == a && Framed(msg, b)[|front|..] == b;
  }

  lemma LengthFits(n: nat)
    requires 8 * n < 0x8000_0000_0000_0000
    ensures BytesOf(Bits32(8 * n)) + BytesOf(0) == LengthBytes(n) <==> 8 * n < 0x1_0000_0000
  {
    var low, high := BytesOf(Bits32(8 * n)), Bits32(8 * n / 0x1_0000_0000);
    assert (low + BytesOf(0))[4..] == BytesOf(0) && (low + BytesOf(high))[4..] == BytesOf(high);
    BytesRoundTrip(0);
    BytesRoundTrip(high);
    ZeroWord(8 * n / 0x1_0000_0000);
  }

  lemma ZeroWord(n: nat)
    requires n < 0x1_0000_0000
    ensures Bits32(n) == 0 <==> n == 0
  {
    if n as bv32 == 0 {
      assert (n as bv32) as int == n && (0 as bv32) as int == 0;
    }
  }
}
