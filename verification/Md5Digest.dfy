/** The class MD5: its arrays, and its methods against the RFC. */
module Md5Digest {
  import opened BlockHash
  import opened Bytes
  import opened JavaInts
  import opened Md5Rfc
  import opened Md5Transform
  import opened Sequences
  import Md5Long
  import S = Md5Stream

  type Long = Md5Long.Long

  /** The 32 digits of byteHEX. */
  function Hex(bytes: seq<Byte>): (s: string)
    ensures |s| == 2 * |bytes|
  {
    if bytes == [] then [] else Hex(bytes[..|bytes| - 1]) + ByteHex(bytes[|bytes| - 1])
  }

  function ByteHex(b: Byte): (s: string)
    ensures |s| == 2
  {
    [DIGITS[((b >> 4) & 0xf) as int], DIGITS[(b & 0xf) as int]]
  }

  const DIGITS := "0123456789ABCDEF"

  /** The four longs of the state and the two of the count are named instead of indexed. */
  class MD5 {
    var state: Longs
    var count0: int
    var count1: int
    const buffer: array<Byte>
    const digest: array<Byte>
    var digestHexStr: string

    ghost predicate Shape() {
      buffer.Length == 64 && digest.Length == 16 && buffer != digest
    }

    ghost predicate Valid()
      reads `count0
    {
      Shape() && count0 % 8 == 0
    }

    function Index(): (k: nat)
      reads `count0
      ensures k < 64
    {
      count0 / 8 % 64
    }

    /** What the bytes behind the live part hold does not enter. */
    ghost function Value(): S.Context<Words>
      requires Shape()
      reads `state, `count0, `count1, buffer
    {
      S.Context(S.Hash(Low(state), buffer[..Index()]), count0, count1)
    }

    constructor ()
      ensures Valid() && Value() == S.Init(INITIAL)
      ensures fresh(buffer) && fresh(digest)
    {
      state := Start();
      count0, count1 := 0, 0;
      buffer, digest := new Byte[64], new Byte[16];
      digestHexStr := "";
    }

    method Md5Init()
      requires Shape()
      modifies `state, `count0, `count1
      ensures Valid() && Value() == S.Init(INITIAL)
    {
      count0, count1 := 0, 0;
      state := Start();
    }

    method Md5Transform(block: array<Byte>)
      requires block.Length == 64
      modifies `state
      ensures Low(state) == Transform(old(Low(state)), block[..])
    {
      var x := new Long[16];
      Decode(x, block, 64);
      DecodedWords(x[..], block[..]);
      var r := Rounds(state, x[..]);
      state := AddLongs(state, r);
    }

    /** `ok` is false for the ArrayIndexOutOfBoundsException: of a call with a length beyond the array, and of one whose
        loop test wraps around. The counts have advanced by then, and the whole blocks of the array are transformed. */
    method Md5Update(inbuf: array<Byte>, inputLen: nat) returns (ok: bool)
      requires Valid() && inputLen < 0x8000_0000 && inbuf.Length < 0x8000_0000 && inbuf != buffer
      modifies `state, `count0, `count1, buffer
      ensures Valid() && ok == (inputLen <= inbuf.Length && !Overruns(old(Index()), inputLen))
      ensures ok ==> Value() == S.Update(Transform, old(Value()), inbuf[..inputLen])
      ensures !ok ==>
        && count0 == S.CountLow(old(count0), inputLen)
        && count1 == S.CountHigh(old(count0), old(count1), inputLen)
        && Low(state) == S.Absorb(Transform, old(Value().hash), inbuf[..Min(inputLen, inbuf.Length)]).words
    {
      ghost var h := Value().hash;
      var index := Index();
      AddCount(inputLen);
      if inputLen >= 64 - index {
        ok := UpdateLong(inbuf, inputLen, index, h);
      } else {
        ok := UpdateShort(inbuf, inputLen, index, h);
        ShortIsSafe(index, inputLen);
      }
    }

    method UpdateLong(inbuf: array<Byte>, inputLen: nat, index: nat, ghost h: S.Hash<Words>) returns (ok: bool)
      requires Shape() && index < 64 && 64 - index <= inputLen < 0x8000_0000 && inbuf.Length < 0x8000_0000
      requires inbuf != buffer && h == S.Hash(Low(state), buffer[..index])
      modifies `state, buffer
      ensures ok == (inputLen <= inbuf.Length && !Overruns(index, inputLen))
      ensures ok ==>
        S.Hash(Low(state), buffer[..(index + inputLen) % 64]) == S.Absorb(Transform, h, inbuf[..inputLen])
      ensures !ok ==> Low(state) == S.Absorb(Transform, h, inbuf[..Min(inputLen, inbuf.Length)]).words
    {
      hide Transform, Blocks, S.Absorb, Low;
      var block, partLen := new Byte[64], 64 - index;
      if inbuf.Length < partLen {
        S.AbsorbShort(Transform, h, inbuf[..inbuf.Length]);
        return false;
      }
      TransformBuffer(inbuf, partLen, index, h.live);
      var i;
      ok, i := TransformRest(inbuf, inputLen, block, partLen);
      AbsorbParts(h, inbuf, Min(inputLen, inbuf.Length), partLen, i);
      if inbuf.Length < inputLen {
        ok := false;
      }
      if ok {
        Md5Memcpy(buffer, inbuf, 0, i, inputLen - i);
      }
    }

    method UpdateShort(inbuf: array<Byte>, inputLen: nat, index: nat, ghost h: S.Hash<Words>) returns (ok: bool)
      requires Shape() && index + inputLen < 64 && inbuf != buffer && h == S.Hash(Low(state), buffer[..index])
      modifies buffer
      ensures ok == (inputLen <= inbuf.Length)
      ensures ok ==>
        S.Hash(Low(state), buffer[..(index + inputLen) % 64]) == S.Absorb(Transform, h, inbuf[..inputLen])
      ensures !ok ==> Low(state) == S.Absorb(Transform, h, inbuf[..inbuf.Length]).words
    {
      ok := inputLen <= inbuf.Length;
      if !ok {
        S.AbsorbShort(Transform, h, inbuf[..inbuf.Length]);
        return;
      }
      Md5Memcpy(buffer, inbuf, index, 0, inputLen);
      S.AbsorbShort(Transform, h, inbuf[..inputLen]);
      assert buffer[..index + inputLen] == h.live + inbuf[..inputLen];
    }

    /** The first block is made whole in the buffer. */
    method TransformBuffer(inbuf: array<Byte>, partLen: nat, index: nat, ghost live: seq<Byte>)
      requires Shape() && index + partLen == 64 && partLen <= inbuf.Length && inbuf != buffer && live == buffer[..index]
      modifies `state, buffer
      ensures Low(state) == Transform(old(Low(state)), live + inbuf[..partLen])
    {
      Md5Memcpy(buffer, inbuf, index, 0, partLen);
      assert buffer[..] == live + inbuf[..partLen];
      Md5Transform(buffer);
    }

    /** The loop over whole blocks of the input. */
    method TransformRest(inbuf: array<Byte>, inputLen: int, block: array<Byte>, partLen: int)
        returns (ok: bool, i: int)
      requires Shape() && 0 < partLen <= 64 && partLen <= Min(inputLen, inbuf.Length)
      requires inputLen < 0x8000_0000 && inbuf.Length < 0x8000_0000
      requires block.Length == 64 && block != inbuf && block != buffer
      modifies `state, block
      ensures inputLen <= inbuf.Length ==> ok == (i + 63 < 0x8000_0000)
      ensures partLen <= i <= Min(inputLen, inbuf.Length) < i + 64 && (i - partLen) % 64 == 0
      ensures Low(state) == Blocks(Transform, old(Low(state)), inbuf[partLen..i])
    {
      hide Transform, Int32, Low, Blocks;
      ok, i := true, partLen;
      ghost var w := Low(state);
      NoBlocks(w, inbuf[..], partLen);
      while Int32(i + 63) < inputLen
        invariant partLen <= i <= Min(inputLen, inbuf.Length) && (i - partLen) % 64 == 0
        invariant Low(state) == Blocks(Transform, w, inbuf[partLen..i])
        decreases inputLen - i
      {
        LoopTest(i, inputLen, inbuf.Length);
        if inbuf.Length < i + 64 {
          ok := false;
          return;
        }
        TransformAt(inbuf, i, block);
        MoreBlocks(w, inbuf[..], partLen, i);
        i := i + 64;
      }
      LoopTest(i, inputLen, inbuf.Length);
    }

    method TransformAt(inbuf: array<Byte>, i: nat, block: array<Byte>)
      requires i + 64 <= inbuf.Length && block.Length == 64 && block != inbuf
      modifies `state, block
      ensures Low(state) == Transform(old(Low(state)), inbuf[i..i + 64])
    {
      Md5Memcpy(block, inbuf, 0, i, 64);
      assert block[..] == inbuf[i..i + 64];
      Md5Transform(block);
    }

    method AddCount(inputLen: int)
      requires Valid() && 0 <= inputLen < 0x8000_0000
      modifies `count0, `count1
      ensures Valid()
      ensures count0 == S.CountLow(old(count0), inputLen)
      ensures count1 == S.CountHigh(old(count0), old(count1), inputLen)
      ensures Index() == (old(Index()) + inputLen) % 64
    {
      hide Int32, Int64;
      var bits := Int32(8 * inputLen);
      S.IndexMoves(count0, inputLen);
      count0 := Int64(count0 + bits);
      if count0 < bits {
        S.Int64Twice(count1, 1, inputLen / 0x2000_0000);
        count1 := Int64(count1 + 1);
      }
      count1 := Int64(count1 + inputLen / 0x2000_0000);
    }

    /** The bit count as eight bytes, the padding, the count, and the digest. */
    method Md5Final()
      requires Valid()
      modifies `state, `count0, `count1, buffer, digest
      ensures Valid() && digest[..] == Output(S.Final(Transform, old(Value())))
    {
      ghost var c := Value();
      var bits := SavedCount();
      Pad();
      ghost var padded := Value();
      NoOverrunBelow(Index(), 8);
      var ok := Md5Update(bits, 8);
      assert Value() == S.Update(Transform, padded, S.Saved(c)) by {
        assert bits[..8] == bits[..];
      }
      EncodeDigest();
    }

    method Pad()
      requires Valid()
      modifies `state, `count0, `count1, buffer
      ensures Valid() && Value() == S.Update(Transform, old(Value()), S.Padding(S.PadLength(old(Index()))))
    {
      hide Transform, S.Update, S.Padding, Overruns;
      var index := Index();
      var padLen := if index < 56 then 56 - index else 120 - index;
      var padding := Padding(padLen);
      NoOverrunBelow(index, padLen);
      var ok := Md5Update(padding, padLen);
    }

    method SavedCount() returns (bits: array<Byte>)
      requires Shape()
      ensures fresh(bits) && bits.Length == 8 && bits[..] == S.Saved(Value())
    {
      hide BytesOf;
      bits := new Byte[8];
      ghost var longs := [Md5Long.LongOf(count0), Md5Long.LongOf(count1)];
      Encode(bits, [Md5Long.LongOf(count0), Md5Long.LongOf(count1)], 8);
      Halves(bits);
      assert bits[0..4] == BytesOf(longs[0].lo) && bits[4..8] == BytesOf(longs[1].lo);
    }

    method EncodeDigest()
      requires Shape()
      modifies digest
      ensures digest[..] == Output(Low(state))
    {
      hide BytesOf;
      ghost var longs := [state.a, state.b, state.c, state.d];
      Encode(digest, [state.a, state.b, state.c, state.d], 16);
      assert digest[0..4] == BytesOf(longs[0].lo) && digest[4..8] == BytesOf(longs[1].lo);
      assert digest[8..12] == BytesOf(longs[2].lo) && digest[12..16] == BytesOf(longs[3].lo);
      Quarters(digest);
    }

    method GetMD5ofStr(inbuf: array<Byte>) returns (s: string)
      requires Shape() && inbuf != buffer && inbuf != digest && inbuf.Length < 0x8000_0000
      modifies this, buffer, digest
      ensures Valid() && s == digestHexStr == Hex(Digest(inbuf[..]))
    {
      var ok := DigestOf(inbuf, inbuf.Length);
      assert inbuf[..inbuf.Length] == inbuf[..];
      digestHexStr := HexOf(digest);
      s := digestHexStr;
    }

    /** The overload on strings: of the encoded string, as many bytes are hashed as the string has characters, which is
        the whole encoding if and only if there are as many. `ok` is false for the exception of a shorter encoding. */
    method GetMD5ofString(encoded: array<Byte>, chars: nat) returns (ok: bool, s: string)
      requires Shape() && encoded != buffer && encoded != digest
      requires encoded.Length < 0x8000_0000 && chars < 0x8000_0000
      modifies this, buffer, digest
      ensures Valid() && ok == (chars <= encoded.Length)
      ensures ok ==> s == digestHexStr == Hex(Digest(encoded[..chars]))
      ensures ok ==> (encoded[..chars] == encoded[..] <==> chars == encoded.Length)
      ensures !ok ==> digestHexStr == old(digestHexStr) && digest[..] == old(digest[..])
    {
      ok := DigestOf(encoded, chars);
      if !ok {
        return false, "";
      }
      digestHexStr := HexOf(digest);
      s := digestHexStr;
      assert |encoded[..chars]| == chars && |encoded[..]| == encoded.Length;
    }

    method DigestOf(inbuf: array<Byte>, inputLen: nat) returns (ok: bool)
      requires Shape() && inbuf != buffer && inbuf != digest && inputLen < 0x8000_0000 && inbuf.Length < 0x8000_0000
      modifies `state, `count0, `count1, buffer, digest
      ensures Valid() && ok == (inputLen <= inbuf.Length)
      ensures digest[..] == if ok then Digest(inbuf[..inputLen]) else old(digest[..])
    {
      Md5Init();
      ok := Md5Update(inbuf, inputLen);
      NoOverrun(inputLen);
      if !ok {
        return;
      }
      Md5Final();
      S.OneCallDigest(Transform, INITIAL, inbuf[..inputLen]);
    }
  }

  lemma Halves(b: array<Byte>)
    requires b.Length == 8
    ensures b[..] == b[0..4] + b[4..8]
  {
  }

  lemma Quarters(b: array<Byte>)
    requires b.Length == 16
    ensures b[..] == b[0..4] + b[4..8] + b[8..12] + b[12..16]
  {
    assert b[..] == b[..8] + b[8..16];
    assert b[..8] == b[0..4] + b[4..8] && b[8..16] == b[8..12] + b[12..16];
    Assoc(b[..8], b[8..12], b[12..16]);
  }

  /** The constant PADDING, of which only a prefix is read. */
  method Padding(padLen: nat) returns (padding: array<Byte>)
    requires 0 < padLen <= 64
    ensures fresh(padding) && padding.Length == 64 && padding[..padLen] == S.Padding(padLen)
  {
    padding := new Byte[64](i => if i == 0 then 0x80 else 0);
  }

  method HexOf(digest: array<Byte>) returns (s: string)
    ensures s == Hex(digest[..])
  {
    s := "";
    for i := 0 to digest.Length
      invariant s == Hex(digest[..i])
    {
      assert digest[..i + 1][..i] == digest[..i];
      s := s + ByteHex(digest[i]);
    }
    assert digest[..digest.Length] == digest[..];
  }

  lemma MoreBlocks(w: Words, input: seq<Byte>, partLen: nat, i: nat)
    requires partLen <= i && (i - partLen) % 64 == 0 && i + 64 <= |input|
    ensures (i + 64 - partLen) % 64 == 0
    ensures Blocks(Transform, w, input[partLen..i + 64])
        == Transform(Blocks(Transform, w, input[partLen..i]), input[i..i + 64])
  {
    hide Transform, Blocks;
    assert input[partLen..i] + input[i..i + 64] == input[partLen..i + 64];
    BlocksPush(Transform, w, input[partLen..i], input[i..i + 64]);
  }

  function Min(a: int, b: int): int { if b < a then b else a }

  lemma ShortIsSafe(index: nat, inputLen: nat)
    requires index + inputLen < 64
    ensures !Overruns(index, inputLen)
  {
  }

  /** How much of the input the whole blocks take. */
  function Whole(index: nat, inputLen: nat): int {
    inputLen - (index + inputLen) % 64
  }

  /** The loop test after the last whole block adds 63 beyond 32 bits. */
  predicate Overruns(index: nat, inputLen: nat) {
    Whole(index, inputLen) + 63 >= 0x8000_0000
  }

  /** A fresh context takes every length of an array. */
  lemma NoOverrun(inputLen: nat)
    requires inputLen < 0x8000_0000
    ensures !Overruns(0, inputLen)
  {
  }

  lemma NoOverrunBelow(index: nat, inputLen: nat)
    requires inputLen < 0x7fff_ffc1
    ensures !Overruns(index, inputLen)
  {
  }

  /** The loop goes on exactly while a whole block is left, or the sum wraps around: then the block is past the end. */
  lemma LoopTest(i: nat, inputLen: int, length: int)
    requires i <= Min(inputLen, length) && inputLen < 0x8000_0000 && length < 0x8000_0000
    ensures i + 63 < 0x8000_0000 ==> Int32(i + 63) == i + 63
    ensures i + 63 >= 0x8000_0000 ==> Int32(i + 63) < inputLen < i + 64 && length < i + 64
  {
  }

  lemma NoBlocks(w: Words, input: seq<Byte>, at: nat)
    requires at <= |input|
    ensures Blocks(Transform, w, input[at..at]) == w
  {
    hide Transform;
  }

  /** Where the blocks end, and what they and the rest amount to. */
  lemma AbsorbParts(h: S.Hash<Words>, inbuf: array<Byte>, inputLen: nat, partLen: nat, i: nat)
    requires |h.live| + partLen == 64 && partLen <= i <= inputLen < i + 64 && (i - partLen) % 64 == 0
    requires inputLen <= inbuf.Length
    ensures Whole(|h.live|, inputLen) == i && (|h.live| + inputLen) % 64 == inputLen - i
    ensures var w := Blocks(Transform, Transform(h.words, h.live + inbuf[..partLen]), inbuf[partLen..i]);
      S.Absorb(Transform, h, inbuf[..inputLen]) == S.Hash(w, inbuf[i..inputLen])
  {
    hide Transform, Blocks, S.Absorb;
    S.AbsorbLong(Transform, h, inbuf[..], inputLen, partLen, i);
    assert inbuf[..][..inputLen] == inbuf[..inputLen] && inbuf[..][..partLen] == inbuf[..partLen];
    assert inbuf[..][partLen..i] == inbuf[partLen..i] && inbuf[..][i..inputLen] == inbuf[i..inputLen];
  }

  /** The magic constants of md5Init. */
  function Start(): Longs {
    Longs(Md5Long.Constant(0x67452301), Md5Long.Constant(0xefcdab89), Md5Long.Constant(0x98badcfe),
      Md5Long.Constant(0x10325476))
  }

  function AddLongs(s: Longs, r: Longs): Longs {
    Longs(Md5Long.Add(s.a, r.a), Md5Long.Add(s.b, r.b), Md5Long.Add(s.c, r.c), Md5Long.Add(s.d, r.d))
  }

  method Md5Memcpy(output: array<Byte>, input: array<Byte>, outpos: int, inpos: int, len: int)
    requires output != input && 0 <= len
    requires 0 <= outpos && outpos + len <= output.Length && 0 <= inpos && inpos + len <= input.Length
    modifies output
    ensures output[..outpos] == old(output[..outpos])
    ensures output[outpos..outpos + len] == input[inpos..inpos + len]
    ensures output[outpos + len..] == old(output[outpos + len..])
  {
    for i := 0 to len
      invariant forall k :: 0 <= k < output.Length && !(outpos <= k < outpos + i) ==> output[k] == old(output[k])
      invariant forall k :: outpos <= k < outpos + i ==> output[k] == input[k - outpos + inpos]
    {
      output[outpos + i] := input[inpos + i];
    }
  }

  /** The first `n` longs, low-order byte first. */
  ghost predicate Encoded(bytes: seq<Byte>, longs: seq<Long>, n: nat)
    requires n <= |longs| && 4 * n <= |bytes|
  {
    forall i :: 0 <= i < n ==> bytes[4 * i..4 * i + 4] == BytesOf(longs[i].lo)
  }

  lemma EncodedNext(before: seq<Byte>, after: seq<Byte>, longs: seq<Long>, n: nat)
    requires n < |longs| && 4 * n + 4 <= |before| == |after| && before[..4 * n] == after[..4 * n]
    requires Encoded(before, longs, n) && after[4 * n..4 * n + 4] == BytesOf(longs[n].lo)
    ensures Encoded(after, longs, n + 1)
  {
    hide BytesOf;
    forall i | 0 <= i < n
      ensures after[4 * i..4 * i + 4] == BytesOf(longs[i].lo)
    {
      assert before[..4 * n][4 * i..4 * i + 4] == before[4 * i..4 * i + 4];
      assert after[..4 * n][4 * i..4 * i + 4] == after[4 * i..4 * i + 4];
    }
  }

  method Encode(output: array<Byte>, input: seq<Long>, len: int)
    requires 0 <= len <= output.Length && len % 4 == 0 && len <= 4 * |input|
    modifies output
    ensures Encoded(output[..], input, len / 4) && output[len..] == old(output[len..])
  {
    var i, j := 0, 0;
    assert Encoded(output[..], input, 0);
    hide BytesOf, Encoded;
    while j < len
      invariant j == 4 * i && j <= len && i <= |input|
      invariant Encoded(output[..], input, i) && output[len..] == old(output[len..])
    {
      ghost var before := output[..];
      EncodeLong(output, input[i], j);
      assert output[len..] == before[len..] by { assert output[len..] == output[j + 4..][len - j - 4..]; }
      EncodedNext(before, output[..], input, i);
      i, j := i + 1, j + 4;
    }
  }

  method EncodeLong(output: array<Byte>, x: Long, j: nat)
    requires j + 4 <= output.Length
    modifies output
    ensures output[..j] == old(output[..j]) && output[j + 4..] == old(output[j + 4..])
    ensures output[j..j + 4] == BytesOf(x.lo)
  {
    output[j] := Md5Long.LowByte(x);
    output[j + 1] := Md5Long.LowByte(Md5Long.ShiftRight(x, 8));
    output[j + 2] := Md5Long.LowByte(Md5Long.ShiftRight(x, 16));
    output[j + 3] := Md5Long.LowByte(Md5Long.ShiftRight(x, 24));
    Md5Long.LowBytes(x);
    assert output[j..j + 4] == [output[j], output[j + 1], output[j + 2], output[j + 3]];
  }

  method Decode(output: array<Long>, input: array<Byte>, len: int)
    requires 0 <= len <= input.Length && len % 4 == 0 && len <= 4 * output.Length
    requires (output as object) != input
    modifies output
    ensures forall i :: 0 <= i < len / 4 ==> output[i] == Md5Long.Constant(WordOf(input[4 * i..4 * i + 4]))
  {
    hide WordOf, Md5Long.Joined, Md5Long.Constant;
    var i, j := 0, 0;
    while j < len
      invariant j == 4 * i && j <= len
      invariant forall k :: 0 <= k < i ==> output[k] == Md5Long.Constant(WordOf(input[4 * k..4 * k + 4]))
    {
      Md5Long.JoinedIsWord(input[j], input[j + 1], input[j + 2], input[j + 3]);
      assert input[4 * i..4 * i + 4] == [input[j], input[j + 1], input[j + 2], input[j + 3]];
      output[i] := Md5Long.Joined(input[j], input[j + 1], input[j + 2], input[j + 3]);
      i, j := i + 1, j + 4;
    }
  }

  lemma DecodedWords(x: seq<Long>, block: Block)
    requires |x| == 16
    requires forall i :: 0 <= i < 16 ==> x[i] == Md5Long.Constant(WordOf(block[4 * i..4 * i + 4]))
    ensures LowSeq(x) == WordsOf(block)
  {
  }
}
