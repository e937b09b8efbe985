/** The encoder and decoder of RFC 3548 section 5 as the code has them. */
module Base32 {
  import opened Bytes
  import opened Base32Bits
  import opened JavaInts

  /** A returned value, or the exception the Java code throws. */
  datatype Outcome<T> = Done(value: T) | NegativeArraySize | IndexOutOfBounds | OutOfMemory

  const BASE32_CHARS := "ABCDEFGHIJKLMNOPQRSTUVWXYZ234567"

  function Char(d: Byte): char
    requires d < 32
  {
    BASE32_CHARS[d as int]
  }

  /** The lookup table, starting at '0'. */
  function Table(k: int): Byte
    requires 0 <= k < 80
  {
    if 2 <= k <= 7 then (k + 24) as Byte
    else if 17 <= k <= 42 then (k - 17) as Byte
    else if 49 <= k <= 74 then (k - 49) as Byte
    else 0xff
  }

  // --- encoding ---

  function Padding(n: nat): string {
    if n == 1 then "======" else if n == 2 then "====" else if n == 3 then "===" else if n == 4 then "=" else ""
  }

  function Capacity(n: nat): int {
    Div(Int32(Int32(n + 7) * 8), 5)
    + (if n == 1 then 6 else if n == 2 then 4 else if n == 3 then 3 else if n == 4 then 1 else 0)
  }

  function DigitCount(n: nat): nat { (8 * n + 4) / 5 }

  function Digits(bytes: seq<Byte>): (d: seq<Byte>)
    ensures |d| == DigitCount(|bytes|) && forall j :: 0 <= j < |d| ==> d[j] < 32
  {
    seq(DigitCount(|bytes|), j requires j >= 0 => DigitAt(bytes, j))
  }

  function Text(digits: seq<Byte>): (s: string)
    requires forall j :: 0 <= j < |digits| ==> digits[j] < 32
    ensures |s| == |digits|
  {
    seq(|digits|, j requires 0 <= j < |digits| => Char(digits[j]))
  }

  /** No string is longer. */
  const MAX_LENGTH := 0x7fff_ffff

  function Encoded(bytes: seq<Byte>): Outcome<string> {
    if Capacity(|bytes|) < 0 then NegativeArraySize
    else if DigitCount(|bytes|) > MAX_LENGTH then OutOfMemory
    else Done(Text(Digits(bytes)) + Padding(|bytes|))
  }

  method Encode(bytes: array<Byte>) returns (r: Outcome<string>)
    ensures r == Encoded(bytes[..])
  {
    if Capacity(bytes.Length) < 0 {
      return NegativeArraySize;
    }
    var fits, base32 := EncodeDigits(bytes);
    r := if fits then Done(base32 + Padding(bytes.Length)) else OutOfMemory;
  }

  /** `fits` is false when the buffer cannot grow any more. */
  method EncodeDigits(bytes: array<Byte>) returns (fits: bool, base32: string)
    ensures fits == (DigitCount(bytes.Length) <= MAX_LENGTH)
    ensures fits ==> base32 == Text(Digits(bytes[..]))
  {
    hide DigitAt, Within, Across, Text, Digits, DigitCount;
    ghost var digits := Digits(bytes[..]);
    TextEmpty();
    var i, index := 0, 0;
    fits, base32 := true, "";
    while i < bytes.Length
      invariant 0 <= index < 8 && 8 * i + index == 5 * |base32| && 8 * i + index < 8 * bytes.Length + 5
      invariant |base32| <= DigitCount(bytes.Length) && |base32| <= MAX_LENGTH && base32 == Text(digits[..|base32|])
      decreases 8 * bytes.Length - 8 * i - index
    {
      var digit;
      DigitsAt(bytes[..], i, index, |base32|);
      NextBit(i, index);
      if index > 3 {
        var next := if i + 1 < bytes.Length then bytes[i + 1] else 0;
        AcrossIsDigit(bytes[..], i, index, |base32|);
        digit := Across(bytes[i], next, index);
        index := (index + 5) % 8;
        i := i + 1;
      } else {
        WithinIsDigit(bytes[..], i, index, |base32|);
        digit := Within(bytes[i], index);
        index := (index + 5) % 8;
        if index == 0 {
          i := i + 1;
        }
      }
      if |base32| == MAX_LENGTH {
        fits := false;
        return;
      }
      TextPush(digits, |base32|);
      base32 := base32 + [Char(digit)];
    }
    LastDigit(bytes.Length, 8 * i + index, |base32|);
    assert digits[..|base32|] == digits;
  }

  lemma DigitsAt(bytes: seq<Byte>, i: nat, index: nat, j: nat)
    requires i < |bytes| && index < 8 && 8 * i + index == 5 * j
    ensures j < DigitCount(|bytes|) && Digits(bytes)[j] == DigitAt(bytes, j)
  {
    hide DigitAt;
  }

  /** Where the next digit starts. */
  lemma NextBit(i: nat, index: nat)
    requires index < 8
    ensures var next := (index + 5) % 8;
      && (index > 3 || next == 0 ==> 8 * (i + 1) + next == 8 * i + index + 5)
      && (index <= 3 && next != 0 ==> 8 * i + next == 8 * i + index + 5)
  {
  }

  lemma LastDigit(n: nat, bits: nat, j: nat)
    requires 8 * n <= bits < 8 * n + 5 && bits == 5 * j
    ensures j == DigitCount(n)
  {
  }

  lemma TextEmpty()
    ensures Text([]) == ""
  {
  }

  lemma TextPush(digits: seq<Byte>, j: nat)
    requires j < |digits| && forall k :: 0 <= k < |digits| ==> digits[k] < 32
    ensures Text(digits[..j + 1]) == Text(digits[..j]) + [Char(digits[j])]
  {
  }

  lemma WithinIsDigit(bytes: seq<Byte>, i: nat, index: nat, j: nat)
    requires i < |bytes| && index <= 3 && 8 * i + index == 5 * j
    ensures Within(bytes[i], index) == DigitAt(bytes, j)
  {
    forall k | 3 <= k < 8
      ensures Bit(Within(bytes[i], index), k) == Bit(DigitAt(bytes, j), k)
    {
      WithinBit(bytes, i, index, j, k);
    }
    InnerDigit(bytes[i], index, 0);
    SameDigits(Within(bytes[i], index), DigitAt(bytes, j));
  }

  lemma WithinBit(bytes: seq<Byte>, i: nat, index: nat, j: nat, k: nat)
    requires i < |bytes| && index <= 3 && 8 * i + index == 5 * j && 3 <= k < 8
    ensures Bit(Within(bytes[i], index), k) == Bit(DigitAt(bytes, j), k)
  {
    hide Bit, Across, Within, BitAt, DigitAt, ByteOrZero;
    InnerDigit(bytes[i], index, k - 3);
    BitsOfDigitAt(bytes, j, k - 3);
    BitAcross(bytes, i, index + k - 3);
  }

  lemma AcrossIsDigit(bytes: seq<Byte>, i: nat, index: nat, j: nat)
    requires i < |bytes| && 3 < index < 8 && 8 * i + index == 5 * j
    ensures Across(bytes[i], ByteOrZero(bytes, i + 1), index) == DigitAt(bytes, j)
  {
    forall k | 3 <= k < 8
      ensures Bit(Across(bytes[i], ByteOrZero(bytes, i + 1), index), k) == Bit(DigitAt(bytes, j), k)
    {
      AcrossBit(bytes, i, index, j, k);
    }
    SpanningDigit(bytes[i], ByteOrZero(bytes, i + 1), index, 0);
    SameDigits(Across(bytes[i], ByteOrZero(bytes, i + 1), index), DigitAt(bytes, j));
  }

  lemma AcrossBit(bytes: seq<Byte>, i: nat, index: nat, j: nat, k: nat)
    requires i < |bytes| && 3 < index < 8 && 8 * i + index == 5 * j && 3 <= k < 8
    ensures Bit(Across(bytes[i], ByteOrZero(bytes, i + 1), index), k) == Bit(DigitAt(bytes, j), k)
  {
    hide Bit, Across, Within, BitAt, DigitAt, ByteOrZero;
    SpanningDigit(bytes[i], ByteOrZero(bytes, i + 1), index, k - 3);
    BitsOfDigitAt(bytes, j, k - 3);
    BitAcross(bytes, i, index + k - 3);
  }

  function ByteOrZero(bytes: seq<Byte>, i: nat): Byte {
    if i < |bytes| then bytes[i] else 0
  }

  lemma BitAcross(bytes: seq<Byte>, i: nat, r: nat)
    requires i < |bytes| && r < 16
    ensures BitAt(bytes, 8 * i + r)
      == if r < 8 then Bit(bytes[i], r) else Bit(ByteOrZero(bytes, i + 1), r - 8)
  {
    if r < 8 {
      assert (8 * i + r) / 8 == i && (8 * i + r) % 8 == r;
    } else {
      assert (8 * i + r) / 8 == i + 1 && (8 * i + r) % 8 == r - 8;
      ZeroBits(r - 8);
    }
  }

  lemma SameDigits(x: Byte, y: Byte)
    requires x < 32 && y < 32 && forall k :: 3 <= k < 8 ==> Bit(x, k) == Bit(y, k)
    ensures x == y
  {
    forall k | 0 <= k < 3
      ensures Bit(x, k) == Bit(y, k)
    {
      SmallBits(x, k);
      SmallBits(y, k);
    }
    SameBits(x, y);
  }

  // --- decoding ---

  predicate Known(c: char) {
    '0' <= c && c as int - '0' as int < 80 && Table(c as int - '0' as int) != 0xff
  }

  function Value(c: char): (d: Byte)
    requires Known(c)
    ensures d < 32
  {
    Table(c as int - '0' as int)
  }

  /** The digits of the characters the table knows; the others are skipped. */
  function Values(s: string): (d: seq<Byte>)
    ensures |d| <= |s|
  {
    if s == "" then []
    else
      var front := Values(s[..|s| - 1]);
      if Known(s[|s| - 1]) then front + [Value(s[|s| - 1])] else front
  }

  function Size(n: nat): int { Div(Int32(n * 5), 8) }

  function Packed(digits: seq<Byte>, size: nat): (b: seq<Byte>)
    ensures |b| == size
  {
    seq(size, q requires q >= 0 => ByteAt(digits, q))
  }

  function Decoded(s: string): Outcome<seq<Byte>> {
    if Size(|s|) < 0 then NegativeArraySize
    else if Size(|s|) == 0 && Values(s) != [] then IndexOutOfBounds
    else Done(Packed(Values(s), Size(|s|)))
  }

  method Decode(base32: string) returns (r: Outcome<seq<Byte>>)
    ensures r == Decoded(base32)
  {
    hide ByteAt, Table, Values, Holds, Packed;
    ValuesEmpty(base32);
    if Size(|base32|) < 0 {
      return NegativeArraySize;
    }
    var bytes := new Byte[Size(|base32|)](_ => 0);
    var i, index, offset := 0, 0, 0;
    ZeroHolds(bytes[..]);
    while i < |base32|
      invariant 0 <= i <= |base32| && 0 <= index < 8
      invariant 8 * offset + index == 5 * |Values(base32[..i])|
      invariant if bytes.Length == 0 then Values(base32[..i]) == [] else 0 <= offset < bytes.Length
      invariant Holds(bytes[..], Values(base32[..i]))
    {
      ValuesStep(base32, i);
      if Known(base32[i]) {
        if bytes.Length == 0 {
          ValuesPrefix(base32, i + 1);
          return IndexOutOfBounds;
        }
        index, offset := OrDigit(bytes, index, offset, Value(base32[i]), Values(base32[..i]));
        if offset >= bytes.Length {
          ValuesPrefix(base32, i + 1);
          HoldsFull(bytes[..], Values(base32[..i + 1]), Values(base32));
          return Done(bytes[..]);
        }
      }
      i := i + 1;
    }
    assert base32[..i] == base32;
    HoldsFull(bytes[..], Values(base32), Values(base32));
    r := Done(bytes[..]);
  }

  /** The bytes hold the digits written so far, and zeros behind them. */
  ghost predicate Holds(bytes: seq<Byte>, digits: seq<Byte>) {
    forall q, k :: 0 <= q < |bytes| && 0 <= k < 8 ==> Bit(bytes[q], k) == DigitBitAt(digits, 8 * q + k)
  }

  lemma ZeroHolds(bytes: seq<Byte>)
    requires forall q :: 0 <= q < |bytes| ==> bytes[q] == 0
    ensures Holds(bytes, [])
  {
    forall q, k | 0 <= q < |bytes| && 0 <= k < 8
      ensures Bit(bytes[q], k) == DigitBitAt([], 8 * q + k)
    {
      ZeroBits(k);
    }
  }

  /** The two cases of the loop body: a digit ends inside a byte, or goes on in the next one. */
  method OrDigit(bytes: array<Byte>, index: nat, offset: nat, digit: Byte, ghost digits: seq<Byte>)
    returns (index': nat, offset': nat)
    requires index < 8 && offset < bytes.Length && digit < 32
    requires 8 * offset + index == 5 * |digits| && Holds(bytes[..], digits)
    modifies bytes
    ensures index' < 8 && 8 * offset' + index' == 5 * |digits + [digit]|
    ensures Holds(bytes[..], digits + [digit])
  {
    hide Bit, Shr, Shl, DigitBitAt, Holds, Ored;
    ghost var before := bytes[..];
    index' := (index + 5) % 8;
    if index <= 3 {
      offset' := OrInner(bytes, index, offset, digit);
    } else {
      offset' := OrAcross(bytes, index, offset, digit);
    }
    HoldsOr(before, bytes[..], digits, digit, index, offset);
  }

  method OrInner(bytes: array<Byte>, index: nat, offset: nat, digit: Byte) returns (offset': nat)
    requires index <= 3 && offset < bytes.Length
    modifies bytes
    ensures offset' == if index == 3 then offset + 1 else offset
    ensures Ored(old(bytes[..]), bytes[..], digit, index, offset)
  {
    hide Shl;
    FirstPartNarrow(digit, index);
    offset' := offset;
    var moved := (index + 5) % 8;
    if moved == 0 {
      bytes[offset] := bytes[offset] | digit;
      offset' := offset + 1;
    } else {
      bytes[offset] := bytes[offset] | Shl(digit, 8 - moved);
    }
  }

  method OrAcross(bytes: array<Byte>, index: nat, offset: nat, digit: Byte) returns (offset': nat)
    requires 3 < index < 8 && offset < bytes.Length
    modifies bytes
    ensures offset' == offset + 1
    ensures Ored(old(bytes[..]), bytes[..], digit, index, offset)
  {
    hide Shr, Shl, FirstPart;
    var moved := (index + 5) % 8;
    SpillAt(index);
    FirstPartWide(digit, index);
    bytes[offset] := bytes[offset] | Shr(digit, moved);
    offset' := offset + 1;
    if offset' < bytes.Length {
      bytes[offset'] := bytes[offset'] | Shl(digit, 8 - moved);
    }
  }

  lemma SpillAt(index: nat)
    requires 3 < index < 8
    ensures (index + 5) % 8 == index - 3
  {
  }

  lemma FirstPartWide(digit: Byte, index: nat)
    requires 3 < index < 8
    ensures FirstPart(digit, index) == Shr(digit, index - 3)
  {
  }

  lemma FirstPartNarrow(digit: Byte, index: nat)
    requires index <= 3
    ensures FirstPart(digit, index) == if index == 3 then digit else Shl(digit, 8 - (index + 5))
  {
  }

  /** What one digit does to the bytes. */
  ghost predicate Ored(before: seq<Byte>, after: seq<Byte>, digit: Byte, index: nat, offset: nat)
    requires index < 8
  {
    && |after| == |before|
    && (forall q :: 0 <= q < |before| && q != offset && !(index > 3 && q == offset + 1) ==> after[q] == before[q])
    && (offset < |before| ==> after[offset] == before[offset] | FirstPart(digit, index))
    && (index > 3 && offset + 1 < |before| ==> after[offset + 1] == before[offset + 1] | Shl(digit, 11 - index))
  }

  lemma HoldsOr(before: seq<Byte>, after: seq<Byte>, digits: seq<Byte>, digit: Byte, index: nat, offset: nat)
    requires index < 8 && digit < 32 && 8 * offset + index == 5 * |digits|
    requires Holds(before, digits) && Ored(before, after, digit, index, offset)
    ensures Holds(after, digits + [digit])
  {
    hide Bit, Shr, Shl, FirstPart, DigitBitAt;
    forall q, k | 0 <= q < |after| && 0 <= k < 8
      ensures Bit(after[q], k) == DigitBitAt(digits + [digit], 8 * q + k)
    {
      DigitBitsAppend(digits, digit, 8 * q + k);
      assert Bit(before[q], k) == DigitBitAt(digits, 8 * q + k);
      if q == offset {
        BitOfOr(before[q], FirstPart(digit, index), k);
        BitsOfFirstPart(digit, index, k);
        if index <= k < index + 5 {
          PlaceInDigit(|digits|, index, offset, k);
        }
      } else if q == offset + 1 && index > 3 {
        BitOfOr(before[q], Shl(digit, 11 - index), k);
        BitsOfSecondPart(digit, index, k);
        if k < index - 3 {
          PlaceInDigit(|digits|, index, offset, 8 + k);
        }
      }
    }
  }

  lemma PlaceInDigit(n: nat, index: nat, offset: nat, k: nat)
    requires 8 * offset + index == 5 * n && index <= k < index + 5
    ensures (8 * offset + k) % 5 == k - index
  {
  }

  lemma HoldsFull(bytes: seq<Byte>, digits: seq<Byte>, all: seq<Byte>)
    requires Holds(bytes, digits) && digits <= all && (digits == all || 8 * |bytes| <= 5 * |digits|)
    ensures bytes == Packed(all, |bytes|)
  {
    forall q | 0 <= q < |bytes|
      ensures bytes[q] == ByteAt(all, q)
    {
      forall k | 0 <= k < 8
        ensures Bit(bytes[q], k) == Bit(ByteAt(all, q), k)
      {
        BitsOfByteAt(all, q, k);
        if digits != all {
          DigitBitsPrefix(digits, all, 8 * q + k);
        }
      }
      SameBits(bytes[q], ByteAt(all, q));
    }
  }

  lemma ValuesEmpty(s: string)
    ensures Values(s[..0]) == []
  {
  }

  lemma ValuesStep(s: string, i: nat)
    requires i < |s|
    ensures Values(s[..i + 1]) == if Known(s[i]) then Values(s[..i]) + [Value(s[i])] else Values(s[..i])
  {
    assert s[..i + 1][..i] == s[..i];
  }

  lemma {:induction false} ValuesPrefix(s: string, i: nat)
    requires i <= |s|
    ensures Values(s[..i]) <= Values(s)
  {
    if i == |s| {
      assert s[..i] == s;
    } else {
      var front := s[..|s| - 1];
      ValuesPrefix(front, i);
      assert front[..i] == s[..i];
    }
  }
}
