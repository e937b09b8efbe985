/** decode after encode, for every array of bytes. */
module Base32RoundTrip {
  import opened Bytes
  import opened Base32Bits
  import opened Base32
  import opened JavaInts

  /** One to four bytes come back with zeros up to five: the padding characters count in the size. */
  function Extra(n: nat): nat {
    if 1 <= n <= 4 then 5 - n else 0
  }

  // --- characters ---

  lemma CharKnown(d: Byte)
    requires d < 32
    ensures Known(Char(d)) && Value(Char(d)) == d
  {
    var n := d as int;
    if n < 26 {
      LetterAt(n);
    } else {
      assert BASE32_CHARS[n] as int == '2' as int + (n - 26);
    }
  }

  lemma LetterAt(n: nat)
    requires n < 26
    ensures BASE32_CHARS[n] as int == 'A' as int + n
  {
  }

  lemma {:induction false} ValuesOfText(digits: seq<Byte>)
    requires forall j :: 0 <= j < |digits| ==> digits[j] < 32
    ensures Values(Text(digits)) == digits
  {
    if digits != [] {
      var n := |digits| - 1;
      ValuesOfText(digits[..n]);
      assert Text(digits)[..n] == Text(digits[..n]);
      CharKnown(digits[n]);
    }
  }

  lemma {:induction false} PaddingSkipped(s: string, padding: string)
    requires forall j :: 0 <= j < |padding| ==> !Known(padding[j])
    ensures Values(s + padding) == Values(s)
  {
    if padding == "" {
      assert s + padding == s;
    } else {
      var n := |padding| - 1;
      assert (s + padding)[..|s| + n] == s + padding[..n];
      PaddingSkipped(s, padding[..n]);
    }
  }

  lemma ValuesOfEncoded(bytes: seq<Byte>)
    ensures Values(Text(Digits(bytes)) + Padding(|bytes|)) == Digits(bytes)
  {
    hide DigitAt, Text, Values;
    ValuesOfText(Digits(bytes));
    assert !Known('=');
    PaddingSkipped(Text(Digits(bytes)), Padding(|bytes|));
  }

  // --- bits ---

  /** The digits spell the bits of the message, zero-extended. */
  lemma DigitsSpellBits(bytes: seq<Byte>, p: nat)
    ensures DigitBitAt(Digits(bytes), p) == BitAt(bytes, p)
  {
    if p / 5 < DigitCount(|bytes|) {
      BitsOfDigitAt(bytes, p / 5, p % 5);
    }
  }

  lemma BitOfByteOrZero(bytes: seq<Byte>, q: nat, k: nat)
    requires k < 8
    ensures BitAt(bytes, 8 * q + k) == Bit(ByteOrZero(bytes, q), k)
  {
    assert (8 * q + k) / 8 == q && (8 * q + k) % 8 == k;
    ZeroBits(k);
  }

  lemma PackedDigits(bytes: seq<Byte>, q: nat)
    ensures ByteAt(Digits(bytes), q) == ByteOrZero(bytes, q)
  {
    hide Bit, ByteAt, BitAt, DigitBitAt, Digits, ByteOrZero;
    forall k | 0 <= k < 8
      ensures Bit(ByteAt(Digits(bytes), q), k) == Bit(ByteOrZero(bytes, q), k)
    {
      BitsOfByteAt(Digits(bytes), q, k);
      DigitsSpellBits(bytes, 8 * q + k);
      BitOfByteOrZero(bytes, q, k);
    }
    SameBits(ByteAt(Digits(bytes), q), ByteOrZero(bytes, q));
  }

  // --- sizes ---

  lemma SizeOfEncoded(n: nat)
    requires n + 7 < 0x1000_0000
    ensures Capacity(n) >= 0 && Size(DigitCount(n) + |Padding(n)|) == n + Extra(n)
  {
    hide Int32;
    NoWrap(n + 7);
    NoWrap((n + 7) * 8);
    if n > 4 {
      SizeOfDigits(n, DigitCount(n));
    } else {
      NoWrap((DigitCount(n) + |Padding(n)|) * 5);
    }
  }

  lemma SizeOfDigits(n: nat, c: nat)
    requires 8 * n <= 5 * c <= 8 * n + 4 && n + 7 < 0x1000_0000
    ensures Size(c) == n
  {
    NoWrap(5 * c);
  }

  lemma NoWrap(n: nat)
    requires n < 0x8000_0000
    ensures Int32(n) == n
  {
  }

  /** From 2^28 - 7 bytes on, a size computed in 32 bits is negative or too small. */
  lemma SizeWraps(n: nat)
    requires 0x1000_0000 <= n + 7 && n < 0x5000_0000 && Capacity(n) >= 0
    ensures Size(DigitCount(n) + |Padding(n)|) < 1 || (Size(DigitCount(n)) != n && Padding(n) == "")
  {
    assert n >= 0x2000_0000 - 7;
    assert n >= 0x2000_0000 ==> Size(DigitCount(n)) <= 0x1000_0000;
  }

  lemma PackedBack(bytes: seq<Byte>)
    ensures Packed(Digits(bytes), |bytes| + Extra(|bytes|)) == bytes + Zeros(Extra(|bytes|))
  {
    hide ByteAt, Digits, Extra;
    forall q | 0 <= q < |bytes| + Extra(|bytes|)
      ensures Packed(Digits(bytes), |bytes| + Extra(|bytes|))[q] == (bytes + Zeros(Extra(|bytes|)))[q]
    {
      PackedDigits(bytes, q);
    }
  }

  function TextOf(bytes: seq<Byte>): (s: string)
    ensures |s| == DigitCount(|bytes|) + |Padding(|bytes|)|
  {
    Text(Digits(bytes)) + Padding(|bytes|)
  }

  lemma TextFits(n: nat)
    ensures DigitCount(n) <= MAX_LENGTH <==> n < 0x5000_0000
  {
  }

  lemma NotShorter(n: nat)
    ensures DigitCount(n) > 0 <==> n > 0
  {
  }

  lemma SmallRoundTrip(bytes: seq<Byte>)
    requires |bytes| + 7 < 0x1000_0000
    ensures Encoded(bytes) == Done(TextOf(bytes))
    ensures Decoded(TextOf(bytes)) == Done(bytes + Zeros(Extra(|bytes|)))
  {
    hide Digits, Text, Values, Packed, Size, Extra, Padding, Capacity, DigitCount;
    SizeOfEncoded(|bytes|);
    TextFits(|bytes|);
    ValuesOfEncoded(bytes);
    PackedBack(bytes);
    NotShorter(|bytes|);
  }

  lemma LargeRoundTrip(bytes: seq<Byte>)
    requires 0x1000_0000 <= |bytes| + 7 && Capacity(|bytes|) >= 0 && |bytes| < 0x5000_0000
    ensures Decoded(TextOf(bytes)) != Done(bytes + Zeros(Extra(|bytes|)))
  {
    hide Digits, Text, Values, Packed, Size, Capacity;
    SizeWraps(|bytes|);
    ValuesOfEncoded(bytes);
  }

  /** For every array, decoding an encoding gives the bytes back exactly while the encoder's capacity fits an int. */
  lemma RoundTrip(bytes: seq<Byte>)
    requires |bytes| < 0x8000_0000
    ensures |bytes| + 7 < 0x1000_0000
      <==> Encoded(bytes).Done? && Decoded(Encoded(bytes).value) == Done(bytes + Zeros(Extra(|bytes|)))
  {
    hide Digits, Text, Decoded, Extra, Padding, Capacity, DigitCount;
    TextFits(|bytes|);
    if |bytes| + 7 < 0x1000_0000 {
      SmallRoundTrip(bytes);
    } else if Capacity(|bytes|) >= 0 && |bytes| < 0x5000_0000 {
      LargeRoundTrip(bytes);
    }
  }
}
