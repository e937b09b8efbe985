/** The alphabet, padding and sizes of the code against RFC 3548 section 5 and the width of a Java int. */
module Base32Laws {
  import opened Bytes
  import opened Base32Bits
  import opened Base32
  import opened Base32RoundTrip
  import opened JavaInts

  // --- the alphabet ---

  predicate Upper(c: char) { 'A' <= c <= 'Z' }
  predicate Lower(c: char) { 'a' <= c <= 'z' }
  predicate TwoToSeven(c: char) { '2' <= c <= '7' }

  /** A to Z stand for 0 to 25, 2 to 7 for 26 to 31. */
  lemma CharOf(d: Byte)
    requires d < 32
    ensures var n := d as int;
      Char(d) as int == if n < 26 then 'A' as int + n else '2' as int + (n - 26)
  {
    var n := d as int;
    if n < 26 {
      LetterAt(n);
    } else {
      assert BASE32_CHARS[n] as int == '2' as int + (n - 26);
    }
  }

  /** Letters of both cases and the six digits are read; every other character is skipped. */
  lemma KnownIff(c: char)
    ensures Known(c) <==> Upper(c) || Lower(c) || TwoToSeven(c)
    ensures Known(c) && Upper(c) ==> Value(c) as int == c as int - 'A' as int
    ensures Known(c) && Lower(c) ==> Value(c) as int == c as int - 'a' as int
    ensures Known(c) && TwoToSeven(c) ==> Value(c) as int == c as int - '2' as int + 26
  {
    hide Table;
    var k := c as int - '0' as int;
    if 0 <= k < 80 {
      TableAt(k);
      assert (0xff as Byte) as int == 255;
    }
  }

  lemma AsByte(k: int)
    requires 0 <= k < 32
    ensures (k as Byte) as int == k
  {
  }

  lemma TableAt(k: int)
    requires 0 <= k < 80
    ensures Table(k) as int == if 2 <= k <= 7 then k + 24
                               else if 17 <= k <= 42 then k - 17
                               else if 49 <= k <= 74 then k - 49
                               else 255
  {
    if 2 <= k <= 7 {
      AsByte(k + 24);
    } else if 17 <= k <= 42 {
      AsByte(k - 17);
    } else if 49 <= k <= 74 {
      AsByte(k - 49);
    }
  }

  predicate SameLetter(c: char, d: char) {
    c == d || (Lower(c) && Upper(d) && c as int - 'a' as int == d as int - 'A' as int)
    || (Upper(c) && Lower(d) && c as int - 'A' as int == d as int - 'a' as int)
  }

  lemma SameValue(c: char, d: char)
    requires SameLetter(c, d)
    ensures Known(c) == Known(d) && (Known(c) ==> Value(c) == Value(d))
  {
    KnownIff(c);
    KnownIff(d);
  }

  /** Case makes no difference to the decoder. */
  lemma {:induction false} CaseIgnored(s: string, t: string)
    requires |s| == |t| && forall i :: 0 <= i < |s| ==> SameLetter(s[i], t[i])
    ensures Values(s) == Values(t) && Decoded(s) == Decoded(t)
  {
    hide SameLetter, Known, Packed;
    if s != "" {
      var n := |s| - 1;
      CaseIgnored(s[..n], t[..n]);
      SameValue(s[n], t[n]);
    }
  }

  // --- padding ---

  /** One to four bytes are padded to eight characters as the standard asks, longer arrays not at all: what is written
      is a multiple of eight characters only up to four bytes and for multiples of five. */
  lemma PaddedIff(n: nat)
    ensures forall i :: 0 <= i < |Padding(n)| ==> Padding(n)[i] == '='
    ensures 1 <= n <= 4 ==> DigitCount(n) + |Padding(n)| == 8
    ensures n == 0 || n > 4 ==> Padding(n) == ""
    ensures (DigitCount(n) + |Padding(n)|) % 8 == 0 <==> n <= 4 || n % 5 == 0
  {
    if n > 4 {
      var q, r := n / 5, n % 5;
      assert n == 5 * q + r;
      assert DigitCount(n) == 8 * q + (8 * r + 4) / 5;
      assert (8 * q + (8 * r + 4) / 5) % 8 == (8 * r + 4) / 5 % 8;
    }
  }

  // --- sizes in 32 bits ---

  /** The encoder's buffer: what it will hold, rounded up to whole groups, while that fits. */
  lemma CapacityHolds(n: nat)
    requires n + 7 < 0x1000_0000
    ensures Capacity(n) == (n + 7) * 8 / 5 + |Padding(n)|
    ensures DigitCount(n) + |Padding(n)| <= Capacity(n)
  {
    NoWrap(n + 7);
    NoWrap((n + 7) * 8);
  }

  /** The encoder throws for every other run of 2^28 lengths. */
  lemma CapacityNegative(n: nat)
    ensures Capacity(n) < 0 <==> (n + 7) % 0x2000_0000 >= 0x1000_0000
  {
    hide Div;
    var q, r := (n + 7) / 0x2000_0000, (n + 7) % 0x2000_0000;
    Int32Product(n + 7, 8);
    Int32Is((n + 7) * 8, q, if r >= 0x1000_0000 then 8 * r - 0x1_0000_0000 else 8 * r,
            if r >= 0x1000_0000 then 1 else 0);
    DivTruncates(Int32((n + 7) * 8), 5);
  }

  lemma Int32Is(n: int, q: int, r: int, k: int)
    requires n == 0x1_0000_0000 * (q + k) + r && -0x8000_0000 <= r < 0x8000_0000
    ensures Int32(n) == r
  {
    Int32Only(n, r, q + k);
  }

  /** The decoder's array has five eighths of the length while that fits an int. */
  lemma SizeIs(n: nat)
    requires 5 * n < 0x8000_0000
    ensures Size(n) == 5 * n / 8
  {
    NoWrap(5 * n);
  }

  /** It throws for a negative size: five times the length lies in the upper half of 2^32, short of its last seven. */
  lemma SizeNegative(n: nat)
    ensures Size(n) < 0 <==> 0x8000_0000 <= n * 5 % 0x1_0000_0000 <= 0xffff_fff8
  {
    hide Div;
    var q, r := n * 5 / 0x1_0000_0000, n * 5 % 0x1_0000_0000;
    Int32Is(n * 5, q, if r >= 0x8000_0000 then r - 0x1_0000_0000 else r, if r >= 0x8000_0000 then 1 else 0);
    DivTruncates(Int32(n * 5), 8);
  }

  // --- two examples of RFC 4648 section 10: "f" and "fooba" ---

  const F: seq<Byte> := [0x66]
  const FOOBA: seq<Byte> := [0x66, 0x6f, 0x6f, 0x62, 0x61]

  lemma StepsOfF()
    ensures Within(0x66, 0) == 12 && Across(0x66, 0, 5) == 24
  {
  }

  lemma StepsOfFooba()
    ensures Within(0x66, 0) == 12 && Across(0x66, 0x6f, 5) == 25 && Within(0x6f, 2) == 23 && Across(0x6f, 0x6f, 7) == 22
    ensures Across(0x6f, 0x62, 4) == 30 && Within(0x62, 1) == 24 && Across(0x62, 0x61, 6) == 19 && Within(0x61, 3) == 1
  {
  }

  lemma DigitsOfF()
    ensures Digits(F) == [12, 24]
  {
    hide DigitAt, Within, Across;
    StepsOfF();
    WithinIsDigit(F, 0, 0, 0);
    AcrossIsDigit(F, 0, 5, 1);
  }

  lemma DigitsOfFooba()
    ensures Digits(FOOBA) == [12, 25, 23, 22, 30, 24, 19, 1]
  {
    hide DigitAt, Within, Across;
    StepsOfFooba();
    WithinIsDigit(FOOBA, 0, 0, 0);
    AcrossIsDigit(FOOBA, 0, 5, 1);
    WithinIsDigit(FOOBA, 1, 2, 2);
    AcrossIsDigit(FOOBA, 1, 7, 3);
    AcrossIsDigit(FOOBA, 2, 4, 4);
    WithinIsDigit(FOOBA, 3, 1, 5);
    AcrossIsDigit(FOOBA, 3, 6, 6);
    WithinIsDigit(FOOBA, 4, 3, 7);
  }

  lemma Examples()
    ensures Encoded(F) == Done("MY======") && Encoded(FOOBA) == Done("MZXW6YTB")
  {
    hide Digits, Capacity, Text;
    assert Padding(1) == "======" && Padding(5) == "";
    assert "MY" + "======" == "MY======" && "MZXW6YTB" + "" == "MZXW6YTB";
    DigitsOfF();
    DigitsOfFooba();
    CapacityHolds(1);
    CapacityHolds(5);
    TextsOfExamples();
  }

  lemma TextsOfExamples()
    ensures Text([12, 24]) == "MY" && Text([12, 25, 23, 22, 30, 24, 19, 1]) == "MZXW6YTB"
  {
    var d, e: seq<Byte> := [12, 24], [12, 25, 23, 22, 30, 24, 19, 1];
    CharsOfExamples();
    assert Text(d) == "MY";
    assert Text(e) == "MZXW6YTB";
  }

  lemma CharsOfExamples()
    ensures Char(12) == 'M' && Char(24) == 'Y' && Char(25) == 'Z' && Char(23) == 'X' && Char(22) == 'W'
    ensures Char(30) == '6' && Char(19) == 'T' && Char(1) == 'B'
  {
  }
}
