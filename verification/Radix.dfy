/** Conversion of binary strings of any length to octal and hexadecimal by groups of digits. As in the code, a character
    other than '1' counts as 0. */
module Radix {
  import opened JavaInts
  import opened Numerals
  import opened Sequences
  import opened Wrappers

  function Bit(c: char): nat { if c == '1' then 1 else 0 }

  /** The number a binary string denotes. */
  function Value(s: string): nat {
    if s == "" then 0 else 2 * Value(s[..|s| - 1]) + Bit(s[|s| - 1])
  }

  /** The fraction a string of binary digits denotes behind the point. */
  function BinaryFraction(s: string): real {
    if s == "" then 0.0 else (Bit(s[0]) as real + BinaryFraction(s[1..])) / 2.0
  }

  function OctalFraction(digits: seq<nat>): real {
    if digits == [] then 0.0 else (digits[0] as real + OctalFraction(digits[1..])) / 8.0
  }

  function HexFraction(digits: seq<nat>): real {
    if digits == [] then 0.0 else (digits[0] as real + HexFraction(digits[1..])) / 16.0
  }

  function Pow2(k: nat): nat {
    if k == 0 then 1 else 2 * Pow2(k - 1)
  }

  /** n / k, rounded up. */
  function Ceil(n: nat, k: nat): nat
    requires k > 0
  {
    if n == 0 then 0 else if n <= k then 1 else 1 + Ceil(n - k, k)
  }

  // --- one group ---

  lemma {:induction false} ValueFront(s: string)
    requires s != ""
    ensures Value(s) == (if s[0] == '1' then Pow2(|s| - 1) else 0) + Value(s[1..])
  {
    if |s| > 1 {
      var front := s[..|s| - 1];
      ValueFront(front);
      assert s[1..][..|s| - 2] == front[1..];
    }
  }

  /** Wrapping early or late is the same. */
  lemma Int32Add(m: int, n: int)
    ensures Int32(m + Int32(n)) == Int32(m + n)
  {
  }

  lemma Int32Twice(n: int)
    ensures Int32(2 * Int32(n)) == Int32(2 * n)
  {
    hide Int32;
    Int32Add(Int32(n), n);
    Int32Add(n, n);
  }

  /** The scale of a digit, doubled step by step with wrap-around. */
  method Scale(i: nat) returns (scale: int)
    requires i > 0
    ensures scale == Int32(Pow2(i - 1))
  {
    scale := 2;
    if i != 1 {
      var j := 1;
      while j < i - 1
        invariant 1 <= j <= i - 1 && scale == Int32(Pow2(j))
      {
        Int32Twice(Pow2(j));
        scale := Int32(2 * scale);
        j := j + 1;
      }
    } else {
      scale := 1;
    }
  }

  /** The value of the string, in 32 bits. */
  method BinaryIntToDecimalism(integer: string) returns (sum: int)
    ensures sum == Int32(Value(integer))
  {
    hide Int32, Value, Pow2;
    Int32Zero();
    ValueNone();
    sum := 0;
    var i := |integer|;
    ghost var rest := integer;
    while i > 0
      invariant i == |rest| <= |integer| && rest == integer[|integer| - i..]
      invariant Int32(sum + Value(rest)) == Int32(Value(integer)) && sum == Int32(sum)
      decreases i
    {
      var scale := 0;
      assert integer[|integer| - i] == rest[0];
      ghost var digit := if rest[0] == '1' then Pow2(i - 1) else 0;
      if integer[|integer| - i] == '1' {
        scale := Scale(i);
      }
      ValueFront(rest);
      Int32Add(sum, digit);
      Int32Add(Value(rest[1..]), sum + digit);
      Int32Add(0, sum + digit);
      sum := Int32(sum + scale);
      rest := rest[1..];
      i := i - 1;
    }
  }

  lemma ValueNone()
    ensures Value("") == 0
  {
  }

  lemma Int32Zero()
    ensures Int32(0) == 0
  {
  }

  // --- groups of digits ---

  /** The values of the groups of `k` characters counted from the right, the leftmost group padded. */
  function Groups(s: string, k: nat): (g: seq<nat>)
    requires k > 0
    ensures |g| == Ceil(|s|, k)
    decreases |s|
  {
    if s == "" then []
    else if |s| <= k then [Value(s)]
    else Groups(s[..|s| - k], k) + [Value(s[|s| - k..])]
  }

  /** The values of the groups counted from the left, the rightmost one padded with zeros. */
  function FractionGroups(s: string, k: nat): (g: seq<nat>)
    requires k > 0
    ensures |g| == Ceil(|s|, k)
    decreases |s|
  {
    if s == "" then []
    else if |s| <= k then [Value(s) * Pow2(k - |s|)]
    else [Value(s[..k])] + FractionGroups(s[k..], k)
  }

  lemma ValueAppend(s: string, c: char)
    ensures Value(s + [c]) == 2 * Value(s) + Bit(c)
  {
    assert (s + [c])[..|s|] == s;
  }

  lemma {:induction false} ValueConcat(s: string, t: string)
    ensures Value(s + t) == Value(s) * Pow2(|t|) + Value(t)
    decreases |t|
  {
    hide Value;
    if t == "" {
      NoDigits(2);
      assert s + t == s;
    } else {
      var front, c := t[..|t| - 1], t[|t| - 1];
      assert s + t == (s + front) + [c] && t == front + [c];
      ValueAppend(s + front, c);
      ValueAppend(front, c);
      ValueConcat(s, front);
      Distribute(Value(s), Pow2(|front|));
    }
  }

  lemma Distribute(a: nat, b: nat)
    ensures 2 * (a * b) == a * (2 * b)
  {
  }

  lemma {:induction false} ValueBound(s: string)
    ensures Value(s) < Pow2(|s|)
  {
    if s != "" {
      ValueBound(s[..|s| - 1]);
    }
  }

  lemma {:induction false} Pow2Grows(i: nat, j: nat)
    requires i <= j
    ensures Pow2(i) <= Pow2(j)
    decreases j
  {
    if i < j {
      Pow2Grows(i, j - 1);
    }
  }

  /** The groups are the digits of the same number in base 2^k. */
  lemma {:induction false} GroupsDenote(s: string, k: nat)
    requires k > 0
    ensures Numeral(Pow2(k), Groups(s, k)) == Value(s)
    decreases |s|
  {
    hide Pow2, Value, Numeral;
    if s == "" {
      NoDigits(Pow2(k));
    } else if |s| <= k {
      NoDigits(Pow2(k));
      NumeralAppend(Pow2(k), [], Value(s));
      assert [] + [Value(s)] == [Value(s)];
    } else {
      var front, last := s[..|s| - k], s[|s| - k..];
      GroupsDenote(front, k);
      ValueConcat(front, last);
      NumeralAppend(Pow2(k), Groups(front, k), Value(last));
      assert front + last == s;
    }
  }

  lemma NoDigits(base: nat)
    ensures Numeral(base, []) == 0 && Value("") == 0
  {
  }

  lemma {:induction false} GroupsAreDigits(s: string, k: nat)
    requires k > 0
    ensures forall i :: 0 <= i < |Groups(s, k)| ==> Groups(s, k)[i] < Pow2(k)
    decreases |s|
  {
    if s == "" {
    } else if |s| <= k {
      ValueBound(s);
      Pow2Grows(|s|, k);
    } else {
      GroupsAreDigits(s[..|s| - k], k);
      ValueBound(s[|s| - k..]);
    }
  }

  // --- numerals as text ---

  /** The digit of a group: the decimal digit, or what toHex makes of 10 to 15. */
  function ToHex(v: nat): char
    requires v < 16
  {
    if v < 10 then '0' + v as char else 'A' + (v - 10) as char
  }

  function DigitValue(c: char): nat {
    if 'A' <= c then c as nat - 'A' as nat + 10 else if '0' <= c then c as nat - '0' as nat else 0
  }

  function Text(g: seq<nat>): (t: string)
    requires forall i :: 0 <= i < |g| ==> g[i] < 16
    ensures |t| == |g|
  {
    seq(|g|, i requires 0 <= i < |g| => ToHex(g[i]))
  }

  /** The digits a text is made of. */
  function DigitsOf(t: string): (g: seq<nat>)
    ensures |g| == |t|
  {
    seq(|t|, i requires 0 <= i < |t| => DigitValue(t[i]))
  }

  lemma TextRoundTrip(g: seq<nat>)
    requires forall i :: 0 <= i < |g| ==> g[i] < 16
    ensures DigitsOf(Text(g)) == g
  {
    forall i | 0 <= i < |g|
      ensures DigitValue(ToHex(g[i])) == g[i]
    {
      ToHexRoundTrip(g[i]);
    }
  }

  lemma ToHexRoundTrip(v: nat)
    requires v < 16
    ensures DigitValue(ToHex(v)) == v
  {
  }

  const HEX_DIGITS := "0123456789ABCDEF"

  /** A text made of the digits of the base alone. */
  predicate InBase(base: nat, t: string)
    requires base <= 16
  {
    forall i :: 0 <= i < |t| ==> t[i] in HEX_DIGITS[..base]
  }

  lemma ToHexLetters(v: nat)
    requires v < 16
    ensures ToHex(v) == HEX_DIGITS[v]
  {
  }

  lemma InBaseAppend(base: nat, t: string, v: nat)
    requires v < base <= 16 && InBase(base, t)
    ensures InBase(base, t + [ToHex(v)])
  {
    ToHexLetters(v);
    assert HEX_DIGITS[..base][v] == HEX_DIGITS[v];
  }

  lemma TextInBase(base: nat, g: seq<nat>)
    requires base <= 16 && forall i :: 0 <= i < |g| ==> g[i] < base
    ensures InBase(base, Text(g))
  {
    forall i | 0 <= i < |g|
      ensures Text(g)[i] in HEX_DIGITS[..base]
    {
      ToHexLetters(g[i]);
      assert HEX_DIGITS[..base][g[i]] == HEX_DIGITS[g[i]];
    }
  }

  /** Texts of one base that have the same digits are the same. */
  lemma DigitsDetermine(base: nat, t: string, u: string)
    requires base <= 16 && InBase(base, t) && InBase(base, u) && DigitsOf(t) == DigitsOf(u)
    ensures t == u
  {
    forall i | 0 <= i < |t|
      ensures t[i] == u[i]
    {
      assert DigitsOf(t)[i] == DigitsOf(u)[i];
      assert t[i] in HEX_DIGITS && u[i] in HEX_DIGITS;
    }
  }

  function Reverse(s: string): (r: string)
    ensures |r| == |s|
  {
    if s == "" then "" else Reverse(s[1..]) + [s[0]]
  }

  lemma {:induction false} ReverseAppend(s: string, c: char)
    ensures Reverse(s + [c]) == [c] + Reverse(s)
  {
    if s != "" {
      assert (s + [c])[1..] == s[1..] + [c];
      ReverseAppend(s[1..], c);
    }
  }

  // --- padding ---

  function ZeroText(n: nat): (z: string)
    ensures |z| == n
  {
    if n == 0 then "" else ZeroText(n - 1) + "0"
  }

  /** `text` is None for null. */
  method AppendZero(text: Option<string>, len: int, flag: bool) returns (r: string)
    ensures text.None? ==> r == ""
    ensures text.Some? ==>
      var str := text.value;
      r == if str == "" || |str| >= len then str
           else if flag then ZeroText(len - |str|) + str else str + ZeroText(len - |str|)
  {
    if text.None? || text.value == "" {
      return "";
    }
    var str := text.value;
    r := str;
    if |str| >= len {
      return;
    }
    var i := |str|;
    while i < len
      invariant |str| <= i <= len
      invariant r == if flag then ZeroText(i - |str|) + str else str + ZeroText(i - |str|)
    {
      ZeroTextFront(i - |str|);
      r := if flag then "0" + r else r + "0";
      i := i + 1;
    }
  }

  lemma {:induction false} ZeroTextFront(n: nat)
    ensures "0" + ZeroText(n) == ZeroText(n + 1)
  {
    if n > 0 {
      ZeroTextFront(n - 1);
    }
  }

  lemma {:induction false} ZerosBefore(n: nat, s: string)
    ensures Value(ZeroText(n) + s) == Value(s)
  {
    if n == 0 {
      assert ZeroText(n) + s == s;
    } else {
      ZerosBefore(n - 1, "0" + s);
      assert ZeroText(n) + s == ZeroText(n - 1) + ("0" + s);
      ValueFront("0" + s);
      assert ("0" + s)[1..] == s;
    }
  }

  lemma {:induction false} ZerosBehind(n: nat, s: string)
    ensures Value(s + ZeroText(n)) == Value(s) * Pow2(n)
  {
    hide Value;
    if n == 0 {
      assert s + ZeroText(n) == s;
    } else {
      assert s + ZeroText(n) == (s + ZeroText(n - 1)) + "0";
      ValueAppend(s + ZeroText(n - 1), '0');
      ZerosBehind(n - 1, s);
      Distribute(Value(s), Pow2(n - 1));
    }
  }

  // --- integers ---

  lemma {:induction false} LoopCount(n: nat, k: nat)
    requires k == 3 || k == 4
    ensures Ceil(n, k) == if n % k == 0 then n / k else n / k + 1
    decreases n
  {
    if n > k {
      LoopCount(n - k, k);
    }
  }

  /** The value of one group, read in 32 bits: it always fits. */
  lemma GroupFits(group: string)
    requires |group| <= 4
    ensures Value(group) < Pow2(|group|) <= 16 && Int32(Value(group)) == Value(group)
  {
    ValueBound(group);
    Pow2Grows(|group|, 4);
    assert Pow2(4) == 16;
  }

  /** The base whose digits are groups of three or of four bits. */
  function Base(k: nat): (b: nat)
    ensures b <= 16
  {
    if k == 3 then 8 else 16
  }

  lemma GroupsFit(s: string, k: nat)
    requires k == 3 || k == 4
    ensures forall i :: 0 <= i < |Groups(s, k)| ==> Groups(s, k)[i] < Base(k) <= 16
    ensures Pow2(k) == Base(k)
  {
    hide Groups, Pow2;
    GroupsAreDigits(s, k);
    GroupBases();
  }

  lemma LastGroup(s: string, k: nat)
    requires s != "" && k > 0
    ensures var m := if |s| <= k then 0 else |s| - k;
      && Groups(s, k) == Groups(s[..m], k) + [Value(s[m..])]
      && Ceil(|s|, k) == Ceil(m, k) + 1 && (Ceil(|s|, k) == 1 <==> m == 0)
  {
    if |s| <= k {
      assert s[0..] == s && s[..0] == "";
    } else {
      assert |s| - k > 0;
    }
  }

  lemma CeilZero(n: nat, k: nat)
    requires k > 0
    ensures Ceil(n, k) == 0 <==> n == 0
  {
  }

  lemma NoGroups(k: nat)
    requires k > 0
    ensures Groups("", k) == [] && Text([]) == ""
  {
  }

  lemma TextAppend(g: seq<nat>, v: nat)
    requires v < 16 && forall i :: 0 <= i < |g| ==> g[i] < 16
    ensures Text(g + [v]) == Text(g) + [ToHex(v)]
  {
  }

  /** The group the loop reads in round `i`, padded on the left when it is the last round. */
  method GroupFromRight(integer: string, k: nat, i: nat, loop: nat, ghost left: nat) returns (value: nat, ghost m: nat)
    requires (k == 3 || k == 4) && 1 <= i <= loop
    requires left == |integer| - (i - 1) * k && 0 < left && Ceil(left, k) == loop - (i - 1)
    ensures m < left && Ceil(m, k) == loop - i && value < 16 && (i < loop ==> m == |integer| - i * k)
    ensures Groups(integer[..left], k) == Groups(integer[..m], k) + [value]
  {
    hide Groups, Value, Ceil;
    ghost var rest := integer[..left];
    m := if left <= k then 0 else left - k;
    LastGroup(rest, k);
    assert i * k == (i - 1) * k + k;
    CeilZero(m, k);
    var binary;
    if i != loop {
      binary := integer[|integer| - i * k..|integer| - i * k + k];
      assert binary == rest[m..];
    } else {
      binary := AppendZero(Some(integer[..|integer| - (i - 1) * k]), k, true);
      assert rest[m..] == rest && ZeroText(0) + rest == rest;
      ZerosBefore(k - left, rest);
    }
    assert rest[..m] == integer[..m];
    GroupFits(binary);
    value := BinaryIntToDecimalism(binary);
  }

  lemma GroupsWrite(s: string, k: nat)
    requires k == 3 || k == 4
    ensures forall i :: 0 <= i < |Groups(s, k)| ==> Groups(s, k)[i] < 16
    ensures DigitsOf(Text(Groups(s, k))) == Groups(s, k) && InBase(Base(k), Text(Groups(s, k)))
  {
    hide Groups, Text, DigitsOf, InBase;
    GroupsFit(s, k);
    TextRoundTrip(Groups(s, k));
    TextInBase(Base(k), Groups(s, k));
  }

  /** The loop of the integer conversions: groups are taken from the right, and the text is reversed at the end. */
  method GroupsFromRight(integer: string, k: nat) returns (r: string)
    requires k == 3 || k == 4
    ensures DigitsOf(r) == Groups(integer, k) && |r| == Ceil(|integer|, k) && InBase(Base(k), r)
  {
    hide Groups, Text, Ceil, ToHex, DigitsOf, InBase, Base, Value;
    var loop := if |integer| % k == 0 then |integer| / k else |integer| / k + 1;
    LoopCount(|integer|, k);
    GroupsWrite(integer, k);
    var integerSum, i := "", 1;
    ghost var left := |integer|;
    assert integer[..left] == integer;
    while i <= loop
      invariant 1 <= i <= loop + 1 && left <= |integer| && Ceil(left, k) == loop - (i - 1)
      invariant i <= loop ==> left == |integer| - (i - 1) * k
      invariant forall j :: 0 <= j < |Groups(integer[..left], k)| ==> Groups(integer[..left], k)[j] < 16
      invariant Text(Groups(integer, k)) == Text(Groups(integer[..left], k)) + Reverse(integerSum)
    {
      CeilZero(left, k);
      var value, m := GroupFromRight(integer, k, i, loop, left);
      assert forall j :: 0 <= j < |Groups(integer[..m], k)| ==>
                           Groups(integer[..m], k)[j] == Groups(integer[..left], k)[j];
      TextAppend(Groups(integer[..m], k), value);
      ReverseAppend(integerSum, ToHex(value));
      integerSum := integerSum + [ToHex(value)];
      i, left := i + 1, m;
    }
    CeilZero(left, k);
    NoGroups(k);
    r := Reverse(integerSum);
    assert "" + r == r;
    assert integer[..left] == "";
  }

  /** The octal numeral denotes the same number, with one digit for every three bits. */
  method BinaryIntToOctal(integer: string) returns (r: string)
    ensures Numeral(8, DigitsOf(r)) == Value(integer) && |r| == (|integer| + 2) / 3 && InBase(8, r)
  {
    r := GroupsFromRight(integer, 3);
    GroupsDenote(integer, 3);
    LoopCount(|integer|, 3);
    assert Pow2(3) == 8;
  }

  /** The hexadecimal numeral denotes the same number, with one digit for every four bits. */
  method BinaryIntToHexadecimal(integer: string) returns (r: string)
    ensures Numeral(16, DigitsOf(r)) == Value(integer) && |r| == (|integer| + 3) / 4 && InBase(16, r)
  {
    r := GroupsFromRight(integer, 4);
    GroupsDenote(integer, 4);
    LoopCount(|integer|, 4);
    assert Pow2(4) == 16;
  }

  // --- fractions ---

  lemma ValueThree(s: string)
    requires |s| == 3
    ensures Value(s) == 4 * Bit(s[0]) + 2 * Bit(s[1]) + Bit(s[2])
  {
    assert s == [s[0]] + [s[1]] + [s[2]];
    ValueAppend([s[0]] + [s[1]], s[2]);
    ValueAppend([s[0]], s[1]);
    ValueAppend("", s[0]);
    assert "" + [s[0]] == [s[0]];
  }

  lemma ValueFour(s: string)
    requires |s| == 4
    ensures Value(s) == 8 * Bit(s[0]) + 4 * Bit(s[1]) + 2 * Bit(s[2]) + Bit(s[3])
  {
    ValueThree(s[..3]);
    assert s == s[..3] + [s[3]];
    ValueAppend(s[..3], s[3]);
  }

  lemma FractionFront(c: char, s: string)
    ensures BinaryFraction([c] + s) == (Bit(c) as real + BinaryFraction(s)) / 2.0
  {
    assert ([c] + s)[1..] == s;
  }

  lemma {:induction false} PaddedFraction(s: string, n: nat)
    ensures BinaryFraction(s + ZeroText(n)) == BinaryFraction(s)
    decreases |s|, n
  {
    if s != "" {
      assert s + ZeroText(n) == [s[0]] + (s[1..] + ZeroText(n));
      FractionFront(s[0], s[1..] + ZeroText(n));
      PaddedFraction(s[1..], n);
      assert BinaryFraction(s) == (Bit(s[0]) as real + BinaryFraction(s[1..])) / 2.0;
      assert BinaryFraction(s + ZeroText(n)) == (Bit(s[0]) as real + BinaryFraction(s[1..] + ZeroText(n))) / 2.0;
    } else if n > 0 {
      ZeroTextFront(n - 1);
      assert s + ZeroText(n) == ['0'] + ("" + ZeroText(n - 1));
      FractionFront('0', "" + ZeroText(n - 1));
      PaddedFraction("", n - 1);
      assert BinaryFraction(s + ZeroText(n)) == (Bit('0') as real + BinaryFraction("" + ZeroText(n - 1))) / 2.0;
    } else {
      assert s + ZeroText(n) == s;
    }
  }

  lemma FractionAt(s: string, i: nat)
    requires i < |s|
    ensures BinaryFraction(s[i..]) == (Bit(s[i]) as real + BinaryFraction(s[i + 1..])) / 2.0
    ensures s[0..] == s
  {
    assert s[i..][1..] == s[i + 1..];
  }

  lemma OctalGroup(s: string)
    requires |s| >= 3
    ensures BinaryFraction(s) == (Value(s[..3]) as real + BinaryFraction(s[3..])) / 8.0
  {
    ValueThree(s[..3]);
    FractionAt(s, 0);
    FractionAt(s, 1);
    FractionAt(s, 2);
  }

  lemma HexGroup(s: string)
    requires |s| >= 4
    ensures BinaryFraction(s) == (Value(s[..4]) as real + BinaryFraction(s[4..])) / 16.0
  {
    ValueFour(s[..4]);
    FractionAt(s, 0);
    FractionAt(s, 1);
    FractionAt(s, 2);
    FractionAt(s, 3);
  }

  /** Padding completes the last group. */
  lemma {:induction false} OctalGroupsDenote(s: string)
    ensures OctalFraction(FractionGroups(s, 3)) == BinaryFraction(s)
    decreases |s|
  {
    if s == "" {
    } else if |s| <= 3 {
      var t := s + ZeroText(3 - |s|);
      PaddedFraction(s, 3 - |s|);
      ZerosBehind(3 - |s|, s);
      OctalGroup(t);
      assert t[..3] == t && t[3..] == "";
    } else {
      OctalGroupsDenote(s[3..]);
      OctalGroup(s);
      assert FractionGroups(s, 3)[1..] == FractionGroups(s[3..], 3);
    }
  }

  lemma {:induction false} HexGroupsDenote(s: string)
    ensures HexFraction(FractionGroups(s, 4)) == BinaryFraction(s)
    decreases |s|
  {
    if s == "" {
    } else if |s| <= 4 {
      var t := s + ZeroText(4 - |s|);
      PaddedFraction(s, 4 - |s|);
      ZerosBehind(4 - |s|, s);
      HexGroup(t);
      assert t[..4] == t && t[4..] == "";
    } else {
      HexGroupsDenote(s[4..]);
      HexGroup(s);
      assert FractionGroups(s, 4)[1..] == FractionGroups(s[4..], 4);
    }
  }

  lemma FirstGroup(s: string, k: nat)
    requires s != "" && k > 0
    ensures FractionGroups(s, k) == if |s| <= k then [Value(s) * Pow2(k - |s|)]
                                    else [Value(s[..k])] + FractionGroups(s[k..], k)
  {
    hide Value, Pow2;
  }

  lemma NoZeros(s: string)
    ensures s + ZeroText(0) == s
  {
  }

  lemma GroupBases()
    ensures Pow2(3) == Base(3) == 8 && Pow2(4) == Base(4) == 16
  {
  }

  /** The group of a fraction that starts at `from`, padded on the right when it is the last. */
  method GroupFromLeft(decimals: string, k: nat, from: nat, last: bool) returns (value: nat)
    requires (k == 3 || k == 4) && from < |decimals| && (last <==> |decimals| <= from + k)
    ensures value < Base(k)
    ensures FractionGroups(decimals[from..], k)
         == if last then [value] else [value] + FractionGroups(decimals[from + k..], k)
  {
    hide FractionGroups, Value, Pow2, ZeroText, Int32;
    ghost var rest := decimals[from..];
    var binary;
    FirstGroup(rest, k);
    if !last {
      binary := decimals[from..from + k];
      assert binary == rest[..k];
      assert decimals[from + k..] == rest[k..];
    } else {
      binary := AppendZero(Some(decimals[from..]), k, false);
      NoZeros(rest);
      ZerosBehind(k - |rest|, rest);
    }
    GroupFits(binary);
    GroupBases();
    value := BinaryIntToDecimalism(binary);
  }

  lemma DigitsAppend(t: string, v: nat)
    requires v < 16
    ensures DigitsOf(t + [ToHex(v)]) == DigitsOf(t) + [v]
  {
    ToHexRoundTrip(v);
    var u, g := t + [ToHex(v)], DigitsOf(t) + [v];
    assert |DigitsOf(u)| == |g| && forall i :: 0 <= i < |u| ==> DigitsOf(u)[i] == g[i];
    assert DigitsOf(u) == g;
  }

  lemma NextGroup(t: string, v: nat, rest: seq<nat>)
    requires v < 16
    ensures DigitsOf(t) + ([v] + rest) == DigitsOf(t + [ToHex(v)]) + rest
  {
    hide DigitsOf, ToHex;
    DigitsAppend(t, v);
    Assoc(DigitsOf(t), [v], rest);
  }

  /** The rounds of the loops over groups of three. */
  function Thirds(n: nat): (loop: nat)
    ensures n <= 3 * loop && (loop > 0 ==> 3 * (loop - 1) < n) && loop == (n + 2) / 3
  {
    if n % 3 == 0 then n / 3 else n / 3 + 1
  }

  /** The octal fraction is the same fraction. */
  method BinaryDecToOctal(decimals: string) returns (r: string)
    ensures OctalFraction(DigitsOf(r)) == BinaryFraction(decimals) && |r| == (|decimals| + 2) / 3 && InBase(8, r)
  {
    hide Thirds, FractionGroups, DigitsOf, ToHex, OctalFraction, BinaryFraction, InBase;
    EmptyInBase(8);
    var loop := Thirds(|decimals|);
    r := "";
    var i := 1;
    NoFraction(decimals);
    ghost var more := FractionGroups(decimals, 3);
    while i <= loop
      invariant 1 <= i <= loop + 1 && |r| == i - 1 && FractionGroups(decimals, 3) == DigitsOf(r) + more
      invariant InBase(8, r)
      invariant more == if i <= loop then FractionGroups(decimals[3 * (i - 1)..], 3) else []
    {
      var value := GroupFromLeft(decimals, 3, 3 * (i - 1), i == loop);
      ghost var rest := if i == loop then [] else FractionGroups(decimals[3 * i..], 3);
      NextGroup(r, value, rest);
      InBaseAppend(8, r, value);
      assert more == [value] + rest;
      r, i, more := r + [ToHex(value)], i + 1, rest;
    }
    assert DigitsOf(r) + [] == DigitsOf(r);
    OctalGroupsDenote(decimals);
  }

  lemma EmptyInBase(base: nat)
    requires base <= 16
    ensures InBase(base, "")
  {
  }

  lemma NoFraction(s: string)
    ensures FractionGroups(s[|s|..], 3) == FractionGroups(s[|s|..], 4) == [] && DigitsOf("") == [] && s[0..] == s
  {
  }

  lemma {:induction false} SurplusZero(g: seq<nat>)
    ensures HexFraction(g + [0]) == HexFraction(g)
  {
    if g == [] {
      assert ([] + [0])[1..] == [];
    } else {
      assert (g + [0])[1..] == g[1..] + [0];
      SurplusZero(g[1..]);
    }
  }

  /** The lengths on which reading four at a time stays inside the string. */
  lemma FittingLengths(n: nat)
    ensures n == 0 || 4 * (Thirds(n) - 1) <= n <==> n <= 6 || n in {8, 9, 12}
  {
  }

  /** This loop counts groups of three and reads groups of four, so it runs off the end of most strings. It succeeds
      exactly on these lengths, and then denotes the same fraction. */
  method BinaryDecToHexadecimal(decimals: string) returns (r: Option<string>)
    ensures r.Some? <==> |decimals| <= 6 || |decimals| in {8, 9, 12}
    ensures r.Some? ==> HexFraction(DigitsOf(r.value)) == BinaryFraction(decimals)
    ensures r.Some? ==> |r.value| == (|decimals| + 2) / 3 && InBase(16, r.value)
  {
    hide FractionGroups, DigitsOf, ToHex, HexFraction, BinaryFraction, InBase;
    EmptyInBase(16);
    var n := |decimals|;
    var loop := Thirds(n);
    FittingLengths(n);
    var sum, i := "", 1;
    NoFraction(decimals);
    HexGroupsDenote(decimals);
    while i <= loop
      invariant 1 <= i <= loop + 1 && (i <= loop ==> 4 * (i - 1) <= n) && (i > loop && n > 0 ==> 4 * (loop - 1) <= n)
      invariant i <= loop ==> FractionGroups(decimals, 4) == DigitsOf(sum) + FractionGroups(decimals[4 * (i - 1)..], 4)
      invariant i > loop ==> HexFraction(DigitsOf(sum)) == BinaryFraction(decimals)
      invariant |sum| == i - 1 && InBase(16, sum)
    {
      var from, value := 4 * (i - 1), 0;
      if i != loop && n < from + 4 {
        return None;
      }
      NoFraction(decimals);
      if from < n {
        value := GroupFromLeft(decimals, 4, from, n <= from + 4);
      } else {
        SurplusZero(DigitsOf(sum));
        assert DigitsOf(sum) + [] == DigitsOf(sum);
      }
      DigitsAppend(sum, value);
      InBaseAppend(16, sum, value);
      if from + 4 < n {
        NextGroup(sum, value, FractionGroups(decimals[from + 4..], 4));
      }
      sum := sum + [ToHex(value)];
      i := i + 1;
    }
    r := Some(sum);
  }
}
