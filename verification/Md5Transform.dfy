/** md5Transform: the 64 assignments of the code against the indexed operations of the RFC. */
module Md5Transform {
  import opened BlockHash
  import opened Md5Rfc
  import opened Md5Long

  const S11: Word := 7
  const S12: Word := 12
  const S13: Word := 17
  const S14: Word := 22
  const S21: Word := 5
  const S22: Word := 9
  const S23: Word := 14
  const S24: Word := 20
  const S31: Word := 4
  const S32: Word := 11
  const S33: Word := 16
  const S34: Word := 23
  const S41: Word := 6
  const S42: Word := 10
  const S43: Word := 15
  const S44: Word := 21

  datatype Longs = Longs(a: Long, b: Long, c: Long, d: Long)

  /** The low halves. */
  function Low(s: Longs): Words {
    Words(s.a.lo, s.b.lo, s.c.lo, s.d.lo)
  }

  function LowSeq(x: seq<Long>): (r: seq<Word>)
    ensures |r| == |x|
  {
    seq(|x|, i requires 0 <= i < |x| => x[i].lo)
  }

  /** `m` holds the low halves of the sixteen longs `x`. */
  ghost predicate Lows(x: seq<Long>, m: seq<Word>) {
    |x| == 16 == |m| && forall k :: 0 <= k < 16 ==> m[k] == x[k].lo
  }

  method FF(a: Long, b: Long, c: Long, d: Long, x: Long, s: Word, ac: Word, ghost i: nat, ghost m: seq<Word>)
    returns (r: Long)
    requires i < 16 && |m| == 16 && x.lo == m[K(i)] && s == S(i) && ac == T(i)
    ensures Words(d.lo, r.lo, b.lo, c.lo) == Step(i, Words(a.lo, b.lo, c.lo, d.lo), m)
  {
    FLow(b, c, d);
    OpLow(a, b, Md5Long.F(b, c, d), x, s, Constant(ac));
    r := Md5Long.Op(a, b, Md5Long.F(b, c, d), x, s, Constant(ac));
  }

  method GG(a: Long, b: Long, c: Long, d: Long, x: Long, s: Word, ac: Word, ghost i: nat, ghost m: seq<Word>)
    returns (r: Long)
    requires 16 <= i < 32 && |m| == 16 && x.lo == m[K(i)] && s == S(i) && ac == T(i)
    ensures Words(d.lo, r.lo, b.lo, c.lo) == Step(i, Words(a.lo, b.lo, c.lo, d.lo), m)
  {
    GLow(b, c, d);
    OpLow(a, b, Md5Long.G(b, c, d), x, s, Constant(ac));
    r := Md5Long.Op(a, b, Md5Long.G(b, c, d), x, s, Constant(ac));
  }

  method HH(a: Long, b: Long, c: Long, d: Long, x: Long, s: Word, ac: Word, ghost i: nat, ghost m: seq<Word>)
    returns (r: Long)
    requires 32 <= i < 48 && |m| == 16 && x.lo == m[K(i)] && s == S(i) && ac == T(i)
    ensures Words(d.lo, r.lo, b.lo, c.lo) == Step(i, Words(a.lo, b.lo, c.lo, d.lo), m)
  {
    HLow(b, c, d);
    OpLow(a, b, Md5Long.H(b, c, d), x, s, Constant(ac));
    r := Md5Long.Op(a, b, Md5Long.H(b, c, d), x, s, Constant(ac));
  }

  method II(a: Long, b: Long, c: Long, d: Long, x: Long, s: Word, ac: Word, ghost i: nat, ghost m: seq<Word>)
    returns (r: Long)
    requires 48 <= i < 64 && |m| == 16 && x.lo == m[K(i)] && s == S(i) && ac == T(i)
    ensures Words(d.lo, r.lo, b.lo, c.lo) == Step(i, Words(a.lo, b.lo, c.lo, d.lo), m)
  {
    ILow(b, c, d);
    OpLow(a, b, Md5Long.I(b, c, d), x, s, Constant(ac));
    r := Md5Long.Op(a, b, Md5Long.I(b, c, d), x, s, Constant(ac));
  }

  // What the RFC's tables say about each operation, next to the arguments the code writes out.

  lemma Table1a()
    ensures K(0) == 0 && S(0) == S11 && T(0) == 0xd76aa478
    ensures K(1) == 1 && S(1) == S12 && T(1) == 0xe8c7b756
    ensures K(2) == 2 && S(2) == S13 && T(2) == 0x242070db
    ensures K(3) == 3 && S(3) == S14 && T(3) == 0xc1bdceee
    ensures K(4) == 4 && S(4) == S11 && T(4) == 0xf57c0faf
    ensures K(5) == 5 && S(5) == S12 && T(5) == 0x4787c62a
    ensures K(6) == 6 && S(6) == S13 && T(6) == 0xa8304613
    ensures K(7) == 7 && S(7) == S14 && T(7) == 0xfd469501
  {
  }

  method Round1a(s: Longs, x: seq<Long>, ghost m: seq<Word>) returns (r: Longs)
    requires Lows(x, m)
    ensures Low(r) == FourSteps(4, FourSteps(0, Low(s), m), m)
  {
    Table1a();
    hide Step, K, S, T;
    var a, b, c, d := s.a, s.b, s.c, s.d;
    a := FF(a, b, c, d, x[0], S11, 0xd76aa478, 0, m);
    d := FF(d, a, b, c, x[1], S12, 0xe8c7b756, 1, m);
    c := FF(c, d, a, b, x[2], S13, 0x242070db, 2, m);
    b := FF(b, c, d, a, x[3], S14, 0xc1bdceee, 3, m);
    ghost var w := Low(Longs(a, b, c, d));
    assert w == FourSteps(0, Low(s), m);
    a := FF(a, b, c, d, x[4], S11, 0xf57c0faf, 4, m);
    d := FF(d, a, b, c, x[5], S12, 0x4787c62a, 5, m);
    c := FF(c, d, a, b, x[6], S13, 0xa8304613, 6, m);
    b := FF(b, c, d, a, x[7], S14, 0xfd469501, 7, m);
    r := Longs(a, b, c, d);
  }

  lemma Table1b()
    ensures K(8) == 8 && S(8) == S11 && T(8) == 0x698098d8
    ensures K(9) == 9 && S(9) == S12 && T(9) == 0x8b44f7af
    ensures K(10) == 10 && S(10) == S13 && T(10) == 0xffff5bb1
    ensures K(11) == 11 && S(11) == S14 && T(11) == 0x895cd7be
    ensures K(12) == 12 && S(12) == S11 && T(12) == 0x6b901122
    ensures K(13) == 13 && S(13) == S12 && T(13) == 0xfd987193
    ensures K(14) == 14 && S(14) == S13 && T(14) == 0xa679438e
    ensures K(15) == 15 && S(15) == S14 && T(15) == 0x49b40821
  {
  }

  method Round1b(s: Longs, x: seq<Long>, ghost m: seq<Word>) returns (r: Longs)
    requires Lows(x, m)
    ensures Low(r) == FourSteps(12, FourSteps(8, Low(s), m), m)
  {
    Table1b();
    hide Step, K, S, T;
    var a, b, c, d := s.a, s.b, s.c, s.d;
    a := FF(a, b, c, d, x[8], S11, 0x698098d8, 8, m);
    d := FF(d, a, b, c, x[9], S12, 0x8b44f7af, 9, m);
    c := FF(c, d, a, b, x[10], S13, 0xffff5bb1, 10, m);
    b := FF(b, c, d, a, x[11], S14, 0x895cd7be, 11, m);
    ghost var w := Low(Longs(a, b, c, d));
    assert w == FourSteps(8, Low(s), m);
    a := FF(a, b, c, d, x[12], S11, 0x6b901122, 12, m);
    d := FF(d, a, b, c, x[13], S12, 0xfd987193, 13, m);
    c := FF(c, d, a, b, x[14], S13, 0xa679438e, 14, m);
    b := FF(b, c, d, a, x[15], S14, 0x49b40821, 15, m);
    r := Longs(a, b, c, d);
  }

  lemma Table2a()
    ensures K(16) == 1 && S(16) == S21 && T(16) == 0xf61e2562
    ensures K(17) == 6 && S(17) == S22 && T(17) == 0xc040b340
    ensures K(18) == 11 && S(18) == S23 && T(18) == 0x265e5a51
    ensures K(19) == 0 && S(19) == S24 && T(19) == 0xe9b6c7aa
    ensures K(20) == 5 && S(20) == S21 && T(20) == 0xd62f105d
    ensures K(21) == 10 && S(21) == S22 && T(21) == 0x2441453
    ensures K(22) == 15 && S(22) == S23 && T(22) == 0xd8a1e681
    ensures K(23) == 4 && S(23) == S24 && T(23) == 0xe7d3fbc8
  {
  }

  method Round2a(s: Longs, x: seq<Long>, ghost m: seq<Word>) returns (r: Longs)
    requires Lows(x, m)
    ensures Low(r) == FourSteps(20, FourSteps(16, Low(s), m), m)
  {
    Table2a();
    hide Step, K, S, T;
    var a, b, c, d := s.a, s.b, s.c, s.d;
    a := GG(a, b, c, d, x[1], S21, 0xf61e2562, 16, m);
    d := GG(d, a, b, c, x[6], S22, 0xc040b340, 17, m);
    c := GG(c, d, a, b, x[11], S23, 0x265e5a51, 18, m);
    b := GG(b, c, d, a, x[0], S24, 0xe9b6c7aa, 19, m);
    ghost var w := Low(Longs(a, b, c, d));
    assert w == FourSteps(16, Low(s), m);
    a := GG(a, b, c, d, x[5], S21, 0xd62f105d, 20, m);
    d := GG(d, a, b, c, x[10], S22, 0x2441453, 21, m);
    c := GG(c, d, a, b, x[15], S23, 0xd8a1e681, 22, m);
    b := GG(b, c, d, a, x[4], S24, 0xe7d3fbc8, 23, m);
    r := Longs(a, b, c, d);
  }

  lemma Table2b()
    ensures K(24) == 9 && S(24) == S21 && T(24) == 0x21e1cde6
    ensures K(25) == 14 && S(25) == S22 && T(25) == 0xc33707d6
    ensures K(26) == 3 && S(26) == S23 && T(26) == 0xf4d50d87
    ensures K(27) == 8 && S(27) == S24 && T(27) == 0x455a14ed
    ensures K(28) == 13 && S(28) == S21 && T(28) == 0xa9e3e905
    ensures K(29) == 2 && S(29) == S22 && T(29) == 0xfcefa3f8
    ensures K(30) == 7 && S(30) == S23 && T(30) == 0x676f02d9
    ensures K(31) == 12 && S(31) == S24 && T(31) == 0x8d2a4c8a
  {
  }

  method Round2b(s: Longs, x: seq<Long>, ghost m: seq<Word>) returns (r: Longs)
    requires Lows(x, m)
    ensures Low(r) == FourSteps(28, FourSteps(24, Low(s), m), m)
  {
    Table2b();
    hide Step, K, S, T;
    var a, b, c, d := s.a, s.b, s.c, s.d;
    a := GG(a, b, c, d, x[9], S21, 0x21e1cde6, 24, m);
    d := GG(d, a, b, c, x[14], S22, 0xc33707d6, 25, m);
    c := GG(c, d, a, b, x[3], S23, 0xf4d50d87, 26, m);
    b := GG(b, c, d, a, x[8], S24, 0x455a14ed, 27, m);
    ghost var w := Low(Longs(a, b, c, d));
    assert w == FourSteps(24, Low(s), m);
    a := GG(a, b, c, d, x[13], S21, 0xa9e3e905, 28, m);
    d := GG(d, a, b, c, x[2], S22, 0xfcefa3f8, 29, m);
    c := GG(c, d, a, b, x[7], S23, 0x676f02d9, 30, m);
    b := GG(b, c, d, a, x[12], S24, 0x8d2a4c8a, 31, m);
    r := Longs(a, b, c, d);
  }

  lemma Table3a()
    ensures K(32) == 5 && S(32) == S31 && T(32) == 0xfffa3942
    ensures K(33) == 8 && S(33) == S32 && T(33) == 0x8771f681
    ensures K(34) == 11 && S(34) == S33 && T(34) == 0x6d9d6122
    ensures K(35) == 14 && S(35) == S34 && T(35) == 0xfde5380c
    ensures K(36) == 1 && S(36) == S31 && T(36) == 0xa4beea44
    ensures K(37) == 4 && S(37) == S32 && T(37) == 0x4bdecfa9
    ensures K(38) == 7 && S(38) == S33 && T(38) == 0xf6bb4b60
    ensures K(39) == 10 && S(39) == S34 && T(39) == 0xbebfbc70
  {
  }

  method Round3a(s: Longs, x: seq<Long>, ghost m: seq<Word>) returns (r: Longs)
    requires Lows(x, m)
    ensures Low(r) == FourSteps(36, FourSteps(32, Low(s), m), m)
  {
    Table3a();
    hide Step, K, S, T;
    var a, b, c, d := s.a, s.b, s.c, s.d;
    a := HH(a, b, c, d, x[5], S31, 0xfffa3942, 32, m);
    d := HH(d, a, b, c, x[8], S32, 0x8771f681, 33, m);
    c := HH(c, d, a, b, x[11], S33, 0x6d9d6122, 34, m);
    b := HH(b, c, d, a, x[14], S34, 0xfde5380c, 35, m);
    ghost var w := Low(Longs(a, b, c, d));
    assert w == FourSteps(32, Low(s), m);
    a := HH(a, b, c, d, x[1], S31, 0xa4beea44, 36, m);
    d := HH(d, a, b, c, x[4], S32, 0x4bdecfa9, 37, m);
    c := HH(c, d, a, b, x[7], S33, 0xf6bb4b60, 38, m);
    b := HH(b, c, d, a, x[10], S34, 0xbebfbc70, 39, m);
    r := Longs(a, b, c, d);
  }

  lemma Table3b()
    ensures K(40) == 13 && S(40) == S31 && T(40) == 0x289b7ec6
    ensures K(41) == 0 && S(41) == S32 && T(41) == 0xeaa127fa
    ensures K(42) == 3 && S(42) == S33 && T(42) == 0xd4ef3085
    ensures K(43) == 6 && S(43) == S34 && T(43) == 0x4881d05
    ensures K(44) == 9 && S(44) == S31 && T(44) == 0xd9d4d039
    ensures K(45) == 12 && S(45) == S32 && T(45) == 0xe6db99e5
    ensures K(46) == 15 && S(46) == S33 && T(46) == 0x1fa27cf8
    ensures K(47) == 2 && S(47) == S34 && T(47) == 0xc4ac5665
  {
  }

  method Round3b(s: Longs, x: seq<Long>, ghost m: seq<Word>) returns (r: Longs)
    requires Lows(x, m)
    ensures Low(r) == FourSteps(44, FourSteps(40, Low(s), m), m)
  {
    Table3b();
    hide Step, K, S, T;
    var a, b, c, d := s.a, s.b, s.c, s.d;
    a := HH(a, b, c, d, x[13], S31, 0x289b7ec6, 40, m);
    d := HH(d, a, b, c, x[0], S32, 0xeaa127fa, 41, m);
    c := HH(c, d, a, b, x[3], S33, 0xd4ef3085, 42, m);
    b := HH(b, c, d, a, x[6], S34, 0x4881d05, 43, m);
    ghost var w := Low(Longs(a, b, c, d));
    assert w == FourSteps(40, Low(s), m);
    a := HH(a, b, c, d, x[9], S31, 0xd9d4d039, 44, m);
    d := HH(d, a, b, c, x[12], S32, 0xe6db99e5, 45, m);
    c := HH(c, d, a, b, x[15], S33, 0x1fa27cf8, 46, m);
    b := HH(b, c, d, a, x[2], S34, 0xc4ac5665, 47, m);
    r := Longs(a, b, c, d);
  }

  lemma Table4a()
    ensures K(48) == 0 && S(48) == S41 && T(48) == 0xf4292244
    ensures K(49) == 7 && S(49) == S42 && T(49) == 0x432aff97
    ensures K(50) == 14 && S(50) == S43 && T(50) == 0xab9423a7
    ensures K(51) == 5 && S(51) == S44 && T(51) == 0xfc93a039
    ensures K(52) == 12 && S(52) == S41 && T(52) == 0x655b59c3
    ensures K(53) == 3 && S(53) == S42 && T(53) == 0x8f0ccc92
    ensures K(54) == 10 && S(54) == S43 && T(54) == 0xffeff47d
    ensures K(55) == 1 && S(55) == S44 && T(55) == 0x85845dd1
  {
  }

  method Round4a(s: Longs, x: seq<Long>, ghost m: seq<Word>) returns (r: Longs)
    requires Lows(x, m)
    ensures Low(r) == FourSteps(52, FourSteps(48, Low(s), m), m)
  {
    Table4a();
    hide Step, K, S, T;
    var a, b, c, d := s.a, s.b, s.c, s.d;
    a := II(a, b, c, d, x[0], S41, 0xf4292244, 48, m);
    d := II(d, a, b, c, x[7], S42, 0x432aff97, 49, m);
    c := II(c, d, a, b, x[14], S43, 0xab9423a7, 50, m);
    b := II(b, c, d, a, x[5], S44, 0xfc93a039, 51, m);
    ghost var w := Low(Longs(a, b, c, d));
    assert w == FourSteps(48, Low(s), m);
    a := II(a, b, c, d, x[12], S41, 0x655b59c3, 52, m);
    d := II(d, a, b, c, x[3], S42, 0x8f0ccc92, 53, m);
    c := II(c, d, a, b, x[10], S43, 0xffeff47d, 54, m);
    b := II(b, c, d, a, x[1], S44, 0x85845dd1, 55, m);
    r := Longs(a, b, c, d);
  }

  lemma Table4b()
    ensures K(56) == 8 && S(56) == S41 && T(56) == 0x6fa87e4f
    ensures K(57) == 15 && S(57) == S42 && T(57) == 0xfe2ce6e0
    ensures K(58) == 6 && S(58) == S43 && T(58) == 0xa3014314
    ensures K(59) == 13 && S(59) == S44 && T(59) == 0x4e0811a1
    ensures K(60) == 4 && S(60) == S41 && T(60) == 0xf7537e82
    ensures K(61) == 11 && S(61) == S42 && T(61) == 0xbd3af235
    ensures K(62) == 2 && S(62) == S43 && T(62) == 0x2ad7d2bb
    ensures K(63) == 9 && S(63) == S44 && T(63) == 0xeb86d391
  {
  }

  method Round4b(s: Longs, x: seq<Long>, ghost m: seq<Word>) returns (r: Longs)
    requires Lows(x, m)
    ensures Low(r) == FourSteps(60, FourSteps(56, Low(s), m), m)
  {
    Table4b();
    hide Step, K, S, T;
    var a, b, c, d := s.a, s.b, s.c, s.d;
    a := II(a, b, c, d, x[8], S41, 0x6fa87e4f, 56, m);
    d := II(d, a, b, c, x[15], S42, 0xfe2ce6e0, 57, m);
    c := II(c, d, a, b, x[6], S43, 0xa3014314, 58, m);
    b := II(b, c, d, a, x[13], S44, 0x4e0811a1, 59, m);
    ghost var w := Low(Longs(a, b, c, d));
    assert w == FourSteps(56, Low(s), m);
    a := II(a, b, c, d, x[4], S41, 0xf7537e82, 60, m);
    d := II(d, a, b, c, x[11], S42, 0xbd3af235, 61, m);
    c := II(c, d, a, b, x[2], S43, 0x2ad7d2bb, 62, m);
    b := II(b, c, d, a, x[9], S44, 0xeb86d391, 63, m);
    r := Longs(a, b, c, d);
  }

  method Round1(s: Longs, x: seq<Long>, ghost m: seq<Word>, ghost w: Words) returns (r: Longs)
    requires Lows(x, m) && Low(s) == Steps(0, w, m)
    ensures Low(r) == Steps(16, w, m)
  {
    StepsByEight(0, w, m);
    StepsByEight(8, w, m);
    r := Round1a(s, x, m);
    r := Round1b(r, x, m);
  }

  method Round2(s: Longs, x: seq<Long>, ghost m: seq<Word>, ghost w: Words) returns (r: Longs)
    requires Lows(x, m) && Low(s) == Steps(16, w, m)
    ensures Low(r) == Steps(32, w, m)
  {
    StepsByEight(16, w, m);
    StepsByEight(24, w, m);
    r := Round2a(s, x, m);
    r := Round2b(r, x, m);
  }

  method Round3(s: Longs, x: seq<Long>, ghost m: seq<Word>, ghost w: Words) returns (r: Longs)
    requires Lows(x, m) && Low(s) == Steps(32, w, m)
    ensures Low(r) == Steps(48, w, m)
  {
    StepsByEight(32, w, m);
    StepsByEight(40, w, m);
    r := Round3a(s, x, m);
    r := Round3b(r, x, m);
  }

  method Round4(s: Longs, x: seq<Long>, ghost m: seq<Word>, ghost w: Words) returns (r: Longs)
    requires Lows(x, m) && Low(s) == Steps(48, w, m)
    ensures Low(r) == Steps(64, w, m)
  {
    StepsByEight(48, w, m);
    StepsByEight(56, w, m);
    r := Round4a(s, x, m);
    r := Round4b(r, x, m);
  }

  /** The four registers after the 64 assignments. */
  method Rounds(s: Longs, x: seq<Long>) returns (r: Longs)
    requires |x| == 16
    ensures Low(r) == Steps(64, Low(s), LowSeq(x))
  {
    r := Round1(s, x, LowSeq(x), Low(s));
    r := Round2(r, x, LowSeq(x), Low(s));
    r := Round3(r, x, LowSeq(x), Low(s));
    r := Round4(r, x, LowSeq(x), Low(s));
  }
}
