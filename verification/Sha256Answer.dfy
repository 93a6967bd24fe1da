/** A known answer: the hash of the three bytes "abc" (the one-block example of FIPS 180-4), round by round.
    And the hash of any message as the chain of hash values over its blocks. */
module Sha256Answer {
  import opened Sha256

  const ABC: seq<Byte> := [0x61, 0x62, 0x63]

  /** Four words in a row. */
  datatype Row = Row(p: Word, q: Word, r: Word, s: Word)

  // ---- The message schedule of the block, four words a row -----------------------------------------------

  const W0 := Row(0x61626380, 0x00000000, 0x00000000, 0x00000000)
  const W1 := Row(0x00000000, 0x00000000, 0x00000000, 0x00000000)
  const W2 := Row(0x00000000, 0x00000000, 0x00000000, 0x00000000)
  const W3 := Row(0x00000000, 0x00000000, 0x00000000, 0x00000018)
  const W4 := Row(0x61626380, 0x000f0000, 0x7da86405, 0x600003c6)
  const W5 := Row(0x3e9d7b78, 0x0183fc00, 0x12dcbfdb, 0xe2e2c38e)
  const W6 := Row(0xc8215c1a, 0xb73679a2, 0xe5bc3909, 0x32663c5b)
  const W7 := Row(0x9d209d67, 0xec8726cb, 0x702138a4, 0xd3b7973b)
  const W8 := Row(0x93f5997f, 0x3b68ba73, 0xaff4ffc1, 0xf10a5c62)
  const W9 := Row(0x0a8b3996, 0x72af830a, 0x9409e33e, 0x24641522)
  const W10 := Row(0x9f47bf94, 0xf0a64f5a, 0x3e246a79, 0x27333ba3)
  const W11 := Row(0x0c4763f2, 0x840abf27, 0x7a290d5d, 0x065c43da)
  const W12 := Row(0xfb3e89cb, 0xcc7617db, 0xb9e66c34, 0xa9993667)
  const W13 := Row(0x84badedd, 0xc21462bc, 0x1487472c, 0xb20f7a99)
  const W14 := Row(0xef57b9cd, 0xebe6b238, 0x9fe3095e, 0x78bc8d4b)
  const W15 := Row(0xa43fcf15, 0x668b2ff8, 0xeeaba2cc, 0x12b1edeb)

  // ---- The working variables: a and e of four rounds a row; the rows of rounds -4 to -1 are the initial hash value

  const A0 := Row(0xa54ff53a, 0x3c6ef372, 0xbb67ae85, 0x6a09e667)
  const A1 := Row(0x5d6aebcd, 0x5a6ad9ad, 0xc8c347a7, 0xd550f666)
  const A2 := Row(0x04409a6a, 0x2b4209f5, 0xe5030380, 0x85a07b5f)
  const A3 := Row(0x8e04ecb9, 0x8c87346b, 0x4798a3f4, 0xf71fc5a9)
  const A4 := Row(0x87912990, 0xd932eb16, 0xc0645fde, 0xb0fa238e)
  const A5 := Row(0x21da9a9b, 0xc2fbd9d1, 0xfe777bbf, 0xe1f20c33)
  const A6 := Row(0x9dc68b63, 0xc2606d6d, 0xa7a3623f, 0xc5d53d8d)
  const A7 := Row(0x1c2c2838, 0xcde8037d, 0xb62ec4bc, 0x77d37528)
  const A8 := Row(0x363482c9, 0xa0060b30, 0xea992a22, 0x73b33bf5)
  const A9 := Row(0x98e12507, 0xfe604df5, 0xa9a7738c, 0x65a0cfe4)
  const A10 := Row(0x41a65cb1, 0x34df1604, 0x6dc57a8a, 0x79ea687a)
  const A11 := Row(0xd6670766, 0xdf46652f, 0x17aa0dfe, 0x9d4baf93)
  const A12 := Row(0x26628815, 0x72ab4b91, 0xa14c14b0, 0x4172328d)
  const A13 := Row(0x05757ceb, 0xf11bfaa8, 0x7a0508a1, 0x886e7a22)
  const A14 := Row(0x101fd28f, 0xf5702fdb, 0x3ec45cdb, 0x38cc9913)
  const A15 := Row(0xfcd1887b, 0xc062d46f, 0xffb70472, 0xb6ae8fff)
  const A16 := Row(0xb85e2ce9, 0x04d24d6c, 0xd39a2165, 0x506e3058)

  const E0 := Row(0x5be0cd19, 0x1f83d9ab, 0x9b05688c, 0x510e527f)
  const E1 := Row(0xfa2a4622, 0x78ce7989, 0xf92939eb, 0x24e00850)
  const E2 := Row(0x43ada245, 0x714260ad, 0x9b27a401, 0x0c657a79)
  const E3 := Row(0x32ca2d8c, 0x1cc92596, 0x436b23e8, 0x816fd6e9)
  const E4 := Row(0x1e578218, 0x745a48de, 0x0b92f20c, 0x07590dcd)
  const E5 := Row(0x8034229c, 0x846ee454, 0xcc899961, 0xb0638179)
  const E6 := Row(0x8ada8930, 0xe1257970, 0x49f5114a, 0xaa47c347)
  const E7 := Row(0x2823ef91, 0x14383d8e, 0xc74c6516, 0xedffbff8)
  const E8 := Row(0x6112a3b7, 0xade79437, 0x0109ab3a, 0xba591112)
  const E9 := Row(0x9cd9f5f6, 0x59249dd3, 0x085f3833, 0xf4b002d6)
  const E10 := Row(0x0772a26b, 0xa507a53d, 0xf0781bc8, 0x1efbc0a0)
  const E11 := Row(0x26352d63, 0x838b2711, 0xdecd4715, 0xfda24c2e)
  const E12 := Row(0xa80f11f0, 0xb7755da1, 0xd57b94a9, 0xfecf0bc6)
  const E13 := Row(0xbd714038, 0x6e5c390c, 0x52f1ccf7, 0x49231c1e)
  const E14 := Row(0x529e7d00, 0x9f4787c3, 0xe50e1b4f, 0x54cb266b)
  const E15 := Row(0x9b5e906c, 0x7e44008e, 0x6d83bfc6, 0xb21bad3d)
  const E16 := Row(0x961f4894, 0x948d25b6, 0xfb121210, 0x5ef50f24)

  // ---- Four words, four rounds at a time ---------------------------------------------------------------------

  /** Words t to t + 3 of the schedule. */
  predicate WordsAt(block: seq<Byte>, t: nat, w: Row)
    requires |block| == 64
  {
    Schedule(block, t) == w.p && Schedule(block, t + 1) == w.q && Schedule(block, t + 2) == w.r && Schedule(block, t + 3) == w.s
  }

  predicate Extends(u0: Row, u1: Row, u2: Row, u3: Row, x: Row) {
    && x.p == NextWord(u3.r, u2.q, u0.q, u0.p)
    && x.q == NextWord(u3.s, u2.r, u0.r, u0.q)
    && x.r == NextWord(x.p, u2.s, u0.s, u0.r)
    && x.s == NextWord(x.q, u3.p, u1.p, u0.s)
  }

  lemma NextRow(block: seq<Byte>, t: nat, u0: Row, u1: Row, u2: Row, u3: Row, x: Row)
    requires |block| == 64 && t >= 16 && Extends(u0, u1, u2, u3, x)
    requires WordsAt(block, t - 16, u0) && WordsAt(block, t - 12, u1) && WordsAt(block, t - 8, u2) && WordsAt(block, t - 4, u3)
    ensures WordsAt(block, t, x)
  {
    hide NextWord;
  }

  /** The working variables behind four rounds with these values of a and e. */
  function State(x: Row, y: Row): Vars {
    Vars(x.s, x.r, x.q, x.p, y.s, y.r, y.q, y.p)
  }

  lemma KeyLength()
    ensures |K| == 64
  {}

  /** Rounds t to t + 3 lead from the rows x, y to the rows x', y'. */
  predicate FourRounds(t: nat, w: Row, x: Row, y: Row, x': Row, y': Row)
    requires t <= 60
  {
    && x'.p == Plus(T1(y.s, y.r, y.q, y.p, K[t], w.p), T2(x.s, x.r, x.q)) && y'.p == Plus(x.p, T1(y.s, y.r, y.q, y.p, K[t], w.p))
    && x'.q == Plus(T1(y'.p, y.s, y.r, y.q, K[t + 1], w.q), T2(x'.p, x.s, x.r)) && y'.q == Plus(x.q, T1(y'.p, y.s, y.r, y.q, K[t + 1], w.q))
    && x'.r == Plus(T1(y'.q, y'.p, y.s, y.r, K[t + 2], w.r), T2(x'.q, x'.p, x.s)) && y'.r == Plus(x.r, T1(y'.q, y'.p, y.s, y.r, K[t + 2], w.r))
    && x'.s == Plus(T1(y'.r, y'.q, y'.p, y.s, K[t + 3], w.s), T2(x'.r, x'.q, x'.p)) && y'.s == Plus(x.s, T1(y'.r, y'.q, y'.p, y.s, K[t + 3], w.s))
  }

  lemma NextState(block: seq<Byte>, t: nat, w: Row, x: Row, y: Row, x': Row, y': Row)
    requires |block| == 64 && t <= 60 && WordsAt(block, t, w) && FourRounds(t, w, x, y, x', y')
    requires Rounds(INITIAL, block, t) == State(x, y)
    ensures Rounds(INITIAL, block, t + 4) == State(x', y')
  {
    hide T1, T2, Plus, Schedule, K;
    KeyLength();
    var v := State(x, y);
    var v1 := Round(v, K[t], w.p);
    var v2 := Round(v1, K[t + 1], w.q);
    var v3 := Round(v2, K[t + 2], w.r);
    assert Rounds(INITIAL, block, t + 1) == v1;
    assert Rounds(INITIAL, block, t + 2) == v2;
    assert Rounds(INITIAL, block, t + 3) == v3;
  }

  lemma Rounds0To3()
    ensures FourRounds(0, W0, A0, E0, A1, E1)
  {}

  lemma Rounds4To7()
    ensures FourRounds(4, W1, A1, E1, A2, E2)
  {}

  lemma Rounds8To11()
    ensures FourRounds(8, W2, A2, E2, A3, E3)
  {}

  lemma Rounds12To15()
    ensures FourRounds(12, W3, A3, E3, A4, E4)
  {}

  lemma Rounds16To19()
    ensures FourRounds(16, W4, A4, E4, A5, E5)
  {}

  lemma Rounds20To23()
    ensures FourRounds(20, W5, A5, E5, A6, E6)
  {}

  lemma Rounds24To27()
    ensures FourRounds(24, W6, A6, E6, A7, E7)
  {}

  lemma Rounds28To31()
    ensures FourRounds(28, W7, A7, E7, A8, E8)
  {}

  lemma Rounds32To35()
    ensures FourRounds(32, W8, A8, E8, A9, E9)
  {}

  lemma Rounds36To39()
    ensures FourRounds(36, W9, A9, E9, A10, E10)
  {}

  lemma Rounds40To43()
    ensures FourRounds(40, W10, A10, E10, A11, E11)
  {}

  lemma Rounds44To47()
    ensures FourRounds(44, W11, A11, E11, A12, E12)
  {}

  lemma Rounds48To51()
    ensures FourRounds(48, W12, A12, E12, A13, E13)
  {}

  lemma Rounds52To55()
    ensures FourRounds(52, W13, A13, E13, A14, E14)
  {}

  lemma Rounds56To59()
    ensures FourRounds(56, W14, A14, E14, A15, E15)
  {}

  lemma Rounds60To63()
    ensures FourRounds(60, W15, A15, E15, A16, E16)
  {}

  // ---- The block -------------------------------------------------------------------------------------------------

  lemma {:induction false} SmallBytes(n: nat, k: nat)
    requires n < 256 && k > 0
    ensures Bytes(n, k) == Zeros(k - 1) + [LowByte(n)]
  {
    hide LowByte;
    if k > 1 {
      SmallBytes(0, k - 1);
      ZeroByte();
    }
  }

  lemma ZeroByte()
    ensures LowByte(0) == 0
  {}

  lemma Abc()
    ensures ABC == [0x61, 0x62, 0x63]
  {}

  lemma BitCount()
    ensures LowByte(24) == 0x18
  {}

  /** The bytes of the message, the end marker, zeros and the length of 24 bits. */
  lemma PaddedBlock(block: seq<Byte>)
    requires block == Pad(ABC)
    ensures |block| == 64
    ensures block[0] == 0x61 && block[1] == 0x62 && block[2] == 0x63 && block[3] == 0x80 && block[63] == 0x18
    ensures forall i :: 4 <= i < 63 ==> block[i] == 0
  {
    hide Bytes, LowByte, ABC;
    SmallBytes(24, 8);
    Abc();
    BitCount();
    assert ZeroCount(3) == 52;
  }

  lemma FirstWords(block: seq<Byte>)
    requires block == Pad(ABC)
    ensures |block| == 64
    ensures WordsAt(block, 0, W0) && WordsAt(block, 4, W1) && WordsAt(block, 8, W2) && WordsAt(block, 12, W3)
  {
    hide Pad, ABC;
    PaddedBlock(block);
    assert BigEndian(0x61, 0x62, 0x63, 0x80) == 0x61626380;
    assert BigEndian(0, 0, 0, 0) == 0 && BigEndian(0, 0, 0, 0x18) == 0x18;
    hide BigEndian;
  }

  lemma Extend16To31()
    ensures Extends(W0, W1, W2, W3, W4) && Extends(W1, W2, W3, W4, W5)
    ensures Extends(W2, W3, W4, W5, W6) && Extends(W3, W4, W5, W6, W7)
  {}

  lemma Extend32To47()
    ensures Extends(W4, W5, W6, W7, W8) && Extends(W5, W6, W7, W8, W9)
    ensures Extends(W6, W7, W8, W9, W10) && Extends(W7, W8, W9, W10, W11)
  {}

  lemma Extend48To63()
    ensures Extends(W8, W9, W10, W11, W12) && Extends(W9, W10, W11, W12, W13)
    ensures Extends(W10, W11, W12, W13, W14) && Extends(W11, W12, W13, W14, W15)
  {}

  lemma Words16To31(block: seq<Byte>)
    requires block == Pad(ABC)
    ensures |block| == 64
    ensures WordsAt(block, 16, W4) && WordsAt(block, 20, W5) && WordsAt(block, 24, W6) && WordsAt(block, 28, W7)
  {
    hide *;
    FirstWords(block);
    Extend16To31();
    NextRow(block, 16, W0, W1, W2, W3, W4);
    NextRow(block, 20, W1, W2, W3, W4, W5);
    NextRow(block, 24, W2, W3, W4, W5, W6);
    NextRow(block, 28, W3, W4, W5, W6, W7);
  }

  lemma Words32To47(block: seq<Byte>)
    requires block == Pad(ABC)
    ensures |block| == 64
    ensures WordsAt(block, 32, W8) && WordsAt(block, 36, W9) && WordsAt(block, 40, W10) && WordsAt(block, 44, W11)
  {
    hide *;
    Words16To31(block);
    Extend32To47();
    NextRow(block, 32, W4, W5, W6, W7, W8);
    NextRow(block, 36, W5, W6, W7, W8, W9);
    NextRow(block, 40, W6, W7, W8, W9, W10);
    NextRow(block, 44, W7, W8, W9, W10, W11);
  }

  lemma Words48To63(block: seq<Byte>)
    requires block == Pad(ABC)
    ensures |block| == 64
    ensures WordsAt(block, 48, W12) && WordsAt(block, 52, W13) && WordsAt(block, 56, W14) && WordsAt(block, 60, W15)
  {
    hide *;
    Words32To47(block);
    Extend48To63();
    NextRow(block, 48, W8, W9, W10, W11, W12);
    NextRow(block, 52, W9, W10, W11, W12, W13);
    NextRow(block, 56, W10, W11, W12, W13, W14);
    NextRow(block, 60, W11, W12, W13, W14, W15);
  }

  lemma Start(block: seq<Byte>)
    requires |block| == 64
    ensures Rounds(INITIAL, block, 0) == State(A0, E0)
  {}

  lemma AllRounds(block: seq<Byte>)
    requires block == Pad(ABC)
    ensures |block| == 64 && Rounds(INITIAL, block, 64) == State(A16, E16)
  {
    hide *;
    FirstWords(block);
    Words16To31(block);
    Words32To47(block);
    Words48To63(block);
    Start(block);
    Rounds0To3();
    NextState(block, 0, W0, A0, E0, A1, E1);
    Rounds4To7();
    NextState(block, 4, W1, A1, E1, A2, E2);
    Rounds8To11();
    NextState(block, 8, W2, A2, E2, A3, E3);
    Rounds12To15();
    NextState(block, 12, W3, A3, E3, A4, E4);
    Rounds16To19();
    NextState(block, 16, W4, A4, E4, A5, E5);
    Rounds20To23();
    NextState(block, 20, W5, A5, E5, A6, E6);
    Rounds24To27();
    NextState(block, 24, W6, A6, E6, A7, E7);
    Rounds28To31();
    NextState(block, 28, W7, A7, E7, A8, E8);
    Rounds32To35();
    NextState(block, 32, W8, A8, E8, A9, E9);
    Rounds36To39();
    NextState(block, 36, W9, A9, E9, A10, E10);
    Rounds40To43();
    NextState(block, 40, W10, A10, E10, A11, E11);
    Rounds44To47();
    NextState(block, 44, W11, A11, E11, A12, E12);
    Rounds48To51();
    NextState(block, 48, W12, A12, E12, A13, E13);
    Rounds52To55();
    NextState(block, 52, W13, A13, E13, A14, E14);
    Rounds56To59();
    NextState(block, 56, W14, A14, E14, A15, E15);
    Rounds60To63();
    NextState(block, 60, W15, A15, E15, A16, E16);
  }

  const ANSWER := Vars(0xba7816bf, 0x8f01cfea, 0x414140de, 0x5dae2223, 0xb00361a3, 0x96177a9c, 0xb410ff61, 0xf20015ad)

  lemma FinalSum()
    ensures Sum(INITIAL, State(A16, E16)) == ANSWER
  {}

  lemma OneBlock(block: seq<Byte>)
    requires |block| == 64
    ensures Absorb(block) == Sum(INITIAL, Rounds(INITIAL, block, 64))
  {
    hide Rounds, Sum;
    assert block[..0] == [] && block[0..] == block;
  }

  function FourBytes(w: Word): seq<Byte> {
    [ByteOf(w, 0), ByteOf(w, 1), ByteOf(w, 2), ByteOf(w, 3)]
  }

  /** Word i of a hash value gives bytes 4 * i to 4 * i + 3 of the digest. */
  lemma DigestRow(v: Vars, i: nat)
    requires i < 8
    ensures Digest(v)[4 * i..4 * i + 4] == FourBytes(Words(v)[i])
  {
    hide ByteOf, Words;
  }

  lemma EightRows(d: seq<Byte>)
    requires |d| == 32
    ensures d == d[0..4] + d[4..8] + d[8..12] + d[12..16] + (d[16..20] + d[20..24] + d[24..28] + d[28..32])
  {}

  lemma DigestRows(v: Vars)
    ensures Digest(v) == FourBytes(v.a) + FourBytes(v.b) + FourBytes(v.c) + FourBytes(v.d) +
                         (FourBytes(v.e) + FourBytes(v.f) + FourBytes(v.g) + FourBytes(v.h))
  {
    hide Digest, FourBytes;
    DigestRow(v, 0);
    DigestRow(v, 1);
    DigestRow(v, 2);
    DigestRow(v, 3);
    DigestRow(v, 4);
    DigestRow(v, 5);
    DigestRow(v, 6);
    DigestRow(v, 7);
    EightRows(Digest(v));
  }

  lemma AnswerBytes()
    ensures FourBytes(ANSWER.a) == [0xba, 0x78, 0x16, 0xbf]
    ensures FourBytes(ANSWER.b) == [0x8f, 0x01, 0xcf, 0xea]
    ensures FourBytes(ANSWER.c) == [0x41, 0x41, 0x40, 0xde]
    ensures FourBytes(ANSWER.d) == [0x5d, 0xae, 0x22, 0x23]
    ensures FourBytes(ANSWER.e) == [0xb0, 0x03, 0x61, 0xa3]
    ensures FourBytes(ANSWER.f) == [0x96, 0x17, 0x7a, 0x9c]
    ensures FourBytes(ANSWER.g) == [0xb4, 0x10, 0xff, 0x61]
    ensures FourBytes(ANSWER.h) == [0xf2, 0x00, 0x15, 0xad]
  {}

  lemma HashIs(msg: seq<Byte>)
    ensures Hash(msg) == Digest(Absorb(Pad(msg)))
  {}

  /** SHA-256 of "abc". */
  lemma KnownAnswer()
    ensures Hash([0x61, 0x62, 0x63]) ==
            [0xba, 0x78, 0x16, 0xbf] + [0x8f, 0x01, 0xcf, 0xea] + [0x41, 0x41, 0x40, 0xde] + [0x5d, 0xae, 0x22, 0x23] +
            ([0xb0, 0x03, 0x61, 0xa3] + [0x96, 0x17, 0x7a, 0x9c] + [0xb4, 0x10, 0xff, 0x61] + [0xf2, 0x00, 0x15, 0xad])
  {
    hide *;
    var block := Pad(ABC);
    AllRounds(block);
    OneBlock(block);
    FinalSum();
    DigestRows(ANSWER);
    AnswerBytes();
    Abc();
    HashIs(ABC);
  }

  // ---- The chain over the blocks --------------------------------------------------------------------------

  /** vs are the hash values over the blocks of s, from the initial one on (section 6.2.2). */
  predicate HashValues(s: seq<Byte>, vs: seq<Vars>) {
    && |s| == 64 * (|vs| - 1) && vs[0] == INITIAL
    && forall i :: 0 <= i < |vs| - 1 ==> vs[i + 1] == Sum(vs[i], Rounds(vs[i], s[64 * i..64 * i + 64], 64))
  }

  lemma LastBlock(s: seq<Byte>, n: nat)
    requires |s| == 64 * n + 64
    ensures s[|s| - 64..] == s[64 * n..64 * n + 64] && |s[..|s| - 64]| == 64 * n
  {}

  lemma PrefixValues(s: seq<Byte>, vs: seq<Vars>)
    requires HashValues(s, vs) && |vs| > 1
    ensures HashValues(s[..|s| - 64], vs[..|vs| - 1])
  {
    hide Rounds, Sum;
    var init := s[..|s| - 64];
    forall i | 0 <= i < |vs| - 2
      ensures vs[i + 1] == Sum(vs[i], Rounds(vs[i], init[64 * i..64 * i + 64], 64))
    {
      assert init[64 * i..64 * i + 64] == s[64 * i..64 * i + 64];
    }
  }

  lemma {:induction false} AbsorbIsChain(s: seq<Byte>, vs: seq<Vars>)
    requires HashValues(s, vs)
    ensures |s| % 64 == 0 && Absorb(s) == vs[|vs| - 1]
    decreases |s|
  {
    hide Rounds, Sum;
    if |vs| > 1 {
      PrefixValues(s, vs);
      AbsorbIsChain(s[..|s| - 64], vs[..|vs| - 1]);
      LastBlock(s, |vs| - 2);
    }
  }

  /** The hash of a message is the last of the hash values over the blocks of the padded message. */
  lemma HashIsChain(msg: seq<Byte>, vs: seq<Vars>)
    requires HashValues(Pad(msg), vs)
    ensures Hash(msg) == Digest(vs[|vs| - 1])
  {
    hide *;
    AbsorbIsChain(Pad(msg), vs);
    HashIs(msg);
    NotEmpty(Pad(msg), vs);
  }

  lemma NotEmpty(s: seq<Byte>, vs: seq<Vars>)
    requires HashValues(s, vs)
    ensures |vs| > 0
  {}
}
