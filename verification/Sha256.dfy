/** SHA-256 as FIPS 180-4 defines it, on whole messages: the reference the streaming code is proved
    against. */
module Sha256 {
  type Byte = bv8
  type Word = bv32

  // ---- Functions and constants (FIPS 180-4, sections 4.1.2, 4.2.2 and 5.3.3) --------------------

  function Rotr(x: Word, n: bv6): Word
    requires 0 < n < 32
  {
    (x >> n) | (x << (32 - n))
  }

  function Ch(x: Word, y: Word, z: Word): Word { (x & y) ^ (!x & z) }

  function Maj(x: Word, y: Word, z: Word): Word { (x & y) ^ (x & z) ^ (y & z) }

  function BigSigma0(x: Word): Word { Rotr(x, 2) ^ Rotr(x, 13) ^ Rotr(x, 22) }

  function BigSigma1(x: Word): Word { Rotr(x, 6) ^ Rotr(x, 11) ^ Rotr(x, 25) }

  function SmallSigma0(x: Word): Word { Rotr(x, 7) ^ Rotr(x, 18) ^ (x >> 3) }

  function SmallSigma1(x: Word): Word { Rotr(x, 17) ^ Rotr(x, 19) ^ (x >> 10) }

  // a row of eight each, as the code lays them out
  const K0: seq<Word> := [0x428a2f98, 0x71374491, 0xb5c0fbcf, 0xe9b5dba5, 0x3956c25b, 0x59f111f1, 0x923f82a4, 0xab1c5ed5]
  const K1: seq<Word> := [0xd807aa98, 0x12835b01, 0x243185be, 0x550c7dc3, 0x72be5d74, 0x80deb1fe, 0x9bdc06a7, 0xc19bf174]
  const K2: seq<Word> := [0xe49b69c1, 0xefbe4786, 0x0fc19dc6, 0x240ca1cc, 0x2de92c6f, 0x4a7484aa, 0x5cb0a9dc, 0x76f988da]
  const K3: seq<Word> := [0x983e5152, 0xa831c66d, 0xb00327c8, 0xbf597fc7, 0xc6e00bf3, 0xd5a79147, 0x06ca6351, 0x14292967]
  const K4: seq<Word> := [0x27b70a85, 0x2e1b2138, 0x4d2c6dfc, 0x53380d13, 0x650a7354, 0x766a0abb, 0x81c2c92e, 0x92722c85]
  const K5: seq<Word> := [0xa2bfe8a1, 0xa81a664b, 0xc24b8b70, 0xc76c51a3, 0xd192e819, 0xd6990624, 0xf40e3585, 0x106aa070]
  const K6: seq<Word> := [0x19a4c116, 0x1e376c08, 0x2748774c, 0x34b0bcb5, 0x391c0cb3, 0x4ed8aa4a, 0x5b9cca4f, 0x682e6ff3]
  const K7: seq<Word> := [0x748f82ee, 0x78a5636f, 0x84c87814, 0x8cc70208, 0x90befffa, 0xa4506ceb, 0xbef9a3f7, 0xc67178f2]

  const K := K0 + K1 + K2 + K3 + K4 + K5 + K6 + K7

  /** The working variables a..h, and the eight words of a hash value. */
  datatype Vars = Vars(a: Word, b: Word, c: Word, d: Word, e: Word, f: Word, g: Word, h: Word)

  const INITIAL := Vars(0x6a09e667, 0xbb67ae85, 0x3c6ef372, 0xa54ff53a, 0x510e527f, 0x9b05688c, 0x1f83d9ab, 0x5be0cd19)

  // ---- The hash computation (section 6.2.2) -------------------------------------------------------

  function BigEndian(b0: Byte, b1: Byte, b2: Byte, b3: Byte): Word {
    (b0 as Word << 24) | (b1 as Word << 16) | (b2 as Word << 8) | (b3 as Word)
  }

  /** A schedule word from the words 2, 7, 15 and 16 places before it. */
  function NextWord(w2: Word, w7: Word, w15: Word, w16: Word): Word {
    SmallSigma1(w2) + w7 + SmallSigma0(w15) + w16
  }

  /** Word t of the message schedule of a block. */
  function Schedule(block: seq<Byte>, t: nat): Word
    requires |block| == 64
  {
    if t < 16 then BigEndian(block[4 * t], block[4 * t + 1], block[4 * t + 2], block[4 * t + 3])
    else NextWord(Schedule(block, t - 2), Schedule(block, t - 7), Schedule(block, t - 15), Schedule(block, t - 16))
  }

  function T1(e: Word, f: Word, g: Word, h: Word, k: Word, w: Word): Word {
    h + BigSigma1(e) + Ch(e, f, g) + k + w
  }

  function T2(a: Word, b: Word, c: Word): Word {
    BigSigma0(a) + Maj(a, b, c)
  }

  function Plus(x: Word, y: Word): Word { x + y }

  function Round(v: Vars, k: Word, w: Word): Vars {
    var t1 := T1(v.e, v.f, v.g, v.h, k, w);
    var t2 := T2(v.a, v.b, v.c);
    Vars(Plus(t1, t2), v.a, v.b, v.c, Plus(v.d, t1), v.e, v.f, v.g)
  }

  /** The working variables after t rounds. */
  function Rounds(v: Vars, block: seq<Byte>, t: nat): Vars
    requires |block| == 64 && t <= 64
  {
    if t == 0 then v
    else Round(Rounds(v, block, t - 1), K[t - 1], Schedule(block, t - 1))
  }

  function Sum(u: Vars, v: Vars): Vars {
    Vars(Plus(u.a, v.a), Plus(u.b, v.b), Plus(u.c, v.c), Plus(u.d, v.d),
         Plus(u.e, v.e), Plus(u.f, v.f), Plus(u.g, v.g), Plus(u.h, v.h))
  }

  function Compress(v: Vars, block: seq<Byte>): Vars
    requires |block| == 64
  {
    Sum(v, Rounds(v, block, 64))
  }

  /** The hash value after all whole blocks of s. */
  function Absorb(s: seq<Byte>): Vars
    requires |s| % 64 == 0
  {
    if s == [] then INITIAL else Compress(Absorb(s[..|s| - 64]), s[|s| - 64..])
  }

  lemma AbsorbBlock(s: seq<Byte>, block: seq<Byte>)
    requires |s| % 64 == 0 && |block| == 64
    ensures Absorb(s + block) == Compress(Absorb(s), block)
  {
    var all := s + block;
    assert all[..|all| - 64] == s && all[|all| - 64..] == block;
  }

  // ---- Padding (section 5.1.1) ----------------------------------------------------------------------

  function Zeros(n: nat): (r: seq<Byte>)
    ensures |r| == n && forall i :: 0 <= i < n ==> r[i] == 0
  {
    seq(n, i => 0)
  }

  function LowByte(n: nat): Byte { (n % 256) as Byte }

  /** n as k bytes, most significant first. */
  function Bytes(n: nat, k: nat): (r: seq<Byte>)
    ensures |r| == k
  {
    if k == 0 then [] else Bytes(n / 256, k - 1) + [LowByte(n)]
  }

  /** The least number of zero bytes that fills the length field up to a block boundary. */
  function ZeroCount(n: nat): (k: nat)
    ensures k < 64 && (n + 1 + k) % 64 == 56
    ensures (n + 1 + k + 8) % 64 == 0
  {
    (119 - n % 64) % 64
  }

  /** The length of the message in bits, as the last eight bytes of the padding. */
  function LengthField(msg: seq<Byte>): (r: seq<Byte>)
    ensures |r| == 8
  {
    Bytes(8 * |msg|, 8)
  }

  function Pad(msg: seq<Byte>): (r: seq<Byte>)
    ensures |r| % 64 == 0
  {
    hide LengthField, ZeroCount;
    var k := ZeroCount(|msg|);
    msg + [0x80] + Zeros(k) + LengthField(msg)
  }

  /** Byte j of a word, most significant first. */
  function ByteOf(w: Word, j: nat): Byte
    requires j < 4
  {
    ((w >> (24 - j * 8)) & 0x0000_00ff) as Byte
  }

  function Words(v: Vars): (r: seq<Word>)
    ensures |r| == 8
  {
    [v.a, v.b, v.c, v.d, v.e, v.f, v.g, v.h]
  }

  /** The eight words as 32 bytes. */
  function Digest(v: Vars): (r: seq<Byte>)
    ensures |r| == 32
  {
    seq(32, k requires 0 <= k < 32 => ByteOf(Words(v)[k / 4], k % 4))
  }

  /** SHA-256 of a message. */
  function Hash(msg: seq<Byte>): (r: seq<Byte>)
    ensures |r| == 32
  {
    Digest(Absorb(Pad(msg)))
  }

  // ---- Padding is reversible ---------------------------------------------------------------------------

  function Value(bytes: seq<Byte>): nat {
    if bytes == [] then 0 else 256 * Value(bytes[..|bytes| - 1]) + bytes[|bytes| - 1] as nat
  }

  function Power256(k: nat): nat {
    if k == 0 then 1 else 256 * Power256(k - 1)
  }

  lemma ByteValue(n: nat)
    requires n < 256
    ensures (n as Byte) as nat == n
  {
    // a case split on the four leading bits
    if n < 128 {
      if n < 64 {
        if n < 32 { if n < 16 {} else {} } else { if n < 48 {} else {} }
      } else {
        if n < 96 { if n < 80 {} else {} } else { if n < 112 {} else {} }
      }
    } else {
      if n < 192 {
        if n < 160 { if n < 144 {} else {} } else { if n < 176 {} else {} }
      } else {
        if n < 224 { if n < 208 {} else {} } else { if n < 240 {} else {} }
      }
    }
  }

  lemma ByteRoundTrip(n: nat)
    ensures LowByte(n) as nat == n % 256
  {
    ByteValue(n % 256);
  }

  lemma {:induction false} ValueOfBytes(n: nat, k: nat)
    requires n < Power256(k)
    ensures Value(Bytes(n, k)) == n
  {
    if k > 0 {
      ValueOfBytes(n / 256, k - 1);
      ByteRoundTrip(n);
      hide LowByte;
      var b := Bytes(n, k);
      assert b[..k - 1] == Bytes(n / 256, k - 1) && b[k - 1] == LowByte(n);
    }
  }

  lemma EightBytes()
    ensures Power256(8) == 0x1_0000_0000_0000_0000
  {
    assert Power256(4) == 0x1_0000_0000;
    assert Power256(6) == 0x1_0000_0000 * 0x1_0000;
  }

  /** The message comes back from its padding: the last eight bytes give its length. */
  lemma PadRoundTrip(msg: seq<Byte>)
    requires 8 * |msg| < 0x1_0000_0000_0000_0000
    ensures var p := Pad(msg);
            |p| >= 64 && var n := Value(p[|p| - 8..]) / 8; n < |p| && msg == p[..n]
  {
    hide Bytes, Value, LengthField;
    var p := Pad(msg);
    ValueOfLength(msg);
    assert p[|p| - 8..] == LengthField(msg);
    assert p[..|msg|] == msg;
  }

  lemma ValueOfLength(msg: seq<Byte>)
    requires 8 * |msg| < 0x1_0000_0000_0000_0000
    ensures Value(LengthField(msg)) == 8 * |msg|
  {
    hide Bytes, Value;
    EightBytes();
    ValueOfBytes(8 * |msg|, 8);
  }

  // ---- The last blocks, as the streaming code lays them out -----------------------------------------------

  lemma Regroup<T>(s: seq<T>, n: nat, x: seq<T>, y: seq<T>, y': seq<T>, z: seq<T>)
    requires n <= |s|
    ensures s + x + y + z == s[..n] + (s[n..] + x + y + z)
    ensures s + x + (y + y') + z == s[..n] + (s[n..] + x + y) + (y' + z)
  {}

  /** With room for the length, one block closes the message. */
  lemma PadShort(msg: seq<Byte>, n: nat)
    requires n == |msg| % 64 && n < 56
    ensures var full, tail := msg[..|msg| - n], msg[|msg| - n..];
            Pad(msg) == full + (tail + [0x80] + Zeros(55 - n) + LengthField(msg))
  {
    hide LengthField;
    assert ZeroCount(|msg|) == 55 - n;
    Regroup(msg, |msg| - n, [0x80], Zeros(55 - n), [], LengthField(msg));
  }

  /** Without room, the marker and zeros fill the block and the length goes into another one. */
  lemma PadLong(msg: seq<Byte>, n: nat)
    requires n == |msg| % 64 && n >= 56
    ensures var full, tail := msg[..|msg| - n], msg[|msg| - n..];
            Pad(msg) == full + (tail + [0x80] + Zeros(63 - n)) + (Zeros(56) + LengthField(msg))
  {
    hide LengthField;
    assert ZeroCount(|msg|) == 119 - n;
    assert Zeros(119 - n) == Zeros(63 - n) + Zeros(56);
    Regroup(msg, |msg| - n, [0x80], Zeros(63 - n), Zeros(56), LengthField(msg));
  }
}
