/** The buffered SHA-256 of the store: init, any number of updates, final. */
module Sha256Ctx {
  import opened Sha256

  const TWO64: nat := 0x1_0000_0000_0000_0000

  /** A schedule word, summed in the order of the code. */
  function ExtendWord(w16: Word, w15: Word, w7: Word, w2: Word): Word {
    w16 + SmallSigma0(w15) + w7 + SmallSigma1(w2)
  }

  lemma ExtendIsNext(w16: Word, w15: Word, w7: Word, w2: Word)
    ensures ExtendWord(w16, w15, w7, w2) == NextWord(w2, w7, w15, w16)
  {}

  lemma ScheduleFirst(block: seq<Byte>, t: nat)
    requires |block| == 64 && t < 16
    ensures Schedule(block, t) == BigEndian(block[4 * t], block[4 * t + 1], block[4 * t + 2], block[4 * t + 3])
  {}

  lemma ScheduleNext(block: seq<Byte>, t: nat)
    requires |block| == 64 && t >= 16
    ensures Schedule(block, t) ==
            NextWord(Schedule(block, t - 2), Schedule(block, t - 7), Schedule(block, t - 15), Schedule(block, t - 16))
  {}

  lemma OneMore(n: nat, k: nat)
    requires k == n % 64
    ensures (n - k) % 64 == 0 && (n + 1) % 64 == if k == 63 then 0 else k + 1
  {}

  lemma CounterWraps(x: nat, y: nat)
    ensures (x % TWO64 + y) % TWO64 == (x + y) % TWO64
  {}

  // ---- The length bytes --------------------------------------------------------------------------

  lemma BytesLast(n: nat, k: nat)
    requires k > 0
    ensures Bytes(n, k) == Bytes(n / 256, k - 1) + [LowByte(n)]
  {}

  /** The bytes written from the 64-bit counter, most significant first. */
  function CounterBytes(b: nat): (r: seq<Byte>)
    ensures |r| == 8
  {
    [LowByte(b / 0x100_0000_0000_0000), LowByte(b / 0x1_0000_0000_0000),
     LowByte(b / 0x100_0000_0000), LowByte(b / 0x1_0000_0000),
     LowByte(b / 0x100_0000), LowByte(b / 0x1_0000), LowByte(b / 0x100), LowByte(b)]
  }

  lemma CounterIsBytes(b: nat)
    ensures CounterBytes(b) == Bytes(b, 8)
  {
    hide LowByte, Bytes;
    var b1, b2, b3 := b / 0x100, b / 0x1_0000, b / 0x100_0000;
    var b4, b5, b6 := b / 0x1_0000_0000, b / 0x100_0000_0000, b / 0x1_0000_0000_0000;
    var b7 := b / 0x100_0000_0000_0000;
    assert b1 / 256 == b2 && b2 / 256 == b3 && b3 / 256 == b4;
    assert b4 / 256 == b5 && b5 / 256 == b6 && b6 / 256 == b7;
    BytesLast(b7, 1);
    BytesLast(b6, 2);
    BytesLast(b5, 3);
    BytesLast(b4, 4);
    BytesLast(b3, 5);
    BytesLast(b2, 6);
    BytesLast(b1, 7);
    BytesLast(b, 8);
  }

  lemma SameLowByte(x: nat, y: nat)
    requires x % 256 == y % 256
    ensures LowByte(x) == LowByte(y)
  {}

  lemma DropByte(x: nat, z: nat, y: nat)
    requires x == 256 * z + y
    ensures x / 256 == z + y / 256 && x % 256 == y % 256
  {}

  lemma RaisePower(z: nat, k: nat)
    requires k > 0
    ensures z * Power256(k) == 256 * (z * Power256(k - 1))
  {}

  /** k bytes do not show multiples of 256 to the k. */
  lemma {:induction false} BytesWrap(n: nat, z: nat, b: nat, k: nat)
    requires n == z * Power256(k) + b
    ensures Bytes(n, k) == Bytes(b, k)
  {
    if k > 0 {
      RaisePower(z, k);
      DropByte(n, z * Power256(k - 1), b);
      BytesWrap(n / 256, z, b / 256, k - 1);
      SameLowByte(n, b);
    }
  }

  /** The counter, even wrapped around, writes the length field of the padding. */
  lemma CounterIsLength(msg: seq<Byte>)
    ensures CounterBytes(8 * |msg| % TWO64) == LengthField(msg)
  {
    hide LowByte, Bytes, Power256;
    var n := 8 * |msg|;
    EightBytes();
    BytesWrap(n, n / TWO64, n % TWO64, 8);
    CounterIsBytes(n % TWO64);
  }

  lemma NextBlock(n: nat)
    requires n % 64 == 0
    ensures (n + 64) % 64 == 0
  {}

  class Context {
    const data: array<Byte>
    const state: array<Word>
    var datalen: nat
    var bitlen: nat
    /** The bytes absorbed since the last init. */
    ghost var msg: seq<Byte>

    /** How much of the message has gone through whole blocks. */
    ghost function Whole(): seq<Byte>
      requires datalen <= |msg|
      reads this
    {
      msg[..|msg| - datalen]
    }

    /** The hash value so far is that of the whole blocks; the buffer holds the rest. */
    ghost predicate Valid()
      reads this, data, state
    {
      && data.Length == 64 && state.Length == 8
      && datalen < 64 && datalen == |msg| % 64 && datalen <= |msg|
      && bitlen == 8 * |Whole()| % TWO64
      && data[..datalen] == msg[|msg| - datalen..]
      && StateIs(Absorb(Whole()))
    }

    ghost predicate StateIs(v: Vars)
      requires state.Length == 8
      reads state
    {
      state[..] == Words(v)
    }

    /** A context as declared on the stack; Init gives it its first value. */
    constructor ()
      ensures fresh(data) && fresh(state) && data.Length == 64 && state.Length == 8
    {
      data := new Byte[64];
      state := new Word[8];
    }

    /** sha256_init */
    method Init()
      requires data.Length == 64 && state.Length == 8
      modifies this, state
      ensures Valid() && msg == []
    {
      datalen := 0;
      bitlen := 0;
      state[0] := 0x6a09e667;
      state[1] := 0xbb67ae85;
      state[2] := 0x3c6ef372;
      state[3] := 0xa54ff53a;
      state[4] := 0x510e527f;
      state[5] := 0x9b05688c;
      state[6] := 0x1f83d9ab;
      state[7] := 0x5be0cd19;
      msg := [];
      assert StateIs(INITIAL);
    }

    /** The message schedule of the buffered block. */
    method Expand() returns (m: array<Word>)
      requires data.Length == 64
      ensures fresh(m) && m.Length == 64
      ensures forall t :: 0 <= t < 64 ==> m[t] == Schedule(data[..], t)
    {
      hide BigEndian, ExtendWord, NextWord, Schedule;
      ghost var block := data[..];
      m := new Word[64];
      for i := 0 to 16
        invariant forall t :: 0 <= t < i ==> m[t] == Schedule(block, t)
      {
        ScheduleFirst(block, i);
        m[i] := BigEndian(data[i * 4], data[i * 4 + 1], data[i * 4 + 2], data[i * 4 + 3]);
      }
      for i := 16 to 64
        invariant forall t :: 0 <= t < i ==> m[t] == Schedule(block, t)
      {
        ExtendIsNext(m[i - 16], m[i - 15], m[i - 7], m[i - 2]);
        ScheduleNext(block, i);
        m[i] := ExtendWord(m[i - 16], m[i - 15], m[i - 7], m[i - 2]);
      }
    }

    /** The 64 rounds on the buffer, from the working variables in state. */
    method RunRounds() returns (r: Vars)
      requires data.Length == 64 && state.Length == 8
      ensures r == Rounds(Vars(state[0], state[1], state[2], state[3], state[4], state[5], state[6], state[7]), data[..], 64)
    {
      hide T1, T2, Plus, Schedule;
      ghost var block := data[..];
      var m := Expand();
      var a, b, c, d := state[0], state[1], state[2], state[3];
      var e, f, g, h := state[4], state[5], state[6], state[7];
      ghost var v := Vars(a, b, c, d, e, f, g, h);
      for i := 0 to 64
        invariant Vars(a, b, c, d, e, f, g, h) == Rounds(v, block, i)
      {
        var temp1 := T1(e, f, g, h, K[i], m[i]);
        var temp2 := T2(a, b, c);
        h := g;
        g := f;
        f := e;
        e := Plus(d, temp1);
        d := c;
        c := b;
        b := a;
        a := Plus(temp1, temp2);
      }
      r := Vars(a, b, c, d, e, f, g, h);
    }

    /** sha256_transform on the buffer: one step of the compression function. */
    method Transform(ghost v: Vars)
      requires data.Length == 64 && state.Length == 8 && StateIs(v)
      modifies state
      ensures StateIs(Compress(v, data[..]))
    {
      hide Rounds, Plus;
      var r := RunRounds();
      AddState(v, r);
    }

    method AddState(ghost v: Vars, r: Vars)
      requires state.Length == 8 && StateIs(v)
      modifies state
      ensures StateIs(Sum(v, r))
    {
      hide Plus;
      assert forall i :: 0 <= i < 8 ==> state[i] == state[..][i];
      AddFront(r);
      AddBack(r);
    }

    method AddFront(r: Vars)
      requires state.Length == 8
      modifies state
      ensures state[0] == Plus(old(state[0]), r.a) && state[1] == Plus(old(state[1]), r.b)
      ensures state[2] == Plus(old(state[2]), r.c) && state[3] == Plus(old(state[3]), r.d)
      ensures forall i :: 4 <= i < 8 ==> state[i] == old(state[i])
    {
      hide Plus;
      state[0] := Plus(state[0], r.a);
      state[1] := Plus(state[1], r.b);
      state[2] := Plus(state[2], r.c);
      state[3] := Plus(state[3], r.d);
    }

    method AddBack(r: Vars)
      requires state.Length == 8
      modifies state
      ensures state[4] == Plus(old(state[4]), r.e) && state[5] == Plus(old(state[5]), r.f)
      ensures state[6] == Plus(old(state[6]), r.g) && state[7] == Plus(old(state[7]), r.h)
      ensures forall i :: 0 <= i < 4 ==> state[i] == old(state[i])
    {
      hide Plus;
      state[4] := Plus(state[4], r.e);
      state[5] := Plus(state[5], r.f);
      state[6] := Plus(state[6], r.g);
      state[7] := Plus(state[7], r.h);
    }

    /** sha256_update: byte by byte, compressing whenever the buffer is full. */
    method Update(input: seq<Byte>)
      requires Valid()
      modifies this, data, state
      ensures Valid() && msg == old(msg) + input
    {
      for i := 0 to |input|
        invariant Valid() && msg == old(msg) + input[..i]
      {
        assert input[..i + 1] == input[..i] + [input[i]];
        Feed(input[i]);
      }
    }

    /** One byte of an update. */
    method Feed(x: Byte)
      requires Valid()
      modifies this, data, state
      ensures Valid() && msg == old(msg) + [x]
    {
      hide Absorb, StateIs;
      ghost var whole := Whole();
      OneMore(|msg|, datalen);
      Append(x);
      if datalen == 64 {
        Flush(whole);
      } else {
        assert Whole() == whole;
      }
    }

    /** The byte into the buffer, behind the others. */
    method Append(x: Byte)
      requires Valid()
      modifies this`datalen, this`msg, data
      ensures msg == old(msg) + [x] && datalen == old(datalen) + 1
      ensures msg == old(Whole()) + data[..datalen]
    {
      hide Absorb, StateIs;
      ghost var whole := Whole();
      ghost var tail := data[..datalen];
      assert msg == whole + tail;
      data[datalen] := x;
      datalen := datalen + 1;
      msg := msg + [x];
      assert data[..datalen] == tail + [x];
    }

    /** A full buffer goes through the compression function. */
    method Flush(ghost whole: seq<Byte>)
      requires data.Length == 64 && state.Length == 8 && datalen == 64
      requires |whole| % 64 == 0 && msg == whole + data[..64]
      requires bitlen == 8 * |whole| % TWO64 && StateIs(Absorb(whole))
      modifies this, state
      ensures Valid() && msg == old(msg) && datalen == 0
    {
      hide Compress;
      assert data[..64] == data[..];
      AbsorbBlock(whole, data[..]);
      hide Absorb;
      Transform(Absorb(whole));
      CounterWraps(8 * |whole|, 512);
      bitlen := (bitlen + 512) % TWO64;
      datalen := 0;
      assert Whole() == msg && |msg| == |whole| + 64;
      NextBlock(|whole|);
      assert |msg| % 64 == 0 && bitlen == 8 * |msg| % TWO64;
      assert data[..datalen] == [] == msg[|msg| - datalen..];
    }

    /** The end marker and zeros up to position end. */
    method Mark(end: nat)
      requires data.Length == 64 && datalen < end <= 64
      modifies data
      ensures data[..end] == old(data[..datalen]) + [0x80] + Zeros(end - datalen - 1)
    {
      var i := datalen;
      ghost var tail := data[..datalen];
      data[i] := 0x80;
      i := i + 1;
      while i < end
        invariant datalen < i <= end
        invariant data[..datalen] == tail && data[datalen] == 0x80
        invariant forall t :: datalen < t < i ==> data[t] == 0
      {
        data[i] := 0x00;
        i := i + 1;
      }
    }

    method ClearHead()
      requires data.Length == 64
      modifies data
      ensures data[..56] == Zeros(56)
    {
      for i := 0 to 56
        invariant forall t :: 0 <= t < i ==> data[t] == 0
      {
        data[i] := 0;
      }
    }

    /** The bit count in the last eight bytes. */
    method PutLength()
      requires data.Length == 64
      modifies data
      ensures data[..] == old(data[..56]) + CounterBytes(bitlen)
    {
      hide LowByte;
      PutLow();
      PutHigh();
      assert data[..] == data[..56] + data[56..60] + data[60..];
    }

    method PutLow()
      requires data.Length == 64
      modifies data
      ensures data[..60] == old(data[..60])
      ensures data[60..] == [LowByte(bitlen / 0x100_0000), LowByte(bitlen / 0x1_0000), LowByte(bitlen / 0x100), LowByte(bitlen)]
    {
      hide LowByte;
      data[63] := LowByte(bitlen);
      data[62] := LowByte(bitlen / 0x100);
      data[61] := LowByte(bitlen / 0x1_0000);
      data[60] := LowByte(bitlen / 0x100_0000);
    }

    method PutHigh()
      requires data.Length == 64
      modifies data
      ensures data[..56] == old(data[..56]) && data[60..] == old(data[60..])
      ensures data[56..60] == [LowByte(bitlen / 0x100_0000_0000_0000), LowByte(bitlen / 0x1_0000_0000_0000),
                               LowByte(bitlen / 0x100_0000_0000), LowByte(bitlen / 0x1_0000_0000)]
    {
      hide LowByte;
      data[59] := LowByte(bitlen / 0x1_0000_0000);
      data[58] := LowByte(bitlen / 0x100_0000_0000);
      data[57] := LowByte(bitlen / 0x1_0000_0000_0000);
      data[56] := LowByte(bitlen / 0x100_0000_0000_0000);
    }

    /** The hash value, byte j of every word at a time. */
    method PutDigest(hash: array<Byte>, ghost v: Vars)
      requires state.Length == 8 && StateIs(v) && hash.Length == 32 && hash != data
      modifies hash
      ensures hash[..] == Digest(v)
    {
      hide ByteOf;
      for j := 0 to 4
        invariant forall k :: 0 <= k < 32 && k % 4 < j ==> hash[k] == ByteOf(state[k / 4], k % 4)
      {
        for i := 0 to 8
          invariant forall k :: 0 <= k < 32 && (k % 4 < j || (k % 4 == j && k / 4 < i)) ==>
                      hash[k] == ByteOf(state[k / 4], k % 4)
        {
          hash[j + i * 4] := ByteOf(state[i], j);
        }
      }
    }

    /** The end marker and the zeros up to the length field, in this block or the next. */
    method PadBuffer() returns (ghost done: seq<Byte>)
      requires Valid()
      modifies data, state
      ensures |done| % 64 == 0 && StateIs(Absorb(done))
      ensures done + data[..56] + LengthField(msg) == Pad(msg)
    {
      hide Absorb, Pad, LengthField, Compress;
      ghost var whole, tail := Whole(), data[..datalen];
      if datalen < 56 {
        Mark(56);
        PadShort(msg, datalen);
        done := whole;
        assert done + data[..56] + LengthField(msg) == whole + (data[..56] + LengthField(msg));
      } else {
        Mark(64);
        ghost var block := data[..64];
        assert block == data[..];
        PadLong(msg, datalen);
        AbsorbBlock(whole, block);
        Transform(Absorb(whole));
        ClearHead();
        NextBlock(|whole|);
        done := whole + block;
        assert done + data[..56] + LengthField(msg) == whole + block + (Zeros(56) + LengthField(msg));
      }
    }

    /** sha256_final: in one padding block or two, and at every message length, the hash of the
        message. */
    method Final(hash: array<Byte>)
      requires Valid() && hash.Length == 32 && hash != data
      modifies this, data, state, hash
      ensures hash[..] == Hash(msg) && msg == old(msg)
    {
      hide Absorb, Pad, Compress, LengthField, Digest, CounterBytes;
      ghost var done := PadBuffer();
      CounterWraps(8 * |Whole()|, datalen * 8);
      bitlen := (bitlen + datalen * 8) % TWO64;
      CounterIsLength(msg);
      PutLength();
      assert done + data[..] == Pad(msg);
      AbsorbBlock(done, data[..]);
      Transform(Absorb(done));
      PutDigest(hash, Absorb(Pad(msg)));
    }
  }
}
