/** Hexadecimal names: hex_encode and its inverse, and the names blobs are stored under. */
module Hex {
  import opened Records
  import opened Sha256
  import Answer = Sha256Answer
  import C = Sha256Ctx

  const DIGITS: string := "0123456789abcdef"

  function DigitChar(n: bv8): (c: char)
    requires n < 16
    ensures IsHexDigit(c)
  {
    DIGITS[n as nat]
  }

  function HighDigit(b: Byte): (c: char)
    ensures IsHexDigit(c)
  {
    DigitChar((b >> 4) & 0xF)
  }

  function LowDigit(b: Byte): (c: char)
    ensures IsHexDigit(c)
  {
    DigitChar(b & 0xF)
  }

  /** Two digits per byte, high nibble first. */
  function Encode(bytes: seq<Byte>): (r: string)
    ensures |r| == 2 * |bytes|
  {
    seq(2 * |bytes|, k requires 0 <= k < 2 * |bytes| => if k % 2 == 0 then HighDigit(bytes[k / 2]) else LowDigit(bytes[k / 2]))
  }

  /** hex_encode */
  method EncodeBytes(data: array<Byte>) returns (out: array<char>)
    ensures fresh(out) && out[..] == Encode(data[..])
  {
    out := new char[2 * data.Length];
    for i := 0 to data.Length
      invariant forall k :: 0 <= k < 2 * i ==> out[k] == Encode(data[..])[k]
    {
      out[2 * i] := DIGITS[((data[i] >> 4) & 0xF) as nat];
      out[2 * i + 1] := DIGITS[(data[i] & 0xF) as nat];
    }
  }

  function DigitValue(c: char): bv8
    requires IsHexDigit(c)
  {
    if '0' <= c <= '9' then (c as int - '0' as int) as bv8 else (c as int - 'a' as int + 10) as bv8
  }

  lemma DigitRoundTrip(n: bv8)
    requires n < 16
    ensures DigitValue(DigitChar(n)) == n
  {}

  lemma Nibbles(b: Byte)
    ensures (((b >> 4) & 0xF) << 4) | (b & 0xF) == b
  {}

  /** The byte two digits stand for. */
  function ByteOfDigits(high: char, low: char): Byte
    requires IsHexDigit(high) && IsHexDigit(low)
  {
    (DigitValue(high) << 4) | DigitValue(low)
  }

  lemma DigitsOfByte(b: Byte)
    ensures ByteOfDigits(HighDigit(b), LowDigit(b)) == b
  {
    DigitRoundTrip((b >> 4) & 0xF);
    DigitRoundTrip(b & 0xF);
    Nibbles(b);
  }

  function Decode(s: string): (r: seq<Byte>)
    requires |s| % 2 == 0 && forall c :: c in s ==> IsHexDigit(c)
    ensures |r| == |s| / 2
  {
    seq(|s| / 2, i requires 0 <= i < |s| / 2 => ByteOfDigits(s[2 * i], s[2 * i + 1]))
  }

  lemma EncodeIsHex(bytes: seq<Byte>)
    ensures forall c :: c in Encode(bytes) ==> IsHexDigit(c)
  {}

  /** Encoding loses nothing. */
  lemma EncodeRoundTrip(bytes: seq<Byte>)
    ensures |Encode(bytes)| % 2 == 0 && (forall c :: c in Encode(bytes) ==> IsHexDigit(c))
    ensures Decode(Encode(bytes)) == bytes
  {
    hide HighDigit, LowDigit, ByteOfDigits, IsHexDigit;
    EncodeIsHex(bytes);
    forall i | 0 <= i < |bytes|
      ensures Decode(Encode(bytes))[i] == bytes[i]
    {
      DigitsOfByte(bytes[i]);
    }
  }

  // ---- Names of blobs --------------------------------------------------------------------------------

  /** The name a content is stored under. */
  function NameOf(content: seq<Byte>): string {
    Encode(Hash(content))
  }

  /** Two contents have one name exactly when SHA-256 collides on them. */
  lemma SameNameIff(a: seq<Byte>, b: seq<Byte>)
    ensures NameOf(a) == NameOf(b) <==> Hash(a) == Hash(b)
  {
    EncodeRoundTrip(Hash(a));
    EncodeRoundTrip(Hash(b));
  }

  /** The bytes of a text, and the name of a text: the hash the cache uses. */
  function TextBytes(s: string): (r: seq<Byte>)
    ensures |r| == |s|
  {
    seq(|s|, i requires 0 <= i < |s| => LowByte(s[i] as int))
  }

  function TextName(s: string): string {
    NameOf(TextBytes(s))
  }

  lemma EncodeAppend(a: seq<Byte>, b: seq<Byte>)
    ensures Encode(a + b) == Encode(a) + Encode(b)
  {
    hide HighDigit, LowDigit;
  }

  lemma EncodeFour(a: Byte, b: Byte, c: Byte, d: Byte)
    ensures Encode([a, b, c, d]) ==
            [HighDigit(a), LowDigit(a), HighDigit(b), LowDigit(b), HighDigit(c), LowDigit(c), HighDigit(d), LowDigit(d)]
  {
    hide HighDigit, LowDigit;
  }

  lemma AnswerDigits0()
    ensures Encode([0xba, 0x78, 0x16, 0xbf]) == "ba7816bf"
    ensures Encode([0x8f, 0x01, 0xcf, 0xea]) == "8f01cfea"
  {
    hide Encode;
    EncodeFour(0xba, 0x78, 0x16, 0xbf);
    EncodeFour(0x8f, 0x01, 0xcf, 0xea);
  }

  lemma AnswerDigits1()
    ensures Encode([0x41, 0x41, 0x40, 0xde]) == "414140de"
    ensures Encode([0x5d, 0xae, 0x22, 0x23]) == "5dae2223"
  {
    hide Encode;
    EncodeFour(0x41, 0x41, 0x40, 0xde);
    EncodeFour(0x5d, 0xae, 0x22, 0x23);
  }

  lemma AnswerDigits2()
    ensures Encode([0xb0, 0x03, 0x61, 0xa3]) == "b00361a3"
    ensures Encode([0x96, 0x17, 0x7a, 0x9c]) == "96177a9c"
  {
    hide Encode;
    EncodeFour(0xb0, 0x03, 0x61, 0xa3);
    EncodeFour(0x96, 0x17, 0x7a, 0x9c);
  }

  lemma AnswerDigits3()
    ensures Encode([0xb4, 0x10, 0xff, 0x61]) == "b410ff61"
    ensures Encode([0xf2, 0x00, 0x15, 0xad]) == "f20015ad"
  {
    hide Encode;
    EncodeFour(0xb4, 0x10, 0xff, 0x61);
    EncodeFour(0xf2, 0x00, 0x15, 0xad);
  }

  lemma EncodeRows(a: seq<Byte>, b: seq<Byte>, c: seq<Byte>, d: seq<Byte>, e: seq<Byte>, f: seq<Byte>, g: seq<Byte>, h: seq<Byte>)
    ensures Encode(a + b + c + d + (e + f + g + h)) ==
            Encode(a) + Encode(b) + Encode(c) + Encode(d) + (Encode(e) + Encode(f) + Encode(g) + Encode(h))
  {
    hide Encode;
    EncodeAppend(a, b);
    EncodeAppend(a + b, c);
    EncodeAppend(a + b + c, d);
    EncodeAppend(e, f);
    EncodeAppend(e + f, g);
    EncodeAppend(e + f + g, h);
    EncodeAppend(a + b + c + d, e + f + g + h);
  }

  lemma LowByteOfA()
    ensures LowByte(0x61) == 0x61
  {}

  lemma LowByteOfB()
    ensures LowByte(0x62) == 0x62
  {}

  lemma LowByteOfC()
    ensures LowByte(0x63) == 0x63
  {}

  lemma TextOfAbc()
    ensures TextBytes("abc") == [0x61, 0x62, 0x63]
  {
    hide LowByte;
    assert 'a' as int == 0x61 && 'b' as int == 0x62 && 'c' as int == 0x63;
    LowByteOfA();
    LowByteOfB();
    LowByteOfC();
  }

  lemma TextNameIs(s: string)
    ensures TextName(s) == NameOf(TextBytes(s)) == Encode(Hash(TextBytes(s)))
  {}

  /** The name of the text "abc". */
  lemma KnownName()
    ensures TextName("abc") == NameOf([0x61, 0x62, 0x63])
    ensures TextName("abc") == "ba7816bf" + "8f01cfea" + "414140de" + "5dae2223" +
                               ("b00361a3" + "96177a9c" + "b410ff61" + "f20015ad")
  {
    hide *;
    TextOfAbc();
    TextNameIs("abc");
    Answer.KnownAnswer();
    AnswerDigits0();
    AnswerDigits1();
    AnswerDigits2();
    AnswerDigits3();
    EncodeRows([0xba, 0x78, 0x16, 0xbf], [0x8f, 0x01, 0xcf, 0xea], [0x41, 0x41, 0x40, 0xde], [0x5d, 0xae, 0x22, 0x23],
               [0xb0, 0x03, 0x61, 0xa3], [0x96, 0x17, 0x7a, 0x9c], [0xb4, 0x10, 0xff, 0x61], [0xf2, 0x00, 0x15, 0xad]);
  }

  lemma TextNamesAreHashNames()
    ensures forall s :: IsHashName(TextName(s))
  {}

  /** cas_store_blob_from_memory, up to the name: one update with the whole content. */
  method NameOfMemory(content: seq<Byte>) returns (name: string)
    ensures name == NameOf(content)
  {
    hide Absorb, Hash, Encode, Words;
    var ctx := new C.Context();
    ctx.Init();
    ctx.Update(content);
    assert [] + content == content;
    name := Finish(ctx);
  }

  /** The read loop of cas_store_blob_from_file: whatever the reads return, up to 8192 bytes at a time. */
  method ReadInto(ctx: C.Context, file: seq<Byte>)
    requires ctx.Valid() && ctx.msg == []
    modifies ctx, ctx.data, ctx.state
    ensures ctx.Valid() && ctx.msg == file
  {
    hide Absorb, Hash, Encode, Words;
    var pos := 0;
    while pos < |file|
      invariant 0 <= pos <= |file|
      invariant ctx.Valid() && ctx.msg == file[..pos]
    {
      var r: nat :| 0 < r <= 8192 && pos + r <= |file|;
      assert file[..pos + r] == file[..pos] + file[pos..pos + r];
      ctx.Update(file[pos..pos + r]);
      pos := pos + r;
    }
    assert file[..pos] == file;
  }

  /** cas_store_blob_from_file, up to the name: updates with whatever pieces of at most 8192 bytes the
      reads return. */
  method NameOfFile(file: seq<Byte>) returns (name: string)
    ensures name == NameOf(file)
  {
    hide Absorb, Hash, Encode, Words;
    var ctx := new C.Context();
    ctx.Init();
    ReadInto(ctx, file);
    name := Finish(ctx);
  }

  method Finish(ctx: C.Context) returns (name: string)
    requires ctx.Valid()
    modifies ctx, ctx.data, ctx.state
    ensures name == NameOf(old(ctx.msg))
  {
    var digest := new Byte[32];
    ctx.Final(digest);
    var out := EncodeBytes(digest);
    name := out[..];
  }

  /** One update for each piece. */
  method FeedAll(ctx: C.Context, pieces: seq<seq<Byte>>)
    requires ctx.Valid() && ctx.msg == []
    modifies ctx, ctx.data, ctx.state
    ensures ctx.Valid() && ctx.msg == Flatten(pieces)
  {
    hide Absorb, Hash, Encode, Words;
    for i := 0 to |pieces|
      invariant ctx.Valid() && ctx.msg == Flatten(pieces[..i])
    {
      assert pieces[..i + 1][..i] == pieces[..i];
      ctx.Update(pieces[i]);
    }
    assert pieces[..|pieces|] == pieces;
  }

  /** Any way of cutting a message into updates gives its hash. */
  method HashInPieces(pieces: seq<seq<Byte>>) returns (digest: array<Byte>)
    ensures fresh(digest) && digest[..] == Hash(Flatten(pieces))
  {
    hide Absorb, Hash, Encode, Words, Flatten;
    var ctx := new C.Context();
    ctx.Init();
    FeedAll(ctx, pieces);
    digest := new Byte[32];
    ctx.Final(digest);
  }

  function Flatten(pieces: seq<seq<Byte>>): seq<Byte> {
    if pieces == [] then [] else Flatten(pieces[..|pieces| - 1]) + pieces[|pieces| - 1]
  }
}
