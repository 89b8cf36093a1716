/** What the envelope checks, the login and Codec 12 messages mean, byte by byte, with every constant written out. */
module ProtocolMeaning {
  import opened Bytes
  import opened Crc16
  import opened Protocol

  /** Four big-endian bytes. */
  function Long(a: byte, b: byte, c: byte, d: byte): nat {
    0x100_0000 * (a as int) + 0x1_0000 * (b as int) + 0x100 * (c as int) + d as int
  }

  lemma ValTwo(s: seq<byte>)
    requires |s| == 2
    ensures Val(s) == 0x100 * (s[0] as int) + s[1] as int
  {
    assert s[..1][..0] == [] && Val([]) == 0;
    assert Val(s[..1]) == 256 * Val(s[..1][..0]) + s[0];
    assert Val(s) == 256 * Val(s[..1]) + s[1];
  }

  lemma ValFour(s: seq<byte>)
    requires |s| == 4
    ensures Val(s) == Long(s[0], s[1], s[2], s[3])
  {
    hide Val;
    ValTwo(s[..2]);
    assert Val(s[..3]) == 256 * Val(s[..2]) + s[2] by { ValSnoc(s[..3]); assert s[..3][..2] == s[..2]; }
    assert Val(s) == 256 * Val(s[..3]) + s[3] by { ValSnoc(s); }
  }

  lemma ValSnoc(s: seq<byte>)
    requires s != []
    ensures Val(s) == 256 * Val(s[..|s| - 1]) + s[|s| - 1]
  {}

  /** A number is read from its most significant byte on. */
  lemma {:induction false} ValHead(s: seq<byte>)
    requires s != []
    ensures Val(s) == (s[0] as int) * Pow256(|s| - 1) + Val(s[1..])
    decreases |s|
  {
    var n := |s| - 1;
    if n == 0 {
      assert s[..0] == [] && s[1..] == [] && Val([]) == 0;
    } else {
      ValHead(s[..n]);
      assert s[..n][1..] == s[1..][..n - 1];
      assert Val(s[1..]) == 256 * Val(s[1..][..n - 1]) + s[n];
      assert 256 * ((s[0] as int) * Pow256(n - 1)) == (s[0] as int) * Pow256(n);
    }
  }

  /** The length a buffer announces for its data field. */
  function Announced(buf: seq<byte>): nat
    requires |buf| >= 8
  {
    Long(buf[4], buf[5], buf[6], buf[7])
  }

  /** extractFrame: eight bytes of header, the announced data and four bytes of CRC, once they are all there. */
  lemma ExtractMeans(buf: seq<byte>)
    ensures ExtractFrame(buf).Some? <==> |buf| >= 8 && |buf| >= 12 + Announced(buf)
    ensures ExtractFrame(buf).Some? ==> ExtractFrame(buf).value == (buf[..12 + Announced(buf)], buf[12 + Announced(buf)..])
  {
    hide Val;
    if |buf| >= 8 {
      ValFour(buf[4..8]);
    }
  }

  /** The two bytes that are looked at are the CRC-16/IBM of the data, as the remainder of a polynomial division. */
  predicate Sealed(data: seq<byte>, high: byte, low: byte) {
    BitsOf(Word(high, low), 16) == Remainder(DataBits(data) + Zeros(16))
  }

  lemma SealedIs(data: seq<byte>, high: byte, low: byte)
    ensures Sealed(data, high, low) <==> Crc(data) == Word(high, low)
  {
    hide BitsOf, Remainder, DataBits, Crc, Num;
    CrcIsRemainder(data);
    CrcBound(data);
    Pow2Values();
    NumOfBits(Crc(data), 16);
    NumOfBits(Word(high, low), 16);
  }

  /** The checks of decodeTcpPacket and decodeCodec12, in their order. */
  lemma OpenMeans(f: seq<byte>)
    ensures |f| < 12 ==> OpenFrame(f) == Err(FrameTooShort)
    ensures |f| >= 12 ==> var n := Announced(f);
      if f[0] != 0 || f[1] != 0 || f[2] != 0 || f[3] != 0 then OpenFrame(f) == Err(BadPreamble)
      else if |f| < 8 + n then OpenFrame(f) == Err(IncompleteData)
      else if |f| < 12 + n then OpenFrame(f) == Err(ShortRead)
      else if !Sealed(f[8..8 + n], f[10 + n], f[11 + n]) then OpenFrame(f) == Err(CrcMismatch)
      else OpenFrame(f) == Ok(f[8..8 + n])
  {
    hide Val, Crc, Sealed, Long, Word;
    if |f| >= 12 {
      var n := Announced(f);
      ValFour(f[..4]);
      ValFour(f[4..8]);
      LongZero(f[0], f[1], f[2], f[3]);
      if |f| >= 12 + n {
        LowOfField(f, n);
        SealedIs(f[8..8 + n], f[10 + n], f[11 + n]);
      }
    }
  }

  lemma LongZero(a: byte, b: byte, c: byte, d: byte)
    ensures Long(a, b, c, d) == 0 <==> a == 0 && b == 0 && c == 0 && d == 0
  {}

  lemma LowOfField(f: seq<byte>, n: nat)
    requires |f| >= 12 + n
    ensures Val(f[8 + n..12 + n]) % 0x1_0000 == Word(f[10 + n], f[11 + n])
  {
    hide Val, Word;
    LowBytes(f[8 + n..12 + n]);
  }

  /** parseImei: a length of fifteen in two bytes, then fifteen digits, the high bit of each byte ignored. */
  lemma LoginMeans(b: seq<byte>)
    ensures ParseImei(b) == NeedMore <==> |b| < 2 || (b[0] == 0 && b[1] == 15 && |b| < 17)
    ensures ParseImei(b).Login? <==>
      |b| >= 17 && b[0] == 0 && b[1] == 15 && forall i :: 2 <= i < 17 ==> 48 <= b[i] % 128 <= 57
    ensures ParseImei(b).Login? ==>
      |ParseImei(b).imei| == 15 && forall i :: 0 <= i < 15 ==> ParseImei(b).imei[i] == b[2 + i] % 128
  {
    hide Val;
    if |b| >= 2 {
      ValTwo(b[..2]);
      if |b| >= 17 && b[0] == 0 && b[1] == 15 {
        var t := FromAscii(b[2..17]);
        assert forall i :: 0 <= i < 15 ==> t[i] == b[2 + i] % 128;
        assert forall i :: 2 <= i < 17 ==> t[i - 2] == b[i] % 128;
      }
    }
  }

  /** encodeImei: the same seventeen bytes, for fifteen digits only. */
  lemma ImeiMeans(t: Text)
    ensures EncodeImei(t).Ok? <==> |t| == 15 && forall i :: 0 <= i < 15 ==> 48 <= t[i] <= 57
    ensures EncodeImei(t).Ok? ==> var b := EncodeImei(t).value;
      |b| == 17 && b[0] == 0 && b[1] == 15 && forall i :: 0 <= i < 15 ==> b[2 + i] == t[i]
  {}

  /** decodeCodec12 on an envelope that opens to d: codec, type, size and text at their places. */
  lemma Codec12Means(f: seq<byte>, d: seq<byte>)
    requires OpenFrame(f) == Ok(d)
    ensures DecodeCodec12(f).Ok? <==> |d| >= 7 && d[0] == 0x0c
    ensures DecodeCodec12(f).Ok? ==> var m := DecodeCodec12(f).value; var size := Long(d[3], d[4], d[5], d[6]);
      && m.kind == d[2] && |m.payload| == (if 7 + size < |d| then size else |d| - 7)
      && forall i :: 0 <= i < |m.payload| ==> m.payload[i] == d[7 + i] % 128
    ensures |d| > 0 && d[0] != 0x0c ==> DecodeCodec12(f) == Err(NotCodec12)
    ensures |d| == 0 || (d[0] == 0x0c && |d| < 7) ==> DecodeCodec12(f) == Err(ShortRead)
  {
    hide Val, OpenFrame;
    if |d| >= 7 {
      ValFour(d[3..7]);
    }
  }

  /** encodeCommand and encodeResponse, kind being 5 or 6: the bytes of the data field they wrap. */
  lemma Codec12Layout(kind: byte, text: Text)
    requires |text| + 8 < 0x1_0000_0000
    ensures var d := Codec12Data(kind, text);
      && EncodeCodec12(kind, text) == WrapFrame(d) && |d| == 8 + |text|
      && d[0] == 0x0c && d[1] == 1 && d[2] == kind && Long(d[3], d[4], d[5], d[6]) == |text| && d[|d| - 1] == 1
      && forall i :: 0 <= i < |text| ==> d[7 + i] == text[i] % 256
  {
    hide Val, BE, WrapFrame;
    var d, n := Codec12Data(kind, text), BE(|text|, 4);
    assert d[3..7] == n;
    Pow256Values();
    ValOfBE(|text|, 4);
    ValFour(n);
  }

  /** encodeTcpPacket: four zero bytes, the length, the data, two zero bytes and the CRC. */
  lemma WrapLayout(data: seq<byte>)
    requires |data| < 0x1_0000_0000
    ensures var f, n := WrapFrame(data), |data|;
      && |f| == 12 + n && f[0] == f[1] == f[2] == f[3] == 0 && Announced(f) == n && f[8..8 + n] == data
      && f[8 + n] == f[9 + n] == 0 && Sealed(data, f[10 + n], f[11 + n])
  {
    hide Val, BE, Crc, Sealed, ExtractFrame;
    var f, n := WrapFrame(data), |data|;
    assert |f| == 12 + n;
    assert f[4..8] == BE(n, 4);
    Pow256Values();
    ValOfBE(n, 4);
    ValFour(f[4..8]);
    CrcBound(data);
    var c := BE(Crc(data), 2);
    ValOfBE(Crc(data), 2);
    ValTwo(c);
    SealedIs(data, c[0], c[1]);
    assert f[10 + n] == c[0] && f[11 + n] == c[1];
  }
}
