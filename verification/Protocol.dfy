/**
  What stands around the AVL data array on a TCP stream: the IMEI login (imei.ts), the frame with its
  CRC and the stream framing (codec8.ts), and the Codec 12 command channel (codec12.ts).
 */
module Protocol {
  import opened Bytes
  import opened Crc16
  import opened Avl

  // ---- Frames: preamble, length, data, CRC ---------------------------------------

  const PREAMBLE: seq<byte> := [0, 0, 0, 0]

  /** extractFrame: the first complete frame and what follows it, or None if it is not all there yet. */
  function ExtractFrame(buf: seq<byte>): Option<(seq<byte>, seq<byte>)> {
    if |buf| < 8 then None else
      var total := 12 + Val(buf[4..8]);
      if |buf| < total then None else Some((buf[..total], buf[total..]))
  }

  /** The checks decodeTcpPacket and decodeCodec12 share. The CRC field is masked to its low sixteen bits. */
  function OpenFrame(frame: seq<byte>): Result<seq<byte>> {
    if |frame| < 12 then Err(FrameTooShort)
    else if Val(frame[..4]) != 0 then Err(BadPreamble)
    else
      var n := Val(frame[4..8]);
      if |frame| < 8 + n then Err(IncompleteData)
      else if |frame| < 12 + n then Err(ShortRead)
      else if Crc(frame[8..8 + n]) != Val(frame[8 + n..12 + n]) % 0x1_0000 then Err(CrcMismatch)
      else Ok(frame[8..8 + n])
  }

  /** encodeTcpPacket, and the envelope both Codec 12 encoders build. Longer data makes writeUInt32BE throw. */
  function WrapFrame(data: seq<byte>): seq<byte>
    requires |data| < 0x1_0000_0000
  {
    PREAMBLE + BE(|data|, 4) + data + ([0, 0] + BE(Crc(data), 2))
  }

  function DecodeTcpPacket(frame: seq<byte>): Result<DecodedAvl> {
    var data :- OpenFrame(frame);
    Decode(data)
  }

  function BuildTcpAck(recordCount: nat): (ack: seq<byte>)
    requires recordCount < 0x1_0000_0000
    ensures |ack| == 4 && Val(ack) == recordCount
  {
    Pow256Values();
    ValOfBE(recordCount, 4);
    BE(recordCount, 4)
  }

  lemma FrameSplits(buf: seq<byte>)
    requires ExtractFrame(buf).Some?
    ensures var (frame, rest) := ExtractFrame(buf).value;
      frame + rest == buf && |frame| >= 12
  {}

  /** Prefix stability: bytes that arrive later never change a frame that was complete. */
  lemma FrameStable(buf: seq<byte>, more: seq<byte>)
    requires ExtractFrame(buf).Some?
    ensures ExtractFrame(buf + more) == Some((ExtractFrame(buf).value.0, ExtractFrame(buf).value.1 + more))
  {
    var total := 12 + Val(buf[4..8]);
    assert (buf + more)[4..8] == buf[4..8];
    assert (buf + more)[..total] == buf[..total];
    assert (buf + more)[total..] == buf[total..] + more;
  }

  lemma ZeroPreamble()
    ensures Val(PREAMBLE) == 0
  {
    assert PREAMBLE[..3] == [0, 0, 0] && [0, 0, 0][..2] == [0, 0] && [0, 0][..1] == [0] && [0][..0] == [];
    assert Val([0]) == 0;
    assert Val([0, 0]) == 0;
    assert Val([0, 0, 0]) == 0;
  }

  lemma CrcField(crc: nat)
    requires crc < 0x1_0000
    ensures Val([0, 0] + BE(crc, 2)) == crc
  {
    Pow256Values();
    ValOfBE(crc, 2);
    var b := BE(crc, 2);
    var f := [0, 0] + b;
    assert f[..3] == [0, 0, b[0]] && [0, 0, b[0]][..2] == [0, 0] && [0, 0][..1] == [0] && [0][..0] == [];
    assert Val([0]) == 0 && Val([0, 0]) == 0;
    assert Val([0, 0, b[0]]) == b[0];
    assert b[..1] == [b[0]] && [b[0]][..0] == [];
    assert Val([b[0]]) == b[0];
  }

  /** A wrapped data field is extracted whole from any stream and opens to itself. */
  lemma WrapOpens(data: seq<byte>, rest: seq<byte>)
    requires |data| < 0x1_0000_0000
    ensures ExtractFrame(WrapFrame(data) + rest) == Some((WrapFrame(data), rest))
    ensures OpenFrame(WrapFrame(data)) == Ok(data)
  {
    hide Val, BE, Crc;
    var n := |data|;
    Pow256Values();
    ValOfBE(n, 4);
    CrcBound(data);
    CrcField(Crc(data));
    ZeroPreamble();
    var f := WrapFrame(data);
    assert f[..4] == PREAMBLE && f[4..8] == BE(n, 4) && f[8..8 + n] == data && f[8 + n..12 + n] == [0, 0] + BE(Crc(data), 2);
    var s := f + rest;
    assert s[4..8] == f[4..8] && s[..12 + n] == f && s[12 + n..] == rest;
  }

  /** The AVL round trip through a whole TCP frame. */
  lemma TcpRoundTrip(codec: nat, ws: seq<WireRecord>)
    requires Sendable(codec, ws) && |EncodeArray(codec, ws)| < 0x1_0000_0000
    ensures DecodeTcpPacket(WrapFrame(EncodeArray(codec, ws))) == Ok(DecodedAvl(codec, |ws|, ViewAll(ws)))
  {
    hide EncodeArray, Decode, OpenFrame, ViewAll;
    var data := EncodeArray(codec, ws);
    WrapOpens(data, []);
    RoundTrip(codec, ws, []);
    assert data + [] == data;
  }

  // ---- Corruption ------------------------------------------------------------------

  /** good and bad have the same envelope: they differ at most inside the data field. */
  predicate SameEnvelope(good: seq<byte>, bad: seq<byte>) {
    && |good| == |bad| && |good| >= 12 && good[..4] == bad[..4] && good[4..8] == bad[4..8]
    && 12 + Val(good[4..8]) <= |good|
    && good[8 + Val(good[4..8])..] == bad[8 + Val(good[4..8])..]
  }

  function DataField(frame: seq<byte>): seq<byte>
    requires |frame| >= 12 && 8 + Val(frame[4..8]) <= |frame|
  {
    frame[8..8 + Val(frame[4..8])]
  }

  /** Under the same envelope, a frame whose data has another CRC than an accepted one is rejected for it. */
  lemma OtherCrcRejected(good: seq<byte>, bad: seq<byte>)
    requires OpenFrame(good).Ok? && SameEnvelope(good, bad)
    ensures DataField(good) == OpenFrame(good).value && |DataField(bad)| == |DataField(good)|
    ensures OpenFrame(bad) == (if Crc(DataField(bad)) == Crc(DataField(good)) then Ok(DataField(bad)) else Err(CrcMismatch))
  {
    hide Val, Crc;
    var n := Val(good[4..8]);
    assert good[8 + n..12 + n] == good[8 + n..][..4] && bad[8 + n..12 + n] == bad[8 + n..][..4];
  }

  function Word(high: byte, low: byte): nat { 0x100 * (high as int) + low as int }

  /** The low sixteen bits of the CRC field are its last two bytes. */
  lemma LowBytes(f: seq<byte>)
    requires |f| == 4
    ensures Val(f) % 0x1_0000 == Word(f[2], f[3])
  {
    assert Val(f) == 256 * Val(f[..3]) + f[3];
    assert f[..3][..2] == f[..2];
    assert Val(f[..3]) == 256 * Val(f[..2]) + f[2];
  }

  /** Neither the data nor the two bytes of the CRC field that are looked at were touched. */
  predicate Untouched(good: seq<byte>, bad: seq<byte>)
    requires OpenFrame(good).Ok? && |good| == |bad|
  {
    var n := Val(good[4..8]);
    good[8..8 + n] == bad[8..8 + n] && good[10 + n] == bad[10 + n] && good[11 + n] == bad[11 + n]
  }

  lemma OpenSameHeader(good: seq<byte>, bad: seq<byte>)
    requires OpenFrame(good).Ok? && |good| == |bad| && good[..8] == bad[..8]
    ensures var n := Val(good[4..8]);
      && 12 + n <= |good| && OpenFrame(good) == Ok(good[8..8 + n])
      && Crc(good[8..8 + n]) == Word(good[10 + n], good[11 + n])
      && OpenFrame(bad) == if Crc(bad[8..8 + n]) == Word(bad[10 + n], bad[11 + n]) then Ok(bad[8..8 + n]) else Err(CrcMismatch)
  {
    hide Val, Crc;
    var n := Val(good[4..8]);
    assert good[..8][..4] == good[..4] && bad[..8][..4] == bad[..4];
    assert good[..8][4..8] == good[4..8] && bad[..8][4..8] == bad[4..8];
    var g, b := good[8 + n..12 + n], bad[8 + n..12 + n];
    LowBytes(g);
    LowBytes(b);
  }

  /** A burst that starts in the data does not reach the last two bytes of the CRC field, nor the data from there. */
  lemma BurstMeets(good: seq<byte>, bad: seq<byte>, n: nat, p: nat)
    requires |good| == |bad| && 12 + n <= |good| && DifferInBurst(good[8..], bad[8..], p)
    ensures p < 8 * n ==> good[10 + n] == bad[10 + n] && good[11 + n] == bad[11 + n]
    ensures p >= 8 * n ==> good[8..8 + n] == bad[8..8 + n]
    ensures DifferInBurst(good[8..8 + n], bad[8..8 + n], p)
  {
    hide BitAt;
    var g, b := good[8..], bad[8..];
    var gd, bd := good[8..8 + n], bad[8..8 + n];
    assert g[..n] == gd && b[..n] == bd;
    assert forall i :: 0 <= i < |g| ==> g[i] == good[8 + i] && b[i] == bad[8 + i];
    if p < 8 * n {
      BurstMisses(g, b, p, n + 2);
      BurstMisses(g, b, p, n + 3);
    } else {
      forall i | 0 <= i < n
        ensures gd[i] == bd[i]
      {
        BurstMisses(g, b, p, i);
      }
    }
    forall j | 0 <= j < 8 * n && !(p <= j < p + 16)
      ensures BitAt(gd, j) == BitAt(bd, j)
    {
      SameBit(g, n, j);
      SameBit(b, n, j);
    }
  }

  lemma SameBit(d: seq<byte>, n: nat, j: nat)
    requires n <= |d| && j < 8 * n
    ensures BitAt(d[..n], j) == BitAt(d, j)
  {}

  /**
    A corruption confined to sixteen consecutive bits after the header of an accepted frame, in the data, in the CRC
    field or across the two, is rejected, unless it touched only bytes that are never looked at.
   */
  lemma BurstOpens(good: seq<byte>, bad: seq<byte>, p: nat)
    requires OpenFrame(good).Ok? && |good| == |bad| && good[..8] == bad[..8] && DifferInBurst(good[8..], bad[8..], p)
    ensures OpenFrame(bad) == if Untouched(good, bad) then OpenFrame(good) else Err(CrcMismatch)
  {
    hide Val, Crc, OpenFrame, DifferInBurst;
    OpenSameHeader(good, bad);
    var n := Val(good[4..8]);
    BurstMeets(good, bad, n, p);
    BurstDetected(good[8..8 + n], bad[8..8 + n], p);
  }

  /** So decodeTcpPacket rejects every such corruption that touched the data or the CRC of a frame it accepted. */
  lemma BurstRejected(good: seq<byte>, bad: seq<byte>, p: nat)
    requires DecodeTcpPacket(good).Ok? && |good| == |bad| && good[..8] == bad[..8] && DifferInBurst(good[8..], bad[8..], p)
    ensures DecodeTcpPacket(bad) == if Untouched(good, bad) then DecodeTcpPacket(good) else Err(CrcMismatch)
  {
    hide Val, Crc, OpenFrame, DifferInBurst, Untouched, Decode;
    BurstOpens(good, bad, p);
  }

  /** decodeTcpPacket rejects every corruption that flips an odd number of data bits of a frame it accepted. */
  lemma OddFlipsRejected(good: seq<byte>, bad: seq<byte>)
    requires DecodeTcpPacket(good).Ok? && SameEnvelope(good, bad)
    requires DataParity(XorBytes(DataField(good), DataField(bad)))
    ensures DecodeTcpPacket(bad) == Err(CrcMismatch)
  {
    hide Val, Crc, XorBytes, DataParity, DataField, OpenFrame;
    OtherCrcRejected(good, bad);
    var g, b := DataField(good), DataField(bad);
    CrcLinear(g, b);
    CrcCarriesParity(XorBytes(g, b));
    XorZero(Crc(g));
  }

  // ---- Codec 12 ----------------------------------------------------------------------

  const CODEC_12 := 0x0c
  const TYPE_RESPONSE := 0x06

  /** A JavaScript string, as its UTF-16 code units. */
  type Text = seq<nat>

  datatype Codec12Message = Codec12Message(kind: byte, payload: Text)

  /** Buffer.from(text, 'ascii') keeps the low eight bits of each code unit. */
  function ToAscii(t: Text): (bs: seq<byte>)
    ensures |bs| == |t| && forall i :: 0 <= i < |t| ==> bs[i] == t[i] % 256
  {
    seq(|t|, i requires 0 <= i < |t| => t[i] % 256)
  }

  /** buf.toString('ascii') drops the high bit of each byte. */
  function FromAscii(bs: seq<byte>): (t: Text)
    ensures |t| == |bs| && forall i :: 0 <= i < |bs| ==> t[i] == bs[i] % 128
  {
    seq(|bs|, i requires 0 <= i < |bs| => bs[i] % 128)
  }

  /** encodeCommand and encodeResponse differ only in the type byte. */
  function Codec12Data(kind: byte, text: Text): seq<byte> {
    [CODEC_12, 1, kind] + BE(|text|, 4) + ToAscii(text) + [1]
  }

  function EncodeCodec12(kind: byte, text: Text): seq<byte>
    requires |text| + 8 < 0x1_0000_0000
  {
    WrapFrame(Codec12Data(kind, text))
  }

  /** decodeCodec12. The payload is cut at the end of the data field if the inner size exceeds it. */
  function DecodeCodec12(frame: seq<byte>): Result<Codec12Message> {
    var d :- OpenFrame(frame);
    if |d| < 1 then Err(ShortRead)
    else if d[0] != CODEC_12 then Err(NotCodec12)
    else if |d| < 7 then Err(ShortRead)
    else
      var end := 7 + Val(d[3..7]);
      Ok(Codec12Message(d[2], FromAscii(d[7..if end < |d| then end else |d|])))
  }

  /** decodeCodec12 returns the text with every code unit reduced to seven bits ... */
  lemma Codec12Decodes(kind: byte, text: Text)
    requires |text| + 8 < 0x1_0000_0000
    ensures DecodeCodec12(EncodeCodec12(kind, text)) == Ok(Codec12Message(kind, FromAscii(ToAscii(text))))
  {
    hide Val, BE, Crc, OpenFrame, WrapFrame, FromAscii, ToAscii;
    var d := Codec12Data(kind, text);
    WrapOpens(d, []);
    Pow256Values();
    ValOfBE(|text|, 4);
    assert d[3..7] == BE(|text|, 4);
    assert d[7..7 + |text|] == ToAscii(text);
  }

  /** ... so the round trip is exact if and only if the text is 7-bit. */
  lemma Codec12RoundTrip(kind: byte, text: Text)
    requires |text| + 8 < 0x1_0000_0000
    ensures DecodeCodec12(EncodeCodec12(kind, text)) == Ok(Codec12Message(kind, text))
       <==> forall i :: 0 <= i < |text| ==> text[i] < 128
  {
    hide DecodeCodec12, EncodeCodec12;
    Codec12Decodes(kind, text);
    var back := FromAscii(ToAscii(text));
    forall i | 0 <= i < |text|
      ensures back[i] == text[i] <==> text[i] < 128
    {
      assert back[i] == text[i] % 256 % 128;
    }
    assert back == text <==> forall i :: 0 <= i < |text| ==> back[i] == text[i];
  }

  // ---- IMEI login ---------------------------------------------------------------------

  datatype ImeiParse = NeedMore | BadLogin(error: Error) | Login(imei: Text)

  const LOGIN_LENGTH := 17

  predicate IsImei(t: Text) {
    |t| == 15 && forall i :: 0 <= i < 15 ==> 48 <= t[i] <= 57
  }

  /** parseImei: null, an exception, or an accepted login of seventeen bytes. */
  function ParseImei(buf: seq<byte>): ImeiParse {
    if |buf| < 2 then NeedMore
    else if Val(buf[..2]) != 15 then BadLogin(BadImeiLength)
    else if |buf| < LOGIN_LENGTH then NeedMore
    else
      var imei := FromAscii(buf[2..LOGIN_LENGTH]);
      if IsImei(imei) then Login(imei) else BadLogin(BadImeiDigits)
  }

  lemma LoginIsLong(buf: seq<byte>)
    requires ParseImei(buf).Login?
    ensures |buf| >= LOGIN_LENGTH
  {}

  function EncodeImei(imei: Text): Result<seq<byte>> {
    if IsImei(imei) then Ok([0, 15] + ToAscii(imei)) else Err(BadImeiDigits)
  }

  /** Prefix stability: once decided, the login never changes as more bytes arrive. */
  lemma LoginStable(buf: seq<byte>, more: seq<byte>)
    requires ParseImei(buf) != NeedMore
    ensures ParseImei(buf + more) == ParseImei(buf)
  {
    hide Val, FromAscii;
    assert (buf + more)[..2] == buf[..2];
    if |buf| >= LOGIN_LENGTH {
      assert (buf + more)[2..LOGIN_LENGTH] == buf[2..LOGIN_LENGTH];
    }
  }

  lemma ImeiRoundTrip(imei: Text, rest: seq<byte>)
    requires EncodeImei(imei).Ok?
    ensures ParseImei(EncodeImei(imei).value + rest) == Login(imei)
    ensures |EncodeImei(imei).value| == LOGIN_LENGTH
  {
    hide Val;
    var buf := EncodeImei(imei).value + rest;
    LoginPrefix();
    assert buf[..2] == [0, 15];
    assert buf[2..LOGIN_LENGTH] == ToAscii(imei);
    assert FromAscii(ToAscii(imei)) == imei;
  }

  lemma LoginPrefix()
    ensures Val([0, 15]) == 15
  {}
}
