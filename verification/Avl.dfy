/**
  The Codec 8 / Codec 8 Extended AVL data array (codec8.ts).
  A WireRecord is what one record looks like on the wire; EncodeArray lays a list of them out as the
  Teltonika "Codec" page prescribes. Decode is what the package computes from a byte string.
 */
module Avl {
  import opened Bytes

  const CODEC_8 := 0x08
  const CODEC_8_EXT := 0x8e
  const CODEC_16 := 0x10

  /** Longitude and latitude are kept as the raw integers, in units of 1e-7 degree. */
  datatype GpsElement = Gps(longitude: int, latitude: int, altitude: int, angle: nat, satellites: nat, speed: nat)

  datatype IoElement = Io(eventId: nat, values: map<nat, nat>, variable: Option<map<nat, seq<byte>>>)

  datatype AvlRecord = AvlRecord(timestamp: nat, priority: nat, gps: GpsElement, io: IoElement)

  datatype DecodedAvl = DecodedAvl(codecId: nat, recordCount: nat, records: seq<AvlRecord>)

  // ---- The wire layout -------------------------------------------------------

  type Element = (nat, nat)
  type VarElement = (nat, seq<byte>)

  datatype WireRecord = WireRecord(
    timestamp: nat, priority: nat, gps: GpsElement, eventId: nat, totalIo: nat,
    io1: seq<Element>, io2: seq<Element>, io4: seq<Element>, io8: seq<Element>, variable: seq<VarElement>)

  /** Ids, counts and the event id take two bytes in the extended codec, one otherwise. */
  function IdWidth(ext: bool): nat { if ext then 2 else 1 }

  function HeaderWidths(ext: bool): seq<nat> {
    [8, 1, 4, 4, 2, 2, 1, 2, IdWidth(ext), IdWidth(ext)]
  }

  predicate FitsGps(g: GpsElement) {
    && InSigned(g.longitude, 4) && InSigned(g.latitude, 4) && InSigned(g.altitude, 2)
    && g.angle < Pow256(2) && g.satellites < Pow256(1) && g.speed < Pow256(2)
  }

  predicate FitsHeader(w: WireRecord, ext: bool) {
    && w.timestamp < Pow256(8) && w.priority < Pow256(1) && FitsGps(w.gps)
    && w.eventId < Pow256(IdWidth(ext)) && w.totalIo < Pow256(IdWidth(ext))
  }

  predicate FitsElements(es: seq<Element>, idw: nat, w: nat) {
    forall e :: e in es ==> e.0 < Pow256(idw) && e.1 < Pow256(w)
  }

  predicate FitsVars(vs: seq<VarElement>) {
    forall v :: v in vs ==> v.0 < Pow256(2) && |v.1| < Pow256(2)
  }

  predicate FitsGroup(es: seq<Element>, idw: nat, w: nat) {
    |es| < Pow256(idw) && FitsElements(es, idw, w)
  }

  predicate FitsVarGroup(vs: seq<VarElement>, ext: bool) {
    if ext then |vs| < Pow256(2) && FitsVars(vs) else vs == []
  }

  /** The record can be written with these field widths; only the extended codec has variable elements. */
  predicate Fits(w: WireRecord, ext: bool) {
    var idw := IdWidth(ext);
    && FitsHeader(w, ext)
    && FitsGroup(w.io1, idw, 1) && FitsGroup(w.io2, idw, 2) && FitsGroup(w.io4, idw, 4) && FitsGroup(w.io8, idw, 8)
    && FitsVarGroup(w.variable, ext)
  }

  function HeaderValues(w: WireRecord, ext: bool): seq<nat>
    requires FitsHeader(w, ext)
  {
    [w.timestamp, w.priority, Unsigned(w.gps.longitude, 4), Unsigned(w.gps.latitude, 4),
     Unsigned(w.gps.altitude, 2), w.gps.angle, w.gps.satellites, w.gps.speed, w.eventId, w.totalIo]
  }

  function EncodeFields(vs: seq<nat>, ws: seq<nat>): seq<byte>
    requires |vs| == |ws|
  {
    if vs == [] then [] else BE(vs[0], ws[0]) + EncodeFields(vs[1..], ws[1..])
  }

  function EncodeElement(e: Element, idw: nat, w: nat): seq<byte> { BE(e.0, idw) + BE(e.1, w) }

  function EncodeElements(es: seq<Element>, idw: nat, w: nat): seq<byte>
    decreases |es|
  {
    if es == [] then [] else EncodeElements(es[..|es| - 1], idw, w) + EncodeElement(es[|es| - 1], idw, w)
  }

  function EncodeGroup(es: seq<Element>, idw: nat, w: nat): seq<byte> {
    BE(|es|, idw) + EncodeElements(es, idw, w)
  }

  function EncodeVar(v: VarElement): seq<byte> { BE(v.0, 2) + (BE(|v.1|, 2) + v.1) }

  function EncodeVars(vs: seq<VarElement>): seq<byte>
    decreases |vs|
  {
    if vs == [] then [] else EncodeVars(vs[..|vs| - 1]) + EncodeVar(vs[|vs| - 1])
  }

  function EncodeVarGroup(vs: seq<VarElement>, ext: bool): seq<byte> {
    if ext then BE(|vs|, 2) + EncodeVars(vs) else []
  }

  function EncodeIo(w: IoGroups, ext: bool): seq<byte> {
    var idw := IdWidth(ext);
    EncodeGroup(w.io1, idw, 1) + (EncodeGroup(w.io2, idw, 2) + (EncodeGroup(w.io4, idw, 4) +
      (EncodeGroup(w.io8, idw, 8) + EncodeVarGroup(w.variable, ext))))
  }

  function EncodeRecord(w: WireRecord, ext: bool): seq<byte>
    requires Fits(w, ext)
  {
    EncodeFields(HeaderValues(w, ext), HeaderWidths(ext)) + EncodeIo(GroupsOf(w), ext)
  }

  predicate AllFit(ws: seq<WireRecord>, ext: bool) {
    forall w :: w in ws ==> Fits(w, ext)
  }

  function EncodeRecords(ws: seq<WireRecord>, ext: bool): seq<byte>
    requires AllFit(ws, ext)
    decreases |ws|
  {
    if ws == [] then [] else
      EncodeRecords(ws[..|ws| - 1], ext) + EncodeRecord(ws[|ws| - 1], ext)
  }

  /** A list of records that a Codec 8 or 8 Extended array can carry. */
  predicate Sendable(codec: nat, ws: seq<WireRecord>) {
    (codec == CODEC_8 || codec == CODEC_8_EXT) && |ws| < 256 && AllFit(ws, codec == CODEC_8_EXT)
  }

  function EncodeArray(codec: nat, ws: seq<WireRecord>): seq<byte>
    requires Sendable(codec, ws)
  {
    BE(codec, 1) + (BE(|ws|, 1) + (EncodeRecords(ws, codec == CODEC_8_EXT) + BE(|ws|, 1)))
  }

  // ---- What a record on the wire means -----------------------------------------

  /** Assign each element in turn: a later duplicate id overwrites an earlier one. */
  function Overlay<V>(m: map<nat, V>, es: seq<(nat, V)>): map<nat, V>
    decreases |es|
  {
    if es == [] then m else Overlay(m, es[..|es| - 1])[es[|es| - 1].0 := es[|es| - 1].1]
  }

  function View(w: WireRecord): AvlRecord {
    AvlRecord(w.timestamp, w.priority, w.gps,
              Io(w.eventId,
                 Overlay(Overlay(Overlay(Overlay(map[], w.io1), w.io2), w.io4), w.io8),
                 if w.variable == [] then None else Some(Overlay(map[], w.variable))))
  }

  function ViewAll(ws: seq<WireRecord>): (rs: seq<AvlRecord>)
    ensures |rs| == |ws| && forall i :: 0 <= i < |ws| ==> rs[i] == View(ws[i])
    decreases |ws|
  {
    if ws == [] then [] else ViewAll(ws[..|ws| - 1]) + [View(ws[|ws| - 1])]
  }

  // ---- Reading ---------------------------------------------------------------

  /** Reading nothing: succeeds anywhere up to the end of the buffer. */
  function Here<T>(data: seq<byte>, off: nat, v: T): Parsed<T> {
    if off <= |data| then Parsed(v, off) else Short
  }

  function ReadFields(data: seq<byte>, off: nat, ws: seq<nat>): (p: Parsed<seq<nat>>)
    ensures p.Parsed? ==> |p.value| == |ws|
    decreases |ws|
  {
    if ws == [] then Here(data, off, []) else
      var (v, o) :- ReadUint(data, off, ws[0]);
      var (vs, next) :- ReadFields(data, o, ws[1..]);
      Parsed([v] + vs, next)
  }

  function ReadElement(data: seq<byte>, off: nat, idw: nat, w: nat): Parsed<Element> {
    var (id, o) :- ReadUint(data, off, idw);
    var (v, next) :- ReadUint(data, o, w);
    Parsed((id, v), next)
  }

  function ReadElements(data: seq<byte>, off: nat, n: nat, idw: nat, w: nat): (p: Parsed<seq<Element>>)
    ensures p.Parsed? ==> |p.value| == n
    decreases n
  {
    if n == 0 then Here(data, off, []) else
      var (es, o) :- ReadElements(data, off, n - 1, idw, w);
      var (e, next) :- ReadElement(data, o, idw, w);
      Parsed(es + [e], next)
  }

  function ReadGroup(data: seq<byte>, off: nat, idw: nat, w: nat): Parsed<seq<Element>> {
    var (n, o) :- ReadUint(data, off, idw);
    ReadElements(data, o, n, idw, w)
  }

  function ReadVar(data: seq<byte>, off: nat): Parsed<VarElement> {
    var (id, o1) :- ReadUint(data, off, 2);
    var (len, o2) :- ReadUint(data, o1, 2);
    if o2 + len <= |data| then Parsed((id, data[o2..o2 + len]), o2 + len) else Short
  }

  function ReadVars(data: seq<byte>, off: nat, n: nat): (p: Parsed<seq<VarElement>>)
    ensures p.Parsed? ==> |p.value| == n
    decreases n
  {
    if n == 0 then Here(data, off, []) else
      var (vs, o) :- ReadVars(data, off, n - 1);
      var (v, next) :- ReadVar(data, o);
      Parsed(vs + [v], next)
  }

  function ReadVarGroup(data: seq<byte>, off: nat, ext: bool): Parsed<seq<VarElement>> {
    if !ext then Here(data, off, []) else
      var (n, o) :- ReadUint(data, off, 2);
      ReadVars(data, o, n)
  }

  datatype IoGroups = IoGroups(io1: seq<Element>, io2: seq<Element>, io4: seq<Element>, io8: seq<Element>, variable: seq<VarElement>)

  function ReadIo(data: seq<byte>, off: nat, ext: bool): Parsed<IoGroups> {
    var idw := IdWidth(ext);
    var (g1, o1) :- ReadGroup(data, off, idw, 1);
    var (g2, o2) :- ReadGroup(data, o1, idw, 2);
    var (g4, o4) :- ReadGroup(data, o2, idw, 4);
    var (g8, o8) :- ReadGroup(data, o4, idw, 8);
    var (gx, next) :- ReadVarGroup(data, o8, ext);
    Parsed(IoGroups(g1, g2, g4, g8, gx), next)
  }

  function FromHeader(h: seq<nat>, g: IoGroups): WireRecord
    requires |h| == 10
  {
    WireRecord(h[0], h[1], Gps(Signed(h[2], 4), Signed(h[3], 4), Signed(h[4], 2), h[5], h[6], h[7]),
               h[8], h[9], g.io1, g.io2, g.io4, g.io8, g.variable)
  }

  function ReadRecord(data: seq<byte>, off: nat, ext: bool): Parsed<WireRecord> {
    var (h, o) :- ReadFields(data, off, HeaderWidths(ext));
    var (g, next) :- ReadIo(data, o, ext);
    Parsed(FromHeader(h, g), next)
  }

  function ReadRecords(data: seq<byte>, off: nat, n: nat, ext: bool): (p: Parsed<seq<WireRecord>>)
    ensures p.Parsed? ==> |p.value| == n
    decreases n
  {
    if n == 0 then Here(data, off, []) else
      var (ws, o) :- ReadRecords(data, off, n - 1, ext);
      var (w, next) :- ReadRecord(data, o, ext);
      Parsed(ws + [w], next)
  }

  /** The records decodeAvlArray walks over, or the error it throws. Bytes after the second count are ignored. */
  function ReadArray(data: seq<byte>): Result<seq<WireRecord>> {
    if |data| < 2 then Err(ShortRead)
    else if data[0] == CODEC_16 then Err(Codec16Unsupported)
    else if data[0] != CODEC_8 && data[0] != CODEC_8_EXT then Err(UnsupportedCodec)
    else
      match ReadRecords(data, 2, data[1], data[0] == CODEC_8_EXT)
      case Short => Err(ShortRead)
      case Parsed(ws, o) =>
        if |data| <= o then Err(ShortRead)
        else if data[o] != data[1] then Err(CountMismatch)
        else Ok(ws)
  }

  function Decode(data: seq<byte>): Result<DecodedAvl> {
    var ws :- ReadArray(data);
    if |data| < 2 then Err(ShortRead) else Ok(DecodedAvl(data[0], data[1], ViewAll(ws)))
  }

  // ---- Reading succeeds exactly on the layout --------------------------------------

  predicate FitFields(vs: seq<nat>, ws: seq<nat>) {
    |vs| == |ws| && forall i :: 0 <= i < |vs| ==> vs[i] < Pow256(ws[i])
  }

  lemma FitFieldsTail(vs: seq<nat>, ws: seq<nat>)
    requires |vs| == |ws| > 0
    ensures FitFields(vs, ws) <==> vs[0] < Pow256(ws[0]) && FitFields(vs[1..], ws[1..])
  {}

  lemma {:induction false} FieldsSound(data: seq<byte>, off: nat, ws: seq<nat>)
    requires ReadFields(data, off, ws).Parsed?
    ensures var Parsed(vs, next) := ReadFields(data, off, ws);
      FitFields(vs, ws) && At(data, off, EncodeFields(vs, ws)) && next == off + |EncodeFields(vs, ws)|
    decreases |ws|
  {
    if ws != [] {
      hide Val, BE, Pow256, At;
      var vs := ReadFields(data, off, ws).value;
      FieldsSound(data, off + ws[0], ws[1..]);
      assert vs[1..] == ReadFields(data, off + ws[0], ws[1..]).value;
      ReadUintIff(data, off, ws[0], vs[0], off + ws[0]);
      AtConcat(data, off, BE(vs[0], ws[0]), EncodeFields(vs[1..], ws[1..]));
      FitFieldsTail(vs, ws);
    }
  }

  lemma {:induction false} FieldsComplete(data: seq<byte>, off: nat, ws: seq<nat>, vs: seq<nat>)
    requires FitFields(vs, ws) && At(data, off, EncodeFields(vs, ws))
    ensures ReadFields(data, off, ws) == Parsed(vs, off + |EncodeFields(vs, ws)|)
    decreases |ws|
  {
    if ws != [] {
      hide Val, BE, Pow256, At;
      AtConcat(data, off, BE(vs[0], ws[0]), EncodeFields(vs[1..], ws[1..]));
      FitFieldsTail(vs, ws);
      ReadUintIff(data, off, ws[0], vs[0], off + ws[0]);
      FieldsComplete(data, off + ws[0], ws[1..], vs[1..]);
      assert vs == [vs[0]] + vs[1..];
    }
  }

  lemma ElementIff(data: seq<byte>, off: nat, idw: nat, w: nat, e: Element, next: nat)
    ensures ReadElement(data, off, idw, w) == Parsed(e, next)
       <==> e.0 < Pow256(idw) && e.1 < Pow256(w) && At(data, off, EncodeElement(e, idw, w)) && next == off + idw + w
  {
    hide Val, BE, Pow256, At;
    ReadUintIff(data, off, idw, e.0, off + idw);
    ReadUintIff(data, off + idw, w, e.1, next);
    AtConcat(data, off, BE(e.0, idw), BE(e.1, w));
  }

  lemma ReadElementsNone(data: seq<byte>, off: nat, idw: nat, w: nat)
    ensures ReadElements(data, off, 0, idw, w) == (if off <= |data| then Parsed([], off) else Short)
    ensures FitsElements([], idw, w) && EncodeElements([], idw, w) == []
    ensures At(data, off, []) <==> off <= |data|
  {}

  lemma ReadElementsSnoc(data: seq<byte>, off: nat, n: nat, idw: nat, w: nat)
    requires n > 0
    ensures var p := ReadElements(data, off, n - 1, idw, w);
      ReadElements(data, off, n, idw, w) ==
        if p.Short? || ReadElement(data, p.next, idw, w).Short? then Short
        else Parsed(p.value + [ReadElement(data, p.next, idw, w).value], ReadElement(data, p.next, idw, w).next)
  {}

  lemma {:induction false} ElementsSound(data: seq<byte>, off: nat, n: nat, idw: nat, w: nat)
    requires ReadElements(data, off, n, idw, w).Parsed?
    ensures var Parsed(es, next) := ReadElements(data, off, n, idw, w);
      FitsElements(es, idw, w) && At(data, off, EncodeElements(es, idw, w)) && next == off + |EncodeElements(es, idw, w)|
    decreases n
  {
    hide *;
    if n == 0 {
      ReadElementsNone(data, off, idw, w);
    } else {
      ReadElementsSnoc(data, off, n, idw, w);
      ElementsSound(data, off, n - 1, idw, w);
      var Parsed(init, o) := ReadElements(data, off, n - 1, idw, w);
      var Parsed(e, next) := ReadElement(data, o, idw, w);
      assert ReadElements(data, off, n, idw, w) == Parsed(init + [e], next);
      FitsElementsSnoc(init, e, idw, w);
      ElementIff(data, o, idw, w, e, next);
      AtConcat(data, off, EncodeElements(init, idw, w), EncodeElement(e, idw, w));
      ElementLength(e, idw, w);
    }
  }

  lemma FitsElementsSnoc(es: seq<Element>, e: Element, idw: nat, w: nat)
    ensures FitsElements(es + [e], idw, w) <==> FitsElements(es, idw, w) && e.0 < Pow256(idw) && e.1 < Pow256(w)
    ensures EncodeElements(es + [e], idw, w) == EncodeElements(es, idw, w) + EncodeElement(e, idw, w)
  {}

  lemma ElementLength(e: Element, idw: nat, w: nat)
    ensures |EncodeElement(e, idw, w)| == idw + w
  {}

  lemma {:induction false} ElementsComplete(data: seq<byte>, off: nat, idw: nat, w: nat, es: seq<Element>)
    requires FitsElements(es, idw, w) && At(data, off, EncodeElements(es, idw, w))
    ensures ReadElements(data, off, |es|, idw, w) == Parsed(es, off + |EncodeElements(es, idw, w)|)
    decreases |es|
  {
    hide *;
    if es == [] {
      ReadElementsNone(data, off, idw, w);
    } else {
      ReadElementsSnoc(data, off, |es|, idw, w);
      var init, e := es[..|es| - 1], es[|es| - 1];
      assert es == init + [e];
      FitsElementsSnoc(init, e, idw, w);
      AtConcat(data, off, EncodeElements(init, idw, w), EncodeElement(e, idw, w));
      ElementsComplete(data, off, idw, w, init);
      var o := off + |EncodeElements(init, idw, w)|;
      ElementLength(e, idw, w);
      ElementIff(data, o, idw, w, e, o + idw + w);
      assert ReadElements(data, off, |es| - 1, idw, w) == Parsed(init, o);
      assert ReadElements(data, off, |es|, idw, w) == Parsed(es, o + idw + w);
    }
  }

  lemma GroupSound(data: seq<byte>, off: nat, idw: nat, w: nat)
    requires ReadGroup(data, off, idw, w).Parsed?
    ensures var Parsed(es, next) := ReadGroup(data, off, idw, w);
      FitsGroup(es, idw, w) && At(data, off, EncodeGroup(es, idw, w)) && next == off + |EncodeGroup(es, idw, w)|
  {
    hide Val, BE, Pow256, At, ReadElements, EncodeElements, FitsElements;
    var es := ReadGroup(data, off, idw, w).value;
    ReadUintIff(data, off, idw, |es|, off + idw);
    ElementsSound(data, off + idw, |es|, idw, w);
    AtConcat(data, off, BE(|es|, idw), EncodeElements(es, idw, w));
  }

  lemma GroupComplete(data: seq<byte>, off: nat, idw: nat, w: nat, es: seq<Element>)
    requires FitsGroup(es, idw, w) && At(data, off, EncodeGroup(es, idw, w))
    ensures ReadGroup(data, off, idw, w) == Parsed(es, off + |EncodeGroup(es, idw, w)|)
  {
    hide Val, BE, Pow256, At, ReadElements, EncodeElements, FitsElements;
    AtConcat(data, off, BE(|es|, idw), EncodeElements(es, idw, w));
    ReadUintIff(data, off, idw, |es|, off + idw);
    ElementsComplete(data, off + idw, idw, w, es);
  }

  lemma VarSound(data: seq<byte>, off: nat)
    requires ReadVar(data, off).Parsed?
    ensures var Parsed(v, next) := ReadVar(data, off);
      v.0 < Pow256(2) && |v.1| < Pow256(2) && At(data, off, EncodeVar(v)) && next == off + |EncodeVar(v)|
  {
    hide Val, BE, Pow256;
    var v := ReadVar(data, off).value;
    ReadUintIff(data, off, 2, v.0, off + 2);
    ReadUintIff(data, off + 2, 2, |v.1|, off + 4);
    AtConcat(data, off, BE(v.0, 2), BE(|v.1|, 2) + v.1);
    AtConcat(data, off + 2, BE(|v.1|, 2), v.1);
  }

  lemma VarComplete(data: seq<byte>, off: nat, v: VarElement)
    requires v.0 < Pow256(2) && |v.1| < Pow256(2) && At(data, off, EncodeVar(v))
    ensures ReadVar(data, off) == Parsed(v, off + |EncodeVar(v)|)
  {
    hide Val, BE, Pow256;
    AtConcat(data, off, BE(v.0, 2), BE(|v.1|, 2) + v.1);
    AtConcat(data, off + 2, BE(|v.1|, 2), v.1);
    ReadUintIff(data, off, 2, v.0, off + 2);
    ReadUintIff(data, off + 2, 2, |v.1|, off + 4);
  }

  lemma FitsVarsSnoc(vs: seq<VarElement>, v: VarElement)
    ensures FitsVars(vs + [v]) <==> FitsVars(vs) && v.0 < Pow256(2) && |v.1| < Pow256(2)
    ensures EncodeVars(vs + [v]) == EncodeVars(vs) + EncodeVar(v)
  {}

  lemma ReadVarsNone(data: seq<byte>, off: nat)
    ensures ReadVars(data, off, 0) == (if off <= |data| then Parsed([], off) else Short)
    ensures FitsVars([]) && EncodeVars([]) == []
    ensures At(data, off, []) <==> off <= |data|
  {}

  lemma ReadVarsSnoc(data: seq<byte>, off: nat, n: nat)
    requires n > 0
    ensures var p := ReadVars(data, off, n - 1);
      ReadVars(data, off, n) ==
        if p.Short? || ReadVar(data, p.next).Short? then Short
        else Parsed(p.value + [ReadVar(data, p.next).value], ReadVar(data, p.next).next)
  {}

  lemma {:induction false} VarsSound(data: seq<byte>, off: nat, n: nat)
    requires ReadVars(data, off, n).Parsed?
    ensures var Parsed(vs, next) := ReadVars(data, off, n);
      FitsVars(vs) && At(data, off, EncodeVars(vs)) && next == off + |EncodeVars(vs)|
    decreases n
  {
    hide *;
    if n == 0 {
      ReadVarsNone(data, off);
    } else {
      ReadVarsSnoc(data, off, n);
      VarsSound(data, off, n - 1);
      var Parsed(init, o) := ReadVars(data, off, n - 1);
      VarSound(data, o);
      var Parsed(v, next) := ReadVar(data, o);
      assert ReadVars(data, off, n) == Parsed(init + [v], next);
      FitsVarsSnoc(init, v);
      AtConcat(data, off, EncodeVars(init), EncodeVar(v));
    }
  }

  lemma {:induction false} VarsComplete(data: seq<byte>, off: nat, vs: seq<VarElement>)
    requires FitsVars(vs) && At(data, off, EncodeVars(vs))
    ensures ReadVars(data, off, |vs|) == Parsed(vs, off + |EncodeVars(vs)|)
    decreases |vs|
  {
    hide *;
    if vs == [] {
      ReadVarsNone(data, off);
    } else {
      ReadVarsSnoc(data, off, |vs|);
      var init, v := vs[..|vs| - 1], vs[|vs| - 1];
      assert vs == init + [v];
      FitsVarsSnoc(init, v);
      AtConcat(data, off, EncodeVars(init), EncodeVar(v));
      VarsComplete(data, off, init);
      var o := off + |EncodeVars(init)|;
      VarComplete(data, o, v);
      assert ReadVars(data, off, |vs| - 1) == Parsed(init, o);
      assert ReadVars(data, off, |vs|) == Parsed(vs, o + |EncodeVar(v)|);
      assert |EncodeVars(vs)| == |EncodeVars(init)| + |EncodeVar(v)|;
    }
  }

  lemma VarGroupSound(data: seq<byte>, off: nat, ext: bool)
    requires ReadVarGroup(data, off, ext).Parsed?
    ensures var Parsed(vs, next) := ReadVarGroup(data, off, ext);
      FitsVarGroup(vs, ext) && At(data, off, EncodeVarGroup(vs, ext)) && next == off + |EncodeVarGroup(vs, ext)|
  {
    if ext {
      hide Val, BE, Pow256, At, ReadVars, EncodeVars, FitsVars;
      var vs := ReadVarGroup(data, off, ext).value;
      assert ReadUint(data, off, 2) == Parsed(|vs|, off + 2);
      ReadUintIff(data, off, 2, |vs|, off + 2);
      VarsSound(data, off + 2, |vs|);
      AtConcat(data, off, BE(|vs|, 2), EncodeVars(vs));
    }
  }

  lemma VarGroupComplete(data: seq<byte>, off: nat, ext: bool, vs: seq<VarElement>)
    requires FitsVarGroup(vs, ext) && At(data, off, EncodeVarGroup(vs, ext))
    ensures ReadVarGroup(data, off, ext) == Parsed(vs, off + |EncodeVarGroup(vs, ext)|)
  {
    if ext {
      hide Val, BE, Pow256, At, ReadVars, EncodeVars, FitsVars;
      AtConcat(data, off, BE(|vs|, 2), EncodeVars(vs));
      ReadUintIff(data, off, 2, |vs|, off + 2);
      VarsComplete(data, off + 2, vs);
    }
  }

  // ---- Whole records -----------------------------------------------------------

  predicate FitsIo(g: IoGroups, ext: bool) {
    var idw := IdWidth(ext);
    && FitsGroup(g.io1, idw, 1) && FitsGroup(g.io2, idw, 2) && FitsGroup(g.io4, idw, 4) && FitsGroup(g.io8, idw, 8)
    && FitsVarGroup(g.variable, ext)
  }

  lemma IoSplit(data: seq<byte>, off: nat, g: IoGroups, ext: bool)
    ensures var idw := IdWidth(ext);
      var o1 := off + |EncodeGroup(g.io1, idw, 1)|;
      var o2 := o1 + |EncodeGroup(g.io2, idw, 2)|;
      var o4 := o2 + |EncodeGroup(g.io4, idw, 4)|;
      var o8 := o4 + |EncodeGroup(g.io8, idw, 8)|;
      At(data, off, EncodeIo(g, ext)) <==>
        (At(data, off, EncodeGroup(g.io1, idw, 1)) && At(data, o1, EncodeGroup(g.io2, idw, 2)) &&
         At(data, o2, EncodeGroup(g.io4, idw, 4)) && At(data, o4, EncodeGroup(g.io8, idw, 8)) &&
         At(data, o8, EncodeVarGroup(g.variable, ext)))
  {
    hide At, EncodeGroup, EncodeVarGroup;
    var idw := IdWidth(ext);
    var e1, e2, e4, e8 := EncodeGroup(g.io1, idw, 1), EncodeGroup(g.io2, idw, 2), EncodeGroup(g.io4, idw, 4), EncodeGroup(g.io8, idw, 8);
    var ex := EncodeVarGroup(g.variable, ext);
    AtConcat(data, off, e1, e2 + (e4 + (e8 + ex)));
    AtConcat(data, off + |e1|, e2, e4 + (e8 + ex));
    AtConcat(data, off + |e1| + |e2|, e4, e8 + ex);
    AtConcat(data, off + |e1| + |e2| + |e4|, e8, ex);
  }

  lemma IoSound(data: seq<byte>, off: nat, ext: bool)
    requires ReadIo(data, off, ext).Parsed?
    ensures var Parsed(g, next) := ReadIo(data, off, ext);
      FitsIo(g, ext) && At(data, off, EncodeIo(g, ext)) && next == off + |EncodeIo(g, ext)|
  {
    hide At, ReadGroup, EncodeGroup, FitsGroup, ReadVarGroup, EncodeVarGroup, FitsVarGroup;
    var idw := IdWidth(ext);
    var g := ReadIo(data, off, ext).value;
    GroupSound(data, off, idw, 1);
    var o1 := off + |EncodeGroup(g.io1, idw, 1)|;
    GroupSound(data, o1, idw, 2);
    var o2 := o1 + |EncodeGroup(g.io2, idw, 2)|;
    GroupSound(data, o2, idw, 4);
    var o4 := o2 + |EncodeGroup(g.io4, idw, 4)|;
    GroupSound(data, o4, idw, 8);
    VarGroupSound(data, o4 + |EncodeGroup(g.io8, idw, 8)|, ext);
    IoSplit(data, off, g, ext);
  }

  lemma IoComplete(data: seq<byte>, off: nat, g: IoGroups, ext: bool)
    requires FitsIo(g, ext) && At(data, off, EncodeIo(g, ext))
    ensures ReadIo(data, off, ext) == Parsed(g, off + |EncodeIo(g, ext)|)
  {
    hide At, ReadGroup, EncodeGroup, FitsGroup, ReadVarGroup, EncodeVarGroup, FitsVarGroup;
    var idw := IdWidth(ext);
    IoSplit(data, off, g, ext);
    GroupComplete(data, off, idw, 1, g.io1);
    var o1 := off + |EncodeGroup(g.io1, idw, 1)|;
    GroupComplete(data, o1, idw, 2, g.io2);
    var o2 := o1 + |EncodeGroup(g.io2, idw, 2)|;
    GroupComplete(data, o2, idw, 4, g.io4);
    var o4 := o2 + |EncodeGroup(g.io4, idw, 4)|;
    GroupComplete(data, o4, idw, 8, g.io8);
    VarGroupComplete(data, o4 + |EncodeGroup(g.io8, idw, 8)|, ext, g.variable);
  }

  lemma HeaderOfValues(h: seq<nat>, g: IoGroups, ext: bool)
    requires FitFields(h, HeaderWidths(ext))
    ensures FitsHeader(FromHeader(h, g), ext) && HeaderValues(FromHeader(h, g), ext) == h
  {}

  lemma ValuesFit(w: WireRecord, ext: bool)
    requires FitsHeader(w, ext)
    ensures |HeaderValues(w, ext)| == |HeaderWidths(ext)| == 10
    ensures FitFields(HeaderValues(w, ext), HeaderWidths(ext))
    ensures FromHeader(HeaderValues(w, ext), GroupsOf(w)) == w
  {}

  function GroupsOf(w: WireRecord): IoGroups { IoGroups(w.io1, w.io2, w.io4, w.io8, w.variable) }

  lemma RecordSound(data: seq<byte>, off: nat, ext: bool)
    requires ReadRecord(data, off, ext).Parsed?
    ensures var Parsed(w, next) := ReadRecord(data, off, ext);
      Fits(w, ext) && At(data, off, EncodeRecord(w, ext)) && next == off + |EncodeRecord(w, ext)|
  {
    hide At, ReadFields, EncodeFields, FitFields, ReadIo, EncodeIo, FitsHeader, HeaderValues, FitsGroup, FitsVarGroup;
    FieldsSound(data, off, HeaderWidths(ext));
    var Parsed(h, o) := ReadFields(data, off, HeaderWidths(ext));
    IoSound(data, o, ext);
    var g := ReadIo(data, o, ext).value;
    HeaderOfValues(h, g, ext);
    AtConcat(data, off, EncodeFields(h, HeaderWidths(ext)), EncodeIo(g, ext));
    assert GroupsOf(FromHeader(h, g)) == g;
  }

  lemma RecordComplete(data: seq<byte>, off: nat, ext: bool, w: WireRecord)
    requires Fits(w, ext) && At(data, off, EncodeRecord(w, ext))
    ensures ReadRecord(data, off, ext) == Parsed(w, off + |EncodeRecord(w, ext)|)
  {
    hide At, ReadFields, EncodeFields, FitFields, ReadIo, EncodeIo, FitsHeader, HeaderValues, FitsGroup, FitsVarGroup;
    var h := HeaderValues(w, ext);
    ValuesFit(w, ext);
    AtConcat(data, off, EncodeFields(h, HeaderWidths(ext)), EncodeIo(GroupsOf(w), ext));
    FieldsComplete(data, off, HeaderWidths(ext), h);
    assert |h| == 10;
    IoComplete(data, off + |EncodeFields(h, HeaderWidths(ext))|, GroupsOf(w), ext);
  }

  lemma AllFitSnoc(ws: seq<WireRecord>, w: WireRecord, ext: bool)
    ensures AllFit(ws + [w], ext) <==> AllFit(ws, ext) && Fits(w, ext)
    ensures AllFit(ws + [w], ext) ==> EncodeRecords(ws + [w], ext) == EncodeRecords(ws, ext) + EncodeRecord(w, ext)
  {
    hide Fits, EncodeRecord;
    assert (ws + [w])[..|ws|] == ws;
    assert forall x :: x in ws + [w] <==> x in ws || x == w;
  }

  lemma ReadRecordsNone(data: seq<byte>, off: nat, ext: bool)
    ensures ReadRecords(data, off, 0, ext) == (if off <= |data| then Parsed([], off) else Short)
    ensures AllFit([], ext) && EncodeRecords([], ext) == []
    ensures At(data, off, []) <==> off <= |data|
  {}

  lemma ReadRecordsSnoc(data: seq<byte>, off: nat, n: nat, ext: bool)
    requires n > 0
    ensures var p := ReadRecords(data, off, n - 1, ext);
      ReadRecords(data, off, n, ext) ==
        if p.Short? || ReadRecord(data, p.next, ext).Short? then Short
        else Parsed(p.value + [ReadRecord(data, p.next, ext).value], ReadRecord(data, p.next, ext).next)
  {}

  lemma {:induction false} RecordsSound(data: seq<byte>, off: nat, n: nat, ext: bool)
    requires ReadRecords(data, off, n, ext).Parsed?
    ensures var Parsed(ws, next) := ReadRecords(data, off, n, ext);
      AllFit(ws, ext) && At(data, off, EncodeRecords(ws, ext)) && next == off + |EncodeRecords(ws, ext)|
    decreases n
  {
    hide *;
    if n == 0 {
      ReadRecordsNone(data, off, ext);
    } else {
      ReadRecordsSnoc(data, off, n, ext);
      RecordsSound(data, off, n - 1, ext);
      var Parsed(init, o) := ReadRecords(data, off, n - 1, ext);
      RecordSound(data, o, ext);
      var Parsed(w, next) := ReadRecord(data, o, ext);
      assert ReadRecords(data, off, n, ext) == Parsed(init + [w], next);
      AllFitSnoc(init, w, ext);
      AtConcat(data, off, EncodeRecords(init, ext), EncodeRecord(w, ext));
    }
  }

  lemma {:induction false} RecordsComplete(data: seq<byte>, off: nat, ext: bool, ws: seq<WireRecord>)
    requires AllFit(ws, ext) && At(data, off, EncodeRecords(ws, ext))
    ensures ReadRecords(data, off, |ws|, ext) == Parsed(ws, off + |EncodeRecords(ws, ext)|)
    decreases |ws|
  {
    hide *;
    if ws == [] {
      ReadRecordsNone(data, off, ext);
    } else {
      ReadRecordsSnoc(data, off, |ws|, ext);
      var init, w := ws[..|ws| - 1], ws[|ws| - 1];
      assert ws == init + [w];
      AllFitSnoc(init, w, ext);
      AtConcat(data, off, EncodeRecords(init, ext), EncodeRecord(w, ext));
      RecordsComplete(data, off, ext, init);
      var o := off + |EncodeRecords(init, ext)|;
      RecordComplete(data, o, ext, w);
      assert ReadRecords(data, off, |ws| - 1, ext) == Parsed(init, o);
      assert ReadRecords(data, off, |ws|, ext) == Parsed(ws, o + |EncodeRecord(w, ext)|);
    }
  }

  // ---- The theorems --------------------------------------------------------------

  /** data begins with the layout of these records under this codec. */
  predicate Carries(data: seq<byte>, codec: nat, ws: seq<WireRecord>) {
    Sendable(codec, ws) && At(data, 0, EncodeArray(codec, ws))
  }

  lemma CarriesIff(data: seq<byte>, codec: nat, ws: seq<WireRecord>)
    requires Sendable(codec, ws)
    ensures var body := EncodeRecords(ws, codec == CODEC_8_EXT);
      Carries(data, codec, ws) <==>
        |data| > 2 + |body| && data[0] == codec && data[1] == |ws| && At(data, 2, body) && data[2 + |body|] == |ws|
  {
    hide EncodeRecords, AllFit, BE;
    var body := EncodeRecords(ws, codec == CODEC_8_EXT);
    var n := |ws|;
    assert BE(codec, 1) == [codec] && BE(n, 1) == [n] by { OneByte(codec); OneByte(n); }
    AtConcat(data, 0, [codec], [n] + (body + [n]));
    AtConcat(data, 1, [n], body + [n]);
    AtConcat(data, 2, body, [n]);
  }

  lemma OneByte(b: byte)
    ensures BE(b, 1) == [b]
  {}

  /** Decoding the layout of a list of records gives back that list, whatever follows it. */
  lemma RoundTrip(codec: nat, ws: seq<WireRecord>, tail: seq<byte>)
    requires Sendable(codec, ws)
    ensures Decode(EncodeArray(codec, ws) + tail) == Ok(DecodedAvl(codec, |ws|, ViewAll(ws)))
  {
    var data := EncodeArray(codec, ws) + tail;
    assert Carries(data, codec, ws);
    DecodesWhatItCarries(data, codec, ws);
  }

  lemma DecodesWhatItCarries(data: seq<byte>, codec: nat, ws: seq<WireRecord>)
    requires Carries(data, codec, ws)
    ensures ReadArray(data) == Ok(ws)
    ensures Decode(data) == Ok(DecodedAvl(codec, |ws|, ViewAll(ws)))
  {
    hide At, EncodeRecords, ReadRecords, EncodeArray, AllFit, Fits, ViewAll;
    CarriesIff(data, codec, ws);
    RecordsComplete(data, 2, codec == CODEC_8_EXT, ws);
  }

  /** A successful decode consumed a layout: no field, count or variable element was cut short. */
  lemma DecodeIsSound(data: seq<byte>)
    requires Decode(data).Ok?
    ensures ReadArray(data).Ok?
    ensures var ws := ReadArray(data).value;
      Carries(data, data[0], ws) && Decode(data) == Ok(DecodedAvl(data[0], |ws|, ViewAll(ws)))
  {
    hide At, EncodeRecords, ReadRecords, EncodeArray, AllFit, Fits, ViewAll;
    var ext := data[0] == CODEC_8_EXT;
    RecordsSound(data, 2, data[1], ext);
    CarriesIff(data, data[0], ReadArray(data).value);
  }

  /** Decoding succeeds exactly on the byte strings that begin with a layout. */
  lemma DecodeIff(data: seq<byte>)
    ensures Decode(data).Ok? <==> exists codec, ws :: Carries(data, codec, ws)
  {
    if Decode(data).Ok? {
      DecodeIsSound(data);
    }
    forall codec, ws | Carries(data, codec, ws)
      ensures Decode(data).Ok?
    {
      DecodesWhatItCarries(data, codec, ws);
    }
  }

  /** A byte string carries at most one list of records. */
  lemma CarriesOne(data: seq<byte>, c1: nat, ws1: seq<WireRecord>, c2: nat, ws2: seq<WireRecord>)
    requires Carries(data, c1, ws1) && Carries(data, c2, ws2)
    ensures c1 == c2 && ws1 == ws2
  {
    DecodesWhatItCarries(data, c1, ws1);
    DecodesWhatItCarries(data, c2, ws2);
  }
}
