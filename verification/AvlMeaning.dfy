/**
  What a decoded AVL array says, in terms of its bytes: which byte positions hold which field of which record, and which
  of several elements with the same id counts. Nothing here is stated through the encoder or the decoder's own functions.
 */
module AvlMeaning {
  import opened Bytes
  import opened Avl

  // ---- Records, field by field ------------------------------------------------------------------

  /** Element j is the last one with its id. */
  predicate LastAt<V>(es: seq<(nat, V)>, j: nat) {
    j < |es| && forall k :: j < k < |es| ==> es[k].0 != es[j].0
  }

  predicate Occurs<V>(es: seq<(nat, V)>, id: nat) { exists j :: 0 <= j < |es| && es[j].0 == id }

  /** m has exactly the ids of es, each with the value of its last occurrence. */
  ghost predicate Means<V>(m: map<nat, V>, es: seq<(nat, V)>) {
    && (forall id: nat :: id in m <==> Occurs(es, id))
    && (forall j: nat :: LastAt(es, j) ==> es[j].0 in m && m[es[j].0] == es[j].1)
  }

  lemma OccursSnoc<V>(es: seq<(nat, V)>, e: (nat, V), id: nat)
    ensures Occurs(es + [e], id) <==> Occurs(es, id) || e.0 == id
  {
    var all := es + [e];
    if Occurs(es, id) {
      var j :| 0 <= j < |es| && es[j].0 == id;
      assert all[j].0 == id;
    }
    if e.0 == id { assert all[|es|].0 == id; }
  }

  lemma LastSnoc<V>(es: seq<(nat, V)>, e: (nat, V), j: nat)
    requires LastAt(es + [e], j) && j < |es|
    ensures LastAt(es, j) && es[j].0 != e.0 && (es + [e])[j] == es[j]
  {
    var all := es + [e];
    assert all[|es|].0 != all[j].0;
    assert forall k :: j < k < |es| ==> all[k] == es[k];
  }

  lemma MeansSnoc<V>(m: map<nat, V>, es: seq<(nat, V)>, e: (nat, V))
    requires Means(m, es)
    ensures Means(m[e.0 := e.1], es + [e])
  {
    hide Occurs, LastAt;
    var m', all := m[e.0 := e.1], es + [e];
    forall id: nat ensures id in m' <==> Occurs(all, id) { OccursSnoc(es, e, id); }
    forall j: nat | LastAt(all, j)
      ensures j < |all| && all[j].0 in m' && m'[all[j].0] == all[j].1
    {
      assert j < |all| by { InList(all, j); }
      if j < |es| { LastSnoc(es, e, j); }
    }
  }

  lemma InList<V>(es: seq<(nat, V)>, j: nat)
    requires LastAt(es, j)
    ensures j < |es|
  {}

  lemma NothingMeans<V>()
    ensures Means<V>(map[], [])
  {}

  lemma {:induction false} OverlayMeans<V>(es: seq<(nat, V)>)
    ensures Means(Overlay(map[], es), es)
    decreases |es|
  {
    hide Means;
    if es == [] {
      NothingMeans<V>();
    } else {
      var init, e := es[..|es| - 1], es[|es| - 1];
      OverlayMeans(init);
      MeansSnoc(Overlay(map[], init), init, e);
      assert es == init + [e];
    }
  }

  lemma {:induction false} OverlayConcat<V>(m: map<nat, V>, a: seq<(nat, V)>, b: seq<(nat, V)>)
    ensures Overlay(Overlay(m, a), b) == Overlay(m, a + b)
    decreases |b|
  {
    if b == [] {
      assert a + b == a;
    } else {
      OverlayConcat(m, a, b[..|b| - 1]);
      assert (a + b)[..|a + b| - 1] == a + b[..|b| - 1];
    }
  }

  /** The decoded record r says what the record w on the wire says. */
  ghost predicate Says(r: AvlRecord, w: WireRecord) {
    && r.timestamp == w.timestamp && r.priority == w.priority
    && r.gps.longitude == w.gps.longitude && r.gps.latitude == w.gps.latitude && r.gps.altitude == w.gps.altitude
    && r.gps.angle == w.gps.angle && r.gps.satellites == w.gps.satellites && r.gps.speed == w.gps.speed
    && r.io.eventId == w.eventId
    && Means(r.io.values, w.io1 + w.io2 + w.io4 + w.io8)
    && (r.io.variable == None <==> w.variable == [])
    && (r.io.variable.Some? ==> Means(r.io.variable.value, w.variable))
  }

  lemma ViewSays(w: WireRecord)
    ensures Says(View(w), w)
  {
    hide Overlay, Means;
    OverlayConcat(map[], w.io1, w.io2);
    OverlayConcat(map[], w.io1 + w.io2, w.io4);
    OverlayConcat(map[], w.io1 + w.io2 + w.io4, w.io8);
    OverlayMeans(w.io1 + w.io2 + w.io4 + w.io8);
    OverlayMeans(w.variable);
  }

  // ---- Records, byte by byte --------------------------------------------------------------------

  /** The big-endian number in bytes [i, j) of data. */
  function Num(data: seq<byte>, i: nat, j: nat): nat
    requires i <= j <= |data|
  {
    Val(data[i..j])
  }

  /** Two's complement numbers of four and of two bytes. */
  function Int32(v: nat): int { if v >= 0x8000_0000 then v - 0x1_0000_0000 else v }

  function Int16(v: nat): int { if v >= 0x8000 then v - 0x1_0000 else v }

  /** The ten fixed fields of a record at off; ids and counts take idw bytes. */
  predicate HeaderAt(data: seq<byte>, off: nat, w: WireRecord, idw: nat) {
    && off + 24 + 2 * idw <= |data|
    && w.timestamp == Num(data, off, off + 8) && w.priority == data[off + 8]
    && w.gps.longitude == Int32(Num(data, off + 9, off + 13)) && w.gps.latitude == Int32(Num(data, off + 13, off + 17))
    && w.gps.altitude == Int16(Num(data, off + 17, off + 19)) && w.gps.angle == Num(data, off + 19, off + 21)
    && w.gps.satellites == data[off + 21] && w.gps.speed == Num(data, off + 22, off + 24)
    && w.eventId == Num(data, off + 24, off + 24 + idw) && w.totalIo == Num(data, off + 24 + idw, off + 24 + 2 * idw)
  }

  /** n id and value pairs from off to end, each id in idw bytes and each value in width bytes. */
  predicate PairsAt(data: seq<byte>, off: nat, es: seq<Element>, idw: nat, width: nat, end: nat)
    decreases |es|
  {
    if es == [] then end == off && off <= |data| else
      var at, e := off + idw + width, es[0];
      at <= |data| && e.0 == Num(data, off, off + idw) && e.1 == Num(data, off + idw, at) && PairsAt(data, at, es[1..], idw, width, end)
  }

  /** A count and as many pairs. */
  predicate GroupAt(data: seq<byte>, off: nat, es: seq<Element>, idw: nat, width: nat, end: nat) {
    off + idw <= |data| && |es| == Num(data, off, off + idw) && PairsAt(data, off + idw, es, idw, width, end)
  }

  /** Variable elements from off to end: an id, a length, and as many bytes. */
  predicate PayloadsAt(data: seq<byte>, off: nat, vs: seq<VarElement>, end: nat)
    decreases |vs|
  {
    if vs == [] then end == off && off <= |data| else
      var v := vs[0];
      && off + 4 <= |data| && v.0 == Num(data, off, off + 2) && |v.1| == Num(data, off + 2, off + 4)
      && off + 4 + |v.1| <= |data| && v.1 == data[off + 4..off + 4 + |v.1|]
      && PayloadsAt(data, off + 4 + |v.1|, vs[1..], end)
  }

  predicate VariableAt(data: seq<byte>, off: nat, vs: seq<VarElement>, ext: bool, end: nat) {
    if ext then off + 2 <= |data| && |vs| == Num(data, off, off + 2) && PayloadsAt(data, off + 2, vs, end)
    else vs == [] && end == off && off <= |data|
  }

  /** The groups of 1, 2, 4 and 8 byte values, then the variable elements. */
  ghost predicate IoAt(data: seq<byte>, off: nat, w: WireRecord, ext: bool, idw: nat, end: nat) {
    exists e1: nat, e2: nat, e4: nat, e8: nat ::
      && GroupAt(data, off, w.io1, idw, 1, e1) && GroupAt(data, e1, w.io2, idw, 2, e2)
      && GroupAt(data, e2, w.io4, idw, 4, e4) && GroupAt(data, e4, w.io8, idw, 8, e8)
      && VariableAt(data, e8, w.variable, ext, end)
  }

  /** Record w stands in bytes [off, end) of data; ids and counts take two bytes in the extended codec, else one. */
  ghost predicate RecordAt(data: seq<byte>, off: nat, w: WireRecord, ext: bool, end: nat) {
    var idw := if ext then 2 else 1;
    HeaderAt(data, off, w, idw) && IoAt(data, off + 24 + 2 * idw, w, ext, idw, end)
  }

  lemma NumOf(data: seq<byte>, off: nat, v: nat, w: nat)
    requires At(data, off, BE(v, w)) && v < Pow256(w)
    ensures off + w <= |data| && Num(data, off, off + w) == v
  {
    ValOfBE(v, w);
  }

  lemma SignedNum(v: int)
    ensures InSigned(v, 4) ==> Int32(Unsigned(v, 4)) == v
    ensures InSigned(v, 2) ==> Int16(Unsigned(v, 2)) == v
  {
    Pow256Values();
  }

  lemma FieldsCons(vs: seq<nat>, ws: seq<nat>)
    requires |vs| == |ws| > 0
    ensures EncodeFields(vs, ws) == BE(vs[0], ws[0]) + EncodeFields(vs[1..], ws[1..])
  {}

  lemma FieldsAt(data: seq<byte>, off: nat, vs: seq<nat>, ws: seq<nat>)
    requires |vs| == |ws| > 0 && At(data, off, EncodeFields(vs, ws)) && vs[0] < Pow256(ws[0])
    ensures off + ws[0] <= |data| && Num(data, off, off + ws[0]) == vs[0]
    ensures At(data, off + ws[0], EncodeFields(vs[1..], ws[1..]))
  {
    hide BE, Pow256, EncodeFields, At, Val;
    FieldsCons(vs, ws);
    AtConcat(data, off, BE(vs[0], ws[0]), EncodeFields(vs[1..], ws[1..]));
    NumOf(data, off, vs[0], ws[0]);
  }

  /** The numbers of the ten fields, at their offsets. */
  predicate NumsAt(data: seq<byte>, off: nat, vs: seq<nat>, idw: nat)
    requires |vs| == 10
  {
    && off + 24 + 2 * idw <= |data|
    && Num(data, off, off + 8) == vs[0] && Num(data, off + 8, off + 9) == vs[1]
    && Num(data, off + 9, off + 13) == vs[2] && Num(data, off + 13, off + 17) == vs[3]
    && Num(data, off + 17, off + 19) == vs[4] && Num(data, off + 19, off + 21) == vs[5]
    && Num(data, off + 21, off + 22) == vs[6] && Num(data, off + 22, off + 24) == vs[7]
    && Num(data, off + 24, off + 24 + idw) == vs[8] && Num(data, off + 24 + idw, off + 24 + 2 * idw) == vs[9]
  }

  lemma Widths(ext: bool)
    ensures var ws := HeaderWidths(ext); var idw := if ext then 2 else 1;
      && |ws| == 10 && ws[0] == 8 && ws[1] == 1 && ws[2] == 4 && ws[3] == 4 && ws[4] == 2
      && ws[5] == 2 && ws[6] == 1 && ws[7] == 2 && ws[8] == idw && ws[9] == idw
  {}

  /** Field k, of the given width, stands at off, and the fields after it behind it. */
  lemma FieldsFrom(data: seq<byte>, vs: seq<nat>, ws: seq<nat>, k: nat, off: nat, width: nat)
    requires |vs| == |ws| && k < |ws| && ws[k] == width
    requires At(data, off, EncodeFields(vs[k..], ws[k..])) && vs[k] < Pow256(ws[k])
    ensures off + width <= |data| && Num(data, off, off + width) == vs[k]
    ensures At(data, off + width, EncodeFields(vs[k + 1..], ws[k + 1..]))
  {
    hide EncodeFields, Pow256, Num, At;
    FieldsAt(data, off, vs[k..], ws[k..]);
    assert vs[k..][1..] == vs[k + 1..] && ws[k..][1..] == ws[k + 1..];
  }

  lemma FirstNums(data: seq<byte>, off: nat, vs: seq<nat>, ws: seq<nat>)
    requires |vs| == |ws| == 10 && (forall k :: 0 <= k < 10 ==> vs[k] < Pow256(ws[k]))
    requires ws[0] == 8 && ws[1] == 1 && ws[2] == 4 && ws[3] == 4
    requires At(data, off, EncodeFields(vs, ws))
    ensures off + 17 <= |data| && At(data, off + 17, EncodeFields(vs[4..], ws[4..]))
    ensures Num(data, off, off + 8) == vs[0] && Num(data, off + 8, off + 9) == vs[1]
    ensures Num(data, off + 9, off + 13) == vs[2] && Num(data, off + 13, off + 17) == vs[3]
  {
    hide EncodeFields, Pow256, Num, At;
    assert vs[0..] == vs && ws[0..] == ws;
    FieldsFrom(data, vs, ws, 0, off, 8);
    FieldsFrom(data, vs, ws, 1, off + 8, 1);
    FieldsFrom(data, vs, ws, 2, off + 9, 4);
    FieldsFrom(data, vs, ws, 3, off + 13, 4);
  }

  lemma LastNums(data: seq<byte>, off: nat, vs: seq<nat>, ws: seq<nat>, idw: nat)
    requires |vs| == |ws| == 10 && (forall k :: 0 <= k < 10 ==> vs[k] < Pow256(ws[k]))
    requires ws[4] == 2 && ws[5] == 2 && ws[6] == 1 && ws[7] == 2 && ws[8] == idw && ws[9] == idw
    requires At(data, off, EncodeFields(vs[4..], ws[4..]))
    ensures off + 7 + 2 * idw <= |data|
    ensures Num(data, off, off + 2) == vs[4] && Num(data, off + 2, off + 4) == vs[5]
    ensures Num(data, off + 4, off + 5) == vs[6] && Num(data, off + 5, off + 7) == vs[7]
    ensures Num(data, off + 7, off + 7 + idw) == vs[8] && Num(data, off + 7 + idw, off + 7 + 2 * idw) == vs[9]
  {
    hide EncodeFields, Pow256, Num, At;
    FieldsFrom(data, vs, ws, 4, off, 2);
    FieldsFrom(data, vs, ws, 5, off + 2, 2);
    FieldsFrom(data, vs, ws, 6, off + 4, 1);
    FieldsFrom(data, vs, ws, 7, off + 5, 2);
    FieldsFrom(data, vs, ws, 8, off + 7, idw);
    FieldsFrom(data, vs, ws, 9, off + 7 + idw, idw);
  }

  lemma NumsStand(data: seq<byte>, off: nat, vs: seq<nat>, ext: bool)
    requires |vs| == 10 && |HeaderWidths(ext)| == 10 && (forall k :: 0 <= k < 10 ==> vs[k] < Pow256(HeaderWidths(ext)[k]))
    requires At(data, off, EncodeFields(vs, HeaderWidths(ext)))
    ensures NumsAt(data, off, vs, if ext then 2 else 1)
  {
    hide EncodeFields, Pow256, Num, At, HeaderWidths;
    Widths(ext);
    FirstNums(data, off, vs, HeaderWidths(ext));
    LastNums(data, off + 17, vs, HeaderWidths(ext), if ext then 2 else 1);
  }

  lemma HeaderFits(w: WireRecord, ext: bool)
    requires FitsHeader(w, ext)
    ensures var vs := HeaderValues(w, ext); |vs| == 10 && forall k :: 0 <= k < 10 ==> vs[k] < Pow256(HeaderWidths(ext)[k])
    ensures Int32(HeaderValues(w, ext)[2]) == w.gps.longitude && Int32(HeaderValues(w, ext)[3]) == w.gps.latitude
    ensures Int16(HeaderValues(w, ext)[4]) == w.gps.altitude
  {
    SignedNum(w.gps.longitude);
    SignedNum(w.gps.latitude);
    SignedNum(w.gps.altitude);
  }

  lemma HeaderStands(data: seq<byte>, off: nat, w: WireRecord, ext: bool)
    requires FitsHeader(w, ext) && At(data, off, EncodeFields(HeaderValues(w, ext), HeaderWidths(ext)))
    ensures HeaderAt(data, off, w, if ext then 2 else 1)
  {
    hide EncodeFields, Pow256, Num, At, HeaderWidths, Unsigned, Int32, Int16;
    HeaderFits(w, ext);
    Widths(ext);
    NumsStand(data, off, HeaderValues(w, ext), ext);
    OneByteNum(data, off + 8);
    OneByteNum(data, off + 21);
  }

  lemma OneByteNum(data: seq<byte>, i: nat)
    requires i < |data|
    ensures Num(data, i, i + 1) == data[i]
  {
    var s := data[i..i + 1];
    assert s[..0] == [] && Val([]) == 0;
    assert Val(s) == 256 * Val(s[..0]) + s[0];
  }

  lemma OneElement(e: Element, idw: nat, w: nat)
    ensures EncodeElements([e], idw, w) == EncodeElement(e, idw, w) && EncodeElements([], idw, w) == []
  {
    assert [e][..0] == [];
  }

  lemma {:induction false} ElementsCons(e: Element, es: seq<Element>, idw: nat, w: nat)
    ensures EncodeElements([e] + es, idw, w) == EncodeElement(e, idw, w) + EncodeElements(es, idw, w)
    decreases |es|
  {
    hide EncodeElement;
    var all := [e] + es;
    if es == [] {
      OneElement(e, idw, w);
      assert all == [e];
    } else {
      var init, last := es[..|es| - 1], EncodeElement(es[|es| - 1], idw, w);
      ElementsCons(e, init, idw, w);
      assert all[..|all| - 1] == [e] + init && all[|all| - 1] == es[|es| - 1];
      assert EncodeElements(all, idw, w) == (EncodeElement(e, idw, w) + EncodeElements(init, idw, w)) + last;
    }
  }

  lemma PairsCons(data: seq<byte>, off: nat, e: Element, rest: seq<Element>, idw: nat, w: nat, end: nat)
    requires off + idw + w <= |data| && e.0 == Num(data, off, off + idw) && e.1 == Num(data, off + idw, off + idw + w)
    requires PairsAt(data, off + idw + w, rest, idw, w, end)
    ensures PairsAt(data, off, [e] + rest, idw, w, end)
  {
    assert ([e] + rest)[1..] == rest;
  }

  lemma FitsRest(e: Element, rest: seq<Element>, idw: nat, w: nat)
    requires FitsElements([e] + rest, idw, w)
    ensures e.0 < Pow256(idw) && e.1 < Pow256(w) && FitsElements(rest, idw, w)
  {
    hide Pow256;
    var all := [e] + rest;
    assert e in all && forall x :: x in rest ==> x in all;
  }

  lemma {:induction false} PairsStand(data: seq<byte>, off: nat, es: seq<Element>, idw: nat, w: nat)
    requires FitsElements(es, idw, w) && At(data, off, EncodeElements(es, idw, w))
    ensures PairsAt(data, off, es, idw, w, off + |EncodeElements(es, idw, w)|)
    decreases |es|
  {
    hide BE, Pow256, FitsElements, Num;
    if es != [] {
      hide EncodeElements, PairsAt, At;
      var e, rest := es[0], es[1..];
      assert es == [e] + rest;
      FitsRest(e, rest, idw, w);
      ElementsCons(e, rest, idw, w);
      AtConcat(data, off, EncodeElement(e, idw, w), EncodeElements(rest, idw, w));
      AtConcat(data, off, BE(e.0, idw), BE(e.1, w));
      NumOf(data, off, e.0, idw);
      NumOf(data, off + idw, e.1, w);
      PairsStand(data, off + idw + w, rest, idw, w);
      PairsCons(data, off, e, rest, idw, w, off + |EncodeElements(es, idw, w)|);
    }
  }

  lemma GroupStands(data: seq<byte>, off: nat, es: seq<Element>, idw: nat, w: nat)
    requires FitsGroup(es, idw, w) && At(data, off, EncodeGroup(es, idw, w))
    ensures GroupAt(data, off, es, idw, w, off + |EncodeGroup(es, idw, w)|)
  {
    hide EncodeElements, BE, Pow256, FitsElements;
    AtConcat(data, off, BE(|es|, idw), EncodeElements(es, idw, w));
    NumOf(data, off, |es|, idw);
    PairsStand(data, off + idw, es, idw, w);
  }

  lemma OneVar(v: VarElement)
    ensures EncodeVars([v]) == EncodeVar(v) && EncodeVars([]) == []
  {
    hide EncodeVar;
    assert [v][..0] == [];
  }

  lemma {:induction false} VarsCons(v: VarElement, vs: seq<VarElement>)
    ensures EncodeVars([v] + vs) == EncodeVar(v) + EncodeVars(vs)
    decreases |vs|
  {
    hide EncodeVar;
    var all := [v] + vs;
    if vs == [] {
      OneVar(v);
      assert all == [v];
    } else {
      var init, last := vs[..|vs| - 1], EncodeVar(vs[|vs| - 1]);
      VarsCons(v, init);
      assert all[..|all| - 1] == [v] + init && all[|all| - 1] == vs[|vs| - 1];
      assert EncodeVars(all) == (EncodeVar(v) + EncodeVars(init)) + last;
    }
  }

  lemma PayloadsCons(data: seq<byte>, off: nat, v: VarElement, rest: seq<VarElement>, end: nat)
    requires off + 4 + |v.1| <= |data| && v.0 == Num(data, off, off + 2) && |v.1| == Num(data, off + 2, off + 4)
    requires v.1 == data[off + 4..off + 4 + |v.1|] && PayloadsAt(data, off + 4 + |v.1|, rest, end)
    ensures PayloadsAt(data, off, [v] + rest, end)
  {
    hide Num;
    assert ([v] + rest)[1..] == rest;
  }

  lemma Stands(data: seq<byte>, off: nat, bs: seq<byte>)
    requires At(data, off, bs)
    ensures off + |bs| <= |data| && bs == data[off..off + |bs|]
  {}

  lemma FitsVarsRest(v: VarElement, rest: seq<VarElement>)
    requires FitsVars([v] + rest)
    ensures v.0 < Pow256(2) && |v.1| < Pow256(2) && FitsVars(rest)
  {
    hide Pow256;
    var all := [v] + rest;
    assert v in all && forall x :: x in rest ==> x in all;
  }

  lemma PayloadStands(data: seq<byte>, off: nat, v: VarElement)
    requires v.0 < Pow256(2) && |v.1| < Pow256(2) && At(data, off, EncodeVar(v))
    ensures |EncodeVar(v)| == 4 + |v.1|
    ensures off + 4 + |v.1| <= |data| && v.0 == Num(data, off, off + 2) && |v.1| == Num(data, off + 2, off + 4)
    ensures v.1 == data[off + 4..off + 4 + |v.1|]
  {
    hide BE, Pow256, Num, At;
    AtConcat(data, off, BE(v.0, 2), BE(|v.1|, 2) + v.1);
    AtConcat(data, off + 2, BE(|v.1|, 2), v.1);
    NumOf(data, off, v.0, 2);
    NumOf(data, off + 2, |v.1|, 2);
    Stands(data, off + 4, v.1);
  }

  lemma {:induction false} PayloadsStand(data: seq<byte>, off: nat, vs: seq<VarElement>)
    requires FitsVars(vs) && At(data, off, EncodeVars(vs))
    ensures PayloadsAt(data, off, vs, off + |EncodeVars(vs)|)
    decreases |vs|
  {
    hide BE, Pow256, FitsVars, Num;
    if vs != [] {
      hide EncodeVars, EncodeVar, PayloadsAt, At;
      var v, rest := vs[0], vs[1..];
      assert vs == [v] + rest;
      FitsVarsRest(v, rest);
      VarsCons(v, rest);
      AtConcat(data, off, EncodeVar(v), EncodeVars(rest));
      PayloadStands(data, off, v);
      PayloadsStand(data, off + 4 + |v.1|, rest);
      PayloadsCons(data, off, v, rest, off + |EncodeVars(vs)|);
    }
  }

  lemma VariableStands(data: seq<byte>, off: nat, vs: seq<VarElement>, ext: bool)
    requires FitsVarGroup(vs, ext) && At(data, off, EncodeVarGroup(vs, ext))
    ensures VariableAt(data, off, vs, ext, off + |EncodeVarGroup(vs, ext)|)
  {
    hide EncodeVars, BE, Pow256, FitsVars;
    if ext {
      AtConcat(data, off, BE(|vs|, 2), EncodeVars(vs));
      NumOf(data, off, |vs|, 2);
      PayloadsStand(data, off + 2, vs);
    }
  }

  lemma {:induction false} FieldsLength(vs: seq<nat>, ws: seq<nat>)
    requires |vs| == |ws|
    ensures |EncodeFields(vs, ws)| == Total(ws)
  {
    if vs != [] { FieldsLength(vs[1..], ws[1..]); }
  }

  function Total(ws: seq<nat>): nat { if ws == [] then 0 else ws[0] + Total(ws[1..]) }

  lemma {:induction false} TotalSnoc(ws: seq<nat>, w: nat)
    ensures Total(ws + [w]) == Total(ws) + w
  {
    if ws == [] {
      assert ws + [w] == [w] && [w][1..] == [];
    } else {
      TotalSnoc(ws[1..], w);
      assert (ws + [w])[1..] == ws[1..] + [w];
    }
  }

  lemma HeaderLength(ext: bool)
    ensures Total(HeaderWidths(ext)) == 24 + 2 * if ext then 2 else 1
  {
    hide Total;
    var i := IdWidth(ext);
    assert Total([]) == 0 by { NoTotal(); }
    TotalSnoc([], 8);
    assert [] + [8] == [8];
    TotalSnoc([8], 1);
    assert [8] + [1] == [8, 1];
    TotalSnoc([8, 1], 4);
    assert [8, 1] + [4] == [8, 1, 4];
    TotalSnoc([8, 1, 4], 4);
    assert [8, 1, 4] + [4] == [8, 1, 4, 4];
    TotalSnoc([8, 1, 4, 4], 2);
    assert [8, 1, 4, 4] + [2] == [8, 1, 4, 4, 2];
    TotalSnoc([8, 1, 4, 4, 2], 2);
    assert [8, 1, 4, 4, 2] + [2] == [8, 1, 4, 4, 2, 2];
    TotalSnoc([8, 1, 4, 4, 2, 2], 1);
    assert [8, 1, 4, 4, 2, 2] + [1] == [8, 1, 4, 4, 2, 2, 1];
    TotalSnoc([8, 1, 4, 4, 2, 2, 1], 2);
    assert [8, 1, 4, 4, 2, 2, 1] + [2] == [8, 1, 4, 4, 2, 2, 1, 2];
    TotalSnoc([8, 1, 4, 4, 2, 2, 1, 2], i);
    assert [8, 1, 4, 4, 2, 2, 1, 2] + [i] == [8, 1, 4, 4, 2, 2, 1, 2, i];
    TotalSnoc([8, 1, 4, 4, 2, 2, 1, 2, i], i);
    assert [8, 1, 4, 4, 2, 2, 1, 2, i] + [i] == [8, 1, 4, 4, 2, 2, 1, 2, i, i];
  }

  lemma NoTotal()
    ensures Total([]) == 0
  {}

  lemma IoParts(w: WireRecord, ext: bool)
    ensures var idw := if ext then 2 else 1;
      EncodeIo(GroupsOf(w), ext) == EncodeGroup(w.io1, idw, 1) + (EncodeGroup(w.io2, idw, 2) + (EncodeGroup(w.io4, idw, 4) +
        (EncodeGroup(w.io8, idw, 8) + EncodeVarGroup(w.variable, ext))))
  {
    hide EncodeGroup, EncodeVarGroup;
  }

  lemma IoStands(data: seq<byte>, off: nat, w: WireRecord, ext: bool)
    requires Fits(w, ext) && At(data, off, EncodeIo(GroupsOf(w), ext))
    ensures IoAt(data, off, w, ext, if ext then 2 else 1, off + |EncodeIo(GroupsOf(w), ext)|)
  {
    hide EncodeIo, EncodeGroup, EncodeVarGroup, FitsGroup, FitsVarGroup, FitsHeader, GroupAt, VariableAt, IoAt, At;
    var idw := if ext then 2 else 1;
    IoParts(w, ext);
    var g1, g2, g4, g8, gv := EncodeGroup(w.io1, idw, 1), EncodeGroup(w.io2, idw, 2), EncodeGroup(w.io4, idw, 4),
      EncodeGroup(w.io8, idw, 8), EncodeVarGroup(w.variable, ext);
    var e1 := off + |g1|;
    var e2 := e1 + |g2|;
    var e4 := e2 + |g4|;
    var e8 := e4 + |g8|;
    AtConcat(data, off, g1, g2 + (g4 + (g8 + gv)));
    AtConcat(data, e1, g2, g4 + (g8 + gv));
    AtConcat(data, e2, g4, g8 + gv);
    AtConcat(data, e4, g8, gv);
    GroupStands(data, off, w.io1, idw, 1);
    GroupStands(data, e1, w.io2, idw, 2);
    GroupStands(data, e2, w.io4, idw, 4);
    GroupStands(data, e4, w.io8, idw, 8);
    VariableStands(data, e8, w.variable, ext);
    IoWitness(data, off, w, ext, idw, e1, e2, e4, e8, e8 + |gv|);
  }

  lemma IoWitness(data: seq<byte>, off: nat, w: WireRecord, ext: bool, idw: nat, e1: nat, e2: nat, e4: nat, e8: nat, end: nat)
    requires GroupAt(data, off, w.io1, idw, 1, e1) && GroupAt(data, e1, w.io2, idw, 2, e2)
    requires GroupAt(data, e2, w.io4, idw, 4, e4) && GroupAt(data, e4, w.io8, idw, 8, e8)
    requires VariableAt(data, e8, w.variable, ext, end)
    ensures IoAt(data, off, w, ext, idw, end)
  {}

  lemma HeaderEncoded(w: WireRecord, ext: bool)
    requires FitsHeader(w, ext)
    ensures |HeaderValues(w, ext)| == |HeaderWidths(ext)|
    ensures |EncodeFields(HeaderValues(w, ext), HeaderWidths(ext))| == 24 + 2 * if ext then 2 else 1
  {
    hide EncodeFields, Total;
    FieldsLength(HeaderValues(w, ext), HeaderWidths(ext));
    HeaderLength(ext);
  }

  lemma RecordStands(data: seq<byte>, off: nat, w: WireRecord, ext: bool)
    requires Fits(w, ext) && At(data, off, EncodeRecord(w, ext))
    ensures RecordAt(data, off, w, ext, off + |EncodeRecord(w, ext)|)
  {
    hide EncodeFields, EncodeIo, FitsGroup, FitsVarGroup, FitsHeader, HeaderValues, HeaderWidths, HeaderAt, IoAt, At;
    HeaderEncoded(w, ext);
    var h := EncodeFields(HeaderValues(w, ext), HeaderWidths(ext));
    AtConcat(data, off, h, EncodeIo(GroupsOf(w), ext));
    HeaderStands(data, off, w, ext);
    IoStands(data, off + |h|, w, ext);
    assert EncodeRecord(w, ext) == h + EncodeIo(GroupsOf(w), ext);
  }

  /** The records stand one after another, from offs[0] on. */
  ghost predicate RecordsAt(data: seq<byte>, ws: seq<WireRecord>, ext: bool, offs: seq<nat>) {
    |offs| == |ws| + 1 && forall i :: 0 <= i < |ws| ==> RecordAt(data, offs[i], ws[i], ext, offs[i + 1])
  }

  lemma {:induction false} RecordsStand(data: seq<byte>, off: nat, ws: seq<WireRecord>, ext: bool) returns (offs: seq<nat>)
    requires AllFit(ws, ext) && At(data, off, EncodeRecords(ws, ext))
    ensures RecordsAt(data, ws, ext, offs) && offs[0] == off && offs[|ws|] == off + |EncodeRecords(ws, ext)|
    decreases |ws|
  {
    hide RecordAt, Fits, EncodeRecord;
    if ws == [] {
      offs := [off];
    } else {
      var init, w := ws[..|ws| - 1], ws[|ws| - 1];
      assert AllFit(init, ext) by { assert forall x :: x in init ==> x in ws; }
      assert w in ws;
      AtConcat(data, off, EncodeRecords(init, ext), EncodeRecord(w, ext));
      var front := RecordsStand(data, off, init, ext);
      var at := off + |EncodeRecords(init, ext)|;
      RecordStands(data, at, w, ext);
      offs := front + [at + |EncodeRecord(w, ext)|];
      forall i | 0 <= i < |ws|
        ensures RecordAt(data, offs[i], ws[i], ext, offs[i + 1])
      {
        if i < |init| { assert init[i] == ws[i] && front[i] == offs[i] && front[i + 1] == offs[i + 1]; }
      }
    }
  }

  // ---- What a successful decode says ------------------------------------------------------------------

  /**
    A successful decode, from the bytes alone: the codec id, the count before and after, and between them that many
    records, each standing at its place and each returned with exactly what its bytes say.
   */
  lemma DecodeMeans(data: seq<byte>) returns (ws: seq<WireRecord>, offs: seq<nat>)
    requires Decode(data).Ok?
    ensures |data| > 2 && (data[0] == 0x08 || data[0] == 0x8e) && |ws| == data[1]
    ensures RecordsAt(data, ws, data[0] == 0x8e, offs) && offs[0] == 2 && offs[|ws|] < |data| && data[offs[|ws|]] == |ws|
    ensures var r := Decode(data).value;
      && r.codecId == data[0] && r.recordCount == |ws| && |r.records| == |ws|
      && forall i :: 0 <= i < |ws| ==> Says(r.records[i], ws[i])
  {
    hide Decode, ReadArray, Says, RecordsAt, Carries, EncodeRecords, AllFit, View;
    NotEmpty(data);
    DecodeIsSound(data);
    ws := ReadArray(data).value;
    CarriesSendable(data, ws);
    offs := RecordsStand(data, 2, ws, data[0] == CODEC_8_EXT);
    forall i | 0 <= i < |ws|
      ensures Says(View(ws[i]), ws[i])
    {
      ViewSays(ws[i]);
    }
  }

  lemma NotEmpty(data: seq<byte>)
    requires Decode(data).Ok?
    ensures |data| > 0
  {}

  lemma CarriesSendable(data: seq<byte>, ws: seq<WireRecord>)
    requires |data| > 0 && Carries(data, data[0], ws)
    ensures Sendable(data[0], ws)
    ensures var body := EncodeRecords(ws, data[0] == CODEC_8_EXT);
      |data| > 2 + |body| && data[1] == |ws| && At(data, 2, body) && data[2 + |body|] == |ws|
  {
    hide EncodeRecords, AllFit;
    CarriesIff(data, data[0], ws);
  }

  /** And every layout of records decodes to records that say the same, whatever follows it. */
  lemma LayoutMeans(codec: nat, ws: seq<WireRecord>, tail: seq<byte>)
    requires Sendable(codec, ws)
    ensures var r := Decode(EncodeArray(codec, ws) + tail);
      && r.Ok? && r.value.codecId == codec && r.value.recordCount == |ws| && |r.value.records| == |ws|
      && forall i :: 0 <= i < |ws| ==> Says(r.value.records[i], ws[i])
  {
    hide Decode, Says, Sendable, EncodeArray, View;
    RoundTrip(codec, ws, tail);
    forall i | 0 <= i < |ws|
      ensures Says(View(ws[i]), ws[i])
    {
      ViewSays(ws[i]);
    }
  }

  /** The errors: too short for its first two bytes, a codec that is refused, a read past the end, or two counts that differ. */
  lemma ErrorsMean(data: seq<byte>)
    ensures |data| < 2 ==> Decode(data) == Err(ShortRead)
    ensures |data| >= 2 && data[0] == 0x10 ==> Decode(data) == Err(Codec16Unsupported)
    ensures |data| >= 2 && data[0] != 0x10 && data[0] != 0x08 && data[0] != 0x8e ==> Decode(data) == Err(UnsupportedCodec)
    ensures |data| >= 2 && (data[0] == 0x08 || data[0] == 0x8e) ==>
      Decode(data).Ok? || Decode(data) == Err(ShortRead) || Decode(data) == Err(CountMismatch)
  {
    hide ReadRecords;
  }
}
