/**
  The sequential reader (reader.ts) and the decoder that drives it (codec8.ts), as they run:
  every read advances the offset, and Bytes silently clamps at the end of the buffer.
 */
module AvlDecoder {
  import opened Bytes
  import opened Avl

  class Reader {
    const buf: seq<byte>
    var offset: nat

    constructor (buf: seq<byte>)
      ensures this.buf == buf && offset == 0
    {
      this.buf := buf;
      offset := 0;
    }

    /** u8, u16, u32 and u64: None stands for the RangeError of a read past the end. */
    method Uint(w: nat) returns (r: Option<nat>)
      modifies this
      ensures match ReadUint(buf, old(offset), w)
        case Short => r == None
        case Parsed(v, next) => r == Some(v) && offset == next
    {
      if offset + w > |buf| {
        return None;
      }
      r := Some(Val(buf[offset..offset + w]));
      offset := offset + w;
    }

    /** bytes(n): subarray clamps, but the offset always advances by n. */
    method Take(n: nat) returns (v: seq<byte>)
      modifies this
      ensures offset == old(offset) + n
      ensures offset <= |buf| ==> v == buf[old(offset)..offset]
    {
      var lo := if offset < |buf| then offset else |buf|;
      var hi := if offset + n < |buf| then offset + n else |buf|;
      v := buf[lo..hi];
      offset := offset + n;
    }

    /** The loop of readGroup: n pairs of id and value stored into values. */
    method Elements(n: nat, idw: nat, w: nat, values: map<nat, nat>) returns (r: Option<map<nat, nat>>)
      requires offset <= |buf|
      modifies this
      ensures match ReadElements(buf, old(offset), n, idw, w)
        case Short => r == None
        case Parsed(es, next) => r == Some(Overlay(values, es)) && offset == next
    {
      hide ReadElements, ReadUint, Overlay;
      ghost var start, es := offset, [];
      var m := values;
      ReadElementsNone(buf, start, idw, w);
      OverlayNone(values);
      for i := 0 to n
        invariant ReadElements(buf, start, i, idw, w) == Parsed(es, offset)
        invariant m == Overlay(values, es)
      {
        ReadElementsSnoc(buf, start, i + 1, idw, w);
        ReadElementsShort(buf, start, i + 1, n, idw, w);
        var id := Uint(idw);
        if id == None {
          return None;
        }
        var v := Uint(w);
        if v == None {
          return None;
        }
        m := m[id.value := v.value];
        OverlaySnoc(values, es, (id.value, v.value));
        es := es + [(id.value, v.value)];
      }
      r := Some(m);
    }

    /** readGroup. */
    method Group(idw: nat, w: nat, values: map<nat, nat>) returns (r: Option<map<nat, nat>>)
      modifies this
      ensures r.Some? ==> offset <= |buf|
      ensures match ReadGroup(buf, old(offset), idw, w)
        case Short => r == None
        case Parsed(es, next) => r == Some(Overlay(values, es)) && offset == next
    {
      hide ReadElements, Overlay;
      var count := Uint(idw);
      if count == None {
        return None;
      }
      r := Elements(count.value, idw, w, values);
      if r.Some? {
        ElementsInside(buf, old(offset) + idw, count.value, idw, w);
      }
    }

    /** The loop over variable elements. A clamped one leaves the offset past the end, where every later read throws. */
    method Vars(n: nat) returns (r: Option<map<nat, seq<byte>>>)
      requires offset <= |buf|
      modifies this
      ensures match ReadVars(buf, old(offset), n)
        case Short => r == None || offset > |buf|
        case Parsed(vs, next) => r == Some(Overlay(map[], vs)) && offset == next
    {
      hide ReadVars, Overlay, Val;
      ghost var start, vs := offset, [];
      var m: map<nat, seq<byte>> := map[];
      ReadVarsNone(buf, start);
      OverlayNone(m);
      for i := 0 to n
        invariant offset <= |buf| ==> ReadVars(buf, start, i) == Parsed(vs, offset) && m == Overlay(map[], vs)
        invariant offset > |buf| ==> ReadVars(buf, start, i).Short?
      {
        ReadVarsSnoc(buf, start, i + 1);
        ReadVarsShort(buf, start, i + 1, n);
        var id := Uint(2);
        if id == None {
          return None;
        }
        var len := Uint(2);
        if len == None {
          return None;
        }
        var v := Take(len.value);
        m := m[id.value := v];
        OverlaySnoc(map[], vs, (id.value, v));
        vs := vs + [(id.value, v)];
      }
      r := Some(m);
    }

    method VarGroup(ext: bool) returns (r: Option<Option<map<nat, seq<byte>>>>)
      requires offset <= |buf|
      modifies this
      ensures match ReadVarGroup(buf, old(offset), ext)
        case Short => r == None || offset > |buf|
        case Parsed(vs, next) =>
          r == Some(if vs == [] then None else Some(Overlay(map[], vs))) && offset == next
    {
      hide ReadVars, Overlay;
      if !ext {
        return Some(None);
      }
      var nx := Uint(2);
      if nx == None {
        return None;
      }
      if nx.value == 0 {
        ReadVarsNone(buf, offset);
        return Some(None);
      }
      var m := Vars(nx.value);
      r := if m == None then None else Some(m);
    }

    /** The ten fixed fields of a record, from the timestamp to the total IO count. */
    method Header(ext: bool) returns (r: Option<seq<nat>>)
      modifies this
      ensures match ReadFields(buf, old(offset), HeaderWidths(ext))
        case Short => r == None
        case Parsed(h, next) => r == Some(h) && offset == next
    {
      var ws := HeaderWidths(ext);
      var h: seq<nat> := [];
      ghost var start := offset;
      hide HeaderWidths, ReadUint;
      assert ws[0..] == ws;
      PrependNone(ReadFields(buf, start, ws));
      for i := 0 to |ws|
        invariant |h| == i
        invariant ReadFields(buf, start, ws) == Prepend(h, ReadFields(buf, offset, ws[i..]))
      {
        var v := Uint(ws[i]);
        assert ws[i..][1..] == ws[i + 1..];
        if v == None {
          return None;
        }
        PrependStep(h, v.value, ReadFields(buf, offset, ws[i + 1..]));
        h := h + [v.value];
      }
      assert h + [] == h;
      r := if offset <= |buf| then Some(h) else None;
    }

    /** readRecord. */
    method Record(ext: bool) returns (r: Option<AvlRecord>)
      modifies this
      ensures match ReadRecord(buf, old(offset), ext)
        case Short => r == None || offset > |buf|
        case Parsed(w, next) => r == Some(View(w)) && offset == next
    {
      hide ReadFields, ReadGroup, ReadVarGroup, Overlay, HeaderWidths, Signed;
      var idw := IdWidth(ext);
      var head := Header(ext);
      if head == None {
        return None;
      }
      var h := head.value;
      assert |h| == 10 by { HeaderIsTen(ext); }
      var v1 := Group(idw, 1, map[]);
      if v1 == None {
        return None;
      }
      var v2 := Group(idw, 2, v1.value);
      if v2 == None {
        return None;
      }
      var v4 := Group(idw, 4, v2.value);
      if v4 == None {
        return None;
      }
      var v8 := Group(idw, 8, v4.value);
      if v8 == None {
        return None;
      }
      var vx := VarGroup(ext);
      if vx == None {
        return None;
      }
      r := Some(AvlRecord(h[0], h[1], Gps(Signed(h[2], 4), Signed(h[3], 4), Signed(h[4], 2), h[5], h[6], h[7]),
                          Io(h[8], v8.value, vx.value)));
    }
  }

  /** decodeAvlArray computes Decode: in particular the clamping of variable elements is never visible in a result. */
  method DecodeAvlArray(data: seq<byte>) returns (res: Result<DecodedAvl>)
    ensures res == Decode(data)
  {
    hide ReadRecords, ReadRecord, ViewAll, View, Val;
    var r := new Reader(data);
    var codec := r.Uint(1);
    if codec == None {
      return Err(ShortRead);
    }
    var count := r.Uint(1);
    if count == None {
      return Err(ShortRead);
    }
    ByteAt(data, 0);
    ByteAt(data, 1);
    if codec.value == CODEC_16 {
      return Err(Codec16Unsupported);
    }
    if codec.value != CODEC_8 && codec.value != CODEC_8_EXT {
      return Err(UnsupportedCodec);
    }
    var ext := codec.value == CODEC_8_EXT;
    var records: seq<AvlRecord> := [];
    ghost var ws: seq<WireRecord> := [];
    ReadRecordsNone(data, 2, ext);
    ViewNone();
    for i := 0 to count.value
      invariant r.buf == data
      invariant r.offset <= |data| ==> ReadRecords(data, 2, i, ext) == Parsed(ws, r.offset) && records == ViewAll(ws)
      invariant r.offset > |data| ==> ReadRecords(data, 2, i, ext).Short?
    {
      ReadRecordsSnoc(data, 2, i + 1, ext);
      ReadRecordsShort(data, 2, i + 1, count.value, ext);
      ghost var off := r.offset;
      RecordInside(data, off, ext);
      var rec := r.Record(ext);
      if rec == None {
        return Err(ShortRead);
      }
      records := records + [rec.value];
      if r.offset <= |data| && off <= |data| {
        ViewSnoc(ws, ReadRecord(data, off, ext).value);
        ws := ws + [ReadRecord(data, off, ext).value];
      }
    }
    var o := r.offset;
    var trailing := r.Uint(1);
    if trailing == None {
      return Err(ShortRead);
    }
    ByteAt(data, o);
    if trailing.value != count.value {
      return Err(CountMismatch);
    }
    res := Ok(DecodedAvl(codec.value, count.value, records));
  }

  lemma ByteAt(data: seq<byte>, i: nat)
    requires i < |data|
    ensures Val(data[i..i + 1]) == data[i]
  {}

  lemma ViewNone()
    ensures ViewAll([]) == []
  {}

  lemma ViewSnoc(ws: seq<WireRecord>, w: WireRecord)
    ensures ViewAll(ws + [w]) == ViewAll(ws) + [View(w)]
  {}

  lemma RecordInside(data: seq<byte>, off: nat, ext: bool)
    ensures ReadRecord(data, off, ext).Parsed? ==> off <= ReadRecord(data, off, ext).next <= |data|
  {
    hide *;
    if ReadRecord(data, off, ext).Parsed? {
      RecordSound(data, off, ext);
      AtInside(data, off, EncodeRecord(ReadRecord(data, off, ext).value, ext));
    }
  }

  lemma {:induction false} ReadRecordsShort(data: seq<byte>, off: nat, i: nat, n: nat, ext: bool)
    requires i <= n
    ensures ReadRecords(data, off, i, ext).Short? ==> ReadRecords(data, off, n, ext).Short?
    decreases n
  {
    hide ReadRecord;
    if i < n {
      ReadRecordsShort(data, off, i, n - 1, ext);
    }
  }

  ghost function Prepend(h: seq<nat>, p: Parsed<seq<nat>>): Parsed<seq<nat>> {
    if p.Short? then Short else Parsed(h + p.value, p.next)
  }

  lemma PrependNone(p: Parsed<seq<nat>>)
    ensures Prepend([], p) == p
  {
    assert p.Parsed? ==> [] + p.value == p.value;
  }

  lemma PrependStep(h: seq<nat>, v: nat, p: Parsed<seq<nat>>)
    ensures Prepend(h + [v], p) == Prepend(h, Prepend([v], p))
  {
    assert p.Parsed? ==> h + ([v] + p.value) == (h + [v]) + p.value;
  }

  lemma ElementsInside(data: seq<byte>, off: nat, n: nat, idw: nat, w: nat)
    requires ReadElements(data, off, n, idw, w).Parsed?
    ensures ReadElements(data, off, n, idw, w).next <= |data|
  {}

  lemma HeaderIsTen(ext: bool)
    ensures |HeaderWidths(ext)| == 10
  {}

  lemma OverlayNone<V>(m: map<nat, V>)
    ensures Overlay(m, []) == m
  {}

  lemma OverlaySnoc<V>(m: map<nat, V>, es: seq<(nat, V)>, e: (nat, V))
    ensures Overlay(m, es + [e]) == Overlay(m, es)[e.0 := e.1]
  {}

  lemma {:induction false} ReadElementsShort(data: seq<byte>, off: nat, i: nat, n: nat, idw: nat, w: nat)
    requires i <= n
    ensures ReadElements(data, off, i, idw, w).Short? ==> ReadElements(data, off, n, idw, w).Short?
    decreases n
  {
    if i < n {
      ReadElementsShort(data, off, i, n - 1, idw, w);
    }
  }

  lemma {:induction false} ReadVarsShort(data: seq<byte>, off: nat, i: nat, n: nat)
    requires i <= n
    ensures ReadVars(data, off, i).Short? ==> ReadVars(data, off, n).Short?
    decreases n
  {
    if i < n {
      ReadVarsShort(data, off, i, n - 1);
    }
  }
}
