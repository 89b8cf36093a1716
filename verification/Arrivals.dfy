/**
  What a session does with a frame that arrives, whatever the chunks: responses settle commands, other messages change
  nothing, AVL arrays are taken in hand record by record, and any other frame ends the session. Nothing here is stated
  through the session's own dispatch.
 */
module Arrivals {
  import opened Bytes
  import opened Avl
  import opened AvlMeaning
  import opened Crc16
  import opened Protocol
  import opened ProtocolMeaning
  import opened IngestSession
  import IngestProofs
  import Downlink

  /** The bytes a run of events brings. */
  function Arriving(events: seq<Event>): seq<byte> {
    if events == [] then [] else
      var last := events[|events| - 1];
      Arriving(events[..|events| - 1]) + if last.Data? then last.chunk else []
  }

  predicate OnlyArrivals(events: seq<Event>) {
    forall i :: 0 <= i < |events| ==> events[i].Data? || events[i].StartDrain?
  }

  /** A session at rest after its login, with nothing buffered. */
  predicate Waiting(c: Conn) { IngestProofs.Quiescent(c) && c.imei.Some? && c.buffer == [] }

  /** No queued drain can start. */
  predicate AtRest(c: Conn) { c.queued == 0 || !c.phase.Idle? }

  /** What the frame loop makes of one frame. */
  function Taken(c: Conn, frame: Frame): Conn { FrameLoop(c.(buffer := frame)) }

  predicate Alike(r: Conn, s: Conn) { r == s.(queued := r.queued, received := r.received) }

  lemma PrefixIncomplete(frame: Frame, got: seq<byte>)
    requires IngestProofs.IsFrame(frame) && got <= frame && got != frame
    ensures ExtractFrame(got) == None
  {
    hide ExtractFrame;
    if ExtractFrame(got).Some? {
      var rest := frame[|got|..];
      assert frame == got + rest;
      FrameStable(got, rest);
    }
  }

  lemma {:induction false} LoopAlike(c: Conn, queued: nat, received: seq<byte>)
    ensures FrameLoop(c.(queued := queued, received := received)) == FrameLoop(c).(queued := queued, received := received)
    decreases |c.buffer|
  {
    hide Dispatch, ExtractFrame, Downlink.Next;
    if ExtractFrame(c.buffer).Some? {
      FrameSplits(c.buffer);
      var (frame, rest) := ExtractFrame(c.buffer).value;
      var c1 := c.(buffer := rest);
      match Dispatch(frame) {
        case Throw(_) =>
        case Ignore => LoopAlike(Handle(c1, frame), queued, received);
        case Respond(text) =>
          LoopAlike(Handle(c1.(commands := Downlink.Next(c.commands, Downlink.Respond(text))), frame), queued, received);
        case Deliver(pkt) =>
      }
    }
  }

  lemma NothingExtracted()
    ensures ExtractFrame([]) == None
  {}

  /** The four things a frame can do, in terms of what it is dispatched to. */
  predicate Outcome(c: Conn, r: Conn, frame: Frame)
    requires |frame| >= 12
  {
    && r.buffer == [] && r.imei == c.imei && r.acks == c.acks
    && match Dispatch(frame)
       case Throw(_) => r.failed == Some(FrameError(frame)) && !r.open && r.commands == c.commands && r.phase == Idle
       case Ignore => r.failed == None && r.open == c.open && r.commands == c.commands && r.phase == Idle
       case Respond(text) =>
         r.failed == None && r.open == c.open && r.commands == Downlink.Next(c.commands, Downlink.Respond(text)) && r.phase == Idle
       case Deliver(pkt) =>
         && r.failed == None && r.open == c.open && r.commands == c.commands
         && r.phase == if pkt.records == [] then AwaitWrite(pkt, [], {}) else AwaitDedupe(pkt, 0, [], {})
  }

  lemma TakenOutcome(c: Conn, frame: Frame)
    requires IngestProofs.IsFrame(frame) && c.failed.None? && c.phase.Idle?
    ensures Outcome(c, Taken(c, frame), frame)
  {
    hide Dispatch, ExtractFrame, Downlink.Next;
    NothingExtracted();
    var c1 := c.(buffer := []);
    match Dispatch(frame) {
      case Throw(_) =>
      case Ignore => assert FrameLoop(Handle(c1, frame)) == Handle(c1, frame).(phase := Idle);
      case Respond(text) =>
        var c2 := Handle(c1.(commands := Downlink.Next(c.commands, Downlink.Respond(text))), frame);
        assert FrameLoop(c2) == c2.(phase := Idle);
      case Deliver(pkt) =>
    }
  }

  /** Before the frame is taken, and after. */
  predicate Filling(c: Conn, r: Conn, got: seq<byte>) { r == c.(buffer := got, queued := r.queued, received := r.received) }

  lemma ArrivalStep(keyOf: KeyFn, c: Conn, frame: Frame, r: Conn, got: seq<byte>, e: Event)
    requires Waiting(c) && IngestProofs.IsFrame(frame) && Enabled(r, e) && (e.Data? || e.StartDrain?)
    requires got <= frame && (Filling(c, r, got) || (got == frame && Alike(r, Taken(c, frame))))
    requires e.Data? ==> got + e.chunk <= frame
    ensures var r' := Next(keyOf, r, e); var got' := if e.Data? then got + e.chunk else got;
      Filling(c, r', got') || (got' == frame && Alike(r', Taken(c, frame)))
  {
    hide Taken, Dispatch, ExtractFrame;
    TakenIs(c, frame);
    TakenOutcome(c, frame);
    if Filling(c, r, got) {
      if e.StartDrain? {
        var r1 := r.(queued := r.queued - 1);
        LoopAlike(c.(buffer := got), r1.queued, r1.received);
        if got != frame {
          PrefixIncomplete(frame, got);
          assert FrameLoop(c.(buffer := got)) == c.(buffer := got);
        }
      }
    } else {
      if e.Data? {
        assert |got + e.chunk| <= |frame|;
        assert e.chunk == [] && r.buffer + e.chunk == r.buffer;
      } else {
        NothingExtracted();
        assert FrameLoop(r.(queued := r.queued - 1)) == r.(queued := r.queued - 1);
      }
    }
  }

  lemma TakenIs(c: Conn, frame: Frame)
    ensures Taken(c, frame) == FrameLoop(c.(buffer := frame))
  {}

  lemma {:induction false} Arrives(keyOf: KeyFn, events: seq<Event>, more: seq<Event>, frame: Frame)
    requires Waiting(After(keyOf, events)) && IngestProofs.IsFrame(frame) && OnlyArrivals(more) && Arriving(more) <= frame
    ensures var c, r, got := After(keyOf, events), After(keyOf, events + more), Arriving(more);
      Filling(c, r, got) || (got == frame && Alike(r, Taken(c, frame)))
    decreases |more|
  {
    hide Waiting, Enabled, Next, Taken, IngestProofs.IsFrame;
    var c := After(keyOf, events);
    if more == [] {
      assert events + more == events;
      WaitingEmpty(c);
    } else {
      var init, e := more[..|more| - 1], more[|more| - 1];
      assert more == init + [e] && (events + more)[..|events + more| - 1] == events + init;
      assert OnlyArrivals(init) && Arriving(init) <= frame;
      Arrives(keyOf, events, init, frame);
      var r := After(keyOf, events + init);
      if Enabled(r, e) {
        ArrivalStep(keyOf, c, frame, r, Arriving(init), e);
      } else {
        assert !e.Data? by { DataEnabled(r, e); }
      }
    }
  }

  lemma WaitingEmpty(c: Conn)
    requires Waiting(c)
    ensures c == c.(buffer := [])
  {}

  lemma DataEnabled(r: Conn, e: Event)
    requires !Enabled(r, e)
    ensures !e.Data?
  {}

  /** A frame that has arrived, in whatever chunks, has been taken once no drain can start. */
  lemma FrameIsTaken(keyOf: KeyFn, events: seq<Event>, more: seq<Event>, frame: Frame)
    requires Waiting(After(keyOf, events)) && IngestProofs.IsFrame(frame) && OnlyArrivals(more) && Arriving(more) == frame
    requires AtRest(After(keyOf, events + more))
    ensures Outcome(After(keyOf, events), After(keyOf, events + more), frame)
  {
    hide After, Taken, Dispatch, ExtractFrame;
    var c, r := After(keyOf, events), After(keyOf, events + more);
    Arrives(keyOf, events, more, frame);
    if Filling(c, r, frame) {
      IngestProofs.RunConsumes(keyOf, events + more);
      assert false;
    }
    TakenOutcome(c, frame);
  }

  // ---- Which frames do what -----------------------------------------------------------------------

  lemma WrapIsFrame(data: seq<byte>)
    requires |data| < 0x1_0000_0000
    ensures IngestProofs.IsFrame(WrapFrame(data)) && (data != [] ==> WrapFrame(data)[8] == data[0])
  {
    hide ExtractFrame, WrapFrame;
    WrapOpens(data, []);
    WrapLayout(data);
    var f := WrapFrame(data);
    assert f + [] == f;
    if data != [] { assert f[8..8 + |data|][0] == f[8]; }
  }

  /** A response, in any chunks, resolves the oldest pending command with its text, and does nothing else. */
  lemma ResponseResolves(keyOf: KeyFn, events: seq<Event>, more: seq<Event>, text: Text)
    requires |text| + 8 < 0x1_0000_0000 && forall i :: 0 <= i < |text| ==> text[i] < 128
    requires Waiting(After(keyOf, events)) && OnlyArrivals(more) && Arriving(more) == EncodeCodec12(0x06, text)
    requires AtRest(After(keyOf, events + more))
    ensures var c, r := After(keyOf, events), After(keyOf, events + more); var q, q' := c.commands, r.commands;
      && r.failed == None && r.open == c.open && r.phase == Idle && r.buffer == [] && r.acks == c.acks && q'.sent == q.sent
      && if q.pending == [] then q' == q else
           && q'.pending == q.pending[1..] && q'.timers == q.timers - {q.pending[0]}
           && q'.settled == q.settled + [Downlink.Settlement(q.pending[0], Downlink.Resolved(text))]
  {
    hide After, Waiting, WrapFrame, IngestProofs.IsFrame, Codec12Data;
    var d, f := Codec12Data(0x06, text), EncodeCodec12(0x06, text);
    Codec12Layout(0x06, text);
    WrapIsFrame(d);
    FrameIsTaken(keyOf, events, more, f) by { IsLong(f); }
    IsLong(f);
    Codec12RoundTrip(0x06, text);
  }

  lemma IsLong(f: Frame)
    requires IngestProofs.IsFrame(f)
    ensures |f| >= 12
  {}

  /** Any other Codec 12 message changes no command. */
  lemma OtherMessageIsIgnored(keyOf: KeyFn, events: seq<Event>, more: seq<Event>, kind: byte, text: Text)
    requires |text| + 8 < 0x1_0000_0000 && kind != 0x06
    requires Waiting(After(keyOf, events)) && OnlyArrivals(more) && Arriving(more) == EncodeCodec12(kind, text)
    requires AtRest(After(keyOf, events + more))
    ensures var c, r := After(keyOf, events), After(keyOf, events + more);
      r.failed == None && r.open == c.open && r.phase == Idle && r.buffer == [] && r.acks == c.acks && r.commands == c.commands
  {
    hide After, Waiting, WrapFrame, IngestProofs.IsFrame, Codec12Data;
    var d, f := Codec12Data(kind, text), EncodeCodec12(kind, text);
    Codec12Layout(kind, text);
    WrapIsFrame(d);
    IsLong(f);
    FrameIsTaken(keyOf, events, more, f);
    Codec12Decodes(kind, text);
  }

  /** An AVL array, in any chunks, is taken in hand with exactly its records, none of them answered yet. */
  lemma ArrayIsTaken(keyOf: KeyFn, events: seq<Event>, more: seq<Event>, codec: nat, ws: seq<WireRecord>)
    requires Sendable(codec, ws) && |EncodeArray(codec, ws)| < 0x1_0000_0000
    requires Waiting(After(keyOf, events)) && OnlyArrivals(more) && Arriving(more) == WrapFrame(EncodeArray(codec, ws))
    requires AtRest(After(keyOf, events + more))
    ensures codec == 0x08 || codec == 0x8e
    ensures var c, r := After(keyOf, events), After(keyOf, events + more);
      && r.failed == None && r.open == c.open && r.buffer == [] && r.acks == c.acks && r.commands == c.commands
      && r.phase.InHand() && (r.phase.AwaitDedupe? <==> ws != []) && (r.phase.AwaitDedupe? ==> r.phase.next == 0)
      && r.phase.news == [] && r.phase.dups == {}
      && r.phase.pkt.codecId == codec && r.phase.pkt.recordCount == |ws| && |r.phase.pkt.records| == |ws|
      && forall i :: 0 <= i < |ws| ==> Says(r.phase.pkt.records[i], ws[i])
  {
    hide After, Waiting, WrapFrame, EncodeArray, IngestProofs.IsFrame, Decode, Says, AllFit;
    var data := EncodeArray(codec, ws);
    var f := WrapFrame(data);
    FirstByte(codec, ws);
    WrapIsFrame(data);
    IsLong(f);
    FrameIsTaken(keyOf, events, more, f);
    WrapOpens(data, []);
    LayoutMeans(codec, ws, []);
    assert data + [] == data;
  }

  lemma FirstByte(codec: nat, ws: seq<WireRecord>)
    requires Sendable(codec, ws)
    ensures EncodeArray(codec, ws) != [] && EncodeArray(codec, ws)[0] == codec
  {
    hide EncodeRecords, AllFit;
    OneByte(codec);
  }

  /** A frame with another codec id, or that does not open, or whose contents do not decode. */
  predicate Unfit(f: Frame)
    requires |f| >= 12
  {
    || (f[8] != 0x08 && f[8] != 0x8e && f[8] != 0x0c)
    || OpenFrame(f).Err?
    || (f[8] == 0x0c && DecodeCodec12(f).Err?)
    || (f[8] != 0x0c && DecodeTcpPacket(f).Err?)
  }

  lemma OtherCodecThrows(f: Frame)
    requires |f| >= 12 && f[8] != 0x08 && f[8] != 0x8e && f[8] != 0x0c
    ensures Dispatch(f).Throw?
  {
    hide Crc, Val, ReadRecords;
    if f[8] == 0x10 && OpenFrame(f).Ok? {
      var d := OpenFrame(f).value;
      assert d == [] || d[0] == f[8];
    }
  }

  /** Such a frame, in any chunks, ends the session with itself as the reason, and touches no command. */
  lemma UnfitFrameEnds(keyOf: KeyFn, events: seq<Event>, more: seq<Event>, f: Frame)
    requires |f| >= 12 && |f| == 12 + Announced(f) && Unfit(f)
    requires Waiting(After(keyOf, events)) && OnlyArrivals(more) && Arriving(more) == f
    requires AtRest(After(keyOf, events + more))
    ensures var c, r := After(keyOf, events), After(keyOf, events + more);
      r.failed == Some(FrameError(f)) && !r.open && r.commands == c.commands && r.acks == c.acks
  {
    hide After, Waiting, ExtractFrame, DecodeTcpPacket, DecodeCodec12, OpenFrame;
    ExtractMeans(f);
    assert f[..12 + Announced(f)] == f && f[12 + Announced(f)..] == [];
    FrameIsTaken(keyOf, events, more, f);
    UnfitThrows(f);
  }

  lemma UnfitThrows(f: Frame)
    requires |f| >= 12 && Unfit(f)
    ensures Dispatch(f).Throw?
  {
    hide Crc, Val, Decode;
    if f[8] != 0x08 && f[8] != 0x8e && f[8] != 0x0c { OtherCodecThrows(f); }
  }

  // ---- Who gets in ------------------------------------------------------------------------------------

  /** What the answer of the allow-list does: let the device in under its IMEI, or close the socket on it. */
  lemma AnswerMeans(keyOf: KeyFn, c: Conn, answer: AllowAnswer)
    requires c.phase.AwaitAllowed? && c.failed.None? && c.imei.None?
    ensures var r := Next(keyOf, c, Allowed(answer));
      match answer
      case Accept => r.imei == Some(c.phase.who)
      case Refuse => r.imei == None && !r.open && r.phase == Idle && r.failed == Some(Stop.Refused) && r.buffer == c.buffer
      case Fails => r.imei == None && !r.open && r.phase == Idle && r.failed == Some(LookupFailed) && r.buffer == c.buffer
  {
    hide FrameLoop;
    IngestProofs.LoopPhase(c.(imei := Some(c.phase.who)));
  }

  lemma NextImei(keyOf: KeyFn, c: Conn, e: Event)
    requires Enabled(c, e)
    ensures var r := Next(keyOf, c, e);
      r.imei == c.imei || (e == Allowed(Accept) && c.phase.AwaitAllowed? && r.imei == Some(c.phase.who))
  {
    hide FrameLoop, ParseImei, Downlink.Next, AllOk, AckFor;
    match e {
      case StartDrain => IngestProofs.LoopPhase(c.(queued := c.queued - 1));
      case Allowed(answer) => IngestProofs.LoopPhase(c.(imei := Some(c.phase.who)));
      case Written(oks) => IngestProofs.LoopPhase(Acked(keyOf, c));
      case _ =>
    }
  }

  /** In every run, a session works under an IMEI only after the allow-list accepted that very IMEI. */
  lemma {:induction false} OnlyAllowedGetIn(keyOf: KeyFn, events: seq<Event>) returns (n: nat)
    requires After(keyOf, events).imei.Some?
    ensures n < |events| && events[n] == Allowed(Accept)
    ensures After(keyOf, events[..n]).phase == AwaitAllowed(After(keyOf, events).imei.value)
    decreases |events|
  {
    hide Enabled, Next;
    var init, e := events[..|events| - 1], events[|events| - 1];
    var c := After(keyOf, init);
    if Enabled(c, e) { NextImei(keyOf, c, e); }
    if c.imei == After(keyOf, events).imei {
      n := OnlyAllowedGetIn(keyOf, init);
      assert init[..n] == events[..n];
    } else {
      n := |events| - 1;
    }
  }

  /** And nothing is taken in hand or acknowledged without an IMEI. */
  lemma NothingWithoutImei(keyOf: KeyFn, events: seq<Event>)
    ensures var c := After(keyOf, events); c.imei == None ==> !c.phase.InHand() && c.acks == []
  {
    hide After, ParseImei;
    IngestProofs.RunAnswerable(keyOf, events);
    NoAcksWithoutImei(keyOf, events);
  }

  lemma {:induction false} NoAcksWithoutImei(keyOf: KeyFn, events: seq<Event>)
    ensures var c := After(keyOf, events); c.acks != [] ==> c.imei.Some?
    decreases |events|
  {
    hide Enabled, Next;
    if events != [] {
      var init, e := events[..|events| - 1], events[|events| - 1];
      var c := After(keyOf, init);
      NoAcksWithoutImei(keyOf, init);
      if Enabled(c, e) {
        NextImei(keyOf, c, e);
        NextAcks(keyOf, c, e);
      }
    }
  }

  lemma NextAcks(keyOf: KeyFn, c: Conn, e: Event)
    requires Enabled(c, e)
    ensures var r := Next(keyOf, c, e); r.acks == c.acks || (e.Written? && c.imei.Some?)
  {
    hide FrameLoop, ParseImei, Downlink.Next, AllOk, AckFor;
    match e {
      case StartDrain => IngestProofs.LoopPhase(c.(queued := c.queued - 1));
      case Allowed(answer) => IngestProofs.LoopPhase(c.(imei := Some(c.phase.who)));
      case _ =>
    }
  }

  // ---- What the acknowledgements say -----------------------------------------------------------------

  /** The frames that are not Codec 12. */
  function AvlFrames(fs: seq<Frame>): seq<Frame>
    requires forall i :: 0 <= i < |fs| ==> |fs[i]| >= 12
  {
    if fs == [] then [] else
      var n := |fs| - 1;
      AvlFrames(fs[..n]) + if fs[n][8] == 0x0c then [] else [fs[n]]
  }

  /** The acknowledgement of one AVL frame: the number of all its records, and the keys of all its records. */
  predicate Acknowledged(keyOf: KeyFn, who: Text, a: Ack, f: Frame) {
    && DecodeTcpPacket(f).Ok?
    && a.count == |DecodeTcpPacket(f).value.records|
    && a.keys == set r | r in DecodeTcpPacket(f).value.records :: keyOf(who, r)
  }

  lemma CountIsLength(f: Frame)
    requires DecodeTcpPacket(f).Ok?
    ensures DecodeTcpPacket(f).value.recordCount == |DecodeTcpPacket(f).value.records|
  {
    hide Crc, Val, Decode;
    var d := OpenFrame(f).value;
    var ws, offs := DecodeMeans(d);
  }

  lemma {:induction false} PromisesMean(keyOf: KeyFn, who: Text, fs: seq<Frame>)
    requires IngestProofs.AllGood(fs) && IngestProofs.AllFrames(fs)
    ensures forall i :: 0 <= i < |fs| ==> |fs[i]| >= 12
    ensures var ps, avl := IngestProofs.Promised(keyOf, who, fs), AvlFrames(fs);
      |ps| == |avl| && forall n :: 0 <= n < |avl| ==> Acknowledged(keyOf, who, ps[n], avl[n])
    decreases |fs|
  {
    hide DecodeTcpPacket, DecodeCodec12, ExtractFrame;
    if fs != [] {
      var init, f := fs[..|fs| - 1], fs[|fs| - 1];
      PromisesMean(keyOf, who, init);
      assert IngestProofs.Good(f);
      if f[8] != 0x0c { CountIsLength(f); }
    }
  }

  /**
    In every run the n-th acknowledgement is that of the n-th AVL frame handled: it counts all records received, new
    and duplicate, and covers the keys of all of them. On an open socket only the packet in hand is unacknowledged.
   */
  lemma AcksMean(keyOf: KeyFn, events: seq<Event>)
    ensures var c := After(keyOf, events);
      && (forall i :: 0 <= i < |c.handled| ==> |c.handled[i]| >= 12)
      && var avl := AvlFrames(c.handled);
      && |c.acks| <= |avl| && (c.acks != [] ==> c.login.Some?)
      && (forall n :: 0 <= n < |c.acks| ==> c.login.Some? && Acknowledged(keyOf, c.login.value, c.acks[n], avl[n]))
      && (c.open ==> |avl| == |c.acks| + if c.phase.InHand() then 1 else 0)
  {
    hide After, ParseImei, IngestProofs.Promised, AvlFrames, Acknowledged, AckFor;
    IngestProofs.AcksInOrder(keyOf, events);
    IngestProofs.RunConsumes(keyOf, events);
    var c := After(keyOf, events);
    PromisesMean(keyOf, IngestProofs.Owner(c), c.handled);
    if c.login.None? {
      assert c.handled == [];
      NoAvl();
    }
  }

  lemma NoAvl()
    ensures AvlFrames([]) == []
  {}
}
