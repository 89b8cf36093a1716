/** What every run of one ingest session keeps. */
module IngestProofs {
  import opened Bytes
  import opened Protocol
  import opened IngestSession
  import Downlink

  // ---- The reference: parsing the whole byte stream at once ------------------------------------

  /** The complete frames at the front of a byte string, and what is left after them. */
  function Frames(buf: seq<byte>): seq<Frame>
    decreases |buf|
  {
    match ExtractFrame(buf)
    case None => []
    case Some((frame, rest)) => FrameSplits(buf); [frame] + Frames(rest)
  }

  function Tail(buf: seq<byte>): seq<byte>
    decreases |buf|
  {
    match ExtractFrame(buf)
    case None => buf
    case Some((_, rest)) => FrameSplits(buf); Tail(rest)
  }

  predicate IsFrame(f: Frame) { |f| >= 12 && ExtractFrame(f) == Some((f, [])) }

  function Flatten(fs: seq<Frame>): seq<byte> {
    if fs == [] then [] else Flatten(fs[..|fs| - 1]) + fs[|fs| - 1]
  }

  predicate AllFrames(fs: seq<Frame>) { forall i :: 0 <= i < |fs| ==> IsFrame(fs[i]) }

  lemma ExtractIsFrame(buf: seq<byte>)
    requires ExtractFrame(buf).Some?
    ensures IsFrame(ExtractFrame(buf).value.0)
  {
    var f := ExtractFrame(buf).value.0;
    assert f[4..8] == buf[4..8];
    assert f[..|f|] == f && f[|f|..] == [];
  }

  lemma ExtractAfter(f: Frame, rest: seq<byte>)
    requires IsFrame(f)
    ensures ExtractFrame(f + rest) == Some((f, rest))
  {
    FrameStable(f, rest);
    assert [] + rest == rest;
  }

  lemma FlattenSnoc(fs: seq<Frame>, f: Frame)
    ensures Flatten(fs + [f]) == Flatten(fs) + f
  {}

  lemma FramesStep(f: Frame, rest: seq<byte>)
    requires IsFrame(f)
    ensures Frames(f + rest) == [f] + Frames(rest) && Tail(f + rest) == Tail(rest)
  {
    ExtractAfter(f, rest);
  }

  /** Frames laid end to end are found again, followed by whatever the remainder holds. */
  lemma {:induction false} FramesOfFlatten(fs: seq<Frame>, rest: seq<byte>)
    requires AllFrames(fs)
    ensures Frames(Flatten(fs) + rest) == fs + Frames(rest) && Tail(Flatten(fs) + rest) == Tail(rest)
    decreases |fs|
  {
    hide Frames, Tail, IsFrame;
    if fs == [] {
      assert Flatten(fs) + rest == rest;
      assert fs + Frames(rest) == Frames(rest);
    } else {
      var init, f := fs[..|fs| - 1], fs[|fs| - 1];
      assert Flatten(fs) + rest == Flatten(init) + (f + rest);
      FramesOfFlatten(init, f + rest);
      FramesStep(f, rest);
      assert fs + Frames(rest) == init + ([f] + Frames(rest));
    }
  }

  lemma NoFrames(buf: seq<byte>)
    requires ExtractFrame(buf) == None
    ensures Frames(buf) == [] && Tail(buf) == buf
  {}

  // ---- Chunking independence ---------------------------------------------------------------------

  predicate Good(f: Frame) { IsFrame(f) && !Dispatch(f).Throw? }

  predicate Bad(f: Frame) { IsFrame(f) && Dispatch(f).Throw? }

  predicate AllGood(fs: seq<Frame>) { forall i :: 0 <= i < |fs| ==> Good(fs[i]) }

  /** The bytes after the login are the handled frames, all good, then the buffer. */
  predicate Split(stream: seq<byte>, handled: seq<Frame>, buffer: seq<byte>) {
    AllGood(handled) && stream == Flatten(handled) + buffer
  }

  /** Before the login frame is complete nothing is consumed. */
  predicate BeforeLogin(c: Conn) {
    c.imei == None && c.handled == [] && c.buffer == c.received && c.phase.Idle?
  }

  predicate AfterLogin(c: Conn, who: Text) {
    && |c.received| >= LOGIN_LENGTH && ParseImei(c.received) == Login(who)
    && Split(c.received[LOGIN_LENGTH..], c.handled, c.buffer)
    && if c.imei == None then c.handled == [] && c.phase == AwaitAllowed(who)
       else c.imei == Some(who) && !c.phase.AwaitAllowed?
  }

  /** What the history of a failed connection says about the place of the error in the stream. */
  predicate FailedAt(c: Conn, why: Stop) {
    if why.LoginError? then c.login == None && c.handled == [] && ParseImei(c.received).BadLogin? else
      && c.login.Some? && |c.received| >= LOGIN_LENGTH && ParseImei(c.received) == Login(c.login.value)
      && AllGood(c.handled)
      && match why
         case FrameError(f) => Bad(f) && Flatten(c.handled + [f]) <= c.received[LOGIN_LENGTH..]
         case Refused => c.handled == []
         case LookupFailed => c.handled == []
         case _ => Flatten(c.handled) <= c.received[LOGIN_LENGTH..]
  }

  predicate Consumed(c: Conn) {
    if c.failed.Some? then !c.open && FailedAt(c, c.failed.value)
    else if c.login.None? then BeforeLogin(c)
    else AfterLogin(c, c.login.value)
  }

  predicate Quiescent(c: Conn) { c.failed.None? && c.phase.Idle? && c.queued == 0 }

  /** With no drain running and none queued, nothing that is complete is left in the buffer. */
  predicate Drained(c: Conn) {
    Quiescent(c) ==> if c.imei == None then ParseImei(c.buffer) == NeedMore else ExtractFrame(c.buffer) == None
  }

  lemma SplitStep(stream: seq<byte>, handled: seq<Frame>, buffer: seq<byte>)
    requires Split(stream, handled, buffer) && ExtractFrame(buffer).Some?
    ensures var (frame, rest) := ExtractFrame(buffer).value;
      && |frame| >= 12 && |rest| < |buffer| && IsFrame(frame) && Flatten(handled + [frame]) <= stream
      && (!Dispatch(frame).Throw? ==> Split(stream, handled + [frame], rest))
  {
    hide Dispatch, Flatten, IsFrame, ExtractFrame;
    var (frame, rest) := ExtractFrame(buffer).value;
    FrameSplits(buffer);
    ExtractIsFrame(buffer);
    FlattenSnoc(handled, frame);
    assert Flatten(handled) + buffer == Flatten(handled + [frame]) + rest;
  }

  /** What a frame loop does to a connection, whatever the frames: history stays as it was once there was an error. */
  lemma {:induction false} LoopPhase(c: Conn)
    ensures var r := FrameLoop(c);
      && r.imei == c.imei && r.queued == c.queued && r.received == c.received && r.login == c.login && r.acks == c.acks
      && (c.failed.Some? ==> r.failed == c.failed && r.handled == c.handled)
      && (!c.open ==> !r.open) && (r.failed.None? ==> r.open == c.open)
      && (r.failed != c.failed ==> !r.open && r.phase.Idle? && r.failed.Some? && r.failed.value.FrameError?)
      && !r.phase.AwaitAllowed?
      && (r.phase.AwaitDedupe? ==> r.phase.next == 0 && r.phase.news == [] && r.phase.dups == {} && r.phase.pkt.records != [])
      && (r.phase.AwaitWrite? ==> r.phase.news == [] && r.phase.dups == {} && r.phase.pkt.records == [])
    decreases |c.buffer|
  {
    hide Dispatch, ExtractFrame, Downlink.Next;
    if ExtractFrame(c.buffer).Some? {
      FrameSplits(c.buffer);
      var (frame, rest) := ExtractFrame(c.buffer).value;
      var c1 := c.(buffer := rest);
      match Dispatch(frame) {
        case Throw(_) =>
        case Ignore => LoopPhase(Handle(c1, frame));
        case Respond(text) => LoopPhase(Handle(c1.(commands := Downlink.Next(c.commands, Downlink.Respond(text))), frame));
        case Deliver(pkt) =>
      }
    }
  }

  lemma {:induction false} LoopConsumes(c: Conn, stream: seq<byte>)
    requires c.failed.None? && Split(stream, c.handled, c.buffer)
    ensures var r := FrameLoop(c);
      if r.failed.None? then Split(stream, r.handled, r.buffer) && (r.phase.Idle? ==> ExtractFrame(r.buffer) == None)
      else r.failed.value.FrameError? && Bad(r.failed.value.frame) && AllGood(r.handled)
           && Flatten(r.handled + [r.failed.value.frame]) <= stream
    decreases |c.buffer|
  {
    hide Dispatch, ExtractFrame, Flatten, IsFrame, Downlink.Next;
    if ExtractFrame(c.buffer).Some? {
      SplitStep(stream, c.handled, c.buffer);
      var (frame, rest) := ExtractFrame(c.buffer).value;
      var c1 := c.(buffer := rest);
      match Dispatch(frame) {
        case Throw(_) =>
        case Ignore => LoopConsumes(Handle(c1, frame), stream);
        case Respond(text) =>
          LoopConsumes(Handle(c1.(commands := Downlink.Next(c.commands, Downlink.Respond(text))), frame), stream);
        case Deliver(pkt) =>
      }
    }
  }

  lemma LoopAfterLogin(c: Conn)
    requires Consumed(c.(phase := Idle)) && c.imei.Some?
    ensures Consumed(FrameLoop(c)) && Drained(FrameLoop(c))
  {
    hide ParseImei, Split, AllGood, Bad, FrameLoop, ExtractFrame, Flatten;
    LoopPhase(c);
    if c.failed.None? {
      var stream := c.received[LOGIN_LENGTH..];
      assert Split(stream, c.handled, c.buffer);
      LoopConsumes(c, stream);
    }
  }

  lemma SplitMore(stream: seq<byte>, handled: seq<Frame>, buffer: seq<byte>, more: seq<byte>)
    requires Split(stream, handled, buffer)
    ensures Split(stream + more, handled, buffer + more)
  {
    hide AllGood, Flatten;
    assert (Flatten(handled) + buffer) + more == Flatten(handled) + (buffer + more);
  }

  lemma DataConsumed(keyOf: KeyFn, c: Conn, chunk: seq<byte>)
    requires Consumed(c)
    ensures Consumed(Next(keyOf, c, Data(chunk)))
  {
    hide ParseImei, Split, AllGood, Bad;
    if c.failed.None? && c.login.Some? {
      LoginStable(c.received, chunk);
      SplitMore(c.received[LOGIN_LENGTH..], c.handled, c.buffer, chunk);
      assert (c.received + chunk)[LOGIN_LENGTH..] == c.received[LOGIN_LENGTH..] + chunk;
    }
  }

  lemma NothingSplit(stream: seq<byte>)
    ensures Split(stream, [], stream)
  {}

  lemma StartConsumed(c: Conn)
    requires Consumed(c) && c.phase.Idle? && c.queued > 0
    ensures Consumed(StartDrainStep(c)) && Drained(StartDrainStep(c))
  {
    hide ParseImei, Split, AllGood, Bad, FrameLoop, ExtractFrame;
    if c.imei.Some? {
      LoopAfterLogin(c.(queued := c.queued - 1));
    } else if ParseImei(c.buffer).Login? {
      LoginIsLong(c.buffer);
      if c.failed.None? {
        NothingSplit(c.received[LOGIN_LENGTH..]);
      }
    }
  }

  /** An error where the stream was split leaves it at its place. */
  lemma FailConsumed(c: Conn, why: Stop)
    requires Consumed(c) && c.phase != Idle && !why.LoginError? && !why.FrameError?
    requires c.failed.None? ==> (why.WriteRejected? || why.DedupeFailed? <==> c.imei.Some?)
    ensures Consumed(Fail(c, why)) && Drained(Fail(c, why))
  {
    hide ParseImei, AllGood, Bad, Flatten;
    if c.failed.None? {
      assert Split(c.received[LOGIN_LENGTH..], c.handled, c.buffer);
    }
  }

  lemma NextConsumes(keyOf: KeyFn, c: Conn, e: Event)
    requires Consumed(c) && Drained(c) && Enabled(c, e)
    ensures Consumed(Next(keyOf, c, e)) && Drained(Next(keyOf, c, e))
  {
    hide ParseImei, Split, AllGood, Bad, FrameLoop, ExtractFrame, Downlink.Next, PacketKeys, AllOk, StartDrainStep, Fail;
    match e {
      case Data(chunk) => DataConsumed(keyOf, c, chunk);
      case StartDrain => StartConsumed(c);
      case Allowed(answer) =>
        match answer {
          case Accept => LoopAfterLogin(c.(imei := Some(c.phase.who)));
          case Refuse => FailConsumed(c, Refused);
          case Fails => FailConsumed(c, LookupFailed);
        }
      case Deduped(isNew) =>
      case DedupeFails => FailConsumed(c, DedupeFailed);
      case Written(oks) =>
        if AllOk(oks) {
          LoopAfterLogin(Acked(keyOf, c));
        } else {
          FailConsumed(c, WriteRejected);
        }
      case SendCommand =>
      case Timer(id) =>
      case Closed =>
    }
  }

  /** Chunking, in every reachable state: nothing is lost, repeated or parsed otherwise than from the whole stream. */
  lemma {:induction false} RunConsumes(keyOf: KeyFn, events: seq<Event>)
    ensures Consumed(After(keyOf, events)) && Drained(After(keyOf, events))
    decreases |events|
  {
    hide Consumed, Drained, Enabled, Next;
    if events == [] {
      OpenedConsumed();
    } else {
      var c, e := After(keyOf, events[..|events| - 1]), events[|events| - 1];
      RunConsumes(keyOf, events[..|events| - 1]);
      if Enabled(c, e) {
        NextConsumes(keyOf, c, e);
      }
    }
  }

  lemma OpenedConsumed()
    ensures Consumed(Opened) && Drained(Opened)
  {}

  /** At quiescence the session has done exactly what parsing the received bytes in one piece prescribes. */
  lemma ParsedWhole(keyOf: KeyFn, events: seq<Event>)
    requires Quiescent(After(keyOf, events))
    ensures var c := After(keyOf, events);
      match ParseImei(c.received)
      case NeedMore => c.imei == None && c.handled == [] && c.buffer == c.received
      case BadLogin(_) => false
      case Login(who) =>
        && |c.received| >= LOGIN_LENGTH && c.imei == Some(who)
        && c.handled == Frames(c.received[LOGIN_LENGTH..]) && c.buffer == Tail(c.received[LOGIN_LENGTH..])
        && AllGood(c.handled)
  {
    hide ParseImei, After, Frames, Tail, Flatten, IsFrame;
    RunConsumes(keyOf, events);
    var c := After(keyOf, events);
    if c.login.Some? {
      FramesOfFlatten(c.handled, c.buffer);
      NoFrames(c.buffer);
      assert c.handled + [] == c.handled;
    }
  }

  /** Two runs that received the same bytes, however cut and interleaved, agree once both are quiescent. */
  lemma ChunkingIndependent(keyOf: KeyFn, events1: seq<Event>, events2: seq<Event>)
    requires Quiescent(After(keyOf, events1)) && Quiescent(After(keyOf, events2))
    requires After(keyOf, events1).received == After(keyOf, events2).received
    ensures var c1, c2 := After(keyOf, events1), After(keyOf, events2);
      c1.imei == c2.imei && c1.handled == c2.handled && c1.buffer == c2.buffer
  {
    hide ParseImei, After;
    ParsedWhole(keyOf, events1);
    ParsedWhole(keyOf, events2);
  }

  /** A session whose first error was a frame met it at its place in the stream, whatever follows. */
  lemma FatalFrameIsInStream(keyOf: KeyFn, events: seq<Event>, more: seq<byte>)
    requires var c := After(keyOf, events); c.failed.Some? && c.failed.value.FrameError?
    ensures var c := After(keyOf, events); var k := |c.handled|;
      && |c.received| >= LOGIN_LENGTH
      && var all := Frames(c.received[LOGIN_LENGTH..] + more);
         k < |all| && all[..k] == c.handled && all[k] == c.failed.value.frame && !Good(all[k]) && AllGood(all[..k])
  {
    hide ParseImei, After, Flatten, IsFrame, Frames, Tail;
    RunConsumes(keyOf, events);
    var c := After(keyOf, events);
    var stream := c.received[LOGIN_LENGTH..];
    var fs := c.handled + [c.failed.value.frame];
    var rest := stream[|Flatten(fs)|..] + more;
    assert stream + more == Flatten(fs) + rest;
    FramesOfFlatten(fs, rest);
  }

  // ---- Every drain comes to an end ---------------------------------------------------------------------

  /** A step of the chain of drains, or of what a drain awaits. */
  predicate IsDrain(e: Event) { e.StartDrain? || e.Allowed? || e.Deduped? || e.DedupeFails? || e.Written? }

  /** What a drain still awaits for the packet, or the login, in hand. */
  function Waits(p: Phase): nat {
    match p
    case Idle => 0
    case AwaitAllowed(_) => 1
    case AwaitDedupe(pkt, next, _, _) => if next < |pkt.records| then |pkt.records| - next + 1 else 1
    case AwaitWrite(_, _, _) => 1
  }

  /** Fewer bytes to parse; or as many and fewer answers to await; or as many of both and fewer drains queued. */
  predicate Nearer(r: Conn, c: Conn) {
    || |r.buffer| < |c.buffer|
    || (|r.buffer| == |c.buffer| && Waits(r.phase) < Waits(c.phase))
    || (|r.buffer| == |c.buffer| && Waits(r.phase) == Waits(c.phase) && r.queued < c.queued)
  }

  lemma {:induction false} LoopShrinks(c: Conn)
    ensures var r := FrameLoop(c);
      |r.buffer| < |c.buffer| || (|r.buffer| == |c.buffer| && r.phase == Idle)
    decreases |c.buffer|
  {
    hide Dispatch, ExtractFrame, Downlink.Next;
    if ExtractFrame(c.buffer).Some? {
      FrameSplits(c.buffer);
      var (frame, rest) := ExtractFrame(c.buffer).value;
      var c1 := c.(buffer := rest);
      match Dispatch(frame) {
        case Throw(_) =>
        case Ignore => LoopShrinks(Handle(c1, frame));
        case Respond(text) => LoopShrinks(Handle(c1.(commands := Downlink.Next(c.commands, Downlink.Respond(text))), frame));
        case Deliver(pkt) =>
      }
    }
  }

  /** Every step of a drain, whatever the answers, brings it strictly nearer to its end: no chain of drains runs forever. */
  lemma DrainsProgress(keyOf: KeyFn, c: Conn, e: Event)
    requires Enabled(c, e) && IsDrain(e)
    ensures Nearer(Next(keyOf, c, e), c)
  {
    hide ParseImei, FrameLoop, AllOk, AckFor;
    match e {
      case StartDrain =>
        if c.imei.Some? {
          LoopPhase(c.(queued := c.queued - 1));
          LoopShrinks(c.(queued := c.queued - 1));
        } else if ParseImei(c.buffer).Login? {
          LoginIsLong(c.buffer);
        }
      case Allowed(answer) => LoopShrinks(c.(imei := Some(c.phase.who)));
      case Deduped(isNew) =>
      case DedupeFails =>
      case Written(oks) => LoopShrinks(Acked(keyOf, c));
    }
  }

  /** What a drain awaits can be answered. */
  predicate Answerable(c: Conn) {
    && (c.phase.AwaitDedupe? ==> c.phase.next < |c.phase.pkt.records|)
    && (c.phase.InHand() ==> c.imei.Some?)
  }

  lemma NextAnswerable(keyOf: KeyFn, c: Conn, e: Event)
    requires Answerable(c) && Enabled(c, e)
    ensures Answerable(Next(keyOf, c, e))
  {
    hide ParseImei, FrameLoop, Downlink.Next, AllOk, AckFor;
    match e {
      case StartDrain => if c.imei.Some? { LoopPhase(c.(queued := c.queued - 1)); }
      case Allowed(answer) => LoopPhase(c.(imei := Some(c.phase.who)));
      case Written(oks) => LoopPhase(Acked(keyOf, c));
      case _ =>
    }
  }

  lemma {:induction false} RunAnswerable(keyOf: KeyFn, events: seq<Event>)
    ensures Answerable(After(keyOf, events))
    decreases |events|
  {
    hide Answerable, Enabled, Next;
    if events == [] {
      assert Answerable(Opened) by { OpenedAnswerable(); }
    } else {
      var c, e := After(keyOf, events[..|events| - 1]), events[|events| - 1];
      RunAnswerable(keyOf, events[..|events| - 1]);
      if Enabled(c, e) { NextAnswerable(keyOf, c, e); }
    }
  }

  lemma OpenedAnswerable()
    ensures Answerable(Opened)
  {}

  /** In every reachable state some drain step is possible, unless no drain is running or queued. */
  lemma DrainsNeverBlock(keyOf: KeyFn, events: seq<Event>)
    ensures var c := After(keyOf, events);
      (forall e :: IsDrain(e) ==> !Enabled(c, e)) <==> c.phase.Idle? && c.queued == 0
  {
    hide After;
    RunAnswerable(keyOf, events);
    var c := After(keyOf, events);
    if !c.phase.Idle? || c.queued > 0 {
      assert Enabled(c, SomeDrain(c)) && IsDrain(SomeDrain(c));
    }
  }

  function SomeDrain(c: Conn): Event {
    match c.phase
    case Idle => StartDrain
    case AwaitAllowed(_) => Allowed(Accept)
    case AwaitDedupe(_, _, _, _) => Deduped(true)
    case AwaitWrite(_, _, _) => Written([])
  }

  /** So every reachable state settles: by drain steps alone it becomes quiescent, or fails. */
  lemma {:induction false} Settles(keyOf: KeyFn, events: seq<Event>) returns (more: seq<Event>)
    ensures forall i :: 0 <= i < |more| ==> IsDrain(more[i])
    ensures var c := After(keyOf, events + more); Quiescent(c) || c.failed.Some?
    decreases |After(keyOf, events).buffer|, Waits(After(keyOf, events).phase), After(keyOf, events).queued
  {
    hide Next, Waits;
    var c := After(keyOf, events);
    if c.failed.Some? || (c.phase.Idle? && c.queued == 0) {
      more := [];
      assert events + more == events;
    } else {
      RunAnswerable(keyOf, events);
      var e := SomeDrain(c);
      DrainsProgress(keyOf, c, e);
      assert (events + [e])[..|events|] == events;
      var rest := Settles(keyOf, events + [e]);
      more := [e] + rest;
      assert events + more == events + [e] + rest;
    }
  }

  // ---- Acknowledgements in order ---------------------------------------------------------------------

  /** The acknowledgements a list of frames calls for: one for each AVL packet, in order. */
  function Promised(keyOf: KeyFn, who: Text, fs: seq<Frame>): seq<Ack>
    requires AllFrames(fs)
  {
    if fs == [] then [] else
      var n := |fs| - 1;
      var last := Dispatch(fs[n]);
      Promised(keyOf, who, fs[..n]) + if last.Deliver? then [AckFor(keyOf, who, last.pkt)] else []
  }

  function Owner(c: Conn): Text { if c.login.Some? then c.login.value else [] }

  function Owed(keyOf: KeyFn, who: Text, p: Phase): seq<Ack> {
    if p.InHand() then [AckFor(keyOf, who, p.pkt)] else []
  }

  lemma PromisedSnoc(keyOf: KeyFn, who: Text, fs: seq<Frame>, f: Frame)
    requires AllFrames(fs) && IsFrame(f)
    ensures AllFrames(fs + [f])
    ensures Promised(keyOf, who, fs + [f]) ==
      Promised(keyOf, who, fs) + if Dispatch(f).Deliver? then [AckFor(keyOf, who, Dispatch(f).pkt)] else []
  {
    hide Dispatch, AckFor;
    assert (fs + [f])[..|fs|] == fs;
  }

  /** What was acknowledged is what came first; on an open socket all is, but for what is owed. */
  predicate Ordered(acks: seq<Ack>, all: seq<Ack>, owed: seq<Ack>, open: bool) {
    acks <= all && (open ==> all == acks + owed)
  }

  predicate InOrder(keyOf: KeyFn, c: Conn) {
    && AllFrames(c.handled) && (c.open ==> c.failed.None?)
    && Ordered(c.acks, Promised(keyOf, Owner(c), c.handled), Owed(keyOf, Owner(c), c.phase), c.open)
  }

  lemma OrderedGrows(acks: seq<Ack>, all: seq<Ack>, owed: seq<Ack>, open: bool, open': bool)
    requires Ordered(acks, all, [], open) && (open' ==> open)
    ensures Ordered(acks, all + owed, owed, open')
  {
    assert acks + [] == acks;
  }

  lemma {:induction false} LoopPromises(keyOf: KeyFn, who: Text, c: Conn)
    requires AllFrames(c.handled) && c.failed.None?
    ensures var r := FrameLoop(c);
      && AllFrames(r.handled)
      && Promised(keyOf, who, r.handled) == Promised(keyOf, who, c.handled) + Owed(keyOf, who, r.phase)
    decreases |c.buffer|
  {
    hide Dispatch, ExtractFrame, AllFrames, IsFrame, Downlink.Next, AckFor, Promised;
    if ExtractFrame(c.buffer).Some? {
      FrameSplits(c.buffer);
      ExtractIsFrame(c.buffer);
      var (frame, rest) := ExtractFrame(c.buffer).value;
      var c1 := c.(buffer := rest);
      PromisedSnoc(keyOf, who, c.handled, frame);
      match Dispatch(frame) {
        case Throw(_) =>
        case Ignore => LoopPromises(keyOf, who, Handle(c1, frame));
        case Respond(text) =>
          LoopPromises(keyOf, who, Handle(c1.(commands := Downlink.Next(c.commands, Downlink.Respond(text))), frame));
        case Deliver(pkt) =>
      }
    }
  }

  lemma LoopInOrder(keyOf: KeyFn, c: Conn)
    requires InOrder(keyOf, c.(phase := Idle))
    ensures InOrder(keyOf, FrameLoop(c))
  {
    hide FrameLoop, Promised, AllFrames, Ordered, Owed;
    var r := FrameLoop(c);
    LoopPhase(c);
    var all, owed := Promised(keyOf, Owner(c), c.handled), Owed(keyOf, Owner(c), r.phase);
    NothingOwed(keyOf, Owner(c));
    OrderedGrows(c.acks, all, owed, c.open, r.open);
    if c.failed.None? {
      LoopPromises(keyOf, Owner(c), c);
    } else {
      ClosedOrder(c.acks, all, owed);
    }
  }

  lemma NothingOwed(keyOf: KeyFn, who: Text)
    ensures Owed(keyOf, who, Idle) == []
  {}

  lemma ClosedOrder(acks: seq<Ack>, all: seq<Ack>, owed: seq<Ack>)
    requires Ordered(acks, all, [], false)
    ensures Ordered(acks, all, owed, false)
  {}

  /** Acknowledging the packet in hand pays what is owed. */
  lemma AckedInOrder(keyOf: KeyFn, c: Conn)
    requires Consumed(c) && InOrder(keyOf, c) && c.phase.InHand() && c.imei.Some?
    ensures InOrder(keyOf, Acked(keyOf, c).(phase := Idle))
  {
    hide ParseImei, Split, FailedAt, AckFor, AllFrames, Promised;
    var all := Promised(keyOf, Owner(c), c.handled);
    assert c.open ==> Owner(c) == c.imei.value;
    assert all + [] == all;
  }

  lemma NothingHandledInOrder(keyOf: KeyFn, c: Conn, who: Option<Text>, p: Phase)
    requires InOrder(keyOf, c) && c.handled == [] && !c.phase.InHand() && !p.InHand()
    ensures InOrder(keyOf, c.(login := who, phase := p))
  {
    hide AckFor;
  }

  /** The drain that parses the login. */
  lemma LoginInOrder(keyOf: KeyFn, c: Conn)
    requires Consumed(c) && InOrder(keyOf, c) && c.phase.Idle? && c.queued > 0 && c.imei.None?
    ensures InOrder(keyOf, StartDrainStep(c))
  {
    hide ParseImei, Split, FailedAt, FrameLoop, AllFrames, Promised, Ordered, AckFor;
    if c.failed.None? && ParseImei(c.buffer).Login? {
      var who := ParseImei(c.buffer).imei;
      NothingHandledInOrder(keyOf, c, Some(who), AwaitAllowed(who));
    }
    StoppedInOrder(keyOf, c.(queued := c.queued - 1), LoginError);
  }

  /** A drain that ends with an error owes nothing more: the socket is closed. */
  lemma StoppedInOrder(keyOf: KeyFn, c: Conn, why: Stop)
    requires InOrder(keyOf, c)
    ensures InOrder(keyOf, Fail(c, why))
  {
    hide AckFor, AllFrames, Promised;
  }

  lemma NextInOrder(keyOf: KeyFn, c: Conn, e: Event)
    requires Consumed(c) && InOrder(keyOf, c) && Enabled(c, e)
    ensures InOrder(keyOf, Next(keyOf, c, e))
  {
    hide Consumed, FrameLoop, Downlink.Next, AckFor, AllOk, AllFrames, Promised, StartDrainStep, Fail, Acked;
    match e {
      case Data(chunk) =>
      case StartDrain =>
        if c.imei.Some? {
          StartLoop(c);
          LoopInOrder(keyOf, c.(queued := c.queued - 1));
        } else {
          LoginInOrder(keyOf, c);
        }
      case Allowed(answer) =>
        LoopInOrder(keyOf, c.(imei := Some(c.phase.who)));
        StoppedInOrder(keyOf, c, Refused);
        StoppedInOrder(keyOf, c, LookupFailed);
      case Deduped(isNew) =>
      case DedupeFails => StoppedInOrder(keyOf, c, DedupeFailed);
      case Written(oks) =>
        AckedInOrder(keyOf, c);
        LoopInOrder(keyOf, Acked(keyOf, c));
        StoppedInOrder(keyOf, c, WriteRejected);
      case SendCommand =>
      case Timer(id) =>
      case Closed =>
    }
  }

  lemma StartLoop(c: Conn)
    requires c.queued > 0 && c.imei.Some?
    ensures StartDrainStep(c) == FrameLoop(c.(queued := c.queued - 1))
  {}

  /**
    In every run the acknowledgements sent are, in order, those of the AVL packets handled; while the socket is open
    none is missing except that of the packet in hand.
   */
  lemma {:induction false} AcksInOrder(keyOf: KeyFn, events: seq<Event>)
    ensures InOrder(keyOf, After(keyOf, events))
    decreases |events|
  {
    hide InOrder, Consumed, Drained, Enabled, Next;
    if events == [] {
      OpenedInOrder(keyOf);
    } else {
      var c, e := After(keyOf, events[..|events| - 1]), events[|events| - 1];
      AcksInOrder(keyOf, events[..|events| - 1]);
      RunConsumes(keyOf, events[..|events| - 1]);
      if Enabled(c, e) {
        NextInOrder(keyOf, c, e);
      }
    }
  }

  lemma OpenedInOrder(keyOf: KeyFn)
    ensures InOrder(keyOf, Opened)
  {}

  // ---- The command queue inside the session ---------------------------------------------------------

  /** Only sends and responses: neither a timeout nor a close. */
  predicate Plain(qs: seq<Downlink.Event>) { forall i :: 0 <= i < |qs| ==> qs[i].Send? || qs[i].Respond? }

  lemma QueueSnoc(qs: seq<Downlink.Event>, e: Downlink.Event)
    requires Downlink.Enabled(Downlink.After(qs), e)
    ensures Downlink.After(qs + [e]) == Downlink.Next(Downlink.After(qs), e)
    ensures Plain(qs + [e]) <==> Plain(qs) && (e.Send? || e.Respond?)
  {
    hide Downlink.Next;
    var all := qs + [e];
    assert all[..|qs|] == qs && all[|qs|] == e;
    assert forall i :: 0 <= i < |qs| ==> all[i] == qs[i];
  }

  lemma {:induction false} LoopRunsQueue(c: Conn, qs: seq<Downlink.Event>) returns (qs': seq<Downlink.Event>)
    requires Downlink.After(qs) == c.commands
    ensures Downlink.After(qs') == FrameLoop(c).commands && (Plain(qs) ==> Plain(qs'))
    decreases |c.buffer|
  {
    hide Dispatch, ExtractFrame, Downlink.Next, Downlink.After, Plain;
    qs' := qs;
    if ExtractFrame(c.buffer).Some? {
      FrameSplits(c.buffer);
      var (frame, rest) := ExtractFrame(c.buffer).value;
      var c1 := c.(buffer := rest);
      match Dispatch(frame) {
        case Throw(_) =>
        case Ignore => qs' := LoopRunsQueue(Handle(c1, frame), qs);
        case Respond(text) =>
          var e := Downlink.Respond(text);
          QueueSnoc(qs, e);
          qs' := LoopRunsQueue(Handle(c1.(commands := Downlink.Next(c.commands, e)), frame), qs + [e]);
        case Deliver(pkt) =>
      }
    }
  }

  lemma NextRunsQueue(keyOf: KeyFn, c: Conn, e: Event, qs: seq<Downlink.Event>) returns (qs': seq<Downlink.Event>)
    requires Downlink.After(qs) == c.commands && Enabled(c, e)
    ensures Downlink.After(qs') == Next(keyOf, c, e).commands
    ensures Plain(qs) && !e.Timer? && !e.Closed? ==> Plain(qs')
  {
    hide ParseImei, FrameLoop, Downlink.Next, Downlink.After, Plain, AckFor, AllOk;
    qs' := qs;
    match e {
      case StartDrain => if c.imei.Some? { qs' := LoopRunsQueue(c.(queued := c.queued - 1), qs); }
      case Allowed(answer) => if answer.Accept? { qs' := LoopRunsQueue(c.(imei := Some(c.phase.who)), qs); }
      case Written(oks) => if AllOk(oks) { qs' := LoopRunsQueue(Acked(keyOf, c), qs); }
      case SendCommand =>
        QueueSnoc(qs, Downlink.Send);
        qs' := qs + [Downlink.Send];
      case Timer(id) =>
        QueueSnoc(qs, Downlink.Timeout(id));
        qs' := qs + [Downlink.Timeout(id)];
      case Closed =>
        QueueSnoc(qs, Downlink.Close);
        qs' := qs + [Downlink.Close];
      case _ =>
    }
  }

  /** In every run of the session its queue is in a state the queue reaches on its own, so what is proved of it holds here. */
  lemma {:induction false} QueueRunsAlone(keyOf: KeyFn, events: seq<Event>) returns (qs: seq<Downlink.Event>)
    ensures Downlink.After(qs) == After(keyOf, events).commands
    ensures (forall i :: 0 <= i < |events| ==> !events[i].Timer? && !events[i].Closed?) ==> Plain(qs)
    decreases |events|
  {
    hide Enabled, Next;
    if events == [] {
      qs := [];
    } else {
      var c, e := After(keyOf, events[..|events| - 1]), events[|events| - 1];
      qs := QueueRunsAlone(keyOf, events[..|events| - 1]);
      if Enabled(c, e) {
        qs := NextRunsQueue(keyOf, c, e, qs);
      }
    }
  }

  /**
    In every run of the session, a command is unsettled iff it is queued with its timer armed, is settled once, and
    responses resolve commands in the order they were sent.
   */
  lemma RunKeepsQueue(keyOf: KeyFn, events: seq<Event>)
    ensures Downlink.Inv(After(keyOf, events).commands) && Downlink.InOrder(After(keyOf, events).commands)
  {
    hide Downlink.Inv, Downlink.InOrder, Downlink.After, After;
    var qs := QueueRunsAlone(keyOf, events);
    Downlink.SettledAtMostOnce(qs);
    Downlink.ResponsesNeverOvertake(qs);
  }

  /** In every run of the session without a timeout or a close, the n-th matched response resolves the n-th command. */
  lemma SessionResponsesInOrder(keyOf: KeyFn, events: seq<Event>)
    requires forall i :: 0 <= i < |events| ==> !events[i].Timer? && !events[i].Closed?
    ensures Downlink.Matched(After(keyOf, events).commands)
  {
    hide Downlink.ResolvedIds, Downlink.After, After;
    var qs := QueueRunsAlone(keyOf, events);
    Downlink.ResponsesInOrder(qs);
  }
}
