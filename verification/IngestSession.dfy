/**
  One Teltonika TCP session (session.ts) as a state machine over its await points. Bytes arrive at any moment
  (onData), while one serialized chain of drains parses the login, then frame after frame. A drain is suspended
  at three places only: the allow-list lookup, the deduper, and the sink.

  A step of the environment or of the event loop is an Event. An error ends the running drain and closes the socket, and
  drains already queued still run. The history of the connection is recorded up to the first error.
 */
module IngestSession {
  import opened Bytes
  import opened Avl
  import opened Protocol
  import Downlink
  import Dedupe

  type Key = Dedupe.Key

  /** dedupeKey, kept abstract: every property is stated over keys. */
  type KeyFn = (Text, AvlRecord) -> Key

  type Frame = seq<byte>

  datatype Action = Throw(error: Error) | Ignore | Respond(text: Text) | Deliver(pkt: DecodedAvl)

  /** What the drain does with a frame: by codec id, the byte at offset 8. */
  function Dispatch(frame: Frame): Action
    requires |frame| >= 12
  {
    if frame[8] == CODEC_12 then
      match DecodeCodec12(frame)
      case Err(e) => Throw(e)
      case Ok(m) => if m.kind == TYPE_RESPONSE then Respond(m.payload) else Ignore
    else if frame[8] == CODEC_8 || frame[8] == CODEC_8_EXT || frame[8] == CODEC_16 then
      match DecodeTcpPacket(frame)
      case Err(e) => Throw(e)
      case Ok(pkt) => Deliver(pkt)
    else Throw(UnsupportedCodec)
  }

  datatype Stop = LoginError | Refused | LookupFailed | FrameError(frame: Frame) | DedupeFailed | WriteRejected

  /** Where the current drain is. news and dups split the keys of the packet's records by the deduper's answer. */
  datatype Phase =
    | Idle
    | AwaitAllowed(who: Text)
    | AwaitDedupe(pkt: DecodedAvl, next: nat, news: seq<Key>, dups: set<Key>)
    | AwaitWrite(pkt: DecodedAvl, news: seq<Key>, dups: set<Key>)
  {
    predicate InHand() { AwaitDedupe? || AwaitWrite? }
  }

  /** An acknowledgement sent to the device: the count on the wire, and the keys of the records it covers. */
  datatype Ack = Ack(count: nat, keys: set<Key>)

  /**
    The first five fields are the session object; queued counts the drains chained but not started. open tells
    whether the socket still takes what is sent, failed what the first error was. received, login and handled record
    the connection until then, and acks what the device was sent.
   */
  datatype Conn = Conn(
    imei: Option<Text>, buffer: seq<byte>, queued: nat, phase: Phase, commands: Downlink.Queue,
    open: bool, failed: Option<Stop>, received: seq<byte>, login: Option<Text>, handled: seq<Frame>, acks: seq<Ack>)

  datatype AllowAnswer = Accept | Refuse | Fails

  /** Written gives the outcome at each target of the composite sink. */
  datatype Event =
    | Data(chunk: seq<byte>)
    | StartDrain
    | Allowed(answer: AllowAnswer)
    | Deduped(isNew: bool)
    | DedupeFails
    | Written(oks: seq<bool>)
    | SendCommand
    | Timer(id: nat)
    | Closed

  const Opened := Conn(None, [], 0, Idle, Downlink.EMPTY, true, None, [], None, [], [])

  predicate Enabled(c: Conn, e: Event) {
    match e
    case Data(_) => true
    case StartDrain => c.phase.Idle? && c.queued > 0
    case Allowed(_) => c.phase.AwaitAllowed?
    case Deduped(_) => c.phase.AwaitDedupe? && c.phase.next < |c.phase.pkt.records| && c.imei.Some?
    case DedupeFails => c.phase.AwaitDedupe? && c.imei.Some?
    case Written(_) => c.phase.AwaitWrite? && c.imei.Some?
    case SendCommand => c.imei.Some?
    case Timer(id) => id in c.commands.timers
    case Closed => true
  }

  /** The drain ends with an error, or a reject: the socket is closed. */
  function Fail(c: Conn, why: Stop): Conn {
    c.(phase := Idle, open := false, failed := if c.failed.None? then Some(why) else c.failed)
  }

  function Handle(c: Conn, frame: Frame): Conn {
    if c.failed.None? then c.(handled := c.handled + [frame]) else c
  }

  /** Phase 2 of drain: frames in a row, up to the first await, error, or incomplete frame. */
  function FrameLoop(c: Conn): Conn
    decreases |c.buffer|
  {
    match ExtractFrame(c.buffer)
    case None => c.(phase := Idle)
    case Some((frame, rest)) =>
      FrameSplits(c.buffer);
      var c1 := c.(buffer := rest);
      match Dispatch(frame)
      case Throw(_) => Fail(c1, FrameError(frame))
      case Ignore => FrameLoop(Handle(c1, frame))
      case Respond(text) =>
        FrameLoop(Handle(c1.(commands := Downlink.Next(c.commands, Downlink.Respond(text))), frame))
      case Deliver(pkt) =>
        Handle(c1, frame).(phase := if pkt.records == [] then AwaitWrite(pkt, [], {}) else AwaitDedupe(pkt, 0, [], {}))
  }

  function StartDrainStep(c: Conn): Conn
    requires c.queued > 0
  {
    var c1 := c.(queued := c.queued - 1);
    if c.imei.Some? then FrameLoop(c1) else
      match ParseImei(c.buffer)
      case NeedMore => c1
      case BadLogin(_) => Fail(c1, LoginError)
      case Login(who) =>
        LoginIsLong(c.buffer);
        c1.(buffer := c.buffer[LOGIN_LENGTH..], login := if c.failed.None? then Some(who) else c.login, phase := AwaitAllowed(who))
  }

  function AllowedStep(c: Conn, answer: AllowAnswer): Conn
    requires c.phase.AwaitAllowed?
  {
    match answer
    case Accept => FrameLoop(c.(imei := Some(c.phase.who)))
    case Refuse => Fail(c, Refused)
    case Fails => Fail(c, LookupFailed)
  }

  /** The key the drain is asking the deduper about. */
  function RecordKey(keyOf: KeyFn, c: Conn): Key
    requires Enabled(c, Deduped(true))
  {
    keyOf(c.imei.value, c.phase.pkt.records[c.phase.next])
  }

  function DedupedStep(keyOf: KeyFn, c: Conn, isNew: bool): Conn
    requires Enabled(c, Deduped(isNew))
  {
    var k := RecordKey(keyOf, c);
    var AwaitDedupe(pkt, next, news0, dups0) := c.phase;
    var news := if isNew then news0 + [k] else news0;
    var dups := if isNew then dups0 else dups0 + {k};
    c.(phase := if next + 1 < |pkt.records| then AwaitDedupe(pkt, next + 1, news, dups) else AwaitWrite(pkt, news, dups))
  }

  function PacketKeys(keyOf: KeyFn, imei: Text, rs: seq<AvlRecord>): set<Key> {
    set r | r in rs :: keyOf(imei, r)
  }

  function AckFor(keyOf: KeyFn, imei: Text, pkt: DecodedAvl): Ack {
    Ack(pkt.recordCount, PacketKeys(keyOf, imei, pkt.records))
  }

  predicate AllOk(oks: seq<bool>) { forall i :: 0 <= i < |oks| ==> oks[i] }

  /** The packet in hand is acknowledged; a closed socket drops what is sent. */
  function Acked(keyOf: KeyFn, c: Conn): Conn
    requires c.phase.InHand() && c.imei.Some?
  {
    if c.open then c.(acks := c.acks + [AckFor(keyOf, c.imei.value, c.phase.pkt)]) else c
  }

  /** CompositeSink.write resolves only if every target does; then, and only then, the packet is acknowledged. */
  function WrittenStep(keyOf: KeyFn, c: Conn, oks: seq<bool>): Conn
    requires Enabled(c, Written(oks))
  {
    if AllOk(oks) then FrameLoop(Acked(keyOf, c)) else Fail(c, WriteRejected)
  }

  function Next(keyOf: KeyFn, c: Conn, e: Event): Conn
    requires Enabled(c, e)
  {
    match e
    case Data(chunk) =>
      c.(buffer := c.buffer + chunk, queued := c.queued + 1,
         received := if c.failed.None? then c.received + chunk else c.received)
    case StartDrain => StartDrainStep(c)
    case Allowed(answer) => AllowedStep(c, answer)
    case Deduped(isNew) => DedupedStep(keyOf, c, isNew)
    case DedupeFails => Fail(c, DedupeFailed)
    case Written(oks) => WrittenStep(keyOf, c, oks)
    case SendCommand => c.(commands := Downlink.Next(c.commands, Downlink.Send))
    case Timer(id) => c.(commands := Downlink.Next(c.commands, Downlink.Timeout(id)))
    case Closed => c.(commands := Downlink.Next(c.commands, Downlink.Close), open := false)
  }

  /** The connection after a run; an event that is not enabled does not happen. */
  function After(keyOf: KeyFn, events: seq<Event>): Conn
    decreases |events|
  {
    if events == [] then Opened else
      var c, e := After(keyOf, events[..|events| - 1]), events[|events| - 1];
      if Enabled(c, e) then Next(keyOf, c, e) else c
  }

  // ---- The session object ------------------------------------------------------------------

  class Session {
    const keyOf: KeyFn
    const queue: Downlink.CommandQueue
    var imei: Option<Text>
    var buffer: seq<byte>
    var queued: nat
    var phase: Phase
    ghost var open: bool
    ghost var failed: Option<Stop>
    ghost var received: seq<byte>
    ghost var login: Option<Text>
    ghost var handled: seq<Frame>
    ghost var acks: seq<Ack>

    ghost function Abs(): Conn
      reads this, queue
    {
      Conn(imei, buffer, queued, phase, queue.Abs(), open, failed, received, login, handled, acks)
    }

    constructor (keyOf: KeyFn)
      ensures Abs() == Opened && this.keyOf == keyOf && fresh(queue)
    {
      this.keyOf := keyOf;
      queue := new Downlink.CommandQueue();
      imei, buffer, queued, phase := None, [], 0, Idle;
      open, failed, received, login, handled, acks := true, None, [], None, [], [];
    }

    method OnData(chunk: seq<byte>)
      modifies this
      ensures Abs() == Next(keyOf, old(Abs()), Data(chunk))
    {
      buffer := buffer + chunk;
      queued := queued + 1;
      if failed.None? {
        received := received + chunk;
      }
    }

    /** drain, from its start to its first suspension. */
    method Drain()
      requires phase.Idle? && queued > 0
      modifies this, queue
      ensures Abs() == Next(keyOf, old(Abs()), StartDrain)
    {
      hide ParseImei, FrameLoop;
      queued := queued - 1;
      if imei.None? {
        match ParseImei(buffer) {
          case NeedMore =>
          case BadLogin(_) => Abort(LoginError);
          case Login(who) =>
            LoginIsLong(buffer);
            buffer := buffer[LOGIN_LENGTH..];
            login := if failed.None? then Some(who) else login;
            phase := AwaitAllowed(who);
        }
      } else {
        Frames();
      }
    }

    /** fail, and the reject branch: the socket is closed and the drain is over. */
    method Abort(ghost why: Stop)
      modifies this
      ensures Abs() == Fail(old(Abs()), why)
    {
      phase := Idle;
      open := false;
      failed := if failed.None? then Some(why) else failed;
    }

    /** drain, resumed by the allow-list lookup. */
    method OnAllowed(answer: AllowAnswer)
      requires phase.AwaitAllowed?
      modifies this, queue
      ensures Abs() == Next(keyOf, old(Abs()), Allowed(answer))
    {
      hide FrameLoop;
      match answer {
        case Accept =>
          imei := Some(phase.who);
          Frames();
        case Refuse => Abort(Refused);
        case Fails => Abort(LookupFailed);
      }
    }

    /** The while loop over frames. */
    method Frames()
      modifies this, queue
      ensures Abs() == FrameLoop(old(Abs()))
    {
      hide ExtractFrame, Dispatch, Downlink.Next;
      ghost var goal := FrameLoop(Abs());
      var f := ExtractFrame(buffer);
      while f.Some?
        invariant f == ExtractFrame(buffer) && FrameLoop(Abs()) == goal
        decreases |buffer|
      {
        var (frame, rest) := f.value;
        FrameSplits(buffer);
        buffer := rest;
        match Dispatch(frame) {
          case Throw(_) =>
            Abort(FrameError(frame));
            return;
          case Ignore =>
          case Respond(text) => var _ := queue.OnResponse(text);
          case Deliver(pkt) =>
            phase := if pkt.records == [] then AwaitWrite(pkt, [], {}) else AwaitDedupe(pkt, 0, [], {});
            handled := if failed.None? then handled + [frame] else handled;
            return;
        }
        handled := if failed.None? then handled + [frame] else handled;
        f := ExtractFrame(buffer);
      }
      phase := Idle;
    }

    /** handleAvl, resumed by the deduper. */
    method OnDeduped(isNew: bool)
      requires phase.AwaitDedupe? && phase.next < |phase.pkt.records| && imei.Some?
      modifies this
      ensures Abs() == Next(keyOf, old(Abs()), Deduped(isNew))
    {
      var AwaitDedupe(pkt, next, news, dups) := phase;
      var k := keyOf(imei.value, pkt.records[next]);
      if isNew {
        news := news + [k];
      } else {
        dups := dups + {k};
      }
      if next + 1 < |pkt.records| {
        phase := AwaitDedupe(pkt, next + 1, news, dups);
      } else {
        phase := AwaitWrite(pkt, news, dups);
      }
    }

    /** handleAvl, given up when the deduper's promise rejects. */
    method OnDedupeFailed()
      requires phase.AwaitDedupe? && imei.Some?
      modifies this
      ensures Abs() == Next(keyOf, old(Abs()), DedupeFails)
    {
      Abort(DedupeFailed);
    }

    /** handleAvl, resumed by the sink. */
    method OnWritten(oks: seq<bool>)
      requires phase.AwaitWrite? && imei.Some?
      modifies this, queue
      ensures Abs() == Next(keyOf, old(Abs()), Written(oks))
    {
      hide FrameLoop, PacketKeys, AllOk;
      if AllOk(oks) {
        acks := if open then acks + [AckFor(keyOf, imei.value, phase.pkt)] else acks;
        Frames();
      } else {
        Abort(WriteRejected);
      }
    }

    /** sendCommand: None stands for the error thrown before the login. */
    method SendCommand() returns (id: Option<nat>)
      modifies queue
      ensures id.Some? <==> imei.Some?
      ensures Abs() == if id.Some? then Next(keyOf, old(Abs()), Event.SendCommand) else old(Abs())
    {
      if imei.None? {
        return None;
      }
      var sent := queue.SendCommand();
      id := Some(sent);
    }

    method OnTimer(id: nat)
      requires Downlink.Distinct(queue.pending) && id in queue.timers
      modifies queue
      ensures Abs() == Next(keyOf, old(Abs()), Timer(id))
    {
      queue.OnTimeout(id);
    }

    method OnClosed()
      modifies this, queue
      ensures Abs() == Next(keyOf, old(Abs()), Closed)
    {
      open := false;
      queue.OnClosed();
    }
  }
}
