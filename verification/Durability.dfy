/**
  Any number of sessions at once, on one deduper and one composite sink (session.ts, tcp-server.ts, sinks.ts): devices
  connect, drop and reconnect at any moment, and a session whose socket is gone goes on with the packet in its hands.
 */
module Durability {
  import opened Bytes
  import opened Avl
  import opened Protocol
  import opened IngestSession
  import IngestProofs
  import Downlink

  /** A write that was answered: the keys of its records, and the outcome at each target. */
  datatype Write = Write(keys: set<Key>, oks: seq<bool>)

  /**
    The sessions, oldest first; the keys the deduper was told are taken, and those of them dropped unwritten because it
    failed later in the same packet; what each target holds; the answered writes.
   */
  datatype World = World(conns: seq<Conn>, claimed: set<Key>, dropped: set<Key>, stores: seq<set<Key>>, writes: seq<Write>)

  datatype Step = Connect | At(conn: nat, event: Event)

  function Start(targets: nat): World { World([], {}, {}, seq(targets, _ => {}), []) }

  /**
    The deduper may answer as it likes, except that a duplicate was claimed before (Dedupe.DuplicateWasClaimed). A write
    is answered once by each target.
   */
  predicate Possible(keyOf: KeyFn, w: World, s: Step) {
    s.At? ==>
      && s.conn < |w.conns| && Enabled(w.conns[s.conn], s.event)
      && (s.event == Deduped(false) ==> RecordKey(keyOf, w.conns[s.conn]) in w.claimed)
      && (s.event.Written? ==> |s.event.oks| == |w.stores|)
  }

  function ToSet(ks: seq<Key>): set<Key> { set k | k in ks }

  function Store(stores: seq<set<Key>>, oks: seq<bool>, ks: set<Key>): (r: seq<set<Key>>)
    requires |oks| == |stores|
    ensures |r| == |stores|
    ensures forall t :: 0 <= t < |r| ==> r[t] == if oks[t] then stores[t] + ks else stores[t]
  {
    seq(|stores|, t requires 0 <= t < |stores| => if oks[t] then stores[t] + ks else stores[t])
  }

  function Then(keyOf: KeyFn, w: World, s: Step): World
    requires Possible(keyOf, w, s)
  {
    match s
    case Connect => w.(conns := w.conns + [Opened])
    case At(i, e) =>
      var c := w.conns[i];
      var w1 := w.(conns := w.conns[i := IngestSession.Next(keyOf, c, e)]);
      match e
      case Deduped(isNew) => if isNew then w1.(claimed := w.claimed + {RecordKey(keyOf, c)}) else w1
      case DedupeFails => w1.(dropped := w.dropped + ToSet(c.phase.news))
      case Written(oks) =>
        var keys := ToSet(c.phase.news);
        w1.(stores := Store(w.stores, oks, keys), writes := w.writes + [Write(keys, oks)])
      case _ => w1
  }

  /** The world after a run; a step that is not possible does not happen. */
  function After(keyOf: KeyFn, targets: nat, steps: seq<Step>): World
    decreases |steps|
  {
    if steps == [] then Start(targets) else
      var w, s := After(keyOf, targets, steps[..|steps| - 1]), steps[|steps| - 1];
      if Possible(keyOf, w, s) then Then(keyOf, w, s) else w
  }

  // ---- Each session runs as if alone -----------------------------------------------------------------

  /** Every session of every run is in a state one session reaches on its own, so what is proved of one holds of all. */
  lemma {:induction false} SessionsRunAlone(keyOf: KeyFn, targets: nat, steps: seq<Step>, i: nat) returns (events: seq<Event>)
    requires i < |After(keyOf, targets, steps).conns|
    ensures After(keyOf, targets, steps).conns[i] == IngestSession.After(keyOf, events)
    decreases |steps|
  {
    hide Enabled, IngestSession.Next, Store;
    var w, s := After(keyOf, targets, steps[..|steps| - 1]), steps[|steps| - 1];
    if i < |w.conns| {
      events := SessionsRunAlone(keyOf, targets, steps[..|steps| - 1], i);
      if Possible(keyOf, w, s) && s.At? && s.conn == i {
        assert (events + [s.event])[..|events|] == events;
        events := events + [s.event];
      }
    } else {
      events := [];
    }
  }

  // ---- What is durable -------------------------------------------------------------------------------

  /** A key is durable when every target of the composite sink holds it. */
  predicate Durable(stores: seq<set<Key>>, k: Key) { forall t :: 0 <= t < |stores| ==> k in stores[t] }

  predicate AllDurable(stores: seq<set<Key>>, ks: set<Key>) { forall k :: k in ks ==> Durable(stores, k) }

  function News(c: Conn): set<Key> { if c.phase.InHand() then ToSet(c.phase.news) else {} }

  function Dups(c: Conn): set<Key> { if c.phase.InHand() then c.phase.dups else {} }

  /** The keys of the records the deduper has already answered for, in the packet in hand. */
  function Answered(keyOf: KeyFn, c: Conn): set<Key> {
    match c.phase
    case AwaitDedupe(pkt, next, _, _) =>
      if c.imei.Some? && next <= |pkt.records| then PacketKeys(keyOf, c.imei.value, pkt.records[..next]) else {}
    case AwaitWrite(pkt, _, _) => if c.imei.Some? then PacketKeys(keyOf, c.imei.value, pkt.records) else {}
    case _ => {}
  }

  /** The packet in hand: its answered records are sorted into new and duplicate, and all their keys are claimed. */
  predicate Sorted(keyOf: KeyFn, c: Conn, claimed: set<Key>) {
    && News(c) + Dups(c) == Answered(keyOf, c) && News(c) + Dups(c) <= claimed
    && (c.phase.AwaitDedupe? ==> c.phase.next < |c.phase.pkt.records|)
    && (c.phase.InHand() ==> c.imei.Some?)
  }

  /** Some write of k was answered. */
  predicate Tried(writes: seq<Write>, k: Key) { exists j :: 0 <= j < |writes| && k in writes[j].keys }

  /** Target t accepted some write of k. */
  predicate Accepted(writes: seq<Write>, t: nat, k: Key) {
    exists j :: 0 <= j < |writes| && k in writes[j].keys && t < |writes[j].oks| && writes[j].oks[t]
  }

  /** Some session has k in its hands, as new, and no answer for its write yet. */
  predicate Held(conns: seq<Conn>, k: Key) { exists i :: 0 <= i < |conns| && k in News(conns[i]) }

  /** What a target holds is what it accepted. */
  ghost predicate StoresTrue(stores: seq<set<Key>>, writes: seq<Write>) {
    forall t: nat, k: Key :: t < |stores| ==> (k in stores[t] <==> Accepted(writes, t, k))
  }

  predicate AllSorted(keyOf: KeyFn, conns: seq<Conn>, claimed: set<Key>) {
    forall i :: 0 <= i < |conns| ==> Sorted(keyOf, conns[i], claimed)
  }

  /** A claimed key was written, with whatever outcome, or is still in the hands of a session, or was dropped. */
  predicate AllAccounted(conns: seq<Conn>, claimed: set<Key>, dropped: set<Key>, writes: seq<Write>) {
    forall k :: k in claimed ==> Tried(writes, k) || Held(conns, k) || k in dropped
  }

  ghost predicate Accounted(keyOf: KeyFn, w: World) {
    && AllSorted(keyOf, w.conns, w.claimed)
    && AllAccounted(w.conns, w.claimed, w.dropped, w.writes)
    && StoresTrue(w.stores, w.writes)
  }

  lemma LoopSorted(keyOf: KeyFn, c: Conn, claimed: set<Key>)
    requires c.imei.Some?
    ensures Sorted(keyOf, FrameLoop(c), claimed) && News(FrameLoop(c)) == {}
  {
    hide FrameLoop;
    IngestProofs.LoopPhase(c);
  }

  lemma KeysSnoc(keyOf: KeyFn, imei: Text, rs: seq<AvlRecord>, n: nat)
    requires n < |rs|
    ensures PacketKeys(keyOf, imei, rs[..n + 1]) == PacketKeys(keyOf, imei, rs[..n]) + {keyOf(imei, rs[n])}
  {}

  lemma DedupedSorted(keyOf: KeyFn, c: Conn, claimed: set<Key>, isNew: bool)
    requires Sorted(keyOf, c, claimed) && Enabled(c, Deduped(isNew))
    ensures var k := RecordKey(keyOf, c); var c' := DedupedStep(keyOf, c, isNew);
      && (isNew ==> News(c') == News(c) + {k} && Sorted(keyOf, c', claimed + {k}))
      && (!isNew && k in claimed ==> News(c') == News(c) && Sorted(keyOf, c', claimed))
  {
    hide PacketKeys;
    var AwaitDedupe(pkt, next, news, dups) := c.phase;
    var k := RecordKey(keyOf, c);
    var rs := pkt.records;
    KeysSnoc(keyOf, c.imei.value, rs, next);
    assert ToSet(news + [k]) == ToSet(news) + {k};
    assert next + 1 == |rs| ==> rs[..next + 1] == rs;
  }

  /** Every other step of a session leaves its packet alone, or ends it, or brings the next one with nothing answered. */
  lemma StepSorted(keyOf: KeyFn, c: Conn, claimed: set<Key>, e: Event)
    requires Sorted(keyOf, c, claimed) && Enabled(c, e) && !e.Deduped?
    ensures var c' := IngestSession.Next(keyOf, c, e);
      Sorted(keyOf, c', claimed) && (News(c') == News(c) || ((e.Written? || e.DedupeFails?) && News(c') == {}))
  {
    hide ParseImei, FrameLoop, Downlink.Next, AllOk, PacketKeys, AckFor;
    match e {
      case Data(chunk) =>
      case StartDrain => if c.imei.Some? { LoopSorted(keyOf, c.(queued := c.queued - 1), claimed); }
      case Allowed(answer) => LoopSorted(keyOf, c.(imei := Some(c.phase.who)), claimed);
      case DedupeFails =>
      case Written(oks) => LoopSorted(keyOf, Acked(keyOf, c), claimed);
      case SendCommand =>
      case Timer(id) =>
      case Closed =>
    }
  }

  lemma SortedMore(keyOf: KeyFn, conns: seq<Conn>, claimed: set<Key>, i: nat, c: Conn, more: set<Key>)
    requires AllSorted(keyOf, conns, claimed) && i < |conns| && Sorted(keyOf, c, claimed + more)
    ensures AllSorted(keyOf, conns[i := c], claimed + more)
  {
    hide News, Dups, Answered;
    var conns' := conns[i := c];
    forall j | 0 <= j < |conns'|
      ensures Sorted(keyOf, conns'[j], claimed + more)
    {
      if j != i { assert Sorted(keyOf, conns[j], claimed); }
    }
  }

  /** A session that changes what it holds: the other holders are still there. */
  lemma HeldMoves(conns: seq<Conn>, i: nat, c: Conn, k: Key)
    requires i < |conns|
    ensures Held(conns, k) && (k in News(conns[i]) ==> k in News(c)) ==> Held(conns[i := c], k)
    ensures k in News(c) ==> Held(conns[i := c], k)
    ensures Held(conns, k) && !Held(conns[i := c], k) ==> k in News(conns[i])
  {
    hide News;
    var conns' := conns[i := c];
    if k in News(c) { assert k in News(conns'[i]); }
    if Held(conns, k) {
      var j :| 0 <= j < |conns| && k in News(conns[j]);
      if j != i { assert k in News(conns'[j]); }
    }
  }

  lemma TriedSnoc(writes: seq<Write>, x: Write, k: Key)
    ensures Tried(writes + [x], k) <==> Tried(writes, k) || k in x.keys
  {
    var all := writes + [x];
    if Tried(writes, k) {
      var j :| 0 <= j < |writes| && k in writes[j].keys;
      assert k in all[j].keys;
    }
    if k in x.keys { assert k in all[|writes|].keys; }
  }

  lemma AcceptedSnoc(writes: seq<Write>, x: Write, t: nat, k: Key)
    ensures Accepted(writes + [x], t, k) <==> Accepted(writes, t, k) || (k in x.keys && t < |x.oks| && x.oks[t])
  {
    var all := writes + [x];
    if Accepted(writes, t, k) {
      var j :| 0 <= j < |writes| && k in writes[j].keys && t < |writes[j].oks| && writes[j].oks[t];
      assert k in all[j].keys && all[j].oks[t];
    }
    if k in x.keys && t < |x.oks| && x.oks[t] { assert k in all[|writes|].keys && all[|writes|].oks[t]; }
  }

  lemma StoredTrue(stores: seq<set<Key>>, writes: seq<Write>, x: Write)
    requires StoresTrue(stores, writes) && |x.oks| == |stores|
    ensures StoresTrue(Store(stores, x.oks, x.keys), writes + [x])
  {
    hide Accepted;
    forall t: nat, k: Key | t < |stores|
      ensures k in Store(stores, x.oks, x.keys)[t] <==> Accepted(writes + [x], t, k)
    {
      AcceptedSnoc(writes, x, t, k);
    }
  }

  lemma ConnectAccounted(keyOf: KeyFn, w: World)
    requires Accounted(keyOf, w)
    ensures Accounted(keyOf, Then(keyOf, w, Connect))
  {
    hide Sorted, StoresTrue, Tried;
    var conns' := w.conns + [Opened];
    forall k | Held(w.conns, k)
      ensures Held(conns', k)
    {
      var i :| 0 <= i < |w.conns| && k in News(w.conns[i]);
      assert k in News(conns'[i]);
    }
    assert Sorted(keyOf, Opened, w.claimed) by { OpenedSorted(keyOf, w.claimed); }
  }

  lemma OpenedSorted(keyOf: KeyFn, claimed: set<Key>)
    ensures Sorted(keyOf, Opened, claimed)
  {}

  lemma DedupedAccounted(keyOf: KeyFn, w: World, i: nat, isNew: bool)
    requires Accounted(keyOf, w) && Possible(keyOf, w, At(i, Deduped(isNew)))
    ensures Accounted(keyOf, Then(keyOf, w, At(i, Deduped(isNew))))
  {
    hide Sorted, StoresTrue, Tried, Held, DedupedStep, News;
    var c := w.conns[i];
    var c' := DedupedStep(keyOf, c, isNew);
    DedupedSorted(keyOf, c, w.claimed, isNew);
    var k0 := RecordKey(keyOf, c);
    if isNew {
      SortedMore(keyOf, w.conns, w.claimed, i, c', {k0});
    } else {
      assert w.claimed + {} == w.claimed;
      SortedMore(keyOf, w.conns, w.claimed, i, c', {});
    }
    forall k { HeldMoves(w.conns, i, c', k); }
  }

  lemma WrittenAccounted(keyOf: KeyFn, w: World, i: nat, oks: seq<bool>)
    requires Accounted(keyOf, w) && Possible(keyOf, w, At(i, Written(oks)))
    ensures Accounted(keyOf, Then(keyOf, w, At(i, Written(oks))))
  {
    hide Sorted, StoresTrue, Tried, Held, IngestSession.Next, Store;
    var c := w.conns[i];
    var c' := IngestSession.Next(keyOf, c, Written(oks));
    var x := Write(ToSet(c.phase.news), oks);
    StepSorted(keyOf, c, w.claimed, Written(oks));
    assert w.claimed + {} == w.claimed;
    SortedMore(keyOf, w.conns, w.claimed, i, c', {});
    StoredTrue(w.stores, w.writes, x);
    forall k { HeldMoves(w.conns, i, c', k); }
    forall k { TriedSnoc(w.writes, x, k); }
  }

  lemma OtherAccounted(keyOf: KeyFn, w: World, i: nat, e: Event)
    requires Accounted(keyOf, w) && Possible(keyOf, w, At(i, e)) && !e.Deduped? && !e.Written?
    ensures Accounted(keyOf, Then(keyOf, w, At(i, e)))
  {
    hide Sorted, StoresTrue, Tried, Held, IngestSession.Next;
    var c' := IngestSession.Next(keyOf, w.conns[i], e);
    StepSorted(keyOf, w.conns[i], w.claimed, e);
    assert w.claimed + {} == w.claimed;
    SortedMore(keyOf, w.conns, w.claimed, i, c', {});
    forall k { HeldMoves(w.conns, i, c', k); }
  }

  /** In every run, each key the deduper has claimed was written, is still in the hands of a session, or was dropped. */
  lemma {:induction false} RunAccounted(keyOf: KeyFn, targets: nat, steps: seq<Step>)
    ensures var w := After(keyOf, targets, steps); Accounted(keyOf, w) && |w.stores| == targets
    decreases |steps|
  {
    hide Accounted, Enabled, IngestSession.Next;
    if steps == [] {
      StartAccounted(keyOf, targets);
    } else {
      var w, s := After(keyOf, targets, steps[..|steps| - 1]), steps[|steps| - 1];
      RunAccounted(keyOf, targets, steps[..|steps| - 1]);
      if Possible(keyOf, w, s) {
        match s
        case Connect => ConnectAccounted(keyOf, w);
        case At(i, e) =>
          match e
          case Deduped(isNew) => DedupedAccounted(keyOf, w, i, isNew);
          case Written(oks) => WrittenAccounted(keyOf, w, i, oks);
          case _ => OtherAccounted(keyOf, w, i, e);
      }
    }
  }

  lemma StartAccounted(keyOf: KeyFn, targets: nat)
    ensures Accounted(keyOf, Start(targets))
  {}

  // ---- When an acknowledgement is honest -------------------------------------------------------------------

  /** There is a target to wait for, and no write of k has been answered. */
  predicate Unanswered(w: World, k: Key) { w.stores != [] && !Tried(w.writes, k) }

  /** Writes of k were answered, and one target refused them all. */
  predicate Refused(w: World, k: Key) {
    && Tried(w.writes, k)
    && exists t: nat :: t < |w.stores| && RefusedAll(w.writes, t, k)
  }

  predicate RefusedAll(writes: seq<Write>, t: nat, k: Key) {
    forall j :: 0 <= j < |writes| && k in writes[j].keys ==> t >= |writes[j].oks| || !writes[j].oks[t]
  }

  lemma DurableIs(w: World, k: Key)
    requires StoresTrue(w.stores, w.writes)
    ensures Durable(w.stores, k) <==> !Unanswered(w, k) && !Refused(w, k)
  {
    if Unanswered(w, k) {
      assert !Accepted(w.writes, 0, k);
    } else if Refused(w, k) {
      var t: nat :| t < |w.stores| && RefusedAll(w.writes, t, k);
      assert !Accepted(w.writes, t, k);
    } else {
      forall t: nat | t < |w.stores|
        ensures k in w.stores[t]
      {
        assert !RefusedAll(w.writes, t, k);
        assert Accepted(w.writes, t, k);
      }
    }
  }

  lemma StoredDurable(stores: seq<set<Key>>, oks: seq<bool>, ks: set<Key>, k: Key)
    requires |oks| == |stores|
    ensures Durable(stores, k) ==> Durable(Store(stores, oks, ks), k)
    ensures k in ks && AllOk(oks) ==> Durable(Store(stores, oks, ks), k)
    ensures k !in ks && Durable(Store(stores, oks, ks), k) ==> Durable(stores, k)
  {}

  /**
    Exactly when an acknowledgement is honest. In any reachable world, when every target accepts the write of a
    session, the whole packet is durable if and only if none of its records was waved through as a duplicate of a key,
    not also new in this packet, whose writes are unanswered or were all refused by one target. An unanswered one is in
    the hands of another session, or was dropped by a failing deduper.
   */
  lemma AckIsDurableIff(keyOf: KeyFn, targets: nat, steps: seq<Step>, i: nat, oks: seq<bool>)
    requires Possible(keyOf, After(keyOf, targets, steps), At(i, Written(oks))) && AllOk(oks)
    ensures var w := After(keyOf, targets, steps); var w' := Then(keyOf, w, At(i, Written(oks)));
      var c := w.conns[i]; var ack := AckFor(keyOf, c.imei.value, c.phase.pkt);
      && w'.conns[i].acks == c.acks + (if c.open then [ack] else [])
      && (AllDurable(w'.stores, ack.keys) <==>
          forall k :: k in Dups(c) - News(c) ==> !Unanswered(w, k) && !Refused(w, k))
      && (forall k :: k in Dups(c) - News(c) && Unanswered(w, k) ==>
            k in w.dropped || exists j :: 0 <= j < |w.conns| && j != i && k in News(w.conns[j]))
  {
    hide After, FrameLoop, Durable, Store, PacketKeys, Tried, StoresTrue;
    RunAccounted(keyOf, targets, steps);
    var w := After(keyOf, targets, steps);
    var c := w.conns[i];
    var news := ToSet(c.phase.news);
    assert Sorted(keyOf, c, w.claimed);
    IngestProofs.LoopPhase(Acked(keyOf, c));
    forall k
      ensures Durable(w.stores, k) <==> !Unanswered(w, k) && !Refused(w, k)
      ensures Durable(w.stores, k) ==> Durable(Store(w.stores, oks, news), k)
      ensures k in news ==> Durable(Store(w.stores, oks, news), k)
      ensures k !in news && Durable(Store(w.stores, oks, news), k) ==> Durable(w.stores, k)
    {
      DurableIs(w, k);
      StoredDurable(w.stores, oks, news, k);
    }
  }

  // ---- Durable before ack ----------------------------------------------------------------------------------

  /** Step n of a run is the answer, by every target, to a write of a session whose socket is open: an ack is sent. */
  predicate Acknowledges(keyOf: KeyFn, targets: nat, steps: seq<Step>, n: nat) {
    && n < |steps| && steps[n].At? && steps[n].event.Written? && AllOk(steps[n].event.oks)
    && var w := After(keyOf, targets, steps[..n]);
       Possible(keyOf, w, steps[n]) && w.conns[steps[n].conn].open
  }

  /** No record of the packet is a duplicate, not also new, of a key whose writes are unanswered or all refused somewhere. */
  predicate Undisputed(w: World, i: nat)
    requires i < |w.conns|
  {
    forall k :: k in Dups(w.conns[i]) - News(w.conns[i]) ==> !Unanswered(w, k) && !Refused(w, k)
  }

  /** Every key of the packet that step n acknowledges is held by every target at that moment. */
  predicate Honest(keyOf: KeyFn, targets: nat, steps: seq<Step>, n: nat)
    requires Acknowledges(keyOf, targets, steps, n)
  {
    var w := After(keyOf, targets, steps[..n]);
    IsInHand(keyOf, w, steps[n]);
    var c := w.conns[steps[n].conn];
    AllDurable(Then(keyOf, w, steps[n]).stores, AckFor(keyOf, c.imei.value, c.phase.pkt).keys)
  }

  lemma IsInHand(keyOf: KeyFn, w: World, s: Step)
    requires Possible(keyOf, w, s) && s.At? && s.event.Written?
    ensures var c := w.conns[s.conn]; c.imei.Some? && c.phase.AwaitWrite?
  {}

  ghost predicate HonestRun(keyOf: KeyFn, targets: nat, steps: seq<Step>) {
    forall n: nat :: Acknowledges(keyOf, targets, steps, n) ==> Honest(keyOf, targets, steps, n)
  }

  ghost predicate UndisputedRun(keyOf: KeyFn, targets: nat, steps: seq<Step>) {
    forall n: nat :: Acknowledges(keyOf, targets, steps, n) ==>
      Undisputed(After(keyOf, targets, steps[..n]), steps[n].conn)
  }

  predicate AcksDurable(conns: seq<Conn>, stores: seq<set<Key>>) {
    forall i, a :: 0 <= i < |conns| && 0 <= a < |conns[i].acks| ==> AllDurable(stores, conns[i].acks[a].keys)
  }

  lemma NextAcks(keyOf: KeyFn, c: Conn, e: Event)
    requires Enabled(c, e) && !e.Written?
    ensures IngestSession.Next(keyOf, c, e).acks == c.acks
  {
    hide ParseImei, FrameLoop, Downlink.Next;
    match e {
      case StartDrain => IngestProofs.LoopPhase(c.(queued := c.queued - 1));
      case Allowed(answer) => IngestProofs.LoopPhase(c.(imei := Some(c.phase.who)));
      case _ =>
    }
  }

  /** Durability is never lost, so neither is that of acknowledgements already sent. */
  lemma AcksStayDurable(conns: seq<Conn>, stores: seq<set<Key>>, conns': seq<Conn>, oks: seq<bool>, ks: set<Key>, i: nat)
    requires AcksDurable(conns, stores) && |oks| == |stores| && i < |conns| == |conns'|
    requires forall j :: 0 <= j < |conns| && j != i ==> conns'[j].acks == conns[j].acks
    requires |conns'[i].acks| >= |conns[i].acks| && conns'[i].acks[..|conns[i].acks|] == conns[i].acks
    requires forall a :: |conns[i].acks| <= a < |conns'[i].acks| ==> AllDurable(Store(stores, oks, ks), conns'[i].acks[a].keys)
    ensures AcksDurable(conns', Store(stores, oks, ks))
  {
    hide Durable, Store;
    var stores' := Store(stores, oks, ks);
    forall j, a | 0 <= j < |conns'| && 0 <= a < |conns'[j].acks|
      ensures AllDurable(stores', conns'[j].acks[a].keys)
    {
      if j != i || a < |conns[i].acks| {
        assert conns'[j].acks[a] == conns[j].acks[a];
        assert AllDurable(stores, conns[j].acks[a].keys);
        forall k | k in conns[j].acks[a].keys
          ensures Durable(stores', k)
        {
          StoredDurable(stores, oks, ks, k);
        }
      }
    }
  }

  lemma HonestIff(keyOf: KeyFn, targets: nat, steps: seq<Step>, n: nat)
    requires Acknowledges(keyOf, targets, steps, n)
    ensures Honest(keyOf, targets, steps, n) <==> Undisputed(After(keyOf, targets, steps[..n]), steps[n].conn)
  {
    hide After, IngestSession.Next, Durable, Store, Unanswered, Refused, PacketKeys, Dups, News, AllOk;
    var s := steps[n];
    assert s == At(s.conn, Written(s.event.oks));
    AckIsDurableIff(keyOf, targets, steps[..n], s.conn, s.event.oks);
  }

  lemma WrittenAcks(keyOf: KeyFn, c: Conn, oks: seq<bool>)
    requires Enabled(c, Written(oks))
    ensures IngestSession.Next(keyOf, c, Written(oks)).acks ==
      c.acks + if AllOk(oks) && c.open then [AckFor(keyOf, c.imei.value, c.phase.pkt)] else []
  {
    hide FrameLoop, AckFor;
    IngestProofs.LoopPhase(Acked(keyOf, c));
  }

  lemma WrittenDurable(keyOf: KeyFn, w: World, i: nat, oks: seq<bool>)
    requires Possible(keyOf, w, At(i, Written(oks))) && AcksDurable(w.conns, w.stores)
    requires var w' := Then(keyOf, w, At(i, Written(oks))); var c := w.conns[i];
      AllOk(oks) && c.open ==> AllDurable(w'.stores, AckFor(keyOf, c.imei.value, c.phase.pkt).keys)
    ensures var w' := Then(keyOf, w, At(i, Written(oks))); AcksDurable(w'.conns, w'.stores)
  {
    hide IngestSession.Next, AllDurable, Store, AckFor, AllOk;
    var w' := Then(keyOf, w, At(i, Written(oks)));
    WrittenAcks(keyOf, w.conns[i], oks);
    AcksStayDurable(w.conns, w.stores, w'.conns, oks, ToSet(w.conns[i].phase.news), i);
  }

  lemma StoreNothing(stores: seq<set<Key>>, oks: seq<bool>)
    requires |oks| == |stores|
    ensures Store(stores, oks, {}) == stores
  {
    var r := Store(stores, oks, {});
    assert forall t :: 0 <= t < |r| ==> r[t] == stores[t];
  }

  lemma OtherDurable(keyOf: KeyFn, w: World, s: Step)
    requires Possible(keyOf, w, s) && AcksDurable(w.conns, w.stores) && (s.At? ==> !s.event.Written?)
    ensures var w' := Then(keyOf, w, s); AcksDurable(w'.conns, w'.stores)
  {
    hide IngestSession.Next, AllDurable;
    var w' := Then(keyOf, w, s);
    if s.At? {
      NextAcks(keyOf, w.conns[s.conn], s.event);
    }
    forall j, a | 0 <= j < |w'.conns| && 0 <= a < |w'.conns[j].acks|
      ensures AllDurable(w'.stores, w'.conns[j].acks[a].keys)
    {
      assert w'.conns[j].acks[a] == w.conns[j].acks[a];
    }
  }

  /**
    Durable before ack: in every run of any number of sessions, every acknowledgement is honest when it is sent if and
    only if every acknowledged packet was undisputed; and then all that was ever acknowledged stays durable.
   */
  lemma DurableBeforeAck(keyOf: KeyFn, targets: nat, steps: seq<Step>)
    ensures HonestRun(keyOf, targets, steps) <==> UndisputedRun(keyOf, targets, steps)
    ensures HonestRun(keyOf, targets, steps) ==> var w := After(keyOf, targets, steps); AcksDurable(w.conns, w.stores)
  {
    hide After, Honest, Undisputed, AllOk, AcksDurable, Enabled;
    forall n: nat | Acknowledges(keyOf, targets, steps, n)
      ensures Honest(keyOf, targets, steps, n) <==> Undisputed(After(keyOf, targets, steps[..n]), steps[n].conn)
    {
      HonestIff(keyOf, targets, steps, n);
    }
    if HonestRun(keyOf, targets, steps) {
      AcksStay(keyOf, targets, steps);
    }
  }

  lemma {:induction false} AcksStay(keyOf: KeyFn, targets: nat, steps: seq<Step>)
    requires HonestRun(keyOf, targets, steps)
    ensures var w := After(keyOf, targets, steps); AcksDurable(w.conns, w.stores)
    decreases |steps|
  {
    hide Enabled, IngestSession.Next, AcksDurable, AllDurable, AllOk, Then, AckFor;
    if steps == [] {
      NoAcks(Start(targets).stores);
    } else {
      var front, s := steps[..|steps| - 1], steps[|steps| - 1];
      assert forall n :: 0 <= n < |front| ==> front[n] == steps[n] && front[..n] == steps[..n];
      assert HonestRun(keyOf, targets, front) by {
        forall n: nat | Acknowledges(keyOf, targets, front, n)
          ensures Honest(keyOf, targets, front, n)
        {
          assert Acknowledges(keyOf, targets, steps, n);
        }
      }
      AcksStay(keyOf, targets, front);
      var w := After(keyOf, targets, front);
      if Possible(keyOf, w, s) {
        if s.At? && s.event.Written? {
          assert s == At(s.conn, Written(s.event.oks));
          IsInHand(keyOf, w, s);
          assert AllOk(s.event.oks) && w.conns[s.conn].open ==> Acknowledges(keyOf, targets, steps, |steps| - 1);
          WrittenDurable(keyOf, w, s.conn, s.event.oks);
        } else {
          OtherDurable(keyOf, w, s);
        }
      }
    }
  }

  lemma NoAcks(stores: seq<set<Key>>)
    ensures AcksDurable([], stores)
  {}

  // ---- Where nothing can be disputed --------------------------------------------------------------------------

  predicate AllAccepted(writes: seq<Write>, targets: nat) {
    forall j :: 0 <= j < |writes| ==> |writes[j].oks| == targets && AllOk(writes[j].oks)
  }

  /** Nothing has gone wrong so far: no write was rejected and no claimed key dropped. */
  predicate Clean(w: World) { AllAccepted(w.writes, |w.stores|) && w.dropped == {} }

  /** No write is rejected and the deduper never fails. */
  predicate NoFailures(steps: seq<Step>) {
    forall n :: 0 <= n < |steps| && steps[n].At? ==>
      steps[n].event != DedupeFails && (steps[n].event.Written? ==> AllOk(steps[n].event.oks))
  }

  predicate SomeClosed(conns: seq<Conn>) { exists i :: 0 <= i < |conns| && !conns[i].open }

  lemma NextStaysClosed(keyOf: KeyFn, c: Conn, e: Event)
    requires Enabled(c, e)
    ensures !c.open || e == DedupeFails || (e.Written? && !AllOk(e.oks)) ==> !IngestSession.Next(keyOf, c, e).open
  {
    hide ParseImei, FrameLoop, Downlink.Next, AllOk, AckFor;
    match e {
      case StartDrain => IngestProofs.LoopPhase(c.(queued := c.queued - 1));
      case Allowed(answer) => IngestProofs.LoopPhase(c.(imei := Some(c.phase.who)));
      case Written(oks) => IngestProofs.LoopPhase(Acked(keyOf, c));
      case _ =>
    }
  }

  lemma ClosedStays(keyOf: KeyFn, w: World, s: Step)
    requires Possible(keyOf, w, s)
    ensures SomeClosed(w.conns) ==> SomeClosed(Then(keyOf, w, s).conns)
    ensures Clean(w) ==> Clean(Then(keyOf, w, s)) || SomeClosed(Then(keyOf, w, s).conns)
  {
    hide IngestSession.Next, AllOk, Store;
    var w' := Then(keyOf, w, s);
    if s.At? { NextStaysClosed(keyOf, w.conns[s.conn], s.event); }
    if SomeClosed(w.conns) {
      var i :| 0 <= i < |w.conns| && !w.conns[i].open;
      assert !w'.conns[i].open;
    }
    if s.At? && !w'.conns[s.conn].open { assert SomeClosed(w'.conns); }
  }

  /** A rejected write and a failing deduper both cost a session its socket. */
  lemma {:induction false} FailuresClose(keyOf: KeyFn, targets: nat, steps: seq<Step>)
    ensures var w := After(keyOf, targets, steps); Clean(w) || SomeClosed(w.conns)
    decreases |steps|
  {
    hide Possible, Then, Clean, SomeClosed;
    if steps == [] {
      StartClean(targets);
    } else {
      var w, s := After(keyOf, targets, steps[..|steps| - 1]), steps[|steps| - 1];
      FailuresClose(keyOf, targets, steps[..|steps| - 1]);
      if Possible(keyOf, w, s) { ClosedStays(keyOf, w, s); }
    }
  }

  lemma StartClean(targets: nat)
    ensures Clean(Start(targets))
  {}

  lemma {:induction false} NoFailuresIsClean(keyOf: KeyFn, targets: nat, steps: seq<Step>)
    requires NoFailures(steps)
    ensures Clean(After(keyOf, targets, steps))
    decreases |steps|
  {
    hide Enabled, IngestSession.Next, AllOk, Store;
    if steps != [] {
      NoFailuresIsClean(keyOf, targets, steps[..|steps| - 1]);
    }
  }

  lemma NothingRefused(w: World, k: Key)
    requires AllAccepted(w.writes, |w.stores|)
    ensures !Refused(w, k)
  {
    if Tried(w.writes, k) {
      var j :| 0 <= j < |w.writes| && k in w.writes[j].keys;
      forall t: nat | t < |w.stores|
        ensures !RefusedAll(w.writes, t, k)
      {
        assert w.writes[j].oks[t];
      }
    }
  }

  /** At most one session at a time has a packet in its hands: none is abandoned before its write is answered. */
  predicate OneInHand(conns: seq<Conn>) {
    forall i, j :: 0 <= i < j < |conns| ==> !conns[i].phase.InHand() || !conns[j].phase.InHand()
  }

  lemma CleanIsUndisputed(keyOf: KeyFn, targets: nat, steps: seq<Step>, n: nat)
    requires Acknowledges(keyOf, targets, steps, n)
    requires var w := After(keyOf, targets, steps[..n]); Clean(w) && OneInHand(w.conns)
    ensures Undisputed(After(keyOf, targets, steps[..n]), steps[n].conn)
  {
    hide After, AllOk, Then, Unanswered, Refused, AckFor, AllDurable, AllAccepted;
    var w, s := After(keyOf, targets, steps[..n]), steps[n];
    assert s == At(s.conn, Written(s.event.oks));
    AckIsDurableIff(keyOf, targets, steps[..n], s.conn, s.event.oks);
    forall k { NothingRefused(w, k); }
  }

  /** Across reconnects it is enough that nothing fails and no packet is abandoned. */
  lemma DurableInSeries(keyOf: KeyFn, targets: nat, steps: seq<Step>)
    requires NoFailures(steps)
    requires forall n :: 0 <= n <= |steps| ==> OneInHand(After(keyOf, targets, steps[..n]).conns)
    ensures HonestRun(keyOf, targets, steps) && var w := After(keyOf, targets, steps); AcksDurable(w.conns, w.stores)
  {
    hide After, AllOk, AcksDurable, Clean, HonestRun, Undisputed, Enabled, OneInHand;
    forall n: nat | Acknowledges(keyOf, targets, steps, n)
      ensures Undisputed(After(keyOf, targets, steps[..n]), steps[n].conn)
    {
      NoFailuresIsClean(keyOf, targets, steps[..n]);
      CleanIsUndisputed(keyOf, targets, steps, n);
    }
    DurableBeforeAck(keyOf, targets, steps);
  }

  /** A single connection needs nothing at all: whatever fails also closes the socket, so no later ack is sent. */
  lemma DurableOnOneConnection(keyOf: KeyFn, targets: nat, steps: seq<Step>)
    requires |After(keyOf, targets, steps).conns| <= 1
    ensures HonestRun(keyOf, targets, steps) && var w := After(keyOf, targets, steps); AcksDurable(w.conns, w.stores)
  {
    hide After, AllOk, AcksDurable, Clean, HonestRun, Undisputed, Enabled;
    forall n: nat | Acknowledges(keyOf, targets, steps, n)
      ensures Undisputed(After(keyOf, targets, steps[..n]), steps[n].conn)
    {
      ConnsGrow(keyOf, targets, steps, n);
      FailuresClose(keyOf, targets, steps[..n]);
      CleanIsUndisputed(keyOf, targets, steps, n);
    }
    DurableBeforeAck(keyOf, targets, steps);
  }

  lemma {:induction false} ConnsGrow(keyOf: KeyFn, targets: nat, steps: seq<Step>, n: nat)
    requires n <= |steps|
    ensures |After(keyOf, targets, steps[..n]).conns| <= |After(keyOf, targets, steps).conns|
    decreases |steps|
  {
    hide Enabled, IngestSession.Next;
    if n == |steps| {
      assert steps[..n] == steps;
    } else {
      ConnsGrow(keyOf, targets, steps[..|steps| - 1], n);
      assert steps[..|steps| - 1][..n] == steps[..n];
    }
  }

  // ---- Both hypotheses are needed ------------------------------------------------------------------------------

  lemma AfterSnoc(keyOf: KeyFn, targets: nat, steps: seq<Step>, s: Step)
    requires Possible(keyOf, After(keyOf, targets, steps), s)
    ensures After(keyOf, targets, steps + [s]) == Then(keyOf, After(keyOf, targets, steps), s)
  {
    hide Then, Possible;
    assert (steps + [s])[..|steps|] == steps;
  }

  lemma ImeiOk(imei: Text)
    requires IsImei(imei)
    ensures EncodeImei(imei).Ok?
  {}

  lemma WrappedFirstByte(data: seq<byte>)
    requires 0 < |data| < 0x1_0000_0000
    ensures |WrapFrame(data)| >= 12 && WrapFrame(data)[8] == data[0]
  {}

  lemma ArrayFirstByte(codec: nat, ws: seq<WireRecord>)
    requires Sendable(codec, ws)
    ensures EncodeArray(codec, ws) != [] && EncodeArray(codec, ws)[0] == codec
  {
    hide EncodeRecords;
    OneByte(codec);
  }

  /** The packet of one record. */
  function Single(w: WireRecord): DecodedAvl { DecodedAvl(CODEC_8, 1, [View(w)]) }

  predicate Sends(w: WireRecord) { Sendable(CODEC_8, [w]) && |EncodeArray(CODEC_8, [w])| < 0x1_0000_0000 }

  lemma WrappedDelivers(w: WireRecord)
    requires Sends(w)
    ensures var f := WrapFrame(EncodeArray(CODEC_8, [w]));
      IngestProofs.IsFrame(f) && Dispatch(f) == Deliver(Single(w))
  {
    hide EncodeArray, WrapFrame, ExtractFrame, DecodeTcpPacket, DecodeCodec12, OpenFrame, View, Sendable;
    var data := EncodeArray(CODEC_8, [w]);
    var f := WrapFrame(data);
    ArrayFirstByte(CODEC_8, [w]);
    WrappedFirstByte(data);
    WrapOpens(data, []);
    assert f + [] == f;
    TcpRoundTrip(CODEC_8, [w]);
    assert ViewAll([w]) == [View(w)];
  }

  /** An open session that has received the packet of one record and is about to ask the deduper. */
  predicate Asking(c: Conn, imei: Text, w: WireRecord) {
    c.imei == Some(imei) && c.phase == AwaitDedupe(Single(w), 0, [], {}) && c.open && c.acks == []
  }

  /** A device that logs in and sends one record brings a fresh session to its first deduper call. */
  lemma LoginAndSend(keyOf: KeyFn, imei: Text, w: WireRecord)
    requires IsImei(imei) && Sends(w)
    ensures EncodeImei(imei).Ok?
    ensures var c1 := IngestSession.Next(keyOf, Opened, Data(EncodeImei(imei).value + WrapFrame(EncodeArray(CODEC_8, [w]))));
      && Enabled(c1, StartDrain)
      && var c2 := IngestSession.Next(keyOf, c1, StartDrain);
      && Enabled(c2, Allowed(Accept)) && Asking(IngestSession.Next(keyOf, c2, Allowed(Accept)), imei, w)
  {
    hide ParseImei, ExtractFrame, EncodeImei, Dispatch, WrapFrame, EncodeArray, Sendable;
    ImeiOk(imei);
    WrappedDelivers(w);
    var bytes, frame := EncodeImei(imei).value, WrapFrame(EncodeArray(CODEC_8, [w]));
    ImeiRoundTrip(imei, frame);
    var c1 := IngestSession.Next(keyOf, Opened, Data(bytes + frame));
    assert c1.buffer == bytes + frame;
    var c2 := IngestSession.Next(keyOf, c1, StartDrain);
    assert c2.buffer == frame by { assert (bytes + frame)[LOGIN_LENGTH..] == frame; }
    assert c2.phase == AwaitAllowed(imei);
    IngestProofs.ExtractAfter(frame, []);
    assert frame + [] == frame;
  }

  /** At any moment, a new connection can bring any record to its first deduper call. */
  lemma Delivered(keyOf: KeyFn, targets: nat, steps: seq<Step>, imei: Text, w: WireRecord) returns (r: seq<Step>, c: Conn)
    requires IsImei(imei) && Sends(w)
    ensures Asking(c, imei, w)
    ensures var v := After(keyOf, targets, steps); After(keyOf, targets, r) == v.(conns := v.conns + [c])
    ensures NoFailures(steps) ==> NoFailures(r)
  {
    hide After, Sendable, IsImei, EncodeImei, WrapFrame, EncodeArray, Asking, IngestSession.Next;
    LoginAndSend(keyOf, imei, w);
    var v := After(keyOf, targets, steps);
    var n := |v.conns|;
    var e1, e2, e3 := Data(EncodeImei(imei).value + WrapFrame(EncodeArray(CODEC_8, [w]))), StartDrain, Allowed(Accept);
    var c1 := IngestSession.Next(keyOf, Opened, e1);
    var c2 := IngestSession.Next(keyOf, c1, e2);
    c := IngestSession.Next(keyOf, c2, e3);
    r := steps + [Connect];
    AfterSnoc(keyOf, targets, steps, Connect);
    AfterSnoc(keyOf, targets, r, At(n, e1));
    r := r + [At(n, e1)];
    assert After(keyOf, targets, r).conns == v.conns + [c1];
    AfterSnoc(keyOf, targets, r, At(n, e2));
    r := r + [At(n, e2)];
    assert After(keyOf, targets, r).conns == v.conns + [c2];
    AfterSnoc(keyOf, targets, r, At(n, e3));
    r := r + [At(n, e3)];
    assert After(keyOf, targets, r).conns == v.conns + [c];
  }

  function Repeat(b: bool, n: nat): (r: seq<bool>)
    ensures |r| == n && forall i :: 0 <= i < n ==> r[i] == b
  {
    seq(n, _ => b)
  }

  /** The only session takes its only record for new. */
  lemma Claims(keyOf: KeyFn, targets: nat, steps: seq<Step>, imei: Text, w: WireRecord)
    requires var v := After(keyOf, targets, steps); v.conns != [] && Asking(v.conns[|v.conns| - 1], imei, w)
    ensures var v := After(keyOf, targets, steps); var n := |v.conns| - 1; var k := keyOf(imei, View(w));
      var v' := After(keyOf, targets, steps + [At(n, Deduped(true))]);
      v' == v.(conns := v'.conns, claimed := v.claimed + {k}) && |v'.conns| == |v.conns|
      && v'.conns[n] == v.conns[n].(phase := AwaitWrite(Single(w), [k], {}))
  {
    hide After, View;
    var v := After(keyOf, targets, steps);
    AfterSnoc(keyOf, targets, steps, At(|v.conns| - 1, Deduped(true)));
    assert [] + [keyOf(imei, View(w))] == [keyOf(imei, View(w))];
  }

  /** A session that is told its only record is a duplicate is acknowledged once the empty write is answered. */
  lemma AckedAsDuplicate(keyOf: KeyFn, targets: nat, steps: seq<Step>, imei: Text, w: WireRecord) returns (r: seq<Step>)
    requires var v := After(keyOf, targets, steps);
      && v.conns != [] && Asking(v.conns[|v.conns| - 1], imei, w) && keyOf(imei, View(w)) in v.claimed
    ensures var v := After(keyOf, targets, steps); var v' := After(keyOf, targets, r);
      && |v'.conns| == |v.conns| && v'.conns[|v.conns| - 1].acks == [Ack(1, {keyOf(imei, View(w))})]
      && v'.stores == v.stores && forall j :: 0 <= j < |v.conns| - 1 ==> v'.conns[j] == v.conns[j]
    ensures NoFailures(steps) ==> NoFailures(r)
  {
    hide After, View, FrameLoop;
    var v := After(keyOf, targets, steps);
    var n, k := |v.conns| - 1, keyOf(imei, View(w));
    var e1, e2 := At(n, Deduped(false)), At(n, Written(Repeat(true, |v.stores|)));
    AfterSnoc(keyOf, targets, steps, e1);
    var c1 := After(keyOf, targets, steps + [e1]).conns[n];
    assert c1.phase == AwaitWrite(Single(w), [], {k}) && ToSet([]) == {};
    assert AckFor(keyOf, imei, Single(w)) == Ack(1, {k}) by { assert PacketKeys(keyOf, imei, [View(w)]) == {k}; }
    AfterSnoc(keyOf, targets, steps + [e1], e2);
    IngestProofs.LoopPhase(Acked(keyOf, c1));
    StoreNothing(v.stores, Repeat(true, |v.stores|));
    r := steps + [e1] + [e2];
  }

  /**
    Any record whose write is rejected, sent again on a new connection, is acknowledged from the deduper alone: the ack
    covers a key that no target holds.
   */
  lemma RejectedWriteIsAcked(keyOf: KeyFn, targets: nat, imei: Text, w: WireRecord) returns (steps: seq<Step>)
    requires targets > 0 && IsImei(imei) && Sends(w)
    ensures var v := After(keyOf, targets, steps); var k := keyOf(imei, View(w));
      && |v.conns| == 2 && v.conns[1].acks == [Ack(1, {k})]
      && forall t :: 0 <= t < |v.stores| ==> k !in v.stores[t]
  {
    hide Sends, IsImei, View, IngestSession.Next, FrameLoop;
    var c;
    steps, c := Delivered(keyOf, targets, [], imei, w);
    Claims(keyOf, targets, steps, imei, w);
    steps := steps + [At(0, Deduped(true))];
    steps := RefusedByAll(keyOf, targets, steps, imei, w);
    steps, c := Delivered(keyOf, targets, steps, imei, w);
    steps := AckedAsDuplicate(keyOf, targets, steps, imei, w);
  }

  lemma RefusedByAll(keyOf: KeyFn, targets: nat, steps: seq<Step>, imei: Text, w: WireRecord) returns (r: seq<Step>)
    requires var v := After(keyOf, targets, steps);
      && |v.conns| == 1 && v.conns[0].imei == Some(imei) && v.conns[0].phase == AwaitWrite(Single(w), [keyOf(imei, View(w))], {})
      && |v.stores| > 0
    ensures var v, v' := After(keyOf, targets, steps), After(keyOf, targets, r);
      |v'.conns| == 1 && v'.claimed == v.claimed && v'.stores == v.stores
  {
    hide After, View, FrameLoop;
    var v := After(keyOf, targets, steps);
    var oks := Repeat(false, |v.stores|);
    AfterSnoc(keyOf, targets, steps, At(0, Written(oks)));
    r := steps + [At(0, Written(oks))];
    assert Store(v.stores, oks, ToSet(v.conns[0].phase.news)) == v.stores;
  }

  /**
    Without any rejected write: a device that drops its connection while the write of a record is unanswered, and
    sends the record again on a new one, is acknowledged although no target holds it.
   */
  lemma OverlapIsAcked(keyOf: KeyFn, targets: nat, imei: Text, w: WireRecord) returns (steps: seq<Step>)
    requires targets > 0 && IsImei(imei) && Sends(w)
    ensures NoFailures(steps)
    ensures var v := After(keyOf, targets, steps); var k := keyOf(imei, View(w));
      && |v.conns| == 2 && v.conns[1].acks == [Ack(1, {k})] && k in News(v.conns[0])
      && forall t :: 0 <= t < |v.stores| ==> k !in v.stores[t]
  {
    hide Sends, IsImei, View, IngestSession.Next, FrameLoop;
    var c;
    steps, c := Delivered(keyOf, targets, [], imei, w);
    Claims(keyOf, targets, steps, imei, w);
    steps := steps + [At(0, Deduped(true))];
    Drops(keyOf, targets, steps);
    steps := steps + [At(0, Closed)];
    steps, c := Delivered(keyOf, targets, steps, imei, w);
    steps := AckedAsDuplicate(keyOf, targets, steps, imei, w);
  }

  lemma Drops(keyOf: KeyFn, targets: nat, steps: seq<Step>)
    requires |After(keyOf, targets, steps).conns| == 1
    ensures var v, v' := After(keyOf, targets, steps), After(keyOf, targets, steps + [At(0, Closed)]);
      v' == v.(conns := v'.conns) && |v'.conns| == 1 && v'.conns[0].phase == v.conns[0].phase && !v'.conns[0].open
  {
    hide After;
    AfterSnoc(keyOf, targets, steps, At(0, Closed));
  }
}
