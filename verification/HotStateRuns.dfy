/**
  The hot last position step by step. A batch first inserts its rows and then publishes one position per device;
  requests may read, miss and re-warm the cache between any two of those steps, and entries may be lost.
 */
module HotStateRuns {
  import opened Bytes
  import opened HotState

  // ---- The protocol, step by step ---------------------------------------------------------------

  /** A position that a request has read from the store, when there were `seen` rows, and not yet written back. */
  datatype Warming = Warming(pos: Position, seen: nat)

  /** Where a cached position came from: a batch or a request, and the number of rows it takes account of. */
  datatype Origin = Origin(seen: nat, warmed: bool)

  /**
    The rows, the cache and the origin of its entries; the positions the running batch has inserted and not yet
    published; the reads to be written back; how many rows there were before the last batch.
   */
  datatype State = State(rows: seq<Position>, hot: map<Key, Position>, origin: map<Key, Origin>,
                         pending: map<Id, Position>, warming: seq<Warming>, mark: nat)

  /** Ask is the store read of a request that missed the cache earlier: what happened since is not seen. */
  datatype Event =
    | Commit(batch: seq<Message>)
    | Publish(deviceId: Id)
    | Lose(key: Key)
    | Ask(key: Key)
    | Warm(which: nat, ok: bool)

  /** Batches follow one another; a device is published once a batch; a warm ends once. */
  predicate Enabled(s: State, e: Event) {
    match e
    case Commit(_) => s.pending == map[]
    case Publish(d) => d in s.pending
    case Lose(_) => true
    case Ask(_) => true
    case Warm(which, _) => which < |s.warming|
  }

  function KeyOf(p: Position): Key { (p.tenantId, p.deviceId) }

  function Put(s: State, p: Position, o: Origin): State {
    s.(hot := s.hot[KeyOf(p) := p], origin := s.origin[KeyOf(p) := o])
  }

  /** One step; an event that is not enabled does nothing. */
  function Next(s: State, e: Event): State {
    if !Enabled(s, e) then s else
    match e
    case Commit(batch) =>
      var ps := Positions(batch);
      s.(rows := s.rows + ps, pending := LatestPerDevice(ps), mark := |s.rows|)
    case Publish(d) => Put(s, s.pending[d], Origin(|s.rows|, false)).(pending := s.pending - {d})
    case Lose(k) => s.(hot := s.hot - {k}, origin := s.origin - {k})
    case Ask(k) =>
      if Newest(s.rows, k).Some?
      then s.(warming := s.warming + [Warming(Newest(s.rows, k).value, |s.rows|)]) else s
    case Warm(which, ok) =>
      var Warming(p, seen) := s.warming[which];
      var s := s.(warming := s.warming[..which] + s.warming[which + 1..]);
      if ok then Put(s, p, Origin(seen, true)) else s
  }

  const Start := State([], map[], map[], map[], [], 0)

  function After(events: seq<Event>): State {
    if events == [] then Start else Next(After(events[..|events| - 1]), events[|events| - 1])
  }

  // ---- When an entry is behind the rows -----------------------------------------------------------

  /** A row of k was inserted after the first `seen` rows. */
  predicate Overtaken(rows: seq<Position>, k: Key, seen: nat) {
    exists i :: seen <= i < |rows| && Of(k, rows[i])
  }

  lemma OvertakenIs(rows: seq<Position>, k: Key, seen: nat)
    requires seen <= |rows|
    ensures Overtaken(rows, k, seen) <==> Newest(rows[seen..], k).Some?
  {
    hide Newest, Of;
    var rest := rows[seen..];
    NoneIffNoRow(rest, k);
    if Overtaken(rows, k, seen) {
      var i :| seen <= i < |rows| && Of(k, rows[i]);
      assert rest[i - seen] == rows[i];
    }
    assert forall i :: 0 <= i < |rest| ==> rest[i] == rows[seen + i];
  }

  /** With increasing timestamps, the maximum of an earlier moment is still the maximum iff no row of the key came since. */
  lemma CutAgrees(rows: seq<Position>, k: Key, seen: nat)
    requires Increasing(rows) && seen <= |rows| && Newest(rows[..seen], k).Some?
    ensures Newest(rows, k) == Newest(rows[..seen], k) <==> !Overtaken(rows, k, seen)
  {
    hide Newest, Overtaken;
    assert rows == rows[..seen] + rows[seen..];
    OvertakenIs(rows, k, seen);
    NewestConcat(rows[..seen], rows[seen..], k);
    IncreasingBatchIsNewer(rows[..seen], rows[seen..], k);
    if Newest(rows[seen..], k).Some? { LaterIsNewer(rows[..seen], rows[seen..], k); }
  }

  lemma LaterIsNewer(rows: seq<Position>, ps: seq<Position>, k: Key)
    requires Increasing(rows + ps) && Newest(rows, k).Some? && Newest(ps, k).Some?
    ensures Newest(rows, k).value.ts < Newest(ps, k).value.ts
  {
    NewestIsOf(rows, k);
    NewestIsOf(ps, k);
    var i :| 0 <= i < |rows| && rows[i] == Newest(rows, k).value;
    var j :| 0 <= j < |ps| && ps[j] == Newest(ps, k).value;
    assert (rows + ps)[i] == rows[i] && (rows + ps)[|rows| + j] == ps[j];
  }

  lemma IncreasingBatchIsNewer(rows: seq<Position>, ps: seq<Position>, k: Key)
    requires Increasing(rows + ps)
    ensures Newest(rows + ps, k) == if Newest(ps, k).Some? then Newest(ps, k) else Newest(rows, k)
  {
    NewestConcat(rows, ps, k);
    if Newest(rows, k).Some? && Newest(ps, k).Some? { LaterIsNewer(rows, ps, k); }
  }

  lemma OvertakenGrows(rows: seq<Position>, ps: seq<Position>, k: Key, seen: nat)
    requires seen <= |rows|
    ensures Overtaken(rows + ps, k, seen) <==> Overtaken(rows, k, seen) || Newest(ps, k).Some?
  {
    hide Newest, Of;
    var all := rows + ps;
    NoneIffNoRow(ps, k);
    if Overtaken(rows, k, seen) {
      var i :| seen <= i < |rows| && Of(k, rows[i]);
      assert all[i] == rows[i];
    }
    if Newest(ps, k).Some? {
      var i :| 0 <= i < |ps| && Of(k, ps[i]);
      assert all[|rows| + i] == ps[i];
    }
    if Overtaken(all, k, seen) {
      var i :| seen <= i < |all| && Of(k, all[i]);
      assert if i < |rows| then all[i] == rows[i] else all[i] == ps[i - |rows|];
    }
  }

  // ---- Every run -----------------------------------------------------------------------------------

  /** A cached position is the maximum of the rows it takes account of; a batch's entry misses only what is pending. */
  predicate EntryInv(s: State, k: Key)
    requires k in s.hot && k in s.origin
  {
    var Origin(seen, warmed) := s.origin[k];
    && seen <= |s.rows| && Newest(s.rows[..seen], k) == Some(s.hot[k])
    && (!warmed && k.1 !in s.pending ==> !Overtaken(s.rows, k, seen))
  }

  predicate WarmingInv(rows: seq<Position>, w: Warming) {
    w.seen <= |rows| && Newest(rows[..w.seen], KeyOf(w.pos)) == Some(w.pos)
  }

  ghost predicate Inv(owner: Id -> Id, s: State) {
    && s.hot.Keys == s.origin.Keys
    && (forall k :: k in s.hot ==> EntryInv(s, k))
    && (forall d :: d in s.pending ==> Newest(s.rows, (owner(d), d)) == Some(s.pending[d]))
    && (forall i :: 0 <= i < |s.warming| ==> WarmingInv(s.rows, s.warming[i]))
  }

  lemma OwnedParts(owner: Id -> Id, a: seq<Position>, b: seq<Position>)
    requires Owned(owner, a + b)
    ensures Owned(owner, a) && Owned(owner, b)
  {
    forall i | 0 <= i < |a| ensures a[i].tenantId == owner(a[i].deviceId) { assert (a + b)[i] == a[i]; }
    forall i | 0 <= i < |b| ensures b[i].tenantId == owner(b[i].deviceId) { assert (a + b)[|a| + i] == b[i]; }
  }

  /** After a batch, a key's newest position is the batch's where it has one, and the older one elsewhere. */
  lemma NewestAfterBatch(owner: Id -> Id, rows: seq<Position>, ps: seq<Position>, k: Key)
    requires Owned(owner, rows + ps) && Increasing(rows + ps)
    ensures k.1 !in LatestPerDevice(ps) ==> Newest(ps, k).None?
    ensures k.1 in LatestPerDevice(ps) && k.0 == owner(k.1) ==> Newest(rows + ps, k) == Some(LatestPerDevice(ps)[k.1])
  {
    OwnedParts(owner, rows, ps);
    IncreasingBatchIsNewer(rows, ps, k);
    BatchMapIsNewest(owner, ps, k.1);
    if k.0 != owner(k.1) { StrangersHaveNothing(owner, ps, k); }
  }

  lemma CommitKeepsInv(owner: Id -> Id, s: State, batch: seq<Message>)
    requires Inv(owner, s) && Enabled(s, Commit(batch))
    requires Owned(owner, Next(s, Commit(batch)).rows) && Increasing(Next(s, Commit(batch)).rows)
    ensures Inv(owner, Next(s, Commit(batch)))
  {
    hide Newest, LatestPerDevice, Positions, Owned, Increasing, Overtaken;
    var ps, s' := Positions(batch), Next(s, Commit(batch));
    forall k | k in s'.hot ensures EntryInv(s', k) {
      assert EntryInv(s, k);
      var seen := s.origin[k].seen;
      assert s'.rows[..seen] == s.rows[..seen];
      NewestAfterBatch(owner, s.rows, ps, k);
      OvertakenGrows(s.rows, ps, k, seen);
    }
    forall d | d in s'.pending ensures Newest(s'.rows, (owner(d), d)) == Some(s'.pending[d]) {
      NewestAfterBatch(owner, s.rows, ps, (owner(d), d));
    }
    forall i | 0 <= i < |s'.warming| ensures WarmingInv(s'.rows, s'.warming[i]) {
      assert WarmingInv(s.rows, s.warming[i]);
      assert s'.rows[..s.warming[i].seen] == s.rows[..s.warming[i].seen];
    }
  }

  lemma WholeCut(rows: seq<Position>, k: Key)
    ensures rows[..|rows|] == rows && !Overtaken(rows, k, |rows|)
  {}

  lemma PublishKeepsInv(owner: Id -> Id, s: State, d: Id)
    requires Inv(owner, s) && d in s.pending && Owned(owner, s.rows)
    ensures Inv(owner, Next(s, Publish(d)))
  {
    hide Newest, Owned, Overtaken;
    var s' := Next(s, Publish(d));
    NewestIsOf(s.rows, (owner(d), d));
    WholeCut(s.rows, (owner(d), d));
    forall k | k in s'.hot ensures EntryInv(s', k) {
      if k != (owner(d), d) {
        assert EntryInv(s, k);
        if k.1 == d { StrangersNeverCut(owner, s.rows, k, s.origin[k].seen); }
      }
    }
  }

  lemma StrangersNeverCut(owner: Id -> Id, rows: seq<Position>, k: Key, seen: nat)
    requires Owned(owner, rows) && k.0 != owner(k.1) && seen <= |rows|
    ensures Newest(rows[..seen], k) == None
  {
    assert rows[..seen] + rows[seen..] == rows;
    OwnedParts(owner, rows[..seen], rows[seen..]);
    StrangersHaveNothing(owner, rows[..seen], k);
  }

  lemma LoseKeepsInv(owner: Id -> Id, s: State, k: Key)
    requires Inv(owner, s)
    ensures Inv(owner, Next(s, Lose(k)))
  {
    hide Newest, Overtaken;
    forall x | x in s.hot && x != k ensures EntryInv(Next(s, Lose(k)), x) { assert EntryInv(s, x); }
  }

  lemma AskKeepsInv(owner: Id -> Id, s: State, k: Key)
    requires Inv(owner, s)
    ensures Inv(owner, Next(s, Ask(k)))
  {
    hide Newest, Overtaken;
    NewestIsOf(s.rows, k);
    WholeCut(s.rows, k);
    forall x | x in s.hot ensures EntryInv(Next(s, Ask(k)), x) { assert EntryInv(s, x); }
  }

  lemma WarmKeepsInv(owner: Id -> Id, s: State, which: nat, ok: bool)
    requires Inv(owner, s) && which < |s.warming|
    ensures Inv(owner, Next(s, Warm(which, ok)))
  {
    hide Newest, Overtaken;
    var s' := Next(s, Warm(which, ok));
    assert WarmingInv(s.rows, s.warming[which]);
    forall x | x in s'.hot ensures EntryInv(s', x) {
      if x in s.hot { assert EntryInv(s, x); }
    }
  }

  lemma NextKeepsInv(owner: Id -> Id, s: State, e: Event)
    requires Inv(owner, s)
    requires Owned(owner, Next(s, e).rows) && Increasing(Next(s, e).rows)
    ensures Inv(owner, Next(s, e))
  {
    hide Inv, Owned, Increasing, Positions, LatestPerDevice, Newest;
    if Enabled(s, e) {
      match e
      case Commit(batch) => CommitKeepsInv(owner, s, batch);
      case Publish(d) =>
        RowsGrow(owner, s, e);
        PublishKeepsInv(owner, s, d);
      case Lose(k) => LoseKeepsInv(owner, s, k);
      case Ask(k) => AskKeepsInv(owner, s, k);
      case Warm(which, ok) => WarmKeepsInv(owner, s, which, ok);
    }
  }

  /** Rows are only ever appended, so what holds of the rows held of the rows before. */
  lemma RowsGrow(owner: Id -> Id, s: State, e: Event)
    requires Owned(owner, Next(s, e).rows) && Increasing(Next(s, e).rows)
    ensures Owned(owner, s.rows) && Increasing(s.rows)
  {
    hide Positions, LatestPerDevice, Newest;
    var rows := Next(s, e).rows;
    assert forall i :: 0 <= i < |s.rows| ==> rows[i] == s.rows[i];
  }

  lemma {:induction false} RunKeepsInv(owner: Id -> Id, events: seq<Event>)
    requires Owned(owner, After(events).rows) && Increasing(After(events).rows)
    ensures Inv(owner, After(events))
  {
    hide Inv, Next, Owned, Increasing;
    if events == [] {
      StartInv(owner);
    } else {
      var front, e := events[..|events| - 1], events[|events| - 1];
      RowsGrow(owner, After(front), e);
      RunKeepsInv(owner, front);
      NextKeepsInv(owner, After(front), e);
    }
  }

  lemma StartInv(owner: Id -> Id)
    ensures Inv(owner, Start)
  {}

  /**
    In every run with increasing timestamps, whatever was lost and however requests and batches interleave: a cached
    position is the stored maximum exactly when no row of the device was inserted after the rows it takes account of;
    once the device is published, a reader is behind exactly when the last write of its entry was a request's write-back
    that a batch with a row of the device had overtaken.
   */
  lemma StaleIff(owner: Id -> Id, events: seq<Event>, k: Key)
    requires Owned(owner, After(events).rows) && Increasing(After(events).rows)
    ensures var s := After(events);
            && s.hot.Keys == s.origin.Keys
            && (Answer(s.hot, s.rows, k) == Newest(s.rows, k) <==>
                !(k in s.hot && Overtaken(s.rows, k, s.origin[k].seen)))
            && (k.1 !in s.pending ==>
                (Answer(s.hot, s.rows, k) == Newest(s.rows, k) <==>
                 !(k in s.hot && s.origin[k].warmed && Overtaken(s.rows, k, s.origin[k].seen))))
  {
    hide Newest, After, Overtaken, Owned, Increasing;
    var s := After(events);
    RunKeepsInv(owner, events);
    if k in s.hot {
      assert EntryInv(s, k);
      CutAgrees(s.rows, k, s.origin[k].seen);
    }
  }

  /** A write-back leaves the key agreeing exactly when no row of it was inserted since the request read the store. */
  lemma WarmAgreesIff(owner: Id -> Id, events: seq<Event>, which: nat)
    requires Owned(owner, After(events).rows) && Increasing(After(events).rows) && which < |After(events).warming|
    ensures var s := After(events); var w := s.warming[which]; var s' := Next(s, Warm(which, true));
            Agrees(s'.hot, s'.rows, KeyOf(w.pos)) <==> !Overtaken(s.rows, KeyOf(w.pos), w.seen)
  {
    hide Newest, After, Overtaken, Owned, Increasing;
    var s := After(events);
    RunKeepsInv(owner, events);
    assert WarmingInv(s.rows, s.warming[which]);
    CutAgrees(s.rows, KeyOf(s.warming[which].pos), s.warming[which].seen);
  }

  // ---- Runs in which no batch overtakes a write-back --------------------------------------------------

  /** No batch brings a position of a device while a request is re-warming that device. */
  predicate Quiet(s: State, e: Event) {
    e.Commit? ==>
      forall i :: 0 <= i < |s.warming| ==> s.warming[i].pos.deviceId !in LatestPerDevice(Positions(e.batch))
  }

  predicate QuietRun(events: seq<Event>) {
    events != [] ==>
      var front := events[..|events| - 1];
      QuietRun(front) && Quiet(After(front), events[|events| - 1])
  }

  /** An entry misses no row, or only those of the batch that is to publish the device. */
  predicate QuietEntry(s: State, k: Key)
    requires k in s.origin
  {
    var seen := s.origin[k].seen;
    || !Overtaken(s.rows, k, seen)
    || (k.1 in s.pending && seen <= s.mark <= |s.rows| && !Overtaken(s.rows[..s.mark], k, seen))
  }

  ghost predicate QuietInv(s: State) {
    && (forall k :: k in s.origin ==> QuietEntry(s, k))
    && (forall i :: 0 <= i < |s.warming| ==> !Overtaken(s.rows, KeyOf(s.warming[i].pos), s.warming[i].seen))
  }

  lemma CommitKeepsQuiet(owner: Id -> Id, s: State, batch: seq<Message>)
    requires Inv(owner, s) && QuietInv(s) && Enabled(s, Commit(batch)) && Quiet(s, Commit(batch))
    requires Owned(owner, Next(s, Commit(batch)).rows) && Increasing(Next(s, Commit(batch)).rows)
    ensures QuietInv(Next(s, Commit(batch)))
  {
    hide Newest, LatestPerDevice, Positions, Owned, Increasing, Overtaken;
    var ps, s' := Positions(batch), Next(s, Commit(batch));
    assert s'.rows[..s'.mark] == s.rows;
    forall k | k in s'.origin ensures QuietEntry(s', k) {
      assert QuietEntry(s, k) && EntryInv(s, k);
      NewestAfterBatch(owner, s.rows, ps, k);
      OvertakenGrows(s.rows, ps, k, s.origin[k].seen);
    }
    forall i | 0 <= i < |s'.warming|
      ensures !Overtaken(s'.rows, KeyOf(s'.warming[i].pos), s'.warming[i].seen)
    {
      assert WarmingInv(s.rows, s.warming[i]);
      NewestAfterBatch(owner, s.rows, ps, KeyOf(s.warming[i].pos));
      OvertakenGrows(s.rows, ps, KeyOf(s.warming[i].pos), s.warming[i].seen);
    }
  }

  lemma OtherKeepsQuiet(owner: Id -> Id, s: State, e: Event)
    requires Inv(owner, s) && QuietInv(s) && Owned(owner, s.rows) && Enabled(s, e) && !e.Commit?
    ensures QuietInv(Next(s, e))
  {
    hide Newest, Owned, Overtaken;
    var s' := Next(s, e);
    if e.Ask? {
      NewestIsOf(s.rows, e.key);
      WholeCut(s.rows, e.key);
    }
    if e.Publish? {
      NewestIsOf(s.rows, (owner(e.deviceId), e.deviceId));
      WholeCut(s.rows, (owner(e.deviceId), e.deviceId));
    }
    forall k | k in s'.origin ensures QuietEntry(s', k) {
      if k in s.origin {
        assert QuietEntry(s, k) && EntryInv(s, k);
        if e.Publish? && k.1 == e.deviceId && k.0 != owner(k.1) { StrangersNeverCut(owner, s.rows, k, s.origin[k].seen); }
      }
    }
  }

  lemma {:induction false} RunKeepsQuiet(owner: Id -> Id, events: seq<Event>)
    requires QuietRun(events) && Owned(owner, After(events).rows) && Increasing(After(events).rows)
    ensures QuietInv(After(events))
  {
    hide Inv, QuietInv, Owned, Increasing, Quiet, Positions, LatestPerDevice, Newest;
    if events == [] {
      StartQuiet();
    } else {
      var front, e := events[..|events| - 1], events[|events| - 1];
      var s := After(front);
      RowsGrow(owner, s, e);
      RunKeepsQuiet(owner, front);
      RunKeepsInv(owner, front);
      if Enabled(s, e) {
        if e.Commit? { CommitKeepsQuiet(owner, s, e.batch); } else { OtherKeepsQuiet(owner, s, e); }
      }
    }
  }

  lemma StartQuiet()
    ensures QuietInv(Start)
  {}

  /**
    So with increasing timestamps and no batch overtaking a write-back: once a device's position is published, and
    whatever was lost, a reader gets the stored maximum; while it is still to be published, a reader gets that maximum
    or the one from before the batch.
   */
  lemma ReaderGetsTheMaximum(owner: Id -> Id, events: seq<Event>, k: Key)
    requires QuietRun(events) && Owned(owner, After(events).rows) && Increasing(After(events).rows)
    ensures var s := After(events);
            && (k.1 !in s.pending ==> Agrees(s.hot, s.rows, k) && Answer(s.hot, s.rows, k) == Newest(s.rows, k))
            && (Answer(s.hot, s.rows, k) != Newest(s.rows, k) ==>
                s.mark <= |s.rows| && Answer(s.hot, s.rows, k) == Newest(s.rows[..s.mark], k))
  {
    hide Newest, After, QuietRun, Owned, Increasing, Overtaken;
    var s := After(events);
    RunKeepsInv(owner, events);
    RunKeepsQuiet(owner, events);
    if k in s.hot {
      var seen := s.origin[k].seen;
      assert EntryInv(s, k) && QuietEntry(s, k);
      CutAgrees(s.rows, k, seen);
      if Overtaken(s.rows, k, seen) {
        assert s.rows[..s.mark][..seen] == s.rows[..seen];
        PrefixIncreasing(s.rows, s.mark);
        CutAgrees(s.rows[..s.mark], k, seen);
      }
    }
  }

  lemma PrefixIncreasing(rows: seq<Position>, n: nat)
    requires Increasing(rows) && n <= |rows|
    ensures Increasing(rows[..n])
  {}

  /** The states of a run in which the write-back of `was` is overtaken by the batch that brings `now`. */
  function OvertakenAt(was: Position, now: Position, k: Key, n: nat): State {
    match n
    case 0 => Start
    case 1 => State([was], map[], map[], map[k.1 := was], [], 0)
    case 2 => State([was], map[k := was], map[k := Origin(1, false)], map[], [], 0)
    case 3 => State([was], map[], map[], map[], [], 0)
    case 4 => State([was], map[], map[], map[], [Warming(was, 1)], 0)
    case 5 => State([was, now], map[], map[], map[k.1 := now], [Warming(was, 1)], 1)
    case 6 => State([was, now], map[k := now], map[k := Origin(2, false)], map[], [Warming(was, 1)], 1)
    case _ => State([was, now], map[k := was], map[k := Origin(1, true)], map[], [], 1)
  }

  function OvertakenRun(was: Position, now: Position, k: Key): seq<Event> {
    [Commit([Resolved(was)]), Publish(k.1), Lose(k), Ask(k), Commit([Resolved(now)]), Publish(k.1), Warm(0, true)]
  }

  lemma OvertakenStep(was: Position, now: Position, k: Key, n: nat)
    requires Of(k, was) && Of(k, now) && n < 7
    ensures Next(OvertakenAt(was, now, k, n), OvertakenRun(was, now, k)[n]) == OvertakenAt(was, now, k, n + 1)
  {
    hide Newest, Positions, LatestPerDevice;
    TwoRows(was, now, k);
  }

  lemma {:induction false} OvertakenPrefix(was: Position, now: Position, k: Key, n: nat)
    requires Of(k, was) && Of(k, now) && n <= 7
    ensures After(OvertakenRun(was, now, k)[..n]) == OvertakenAt(was, now, k, n)
  {
    hide Next, OvertakenRun;
    if n > 0 {
      assert |OvertakenRun(was, now, k)| == 7 by { SevenEvents(was, now, k); }
      OvertakenPrefix(was, now, k, n - 1);
      OvertakenStep(was, now, k, n - 1);
      assert OvertakenRun(was, now, k)[..n][..n - 1] == OvertakenRun(was, now, k)[..n - 1];
    }
  }

  lemma SevenEvents(was: Position, now: Position, k: Key)
    ensures |OvertakenRun(was, now, k)| == 7
  {}

  /** For any two increasing timestamps: a run in which an overtaken write-back leaves the older position cached. */
  lemma OvertakenWarmGoesStale(was: Position, now: Position, k: Key)
    requires Of(k, was) && Of(k, now) && was.ts < now.ts
    ensures var s := After(OvertakenRun(was, now, k));
            && s.rows == [was, now] && s.pending == map[] && s.warming == []
            && Answer(s.hot, s.rows, k) == Some(was) && Newest(s.rows, k) == Some(now)
  {
    hide Newest, Positions, LatestPerDevice, After;
    TwoRows(was, now, k);
    OvertakenPrefix(was, now, k, 7);
    assert OvertakenRun(was, now, k)[..7] == OvertakenRun(was, now, k);
  }

  // ---- A batch is its steps ----------------------------------------------------------------------------

  function PublishEach(s: State, order: seq<Id>): State {
    if order == [] then s else Next(PublishEach(s, order[..|order| - 1]), Publish(order[|order| - 1]))
  }

  predicate Distinct(order: seq<Id>) { forall i, j :: 0 <= i < j < |order| ==> order[i] != order[j] }

  /** Publications one device at a time, in whatever order, add up to the cache the map publishes as a whole. */
  lemma {:induction false} PublishesAddUp(s: State, order: seq<Id>) returns (done: map<Id, Position>)
    requires Distinct(order) && (forall d :: d in s.pending ==> s.pending[d].deviceId == d)
    requires forall i :: 0 <= i < |order| ==> order[i] in s.pending
    ensures (forall d :: d in done <==> d in order) && (forall d :: d in done ==> d in s.pending && done[d] == s.pending[d])
    ensures PublishEach(s, order) ==
            s.(hot := Published(s.hot, done), pending := s.pending - done.Keys, origin := PublishEach(s, order).origin)
  {
    hide Published, Newest;
    if order == [] {
      done := map[];
      NothingPublished(s.hot);
      assert s.pending - {} == s.pending;
    } else {
      var front, d := order[..|order| - 1], order[|order| - 1];
      assert order == front + [d];
      var before := PublishesAddUp(s, front);
      assert d !in front;
      PublishOne(s.hot, before, s.pending[d]);
      done := before[d := s.pending[d]];
      assert s.pending - before.Keys - {d} == s.pending - done.Keys;
    }
  }

  /** The consumer's `process` is a commit followed by its publications. */
  lemma ProcessIsItsSteps(s: State, batch: seq<Message>, order: seq<Id>)
    requires s.pending == map[] && Distinct(order)
    requires forall d :: d in order <==> d in LatestPerDevice(Positions(batch))
    ensures var s' := PublishEach(Next(s, Commit(batch)), order);
            && s'.rows == s.rows + Positions(batch) && s'.pending == map[]
            && s'.hot == Published(s.hot, LatestPerDevice(Positions(batch)))
  {
    hide Published, Newest, LatestPerDevice, Positions;
    var s1, best := Next(s, Commit(batch)), LatestPerDevice(Positions(batch));
    forall d | d in best ensures best[d].deviceId == d { MapHoldsItsDevice(Positions(batch), d); }
    var done := PublishesAddUp(s1, order);
    assert done == best;
  }
}
