/**
  The hot last position (telemetry.consumer.ts, positions.controller.ts, the in-memory hot state and position
  repository): a cache in front of the stored rows, and what one batch does to it.
 */
module HotState {
  import opened Bytes

  type Id = string

  type Key = (Id, Id)

  /** A position: whose it is, when it was taken, and everything else it reports. */
  datatype Position = Position(tenantId: Id, deviceId: Id, ts: int, report: string)

  /** A telemetry message after its device was looked up and its payload parsed. */
  datatype Message = UnknownImei | Unparseable | Resolved(pos: Position)

  predicate Of(k: Key, p: Position) { p.tenantId == k.0 && p.deviceId == k.1 }

  /** A later position replaces the best so far only when it is strictly newer. */
  function Newer(best: Option<Position>, p: Position): Option<Position> {
    if best.None? || p.ts > best.value.ts then Some(p) else best
  }

  /** positions.latest: the first row of the key with the greatest timestamp. */
  function Newest(rows: seq<Position>, k: Key): Option<Position> {
    if rows == [] then None else
      var best := Newest(rows[..|rows| - 1], k);
      if Of(k, rows[|rows| - 1]) then Newer(best, rows[|rows| - 1]) else best
  }

  /** The positions a batch inserts. */
  function Positions(batch: seq<Message>): seq<Position> {
    if batch == [] then [] else
      var rest := Positions(batch[..|batch| - 1]);
      var m := batch[|batch| - 1];
      if m.Resolved? then rest + [m.pos] else rest
  }

  function Best(best: map<Id, Position>, p: Position): map<Id, Position> {
    if p.deviceId !in best || p.ts > best[p.deviceId].ts then best[p.deviceId := p] else best
  }

  /** latestPerDevice after the batch loop: one position per device id. */
  function LatestPerDevice(ps: seq<Position>): map<Id, Position> {
    if ps == [] then map[] else Best(LatestPerDevice(ps[..|ps| - 1]), ps[|ps| - 1])
  }

  /** Which positions a batch inserts: those of its resolved messages, in order. */
  lemma PositionsMean(batch: seq<Message>, m: Message)
    ensures Positions([]) == []
    ensures Positions(batch + [m]) == Positions(batch) + if m.Resolved? then [m.pos] else []
  {
    assert (batch + [m])[..|batch|] == batch;
  }

  // ---- What the two maxima are ------------------------------------------------------------------

  /** Row i is the first row of k that no row of k exceeds. */
  ghost predicate FirstMaximum(rows: seq<Position>, k: Key, i: nat) {
    && i < |rows| && Of(k, rows[i])
    && (forall j :: 0 <= j < |rows| && Of(k, rows[j]) ==> rows[j].ts <= rows[i].ts)
    && (forall j :: 0 <= j < i && Of(k, rows[j]) ==> rows[j].ts < rows[i].ts)
  }

  lemma {:induction false} FirstMaximumAt(rows: seq<Position>, k: Key) returns (i: nat)
    requires Newest(rows, k).Some?
    ensures FirstMaximum(rows, k, i) && rows[i] == Newest(rows, k).value
  {
    i := |rows| - 1;
    var front := rows[..i];
    assert forall j :: 0 <= j < i ==> front[j] == rows[j];
    if Newest(front, k).None? {
      NoneIffNoRow(front, k);
    } else {
      var f := FirstMaximumAt(front, k);
      if Newest(rows, k) == Newest(front, k) { i := f; }
    }
  }

  lemma {:induction false} NoneIffNoRow(rows: seq<Position>, k: Key)
    ensures Newest(rows, k).None? <==> forall i :: 0 <= i < |rows| ==> !Of(k, rows[i])
  {
    if rows != [] {
      var n := |rows| - 1;
      var front := rows[..n];
      NoneIffNoRow(front, k);
      assert forall i :: 0 <= i < n ==> front[i] == rows[i];
    }
  }

  /** The stored latest is absent exactly when the key has no row, and otherwise is the first maximum. */
  lemma NewestIsFirstMaximum(rows: seq<Position>, k: Key)
    ensures Newest(rows, k).None? <==> forall i :: 0 <= i < |rows| ==> !Of(k, rows[i])
    ensures forall p :: Newest(rows, k) == Some(p) <==> exists i: nat :: FirstMaximum(rows, k, i) && rows[i] == p
  {
    NoneIffNoRow(rows, k);
    OneFirstMaximum(rows, k);
    if Newest(rows, k).Some? { var i := FirstMaximumAt(rows, k); }
  }

  lemma OneFirstMaximum(rows: seq<Position>, k: Key)
    ensures forall i: nat, j: nat :: FirstMaximum(rows, k, i) && FirstMaximum(rows, k, j) ==> i == j
  {}

  /** What a key's newest position is: one of its rows. */
  lemma {:induction false} NewestIsOf(rows: seq<Position>, k: Key)
    ensures Newest(rows, k).Some? ==> Of(k, Newest(rows, k).value) && Newest(rows, k).value in rows
  {
    if rows != [] { NewestIsOf(rows[..|rows| - 1], k); }
  }

  /** The newest of two stretches: the second one's newest where it is strictly newer than the first one's. */
  lemma {:induction false} NewestConcat(a: seq<Position>, b: seq<Position>, k: Key)
    ensures Newest(a + b, k) == if Newest(b, k).None? then Newest(a, k) else Newer(Newest(a, k), Newest(b, k).value)
  {
    if b == [] {
      assert a + b == a;
    } else {
      var n := |b| - 1;
      NewestConcat(a, b[..n], k);
      assert (a + b)[..|a + b| - 1] == a + b[..n];
      assert (a + b)[|a + b| - 1] == b[n];
    }
  }

  /** Every position belongs to the tenant that owns its device. */
  predicate Owned(owner: Id -> Id, ps: seq<Position>) {
    forall i :: 0 <= i < |ps| ==> ps[i].tenantId == owner(ps[i].deviceId)
  }

  /** A device's timestamps strictly increase along the stream. */
  predicate Increasing(ps: seq<Position>) {
    forall i, j :: 0 <= i < j < |ps| && ps[i].deviceId == ps[j].deviceId ==> ps[i].ts < ps[j].ts
  }

  /** The batch's map, keyed by device alone, holds each owner's newest position of the batch. */
  lemma {:induction false} BatchMapIsNewest(owner: Id -> Id, ps: seq<Position>, d: Id)
    requires Owned(owner, ps)
    ensures d in LatestPerDevice(ps) <==> Newest(ps, (owner(d), d)).Some?
    ensures d in LatestPerDevice(ps) ==> Newest(ps, (owner(d), d)) == Some(LatestPerDevice(ps)[d])
  {
    if ps != [] {
      var n := |ps| - 1;
      assert ps[n].tenantId == owner(ps[n].deviceId);
      BatchMapIsNewest(owner, ps[..n], d);
    }
  }

  lemma {:induction false} StrangersHaveNothing(owner: Id -> Id, ps: seq<Position>, k: Key)
    requires Owned(owner, ps) && k.0 != owner(k.1)
    ensures Newest(ps, k) == None
  {
    if ps != [] {
      StrangersHaveNothing(owner, ps[..|ps| - 1], k);
      assert ps[|ps| - 1].tenantId == owner(ps[|ps| - 1].deviceId);
    }
  }

  // ---- One batch --------------------------------------------------------------------------------

  /** The cache after the whole map of a batch was published. */
  ghost function Published(hot: map<Key, Position>, best: map<Id, Position>): map<Key, Position> {
    map k: Key | k in hot.Keys + set d | d in best :: (best[d].tenantId, d) ::
      if k.1 in best && best[k.1].tenantId == k.0 then best[k.1] else hot[k]
  }

  /** Publishing replaces exactly the entries of the devices in the map, under the tenant of their position. */
  lemma PublishedMeans(hot: map<Key, Position>, best: map<Id, Position>, k: Key)
    ensures var replaced := k.1 in best && best[k.1].tenantId == k.0;
      && (k in Published(hot, best) <==> replaced || k in hot)
      && (k in Published(hot, best) ==> Published(hot, best)[k] == if replaced then best[k.1] else hot[k])
  {
    if k.1 in best && best[k.1].tenantId == k.0 { assert k == (best[k.1].tenantId, k.1); }
  }

  predicate Agrees(hot: map<Key, Position>, rows: seq<Position>, k: Key) {
    k in hot ==> Newest(rows, k) == Some(hot[k])
  }

  /** What a reader of `latest` gets: the cached position, or the stored one. */
  function Answer(hot: map<Key, Position>, rows: seq<Position>, k: Key): Option<Position> {
    if k in hot then Some(hot[k]) else Newest(rows, k)
  }

  /**
    Exactly when the cache agrees after a batch, whatever it held before: a batch with nothing of the device changes
    nothing; any other leaves the key agreeing iff nothing was stored, or its newest timestamp exceeds the stored one,
    or the two positions do not differ.
   */
  lemma BatchAgreesIff(owner: Id -> Id, hot: map<Key, Position>, rows: seq<Position>, ps: seq<Position>, k: Key)
    requires Owned(owner, rows) && Owned(owner, ps)
    ensures Agrees(Published(hot, LatestPerDevice(ps)), rows + ps, k) <==>
            var was, now := Newest(rows, k), Newest(ps, k);
            if now.None? then Agrees(hot, rows, k) else was.None? || now.value.ts > was.value.ts || now == was
  {
    BatchMapIsNewest(owner, ps, k.1);
    NewestConcat(rows, ps, k);
    if k.0 != owner(k.1) {
      StrangersHaveNothing(owner, rows, k);
      StrangersHaveNothing(owner, ps, k);
    }
    NewestIsOf(ps, k);
    NewestIsOf(ps, (owner(k.1), k.1));
  }

  /** A late position overwrites the cache although the store keeps the newer one. */
  lemma LatePositionGoesStale(early: Position, late: Position, k: Key)
    requires Of(k, early) && Of(k, late) && early.ts < late.ts
    ensures var hot := map[k := late];
            && Agrees(hot, [late], k)
            && Answer(Published(hot, LatestPerDevice([early])), [late, early], k) == Some(early)
            && Newest([late, early], k) == Some(late)
  {
    TwoRows(late, early, k);
  }

  lemma OneRow(p: Position, k: Key)
    requires Of(k, p)
    ensures Newest([p], k) == Some(p) && LatestPerDevice([p]) == map[p.deviceId := p]
  {
    assert [p][..0] == [];
  }

  lemma OneMessage(p: Position)
    ensures Positions([Resolved(p)]) == [p]
  {
    assert [Resolved(p)][..0] == [] && [] + [p] == [p];
  }

  lemma TwoRows(was: Position, now: Position, k: Key)
    requires Of(k, was) && Of(k, now)
    ensures Newest([was], k) == Some(was) && Newest([was, now], k) == Newer(Some(was), now)
    ensures Positions([Resolved(was)]) == [was] && LatestPerDevice([was]) == map[was.deviceId := was]
    ensures Positions([Resolved(now)]) == [now] && LatestPerDevice([now]) == map[now.deviceId := now]
  {
    hide LatestPerDevice, Positions, Newer;
    OneRow(was, k);
    OneRow(now, k);
    OneMessage(was);
    OneMessage(now);
    assert [was, now][..1] == [was];
  }

  // ---- The operations ---------------------------------------------------------------------------

  lemma {:induction false} MapHoldsItsDevice(ps: seq<Position>, d: Id)
    ensures d in LatestPerDevice(ps) ==> LatestPerDevice(ps)[d].deviceId == d
  {
    if ps != [] { MapHoldsItsDevice(ps[..|ps| - 1], d); }
  }

  lemma NothingPublished(hot: map<Key, Position>)
    ensures Published(hot, map[]) == hot
  {}

  /** Publishing one more device of a batch adds it to what is published. */
  lemma PublishOne(hot: map<Key, Position>, done: map<Id, Position>, p: Position)
    requires p.deviceId !in done
    ensures Published(hot, done)[(p.tenantId, p.deviceId) := p] == Published(hot, done[p.deviceId := p])
  {
    var more, k := done[p.deviceId := p], (p.tenantId, p.deviceId);
    var a, b := Published(hot, done)[k := p], Published(hot, more);
    assert k in b by { assert p.deviceId in more; }
    forall x: Key ensures x in a <==> x in b {
      if x in b && x !in hot && x != k {
        var d :| d in more && x == (more[d].tenantId, d);
        assert d in done;
      }
      if x in a && x !in hot && x != k {
        var d :| d in done && x == (done[d].tenantId, d);
        assert d in more;
      }
    }
  }

  class Telemetry {
    var rows: seq<Position>
    var hot: map<Key, Position>

    constructor ()
      ensures rows == [] && hot == map[]
    {
      rows, hot := [], map[];
    }

    method LatestStored(tenantId: Id, deviceId: Id) returns (best: Option<Position>)
      ensures best == Newest(rows, (tenantId, deviceId))
    {
      best := None;
      for i := 0 to |rows|
        invariant best == Newest(rows[..i], (tenantId, deviceId))
      {
        var p := rows[i];
        assert rows[..i + 1][..i] == rows[..i];
        if p.tenantId == tenantId && p.deviceId == deviceId && (best.None? || p.ts > best.value.ts) {
          best := Some(p);
        }
      }
      assert rows[..|rows|] == rows;
    }

    method Collect(batch: seq<Message>) returns (toInsert: seq<Position>, latest: map<Id, Position>)
      ensures toInsert == Positions(batch) && latest == LatestPerDevice(toInsert)
    {
      toInsert, latest := [], map[];
      for i := 0 to |batch|
        invariant toInsert == Positions(batch[..i]) && latest == LatestPerDevice(toInsert)
      {
        assert batch[..i + 1][..i] == batch[..i];
        match batch[i]
        case UnknownImei =>
        case Unparseable =>
        case Resolved(pos) =>
          assert (toInsert + [pos])[..|toInsert|] == toInsert;
          toInsert := toInsert + [pos];
          if pos.deviceId !in latest || pos.ts > latest[pos.deviceId].ts {
            latest := latest[pos.deviceId := pos];
          }
      }
      assert batch[..|batch|] == batch;
    }

    /** The loop over the batch's map: one cache write per device, in any order. */
    method PublishAll(latest: map<Id, Position>)
      requires forall d :: d in latest ==> latest[d].deviceId == d
      modifies this`hot
      ensures hot == Published(old(hot), latest)
    {
      hide Published;
      NothingPublished(hot);
      var left := latest.Keys;
      ghost var done: map<Id, Position> := map[];
      while left != {}
        invariant left <= latest.Keys && done.Keys == latest.Keys - left
        invariant forall d :: d in done ==> done[d] == latest[d]
        invariant hot == Published(old(hot), done)
      {
        var d :| d in left;
        var pos := latest[d];
        PublishOne(old(hot), done, pos);
        done := done[d := pos];
        hot := hot[(pos.tenantId, pos.deviceId) := pos];
        left := left - {d};
      }
      assert done == latest;
    }

    method Process(batch: seq<Message>)
      modifies this
      ensures rows == old(rows) + Positions(batch)
      ensures hot == Published(old(hot), LatestPerDevice(Positions(batch)))
    {
      hide Published;
      var toInsert, latest := Collect(batch);
      forall d | d in latest ensures latest[d].deviceId == d { MapHoldsItsDevice(toInsert, d); }
      rows := rows + toInsert;
      PublishAll(latest);
    }

    /** The controller's `latest`; warmed tells whether writing the cache back succeeded. */
    method Latest(tenantId: Id, deviceId: Id, warmed: bool) returns (pos: Option<Position>)
      modifies this
      ensures rows == old(rows)
      ensures pos == Answer(old(hot), rows, (tenantId, deviceId))
      ensures hot == if (tenantId, deviceId) !in old(hot) && pos.Some? && warmed
                     then old(hot)[(tenantId, deviceId) := pos.value] else old(hot)
    {
      var k := (tenantId, deviceId);
      if k in hot {
        pos := Some(hot[k]);
      } else {
        pos := LatestStored(tenantId, deviceId);
        NewestIsOf(rows, k);
        if pos.Some? && warmed {
          hot := hot[(pos.value.tenantId, pos.value.deviceId) := pos.value];
        }
      }
    }
  }
}
