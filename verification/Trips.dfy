/**
  Trip detection (trips.ts). The detector is online: it keeps one small state per device and emits a trip when a
  position ends one. The specification is offline: it looks at a device's whole history at once.
 */
module Trips {
  import opened Bytes

  type Id = string

  datatype Position = Position(deviceId: Id, tMs: int, lat: real, lon: real, speedKph: real)

  datatype Options = Options(moveSpeedKph: real, stopSpeedKph: real, stopMinMs: int)

  /** haversineMeters, kept abstract. */
  type Distance = (Position, Position) -> real

  datatype Trip = Trip(deviceId: Id, startTs: int, endTs: int, distanceM: real, maxSpeedKph: real, points: nat)

  predicate Fast(o: Options, p: Position) { p.speedKph >= o.moveSpeedKph }

  predicate Slow(o: Options, p: Position) { p.speedKph <= o.stopSpeedKph }

  // ---- The offline specification, over the positions of one device -----------------------------

  type History = seq<Position>

  /** Where the contiguous slow run that ends at e began, looking back no further than the position after s. */
  function RunStart(o: Options, h: History, s: nat, e: nat): (k: nat)
    requires s < e < |h|
    ensures s < k <= e
    ensures forall i :: k <= i < e ==> Slow(o, h[i])
    ensures k == s + 1 || !Slow(o, h[k - 1])
  {
    if e > s + 1 && Slow(o, h[e - 1]) then RunStart(o, h, s, e - 1) else e
  }

  /** Position e closes a trip started at s: it ends a slow run of more than one position that lasted long enough. */
  predicate Closes(o: Options, h: History, s: nat, e: nat)
    requires s < e < |h|
  {
    Slow(o, h[e]) && var k := RunStart(o, h, s, e); k < e && h[e].tMs - h[k].tMs >= o.stopMinMs
  }

  /** (s, e) is the next trip from position `from` on: the first start, and the first position that closes it. */
  predicate IsTrip(o: Options, h: History, from: nat, s: nat, e: nat) {
    && from <= s < e < |h| && Fast(o, h[s]) && (forall i :: from <= i < s ==> !Fast(o, h[i]))
    && Closes(o, h, s, e) && (forall j :: s < j < e ==> !Closes(o, h, s, j))
  }

  datatype Segment = Segment(start: nat, end: nat)

  function ResumeAt(segs: seq<Segment>, k: nat): nat
    requires k <= |segs|
  {
    if k == 0 then 0 else segs[k - 1].end + 1
  }

  /** segs is the segmentation of h: each next trip in turn, and no further one. */
  ghost predicate Segments(o: Options, h: History, segs: seq<Segment>) {
    && (forall k :: 0 <= k < |segs| ==> IsTrip(o, h, ResumeAt(segs, k), segs[k].start, segs[k].end))
    && (forall s: nat, e: nat :: !IsTrip(o, h, ResumeAt(segs, |segs|), s, e))
  }

  function PathLength(dist: Distance, h: History, s: nat, e: nat): real
    requires s <= e < |h|
    decreases e - s
  {
    if s == e then 0.0 else PathLength(dist, h, s, e - 1) + dist(h[e - 1], h[e])
  }

  function TopSpeed(h: History, s: nat, e: nat): real
    requires s <= e < |h|
    decreases e - s
  {
    if s == e then h[s].speedKph else
      var m := TopSpeed(h, s, e - 1); if h[e].speedKph > m then h[e].speedKph else m
  }

  /** Math.round, half up. */
  function Round(x: real): real { (x + 0.5).Floor as real }

  /** The trip record of a segment. */
  function TripOf(dist: Distance, h: History, seg: Segment): Trip
    requires seg.start <= seg.end < |h|
  {
    Trip(h[seg.end].deviceId, h[seg.start].tMs, h[seg.end].tMs, Round(PathLength(dist, h, seg.start, seg.end)),
         TopSpeed(h, seg.start, seg.end), seg.end - seg.start + 1)
  }

  // ---- The online detector ----------------------------------------------------------------------

  datatype TripState =
    | Idle
    | Moving(startTs: int, last: Position, distanceM: real, maxSpeedKph: real, points: nat, stoppedSince: Option<int>)

  /** One position against one device's state. */
  function Step(o: Options, dist: Distance, st: TripState, p: Position): (TripState, Option<Trip>) {
    match st
    case Idle =>
      if Fast(o, p) then (Moving(p.tMs, p, 0.0, p.speedKph, 1, None), None) else (Idle, None)
    case Moving(startTs, last, d0, max0, points0, since) =>
      var d := d0 + dist(last, p);
      var max := if p.speedKph > max0 then p.speedKph else max0;
      var moving := Moving(startTs, p, d, max, points0 + 1, since);
      if !Slow(o, p) then (moving.(stoppedSince := None), None)
      else if since == None then (moving.(stoppedSince := Some(p.tMs)), None)
      else if p.tMs - since.value >= o.stopMinMs then
        (Idle, Some(Trip(p.deviceId, startTs, p.tMs, Round(d), max, points0 + 1)))
      else (moving, None)
  }

  class TripDetector {
    const opts: Options
    const dist: Distance
    var state: map<Id, TripState>

    constructor (opts: Options, dist: Distance)
      ensures this.opts == opts && this.dist == dist && state == map[]
    {
      this.opts, this.dist, state := opts, dist, map[];
    }

    function StateOf(id: Id): TripState
      reads this
    {
      if id in state then state[id] else Idle
    }

    method Update(p: Position) returns (trip: Option<Trip>)
      modifies this
      ensures (StateOf(p.deviceId), trip) == Step(opts, dist, old(StateOf(p.deviceId)), p)
      ensures forall id :: id != p.deviceId ==> StateOf(id) == old(StateOf(id))
    {
      var id := p.deviceId;
      if id !in state || state[id].Idle? {
        if Fast(opts, p) {
          state := state[id := Moving(p.tMs, p, 0.0, p.speedKph, 1, None)];
        } else if id !in state {
          state := state[id := Idle];
        }
        return None;
      }
      var st := state[id];
      st := st.(distanceM := st.distanceM + dist(st.last, p));
      st := st.(last := p);
      st := st.(maxSpeedKph := if p.speedKph > st.maxSpeedKph then p.speedKph else st.maxSpeedKph);
      st := st.(points := st.points + 1);
      trip := None;
      if Slow(opts, p) {
        if st.stoppedSince == None {
          st := st.(stoppedSince := Some(p.tMs));
        } else if p.tMs - st.stoppedSince.value >= opts.stopMinMs {
          trip := Some(Trip(id, st.startTs, p.tMs, Round(st.distanceM), st.maxSpeedKph, st.points));
          state := state[id := Idle];
          return;
        }
      } else {
        st := st.(stoppedSince := None);
      }
      state := state[id := st];
    }
  }

  // ---- One device -----------------------------------------------------------------------------------

  /** The state and the trips after a device's history. */
  function Run(o: Options, dist: Distance, h: History): (TripState, seq<Trip>) {
    if h == [] then (Idle, []) else
      var (st, trips) := Run(o, dist, h[..|h| - 1]);
      var (st', trip) := Step(o, dist, st, h[|h| - 1]);
      (st', if trip.Some? then trips + [trip.value] else trips)
  }

  /** The closed trips so far: each the next one in turn, with its record. */
  ghost predicate Emitted(o: Options, dist: Distance, h: History, segs: seq<Segment>, trips: seq<Trip>) {
    && |trips| == |segs|
    && (forall k :: 0 <= k < |segs| ==> IsTrip(o, h, ResumeAt(segs, k), segs[k].start, segs[k].end))
    && (forall k :: 0 <= k < |segs| ==> segs[k].start <= segs[k].end < |h| && trips[k] == TripOf(dist, h, segs[k]))
  }

  /** An idle device has not started since it last stopped. */
  predicate IdleSince(o: Options, h: History, from: nat) {
    from <= |h| && forall i :: from <= i < |h| ==> !Fast(o, h[i])
  }

  /** A moving device: what its state records of the open segment that began at s. */
  ghost predicate Open(o: Options, dist: Distance, h: History, from: nat, s: nat, st: TripState) {
    && st.Moving? && from <= s < |h| && Fast(o, h[s]) && (forall i :: from <= i < s ==> !Fast(o, h[i]))
    && (forall j :: s < j < |h| ==> !Closes(o, h, s, j))
    && var n := |h| - 1;
      && st.startTs == h[s].tMs && st.last == h[n] && st.points == n - s + 1
      && st.distanceM == PathLength(dist, h, s, n) && st.maxSpeedKph == TopSpeed(h, s, n)
      && match st.stoppedSince
         case None => n == s || !Slow(o, h[n])
         case Some(t) => n > s && Slow(o, h[n]) && h[RunStart(o, h, s, n)].tMs == t
  }

  ghost predicate Tracks(o: Options, dist: Distance, h: History, segs: seq<Segment>, st: TripState) {
    var from := ResumeAt(segs, |segs|);
    match st
    case Idle => IdleSince(o, h, from)
    case Moving(_, _, _, _, _, _) => exists s: nat :: Open(o, dist, h, from, s, st)
  }

  // ---- What was decided stays decided ------------------------------------------------------------

  lemma {:induction false} RunStartPrefix(o: Options, h: History, p: Position, s: nat, e: nat)
    requires s < e < |h|
    ensures RunStart(o, h + [p], s, e) == RunStart(o, h, s, e)
    decreases e
  {
    if e > s + 1 {
      RunStartPrefix(o, h, p, s, e - 1);
    }
  }

  lemma ClosesPrefix(o: Options, h: History, p: Position, s: nat, e: nat)
    requires s < e < |h|
    ensures Closes(o, h + [p], s, e) == Closes(o, h, s, e)
  {
    RunStartPrefix(o, h, p, s, e);
  }

  lemma IsTripPrefix(o: Options, h: History, p: Position, from: nat, s: nat, e: nat)
    requires IsTrip(o, h, from, s, e)
    ensures IsTrip(o, h + [p], from, s, e)
  {
    hide Closes;
    forall j | s < j <= e
      ensures Closes(o, h + [p], s, j) == Closes(o, h, s, j)
    {
      ClosesPrefix(o, h, p, s, j);
    }
  }

  lemma {:induction false} PathPrefix(dist: Distance, h: History, p: Position, s: nat, e: nat)
    requires s <= e < |h|
    ensures PathLength(dist, h + [p], s, e) == PathLength(dist, h, s, e)
    ensures TopSpeed(h + [p], s, e) == TopSpeed(h, s, e)
    decreases e
  {
    if s < e {
      PathPrefix(dist, h, p, s, e - 1);
    }
  }

  lemma EmittedPrefix(o: Options, dist: Distance, h: History, p: Position, segs: seq<Segment>, trips: seq<Trip>)
    requires Emitted(o, dist, h, segs, trips)
    ensures Emitted(o, dist, h + [p], segs, trips)
  {
    hide IsTrip, PathLength, TopSpeed;
    forall k | 0 <= k < |segs|
      ensures IsTrip(o, h + [p], ResumeAt(segs, k), segs[k].start, segs[k].end)
      ensures trips[k] == TripOf(dist, h + [p], segs[k])
    {
      IsTripPrefix(o, h, p, ResumeAt(segs, k), segs[k].start, segs[k].end);
      PathPrefix(dist, h, p, segs[k].start, segs[k].end);
    }
  }

  // ---- One more position ----------------------------------------------------------------------------

  lemma IdleStep(o: Options, dist: Distance, h: History, p: Position, from: nat)
    requires IdleSince(o, h, from)
    ensures if Fast(o, p)
      then Open(o, dist, h + [p], from, |h|, Moving(p.tMs, p, 0.0, p.speedKph, 1, None))
      else IdleSince(o, h + [p], from)
  {}

  /** A moving device, one position later: either that position closes the trip, or the segment stays open. */
  lemma MovingStep(o: Options, dist: Distance, h: History, p: Position, from: nat, s: nat, st: TripState)
    requires Open(o, dist, h, from, s, st)
    ensures var (st', trip) := Step(o, dist, st, p); var h' := h + [p];
      if trip.Some?
      then st' == Idle && IsTrip(o, h', from, s, |h|) && trip.value == TripOf(dist, h', Segment(s, |h|))
      else Open(o, dist, h', from, s, st')
  {
    hide PathLength, TopSpeed, RunStart;
    var h', n := h + [p], |h| - 1;
    var (st', trip) := Step(o, dist, st, p);
    PathPrefix(dist, h, p, s, n);
    assert h'[n] == h[n] && h'[n + 1] == p;
    OpenMeasures(dist, h', s, n + 1);
    RunGrows(o, h, p, s);
    forall j | s < j < |h|
      ensures !Closes(o, h', s, j)
    {
      ClosesPrefix(o, h, p, s, j);
    }
  }

  lemma OpenMeasures(dist: Distance, h: History, s: nat, n: nat)
    requires s < n < |h|
    ensures PathLength(dist, h, s, n) == PathLength(dist, h, s, n - 1) + dist(h[n - 1], h[n])
    ensures TopSpeed(h, s, n) == if h[n].speedKph > TopSpeed(h, s, n - 1) then h[n].speedKph else TopSpeed(h, s, n - 1)
  {}

  lemma RunGrows(o: Options, h: History, p: Position, s: nat)
    requires s < |h|
    ensures RunStart(o, h + [p], s, |h|) == if |h| > s + 1 && Slow(o, h[|h| - 1]) then RunStart(o, h, s, |h| - 1) else |h|
  {
    if |h| > s + 1 {
      RunStartPrefix(o, h, p, s, |h| - 1);
    }
  }

  lemma {:induction false} RunTracks(o: Options, dist: Distance, h: History) returns (segs: seq<Segment>)
    ensures var (st, trips) := Run(o, dist, h);
      Emitted(o, dist, h, segs, trips) && Tracks(o, dist, h, segs, st)
  {
    if h == [] {
      segs := [];
    } else {
      hide Emitted, Open, IdleSince, Step, IsTrip;
      var init, p := h[..|h| - 1], h[|h| - 1];
      assert h == init + [p];
      segs := RunTracks(o, dist, init);
      var (st, trips) := Run(o, dist, init);
      EmittedPrefix(o, dist, init, p, segs, trips);
      segs := TrackStep(o, dist, init, p, segs, st, trips);
    }
  }

  lemma EmittedSnoc(o: Options, dist: Distance, h: History, segs: seq<Segment>, trips: seq<Trip>, seg: Segment)
    requires Emitted(o, dist, h, segs, trips) && IsTrip(o, h, ResumeAt(segs, |segs|), seg.start, seg.end)
    ensures seg.start <= seg.end < |h| && Emitted(o, dist, h, segs + [seg], trips + [TripOf(dist, h, seg)])
  {
    hide IsTrip, TripOf;
    InRange(o, h, ResumeAt(segs, |segs|), seg.start, seg.end);
    var segs', trips' := segs + [seg], trips + [TripOf(dist, h, seg)];
    forall k | 0 <= k < |segs'|
      ensures IsTrip(o, h, ResumeAt(segs', k), segs'[k].start, segs'[k].end)
      ensures segs'[k].start <= segs'[k].end < |h| && trips'[k] == TripOf(dist, h, segs'[k])
    {
      assert ResumeAt(segs', k) == ResumeAt(segs, k);
      if k < |segs| {
        assert segs'[k] == segs[k] && trips'[k] == trips[k];
      }
    }
  }

  lemma TrackStep(o: Options, dist: Distance, h: History, p: Position, segs: seq<Segment>, st: TripState, trips: seq<Trip>)
    returns (segs': seq<Segment>)
    requires Emitted(o, dist, h + [p], segs, trips) && Tracks(o, dist, h, segs, st)
    ensures var (st', trip) := Step(o, dist, st, p);
      && Tracks(o, dist, h + [p], segs', st')
      && Emitted(o, dist, h + [p], segs', if trip.Some? then trips + [trip.value] else trips)
  {
    hide Open, IdleSince, IsTrip, TripOf, Emitted, Step;
    var from := ResumeAt(segs, |segs|);
    segs' := segs;
    if st.Idle? {
      IdleStep(o, dist, h, p, from);
      IdleStepIs(o, dist, p);
    } else {
      var s: nat :| Open(o, dist, h, from, s, st);
      MovingStep(o, dist, h, p, from, s, st);
      MovingStepIs(o, dist, st, p);
      if Step(o, dist, st, p).1.Some? {
        segs' := segs + [Segment(s, |h|)];
        EmittedSnoc(o, dist, h + [p], segs, trips, Segment(s, |h|));
        NothingYet(o, h + [p]);
      }
    }
  }

  lemma IdleStepIs(o: Options, dist: Distance, p: Position)
    ensures Step(o, dist, Idle, p) == (if Fast(o, p) then Moving(p.tMs, p, 0.0, p.speedKph, 1, None) else Idle, None)
  {}

  lemma MovingStepIs(o: Options, dist: Distance, st: TripState, p: Position)
    requires st.Moving?
    ensures Step(o, dist, st, p).1.None? ==> Step(o, dist, st, p).0.Moving?
  {}

  lemma NothingYet(o: Options, h: History)
    ensures IdleSince(o, h, |h|)
  {}

  lemma InRange(o: Options, h: History, from: nat, s: nat, e: nat)
    requires IsTrip(o, h, from, s, e)
    ensures s <= e < |h|
  {}

  /** Neither an idle device nor an open segment hides a finished trip. */
  lemma NothingMore(o: Options, dist: Distance, h: History, segs: seq<Segment>, st: TripState)
    requires Tracks(o, dist, h, segs, st)
    ensures forall s: nat, e: nat :: !IsTrip(o, h, ResumeAt(segs, |segs|), s, e)
  {}

  /** The online detector of one device emits exactly the trips of the offline segmentation. */
  lemma OnlineIsOffline(o: Options, dist: Distance, h: History) returns (segs: seq<Segment>)
    ensures Segments(o, h, segs)
    ensures |Run(o, dist, h).1| == |segs|
    ensures forall k :: 0 <= k < |segs| ==>
      segs[k].start + 2 <= segs[k].end < |h| && Run(o, dist, h).1[k] == TripOf(dist, h, segs[k])
  {
    segs := RunTracks(o, dist, h);
    var (st, trips) := Run(o, dist, h);
    hide Run;
    NothingMore(o, dist, h, segs, st);
    forall k | 0 <= k < |segs|
      ensures segs[k].start + 2 <= segs[k].end
    {
      assert IsTrip(o, h, ResumeAt(segs, k), segs[k].start, segs[k].end);
    }
  }

  /** A history has one segmentation. */
  lemma SegmentsUnique(o: Options, h: History, a: seq<Segment>, b: seq<Segment>)
    requires Segments(o, h, a) && Segments(o, h, b)
    ensures a == b
  {
    hide Segments;
    SegmentsMatch(o, h, a, b, |a|);
    SegmentsMatch(o, h, b, a, |b|);
    assert a[..|a|] == a && b[..|b|] == b;
  }

  lemma {:induction false} SegmentsMatch(o: Options, h: History, a: seq<Segment>, b: seq<Segment>, n: nat)
    requires Segments(o, h, a) && Segments(o, h, b) && n <= |a|
    ensures n <= |b| && a[..n] == b[..n]
    decreases n
  {
    hide IsTrip;
    if n > 0 {
      SegmentsMatch(o, h, a, b, n - 1);
      var k := n - 1;
      SameResume(a, b, k);
      assert IsTrip(o, h, ResumeAt(a, k), a[k].start, a[k].end);
      assert k < |b|;
      NextTripUnique(o, h, ResumeAt(a, k), a[k].start, a[k].end, b[k].start, b[k].end);
      assert a[..n] == a[..k] + [a[k]] && b[..n] == b[..k] + [b[k]];
    }
  }

  lemma SameResume(a: seq<Segment>, b: seq<Segment>, k: nat)
    requires k <= |a| && k <= |b| && a[..k] == b[..k]
    ensures ResumeAt(a, k) == ResumeAt(b, k)
  {}

  lemma NextTripUnique(o: Options, h: History, from: nat, s1: nat, e1: nat, s2: nat, e2: nat)
    requires IsTrip(o, h, from, s1, e1) && IsTrip(o, h, from, s2, e2)
    ensures s1 == s2 && e1 == e2
  {}

  // ---- Interleaved devices ------------------------------------------------------------------------------

  function HistoryOf(stream: seq<Position>, id: Id): History {
    if stream == [] then [] else
      HistoryOf(stream[..|stream| - 1], id) + if stream[|stream| - 1].deviceId == id then [stream[|stream| - 1]] else []
  }

  /** The whole detector over an interleaved stream: every device's state, and the trips in order of emission. */
  function RunAll(o: Options, dist: Distance, stream: seq<Position>): (map<Id, TripState>, seq<Trip>) {
    if stream == [] then (map[], []) else
      var (m, trips) := RunAll(o, dist, stream[..|stream| - 1]);
      var p := stream[|stream| - 1];
      var (st', trip) := Step(o, dist, if p.deviceId in m then m[p.deviceId] else Idle, p);
      (m[p.deviceId := st'], if trip.Some? then trips + [trip.value] else trips)
  }

  function TripsOf(trips: seq<Trip>, id: Id): seq<Trip> {
    if trips == [] then [] else
      TripsOf(trips[..|trips| - 1], id) + if trips[|trips| - 1].deviceId == id then [trips[|trips| - 1]] else []
  }

  lemma TripsSnoc(trips: seq<Trip>, t: Trip, id: Id)
    ensures TripsOf(trips + [t], id) == if t.deviceId == id then TripsOf(trips, id) + [t] else TripsOf(trips, id)
  {}

  /** Interleaving is invisible: each device's state and trips are those of its own positions alone. */
  lemma {:induction false} DevicesAreIndependent(o: Options, dist: Distance, stream: seq<Position>, id: Id)
    ensures var (m, trips) := RunAll(o, dist, stream);
      ((if id in m then m[id] else Idle), TripsOf(trips, id)) == Run(o, dist, HistoryOf(stream, id))
  {
    hide Step, Run, TripsOf;
    if stream == [] {
      NoTrips(o, dist, id);
    } else {
      var init, p := stream[..|stream| - 1], stream[|stream| - 1];
      DevicesAreIndependent(o, dist, init, id);
      var (m, trips) := RunAll(o, dist, init);
      var (st', trip) := Step(o, dist, if p.deviceId in m then m[p.deviceId] else Idle, p);
      if trip.Some? {
        StepNames(o, dist, if p.deviceId in m then m[p.deviceId] else Idle, p);
        TripsSnoc(trips, trip.value, id);
      }
      var h := HistoryOf(init, id);
      RunSnoc(o, dist, h, p);
      assert RunAll(o, dist, stream) == (m[p.deviceId := st'], if trip.Some? then trips + [trip.value] else trips);
      assert HistoryOf(stream, id) == if p.deviceId == id then h + [p] else h;
    }
  }

  lemma NoTrips(o: Options, dist: Distance, id: Id)
    ensures Run(o, dist, []) == (Idle, []) && TripsOf([], id) == []
  {}

  lemma RunSnoc(o: Options, dist: Distance, h: History, p: Position)
    ensures var (st, trips) := Run(o, dist, h); var (st', trip) := Step(o, dist, st, p);
      Run(o, dist, h + [p]) == (st', if trip.Some? then trips + [trip.value] else trips)
  {}

  lemma StepNames(o: Options, dist: Distance, st: TripState, p: Position)
    ensures Step(o, dist, st, p).1.Some? ==> Step(o, dist, st, p).1.value.deviceId == p.deviceId
  {}

  /** The trips a device gets from any interleaved stream are the offline segmentation of its own positions. */
  lemma TripsAreSegments(o: Options, dist: Distance, stream: seq<Position>, id: Id) returns (segs: seq<Segment>)
    ensures var h := HistoryOf(stream, id); var trips := TripsOf(RunAll(o, dist, stream).1, id);
      && Segments(o, h, segs) && |trips| == |segs|
      && forall k :: 0 <= k < |segs| ==> segs[k].start + 2 <= segs[k].end < |h| && trips[k] == TripOf(dist, h, segs[k])
  {
    hide Run, RunAll, Segments, TripOf;
    DevicesAreIndependent(o, dist, stream, id);
    segs := OnlineIsOffline(o, dist, HistoryOf(stream, id));
  }

  // ---- In plain words ---------------------------------------------------------------------------------------

  /** From k to e, contiguously and begun after s, all positions are at or below stop speed, for stopMin or more. */
  predicate RestedFrom(o: Options, h: History, s: nat, e: nat, k: nat) {
    && s < k < e < |h|
    && (forall i :: k <= i <= e ==> h[i].speedKph <= o.stopSpeedKph)
    && (k == s + 1 || h[k - 1].speedKph > o.stopSpeedKph)
    && h[e].tMs - h[k].tMs >= o.stopMinMs
  }

  ghost predicate Rested(o: Options, h: History, s: nat, e: nat) { exists k: nat :: RestedFrom(o, h, s, e, k) }

  lemma RunIsUnique(o: Options, h: History, s: nat, e: nat, k: nat)
    requires s < k <= e < |h| && (forall i :: k <= i < e ==> h[i].speedKph <= o.stopSpeedKph)
    requires k == s + 1 || h[k - 1].speedKph > o.stopSpeedKph
    ensures RunStart(o, h, s, e) == k
  {
    var r := RunStart(o, h, s, e);
    assert r == s + 1 || !Slow(o, h[r - 1]);
    assert forall i :: r <= i < e ==> Slow(o, h[i]);
  }

  lemma ClosesMeans(o: Options, h: History, s: nat, e: nat)
    requires s < e < |h|
    ensures Closes(o, h, s, e) <==> Rested(o, h, s, e)
  {
    hide RunStart;
    var k := RunStart(o, h, s, e);
    if Closes(o, h, s, e) {
      assert forall i :: k <= i < e ==> Slow(o, h[i]);
      assert RestedFrom(o, h, s, e, k);
    }
    if Rested(o, h, s, e) {
      var j: nat :| RestedFrom(o, h, s, e, j);
      RunIsUnique(o, h, s, e, j);
      assert h[e].speedKph <= o.stopSpeedKph;
    }
  }

  /** What a segment is: the first position at or above move speed, up to the first rest after it. */
  lemma TripMeans(o: Options, h: History, from: nat, s: nat, e: nat)
    ensures IsTrip(o, h, from, s, e) <==>
      && from <= s < e < |h|
      && h[s].speedKph >= o.moveSpeedKph && (forall i :: from <= i < s ==> h[i].speedKph < o.moveSpeedKph)
      && Rested(o, h, s, e) && (forall j :: s < j < e ==> !Rested(o, h, s, j))
  {
    hide Rested, Closes;
    if from <= s < e < |h| {
      ClosesMeans(o, h, s, e);
      forall j | s < j < e ensures Closes(o, h, s, j) <==> Rested(o, h, s, j) { ClosesMeans(o, h, s, j); }
    }
  }

  /** The length of a path: nothing for one position, and each further position adds its distance from the one before. */
  lemma PathMeans(dist: Distance, h: History, s: nat, e: nat)
    requires s <= e < |h|
    ensures PathLength(dist, h, s, s) == 0.0
    ensures s < e ==> PathLength(dist, h, s, e) == PathLength(dist, h, s, e - 1) + dist(h[e - 1], h[e])
  {}

  lemma {:induction false} TopMeans(h: History, s: nat, e: nat) returns (i: nat)
    requires s <= e < |h|
    ensures s <= i <= e && TopSpeed(h, s, e) == h[i].speedKph
    ensures forall j :: s <= j <= e ==> h[j].speedKph <= TopSpeed(h, s, e)
    decreases e
  {
    if s == e {
      i := s;
    } else {
      i := TopMeans(h, s, e - 1);
      if h[e].speedKph > h[i].speedKph { i := e; }
    }
  }

  /** A trip record says where its segment begins and ends, how many positions it has, and what they add up to. */
  ghost predicate Records(dist: Distance, h: History, s: nat, e: nat, t: Trip)
    requires s <= e < |h|
  {
    && t.deviceId == h[e].deviceId && t.startTs == h[s].tMs && t.endTs == h[e].tMs && t.points == e - s + 1
    && (exists i :: s <= i <= e && t.maxSpeedKph == h[i].speedKph) && (forall i :: s <= i <= e ==> h[i].speedKph <= t.maxSpeedKph)
    && t.distanceM == t.distanceM.Floor as real
    && t.distanceM - 0.5 <= PathLength(dist, h, s, e) < t.distanceM + 0.5
  }

  lemma TripRecords(dist: Distance, h: History, seg: Segment)
    requires seg.start <= seg.end < |h|
    ensures Records(dist, h, seg.start, seg.end, TripOf(dist, h, seg))
  {
    var i := TopMeans(h, seg.start, seg.end);
  }

  /** Which positions and trips are a device's own: those that name it, in order. */
  lemma OwnMeans(stream: seq<Position>, p: Position, trips: seq<Trip>, t: Trip, id: Id)
    ensures HistoryOf([], id) == [] && TripsOf([], id) == []
    ensures HistoryOf(stream + [p], id) == HistoryOf(stream, id) + if p.deviceId == id then [p] else []
    ensures TripsOf(trips + [t], id) == TripsOf(trips, id) + if t.deviceId == id then [t] else []
  {
    assert (stream + [p])[..|stream|] == stream && (trips + [t])[..|trips|] == trips;
  }

  /** The first position from `from` on that is at or above move speed. */
  predicate FirstStart(o: Options, h: History, from: nat, s: nat) {
    from <= s < |h| && h[s].speedKph >= o.moveSpeedKph && forall i :: from <= i < s ==> h[i].speedKph < o.moveSpeedKph
  }

  ghost predicate FirstRest(o: Options, h: History, s: nat, e: nat) {
    s < e < |h| && Rested(o, h, s, e) && forall j :: s < j < e ==> !Rested(o, h, s, j)
  }

  /**
    The trips of a device, from any interleaved stream, in plain words: they are one after another; each starts at the
    first position at or above move speed after the previous end, and ends at the first rest after that; each records its
    segment of at least three positions; and after the last there is no start with a rest.
   */
  lemma TripsMean(o: Options, dist: Distance, stream: seq<Position>, id: Id) returns (segs: seq<Segment>)
    ensures var h := HistoryOf(stream, id); var trips := TripsOf(RunAll(o, dist, stream).1, id);
      && |trips| == |segs|
      && (forall k :: 0 <= k < |segs| ==>
            && FirstStart(o, h, if k == 0 then 0 else segs[k - 1].end + 1, segs[k].start)
            && FirstRest(o, h, segs[k].start, segs[k].end)
            && segs[k].start + 2 <= segs[k].end && Records(dist, h, segs[k].start, segs[k].end, trips[k]))
      && (forall s: nat, e: nat ::
            FirstStart(o, h, if segs == [] then 0 else segs[|segs| - 1].end + 1, s) ==> !FirstRest(o, h, s, e))
  {
    hide Run, RunAll, HistoryOf, TripsOf, Records, IsTrip, TripOf, FirstStart, FirstRest;
    segs := TripsAreSegments(o, dist, stream, id);
    var h := HistoryOf(stream, id);
    forall k | 0 <= k < |segs|
      ensures FirstStart(o, h, if k == 0 then 0 else segs[k - 1].end + 1, segs[k].start)
      ensures FirstRest(o, h, segs[k].start, segs[k].end)
      ensures Records(dist, h, segs[k].start, segs[k].end, TripOf(dist, h, segs[k]))
    {
      assert IsTrip(o, h, ResumeAt(segs, k), segs[k].start, segs[k].end);
      TripIs(o, h, ResumeAt(segs, k), segs[k].start, segs[k].end);
      TripRecords(dist, h, segs[k]);
    }
    forall s: nat, e: nat
      ensures FirstStart(o, h, ResumeAt(segs, |segs|), s) ==> !FirstRest(o, h, s, e)
    {
      TripIs(o, h, ResumeAt(segs, |segs|), s, e);
    }
  }

  lemma TripIs(o: Options, h: History, from: nat, s: nat, e: nat)
    ensures IsTrip(o, h, from, s, e) <==> FirstStart(o, h, from, s) && FirstRest(o, h, s, e)
  {
    hide Rested, IsTrip;
    TripMeans(o, h, from, s, e);
  }
}
