/**
  The edge-triggered alert engine (alerts.ts). The log keeps, in order, every packet evaluated and every alert
  emitted; the properties say what must lie between two alerts of the log.
 */
module Alerts {
  import opened Bytes

  type Id = string

  datatype Position = Position(deviceId: Id, speedKph: real, ignition: Option<bool>, lat: real, lon: real)

  datatype Config = Config(overspeedKph: Option<real>, ignitionAlerts: bool, geofenceAlerts: bool, offlineAfterMs: int)

  datatype Fence = Fence(id: Id, name: string)

  /** geofenceContains, kept abstract here. */
  type Contains = (Fence, Position) -> bool

  datatype DeviceState = DeviceState(
    lastSeenMs: int, lastIgnition: Option<bool>, overspeedActive: bool, inside: seq<Id>, offlineAlerted: bool)

  datatype Kind = Overspeed | IgnitionOn | IgnitionOff | Enter(fence: Id) | Exit(fence: Id) | Offline

  /**
    A packet with whether it was found over the limit (None when no limit was configured), an evaluated ignition state,
    or an alert.
   */
  datatype Item = Packet(deviceId: Id, over: Option<bool>) | Reading(deviceId: Id, on: bool) | Alert(deviceId: Id, kind: Kind)

  datatype Engine = Engine(order: seq<Id>, states: map<Id, DeviceState>, log: seq<Item>)

  // ---- The engine, on values ------------------------------------------------------------------

  /** geofencesContaining: the ids of the fences around the position, without repetition, in fence order. */
  function Containing(contains: Contains, fences: seq<Fence>, p: Position): seq<Id> {
    if fences == [] then [] else
      var init, f := Containing(contains, fences[..|fences| - 1], p), fences[|fences| - 1];
      if contains(f, p) && f.id !in init then init + [f.id] else init
  }

  /** The ids of a that are not in b, in order. */
  function Minus(a: seq<Id>, b: seq<Id>): seq<Id> {
    if a == [] then [] else
      var init := Minus(a[..|a| - 1], b);
      if a[|a| - 1] in b then init else init + [a[|a| - 1]]
  }

  function Enters(ids: seq<Id>): (r: seq<Kind>)
    ensures |r| == |ids| && forall i :: 0 <= i < |r| ==> r[i] == Enter(ids[i])
  {
    seq(|ids|, i requires 0 <= i < |ids| => Enter(ids[i]))
  }

  function Exits(ids: seq<Id>): (r: seq<Kind>)
    ensures |r| == |ids| && forall i :: 0 <= i < |r| ==> r[i] == Exit(ids[i])
  {
    seq(|ids|, i requires 0 <= i < |ids| => Exit(ids[i]))
  }

  function Over(c: Config, p: Position): Option<bool> {
    if c.overspeedKph == None then None else Some(p.speedKph > c.overspeedKph.value)
  }

  /** The ignition state that is evaluated, if any. */
  function Read(c: Config, p: Position): Option<bool> { if c.ignitionAlerts then p.ignition else None }

  function SpeedAlerts(st: DeviceState, over: Option<bool>): seq<Kind> {
    if over == Some(true) && !st.overspeedActive then [Overspeed] else []
  }

  function IgnitionAlerts(st: DeviceState, c: Config, p: Position): seq<Kind> {
    if c.ignitionAlerts && p.ignition.Some? && st.lastIgnition.Some? && p.ignition != st.lastIgnition
    then [if p.ignition.value then IgnitionOn else IgnitionOff] else []
  }

  function FenceAlerts(st: DeviceState, c: Config, fences: seq<Fence>, now: seq<Id>): seq<Kind> {
    if c.geofenceAlerts && fences != [] then Enters(Minus(now, st.inside)) + Exits(Minus(st.inside, now)) else []
  }

  /** The alerts of one evaluated position, in the order they are emitted. */
  function AlertsOf(contains: Contains, st: DeviceState, c: Config, fences: seq<Fence>, p: Position): seq<Kind> {
    SpeedAlerts(st, Over(c, p)) + (IgnitionAlerts(st, c, p) + FenceAlerts(st, c, fences, Containing(contains, fences, p)))
  }

  function Evaluated(contains: Contains, st: DeviceState, c: Config, fences: seq<Fence>, p: Position, nowMs: int): DeviceState {
    DeviceState(nowMs,
                if c.ignitionAlerts && p.ignition.Some? then p.ignition else st.lastIgnition,
                if Over(c, p).Some? then Over(c, p).value else st.overspeedActive,
                if c.geofenceAlerts && fences != [] then Containing(contains, fences, p) else st.inside,
                false)
  }

  function StateOf(e: Engine, d: Id): DeviceState {
    if d in e.states then e.states[d] else DeviceState(0, None, false, [], false)
  }

  function ToItems(d: Id, ks: seq<Kind>): (r: seq<Item>)
    ensures |r| == |ks| && forall i :: 0 <= i < |ks| ==> r[i] == Alert(d, ks[i])
  {
    seq(|ks|, i requires 0 <= i < |ks| => Alert(d, ks[i]))
  }

  function Readings(d: Id, r: Option<bool>): seq<Item> { if r.Some? then [Reading(d, r.value)] else [] }

  /** What one evaluated position adds to the log: the packet, what was evaluated, and the alerts, in order. */
  function Trail(d: Id, over: Option<bool>, read: Option<bool>, speed: seq<Kind>, ignition: seq<Kind>, fence: seq<Kind>): seq<Item> {
    [Packet(d, over)] + ToItems(d, speed) + (Readings(d, read) + ToItems(d, ignition)) + ToItems(d, fence)
  }

  function TrailOf(contains: Contains, st: DeviceState, c: Config, fences: seq<Fence>, p: Position): seq<Item> {
    Trail(p.deviceId, Over(c, p), Read(c, p), SpeedAlerts(st, Over(c, p)), IgnitionAlerts(st, c, p),
          FenceAlerts(st, c, fences, Containing(contains, fences, p)))
  }

  function Evaluate(contains: Contains, e: Engine, c: Config, fences: seq<Fence>, p: Position, nowMs: int): Engine {
    var d, st := p.deviceId, StateOf(e, p.deviceId);
    Engine(if d in e.states then e.order else e.order + [d],
           e.states[d := Evaluated(contains, st, c, fences, p, nowMs)],
           e.log + TrailOf(contains, st, c, fences, p))
  }

  predicate Late(st: DeviceState, nowMs: int, c: Config) {
    !st.offlineAlerted && nowMs - st.lastSeenMs > c.offlineAfterMs
  }

  /** sweepOffline over the first n devices, in insertion order. */
  function Sweep(e: Engine, nowMs: int, c: Config, n: nat): Engine
    requires n <= |e.order|
  {
    if n == 0 then e else
      var s, d := Sweep(e, nowMs, c, n - 1), e.order[n - 1];
      if d in s.states && Late(s.states[d], nowMs, c)
      then Engine(s.order, s.states[d := s.states[d].(offlineAlerted := true)], s.log + [Alert(d, Offline)])
      else s
  }

  function Offlines(ids: seq<Id>): (r: seq<Item>)
    ensures |r| == |ids| && forall i :: 0 <= i < |ids| ==> r[i] == Alert(ids[i], Offline)
  {
    seq(|ids|, i requires 0 <= i < |ids| => Alert(ids[i], Offline))
  }

  // ---- What lies between two items of a log --------------------------------------------------------

  /** fires has occurred and none of clears since. */
  function Armed(log: seq<Item>, fires: Item, clears: set<Item>): bool {
    log != [] && (log[|log| - 1] == fires || (log[|log| - 1] !in clears && Armed(log[..|log| - 1], fires, clears)))
  }

  /** No occurrence of fires comes while it is still armed by an earlier one. */
  predicate Spaced(log: seq<Item>, fires: Item, clears: set<Item>) {
    forall i :: 0 <= i < |log| && log[i] == fires ==> !Armed(log[..i], fires, clears)
  }

  lemma ArmedSnoc(log: seq<Item>, x: Item, fires: Item, clears: set<Item>)
    ensures Armed(log + [x], fires, clears) == (x == fires || (x !in clears && Armed(log, fires, clears)))
  {}

  lemma SpacedSnoc(log: seq<Item>, x: Item, fires: Item, clears: set<Item>)
    requires Spaced(log, fires, clears) && (x == fires ==> !Armed(log, fires, clears))
    ensures Spaced(log + [x], fires, clears)
  {
    forall i | 0 <= i < |log + [x]| && (log + [x])[i] == fires
      ensures !Armed((log + [x])[..i], fires, clears)
    {
      assert (log + [x])[..i] == log[..i];
      assert log[..|log|] == log;
    }
  }

  /** Items that neither fire nor clear change nothing. */
  lemma {:induction false} Unaffected(log: seq<Item>, ext: seq<Item>, fires: Item, clears: set<Item>)
    requires forall i :: 0 <= i < |ext| ==> ext[i] != fires && ext[i] !in clears
    ensures Armed(log + ext, fires, clears) == Armed(log, fires, clears)
    ensures Spaced(log, fires, clears) ==> Spaced(log + ext, fires, clears)
    decreases |ext|
  {
    if ext == [] {
      assert log + ext == log;
    } else {
      var init, x := ext[..|ext| - 1], ext[|ext| - 1];
      Unaffected(log, init, fires, clears);
      assert log + ext == (log + init) + [x];
      ArmedSnoc(log + init, x, fires, clears);
      if Spaced(log, fires, clears) {
        SpacedSnoc(log + init, x, fires, clears);
      }
    }
  }

  lemma {:induction false} ArmedStays(log: seq<Item>, i: nat, j: nat, fires: Item, clears: set<Item>)
    requires i < j <= |log| && log[i] == fires && forall k :: i < k < j ==> log[k] !in clears
    ensures Armed(log[..j], fires, clears)
    decreases j
  {
    var p := log[..j];
    assert p[|p| - 1] == log[j - 1] && p[..|p| - 1] == log[..j - 1];
    if j > i + 1 {
      ArmedStays(log, i, j - 1, fires, clears);
    }
  }

  /** Spacing, in plain words: between two occurrences of fires lies one of clears. */
  lemma SpacedMeansBetween(log: seq<Item>, fires: Item, clears: set<Item>, i: nat, j: nat)
    requires Spaced(log, fires, clears) && i < j < |log| && log[i] == fires && log[j] == fires
    ensures exists k :: i < k < j && log[k] in clears
  {
    if forall k :: i < k < j ==> log[k] !in clears {
      ArmedStays(log, i, j, fires, clears);
    }
  }

  // ---- The invariant, per device -----------------------------------------------------------------------

  function Packets(d: Id): set<Item> { {Packet(d, None), Packet(d, Some(true)), Packet(d, Some(false))} }

  /** Overspeed alerts are spaced, and one stands exactly while the device was last found over the limit. */
  ghost predicate SpeedInv(log: seq<Item>, d: Id, active: bool) {
    && Spaced(log, Alert(d, Overspeed), {Packet(d, Some(false))})
    && (Armed(log, Alert(d, Overspeed), {Packet(d, Some(false))}) <==> active)
    && (Armed(log, Packet(d, Some(true)), {Packet(d, Some(false))}) <==> active)
  }

  function Ignition(d: Id, on: bool): Item { Alert(d, if on then IgnitionOn else IgnitionOff) }

  /** An alert for one ignition state stands exactly while that state was last read and the other one was read before. */
  ghost predicate IgnitionHalf(log: seq<Item>, d: Id, last: Option<bool>, on: bool) {
    && Spaced(log, Ignition(d, on), {Ignition(d, !on)})
    && (Armed(log, Ignition(d, on), {Ignition(d, !on)}) <==> last == Some(on) && Reading(d, !on) in log)
    && (Armed(log, Reading(d, on), {Reading(d, !on)}) <==> last == Some(on))
    && (last == None ==> Reading(d, on) !in log)
  }

  ghost predicate IgnitionInv(log: seq<Item>, d: Id, last: Option<bool>) {
    IgnitionHalf(log, d, last, true) && IgnitionHalf(log, d, last, false)
  }

  /** Enter and exit of one fence strictly alternate from enter, and the fence is open iff the last was an enter. */
  ghost predicate FenceInv(log: seq<Item>, d: Id, f: Id, open: bool) {
    var enter, exit := Alert(d, Enter(f)), Alert(d, Exit(f));
    && Spaced(log, enter, {exit}) && Spaced(log, exit, {enter})
    && (forall i :: 0 <= i < |log| && log[i] == exit ==> Armed(log[..i], enter, {exit}))
    && (Armed(log, enter, {exit}) <==> open) && (Armed(log, exit, {enter}) ==> !open)
  }

  ghost predicate OfflineInv(log: seq<Item>, d: Id, alerted: bool) {
    && Spaced(log, Alert(d, Offline), Packets(d))
    && (Armed(log, Alert(d, Offline), Packets(d)) <==> alerted)
  }

  predicate Distinct(s: seq<Id>) { forall i, j :: 0 <= i < j < |s| ==> s[i] != s[j] }

  ghost predicate DeviceInv(log: seq<Item>, d: Id, st: DeviceState) {
    && Distinct(st.inside)
    && SpeedInv(log, d, st.overspeedActive) && IgnitionInv(log, d, st.lastIgnition) && OfflineInv(log, d, st.offlineAlerted)
    && forall f :: FenceInv(log, d, f, f in st.inside)
  }

  ghost predicate Inv(e: Engine) { forall d :: DeviceInv(e.log, d, StateOf(e, d)) }

  // ---- Overspeed, ignition, offline ----------------------------------------------------------------------

  lemma SpeedOne(log: seq<Item>, d: Id, st: DeviceState, over: Option<bool>)
    requires SpeedInv(log, d, st.overspeedActive)
    ensures SpeedInv(log + [Packet(d, over)] + ToItems(d, SpeedAlerts(st, over)), d, if over.Some? then over.value else st.overspeedActive)
  {
    hide Spaced, Armed;
    var fires, clears := Alert(d, Overspeed), {Packet(d, Some(false))};
    var log1 := log + [Packet(d, over)];
    ArmedSnoc(log, Packet(d, over), fires, clears);
    SpacedSnoc(log, Packet(d, over), fires, clears);
    ArmedSnoc(log, Packet(d, over), Packet(d, Some(true)), clears);
    match over { case None => case Some(b) => assert over == Some(true) || over == Some(false); }
    if over == Some(true) && !st.overspeedActive {
      ArmedSnoc(log1, fires, fires, clears);
      ArmedSnoc(log1, fires, Packet(d, Some(true)), clears);
      SpacedSnoc(log1, fires, fires, clears);
      assert ToItems(d, SpeedAlerts(st, over)) == [fires];
    } else {
      assert log1 + ToItems(d, SpeedAlerts(st, over)) == log1;
    }
  }

  lemma {:induction false} ArmedOccurs(log: seq<Item>, fires: Item, clears: set<Item>)
    requires Armed(log, fires, clears)
    ensures fires in log
  {
    var n := |log| - 1;
    if log[n] != fires {
      ArmedOccurs(log[..n], fires, clears);
      assert fires in log[..n];
    }
  }

  /** One reading, followed by its alert if it is a change. */
  lemma IgnitionRead(log: seq<Item>, d: Id, last: Option<bool>, now: bool, on: bool)
    requires IgnitionInv(log, d, last)
    ensures var log1 := log + [Reading(d, now)];
      IgnitionHalf(if last == Some(!now) then log1 + [Ignition(d, now)] else log1, d, Some(now), on)
  {
    hide Spaced, Armed;
    var x, y := Reading(d, now), Ignition(d, now);
    var log1 := log + [x];
    ArmedSnoc(log, x, Ignition(d, on), {Ignition(d, !on)});
    SpacedSnoc(log, x, Ignition(d, on), {Ignition(d, !on)});
    ArmedSnoc(log, x, Reading(d, on), {Reading(d, !on)});
    if last == Some(!now) {
      ArmedOccurs(log, Reading(d, !now), {Reading(d, now)});
      ArmedSnoc(log1, y, Ignition(d, on), {Ignition(d, !on)});
      SpacedSnoc(log1, y, Ignition(d, on), {Ignition(d, !on)});
      ArmedSnoc(log1, y, Reading(d, on), {Reading(d, !on)});
    }
    Opposite(last, now);
    assert on == now || on == !now;
    assert IgnitionHalf(log, d, last, on) && IgnitionHalf(log, d, last, !on) by { if on {} }
  }

  lemma IgnitionOne(log: seq<Item>, d: Id, st: DeviceState, c: Config, p: Position)
    requires IgnitionInv(log, d, st.lastIgnition)
    ensures IgnitionInv(log + (Readings(d, Read(c, p)) + ToItems(d, IgnitionAlerts(st, c, p))), d,
                        if c.ignitionAlerts && p.ignition.Some? then p.ignition else st.lastIgnition)
  {
    hide IgnitionHalf;
    var last, ext := st.lastIgnition, Readings(d, Read(c, p)) + ToItems(d, IgnitionAlerts(st, c, p));
    if Read(c, p).None? {
      assert log + ext == log;
    } else {
      var now := p.ignition.value;
      IgnitionRead(log, d, last, now, true);
      IgnitionRead(log, d, last, now, false);
      Opposite(last, now);
      if last == Some(!now) {
        assert ToItems(d, IgnitionAlerts(st, c, p)) == [Ignition(d, now)];
        assert log + ext == log + [Reading(d, now)] + [Ignition(d, now)];
      } else {
        assert IgnitionAlerts(st, c, p) == [];
        assert ext == [Reading(d, now)];
      }
    }
  }

  lemma Opposite(last: Option<bool>, now: bool)
    ensures last == None || last == Some(now) || last == Some(!now)
  {
    if last.Some? && last.value != now {
      assert last == Some(!now);
    }
  }

  // ---- Fences ------------------------------------------------------------------------------------------------

  lemma FenceStep(log: seq<Item>, d: Id, f: Id, open: bool, enter: bool)
    requires FenceInv(log, d, f, open) && enter != open
    ensures FenceInv(log + [Alert(d, if enter then Enter(f) else Exit(f))], d, f, enter)
  {
    hide Spaced, Armed;
    var en, ex := Alert(d, Enter(f)), Alert(d, Exit(f));
    var x := if enter then en else ex;
    ArmedSnoc(log, x, en, {ex});
    ArmedSnoc(log, x, ex, {en});
    SpacedSnoc(log, x, en, {ex});
    SpacedSnoc(log, x, ex, {en});
    forall i | 0 <= i < |log + [x]| && (log + [x])[i] == ex
      ensures Armed((log + [x])[..i], en, {ex})
    {
      assert (log + [x])[..i] == log[..i];
      assert log[..|log|] == log;
    }
  }

  lemma FenceUnaffected(log: seq<Item>, ext: seq<Item>, d: Id, f: Id, open: bool)
    requires FenceInv(log, d, f, open)
    requires forall i :: 0 <= i < |ext| ==> ext[i] != Alert(d, Enter(f)) && ext[i] != Alert(d, Exit(f))
    ensures FenceInv(log + ext, d, f, open)
  {
    hide Spaced, Armed;
    var en, ex := Alert(d, Enter(f)), Alert(d, Exit(f));
    Unaffected(log, ext, en, {ex});
    Unaffected(log, ext, ex, {en});
    forall i | 0 <= i < |log + ext| && (log + ext)[i] == ex
      ensures Armed((log + ext)[..i], en, {ex})
    {
      assert i < |log|;
      assert (log + ext)[..i] == log[..i];
    }
  }

  lemma CrossingItems(d: Id, ids: seq<Id>, enter: bool)
    ensures var items := ToItems(d, if enter then Enters(ids) else Exits(ids));
      |items| == |ids| && forall i :: 0 <= i < |ids| ==> items[i] == Alert(d, if enter then Enter(ids[i]) else Exit(ids[i]))
  {}

  /** A list of crossings in which fence f occurs at most once, as the crossing it is due. */
  lemma FenceMany(log: seq<Item>, d: Id, ids: seq<Id>, f: Id, open: bool, enter: bool)
    requires FenceInv(log, d, f, open) && Distinct(ids) && (f in ids ==> enter != open)
    ensures FenceInv(log + ToItems(d, if enter then Enters(ids) else Exits(ids)), d, f, if f in ids then enter else open)
  {
    hide FenceInv, Enters, Exits, ToItems;
    var items := ToItems(d, if enter then Enters(ids) else Exits(ids));
    CrossingItems(d, ids, enter);
    if f in ids {
      var i :| 0 <= i < |ids| && ids[i] == f;
      FenceAmong(log, items, i, d, f, open, enter);
    } else {
      FenceUnaffected(log, items, d, f, open);
    }
  }

  lemma FenceAmong(log: seq<Item>, items: seq<Item>, i: nat, d: Id, f: Id, open: bool, enter: bool)
    requires FenceInv(log, d, f, open) && enter != open
    requires i < |items| && items[i] == Alert(d, if enter then Enter(f) else Exit(f))
    requires forall j :: 0 <= j < |items| && j != i ==> items[j] != Alert(d, Enter(f)) && items[j] != Alert(d, Exit(f))
    ensures FenceInv(log + items, d, f, enter)
  {
    hide FenceInv;
    var a, x, b := items[..i], items[i], items[i + 1..];
    FenceUnaffected(log, a, d, f, open);
    FenceStep(log + a, d, f, open, enter);
    FenceUnaffected(log + a + [x], b, d, f, enter);
    assert log + items == log + a + [x] + b;
  }

  lemma {:induction false} MinusIs(a: seq<Id>, b: seq<Id>)
    requires Distinct(a)
    ensures Distinct(Minus(a, b)) && forall x :: x in Minus(a, b) <==> x in a && x !in b
  {
    if a != [] {
      var init, l := a[..|a| - 1], a[|a| - 1];
      assert a == init + [l];
      MinusIs(init, b);
      var m := Minus(init, b);
      forall i | 0 <= i < |m|
        ensures m[i] != l
      {
        assert m[i] in init;
      }
    }
  }

  lemma {:induction false} ContainingDistinct(contains: Contains, fences: seq<Fence>, p: Position)
    ensures Distinct(Containing(contains, fences, p))
  {
    if fences != [] {
      ContainingDistinct(contains, fences[..|fences| - 1], p);
    }
  }

  /** An id is listed exactly when some fence of that id is around the position. */
  lemma {:induction false} ContainingIs(contains: Contains, fences: seq<Fence>, p: Position, x: Id)
    ensures x in Containing(contains, fences, p) <==> exists f :: f in fences && f.id == x && contains(f, p)
  {
    if fences != [] {
      var n := |fences| - 1;
      ContainingIs(contains, fences[..n], p, x);
      assert fences == fences[..n] + [fences[n]];
    }
  }

  lemma ItemsConcat(d: Id, a: seq<Kind>, b: seq<Kind>)
    ensures ToItems(d, a + b) == ToItems(d, a) + ToItems(d, b)
  {
    var l, r := ToItems(d, a + b), ToItems(d, a) + ToItems(d, b);
    assert forall i :: 0 <= i < |l| ==> l[i] == r[i];
  }

  lemma FenceOne(log: seq<Item>, d: Id, st: DeviceState, c: Config, fences: seq<Fence>, now: seq<Id>, f: Id)
    requires FenceInv(log, d, f, f in st.inside) && Distinct(st.inside) && Distinct(now)
    ensures FenceInv(log + ToItems(d, FenceAlerts(st, c, fences, now)), d, f,
                     f in if c.geofenceAlerts && fences != [] then now else st.inside)
  {
    hide FenceInv, ToItems, Enters, Exits, Minus;
    if c.geofenceAlerts && fences != [] {
      var ins, outs := Minus(now, st.inside), Minus(st.inside, now);
      MinusIs(now, st.inside);
      MinusIs(st.inside, now);
      var entered, left := ToItems(d, Enters(ins)), ToItems(d, Exits(outs));
      FenceMany(log, d, ins, f, f in st.inside, true);
      FenceMany(log + entered, d, outs, f, f in ins || f in st.inside, false);
      ItemsConcat(d, Enters(ins), Exits(outs));
      assert log + (entered + left) == log + entered + left;
    } else {
      assert log + ToItems(d, []) == log;
    }
  }

  // ---- One evaluated position -------------------------------------------------------------------------------

  lemma SpeedUnaffected(log: seq<Item>, ext: seq<Item>, d: Id, active: bool)
    requires SpeedInv(log, d, active)
    requires forall i :: 0 <= i < |ext| ==> ext[i] != Alert(d, Overspeed) && !(ext[i].Packet? && ext[i].deviceId == d)
    ensures SpeedInv(log + ext, d, active)
  {
    Unaffected(log, ext, Packet(d, Some(true)), {Packet(d, Some(false))});
    Unaffected(log, ext, Alert(d, Overspeed), {Packet(d, Some(false))});
  }

  lemma IgnitionUnaffected(log: seq<Item>, ext: seq<Item>, d: Id, last: Option<bool>)
    requires IgnitionInv(log, d, last)
    requires forall i :: 0 <= i < |ext| ==> ext[i] != Alert(d, IgnitionOn) && ext[i] != Alert(d, IgnitionOff)
    requires forall i :: 0 <= i < |ext| ==> !(ext[i].Reading? && ext[i].deviceId == d)
    ensures IgnitionInv(log + ext, d, last)
  {
    hide IgnitionHalf;
    HalfUnaffected(log, ext, d, last, true);
    HalfUnaffected(log, ext, d, last, false);
  }

  lemma HalfUnaffected(log: seq<Item>, ext: seq<Item>, d: Id, last: Option<bool>, on: bool)
    requires IgnitionHalf(log, d, last, on)
    requires forall i :: 0 <= i < |ext| ==> ext[i] != Alert(d, IgnitionOn) && ext[i] != Alert(d, IgnitionOff)
    requires forall i :: 0 <= i < |ext| ==> !(ext[i].Reading? && ext[i].deviceId == d)
    ensures IgnitionHalf(log + ext, d, last, on)
  {
    hide Spaced, Armed;
    Unaffected(log, ext, Ignition(d, on), {Ignition(d, !on)});
    Unaffected(log, ext, Reading(d, on), {Reading(d, !on)});
  }

  lemma OfflineUnaffected(log: seq<Item>, ext: seq<Item>, d: Id, alerted: bool)
    requires OfflineInv(log, d, alerted)
    requires forall i :: 0 <= i < |ext| ==> ext[i] != Alert(d, Offline) && !(ext[i].Packet? && ext[i].deviceId == d)
    ensures OfflineInv(log + ext, d, alerted)
  {
    Unaffected(log, ext, Alert(d, Offline), Packets(d));
  }

  lemma PacketClearsOffline(log: seq<Item>, d: Id, over: Option<bool>, alerted: bool)
    requires OfflineInv(log, d, alerted)
    ensures OfflineInv(log + [Packet(d, over)], d, false)
  {
    match over { case None => case Some(b) => if b { assert over == Some(true); } else { assert over == Some(false); } }
    ArmedSnoc(log, Packet(d, over), Alert(d, Offline), Packets(d));
    SpacedSnoc(log, Packet(d, over), Alert(d, Offline), Packets(d));
  }

  lemma OtherDevice(log: seq<Item>, ext: seq<Item>, d: Id, st: DeviceState)
    requires DeviceInv(log, d, st) && forall i :: 0 <= i < |ext| ==> ext[i].deviceId != d
    ensures DeviceInv(log + ext, d, st)
  {
    hide SpeedInv, IgnitionInv, OfflineInv, FenceInv;
    SpeedUnaffected(log, ext, d, st.overspeedActive);
    IgnitionUnaffected(log, ext, d, st.lastIgnition);
    OfflineUnaffected(log, ext, d, st.offlineAlerted);
    forall f ensures FenceInv(log + ext, d, f, f in st.inside) {
      FenceUnaffected(log, ext, d, f, f in st.inside);
    }
  }

  lemma SplitTrail(log: seq<Item>, a: seq<Item>, b: seq<Item>, c: seq<Item>, g: seq<Item>)
    ensures log + (a + b + c + g) == log + a + b + c + g
  {}

  /** Which kinds each part of an evaluation can emit. */
  lemma KindsOf(st: DeviceState, over: Option<bool>, c: Config, p: Position, fences: seq<Fence>, now: seq<Id>)
    ensures forall k :: k in SpeedAlerts(st, over) ==> k == Overspeed
    ensures forall k :: k in IgnitionAlerts(st, c, p) ==> k == IgnitionOn || k == IgnitionOff
    ensures forall k :: k in FenceAlerts(st, c, fences, now) ==> k.Enter? || k.Exit?
  {}

  lemma EvaluatedInv(contains: Contains, log: seq<Item>, st: DeviceState, c: Config, fences: seq<Fence>, p: Position, nowMs: int)
    requires DeviceInv(log, p.deviceId, st)
    ensures DeviceInv(log + TrailOf(contains, st, c, fences, p), p.deviceId, Evaluated(contains, st, c, fences, p, nowMs))
  {
    hide SpeedInv, IgnitionInv, OfflineInv, FenceInv, SpeedAlerts, IgnitionAlerts, FenceAlerts, Containing, ToItems, Over, Read;
    var d, over, now := p.deviceId, Over(c, p), Containing(contains, fences, p);
    var a, b, g := SpeedAlerts(st, over), IgnitionAlerts(st, c, p), FenceAlerts(st, c, fences, now);
    var A, B, G := ToItems(d, a), Readings(d, Read(c, p)) + ToItems(d, b), ToItems(d, g);
    SplitTrail(log, [Packet(d, over)], A, B, G);
    KindsOf(st, over, c, p, fences, now);
    ContainingDistinct(contains, fences, p);
    assert forall i :: 0 <= i < |A| ==> A[i] == Alert(d, a[i]) && a[i] in a;
    IgnitionItems(d, Read(c, p), b);
    assert forall i :: 0 <= i < |G| ==> G[i] == Alert(d, g[i]) && g[i] in g;
    var l1 := log + [Packet(d, over)];
    SpeedOne(log, d, st, over);
    SpeedUnaffected(l1 + A, B, d, Evaluated(contains, st, c, fences, p, nowMs).overspeedActive);
    SpeedUnaffected(l1 + A + B, G, d, Evaluated(contains, st, c, fences, p, nowMs).overspeedActive);
    IgnitionUnaffected(log, [Packet(d, over)], d, st.lastIgnition);
    IgnitionUnaffected(l1, A, d, st.lastIgnition);
    IgnitionOne(l1 + A, d, st, c, p);
    IgnitionUnaffected(l1 + A + B, G, d, Evaluated(contains, st, c, fences, p, nowMs).lastIgnition);
    PacketClearsOffline(log, d, over, st.offlineAlerted);
    OfflineUnaffected(l1, A, d, false);
    OfflineUnaffected(l1 + A, B, d, false);
    OfflineUnaffected(l1 + A + B, G, d, false);
    forall f
      ensures FenceInv(l1 + A + B + G, d, f, f in Evaluated(contains, st, c, fences, p, nowMs).inside)
    {
      FenceUnaffected(log, [Packet(d, over)], d, f, f in st.inside);
      FenceUnaffected(l1, A, d, f, f in st.inside);
      FenceUnaffected(l1 + A, B, d, f, f in st.inside);
      FenceOne(l1 + A + B, d, st, c, fences, now, f);
    }
  }

  lemma IgnitionItems(d: Id, read: Option<bool>, ks: seq<Kind>)
    requires forall k :: k in ks ==> k == IgnitionOn || k == IgnitionOff
    ensures var B := Readings(d, read) + ToItems(d, ks);
      forall i :: 0 <= i < |B| ==> B[i].Reading? || B[i] == Alert(d, IgnitionOn) || B[i] == Alert(d, IgnitionOff)
  {
    var items := ToItems(d, ks);
    assert forall i :: 0 <= i < |items| ==> items[i] == Alert(d, ks[i]) && ks[i] in ks;
  }

  lemma TrailDevice(d: Id, over: Option<bool>, read: Option<bool>, a: seq<Kind>, b: seq<Kind>, g: seq<Kind>)
    ensures var t := Trail(d, over, read, a, b, g); forall i :: 0 <= i < |t| ==> t[i].deviceId == d
  {}

  lemma EvaluateKeepsInv(contains: Contains, e: Engine, c: Config, fences: seq<Fence>, p: Position, nowMs: int)
    requires Inv(e)
    ensures Inv(Evaluate(contains, e, c, fences, p, nowMs))
  {
    hide DeviceInv, Evaluated, Trail, Containing, SpeedAlerts, IgnitionAlerts, FenceAlerts, Over, Read;
    var e' := Evaluate(contains, e, c, fences, p, nowMs);
    var d0, st0 := p.deviceId, StateOf(e, p.deviceId);
    var ext := TrailOf(contains, st0, c, fences, p);
    TrailDevice(d0, Over(c, p), Read(c, p), SpeedAlerts(st0, Over(c, p)), IgnitionAlerts(st0, c, p),
                FenceAlerts(st0, c, fences, Containing(contains, fences, p)));
    forall d
      ensures DeviceInv(e'.log, d, StateOf(e', d))
    {
      assert DeviceInv(e.log, d, StateOf(e, d));
      if d == d0 {
        EvaluatedInv(contains, e.log, st0, c, fences, p, nowMs);
      } else {
        OtherDevice(e.log, ext, d, StateOf(e, d));
      }
    }
  }

  // ---- The offline sweep ------------------------------------------------------------------------------------------

  lemma OfflineFires(log: seq<Item>, d: Id, st: DeviceState)
    requires DeviceInv(log, d, st) && !st.offlineAlerted
    ensures DeviceInv(log + [Alert(d, Offline)], d, st.(offlineAlerted := true))
  {
    hide SpeedInv, IgnitionInv, FenceInv;
    var x := Alert(d, Offline);
    SpeedUnaffected(log, [x], d, st.overspeedActive);
    IgnitionUnaffected(log, [x], d, st.lastIgnition);
    forall f ensures FenceInv(log + [x], d, f, f in st.inside) {
      FenceUnaffected(log, [x], d, f, f in st.inside);
    }
    ArmedSnoc(log, x, x, Packets(d));
    SpacedSnoc(log, x, x, Packets(d));
  }

  lemma {:induction false} SweepKeepsInv(e: Engine, nowMs: int, c: Config, n: nat)
    requires Inv(e) && n <= |e.order|
    ensures Inv(Sweep(e, nowMs, c, n))
    decreases n
  {
    hide DeviceInv;
    if n > 0 {
      SweepKeepsInv(e, nowMs, c, n - 1);
      var s, s', d0 := Sweep(e, nowMs, c, n - 1), Sweep(e, nowMs, c, n), e.order[n - 1];
      if d0 in s.states && Late(s.states[d0], nowMs, c) {
        forall d
          ensures DeviceInv(s'.log, d, StateOf(s', d))
        {
          assert DeviceInv(s.log, d, StateOf(s, d));
          if d == d0 {
            OfflineFires(s.log, d, StateOf(s, d));
          } else {
            OtherDevice(s.log, [Alert(d0, Offline)], d, StateOf(s, d));
          }
        }
      }
    }
  }

  // ---- Every run -----------------------------------------------------------------------------------------------------

  /** A step may bring any configuration and any list of fences. */
  datatype Op = Evaluation(config: Config, fences: seq<Fence>, pos: Position, nowMs: int) | SweepOffline(nowMs: int, config: Config)

  function After(contains: Contains, ops: seq<Op>): Engine {
    if ops == [] then Engine([], map[], []) else
      var e := After(contains, ops[..|ops| - 1]);
      match ops[|ops| - 1]
      case Evaluation(c, fences, p, nowMs) => Evaluate(contains, e, c, fences, p, nowMs)
      case SweepOffline(nowMs, c) => Sweep(e, nowMs, c, |e.order|)
  }

  lemma EmptyInv()
    ensures Inv(Engine([], map[], []))
  {}

  lemma {:induction false} RunKeepsInv(contains: Contains, ops: seq<Op>)
    ensures Inv(After(contains, ops))
  {
    hide Inv, Evaluate, Sweep;
    if ops == [] {
      EmptyInv();
    } else {
      var e := After(contains, ops[..|ops| - 1]);
      RunKeepsInv(contains, ops[..|ops| - 1]);
      match ops[|ops| - 1] {
        case Evaluation(c, fences, p, nowMs) => EvaluateKeepsInv(contains, e, c, fences, p, nowMs);
        case SweepOffline(nowMs, c) => SweepKeepsInv(e, nowMs, c, |e.order|);
      }
    }
  }

  function Count(log: seq<Item>, x: Item): nat {
    if log == [] then 0 else Count(log[..|log| - 1], x) + if log[|log| - 1] == x then 1 else 0
  }

  /** Items that alternate from enter are balanced, but for one open enter. */
  lemma {:induction false} AlternatingBalances(log: seq<Item>, enter: Item, exit: Item)
    requires enter != exit && Spaced(log, enter, {exit})
    requires forall i :: 0 <= i < |log| && log[i] == exit ==> Armed(log[..i], enter, {exit})
    ensures Count(log, enter) == Count(log, exit) + if Armed(log, enter, {exit}) then 1 else 0
  {
    if log != [] {
      var front := log[..|log| - 1];
      assert forall i :: 0 <= i < |front| ==> front[i] == log[i] && front[..i] == log[..i];
      AlternatingBalances(front, enter, exit);
    }
  }

  /** The count of enters less the count of exits is one for a fence in the state and zero for any other. */
  lemma OpenCountIsMembership(contains: Contains, ops: seq<Op>, d: Id, f: Id)
    ensures var e := After(contains, ops);
      Count(e.log, Alert(d, Enter(f))) == Count(e.log, Alert(d, Exit(f))) + if f in StateOf(e, d).inside then 1 else 0
  {
    hide After, Armed, Spaced, Count;
    FencesAlternate(contains, ops, d, f);
    AlternatingBalances(After(contains, ops).log, Alert(d, Enter(f)), Alert(d, Exit(f)));
  }

  /** Under any changes of configuration and fences, enter and exit of a fence alternate from enter, and it is open iff in the state. */
  lemma FencesAlternate(contains: Contains, ops: seq<Op>, d: Id, f: Id)
    ensures var e := After(contains, ops); FenceInv(e.log, d, f, f in StateOf(e, d).inside)
  {
    hide After, FenceInv;
    RunKeepsInv(contains, ops);
    var e := After(contains, ops);
    assert DeviceInv(e.log, d, StateOf(e, d));
  }

  /** Every episode is reported: an overspeed alert stands exactly while the device was last found over the limit. */
  lemma EpisodesAreReported(contains: Contains, ops: seq<Op>, d: Id)
    ensures var e := After(contains, ops); var notOver := {Packet(d, Some(false))};
      Armed(e.log, Alert(d, Overspeed), notOver) <==> Armed(e.log, Packet(d, Some(true)), notOver)
  {
    hide After, Armed, FenceInv, IgnitionInv, OfflineInv;
    RunKeepsInv(contains, ops);
    var e := After(contains, ops);
    assert DeviceInv(e.log, d, StateOf(e, d));
  }

  /**
    Every ignition change is reported: an alert for a state stands exactly while that state was the last one evaluated
    and the other one had been evaluated before.
   */
  lemma ChangesAreReported(contains: Contains, ops: seq<Op>, d: Id, on: bool)
    ensures var log := After(contains, ops).log;
      Armed(log, Ignition(d, on), {Ignition(d, !on)}) <==>
        Armed(log, Reading(d, on), {Reading(d, !on)}) && Reading(d, !on) in log
  {
    hide After, Armed, FenceInv, SpeedInv, OfflineInv;
    RunKeepsInv(contains, ops);
    var e := After(contains, ops);
    assert DeviceInv(e.log, d, StateOf(e, d));
  }

  /** The insertion order lists every device that has a state. */
  predicate Listed(e: Engine) { forall d :: d in e.states ==> d in e.order }

  lemma {:induction false} SweptTo(e: Engine, nowMs: int, c: Config, n: nat, d: Id)
    requires n <= |e.order|
    ensures var s := Sweep(e, nowMs, c, n);
      && s.states.Keys == e.states.Keys && s.order == e.order
      && (d in e.states ==>
          s.states[d] == if d in e.order[..n] && Late(e.states[d], nowMs, c) then e.states[d].(offlineAlerted := true) else e.states[d])
    decreases n
  {
    if n > 0 {
      SweptTo(e, nowMs, c, n - 1, d);
      assert e.order[..n] == e.order[..n - 1] + [e.order[n - 1]];
      if e.order[n - 1] != d { SweptTo(e, nowMs, c, n - 1, e.order[n - 1]); }
    }
  }

  lemma {:induction false} AlwaysListed(contains: Contains, ops: seq<Op>)
    ensures Listed(After(contains, ops))
  {
    hide Evaluated, TrailOf, Sweep;
    if ops != [] {
      var e := After(contains, ops[..|ops| - 1]);
      AlwaysListed(contains, ops[..|ops| - 1]);
      if ops[|ops| - 1].SweepOffline? { SweptTo(e, ops[|ops| - 1].nowMs, ops[|ops| - 1].config, |e.order|, ""); }
    }
  }

  /**
    Every silence is reported: after a sweep that ends any run, an offline alert with no packet since stands for exactly
    the devices that had one standing and those last seen too long ago.
   */
  lemma SilenceIsReported(contains: Contains, ops: seq<Op>, nowMs: int, c: Config, d: Id)
    requires d in After(contains, ops).states
    ensures var e := After(contains, ops); var e' := Sweep(e, nowMs, c, |e.order|);
      Armed(e'.log, Alert(d, Offline), Packets(d)) <==>
        Armed(e.log, Alert(d, Offline), Packets(d)) || nowMs - e.states[d].lastSeenMs > c.offlineAfterMs
  {
    hide After, Armed, Sweep, SpeedInv, FenceInv, IgnitionInv;
    var e := After(contains, ops);
    var e' := Sweep(e, nowMs, c, |e.order|);
    RunKeepsInv(contains, ops);
    SweepKeepsInv(e, nowMs, c, |e.order|);
    AlwaysListed(contains, ops);
    SweptTo(e, nowMs, c, |e.order|, d);
    assert e.order[..|e.order|] == e.order;
    assert DeviceInv(e.log, d, StateOf(e, d)) && DeviceInv(e'.log, d, StateOf(e', d));
  }

  /** What must lie between two alerts of the same kind, for one device. */
  function Separators(d: Id, k: Kind): set<Item> {
    match k
    case Overspeed => {Packet(d, Some(false))}
    case IgnitionOn => {Alert(d, IgnitionOff)}
    case IgnitionOff => {Alert(d, IgnitionOn)}
    case Enter(f) => {Alert(d, Exit(f))}
    case Exit(f) => {Alert(d, Enter(f))}
    case Offline => Packets(d)
  }

  /**
    No alert storms: between two equal alerts of a device lies a position found not over the limit, the opposite
    ignition or fence alert, or, for offline, a packet.
   */
  lemma AlertsAreSeparated(contains: Contains, ops: seq<Op>, d: Id, k: Kind, i: nat, j: nat)
    requires var log := After(contains, ops).log; i < j < |log| && log[i] == Alert(d, k) && log[j] == Alert(d, k)
    ensures var log := After(contains, ops).log; exists m :: i < m < j && log[m] in Separators(d, k)
  {
    hide After, Spaced, Armed;
    RunKeepsInv(contains, ops);
    var e := After(contains, ops);
    assert DeviceInv(e.log, d, StateOf(e, d));
    if k.Enter? || k.Exit? {
      assert FenceInv(e.log, d, k.fence, k.fence in StateOf(e, d).inside);
    }
    SpacedMeansBetween(e.log, Alert(d, k), Separators(d, k), i, j);
  }

  // ---- The engine as it runs --------------------------------------------------------------------------------------------

  class AlertEngine {
    const contains: Contains
    var order: seq<Id>
    var states: map<Id, DeviceState>
    ghost var log: seq<Item>

    ghost function Abs(): Engine
      reads this
    {
      Engine(order, states, log)
    }

    constructor (contains: Contains)
      ensures this.contains == contains && Abs() == Engine([], map[], [])
    {
      this.contains := contains;
      order, states, log := [], map[], [];
    }

    method GeofencesContaining(fences: seq<Fence>, p: Position) returns (inside: seq<Id>)
      ensures inside == Containing(contains, fences, p)
    {
      inside := [];
      for i := 0 to |fences|
        invariant inside == Containing(contains, fences[..i], p)
      {
        assert fences[..i + 1][..i] == fences[..i];
        if contains(fences[i], p) && fences[i].id !in inside {
          inside := inside + [fences[i].id];
        }
      }
      assert fences[..|fences|] == fences;
    }

    method CheckSpeed(st: DeviceState, config: Config, p: Position) returns (events: seq<Kind>, active: bool)
      ensures events == SpeedAlerts(st, Over(config, p))
      ensures active == if Over(config, p).Some? then Over(config, p).value else st.overspeedActive
    {
      events, active := [], st.overspeedActive;
      if config.overspeedKph.Some? {
        var over := p.speedKph > config.overspeedKph.value;
        if over && !st.overspeedActive {
          events := [Overspeed];
        }
        active := over;
      }
    }

    method CheckIgnition(st: DeviceState, config: Config, p: Position) returns (events: seq<Kind>, last: Option<bool>)
      ensures events == IgnitionAlerts(st, config, p)
      ensures last == if config.ignitionAlerts && p.ignition.Some? then p.ignition else st.lastIgnition
    {
      events, last := [], st.lastIgnition;
      if config.ignitionAlerts && p.ignition.Some? {
        if st.lastIgnition.Some? && p.ignition != st.lastIgnition {
          events := [if p.ignition.value then IgnitionOn else IgnitionOff];
        }
        last := p.ignition;
      }
    }

    method CheckFences(st: DeviceState, config: Config, fences: seq<Fence>, p: Position) returns (events: seq<Kind>, inside: seq<Id>)
      ensures events == FenceAlerts(st, config, fences, Containing(contains, fences, p))
      ensures inside == if config.geofenceAlerts && fences != [] then Containing(contains, fences, p) else st.inside
    {
      events, inside := [], st.inside;
      if config.geofenceAlerts && fences != [] {
        inside := GeofencesContaining(fences, p);
        events := Crossed(st.inside, inside);
      }
    }

    method EvaluatePosition(p: Position, config: Config, fences: seq<Fence>, nowMs: int) returns (events: seq<Kind>)
      modifies this
      ensures Abs() == Evaluate(contains, old(Abs()), config, fences, p, nowMs)
      ensures events == AlertsOf(contains, StateOf(old(Abs()), p.deviceId), config, fences, p)
    {
      hide Containing, SpeedAlerts, IgnitionAlerts, FenceAlerts, Over, Read, Trail;
      var d := p.deviceId;
      if d !in states {
        states := states[d := DeviceState(0, None, false, [], false)];
        order := order + [d];
      }
      var st := states[d];
      var speed, active := CheckSpeed(st, config, p);
      var ignition, last := CheckIgnition(st, config, p);
      var fence, inside := CheckFences(st, config, fences, p);
      events := speed + (ignition + fence);
      states := states[d := DeviceState(nowMs, last, active, inside, false)];
      log := log + Trail(d, Over(config, p), Read(config, p), speed, ignition, fence);
    }

    /** The two loops over the fences now around the position and those around the last one. */
    method Crossed(before: seq<Id>, now: seq<Id>) returns (events: seq<Kind>)
      ensures events == Enters(Minus(now, before)) + Exits(Minus(before, now))
    {
      events := [];
      for i := 0 to |now|
        invariant events == Enters(Minus(now[..i], before))
      {
        assert now[..i + 1][..i] == now[..i];
        if now[i] !in before {
          events := events + [Enter(now[i])];
        }
      }
      assert now[..|now|] == now;
      ghost var enters := events;
      for i := 0 to |before|
        invariant events == enters + Exits(Minus(before[..i], now))
      {
        assert before[..i + 1][..i] == before[..i];
        if before[i] !in now {
          events := events + [Exit(before[i])];
        }
      }
      assert before[..|before|] == before;
    }

    /** Returns the devices reported, in order. */
    method SweepOfflineDevices(nowMs: int, config: Config) returns (late: seq<Id>)
      modifies this
      ensures Abs() == Sweep(old(Abs()), nowMs, config, |old(order)|)
      ensures log == old(log) + Offlines(late)
    {
      late := [];
      assert Offlines([]) == [];
      for i := 0 to |order|
        invariant order == old(order) && Abs() == Sweep(old(Abs()), nowMs, config, i)
        invariant log == old(log) + Offlines(late)
      {
        var d := order[i];
        if d in states && !states[d].offlineAlerted && nowMs - states[d].lastSeenMs > config.offlineAfterMs {
          states := states[d := states[d].(offlineAlerted := true)];
          log := log + [Alert(d, Offline)];
          assert Offlines(late + [d]) == Offlines(late) + [Alert(d, Offline)];
          late := late + [d];
        }
      }
    }
  }
}
