/**
  What the alert engine's state and alerts are, computed afresh from the history of positions, configurations, fences and
  sweeps: for each rule, the last step that the rule looked at.
 */
module AlertHistory {
  import opened Bytes
  import opened Alerts

  /** Speed and limit of the last position of d that was evaluated against a limit. */
  function LastLimited(ops: seq<Op>, d: Id): Option<(real, real)> {
    if ops == [] then None else
      var o := ops[|ops| - 1];
      if o.Evaluation? && o.pos.deviceId == d && o.config.overspeedKph.Some?
      then Some((o.pos.speedKph, o.config.overspeedKph.value)) else LastLimited(ops[..|ops| - 1], d)
  }

  predicate WasOver(ops: seq<Op>, d: Id) {
    LastLimited(ops, d).Some? && LastLimited(ops, d).value.0 > LastLimited(ops, d).value.1
  }

  /** The last known ignition state of d while ignition alerts were on. */
  function LastRead(ops: seq<Op>, d: Id): Option<bool> {
    if ops == [] then None else
      var o := ops[|ops| - 1];
      if o.Evaluation? && o.pos.deviceId == d && o.config.ignitionAlerts && o.pos.ignition.Some?
      then o.pos.ignition else LastRead(ops[..|ops| - 1], d)
  }

  /** The last position of d that was evaluated against fences, with those fences. */
  function LastFenced(ops: seq<Op>, d: Id): Option<(seq<Fence>, Position)> {
    if ops == [] then None else
      var o := ops[|ops| - 1];
      if o.Evaluation? && o.pos.deviceId == d && o.config.geofenceAlerts && o.fences != []
      then Some((o.fences, o.pos)) else LastFenced(ops[..|ops| - 1], d)
  }

  /** Some fence of that id is around the position. */
  predicate Around(contains: Contains, fences: seq<Fence>, p: Position, f: Id) {
    exists x :: x in fences && x.id == f && contains(x, p)
  }

  predicate WasInside(contains: Contains, ops: seq<Op>, d: Id, f: Id) {
    LastFenced(ops, d).Some? && Around(contains, LastFenced(ops, d).value.0, LastFenced(ops, d).value.1, f)
  }

  /** When the last position of d was evaluated. */
  function LastSeen(ops: seq<Op>, d: Id): Option<int> {
    if ops == [] then None else
      var o := ops[|ops| - 1];
      if o.Evaluation? && o.pos.deviceId == d then Some(o.nowMs) else LastSeen(ops[..|ops| - 1], d)
  }

  /** d was seen, and a sweep since then found that too long ago. */
  predicate FoundSilent(ops: seq<Op>, d: Id) {
    ops != [] &&
      var front, o := ops[..|ops| - 1], ops[|ops| - 1];
      match o
      case Evaluation(_, _, p, _) => p.deviceId != d && FoundSilent(front, d)
      case SweepOffline(now, c) =>
        FoundSilent(front, d) || (LastSeen(front, d).Some? && now - LastSeen(front, d).value > c.offlineAfterMs)
  }

  /** The state the engine holds for d is what the history says. */
  ghost predicate StateMeans(contains: Contains, ops: seq<Op>, d: Id, known: bool, st: DeviceState) {
    && (st.overspeedActive <==> WasOver(ops, d))
    && st.lastIgnition == LastRead(ops, d)
    && (forall f :: f in st.inside <==> WasInside(contains, ops, d, f))
    && (known <==> LastSeen(ops, d).Some?)
    && (known ==> st.lastSeenMs == LastSeen(ops, d).value)
    && (st.offlineAlerted <==> FoundSilent(ops, d))
  }

  lemma EvaluationMeans(contains: Contains, ops: seq<Op>, e: Engine, d: Id, c: Config, fences: seq<Fence>, p: Position, nowMs: int)
    requires StateMeans(contains, ops, d, d in e.states, StateOf(e, d))
    ensures var ops', e' := ops + [Evaluation(c, fences, p, nowMs)], Evaluate(contains, e, c, fences, p, nowMs);
      StateMeans(contains, ops', d, d in e'.states, StateOf(e', d))
  {
    hide TrailOf, Containing, Around;
    var op := Evaluation(c, fences, p, nowMs);
    var ops' := ops + [op];
    assert ops'[..|ops|] == ops && ops'[|ops|] == op;
    forall f
      ensures f in Containing(contains, fences, p) <==> Around(contains, fences, p, f)
    {
      AroundIs(contains, fences, p, f);
    }
  }

  lemma AroundIs(contains: Contains, fences: seq<Fence>, p: Position, f: Id)
    ensures f in Containing(contains, fences, p) <==> Around(contains, fences, p, f)
  {
    ContainingIs(contains, fences, p, f);
  }

  lemma SweepMeans(contains: Contains, ops: seq<Op>, e: Engine, d: Id, nowMs: int, c: Config)
    requires StateMeans(contains, ops, d, d in e.states, StateOf(e, d)) && Listed(e)
    ensures var ops', e' := ops + [SweepOffline(nowMs, c)], Sweep(e, nowMs, c, |e.order|);
      StateMeans(contains, ops', d, d in e'.states, StateOf(e', d))
  {
    hide Sweep, WasInside;
    var op := SweepOffline(nowMs, c);
    var ops' := ops + [op];
    assert ops'[..|ops|] == ops && ops'[|ops|] == op;
    SweptTo(e, nowMs, c, |e.order|, d);
    assert e.order[..|e.order|] == e.order;
    assert forall f :: WasInside(contains, ops', d, f) <==> WasInside(contains, ops, d, f) by { SameFences(contains, ops, op, d); }
  }

  lemma SameFences(contains: Contains, ops: seq<Op>, op: Op, d: Id)
    requires op.SweepOffline?
    ensures forall f :: WasInside(contains, ops + [op], d, f) <==> WasInside(contains, ops, d, f)
  {
    assert (ops + [op])[..|ops|] == ops;
  }

  lemma NothingMeans(contains: Contains, d: Id)
    ensures StateMeans(contains, [], d, false, StateOf(Engine([], map[], []), d))
  {}

  /** In every run, under any changes of configuration and fences, the engine's state is what the history says. */
  lemma {:induction false} StateIsHistory(contains: Contains, ops: seq<Op>, d: Id)
    ensures var e := After(contains, ops); StateMeans(contains, ops, d, d in e.states, StateOf(e, d))
  {
    hide StateMeans, Evaluate, Sweep, StateOf;
    if ops == [] {
      NothingMeans(contains, d);
    } else {
      var front := ops[..|ops| - 1];
      var e := After(contains, front);
      StateIsHistory(contains, front, d);
      AlwaysListed(contains, front);
      assert ops == front + [ops[|ops| - 1]];
      match ops[|ops| - 1] {
        case Evaluation(c, fences, p, nowMs) => EvaluationMeans(contains, front, e, d, c, fences, p, nowMs);
        case SweepOffline(nowMs, c) => SweepMeans(contains, front, e, d, nowMs, c);
      }
    }
  }

  // ---- What is emitted ----------------------------------------------------------------------------

  /** The alerts the engine returns for a position that follows a run. */
  function Emitted(contains: Contains, ops: seq<Op>, c: Config, fences: seq<Fence>, p: Position): seq<Kind> {
    AlertsOf(contains, StateOf(After(contains, ops), p.deviceId), c, fences, p)
  }

  predicate Once(ks: seq<Kind>) { forall i, j :: 0 <= i < j < |ks| ==> ks[i] != ks[j] }

  /** Overspeed, then ignition, then entered fences, then left ones. */
  function Rank(k: Kind): nat {
    match k
    case Overspeed => 0
    case IgnitionOn => 1
    case IgnitionOff => 1
    case Enter(_) => 2
    case Exit(_) => 3
    case Offline => 4
  }

  predicate Ranked(ks: seq<Kind>) { forall i, j :: 0 <= i < j < |ks| ==> Rank(ks[i]) <= Rank(ks[j]) }

  /** Each kind of alert, exactly: what the position and the history must be for it to be emitted. */
  ghost predicate EmittedMeans(contains: Contains, ops: seq<Op>, c: Config, fences: seq<Fence>, p: Position, ks: seq<Kind>) {
    var d := p.deviceId;
    && (Overspeed in ks <==> c.overspeedKph.Some? && p.speedKph > c.overspeedKph.value && !WasOver(ops, d))
    && (IgnitionOn in ks <==> c.ignitionAlerts && p.ignition == Some(true) && LastRead(ops, d) == Some(false))
    && (IgnitionOff in ks <==> c.ignitionAlerts && p.ignition == Some(false) && LastRead(ops, d) == Some(true))
    && (forall f :: Enter(f) in ks <==>
          c.geofenceAlerts && fences != [] && Around(contains, fences, p, f) && !WasInside(contains, ops, d, f))
    && (forall f :: Exit(f) in ks <==>
          c.geofenceAlerts && fences != [] && !Around(contains, fences, p, f) && WasInside(contains, ops, d, f))
    && Offline !in ks
  }

  lemma SpeedMembers(st: DeviceState, c: Config, p: Position)
    ensures var ks := SpeedAlerts(st, Over(c, p));
      && (Overspeed in ks <==> c.overspeedKph.Some? && p.speedKph > c.overspeedKph.value && !st.overspeedActive)
      && |ks| <= 1 && forall k :: k in ks ==> k == Overspeed
  {}

  lemma IgnitionMembers(st: DeviceState, c: Config, p: Position)
    ensures var ks := IgnitionAlerts(st, c, p);
      && (IgnitionOn in ks <==> c.ignitionAlerts && p.ignition == Some(true) && st.lastIgnition == Some(false))
      && (IgnitionOff in ks <==> c.ignitionAlerts && p.ignition == Some(false) && st.lastIgnition == Some(true))
      && |ks| <= 1 && forall k :: k in ks ==> k == IgnitionOn || k == IgnitionOff
  {
    if p.ignition.Some? && st.lastIgnition.Some? {
      Opposite(st.lastIgnition, p.ignition.value);
      if p.ignition.value { assert p.ignition == Some(true); } else { assert p.ignition == Some(false); }
      if st.lastIgnition.value { assert st.lastIgnition == Some(true); } else { assert st.lastIgnition == Some(false); }
    }
  }

  lemma EnterMembers(ids: seq<Id>)
    ensures (forall f :: Enter(f) in Enters(ids) <==> f in ids) && (forall k :: k in Enters(ids) ==> k.Enter?)
    ensures (forall f :: Exit(f) in Exits(ids) <==> f in ids) && (forall k :: k in Exits(ids) ==> k.Exit?)
    ensures Distinct(ids) ==> Once(Enters(ids)) && Once(Exits(ids))
  {
    var a, b := Enters(ids), Exits(ids);
    forall f | f in ids
      ensures Enter(f) in a && Exit(f) in b
    {
      var i :| 0 <= i < |ids| && ids[i] == f;
      assert a[i] == Enter(f) && b[i] == Exit(f);
    }
  }

  lemma FenceMembers(contains: Contains, st: DeviceState, c: Config, fences: seq<Fence>, p: Position)
    requires Distinct(st.inside)
    ensures var ks := FenceAlerts(st, c, fences, Containing(contains, fences, p)); var on := c.geofenceAlerts && fences != [];
      && (forall f :: Enter(f) in ks <==> on && Around(contains, fences, p, f) && f !in st.inside)
      && (forall f :: Exit(f) in ks <==> on && !Around(contains, fences, p, f) && f in st.inside)
      && (forall k :: k in ks ==> k.Enter? || k.Exit?) && Once(ks) && Ranked(ks)
  {
    hide Containing, Minus, Enters, Exits, Around, Distinct;
    var now := Containing(contains, fences, p);
    forall f ensures f in now <==> Around(contains, fences, p, f) { AroundIs(contains, fences, p, f); }
    ContainingDistinct(contains, fences, p);
    var ins, outs := Minus(now, st.inside), Minus(st.inside, now);
    MinusIs(now, st.inside);
    MinusIs(st.inside, now);
    EnterMembers(ins);
    EnterMembers(outs);
    JoinOnce(Enters(ins), Exits(outs));
    forall i, j | 0 <= i < j < |Enters(ins) + Exits(outs)|
      ensures Rank((Enters(ins) + Exits(outs))[i]) <= Rank((Enters(ins) + Exits(outs))[j])
    {
      InJoin(Enters(ins), Exits(outs), i);
      InJoin(Enters(ins), Exits(outs), j);
    }
  }

  lemma InJoin(a: seq<Kind>, b: seq<Kind>, i: nat)
    requires i < |a| + |b|
    ensures if i < |a| then (a + b)[i] in a else (a + b)[i] in b
  {}

  lemma JoinOnce(a: seq<Kind>, b: seq<Kind>)
    requires Once(a) && Once(b) && forall k :: k in a ==> k !in b
    ensures Once(a + b)
  {
    var ks := a + b;
    forall i, j | 0 <= i < j < |ks|
      ensures ks[i] != ks[j]
    {
      InJoin(a, b, i);
      InJoin(a, b, j);
    }
  }

  lemma JoinRanked(a: seq<Kind>, b: seq<Kind>)
    requires Ranked(a) && Ranked(b) && forall k, l :: k in a && l in b ==> Rank(k) <= Rank(l)
    ensures Ranked(a + b)
  {
    var ks := a + b;
    forall i, j | 0 <= i < j < |ks|
      ensures Rank(ks[i]) <= Rank(ks[j])
    {
      InJoin(a, b, i);
      InJoin(a, b, j);
    }
  }

  /** The three parts of an evaluation, each once and in its order, one after the other. */
  lemma PartsJoin(a: seq<Kind>, b: seq<Kind>, g: seq<Kind>)
    requires |a| <= 1 && (forall k :: k in a ==> k == Overspeed)
    requires |b| <= 1 && (forall k :: k in b ==> k == IgnitionOn || k == IgnitionOff)
    requires (forall k :: k in g ==> k.Enter? || k.Exit?) && Once(g) && Ranked(g)
    ensures Once(a + (b + g)) && Ranked(a + (b + g))
    ensures forall k :: k in a + (b + g) <==> k in a || k in b || k in g
  {
    JoinOnce(b, g);
    JoinRanked(b, g);
    MembersOfJoin(b, g);
    JoinOnce(a, b + g);
    JoinRanked(a, b + g);
    MembersOfJoin(a, b + g);
  }

  /** In every run the alerts of a position are exactly those its history calls for, each once, in their order. */
  lemma EmittedIsHistory(contains: Contains, ops: seq<Op>, c: Config, fences: seq<Fence>, p: Position)
    ensures var ks := Emitted(contains, ops, c, fences, p);
      EmittedMeans(contains, ops, c, fences, p, ks) && Once(ks) && Ranked(ks)
  {
    hide After, SpeedAlerts, IgnitionAlerts, FenceAlerts, Around, WasInside, WasOver, LastRead, Over, Containing, Once, Ranked;
    var d := p.deviceId;
    var st := StateOf(After(contains, ops), d);
    StateIsHistory(contains, ops, d);
    InsideDistinct(contains, ops, d);
    SpeedMembers(st, c, p);
    IgnitionMembers(st, c, p);
    FenceMembers(contains, st, c, fences, p);
    var a, b, g := SpeedAlerts(st, Over(c, p)), IgnitionAlerts(st, c, p), FenceAlerts(st, c, fences, Containing(contains, fences, p));
    PartsJoin(a, b, g);
  }

  lemma MembersOfJoin(a: seq<Kind>, b: seq<Kind>)
    ensures forall k :: k in a + b <==> k in a || k in b
  {}

  lemma InsideDistinct(contains: Contains, ops: seq<Op>, d: Id)
    ensures Distinct(StateOf(After(contains, ops), d).inside)
  {
    hide After, SpeedInv, IgnitionInv, OfflineInv, FenceInv;
    RunKeepsInv(contains, ops);
    var e := After(contains, ops);
    assert DeviceInv(e.log, d, StateOf(e, d));
  }

  /** The alerts of a log, in order. */
  function AlertsIn(log: seq<Item>): seq<Item> {
    if log == [] then [] else AlertsIn(log[..|log| - 1]) + if log[|log| - 1].Alert? then [log[|log| - 1]] else []
  }

  lemma {:induction false} AlertsConcat(a: seq<Item>, b: seq<Item>)
    ensures AlertsIn(a + b) == AlertsIn(a) + AlertsIn(b)
    decreases |b|
  {
    if b == [] {
      assert a + b == a;
    } else {
      AlertsConcat(a, b[..|b| - 1]);
      assert (a + b)[..|a + b| - 1] == a + b[..|b| - 1];
    }
  }

  lemma {:induction false} AllAlerts(a: seq<Item>)
    requires forall i :: 0 <= i < |a| ==> a[i].Alert?
    ensures AlertsIn(a) == a
    decreases |a|
  {
    if a != [] {
      AllAlerts(a[..|a| - 1]);
      assert a == a[..|a| - 1] + [a[|a| - 1]];
    }
  }

  lemma OtherItems(d: Id, over: Option<bool>, read: Option<bool>)
    ensures AlertsIn([Packet(d, over)]) == [] && AlertsIn(Readings(d, read)) == []
  {
    assert [Packet(d, over)][..0] == [];
    if read.Some? { assert [Reading(d, read.value)][..0] == []; }
  }

  /** The log grows by exactly the alerts emitted. */
  lemma LogGrows(contains: Contains, ops: seq<Op>, c: Config, fences: seq<Fence>, p: Position, nowMs: int)
    ensures var e, e' := After(contains, ops), After(contains, ops + [Evaluation(c, fences, p, nowMs)]);
      AlertsIn(e'.log) == AlertsIn(e.log) + ToItems(p.deviceId, Emitted(contains, ops, c, fences, p))
  {
    hide SpeedAlerts, IgnitionAlerts, FenceAlerts, Containing, Over, Read, Evaluated, ToItems, Readings, AlertsIn;
    var d, op := p.deviceId, Evaluation(c, fences, p, nowMs);
    assert (ops + [op])[..|ops|] == ops;
    var e := After(contains, ops);
    var st := StateOf(e, d);
    var a, b, g := SpeedAlerts(st, Over(c, p)), IgnitionAlerts(st, c, p), FenceAlerts(st, c, fences, Containing(contains, fences, p));
    TrailAlerts(d, Over(c, p), Read(c, p), a, b, g);
    AlertsConcat(e.log, TrailOf(contains, st, c, fences, p));
  }

  lemma TrailAlerts(d: Id, over: Option<bool>, read: Option<bool>, a: seq<Kind>, b: seq<Kind>, g: seq<Kind>)
    ensures AlertsIn(Trail(d, over, read, a, b, g)) == ToItems(d, a + (b + g))
  {
    hide AlertsIn, ToItems, Readings;
    var A, B, G, R := ToItems(d, a), ToItems(d, b), ToItems(d, g), Readings(d, read);
    OtherItems(d, over, read);
    AlertsConcat([Packet(d, over)] + A + (R + B), G);
    AlertsConcat([Packet(d, over)] + A, R + B);
    AlertsConcat([Packet(d, over)], A);
    AlertsConcat(R, B);
    AllAlerts(A);
    AllAlerts(B);
    AllAlerts(G);
    ItemsConcat(d, a, b + g);
    ItemsConcat(d, b, g);
    assert ([] + A) + ([] + B) + G == A + (B + G);
  }

  // ---- What a sweep reports ------------------------------------------------------------------------------

  lemma {:induction false} OrderDistinct(contains: Contains, ops: seq<Op>)
    ensures var e := After(contains, ops); Distinct(e.order) && forall d :: d in e.order <==> d in e.states
  {
    hide Evaluated, TrailOf, Sweep;
    if ops != [] {
      var e := After(contains, ops[..|ops| - 1]);
      OrderDistinct(contains, ops[..|ops| - 1]);
      if ops[|ops| - 1].SweepOffline? { SweptTo(e, ops[|ops| - 1].nowMs, ops[|ops| - 1].config, |e.order|, ""); }
    }
  }

  lemma OfflinesSnoc(log: seq<Item>, ids: seq<Id>, d: Id)
    ensures log + Offlines(ids + [d]) == log + Offlines(ids) + [Alert(d, Offline)]
  {
    assert Offlines(ids + [d]) == Offlines(ids) + [Alert(d, Offline)];
  }

  lemma SweepLog(e: Engine, nowMs: int, c: Config, n: nat)
    requires 0 < n <= |e.order|
    ensures var s, d := Sweep(e, nowMs, c, n - 1), e.order[n - 1];
      Sweep(e, nowMs, c, n).log == if d in s.states && Late(s.states[d], nowMs, c) then s.log + [Alert(d, Offline)] else s.log
  {
    hide Late;
  }

  lemma DistinctSnoc(ids: seq<Id>, d: Id)
    requires Distinct(ids) && d !in ids
    ensures Distinct(ids + [d]) && forall x :: x in ids + [d] <==> x in ids || x == d
  {}

  lemma FirstOf(order: seq<Id>, n: nat)
    requires Distinct(order) && 0 < n <= |order|
    ensures order[n - 1] !in order[..n - 1] && forall x :: x in order[..n] <==> x in order[..n - 1] || x == order[n - 1]
  {
    assert order[..n] == order[..n - 1] + [order[n - 1]];
  }

  lemma {:induction false} SweepReports(e: Engine, nowMs: int, c: Config, n: nat) returns (late: seq<Id>)
    requires n <= |e.order| && Distinct(e.order)
    ensures Sweep(e, nowMs, c, n).log == e.log + Offlines(late) && Distinct(late)
    ensures forall d :: d in late <==> d in e.order[..n] && d in e.states && Late(e.states[d], nowMs, c)
    decreases n
  {
    if n == 0 {
      late := [];
      assert e.log + Offlines([]) == e.log;
    } else {
      hide Sweep, Late, Distinct, Offlines;
      var front := SweepReports(e, nowMs, c, n - 1);
      var d := e.order[n - 1];
      SweptTo(e, nowMs, c, n - 1, d);
      SweepLog(e, nowMs, c, n);
      FirstOf(e.order, n);
      if d in e.states && Late(e.states[d], nowMs, c) {
        late := front + [d];
        OfflinesSnoc(e.log, front, d);
        DistinctSnoc(front, d);
      } else {
        late := front;
      }
    }
  }

  /** In every run a sweep reports, each once, exactly the devices seen too long ago and not found silent since. */
  lemma ReportsAreHistory(contains: Contains, ops: seq<Op>, nowMs: int, c: Config) returns (late: seq<Id>)
    ensures After(contains, ops + [SweepOffline(nowMs, c)]).log == After(contains, ops).log + Offlines(late) && Distinct(late)
    ensures forall d :: d in late <==>
      LastSeen(ops, d).Some? && nowMs - LastSeen(ops, d).value > c.offlineAfterMs && !FoundSilent(ops, d)
  {
    hide Sweep, LastSeen, FoundSilent;
    var op := SweepOffline(nowMs, c);
    assert (ops + [op])[..|ops|] == ops;
    OrderDistinct(contains, ops);
    var e := After(contains, ops);
    late := SweepReports(e, nowMs, c, |e.order|);
    assert e.order[..|e.order|] == e.order;
    forall d
      ensures d in late <==> LastSeen(ops, d).Some? && nowMs - LastSeen(ops, d).value > c.offlineAfterMs && !FoundSilent(ops, d)
    {
      StateIsHistory(contains, ops, d);
    }
  }
}
