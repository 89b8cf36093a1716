/**
  The queue of pending Codec 12 commands of one session (session.ts). Commands are numbered in the order they
  are sent; `settled` logs every call of a command's resolve or reject, in order.
 */
module Downlink {
  import opened Bytes
  import opened Protocol

  datatype Outcome = Resolved(text: Text) | TimedOut | ConnectionClosed

  datatype Settlement = Settlement(id: nat, outcome: Outcome)

  datatype Queue = Queue(sent: nat, pending: seq<nat>, timers: set<nat>, settled: seq<Settlement>)

  datatype Event = Send | Respond(text: Text) | Timeout(id: nat) | Close

  const EMPTY := Queue(0, [], {}, [])

  function Without(s: seq<nat>, id: nat): seq<nat> {
    if s == [] then [] else Without(s[..|s| - 1], id) + if s[|s| - 1] == id then [] else [s[|s| - 1]]
  }

  function CloseAll(pending: seq<nat>): (r: seq<Settlement>)
    ensures |r| == |pending| && forall i :: 0 <= i < |r| ==> r[i] == Settlement(pending[i], ConnectionClosed)
  {
    seq(|pending|, i requires 0 <= i < |pending| => Settlement(pending[i], ConnectionClosed))
  }

  /** A timer fires only while it is armed. */
  predicate Enabled(q: Queue, e: Event) { e.Timeout? ==> e.id in q.timers }

  function Next(q: Queue, e: Event): Queue
    requires Enabled(q, e)
  {
    match e
    case Send => Queue(q.sent + 1, q.pending + [q.sent], q.timers + {q.sent}, q.settled)
    case Respond(text) =>
      if q.pending == [] then q else
        q.(pending := q.pending[1..], timers := q.timers - {q.pending[0]},
           settled := q.settled + [Settlement(q.pending[0], Resolved(text))])
    case Timeout(id) =>
      q.(pending := Without(q.pending, id), timers := q.timers - {id},
         settled := q.settled + [Settlement(id, TimedOut)])
    case Close =>
      q.(pending := [], timers := q.timers - (set id | id in q.pending), settled := q.settled + CloseAll(q.pending))
  }

  /** The queue as the session object runs it. */
  class CommandQueue {
    var sent: nat
    var pending: seq<nat>
    var timers: set<nat>
    ghost var settled: seq<Settlement>

    ghost function Abs(): Queue
      reads this
    {
      Queue(sent, pending, timers, settled)
    }

    constructor ()
      ensures Abs() == EMPTY
    {
      sent, pending, timers, settled := 0, [], {}, [];
    }

    method SendCommand() returns (id: nat)
      modifies this
      ensures Abs() == Next(old(Abs()), Send) && id == old(sent)
      ensures pending == old(pending) + [id] && timers == old(timers) + {id} && settled == old(settled)
    {
      id := sent;
      pending := pending + [id];
      timers := timers + {id};
      sent := sent + 1;
    }

    method OnResponse(text: Text) returns (matched: Option<nat>)
      modifies this
      ensures Abs() == Next(old(Abs()), Respond(text))
      ensures matched == if old(pending) == [] then None else Some(old(pending)[0])
      ensures matched == None ==> pending == old(pending) && timers == old(timers) && settled == old(settled)
      ensures matched.Some? ==>
        && pending == old(pending)[1..] && timers == old(timers) - {matched.value}
        && settled == old(settled) + [Settlement(matched.value, Resolved(text))]
    {
      if pending == [] {
        return None;
      }
      var id := pending[0];
      pending := pending[1..];
      timers := timers - {id};
      settled := settled + [Settlement(id, Resolved(text))];
      matched := Some(id);
    }

    /** indexOf and splice, then reject. */
    method OnTimeout(id: nat)
      requires Distinct(pending) && id in timers
      modifies this
      ensures Abs() == Next(old(Abs()), Timeout(id))
      ensures timers == old(timers) - {id} && settled == old(settled) + [Settlement(id, TimedOut)]
      ensures id !in pending && forall x :: x in old(pending) && x != id ==> x in pending
    {
      timers := timers - {id};
      var i := 0;
      while i < |pending| && pending[i] != id
        invariant i <= |pending| && id !in pending[..i]
      {
        i := i + 1;
      }
      SpliceIs(pending, id, i);
      if i < |pending| {
        pending := pending[..i] + pending[i + 1..];
      }
      settled := settled + [Settlement(id, TimedOut)];
    }

    /** handleClosed */
    method OnClosed()
      modifies this
      ensures Abs() == Next(old(Abs()), Close)
      ensures pending == [] && |settled| == |old(settled)| + |old(pending)| && settled[..|old(settled)|] == old(settled)
      ensures forall i :: 0 <= i < |old(pending)| ==> settled[|old(settled)| + i] == Settlement(old(pending)[i], ConnectionClosed)
    {
      var all := pending;
      pending := [];
      ghost var before := settled;
      for i := 0 to |all|
        invariant pending == [] && sent == old(sent)
        invariant timers == old(timers) - (set id | id in all[..i])
        invariant settled == before + CloseAll(all[..i])
      {
        timers := timers - {all[i]};
        settled := settled + [Settlement(all[i], ConnectionClosed)];
        assert all[..i + 1] == all[..i] + [all[i]];
        assert CloseAll(all[..i + 1]) == CloseAll(all[..i]) + [Settlement(all[i], ConnectionClosed)];
      }
      assert all[..|all|] == all;
    }
  }

  predicate Distinct(s: seq<nat>) { forall i, j :: 0 <= i < j < |s| ==> s[i] != s[j] }

  lemma {:induction false} WithoutAbsent(s: seq<nat>, id: nat)
    requires id !in s
    ensures Without(s, id) == s
  {
    if s != [] {
      WithoutAbsent(s[..|s| - 1], id);
      assert s == s[..|s| - 1] + [s[|s| - 1]];
    }
  }

  lemma {:induction false} WithoutConcat(a: seq<nat>, b: seq<nat>, id: nat)
    ensures Without(a + b, id) == Without(a, id) + Without(b, id)
    decreases |b|
  {
    if b == [] {
      assert a + b == a;
    } else {
      WithoutConcat(a, b[..|b| - 1], id);
      assert (a + b)[..|a + b| - 1] == a + b[..|b| - 1];
    }
  }

  lemma WithoutItself(id: nat)
    ensures Without([id], id) == []
  {}

  lemma SpliceIs(s: seq<nat>, id: nat, i: nat)
    requires Distinct(s) && i <= |s| && id !in s[..i] && (i < |s| ==> s[i] == id)
    ensures Without(s, id) == if i < |s| then s[..i] + s[i + 1..] else s
  {
    hide Without;
    if i < |s| {
      assert s == s[..i] + ([id] + s[i + 1..]);
      WithoutConcat(s[..i], [id] + s[i + 1..], id);
      WithoutConcat([id], s[i + 1..], id);
      WithoutAbsent(s[..i], id);
      WithoutAbsent(s[i + 1..], id);
      WithoutItself(id);
    } else {
      assert s[..i] == s;
      WithoutAbsent(s, id);
    }
  }

  // ---- Every run ----------------------------------------------------------------------

  predicate Ascending(s: seq<nat>) { forall i, j :: 0 <= i < j < |s| ==> s[i] < s[j] }

  function Ids(s: seq<Settlement>): set<nat> { set x | x in s :: x.id }

  predicate OncePerId(s: seq<Settlement>) { forall i, j :: 0 <= i < j < |s| ==> s[i].id != s[j].id }

  /**
    Pending commands are in sending order, exactly they have an armed timer, and every command sent is either
    pending or settled, once.
   */
  ghost predicate Inv(q: Queue) {
    && Ascending(q.pending)
    && q.timers == (set id | id in q.pending)
    && OncePerId(q.settled)
    && (forall id: nat :: id in q.pending ==> id < q.sent)
    && (forall id: nat :: id < q.sent ==> (id in q.pending <==> id !in Ids(q.settled)))
    && (forall x :: x in q.settled ==> x.id < q.sent)
  }

  lemma {:induction false} WithoutIs(s: seq<nat>, id: nat)
    requires Ascending(s)
    ensures Ascending(Without(s, id))
    ensures forall x :: x in Without(s, id) <==> x in s && x != id
  {
    if s != [] {
      var init, l := s[..|s| - 1], s[|s| - 1];
      WithoutIs(init, id);
      assert s == init + [l];
      var w := Without(init, id);
      forall i | 0 <= i < |w|
        ensures w[i] < l
      {
        assert w[i] in init;
      }
    }
  }

  lemma IdsConcat(a: seq<Settlement>, b: seq<Settlement>)
    ensures Ids(a + b) == Ids(a) + Ids(b)
  {}

  lemma OnceConcat(a: seq<Settlement>, b: seq<Settlement>)
    requires OncePerId(a) && OncePerId(b) && Ids(a) !! Ids(b)
    ensures OncePerId(a + b)
  {
    forall i, j | 0 <= i < |a| && 0 <= j < |b|
      ensures a[i].id != b[j].id
    {
      assert a[i].id in Ids(a) && b[j].id in Ids(b);
    }
  }

  lemma SettleOne(q: Queue, id: nat, o: Outcome)
    requires Inv(q) && id in q.pending
    ensures var s := q.settled + [Settlement(id, o)]; OncePerId(s) && Ids(s) == Ids(q.settled) + {id}
  {}

  lemma RespondKeepsInv(q: Queue, text: Text)
    requires Inv(q) && q.pending != []
    ensures Inv(Next(q, Respond(text)))
  {
    SettleOne(q, q.pending[0], Resolved(text));
    hide OncePerId, Ids;
    assert q.pending == [q.pending[0]] + q.pending[1..];
    var id, rest := q.pending[0], q.pending[1..];
    assert forall x :: x in q.pending <==> x == id || x in rest;
    assert id !in rest;
    assert q.timers - {id} == set x | x in rest;
  }

  lemma TimeoutKeepsInv(q: Queue, id: nat)
    requires Inv(q) && id in q.timers
    ensures Inv(Next(q, Timeout(id)))
  {
    SettleOne(q, id, TimedOut);
    WithoutIs(q.pending, id);
    hide OncePerId, Ids, Ascending, Without;
  }

  lemma CloseKeepsInv(q: Queue)
    requires Inv(q)
    ensures Inv(Next(q, Close))
  {
    var c := CloseAll(q.pending);
    IdsConcat(q.settled, c);
    CloseIds(q.pending);
    OnceConcat(q.settled, c);
    hide OncePerId, Ids, CloseAll;
    forall x | x in c
      ensures x.id < q.sent
    {
      var i :| 0 <= i < |c| && c[i] == x;
      assert q.pending[i] in q.pending;
    }
  }

  lemma CloseIds(pending: seq<nat>)
    ensures Ids(CloseAll(pending)) == set id | id in pending
    ensures Ascending(pending) ==> OncePerId(CloseAll(pending))
  {}

  lemma SendKeepsInv(q: Queue)
    requires Inv(q)
    ensures Inv(Next(q, Send))
  {
    hide OncePerId;
    assert q.sent !in Ids(q.settled);
    assert forall i :: 0 <= i < |q.pending| ==> q.pending[i] in q.pending;
    assert forall x :: x in q.pending + [q.sent] <==> x in q.pending || x == q.sent;
    assert q.timers + {q.sent} == set x | x in q.pending + [q.sent];
  }

  lemma NextKeepsInv(q: Queue, e: Event)
    requires Inv(q) && Enabled(q, e)
    ensures Inv(Next(q, e))
  {
    hide Inv;
    match e {
      case Send => SendKeepsInv(q);
      case Respond(text) =>
        if q.pending != [] {
          RespondKeepsInv(q, text);
        }
      case Timeout(id) => TimeoutKeepsInv(q, id);
      case Close => CloseKeepsInv(q);
    }
  }

  /** The queue after a run from the empty one; an event that is not enabled does not happen. */
  function After(events: seq<Event>): Queue
    decreases |events|
  {
    if events == [] then EMPTY else
      var q, e := After(events[..|events| - 1]), events[|events| - 1];
      if Enabled(q, e) then Next(q, e) else q
  }

  /** In every run, each command is settled at most once, and is unsettled iff it is queued with its timer armed. */
  lemma {:induction false} SettledAtMostOnce(events: seq<Event>)
    ensures Inv(After(events))
    decreases |events|
  {
    hide Inv, Enabled, Next;
    if events == [] {
      EmptyInv();
    } else {
      var q, e := After(events[..|events| - 1]), events[|events| - 1];
      SettledAtMostOnce(events[..|events| - 1]);
      if Enabled(q, e) {
        NextKeepsInv(q, e);
      }
    }
  }

  lemma EmptyInv()
    ensures Inv(EMPTY)
  {}

  // ---- Responses meet commands in sending order --------------------------------------------

  function ResolvedIds(s: seq<Settlement>): seq<nat> {
    if s == [] then [] else
      ResolvedIds(s[..|s| - 1]) + if s[|s| - 1].outcome.Resolved? then [s[|s| - 1].id] else []
  }

  function UpTo(n: nat): (s: seq<nat>)
    ensures |s| == n && forall i :: 0 <= i < n ==> s[i] == i
  {
    seq(n, i => i)
  }

  lemma ResolvedSnoc(s: seq<Settlement>, x: Settlement)
    ensures ResolvedIds(s + [x]) == ResolvedIds(s) + if x.outcome.Resolved? then [x.id] else []
  {}

  /** The commands resolved, then those still pending, are the commands sent; and nothing else was settled. */
  predicate Matched(q: Queue) {
    ResolvedIds(q.settled) + q.pending == UpTo(q.sent) && |q.settled| == |ResolvedIds(q.settled)|
  }

  lemma NextMatches(q: Queue, e: Event)
    requires Matched(q) && (e.Send? || e.Respond?)
    ensures Matched(Next(q, e))
  {
    hide ResolvedIds;
    if e.Send? {
      assert UpTo(q.sent + 1) == UpTo(q.sent) + [q.sent];
    } else if q.pending != [] {
      ResolvedSnoc(q.settled, Settlement(q.pending[0], Resolved(e.text)));
      assert q.pending == [q.pending[0]] + q.pending[1..];
    }
  }

  lemma NothingMatched()
    ensures Matched(EMPTY)
  {}

  /** Until a timeout or a close, the n-th response that finds a command resolves the n-th command sent. */
  lemma {:induction false} ResponsesInOrder(events: seq<Event>)
    requires forall i :: 0 <= i < |events| ==> events[i].Send? || events[i].Respond?
    ensures var q := After(events);
      ResolvedIds(q.settled) + q.pending == UpTo(q.sent) && |q.settled| == |ResolvedIds(q.settled)|
    decreases |events|
  {
    hide Next, ResolvedIds;
    if events == [] {
      NothingMatched();
    } else {
      var e := events[|events| - 1];
      ResponsesInOrder(events[..|events| - 1]);
      NextMatches(After(events[..|events| - 1]), e);
    }
  }

  predicate AllBefore(s: seq<nat>, t: seq<nat>) {
    forall i, j :: 0 <= i < |s| && 0 <= j < |t| ==> s[i] < t[j]
  }

  predicate InOrder(q: Queue) {
    var r := ResolvedIds(q.settled);
    Ascending(r) && AllBefore(r, q.pending) && forall i :: 0 <= i < |r| ==> r[i] < q.sent
  }

  lemma TimeoutKeepsOrder(q: Queue, id: nat)
    requires Inv(q) && InOrder(q) && id in q.timers
    ensures InOrder(Next(q, Timeout(id)))
  {
    ResolvedSnoc(q.settled, Settlement(id, TimedOut));
    WithoutIs(q.pending, id);
    hide ResolvedIds, Without, Inv;
    var r, w := ResolvedIds(q.settled), Without(q.pending, id);
    assert ResolvedIds(q.settled + [Settlement(id, TimedOut)]) == r;
    forall i, j | 0 <= i < |r| && 0 <= j < |w|
      ensures r[i] < w[j]
    {
      assert w[j] in q.pending;
    }
  }

  lemma MoveFirst(r: seq<nat>, p: seq<nat>)
    requires p != [] && Ascending(r) && Ascending(p) && AllBefore(r, p)
    ensures Ascending(r + [p[0]]) && AllBefore(r + [p[0]], p[1..])
  {}

  lemma InvHead(q: Queue)
    requires Inv(q) && q.pending != []
    ensures q.pending[0] < q.sent && Ascending(q.pending)
  {
    assert q.pending[0] in q.pending;
  }

  lemma RespondKeepsOrder(q: Queue, text: Text)
    requires Inv(q) && InOrder(q) && q.pending != []
    ensures InOrder(Next(q, Respond(text)))
  {
    hide Inv, ResolvedIds, Ascending, AllBefore;
    InvHead(q);
    ResolvedSnoc(q.settled, Settlement(q.pending[0], Resolved(text)));
    MoveFirst(ResolvedIds(q.settled), q.pending);
  }

  lemma NextKeepsOrder(q: Queue, e: Event)
    requires Inv(q) && InOrder(q) && Enabled(q, e)
    ensures InOrder(Next(q, e))
  {
    hide Inv, ResolvedIds;
    match e {
      case Send =>
      case Respond(text) =>
        if q.pending != [] {
          RespondKeepsOrder(q, text);
        }
      case Timeout(id) => TimeoutKeepsOrder(q, id);
      case Close => ClosedResolveNothing(q.settled, CloseAll(q.pending));
    }
  }

  /** In every run, whatever times out or closes, responses resolve commands in the order they were sent. */
  lemma {:induction false} ResponsesNeverOvertake(events: seq<Event>)
    ensures InOrder(After(events))
    decreases |events|
  {
    if events != [] {
      hide Inv, InOrder, Enabled, Next;
      var q, e := After(events[..|events| - 1]), events[|events| - 1];
      ResponsesNeverOvertake(events[..|events| - 1]);
      SettledAtMostOnce(events[..|events| - 1]);
      if Enabled(q, e) {
        NextKeepsOrder(q, e);
      }
    }
  }

  lemma {:induction false} ClosedResolveNothing(s: seq<Settlement>, c: seq<Settlement>)
    requires forall i :: 0 <= i < |c| ==> !c[i].outcome.Resolved?
    ensures ResolvedIds(s + c) == ResolvedIds(s)
    decreases |c|
  {
    if c == [] {
      assert s + c == s;
    } else {
      var n := |c| - 1;
      ClosedResolveNothing(s, c[..n]);
      assert s + c == (s + c[..n]) + [c[n]];
      ResolvedSnoc(s + c[..n], c[n]);
    }
  }
}
