/**
  The bounded in-memory TTL deduper (dedupe.ts). A JavaScript Map iterates in insertion order and keeps the
  place of a key that is set again, so it is modelled as a list of entries with distinct keys.
 */
module Dedupe {
  import opened Bytes

  type Key = string

  datatype Entry = Entry(key: Key, exp: int)

  datatype Call = Call(key: Key, now: int)

  predicate Distinct(s: seq<Entry>) {
    forall i, j :: 0 <= i < j < |s| ==> s[i].key != s[j].key
  }

  function KeysOf(s: seq<Entry>): set<Key> { set e | e in s :: e.key }

  function Find(s: seq<Entry>, key: Key): (i: Option<nat>)
    ensures i.Some? ==> i.value < |s| && s[i.value].key == key
    ensures i == None ==> forall j :: 0 <= j < |s| ==> s[j].key != key
  {
    if s == [] then None
    else if s[|s| - 1].key == key then Some(|s| - 1)
    else Find(s[..|s| - 1], key)
  }

  /** seen.get(key) is defined and later than t. */
  predicate Holds(s: seq<Entry>, key: Key, t: int) {
    Find(s, key).Some? && s[Find(s, key).value].exp > t
  }

  function Put(s: seq<Entry>, key: Key, exp: int): seq<Entry> {
    match Find(s, key)
    case None => s + [Entry(key, exp)]
    case Some(i) => s[i := Entry(key, exp)]
  }

  /** The first loop of evict: expired entries go, until the map is a tenth below its bound. */
  function Sweep(kept: seq<Entry>, todo: seq<Entry>, t: int, max: nat): seq<Entry>
    decreases |todo|
  {
    if todo == [] then kept else
      var kept' := if todo[0].exp <= t then kept else kept + [todo[0]];
      if 10 * (|kept'| + |todo[1..]|) <= 9 * max then kept' + todo[1..] else Sweep(kept', todo[1..], t, max)
  }

  /** The second loop: drop the oldest-inserted. */
  function DropOldest(s: seq<Entry>, max: nat): seq<Entry> {
    if |s| > max then s[|s| - max..] else s
  }

  function Evict(s: seq<Entry>, t: int, max: nat): seq<Entry> { DropOldest(Sweep([], s, t, max), max) }

  /** What checkAndSet leaves in the map when the key is new. */
  function Insert(s: seq<Entry>, c: Call, ttl: int, max: nat): seq<Entry> {
    var s' := Put(s, c.key, c.now + ttl);
    if |s'| > max then Evict(s', c.now, max) else s'
  }

  class InMemoryDeduper {
    const ttlMs: int
    const maxEntries: nat
    var seen: seq<Entry>

    constructor (ttlMs: int, maxEntries: nat)
      ensures this.ttlMs == ttlMs && this.maxEntries == maxEntries && seen == []
    {
      this.ttlMs := ttlMs;
      this.maxEntries := maxEntries;
      seen := [];
    }

    method CheckAndSet(key: Key, now: int) returns (isNew: bool)
      modifies this
      ensures isNew == !Holds(old(seen), key, now)
      ensures seen == if isNew then Insert(old(seen), Call(key, now), ttlMs, maxEntries) else old(seen)
    {
      if Holds(seen, key, now) {
        return false;
      }
      seen := Put(seen, key, now + ttlMs);
      if |seen| > maxEntries {
        EvictExpired(now);
      }
      isNew := true;
    }

    method EvictExpired(t: int)
      modifies this
      ensures seen == Evict(old(seen), t, maxEntries)
    {
      DeleteExpired(t);
      ghost var swept := seen;
      while |seen| > maxEntries
        invariant DropOldest(seen, maxEntries) == DropOldest(swept, maxEntries)
      {
        seen := seen[1..];
      }
    }

    method DeleteExpired(t: int)
      modifies this
      ensures seen == Sweep([], old(seen), t, maxEntries)
    {
      var i := 0;
      ghost var swept := Sweep([], seen, t, maxEntries);
      while i < |seen|
        invariant i <= |seen|
        invariant Sweep(seen[..i], seen[i..], t, maxEntries) == swept
        decreases |seen| - i
      {
        ghost var kept, todo := seen[..i], seen[i..];
        if seen[i].exp <= t {
          seen := seen[..i] + seen[i + 1..];
          assert seen[..i] == kept;
        } else {
          i := i + 1;
          assert seen[..i] == kept + [todo[0]];
        }
        assert seen[i..] == todo[1..];
        if 10 * |seen| <= 9 * maxEntries {
          assert seen == seen[..i] + seen[i..];
          return;
        }
      }
      assert seen[..i] == seen;
    }
  }

  // ---- What eviction keeps ------------------------------------------------------------

  /** The entries that have not expired at t, in order. */
  function Live(s: seq<Entry>, t: int): seq<Entry> {
    if s == [] then [] else (if s[0].exp > t then [s[0]] else []) + Live(s[1..], t)
  }

  lemma LiveStep(s: seq<Entry>, t: int)
    ensures Live([], t) == []
    ensures s != [] ==> Live(s, t) == (if s[0].exp > t then [s[0]] else []) + Live(s[1..], t)
  {}

  lemma {:induction false} LiveMember(s: seq<Entry>, t: int, e: Entry)
    ensures e in Live(s, t) <==> e in s && e.exp > t
  {
    hide *;
    LiveStep(s, t);
    if s != [] {
      LiveMember(s[1..], t, e);
      assert s == [s[0]] + s[1..];
    }
  }

  lemma {:induction false} LiveConcat(a: seq<Entry>, b: seq<Entry>, t: int)
    ensures Live(a + b, t) == Live(a, t) + Live(b, t)
  {
    hide *;
    LiveStep(a, t);
    LiveStep(a + b, t);
    if a == [] {
      assert a + b == b;
    } else {
      LiveConcat(a[1..], b, t);
      assert (a + b)[1..] == a[1..] + b;
    }
  }

  lemma LiveOne(e: Entry, t: int)
    ensures Live([e], t) == if e.exp > t then [e] else []
  {}

  lemma SweepStep(kept: seq<Entry>, todo: seq<Entry>, t: int, max: nat)
    ensures Sweep(kept, [], t, max) == kept
    ensures todo != [] ==>
      var kept' := if todo[0].exp <= t then kept else kept + [todo[0]];
      Sweep(kept, todo, t, max) ==
        if 10 * (|kept'| + |todo[1..]|) <= 9 * max then kept' + todo[1..] else Sweep(kept', todo[1..], t, max)
  {}

  /** The sweep deletes only expired entries, and stops early only once the map is small. */
  lemma {:induction false} SweepKeepsLive(kept: seq<Entry>, todo: seq<Entry>, t: int, max: nat)
    requires Live(kept, t) == kept
    ensures var r := Sweep(kept, todo, t, max);
      Live(r, t) == kept + Live(todo, t) && (r == kept + Live(todo, t) || |r| <= max)
    decreases |todo|
  {
    hide *;
    SweepStep(kept, todo, t, max);
    LiveStep(todo, t);
    if todo != [] {
      var kept' := if todo[0].exp <= t then kept else kept + [todo[0]];
      LiveConcat(kept, [todo[0]], t);
      LiveOne(todo[0], t);
      LiveConcat(kept', todo[1..], t);
      SweepKeepsLive(kept', todo[1..], t, max);
      assert kept' + Live(todo[1..], t) == kept + Live(todo, t);
    } else {
      assert kept + [] == kept;
    }
  }

  lemma {:induction false} SweepSubset(kept: seq<Entry>, todo: seq<Entry>, t: int, max: nat)
    requires Distinct(kept + todo)
    ensures Distinct(Sweep(kept, todo, t, max))
    ensures forall e :: e in Sweep(kept, todo, t, max) ==> e in kept || e in todo
    decreases |todo|
  {
    hide *;
    SweepStep(kept, todo, t, max);
    if todo != [] {
      assert kept + todo == kept + [todo[0]] + todo[1..];
      var kept' := if todo[0].exp <= t then kept else kept + [todo[0]];
      Removal(kept, todo);
      SweepSubset(kept', todo[1..], t, max);
    } else {
      assert kept + [] == kept;
    }
  }

  lemma Removal(kept: seq<Entry>, todo: seq<Entry>)
    requires todo != [] && Distinct(kept + todo)
    ensures Distinct(kept + todo[1..])
  {
    var a, b := kept + todo, kept + todo[1..];
    forall i, j | 0 <= i < j < |b|
      ensures b[i].key != b[j].key
    {
      var i' := if i < |kept| then i else i + 1;
      var j' := if j < |kept| then j else j + 1;
      assert b[i] == a[i'] && b[j] == a[j'];
    }
  }

  /** The sweep of a whole map keeps its live entries, and keeps others only if the result is small. */
  lemma SweptMap(s: seq<Entry>, t: int, max: nat)
    ensures var r := Sweep([], s, t, max);
      Live(r, t) == Live(s, t) && (r == Live(s, t) || |r| <= max)
  {
    hide *;
    LiveStep([], t);
    SweepKeepsLive([], s, t, max);
    assert [] + Live(s, t) == Live(s, t);
  }

  lemma DropBounded(r: seq<Entry>, live: seq<Entry>, max: nat)
    requires |live| <= |r| && (r == live || |r| <= max)
    ensures |DropOldest(r, max)| <= max
    ensures |live| <= max ==> DropOldest(r, max) == r
    ensures |live| > max ==> DropOldest(r, max) == live[|live| - max..]
  {}

  /** Eviction: the bound holds; live keys are dropped, oldest first, only when the live ones alone exceed it. */
  lemma EvictKeepsLive(s: seq<Entry>, t: int, max: nat)
    ensures |Evict(s, t, max)| <= max
    ensures |Live(s, t)| <= max ==> Live(Evict(s, t, max), t) == Live(s, t)
    ensures |Live(s, t)| > max ==> Evict(s, t, max) == Live(s, t)[|Live(s, t)| - max..]
  {
    hide Sweep, Live, DropOldest;
    var r := Sweep([], s, t, max);
    SweptMap(s, t, max);
    LiveAtMost(r, t);
    DropBounded(r, Live(s, t), max);
  }

  lemma {:induction false} LiveAtMost(s: seq<Entry>, t: int)
    ensures |Live(s, t)| <= |s|
  {
    if s != [] {
      LiveAtMost(s[1..], t);
    }
  }

  lemma EvictSubset(s: seq<Entry>, t: int, max: nat)
    requires Distinct(s)
    ensures Distinct(Evict(s, t, max))
    ensures forall e :: e in Evict(s, t, max) ==> e in s
  {
    assert [] + s == s;
    SweepSubset([], s, t, max);
  }

  // ---- Runs -----------------------------------------------------------------------------

  /** The map after a run of calls that began with an empty one. */
  function Run(calls: seq<Call>, ttl: int, max: nat): seq<Entry> {
    if calls == [] then [] else
      var s, c := Run(calls[..|calls| - 1], ttl, max), calls[|calls| - 1];
      if Holds(s, c.key, c.now) then s else Insert(s, c, ttl, max)
  }

  /** The answer to the i-th call: true for a new key. */
  predicate Answer(calls: seq<Call>, i: nat, ttl: int, max: nat)
    requires i < |calls|
  {
    !Holds(Run(calls[..i], ttl, max), calls[i].key, calls[i].now)
  }

  lemma {:induction false} RunBounded(calls: seq<Call>, ttl: int, max: nat)
    ensures |Run(calls, ttl, max)| <= max && Distinct(Run(calls, ttl, max))
  {
    hide Put, Evict, Holds, Live;
    if calls != [] {
      var s, c := Run(calls[..|calls| - 1], ttl, max), calls[|calls| - 1];
      RunBounded(calls[..|calls| - 1], ttl, max);
      PutMember(s, c.key, c.now + ttl, Entry(c.key, c.now + ttl));
      EvictKeepsLive(Put(s, c.key, c.now + ttl), c.now, max);
      EvictSubset(Put(s, c.key, c.now + ttl), c.now, max);
    }
  }

  // ---- The unbounded TTL set it refines -----------------------------------------------------

  predicate HoldsFor(m: map<Key, int>, key: Key, t: int) { key in m && m[key] > t }

  function LiveKeys(m: map<Key, int>, t: int): set<Key> { set k | k in m && m[k] > t }

  function Reference(calls: seq<Call>, ttl: int): map<Key, int> {
    if calls == [] then map[] else
      var m, c := Reference(calls[..|calls| - 1], ttl), calls[|calls| - 1];
      if HoldsFor(m, c.key, c.now) then m else m[c.key := c.now + ttl]
  }

  predicate ReferenceAnswer(calls: seq<Call>, i: nat, ttl: int)
    requires i < |calls|
  {
    !HoldsFor(Reference(calls[..i], ttl), calls[i].key, calls[i].now)
  }

  predicate Monotone(calls: seq<Call>) {
    forall i, j :: 0 <= i < j < |calls| ==> calls[i].now <= calls[j].now
  }

  /** At every call the unexpired keys, counting the one just set, number at most max. */
  predicate WithinBound(calls: seq<Call>, ttl: int, max: nat) {
    forall i :: 0 <= i < |calls| ==> |LiveKeys(Reference(calls[..i + 1], ttl), calls[i].now)| <= max
  }

  /** The two hold the same unexpired keys, with the same expiry. */
  predicate Agree(s: seq<Entry>, m: map<Key, int>, t: int) {
    && Distinct(s)
    && (forall k :: k in m && m[k] > t ==> Entry(k, m[k]) in s)
    && (forall e :: e in s && e.exp > t ==> e.key in m && m[e.key] == e.exp)
  }

  lemma AgreeAnswers(s: seq<Entry>, m: map<Key, int>, t: int, key: Key)
    requires Agree(s, m, t)
    ensures Holds(s, key, t) == HoldsFor(m, key, t)
  {}

  lemma PutMember(s: seq<Entry>, key: Key, exp: int, e: Entry)
    requires Distinct(s)
    ensures Distinct(Put(s, key, exp))
    ensures e in Put(s, key, exp) <==> e == Entry(key, exp) || (e in s && e.key != key)
  {
    hide Find;
    var s' := Put(s, key, exp);
    match Find(s, key) {
      case None =>
        assert s' == s + [Entry(key, exp)];
        if e in s {
          var j :| 0 <= j < |s| && s[j] == e;
          assert s[j].key != key;
        }
      case Some(i) =>
        assert s'[i] == Entry(key, exp);
        if e in s' && e != Entry(key, exp) {
          var j :| 0 <= j < |s'| && s'[j] == e;
          assert j != i && s[j] == e && s[j].key != s[i].key;
        }
        if e in s && e.key != key {
          var j :| 0 <= j < |s| && s[j] == e;
          assert j != i && s'[j] == e;
        }
    }
  }

  lemma AgreePut(s: seq<Entry>, m: map<Key, int>, t: int, key: Key, exp: int)
    requires Agree(s, m, t)
    ensures Agree(Put(s, key, exp), m[key := exp], t)
  {
    hide Put, Distinct;
    PutMember(s, key, exp, Entry(key, exp));
    forall e
      ensures e in Put(s, key, exp) <==> e == Entry(key, exp) || (e in s && e.key != key)
    {
      PutMember(s, key, exp, e);
    }
  }

  lemma {:induction false} DistinctKeys(s: seq<Entry>)
    requires Distinct(s)
    ensures |KeysOf(s)| == |s|
  {
    if s != [] {
      var init, l := s[..|s| - 1], s[|s| - 1];
      DistinctKeys(init);
      assert KeysOf(s) == KeysOf(init) + {l.key} by {
        assert s == init + [l];
      }
    }
  }

  lemma {:induction false} LiveDistinct(s: seq<Entry>, t: int)
    requires Distinct(s)
    ensures Distinct(Live(s, t))
  {
    if s != [] {
      LiveDistinct(s[1..], t);
      forall e | e in Live(s[1..], t)
        ensures e.key != s[0].key
      {
        LiveMember(s[1..], t, e);
        var j :| 0 <= j < |s| - 1 && s[1..][j] == e;
      }
    }
  }

  lemma LiveCount(s: seq<Entry>, m: map<Key, int>, t: int)
    requires Agree(s, m, t)
    ensures |Live(s, t)| <= |LiveKeys(m, t)|
  {
    LiveDistinct(s, t);
    DistinctKeys(Live(s, t));
    forall k | k in KeysOf(Live(s, t))
      ensures k in LiveKeys(m, t)
    {
      var e :| e in Live(s, t) && e.key == k;
      LiveMember(s, t, e);
    }
    SubsetSize(KeysOf(Live(s, t)), LiveKeys(m, t));
  }

  lemma SubsetSize(a: set<Key>, b: set<Key>)
    requires a <= b
    ensures |a| <= |b|
  {
    assert b == a + (b - a);
  }

  lemma AgreeEvict(s: seq<Entry>, m: map<Key, int>, t: int, max: nat)
    requires Agree(s, m, t) && |LiveKeys(m, t)| <= max
    ensures Agree(Evict(s, t, max), m, t)
  {
    hide Evict, Live, Distinct;
    LiveCount(s, m, t);
    EvictKeepsLive(s, t, max);
    EvictSubset(s, t, max);
    forall k | k in m && m[k] > t
      ensures Entry(k, m[k]) in Evict(s, t, max)
    {
      LiveMember(s, t, Entry(k, m[k]));
      LiveMember(Evict(s, t, max), t, Entry(k, m[k]));
    }
  }

  lemma WithinBoundPrefix(calls: seq<Call>, ttl: int, max: nat, i: nat)
    requires Monotone(calls) && WithinBound(calls, ttl, max) && i <= |calls|
    ensures Monotone(calls[..i]) && WithinBound(calls[..i], ttl, max)
  {
    forall j | 0 <= j < i
      ensures |LiveKeys(Reference(calls[..i][..j + 1], ttl), calls[..i][j].now)| <= max
    {
      assert calls[..i][..j + 1] == calls[..j + 1];
    }
  }

  lemma AgreeStep(s: seq<Entry>, m: map<Key, int>, c: Call, ttl: int, max: nat)
    requires Agree(s, m, c.now) && |LiveKeys(m[c.key := c.now + ttl], c.now)| <= max
    ensures Agree(Insert(s, c, ttl, max), m[c.key := c.now + ttl], c.now)
  {
    hide Agree, Put, Evict, LiveKeys;
    AgreePut(s, m, c.now, c.key, c.now + ttl);
    AgreeEvict(Put(s, c.key, c.now + ttl), m[c.key := c.now + ttl], c.now, max);
  }

  lemma AgreeLater(s: seq<Entry>, m: map<Key, int>, t: int, t': int)
    requires Agree(s, m, t) && t <= t'
    ensures Agree(s, m, t')
  {}

  lemma NothingAgrees(t: int)
    ensures Agree([], map[], t)
  {}

  lemma {:induction false} RunsAgree(calls: seq<Call>, ttl: int, max: nat, t: int)
    requires Monotone(calls) && WithinBound(calls, ttl, max)
    requires calls != [] ==> calls[|calls| - 1].now <= t
    ensures Agree(Run(calls, ttl, max), Reference(calls, ttl), t)
  {
    hide Agree, Insert, LiveKeys, Holds, HoldsFor;
    if calls == [] {
      NothingAgrees(t);
    } else {
      var n := |calls| - 1;
      var c := calls[n];
      WithinBoundPrefix(calls, ttl, max, n);
      RunsAgree(calls[..n], ttl, max, c.now);
      var s, m := Run(calls[..n], ttl, max), Reference(calls[..n], ttl);
      AgreeAnswers(s, m, c.now, c.key);
      if !Holds(s, c.key, c.now) {
        assert calls[..n + 1] == calls;
        AgreeStep(s, m, c, ttl, max);
      }
      AgreeLater(Run(calls, ttl, max), Reference(calls, ttl), c.now, t);
    }
  }

  /** While the unexpired keys fit the bound, the bounded deduper answers exactly as an unbounded TTL set. */
  lemma RefinesUnbounded(calls: seq<Call>, ttl: int, max: nat, i: nat)
    requires Monotone(calls) && WithinBound(calls, ttl, max) && i < |calls|
    ensures Answer(calls, i, ttl, max) == ReferenceAnswer(calls, i, ttl)
  {
    var init := calls[..i];
    WithinBoundPrefix(calls, ttl, max, i);
    RunsAgree(init, ttl, max, calls[i].now);
    AgreeAnswers(Run(init, ttl, max), Reference(init, ttl), calls[i].now, calls[i].key);
  }

  /** A key is held at t when an entry of it expires later than t. */
  lemma HoldsMeans(s: seq<Entry>, key: Key, t: int)
    requires Distinct(s)
    ensures Holds(s, key, t) <==> exists i :: 0 <= i < |s| && s[i].key == key && s[i].exp > t
  {
    if Holds(s, key, t) { assert s[Find(s, key).value].key == key; }
  }

  /** Asked for this key right after call i, the bounded deduper and the unbounded set would answer the same. */
  predicate SameAnswer(calls: seq<Call>, i: nat, key: Key, ttl: int, max: nat)
    requires i < |calls|
  {
    var asked := calls[..i + 1] + [Call(key, calls[i].now)];
    Answer(asked, i + 1, ttl, max) == ReferenceAnswer(asked, i + 1, ttl)
  }

  lemma SameAnswerIs(calls: seq<Call>, i: nat, key: Key, ttl: int, max: nat)
    requires i < |calls|
    ensures SameAnswer(calls, i, key, ttl, max) <==>
      (Holds(Run(calls[..i + 1], ttl, max), key, calls[i].now) <==> HoldsFor(Reference(calls[..i + 1], ttl), key, calls[i].now))
  {
    hide Run, Reference, Holds, HoldsFor;
    var asked := calls[..i + 1] + [Call(key, calls[i].now)];
    assert asked[..i + 1] == calls[..i + 1];
  }

  /** A map that holds every unexpired key of the reference has room for them. */
  lemma HeldFit(s: seq<Entry>, m: map<Key, int>, t: int)
    requires Distinct(s) && forall k :: HoldsFor(m, k, t) ==> Holds(s, k, t)
    ensures |LiveKeys(m, t)| <= |s|
  {
    hide Distinct, Find;
    forall k | k in LiveKeys(m, t)
      ensures k in KeysOf(s)
    {
      assert HoldsFor(m, k, t);
      var e := s[Find(s, k).value];
      assert e in s && e.key == k;
    }
    DistinctKeys(s);
    SubsetSize(LiveKeys(m, t), KeysOf(s));
  }

  /** The bound is exact: every key would always be answered as by the unbounded set iff the unexpired keys always fit. */
  lemma RefinesIffWithinBound(calls: seq<Call>, ttl: int, max: nat)
    requires Monotone(calls)
    ensures (forall i: nat, key :: i < |calls| ==> SameAnswer(calls, i, key, ttl, max)) <==> WithinBound(calls, ttl, max)
  {
    hide Run, Reference, Holds, HoldsFor, SameAnswer, LiveKeys, Answer, ReferenceAnswer;
    if WithinBound(calls, ttl, max) {
      forall i: nat, key | i < |calls|
        ensures SameAnswer(calls, i, key, ttl, max)
      {
        var t := calls[i].now;
        WithinBoundPrefix(calls, ttl, max, i + 1);
        RunsAgree(calls[..i + 1], ttl, max, t);
        AgreeAnswers(Run(calls[..i + 1], ttl, max), Reference(calls[..i + 1], ttl), t, key);
        SameAnswerIs(calls, i, key, ttl, max);
      }
    }
    if forall i: nat, key :: i < |calls| ==> SameAnswer(calls, i, key, ttl, max) {
      forall i | 0 <= i < |calls|
        ensures |LiveKeys(Reference(calls[..i + 1], ttl), calls[i].now)| <= max
      {
        var s, m, t := Run(calls[..i + 1], ttl, max), Reference(calls[..i + 1], ttl), calls[i].now;
        forall key
          ensures Holds(s, key, t) <==> HoldsFor(m, key, t)
        {
          assert SameAnswer(calls, i, key, ttl, max);
          SameAnswerIs(calls, i, key, ttl, max);
        }
        RunBounded(calls[..i + 1], ttl, max);
        HeldFit(s, m, t);
      }
    }
  }

  /** A duplicate answer always has an earlier new answer for the same key, whatever the clock does. */
  lemma DuplicateWasClaimed(calls: seq<Call>, ttl: int, max: nat, i: nat)
    requires i < |calls| && !Answer(calls, i, ttl, max)
    ensures exists j :: 0 <= j < i && calls[j].key == calls[i].key && Answer(calls, j, ttl, max)
  {
    var s := Run(calls[..i], ttl, max);
    var e := s[Find(s, calls[i].key).value];
    var j := HeldWasClaimed(calls[..i], ttl, max, e);
    assert calls[..i][..j] == calls[..j];
  }

  lemma {:induction false} HeldWasClaimed(calls: seq<Call>, ttl: int, max: nat, e: Entry) returns (j: nat)
    requires e in Run(calls, ttl, max)
    ensures j < |calls| && calls[j].key == e.key && Answer(calls, j, ttl, max)
  {
    hide Put, Evict, Holds, Distinct;
    var n := |calls| - 1;
    var s, c := Run(calls[..n], ttl, max), calls[n];
    if e in s {
      j := HeldWasClaimed(calls[..n], ttl, max, e);
      assert calls[..n][..j] == calls[..j];
    } else {
      RunBounded(calls[..n], ttl, max);
      PutMember(s, c.key, c.now + ttl, e);
      EvictSubset(Put(s, c.key, c.now + ttl), c.now, max);
      j := n;
    }
  }
}
