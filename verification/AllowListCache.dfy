/**
  The ingestion side of the allow-list (allowlist.ts): membership of a shared set, cached for a while. A lookup that
  misses the cache is suspended at the Redis call, so lookups overlap each other and the changes of the set.
 */
module AllowListCache {
  import opened Bytes

  type Imei = string

  datatype CacheEntry = CacheEntry(allowed: bool, exp: int)

  /** The set as published at some time, until the next publication. */
  datatype Version = Version(time: int, members: set<Imei>)

  /** A lookup under way, begun at t: on its way to Redis, or answered there at a moment of a publication and on its way back. */
  datatype Pending = Asked(imei: Imei, t: int) | Sampled(imei: Imei, t: int, version: nat, sampled: int)

  /**
    An answer given at a time to a call made at `asked`, from the cache or from a lookup; the publication it reports, and
    a moment at which that publication was current.
   */
  datatype Answer = Answer(imei: Imei, allowed: bool, hit: bool, asked: int, at: int, version: nat, sampled: int)

  /** A cache entry with the publication it was read from, and when. */
  datatype Cached = Cached(entry: CacheEntry, version: nat, sampled: int)

  datatype State = State(cache: map<Imei, Cached>, pending: seq<Pending>, log: seq<Version>, clock: int, answers: seq<Answer>)

  /** Redis evaluates a lookup in one step, and its reply arrives in a later one. */
  datatype Event = Publish(members: set<Imei>) | Ask(imei: Imei) | Sample(which: nat) | Reply(which: nat)

  /** Publication i was the current one at time t. */
  predicate CurrentAt(log: seq<Version>, i: nat, t: int) {
    i < |log| && log[i].time <= t && (i + 1 < |log| ==> t <= log[i + 1].time)
  }

  predicate Hit(s: State, imei: Imei, now: int) { imei in s.cache && s.cache[imei].entry.exp > now }

  /** Publications only add to the log; a sample or a reply that is not due does nothing. */
  function Next(s: State, e: Event, now: int, ttl: int): (s': State)
    requires s.log != [] && InLog(s)
    ensures s.log <= s'.log && InLog(s')
  {
    var s := s.(clock := now);
    match e
    case Publish(members) => s.(log := s.log + [Version(now, members)])
    case Ask(imei) =>
      if !Hit(s, imei, now) then s.(pending := s.pending + [Asked(imei, now)]) else
        var Cached(entry, version, sampled) := s.cache[imei];
        s.(answers := s.answers + [Answer(imei, entry.allowed, true, now, now, version, sampled)])
    case Sample(which) =>
      if which >= |s.pending| || s.pending[which].Sampled? then s else
        s.(pending := s.pending[which := Sampled(s.pending[which].imei, s.pending[which].t, |s.log| - 1, now)])
    case Reply(which) =>
      if which >= |s.pending| || s.pending[which].Asked? then s else
        var Sampled(imei, t, version, sampled) := s.pending[which];
        var allowed := imei in s.log[version].members;
        s.(pending := s.pending[..which] + s.pending[which + 1..],
           cache := s.cache[imei := Cached(CacheEntry(allowed, t + ttl), version, sampled)],
           answers := s.answers + [Answer(imei, allowed, false, t, now, version, sampled)])
  }

  predicate InLog(s: State) {
    forall i :: 0 <= i < |s.pending| && s.pending[i].Sampled? ==> s.pending[i].version < |s.log|
  }

  /**
    An answer is true of a publication current at its sample time: less than ttl before a cached answer, and within
    the lookup itself for any other.
   */
  predicate TrueAndFresh(log: seq<Version>, a: Answer, ttl: int) {
    && CurrentAt(log, a.version, a.sampled)
    && a.allowed == (a.imei in log[a.version].members)
    && a.sampled <= a.at && if a.hit then a.at - ttl < a.sampled else a.asked <= a.sampled
  }

  predicate EntryTrue(log: seq<Version>, clock: int, imei: Imei, c: Cached, ttl: int) {
    && CurrentAt(log, c.version, c.sampled) && c.sampled <= clock
    && c.entry.allowed == (imei in log[c.version].members)
    && c.entry.exp - ttl <= c.sampled
  }

  predicate PendingTrue(log: seq<Version>, clock: int, p: Pending) {
    p.t <= clock && (p.Sampled? ==> CurrentAt(log, p.version, p.sampled) && p.t <= p.sampled <= clock)
  }

  predicate Inv(s: State, ttl: int) {
    && s.log != [] && (forall i :: 0 <= i < |s.log| ==> s.log[i].time <= s.clock)
    && (forall i :: 0 <= i < |s.pending| ==> PendingTrue(s.log, s.clock, s.pending[i]))
    && (forall imei :: imei in s.cache ==> EntryTrue(s.log, s.clock, imei, s.cache[imei], ttl))
    && (forall i :: 0 <= i < |s.answers| ==> TrueAndFresh(s.log, s.answers[i], ttl))
  }

  predicate Past(s: State) { forall i :: 0 <= i < |s.answers| ==> s.answers[i].at <= s.clock }

  lemma PublishKeepsInv(s: State, members: set<Imei>, now: int, ttl: int)
    requires Inv(s, ttl) && Past(s) && InLog(s) && s.clock <= now
    ensures Inv(Next(s, Publish(members), now, ttl), ttl)
  {}

  lemma AskKeepsInv(s: State, imei: Imei, now: int, ttl: int)
    requires Inv(s, ttl) && InLog(s) && s.clock <= now
    ensures Inv(Next(s, Ask(imei), now, ttl), ttl)
  {}

  lemma SampleKeepsInv(s: State, which: nat, now: int, ttl: int)
    requires Inv(s, ttl) && InLog(s) && s.clock <= now
    ensures Inv(Next(s, Sample(which), now, ttl), ttl)
  {}

  lemma ReplyKeepsInv(s: State, which: nat, now: int, ttl: int)
    requires Inv(s, ttl) && InLog(s) && s.clock <= now
    ensures Inv(Next(s, Reply(which), now, ttl), ttl)
  {
    if which < |s.pending| { assert PendingTrue(s.log, s.clock, s.pending[which]); }
  }

  lemma NextKeepsInv(s: State, e: Event, now: int, ttl: int)
    requires Inv(s, ttl) && Past(s) && InLog(s) && s.clock <= now
    ensures var s' := Next(s, e, now, ttl);
      Inv(s', ttl) && s'.clock == now && Past(s')
  {
    hide Inv;
    match e
    case Publish(members) => PublishKeepsInv(s, members, now, ttl);
    case Ask(imei) => AskKeepsInv(s, imei, now, ttl);
    case Sample(which) => SampleKeepsInv(s, which, now, ttl);
    case Reply(which) => ReplyKeepsInv(s, which, now, ttl);
  }

  datatype Timed = Timed(event: Event, now: int)

  predicate Ordered(run: seq<Timed>, start: int) {
    && (forall i :: 0 <= i < |run| ==> start <= run[i].now)
    && forall i, j :: 0 <= i < j < |run| ==> run[i].now <= run[j].now
  }

  function Initial(members: set<Imei>, start: int): State {
    State(map[], [], [Version(start, members)], start, [])
  }

  function After(run: seq<Timed>, members: set<Imei>, start: int, ttl: int): (s: State)
    ensures s.log != [] && InLog(s)
  {
    if run == [] then Initial(members, start)
    else Next(After(run[..|run| - 1], members, start, ttl), run[|run| - 1].event, run[|run| - 1].now, ttl)
  }

  lemma {:induction false} RunKeepsInv(run: seq<Timed>, members: set<Imei>, start: int, ttl: int)
    requires Ordered(run, start)
    ensures var s := After(run, members, start, ttl);
      Inv(s, ttl) && Past(s) && s.clock == if run == [] then start else run[|run| - 1].now
  {
    hide Inv, Next;
    if run == [] {
      InitialInv(members, start, ttl);
    } else {
      var r := run[|run| - 1];
      RunKeepsInv(run[..|run| - 1], members, start, ttl);
      NextKeepsInv(After(run[..|run| - 1], members, start, ttl), r.event, r.now, ttl);
    }
  }

  lemma InitialInv(members: set<Imei>, start: int, ttl: int)
    ensures Inv(Initial(members, start), ttl)
  {}

  /**
    In every run, with any overlap and any delay of lookups and publications: a cached answer is a truth less than ttl
    old, and any other is a truth of a moment within its own lookup.
   */
  lemma AnswersAreRecentTruths(run: seq<Timed>, members: set<Imei>, start: int, ttl: int, i: nat)
    requires Ordered(run, start) && i < |After(run, members, start, ttl).answers|
    ensures var s := After(run, members, start, ttl); TrueAndFresh(s.log, s.answers[i], ttl)
  {
    RunKeepsInv(run, members, start, ttl);
  }

  /** The moment from which an answer may date: ttl ago from the cache, the start of the lookup otherwise. */
  function Since(a: Answer, ttl: int): int { if a.hit then a.at - ttl else a.asked }

  /** So once an IMEI has been in, or out of, every publication since then, the answer says so. */
  lemma ChangeShowsWithinTtl(run: seq<Timed>, members: set<Imei>, start: int, ttl: int, i: nat, b: bool)
    requires Ordered(run, start) && i < |After(run, members, start, ttl).answers|
    requires var s := After(run, members, start, ttl); var a := s.answers[i];
      forall v: nat, t: int :: CurrentAt(s.log, v, t) && Since(a, ttl) <= t <= a.at ==> b == (a.imei in s.log[v].members)
    ensures After(run, members, start, ttl).answers[i].allowed == b
  {
    AnswersAreRecentTruths(run, members, start, ttl, i);
  }

  // ---- How old an answer can be -----------------------------------------------------------------

  /** Some publication that was current within the last ttl says what the answer says. */
  ghost predicate Fresh(log: seq<Version>, a: Answer, ttl: int) {
    exists v: nat, t: int :: CurrentAt(log, v, t) && a.at - ttl <= t <= a.at && a.allowed == (a.imei in log[v].members)
  }

  /** The i-th answer of a run came from Redis, n after it was asked for. */
  predicate LookupTook(run: seq<Timed>, members: set<Imei>, start: int, ttl: int, i: nat, n: nat) {
    && Ordered(run, start)
    && var answers := After(run, members, start, ttl).answers;
       i < |answers| && !answers[i].hit && answers[i].at - answers[i].asked == n
  }

  /** What isAllowed promises, of every lookup that takes n: its answer was true within the last ttl. */
  ghost predicate AlwaysFresh(ttl: nat, n: nat) {
    forall run, members, start, i: nat :: LookupTook(run, members, start, ttl, i, n) ==>
      var s := After(run, members, start, ttl); Fresh(s.log, s.answers[i], ttl)
  }

  lemma TrueIsFresh(log: seq<Version>, a: Answer, ttl: int)
    requires TrueAndFresh(log, a, ttl) && (a.hit || a.at - a.asked <= ttl)
    ensures Fresh(log, a, ttl)
  {
    assert CurrentAt(log, a.version, a.sampled);
  }

  /** A cached answer was true within the last ttl, in every run. */
  lemma CachedIsFresh(run: seq<Timed>, members: set<Imei>, start: int, ttl: int, i: nat)
    requires Ordered(run, start) && i < |After(run, members, start, ttl).answers|
    requires After(run, members, start, ttl).answers[i].hit
    ensures var s := After(run, members, start, ttl); Fresh(s.log, s.answers[i], ttl)
  {
    AnswersAreRecentTruths(run, members, start, ttl, i);
    TrueIsFresh(After(run, members, start, ttl).log, After(run, members, start, ttl).answers[i], ttl);
  }

  /** Redis evaluates a lookup, the set is emptied, and the reply arrives at time n. */
  function SlowRun(imei: Imei, n: nat): seq<Timed> {
    [Timed(Ask(imei), 0), Timed(Sample(0), 0), Timed(Publish({}), 0), Timed(Reply(0), n)]
  }

  lemma SlowLookup(imei: Imei, ttl: int, n: nat)
    ensures After(SlowRun(imei, n)[..3], {imei}, 0, ttl) ==
      State(map[], [Sampled(imei, 0, 0, 0)], [Version(0, {imei}), Version(0, {})], 0, [])
  {
    var run := SlowRun(imei, n);
    assert run[..3][..2] == run[..2] && run[..2][..1] == run[..1] && run[..1][..0] == [];
    assert After(run[..1], {imei}, 0, ttl) == State(map[], [Asked(imei, 0)], [Version(0, {imei})], 0, []);
    assert After(run[..2], {imei}, 0, ttl) == State(map[], [Sampled(imei, 0, 0, 0)], [Version(0, {imei})], 0, []);
  }

  /** For every latency above ttl there is a lookup whose answer was false all through the last ttl. */
  lemma SlowReplyIsOld(imei: Imei, ttl: nat, n: nat)
    requires n > ttl
    ensures LookupTook(SlowRun(imei, n), {imei}, 0, ttl, 0, n)
    ensures var s := After(SlowRun(imei, n), {imei}, 0, ttl); s.answers != [] && !Fresh(s.log, s.answers[0], ttl)
  {
    SlowLookup(imei, ttl, n);
    var s := After(SlowRun(imei, n), {imei}, 0, ttl);
    assert s.answers == [Answer(imei, true, false, 0, n, 0, 0)] && s.log == [Version(0, {imei}), Version(0, {})];
    forall v: nat, t: int | CurrentAt(s.log, v, t) && n - ttl <= t <= n
      ensures imei !in s.log[v].members
    {}
  }

  /** Exactly when the promise holds: the answer is cached, or the lookup took no longer than ttl. */
  lemma FreshIffWithinTtl(ttl: nat, n: nat)
    ensures AlwaysFresh(ttl, n) <==> n <= ttl
  {
    hide After, Fresh;
    if n <= ttl {
      forall run, members, start, i: nat | LookupTook(run, members, start, ttl, i, n)
        ensures var s := After(run, members, start, ttl); Fresh(s.log, s.answers[i], ttl)
      {
        AnswersAreRecentTruths(run, members, start, ttl, i);
        TrueIsFresh(After(run, members, start, ttl).log, After(run, members, start, ttl).answers[i], ttl);
      }
    } else {
      SlowReplyIsOld("", ttl, n);
    }
  }

  /**
    The object: the two halves of isAllowed around the await. The ghost state is the whole system as the steps above
    see it; the real cache is its cache without the provenance.
   */
  class RedisAllowList {
    const cacheTtlMs: int
    var cache: map<Imei, CacheEntry>
    ghost var view: State

    ghost predicate Valid()
      reads this
    {
      view.log != [] && InLog(view) && cache == map imei | imei in view.cache :: view.cache[imei].entry
    }

    constructor (cacheTtlMs: int, ghost members: set<Imei>, ghost start: int)
      ensures this.cacheTtlMs == cacheTtlMs && Valid() && view == Initial(members, start)
    {
      this.cacheTtlMs := cacheTtlMs;
      cache, view := map[], Initial(members, start);
    }

    /** Up to the await: a hit is the answer, a miss leaves a lookup pending. */
    method Begin(imei: Imei, t: int) returns (hit: Option<bool>)
      requires Valid()
      modifies this`view
      ensures Valid() && view == Next(old(view), Ask(imei), t, cacheTtlMs)
      ensures hit == if imei in cache && cache[imei].exp > t then Some(cache[imei].allowed) else None
      ensures if hit.Some? then |view.answers| == |old(view).answers| + 1 && view.answers[|old(view).answers|].allowed == hit.value
              else view.pending == old(view).pending + [Asked(imei, t)]
    {
      hit := if imei in cache && cache[imei].exp > t then Some(cache[imei].allowed) else None;
      view := Next(view, Ask(imei), t, cacheTtlMs);
    }

    /** What happens elsewhere meanwhile: publications, and Redis evaluating a lookup. */
    ghost method Elsewhere(e: Event, now: int)
      requires Valid() && (e.Publish? || e.Sample?)
      modifies this`view
      ensures Valid() && view == Next(old(view), e, now, cacheTtlMs)
    {
      view := Next(view, e, now, cacheTtlMs);
    }

    /** After the await: at time now arrives what Redis found, earlier, for a lookup of imei that began at t. */
    method Finish(imei: Imei, t: int, isMember: bool, ghost which: nat, ghost now: int) returns (allowed: bool)
      requires Valid() && which < |view.pending| && view.pending[which].Sampled?
      requires view.pending[which].imei == imei && view.pending[which].t == t
      requires isMember == (imei in view.log[view.pending[which].version].members)
      modifies this
      ensures Valid() && view == Next(old(view), Reply(which), now, cacheTtlMs)
      ensures allowed == isMember && cache == old(cache)[imei := CacheEntry(isMember, t + cacheTtlMs)]
      ensures |view.answers| == |old(view).answers| + 1 && view.answers[|old(view).answers|].allowed == allowed
    {
      allowed := isMember;
      cache := cache[imei := CacheEntry(allowed, t + cacheTtlMs)];
      view := Next(view, Reply(which), now, cacheTtlMs);
    }
  }
}
