/**
  The device table of one control-plane node with the two things derived from it: the published allow-list
  (devices.service.ts) and the IMEI lookup cache of the telemetry consumer (telemetry.consumer.ts).
  Each service call is one step; clocks are read once per step and never run backwards.
 */
module Devices {
  import opened Bytes
  import opened Org
  import Departments

  type Imei = string

  datatype Status = Provisioned | Active | Suspended | Retired

  datatype Device = Device(tenantId: Id, imei: Imei, status: Status, departmentId: Option<Id>, deleted: bool)

  type Table = map<Id, Device>

  /** A cached lookup: the device an IMEI stood for, or that there was none. */
  datatype CacheEntry = CacheEntry(ref: Option<Id>, expiresAt: int)

  const NEGATIVE_CACHE_MS := 10_000
  const POSITIVE_CACHE_MS := 30_000

  /** liveSince records when each device last became live. */
  datatype Node = Node(devices: Table, allowed: set<Imei>, cache: map<Imei, CacheEntry>, liveSince: map<Id, int>, clock: int)

  datatype Outcome = Done | Conflict | NotFound | Forbidden | QuotaExceeded

  predicate Sending(s: Status) { s == Provisioned || s == Active }

  predicate Live(m: Table, id: Id) { id in m && !m[id].deleted }

  predicate LiveAs(m: Table, id: Id, imei: Imei) { Live(m, id) && m[id].imei == imei }

  /** findByImei finds a device. */
  ghost predicate HasLive(m: Table, imei: Imei) { exists id :: LiveAs(m, id, imei) }

  function ActiveImeis(m: Table): set<Imei> {
    set id | id in m && !m[id].deleted && Sending(m[id].status) :: m[id].imei
  }

  /** What scopeFor returned for the caller: None for a tenant-wide user. */
  type Scope = Option<set<Id>>

  predicate InScope(scope: Scope, dept: Option<Id>) { scope == None || (dept.Some? && dept.value in scope.value) }

  /** getScoped: the device of the caller's tenant, live unless deleted ones are asked for, inside the scope. */
  predicate Visible(m: Table, tenantId: Id, scope: Scope, id: Id, includeDeleted: bool) {
    id in m && m[id].tenantId == tenantId && (includeDeleted || !m[id].deleted) && InScope(scope, m[id].departmentId)
  }

  /** assertDepartmentInScope, given the departments of the tenant. */
  function DepartmentCheck(depts: set<Id>, scope: Scope, dept: Option<Id>): Outcome {
    if dept == None then (if scope.Some? then Forbidden else Done)
    else if dept.value !in depts then NotFound
    else if !InScope(scope, dept) then Forbidden
    else Done
  }

  datatype Op =
    | Provision(tenantId: Id, scope: Scope, depts: set<Id>, imei: Imei, dept: Option<Id>, quotaOk: bool, freshId: Id)
    | SetStatus(tenantId: Id, scope: Scope, id: Id, status: Status)
    | Remove(tenantId: Id, scope: Scope, id: Id)
    | Restore(tenantId: Id, scope: Scope, id: Id, quotaOk: bool)
    | Resolve(imei: Imei)

  ghost function ProvisionOutcome(m: Table, op: Op): Outcome
    requires op.Provision?
  {
    if HasLive(m, op.imei) then Conflict
    else if !op.quotaOk then QuotaExceeded
    else DepartmentCheck(op.depts, op.scope, op.dept)
  }

  ghost function RestoreOutcome(m: Table, op: Op): Outcome
    requires op.Restore?
  {
    if !Visible(m, op.tenantId, op.scope, op.id, true) || !m[op.id].deleted then NotFound
    else if !op.quotaOk then QuotaExceeded
    else if HasLive(m, m[op.id].imei) then Conflict
    else Done
  }

  function Forget(cache: map<Imei, CacheEntry>, imei: Imei): map<Imei, CacheEntry> { cache - {imei} }

  /** The lookup finds a live device, if there is one. */
  ghost function Lookup(m: Table, imei: Imei): (ref: Option<Id>)
    ensures ref.Some? ==> LiveAs(m, ref.value, imei)
    ensures ref == None ==> !HasLive(m, imei)
  {
    if HasLive(m, imei) then var id :| LiveAs(m, id, imei); Some(id) else None
  }

  predicate Hit(n: Node, imei: Imei, now: int) { imei in n.cache && now < n.cache[imei].expiresAt }

  /** resolveDevice's answer: the cached one while it lasts, a fresh lookup otherwise. */
  ghost function Answer(n: Node, imei: Imei, now: int): Option<Id> {
    if Hit(n, imei, now) then n.cache[imei].ref else Lookup(n.devices, imei)
  }

  function Expiry(ref: Option<Id>, now: int): int { now + if ref.Some? then POSITIVE_CACHE_MS else NEGATIVE_CACHE_MS }

  /** The node after one call at time now. */
  ghost function Next(n: Node, op: Op, now: int): Node {
    var n := n.(clock := now);
    match op
    case Provision(tenantId, _, _, imei, dept, _, freshId) =>
      if freshId in n.devices || ProvisionOutcome(n.devices, op) != Done then n else
        n.(devices := n.devices[freshId := Device(tenantId, imei, Provisioned, dept, false)],
           allowed := n.allowed + {imei}, liveSince := n.liveSince[freshId := now])
    case SetStatus(tenantId, scope, id, status) =>
      if !Visible(n.devices, tenantId, scope, id, false) then n else
        var imei := n.devices[id].imei;
        n.(devices := n.devices[id := n.devices[id].(status := status)],
           allowed := if Sending(status) then n.allowed + {imei} else n.allowed - {imei})
    case Remove(tenantId, scope, id) =>
      if !Visible(n.devices, tenantId, scope, id, false) then n else
        var imei := n.devices[id].imei;
        n.(devices := n.devices[id := n.devices[id].(deleted := true)],
           allowed := n.allowed - {imei}, cache := Forget(n.cache, imei))
    case Restore(_, _, id, _) =>
      if RestoreOutcome(n.devices, op) != Done then n else
        var d := n.devices[id];
        n.(devices := n.devices[id := d.(deleted := false)],
           allowed := if Sending(d.status) then n.allowed + {d.imei} else n.allowed,
           cache := Forget(n.cache, d.imei), liveSince := n.liveSince[id := now])
    case Resolve(imei) =>
      if Hit(n, imei, now) then n else
        var ref := Lookup(n.devices, imei);
        n.(cache := n.cache[imei := CacheEntry(ref, Expiry(ref, now))])
  }

  // ---- The invariants ------------------------------------------------------------------------

  ghost predicate UniqueImeis(m: Table) {
    forall a, b :: Live(m, a) && Live(m, b) && m[a].imei == m[b].imei ==> a == b
  }

  /** Live IMEIs are unique and the published set is exactly the sending ones. */
  ghost predicate Published(n: Node) { UniqueImeis(n.devices) && n.allowed == ActiveImeis(n.devices) }

  /** A positive entry names the live device; a negative one ends within ten seconds of the device becoming live. */
  ghost predicate EntryTrue(m: Table, liveSince: map<Id, int>, imei: Imei, e: CacheEntry) {
    match e.ref
    case Some(id) => LiveAs(m, id, imei)
    case None => forall id :: LiveAs(m, id, imei) && id in liveSince ==> e.expiresAt <= liveSince[id] + NEGATIVE_CACHE_MS
  }

  ghost predicate Dated(m: Table, liveSince: map<Id, int>, clock: int) {
    forall id :: Live(m, id) ==> id in liveSince && liveSince[id] <= clock
  }

  /** An entry made earlier cannot outlast the time it was made by more than its own lifetime. */
  predicate Recent(e: CacheEntry, clock: int) { e.ref == None ==> e.expiresAt <= clock + NEGATIVE_CACHE_MS }

  ghost predicate CacheTrue(n: Node) {
    && Dated(n.devices, n.liveSince, n.clock)
    && forall imei :: imei in n.cache ==> EntryTrue(n.devices, n.liveSince, imei, n.cache[imei]) && Recent(n.cache[imei], n.clock)
  }

  lemma ImeiIsActive(m: Table, imei: Imei)
    ensures imei in ActiveImeis(m) <==> exists id :: LiveAs(m, id, imei) && Sending(m[id].status)
  {}

  /** No live device other than id has this IMEI. */
  ghost predicate NoOther(m: Table, id: Id, imei: Imei) {
    forall o :: Live(m, o) && m[o].imei == imei ==> o == id
  }

  lemma FreeImei(m: Table, id: Id, imei: Imei)
    requires !HasLive(m, imei)
    ensures NoOther(m, id, imei)
  {
    assert forall o :: Live(m, o) && m[o].imei == imei ==> LiveAs(m, o, imei);
  }

  lemma UniqueAfter(m: Table, id: Id, d: Device)
    requires UniqueImeis(m) && NoOther(m, id, d.imei)
    ensures UniqueImeis(m[id := d])
  {}

  /** Changing one device, whose IMEI no other live device has, changes the sending set by that IMEI alone. */
  lemma ActiveAfter(m: Table, id: Id, d: Device)
    requires NoOther(m, id, d.imei) && (id in m ==> m[id].imei == d.imei)
    ensures ActiveImeis(m[id := d]) ==
      if !d.deleted && Sending(d.status) then ActiveImeis(m) + {d.imei} else ActiveImeis(m) - {d.imei}
  {
    var m' := m[id := d];
    forall imei
      ensures imei in ActiveImeis(m') <==>
        if imei == d.imei then !d.deleted && Sending(d.status) else imei in ActiveImeis(m)
    {
      hide ActiveImeis;
      ImeiIsActive(m, imei);
      ImeiIsActive(m', imei);
      assert forall o :: o != id ==> (LiveAs(m', o, imei) <==> LiveAs(m, o, imei));
      if imei == d.imei && !d.deleted && Sending(d.status) {
        assert LiveAs(m', id, imei);
      }
    }
  }

  lemma NextPublished(n: Node, op: Op, now: int)
    requires Published(n)
    ensures Published(Next(n, op, now))
  {
    hide ActiveImeis, UniqueImeis, NoOther, HasLive;
    var m := n.devices;
    match op {
      case Provision(tenantId, _, _, imei, dept, _, freshId) =>
        if freshId !in m && ProvisionOutcome(m, op) == Done {
          FreeImei(m, freshId, imei);
          Changed(m, freshId, Device(tenantId, imei, Provisioned, dept, false));
        }
      case SetStatus(tenantId, scope, id, status) =>
        if Visible(m, tenantId, scope, id, false) {
          OwnImei(m, id);
          Changed(m, id, m[id].(status := status));
        }
      case Remove(tenantId, scope, id) =>
        if Visible(m, tenantId, scope, id, false) {
          OwnImei(m, id);
          Changed(m, id, m[id].(deleted := true));
        }
      case Restore(_, _, id, _) =>
        if RestoreOutcome(m, op) == Done {
          FreeImei(m, id, m[id].imei);
          Changed(m, id, m[id].(deleted := false));
          NotActive(m, m[id].imei);
        }
      case Resolve(imei) =>
    }
  }

  lemma Changed(m: Table, id: Id, d: Device)
    requires UniqueImeis(m) && NoOther(m, id, d.imei) && (id in m ==> m[id].imei == d.imei)
    ensures UniqueImeis(m[id := d])
    ensures ActiveImeis(m[id := d]) ==
      if !d.deleted && Sending(d.status) then ActiveImeis(m) + {d.imei} else ActiveImeis(m) - {d.imei}
  {
    hide *;
    UniqueAfter(m, id, d);
    ActiveAfter(m, id, d);
  }

  lemma OwnImei(m: Table, id: Id)
    requires UniqueImeis(m) && Live(m, id)
    ensures NoOther(m, id, m[id].imei)
  {}

  lemma NotActive(m: Table, imei: Imei)
    requires !HasLive(m, imei)
    ensures imei !in ActiveImeis(m)
  {
    ImeiIsActive(m, imei);
  }

  // ---- The cache --------------------------------------------------------------------------------

  lemma ProvisionCacheTrue(n: Node, id: Id, d: Device, now: int)
    requires CacheTrue(n) && id !in n.devices && !HasLive(n.devices, d.imei) && n.clock <= now
    ensures CacheTrue(n.(devices := n.devices[id := d], liveSince := n.liveSince[id := now], clock := now))
  {}

  lemma StatusCacheTrue(n: Node, id: Id, d: Device, now: int)
    requires CacheTrue(n) && Live(n.devices, id) && !d.deleted && d.imei == n.devices[id].imei && n.clock <= now
    ensures CacheTrue(n.(devices := n.devices[id := d], clock := now))
  {}

  lemma ForgetCacheTrue(n: Node, id: Id, d: Device, since: map<Id, int>, now: int)
    requires CacheTrue(n) && id in n.devices && d.imei == n.devices[id].imei && n.clock <= now
    requires forall o :: o != id ==> (o in since <==> o in n.liveSince) && (o in since ==> since[o] == n.liveSince[o])
    requires !d.deleted ==> id in since && since[id] <= now
    ensures CacheTrue(n.(devices := n.devices[id := d], liveSince := since, cache := Forget(n.cache, d.imei), clock := now))
  {
    var m' := n.devices[id := d];
    forall imei | imei in Forget(n.cache, d.imei)
      ensures EntryTrue(m', since, imei, n.cache[imei])
    {
      assert EntryTrue(n.devices, n.liveSince, imei, n.cache[imei]);
      assert forall o :: LiveAs(m', o, imei) <==> LiveAs(n.devices, o, imei);
      assert forall o :: LiveAs(m', o, imei) ==> o != id;
    }
  }

  lemma ResolveCacheTrue(n: Node, imei: Imei, now: int)
    requires CacheTrue(n) && n.clock <= now
    ensures CacheTrue(Next(n, Resolve(imei), now))
  {}

  lemma NextCacheTrue(n: Node, op: Op, now: int)
    requires CacheTrue(n) && n.clock <= now
    ensures CacheTrue(Next(n, op, now))
  {
    hide EntryTrue, Dated, HasLive, Forget, Recent;
    var m, n' := n.devices, Next(n, op, now);
    if op.Resolve? {
      ResolveCacheTrue(n, op.imei, now);
      return;
    }
    TimePasses(n, now);
    match op {
      case Provision(tenantId, _, _, imei, dept, _, freshId) =>
        if freshId !in m && ProvisionOutcome(m, op) == Done {
          ProvisionCacheTrue(n, freshId, Device(tenantId, imei, Provisioned, dept, false), now);
        }
      case SetStatus(tenantId, scope, id, status) =>
        if Visible(m, tenantId, scope, id, false) {
          StatusCacheTrue(n, id, m[id].(status := status), now);
        }
      case Remove(tenantId, scope, id) =>
        if Visible(m, tenantId, scope, id, false) {
          ForgetCacheTrue(n, id, m[id].(deleted := true), n.liveSince, now);
        }
      case Restore(_, _, id, _) =>
        if RestoreOutcome(m, op) == Done {
          ForgetCacheTrue(n, id, m[id].(deleted := false), n.liveSince[id := now], now);
        }
    }
  }

  lemma TimePasses(n: Node, now: int)
    requires CacheTrue(n) && n.clock <= now
    ensures CacheTrue(n.(clock := now))
  {}

  // ---- Every run ----------------------------------------------------------------------------------

  datatype Timed = Timed(op: Op, now: int)

  ghost predicate Ordered(calls: seq<Timed>, start: int) {
    && (forall i :: 0 <= i < |calls| ==> start <= calls[i].now)
    && forall i, j :: 0 <= i < j < |calls| ==> calls[i].now <= calls[j].now
  }

  ghost function After(calls: seq<Timed>, start: int): Node {
    if calls == [] then Node(map[], {}, map[], map[], start)
    else Next(After(calls[..|calls| - 1], start), calls[|calls| - 1].op, calls[|calls| - 1].now)
  }

  /** In every reachable state the live IMEIs are unique and the published set equals activeImeis(). */
  lemma {:induction false} AlwaysPublished(calls: seq<Timed>, start: int)
    ensures Published(After(calls, start))
  {
    hide Published, Next;
    if calls == [] {
      EmptyPublished(start);
    } else {
      AlwaysPublished(calls[..|calls| - 1], start);
      NextPublished(After(calls[..|calls| - 1], start), calls[|calls| - 1].op, calls[|calls| - 1].now);
    }
  }

  lemma EmptyPublished(start: int)
    ensures Published(Node(map[], {}, map[], map[], start))
  {}

  lemma NextClock(n: Node, op: Op, now: int)
    ensures Next(n, op, now).clock == now
  {}

  /** In every run a cached positive entry names the live device of its IMEI, and negative ones are short-lived. */
  lemma {:induction false} AlwaysCacheTrue(calls: seq<Timed>, start: int)
    requires Ordered(calls, start)
    ensures var n := After(calls, start);
      CacheTrue(n) && n.clock == if calls == [] then start else calls[|calls| - 1].now
  {
    hide CacheTrue, Next;
    if calls == [] {
      EmptyCacheTrue(start);
    } else {
      var c := calls[|calls| - 1];
      AlwaysCacheTrue(calls[..|calls| - 1], start);
      NextCacheTrue(After(calls[..|calls| - 1], start), c.op, c.now);
      NextClock(After(calls[..|calls| - 1], start), c.op, c.now);
    }
  }

  lemma EmptyCacheTrue(start: int)
    ensures CacheTrue(Node(map[], {}, map[], map[], start))
  {}

  /** A positive answer from the cache, however old, is the device a lookup would find now. */
  lemma PositiveIsCurrent(calls: seq<Timed>, start: int, imei: Imei)
    requires Ordered(calls, start)
    requires var n := After(calls, start); imei in n.cache && n.cache[imei].ref.Some?
    ensures var n := After(calls, start); n.cache[imei].ref == Lookup(n.devices, imei)
  {
    hide After;
    AlwaysCacheTrue(calls, start);
    AlwaysPublished(calls, start);
    var n := After(calls, start);
    var id := n.cache[imei].ref.value;
    assert LiveAs(n.devices, id, imei) && HasLive(n.devices, imei);
  }

  /** A device live since time T resolves at every time from T + 10 000 ms. */
  lemma ResolvesInTime(calls: seq<Timed>, start: int, id: Id, now: int)
    requires Ordered(calls, start)
    requires var n := After(calls, start); Live(n.devices, id) && id in n.liveSince && n.liveSince[id] + NEGATIVE_CACHE_MS <= now
    ensures var n := After(calls, start); Answer(n, n.devices[id].imei, now) == Some(id)
  {
    hide After;
    AlwaysCacheTrue(calls, start);
    AlwaysPublished(calls, start);
    var n := After(calls, start);
    var imei := n.devices[id].imei;
    assert LiveAs(n.devices, id, imei) && HasLive(n.devices, imei);
    assert imei in n.cache ==> EntryTrue(n.devices, n.liveSince, imei, n.cache[imei]);
  }

  // ---- The node as it runs ---------------------------------------------------------------------------

  class ControlPlane {
    var byId: Table
    var imeis: set<Imei>
    var imeiCache: map<Imei, CacheEntry>
    ghost var liveSince: map<Id, int>
    ghost var clock: int

    ghost function Abs(): Node
      reads this
    {
      Node(byId, imeis, imeiCache, liveSince, clock)
    }

    constructor (ghost start: int)
      ensures Abs() == Node(map[], {}, map[], map[], start)
    {
      byId, imeis, imeiCache := map[], {}, map[];
      liveSince, clock := map[], start;
    }

    /** findByImei: a scan of the table, in any order. */
    method FindByImei(imei: Imei) returns (ref: Option<Id>)
      ensures ref.Some? ==> LiveAs(byId, ref.value, imei)
      ensures ref == None ==> !HasLive(byId, imei)
    {
      var todo := byId.Keys;
      while todo != {}
        invariant todo <= byId.Keys
        invariant forall id :: id in byId && id !in todo ==> !LiveAs(byId, id, imei)
        decreases todo
      {
        var id :| id in todo;
        if byId[id].imei == imei && !byId[id].deleted {
          return Some(id);
        }
        todo := todo - {id};
      }
      ref := None;
    }

    method Provision(tenantId: Id, scope: Scope, depts: set<Id>, imei: Imei, dept: Option<Id>, quotaOk: bool, freshId: Id, now: int)
      returns (r: Outcome)
      requires freshId !in byId
      modifies this
      ensures r == ProvisionOutcome(old(byId), Op.Provision(tenantId, scope, depts, imei, dept, quotaOk, freshId))
      ensures Abs() == Next(old(Abs()), Op.Provision(tenantId, scope, depts, imei, dept, quotaOk, freshId), now)
    {
      clock := now;
      var existing := FindByImei(imei);
      if existing.Some? {
        assert HasLive(byId, imei);
        return Conflict;
      }
      if !quotaOk {
        return QuotaExceeded;
      }
      r := DepartmentCheck(depts, scope, dept);
      if r == Done {
        byId := byId[freshId := Device(tenantId, imei, Provisioned, dept, false)];
        imeis := imeis + {imei};
        liveSince := liveSince[freshId := now];
      }
    }

    method SetStatus(tenantId: Id, scope: Scope, id: Id, status: Status, now: int) returns (r: Outcome)
      modifies this
      ensures r == if Visible(old(byId), tenantId, scope, id, false) then Done else NotFound
      ensures Abs() == Next(old(Abs()), Op.SetStatus(tenantId, scope, id, status), now)
    {
      clock := now;
      if !Visible(byId, tenantId, scope, id, false) {
        return NotFound;
      }
      var existing := byId[id];
      byId := byId[id := existing.(status := status)];
      if Sending(status) {
        imeis := imeis + {existing.imei};
      } else {
        imeis := imeis - {existing.imei};
      }
      r := Done;
    }

    method Remove(tenantId: Id, scope: Scope, id: Id, now: int) returns (r: Outcome)
      modifies this
      ensures r == if Visible(old(byId), tenantId, scope, id, false) then Done else NotFound
      ensures Abs() == Next(old(Abs()), Op.Remove(tenantId, scope, id), now)
    {
      clock := now;
      if !Visible(byId, tenantId, scope, id, false) {
        return NotFound;
      }
      var existing := byId[id];
      byId := byId[id := existing.(deleted := true)];
      imeis := imeis - {existing.imei};
      imeiCache := imeiCache - {existing.imei};
      r := Done;
    }

    method Restore(tenantId: Id, scope: Scope, id: Id, quotaOk: bool, now: int) returns (r: Outcome)
      modifies this
      ensures r == RestoreOutcome(old(byId), Op.Restore(tenantId, scope, id, quotaOk))
      ensures Abs() == Next(old(Abs()), Op.Restore(tenantId, scope, id, quotaOk), now)
    {
      clock := now;
      if !Visible(byId, tenantId, scope, id, true) || !byId[id].deleted {
        return NotFound;
      }
      if !quotaOk {
        return QuotaExceeded;
      }
      var d := byId[id];
      var holder := FindByImei(d.imei);
      if holder.Some? {
        assert HasLive(byId, d.imei);
        return Conflict;
      }
      byId := byId[id := d.(deleted := false)];
      liveSince := liveSince[id := now];
      if Sending(d.status) {
        imeis := imeis + {d.imei};
      }
      imeiCache := imeiCache - {d.imei};
      r := Done;
    }

    method ResolveDevice(imei: Imei, now: int) returns (ref: Option<Id>)
      requires UniqueImeis(byId)
      modifies this
      ensures ref == Answer(old(Abs()), imei, now)
      ensures Abs() == Next(old(Abs()), Resolve(imei), now)
    {
      clock := now;
      if imei in imeiCache && now < imeiCache[imei].expiresAt {
        return imeiCache[imei].ref;
      }
      ref := FindByImei(imei);
      LookupIsUnique(byId, imei, ref);
      imeiCache := imeiCache[imei := CacheEntry(ref, now + if ref.Some? then POSITIVE_CACHE_MS else NEGATIVE_CACHE_MS)];
    }

    /** onModuleInit: whatever the set held before, it is the derived one afterwards. */
    method Resync()
      modifies this
      ensures Abs() == old(Abs()).(allowed := ActiveImeis(old(byId)))
      ensures UniqueImeis(byId) ==> Published(Abs())
    {
      imeis := {};
      var todo := byId.Keys;
      while todo != {}
        invariant todo <= byId.Keys && Abs() == old(Abs()).(allowed := imeis)
        invariant imeis == set id | id in byId.Keys - todo && !byId[id].deleted && Sending(byId[id].status) :: byId[id].imei
        decreases todo
      {
        var id :| id in todo;
        todo := todo - {id};
        if !byId[id].deleted && (byId[id].status == Active || byId[id].status == Provisioned) {
          imeis := imeis + {byId[id].imei};
        }
      }
    }

    /** devices.list for a user of a department: scopeFor, then a scan of the table, in any order. */
    method List(tenantId: Id, userDept: Option<Id>, units: seq<OrgNode>, ghost org: Departments.Table) returns (ids: set<Id>)
      requires Departments.ListOf(units, org, tenantId)
      ensures forall id :: id in ids <==>
        && Live(byId, id) && byId[id].tenantId == tenantId
        && (NoParent(userDept) ||
            (byId[id].departmentId.Some? && Under(Departments.ParentsOf(org, tenantId), byId[id].departmentId.value, userDept.value)))
    {
      hide Departments.ListOf, Reachable, Under;
      var scope := ScopeFor(units, userDept);
      var todo := byId.Keys;
      ids := {};
      while todo != {}
        invariant todo <= byId.Keys
        invariant forall id :: id in ids <==> id in byId.Keys - todo && Visible(byId, tenantId, scope, id, false)
        decreases todo
      {
        var id :| id in todo;
        var d := byId[id];
        todo := todo - {id};
        if d.tenantId == tenantId && !d.deleted && (scope == None || (d.departmentId.Some? && d.departmentId.value in scope.value)) {
          ids := ids + {id};
        }
      }
      forall id { ListIsExact(byId, org, units, tenantId, userDept, scope, id); }
    }
  }

  lemma LookupIsUnique(m: Table, imei: Imei, ref: Option<Id>)
    requires UniqueImeis(m)
    requires ref.Some? ==> LiveAs(m, ref.value, imei)
    requires ref == None ==> !HasLive(m, imei)
    ensures ref == Lookup(m, imei)
  {}

  // ---- Department scope -----------------------------------------------------------------------------

  /** scopeFor: the subtree of the user's department, or None for a tenant-wide user. */
  method ScopeFor(units: seq<OrgNode>, userDept: Option<Id>) returns (scope: Scope)
    ensures scope == None <==> NoParent(userDept)
    ensures scope.Some? ==> forall x :: x in scope.value <==> Reachable(units, userDept.value, x)
  {
    if NoParent(userDept) {
      return None;
    }
    var ids := DescendantIds(units, userDept.value);
    scope := Some(ids);
  }

  /** scope is what scopeFor returns for a user of this department. */
  ghost predicate ScopeOf(scope: Scope, units: seq<OrgNode>, userDept: Option<Id>) {
    && (scope == None <==> NoParent(userDept))
    && (scope.Some? ==> forall x :: x in scope.value <==> Reachable(units, userDept.value, x))
  }

  /** A scoped user sees exactly the live devices of the tenant whose department chain passes through theirs. */
  lemma ListIsExact(m: Table, org: Departments.Table, units: seq<OrgNode>, tenantId: Id, userDept: Option<Id>, scope: Scope, id: Id)
    requires Departments.ListOf(units, org, tenantId) && ScopeOf(scope, units, userDept)
    ensures Visible(m, tenantId, scope, id, false) <==>
      && Live(m, id) && m[id].tenantId == tenantId
      && (NoParent(userDept) ||
          (m[id].departmentId.Some? && Under(Departments.ParentsOf(org, tenantId), m[id].departmentId.value, userDept.value)))
  {
    if id in m && m[id].departmentId.Some? && !NoParent(userDept) {
      ReachableIsUnder(units, Departments.ParentsOf(org, tenantId), userDept.value, m[id].departmentId.value);
    }
  }
}
