/** What each call on devices does, and what the published set and the IMEI cache say, with every condition written out. */
module DeviceMeaning {
  import opened Bytes
  import opened Org
  import opened Devices

  /** Some device that is not deleted has this IMEI. */
  ghost predicate Taken(m: Table, imei: Imei) { exists id :: id in m && !m[id].deleted && m[id].imei == imei }

  lemma TakenIs(m: Table, imei: Imei)
    ensures Taken(m, imei) <==> HasLive(m, imei)
  {
    if Taken(m, imei) {
      var id :| id in m && !m[id].deleted && m[id].imei == imei;
      assert LiveAs(m, id, imei);
    }
    if HasLive(m, imei) {
      var id :| LiveAs(m, id, imei);
      assert id in m && !m[id].deleted && m[id].imei == imei;
    }
  }

  /** The caller may put a device there: nowhere, if tenant-wide; otherwise a department of the tenant, inside the scope. */
  predicate Allowed(depts: set<Id>, scope: Scope, dept: Option<Id>) {
    match dept
    case None => scope == None
    case Some(x) => x in depts && (scope == None || x in scope.value)
  }

  /** The caller can see the device: of the tenant, and inside the scope. */
  predicate Seen(m: Table, tenantId: Id, scope: Scope, id: Id) {
    && id in m && m[id].tenantId == tenantId
    && (scope == None || (m[id].departmentId.Some? && m[id].departmentId.value in scope.value))
  }

  /**
    A provision is accepted iff the IMEI is free, the plan has room and the department is allowed; then exactly one device
    appears, with the tenant, IMEI and department of the call, and its IMEI is published. The refusals, in their order.
   */
  lemma ProvisionMeans(n: Node, tenantId: Id, scope: Scope, depts: set<Id>, imei: Imei, dept: Option<Id>, quotaOk: bool, freshId: Id, now: int)
    requires freshId !in n.devices
    ensures var op := Provision(tenantId, scope, depts, imei, dept, quotaOk, freshId);
      var r, n' := ProvisionOutcome(n.devices, op), Next(n, op, now);
      && (r == Done <==> !Taken(n.devices, imei) && quotaOk && Allowed(depts, scope, dept))
      && (r == Conflict <==> Taken(n.devices, imei))
      && (r == QuotaExceeded <==> !Taken(n.devices, imei) && !quotaOk)
      && (r == NotFound <==> !Taken(n.devices, imei) && quotaOk && dept.Some? && dept.value !in depts)
      && n'.cache == n.cache
      && if r == Done
         then && n'.devices == n.devices[freshId := Device(tenantId, imei, Provisioned, dept, false)]
              && n'.allowed == n.allowed + {imei} && n'.liveSince == n.liveSince[freshId := now]
         else n'.devices == n.devices && n'.allowed == n.allowed && n'.liveSince == n.liveSince
  {
    hide HasLive, Taken;
    TakenIs(n.devices, imei);
  }

  /** A status change is for a live device the caller can see; the IMEI is published iff the new status sends. */
  lemma SetStatusMeans(n: Node, tenantId: Id, scope: Scope, id: Id, status: Status, now: int)
    ensures var n' := Next(n, SetStatus(tenantId, scope, id, status), now);
      n'.cache == n.cache && n'.liveSince == n.liveSince &&
      if Seen(n.devices, tenantId, scope, id) && !n.devices[id].deleted then
        var d := n.devices[id];
        && n'.devices == n.devices[id := Device(d.tenantId, d.imei, status, d.departmentId, false)]
        && n'.allowed == if status == Provisioned || status == Active then n.allowed + {d.imei} else n.allowed - {d.imei}
      else n'.devices == n.devices && n'.allowed == n.allowed
  {}

  /** A delete marks a live device the caller can see, withdraws its IMEI, and forgets what was cached for it. */
  lemma RemoveMeans(n: Node, tenantId: Id, scope: Scope, id: Id, now: int)
    ensures var n' := Next(n, Remove(tenantId, scope, id), now);
      n'.liveSince == n.liveSince &&
      if Seen(n.devices, tenantId, scope, id) && !n.devices[id].deleted then
        var d := n.devices[id];
        && n'.devices == n.devices[id := Device(d.tenantId, d.imei, d.status, d.departmentId, true)]
        && n'.allowed == n.allowed - {d.imei} && n'.cache == n.cache - {d.imei}
      else n'.devices == n.devices && n'.allowed == n.allowed && n'.cache == n.cache
  {}

  /** A restore is for a deleted device the caller can see, with room in the plan and a free IMEI. */
  lemma RestoreMeans(n: Node, tenantId: Id, scope: Scope, id: Id, quotaOk: bool, now: int)
    ensures var op := Restore(tenantId, scope, id, quotaOk); var r, n' := RestoreOutcome(n.devices, op), Next(n, op, now);
      var found := Seen(n.devices, tenantId, scope, id) && n.devices[id].deleted;
      && (r == NotFound <==> !found)
      && (r == QuotaExceeded <==> found && !quotaOk)
      && (r == Conflict <==> found && quotaOk && Taken(n.devices, n.devices[id].imei))
      && (r == Done <==> found && quotaOk && !Taken(n.devices, n.devices[id].imei))
      && if r == Done then
           var d := n.devices[id];
           && n'.devices == n.devices[id := Device(d.tenantId, d.imei, d.status, d.departmentId, false)]
           && n'.allowed == (if d.status == Provisioned || d.status == Active then n.allowed + {d.imei} else n.allowed)
           && n'.cache == n.cache - {d.imei} && n'.liveSince == n.liveSince[id := now]
         else n'.devices == n.devices && n'.allowed == n.allowed && n'.cache == n.cache && n'.liveSince == n.liveSince
  {
    hide HasLive, Taken;
    if id in n.devices { TakenIs(n.devices, n.devices[id].imei); }
  }

  /** A lookup: an entry serves until it expires; otherwise the table is asked, and the answer kept for 30 s, or 10 s if none. */
  lemma ResolveMeans(n: Node, imei: Imei, now: int)
    ensures var ref, n' := Answer(n, imei, now), Next(n, Resolve(imei), now);
      n'.devices == n.devices && n'.allowed == n.allowed &&
      if imei in n.cache && now < n.cache[imei].expiresAt then ref == n.cache[imei].ref && n'.cache == n.cache
      else
        && (ref.Some? ==> ref.value in n.devices && !n.devices[ref.value].deleted && n.devices[ref.value].imei == imei)
        && (ref == None ==> !Taken(n.devices, imei))
        && n'.cache == n.cache[imei := CacheEntry(ref, if ref.Some? then now + 30_000 else now + 10_000)]
  {
    hide HasLive, Taken;
    TakenIs(n.devices, imei);
  }

  /** In every run an IMEI is published iff some device that is not deleted, provisioned or active, has it; and only one can. */
  lemma PublishedMeans(calls: seq<Timed>, start: int, imei: Imei)
    ensures var n := After(calls, start);
      && (imei in n.allowed <==>
          exists id :: id in n.devices && !n.devices[id].deleted && n.devices[id].imei == imei &&
            (n.devices[id].status == Provisioned || n.devices[id].status == Active))
      && forall a, b :: (a in n.devices && b in n.devices && !n.devices[a].deleted && !n.devices[b].deleted &&
                         n.devices[a].imei == imei && n.devices[b].imei == imei) ==> a == b
  {
    hide After;
    AlwaysPublished(calls, start);
    var n := After(calls, start);
    ActiveMeans(n.devices, imei);
    assert forall a, b :: Live(n.devices, a) && Live(n.devices, b) && n.devices[a].imei == n.devices[b].imei ==> a == b;
  }

  lemma ActiveMeans(m: Table, imei: Imei)
    ensures imei in ActiveImeis(m) <==>
      exists id :: id in m && !m[id].deleted && m[id].imei == imei && (m[id].status == Provisioned || m[id].status == Active)
  {
    if imei in ActiveImeis(m) {
      var id :| id in m && !m[id].deleted && Sending(m[id].status) && m[id].imei == imei;
      assert m[id].status == Provisioned || m[id].status == Active;
    }
  }

  /** In every ordered run, a device that has been live for ten seconds resolves to itself, whatever was cached. */
  lemma ResolvesAfterTenSeconds(calls: seq<Timed>, start: int, id: Id, now: int)
    requires Ordered(calls, start)
    requires var n := After(calls, start);
      id in n.devices && !n.devices[id].deleted && id in n.liveSince && n.liveSince[id] + 10_000 <= now
    ensures var n := After(calls, start); Answer(n, n.devices[id].imei, now) == Some(id)
  {
    hide After;
    ResolvesInTime(calls, start, id, now);
  }
}
