/**
  Departments of every tenant (departments.ts over the in-memory repository): create, move, rename and the cascading
  delete. Two of the loops have no visited check; they end only because the parent links form a forest.
 */
module Departments {
  import opened Bytes
  import opened Org

  datatype OrgUnit = OrgUnit(tenantId: Id, name: string, parentId: Option<Id>)

  type Table = map<Id, OrgUnit>

  datatype Outcome = Done | NotFound | BadRequest

  /** A field of a patch: absent, or set to a value. */
  datatype Patch<T> = Keep | Put(value: T)

  predicate Has(m: Table, tenantId: Id, id: Id) { id in m && m[id].tenantId == tenantId }

  /** The parent links of one tenant: what `new Map(all.map(...))` holds. */
  function ParentsOf(m: Table, tenantId: Id): Parents {
    map id | id in m && m[id].tenantId == tenantId :: m[id].parentId
  }

  // ---- The invariant ---------------------------------------------------------------------------

  /** Every parent link is empty or names a department of the same tenant. */
  predicate Closed(m: Table) {
    && "" !in m
    && forall id :: id in m && !NoParent(m[id].parentId) ==> Has(m, m[id].tenantId, m[id].parentId.value)
  }

  /** rank decreases along every parent link. */
  ghost predicate Ranked(m: Table, rank: map<Id, nat>) {
    && (forall id :: id in m ==> id in rank)
    && forall id :: id in m && !NoParent(m[id].parentId) && m[id].parentId.value in m ==> rank[m[id].parentId.value] < rank[id]
  }

  ghost predicate Forest(m: Table) { Closed(m) && exists rank :: Ranked(m, rank) }

  /** On a forest a walk up strictly descends in rank ... */
  lemma {:induction false} UpDescends(m: Table, rank: map<Id, nat>, tenantId: Id, x: Id, k: nat)
    requires Closed(m) && Ranked(m, rank) && Has(m, tenantId, x) && Up(ParentsOf(m, tenantId), x, k).Some?
    ensures var y := Up(ParentsOf(m, tenantId), x, k).value;
      Has(m, tenantId, y) && rank[y] + k <= rank[x]
    decreases k
  {
    if k > 0 {
      UpDescends(m, rank, tenantId, m[x].parentId.value, k - 1);
    }
  }

  /** ... so no department is its own ancestor. */
  lemma NoCycles(m: Table, tenantId: Id, x: Id, k: nat)
    requires Forest(m) && Has(m, tenantId, x) && k > 0
    ensures Up(ParentsOf(m, tenantId), x, k) != Some(x)
  {
    var rank :| Ranked(m, rank);
    if Up(ParentsOf(m, tenantId), x, k) == Some(x) {
      UpDescends(m, rank, tenantId, x, k);
    }
  }

  // ---- The operations, on tables --------------------------------------------------------------------

  /** The ids the cascade takes: the department and everything whose parent chain passes through it. */
  ghost function Subtree(m: Table, tenantId: Id, id: Id): set<Id> {
    set x | x in m && m[x].tenantId == tenantId && Under(ParentsOf(m, tenantId), x, id)
  }

  function CreateOutcome(m: Table, tenantId: Id, parentId: Option<Id>): Outcome {
    if !NoParent(parentId) && !Has(m, tenantId, parentId.value) then NotFound else Done
  }

  ghost function UpdateOutcome(m: Table, tenantId: Id, id: Id, parentId: Patch<Option<Id>>): Outcome {
    if !Has(m, tenantId, id) then NotFound
    else if parentId.Keep? || parentId.value == None then Done
    else if parentId.value.value == id then BadRequest
    else if !Has(m, tenantId, parentId.value.value) then NotFound
    else if Under(ParentsOf(m, tenantId), parentId.value.value, id) then BadRequest
    else Done
  }

  function Patched(u: OrgUnit, name: Patch<string>, parentId: Patch<Option<Id>>): OrgUnit {
    u.(name := if name.Put? then name.value else u.name,
       parentId := if parentId.Put? then parentId.value else u.parentId)
  }

  class DepartmentsService {
    var byId: Table

    constructor ()
      ensures byId == map[]
    {
      byId := map[];
    }

    /** randomUUID gives an id that no department has. */
    method Create(tenantId: Id, name: string, parentId: Option<Id>, freshId: Id) returns (r: Outcome)
      requires freshId !in byId && freshId != ""
      modifies this
      ensures r == CreateOutcome(old(byId), tenantId, parentId)
      ensures r == Done || r == NotFound
      ensures r == NotFound <==>
        && parentId.Some? && parentId.value != ""
        && !(parentId.value in old(byId) && old(byId)[parentId.value].tenantId == tenantId)
      ensures byId == if r == Done then old(byId)[freshId := OrgUnit(tenantId, name, parentId)] else old(byId)
    {
      if !NoParent(parentId) && !Has(byId, tenantId, parentId.value) {
        return NotFound;
      }
      byId := byId[freshId := OrgUnit(tenantId, name, parentId)];
      r := Done;
    }

    /** The walk up from the proposed parent; it has no visited check. */
    method WalkMeets(tenantId: Id, start: Id, id: Id) returns (meets: bool)
      requires Forest(byId) && Has(byId, tenantId, start)
      ensures meets == Under(ParentsOf(byId, tenantId), start, id)
    {
      var parentOf := ParentsOf(byId, tenantId);
      var hop: Option<Id> := Some(start);
      ghost var rank :| Ranked(byId, rank);
      ghost var n: nat := 0;
      while !NoParent(hop)
        invariant hop == UpParent(parentOf, start, n)
        invariant NoParent(hop) || Has(byId, tenantId, hop.value)
        invariant forall k: nat :: k < n ==> Up(parentOf, start, k) != Some(id)
        decreases if NoParent(hop) then 0 else rank[hop.value] + 1
      {
        UpParentStep(parentOf, start, n);
        if hop.value == id {
          return true;
        }
        hop := if hop.value in parentOf then parentOf[hop.value] else None;
        n := n + 1;
      }
      WalkEnds(parentOf, start, n, id);
      meets := false;
    }

    method Update(tenantId: Id, id: Id, name: Patch<string>, parentId: Patch<Option<Id>>) returns (r: Outcome)
      requires Forest(byId)
      modifies this
      ensures r == UpdateOutcome(old(byId), tenantId, id, parentId)
      ensures r == Done <==>
        && id in old(byId) && old(byId)[id].tenantId == tenantId
        && (parentId.Put? && parentId.value.Some? ==>
            && parentId.value.value != id
            && parentId.value.value in old(byId) && old(byId)[parentId.value.value].tenantId == tenantId
            && !Under(ParentsOf(old(byId), tenantId), parentId.value.value, id))
      ensures r == BadRequest ==>
        && id in old(byId) && old(byId)[id].tenantId == tenantId && parentId.Put? && parentId.value.Some?
        && (parentId.value.value == id || Under(ParentsOf(old(byId), tenantId), parentId.value.value, id))
      ensures byId == if r == Done then old(byId)[id := Patched(old(byId)[id], name, parentId)] else old(byId)
      ensures r != Done ==> byId == old(byId)
      ensures r == Done ==>
        && byId.Keys == old(byId).Keys && (forall x :: x in byId && x != id ==> byId[x] == old(byId)[x])
        && byId[id].tenantId == tenantId
        && byId[id].name == (if name.Put? then name.value else old(byId)[id].name)
        && byId[id].parentId == (if parentId.Put? then parentId.value else old(byId)[id].parentId)
    {
      if !Has(byId, tenantId, id) {
        return NotFound;
      }
      if parentId.Put? && parentId.value.Some? {
        var p := parentId.value.value;
        if p == id {
          return BadRequest;
        }
        if !Has(byId, tenantId, p) {
          return NotFound;
        }
        var meets := WalkMeets(tenantId, p, id);
        if meets {
          return BadRequest;
        }
      }
      var next := byId[id];
      if name.Put? {
        next := next.(name := name.value);
      }
      if parentId.Put? {
        next := next.(parentId := parentId.value);
      }
      byId := byId[id := next];
      r := Done;
    }

    /** The cascade's worklist: it grows while it is scanned, with no visited check. */
    method Doomed(tenantId: Id, id: Id) returns (doomed: seq<Id>)
      requires Forest(byId) && Has(byId, tenantId, id)
      ensures (set x | x in doomed) == Subtree(byId, tenantId, id)
    {
      hide Cascade, Growing, Ranked, Subtree;
      ghost var rank := RankOf(byId);
      doomed := [id];
      var i := 0;
      RootDoomed(byId, tenantId, id, rank);
      while i < |doomed|
        invariant i <= |doomed| <= |byId|
        invariant Cascade(byId, tenantId, id, rank, doomed, i)
        decreases |byId| - i
      {
        doomed := Scan(tenantId, id, rank, doomed, i);
        i := i + 1;
        AtMostAll(byId, tenantId, id, rank, doomed, i);
      }
      CascadeIsSubtree(byId, tenantId, id, rank, doomed);
    }

    /** The inner loop: append the children of entry i, in whatever order the table yields them. */
    method Scan(tenantId: Id, id: Id, ghost rank: map<Id, nat>, base: seq<Id>, i: nat) returns (doomed: seq<Id>)
      requires i < |base| && Cascade(byId, tenantId, id, rank, base, i)
      ensures Cascade(byId, tenantId, id, rank, doomed, i + 1) && i < |doomed|
    {
      hide Cascade, Growing;
      var todo := byId.Keys;
      doomed := base;
      ScanStarts(byId, tenantId, id, rank, base, i);
      while todo != {}
        invariant todo <= byId.Keys && i < |doomed|
        invariant Growing(byId, tenantId, id, rank, base, doomed, i, todo)
        decreases todo
      {
        var child :| child in todo;
        GrowOne(byId, tenantId, id, rank, base, doomed, i, todo, child);
        todo := todo - {child};
        if byId[child].tenantId == tenantId && byId[child].parentId == Some(doomed[i]) {
          doomed := doomed + [child];
        }
      }
      GrownCascade(byId, tenantId, id, rank, base, doomed, i);
    }

    method Remove(tenantId: Id, id: Id) returns (removed: bool)
      requires Forest(byId)
      modifies this
      ensures removed == Has(old(byId), tenantId, id)
      ensures byId == if removed then old(byId) - Subtree(old(byId), tenantId, id) else old(byId)
      ensures forall x :: x in byId ==> x in old(byId) && byId[x] == old(byId)[x]
      ensures removed ==> forall x :: x in old(byId) ==>
        (x !in byId <==> old(byId)[x].tenantId == tenantId && Under(ParentsOf(old(byId), tenantId), x, id))
    {
      hide Forest;
      if !Has(byId, tenantId, id) {
        return false;
      }
      var doomed := Doomed(tenantId, id);
      ghost var all := byId;
      for v := 0 to |doomed|
        invariant byId == all - (set x | x in doomed[..v])
      {
        byId := byId - {doomed[v]};
        assert doomed[..v + 1] == doomed[..v] + [doomed[v]];
      }
      assert doomed[..|doomed|] == doomed;
      removed := true;
    }
  }

  // ---- The cascade ---------------------------------------------------------------------------------

  predicate IsChild(m: Table, tenantId: Id, p: Id, c: Id) {
    c in m && m[c].tenantId == tenantId && m[c].parentId == Some(p)
  }

  predicate Distinct(s: seq<Id>) { forall i, j :: 0 <= i < j < |s| ==> s[i] != s[j] }

  /** What the worklist holds: departments of the subtree, the root first, each other one below an earlier, scanned one. */
  ghost predicate Listed(m: Table, tenantId: Id, id: Id, rank: map<Id, nat>, doomed: seq<Id>, scanned: nat) {
    && Ranked(m, rank) && Closed(m) && Has(m, tenantId, id) && Distinct(doomed) && doomed != [] && doomed[0] == id
    && (forall j :: 0 <= j < |doomed| ==> Has(m, tenantId, doomed[j]) && rank[doomed[j]] >= rank[id])
    && (forall j :: 0 < j < |doomed| ==> exists l :: 0 <= l < scanned && l < |doomed| && IsChild(m, tenantId, doomed[l], doomed[j]))
  }

  /** The first i entries have been scanned: all their children are listed. */
  ghost predicate Cascade(m: Table, tenantId: Id, id: Id, rank: map<Id, nat>, doomed: seq<Id>, i: nat) {
    && Listed(m, tenantId, id, rank, doomed, i)
    && (forall l, c :: 0 <= l < i && l < |doomed| && IsChild(m, tenantId, doomed[l], c) ==> c in doomed)
  }

  /** Scanning entry i: base is the list before, and the children of entry i outside todo have been appended. */
  ghost predicate Growing(m: Table, tenantId: Id, id: Id, rank: map<Id, nat>, base: seq<Id>, doomed: seq<Id>, i: nat, todo: set<Id>) {
    && i < |base| <= |doomed| && doomed[..|base|] == base
    && Cascade(m, tenantId, id, rank, base, i)
    && Listed(m, tenantId, id, rank, doomed, i + 1)
    && (forall j :: |base| <= j < |doomed| ==> doomed[j] !in todo && IsChild(m, tenantId, doomed[i], doomed[j]))
    && (forall c :: IsChild(m, tenantId, doomed[i], c) && c !in todo ==> c in doomed)
  }

  ghost function RankOf(m: Table): (rank: map<Id, nat>)
    requires Forest(m)
    ensures Ranked(m, rank)
  {
    var rank :| Ranked(m, rank);
    rank
  }

  lemma ScanStarts(m: Table, tenantId: Id, id: Id, rank: map<Id, nat>, base: seq<Id>, i: nat)
    requires i < |base| && Cascade(m, tenantId, id, rank, base, i)
    ensures Growing(m, tenantId, id, rank, base, base, i, m.Keys)
  {}

  lemma ListedParent(m: Table, tenantId: Id, id: Id, rank: map<Id, nat>, doomed: seq<Id>, scanned: nat, j: nat) returns (l: nat)
    requires Listed(m, tenantId, id, rank, doomed, scanned) && 0 < j < |doomed|
    ensures l < scanned && l < |doomed| && IsChild(m, tenantId, doomed[l], doomed[j])
  {
    var c := doomed[j];
    var i :| 0 <= i < scanned && i < |doomed| && IsChild(m, tenantId, doomed[i], c);
    l := i;
  }

  lemma RootDoomed(m: Table, tenantId: Id, id: Id, rank: map<Id, nat>)
    requires Closed(m) && Ranked(m, rank) && Has(m, tenantId, id)
    ensures Cascade(m, tenantId, id, rank, [id], 0) && 1 <= |m|
  {}

  /** A child met while scanning entry i is not on the list yet: it would have two parents, or close a cycle. */
  lemma NotListed(m: Table, tenantId: Id, id: Id, rank: map<Id, nat>, base: seq<Id>, doomed: seq<Id>, i: nat, todo: set<Id>, child: Id)
    requires Growing(m, tenantId, id, rank, base, doomed, i, todo) && child in todo && IsChild(m, tenantId, doomed[i], child)
    ensures child !in doomed
  {}

  lemma GrowOne(m: Table, tenantId: Id, id: Id, rank: map<Id, nat>, base: seq<Id>, doomed: seq<Id>, i: nat, todo: set<Id>, child: Id)
    requires Growing(m, tenantId, id, rank, base, doomed, i, todo) && child in todo && todo <= m.Keys
    ensures var doomed' := if IsChild(m, tenantId, doomed[i], child) then doomed + [child] else doomed;
      Growing(m, tenantId, id, rank, base, doomed', i, todo - {child})
  {
    if IsChild(m, tenantId, doomed[i], child) {
      NotListed(m, tenantId, id, rank, base, doomed, i, todo, child);
      var doomed' := doomed + [child];
      assert doomed'[..|base|] == base;
      ListedGrows(m, tenantId, id, rank, doomed, i, child);
    }
  }

  lemma ListedGrows(m: Table, tenantId: Id, id: Id, rank: map<Id, nat>, doomed: seq<Id>, i: nat, child: Id)
    requires Listed(m, tenantId, id, rank, doomed, i + 1) && i < |doomed| && child !in doomed && IsChild(m, tenantId, doomed[i], child)
    ensures Listed(m, tenantId, id, rank, doomed + [child], i + 1)
  {
    var d := doomed + [child];
    assert doomed[i] in m && rank[doomed[i]] < rank[child] by { assert doomed[i] != "" ; }
    forall j | 0 < j < |d|
      ensures exists l :: 0 <= l < i + 1 && l < |d| && IsChild(m, tenantId, d[l], d[j])
    {
      if j < |doomed| {
        var l :| 0 <= l < i + 1 && l < |doomed| && IsChild(m, tenantId, doomed[l], doomed[j]);
        assert d[l] == doomed[l] && d[j] == doomed[j];
      } else {
        assert IsChild(m, tenantId, d[i], d[j]);
      }
    }
  }

  lemma GrownCascade(m: Table, tenantId: Id, id: Id, rank: map<Id, nat>, base: seq<Id>, doomed: seq<Id>, i: nat)
    requires Growing(m, tenantId, id, rank, base, doomed, i, {})
    ensures Cascade(m, tenantId, id, rank, doomed, i + 1)
  {
    forall l, c | 0 <= l < i + 1 && l < |doomed| && IsChild(m, tenantId, doomed[l], c)
      ensures c in doomed
    {
      if l < i {
        assert doomed[l] == base[l];
        assert c in base;
        var j :| 0 <= j < |base| && base[j] == c;
        assert doomed[j] == c;
      }
    }
  }

  lemma AtMostAll(m: Table, tenantId: Id, id: Id, rank: map<Id, nat>, doomed: seq<Id>, i: nat)
    requires Cascade(m, tenantId, id, rank, doomed, i)
    ensures |doomed| <= |m|
  {
    DistinctSize(doomed);
    var s := set x | x in doomed;
    assert s <= m.Keys;
    assert m.Keys == s + (m.Keys - s);
  }

  lemma {:induction false} DistinctSize(s: seq<Id>)
    requires Distinct(s)
    ensures |set x | x in s| == |s|
  {
    if s != [] {
      var init, l := s[..|s| - 1], s[|s| - 1];
      DistinctSize(init);
      assert s == init + [l];
      assert (set x | x in s) == (set x | x in init) + {l};
    }
  }

  /** A finished scan lists exactly the subtree. */
  lemma CascadeIsSubtree(m: Table, tenantId: Id, id: Id, rank: map<Id, nat>, doomed: seq<Id>)
    requires Cascade(m, tenantId, id, rank, doomed, |doomed|)
    ensures (set x | x in doomed) == Subtree(m, tenantId, id)
  {
    var ps := ParentsOf(m, tenantId);
    forall j | 0 <= j < |doomed|
      ensures doomed[j] in Subtree(m, tenantId, id)
    {
      ListedIsUnder(m, tenantId, id, rank, doomed, j);
    }
    forall x | x in Subtree(m, tenantId, id)
      ensures x in doomed
    {
      var k: nat :| Up(ps, x, k) == Some(id);
      UnderIsListed(m, tenantId, id, rank, doomed, x, k);
    }
  }

  lemma {:induction false} ListedIsUnder(m: Table, tenantId: Id, id: Id, rank: map<Id, nat>, doomed: seq<Id>, j: nat)
    requires Cascade(m, tenantId, id, rank, doomed, |doomed|) && j < |doomed|
    ensures Under(ParentsOf(m, tenantId), doomed[j], id)
    decreases rank[doomed[j]]
  {
    var ps := ParentsOf(m, tenantId);
    if j == 0 {
      assert Up(ps, id, 0) == Some(id);
    } else {
      var l := ListedParent(m, tenantId, id, rank, doomed, |doomed|, j);
      assert doomed[l] != "";
      ListedIsUnder(m, tenantId, id, rank, doomed, l);
      var k: nat :| Up(ps, doomed[l], k) == Some(id);
      assert Up(ps, doomed[j], k + 1) == Some(id);
    }
  }

  lemma {:induction false} UnderIsListed(m: Table, tenantId: Id, id: Id, rank: map<Id, nat>, doomed: seq<Id>, x: Id, k: nat)
    requires Cascade(m, tenantId, id, rank, doomed, |doomed|) && Has(m, tenantId, x) && Up(ParentsOf(m, tenantId), x, k) == Some(id)
    ensures x in doomed
    decreases k
  {
    if k > 0 {
      var p := m[x].parentId.value;
      UnderIsListed(m, tenantId, id, rank, doomed, p, k - 1);
      assert IsChild(m, tenantId, p, x);
    }
  }

  // ---- Every operation keeps a forest --------------------------------------------------------------

  lemma CreateKeepsForest(m: Table, tenantId: Id, name: string, parentId: Option<Id>, freshId: Id)
    requires Forest(m) && freshId !in m && freshId != "" && CreateOutcome(m, tenantId, parentId) == Done
    ensures Forest(m[freshId := OrgUnit(tenantId, name, parentId)])
  {
    var rank :| Ranked(m, rank);
    var m' := m[freshId := OrgUnit(tenantId, name, parentId)];
    var r := if NoParent(parentId) then 0 else rank[parentId.value] + 1;
    assert Ranked(m', rank[freshId := r]);
  }

  lemma UnderChild(m: Table, tenantId: Id, c: Id, id: Id)
    requires Has(m, tenantId, c) && !NoParent(m[c].parentId) && c != id
    ensures Under(ParentsOf(m, tenantId), c, id) <==> Under(ParentsOf(m, tenantId), m[c].parentId.value, id)
  {
    var ps, p := ParentsOf(m, tenantId), m[c].parentId.value;
    if Under(ps, c, id) {
      var k: nat :| Up(ps, c, k) == Some(id);
      assert Up(ps, p, k - 1) == Some(id);
    }
    if Under(ps, p, id) {
      var k: nat :| Up(ps, p, k) == Some(id);
      assert Up(ps, c, k + 1) == Some(id);
    }
  }

  /** The move lifts the ranks of the moved subtree above its new parent. */
  ghost function Lifted(m: Table, rank: map<Id, nat>, tenantId: Id, id: Id, lift: nat): map<Id, nat>
    requires forall x :: x in m ==> x in rank
  {
    map x | x in m :: if m[x].tenantId == tenantId && Under(ParentsOf(m, tenantId), x, id) then rank[x] + lift else rank[x]
  }

  lemma MoveKeepsForest(m: Table, tenantId: Id, id: Id, name: string, p: Id)
    requires Forest(m) && Has(m, tenantId, id) && Has(m, tenantId, p) && !Under(ParentsOf(m, tenantId), p, id)
    ensures Forest(m[id := OrgUnit(tenantId, name, Some(p))])
  {
    var rank :| Ranked(m, rank);
    var m' := m[id := OrgUnit(tenantId, name, Some(p))];
    var lifted := Lifted(m, rank, tenantId, id, rank[p] + 1);
    assert Up(ParentsOf(m, tenantId), id, 0) == Some(id);
    forall c | c in m' && !NoParent(m'[c].parentId) && m'[c].parentId.value in m'
      ensures lifted[m'[c].parentId.value] < lifted[c]
    {
      if c != id {
        var q := m[c].parentId.value;
        assert rank[q] < rank[c];
        if m[c].tenantId == tenantId {
          UnderChild(m, tenantId, c, id);
        }
      }
    }
    assert Ranked(m', lifted);
  }

  lemma PatchKeepsForest(m: Table, tenantId: Id, id: Id, name: Patch<string>, parentId: Patch<Option<Id>>)
    requires Forest(m) && UpdateOutcome(m, tenantId, id, parentId) == Done
    ensures Forest(m[id := Patched(m[id], name, parentId)])
  {
    if parentId.Put? && parentId.value.Some? {
      MoveKeepsForest(m, tenantId, id, Patched(m[id], name, parentId).name, parentId.value.value);
    } else {
      var rank :| Ranked(m, rank);
      assert Ranked(m[id := Patched(m[id], name, parentId)], rank);
    }
  }

  // ---- What a move does --------------------------------------------------------------------------------

  /** m' is m with the parent of one department of the tenant set to p, and perhaps another name. */
  predicate Moved(m: Table, m': Table, tenantId: Id, id: Id, p: Id) {
    && id in m && m[id].tenantId == tenantId && p != "" && m'.Keys == m.Keys
    && (forall x :: x in m && x != id ==> m'[x] == m[x])
    && m'[id].tenantId == tenantId && m'[id].parentId == Some(p)
  }

  /** Outside the moved subtree every chain of parents is as it was. */
  lemma {:induction false} OutsideStays(m: Table, m': Table, tenantId: Id, id: Id, p: Id, x: Id, k: nat)
    requires Moved(m, m', tenantId, id, p) && !Under(ParentsOf(m, tenantId), x, id)
    ensures Up(ParentsOf(m', tenantId), x, k) == Up(ParentsOf(m, tenantId), x, k)
    decreases k
  {
    var ps := ParentsOf(m, tenantId);
    assert Up(ps, x, 0) == Some(x);
    if k > 0 && x in ps && !NoParent(ps[x]) {
      if Under(ps, ps[x].value, id) {
        var j: nat :| Up(ps, ps[x].value, j) == Some(id);
        assert Up(ps, x, j + 1) == Some(id);
      }
      OutsideStays(m, m', tenantId, id, p, ps[x].value, k - 1);
    }
  }

  /** Inside it, the chain is as it was up to the moved department, and goes on from the new parent. */
  lemma {:induction false} InsideMoves(m: Table, m': Table, tenantId: Id, id: Id, p: Id, x: Id, n: nat) returns (k: nat)
    requires Moved(m, m', tenantId, id, p) && !Under(ParentsOf(m, tenantId), p, id)
    requires Up(ParentsOf(m, tenantId), x, n) == Some(id)
    ensures Up(ParentsOf(m, tenantId), x, k) == Some(id)
    ensures forall j: nat :: j <= k ==> Up(ParentsOf(m', tenantId), x, j) == Up(ParentsOf(m, tenantId), x, j)
    ensures forall j: nat :: Up(ParentsOf(m', tenantId), x, k + 1 + j) == Up(ParentsOf(m, tenantId), p, j)
    decreases n
  {
    var ps, ps' := ParentsOf(m, tenantId), ParentsOf(m', tenantId);
    if x == id {
      k := 0;
      forall j: nat ensures Up(ps', x, 1 + j) == Up(ps, p, j) {
        OutsideStays(m, m', tenantId, id, p, p, j);
      }
    } else {
      var q := ps[x].value;
      var i := InsideMoves(m, m', tenantId, id, p, q, n - 1);
      k := i + 1;
      forall j: nat | j <= k ensures Up(ps', x, j) == Up(ps, x, j) {
        if j > 0 { assert Up(ps', q, j - 1) == Up(ps, q, j - 1); }
      }
      forall j: nat ensures Up(ps', x, k + 1 + j) == Up(ps, p, j) {
        assert Up(ps', q, i + 1 + j) == Up(ps, p, j);
      }
    }
  }

  /** A move moves: everything of the subtree is under the new parent afterwards, and nothing else changes its place. */
  lemma MoveMoves(m: Table, m': Table, tenantId: Id, id: Id, p: Id, x: Id)
    requires Moved(m, m', tenantId, id, p) && !Under(ParentsOf(m, tenantId), p, id)
    ensures Under(ParentsOf(m, tenantId), x, id) ==> Under(ParentsOf(m', tenantId), x, id) && Under(ParentsOf(m', tenantId), x, p)
    ensures !Under(ParentsOf(m, tenantId), x, id) ==>
      forall y :: Under(ParentsOf(m', tenantId), x, y) <==> Under(ParentsOf(m, tenantId), x, y)
  {
    var ps, ps' := ParentsOf(m, tenantId), ParentsOf(m', tenantId);
    if Under(ps, x, id) {
      var n: nat :| Up(ps, x, n) == Some(id);
      var k := InsideMoves(m, m', tenantId, id, p, x, n);
      assert Up(ps', x, k) == Some(id);
      assert Up(ps, p, 0) == Some(p);
      assert Up(ps', x, k + 1 + 0) == Some(p);
    } else {
      forall k: nat ensures Up(ps', x, k) == Up(ps, x, k) { OutsideStays(m, m', tenantId, id, p, x, k); }
    }
  }

  lemma RemoveKeepsForest(m: Table, tenantId: Id, id: Id)
    requires Forest(m) && Has(m, tenantId, id)
    ensures Forest(m - Subtree(m, tenantId, id))
  {
    var rank :| Ranked(m, rank);
    var m' := m - Subtree(m, tenantId, id);
    assert Ranked(m', rank);
    forall c | c in m' && !NoParent(m'[c].parentId)
      ensures Has(m', m'[c].tenantId, m'[c].parentId.value)
    {
      assert Up(ParentsOf(m, tenantId), id, 0) == Some(id);
      if m[c].tenantId == tenantId && c != id {
        UnderChild(m, tenantId, c, id);
      }
    }
  }

  datatype Op =
    | Create(tenantId: Id, name: string, parentId: Option<Id>, freshId: Id)
    | Update(tenantId: Id, id: Id, newName: Patch<string>, newParent: Patch<Option<Id>>)
    | Remove(tenantId: Id, id: Id)

  /** One service call, taken as one step; a create happens only with an id that is new. */
  ghost function Apply(m: Table, op: Op): Table {
    match op
    case Create(t, name, parent, freshId) =>
      if freshId !in m && freshId != "" && CreateOutcome(m, t, parent) == Done then m[freshId := OrgUnit(t, name, parent)] else m
    case Update(t, id, name, parent) =>
      if UpdateOutcome(m, t, id, parent) == Done then m[id := Patched(m[id], name, parent)] else m
    case Remove(t, id) =>
      if Has(m, t, id) then m - Subtree(m, t, id) else m
  }

  ghost function After(ops: seq<Op>): Table {
    if ops == [] then map[] else Apply(After(ops[..|ops| - 1]), ops[|ops| - 1])
  }

  /** Every sequence of create, move, rename and delete keeps the links a forest, in-tenant and non-dangling. */
  lemma {:induction false} AlwaysForest(ops: seq<Op>)
    ensures Forest(After(ops))
  {
    hide Forest, UpdateOutcome, CreateOutcome, Patched, Subtree, Has;
    if ops == [] {
      EmptyForest();
    } else {
      var m, op := After(ops[..|ops| - 1]), ops[|ops| - 1];
      AlwaysForest(ops[..|ops| - 1]);
      match op {
        case Create(t, name, parent, freshId) =>
          if freshId !in m && freshId != "" && CreateOutcome(m, t, parent) == Done {
            CreateKeepsForest(m, t, name, parent, freshId);
          }
        case Update(t, id, name, parent) =>
          if UpdateOutcome(m, t, id, parent) == Done {
            PatchKeepsForest(m, t, id, name, parent);
          }
        case Remove(t, id) =>
          if Has(m, t, id) {
            RemoveKeepsForest(m, t, id);
          }
      }
    }
  }

  /** So in every run each link is empty or names a department of the same tenant, and no chain of links comes back. */
  lemma LinksAreSound(ops: seq<Op>, x: Id, k: nat)
    requires x in After(ops) && k > 0
    ensures var m := After(ops); var u := m[x];
      && (u.parentId == None || u.parentId == Some("") ||
          (u.parentId.value in m && m[u.parentId.value].tenantId == u.tenantId))
      && Up(ParentsOf(m, u.tenantId), x, k) != Some(x)
  {
    hide After;
    AlwaysForest(ops);
    NoCycles(After(ops), After(ops)[x].tenantId, x, k);
  }

  lemma EmptyForest()
    ensures Forest(map[])
  {
    assert Ranked(map[], map[]);
  }

  // ---- Agreement with the graph search -----------------------------------------------------------------

  /** units is what repo.list(tenantId) returns, in any order. */
  predicate ListOf(units: seq<OrgNode>, m: Table, tenantId: Id) { Tabulates(units, ParentsOf(m, tenantId)) }

  /** The move is refused as a cycle by the up-walk exactly when wouldCreateCycle says so. */
  lemma WalkAgreesWithSearch(m: Table, units: seq<OrgNode>, tenantId: Id, id: Id, p: Id)
    requires ListOf(units, m, tenantId) && Has(m, tenantId, id) && Has(m, tenantId, p)
    ensures UpdateOutcome(m, tenantId, id, Put(Some(p))) == BadRequest <==> Reachable(units, id, p)
  {
    ReachableIsUnder(units, ParentsOf(m, tenantId), id, p);
    if p == id {
      assert Up(ParentsOf(m, tenantId), p, 0) == Some(id);
    }
  }

  /** The cascade deletes exactly the departments descendantIds returns. */
  lemma CascadeAgreesWithSearch(m: Table, units: seq<OrgNode>, tenantId: Id, id: Id)
    requires ListOf(units, m, tenantId) && Has(m, tenantId, id)
    ensures forall x :: x in Subtree(m, tenantId, id) <==> Reachable(units, id, x)
  {
    forall x
      ensures x in Subtree(m, tenantId, id) <==> Reachable(units, id, x)
    {
      var ps := ParentsOf(m, tenantId);
      ReachableIsUnder(units, ps, id, x);
      if Under(ps, x, id) {
        var k: nat :| Up(ps, x, k) == Some(id);
        if k > 0 {
          assert x in ps;
        }
      }
    }
  }

  /** The hop after n steps of the walk: the n-th ancestor, or the empty link that ended it. */
  ghost function UpParent(ps: Parents, x: Id, n: nat): Option<Id>
    decreases n
  {
    if n == 0 then Some(x)
    else var h := UpParent(ps, x, n - 1); if !NoParent(h) && h.value in ps then ps[h.value] else None
  }

  lemma {:induction false} UpParentStep(ps: Parents, x: Id, n: nat)
    requires !NoParent(UpParent(ps, x, n))
    ensures UpParent(ps, x, n) == Up(ps, x, n)
    decreases n
  {
    if n > 0 {
      UpParentStep(ps, x, n - 1);
      UpSnoc(ps, x, n - 1);
    }
  }

  lemma {:induction false} UpSnoc(ps: Parents, x: Id, n: nat)
    ensures Up(ps, x, n + 1) == match Up(ps, x, n)
      case None => None
      case Some(y) => if y in ps && !NoParent(ps[y]) then ps[y] else None
    decreases n
  {
    if n > 0 && x in ps && !NoParent(ps[x]) {
      UpSnoc(ps, ps[x].value, n - 1);
    }
  }

  lemma {:induction false} UpEnds(ps: Parents, x: Id, n: nat, k: nat)
    requires Up(ps, x, n) == None && n <= k
    ensures Up(ps, x, k) == None
    decreases k
  {
    if n < k {
      UpEnds(ps, x, n, k - 1);
      UpSnoc(ps, x, k - 1);
    }
  }

  lemma WalkEnds(ps: Parents, x: Id, n: nat, id: Id)
    requires x != "" && NoParent(UpParent(ps, x, n)) && forall k: nat :: k < n ==> Up(ps, x, k) != Some(id)
    ensures !Under(ps, x, id)
  {
    var j: nat := 0;
    while !NoParent(UpParent(ps, x, j))
      invariant j <= n && (j > 0 ==> !NoParent(UpParent(ps, x, j - 1)))
      decreases n - j
    {
      j := j + 1;
    }
    UpParentStep(ps, x, j - 1);
    UpSnoc(ps, x, j - 1);
    forall k: nat
      ensures Up(ps, x, k) != Some(id)
    {
      if j <= k {
        UpEnds(ps, x, j, k);
      }
    }
  }
}
