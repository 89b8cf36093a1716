/** The graph search over departments (org.ts). The input may be any list: duplicates, danglers and cycles included. */
module Org {
  import opened Bytes

  type Id = string

  datatype OrgNode = OrgNode(id: Id, parentId: Option<Id>)

  /** JavaScript's !parentId: null and the empty string both mean no parent. */
  predicate NoParent(p: Option<Id>) { p == None || p == Some("") }

  predicate Edge(units: seq<OrgNode>, p: Id, c: Id) { p != "" && OrgNode(c, Some(p)) in units }

  /** x is reached from root by following k edges from parent to child. */
  ghost predicate Path(units: seq<OrgNode>, root: Id, x: Id, k: nat)
    decreases k
  {
    if k == 0 then x == root else exists y :: Edge(units, y, x) && Path(units, root, y, k - 1)
  }

  ghost predicate Reachable(units: seq<OrgNode>, root: Id, x: Id) { exists k: nat :: Path(units, root, x, k) }

  predicate Lists(m: map<Id, seq<Id>>, units: seq<OrgNode>) {
    && (forall p, c :: p in m && c in m[p] ==> Edge(units, p, c))
    && (forall n :: n in units && !NoParent(n.parentId) ==> n.parentId.value in m && n.id in m[n.parentId.value])
  }

  method ChildrenMap(units: seq<OrgNode>) returns (m: map<Id, seq<Id>>)
    ensures Lists(m, units)
  {
    m := map[];
    for i := 0 to |units|
      invariant Lists(m, units[..i])
    {
      var u := units[i];
      assert units[..i + 1] == units[..i] + [u];
      if !NoParent(u.parentId) {
        var p := u.parentId.value;
        var arr := if p in m then m[p] else [];
        ghost var old' := m;
        m := m[p := arr + [u.id]];
        assert Lists(m, units[..i + 1]) by { ListsAdd(old', units[..i], u); }
      }
    }
    assert units[..|units|] == units;
  }

  lemma ListsAdd(m: map<Id, seq<Id>>, units: seq<OrgNode>, u: OrgNode)
    requires Lists(m, units) && !NoParent(u.parentId)
    ensures var p := u.parentId.value;
      Lists(m[p := (if p in m then m[p] else []) + [u.id]], units + [u])
  {}

  function IdsOf(units: seq<OrgNode>): set<Id> { set n | n in units :: n.id }

  /** A set that holds root and follows every edge holds everything reachable. */
  lemma {:induction false} ClosedHolds(units: seq<OrgNode>, root: Id, out: set<Id>, x: Id, k: nat)
    requires root in out && (forall p, c :: p in out && Edge(units, p, c) ==> c in out)
    requires Path(units, root, x, k)
    ensures x in out
    decreases k
  {
    if k > 0 {
      var y :| Edge(units, y, x) && Path(units, root, y, k - 1);
      ClosedHolds(units, root, out, y, k - 1);
    }
  }

  lemma ReachStep(units: seq<OrgNode>, root: Id, y: Id, x: Id)
    requires Reachable(units, root, y) && Edge(units, y, x)
    ensures Reachable(units, root, x)
  {
    var k: nat :| Path(units, root, y, k);
    assert Path(units, root, x, k + 1);
  }

  lemma ReachSelf(units: seq<OrgNode>, root: Id)
    ensures Reachable(units, root, root)
  {
    assert Path(units, root, root, 0);
  }

  /** descendantIds: exactly the reachable ids, on any input; the visited check makes it end even on a cycle. */
  method DescendantIds(units: seq<OrgNode>, rootId: Id) returns (out: set<Id>)
    ensures forall x :: x in out <==> Reachable(units, rootId, x)
  {
    hide Path, Reachable, Edge;
    var children := ChildrenMap(units);
    out := {};
    var stack := [rootId];
    ReachSelf(units, rootId);
    ghost var universe := IdsOf(units) + {rootId};
    while stack != []
      invariant forall x :: x in stack ==> x in universe && Reachable(units, rootId, x)
      invariant forall x :: x in out ==> x in universe && Reachable(units, rootId, x)
      invariant rootId in out || rootId in stack
      invariant forall p, c :: p in out && Edge(units, p, c) ==> c in out || c in stack
      decreases |universe - out|, |stack|
    {
      var id := stack[|stack| - 1];
      ghost var stack0, out0 := stack, out;
      stack := stack[..|stack| - 1];
      assert stack0 == stack + [id];
      if id !in out {
        out := out + {id};
        assert universe - out < universe - out0 by { assert id in universe - out0; }
        SubsetSmaller(universe - out, universe - out0);
        var cs := if id in children then children[id] else [];
        EdgesOf(children, units, rootId, id, cs);
        stack := PushAll(stack, cs);
      }
    }
    forall x | Reachable(units, rootId, x)
      ensures x in out
    {
      AllReached(units, rootId, out, x);
    }
  }

  method PushAll(stack: seq<Id>, cs: seq<Id>) returns (r: seq<Id>)
    ensures r == stack + cs
  {
    r := stack;
    for i := 0 to |cs|
      invariant r == stack + cs[..i]
    {
      r := r + [cs[i]];
    }
    assert cs[..|cs|] == cs;
  }

  lemma EdgesOf(children: map<Id, seq<Id>>, units: seq<OrgNode>, root: Id, id: Id, cs: seq<Id>)
    requires Lists(children, units) && cs == (if id in children then children[id] else []) && Reachable(units, root, id)
    ensures forall c :: c in cs <==> Edge(units, id, c)
    ensures forall c :: c in cs ==> c in IdsOf(units) && Reachable(units, root, c)
  {
    forall c | c in cs
      ensures Edge(units, id, c) && c in IdsOf(units) && Reachable(units, root, c)
    {
      assert OrgNode(c, Some(id)) in units;
      ReachStep(units, root, id, c);
    }
    forall c | Edge(units, id, c)
      ensures c in cs
    {
      var n := OrgNode(c, Some(id));
      assert n in units && !NoParent(n.parentId);
    }
  }

  lemma AllReached(units: seq<OrgNode>, root: Id, out: set<Id>, x: Id)
    requires root in out && (forall p, c :: p in out && Edge(units, p, c) ==> c in out)
    requires Reachable(units, root, x)
    ensures x in out
  {
    var k: nat :| Path(units, root, x, k);
    ClosedHolds(units, root, out, x, k);
  }

  lemma SubsetSmaller(a: set<Id>, b: set<Id>)
    requires a < b
    ensures |a| < |b|
  {
    assert b == a + (b - a);
    assert b - a != {};
  }

  method WouldCreateCycle(units: seq<OrgNode>, nodeId: Id, newParentId: Option<Id>) returns (cycle: bool)
    ensures cycle == (newParentId.Some? && Reachable(units, nodeId, newParentId.value))
  {
    if newParentId == None {
      return false;
    }
    if newParentId.value == nodeId {
      ReachSelf(units, nodeId);
      return true;
    }
    var below := DescendantIds(units, nodeId);
    cycle := newParentId.value in below;
  }

  // ---- The same relation, walked upwards ----------------------------------------------------

  type Parents = map<Id, Option<Id>>

  /** The k-th ancestor of x, if the walk up the parent links gets that far. */
  function Up(ps: Parents, x: Id, k: nat): Option<Id>
    decreases k
  {
    if k == 0 then Some(x)
    else if x in ps && !NoParent(ps[x]) then Up(ps, ps[x].value, k - 1)
    else None
  }

  /** The chain of parents that starts at x passes through root. */
  ghost predicate Under(ps: Parents, x: Id, root: Id) { exists k: nat :: Up(ps, x, k) == Some(root) }

  /** units is the list of a department table with these parent links. */
  predicate Tabulates(units: seq<OrgNode>, ps: Parents) {
    && (forall n :: n in units ==> n.id in ps && ps[n.id] == n.parentId)
    && (forall id :: id in ps ==> OrgNode(id, ps[id]) in units)
  }

  lemma {:induction false} PathIsUp(units: seq<OrgNode>, ps: Parents, root: Id, x: Id, k: nat)
    requires Tabulates(units, ps)
    ensures Path(units, root, x, k) <==> Up(ps, x, k) == Some(root)
    decreases k
  {
    if k > 0 {
      if x in ps && !NoParent(ps[x]) {
        var p := ps[x].value;
        assert Edge(units, p, x);
        PathIsUp(units, ps, root, p, k - 1);
        assert forall y :: Edge(units, y, x) ==> y == p;
      } else {
        assert forall y :: !Edge(units, y, x);
      }
    }
  }

  /** Searching down from root and walking up from x are the same relation. */
  lemma ReachableIsUnder(units: seq<OrgNode>, ps: Parents, root: Id, x: Id)
    requires Tabulates(units, ps)
    ensures Reachable(units, root, x) <==> Under(ps, x, root)
  {
    if Reachable(units, root, x) {
      var k: nat :| Path(units, root, x, k);
      PathIsUp(units, ps, root, x, k);
    }
    if Under(ps, x, root) {
      var k: nat :| Up(ps, x, k) == Some(root);
      PathIsUp(units, ps, root, x, k);
    }
  }
}
