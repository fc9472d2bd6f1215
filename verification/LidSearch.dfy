/** Finding the port that holds a LID, in the two-level map and in the ordered map
    (Topology/search.c:90-129; IbAccess/Common/Public/iquickmap.c:400-427). */
module LidSearch {
  import opened Options
  import opened LidIndex
  import opened LidTable

  /** The ordered map's search tree; an item's key is its LID. */
  datatype Tree = Nil | Item(left: Tree, port: PortData, right: Tree)

  ghost function Ports(t: Tree): set<PortData> {
    match t
    case Nil => {}
    case Item(l, p, r) => Ports(l) + {p} + Ports(r)
  }

  ghost predicate Ordered(t: Tree) {
    match t
    case Nil => true
    case Item(l, p, r) =>
      && Ordered(l) && Ordered(r)
      && (forall q :: q in Ports(l) ==> q.lid < p.lid) && (forall q :: q in Ports(r) ==> p.lid < q.lid)
  }

  /** Compare a LID with a port's range. */
  function CompareLid(p: PortData, lid: nat): int {
    if LastLid(p) < lid then -1 else if p.lid > lid then 1 else 0
  }

  /** The tree holds just the ports of the table. */
  ghost predicate Mirrors(t: Tree, e: Entries) {
    Ordered(t) && Ports(t) == e.Values
  }

  method FindLidInMap(t: Tree, lid: nat, ghost e: Entries) returns (r: Option<PortData>)
    requires Mirrors(t, e) && WholeRanges(e)
    ensures r == At(e, lid)
  {
    hide LastLid;
    var item := t;
    while item.Item?
      invariant Ordered(item) && Ports(item) <= Ports(t)
      invariant lid in e ==> e[lid] in Ports(item)
      decreases item
    {
      var c := CompareLid(item.port, lid);
      if c == 0 {
        Found(e, item.port, lid);
        return Some(item.port);
      }
      if lid in e {
        Elsewhere(e, item.port, lid);
      }
      item := if c > 0 then item.left else item.right;
    }
    return None;
  }

  lemma {:induction false} Found(e: Entries, p: PortData, lid: nat)
    requires WholeRanges(e) && p in e.Values && CompareLid(p, lid) == 0
    ensures At(e, lid) == Some(p)
  {
    hide LastLid;
    var l :| l in e && e[l] == p;
    assert OwnsWhole(e, p) && Owns(p, lid);
  }

  /** The holder of a LID lies on the side of another port the comparison points to. */
  lemma {:induction false} Elsewhere(e: Entries, p: PortData, lid: nat)
    requires WholeRanges(e) && lid in e && p in e.Values && CompareLid(p, lid) != 0
    ensures CompareLid(p, lid) > 0 ==> e[lid].lid < p.lid
    ensures CompareLid(p, lid) < 0 ==> p.lid < e[lid].lid
  {
    hide LastLid;
    var l :| l in e && e[l] == p;
    assert OwnsWhole(e, p) && Owns(p, p.lid);
    assert OwnsWhole(e, e[lid]) && Owns(e[lid], lid);
    if e[lid].lid <= p.lid <= LastLid(e[lid]) {
      assert Owns(e[lid], p.lid);
    }
  }

  /** In the two-level map. */
  method FindLidInArray(m: LidMap, lid: nat) returns (r: Option<PortData>)
    requires m.Valid()
    ensures r == At(m.entries, lid)
  {
    var p := m.GetMapEntry(lid);
    return if p == null then None else Some(p);
  }
}
