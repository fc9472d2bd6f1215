/** Adding ports to nodes, and finding ports by LID (Topology/fabricdata.c:1009-1078;
    Topology/search.c:90-129; IbAccess/Common/Public/iquickmap.c:400-427). */
module LidPorts {
  import opened Options
  import opened LidIndex
  import opened LidTable

  datatype PortRecord = PortRecord(portNum: nat, localPortNum: nat, lid: nat, lmc: Lmc, state: PortState)

  class NodeData {
    const isSwitch: bool
    var ports: map<nat, PortData>

    constructor (isSwitch: bool)
      ensures this.isSwitch == isSwitch && ports == map[]
    {
      this.isSwitch, ports := isSwitch, map[];
    }

    function NumOf(rec: PortRecord): nat {
      if isSwitch then rec.portNum else rec.localPortNum
    }

    /** Only port 0 of a switch has a GUID. */
    function GuidOf(guid: nat, rec: PortRecord): nat {
      if isSwitch && rec.portNum != 0 then 0 else guid
    }

    predicate IsPortZero(rec: PortRecord) {
      isSwitch && rec.portNum == 0
    }

    /** The port asks for LIDs. With down ports in the data, those without a LID do not. */
    predicate Asks(guid: nat, rec: PortRecord, downPortInfo: bool) {
      (!downPortInfo || rec.lid != 0) && GuidOf(guid, rec) != 0 && Eligible(rec.state, IsPortZero(rec))
    }
  }

  /** An adapter's port goes by its local number and asks for LIDs when up or dormant. Of a switch's
      ports only port 0 asks, unless it is down. */
  lemma AsksIff(n: NodeData, guid: nat, rec: PortRecord, downPortInfo: bool)
    ensures !n.isSwitch ==>
              && n.NumOf(rec) == rec.localPortNum && n.GuidOf(guid, rec) == guid
              && (n.Asks(guid, rec, downPortInfo)
                  <==> guid != 0 && (rec.state == Up || rec.state == Dormant) && !(downPortInfo && rec.lid == 0))
    ensures n.isSwitch ==>
              && n.NumOf(rec) == rec.portNum && (rec.portNum == 0 ==> n.GuidOf(guid, rec) == guid)
              && (n.Asks(guid, rec, downPortInfo)
                  <==> guid != 0 && rec.portNum == 0 && rec.state != Down && !(downPortInfo && rec.lid == 0))
  {
  }

  ghost predicate RangeTaken(e: Entries, lid: nat, lmc: Lmc) {
    exists l :: l in e && lid <= l <= LastOf(lid, lmc)
  }

  /** Add a port to a node, with its LIDs. If the number or a LID is taken nothing changes. */
  method NodeDataAddPort(t: LidTable, n: NodeData, guid: nat, rec: PortRecord, downPortInfo: bool) returns (p: PortData?)
    requires t.Valid()
    requires n.Asks(guid, rec, downPortInfo) ==> rec.lid != 0 && rec.lid % Size(rec.lmc) == 0
    modifies n, t`lidCount, t.lidMap, t.lidMap.blocks, t.lidMap.pages
    ensures t.Valid() && fresh(t.lidMap.pages - old(t.lidMap.pages))
    ensures p == null <==> n.NumOf(rec) in old(n.ports)
                           || (n.Asks(guid, rec, downPortInfo)
                               && (rec.lid > LID_MAX || RangeTaken(old(t.lidMap.entries), rec.lid, rec.lmc)))
    ensures p == null ==> n.ports == old(n.ports) && t.lidMap.entries == old(t.lidMap.entries) && t.lidCount == old(t.lidCount)
    ensures p != null ==>
              && fresh(p) && p.guid == n.GuidOf(guid, rec) && p.lid == rec.lid && p.lmc == rec.lmc && p.state == rec.state
              && n.ports == old(n.ports)[n.NumOf(rec) := p]
              && if n.Asks(guid, rec, downPortInfo) then IsAdded(old(t.lidMap.entries), p, t.lidMap.entries)
                 else t.lidMap.entries == old(t.lidMap.entries)
  {
    hide LidMap.Valid, Sound, IsAdded, Size, LastOf, RangeTaken;
    var num := n.NumOf(rec);
    p := new PortData(n.GuidOf(guid, rec), rec.lid, rec.lmc, n.IsPortZero(rec), rec.state);
    if num in n.ports {
      return null;
    }
    n.ports := n.ports[num := p];
    if !downPortInfo || p.lid != 0 {
      var added := AddNew(t, p);
      if !added {
        n.ports := n.ports - {num};
        return null;
      }
    }
  }

  /** Add a port that is not in the table. */
  method AddNew(t: LidTable, p: PortData) returns (added: bool)
    requires t.Valid() && forall l :: l in t.lidMap.entries ==> t.lidMap.entries[l] != p
    requires p.guid != 0 && Eligible(p.state, p.switchPort0) ==> p.lid != 0 && Aligned(p)
    modifies t`lidCount, t.lidMap, t.lidMap.blocks, t.lidMap.pages
    ensures t.Valid() && fresh(t.lidMap.pages - old(t.lidMap.pages))
    ensures added <==> !(p.guid != 0 && Eligible(p.state, p.switchPort0)
                         && (p.lid > LID_MAX || RangeTaken(old(t.lidMap.entries), p.lid, p.lmc)))
    ensures if added && p.guid != 0 && Eligible(p.state, p.switchPort0) then IsAdded(old(t.lidMap.entries), p, t.lidMap.entries)
            else t.lidMap.entries == old(t.lidMap.entries) && t.lidCount == old(t.lidCount)
  {
    hide LidMap.Valid, Sound, IsAdded, Size, LastOf, Contested, RangeTaken;
    NewContested(t.lidMap.entries, p);
    var status := t.AllLidsAdd(p, false);
    added := status == Success;
  }

  /** A port not in the table contests its range exactly when some of it is taken. */
  lemma {:induction false} NewContested(e: Entries, p: PortData)
    requires forall l :: l in e ==> e[l] != p
    ensures Contested(e, p) <==> RangeTaken(e, p.lid, p.lmc)
  {
    if RangeTaken(e, p.lid, p.lmc) {
      var l :| l in e && p.lid <= l <= LastOf(p.lid, p.lmc);
      assert Owns(p, l);
    }
    if Contested(e, p) {
      var l: nat :| l in e && Owns(p, l) && e[l] != p;
      assert p.lid <= l <= LastOf(p.lid, p.lmc);
    }
  }
}
