/** Validating the routes of a multicast group (Topology/route.c, ValidateMCRoutes), and where
    its verdict ends. */
module McValidation {
  import opened Options
  import opened Widths
  import opened Sequences
  import opened McFabric
  import opened McRoute
  import opened McTree
  import opened McCuts

  /** Validate the routes of a group from an edge switch. Marks left by an earlier walk are
      cleared first, so each switch is expanded at most once in this one. The walk judges the
      fabric as it sees it; where it sees all nodes right that is the fabric as it is. */
  method ValidateMCRoutes(nodes: map<Guid, Node>, allSWs: seq<Guid>, grp: Group, start: Arrival, stale: set<Guid>)
    returns (status: Status, found: seq<Record>, pathCount: nat, ghost expanded: seq<Guid>)
    requires WellFormed(Whole(nodes)) && start.port.node in nodes && stale <= set g | g in allSWs
    ensures WellFormed(Seen(nodes))
    ensures found == [] && status == Success <==> ForwardsAsTree(Seen(nodes), grp, CutEntry(start))
    ensures NothingHidden(nodes, grp, start, 1) ==>
              (found == [] && status == Success <==> ForwardsAsTree(Whole(nodes), grp, start))
    ensures found == [] && status != Success ==> nodes[start.port.node].switch.None?
    ensures NoRepeats(expanded) && Truthful(Seen(nodes), grp, CutEntry(start), expanded, found)
    ensures found == [] && status == Success ==> pathCount == Ends(Seen(nodes), grp, CutEntry(start), 1)
  {
    var f, entry := Seen(nodes), CutEntry(start);
    TreeIffCleanAndNoRepeats(f, grp, entry);
    if NothingHidden(nodes, grp, start, 1) {
      VerdictIsTree(nodes, grp, start);
    }
    if nodes[start.port.node].switch.None? {
      return NotDone, [], 0, [];
    }
    var visited := stale;
    for i := 0 to |allSWs|
      invariant visited <= set g | g in allSWs[i..]
    {
      assert allSWs[i..] == [allSWs[i]] + allSWs[i + 1..];
      visited := visited - {allSWs[i]};
    }
    var w := new McWalker(f, grp, entry, visited);
    StartsRoute(f, grp, entry);
    status := w.Walk(entry, 1);
    assert [] + Switches(f, grp, entry, 1) == Switches(f, grp, entry, 1);
    return status, w.records, w.pathCount, w.expanded;
  }

  lemma {:induction false} StartsRoute(f: Fabric, grp: Group, start: Arrival)
    requires WellFormed(f) && start.port.node in f.nodes
    ensures IsRoute(f, grp, start, [] + [Hop(start, 0)])
  {
  }

  // ---------------------------------------------------------------- eight bits

  const GROUP := Group(0, [2])
  const EDGE := Arrival(Port(1, 0), 0)

  /** A switch whose table forwards the group to one port. */
  function Forwarding(exit: nat, numPorts: Uint16, ports: map<nat, PortInfo>): Node {
    Node(SW, numPorts, ports, SwitchInfo(false, 0, 0), Some(SwitchData(1, [Some([{exit}]), None, None, None])))
  }

  /** Switch 1 forwards to port 256 of switch 2, which has an end at port 0 but no table. */
  const ENTRY_256 := map[
    1 := Forwarding(1, 1, map[1 := PortInfo(true, Some(Port(2, 256)))]),
    2 := Node(SW, 1, map[], SwitchInfo(true, 0, 0), None)]

  /** Switch 1 has 256 ports and forwards to port 1, which is down. */
  const PORTS_256 := map[1 := Forwarding(1, 256, map[1 := PortInfo(false, None)])]

  lemma {:induction false} ForwardsTo1(f: Fabric, numPorts: Uint16, ports: map<nat, PortInfo>, ix: nat)
    requires WellFormed(f) && 1 in f.nodes && f.nodes[1] == Forwarding(1, numPorts, ports)
    ensures !IsEnd(f, EDGE, 1) && HasTable(f, GROUP, EDGE, 1)
    ensures Readable(f, GROUP, EDGE, ix) <==> ix < 64 || ix == 0
    ensures Exits(f, GROUP, EDGE, ix) <==> ix == 1 && LastPort(f, 1) >= 1
  {
    assert f.nodes[1].switch.value.fdb[0] == Some([{1}]);
    assert ix / MASK_WIDTH == 0 <==> ix < 64;
  }

  lemma {:induction false} Entry256(f: Fabric)
    requires f.nodes == ENTRY_256
    ensures WellFormed(f) && EDGE.port.node in f.nodes && Leads(f, EDGE, 1) && LastPort(f, 1) == 1
    ensures Next(f, EDGE, 1) == Arrival(Port(2, 256), if f.cut then 0 else 256)
  {
  }

  lemma {:induction false} NoneBelow(f: Fabric, grp: Group, a: Arrival, hop: nat, n: nat)
    requires WellFormed(f) && a.port.node in f.nodes && f.nodes[a.port.node].switch.Some? && hop < MAX_HOPS
    requires forall ix :: 0 <= ix < n && Exits(f, grp, a, ix) && Leads(f, a, ix) ==> Switches(f, grp, Next(f, a, ix), hop + 1) == []
    ensures SwitchesBelow(f, grp, a, hop, n) == []
    decreases n
  {
    hide Exits, Leads, Next, Switches, WellFormed;
    if n > 0 {
      NoneBelow(f, grp, a, hop, n - 1);
    }
  }

  /** A single switch that forwards right is a tree. */
  lemma {:induction false} OneSwitchIsTree(f: Fabric)
    requires WellFormed(f) && 1 in f.nodes && f.nodes[1].switch.Some? && !IsEnd(f, EDGE, 1) && HasTable(f, GROUP, EDGE, 1)
    requires forall ix :: 0 <= ix <= LastPort(f, 1) ==> Readable(f, GROUP, EDGE, ix)
    requires forall ix :: 0 <= ix <= LastPort(f, 1) && Exits(f, GROUP, EDGE, ix) ==>
               && Leads(f, EDGE, ix) && Clean(f, GROUP, Next(f, EDGE, ix), 2)
               && Switches(f, GROUP, Next(f, EDGE, ix), 2) == []
    ensures ForwardsAsTree(f, GROUP, EDGE)
  {
    hide WellFormed, Exits, Readable, Leads, Next, CleanBelow, SwitchesBelow, ForwardsAsTree, HasTable;
    CleanBelowIff(f, GROUP, EDGE, 1, LastPort(f, 1) + 1);
    NoneBelow(f, GROUP, EDGE, 1, LastPort(f, 1) + 1);
    TreeIffCleanAndNoRepeats(f, GROUP, EDGE);
  }

  /** Port 256 is taken for port 0: the walk finds a tree where the group comes to a switch without
      a table. */
  lemma {:induction false} Port256LooksLikePort0()
    ensures WellFormed(Whole(ENTRY_256)) && WellFormed(Seen(ENTRY_256))
    ensures ForwardsAsTree(Seen(ENTRY_256), GROUP, EDGE) && !ForwardsAsTree(Whole(ENTRY_256), GROUP, EDGE)
  {
    Seen256IsTree();
    Whole256IsNot();
  }

  lemma {:induction false} Seen256IsTree()
    ensures WellFormed(Seen(ENTRY_256)) && ForwardsAsTree(Seen(ENTRY_256), GROUP, EDGE)
  {
    hide WellFormed, Exits, Readable, Leads, Next, ForwardsAsTree, HasTable, CleanBelow, SwitchesBelow, LastPort;
    var s := Seen(ENTRY_256);
    Entry256(s);
    ForwardsTo1(s, 1, ENTRY_256[1].ports, 1);
    forall ix: nat
      ensures Readable(s, GROUP, EDGE, ix) <==> ix < 64 || ix == 0
      ensures Exits(s, GROUP, EDGE, ix) <==> ix == 1
    {
      ForwardsTo1(s, 1, ENTRY_256[1].ports, ix);
    }
    assert IsEnd(s, Next(s, EDGE, 1), 2);
    OneSwitchIsTree(s);
  }

  lemma {:induction false} Whole256IsNot()
    ensures WellFormed(Whole(ENTRY_256)) && !ForwardsAsTree(Whole(ENTRY_256), GROUP, EDGE)
  {
    hide WellFormed, Exits, Readable, Leads, Next, LastPort;
    var w := Whole(ENTRY_256);
    Entry256(w);
    ForwardsTo1(w, 1, ENTRY_256[1].ports, 1);
    assert [1][1..] == [];
    assert Reach(w, GROUP, EDGE, 1, [1]) == Some(Next(w, EDGE, 1));
    assert !Fine(w, GROUP, Next(w, EDGE, 1), 2);
  }

  /** Of 256 ports only port 0 is tried: the walk finds a tree where the group is forwarded to a dead
      port. */
  lemma {:induction false} Of256PortsOneIsTried()
    ensures WellFormed(Whole(PORTS_256)) && WellFormed(Seen(PORTS_256))
    ensures ForwardsAsTree(Seen(PORTS_256), GROUP, EDGE) && !ForwardsAsTree(Whole(PORTS_256), GROUP, EDGE)
  {
    hide WellFormed, Exits, Readable, Next, HasTable, CleanBelow, SwitchesBelow, CleanBelow, Clean, Switches;
    var s, w := Seen(PORTS_256), Whole(PORTS_256);
    Ports256(s);
    Ports256(w);
    ForwardsTo1(s, 256, PORTS_256[1].ports, 0);
    ForwardsTo1(w, 256, PORTS_256[1].ports, 1);
    OneSwitchIsTree(s);
    assert Reach(w, GROUP, EDGE, 1, []) == Some(EDGE);
    assert !Fine(w, GROUP, EDGE, 1);
  }

  lemma {:induction false} Ports256(f: Fabric)
    requires f.nodes == PORTS_256
    ensures WellFormed(f) && EDGE.port.node in f.nodes && !Leads(f, EDGE, 1) && LastPort(f, 1) == if f.cut then 0 else 255
  {
  }

  /** As ENTRY_256, but switch 2 has a table too, which forwards the group nowhere further. */
  const RIGHT_256 := map[
    1 := Forwarding(1, 1, map[1 := PortInfo(true, Some(Port(2, 256)))]),
    2 := Node(SW, 1, map[], SwitchInfo(true, 0, 0), Some(SwitchData(1, [Some([{}]), None, None, None])))]

  /** The verdict can be right although a cut hides a node: what is hidden may be as it should be. */
  lemma {:induction false} HiddenYetRight()
    ensures WellFormed(Whole(RIGHT_256)) && WellFormed(Seen(RIGHT_256)) && !NothingHidden(RIGHT_256, GROUP, EDGE, 1)
    ensures ForwardsAsTree(Seen(RIGHT_256), GROUP, EDGE) && ForwardsAsTree(Whole(RIGHT_256), GROUP, EDGE)
  {
    hide WellFormed, Exits, Readable, Leads, Next, LastPort, Clean, Switches, ForwardsAsTree, HasTable, Reach;
    var s, w := Seen(RIGHT_256), Whole(RIGHT_256);
    RightTree(s);
    RightTree(w);
    Right256(w);
    ForwardsTo1(w, 1, RIGHT_256[1].ports, 1);
    OneExit(w, GROUP, EDGE, 1, 1);
  }

  lemma {:induction false} OneExit(f: Fabric, grp: Group, a: Arrival, hop: nat, ix: nat)
    requires WellFormed(f) && a.port.node in f.nodes && f.nodes[a.port.node].switch.Some?
    requires !Halts(f, a, hop) && Exits(f, grp, a, ix) && Leads(f, a, ix)
    ensures Reach(f, grp, a, hop, [ix]) == Some(Next(f, a, ix))
  {
    assert [ix][1..] == [];
  }

  lemma {:induction false} Right256(f: Fabric)
    requires f.nodes == RIGHT_256
    ensures WellFormed(f) && EDGE.port.node in f.nodes && Leads(f, EDGE, 1) && LastPort(f, 1) == 1 && LastPort(f, 2) == 1
    ensures Next(f, EDGE, 1) == Arrival(Port(2, 256), if f.cut then 0 else 256)
    ensures f.cut ==> IsEnd(f, Arrival(Port(2, 256), 0), 2)
    ensures !f.cut ==>
              && !IsEnd(f, Arrival(Port(2, 256), 256), 2) && HasTable(f, GROUP, Arrival(Port(2, 256), 256), 2)
              && forall ix :: 0 <= ix <= 1 ==>
                   Readable(f, GROUP, Arrival(Port(2, 256), 256), ix) && !Exits(f, GROUP, Arrival(Port(2, 256), 256), ix)
  {
    assert f.nodes[2].switch.value.fdb[0] == Some([{}]);
  }

  lemma {:induction false} RightSecond(f: Fabric)
    requires f.nodes == RIGHT_256
    ensures WellFormed(f) && EDGE.port.node in f.nodes && Leads(f, EDGE, 1)
    ensures Clean(f, GROUP, Next(f, EDGE, 1), 2) && Switches(f, GROUP, Next(f, EDGE, 1), 2) == if f.cut then [] else [2]
  {
    hide WellFormed, Exits, Readable, Leads, Next, LastPort, CleanBelow, SwitchesBelow, IsEnd, HasTable;
    Right256(f);
    if !f.cut {
      var a := Next(f, EDGE, 1);
      CleanBelowIff(f, GROUP, a, 2, 2);
      NoneBelow(f, GROUP, a, 2, 2);
    }
  }

  lemma {:induction false} RightTree(f: Fabric)
    requires f.nodes == RIGHT_256
    ensures WellFormed(f) && ForwardsAsTree(f, GROUP, EDGE)
  {
    hide WellFormed, Exits, Readable, Leads, Next, LastPort, CleanBelow, SwitchesBelow, IsEnd, HasTable, ForwardsAsTree;
    Right256(f);
    RightSecond(f);
    ForwardsTo1(f, 1, RIGHT_256[1].ports, 0);
    ForwardsTo1(f, 1, RIGHT_256[1].ports, 1);
    CleanBelowIff(f, GROUP, EDGE, 1, 2);
    NoneBelow(f, GROUP, EDGE, 1, 1);
    OneMoreBelow(f, GROUP, EDGE, 1, 1);
    TreeIffCleanAndNoRepeats(f, GROUP, EDGE);
  }

  lemma {:induction false} OneMoreBelow(f: Fabric, grp: Group, a: Arrival, hop: nat, ix: nat)
    requires WellFormed(f) && a.port.node in f.nodes && f.nodes[a.port.node].switch.Some? && hop < MAX_HOPS
    requires Exits(f, grp, a, ix) && Leads(f, a, ix)
    ensures SwitchesBelow(f, grp, a, hop, ix + 1)
            == SwitchesBelow(f, grp, a, hop, ix) + Switches(f, grp, Next(f, a, ix), hop + 1)
  {
  }
}
