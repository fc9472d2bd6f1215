/** The multicast forwarding graph that route.c walks: nodes, ports, forwarding tables
    (Topology/topology.h and Topology/route.c:42-62, 115-128).

    A `PortData` is identified by its node and its number, a port mask by the set of its
    bits. The fabric does not change while routes are validated. */
module McFabric {
  import opened Options
  import opened Widths

  const MAX_HOPS := 64
  const MASK_WIDTH := 64
  const MFT_POSITIONS := 4
  const OFFSET_RANGE := 0x4000

  type Guid = nat

  datatype Port = Port(node: Guid, num: Uint16)

  datatype PortInfo = PortInfo(up: bool, neighbor: Option<Port>)

  datatype NodeType = FI | SW | Other

  /** One table for each 64 ports; entry i of a table is the mask for multicast offset i. */
  datatype SwitchData = SwitchData(fdbSize: nat, fdb: seq<Option<seq<set<nat>>>>)

  datatype SwitchInfo = SwitchInfo(enhancedPort0: bool, fdbTop: nat, fdbCap: nat)

  datatype Node = Node(kind: NodeType, numPorts: Uint16, ports: map<nat, PortInfo>,
                       info: SwitchInfo, switch: Option<SwitchData>)

  /** The nodes, and whether port numbers and port counts are cut to 8 bits, as the walk cuts
      them (Topology/route.c:139 and 282), or whole. */
  datatype Fabric = Fabric(nodes: map<Guid, Node>, cut: bool)

  /** The number a packet enters a node by. */
  function Entered(f: Fabric, num: nat): nat {
    if f.cut then num % UINT8 else num
  }

  /** The last port the group may be forwarded to; tables cover ports below 256. */
  function LastPort(f: Fabric, g: Guid): (last: nat)
    requires g in f.nodes
    ensures last < UINT8
  {
    var n := f.nodes[g].numPorts;
    if f.cut then n % UINT8 else if n < UINT8 then n else UINT8 - 1
  }

  /** Neighbours are ports of the fabric, and the tables are as large as they say. */
  ghost predicate WellFormed(f: Fabric) {
    && (forall g, n :: g in f.nodes && n in f.nodes[g].ports && f.nodes[g].ports[n].neighbor.Some? ==> f.nodes[g].ports[n].neighbor.value.node in f.nodes)
    && (forall g :: g in f.nodes && f.nodes[g].switch.Some? ==>
          var s := f.nodes[g].switch.value;
          && |s.fdb| == MFT_POSITIONS
          && forall p :: 0 <= p < MFT_POSITIONS && s.fdb[p].Some? ==> |s.fdb[p].value| >= s.fdbSize % OFFSET_RANGE)
  }

  /** The mask for a multicast group at a position, if the switch has one. */
  function LookupMFT(f: Fabric, g: Guid, mlid: nat, pos: nat): Option<set<nat>>
    requires WellFormed(f) && g in f.nodes && f.nodes[g].switch.Some?
  {
    var s := f.nodes[g].switch.value;
    var entry := mlid % OFFSET_RANGE;
    if entry >= s.fdbSize % OFFSET_RANGE then None
    else if pos >= MFT_POSITIONS then None
    else if s.fdb[pos].None? then None
    else Some(s.fdb[pos].value[entry])
  }

  // ---------------------------------------------------------------- forwarding

  /** A packet arriving at a port; `entry` is the number it entered the node by. */
  datatype Arrival = Arrival(port: Port, entry: nat)

  datatype Group = Group(mlid: nat, members: seq<Guid>)

  /** The end of a route: an adapter, or the enhanced port 0 of a switch. */
  predicate IsEnd(f: Fabric, a: Arrival, hop: nat)
    requires a.port.node in f.nodes
  {
    var n := f.nodes[a.port.node];
    (hop > 1 && n.kind == SW && a.entry == 0 && n.info.enhancedPort0) || n.kind == FI
  }

  /** A switch whose forwarding table covers the group. */
  predicate HasTable(f: Fabric, grp: Group, a: Arrival, hop: nat)
    requires a.port.node in f.nodes
  {
    var n := f.nodes[a.port.node];
    && !(a.entry == 0 && hop > 1) && n.switch.Some?
    && n.info.fdbTop % OFFSET_RANGE <= n.info.fdbCap
    && grp.mlid % OFFSET_RANGE <= n.info.fdbTop % OFFSET_RANGE
  }

  predicate Readable(f: Fabric, grp: Group, a: Arrival, ix: nat)
    requires WellFormed(f) && a.port.node in f.nodes && f.nodes[a.port.node].switch.Some?
  {
    ix == a.entry || LookupMFT(f, a.port.node, grp.mlid, ix / MASK_WIDTH).Some?
  }

  /** The switch forwards the group to port ix. */
  predicate Exits(f: Fabric, grp: Group, a: Arrival, ix: nat)
    requires WellFormed(f) && a.port.node in f.nodes && f.nodes[a.port.node].switch.Some?
  {
    && ix <= LastPort(f, a.port.node) && ix != a.entry
    && var m := LookupMFT(f, a.port.node, grp.mlid, ix / MASK_WIDTH);
       m.Some? && ix % MASK_WIDTH in m.value
  }

  /** Port ix leads somewhere: to the switch's own port 0, or over a live link. */
  predicate Leads(f: Fabric, a: Arrival, ix: nat)
    requires a.port.node in f.nodes
  {
    var ports := f.nodes[a.port.node].ports;
    ix == 0 || (ix in ports && ports[ix].up && ports[ix].neighbor.Some?)
  }

  function Next(f: Fabric, a: Arrival, ix: nat): (r: Arrival)
    requires WellFormed(f) && a.port.node in f.nodes && Leads(f, a, ix)
    ensures r.port.node in f.nodes
  {
    if ix == 0 then Arrival(a.port, 0)
    else
      var n := f.nodes[a.port.node].ports[ix].neighbor.value;
      Arrival(n, Entered(f, n.num))
  }

  // ---------------------------------------------------------------- what the walk should find

  /** Forwarding from `a` works: routes end at members, use live links and readable tables,
      and stay below 64 hops. */
  ghost predicate Clean(f: Fabric, grp: Group, a: Arrival, hop: nat)
    requires WellFormed(f) && a.port.node in f.nodes && hop <= MAX_HOPS
    decreases MAX_HOPS - hop, 1, 0
  {
    && hop < MAX_HOPS
    && if IsEnd(f, a, hop) then a.port.node in grp.members
       else HasTable(f, grp, a, hop) && CleanBelow(f, grp, a, hop, LastPort(f, a.port.node) + 1)
  }

  ghost predicate CleanBelow(f: Fabric, grp: Group, a: Arrival, hop: nat, n: nat)
    requires WellFormed(f) && a.port.node in f.nodes && f.nodes[a.port.node].switch.Some? && hop < MAX_HOPS
    decreases MAX_HOPS - hop, 0, n
  {
    n == 0
    || (&& CleanBelow(f, grp, a, hop, n - 1) && Readable(f, grp, a, n - 1)
        && (Exits(f, grp, a, n - 1) ==> Leads(f, a, n - 1) && Clean(f, grp, Next(f, a, n - 1), hop + 1)))
  }

  /** The switches reached from `a`, each as often as it is reached, in the walk's order. */
  ghost function Switches(f: Fabric, grp: Group, a: Arrival, hop: nat): seq<Guid>
    requires WellFormed(f) && a.port.node in f.nodes && hop <= MAX_HOPS
    decreases MAX_HOPS - hop, 1, 0
  {
    if hop == MAX_HOPS || IsEnd(f, a, hop) || !HasTable(f, grp, a, hop) then []
    else [a.port.node] + SwitchesBelow(f, grp, a, hop, LastPort(f, a.port.node) + 1)
  }

  ghost function SwitchesBelow(f: Fabric, grp: Group, a: Arrival, hop: nat, n: nat): seq<Guid>
    requires WellFormed(f) && a.port.node in f.nodes && f.nodes[a.port.node].switch.Some? && hop < MAX_HOPS
    decreases MAX_HOPS - hop, 0, n
  {
    if n == 0 then []
    else
      SwitchesBelow(f, grp, a, hop, n - 1) +
        if Exits(f, grp, a, n - 1) && Leads(f, a, n - 1) then Switches(f, grp, Next(f, a, n - 1), hop + 1) else []
  }

  /** The number of route ends reached from `a`. */
  ghost function Ends(f: Fabric, grp: Group, a: Arrival, hop: nat): nat
    requires WellFormed(f) && a.port.node in f.nodes && hop <= MAX_HOPS
    decreases MAX_HOPS - hop, 1, 0
  {
    if hop == MAX_HOPS then 0 else if IsEnd(f, a, hop) then 1
    else if !HasTable(f, grp, a, hop) then 0
    else EndsBelow(f, grp, a, hop, LastPort(f, a.port.node) + 1)
  }

  ghost function EndsBelow(f: Fabric, grp: Group, a: Arrival, hop: nat, n: nat): nat
    requires WellFormed(f) && a.port.node in f.nodes && f.nodes[a.port.node].switch.Some? && hop < MAX_HOPS
    decreases MAX_HOPS - hop, 0, n
  {
    if n == 0 then 0
    else
      EndsBelow(f, grp, a, hop, n - 1) +
        if Exits(f, grp, a, n - 1) && Leads(f, a, n - 1) then Ends(f, grp, Next(f, a, n - 1), hop + 1) else 0
  }
}
