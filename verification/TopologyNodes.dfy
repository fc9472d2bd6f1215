/** Expected nodes and their growing port tables (Topology/topology.c:707-743;
    Topology/topology.h:207-235). */
module TopologyNodes {
  import opened Options
  import opened Widths
  import opened OrderedKeys
  import opened LinkSelectors

  /** A port table: `slots` is the memory block and `size` the 16-bit count kept of it. */
  datatype PortTable<T> = PortTable(slots: seq<Option<T>>, size: Uint16)
  {
    predicate Fits() {
      size == |slots|
    }

    function Get(n: nat): Option<T>
      requires size <= |slots|
    {
      if n >= size then None else slots[n]
    }
  }

  /** The block size asked for when the table must take port n. */
  function AllocCount(size: nat, n: nat): nat {
    var twice := if size == 0 then 1 else 2 * size;
    if twice > n + 1 then twice else n + 1
  }

  function Prepared<T>(t: PortTable<T>, n: Uint16): (r: PortTable<T>)
    requires t.size <= |t.slots|
    ensures r.size <= |r.slots| && n < |r.slots|
  {
    if n + 1 > t.size then
      var count := AllocCount(t.size, n);
      PortTable(t.slots[..t.size] + seq(count - t.size, i => None), count % UINT16)
    else t
  }

  /** The count is right after preparing for port n exactly when it was not cut to 16 bits; then
      every port is where it was and there is room for port n. */
  lemma {:induction false} PreparedFitsIff<T>(t: PortTable<T>, n: Uint16)
    requires t.Fits()
    ensures Prepared(t, n).Fits() <==> n < t.size || AllocCount(t.size, n) < UINT16
    ensures Prepared(t, n).Fits() ==> n < Prepared(t, n).size
    ensures Prepared(t, n).Fits() ==> forall k: nat :: Prepared(t, n).Get(k) == t.Get(k)
  {
  }

  /** A node's table of ports below 32768 never loses count, whatever is added in what order. */
  lemma {:induction false} SmallPortsFit<T>(t: PortTable<T>, n: Uint16)
    requires t.Fits() && n < UINT16 / 2
    ensures Prepared(t, n).Fits()
  {
  }

  /** Ports 39999 and 50000 of one node: the second is stored, but the count wraps to 14464 and
      it is no longer found. */
  lemma {:induction false} LargePortLost(e: nat)
    ensures var t := Prepared(Prepared(PortTable([], 0), 39999), 50000);
            t.size == 14464 && |t.slots| == 80000
            && PortTable(t.slots[50000 := Some(e)], t.size).Get(50000) == None
  {
    var t := Prepared<nat>(PortTable([], 0), 39999);
    assert AllocCount(0, 39999) == 40000 && t.size == 40000;
    assert AllocCount(40000, 50000) == 80000;
  }

  // ---------------------------------------------------------------- the objects

  /** A port of an expected node, held in the node's table. */
  datatype ExpectedPort = ExpectedPort(portNum: Uint16, portGuid: Key, elinkp: Option<ExpectedLink>)

  /** An expected link as validation sees it; `enodep1` and `enodep2` are what its selectors point to. */
  class ExpectedLink {
    const portselp1: Option<Selector>
    const portselp2: Option<Selector>
    var enodep1: ExpectedNode?
    var enodep2: ExpectedNode?

    constructor (portselp1: Option<Selector>, portselp2: Option<Selector>)
      ensures this.portselp1 == portselp1 && this.portselp2 == portselp2 && enodep1 == null && enodep2 == null
    {
      this.portselp1, this.portselp2, enodep1, enodep2 := portselp1, portselp2, null, null;
    }
  }

  class ExpectedNode {
    const nodeGuid: Key
    const nodeType: nat
    const nodeDesc: Option<string>
    var ports: seq<Option<ExpectedPort>>
    var portsSize: Uint16
    var connected: bool

    constructor (nodeGuid: Key, nodeType: nat, nodeDesc: Option<string>)
      ensures this.nodeGuid == nodeGuid && this.nodeType == nodeType && this.nodeDesc == nodeDesc
      ensures ports == [] && portsSize == 0 && !connected
    {
      this.nodeGuid, this.nodeType, this.nodeDesc := nodeGuid, nodeType, nodeDesc;
      ports, portsSize, connected := [], 0, false;
    }

    ghost function Table(): PortTable<ExpectedPort>
      reads this`ports, this`portsSize
    {
      PortTable(ports, portsSize)
    }

    /** Make room for a port number. */
    method PrepareSize(portNum: Uint16)
      requires portsSize <= |ports|
      modifies this`ports, this`portsSize
      ensures Table() == Prepared(old(Table()), portNum)
    {
      if portNum + 1 > portsSize {
        var twice := if portsSize == 0 then 1 else 2 * portsSize;
        var allocCount := if twice > portNum + 1 then twice else portNum + 1;
        ports := ports[..portsSize] + seq(allocCount - portsSize, i => None);
        portsSize := allocCount % UINT16;
      }
    }

    /** Add a port; refuse a second port of the same number. */
    method AddPort(portNum: Uint16, eportp: ExpectedPort) returns (added: bool)
      requires portsSize <= |ports|
      modifies this`ports, this`portsSize
      ensures var t := Prepared(old(Table()), portNum);
              && added == t.slots[portNum].None?
              && Table() == if added then PortTable(t.slots[portNum := Some(eportp)], t.size) else t
    {
      PrepareSize(portNum);
      if ports[portNum].Some? {
        return false;
      }
      ports := ports[portNum := Some(eportp)];
      return true;
    }

    function GetPort(portNum: nat): Option<ExpectedPort>
      requires portsSize <= |ports|
      reads this`ports, this`portsSize
    {
      if portNum >= portsSize then None else ports[portNum]
    }
  }

  /** What is added can be found again exactly when the count still covers it. */
  lemma {:induction false} AddedIsFoundIff<T>(t: PortTable<T>, n: Uint16, e: T)
    requires t.Fits() && t.Get(n).None?
    ensures var p := Prepared(t, n);
            PortTable(p.slots[n := Some(e)], p.size).Get(n) == Some(e)
            <==> n < t.size || n < AllocCount(t.size, n) % UINT16
  {
  }
}
