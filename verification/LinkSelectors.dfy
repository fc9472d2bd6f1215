/** Finding the ports an expected link names (Topology/topology.c:170-299 and 407-441, and the
    searches of Topology/search.c:54-80, 147-158 and 334-342).

    A fabric is a value here: nothing in it changes while expected links are read. */
module LinkSelectors {
  import opened Options
  import opened Widths
  import opened OrderedKeys
  import opened PortIds
  import opened ExpectedLinks

  const NODE_DESC_SIZE := 64
  const PORT_ID_SIZE := 16

  datatype PortInfo = PortInfo(guid: nat, portId: string)

  datatype Node = Node(desc: string, ports: map<Key, PortInfo>)

  datatype Fabric = Fabric(nodes: map<Key, Node>, allPorts: seq<PortId>, neighbor: Wiring)

  predicate HasPort(f: Fabric, p: PortId) {
    p.node in f.nodes && p.num in f.nodes[p.node].ports
  }

  predicate WellFormed(f: Fabric) {
    (forall p :: p in f.allPorts ==> HasPort(f, p)) && (forall p :: p in f.neighbor ==> HasPort(f, p))
  }

  /** What the input says about one end of a link; 0 stands for an absent GUID or node type. */
  datatype Selector = Selector(nodeGuid: Key, nodeType: nat, nodeDesc: Option<string>, portGuid: nat, portNum: Option<Uint16>,
                               portId: Option<string>)

  datatype MatchLevel = MatchNone | MatchNode | MatchPort

  datatype Selection = Selection(node: Option<Key>, port: Option<PortId>, level: MatchLevel)

  /** The strings agree in their first n characters. */
  predicate SameText(s: string, t: string, n: nat) {
    Cut(s, n) == Cut(t, n)
  }

  function Cut(s: string, n: nat): string {
    if |s| <= n then s else s[..n]
  }

  // ---------------------------------------------------------------- searches

  /** The first element that is good. */
  function First<T(==)>(s: seq<T>, good: set<T>): Option<T> {
    if s == [] then None else if s[0] in good then Some(s[0]) else First(s[1..], good)
  }

  lemma {:induction false} FirstAt<T>(s: seq<T>, good: set<T>, i: nat)
    requires i <= |s| && forall k :: 0 <= k < i ==> s[k] !in good
    ensures i == |s| ==> First(s, good) == None
    ensures i < |s| && s[i] in good ==> First(s, good) == Some(s[i])
  {
    if i > 0 {
      FirstAt(s[1..], good, i - 1);
    }
  }

  lemma {:induction false} FirstIsGood<T>(s: seq<T>, good: set<T>)
    ensures First(s, good).Some? ==> First(s, good).value in good && First(s, good).value in s
    ensures First(s, good).None? ==> forall x :: x in s ==> x !in good
  {
    if s != [] {
      FirstIsGood(s[1..], good);
    }
  }

  function Named(f: Fabric, name: string): set<Key> {
    set g | g in f.nodes && SameText(f.nodes[g].desc, name, NODE_DESC_SIZE)
  }

  function WithId(n: Node, id: string): set<Key> {
    set k | k in n.ports && SameText(n.ports[k].portId, id, PORT_ID_SIZE)
  }

  function WithGuid(f: Fabric, guid: nat): set<PortId> {
    set p | p in f.allPorts && HasPort(f, p) && f.nodes[p.node].ports[p.num].guid == guid
  }

  method LookupNodeName(f: Fabric, name: string) returns (r: Option<Key>)
    ensures r == First(SortedKeys(f.nodes.Keys), Named(f, name))
  {
    hide SortedKeys, SameText, First;
    var keys := SortedKeys(f.nodes.Keys);
    SortedKeysAreTheKeys(f.nodes.Keys);
    var i := 0;
    while i < |keys|
      invariant 0 <= i <= |keys| && forall k :: 0 <= k < i ==> keys[k] !in Named(f, name)
    {
      FirstAt(keys, Named(f, name), i);
      if SameText(f.nodes[keys[i]].desc, name, NODE_DESC_SIZE) {
        return Some(keys[i]);
      }
      i := i + 1;
    }
    FirstAt(keys, Named(f, name), i);
    return None;
  }

  method FindNodePortId(n: Node, id: string) returns (r: Option<Key>)
    ensures r == First(SortedKeys(n.ports.Keys), WithId(n, id))
  {
    hide SortedKeys, SameText, First;
    var keys := SortedKeys(n.ports.Keys);
    SortedKeysAreTheKeys(n.ports.Keys);
    var i := 0;
    while i < |keys|
      invariant 0 <= i <= |keys| && forall k :: 0 <= k < i ==> keys[k] !in WithId(n, id)
    {
      FirstAt(keys, WithId(n, id), i);
      if SameText(n.ports[keys[i]].portId, id, PORT_ID_SIZE) {
        return Some(keys[i]);
      }
      i := i + 1;
    }
    FirstAt(keys, WithId(n, id), i);
    return None;
  }

  method FindPortGuid(f: Fabric, guid: nat) returns (r: Option<PortId>)
    requires WellFormed(f)
    ensures r == First(f.allPorts, WithGuid(f, guid))
  {
    var i := 0;
    while i < |f.allPorts|
      invariant 0 <= i <= |f.allPorts| && forall k :: 0 <= k < i ==> f.allPorts[k] !in WithGuid(f, guid)
    {
      FirstAt(f.allPorts, WithGuid(f, guid), i);
      var p := f.allPorts[i];
      assert HasPort(f, p);
      if f.nodes[p.node].ports[p.num].guid == guid {
        return Some(p);
      }
      i := i + 1;
    }
    FirstAt(f.allPorts, WithGuid(f, guid), i);
    return None;
  }

  // ---------------------------------------------------------------- one selector

  /** The node a selector names, without help from a port GUID. */
  function NodeNamed(f: Fabric, s: Selector): Option<Key> {
    if s.nodeGuid != 0 && s.nodeGuid in f.nodes then Some(s.nodeGuid)
    else if s.nodeDesc.Some? then First(SortedKeys(f.nodes.Keys), Named(f, s.nodeDesc.value))
    else None
  }

  /** The port with the selector's GUID. */
  function GuidPort(f: Fabric, s: Selector): Option<PortId> {
    if s.portGuid != 0 then First(f.allPorts, WithGuid(f, s.portGuid)) else None
  }

  function NodeOf(f: Fabric, s: Selector): Option<Key> {
    if NodeNamed(f, s).Some? then NodeNamed(f, s)
    else if GuidPort(f, s).Some? then Some(GuidPort(f, s).value.node) else None
  }

  function NumberedPort(f: Fabric, g: Key, s: Selector): Option<PortId>
    requires g in f.nodes
  {
    if s.portNum.Some? && s.portNum.value in f.nodes[g].ports then Some(PortId(g, s.portNum.value)) else None
  }

  function IdPort(f: Fabric, g: Key, s: Selector): Option<PortId>
    requires g in f.nodes
  {
    if s.portId.None? then None
    else
      var k := First(SortedKeys(f.nodes[g].ports.Keys), WithId(f.nodes[g], s.portId.value));
      if k.Some? then Some(PortId(g, k.value)) else None
  }

  /** The port a selector picks out on its node, by number before GUID before id when the GUID
      found the node, and by number before id before GUID when something else did. */
  function ExactPort(f: Fabric, g: Key, s: Selector): Option<PortId>
    requires g in f.nodes
  {
    var byGuid := GuidPort(f, s);
    if NumberedPort(f, g, s).Some? then NumberedPort(f, g, s)
    else if NodeNamed(f, s).None? then byGuid
    else if IdPort(f, g, s).Some? then IdPort(f, g, s)
    else if byGuid.Some? && byGuid.value.node == g then byGuid else None
  }

  /** The only port of a node that has just one. */
  function OnlyPort(f: Fabric, g: Key): Option<PortId>
    requires g in f.nodes
  {
    hide SortedKeys, SameText, First;
    var keys := SortedKeys(f.nodes[g].ports.Keys);
    if |keys| == 1 then Some(PortId(g, keys[0])) else None
  }

  lemma NodeOfIsNode(f: Fabric, s: Selector)
    requires WellFormed(f)
    ensures NodeOf(f, s).Some? ==> NodeOf(f, s).value in f.nodes
    ensures GuidPort(f, s).Some? ==> HasPort(f, GuidPort(f, s).value)
  {
    if s.nodeDesc.Some? {
      FirstIsGood(SortedKeys(f.nodes.Keys), Named(f, s.nodeDesc.value));
    }
    FirstIsGood(f.allPorts, WithGuid(f, s.portGuid));
  }

  /** What a selector comes to. A port of a one-port node is taken even if the selector says
      otherwise, but does not raise the match level. */
  function Select(f: Fabric, s: Option<Selector>): Selection
    requires WellFormed(f)
  {
    if s.None? || NodeOf(f, s.value).None? then Selection(None, None, MatchNone)
    else
      NodeOfIsNode(f, s.value);
      var g := NodeOf(f, s.value).value;
      if ExactPort(f, g, s.value).Some? then Selection(Some(g), ExactPort(f, g, s.value), MatchPort)
      else Selection(Some(g), OnlyPort(f, g), MatchNode)
  }

  method ResolvePortSelector(f: Fabric, s: Option<Selector>) returns (r: Selection)
    requires WellFormed(f)
    ensures r == Select(f, s)
  {
    if s.None? {
      return Selection(None, None, MatchNone);
    }
    var sel := s.value;
    NodeOfIsNode(f, sel);
    var node, port, level := None, None, MatchNone;
    if sel.nodeGuid != 0 && sel.nodeGuid in f.nodes {
      node, level := Some(sel.nodeGuid), MatchNode;
    }
    if node.None? && sel.nodeDesc.Some? {
      node := LookupNodeName(f, sel.nodeDesc.value);
      level := if node.Some? then MatchNode else level;
    }
    if node.None? && sel.portGuid != 0 {
      port := FindPortGuid(f, sel.portGuid);
      if port.Some? {
        node, level := Some(port.value.node), MatchPort;
      }
    }
    if node.Some? && sel.portNum.Some? {
      if sel.portNum.value in f.nodes[node.value].ports {
        port, level := Some(PortId(node.value, sel.portNum.value)), MatchPort;
      }
    }
    if node.Some? && port.None? && sel.portId.Some? {
      var k := FindNodePortId(f.nodes[node.value], sel.portId.value);
      if k.Some? {
        port, level := Some(PortId(node.value, k.value)), MatchPort;
      }
    }
    if node.Some? && port.None? && sel.portGuid != 0 {
      var p := FindPortGuid(f, sel.portGuid);
      if p.Some? && p.value.node == node.value {
        port, level := p, MatchPort;
      }
    }
    if node.Some? && port.None? {
      var keys := SortedKeys(f.nodes[node.value].ports.Keys);
      if |keys| == 1 {
        port := Some(PortId(node.value, keys[0]));
      }
    }
    return Selection(node, port, level);
  }

  /** The port a selector comes to is a port of the node it comes to. */
  lemma {:induction false} SelectedPortOnNode(f: Fabric, s: Option<Selector>)
    requires WellFormed(f)
    ensures var r := Select(f, s);
            && (r.level == MatchNone <==> r.node.None?) && (r.level == MatchPort ==> r.port.Some?)
            && (r.port.Some? ==> r.node == Some(r.port.value.node) && HasPort(f, r.port.value))
  {
    hide First, Named, WithGuid, ExactPort, NodeOf, SortedKeys;
    if s.Some? && NodeOf(f, s.value).Some? {
      NodeOfIsNode(f, s.value);
      var g := NodeOf(f, s.value).value;
      ExactPortOnNode(f, g, s.value);
      SortedKeysAreTheKeys(f.nodes[g].ports.Keys);
    }
  }

  lemma {:induction false} ExactPortOnNode(f: Fabric, g: Key, s: Selector)
    requires WellFormed(f) && NodeOf(f, s) == Some(g) && g in f.nodes
    ensures var p := ExactPort(f, g, s); p.Some? ==> p.value.node == g && HasPort(f, p.value)
  {
    hide Named, WithGuid, First, SortedKeys;
    NodeOfIsNode(f, s);
    IdPortOnNode(f, g, s);
  }

  lemma {:induction false} IdPortOnNode(f: Fabric, g: Key, s: Selector)
    requires g in f.nodes
    ensures var p := IdPort(f, g, s); p.Some? ==> p.value.node == g && HasPort(f, p.value)
  {
    if s.portId.Some? {
      FirstIsGood(SortedKeys(f.nodes[g].ports.Keys), WithId(f.nodes[g], s.portId.value));
    }
  }

  /** Where the comment on valid combinations says a port GUID with a port id selects by the id,
      the code selects by the GUID: the id is not looked at. */
  lemma {:induction false} GuidHidesPortId(f: Fabric, s: Selector, id: Option<string>)
    requires WellFormed(f) && NodeNamed(f, s).None? && GuidPort(f, s).Some?
    ensures Select(f, Some(s.(portId := id))) == Select(f, Some(s))
  {
    NodeOfIsNode(f, s);
    NodeOfIsNode(f, s.(portId := id));
  }

  // ---------------------------------------------------------------- both selectors

  predicate Complete(s: Option<Selector>) {
    s.Some? && var sel := s.value;
    || (sel.nodeGuid != 0 && (sel.portNum.Some? || sel.portId.Some?)) || sel.portGuid != 0
    || (sel.nodeDesc.Some? && (sel.portNum.Some? || sel.portId.Some?))
  }

  function LinkLevel(a: MatchLevel, b: MatchLevel): nat {
    match (a, b)
    case (MatchNone, MatchNone) => 0
    case (MatchNone, MatchNode) => 1
    case (MatchNone, MatchPort) => 2
    case (MatchNode, MatchNone) => 1
    case (MatchNode, MatchNode) => 3
    case (MatchNode, MatchPort) => 4
    case (MatchPort, MatchNone) => 2
    case (MatchPort, MatchNode) => 4
    case (MatchPort, MatchPort) => 5
  }

  function NeighborOf(f: Fabric, p: PortId): Option<PortId> {
    if p in f.neighbor then Some(f.neighbor[p]) else None
  }

  /** A side that cannot say which port it means takes the other side's neighbour; a side that
      came to no port does so if its node is the neighbour's. */
  function Resolve(f: Fabric, s1: Option<Selector>, s2: Option<Selector>): Resolution
    requires WellFormed(f)
  {
    var a, b := Select(f, s1), Select(f, s2);
    if a.port.None? && b.port.None? then UNASSOCIATED
    else
      var p1 := if !(a.port.Some? && !Complete(s2)) && b.port.Some? && !Complete(s1) then NeighborOf(f, b.port.value) else a.port;
      var p2 := if a.port.Some? && !Complete(s2) then NeighborOf(f, a.port.value) else b.port;
      var p2' := if p2.None? then NeighborOn(f, p1, b.node) else p2;
      var p1' := if p1.None? then NeighborOn(f, p2', a.node) else p1;
      Resolution(p1', p2', LinkLevel(a.level, b.level))
  }

  function NeighborOn(f: Fabric, p: Option<PortId>, node: Option<Key>): Option<PortId> {
    if p.Some? && p.value in f.neighbor && node == Some(f.neighbor[p.value].node) then NeighborOf(f, p.value) else None
  }

  /** A better match of either side makes a better match of the link, and sides count alike. */
  lemma LinkLevelRanks(a: MatchLevel, b: MatchLevel, c: MatchLevel)
    ensures LinkLevel(a, b) == LinkLevel(b, a)
    ensures LinkLevel(a, b) < LinkLevel(a, c) <==> Rank(b) < Rank(c)
  {
  }

  function Rank(m: MatchLevel): nat {
    match m case MatchNone => 0 case MatchNode => 1 case MatchPort => 2
  }

  /** A link resolves to one port twice exactly when both its selectors are complete and come
      to that port. */
  lemma {:induction false} OnePortTwiceIff(f: Fabric, s1: Option<Selector>, s2: Option<Selector>)
    requires WellFormed(f)
    ensures var r := Resolve(f, s1, s2);
            r.p1 == r.p2 && r.p1.Some?
            <==> Complete(s1) && Complete(s2) && Select(f, s1).port == Select(f, s2).port && Select(f, s1).port.Some?
  {
  }

  /** Swapping the selectors swaps the ports, unless both selectors are incomplete and come to
      ports that are not neighbours. */
  lemma {:induction false} SwapIff(f: Fabric, s1: Option<Selector>, s2: Option<Selector>)
    requires WellFormed(f)
    ensures var r, swapped := Resolve(f, s1, s2), Resolve(f, s2, s1);
            var a, b := Select(f, s1).port, Select(f, s2).port;
            swapped == Resolution(r.p2, r.p1, r.level)
            <==> (Complete(s1) || Complete(s2) || a.None? || b.None? || NeighborOf(f, a.value) == b)
  {
    SelectedPortOnNode(f, s1);
    SelectedPortOnNode(f, s2);
  }

  /** What a link resolves to: ports of the fabric, and neighbours whenever a side was filled in. */
  lemma {:induction false} FilledInAreNeighbors(f: Fabric, s1: Option<Selector>, s2: Option<Selector>)
    requires WellFormed(f)
    ensures var r := Resolve(f, s1, s2);
            && (r.p1.Some? ==> HasPort(f, r.p1.value)) && (r.p2.Some? ==> HasPort(f, r.p2.value))
            && ((r.p1.Some? && r.p2.Some? && !(r.p1 == Select(f, s1).port && r.p2 == Select(f, s2).port))
                ==> NeighborOf(f, r.p1.value) == r.p2)
  {
    SelectedPortOnNode(f, s1);
    SelectedPortOnNode(f, s2);
  }

  // ---------------------------------------------------------------- one port named twice

  const PORT_1 := PortId(1, 1)
  const PORT_2 := PortId(2, 1)

  /** Two nodes of one port each, linked. */
  const TWO_NODES := Fabric(map[1 := Node("a", map[1 := PortInfo(0, "")]), 2 := Node("b", map[1 := PortInfo(0, "")])],
                            [PORT_1, PORT_2], map[PORT_1 := PORT_2, PORT_2 := PORT_1])

  /** Port 1 of node 1. */
  const BY_NUMBER := Selector(1, 0, None, 0, Some(1), None)

  /** A link that names one port, and then one that names it at both ends: the second is taken for
      the better match and the ends of the physical link point apart. */
  lemma {:induction false} InputNamesOnePortTwice()
    ensures WellFormed(TWO_NODES)
    ensures var run := [Resolve(TWO_NODES, Some(BY_NUMBER), None), Resolve(TWO_NODES, Some(BY_NUMBER), Some(BY_NUMBER))];
            var st := Run(TWO_NODES.neighbor, run);
            PORT_1 !in st.own && PORT_2 in st.own && !EndsAgree(TWO_NODES.neighbor, st)
  {
    assert Select(TWO_NODES, Some(BY_NUMBER)) == Selection(Some(1), Some(PORT_1), MatchPort);
    OnePortNamedTwice(TWO_NODES.neighbor, PORT_1, Resolve(TWO_NODES, Some(BY_NUMBER), None),
                      Resolve(TWO_NODES, Some(BY_NUMBER), Some(BY_NUMBER)));
  }
}
