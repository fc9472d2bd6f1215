/** When an expected link comes to a physical link, and what a selector picks out, in the fields of
    selectors and fabric (Topology/topology.c:170-299 and 407-441). */
module LinkResolution {
  import opened Options
  import opened OrderedKeys
  import opened PortIds
  import opened ExpectedLinks
  import opened LinkSelectors

  // ---------------------------------------------------------------- both ends of a physical link

  /** A side that came to port p while the other, complete, came to no port but to the node of p's
      neighbour: the link is resolved to p and its neighbour, in either order. */
  lemma {:induction false} NeighborNodeSuffices(f: Fabric, s1: Option<Selector>, s2: Option<Selector>, p: PortId)
    requires WellFormed(f) && p in f.neighbor
    requires Select(f, s1).port == Some(p) && Complete(s2)
    requires Select(f, s2).port == None && Select(f, s2).node == Some(f.neighbor[p].node)
    ensures Resolve(f, s1, s2).p1 == Some(p) && Resolve(f, s1, s2).p2 == Some(f.neighbor[p])
    ensures Resolve(f, s2, s1).p1 == Some(f.neighbor[p]) && Resolve(f, s2, s1).p2 == Some(p)
  {
    hide Select, Complete;
  }

  /** The selectors mean port p and, on the other side, its neighbour: one side came to its end, and
      the other cannot say which port it means, or came to the other end, or came to no port but
      the right node. If both sides came to ports, one that cannot say which port it means gives
      way, the second side before the first. */
  ghost predicate Mean(f: Fabric, s1: Option<Selector>, s2: Option<Selector>, p: PortId)
    requires WellFormed(f) && p in f.neighbor
  {
    var a, b, q := Select(f, s1), Select(f, s2), f.neighbor[p];
    || (a.port == Some(p) && (!Complete(s2) || b.port == Some(q) || (b.port == None && b.node == Some(q.node))))
    || (b.port == Some(q) && (a.port == None || Complete(s2)) && (!Complete(s1) || (a.port == None && a.node == Some(p.node))))
  }

  /** A link is resolved to both ends of a physical link exactly when its selectors mean it. */
  lemma {:induction false} PhysicalIff(f: Fabric, s1: Option<Selector>, s2: Option<Selector>, p: PortId)
    requires WellFormed(f) && p in f.neighbor
    ensures Resolve(f, s1, s2).p1 == Some(p) && Resolve(f, s1, s2).p2 == Some(f.neighbor[p]) <==> Mean(f, s1, s2, p)
  {
    hide Select, Complete;
    SelectedPortOnNode(f, s1);
    SelectedPortOnNode(f, s2);
  }

  /** Otherwise a link keeps the ports its selectors came to, but for a side that gives way to a port
      without a neighbour. */
  lemma {:induction false} OtherwiseAsSelected(f: Fabric, s1: Option<Selector>, s2: Option<Selector>)
    requires WellFormed(f) && forall p :: p in f.neighbor ==> !Mean(f, s1, s2, p)
    ensures var r, a, b := Resolve(f, s1, s2), Select(f, s1), Select(f, s2);
            && r.p1 == (if b.port.Some? && !Complete(s1) && (a.port == None || Complete(s2)) then None else a.port)
            && r.p2 == (if a.port.Some? && !Complete(s2) then None else b.port)
  {
    hide Select, Complete;
    SelectedPortOnNode(f, s1);
    SelectedPortOnNode(f, s2);
    var a, b := Select(f, s1).port, Select(f, s2).port;
    if a.Some? && a.value in f.neighbor {
      assert !Mean(f, s1, s2, a.value);
    }
    if b.Some? && b.value in f.neighbor {
      assert !Mean(f, s1, s2, f.neighbor[b.value]);
    }
  }

  // ---------------------------------------------------------------- levels

  /** Links rank by their worse side first and then by their better one, on the scale from 0 to 5. */
  lemma LevelsRankBySides(a: MatchLevel, b: MatchLevel, c: MatchLevel, d: MatchLevel)
    requires Rank(a) <= Rank(b) && Rank(c) <= Rank(d)
    ensures LinkLevel(a, b) < LinkLevel(c, d) <==> Rank(a) < Rank(c) || (Rank(a) == Rank(c) && Rank(b) < Rank(d))
    ensures 0 <= LinkLevel(a, b) == LinkLevel(b, a) <= 5
  {
  }

  // ---------------------------------------------------------------- what a selector picks out

  /** A selector says which port it means: by its GUID, or by a number or id on a node. */
  lemma CompleteIff(s: Selector)
    ensures !Complete(None)
    ensures Complete(Some(s))
            <==> s.portGuid != 0 || ((s.nodeGuid != 0 || s.nodeDesc.Some?) && (s.portNum.Some? || s.portId.Some?))
  {
  }

  /** The least node GUID with this description. */
  ghost predicate IsLeastNamed(f: Fabric, name: string, g: Key) {
    g in f.nodes && SameText(f.nodes[g].desc, name, 64)
    && forall h :: h in f.nodes && SameText(f.nodes[h].desc, name, 64) ==> g <= h
  }

  ghost predicate AnyNamed(f: Fabric, s: Selector) {
    s.nodeDesc.Some? && exists g :: g in f.nodes && SameText(f.nodes[g].desc, s.nodeDesc.value, 64)
  }

  /** The first listed port with this GUID. */
  ghost predicate IsFirstWithGuid(f: Fabric, guid: nat, p: PortId)
    requires WellFormed(f)
  {
    exists i :: 0 <= i < |f.allPorts| && f.allPorts[i] == p && GuidAt(f, i) == guid
                && forall j :: 0 <= j < i ==> GuidAt(f, j) != guid
  }

  ghost function GuidAt(f: Fabric, i: nat): nat
    requires WellFormed(f) && i < |f.allPorts|
  {
    assert f.allPorts[i] in f.allPorts;
    f.nodes[f.allPorts[i].node].ports[f.allPorts[i].num].guid
  }

  lemma {:induction false} FirstInOrder(keys: seq<Key>, good: set<Key>)
    requires forall i, j :: 0 <= i < j < |keys| ==> keys[i] < keys[j]
    ensures First(keys, good).Some? ==> First(keys, good).value in keys && First(keys, good).value in good
    ensures First(keys, good).Some? ==> forall k :: k in keys && k in good ==> First(keys, good).value <= k
    ensures First(keys, good).None? ==> forall k :: k in keys ==> k !in good
  {
    FirstIsGood(keys, good);
    if keys != [] && keys[0] !in good {
      FirstInOrder(keys[1..], good);
    }
  }

  lemma {:induction false} NodeNamedIff(f: Fabric, s: Selector, g: Key)
    ensures NodeNamed(f, s) == Some(g)
            <==> if s.nodeGuid != 0 && s.nodeGuid in f.nodes then g == s.nodeGuid
                 else s.nodeDesc.Some? && IsLeastNamed(f, s.nodeDesc.value, g)
    ensures NodeNamed(f, s).None? <==> !(s.nodeGuid != 0 && s.nodeGuid in f.nodes) && !AnyNamed(f, s)
  {
    hide SameText, First, SortedKeys;
    SortedKeysAreTheKeys(f.nodes.Keys);
    if s.nodeDesc.Some? {
      FirstInOrder(SortedKeys(f.nodes.Keys), Named(f, s.nodeDesc.value));
    }
  }

  lemma {:induction false} FirstIs<T>(s: seq<T>, good: set<T>) returns (i: nat)
    ensures i <= |s| && forall j :: 0 <= j < i ==> s[j] !in good
    ensures i < |s| ==> s[i] in good && First(s, good) == Some(s[i])
    ensures i == |s| ==> First(s, good) == None
  {
    i := 0;
    while i < |s| && s[i] !in good
      invariant i <= |s| && forall j :: 0 <= j < i ==> s[j] !in good
    {
      i := i + 1;
    }
    FirstAt(s, good, i);
  }

  lemma {:induction false} GuidPortIff(f: Fabric, s: Selector, p: PortId)
    requires WellFormed(f)
    ensures GuidPort(f, s) == Some(p) <==> s.portGuid != 0 && IsFirstWithGuid(f, s.portGuid, p)
    ensures GuidPort(f, s).None? <==> s.portGuid == 0 || forall i :: 0 <= i < |f.allPorts| ==> GuidAt(f, i) != s.portGuid
  {
    hide First;
    var good := WithGuid(f, s.portGuid);
    var i := FirstIs(f.allPorts, good);
    forall j | 0 <= j < |f.allPorts| ensures f.allPorts[j] in good <==> GuidAt(f, j) == s.portGuid {
      assert f.allPorts[j] in f.allPorts;
    }
    if s.portGuid != 0 && IsFirstWithGuid(f, s.portGuid, p) {
      var j :| 0 <= j < |f.allPorts| && f.allPorts[j] == p && GuidAt(f, j) == s.portGuid
               && forall k :: 0 <= k < j ==> GuidAt(f, k) != s.portGuid;
      assert i == j;
    }
  }

  /** A selector comes to the node it names by GUID, or else the least of those it names by
      description, or else the node of the first port with its port GUID. */
  lemma {:induction false} SelectedNodeIff(f: Fabric, s: Selector, g: Key)
    requires WellFormed(f)
    ensures Select(f, Some(s)).node == Some(g)
            <==> if s.nodeGuid != 0 && s.nodeGuid in f.nodes then g == s.nodeGuid
                 else if AnyNamed(f, s) then IsLeastNamed(f, s.nodeDesc.value, g)
                 else s.portGuid != 0 && exists p :: IsFirstWithGuid(f, s.portGuid, p) && p.node == g
  {
    hide First, Named, WithGuid, ExactPort, OnlyPort, SortedKeys, IsFirstWithGuid, IsLeastNamed, AnyNamed;
    NodeOfIsNode(f, s);
    NodeNamedIff(f, s, g);
    if NodeNamed(f, s).Some? {
      NodeNamedIff(f, s, NodeNamed(f, s).value);
    }
    if GuidPort(f, s).Some? {
      GuidPortIff(f, s, GuidPort(f, s).value);
    }
    forall p | IsFirstWithGuid(f, s.portGuid, p) && s.portGuid != 0 ensures GuidPort(f, s) == Some(p) {
      GuidPortIff(f, s, p);
    }
  }

  /** The least port number with this id. */
  ghost predicate IsLeastWithId(n: Node, id: string, k: Key) {
    k in n.ports && SameText(n.ports[k].portId, id, 16)
    && forall j :: j in n.ports && SameText(n.ports[j].portId, id, 16) ==> k <= j
  }

  ghost predicate AnyWithId(n: Node, s: Selector) {
    s.portId.Some? && exists k :: k in n.ports && SameText(n.ports[k].portId, s.portId.value, 16)
  }

  lemma {:induction false} IdPortIff(f: Fabric, g: Key, s: Selector, p: PortId)
    requires g in f.nodes
    ensures IdPort(f, g, s) == Some(p) <==> p.node == g && s.portId.Some? && IsLeastWithId(f.nodes[g], s.portId.value, p.num)
    ensures IdPort(f, g, s).None? <==> !AnyWithId(f.nodes[g], s)
    ensures AnyWithId(f.nodes[g], s) ==> s.portId.Some?
  {
    hide SameText, First, SortedKeys;
    var n := f.nodes[g];
    SortedKeysAreTheKeys(n.ports.Keys);
    if s.portId.Some? {
      FirstInOrder(SortedKeys(n.ports.Keys), WithId(n, s.portId.value));
    }
  }

  lemma {:induction false} OnlyPortIff(f: Fabric, g: Key, p: PortId)
    requires g in f.nodes
    ensures OnlyPort(f, g) == Some(p) <==> p.node == g && f.nodes[g].ports.Keys == {p.num}
  {
    SortedKeysAreTheKeys(f.nodes[g].ports.Keys);
    var keys := SortedKeys(f.nodes[g].ports.Keys);
    assert |keys| == 1 ==> keys[0] in keys;
    if f.nodes[g].ports.Keys == {p.num} {
      assert |keys| == 1 && keys[0] == p.num;
    }
    if |keys| == 1 {
      assert f.nodes[g].ports.Keys == {keys[0]};
    }
  }

  /** On the node it came to, a selector picks the port with its number. Failing that: if its port
      GUID found the node, the port with the GUID; if not, the least port with its id, and failing
      that the port with its GUID if it is on the node; and failing that the only port. */
  lemma {:induction false} SelectedPortIff(f: Fabric, s: Selector, p: PortId)
    requires WellFormed(f) && Select(f, Some(s)).node.Some?
    ensures var g := Select(f, Some(s)).node.value;
            var byGuid := !(s.nodeGuid != 0 && s.nodeGuid in f.nodes) && !AnyNamed(f, s);
            g in f.nodes
            && (Select(f, Some(s)).port == Some(p)
                <==> if s.portNum.Some? && s.portNum.value in f.nodes[g].ports then p == PortId(g, s.portNum.value)
                     else if byGuid then IsFirstWithGuid(f, s.portGuid, p)
                     else if AnyWithId(f.nodes[g], s) then p.node == g && IsLeastWithId(f.nodes[g], s.portId.value, p.num)
                     else if s.portGuid != 0 && exists q :: IsFirstWithGuid(f, s.portGuid, q) && q.node == g
                       then IsFirstWithGuid(f, s.portGuid, p)
                     else p.node == g && f.nodes[g].ports.Keys == {p.num})
  {
    hide First, Named, WithGuid, OnlyPort, IdPort, GuidPort, NodeNamed, SortedKeys, IsFirstWithGuid, IsLeastNamed, AnyNamed,
      IsLeastWithId, AnyWithId;
    NodeOfIsNode(f, s);
    var g := NodeOf(f, s).value;
    NodeNamedIff(f, s, g);
    IdPortIff(f, g, s, p);
    GuidPortIff(f, s, p);
    OnlyPortIff(f, g, p);
    if GuidPort(f, s).Some? {
      GuidPortIff(f, s, GuidPort(f, s).value);
    }
    forall q | s.portGuid != 0 ensures GuidPort(f, s) == Some(q) <==> IsFirstWithGuid(f, s.portGuid, q) {
      GuidPortIff(f, s, q);
    }
    GuidFound(f, s);
  }

  /** A selector matches a port exactly if something it says picks one out; the only port of a node
      is not picked out by being the only one. */
  lemma {:induction false} MatchesPortIff(f: Fabric, s: Selector)
    requires WellFormed(f) && Select(f, Some(s)).node.Some?
    ensures var g := Select(f, Some(s)).node.value;
            g in f.nodes
            && (Select(f, Some(s)).level == MatchPort
                <==> (s.portNum.Some? && s.portNum.value in f.nodes[g].ports) || AnyWithId(f.nodes[g], s)
                     || (s.portGuid != 0 && exists q :: IsFirstWithGuid(f, s.portGuid, q) && q.node == g))
  {
    hide First, Named, WithGuid, OnlyPort, IdPort, GuidPort, NodeNamed, SortedKeys, IsFirstWithGuid, IsLeastNamed, AnyNamed,
      IsLeastWithId, AnyWithId;
    NodeOfIsNode(f, s);
    var g := NodeOf(f, s).value;
    IdPortIff(f, g, s, PortId(0, 0));
    if GuidPort(f, s).Some? {
      GuidPortIff(f, s, GuidPort(f, s).value);
    }
    forall q | s.portGuid != 0 && IsFirstWithGuid(f, s.portGuid, q) ensures GuidPort(f, s) == Some(q) {
      GuidPortIff(f, s, q);
    }
    GuidFound(f, s);
  }

  lemma {:induction false} GuidFound(f: Fabric, s: Selector)
    requires WellFormed(f)
    ensures NodeNamed(f, s).None? && NodeOf(f, s).Some? ==>
              GuidPort(f, s).Some? && GuidPort(f, s).value.node == NodeOf(f, s).value && s.portGuid != 0
  {
  }

  // ---------------------------------------------------------------- a link that was moved

  /** Port 1 of node 1 is linked to port 1 of node 2, which has two ports. */
  const MOVED := Fabric(map[1 := Node("a", map[1 := PortInfo(0, "")]),
                            2 := Node("b", map[1 := PortInfo(0, ""), 2 := PortInfo(0, "")])],
                        [PORT_1, PORT_2, PortId(2, 2)], map[PORT_1 := PORT_2, PORT_2 := PORT_1])

  /** Port 9 of node 2, which has no such port. */
  const NO_SUCH_PORT := Selector(2, 0, None, 0, Some(9), None)

  /** A link whose far end names a port that is not there is still found by the node, and both ports
      point to it. */
  lemma {:induction false} MovedLinkIsFound()
    ensures WellFormed(MOVED)
    ensures Resolve(MOVED, Some(BY_NUMBER), Some(NO_SUCH_PORT)) == Resolution(Some(PORT_1), Some(PORT_2), 4)
    ensures Run(MOVED.neighbor, [Resolve(MOVED, Some(BY_NUMBER), Some(NO_SUCH_PORT))]).own == map[PORT_1 := 0, PORT_2 := 0]
  {
    assert Select(MOVED, Some(BY_NUMBER)) == Selection(Some(1), Some(PORT_1), MatchPort);
    MovedSelects();
    var r := Resolve(MOVED, Some(BY_NUMBER), Some(NO_SUCH_PORT));
    NeighborNodeSuffices(MOVED, Some(BY_NUMBER), Some(NO_SUCH_PORT), PORT_1);
    assert [r][..0] == [];
    assert Run(MOVED.neighbor, [r]) == Step(MOVED.neighbor, START, r);
  }

  lemma {:induction false} MovedSelects()
    ensures WellFormed(MOVED)
    ensures Select(MOVED, Some(NO_SUCH_PORT)) == Selection(Some(2), None, MatchNode)
  {
    hide OnlyPort;
    assert NodeOf(MOVED, NO_SUCH_PORT) == Some(2) && ExactPort(MOVED, 2, NO_SUCH_PORT) == None;
    TwoPorts();
    OnlyOf(MOVED, 2);
  }

  lemma {:induction false} TwoPorts()
    ensures 2 in MOVED.nodes && |MOVED.nodes[2].ports.Keys| == 2
  {
    assert MOVED.nodes[2].ports.Keys == {1, 2};
  }

  lemma {:induction false} OnlyOf(f: Fabric, g: Key)
    requires g in f.nodes && |f.nodes[g].ports.Keys| != 1
    ensures OnlyPort(f, g) == None
  {
    SortedKeysAreTheKeys(f.nodes[g].ports.Keys);
  }
}
