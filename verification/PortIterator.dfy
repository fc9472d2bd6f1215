/** The iterator over the adapter ports of a selection (Topology/focus.c:1307-1661;
    Topology/topology.h:1543-1608). IOC points are not modelled.

    The iterator keeps a place in the selection's list and a place among its node's ports. */
module PortIterator {
  import opened Options
  import opened Sequences
  import opened OrderedKeys
  import opened PortIds
  import opened Points

  /** The ports of a node in ascending order; none of a switch. */
  function AdapterPorts(f: Fabric, g: Key): seq<PortId>
    requires g in f
  {
    if f[g].isSwitch then [] else PortsFrom(g, SortedKeys(f[g].ports))
  }

  function PortsFrom(g: Key, nums: seq<Key>): (r: seq<PortId>)
    ensures |r| == |nums| && forall i :: 0 <= i < |r| ==> r[i] == PortId(g, nums[i])
  {
    seq(|nums|, i requires 0 <= i < |nums| => PortId(g, nums[i]))
  }

  function PortsOfNodes(f: Fabric, nodes: seq<Key>): seq<PortId>
    requires forall g :: g in nodes ==> g in f
  {
    if nodes == [] then [] else AdapterPorts(f, nodes[0]) + PortsOfNodes(f, nodes[1..])
  }

  function AdaptersAmong(f: Fabric, ports: seq<PortId>): seq<PortId>
    requires forall p :: p in ports ==> HasPort(f, p)
  {
    if ports == [] then []
    else
      assert HasPort(f, ports[0]);
      (if f[ports[0].node].isSwitch then [] else [ports[0]]) + AdaptersAmong(f, ports[1..])
  }

  /** The nodes a selection goes through. */
  function NodesThrough(f: Fabric, s: Selection): (r: seq<Key>)
    requires InFabric(f, s)
    ensures forall g :: g in r ==> g in f
  {
    match s
    case OneNode(g) => [g]
    case NodeList(l) => l
    case OneSystem(y) => SortedKeysAreTheKeys(NodesOf(f, y)); SortedKeys(NodesOf(f, y))
    case _ => []
  }

  /** All that iterating a selection gives. */
  function Iterated(f: Fabric, s: Selection): seq<PortId>
    requires InFabric(f, s)
  {
    match s
    case OnePort(p) => AdaptersAmong(f, [p])
    case PortList(l) => AdaptersAmong(f, l)
    case _ => PortsOfNodes(f, NodesThrough(f, s))
  }

  // ---------------------------------------------------------------- once each

  lemma {:induction false} AmongIff(f: Fabric, ports: seq<PortId>, p: PortId)
    requires forall q :: q in ports ==> HasPort(f, q)
    ensures p in AdaptersAmong(f, ports) <==> p in ports && HasPort(f, p) && !f[p.node].isSwitch
    ensures NoRepeats(ports) ==> NoRepeats(AdaptersAmong(f, ports))
  {
    if ports != [] {
      assert HasPort(f, ports[0]);
      AmongIff(f, ports[1..], p);
      AmongIff(f, ports[1..], ports[0]);
      assert NoRepeats(ports) ==> NoRepeats(ports[1..]) && ports[0] !in ports[1..];
    }
  }

  lemma {:induction false} AdapterPortsIff(f: Fabric, g: Key, p: PortId)
    requires g in f
    ensures p in AdapterPorts(f, g) <==> p.node == g && HasPort(f, p) && !f[g].isSwitch
    ensures NoRepeats(AdapterPorts(f, g))
  {
    hide SortedKeys;
    var nums := SortedKeys(f[g].ports);
    SortedKeysAreTheKeys(f[g].ports);
    if p.node == g && HasPort(f, p) && !f[g].isSwitch {
      var i :| 0 <= i < |nums| && nums[i] == p.num;
      assert AdapterPorts(f, g)[i] == p;
    }
  }

  lemma {:induction false} NodesIff(f: Fabric, nodes: seq<Key>, p: PortId)
    requires forall g :: g in nodes ==> g in f
    ensures p in PortsOfNodes(f, nodes) <==> p.node in nodes && HasPort(f, p) && !f[p.node].isSwitch
    decreases |nodes|
  {
    hide AdapterPorts;
    if nodes != [] {
      AdapterPortsIff(f, nodes[0], p);
      NodesIff(f, nodes[1..], p);
    }
  }

  lemma {:induction false} NodesOnce(f: Fabric, nodes: seq<Key>)
    requires (forall g :: g in nodes ==> g in f) && NoRepeats(nodes)
    ensures NoRepeats(PortsOfNodes(f, nodes))
    decreases |nodes|
  {
    hide AdapterPorts;
    if nodes != [] {
      var first, rest := AdapterPorts(f, nodes[0]), PortsOfNodes(f, nodes[1..]);
      NodesOnce(f, nodes[1..]);
      AdapterPortsIff(f, nodes[0], PortId(0, 0));
      forall p | p in first
        ensures p !in rest
      {
        AdapterPortsIff(f, nodes[0], p);
        NodesIff(f, nodes[1..], p);
      }
      NoRepeatsJoin(first, rest);
    }
  }

  /** A selection that can be iterated. */
  predicate Iterable(s: Selection) {
    !s.Nothing? && !s.NodePairs?
  }

  /** Iterating gives each adapter port the selection accepts, and nothing else; each once if
      the selection repeats nothing. */
  lemma {:induction false} IteratesAccepted(f: Fabric, s: Selection, p: PortId)
    requires InFabric(f, s) && Iterable(s)
    ensures p in Iterated(f, s) <==> HasPort(f, p) && !f[p.node].isSwitch && AcceptsPort(f, p, s)
    ensures Unrepeated(s) ==> NoRepeats(Iterated(f, s))
  {
    hide SortedKeys;
    if s.OnePort? {
      AmongIff(f, [s.port], p);
    } else if s.PortList? {
      AmongIff(f, s.list, p);
    } else {
      var nodes := NodesThrough(f, s);
      NodesIff(f, nodes, p);
      if s.OneSystem? {
        SortedKeysAreTheKeys(NodesOf(f, s.system));
      }
      if Unrepeated(s) {
        NodesOnce(f, nodes);
      }
    }
  }

  /** Compressing a selection that repeats nothing changes only the order in which its adapter
      ports are given. */
  lemma {:induction false} CompressKeepsIterated(f: Fabric, s: Selection)
    requires InFabric(f, s) && Iterable(s) && Unrepeated(s)
    ensures InFabric(f, Compressed(f, s)) && Iterable(Compressed(f, s))
    ensures multiset(Iterated(f, s)) == multiset(Iterated(f, Compressed(f, s)))
  {
    hide Compressed, Iterated;
    CompressKeepsIff(f, s);
    CompressedIterable(f, s);
    var s' := Compressed(f, s);
    forall p: PortId
      ensures p in Iterated(f, s) <==> p in Iterated(f, s')
    {
      IteratesAccepted(f, s, p);
      IteratesAccepted(f, s', p);
    }
    IteratesAccepted(f, s, PortId(0, 0));
    IteratesAccepted(f, s', PortId(0, 0));
    SameElements(Iterated(f, s), Iterated(f, s'));
  }

  lemma {:induction false} CompressedIterable(f: Fabric, s: Selection)
    requires InFabric(f, s) && Iterable(s) && Unrepeated(s)
    ensures Iterable(Compressed(f, s)) && Unrepeated(Compressed(f, s))
  {
  }

  lemma {:induction false} SameElements<T>(a: seq<T>, b: seq<T>)
    requires NoRepeats(a) && NoRepeats(b) && forall x :: x in a <==> x in b
    ensures multiset(a) == multiset(b)
  {
    forall x
      ensures multiset(a)[x] == multiset(b)[x]
    {
      CountsOnce(a, x);
      CountsOnce(b, x);
    }
  }

  lemma {:induction false} CountsOnce<T>(s: seq<T>, x: T)
    requires NoRepeats(s)
    ensures multiset(s)[x] == if x in s then 1 else 0
  {
    if s != [] {
      var n := |s| - 1;
      CountsOnce(s[..n], x);
      assert s == s[..n] + [s[n]];
      if x == s[n] {
        assert x !in s[..n];
      }
    }
  }

  // ---------------------------------------------------------------- the iterator

  class FIPortIterator {
    const f: Fabric
    var what: Selection
    var lastFlag: bool  // for a port, node or system: it is being iterated
    var currentPort: nat  // place in the port list
    var currentNode: nat  // place in the node list or among the system's nodes
    var pCurrentPort: nat  // place among that node's ports

    constructor (f: Fabric)
      ensures this.f == f
    {
      this.f, what, lastFlag, currentPort, currentNode, pCurrentPort := f, Nothing, false, 0, 0, 0;
    }

    /** The iterator stands on a port that it has given. */
    ghost predicate Standing()
      reads this
    {
      && InFabric(f, what)
      && match what
         case OnePort(p) => true
         case PortList(l) => currentPort < |l|
         case OneNode(g) => lastFlag ==> pCurrentPort < |AdapterPorts(f, g)|
         case NodeList(l) => currentNode < |l| && pCurrentPort < |AdapterPorts(f, l[currentNode])|
         case OneSystem(y) =>
           lastFlag ==>
             var nodes := NodesThrough(f, what);
             currentNode < |nodes| && pCurrentPort < |AdapterPorts(f, nodes[currentNode])|
         case _ => false
    }

    /** What has not been given yet. */
    ghost function Remaining(): seq<PortId>
      requires Standing()
      reads this
    {
      match what
      case OnePort(p) => []
      case PortList(l) => AdaptersAmong(f, l[currentPort + 1..])
      case OneNode(g) => if lastFlag then AdapterPorts(f, g)[pCurrentPort + 1..] else []
      case NodeList(l) => AfterPlace(l)
      case OneSystem(y) => if lastFlag then AfterPlace(NodesThrough(f, what)) else []
    }

    ghost function AfterPlace(nodes: seq<Key>): seq<PortId>
      requires forall g :: g in nodes ==> g in f
      requires currentNode < |nodes| && pCurrentPort < |AdapterPorts(f, nodes[currentNode])|
      reads this
    {
      AdapterPorts(f, nodes[currentNode])[pCurrentPort + 1..] + PortsOfNodes(f, nodes[currentNode + 1..])
    }

    /** The first adapter port in a list from place k on. */
    method NextInList(l: seq<PortId>, k: nat) returns (r: Option<PortId>)
      requires k <= |l| && forall p :: p in l ==> HasPort(f, p)
      modifies this`currentPort
      ensures r.None? ==> AdaptersAmong(f, l[k..]) == [] && currentPort == old(currentPort)
      ensures r.Some? ==> currentPort < |l| && AdaptersAmong(f, l[k..]) == [r.value] + AdaptersAmong(f, l[currentPort + 1..])
    {
      var i := k;
      while i < |l|
        invariant k <= i <= |l| && AdaptersAmong(f, l[k..]) == AdaptersAmong(f, l[i..])
      {
        assert HasPort(f, l[i]) && l[i..][1..] == l[i + 1..];
        if !f[l[i].node].isSwitch {
          currentPort := i;
          return Some(l[i]);
        }
        i := i + 1;
      }
      return None;
    }

    /** The first port of the first adapter that has one, from place k on. */
    method NextNode(nodes: seq<Key>, k: nat) returns (r: Option<PortId>)
      requires k <= |nodes| && forall g :: g in nodes ==> g in f
      modifies this`currentNode, this`pCurrentPort
      ensures r.None? ==> PortsOfNodes(f, nodes[k..]) == [] && currentNode == old(currentNode) && pCurrentPort == old(pCurrentPort)
      ensures r.Some? ==> currentNode < |nodes| && pCurrentPort < |AdapterPorts(f, nodes[currentNode])|
                          && PortsOfNodes(f, nodes[k..]) == [r.value] + AfterPlace(nodes)
    {
      hide AdapterPorts, PortsOfNodes;
      var i := k;
      while i < |nodes|
        invariant k <= i <= |nodes| && PortsOfNodes(f, nodes[k..]) == PortsOfNodes(f, nodes[i..])
        invariant currentNode == old(currentNode) && pCurrentPort == old(pCurrentPort)
      {
        FromPlace(nodes, i);
        if !f[nodes[i]].isSwitch {
          var ports := AdapterPorts(f, nodes[i]);
          if ports != [] {
            currentNode, pCurrentPort := i, 0;
            assert ports == [ports[0]] + ports[1..];
            return Some(ports[0]);
          }
        }
        i := i + 1;
      }
      NoNodesLeft(nodes);
      return None;
    }

    lemma FromPlace(nodes: seq<Key>, i: nat)
      requires i < |nodes| && forall g :: g in nodes ==> g in f
      ensures PortsOfNodes(f, nodes[i..]) == AdapterPorts(f, nodes[i]) + PortsOfNodes(f, nodes[i + 1..])
      ensures f[nodes[i]].isSwitch ==> AdapterPorts(f, nodes[i]) == []
    {
      assert nodes[i..][1..] == nodes[i + 1..];
    }

    lemma NoNodesLeft(nodes: seq<Key>)
      ensures PortsOfNodes(f, nodes[|nodes|..]) == []
    {
    }

    /** The next port of the node at the current place, if it has more. */
    method NextPort(g: Key) returns (r: Option<PortId>)
      requires g in f && pCurrentPort < |AdapterPorts(f, g)|
      modifies this`pCurrentPort
      ensures r.None? ==> pCurrentPort == old(pCurrentPort) && AdapterPorts(f, g)[pCurrentPort + 1..] == []
      ensures r.Some? ==> pCurrentPort < |AdapterPorts(f, g)|
                          && AdapterPorts(f, g)[old(pCurrentPort) + 1..] == [r.value] + AdapterPorts(f, g)[pCurrentPort + 1..]
    {
      var ports := AdapterPorts(f, g);
      if pCurrentPort + 1 < |ports| {
        pCurrentPort := pCurrentPort + 1;
        return Some(ports[pCurrentPort]);
      }
      return None;
    }

    method NextAmong(nodes: seq<Key>) returns (r: Option<PortId>)
      requires forall g :: g in nodes ==> g in f
      requires currentNode < |nodes| && pCurrentPort < |AdapterPorts(f, nodes[currentNode])|
      modifies this`currentNode, this`pCurrentPort
      ensures currentNode < |nodes| && pCurrentPort < |AdapterPorts(f, nodes[currentNode])|
      ensures old(AfterPlace(nodes)) == if r.Some? then [r.value] + AfterPlace(nodes) else []
      ensures r.None? ==> AfterPlace(nodes) == []
    {
      hide AdapterPorts, PortsOfNodes;
      r := NextPort(nodes[currentNode]);
      if r.None? {
        r := NextNode(nodes, currentNode + 1);
      }
    }

    /** Start a selection: its first adapter port. */
    method Head(s: Selection) returns (r: Option<PortId>)
      requires InFabric(f, s)
      modifies this
      ensures what == s
      ensures Iterated(f, s) == [] ==> r.None?
      ensures Iterated(f, s) != [] ==> r.Some? && Standing() && Iterated(f, s) == [r.value] + Remaining()
    {
      hide AdapterPorts, PortsOfNodes, AdaptersAmong, SortedKeys;
      what := s;
      if s.OnePort? {
        OneAdapter(f, s.port);
        if !f[s.port.node].isSwitch {
          lastFlag := true;
          return Some(s.port);
        }
        return None;
      } else if s.PortList? {
        assert s.list[0..] == s.list;
        r := NextInList(s.list, 0);
      } else if s.OneNode? {
        OneNodesPorts(f, s.node);
        if !f[s.node].isSwitch {
          var ports := AdapterPorts(f, s.node);
          if ports != [] {
            pCurrentPort, lastFlag := 0, true;
            assert ports == [ports[0]] + ports[1..];
            return Some(ports[0]);
          }
        }
        return None;
      } else if s.NodeList? {
        assert s.nodes[0..] == s.nodes;
        r := NextNode(s.nodes, 0);
      } else if s.OneSystem? {
        var nodes := NodesThrough(f, s);
        assert nodes[0..] == nodes;
        r := NextNode(nodes, 0);
        lastFlag := if r.Some? then true else lastFlag;
      } else {
        NothingIterated(f, s);
        return None;
      }
    }

    lemma OneAdapter(f: Fabric, p: PortId)
      requires HasPort(f, p)
      ensures AdaptersAmong(f, [p]) == if f[p.node].isSwitch then [] else [p]
    {
    }

    lemma OneNodesPorts(f: Fabric, g: Key)
      requires g in f
      ensures PortsOfNodes(f, [g]) == AdapterPorts(f, g) && (f[g].isSwitch ==> AdapterPorts(f, g) == [])
    {
    }

    lemma NothingIterated(f: Fabric, s: Selection)
      requires s.Nothing? || s.NodePairs?
      ensures InFabric(f, s) ==> Iterated(f, s) == []
    {
    }

    /** The next adapter port; none once all have been given, however often asked. */
    method Next() returns (r: Option<PortId>)
      requires Standing()
      modifies this
      ensures Standing() && what == old(what)
      ensures old(Remaining()) == if r.Some? then [r.value] + Remaining() else []
      ensures r.None? ==> Remaining() == []
    {
      hide AdapterPorts, PortsOfNodes, AdaptersAmong, SortedKeys;
      var s := what;
      if s.OnePort? {
        lastFlag := false;
        return None;
      } else if s.PortList? {
        r := NextInList(s.list, currentPort + 1);
      } else if s.OneNode? {
        if lastFlag {
          r := NextPort(s.node);
          lastFlag := r.Some?;
        } else {
          return None;
        }
      } else if s.NodeList? {
        r := NextAmong(s.nodes);
      } else {
        if lastFlag {
          r := NextAmong(NodesThrough(f, s));
          lastFlag := r.Some?;
        } else {
          return None;
        }
      }
    }
  }

  /** Iterate a whole selection. */
  method IterateAll(it: FIPortIterator, s: Selection) returns (ports: seq<PortId>)
    requires InFabric(it.f, s)
    modifies it
    ensures ports == Iterated(it.f, s)
  {
    hide Iterated, FIPortIterator.Standing, FIPortIterator.Remaining;
    var p := it.Head(s);
    ports := [];
    while p.Some?
      invariant p.None? ==> ports == Iterated(it.f, s)
      invariant p.Some? ==> it.Standing() && Iterated(it.f, s) == ports + [p.value] + it.Remaining()
      decreases |Iterated(it.f, s)| - |ports|
    {
      ports := ports + [p.value];
      p := it.Next();
    }
  }
}
