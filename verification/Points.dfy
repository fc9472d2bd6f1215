/** Points, the selections reports work on, and what they accept (Topology/point.c:811-1058 and
    1161-1332; Topology/topology.h:747-764). IOC points are not modelled. */
module Points {
  import opened Options
  import opened Sequences
  import opened OrderedKeys
  import opened PortIds

  datatype Node = Node(isSwitch: bool, system: Key, ports: set<Key>)

  type Fabric = map<Key, Node>

  /** The part of a point that selects fabric objects. */
  datatype Selection = Nothing | OnePort(port: PortId) | PortList(list: seq<PortId>) | OneNode(node: Key)
                     | NodeList(nodes: seq<Key>) | OneSystem(system: Key) | NodePairs(left: seq<Key>, right: seq<Key>)

  /** `others` says whether the point also selects expected objects. */
  datatype Point = Point(what: Selection, others: bool)

  predicate HasPort(f: Fabric, p: PortId) {
    p.node in f && p.num in f[p.node].ports
  }

  predicate InFabric(f: Fabric, s: Selection) {
    match s
    case OnePort(p) => HasPort(f, p)
    case PortList(l) => l != [] && forall p :: p in l ==> HasPort(f, p)
    case OneNode(g) => g in f
    case NodeList(l) => l != [] && forall g :: g in l ==> g in f
    case NodePairs(l, r) => (forall g :: g in l ==> g in f) && (forall g :: g in r ==> g in f)
    case _ => true
  }

  predicate PointValid(p: Point) {
    p.what != Nothing || p.others
  }

  // ---------------------------------------------------------------- what a point accepts

  predicate AcceptsPort(f: Fabric, p: PortId, s: Selection)
    requires HasPort(f, p)
  {
    match s
    case Nothing => false
    case OnePort(q) => p == q
    case PortList(l) => p in l
    case OneNode(g) => p.node == g
    case NodeList(l) => p.node in l
    case OneSystem(y) => f[p.node].system == y
    case NodePairs(l, r) => p.node in l || p.node in r
  }

  predicate AcceptsNode(f: Fabric, g: Key, s: Selection)
    requires g in f && InFabric(f, s)
  {
    match s
    case Nothing => false
    case OnePort(q) => g == q.node
    case PortList(l) => exists q :: q in l && g == q.node
    case OneNode(h) => g == h
    case NodeList(l) => g in l
    case OneSystem(y) => f[g].system == y
    case NodePairs(l, r) => g in l || g in r
  }

  predicate AcceptsSystem(f: Fabric, y: Key, s: Selection)
    requires InFabric(f, s)
  {
    match s
    case Nothing => false
    case OnePort(q) => y == f[q.node].system
    case PortList(l) => exists q :: q in l && y == f[q.node].system
    case OneNode(g) => y == f[g].system
    case NodeList(l) => exists g :: g in l && y == f[g].system
    case OneSystem(z) => y == z
    case NodePairs(l, r) => (exists g :: g in l && y == f[g].system) || (exists g :: g in r && y == f[g].system)
  }

  /** Selecting pairs of nodes selects the nodes of both lists. */
  lemma {:induction false} PairsAreBothLists(f: Fabric, l: seq<Key>, r: seq<Key>)
    requires (forall g :: g in l ==> g in f) && (forall g :: g in r ==> g in f) && l + r != []
    ensures forall p :: HasPort(f, p) ==> (AcceptsPort(f, p, NodePairs(l, r)) <==> AcceptsPort(f, p, NodeList(l + r)))
    ensures forall g :: g in f ==> (AcceptsNode(f, g, NodePairs(l, r)) <==> AcceptsNode(f, g, NodeList(l + r)))
    ensures forall y :: AcceptsSystem(f, y, NodePairs(l, r)) <==> AcceptsSystem(f, y, NodeList(l + r))
  {
  }

  predicate SelectsPorts(s: Selection) {
    s.OnePort? || s.PortList?
  }

  /** The three comparisons agree: a selection of nodes accepts the ports of the nodes it accepts, a
      selection of ports the nodes of the ports it accepts, and any but a selection of a system just
      the systems of the nodes it accepts. */
  lemma {:induction false} ComparisonsAgree(f: Fabric, s: Selection)
    requires InFabric(f, s)
    ensures !SelectsPorts(s) ==> forall p :: HasPort(f, p) ==> (AcceptsPort(f, p, s) <==> AcceptsNode(f, p.node, s))
    ensures SelectsPorts(s) ==>
              forall g :: g in f ==> (AcceptsNode(f, g, s) <==> exists p :: HasPort(f, p) && p.node == g && AcceptsPort(f, p, s))
    ensures !s.OneSystem? ==>
              forall y :: AcceptsSystem(f, y, s) <==> exists g :: g in f && AcceptsNode(f, g, s) && f[g].system == y
    ensures s.OneSystem? ==> forall y :: AcceptsSystem(f, y, s) <==> y == s.system
  {
    match s {
      case PortList(l) =>
        assert forall p :: p in l ==> HasPort(f, p) && AcceptsPort(f, p, s) && AcceptsNode(f, p.node, s);
      case OnePort(q) =>
        assert HasPort(f, q) && AcceptsPort(f, q, s) && AcceptsNode(f, q.node, s);
      case OneNode(g) =>
        assert AcceptsNode(f, g, s);
      case NodeList(l) =>
        assert forall g :: g in l ==> AcceptsNode(f, g, s);
      case NodePairs(l, r) =>
        assert forall g :: g in l || g in r ==> AcceptsNode(f, g, s);
      case _ =>
    }
  }

  method NodeInList(g: Key, l: seq<Key>) returns (found: bool)
    ensures found == (g in l)
  {
    for i := 0 to |l|
      invariant g !in l[..i]
    {
      if l[i] == g {
        return true;
      }
    }
    assert l[..|l|] == l;
    return false;
  }

  method ComparePortPoint(f: Fabric, p: PortId, point: Point) returns (r: bool)
    requires HasPort(f, p)
    ensures r == ((point.what == Nothing && !point.others) || AcceptsPort(f, p, point.what))
  {
    if !PointValid(point) {
      return true;
    }
    match point.what {
      case Nothing => return false;
      case OnePort(q) => return p == q;
      case PortList(l) =>
        for i := 0 to |l|
          invariant p !in l[..i]
        {
          if l[i] == p {
            return true;
          }
        }
        assert l[..|l|] == l;
        return false;
      case OneNode(g) => return p.node == g;
      case NodeList(l) => r := NodeInList(p.node, l);
      case OneSystem(y) => return f[p.node].system == y;
      case NodePairs(left, right) =>
        r := NodeInList(p.node, left);
        if !r {
          r := NodeInList(p.node, right);
        }
    }
  }

  method CompareNodePoint(f: Fabric, g: Key, point: Point) returns (r: bool)
    requires g in f && InFabric(f, point.what)
    ensures r == ((point.what == Nothing && !point.others) || AcceptsNode(f, g, point.what))
  {
    if !PointValid(point) {
      return true;
    }
    match point.what {
      case Nothing => return false;
      case OnePort(q) => return g == q.node;
      case PortList(l) =>
        for i := 0 to |l|
          invariant forall q :: q in l[..i] ==> q.node != g
        {
          if l[i].node == g {
            assert l[i] in l;
            return true;
          }
        }
        assert l[..|l|] == l;
        return false;
      case OneNode(h) => return g == h;
      case NodeList(l) => r := NodeInList(g, l);
      case OneSystem(y) => return f[g].system == y;
      case NodePairs(left, right) =>
        r := NodeInList(g, left);
        if !r {
          r := NodeInList(g, right);
        }
    }
  }

  /** Whether a node of a list is in a system. */
  method SystemInList(f: Fabric, y: Key, l: seq<Key>) returns (found: bool)
    requires forall g :: g in l ==> g in f
    ensures found == exists g :: g in l && y == f[g].system
  {
    for i := 0 to |l|
      invariant forall g :: g in l[..i] ==> f[g].system != y
    {
      if f[l[i]].system == y {
        return true;
      }
    }
    assert l[..|l|] == l;
    return false;
  }

  method CompareSystemPoint(f: Fabric, y: Key, point: Point) returns (r: bool)
    requires InFabric(f, point.what)
    ensures r == ((point.what == Nothing && !point.others) || AcceptsSystem(f, y, point.what))
  {
    if !PointValid(point) {
      return true;
    }
    match point.what {
      case Nothing => return false;
      case OnePort(q) => return y == f[q.node].system;
      case PortList(l) =>
        for i := 0 to |l|
          invariant forall q :: q in l[..i] ==> HasPort(f, q) && f[q.node].system != y
        {
          assert HasPort(f, l[i]);
          if f[l[i].node].system == y {
            return true;
          }
        }
        assert l[..|l|] == l;
        return false;
      case OneNode(g) => return y == f[g].system;
      case NodeList(l) => r := SystemInList(f, y, l);
      case OneSystem(z) => return y == z;
      case NodePairs(left, right) =>
        r := SystemInList(f, y, left);
        if !r {
          r := SystemInList(f, y, right);
        }
    }
  }

  // ---------------------------------------------------------------- compressing

  function NodesOf(f: Fabric, y: Key): set<Key> {
    set g | g in f && f[g].system == y
  }

  predicate SameNode(l: seq<PortId>) {
    forall p :: p in l ==> p.node == l[0].node
  }

  predicate SameSystem(f: Fabric, l: seq<Key>)
    requires forall g :: g in l ==> g in f
  {
    forall g :: g in l ==> f[g].system == f[l[0]].system
  }

  /** A list of one, or of as many ports as their node has, or of as many nodes as their system
      has, becomes the one, the node or the system. */
  function Compressed(f: Fabric, s: Selection): Selection
    requires InFabric(f, s)
  {
    match s
    case PortList(l) =>
      assert HasPort(f, l[0]);
      if |l| == 1 then OnePort(l[0])
      else if |l| == |f[l[0].node].ports| && SameNode(l) then OneNode(l[0].node)
      else s
    case NodeList(l) =>
      if |l| == 1 then OneNode(l[0])
      else if |l| == |NodesOf(f, f[l[0]].system)| && SameSystem(f, l) then OneSystem(f[l[0]].system)
      else s
    case _ => s
  }

  method PointFabricCompress(f: Fabric, s: Selection) returns (r: Selection)
    requires InFabric(f, s)
    ensures r == Compressed(f, s)
  {
    r := s;
    match s {
      case PortList(l) =>
        assert HasPort(f, l[0]);
        if |l| == 1 {
          r := OnePort(l[0]);
        } else if |l| == |f[l[0].node].ports| {
          var i := 0;
          while i < |l| && l[i].node == l[0].node
            invariant 0 <= i <= |l| && forall k :: 0 <= k < i ==> l[k].node == l[0].node
          {
            i := i + 1;
          }
          if i == |l| {
            r := OneNode(l[0].node);
          }
        }
      case NodeList(l) =>
        if |l| == 1 {
          r := OneNode(l[0]);
        } else if |l| == |NodesOf(f, f[l[0]].system)| {
          var i := 0;
          while i < |l| && f[l[i]].system == f[l[0]].system
            invariant 0 <= i <= |l| && forall k :: 0 <= k < i ==> f[l[k]].system == f[l[0]].system
          {
            i := i + 1;
          }
          if i == |l| {
            r := OneSystem(f[l[0]].system);
          }
        }
      case _ =>
    }
  }

  ghost predicate Unrepeated(s: Selection) {
    match s
    case PortList(l) => NoRepeats(l)
    case NodeList(l) => NoRepeats(l)
    case _ => true
  }

  /** A point of the same meaning: every comparison comes out the same. */
  ghost predicate SameMeaning(f: Fabric, s: Selection, s': Selection)
    requires InFabric(f, s) && InFabric(f, s')
  {
    && (forall p :: HasPort(f, p) ==> (AcceptsPort(f, p, s) <==> AcceptsPort(f, p, s')))
    && (forall g :: g in f ==> (AcceptsNode(f, g, s) <==> AcceptsNode(f, g, s')))
    && (forall y :: AcceptsSystem(f, y, s) <==> AcceptsSystem(f, y, s'))
  }

  ghost function Elements<T>(l: seq<T>): set<T> {
    set x | x in l
  }

  /** A list has as many elements as entries exactly when none is repeated. */
  lemma {:induction false} CountIff<T>(l: seq<T>)
    ensures |Elements(l)| <= |l| && (|Elements(l)| == |l| <==> NoRepeats(l))
  {
    if l == [] {
      assert Elements(l) == {};
    } else {
      var n := |l| - 1;
      CountIff(l[..n]);
      assert Elements(l) == Elements(l[..n]) + {l[n]};
      if l[n] in l[..n] {
        assert Elements(l) == Elements(l[..n]);
        var i :| 0 <= i < n && l[i] == l[n];
      } else if NoRepeats(l[..n]) {
        forall i, j | 0 <= i < j < |l|
          ensures l[i] != l[j]
        {
          if j < n {
            assert l[..n][i] != l[..n][j];
          } else {
            assert l[i] in l[..n];
          }
        }
      } else {
        var i, j :| 0 <= i < j < n && l[..n][i] == l[..n][j];
        assert l[i] == l[j];
      }
    }
  }

  /** A list of things from a set, as long as the set is large, has them all exactly when none is
      repeated. */
  lemma {:induction false} CoversIff<T>(l: seq<T>, s: set<T>)
    requires |l| == |s| && forall x :: x in l ==> x in s
    ensures NoRepeats(l) <==> forall x :: x in s ==> x in l
  {
    CountIff(l);
    assert Elements(l) <= s;
    if NoRepeats(l) {
      SameSizeSubset(Elements(l), s);
    } else if forall x :: x in s ==> x in l {
      assert Elements(l) == s;
    }
  }

  lemma SameSizeSubset<T>(a: set<T>, b: set<T>)
    requires a <= b && |a| == |b|
    ensures a == b
  {
    assert b == a + (b - a);
    assert |b| == |a| + |b - a|;
  }

  /** Compressing changes no comparison, unless it collapses a list with repeats. */
  lemma {:induction false} CompressKeepsIff(f: Fabric, s: Selection)
    requires InFabric(f, s)
    ensures InFabric(f, Compressed(f, s))
    ensures SameMeaning(f, s, Compressed(f, s)) <==> Unrepeated(s) || Compressed(f, s) == s
  {
    match s {
      case PortList(l) => PortListKeepsIff(f, l);
      case NodeList(l) => NodeListKeepsIff(f, l);
      case _ =>
    }
  }

  function PortsOf(f: Fabric, g: Key): set<PortId>
    requires g in f
  {
    set n | n in f[g].ports :: PortId(g, n)
  }

  lemma {:induction false} PortsOfSize(f: Fabric, g: Key)
    requires g in f
    ensures |PortsOf(f, g)| == |f[g].ports|
  {
    NumberPorts(g, f[g].ports);
    assert PortsOf(f, g) == set n | n in f[g].ports :: PortId(g, n);
  }

  lemma {:induction false} NumberPorts(g: Key, nums: set<Key>)
    ensures |set n | n in nums :: PortId(g, n)| == |nums|
  {
    if nums != {} {
      var k :| k in nums;
      NumberPorts(g, nums - {k});
      assert (set n | n in nums :: PortId(g, n)) == (set n | n in nums - {k} :: PortId(g, n)) + {PortId(g, k)};
    }
  }

  lemma {:induction false} PortListKeepsIff(f: Fabric, l: seq<PortId>)
    requires InFabric(f, PortList(l))
    ensures InFabric(f, Compressed(f, PortList(l)))
    ensures SameMeaning(f, PortList(l), Compressed(f, PortList(l))) <==> NoRepeats(l) || Compressed(f, PortList(l)) == PortList(l)
  {
    var s := PortList(l);
    assert HasPort(f, l[0]) && l[0] in l;
    if Compressed(f, s).OneNode? {
      var g := l[0].node;
      PortsOfSize(f, g);
      forall p | p in l
        ensures p in PortsOf(f, g)
      {
        assert HasPort(f, p);
      }
      CoversIff(l, PortsOf(f, g));
      if SameMeaning(f, s, OneNode(g)) {
        forall p | p in PortsOf(f, g)
          ensures p in l
        {
          assert HasPort(f, p) && AcceptsPort(f, p, OneNode(g));
        }
      }
    }
  }

  lemma {:induction false} NodeListKeepsIff(f: Fabric, l: seq<Key>)
    requires InFabric(f, NodeList(l))
    ensures InFabric(f, Compressed(f, NodeList(l)))
    ensures SameMeaning(f, NodeList(l), Compressed(f, NodeList(l))) <==> NoRepeats(l) || Compressed(f, NodeList(l)) == NodeList(l)
  {
    var s := NodeList(l);
    assert l[0] in l;
    if Compressed(f, s).OneSystem? {
      CoversIff(l, NodesOf(f, f[l[0]].system));
      if SameMeaning(f, s, Compressed(f, s)) {
        forall g | g in NodesOf(f, f[l[0]].system)
          ensures g in l
        {
          assert AcceptsNode(f, g, Compressed(f, s));
        }
      }
    }
  }

  ghost predicate AreThePortsOf(f: Fabric, l: seq<PortId>, g: Key) {
    g in f && forall p :: p in l <==> HasPort(f, p) && p.node == g
  }

  ghost predicate AreTheNodesOf(f: Fabric, l: seq<Key>, y: Key) {
    forall g :: g in l <==> g in f && f[g].system == y
  }

  /** A list that repeats nothing is collapsed exactly when it is one thing or all of a node or system. */
  lemma {:induction false} CollapsesIff(f: Fabric, s: Selection)
    requires InFabric(f, s) && Unrepeated(s)
    ensures s.PortList? ==>
              && (|s.list| == 1 <==> Compressed(f, s) == OnePort(s.list[0]))
              && (forall g :: |s.list| > 1 && AreThePortsOf(f, s.list, g) <==> Compressed(f, s) == OneNode(g))
    ensures s.NodeList? ==>
              && (|s.nodes| == 1 <==> Compressed(f, s) == OneNode(s.nodes[0]))
              && (forall y :: |s.nodes| > 1 && AreTheNodesOf(f, s.nodes, y) <==> Compressed(f, s) == OneSystem(y))
  {
    if s.PortList? {
      forall g ensures |s.list| > 1 && AreThePortsOf(f, s.list, g) <==> Compressed(f, s) == OneNode(g) {
        PortsCollapse(f, s.list, g);
      }
    } else if s.NodeList? {
      forall y ensures |s.nodes| > 1 && AreTheNodesOf(f, s.nodes, y) <==> Compressed(f, s) == OneSystem(y) {
        NodesCollapse(f, s.nodes, y);
      }
    }
  }

  lemma {:induction false} PortsCollapse(f: Fabric, l: seq<PortId>, g: Key)
    requires InFabric(f, PortList(l)) && NoRepeats(l)
    ensures |l| > 1 && AreThePortsOf(f, l, g) <==> Compressed(f, PortList(l)) == OneNode(g)
  {
    assert HasPort(f, l[0]) && l[0] in l;
    CountIff(l);
    if |l| > 1 && AreThePortsOf(f, l, g) {
      PortsOfSize(f, g);
      assert Elements(l) == PortsOf(f, g);
    }
    if Compressed(f, PortList(l)) == OneNode(g) {
      CompressKeepsIff(f, PortList(l));
      forall p ensures p in l <==> HasPort(f, p) && p.node == g {
        assert HasPort(f, p) ==> (AcceptsPort(f, p, PortList(l)) <==> AcceptsPort(f, p, OneNode(g)));
      }
    }
  }

  lemma {:induction false} NodesCollapse(f: Fabric, l: seq<Key>, y: Key)
    requires InFabric(f, NodeList(l)) && NoRepeats(l)
    ensures |l| > 1 && AreTheNodesOf(f, l, y) <==> Compressed(f, NodeList(l)) == OneSystem(y)
  {
    assert l[0] in l;
    CountIff(l);
    if |l| > 1 && AreTheNodesOf(f, l, y) {
      assert Elements(l) == NodesOf(f, y);
    }
    if Compressed(f, NodeList(l)) == OneSystem(y) {
      CompressKeepsIff(f, NodeList(l));
      forall g ensures g in l <==> g in f && f[g].system == y {
        assert g in f ==> (AcceptsNode(f, g, NodeList(l)) <==> AcceptsNode(f, g, OneSystem(y)));
      }
    }
  }
}
