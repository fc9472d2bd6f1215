/** In what order the adapter ports of a selection are given (Topology/focus.c:1307-1661). */
module IteratorOrder {
  import opened OrderedKeys
  import opened PortIds
  import opened Points
  import opened PortIterator

  /** x comes before y in the sequence. */
  ghost predicate Before<T>(s: seq<T>, x: T, y: T) {
    exists i, j :: 0 <= i < j < |s| && s[i] == x && s[j] == y
  }

  lemma {:induction false} BeforeInFront<T>(s: seq<T>, t: seq<T>, x: T, y: T)
    requires Before(s, x, y)
    ensures Before(s + t, x, y)
  {
    var i, j :| 0 <= i < j < |s| && s[i] == x && s[j] == y;
    assert (s + t)[i] == x && (s + t)[j] == y;
  }

  lemma {:induction false} BeforeBehind<T>(s: seq<T>, t: seq<T>, x: T, y: T)
    requires Before(t, x, y)
    ensures Before(s + t, x, y)
  {
    var i, j :| 0 <= i < j < |t| && t[i] == x && t[j] == y;
    assert (s + t)[|s| + i] == x && (s + t)[|s| + j] == y;
  }

  lemma {:induction false} BeforeAcross<T>(s: seq<T>, t: seq<T>, x: T, y: T)
    requires x in s && y in t
    ensures Before(s + t, x, y)
  {
    var i :| 0 <= i < |s| && s[i] == x;
    var j :| 0 <= j < |t| && t[j] == y;
    assert (s + t)[i] == x && (s + t)[|s| + j] == y;
  }

  lemma PlacesAscend(nums: seq<Key>, i: nat, j: nat)
    requires i < |nums| && j < |nums| && nums[i] < nums[j]
    requires forall a, b :: 0 <= a < b < |nums| ==> nums[a] < nums[b]
    ensures i < j
  {
  }

  lemma {:induction false} NumbersAscend(f: Fabric, p: PortId, q: PortId)
    requires HasPort(f, p) && HasPort(f, q) && p.node == q.node && p.num < q.num && !f[p.node].isSwitch
    ensures Before(AdapterPorts(f, p.node), p, q)
  {
    hide SortedKeys;
    var nums := SortedKeys(f[p.node].ports);
    SortedKeysAreTheKeys(f[p.node].ports);
    var i :| 0 <= i < |nums| && nums[i] == p.num;
    var j :| 0 <= j < |nums| && nums[j] == q.num;
    assert AdapterPorts(f, p.node)[i] == p && AdapterPorts(f, p.node)[j] == q;
    PlacesAscend(nums, i, j);
  }

  /** Adapters come in the order of the list, the ports of one in ascending order of their numbers. */
  lemma {:induction false} NodesInOrder(f: Fabric, nodes: seq<Key>, i: nat, j: nat, p: PortId, q: PortId)
    requires (forall g :: g in nodes ==> g in f) && i <= j < |nodes| && p.node == nodes[i] && q.node == nodes[j]
    requires HasPort(f, p) && HasPort(f, q) && !f[p.node].isSwitch && !f[q.node].isSwitch && (i == j ==> p.num < q.num)
    ensures Before(PortsOfNodes(f, nodes), p, q)
    decreases |nodes|
  {
    hide AdapterPorts, Before;
    var first, rest := AdapterPorts(f, nodes[0]), PortsOfNodes(f, nodes[1..]);
    if i > 0 {
      NodesInOrder(f, nodes[1..], i - 1, j - 1, p, q);
      BeforeBehind(first, rest, p, q);
    } else if j == 0 {
      NumbersAscend(f, p, q);
      BeforeInFront(first, rest, p, q);
    } else {
      AdapterPortsIff(f, nodes[0], p);
      NodesIff(f, nodes[1..], q);
      assert nodes[1..][j - 1] == q.node;
      BeforeAcross(first, rest, p, q);
    }
  }

  /** The adapter ports of a list come in its order. */
  lemma {:induction false} ListInOrder(f: Fabric, ports: seq<PortId>, i: nat, j: nat)
    requires (forall p :: p in ports ==> HasPort(f, p)) && i < j < |ports|
    requires HasPort(f, ports[i]) && HasPort(f, ports[j]) && !f[ports[i].node].isSwitch && !f[ports[j].node].isSwitch
    ensures Before(AdaptersAmong(f, ports), ports[i], ports[j])
    decreases |ports|
  {
    hide Before;
    assert HasPort(f, ports[0]);
    var first, rest := if f[ports[0].node].isSwitch then [] else [ports[0]], AdaptersAmong(f, ports[1..]);
    if i > 0 {
      ListInOrder(f, ports[1..], i - 1, j - 1);
      BeforeBehind(first, rest, ports[i], ports[j]);
    } else {
      AmongIff(f, ports[1..], ports[j]);
      assert ports[1..][j - 1] == ports[j];
      BeforeAcross(first, rest, ports[i], ports[j]);
    }
  }
}
