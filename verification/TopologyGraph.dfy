/** The graph search over expected nodes (Topology/topology.c, TopologyValidateLinkHelper and
    TopologyValidateNoLinksDisjoint). */
module TopologyGraph {
  import opened Options
  import opened Widths
  import opened OrderedKeys
  import opened LinkSelectors
  import opened TopologyNodes
  import opened TopologyCheck
  import opened TopologyTable

  /** Link j runs between nodes a and b. */
  ghost predicate Runs(ls: Lists, links: Links, j: nat, a: ExpectedNode, b: ExpectedNode)
    requires ls.WellFormed() && j < |links|
  {
    var e, e' := EndAt(ls, links, Side(j, true)), EndAt(ls, links, Side(j, false));
    && !Empty(links[j]) && e.Some? && e'.Some?
    && ((e.value.node == a && e'.value.node == b) || (e.value.node == b && e'.value.node == a))
  }

  ghost predicate Joined(ls: Lists, links: Links, a: ExpectedNode, b: ExpectedNode)
    requires ls.WellFormed()
  {
    exists j :: 0 <= j < |links| && Runs(ls, links, j, a, b)
  }

  /** A path of n links leads from a to b. */
  ghost predicate ReachesIn(ls: Lists, links: Links, n: nat, a: ExpectedNode, b: ExpectedNode)
    requires ls.WellFormed()
  {
    if n == 0 then a == b else exists c :: c in ls.Nodes() && Joined(ls, links, a, c) && ReachesIn(ls, links, n - 1, c, b)
  }

  ghost predicate Reaches(ls: Lists, links: Links, a: ExpectedNode, b: ExpectedNode)
    requires ls.WellFormed()
  {
    exists n: nat :: ReachesIn(ls, links, n, a, b)
  }

  lemma {:induction false} ReachesItself(ls: Lists, links: Links, a: ExpectedNode)
    requires ls.WellFormed()
    ensures Reaches(ls, links, a, a)
  {
    assert ReachesIn(ls, links, 0, a, a);
  }

  lemma {:induction false} ReachesVia(ls: Lists, links: Links, a: ExpectedNode, b: ExpectedNode, c: ExpectedNode)
    requires ls.WellFormed() && b in ls.Nodes() && Joined(ls, links, a, b) && Reaches(ls, links, b, c)
    ensures Reaches(ls, links, a, c)
  {
    var n: nat :| ReachesIn(ls, links, n, b, c);
    assert ReachesIn(ls, links, n + 1, a, c);
  }

  ghost predicate AllConnected(ls: Lists, links: Links)
    requires ls.WellFormed()
  {
    forall a, b :: a in ls.Nodes() && b in ls.Nodes() ==> Reaches(ls, links, a, b)
  }

  lemma {:induction false} ReachesBy(ls: Lists, links: Links, n: nat, m: nat, a: ExpectedNode, b: ExpectedNode, c: ExpectedNode)
    requires ls.WellFormed() && ReachesIn(ls, links, n, a, b) && ReachesIn(ls, links, m, b, c)
    ensures ReachesIn(ls, links, n + m, a, c)
  {
    hide Joined;
    if n > 0 {
      var d :| d in ls.Nodes() && Joined(ls, links, a, d) && ReachesIn(ls, links, n - 1, d, b);
      ReachesBy(ls, links, n - 1, m, d, b, c);
    }
  }

  /** A set that holds a node and the neighbours of its members holds all the node reaches. */
  lemma {:induction false} ClosedHoldsReached(ls: Lists, links: Links, s: set<ExpectedNode>, n: nat, a: ExpectedNode, b: ExpectedNode)
    requires ls.WellFormed() && ReachesIn(ls, links, n, a, b) && a in s
    requires forall x, y :: x in s && y in ls.Nodes() && Joined(ls, links, x, y) ==> y in s
    ensures b in s
  {
    hide Joined;
    if n > 0 {
      var c :| c in ls.Nodes() && Joined(ls, links, a, c) && ReachesIn(ls, links, n - 1, c, b);
      ClosedHoldsReached(ls, links, s, n - 1, c, b);
    }
  }

  /** Every link is attached and its selectors point to its nodes. */
  ghost predicate Resolved(ls: Lists, links: Links, t: Ends)
    requires ls.WellFormed()
    reads ls.Nodes()`ports, links
  {
    Shows(ls, links, t) && TableIs(ls, links, Sides(links, |links|), t) && Pointed(ls, links, |links|)
  }

  lemma {:induction false} SidesAre(links: Links, n: nat)
    requires n <= |links|
    ensures forall s :: s in Sides(links, n) <==> s.link < n && !Empty(links[s.link])
  {
    if n > 0 {
      SidesAre(links, n - 1);
    }
  }

  /** A port's link joins its node to the node at the other end. */
  lemma {:induction false} HolderJoins(ls: Lists, links: Links, t: Ends, n: ExpectedNode, k: Uint16)
    requires ls.WellFormed() && Resolved(ls, links, t) && n in ls.Nodes() && Holder(n, k).Some?
    ensures var l := Holder(n, k).value;
            && l.enodep1 != null && l.enodep2 != null && l.enodep1 in ls.Nodes() && l.enodep2 in ls.Nodes()
            && ((l.enodep1 == n && Joined(ls, links, n, l.enodep2)) || (l.enodep2 == n && Joined(ls, links, n, l.enodep1)))
  {
    hide EndAt, Sides;
    SidesAre(links, |links|);
    var sides := Sides(links, |links|);
    var i :| 0 <= i < |sides| && EndAt(ls, links, sides[i]) == Some(End(n, k));
    var j := sides[i].link;
    assert sides[i] in sides && t[End(n, k)] == j && Holder(n, k) == Some(links[j]);
    assert Runs(ls, links, j, links[j].enodep1, links[j].enodep2) && Runs(ls, links, j, links[j].enodep2, links[j].enodep1);
  }

  /** A node joined to n is at one end of a link at some port of n. */
  lemma {:induction false} JoinedIsHeld(ls: Lists, links: Links, t: Ends, n: ExpectedNode, b: ExpectedNode) returns (k: Uint16)
    requires ls.WellFormed() && Resolved(ls, links, t) && n in ls.Nodes() && Joined(ls, links, n, b)
    ensures k < |n.ports| && Holder(n, k).Some? && b in {Holder(n, k).value.enodep1, Holder(n, k).value.enodep2}
  {
    hide EndAt, Sides, Runs, TableIs;
    var j :| 0 <= j < |links| && Runs(ls, links, j, n, b);
    k := RunsAtPort(ls, links, t, j, n, b);
    RunsBetween(ls, links, j, n, b);
    assert Holder(n, k) == Some(links[j]);
  }

  lemma {:induction false} RunsBetween(ls: Lists, links: Links, j: nat, n: ExpectedNode, b: ExpectedNode)
    requires ls.WellFormed() && Pointed(ls, links, |links|) && j < |links| && Runs(ls, links, j, n, b)
    ensures b in {links[j].enodep1, links[j].enodep2}
  {
    hide EndAt;
  }

  lemma {:induction false} RunsAtPort(ls: Lists, links: Links, t: Ends, j: nat, n: ExpectedNode, b: ExpectedNode) returns (k: Uint16)
    requires ls.WellFormed() && TableIs(ls, links, Sides(links, |links|), t) && j < |links| && Runs(ls, links, j, n, b)
    ensures End(n, k) in t && t[End(n, k)] == j
  {
    hide EndAt, Sides;
    SidesAre(links, |links|);
    var sides := Sides(links, |links|);
    var s := Side(j, EndAt(ls, links, Side(j, true)).value.node == n);
    assert s in sides;
    var i :| 0 <= i < |sides| && sides[i] == s;
    k := EndAt(ls, links, s).value.num;
    assert EndAt(ls, links, s).value == End(n, k);
  }

  // ---------------------------------------------------------------- the search

  ghost function Marked(ls: Lists): set<ExpectedNode>
    reads ls.Nodes()`connected
  {
    set n | n in ls.Nodes() && n.connected
  }

  /** What one search adds: nodes reached from n, whose neighbours are all marked. */
  ghost predicate Searched(ls: Lists, links: Links, was: set<ExpectedNode>, now: set<ExpectedNode>, n: ExpectedNode)
    requires ls.WellFormed()
  {
    && was <= now
    && (forall x :: x in now - was ==> Reaches(ls, links, n, x))
    && forall x, y :: x in now - was && y in ls.Nodes() && Joined(ls, links, x, y) ==> y in now
  }

  /** Mark everything not yet marked that can be reached past unmarked nodes. */
  method TopologyValidateLinkHelper(ls: Lists, links: Links, ghost t: Ends, enodep: ExpectedNode?)
    requires ls.WellFormed() && TablesFit(ls) && Resolved(ls, links, t)
    requires enodep != null ==> enodep in ls.Nodes()
    modifies ls.Nodes()`connected
    ensures enodep == null ==> Marked(ls) == old(Marked(ls))
    ensures enodep != null ==> enodep in Marked(ls) && Searched(ls, links, old(Marked(ls)), Marked(ls), enodep)
    decreases |ls.Nodes() - Marked(ls)|, 2
  {
    hide Joined, Reaches, Resolved;
    if enodep == null {
      return;
    }
    if enodep.connected {
      return;
    }
    ghost var was := Marked(ls);
    enodep.connected := true;
    MarkOne(ls, links, was, enodep);
    SearchPorts(ls, links, t, enodep, was);
  }

  lemma {:induction false} MarkOne(ls: Lists, links: Links, was: set<ExpectedNode>, n: ExpectedNode)
    requires ls.WellFormed() && n in ls.Nodes()
    ensures Partial(ls, links, was, was + {n}, n)
  {
    ReachesItself(ls, links, n);
  }

  /** As Searched, but n's own neighbours may still be missing. */
  ghost predicate Partial(ls: Lists, links: Links, was: set<ExpectedNode>, now: set<ExpectedNode>, n: ExpectedNode)
    requires ls.WellFormed()
  {
    && was + {n} <= now
    && (forall x :: x in now - was ==> Reaches(ls, links, n, x))
    && forall x, y :: x in now - was - {n} && y in ls.Nodes() && Joined(ls, links, x, y) ==> y in now
  }

  /** Search on from each end of each link at the node's ports. */
  method SearchPorts(ls: Lists, links: Links, ghost t: Ends, n: ExpectedNode, ghost was: set<ExpectedNode>)
    requires ls.WellFormed() && TablesFit(ls) && Resolved(ls, links, t) && n in ls.Nodes()
    requires Marked(ls) == was + {n} && n !in was && Partial(ls, links, was, Marked(ls), n)
    modifies ls.Nodes()`connected
    ensures n in Marked(ls) && Searched(ls, links, was, Marked(ls), n)
    decreases |ls.Nodes() - was|, 1
  {
    hide Joined, Reaches, Resolved, Partial, Searched;
    ghost var start := Marked(ls);
    var i := 0;
    while i < n.portsSize
      invariant 0 <= i <= n.portsSize && start <= Marked(ls) && Partial(ls, links, was, Marked(ls), n)
      invariant forall k: Uint16 :: k < i && Holder(n, k).Some? ==> BothMarked(Marked(ls), Holder(n, k).value)
    {
      if n.ports[i].Some? && n.ports[i].value.elinkp.Some? {
        HolderJoins(ls, links, t, n, i);
        SearchEnds(ls, links, t, n, was, n.ports[i].value.elinkp.value);
      }
      i := i + 1;
    }
    AllPortsSearched(ls, links, t, n, was);
  }

  method SearchEnds(ls: Lists, links: Links, ghost t: Ends, n: ExpectedNode, ghost was: set<ExpectedNode>, l: ExpectedLink)
    requires ls.WellFormed() && TablesFit(ls) && Resolved(ls, links, t) && n in ls.Nodes() && n !in was
    requires was + {n} <= Marked(ls) && Partial(ls, links, was, Marked(ls), n)
    requires l.enodep1 != null && l.enodep1 in ls.Nodes() && (l.enodep1 == n || Joined(ls, links, n, l.enodep1))
    requires l.enodep2 != null && l.enodep2 in ls.Nodes() && (l.enodep2 == n || Joined(ls, links, n, l.enodep2))
    modifies ls.Nodes()`connected
    ensures old(Marked(ls)) <= Marked(ls) && Partial(ls, links, was, Marked(ls), n) && BothMarked(Marked(ls), l)
    decreases |ls.Nodes() - was|, 0
  {
    hide Joined, Reaches, Resolved, Partial, Searched, TablesFit;
    ghost var before := Marked(ls);
    FewerLeft(ls, was, before, n);
    TopologyValidateLinkHelper(ls, links, t, l.enodep1);
    ghost var between := Marked(ls);
    PartialGrows(ls, links, was, before, between, n, l.enodep1);
    FewerLeft(ls, was, between, n);
    TopologyValidateLinkHelper(ls, links, t, l.enodep2);
    PartialGrows(ls, links, was, between, Marked(ls), n, l.enodep2);
  }

  lemma {:induction false} FewerLeft(ls: Lists, was: set<ExpectedNode>, now: set<ExpectedNode>, n: ExpectedNode)
    requires n in ls.Nodes() && n !in was && was + {n} <= now
    ensures |ls.Nodes() - now| < |ls.Nodes() - was|
  {
    var left, more := ls.Nodes() - now, ls.Nodes() - was - {n};
    assert more == left + (more - left) && ls.Nodes() - was == more + {n};
  }

  /** Searching on from a neighbour, or from n itself, keeps the search partial. */
  lemma {:induction false} PartialGrows(ls: Lists, links: Links, was: set<ExpectedNode>, mid: set<ExpectedNode>,
                                        now: set<ExpectedNode>, n: ExpectedNode, c: ExpectedNode)
    requires ls.WellFormed() && c in ls.Nodes() && (c == n || Joined(ls, links, n, c))
    requires Partial(ls, links, was, mid, n) && Searched(ls, links, mid, now, c)
    ensures Partial(ls, links, was, now, n) && mid <= now
  {
    hide Joined, Reaches;
    forall x | x in now - mid
      ensures Reaches(ls, links, n, x)
    {
      if c != n {
        ReachesVia(ls, links, n, c, x);
      }
    }
  }

  lemma {:induction false} AllPortsSearched(ls: Lists, links: Links, t: Ends, n: ExpectedNode, was: set<ExpectedNode>)
    requires ls.WellFormed() && Resolved(ls, links, t) && n in ls.Nodes() && Partial(ls, links, was, Marked(ls), n)
    requires forall k: Uint16 :: k < |n.ports| && Holder(n, k).Some? ==> BothMarked(Marked(ls), Holder(n, k).value)
    ensures Searched(ls, links, was, Marked(ls), n)
  {
    hide Joined, Reaches, Resolved;
    forall y | y in ls.Nodes() && Joined(ls, links, n, y)
      ensures y in Marked(ls)
    {
      var k := JoinedIsHeld(ls, links, t, n, y);
    }
  }

  predicate BothMarked(marked: set<ExpectedNode>, l: ExpectedLink)
    reads l
  {
    l.enodep1 in marked && l.enodep2 in marked
  }
}
