/** Validating a topology file (Topology/topology.c:1235-1381). */
module TopologyValidation {
  import opened Options
  import opened Sequences
  import opened Widths
  import opened OrderedKeys
  import opened LinkSelectors
  import opened TopologyNodes
  import opened TopologyCheck
  import opened TopologyTable
  import opened TopologyGraph
  import opened TopologyRules

  const SOMEWHAT_STRICT := 2
  const STRICT := 3
  const PNUM_SHIFT := 0x4000_0000

  /** The node the search starts from: the first switch, or the first adapter if there is none. */
  function Root(ls: Lists): (r: Option<ExpectedNode>)
    ensures r.Some? ==> r.value in ls.Nodes()
    ensures r.None? ==> ls.Nodes() == {}
  {
    if ls.switches != [] then Some(ls.switches[0]) else if ls.fis != [] then Some(ls.fis[0]) else None
  }

  lemma {:induction false} ReachesBack(ls: Lists, links: Links, n: nat, a: ExpectedNode, b: ExpectedNode)
    requires ls.WellFormed() && ReachesIn(ls, links, n, a, b) && a in ls.Nodes()
    ensures ReachesIn(ls, links, n, b, a)
  {
    hide Joined;
    if n > 0 {
      var c :| c in ls.Nodes() && Joined(ls, links, a, c) && ReachesIn(ls, links, n - 1, c, b);
      ReachesBack(ls, links, n - 1, c, b);
      JoinedBack(ls, links, a, c);
      assert ReachesIn(ls, links, 0, a, a);
      assert ReachesIn(ls, links, 1, c, a);
      ReachesBy(ls, links, n - 1, 1, b, c, a);
    }
  }

  lemma {:induction false} JoinedBack(ls: Lists, links: Links, a: ExpectedNode, b: ExpectedNode)
    requires ls.WellFormed() && Joined(ls, links, a, b)
    ensures Joined(ls, links, b, a)
  {
    var j :| 0 <= j < |links| && Runs(ls, links, j, a, b);
    assert Runs(ls, links, j, b, a);
  }

  /** The nodes are connected exactly when one of them reaches them all. */
  lemma {:induction false} ConnectedIffReached(ls: Lists, links: Links, root: ExpectedNode)
    requires ls.WellFormed() && root in ls.Nodes()
    ensures AllConnected(ls, links) <==> forall b :: b in ls.Nodes() ==> Reaches(ls, links, root, b)
  {
    hide Joined, ReachesIn;
    if forall b :: b in ls.Nodes() ==> Reaches(ls, links, root, b) {
      forall a, b | a in ls.Nodes() && b in ls.Nodes()
        ensures Reaches(ls, links, a, b)
      {
        var n: nat :| ReachesIn(ls, links, n, root, a);
        var m: nat :| ReachesIn(ls, links, m, root, b);
        ReachesBack(ls, links, n, root, a);
        ReachesBy(ls, links, n, m, a, root, b);
      }
    }
  }

  ghost predicate AllMarked(s: seq<ExpectedNode>)
    reads s
  {
    forall n :: n in s ==> n.connected
  }

  method CheckMarked(s: seq<ExpectedNode>) returns (all: bool)
    ensures all == AllMarked(s)
  {
    all := true;
    for i := 0 to |s|
      invariant all == AllMarked(s[..i])
    {
      assert s[..i + 1] == s[..i] + [s[i]];
      if !s[i].connected {
        all := false;
      }
    }
    assert s[..|s|] == s;
  }

  /** Mark what the root reaches, and see that this is everything. */
  method TopologyValidateNoLinksDisjoint(ls: Lists, links: Links, ghost t: Ends) returns (ok: bool)
    requires ls.WellFormed() && TablesFit(ls) && Resolved(ls, links, t) && Marked(ls) == {}
    modifies ls.Nodes()`connected
    ensures ok <==> AllConnected(ls, links)
    ensures ls.Nodes() != {} ==>
              forall x :: x in Marked(ls) <==>
                x in ls.Nodes() && Reaches(ls, links, if ls.switches != [] then ls.switches[0] else ls.fis[0], x)
  {
    hide Joined, Reaches, Resolved;
    if Root(ls).None? {
      return true;
    }
    var root := Root(ls).value;
    TopologyValidateLinkHelper(ls, links, t, root);
    MarkedIsReached(ls, links, Marked(ls), root);
    ConnectedIffReached(ls, links, root);
    ok := CheckMarked(ls.switches);
    var fisToo := CheckMarked(ls.fis);
    ok := ok && fisToo;
    assert ok <==> forall x :: x in ls.Nodes() ==> x in Marked(ls);
  }

  lemma {:induction false} MarkedIsReached(ls: Lists, links: Links, now: set<ExpectedNode>, root: ExpectedNode)
    requires ls.WellFormed() && root in now && now <= ls.Nodes() && Searched(ls, links, {}, now, root)
    ensures forall x :: x in now <==> x in ls.Nodes() && Reaches(ls, links, root, x)
  {
    hide Joined, ReachesIn;
    forall x | x in ls.Nodes() && Reaches(ls, links, root, x)
      ensures x in now
    {
      var n: nat :| ReachesIn(ls, links, n, root, x);
      ClosedHoldsReached(ls, links, now, n, root, x);
    }
  }

  // ---------------------------------------------------------------- the whole check

  /** The interface address of a switch with its port number bits cleared. */
  function PortZeroGuid(guid: Key): int {
    guid - guid / PNUM_SHIFT % 4 * PNUM_SHIFT
  }

  /** Port 0 of the switch does not contradict its address. */
  predicate PortZeroFits(n: ExpectedNode)
    reads n`ports, n`portsSize
  {
    n.portsSize > 0 && |n.ports| > 0 && n.ports[0].Some? && n.ports[0].value.portGuid != 0 && n.nodeGuid != 0
    ==> n.ports[0].value.portGuid == PortZeroGuid(n.nodeGuid)
  }

  lemma {:induction false} HasParts(g: nat)
    ensures g == (g / 0x1_0000_0000) * 0x1_0000_0000 + (g / PNUM_SHIFT % 4) * PNUM_SHIFT + g % PNUM_SHIFT
  {
    var q := g / PNUM_SHIFT;
    assert g == q * PNUM_SHIFT + g % PNUM_SHIFT && q == (q / 4) * 4 + q % 4;
    Quotients(g);
  }

  lemma {:induction false} Quotients(g: nat)
    ensures g / PNUM_SHIFT / 4 == g / 0x1_0000_0000
  {
  }

  lemma {:induction false} PartsAre(a: nat, c: nat)
    requires c < PNUM_SHIFT
    ensures var g := a * 0x1_0000_0000 + c; g / 0x1_0000_0000 == a && g / PNUM_SHIFT % 4 == 0 && g % PNUM_SHIFT == c
  {
    var g := a * 0x1_0000_0000 + c;
    assert g == PNUM_SHIFT * (4 * a) + c;
    assert g / PNUM_SHIFT == 4 * a && g % PNUM_SHIFT == c;
  }

  /** The address of port 0 is the node's without bits 30 and 31. */
  lemma {:induction false} PortZeroGuidIs(guid: Key, r: Key)
    ensures r == PortZeroGuid(guid)
            <==> r / 0x1_0000_0000 == guid / 0x1_0000_0000 && r % 0x4000_0000 == guid % 0x4000_0000 && r / 0x4000_0000 % 4 == 0
  {
    HasParts(guid);
    HasParts(r);
    PartsAre(guid / 0x1_0000_0000, guid % PNUM_SHIFT);
  }

  /** Port 0 fits exactly if it or its address is not given, or the node's is not, or it is that one. */
  lemma {:induction false} PortZeroFitsIff(n: ExpectedNode)
    requires n.Table().Fits()
    ensures PortZeroFits(n)
            <==> n.ports == [] || n.ports[0] == None || n.ports[0].value.portGuid == 0 || n.nodeGuid == 0
                 || (var r, g := n.ports[0].value.portGuid, n.nodeGuid;
                     r / 0x1_0000_0000 == g / 0x1_0000_0000 && r % 0x4000_0000 == g % 0x4000_0000 && r / 0x4000_0000 % 4 == 0)
  {
    if n.ports != [] && n.ports[0].Some? {
      PortZeroGuidIs(n.nodeGuid, n.ports[0].value.portGuid);
    }
  }

  ghost predicate PortZerosFit(s: seq<ExpectedNode>)
    reads s
  {
    forall n :: n in s ==> PortZeroFits(n)
  }

  method CheckPortZeros(s: seq<ExpectedNode>) returns (ok: bool)
    ensures ok == PortZerosFit(s)
  {
    ok := true;
    for i := 0 to |s|
      invariant ok == PortZerosFit(s[..i])
    {
      assert s[..i + 1] == s[..i] + [s[i]];
      var n := s[i];
      if n.portsSize > 0 && |n.ports| > 0 && n.ports[0].Some? && n.ports[0].value.portGuid != 0 && n.nodeGuid != 0
         && n.ports[0].value.portGuid != PortZeroGuid(n.nodeGuid) {
        ok := false;
        assert !PortZeroFits(n) && n in s[..i + 1];
      } else {
        assert PortZeroFits(n);
      }
    }
    assert s[..|s|] == s;
  }

  /** The ports the nodes list. */
  ghost function ListedPorts(ls: Lists): set<End>
    reads ls.Nodes()`ports
  {
    set n, k: Uint16 | n in ls.Nodes() && 0 <= k < |n.ports| && Listed(n, k) :: End(n, k)
  }

  ghost function ListedFor(ls: Lists, validation: nat): Option<set<End>>
    reads ls.Nodes()`ports
  {
    if validation == STRICT then Some(ListedPorts(ls)) else None
  }

  /** No marks, and no port points to a link. */
  ghost predicate Cleared(ls: Lists)
    reads ls.Nodes()
  {
    Marked(ls) == {} && forall n, k: Uint16 :: n in ls.Nodes() ==> Holder(n, k).None?
  }

  /** What a topology must satisfy to pass at SOMEWHAT_STRICT and above. */
  ghost predicate Passes(ls: Lists, links: Links, listed: Option<set<End>>)
    requires ls.WellFormed()
  {
    && Sound(ls, listed, links, Sides(links, |links|)) && Distinct(ls, links, Sides(links, |links|)) && AllConnected(ls, links)
  }

  /** Validate. At the strict levels a topology passes exactly when it has links, its switches'
      port 0 addresses fit, every end of every non-empty link names a port of an expected node
      (listed, at STRICT) that no other end names, and all nodes are connected; then the ports
      point to their links, the selectors to their nodes, and exactly the nodes the root reaches
      are marked. At the other levels only the presence of links matters. */
  method TopologyValidate(ls: Lists, links: Links, validation: nat) returns (ok: bool, ghost t: Ends)
    requires ls.WellFormed() && SmallPorts(links) && NoRepeats(links) && TablesFit(ls) && Cleared(ls)
    modifies ls.Nodes(), links
    ensures validation < SOMEWHAT_STRICT ==> (ok <==> links != [])
    ensures validation >= SOMEWHAT_STRICT ==>
              (ok <==> links != [] && old(PortZerosFit(ls.switches)) && KeepsRules(ls, links, old(ListedFor(ls, validation))))
    ensures validation >= SOMEWHAT_STRICT && ok ==>
              && Resolved(ls, links, t)
              && (ls.Nodes() != {} ==>
                    forall x :: x in Marked(ls) <==>
                      x in ls.Nodes() && Reaches(ls, links, if ls.switches != [] then ls.switches[0] else ls.fis[0], x))
  {
    hide Resolved, Passes, KeepsRules, Progress, AllConnected, Reaches, TablesFit;
    t := map[];
    if links == [] {
      return false, t;
    }
    ghost var listed := ListedFor(ls, validation);
    ClearedShows(ls, links, validation);
    ok := CheckPortZeros(ls.switches);
    var resolved;
    resolved, t := ResolveLinks(ls, links, listed, validation == STRICT);
    ResolvedIff(ls, listed, links, t, resolved);
    PassesIff(ls, links, listed);
    ok := ok && resolved;
    if ok && validation >= SOMEWHAT_STRICT {
      ok := TopologyValidateNoLinksDisjoint(ls, links, t);
    }
    if validation < SOMEWHAT_STRICT {
      return true, t;
    }
  }

  /** What validation decides is that the links keep the rules. */
  lemma {:induction false} PassesIff(ls: Lists, links: Links, listed: Option<set<End>>)
    requires ls.WellFormed()
    ensures Passes(ls, links, listed) <==> KeepsRules(ls, links, listed)
  {
    hide Sound, Distinct, AllConnected, EveryEndNamed, NoPortNamedTwice, Undivided, Sides;
    SoundIff(ls, links, listed);
    if Sound(ls, listed, links, Sides(links, |links|)) {
      DistinctIff(ls, links, listed);
    }
    ConnectedIffUndivided(ls, links);
  }

  lemma {:induction false} ClearedShows(ls: Lists, links: Links, validation: nat)
    requires ls.WellFormed() && Cleared(ls)
    ensures Shows(ls, links, map[]) && ListedAre(ls, ListedFor(ls, validation))
  {
  }

  lemma {:induction false} ResolvedIff(ls: Lists, listed: Option<set<End>>, links: Links, t: Ends, ok: bool)
    requires ls.WellFormed() && Progress(ls, listed, links, |links|, t, ok)
    ensures ok ==> Resolved(ls, links, t)
    ensures Passes(ls, links, listed) <==> ok && AllConnected(ls, links)
  {
    hide AllConnected, Shows, Pointed, ListedAre;
    FillIff(ls, listed, links, Sides(links, |links|));
  }
}
