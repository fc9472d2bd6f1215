/** The rules a topology must keep, in the fields of its links' selectors and of its nodes
    (Topology/topology.c:1116-1204 and 1308-1364; Topology/search.c:2141-2199). */
module TopologyRules {
  import opened Options
  import opened Widths
  import opened OrderedKeys
  import opened LinkSelectors
  import opened TopologyNodes
  import opened TopologyCheck
  import opened TopologyNames
  import opened TopologyGraph

  // ---------------------------------------------------------------- the rules

  /** The selector names a port of a node; a listed one, under strict validation. */
  ghost predicate NamesAPort(ls: Lists, sel: Option<Selector>, listed: Option<set<End>>) {
    exists n, k :: n in ls.Nodes() && Names(ls, sel, n, k) && (listed.Some? ==> End(n, k) in listed.value)
  }

  ghost predicate EveryEndNamed(ls: Lists, links: Links, listed: Option<set<End>>) {
    forall l :: l in links && !(l.portselp1 == None && l.portselp2 == None) ==>
      NamesAPort(ls, l.portselp1, listed) && NamesAPort(ls, l.portselp2, listed)
  }

  /** The selector at one end of a link. */
  ghost function At(links: Links, j: nat, first: bool): Option<Selector>
    requires j < |links|
  {
    if first then links[j].portselp1 else links[j].portselp2
  }

  /** Only one end of one link names any port. */
  ghost predicate NoPortNamedTwice(ls: Lists, links: Links) {
    forall i, j, x, y, n, k :: 0 <= i < |links| && 0 <= j < |links| && n in ls.Nodes() ==>
      (Names(ls, At(links, i, x), n, k) && Names(ls, At(links, j, y), n, k) ==> i == j && x == y)
  }

  /** A link has one end in the set and the other outside. */
  ghost predicate Crosses(ls: Lists, l: ExpectedLink, s: set<ExpectedNode>) {
    exists a, b, k, m :: a in ls.Nodes() && b in ls.Nodes()
        && Names(ls, l.portselp1, a, k) && Names(ls, l.portselp2, b, m) && (a in s <==> b !in s)
  }

  ghost predicate IsCrossed(ls: Lists, links: Links, s: set<ExpectedNode>) {
    exists l :: l in links && Crosses(ls, l, s)
  }

  /** However the nodes are divided in two, a link runs between the parts. */
  ghost predicate Undivided(ls: Lists, links: Links) {
    forall s :: s <= ls.Nodes() && s != {} && s != ls.Nodes() ==> IsCrossed(ls, links, s)
  }

  /** All the rules for links that passing at SOMEWHAT_STRICT and above takes. */
  ghost predicate KeepsRules(ls: Lists, links: Links, listed: Option<set<End>>) {
    EveryEndNamed(ls, links, listed) && NoPortNamedTwice(ls, links) && Undivided(ls, links)
  }

  lemma {:induction false} SoundIff(ls: Lists, links: Links, listed: Option<set<End>>)
    requires ls.WellFormed()
    ensures Sound(ls, listed, links, Sides(links, |links|)) <==> EveryEndNamed(ls, links, listed)
  {
    hide Names, EndAt, Sides, Empty;
    SidesAre(links, |links|);
    forall j, first | 0 <= j < |links|
      ensures SideSound(ls, listed, links, Side(j, first)) <==> NamesAPort(ls, At(links, j, first), listed)
    {
      SideIff(ls, links, listed, j, first);
    }
    SoundAll(ls, links, listed);
    forall j | 0 <= j < |links| ensures Empty(links[j]) <==> links[j].portselp1 == None && links[j].portselp2 == None {
      EmptyIs(links[j]);
    }
    NamedAll(ls, links, listed);
  }

  lemma EmptyIs(l: ExpectedLink)
    ensures Empty(l) <==> l.portselp1 == None && l.portselp2 == None
  {
  }

  lemma {:induction false} SoundAll(ls: Lists, links: Links, listed: Option<set<End>>)
    requires ls.WellFormed()
    ensures Sound(ls, listed, links, Sides(links, |links|))
            <==> forall j, first :: 0 <= j < |links| && !Empty(links[j]) ==> SideSound(ls, listed, links, Side(j, first))
  {
    hide SideSound, Sides, Empty;
    SidesAre(links, |links|);
    var sides := Sides(links, |links|);
    if Sound(ls, listed, links, sides) {
      forall j, first | 0 <= j < |links| && !Empty(links[j]) ensures SideSound(ls, listed, links, Side(j, first)) {
        assert Side(j, first) in sides;
      }
    }
    if forall j, first :: 0 <= j < |links| && !Empty(links[j]) ==> SideSound(ls, listed, links, Side(j, first)) {
      forall k | 0 <= k < |sides| ensures SideSound(ls, listed, links, sides[k]) {
        assert sides[k] in sides && sides[k] == Side(sides[k].link, sides[k].first);
      }
    }
  }

  lemma {:induction false} NamedAll(ls: Lists, links: Links, listed: Option<set<End>>)
    ensures EveryEndNamed(ls, links, listed)
            <==> forall j, first :: 0 <= j < |links| && !(links[j].portselp1 == None && links[j].portselp2 == None) ==>
                   NamesAPort(ls, At(links, j, first), listed)
  {
    hide NamesAPort;
    if EveryEndNamed(ls, links, listed) {
      forall j, first | 0 <= j < |links| && !(links[j].portselp1 == None && links[j].portselp2 == None)
        ensures NamesAPort(ls, At(links, j, first), listed)
      {
        assert links[j] in links;
      }
    }
    if forall j, first :: 0 <= j < |links| && !(links[j].portselp1 == None && links[j].portselp2 == None) ==>
         NamesAPort(ls, At(links, j, first), listed)
    {
      forall l | l in links && !(l.portselp1 == None && l.portselp2 == None)
        ensures NamesAPort(ls, l.portselp1, listed) && NamesAPort(ls, l.portselp2, listed)
      {
        var j :| 0 <= j < |links| && links[j] == l;
        assert NamesAPort(ls, At(links, j, true), listed) && NamesAPort(ls, At(links, j, false), listed);
      }
    }
  }

  lemma {:induction false} SideIff(ls: Lists, links: Links, listed: Option<set<End>>, j: nat, first: bool)
    requires ls.WellFormed() && j < |links|
    ensures SideSound(ls, listed, links, Side(j, first)) <==> NamesAPort(ls, At(links, j, first), listed)
  {
    hide Names, EndAt;
    forall n, k ensures EndAt(ls, links, Side(j, first)) == Some(End(n, k)) <==> Names(ls, At(links, j, first), n, k) {
      EndIff(ls, links, Side(j, first), n, k);
    }
    var e := EndAt(ls, links, Side(j, first));
    if e.Some? {
      assert e == Some(End(e.value.node, e.value.num));
    }
  }

  lemma {:induction false} DistinctIff(ls: Lists, links: Links, listed: Option<set<End>>)
    requires ls.WellFormed() && Sound(ls, listed, links, Sides(links, |links|))
    ensures Distinct(ls, links, Sides(links, |links|)) <==> NoPortNamedTwice(ls, links)
  {
    hide Names, EndAt, Sides, Empty;
    SidesAre(links, |links|);
    var sides := Sides(links, |links|);
    SidesDiffer(links, |links|);
    forall j, first, n, k | 0 <= j < |links|
      ensures EndAt(ls, links, Side(j, first)) == Some(End(n, k)) <==> Names(ls, At(links, j, first), n, k)
    {
      EndIff(ls, links, Side(j, first), n, k);
    }
    if Distinct(ls, links, sides) {
      forall i, j, x, y, n, k | 0 <= i < |links| && 0 <= j < |links| && n in ls.Nodes()
                               && Names(ls, At(links, i, x), n, k) && Names(ls, At(links, j, y), n, k)
        ensures i == j && x == y
      {
        NamedIsSide(ls, links, i, x, n, k);
        NamedIsSide(ls, links, j, y, n, k);
        var a :| 0 <= a < |sides| && sides[a] == Side(i, x);
        var b :| 0 <= b < |sides| && sides[b] == Side(j, y);
        EndIff(ls, links, Side(i, x), n, k);
        EndIff(ls, links, Side(j, y), n, k);
        assert a == b;
      }
    }
    if NoPortNamedTwice(ls, links) {
      forall a, b | 0 <= a < b < |sides| ensures EndAt(ls, links, sides[a]) != EndAt(ls, links, sides[b]) {
        assert sides[a] in sides && sides[b] in sides && sides[a] != sides[b];
        assert SideSound(ls, listed, links, sides[a]);
        var e := EndAt(ls, links, sides[a]).value;
        EndIff(ls, links, sides[a], e.node, e.num);
        EndIff(ls, links, sides[b], e.node, e.num);
      }
    }
  }

  lemma {:induction false} NamedIsSide(ls: Lists, links: Links, i: nat, x: bool, n: ExpectedNode, k: Uint16)
    requires i < |links| && Names(ls, At(links, i, x), n, k)
    ensures Side(i, x) in Sides(links, |links|)
  {
    hide Sides;
    SidesAre(links, |links|);
  }

  lemma {:induction false} SidesDiffer(links: Links, n: nat)
    requires n <= |links|
    ensures forall a, b :: 0 <= a < b < |Sides(links, n)| ==> Sides(links, n)[a] != Sides(links, n)[b]
  {
    if n > 0 {
      SidesDiffer(links, n - 1);
      var before := Sides(links, n - 1);
      forall a | 0 <= a < |before| ensures before[a].link < n - 1 {
        assert before[a] in before;
      }
    }
  }

  // ---------------------------------------------------------------- connected

  lemma {:induction false} RunsIff(ls: Lists, links: Links, j: nat, a: ExpectedNode, b: ExpectedNode)
    requires ls.WellFormed() && j < |links|
    ensures Runs(ls, links, j, a, b)
            <==> exists k, m :: (Names(ls, links[j].portselp1, a, k) && Names(ls, links[j].portselp2, b, m))
                                || (Names(ls, links[j].portselp1, b, k) && Names(ls, links[j].portselp2, a, m))
  {
    hide EndAt;
    var e, e' := EndAt(ls, links, Side(j, true)), EndAt(ls, links, Side(j, false));
    forall n, k ensures e == Some(End(n, k)) <==> Names(ls, links[j].portselp1, n, k) {
      EndIff(ls, links, Side(j, true), n, k);
    }
    forall n, k ensures e' == Some(End(n, k)) <==> Names(ls, links[j].portselp2, n, k) {
      EndIff(ls, links, Side(j, false), n, k);
    }
    if e.Some? && e'.Some? {
      assert e == Some(End(e.value.node, e.value.num)) && e' == Some(End(e'.value.node, e'.value.num));
    }
  }

  /** A link that crosses joins a node inside to one outside, and the other way round. */
  lemma {:induction false} CrossesIff(ls: Lists, links: Links, s: set<ExpectedNode>)
    requires ls.WellFormed()
    ensures IsCrossed(ls, links, s)
            <==> exists a, b :: a in s && b !in s && Joined(ls, links, a, b)
  {
    hide Names, Runs;
    if IsCrossed(ls, links, s) {
      var l :| l in links && Crosses(ls, l, s);
      var j :| 0 <= j < |links| && links[j] == l;
      var a, b, k, m :| a in ls.Nodes() && b in ls.Nodes()
        && Names(ls, l.portselp1, a, k) && Names(ls, l.portselp2, b, m) && (a in s <==> b !in s);
      RunsIff(ls, links, j, a, b);
      RunsIff(ls, links, j, b, a);
      if a in s {
        assert Joined(ls, links, a, b);
      } else {
        assert Joined(ls, links, b, a);
      }
    }
    if exists a, b :: a in s && b !in s && Joined(ls, links, a, b) {
      var a, b :| a in s && b !in s && Joined(ls, links, a, b);
      var j :| 0 <= j < |links| && Runs(ls, links, j, a, b);
      RunsIff(ls, links, j, a, b);
      RunsBetweenNodes(ls, links, j, a, b);
      assert links[j] in links && Crosses(ls, links[j], s);
    }
  }

  lemma {:induction false} RunsBetweenNodes(ls: Lists, links: Links, j: nat, a: ExpectedNode, b: ExpectedNode)
    requires ls.WellFormed() && j < |links| && Runs(ls, links, j, a, b)
    ensures a in ls.Nodes() && b in ls.Nodes()
  {
    hide EndAt;
  }

  lemma {:induction false} JoinedToNode(ls: Lists, links: Links, a: ExpectedNode, b: ExpectedNode)
    requires ls.WellFormed() && Joined(ls, links, a, b)
    ensures a in ls.Nodes() && b in ls.Nodes()
  {
    hide EndAt;
  }

  /** The nodes are connected exactly when no division of them is without a link across. */
  lemma {:induction false} ConnectedIffUndivided(ls: Lists, links: Links)
    requires ls.WellFormed()
    ensures AllConnected(ls, links) <==> Undivided(ls, links)
  {
    hide Joined, Reaches, Crosses;
    if AllConnected(ls, links) {
      forall s | s <= ls.Nodes() && s != {} && s != ls.Nodes() ensures IsCrossed(ls, links, s) {
        CrossesIff(ls, links, s);
        var a :| a in s;
        var b :| b in ls.Nodes() && b !in s;
        LeavesSet(ls, links, s, a, b);
      }
    }
    if Undivided(ls, links) {
      forall a, b | a in ls.Nodes() && b in ls.Nodes() ensures Reaches(ls, links, a, b) {
        StaysInSet(ls, links, a, b);
      }
    }
  }

  lemma {:induction false} LeavesSet(ls: Lists, links: Links, s: set<ExpectedNode>, a: ExpectedNode, b: ExpectedNode)
    requires ls.WellFormed() && a in s && b !in s && Reaches(ls, links, a, b)
    ensures exists x, y :: x in s && y !in s && Joined(ls, links, x, y)
  {
    hide Joined, ReachesIn;
    if !(exists x, y :: x in s && y !in s && Joined(ls, links, x, y)) {
      var n: nat :| ReachesIn(ls, links, n, a, b);
      ClosedHoldsReached(ls, links, s, n, a, b);
    }
  }

  lemma {:induction false} StaysInSet(ls: Lists, links: Links, a: ExpectedNode, b: ExpectedNode)
    requires ls.WellFormed() && Undivided(ls, links) && a in ls.Nodes() && b in ls.Nodes()
    ensures Reaches(ls, links, a, b)
  {
    hide Joined, Reaches, Crosses;
    var s := set x | x in ls.Nodes() && Reaches(ls, links, a, x);
    ReachesItself(ls, links, a);
    if !Reaches(ls, links, a, b) {
      assert b !in s && a in s;
      CrossesIff(ls, links, s);
      var x, y :| x in s && y !in s && Joined(ls, links, x, y);
      JoinedToNode(ls, links, x, y);
      ReachesOn(ls, links, a, x, y);
    }
  }

  lemma {:induction false} ReachesOn(ls: Lists, links: Links, a: ExpectedNode, b: ExpectedNode, c: ExpectedNode)
    requires ls.WellFormed() && c in ls.Nodes() && Reaches(ls, links, a, b) && Joined(ls, links, b, c)
    ensures Reaches(ls, links, a, c)
  {
    hide Joined;
    var n: nat :| ReachesIn(ls, links, n, a, b);
    assert ReachesIn(ls, links, 0, c, c);
    assert ReachesIn(ls, links, 1, b, c);
    ReachesBy(ls, links, n, 1, a, b, c);
  }

  // ---------------------------------------------------------------- breaking a rule

  /** A type given in the input that is not the node's is enough to fail. */
  lemma {:induction false} WrongTypeFails(ls: Lists, links: Links, listed: Option<set<End>>, l: ExpectedLink, s: Selector)
    requires l in links && (l.portselp1 == Some(s) || l.portselp2 == Some(s))
    requires s.nodeGuid != 0 && s.nodeGuid in ls.byGuid && ls.byGuid[s.nodeGuid].nodeType == 2 && s.nodeType == 1
    ensures !KeepsRules(ls, links, listed)
  {
    assert !NamesAPort(ls, Some(s), listed);
  }

  /** So is a description given besides the GUID that is not the node's. */
  lemma {:induction false} WrongDescriptionFails(ls: Lists, links: Links, listed: Option<set<End>>, l: ExpectedLink, s: Selector)
    requires l in links && (l.portselp1 == Some(s) || l.portselp2 == Some(s))
    requires s.nodeGuid != 0 && s.nodeGuid in ls.byGuid && s.nodeDesc.Some?
    requires ls.byGuid[s.nodeGuid].nodeDesc.Some? && ls.byGuid[s.nodeGuid].nodeDesc != s.nodeDesc
    ensures !KeepsRules(ls, links, listed)
  {
    assert !NamesAPort(ls, Some(s), listed);
  }
}
