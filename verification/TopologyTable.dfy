/** Attaching the ends of expected links to the ports of expected nodes
    (Topology/topology.c, TopologyValidateLinkPort and the loop over links in TopologyValidate). */
module TopologyTable {
  import opened Options
  import opened Sequences
  import opened Widths
  import opened OrderedKeys
  import opened LinkSelectors
  import opened TopologyNodes
  import opened TopologyCheck
  import opened TopologyNames

  /** Port numbers below 32768: the 16-bit table sizes are not cut (see TopologyNodes). */
  predicate SmallPorts(links: Links) {
    forall l :: l in links ==>
      && (l.portselp1.Some? && l.portselp1.value.portNum.Some? ==> l.portselp1.value.portNum.value < UINT16 / 2)
      && (l.portselp2.Some? && l.portselp2.value.portNum.Some? ==> l.portselp2.value.portNum.value < UINT16 / 2)
  }

  /** The link a port points to. */
  function Holder(n: ExpectedNode, k: nat): Option<ExpectedLink>
    reads n`ports
  {
    if k < |n.ports| && n.ports[k].Some? then n.ports[k].value.elinkp else None
  }

  ghost predicate Listed(n: ExpectedNode, k: nat)
    reads n`ports
  {
    k < |n.ports| && n.ports[k].Some?
  }

  /** The ports point to the links as table t says. */
  ghost predicate Shows(ls: Lists, links: Links, t: Ends)
    reads ls.Nodes()`ports
  {
    && (forall e :: e in t ==> t[e] < |links|)
    && forall n, k: Uint16 :: n in ls.Nodes() ==>
         Holder(n, k) == if End(n, k) in t then Some(links[t[End(n, k)]]) else None
  }

  /** The set of listed ports, which strict validation goes by. */
  ghost predicate ListedAre(ls: Lists, listed: Option<set<End>>)
    reads ls.Nodes()`ports
  {
    listed.Some? ==> forall n, k: Uint16 :: n in ls.Nodes() ==> (End(n, k) in listed.value <==> Listed(n, k))
  }

  ghost predicate TablesFit(ls: Lists)
    reads ls.Nodes()`ports, ls.Nodes()`portsSize
  {
    forall n :: n in ls.Nodes() ==> n.Table().Fits()
  }

  method FindByDesc(s: seq<ExpectedNode>, desc: string) returns (r: Option<ExpectedNode>)
    ensures r == FirstDescribed(s, desc)
  {
    var i := 0;
    while i < |s|
      invariant 0 <= i <= |s| && FirstDescribed(s, desc) == FirstDescribed(s[i..], desc)
    {
      if Described(s[i], desc) {
        return Some(s[i]);
      }
      i := i + 1;
    }
    return None;
  }

  method FindExpectedNodeByNodeDesc(ls: Lists, desc: string, nodeType: nat) returns (r: Option<ExpectedNode>)
    ensures r == ByDesc(ls, desc, nodeType)
  {
    if nodeType != NODE_FI {
      r := FindByDesc(ls.switches, desc);
      if r.Some? {
        return r;
      }
    }
    if nodeType != NODE_SW {
      r := FindByDesc(ls.fis, desc);
      return r;
    }
    return None;
  }

  /** The checks of an end that only look at the selector and its node. */
  method LocateNode(ls: Lists, sel: Option<Selector>) returns (status: Status, node: Option<ExpectedNode>)
    requires ls.WellFormed()
    ensures status == CheckSelector(ls, sel)
    ensures status == Success ==> node == Some(EndOf(ls, sel).node)
    ensures status == Success
            <==> sel.Some? && sel.value.portNum.Some? && exists n :: n in ls.Nodes() && Names(ls, sel, n, sel.value.portNum.value)
    ensures status == Success ==> Names(ls, sel, node.value, sel.value.portNum.value)
  {
    hide Names;
    CheckIff(ls, sel);
    if sel.None? {
      return InvalidParameter, None;
    }
    var s := sel.value;
    if s.nodeGuid != 0 {
      if s.nodeGuid !in ls.byGuid {
        return NotFound, None;
      }
      node := Some(ls.byGuid[s.nodeGuid]);
      if s.nodeDesc.Some? {
        if node.value.nodeDesc.Some? && s.nodeDesc.value != node.value.nodeDesc.value {
          return Error, None;
        }
      }
    } else if s.nodeDesc.Some? {
      node := FindExpectedNodeByNodeDesc(ls, s.nodeDesc.value, s.nodeType);
      if node.None? {
        return NotFound, None;
      }
    } else {
      return InvalidParameter, None;
    }
    if node.value.nodeType != 0 && s.nodeType != 0 && node.value.nodeType != s.nodeType {
      return Error, None;
    }
    if s.portNum.None? {
      return InvalidParameter, None;
    }
    return Success, node;
  }

  /** Let link j take port k of a node, unless the port is taken, or unlisted under strict validation. */
  method TakePort(ls: Lists, links: Links, ghost t: Ends, ghost listed: Option<set<End>>, strict: bool,
                  node: ExpectedNode, k: Uint16, j: nat) returns (status: Status)
    requires node in ls.Nodes() && k < UINT16 / 2 && j < |links| && TablesFit(ls)
    requires Shows(ls, links, t) && ListedAre(ls, listed) && strict == listed.Some?
    modifies node`ports, node`portsSize
    ensures status == if strict && End(node, k) !in listed.value then Error else if End(node, k) in t then Duplicate else Success
    ensures TablesFit(ls) && ListedAre(ls, listed)
    ensures Shows(ls, links, if status == Success then t[End(node, k) := j] else t)
  {
    var eportp := node.GetPort(k);
    if strict {
      if eportp.None? {
        return Error;
      }
    } else if eportp.None? {
      AddMissing(ls, links, t, node, k);
    }
    if node.ports[k].value.elinkp.Some? {
      return Duplicate;
    }
    SetHolder(ls, links, t, node, k, j);
    return Success;
  }

  /** Add a port that the node's own list did not have. */
  method AddMissing(ls: Lists, links: Links, ghost t: Ends, node: ExpectedNode, k: Uint16)
    requires node in ls.Nodes() && k < UINT16 / 2 && TablesFit(ls) && Shows(ls, links, t) && node.GetPort(k).None?
    modifies node`ports, node`portsSize
    ensures TablesFit(ls) && Shows(ls, links, t) && Listed(node, k)
  {
    ghost var was := node.Table();
    PreparedFitsIff(was, k);
    SmallPortsFit(was, k);
    assert was.Get(k).None? && Prepared(was, k).Get(k).None?;
    var added := node.AddPort(k, ExpectedPort(k, 0, None));
  }

  method SetHolder(ls: Lists, links: Links, ghost t: Ends, node: ExpectedNode, k: Uint16, j: nat)
    requires node in ls.Nodes() && j < |links| && TablesFit(ls) && Shows(ls, links, t) && Listed(node, k)
    modifies node`ports
    ensures TablesFit(ls) && Shows(ls, links, t[End(node, k) := j])
    ensures forall i: nat :: Listed(node, i) <==> old(Listed(node, i))
  {
    node.ports := node.ports[k := Some(node.ports[k].value.(elinkp := Some(links[j])))];
  }

  /** Check one side of a link and let it take its port; the selector then points to the node. */
  method ValidateLinkPort(ls: Lists, links: Links, ghost t: Ends, ghost listed: Option<set<End>>, strict: bool, s: Side)
    returns (status: Status)
    requires ls.WellFormed() && SmallPorts(links) && s.link < |links| && TablesFit(ls)
    requires Shows(ls, links, t) && ListedAre(ls, listed) && strict == listed.Some?
    modifies ls.Nodes()`ports, ls.Nodes()`portsSize, links[s.link]
    ensures status == CheckEnd(ls, listed, t, SelectorAt(links, s)) && TablesFit(ls) && ListedAre(ls, listed)
    ensures Shows(ls, links, After(ls, links, t, s, status))
    ensures status == Success && s.first ==> links[s.link].enodep1 == EndAt(ls, links, s).value.node
    ensures status == Success && !s.first ==> links[s.link].enodep2 == EndAt(ls, links, s).value.node
    ensures !s.first ==> links[s.link].enodep1 == old(links[s.link].enodep1)
    ensures status == Success ==>
              var n := if s.first then links[s.link].enodep1 else links[s.link].enodep2;
              && n != null && SelectorAt(links, s).value.portNum.Some?
              && Names(ls, SelectorAt(links, s), n, SelectorAt(links, s).value.portNum.value)
  {
    hide Shows, ListedAre, TablesFit, Names;
    var sel := SelectorAt(links, s);
    var node;
    status, node := LocateNode(ls, sel);
    if status != Success {
      return;
    }
    assert links[s.link] in links;
    status := TakePort(ls, links, t, listed, strict, node.value, sel.value.portNum.value, s.link);
    if status == Success {
      if s.first {
        links[s.link].enodep1 := node.value;
      } else {
        links[s.link].enodep2 := node.value;
      }
    }
  }

  ghost function After(ls: Lists, links: Links, t: Ends, s: Side, status: Status): Ends
    requires ls.WellFormed() && s.link < |links|
    requires status == Success ==> CheckSelector(ls, SelectorAt(links, s)) == Success
  {
    if status == Success then t[EndOf(ls, SelectorAt(links, s)) := s.link] else t
  }

  /** The selectors of the first n links point to the nodes they name. */
  ghost predicate Pointed(ls: Lists, links: Links, n: nat)
    requires ls.WellFormed() && n <= |links|
    reads links
  {
    forall j :: 0 <= j < n && !Empty(links[j]) ==>
      && EndAt(ls, links, Side(j, true)).Some? && links[j].enodep1 == EndAt(ls, links, Side(j, true)).value.node
      && EndAt(ls, links, Side(j, false)).Some? && links[j].enodep2 == EndAt(ls, links, Side(j, false)).value.node
  }

  /** What the ports show while links are resolved: as long as no end failed, what they should. */
  ghost predicate Progress(ls: Lists, listed: Option<set<End>>, links: Links, n: nat, t: Ends, ok: bool)
    requires ls.WellFormed() && n <= |links|
    reads ls.Nodes()`ports, links
  {
    && Shows(ls, links, t) && ListedAre(ls, listed)
    && (ok <==> Fill(ls, listed, links, Sides(links, n)).Some?)
    && (ok ==> Fill(ls, listed, links, Sides(links, n)) == Some(t) && Pointed(ls, links, n))
  }

  /** Resolve the links in turn. All ends fit exactly when the table can be filled. */
  method ResolveLinks(ls: Lists, links: Links, ghost listed: Option<set<End>>, strict: bool) returns (ok: bool, ghost t: Ends)
    requires ls.WellFormed() && SmallPorts(links) && NoRepeats(links) && TablesFit(ls)
    requires Shows(ls, links, map[]) && ListedAre(ls, listed) && strict == listed.Some?
    modifies ls.Nodes()`ports, ls.Nodes()`portsSize, links
    ensures TablesFit(ls) && Progress(ls, listed, links, |links|, t, ok)
  {
    hide Shows, ListedAre, TablesFit, Fill, Sides;
    ok, t := true, map[];
    NoSides(ls, listed, links);
    var i := 0;
    while i < |links|
      invariant 0 <= i <= |links| && TablesFit(ls) && Progress(ls, listed, links, i, t, ok)
    {
      ok, t := ResolveLink(ls, links, listed, strict, i, t, ok);
      i := i + 1;
    }
  }

  lemma {:induction false} NoSides(ls: Lists, listed: Option<set<End>>, links: Links)
    requires ls.WellFormed()
    ensures Fill(ls, listed, links, Sides(links, 0)) == Some(map[])
  {
  }

  /** The sides of one more link. */
  lemma {:induction false} MoreSides(ls: Lists, listed: Option<set<End>>, links: Links, i: nat)
    requires ls.WellFormed() && i < |links|
    ensures Empty(links[i]) ==> Sides(links, i + 1) == Sides(links, i)
    ensures !Empty(links[i]) ==>
              Fill(ls, listed, links, Sides(links, i + 1))
              == Add(ls, listed, links, Add(ls, listed, links, Fill(ls, listed, links, Sides(links, i)), Side(i, true)), Side(i, false))
  {
    hide Fill, Add, CheckEnd, CheckSelector;
    if !Empty(links[i]) {
      assert Sides(links, i + 1) == Sides(links, i) + [Side(i, true)] + [Side(i, false)];
      OneMoreSide(ls, listed, links, Sides(links, i), Side(i, true));
      OneMoreSide(ls, listed, links, Sides(links, i) + [Side(i, true)], Side(i, false));
    }
  }

  lemma {:induction false} OneMoreSide(ls: Lists, listed: Option<set<End>>, links: Links, sides: seq<Side>, s: Side)
    requires ls.WellFormed() && s.link < |links| && SidesOf(links, sides)
    ensures Fill(ls, listed, links, sides + [s]) == Add(ls, listed, links, Fill(ls, listed, links, sides), s)
  {
    assert (sides + [s])[..|sides|] == sides;
  }

  ghost function Add(ls: Lists, listed: Option<set<End>>, links: Links, t: Option<Ends>, s: Side): Option<Ends>
    requires ls.WellFormed() && s.link < |links|
  {
    if t.Some? && CheckEnd(ls, listed, t.value, SelectorAt(links, s)) == Success
    then Some(t.value[EndOf(ls, SelectorAt(links, s)) := s.link]) else None
  }

  method ResolveLink(ls: Lists, links: Links, ghost listed: Option<set<End>>, strict: bool, i: nat, ghost t: Ends, ok: bool)
    returns (ok': bool, ghost t': Ends)
    requires ls.WellFormed() && SmallPorts(links) && NoRepeats(links) && TablesFit(ls) && i < |links|
    requires Progress(ls, listed, links, i, t, ok) && strict == listed.Some?
    modifies ls.Nodes()`ports, ls.Nodes()`portsSize, links[i]
    ensures TablesFit(ls) && Progress(ls, listed, links, i + 1, t', ok')
  {
    hide Shows, ListedAre, TablesFit, Fill, Sides, CheckEnd, CheckSelector;
    ok', t' := ok, t;
    MoreSides(ls, listed, links, i);
    if links[i].portselp1.None? && links[i].portselp2.None? {
      return;
    }
    var status := ValidateLinkPort(ls, links, t', listed, strict, Side(i, true));
    ok', t' := ok' && status == Success, After(ls, links, t', Side(i, true), status);
    status := ValidateLinkPort(ls, links, t', listed, strict, Side(i, false));
    ok', t' := ok' && status == Success, After(ls, links, t', Side(i, false), status);
  }
}
