/** When the ends of the expected links fit the expected nodes (Topology/topology.c:1116-1204
    and 1308-1364; Topology/search.c:2141-2199).

    Nothing here changes: it is what validation should decide, over the fixed parts of nodes
    and links. */
module TopologyCheck {
  import opened Options
  import opened Widths
  import opened OrderedKeys
  import opened LinkSelectors
  import opened TopologyNodes

  const NODE_FI := 1
  const NODE_SW := 2

  datatype Status = Success | InvalidParameter | NotFound | Error | Duplicate

  datatype Lists = Lists(switches: seq<ExpectedNode>, fis: seq<ExpectedNode>, byGuid: map<Key, ExpectedNode>)
  {
    ghost function Nodes(): set<ExpectedNode> {
      (set n | n in switches) + (set n | n in fis)
    }

    ghost predicate WellFormed() {
      forall g :: g in byGuid ==> byGuid[g] in Nodes()
    }
  }

  predicate Described(n: ExpectedNode, desc: string) {
    n.nodeDesc.Some? && SameText(n.nodeDesc.value, desc, NODE_DESC_SIZE)
  }

  function FirstDescribed(s: seq<ExpectedNode>, desc: string): (r: Option<ExpectedNode>)
    ensures r.Some? ==> r.value in s && Described(r.value, desc)
    ensures r.None? ==> forall n :: n in s ==> !Described(n, desc)
  {
    if s == [] then None else if Described(s[0], desc) then Some(s[0]) else FirstDescribed(s[1..], desc)
  }

  /** Switches first; a node type given narrows the search. */
  function ByDesc(ls: Lists, desc: string, nodeType: nat): (r: Option<ExpectedNode>)
    ensures r.Some? ==> r.value in ls.Nodes() && Described(r.value, desc)
  {
    var sw := if nodeType != NODE_FI then FirstDescribed(ls.switches, desc) else None;
    if sw.Some? then sw else if nodeType != NODE_SW then FirstDescribed(ls.fis, desc) else None
  }

  /** The expected node a selector names. */
  function Located(ls: Lists, s: Selector): (r: Option<ExpectedNode>)
    requires ls.WellFormed()
    ensures r.Some? ==> r.value in ls.Nodes()
  {
    if s.nodeGuid != 0 then if s.nodeGuid in ls.byGuid then Some(ls.byGuid[s.nodeGuid]) else None
    else if s.nodeDesc.Some? then ByDesc(ls, s.nodeDesc.value, s.nodeType)
    else None
  }

  /** Whether a selector names a port of an expected node, without contradicting the node. */
  function CheckSelector(ls: Lists, sel: Option<Selector>): (r: Status)
    requires ls.WellFormed()
    ensures r == Success ==> sel.Some? && sel.value.portNum.Some? && Located(ls, sel.value).Some?
  {
    if sel.None? then InvalidParameter
    else
      var s := sel.value;
      var n := Located(ls, s);
      if s.nodeGuid == 0 && s.nodeDesc.None? then InvalidParameter
      else if n.None? then NotFound
      else if s.nodeGuid != 0 && s.nodeDesc.Some? && n.value.nodeDesc.Some? && s.nodeDesc != n.value.nodeDesc then Error
      else if n.value.nodeType != 0 && s.nodeType != 0 && n.value.nodeType != s.nodeType then Error
      else if s.portNum.None? then InvalidParameter
      else Success
  }

  /** A port of an expected node. */
  datatype End = End(node: ExpectedNode, num: Uint16)

  function EndOf(ls: Lists, sel: Option<Selector>): (e: End)
    requires ls.WellFormed() && CheckSelector(ls, sel) == Success
    ensures e.node in ls.Nodes()
  {
    End(Located(ls, sel.value).value, sel.value.portNum.value)
  }

  /** Which expected link holds each port. */
  type Ends = map<End, nat>

  /** Whether a selector can take its port. Under strict validation the port must be listed. */
  function CheckEnd(ls: Lists, listed: Option<set<End>>, t: Ends, sel: Option<Selector>): (r: Status)
    requires ls.WellFormed()
    ensures r == Success ==> CheckSelector(ls, sel) == Success && EndOf(ls, sel) !in t
  {
    if CheckSelector(ls, sel) != Success then CheckSelector(ls, sel)
    else if listed.Some? && EndOf(ls, sel) !in listed.value then Error
    else if EndOf(ls, sel) in t then Duplicate
    else Success
  }

  predicate Empty(l: ExpectedLink) {
    l.portselp1.None? && l.portselp2.None?
  }

  /** One side of a link. */
  datatype Side = Side(link: nat, first: bool)

  type Links = seq<ExpectedLink>

  function SelectorAt(links: Links, s: Side): Option<Selector>
    requires s.link < |links|
  {
    if s.first then links[s.link].portselp1 else links[s.link].portselp2
  }

  /** The sides of the first n links, in the order they are looked at; empty links are passed over. */
  function Sides(links: Links, n: nat): (r: seq<Side>)
    requires n <= |links|
    ensures forall s :: s in r ==> s.link < n
  {
    if n == 0 then []
    else Sides(links, n - 1) + if Empty(links[n - 1]) then [] else [Side(n - 1, true), Side(n - 1, false)]
  }

  /** The port table once the given sides have taken their ports in turn, if all can. */
  function Fill(ls: Lists, listed: Option<set<End>>, links: Links, sides: seq<Side>): Option<Ends>
    requires ls.WellFormed() && forall s :: s in sides ==> s.link < |links|
  {
    if sides == [] then Some(map[])
    else
      var s := sides[|sides| - 1];
      var t := Fill(ls, listed, links, sides[..|sides| - 1]);
      if t.Some? && CheckEnd(ls, listed, t.value, SelectorAt(links, s)) == Success
      then Some(t.value[EndOf(ls, SelectorAt(links, s)) := s.link]) else None
  }

  // ---------------------------------------------------------------- what that means

  /** The port a side names, if it names one. */
  function EndAt(ls: Lists, links: Links, s: Side): (e: Option<End>)
    requires ls.WellFormed() && s.link < |links|
    ensures e.Some? ==> e.value.node in ls.Nodes()
  {
    if CheckSelector(ls, SelectorAt(links, s)) == Success then Some(EndOf(ls, SelectorAt(links, s))) else None
  }

  predicate SidesOf(links: Links, sides: seq<Side>) {
    forall s :: s in sides ==> s.link < |links|
  }

  /** The side names a port of an expected node; a listed one, under strict validation. */
  predicate SideSound(ls: Lists, listed: Option<set<End>>, links: Links, s: Side)
    requires ls.WellFormed() && s.link < |links|
  {
    var e := EndAt(ls, links, s);
    e.Some? && (listed.Some? ==> e.value in listed.value)
  }

  ghost predicate Sound(ls: Lists, listed: Option<set<End>>, links: Links, sides: seq<Side>)
    requires ls.WellFormed() && SidesOf(links, sides)
  {
    forall k :: 0 <= k < |sides| ==> SideSound(ls, listed, links, sides[k])
  }

  /** No two sides are at the same port. */
  ghost predicate Distinct(ls: Lists, links: Links, sides: seq<Side>)
    requires ls.WellFormed() && SidesOf(links, sides)
  {
    forall j, k :: 0 <= j < k < |sides| ==> EndAt(ls, links, sides[j]) != EndAt(ls, links, sides[k])
  }

  /** The table holds exactly the ends, each with its link. */
  ghost predicate TableIs(ls: Lists, links: Links, sides: seq<Side>, t: Ends)
    requires ls.WellFormed() && SidesOf(links, sides)
  {
    && (forall k :: 0 <= k < |sides| ==>
          var e := EndAt(ls, links, sides[k]); e.Some? && e.value in t && t[e.value] == sides[k].link)
    && (forall e :: e in t ==> exists k :: 0 <= k < |sides| && EndAt(ls, links, sides[k]) == Some(e))
  }

  /** All sides can take their ports exactly when they are sound and distinct. */
  lemma {:induction false} FillIff(ls: Lists, listed: Option<set<End>>, links: Links, sides: seq<Side>)
    requires ls.WellFormed() && SidesOf(links, sides)
    ensures Fill(ls, listed, links, sides).Some? <==> Sound(ls, listed, links, sides) && Distinct(ls, links, sides)
    ensures Fill(ls, listed, links, sides).Some? ==> TableIs(ls, links, sides, Fill(ls, listed, links, sides).value)
  {
    if sides != [] {
      var n := |sides| - 1;
      FillIff(ls, listed, links, sides[..n]);
      assert sides[..n] + [sides[n]] == sides;
      SoundNext(ls, listed, links, sides[..n], sides[n]);
      DistinctNext(ls, links, sides[..n], sides[n]);
      if Fill(ls, listed, links, sides[..n]).Some? {
        FillNext(ls, listed, links, sides[..n], sides[n], Fill(ls, listed, links, sides[..n]).value);
      }
    }
  }

  lemma {:induction false} SoundNext(ls: Lists, listed: Option<set<End>>, links: Links, sides: seq<Side>, s: Side)
    requires ls.WellFormed() && s.link < |links| && SidesOf(links, sides)
    ensures Sound(ls, listed, links, sides + [s]) <==> Sound(ls, listed, links, sides) && SideSound(ls, listed, links, s)
  {
    hide SideSound;
    var all := sides + [s];
    assert all[|sides|] == s;
    assert forall k :: 0 <= k < |sides| ==> all[k] == sides[k];
  }

  lemma {:induction false} DistinctNext(ls: Lists, links: Links, sides: seq<Side>, s: Side)
    requires ls.WellFormed() && s.link < |links| && SidesOf(links, sides)
    ensures Distinct(ls, links, sides + [s])
            <==> Distinct(ls, links, sides) && forall k :: 0 <= k < |sides| ==> EndAt(ls, links, sides[k]) != EndAt(ls, links, s)
  {
    hide EndAt;
    var all := sides + [s];
    assert all[|sides|] == s;
    assert forall k :: 0 <= k < |sides| ==> all[k] == sides[k];
  }

  /** One more side. */
  lemma {:induction false} FillNext(ls: Lists, listed: Option<set<End>>, links: Links, sides: seq<Side>, s: Side, t: Ends)
    requires ls.WellFormed() && s.link < |links| && SidesOf(links, sides)
    requires Sound(ls, listed, links, sides) && Distinct(ls, links, sides) && TableIs(ls, links, sides, t)
    ensures CheckEnd(ls, listed, t, SelectorAt(links, s)) == Success
            <==> Sound(ls, listed, links, sides + [s]) && Distinct(ls, links, sides + [s])
    ensures CheckEnd(ls, listed, t, SelectorAt(links, s)) == Success
            ==> TableIs(ls, links, sides + [s], t[EndOf(ls, SelectorAt(links, s)) := s.link])
  {
    hide CheckSelector, SelectorAt, EndOf, Sound, Distinct, TableIs, Sides, Fill;
    SoundNext(ls, listed, links, sides, s);
    DistinctNext(ls, links, sides, s);
    if SideSound(ls, listed, links, s) {
      TableNext(ls, links, sides, s, t);
    }
  }

  lemma {:induction false} TableNext(ls: Lists, links: Links, sides: seq<Side>, s: Side, t: Ends)
    requires ls.WellFormed() && s.link < |links| && SidesOf(links, sides)
    requires TableIs(ls, links, sides, t) && EndAt(ls, links, s).Some?
    ensures var e := EndAt(ls, links, s).value;
            && (e in t <==> exists k :: 0 <= k < |sides| && EndAt(ls, links, sides[k]) == Some(e))
            && (e !in t ==> TableIs(ls, links, sides + [s], t[e := s.link]))
  {
    hide EndAt, Sides, Fill;
    var all, e := sides + [s], EndAt(ls, links, s).value;
    assert all[|sides|] == s;
    assert forall k :: 0 <= k < |sides| ==> all[k] == sides[k];
    forall x: End | x in t || x == e
      ensures exists k :: 0 <= k < |all| && EndAt(ls, links, all[k]) == Some(x)
    {
      if x == e {
        assert EndAt(ls, links, all[|sides|]) == Some(x);
      } else {
        var k :| 0 <= k < |sides| && EndAt(ls, links, sides[k]) == Some(x);
        assert EndAt(ls, links, all[k]) == Some(x);
      }
    }
  }
}
