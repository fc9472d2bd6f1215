/** The objects the link parser fills in (Topology/topology.c, ResolvePorts and LinkXmlParserEnd;
    Topology/topology.h:187-205). */
module LinkParser {
  import opened Options
  import opened OrderedKeys
  import opened PortIds
  import opened ExpectedLinks
  import opened LinkSelectors
  import opened LinkResolution

  class PortData {
    const id: PortId
    var elinkp: ExpectedLink?

    constructor (id: PortId)
      ensures this.id == id && elinkp == null
    {
      this.id, elinkp := id, null;
    }
  }

  class ExpectedLink {
    const portselp1: Option<Selector>
    const portselp2: Option<Selector>
    var portp1: PortData?
    var portp2: PortData?
    var matchLevel: nat
    ghost const place: nat  // its place among the expected links

    constructor (portselp1: Option<Selector>, portselp2: Option<Selector>, ghost place: nat)
      ensures this.portselp1 == portselp1 && this.portselp2 == portselp2 && this.place == place
      ensures portp1 == null && portp2 == null && matchLevel == 0
    {
      this.portselp1, this.portselp2 := portselp1, portselp2;
      portp1, portp2, matchLevel := null, null, 0;
      this.place := place;
    }
  }

  type Ports = m: map<PortId, PortData> | forall p :: p in m ==> m[p].id == p

  function IdOf(p: PortData?): Option<PortId> {
    if p == null then None else Some(p.id)
  }

  /** The link's ports and level. */
  function Held(l: ExpectedLink): Resolution
    reads l
  {
    Resolution(IdOf(l.portp1), IdOf(l.portp2), l.matchLevel)
  }

  ghost function PortObjects(ports: Ports): set<PortData> {
    set p | p in ports :: ports[p]
  }

  ghost function LinkObjects(links: seq<ExpectedLink>): set<ExpectedLink> {
    set i | 0 <= i < |links| :: links[i]
  }

  /** Links sit where they say, and point to ports of the fabric. */
  ghost predicate LinksFit(ports: Ports, links: seq<ExpectedLink>)
    reads LinkObjects(links)
  {
    forall i :: 0 <= i < |links| ==>
      && links[i].place == i
      && (links[i].portp1 != null ==> links[i].portp1.id in ports && ports[links[i].portp1.id] == links[i].portp1)
      && (links[i].portp2 != null ==> links[i].portp2.id in ports && ports[links[i].portp2.id] == links[i].portp2)
  }

  /** Ports point to listed links. */
  ghost predicate OwnersListed(ports: Ports, links: seq<ExpectedLink>)
    reads PortObjects(ports)`elinkp
  {
    forall p :: p in ports && ports[p].elinkp != null ==> ports[p].elinkp in links
  }

  ghost function Owners(ports: Ports): map<PortId, nat>
    reads PortObjects(ports)`elinkp
  {
    map p | p in ports && ports[p].elinkp != null :: ports[p].elinkp.place
  }

  ghost function HeldBy(links: seq<ExpectedLink>): seq<Resolution>
    reads LinkObjects(links)
  {
    seq(|links|, i requires 0 <= i < |links| reads LinkObjects(links) => Held(links[i]))
  }

  class LinkTable {
    const f: Fabric
    const ports: Ports
    var links: seq<ExpectedLink>

    ghost predicate Valid()
      reads this, PortObjects(ports), LinkObjects(links)
    {
      && WellFormed(f) && (forall p :: HasPort(f, p) <==> p in ports)
      && LinksFit(ports, links) && OwnersListed(ports, links)
    }

    ghost function Now(): State
      requires Valid()
      reads this, PortObjects(ports), LinkObjects(links)
    {
      State(Owners(ports), HeldBy(links))
    }

    constructor (f: Fabric, ports: Ports)
      requires WellFormed(f) && (forall p :: HasPort(f, p) <==> p in ports)
      requires forall p :: p in ports ==> ports[p].elinkp == null
      ensures Valid() && this.f == f && this.ports == ports && links == [] && Now() == START
    {
      this.f, this.ports, links := f, ports, [];
    }

    function PortAt(p: Option<PortId>): (r: PortData?)
      requires p.Some? ==> p.value in ports
      ensures IdOf(r) == p
    {
      if p.Some? then ports[p.value] else null
    }

    /** Resolve both selectors, filling in a side that did not resolve. */
    method ResolveLink(s1: Option<Selector>, s2: Option<Selector>) returns (r: Resolution)
      requires WellFormed(f)
      ensures r == Resolve(f, s1, s2)
      ensures forall p :: p in f.neighbor ==> (r.p1 == Some(p) && r.p2 == Some(f.neighbor[p]) <==> Mean(f, s1, s2, p))
    {
      forall p | p in f.neighbor
        ensures var r := Resolve(f, s1, s2); r.p1 == Some(p) && r.p2 == Some(f.neighbor[p]) <==> Mean(f, s1, s2, p)
      {
        PhysicalIff(f, s1, s2, p);
      }
      var a := ResolvePortSelector(f, s1);
      var b := ResolvePortSelector(f, s2);
      var p1, p2 := a.port, b.port;
      if p1.None? && p2.None? {
        return UNASSOCIATED;
      }
      if p1.Some? && !Complete(s2) {
        p2 := NeighborOf(f, p1.value);
      } else if p2.Some? && !Complete(s1) {
        p1 := NeighborOf(f, p2.value);
      }
      if p1.Some? && p2.None? && b.node.Some? && p1.value in f.neighbor && f.neighbor[p1.value].node == b.node.value {
        p2 := NeighborOf(f, p1.value);
      }
      if p2.Some? && p1.None? && a.node.Some? && p2.value in f.neighbor && f.neighbor[p2.value].node == a.node.value {
        p1 := NeighborOf(f, p2.value);
      }
      r := Resolution(p1, p2, LinkLevel(a.level, b.level));
    }

    /** Resolve an expected link and let it compete for the ports it resolved to. */
    method ResolvePorts(elinkp: ExpectedLink)
      requires Valid() && elinkp !in links && Held(elinkp) == UNASSOCIATED && elinkp.place == |links|
      modifies elinkp, LinkObjects(links), PortObjects(ports)
      ensures LinksFit(ports, links + [elinkp]) && OwnersListed(ports, links + [elinkp])
      ensures State(Owners(ports), HeldBy(links + [elinkp]))
              == Step(f.neighbor, old(Now()), Resolve(f, elinkp.portselp1, elinkp.portselp2))
    {
      var r := ResolveLink(elinkp.portselp1, elinkp.portselp2);
      FilledInAreNeighbors(f, elinkp.portselp1, elinkp.portselp2);
      Associate(elinkp, r);
    }

    method Associate(elinkp: ExpectedLink, r: Resolution)
      requires Valid() && elinkp !in links && Held(elinkp) == UNASSOCIATED && elinkp.place == |links|
      requires (r.p1.Some? ==> HasPort(f, r.p1.value)) && (r.p2.Some? ==> HasPort(f, r.p2.value))
      modifies elinkp, LinkObjects(links), PortObjects(ports)
      ensures LinksFit(ports, links + [elinkp]) && OwnersListed(ports, links + [elinkp])
      ensures State(Owners(ports), HeldBy(links + [elinkp])) == Step(f.neighbor, old(Now()), r)
    {
      hide Step, Attach, Yield, Refuses;
      ghost var all, before := links + [elinkp], Now();
      assert HeldBy(all) == HeldBy(links) + [UNASSOCIATED];
      StepAmongAll(f.neighbor, before, r);
      var portp1, portp2 := PortAt(r.p1), PortAt(r.p2);
      if portp1 == null && portp2 == null {
        return;
      }
      var refused := Contest(all, portp1, portp2, r.level);
      if refused {
        return;
      }
      Take(all, elinkp, portp1, portp2, r.level);
    }

    /** The link gets its ports, and the ports the link if they are free neighbours. */
    method Take(ghost all: seq<ExpectedLink>, elinkp: ExpectedLink, portp1: PortData?, portp2: PortData?, level: nat)
      requires LinksFit(ports, all) && OwnersListed(ports, all) && elinkp in all
      requires portp1 != null ==> portp1.id in ports && ports[portp1.id] == portp1
      requires portp2 != null ==> portp2.id in ports && ports[portp2.id] == portp2
      modifies elinkp, PortObjects(ports)
      ensures LinksFit(ports, all) && OwnersListed(ports, all)
      ensures var r := Resolution(IdOf(portp1), IdOf(portp2), level);
              State(Owners(ports), HeldBy(all))
              == Attach(f.neighbor, State(old(Owners(ports)), old(HeldBy(all))[elinkp.place := r]), r, elinkp.place)
    {
      SetLink(all, elinkp, portp1, portp2, level);
      if portp1 != null && portp2 != null && NeighborOf(f, portp1.id) == Some(portp2.id)
         && portp1.elinkp == null && portp2.elinkp == null {
        PointTo(all, portp1, portp2, elinkp);
      }
    }

    /** Ports that already share a link stay with it, unless the new match is at least as good;
        if it is better, they are unlinked. */
    method Contest(ghost all: seq<ExpectedLink>, portp1: PortData?, portp2: PortData?, level: nat) returns (refused: bool)
      requires LinksFit(ports, all) && OwnersListed(ports, all)
      requires portp1 != null ==> portp1.id in ports && ports[portp1.id] == portp1
      requires portp2 != null ==> portp2.id in ports && ports[portp2.id] == portp2
      modifies LinkObjects(all), PortObjects(ports)
      ensures LinksFit(ports, all) && OwnersListed(ports, all)
      ensures var before, r := old(State(Owners(ports), HeldBy(all))), Resolution(IdOf(portp1), IdOf(portp2), level);
              && OwnersExist(before) && (refused <==> Refuses(before, r))
              && State(Owners(ports), HeldBy(all)) == if refused then before else Yield(before, r)
    {
      if portp1 != null && portp1.elinkp != null && portp2 != null && portp2.elinkp != null && portp1.elinkp == portp2.elinkp {
        var elinkp2 := portp1.elinkp;
        if elinkp2.matchLevel > level {
          return true;
        } else if elinkp2.matchLevel < level {
          PointTo(all, portp1, portp2, null);
          SetLink(all, elinkp2, null, null, 0);
        }
      }
      return false;
    }

    /** A step, seen with the new link already on the list. */
    lemma StepAmongAll(w: Wiring, st: State, r: Resolution)
      requires OwnersExist(st)
      ensures var all := st.(links := st.links + [UNASSOCIATED]);
              && OwnersExist(all) && (Refuses(all, r) <==> Refuses(st, r))
              && Step(w, st, r) == if (r.p1.None? && r.p2.None?) || Refuses(all, r) then all
                 else Attach(w, State(Yield(all, r).own, Yield(all, r).links[|st.links| := r]), r, |st.links|)
    {
      var all := st.(links := st.links + [UNASSOCIATED]);
      assert Yield(all, r).links[|st.links| := r] == Yield(st, r).links + [r];
    }

    /** Point two ports to a link, or to none. */
    method PointTo(ghost all: seq<ExpectedLink>, portp1: PortData, portp2: PortData, elinkp: ExpectedLink?)
      requires portp1.id in ports && ports[portp1.id] == portp1 && portp2.id in ports && ports[portp2.id] == portp2
      requires OwnersListed(ports, all) && (elinkp != null ==> elinkp in all)
      modifies portp1`elinkp, portp2`elinkp
      ensures OwnersListed(ports, all)
      ensures Owners(ports) == if elinkp == null then old(Owners(ports)) - {portp1.id, portp2.id}
                               else old(Owners(ports))[portp1.id := elinkp.place][portp2.id := elinkp.place]
      ensures portp1.elinkp == portp2.elinkp == elinkp
    {
      portp1.elinkp, portp2.elinkp := elinkp, elinkp;
    }

    /** Set what a link holds. */
    method SetLink(ghost all: seq<ExpectedLink>, elinkp: ExpectedLink, portp1: PortData?, portp2: PortData?, level: nat)
      requires LinksFit(ports, all) && elinkp in all
      requires portp1 != null ==> portp1.id in ports && ports[portp1.id] == portp1
      requires portp2 != null ==> portp2.id in ports && ports[portp2.id] == portp2
      modifies elinkp
      ensures LinksFit(ports, all)
      ensures HeldBy(all) == old(HeldBy(all))[elinkp.place := Resolution(IdOf(portp1), IdOf(portp2), level)]
    {
      elinkp.portp1, elinkp.portp2 := portp1, portp2;
      elinkp.matchLevel := level;
    }

    /** The end of a link element. */
    method LinkXmlParserEnd(elinkp: ExpectedLink, valid: bool)
      requires Valid() && elinkp !in links && Held(elinkp) == UNASSOCIATED && elinkp.place == |links|
      modifies this`links, elinkp, LinkObjects(links), PortObjects(ports)
      ensures Valid()
      ensures Now() == if valid then Step(f.neighbor, old(Now()), Resolve(f, elinkp.portselp1, elinkp.portselp2)) else old(Now())
      ensures links == if valid then old(links) + [elinkp] else old(links)
    {
      hide LinkSelectors.WellFormed, HasPort, Step, Resolve;
      if valid {
        ResolvePorts(elinkp);
        links := links + [elinkp];
      }
    }
  }

  // ---------------------------------------------------------------- a whole Links section

  /** What the input says about one link. */
  datatype LinkSpec = LinkSpec(portselp1: Option<Selector>, portselp2: Option<Selector>)

  function Resolutions(f: Fabric, specs: seq<LinkSpec>): (r: seq<Resolution>)
    requires LinkSelectors.WellFormed(f)
    ensures |r| == |specs|
  {
    seq(|specs|, i requires 0 <= i < |specs| => Resolve(f, specs[i].portselp1, specs[i].portselp2))
  }

  /** Read links one after the other. Unless one of them reclaims one port, each physical link
      then belongs, at both ends, to the first of its best matches. */
  method ReadLinks(f: Fabric, ports: Ports, specs: seq<LinkSpec>) returns (t: LinkTable)
    requires LinkSelectors.WellFormed(f) && (forall p :: HasPort(f, p) <==> p in ports)
    requires forall p :: p in ports ==> ports[p].elinkp == null
    modifies PortObjects(ports)
    ensures fresh(t) && t.f == f && t.ports == ports && t.Valid()
    ensures t.Now() == Run(f.neighbor, Resolutions(f, specs))
    ensures NeverReclaims(f.neighbor, Resolutions(f, specs)) ==> Inv(f.neighbor, Resolutions(f, specs), t.Now())
  {
    hide LinkTable.Valid, LinkTable.Now, LinkSelectors.WellFormed, HasPort, Step, Resolve, NeverReclaims, Inv;
    ghost var all := Resolutions(f, specs);
    t := new LinkTable(f, ports);
    var i := 0;
    while i < |specs|
      invariant 0 <= i <= |specs| && fresh(t) && t.f == f && t.ports == ports && t.Valid()
      invariant |t.links| == i && (forall k :: 0 <= k < i ==> fresh(t.links[k])) && t.Now() == Run(f.neighbor, all[..i])
    {
      var elinkp := new ExpectedLink(specs[i].portselp1, specs[i].portselp2, i);
      t.LinkXmlParserEnd(elinkp, true);
      assert all[..i + 1][..i] == all[..i];
      i := i + 1;
    }
    assert all[..|specs|] == all;
    AgreesIffNeverReclaims(f.neighbor, all);
    if NeverReclaims(f.neighbor, all) {
      BestMatchesWin(f.neighbor, all);
    }
  }
}
