/** The ports of a fabric and the operations on their links (Topology/fabricdata.c:1179-1322;
    Topology/snapshot.c:890-962 and 1110-1122). */
module FabricData {
  import opened Options
  import opened Sequences
  import opened OrderedKeys
  import opened PortIds
  import opened FabricLinks
  import opened Snapshot

  class PortData {
    const id: PortId
    var neighbor: PortData?
    var from: bool
    var rate: nat

    constructor (id: PortId, rate: nat)
      ensures this.id == id && neighbor == null && !from && this.rate == rate
    {
      this.id, neighbor, from, this.rate := id, null, false, rate;
    }
  }

  type Ports = m: map<PortId, PortData> | forall p :: p in m ==> m[p].id == p

  class Fabric {
    const nodes: Nodes
    const ports: Ports
    const allPorts: seq<PortId>
    var linkCount: int
    var extLinkCount: int
    var fiLinkCount: int
    var isLinkCount: int
    var extISLinkCount: int

    ghost function Objects(): set<PortData> {
      set p | p in ports :: ports[p]
    }

    /** The ports are those listed, each once, and their nodes exist. */
    ghost predicate Listed() {
      && (forall p :: p in ports ==> OnNodes(nodes, p)) && (forall p :: p in ports <==> p in allPorts)
      && NoRepeats(allPorts)
    }

    ghost predicate Valid()
      reads Objects()`neighbor
    {
      Listed() && forall p :: p in ports ==> Linked(ports[p].neighbor)
    }

    predicate Linked(q: PortData?) {
      q != null ==> q.id in ports && ports[q.id] == q
    }

    ghost function Neighbors(): map<PortId, PortId>
      reads Objects()`neighbor
    {
      map p | p in ports && ports[p].neighbor != null :: ports[p].neighbor.id
    }

    ghost function FromPorts(): set<PortId>
      reads Objects()`from
    {
      set p | p in ports && ports[p].from
    }

    ghost function Rates(): map<PortId, nat>
      reads Objects()`rate
    {
      map p | p in ports :: ports[p].rate
    }

    ghost function Now(): LinkState
      reads this, Objects()
    {
      LinkState(Neighbors(), FromPorts(), Rates(), Counts(linkCount, extLinkCount, fiLinkCount, isLinkCount, extISLinkCount))
    }

    constructor (nodes: Nodes, ports: Ports, allPorts: seq<PortId>)
      requires forall p :: p in ports ==> OnNodes(nodes, p) && ports[p].neighbor == null && !ports[p].from
      requires forall p :: p in ports <==> p in allPorts
      requires NoRepeats(allPorts)
      ensures Valid() && this.nodes == nodes && this.ports == ports && this.allPorts == allPorts
      ensures Now() == Unlinked(Now().rate)
    {
      this.nodes, this.ports, this.allPorts := nodes, ports, allPorts;
      linkCount, extLinkCount, fiLinkCount, isLinkCount, extISLinkCount := 0, 0, 0, 0, 0;
    }

    /** Count a link of the kind between p1 and p2, or with d = -1 stop counting it. */
    method CountLink(p: PortId, q: PortId, d: int)
      requires OnNodes(nodes, p) && OnNodes(nodes, q) && Valid()
      modifies this`linkCount, this`extLinkCount, this`fiLinkCount, this`isLinkCount, this`extISLinkCount
      ensures Valid() && Neighbors() == old(Neighbors()) && FromPorts() == old(FromPorts()) && Rates() == old(Rates())
      ensures Counts(linkCount, extLinkCount, fiLinkCount, isLinkCount, extISLinkCount)
              == Counted(nodes, old(Counts(linkCount, extLinkCount, fiLinkCount, isLinkCount, extISLinkCount)), p, q, d)
    {
      hide Internal, ToAdapter, InterSwitch, Valid, Neighbors, FromPorts, Rates;
      ghost var objects := Objects();
      linkCount := linkCount + d;
      if !Internal(nodes, p, q) {
        extLinkCount := extLinkCount + d;
      }
      if ToAdapter(nodes, p, q) {
        fiLinkCount := fiLinkCount + d;
      }
      if InterSwitch(nodes, p, q) {
        isLinkCount := isLinkCount + d;
      }
      if !Internal(nodes, p, q) && InterSwitch(nodes, p, q) {
        extISLinkCount := extISLinkCount + d;
      }
      assert Objects() == objects;
    }

    lemma NeighborIs(p: PortData)
      requires Valid() && Linked(p)
      ensures Linked(p.neighbor) && OnNodes(nodes, p.id)
      ensures p.neighbor != null <==> p.id in Neighbors()
      ensures p.neighbor != null ==> Neighbors()[p.id] == p.neighbor.id
    {
    }

    method SetNeighbor(p: PortData, n: PortData?)
      requires Valid() && Linked(p) && Linked(n)
      modifies p`neighbor
      ensures Valid() && Neighbors() == With(old(Neighbors()), p.id, n)
      ensures FromPorts() == old(FromPorts()) && Rates() == old(Rates())
    {
      hide FromPorts, Rates, Listed;
      ghost var objects, was := Objects(), Neighbors();
      p.neighbor := n;
      assert Objects() == objects;
      assert forall x :: x in ports && x != p.id ==> ports[x] != p;
      assert Neighbors().Keys == With(was, p.id, n).Keys;
    }

    static function With(m: map<PortId, PortId>, p: PortId, q: PortData?): map<PortId, PortId> {
      if q == null then m - {p} else m[p := q.id]
    }

    method SetFrom(p: PortData, from: bool)
      requires Valid() && Linked(p)
      modifies p`from
      ensures Valid() && Neighbors() == old(Neighbors()) && Rates() == old(Rates())
      ensures FromPorts() == if from then old(FromPorts()) + {p.id} else old(FromPorts()) - {p.id}
    {
      p.from := from;
    }

    method ClearRate(p: PortData)
      requires Valid() && Linked(p)
      modifies p`rate
      ensures Valid() && Neighbors() == old(Neighbors()) && FromPorts() == old(FromPorts())
      ensures Rates() == old(Rates())[p.id := 0]
    {
      p.rate := 0;
    }

    method ClearPort(p: PortData)
      requires Valid() && Linked(p)
      modifies p
      ensures Valid() && Neighbors() == old(Neighbors()) - {p.id} && FromPorts() == old(FromPorts()) - {p.id}
      ensures Rates() == old(Rates())[p.id := 0]
    {
      hide Valid, Neighbors, FromPorts, Rates;
      ClearRate(p);
      SetNeighbor(p, null);
      SetFrom(p, false);
    }

    method FabricDataAddLink(p1: PortData, p2: PortData) returns (ok: bool)
      requires Valid() && Linked(p1) && Linked(p2)
      modifies this, p1, p2
      ensures Valid() && ok == CanAdd(old(Now()), p1.id, p2.id)
      ensures Now() == AddLink(nodes, old(Now()), p1.id, p2.id)
    {
      hide Valid, Neighbors, FromPorts, Rates;
      NeighborIs(p1);
      NeighborIs(p2);
      if p1.neighbor == p2 && p2.neighbor == p1 {
        return false;
      }
      if p1.neighbor != null {
        return false;
      }
      if p2.neighbor != null {
        return false;
      }
      SetNeighbor(p1, p2);
      SetNeighbor(p2, p1);
      if p1.id.node != p2.id.node {
        if p1.id.node < p2.id.node {
          SetFrom(p1, true);
          SetFrom(p2, false);
        } else {
          SetFrom(p1, false);
          SetFrom(p2, true);
        }
      } else {
        if p1.id.num < p2.id.num {
          SetFrom(p1, true);
          SetFrom(p2, false);
        } else {
          SetFrom(p1, false);
          SetFrom(p2, true);
        }
      }
      CountLink(p1.id, p2.id, 1);
      return true;
    }

    method FabricDataRemoveLink(p1: PortData) returns (ok: bool)
      requires Valid() && Linked(p1)
      modifies this, p1, p1.neighbor
      ensures Valid() && ok == CanRemove(old(Now()), p1.id)
      ensures Now() == RemoveLink(nodes, old(Now()), p1.id)
    {
      hide Valid, Neighbors, FromPorts, Rates;
      NeighborIs(p1);
      var p2 := p1.neighbor;
      if p2 == null {
        return false;
      }
      NeighborIs(p2);
      if p1 == p2 {
        return false;
      }
      if p2.neighbor != p1 {
        return false;
      }
      CountLink(p1.id, p2.id, -1);
      ClearPort(p1);
      ClearPort(p2);
      return true;
    }

    /** The end of a link element of a snapshot. */
    method LinkXmlParserEnd(l: Link)
      requires Valid()
      modifies this, Objects()
      ensures Valid() && Now() == ReadLink(nodes, ports.Keys, old(Now()), l)
    {
      hide Valid, Neighbors, FromPorts, Rates;
      if l.from !in ports {
        return;
      }
      var p1 := PortAt(l.from);
      if p1.neighbor != null {
        return;
      }
      if l.to !in ports {
        return;
      }
      var p2 := PortAt(l.to);
      if p2.neighbor != null {
        return;
      }
      SetNeighbor(p1, p2);
      SetNeighbor(p2, p1);
      SetFrom(p1, true);
      CountLink(p1.id, p2.id, 1);
    }

    method PortAt(p: PortId) returns (port: PortData)
      requires Valid() && p in ports
      ensures port == ports[p] && port.id == p && Linked(port) && OnNodes(nodes, p)
      ensures port.neighbor == null <==> p !in Neighbors()
    {
      port := ports[p];
    }

    /** Read links one after the other. */
    method ReadLinks(links: seq<Link>)
      requires Valid()
      modifies this, Objects()
      ensures Valid() && Now() == Snapshot.ReadLinks(nodes, ports.Keys, old(Now()), links)
    {
      hide Valid, Now;
      PortsOnNodes();
      var i := 0;
      while i < |links|
        invariant 0 <= i <= |links| && Valid()
        invariant Now() == Snapshot.ReadLinks(nodes, ports.Keys, old(Now()), links[..i])
      {
        assert links[..i + 1][..i] == links[..i];
        LinkXmlParserEnd(links[i]);
        i := i + 1;
      }
      assert links[..i] == links;
    }

    lemma PortsOnNodes()
      requires Valid()
      ensures forall p :: p in ports.Keys ==> OnNodes(nodes, p)
    {
    }

    ghost predicate FromLinked()
      reads this, Objects()
    {
      forall p :: p in Now().from ==> p in Now().neighbor
    }

    /** Write each link once, from its from port. */
    method WriteLinks() returns (links: seq<Link>)
      requires Valid() && FromLinked()
      ensures FromLinked() && links == Written(Now(), allPorts)
    {
      links := [];
      var i := 0;
      while i < |allPorts|
        invariant 0 <= i <= |allPorts| && links == Written(Now(), allPorts[..i])
      {
        assert allPorts[..i + 1][..i] == allPorts[..i];
        var portp := ports[allPorts[i]];
        if portp.from {
          assert allPorts[i] in FromPorts();
          links := links + [Link(portp.id, portp.neighbor.id)];
        }
        i := i + 1;
      }
      assert allPorts[..i] == allPorts;
    }
  }
}
