/** Writing the links of a fabric and reading them back (Topology/snapshot.c:890-962 and
    1110-1122; Topology/search.c:54-62 and 2130-2136). */
module Snapshot {
  import opened Options
  import opened Sequences
  import opened OrderedKeys
  import opened PortIds
  import opened FabricLinks

  /** A link as written: the port it is reported from and its neighbour. */
  datatype Link = Link(from: PortId, to: PortId)

  function Unlinked(rate: map<PortId, nat>): LinkState {
    LinkState(map[], {}, rate, NO_LINKS)
  }

  /** One link read. A port that does not exist or is already linked leaves everything as it is. */
  function ReadLink(n: Nodes, ports: set<PortId>, st: LinkState, l: Link): LinkState
    requires forall p :: p in ports ==> OnNodes(n, p)
  {
    if l.from !in ports || l.from in st.neighbor || l.to !in ports || l.to in st.neighbor then st
    else LinkState(st.neighbor[l.from := l.to][l.to := l.from], st.from + {l.from}, st.rate, Counted(n, st.counts, l.from, l.to, 1))
  }

  function ReadLinks(n: Nodes, ports: set<PortId>, st: LinkState, links: seq<Link>): LinkState
    requires forall p :: p in ports ==> OnNodes(n, p)
  {
    if links == [] then st else ReadLink(n, ports, ReadLinks(n, ports, st, links[..|links| - 1]), links[|links| - 1])
  }

  /** The links of the ports in the given order, each written once, from its from port. */
  function Written(st: LinkState, order: seq<PortId>): seq<Link>
    requires forall p :: p in st.from ==> p in st.neighbor
  {
    if order == [] then []
    else
      var p := order[|order| - 1];
      Written(st, order[..|order| - 1]) + if p in st.from then [Link(p, st.neighbor[p])] else []
  }

  /** The state after reading the links written for the ports in s. */
  ghost predicate PartOf(n: Nodes, st: LinkState, s: set<PortId>, part: LinkState) {
    && part.from == s * st.from && part.rate == st.rate && CountsAreTrue(n, part)
    && (forall p :: p in part.neighbor ==> p in st.neighbor && part.neighbor[p] == st.neighbor[p])
    && (forall p :: p in st.neighbor ==> (p in part.neighbor <==> p in part.from || st.neighbor[p] in part.from))
  }

  lemma {:induction false} ReadsNext(n: Nodes, ports: set<PortId>, st: LinkState, s: set<PortId>, part: LinkState, p: PortId)
    requires Joined(n, st) && st.neighbor.Keys <= ports && (forall q :: q in ports ==> OnNodes(n, q))
    requires PartOf(n, st, s, part) && p in st.from && p !in s
    ensures PartOf(n, st, s + {p}, ReadLink(n, ports, part, Link(p, st.neighbor[p])))
  {
    hide InClass, Counted, LinksOf;
    var q := st.neighbor[p];
    var part' := ReadLink(n, ports, part, Link(p, q));
    forall c: Class
      ensures Counter(part'.counts, c) == |LinksOf(n, part', c)|
    {
      CountedCounts(n, part.counts, p, q, 1, c);
      MoreLinks(n, part, part', p, q, c);
    }
  }

  lemma {:induction false} ReadsBack(n: Nodes, ports: set<PortId>, st: LinkState, order: seq<PortId>)
    requires Joined(n, st) && st.neighbor.Keys <= ports && (forall q :: q in ports ==> OnNodes(n, q))
    requires NoRepeats(order)
    ensures PartOf(n, st, (set p | p in order), ReadLinks(n, ports, Unlinked(st.rate), Written(st, order)))
  {
    hide ReadLink, LinksOf;
    if order == [] {
      NothingRead(n, st);
    } else {
      var k := |order| - 1;
      ReadsBack(n, ports, st, order[..k]);
      var s, p := (set x | x in order[..k]), order[k];
      assert (set x | x in order) == s + {p};
      if p in st.from {
        ReadsNext(n, ports, st, s, ReadLinks(n, ports, Unlinked(st.rate), Written(st, order[..k])), p);
        assert Written(st, order)[..|Written(st, order)| - 1] == Written(st, order[..k]);
      } else {
        assert (s + {p}) * st.from == s * st.from && Written(st, order) == Written(st, order[..k]);
      }
    }
  }

  lemma {:induction false} NothingRead(n: Nodes, st: LinkState)
    ensures PartOf(n, st, {}, Unlinked(st.rate))
  {
  }

  /** Reading back what was written rebuilds the links exactly: neighbours, from ports and
      counters. */
  lemma {:induction false} RoundTrip(n: Nodes, ports: set<PortId>, st: LinkState, order: seq<PortId>)
    requires Inv(n, st) && st.neighbor.Keys <= ports && (forall q :: q in ports ==> OnNodes(n, q))
    requires (forall p :: p in st.from ==> p in order) && NoRepeats(order)
    ensures ReadLinks(n, ports, Unlinked(st.rate), Written(st, order)) == st
  {
    hide LinksOf;
    var s := set p | p in order;
    var back := ReadLinks(n, ports, Unlinked(st.rate), Written(st, order));
    ReadsBack(n, ports, st, order);
    assert back.from == st.from;
    assert back.neighbor == st.neighbor;
    forall c: Class
      ensures Counter(back.counts, c) == Counter(st.counts, c)
    {
      SameLinks(n, back, st, c);
    }
    SameCounts(back.counts, st.counts);
  }

  /** Any link read keeps neighbours mutual, among the ports there are, and counters true, unless it
      links a free port to itself. */
  lemma {:induction false} ReadKeepsIff(n: Nodes, ports: set<PortId>, st: LinkState, l: Link)
    requires Inv(n, st) && st.neighbor.Keys <= ports && forall q :: q in ports ==> OnNodes(n, q)
    ensures Inv(n, ReadLink(n, ports, st, l)) <==> l.from != l.to || l.from !in ports || l.from in st.neighbor
    ensures ReadLink(n, ports, st, l).neighbor.Keys <= ports
  {
    hide LinksOf, Counted, InClass;
    var st' := ReadLink(n, ports, st, l);
    if st' != st {
      if l.from != l.to {
        forall c: Class
          ensures Counter(st'.counts, c) == |LinksOf(n, st', c)|
        {
          CountedCounts(n, st.counts, l.from, l.to, 1, c);
          MoreLinks(n, st, st', l.from, l.to, c);
        }
      } else {
        assert st'.neighbor[l.from] == l.from;
      }
    }
  }

  lemma SameLinks(n: Nodes, a: LinkState, b: LinkState, c: Class)
    requires a.from == b.from && a.neighbor == b.neighbor
    ensures LinksOf(n, a, c) == LinksOf(n, b, c)
  {
  }

  lemma SameCounts(a: Counts, b: Counts)
    requires forall c: Class :: Counter(a, c) == Counter(b, c)
    ensures a == b
  {
    assert Counter(a, Any) == Counter(b, Any) && Counter(a, External) == Counter(b, External);
    assert Counter(a, Adapter) == Counter(b, Adapter) && Counter(a, Switches) == Counter(b, Switches);
    assert Counter(a, ExternalSwitches) == Counter(b, ExternalSwitches);
  }
}
