/** The links of a fabric and their counters (Topology/fabricdata.c:298-329 and 1179-1322).

    A port is named by its node's GUID and its number. Which nodes there are, of what kind and
    in what system, does not change. */
module FabricLinks {
  import opened Options
  import opened OrderedKeys
  import opened PortIds

  datatype NodeKind = FI | SW | Other

  datatype NodeInfo = NodeInfo(kind: NodeKind, system: Key)

  type Nodes = map<Key, NodeInfo>

  datatype Counts = Counts(links: int, ext: int, fi: int, isl: int, extIsl: int)

  /** Neighbours, the ports links are reported from, port rates and the counters. */
  datatype LinkState = LinkState(neighbor: map<PortId, PortId>, from: set<PortId>, rate: map<PortId, nat>, counts: Counts)

  const NO_LINKS := Counts(0, 0, 0, 0, 0)

  predicate OnNodes(n: Nodes, p: PortId) {
    p.node in n
  }

  /** Within one system; a system GUID of 0 says nothing, so then within one node. */
  predicate Internal(n: Nodes, p: PortId, q: PortId)
    requires OnNodes(n, p) && OnNodes(n, q)
  {
    n[p.node].system == n[q.node].system && (n[p.node].system != 0 || p.node == q.node)
  }

  /** A link is internal exactly within one node, or within one system that is known. */
  lemma InternalIff(n: Nodes, p: PortId, q: PortId)
    requires OnNodes(n, p) && OnNodes(n, q)
    ensures Internal(n, p, q) <==> p.node == q.node || (n[p.node].system != 0 && n[p.node].system == n[q.node].system)
  {
  }

  predicate InterSwitch(n: Nodes, p: PortId, q: PortId)
    requires OnNodes(n, p) && OnNodes(n, q)
  {
    n[p.node].kind == SW && n[q.node].kind == SW
  }

  predicate ToAdapter(n: Nodes, p: PortId, q: PortId)
    requires OnNodes(n, p) && OnNodes(n, q)
  {
    n[p.node].kind == FI || n[q.node].kind == FI
  }

  /** The counters with d added for a link of the kind between p and q. */
  function Counted(n: Nodes, c: Counts, p: PortId, q: PortId, d: int): Counts
    requires OnNodes(n, p) && OnNodes(n, q)
  {
    Counts(c.links + d,
           if !Internal(n, p, q) then c.ext + d else c.ext,
           if ToAdapter(n, p, q) then c.fi + d else c.fi,
           if InterSwitch(n, p, q) then c.isl + d else c.isl,
           if !Internal(n, p, q) && InterSwitch(n, p, q) then c.extIsl + d else c.extIsl)
  }

  predicate Less(p: PortId, q: PortId) {
    if p.node != q.node then p.node < q.node else p.num < q.num
  }

  /** Nodes come before port numbers. */
  lemma LessIff(p: PortId, q: PortId)
    ensures Less(p, q) <==> p.node < q.node || (p.node == q.node && p.num < q.num)
  {
  }

  predicate CanAdd(st: LinkState, p: PortId, q: PortId) {
    p !in st.neighbor && q !in st.neighbor
  }

  /** Link two ports, unless one is linked; the link is reported from the lower one. */
  function AddLink(n: Nodes, st: LinkState, p: PortId, q: PortId): LinkState
    requires OnNodes(n, p) && OnNodes(n, q)
  {
    if !CanAdd(st, p, q) then st
    else
      LinkState(st.neighbor[p := q][q := p], if Less(p, q) then st.from - {q} + {p} else st.from - {p} + {q}, st.rate,
                Counted(n, st.counts, p, q, 1))
  }

  predicate CanRemove(st: LinkState, p: PortId) {
    p in st.neighbor && st.neighbor[p] != p && st.neighbor[p] in st.neighbor && st.neighbor[st.neighbor[p]] == p
  }

  /** Unlink a port from its neighbour. */
  function RemoveLink(n: Nodes, st: LinkState, p: PortId): LinkState
    requires OnNodes(n, p) && (p in st.neighbor ==> OnNodes(n, st.neighbor[p]))
  {
    if !CanRemove(st, p) then st
    else
      var q := st.neighbor[p];
      LinkState(st.neighbor - {p, q}, st.from - {p, q}, st.rate[p := 0][q := 0], Counted(n, st.counts, p, q, -1))
  }

  // ---------------------------------------------------------------- what every run keeps

  /** The kinds of link that are counted. */
  datatype Class = Any | External | Adapter | Switches | ExternalSwitches

  predicate InClass(n: Nodes, c: Class, p: PortId, q: PortId) {
    && OnNodes(n, p) && OnNodes(n, q)
    && match c
       case Any => true
       case External => !Internal(n, p, q)
       case Adapter => ToAdapter(n, p, q)
       case Switches => InterSwitch(n, p, q)
       case ExternalSwitches => !Internal(n, p, q) && InterSwitch(n, p, q)
  }

  function Counter(k: Counts, c: Class): int {
    match c
    case Any => k.links
    case External => k.ext
    case Adapter => k.fi
    case Switches => k.isl
    case ExternalSwitches => k.extIsl
  }

  /** The links of a class, each by the port it is reported from. */
  ghost function LinksOf(n: Nodes, st: LinkState, c: Class): set<PortId> {
    set p | p in st.from && p in st.neighbor && InClass(n, c, p, st.neighbor[p])
  }

  /** Every counter is the number of links of its class. */
  ghost predicate CountsAreTrue(n: Nodes, st: LinkState) {
    forall c: Class :: Counter(st.counts, c) == |LinksOf(n, st, c)|
  }

  /** Neighbours are mutual and never a port itself; each link is reported from one of its ports. */
  ghost predicate Joined(n: Nodes, st: LinkState) {
    && Symmetric(st.neighbor) && (forall p :: p in st.neighbor ==> OnNodes(n, p))
    && (forall p :: p in st.from ==> p in st.neighbor)
    && (forall p :: p in st.neighbor ==> (p in st.from <==> st.neighbor[p] !in st.from))
  }

  ghost predicate FromLower(st: LinkState) {
    forall p :: p in st.from ==> p in st.neighbor && Less(p, st.neighbor[p])
  }

  ghost predicate Inv(n: Nodes, st: LinkState) {
    Joined(n, st) && CountsAreTrue(n, st)
  }

  lemma {:induction false} CountedCounts(n: Nodes, k: Counts, p: PortId, q: PortId, d: int, c: Class)
    requires OnNodes(n, p) && OnNodes(n, q)
    ensures Counter(Counted(n, k, p, q, d), c) == Counter(k, c) + if InClass(n, c, p, q) then d else 0
    ensures InClass(n, c, p, q) <==> InClass(n, c, q, p)
  {
  }

  /** Linking two different ports keeps the links joined and counted. */
  lemma {:induction false} AddKeeps(n: Nodes, st: LinkState, p: PortId, q: PortId)
    requires OnNodes(n, p) && OnNodes(n, q) && Inv(n, st) && p != q
    ensures Inv(n, AddLink(n, st, p, q))
    ensures FromLower(st) ==> FromLower(AddLink(n, st, p, q))
  {
    if CanAdd(st, p, q) {
      AddKeepsJoined(n, st, p, q);
      AddKeepsCounts(n, st, p, q);
    }
  }

  lemma {:induction false} AddKeepsJoined(n: Nodes, st: LinkState, p: PortId, q: PortId)
    requires OnNodes(n, p) && OnNodes(n, q) && Joined(n, st) && p != q && CanAdd(st, p, q)
    ensures Joined(n, AddLink(n, st, p, q))
  {
    hide Less, Counted;
  }

  lemma {:induction false} AddKeepsCounts(n: Nodes, st: LinkState, p: PortId, q: PortId)
    requires OnNodes(n, p) && OnNodes(n, q) && Inv(n, st) && p != q && CanAdd(st, p, q)
    ensures CountsAreTrue(n, AddLink(n, st, p, q))
  {
    hide InClass, Counted, Less, LinksOf;
    forall c: Class
      ensures Counter(AddLink(n, st, p, q).counts, c) == |LinksOf(n, AddLink(n, st, p, q), c)|
    {
      CountedCounts(n, st.counts, p, q, 1, c);
      MoreLinks(n, st, AddLink(n, st, p, q), if Less(p, q) then p else q, if Less(p, q) then q else p, c);
    }
  }

  /** One more link reported from a adds a to each class the link is in. */
  lemma {:induction false} MoreLinks(n: Nodes, st: LinkState, st': LinkState, a: PortId, b: PortId, c: Class)
    requires st'.from == st.from + {a} && a !in st.from && a in st'.neighbor && st'.neighbor[a] == b
    requires forall p :: p in st.from ==> p in st.neighbor && p in st'.neighbor && st'.neighbor[p] == st.neighbor[p]
    ensures |LinksOf(n, st', c)| == |LinksOf(n, st, c)| + if InClass(n, c, a, b) then 1 else 0
  {
    hide InClass;
    assert LinksOf(n, st', c) == LinksOf(n, st, c) + if InClass(n, c, a, b) then {a} else {};
  }

  /** Unlinking keeps the links joined and counted. */
  lemma {:induction false} RemoveKeeps(n: Nodes, st: LinkState, p: PortId)
    requires OnNodes(n, p) && Inv(n, st)
    ensures Inv(n, RemoveLink(n, st, p))
    ensures FromLower(st) ==> FromLower(RemoveLink(n, st, p))
    ensures p in st.neighbor <==> CanRemove(st, p)
  {
    hide Counted, Less;
    if CanRemove(st, p) {
      RemoveKeepsCounts(n, st, p);
    }
  }

  lemma {:induction false} RemoveKeepsCounts(n: Nodes, st: LinkState, p: PortId)
    requires OnNodes(n, p) && Inv(n, st) && CanRemove(st, p)
    ensures CountsAreTrue(n, RemoveLink(n, st, p))
  {
    hide InClass, Counted, Less, LinksOf;
    var q := st.neighbor[p];
    var a, b := if p in st.from then p else q, if p in st.from then q else p;
    forall c: Class
      ensures Counter(RemoveLink(n, st, p).counts, c) == |LinksOf(n, RemoveLink(n, st, p), c)|
    {
      CountedCounts(n, st.counts, p, q, -1, c);
      MoreLinks(n, RemoveLink(n, st, p), st, a, b, c);
    }
  }

  /** A port linked to itself is the only way to spoil the links by adding one. */
  lemma {:induction false} AddSpoilsIffSelf(n: Nodes, st: LinkState, p: PortId, q: PortId)
    requires OnNodes(n, p) && OnNodes(n, q) && Inv(n, st)
    ensures Inv(n, AddLink(n, st, p, q)) <==> p != q || p in st.neighbor
  {
    if p != q {
      AddKeeps(n, st, p, q);
    } else if p !in st.neighbor {
      assert AddLink(n, st, p, q).neighbor[p] == p;
    }
  }

  /** A link may be given from either end, and removing it from either end undoes it, but for
      the rates. */
  lemma {:induction false} RemoveUndoesAdd(n: Nodes, st: LinkState, p: PortId, q: PortId)
    requires OnNodes(n, p) && OnNodes(n, q) && Inv(n, st) && p != q && CanAdd(st, p, q)
    ensures var st' := AddLink(n, st, p, q);
            && st' == AddLink(n, st, q, p)
            && RemoveLink(n, st', p) == RemoveLink(n, st', q) == st.(rate := st.rate[p := 0][q := 0])
  {
    var st' := AddLink(n, st, p, q);
    assert st.neighbor[p := q][q := p] == st.neighbor[q := p][p := q];
    assert st'.neighbor - {p, q} == st.neighbor && st'.from - {p, q} == st.from;
    assert st.rate[p := 0][q := 0] == st.rate[q := 0][p := 0];
  }

  /** Where every node is an adapter or a switch, adapter links and inter-switch links are all
      the links. */
  lemma {:induction false} TwoKindsOfLink(n: Nodes, st: LinkState)
    requires Inv(n, st) && forall g :: g in n ==> n[g].kind != Other
    ensures st.counts.fi + st.counts.isl == st.counts.links
  {
    hide InClass, Joined;
    var all, fi, isl := LinksOf(n, st, Any), LinksOf(n, st, Adapter), LinksOf(n, st, Switches);
    assert Counter(st.counts, Any) == |all| && Counter(st.counts, Adapter) == |fi| && Counter(st.counts, Switches) == |isl|;
    forall p | p in st.from && p in st.neighbor
      ensures p in all <==> p in fi || p in isl
      ensures p !in fi || p !in isl
    {
      TwoKinds(n, p, st.neighbor[p]);
    }
    assert all == fi + isl && fi * isl == {};
  }

  lemma {:induction false} TwoKinds(n: Nodes, p: PortId, q: PortId)
    requires forall g :: g in n ==> n[g].kind != Other
    ensures InClass(n, Any, p, q) <==> InClass(n, Adapter, p, q) || InClass(n, Switches, p, q)
    ensures !(InClass(n, Adapter, p, q) && InClass(n, Switches, p, q))
  {
  }

  /** What one link adds to the counters, by the kinds of its nodes and by whether it leaves the system. */
  lemma OneOfEachKind(n: Nodes, p: PortId, q: PortId)
    requires OnNodes(n, p) && OnNodes(n, q)
    ensures var one := Counted(n, NO_LINKS, p, q, 1);
            var outside := p.node != q.node && (n[p.node].system == 0 || n[p.node].system != n[q.node].system);
            && (n[p.node].kind == SW && n[q.node].kind == SW ==> one == if outside then Counts(1, 1, 0, 1, 1) else Counts(1, 0, 0, 1, 0))
            && (n[p.node].kind == FI || n[q.node].kind == FI ==> one == if outside then Counts(1, 1, 1, 0, 0) else Counts(1, 0, 1, 0, 0))
            && (n[p.node].kind == Other && n[q.node].kind != FI ==> one == if outside then Counts(1, 1, 0, 0, 0) else Counts(1, 0, 0, 0, 0))
  {
  }

  // ---------------------------------------------------------------- whole runs

  datatype LinkOp = Add(p: PortId, q: PortId) | Remove(p: PortId)

  predicate OpFits(n: Nodes, op: LinkOp) {
    OnNodes(n, op.p) && (op.Add? ==> OnNodes(n, op.q) && op.p != op.q)
  }

  ghost function Apply(n: Nodes, st: LinkState, op: LinkOp): LinkState
    requires OpFits(n, op) && Joined(n, st)
  {
    match op
    case Add(p, q) => AddLink(n, st, p, q)
    case Remove(p) => RemoveLink(n, st, p)
  }

  /** The links after some operations, starting from none. */
  ghost function AfterOps(n: Nodes, rate: map<PortId, nat>, ops: seq<LinkOp>): (st: LinkState)
    requires forall i :: 0 <= i < |ops| ==> OpFits(n, ops[i])
    ensures Inv(n, st) && FromLower(st)
  {
    if ops == [] then
      StartsSound(n, rate);
      LinkState(map[], {}, rate, NO_LINKS)
    else
      var st := AfterOps(n, rate, ops[..|ops| - 1]);
      var op := ops[|ops| - 1];
      ApplyKeeps(n, st, op);
      Apply(n, st, op)
  }

  lemma {:induction false} StartsSound(n: Nodes, rate: map<PortId, nat>)
    ensures var st := LinkState(map[], {}, rate, NO_LINKS); Inv(n, st) && FromLower(st)
  {
  }

  /** Any operation on links keeps them joined, reported from their lower port, and counted. */
  lemma {:induction false} ApplyKeeps(n: Nodes, st: LinkState, op: LinkOp)
    requires OpFits(n, op) && Inv(n, st) && FromLower(st)
    ensures Inv(n, Apply(n, st, op)) && FromLower(Apply(n, st, op))
  {
    hide Inv, FromLower, AddLink, RemoveLink;
    match op
    case Add(p, q) => AddKeeps(n, st, p, q);
    case Remove(p) => RemoveKeeps(n, st, p);
  }

  /** After any run from no links: a port is linked exactly if its neighbour is linked back to it,
      each link is reported from its lower port only, and counters and links agree. */
  lemma {:induction false} RunsKeepLinks(n: Nodes, rate: map<PortId, nat>, ops: seq<LinkOp>)
    requires forall i :: 0 <= i < |ops| ==> OpFits(n, ops[i])
    ensures var st := AfterOps(n, rate, ops);
            && (forall p :: p in st.neighbor ==>
                  var q := st.neighbor[p];
                  q != p && q in st.neighbor && st.neighbor[q] == p && (p in st.from <==> Less(p, q)))
            && forall c: Class :: Counter(st.counts, c) == |LinksOf(n, st, c)|
  {
  }
}
