/** What the walk of a multicast group checks (Topology/route.c:138-341): that the group is
    forwarded as a tree. */
module McTree {
  import opened Options
  import opened Sequences
  import opened McFabric
  import opened McRoute

  /** Forwarding does not go on from here: a route ends, or it came to a port 0. */
  predicate Halts(f: Fabric, a: Arrival, hop: nat)
    requires a.port.node in f.nodes
  {
    IsEnd(f, a, hop) || (a.entry == 0 && hop > 1)
  }

  /** Where the group arrives after leaving switches by the exits named, if it is forwarded so. */
  ghost function Reach(f: Fabric, grp: Group, a: Arrival, hop: nat, exits: seq<nat>): (r: Option<Arrival>)
    requires WellFormed(f) && a.port.node in f.nodes
    ensures r.Some? ==> r.value.port.node in f.nodes
    decreases |exits|
  {
    if exits == [] then Some(a)
    else if Halts(f, a, hop) || f.nodes[a.port.node].switch.None? || !Exits(f, grp, a, exits[0]) || !Leads(f, a, exits[0]) then None
    else Reach(f, grp, Next(f, a, exits[0]), hop + 1, exits[1..])
  }

  /** Forwarding does the right thing at this node. */
  ghost predicate Fine(f: Fabric, grp: Group, a: Arrival, hop: nat)
    requires WellFormed(f) && a.port.node in f.nodes
  {
    if IsEnd(f, a, hop) then a.port.node in grp.members
    else
      && HasTable(f, grp, a, hop)
      && forall ix :: 0 <= ix <= LastPort(f, a.port.node) ==> Readable(f, grp, a, ix) && (Exits(f, grp, a, ix) ==> Leads(f, a, ix))
  }

  /** Every path is under 64 hops and does the right thing at each node it comes to. */
  ghost predicate PathsAreFine(f: Fabric, grp: Group, a: Arrival, hop: nat)
    requires WellFormed(f) && a.port.node in f.nodes
  {
    forall exits :: Reach(f, grp, a, hop, exits).Some? ==>
      hop + |exits| < MAX_HOPS && Fine(f, grp, Reach(f, grp, a, hop, exits).value, hop + |exits|)
  }

  /** Two ways to come to a switch are the same way. */
  ghost predicate SwitchesReachedOnce(f: Fabric, grp: Group, a: Arrival, hop: nat)
    requires WellFormed(f) && a.port.node in f.nodes
  {
    forall e, e' :: ComesToSwitch(f, grp, a, hop, e) && ComesToSwitch(f, grp, a, hop, e') ==>
      (Reach(f, grp, a, hop, e).value.port.node == Reach(f, grp, a, hop, e').value.port.node ==> e == e')
  }

  ghost predicate ComesToSwitch(f: Fabric, grp: Group, a: Arrival, hop: nat, exits: seq<nat>)
    requires WellFormed(f) && a.port.node in f.nodes
  {
    var r := Reach(f, grp, a, hop, exits);
    r.Some? && hop + |exits| < MAX_HOPS && !IsEnd(f, r.value, hop + |exits|) && HasTable(f, grp, r.value, hop + |exits|)
  }

  ghost predicate ForwardsAsTree(f: Fabric, grp: Group, start: Arrival)
    requires WellFormed(f) && start.port.node in f.nodes
  {
    f.nodes[start.port.node].switch.Some? && PathsAreFine(f, grp, start, 1) && SwitchesReachedOnce(f, grp, start, 1)
  }

  // ---------------------------------------------------------------- clean forwarding

  lemma {:induction false} CleanAt(f: Fabric, grp: Group, a: Arrival, hop: nat, ix: nat, n: nat)
    requires WellFormed(f) && a.port.node in f.nodes && f.nodes[a.port.node].switch.Some? && hop < MAX_HOPS
    requires CleanBelow(f, grp, a, hop, n) && ix < n
    ensures Readable(f, grp, a, ix)
    ensures Exits(f, grp, a, ix) ==> Leads(f, a, ix) && Clean(f, grp, Next(f, a, ix), hop + 1)
  {
    if ix < n - 1 {
      CleanAt(f, grp, a, hop, ix, n - 1);
    }
  }

  lemma {:induction false} CleanPath(f: Fabric, grp: Group, a: Arrival, hop: nat, exits: seq<nat>)
    requires WellFormed(f) && a.port.node in f.nodes && hop <= MAX_HOPS
    requires Clean(f, grp, a, hop) && Reach(f, grp, a, hop, exits).Some?
    ensures hop + |exits| < MAX_HOPS && Fine(f, grp, Reach(f, grp, a, hop, exits).value, hop + |exits|)
    decreases |exits|
  {
    if exits != [] {
      CleanAt(f, grp, a, hop, exits[0], LastPort(f, a.port.node) + 1);
      CleanPath(f, grp, Next(f, a, exits[0]), hop + 1, exits[1..]);
    } else if !IsEnd(f, a, hop) {
      forall ix | 0 <= ix <= LastPort(f, a.port.node)
        ensures Readable(f, grp, a, ix) && (Exits(f, grp, a, ix) ==> Leads(f, a, ix))
      {
        CleanAt(f, grp, a, hop, ix, LastPort(f, a.port.node) + 1);
      }
    }
  }

  /** Fine paths stay fine one hop on. */
  lemma {:induction false} FineBeyond(f: Fabric, grp: Group, a: Arrival, hop: nat, ix: nat)
    requires WellFormed(f) && a.port.node in f.nodes && f.nodes[a.port.node].switch.Some?
    requires PathsAreFine(f, grp, a, hop) && !Halts(f, a, hop) && Exits(f, grp, a, ix) && Leads(f, a, ix)
    ensures PathsAreFine(f, grp, Next(f, a, ix), hop + 1)
  {
    forall exits | Reach(f, grp, Next(f, a, ix), hop + 1, exits).Some?
      ensures hop + 1 + |exits| < MAX_HOPS && Fine(f, grp, Reach(f, grp, Next(f, a, ix), hop + 1, exits).value, hop + 1 + |exits|)
    {
      var on := [ix] + exits;
      assert on[1..] == exits;
      assert Reach(f, grp, a, hop, on) == Reach(f, grp, Next(f, a, ix), hop + 1, exits);
    }
  }

  lemma {:induction false} FineIsClean(f: Fabric, grp: Group, a: Arrival, hop: nat)
    requires WellFormed(f) && a.port.node in f.nodes && hop <= MAX_HOPS && PathsAreFine(f, grp, a, hop)
    ensures Clean(f, grp, a, hop)
    decreases MAX_HOPS - hop, 1, 0
  {
    assert Reach(f, grp, a, hop, []).Some?;
    if !IsEnd(f, a, hop) {
      FineIsCleanBelow(f, grp, a, hop, LastPort(f, a.port.node) + 1);
    }
  }

  lemma {:induction false} FineIsCleanBelow(f: Fabric, grp: Group, a: Arrival, hop: nat, n: nat)
    requires WellFormed(f) && a.port.node in f.nodes && f.nodes[a.port.node].switch.Some? && hop < MAX_HOPS && n <= LastPort(f, a.port.node) + 1
    requires PathsAreFine(f, grp, a, hop) && !Halts(f, a, hop) && Fine(f, grp, a, hop)
    ensures CleanBelow(f, grp, a, hop, n)
    decreases MAX_HOPS - hop, 0, n
  {
    hide PathsAreFine, Reach, IsEnd, HasTable, WellFormed, Next;
    if n > 0 {
      FineIsCleanBelow(f, grp, a, hop, n - 1);
      if Exits(f, grp, a, n - 1) {
        FineBeyond(f, grp, a, hop, n - 1);
        FineIsClean(f, grp, Next(f, a, n - 1), hop + 1);
      }
    }
  }

  // ---------------------------------------------------------------- the ways to the switches

  /** The ways to the switches, in the order the walk comes to them. */
  ghost function Ways(f: Fabric, grp: Group, a: Arrival, hop: nat): seq<seq<nat>>
    requires WellFormed(f) && a.port.node in f.nodes && hop <= MAX_HOPS
    decreases MAX_HOPS - hop, 1, 0
  {
    if hop == MAX_HOPS || IsEnd(f, a, hop) || !HasTable(f, grp, a, hop) then []
    else [[]] + WaysBelow(f, grp, a, hop, LastPort(f, a.port.node) + 1)
  }

  ghost function WaysBelow(f: Fabric, grp: Group, a: Arrival, hop: nat, n: nat): seq<seq<nat>>
    requires WellFormed(f) && a.port.node in f.nodes && f.nodes[a.port.node].switch.Some? && hop < MAX_HOPS
    decreases MAX_HOPS - hop, 0, n
  {
    if n == 0 then []
    else
      WaysBelow(f, grp, a, hop, n - 1) +
        if Exits(f, grp, a, n - 1) && Leads(f, a, n - 1) then Via(n - 1, Ways(f, grp, Next(f, a, n - 1), hop + 1)) else []
  }

  ghost function Via(ix: nat, ways: seq<seq<nat>>): seq<seq<nat>> {
    seq(|ways|, k requires 0 <= k < |ways| => [ix] + ways[k])
  }

  ghost predicate WayTo(f: Fabric, grp: Group, a: Arrival, hop: nat, exits: seq<nat>, g: Guid)
    requires WellFormed(f) && a.port.node in f.nodes
  {
    ComesToSwitch(f, grp, a, hop, exits) && Reach(f, grp, a, hop, exits).value.port.node == g
  }

  lemma {:induction false} WayBeyond(f: Fabric, grp: Group, a: Arrival, hop: nat, ix: nat, exits: seq<nat>)
    requires WellFormed(f) && a.port.node in f.nodes && f.nodes[a.port.node].switch.Some?
    requires !Halts(f, a, hop) && Exits(f, grp, a, ix) && Leads(f, a, ix)
    ensures Reach(f, grp, a, hop, [ix] + exits) == Reach(f, grp, Next(f, a, ix), hop + 1, exits)
  {
    assert ([ix] + exits)[1..] == exits;
  }

  /** The k-th way leads to the k-th switch. */
  ghost predicate Lead(f: Fabric, grp: Group, a: Arrival, hop: nat, ways: seq<seq<nat>>, switches: seq<Guid>)
    requires WellFormed(f) && a.port.node in f.nodes
  {
    |ways| == |switches| && forall k :: 0 <= k < |ways| ==> WayTo(f, grp, a, hop, ways[k], switches[k])
  }

  lemma {:induction false} WaysLead(f: Fabric, grp: Group, a: Arrival, hop: nat)
    requires WellFormed(f) && a.port.node in f.nodes && hop <= MAX_HOPS
    ensures Lead(f, grp, a, hop, Ways(f, grp, a, hop), Switches(f, grp, a, hop))
    decreases MAX_HOPS - hop, 1, 0
  {
    hide WellFormed, Exits, Leads, Next, WaysBelow, SwitchesBelow;
    if !(hop == MAX_HOPS || IsEnd(f, a, hop) || !HasTable(f, grp, a, hop)) {
      WaysLeadBelow(f, grp, a, hop, LastPort(f, a.port.node) + 1);
      assert WayTo(f, grp, a, hop, [], a.port.node);
    }
  }

  lemma {:induction false} WaysLeadBelow(f: Fabric, grp: Group, a: Arrival, hop: nat, n: nat)
    requires WellFormed(f) && a.port.node in f.nodes && f.nodes[a.port.node].switch.Some? && hop < MAX_HOPS && !Halts(f, a, hop)
    ensures Lead(f, grp, a, hop, WaysBelow(f, grp, a, hop, n), SwitchesBelow(f, grp, a, hop, n))
    decreases MAX_HOPS - hop, 0, n
  {
    hide Exits, Leads, Lead, Halts, Next, WellFormed, Via, Ways, Switches;
    if n > 0 {
      WaysLeadBelow(f, grp, a, hop, n - 1);
      var ways, switches := WaysBelow(f, grp, a, hop, n - 1), SwitchesBelow(f, grp, a, hop, n - 1);
      if Exits(f, grp, a, n - 1) && Leads(f, a, n - 1) {
        var on := Next(f, a, n - 1);
        WaysLead(f, grp, on, hop + 1);
        ViaLeads(f, grp, a, hop, n - 1, Ways(f, grp, on, hop + 1), Switches(f, grp, on, hop + 1));
        BothLead(f, grp, a, hop, ways, switches, Via(n - 1, Ways(f, grp, on, hop + 1)), Switches(f, grp, on, hop + 1));
      } else {
        NoneLead(f, grp, a, hop);
        BothLead(f, grp, a, hop, ways, switches, [], []);
      }
    } else {
      NoneLead(f, grp, a, hop);
    }
  }

  lemma {:induction false} NoneLead(f: Fabric, grp: Group, a: Arrival, hop: nat)
    requires WellFormed(f) && a.port.node in f.nodes
    ensures Lead(f, grp, a, hop, [], [])
  {
  }

  lemma {:induction false} BothLead(f: Fabric, grp: Group, a: Arrival, hop: nat, w1: seq<seq<nat>>, s1: seq<Guid>,
                                    w2: seq<seq<nat>>, s2: seq<Guid>)
    requires WellFormed(f) && a.port.node in f.nodes && Lead(f, grp, a, hop, w1, s1) && Lead(f, grp, a, hop, w2, s2)
    ensures Lead(f, grp, a, hop, w1 + w2, s1 + s2)
  {
    hide WayTo, WellFormed;
  }

  lemma {:induction false} ViaLeads(f: Fabric, grp: Group, a: Arrival, hop: nat, ix: nat, ways: seq<seq<nat>>, switches: seq<Guid>)
    requires WellFormed(f) && a.port.node in f.nodes && f.nodes[a.port.node].switch.Some? && hop < MAX_HOPS && !Halts(f, a, hop)
    requires Exits(f, grp, a, ix) && Leads(f, a, ix) && Lead(f, grp, Next(f, a, ix), hop + 1, ways, switches)
    ensures Lead(f, grp, a, hop, Via(ix, ways), switches)
  {
    forall k | 0 <= k < |ways|
      ensures WayTo(f, grp, a, hop, Via(ix, ways)[k], switches[k])
    {
      assert WayTo(f, grp, Next(f, a, ix), hop + 1, ways[k], switches[k]);
      WayBeyond(f, grp, a, hop, ix, ways[k]);
    }
  }

  /** Where forwarding is clean, every way to a switch is listed. */
  lemma {:induction false} WaysAreAll(f: Fabric, grp: Group, a: Arrival, hop: nat, exits: seq<nat>)
    requires WellFormed(f) && a.port.node in f.nodes && hop <= MAX_HOPS && Clean(f, grp, a, hop) && ComesToSwitch(f, grp, a, hop, exits)
    ensures exits in Ways(f, grp, a, hop)
    decreases |exits|
  {
    hide IsEnd, Next, WellFormed, CleanBelow, WaysBelow;
    if exits == [] {
      assert Ways(f, grp, a, hop)[0] == [];
    } else {
      var n := LastPort(f, a.port.node) + 1;
      CleanAt(f, grp, a, hop, exits[0], n);
      WaysAreAll(f, grp, Next(f, a, exits[0]), hop + 1, exits[1..]);
      WaysAreAllBelow(f, grp, a, hop, exits[0], exits[1..], n);
      assert [exits[0]] + exits[1..] == exits;
    }
  }

  lemma {:induction false} WaysAreAllBelow(f: Fabric, grp: Group, a: Arrival, hop: nat, ix: nat, exits: seq<nat>, n: nat)
    requires WellFormed(f) && a.port.node in f.nodes && f.nodes[a.port.node].switch.Some? && hop < MAX_HOPS && ix < n
    requires Exits(f, grp, a, ix) && Leads(f, a, ix) && exits in Ways(f, grp, Next(f, a, ix), hop + 1)
    ensures [ix] + exits in WaysBelow(f, grp, a, hop, n)
  {
    hide Exits, Leads, HasTable, IsEnd, Next, WellFormed, Reach, Via;
    if ix < n - 1 {
      WaysAreAllBelow(f, grp, a, hop, ix, exits, n - 1);
    } else {
      ViaHas(ix, Ways(f, grp, Next(f, a, ix), hop + 1), exits);
    }
  }

  lemma {:induction false} ViaHas(ix: nat, ways: seq<seq<nat>>, exits: seq<nat>)
    requires exits in ways
    ensures [ix] + exits in Via(ix, ways)
  {
    var k :| 0 <= k < |ways| && ways[k] == exits;
    assert Via(ix, ways)[k] == [ix] + exits;
  }

  predicate LeavesBelow(exits: seq<nat>, n: nat) {
    exits != [] && exits[0] < n
  }

  /** No way is listed twice. */
  lemma {:induction false} WaysDiffer(f: Fabric, grp: Group, a: Arrival, hop: nat)
    requires WellFormed(f) && a.port.node in f.nodes && hop <= MAX_HOPS
    ensures NoRepeats(Ways(f, grp, a, hop))
    decreases MAX_HOPS - hop, 1, 0
  {
    hide WaysBelow, WellFormed, Exits, Leads, Next, LastPort, IsEnd;
    if !(hop == MAX_HOPS || IsEnd(f, a, hop) || !HasTable(f, grp, a, hop)) {
      WaysDifferBelow(f, grp, a, hop, LastPort(f, a.port.node) + 1);
      NoRepeatsJoin([[]], WaysBelow(f, grp, a, hop, LastPort(f, a.port.node) + 1));
    }
  }

  lemma {:induction false} WaysDifferBelow(f: Fabric, grp: Group, a: Arrival, hop: nat, n: nat)
    requires WellFormed(f) && a.port.node in f.nodes && f.nodes[a.port.node].switch.Some? && hop < MAX_HOPS
    ensures NoRepeats(WaysBelow(f, grp, a, hop, n))
    ensures forall w :: w in WaysBelow(f, grp, a, hop, n) ==> LeavesBelow(w, n)
    decreases MAX_HOPS - hop, 0, n
  {
    hide Exits, Leads, HasTable, IsEnd, Next, WellFormed, Reach, Via;
    if n > 0 {
      WaysDifferBelow(f, grp, a, hop, n - 1);
      if Exits(f, grp, a, n - 1) && Leads(f, a, n - 1) {
        var ways := Ways(f, grp, Next(f, a, n - 1), hop + 1);
        WaysDiffer(f, grp, Next(f, a, n - 1), hop + 1);
        ViaDiffer(n - 1, ways);
        NoRepeatsJoin(WaysBelow(f, grp, a, hop, n - 1), Via(n - 1, ways));
      }
    }
  }

  lemma {:induction false} ViaDiffer(ix: nat, ways: seq<seq<nat>>)
    requires NoRepeats(ways)
    ensures NoRepeats(Via(ix, ways)) && forall w :: w in Via(ix, ways) ==> LeavesBelow(w, ix + 1) && !LeavesBelow(w, ix)
  {
    forall i, j | 0 <= i < j < |ways|
      ensures Via(ix, ways)[i] != Via(ix, ways)[j]
    {
      assert Via(ix, ways)[i][1..] == ways[i] && Via(ix, ways)[j][1..] == ways[j];
    }
  }

  // ---------------------------------------------------------------- the two directions

  /** Where forwarding is clean, each switch is reached once exactly when the walk's list of
      switches has no repeats. */
  lemma {:induction false} ReachedOnceIffNoRepeats(f: Fabric, grp: Group, a: Arrival, hop: nat)
    requires WellFormed(f) && a.port.node in f.nodes && hop <= MAX_HOPS && Clean(f, grp, a, hop)
    ensures SwitchesReachedOnce(f, grp, a, hop) <==> NoRepeats(Switches(f, grp, a, hop))
  {
    var ways, switches := Ways(f, grp, a, hop), Switches(f, grp, a, hop);
    WaysLead(f, grp, a, hop);
    WaysDiffer(f, grp, a, hop);
    if SwitchesReachedOnce(f, grp, a, hop) {
      forall i, j | 0 <= i < j < |switches|
        ensures switches[i] != switches[j]
      {
        assert WayTo(f, grp, a, hop, ways[i], switches[i]) && WayTo(f, grp, a, hop, ways[j], switches[j]);
      }
    }
    if NoRepeats(switches) {
      forall e, e' | ComesToSwitch(f, grp, a, hop, e) && ComesToSwitch(f, grp, a, hop, e')
                     && Reach(f, grp, a, hop, e).value.port.node == Reach(f, grp, a, hop, e').value.port.node
        ensures e == e'
      {
        WaysAreAll(f, grp, a, hop, e);
        WaysAreAll(f, grp, a, hop, e');
        var i :| 0 <= i < |ways| && ways[i] == e;
        var j :| 0 <= j < |ways| && ways[j] == e';
        assert WayTo(f, grp, a, hop, ways[i], switches[i]) && WayTo(f, grp, a, hop, ways[j], switches[j]);
      }
    }
  }

  /** What the walk checks is that the group is forwarded as a tree. */
  lemma {:induction false} TreeIffCleanAndNoRepeats(f: Fabric, grp: Group, start: Arrival)
    requires WellFormed(f) && start.port.node in f.nodes
    ensures ForwardsAsTree(f, grp, start)
            <==> f.nodes[start.port.node].switch.Some? && Clean(f, grp, start, 1) && NoRepeats(Switches(f, grp, start, 1))
  {
    if PathsAreFine(f, grp, start, 1) {
      FineIsClean(f, grp, start, 1);
    }
    if Clean(f, grp, start, 1) {
      forall exits | Reach(f, grp, start, 1, exits).Some?
        ensures 1 + |exits| < MAX_HOPS && Fine(f, grp, Reach(f, grp, start, 1, exits).value, 1 + |exits|)
      {
        CleanPath(f, grp, start, 1, exits);
      }
      ReachedOnceIffNoRepeats(f, grp, start, 1);
    }
  }
}
