/** What the walk does not see of forwarding because it cuts the numbers of entry ports and the
    port counts of switches, which have 16 bits, to 8 (Topology/route.c:139, 282 and 329). */
module McCuts {
  import opened Options
  import opened Widths
  import opened Sequences
  import opened McFabric
  import opened McTree

  function Whole(nodes: map<Guid, Node>): Fabric {
    Fabric(nodes, false)
  }

  function Seen(nodes: map<Guid, Node>): Fabric {
    Fabric(nodes, true)
  }

  function CutEntry(a: Arrival): Arrival {
    a.(entry := a.entry % UINT8)
  }

  ghost predicate AllReadable(f: Fabric, grp: Group, a: Arrival)
    requires WellFormed(f) && a.port.node in f.nodes && f.nodes[a.port.node].switch.Some?
  {
    forall ix :: 0 <= ix <= LastPort(f, a.port.node) ==> Readable(f, grp, a, ix)
  }

  /** The walk takes the node for what it is, and tries the exits the group is forwarded to. */
  ghost predicate SameHere(nodes: map<Guid, Node>, grp: Group, a: Arrival, hop: nat)
    requires WellFormed(Whole(nodes)) && a.port.node in nodes
  {
    var w, s, b := Whole(nodes), Seen(nodes), CutEntry(a);
    && (IsEnd(w, a, hop) <==> IsEnd(s, b, hop))
    && (!IsEnd(w, a, hop) ==>
          && (HasTable(w, grp, a, hop) <==> HasTable(s, grp, b, hop))
          && (HasTable(w, grp, a, hop) ==>
                && (AllReadable(w, grp, a) <==> AllReadable(s, grp, b))
                && forall ix: nat :: Exits(w, grp, a, ix) <==> Exits(s, grp, b, ix)))
  }

  /** Port ix is one the walk passes over because of a cut. */
  predicate PassedOver(nodes: map<Guid, Node>, a: Arrival, ix: nat)
    requires a.port.node in nodes
  {
    ix == a.entry % UINT8 || ix > nodes[a.port.node].numPorts % UINT8
  }

  /** A cut hides something here: a link port is taken for port 0 of a switch that has an end or a
      table, or the group is forwarded to a port passed over, or only such ports have no table. */
  ghost predicate Hides(nodes: map<Guid, Node>, grp: Group, a: Arrival, hop: nat)
    requires WellFormed(Whole(nodes)) && a.port.node in nodes
  {
    var w, n := Whole(nodes), nodes[a.port.node];
    if n.kind == FI then false
    else if hop > 1 && a.entry != 0 && a.entry % UINT8 == 0 then
      (n.kind == SW && n.info.enhancedPort0) || HasTable(w, grp, a, hop)
    else
      && !IsEnd(w, a, hop) && HasTable(w, grp, a, hop)
      && ((exists ix: nat :: Exits(w, grp, a, ix) && PassedOver(nodes, a, ix))
          || (&& !AllReadable(w, grp, a)
              && forall ix :: 0 <= ix <= LastPort(w, a.port.node) && !Readable(w, grp, a, ix) ==> PassedOver(nodes, a, ix)))
  }

  /** The walk sees a node right exactly when no cut hides anything there. */
  lemma {:induction false} SameIffNothingHidden(nodes: map<Guid, Node>, grp: Group, a: Arrival, hop: nat)
    requires WellFormed(Whole(nodes)) && a.port.node in nodes
    ensures WellFormed(Seen(nodes))
    ensures SameHere(nodes, grp, a, hop) <==> !Hides(nodes, grp, a, hop)
  {
    var w, s, b := Whole(nodes), Seen(nodes), CutEntry(a);
    if !IsEnd(w, a, hop) && HasTable(w, grp, a, hop) {
      forall ix: nat
        ensures Exits(s, grp, b, ix) <==> Exits(w, grp, a, ix) && !PassedOver(nodes, a, ix)
        ensures ix <= LastPort(s, a.port.node) ==> (!Readable(s, grp, b, ix) <==> !Readable(w, grp, a, ix) && !PassedOver(nodes, a, ix))
      {
        SeenExit(nodes, grp, a, ix);
      }
    }
  }

  lemma {:induction false} SeenExit(nodes: map<Guid, Node>, grp: Group, a: Arrival, ix: nat)
    requires WellFormed(Whole(nodes)) && a.port.node in nodes && nodes[a.port.node].switch.Some?
    ensures Exits(Seen(nodes), grp, CutEntry(a), ix) <==> Exits(Whole(nodes), grp, a, ix) && !PassedOver(nodes, a, ix)
    ensures ix <= LastPort(Seen(nodes), a.port.node) ==>
              (!Readable(Seen(nodes), grp, CutEntry(a), ix) <==> !Readable(Whole(nodes), grp, a, ix) && !PassedOver(nodes, a, ix))
  {
  }

  // ---------------------------------------------------------------- the whole walk

  /** No cut hides anything at any node the group is forwarded to in under 64 hops. */
  ghost predicate NothingHidden(nodes: map<Guid, Node>, grp: Group, a: Arrival, hop: nat)
    requires WellFormed(Whole(nodes)) && a.port.node in nodes
  {
    forall exits :: Reach(Whole(nodes), grp, a, hop, exits).Some? && hop + |exits| < MAX_HOPS ==>
      !Hides(nodes, grp, Reach(Whole(nodes), grp, a, hop, exits).value, hop + |exits|)
  }

  /** The walk sees every node the group is forwarded to in under 64 hops right. */
  ghost predicate SeenRight(nodes: map<Guid, Node>, grp: Group, a: Arrival, hop: nat)
    requires WellFormed(Whole(nodes)) && a.port.node in nodes
  {
    forall exits :: Reach(Whole(nodes), grp, a, hop, exits).Some? && hop + |exits| < MAX_HOPS ==>
      SameHere(nodes, grp, Reach(Whole(nodes), grp, a, hop, exits).value, hop + |exits|)
  }

  /** The walk sees all of forwarding right exactly when no cut hides anything on the way. */
  lemma {:induction false} SeenRightIffNothingHidden(nodes: map<Guid, Node>, grp: Group, a: Arrival, hop: nat)
    requires WellFormed(Whole(nodes)) && a.port.node in nodes
    ensures SeenRight(nodes, grp, a, hop) <==> NothingHidden(nodes, grp, a, hop)
  {
    hide Reach, SameHere, Hides;
    forall exits | Reach(Whole(nodes), grp, a, hop, exits).Some? && hop + |exits| < MAX_HOPS
      ensures var b := Reach(Whole(nodes), grp, a, hop, exits).value;
              SameHere(nodes, grp, b, hop + |exits|) <==> !Hides(nodes, grp, b, hop + |exits|)
    {
      SameIffNothingHidden(nodes, grp, Reach(Whole(nodes), grp, a, hop, exits).value, hop + |exits|);
    }
  }

  lemma {:induction false} HiddenBeyond(nodes: map<Guid, Node>, grp: Group, a: Arrival, hop: nat, ix: nat)
    requires WellFormed(Whole(nodes)) && a.port.node in nodes && nodes[a.port.node].switch.Some?
    requires NothingHidden(nodes, grp, a, hop) && !Halts(Whole(nodes), a, hop)
    requires Exits(Whole(nodes), grp, a, ix) && Leads(Whole(nodes), a, ix)
    ensures NothingHidden(nodes, grp, Next(Whole(nodes), a, ix), hop + 1)
  {
    var w := Whole(nodes);
    var on := Next(w, a, ix);
    forall exits | Reach(w, grp, on, hop + 1, exits).Some? && hop + 1 + |exits| < MAX_HOPS
      ensures !Hides(nodes, grp, Reach(w, grp, on, hop + 1, exits).value, hop + 1 + |exits|)
    {
      WayBeyond(w, grp, a, hop, ix, exits);
      assert Reach(w, grp, a, hop, [ix] + exits).Some?;
    }
  }

  /** Below a switch, cleanness is about each port on its own. */
  lemma {:induction false} CleanBelowIff(f: Fabric, grp: Group, a: Arrival, hop: nat, n: nat)
    requires WellFormed(f) && a.port.node in f.nodes && f.nodes[a.port.node].switch.Some? && hop < MAX_HOPS
    ensures CleanBelow(f, grp, a, hop, n)
            <==> forall ix :: 0 <= ix < n ==>
                   Readable(f, grp, a, ix) && (Exits(f, grp, a, ix) ==> Leads(f, a, ix) && Clean(f, grp, Next(f, a, ix), hop + 1))
    decreases n
  {
    hide Readable, Exits, Leads, Next, Clean, WellFormed;
    if n > 0 {
      CleanBelowIff(f, grp, a, hop, n - 1);
    }
  }

  /** No switch is reached by ports after the last. */
  lemma {:induction false} NoneAfterLast(f: Fabric, grp: Group, a: Arrival, hop: nat, n: nat)
    requires WellFormed(f) && a.port.node in f.nodes && f.nodes[a.port.node].switch.Some? && hop < MAX_HOPS
    requires n > LastPort(f, a.port.node)
    ensures SwitchesBelow(f, grp, a, hop, n) == SwitchesBelow(f, grp, a, hop, LastPort(f, a.port.node) + 1)
    decreases n
  {
    hide Leads, Next, Switches, WellFormed;
    if n > LastPort(f, a.port.node) + 1 {
      NoneAfterLast(f, grp, a, hop, n - 1);
    }
  }

  /** Where nothing is hidden the walk comes to the same switches and finds the same fault, or none. */
  lemma {:induction false} SameFindings(nodes: map<Guid, Node>, grp: Group, a: Arrival, hop: nat)
    requires WellFormed(Whole(nodes)) && a.port.node in nodes && hop <= MAX_HOPS && NothingHidden(nodes, grp, a, hop)
    ensures WellFormed(Seen(nodes))
    ensures Clean(Whole(nodes), grp, a, hop) <==> Clean(Seen(nodes), grp, CutEntry(a), hop)
    ensures Switches(Whole(nodes), grp, a, hop) == Switches(Seen(nodes), grp, CutEntry(a), hop)
    decreases MAX_HOPS - hop, 1, 0
  {
    hide Exits, Readable, Leads, Next, Hides, NothingHidden, CleanBelow, SwitchesBelow, LastPort;
    if hop < MAX_HOPS {
      NotHiddenHere(nodes, grp, a, hop);
      if !IsEnd(Whole(nodes), a, hop) && HasTable(Whole(nodes), grp, a, hop) {
        SameBelow(nodes, grp, a, hop);
      }
    }
  }

  lemma {:induction false} NotHiddenHere(nodes: map<Guid, Node>, grp: Group, a: Arrival, hop: nat)
    requires WellFormed(Whole(nodes)) && a.port.node in nodes && hop < MAX_HOPS && NothingHidden(nodes, grp, a, hop)
    ensures WellFormed(Seen(nodes)) && SameHere(nodes, grp, a, hop)
  {
    hide Hides, SameHere;
    assert Reach(Whole(nodes), grp, a, hop, []) == Some(a);
    SameIffNothingHidden(nodes, grp, a, hop);
  }

  lemma {:induction false} SameBelow(nodes: map<Guid, Node>, grp: Group, a: Arrival, hop: nat)
    requires WellFormed(Whole(nodes)) && a.port.node in nodes && hop < MAX_HOPS && NothingHidden(nodes, grp, a, hop)
    requires WellFormed(Seen(nodes)) && SameHere(nodes, grp, a, hop)
    requires !IsEnd(Whole(nodes), a, hop) && HasTable(Whole(nodes), grp, a, hop)
    ensures var w, s, b, g := Whole(nodes), Seen(nodes), CutEntry(a), a.port.node;
            && (CleanBelow(w, grp, a, hop, LastPort(w, g) + 1) <==> CleanBelow(s, grp, b, hop, LastPort(s, g) + 1))
            && SwitchesBelow(w, grp, a, hop, LastPort(w, g) + 1) == SwitchesBelow(s, grp, b, hop, LastPort(s, g) + 1)
    decreases MAX_HOPS - hop, 0, 0
  {
    hide Readable, Clean, Switches, CleanBelow, SwitchesBelow, NothingHidden, Hides;
    var w, s, b, g := Whole(nodes), Seen(nodes), CutEntry(a), a.port.node;
    forall ix: nat | Exits(w, grp, a, ix) && Leads(w, a, ix)
      ensures SameBeyond(nodes, grp, a, hop, ix)
    {
      HiddenBeyond(nodes, grp, a, hop, ix);
      SameFindings(nodes, grp, Next(w, a, ix), hop + 1);
    }
    CleanBelowIff(w, grp, a, hop, LastPort(w, g) + 1);
    CleanBelowIff(s, grp, b, hop, LastPort(s, g) + 1);
    SameSwitches(nodes, grp, a, hop, UINT8);
    NoneAfterLast(w, grp, a, hop, UINT8);
    NoneAfterLast(s, grp, b, hop, UINT8);
  }

  /** The walk finds the same beyond port ix. */
  ghost predicate SameBeyond(nodes: map<Guid, Node>, grp: Group, a: Arrival, hop: nat, ix: nat)
    requires WellFormed(Whole(nodes)) && WellFormed(Seen(nodes)) && a.port.node in nodes && hop < MAX_HOPS
    requires Leads(Whole(nodes), a, ix)
  {
    var w, s, b := Whole(nodes), Seen(nodes), CutEntry(a);
    && Leads(s, b, ix)
    && (Clean(w, grp, Next(w, a, ix), hop + 1) <==> Clean(s, grp, Next(s, b, ix), hop + 1))
    && Switches(w, grp, Next(w, a, ix), hop + 1) == Switches(s, grp, Next(s, b, ix), hop + 1)
  }

  lemma {:induction false} SameSwitches(nodes: map<Guid, Node>, grp: Group, a: Arrival, hop: nat, n: nat)
    requires WellFormed(Whole(nodes)) && WellFormed(Seen(nodes)) && a.port.node in nodes && hop < MAX_HOPS
    requires nodes[a.port.node].switch.Some?
    requires forall ix: nat :: Exits(Whole(nodes), grp, a, ix) <==> Exits(Seen(nodes), grp, CutEntry(a), ix)
    requires forall ix: nat :: Exits(Whole(nodes), grp, a, ix) && Leads(Whole(nodes), a, ix) ==> SameBeyond(nodes, grp, a, hop, ix)
    ensures SwitchesBelow(Whole(nodes), grp, a, hop, n) == SwitchesBelow(Seen(nodes), grp, CutEntry(a), hop, n)
    decreases n
  {
    hide Exits, Next, Switches, WellFormed;
    if n > 0 {
      SameSwitches(nodes, grp, a, hop, n - 1);
    }
  }

  /** Where nothing is hidden the walk's verdict is about the whole of forwarding. */
  lemma {:induction false} VerdictIsTree(nodes: map<Guid, Node>, grp: Group, start: Arrival)
    requires WellFormed(Whole(nodes)) && start.port.node in nodes && NothingHidden(nodes, grp, start, 1)
    ensures WellFormed(Seen(nodes))
    ensures ForwardsAsTree(Seen(nodes), grp, CutEntry(start)) <==> ForwardsAsTree(Whole(nodes), grp, start)
  {
    hide Clean, Switches, ForwardsAsTree, NothingHidden;
    SameFindings(nodes, grp, start, 1);
    TreeIffCleanAndNoRepeats(Whole(nodes), grp, start);
    TreeIffCleanAndNoRepeats(Seen(nodes), grp, CutEntry(start));
  }

  // ---------------------------------------------------------------- false alarms

  /** What the walk takes for port 0 on its way is the end of a route at a member. */
  ghost predicate EndsAtPort0(nodes: map<Guid, Node>, grp: Group, start: Arrival)
    requires WellFormed(Seen(nodes)) && start.port.node in nodes
  {
    forall exits :: Reach(Seen(nodes), grp, start, 1, exits).Some? ==>
      Port0IsEnd(nodes, grp, Reach(Seen(nodes), grp, start, 1, exits).value, 1 + |exits|)
  }

  ghost predicate Port0IsEnd(nodes: map<Guid, Node>, grp: Group, b: Arrival, hop: nat)
    requires b.port.node in nodes
  {
    hop > 1 && b.entry == 0 ==> IsEnd(Seen(nodes), b, hop) && b.port.node in grp.members
  }

  /** Wherever the walk comes, the group comes. */
  lemma {:induction false} SeenIsReached(nodes: map<Guid, Node>, grp: Group, a: Arrival, hop: nat, exits: seq<nat>)
    requires WellFormed(Whole(nodes)) && WellFormed(Seen(nodes)) && a.port.node in nodes
    requires Reach(Seen(nodes), grp, CutEntry(a), hop, exits).Some?
    ensures var r := Reach(Whole(nodes), grp, a, hop, exits);
            r.Some? && CutEntry(r.value) == Reach(Seen(nodes), grp, CutEntry(a), hop, exits).value
    decreases |exits|
  {
    hide WellFormed, Exits, Leads, LastPort;
    if exits != [] {
      SeenExit(nodes, grp, a, exits[0]);
      LeadsAlike(nodes, a, exits[0]);
      SeenIsReached(nodes, grp, Next(Whole(nodes), a, exits[0]), hop + 1, exits[1..]);
    }
  }

  lemma {:induction false} LeadsAlike(nodes: map<Guid, Node>, a: Arrival, ix: nat)
    requires WellFormed(Whole(nodes)) && WellFormed(Seen(nodes)) && a.port.node in nodes
    ensures Leads(Whole(nodes), a, ix) <==> Leads(Seen(nodes), CutEntry(a), ix)
    ensures Leads(Whole(nodes), a, ix) ==> Next(Seen(nodes), CutEntry(a), ix) == CutEntry(Next(Whole(nodes), a, ix))
  {
  }

  /** What does the right thing looks right to the walk, unless it looks like port 0. */
  lemma {:induction false} FineLooksFine(nodes: map<Guid, Node>, grp: Group, a: Arrival, hop: nat)
    requires WellFormed(Whole(nodes)) && WellFormed(Seen(nodes)) && a.port.node in nodes
    requires Fine(Whole(nodes), grp, a, hop) && Port0IsEnd(nodes, grp, CutEntry(a), hop)
    ensures Fine(Seen(nodes), grp, CutEntry(a), hop)
  {
    hide Exits, Readable, Leads;
    var w, s, b := Whole(nodes), Seen(nodes), CutEntry(a);
    if !IsEnd(s, b, hop) {
      forall ix | 0 <= ix <= LastPort(s, a.port.node)
        ensures Readable(s, grp, b, ix) && (Exits(s, grp, b, ix) ==> Leads(s, b, ix))
      {
        SeenExit(nodes, grp, a, ix);
        LeadsAlike(nodes, a, ix);
      }
    }
  }

  /** A group forwarded as a tree passes exactly if all the walk takes for port 0 ends at members. */
  lemma {:induction false} TreePassesIff(nodes: map<Guid, Node>, grp: Group, start: Arrival)
    requires WellFormed(Whole(nodes)) && start.port.node in nodes && ForwardsAsTree(Whole(nodes), grp, start)
    ensures WellFormed(Seen(nodes))
    ensures ForwardsAsTree(Seen(nodes), grp, CutEntry(start)) <==> EndsAtPort0(nodes, grp, CutEntry(start))
  {
    hide Reach, Fine, HasTable, IsEnd;
    var s, b := Seen(nodes), CutEntry(start);
    if EndsAtPort0(nodes, grp, b) {
      forall exits | Reach(s, grp, b, 1, exits).Some?
        ensures 1 + |exits| < MAX_HOPS && Fine(s, grp, Reach(s, grp, b, 1, exits).value, 1 + |exits|)
      {
        SeenIsReached(nodes, grp, start, 1, exits);
        FineLooksFine(nodes, grp, Reach(Whole(nodes), grp, start, 1, exits).value, 1 + |exits|);
      }
      SeenOnce(nodes, grp, start);
    } else {
      var exits :| Reach(s, grp, b, 1, exits).Some? && !Port0IsEnd(nodes, grp, Reach(s, grp, b, 1, exits).value, 1 + |exits|);
      NotFineAtPort0(nodes, grp, Reach(s, grp, b, 1, exits).value, 1 + |exits|);
    }
  }

  lemma {:induction false} NotFineAtPort0(nodes: map<Guid, Node>, grp: Group, b: Arrival, hop: nat)
    requires WellFormed(Seen(nodes)) && b.port.node in nodes && !Port0IsEnd(nodes, grp, b, hop)
    ensures !Fine(Seen(nodes), grp, b, hop)
  {
  }

  lemma {:induction false} SeenOnce(nodes: map<Guid, Node>, grp: Group, start: Arrival)
    requires WellFormed(Whole(nodes)) && WellFormed(Seen(nodes)) && start.port.node in nodes
    requires SwitchesReachedOnce(Whole(nodes), grp, start, 1)
    ensures SwitchesReachedOnce(Seen(nodes), grp, CutEntry(start), 1)
  {
    hide Reach, IsEnd, HasTable;
    var s, b := Seen(nodes), CutEntry(start);
    forall e, e' | ComesToSwitch(s, grp, b, 1, e) && ComesToSwitch(s, grp, b, 1, e')
      ensures Reach(s, grp, b, 1, e).value.port.node == Reach(s, grp, b, 1, e').value.port.node ==> e == e'
    {
      SeenComes(nodes, grp, start, e);
      SeenComes(nodes, grp, start, e');
    }
  }

  lemma {:induction false} SeenComes(nodes: map<Guid, Node>, grp: Group, start: Arrival, e: seq<nat>)
    requires WellFormed(Whole(nodes)) && WellFormed(Seen(nodes)) && start.port.node in nodes
    requires ComesToSwitch(Seen(nodes), grp, CutEntry(start), 1, e)
    ensures ComesToSwitch(Whole(nodes), grp, start, 1, e)
    ensures Reach(Whole(nodes), grp, start, 1, e).value.port == Reach(Seen(nodes), grp, CutEntry(start), 1, e).value.port
  {
    hide Reach, WellFormed;
    SeenIsReached(nodes, grp, start, 1, e);
  }

  // ---------------------------------------------------------------- small numbers

  /** All link port numbers and port counts fit 8 bits. */
  predicate SmallNumbers(nodes: map<Guid, Node>) {
    forall g :: g in nodes ==>
      && nodes[g].numPorts < UINT8
      && forall n :: n in nodes[g].ports && nodes[g].ports[n].neighbor.Some? ==> nodes[g].ports[n].neighbor.value.num < UINT8
  }

  lemma {:induction false} ReachesSmall(nodes: map<Guid, Node>, grp: Group, a: Arrival, hop: nat, exits: seq<nat>)
    requires WellFormed(Whole(nodes)) && a.port.node in nodes && SmallNumbers(nodes) && a.entry < UINT8
    ensures var r := Reach(Whole(nodes), grp, a, hop, exits); r.Some? ==> r.value.entry < UINT8
    decreases |exits|
  {
    hide IsEnd, Exits, WellFormed;
    var w := Whole(nodes);
    if exits != [] && nodes[a.port.node].switch.Some? && Exits(w, grp, a, exits[0]) && Leads(w, a, exits[0]) {
      ReachesSmall(nodes, grp, Next(w, a, exits[0]), hop + 1, exits[1..]);
    }
  }

  lemma {:induction false} SmallNumbersHideNothing(nodes: map<Guid, Node>, grp: Group, start: Arrival)
    requires WellFormed(Whole(nodes)) && start.port.node in nodes && SmallNumbers(nodes) && start.entry < UINT8
    ensures NothingHidden(nodes, grp, start, 1)
  {
    hide Reach;
    var w := Whole(nodes);
    forall exits | Reach(w, grp, start, 1, exits).Some? && 1 + |exits| < MAX_HOPS
      ensures !Hides(nodes, grp, Reach(w, grp, start, 1, exits).value, 1 + |exits|)
    {
      ReachesSmall(nodes, grp, start, 1, exits);
      SmallHidesNothing(nodes, grp, Reach(w, grp, start, 1, exits).value, 1 + |exits|);
    }
  }

  lemma {:induction false} SmallHidesNothing(nodes: map<Guid, Node>, grp: Group, a: Arrival, hop: nat)
    requires WellFormed(Whole(nodes)) && a.port.node in nodes && nodes[a.port.node].numPorts < UINT8 && a.entry < UINT8
    ensures !Hides(nodes, grp, a, hop)
  {
  }
}
