/** Which table entries and bits the verdict on a group depends on, in the fields of the switches
    (Topology/route.c:42-62 and 186-331). */
module McTables {
  import opened Options
  import opened Widths
  import opened Sequences
  import opened McFabric
  import opened McRoute
  import opened McTree
  import opened McCuts
  import opened McValidation

  // ---------------------------------------------------------------- other groups' masks

  /** The tables are laid out alike and have one mask at the offset. */
  ghost predicate SameMasksAt(s: SwitchData, t: SwitchData, offset: nat) {
    && s.fdbSize == t.fdbSize && |s.fdb| == |t.fdb|
    && forall p :: 0 <= p < |s.fdb| ==>
         && (s.fdb[p].Some? <==> t.fdb[p].Some?)
         && (s.fdb[p].Some? && offset < |s.fdb[p].value| && offset < |t.fdb[p].value| ==>
               s.fdb[p].value[offset] == t.fdb[p].value[offset])
  }

  /** The nodes are the same but for masks of other groups. */
  ghost predicate SameBut(n: Node, m: Node, offset: nat) {
    && n.kind == m.kind && n.numPorts == m.numPorts && n.ports == m.ports && n.info == m.info
    && (n.switch.Some? <==> m.switch.Some?)
    && (n.switch.Some? ==> SameMasksAt(n.switch.value, m.switch.value, offset))
  }

  ghost predicate SameForGroup(f: Fabric, f': Fabric, grp: Group) {
    f.cut == f'.cut && f.nodes.Keys == f'.nodes.Keys && forall g :: g in f.nodes ==> SameBut(f.nodes[g], f'.nodes[g], grp.mlid % 0x4000)
  }

  lemma {:induction false} SameMask(f: Fabric, f': Fabric, grp: Group, g: Guid, pos: nat)
    requires WellFormed(f) && WellFormed(f') && SameForGroup(f, f', grp) && g in f.nodes && f.nodes[g].switch.Some?
    ensures LookupMFT(f', g, grp.mlid, pos) == LookupMFT(f, g, grp.mlid, pos)
  {
    assert SameBut(f.nodes[g], f'.nodes[g], grp.mlid % 0x4000);
  }

  lemma {:induction false} SameAt(f: Fabric, f': Fabric, grp: Group, a: Arrival)
    requires WellFormed(f) && WellFormed(f') && SameForGroup(f, f', grp) && a.port.node in f.nodes
    ensures a.port.node in f'.nodes && (f'.nodes[a.port.node].switch.Some? <==> f.nodes[a.port.node].switch.Some?)
    ensures LastPort(f', a.port.node) == LastPort(f, a.port.node)
    ensures forall hop :: (IsEnd(f', a, hop) <==> IsEnd(f, a, hop)) && (HasTable(f', grp, a, hop) <==> HasTable(f, grp, a, hop))
    ensures forall ix :: Leads(f', a, ix) <==> Leads(f, a, ix)
    ensures forall ix :: Leads(f, a, ix) ==> Next(f', a, ix) == Next(f, a, ix)
    ensures f.nodes[a.port.node].switch.Some? ==>
              forall ix :: (Readable(f', grp, a, ix) <==> Readable(f, grp, a, ix)) && (Exits(f', grp, a, ix) <==> Exits(f, grp, a, ix))
  {
    hide LookupMFT, WellFormed, SameMasksAt;
    assert SameBut(f.nodes[a.port.node], f'.nodes[a.port.node], grp.mlid % 0x4000);
    if f.nodes[a.port.node].switch.Some? {
      forall ix: nat ensures LookupMFT(f', a.port.node, grp.mlid, ix / MASK_WIDTH) == LookupMFT(f, a.port.node, grp.mlid, ix / MASK_WIDTH) {
        SameMask(f, f', grp, a.port.node, ix / MASK_WIDTH);
      }
    }
  }

  lemma {:induction false} SameReach(f: Fabric, f': Fabric, grp: Group, a: Arrival, hop: nat, exits: seq<nat>)
    requires WellFormed(f) && WellFormed(f') && SameForGroup(f, f', grp) && a.port.node in f.nodes
    ensures Reach(f', grp, a, hop, exits) == Reach(f, grp, a, hop, exits)
    decreases |exits|
  {
    hide WellFormed, SameForGroup, IsEnd, HasTable, Exits, Readable, Leads, Next, LastPort;
    SameAt(f, f', grp, a);
    if exits != [] && f.nodes[a.port.node].switch.Some? && Leads(f, a, exits[0]) {
      SameReach(f, f', grp, Next(f, a, exits[0]), hop + 1, exits[1..]);
    }
  }

  lemma {:induction false} SameFine(f: Fabric, f': Fabric, grp: Group, a: Arrival, hop: nat)
    requires WellFormed(f) && WellFormed(f') && SameForGroup(f, f', grp) && a.port.node in f.nodes
    ensures Fine(f', grp, a, hop) <==> Fine(f, grp, a, hop)
  {
    hide WellFormed, SameForGroup, IsEnd, Exits, Readable, Leads, Next, LastPort;
    SameAt(f, f', grp, a);
  }

  /** The masks of other groups do not matter. */
  lemma {:induction false} OtherMasksDoNotMatter(f: Fabric, f': Fabric, grp: Group, start: Arrival)
    requires WellFormed(f) && WellFormed(f') && SameForGroup(f, f', grp) && start.port.node in f.nodes
    ensures ForwardsAsTree(f', grp, start) <==> ForwardsAsTree(f, grp, start)
  {
    hide WellFormed, IsEnd, HasTable, Fine, Reach, SameForGroup;
    SameAt(f, f', grp, start);
    forall exits: seq<nat> ensures Reach(f', grp, start, 1, exits) == Reach(f, grp, start, 1, exits) {
      SameReach(f, f', grp, start, 1, exits);
    }
    forall exits | Reach(f, grp, start, 1, exits).Some?
      ensures Fine(f', grp, Reach(f, grp, start, 1, exits).value, 1 + |exits|)
              <==> Fine(f, grp, Reach(f, grp, start, 1, exits).value, 1 + |exits|)
      ensures ComesToSwitch(f', grp, start, 1, exits) <==> ComesToSwitch(f, grp, start, 1, exits)
    {
      SameFine(f, f', grp, Reach(f, grp, start, 1, exits).value, 1 + |exits|);
      SameAt(f, f', grp, Reach(f, grp, start, 1, exits).value);
    }
  }

  // ---------------------------------------------------------------- one switch and its adapters

  /** All the node's links lead to adapters. */
  ghost predicate IsStar(f: Fabric, g: Guid)
    requires g in f.nodes
  {
    forall ix :: ix in f.nodes[g].ports && f.nodes[g].ports[ix].neighbor.Some? ==>
      var to := f.nodes[g].ports[ix].neighbor.value.node; to in f.nodes && f.nodes[to].kind == FI
  }

  /** The bit of the group for a port: word ix / 64 of the tables, bit ix % 64. */
  ghost predicate BitSet(s: SwitchData, mlid: nat, ix: nat) {
    && ix / 64 < |s.fdb| && s.fdb[ix / 64].Some? && mlid % 0x4000 < |s.fdb[ix / 64].value|
    && ix % 64 in s.fdb[ix / 64].value[mlid % 0x4000]
  }

  /** Port ix of a switch takes the group to a member. */
  ghost predicate TakesToMember(n: Node, g: Guid, members: seq<Guid>, ix: nat) {
    if ix == 0 then n.info.enhancedPort0 && g in members
    else ix in n.ports && n.ports[ix].up && n.ports[ix].neighbor.Some? && n.ports[ix].neighbor.value.node in members
  }

  /** The tables cover port ix, and if the group is forwarded to it, it goes to a member. */
  ghost predicate RightAt(n: Node, g: Guid, grp: Group, entry: nat, ix: nat)
    requires n.switch.Some?
  {
    ix != entry ==>
      && ix / 64 < |n.switch.value.fdb| && n.switch.value.fdb[ix / 64].Some?
      && grp.mlid % 0x4000 < n.switch.value.fdbSize % 0x4000
      && (BitSet(n.switch.value, grp.mlid, ix) ==> TakesToMember(n, g, grp.members, ix))
  }

  /** All that a switch between adapters needs to forward a group right. */
  ghost predicate ForwardsRight(n: Node, g: Guid, grp: Group, entry: nat, last: nat) {
    && n.switch.Some? && grp.mlid % 0x4000 <= n.info.fdbTop % 0x4000 <= n.info.fdbCap
    && forall ix :: 0 <= ix <= last ==> RightAt(n, g, grp, entry, ix)
  }

  lemma {:induction false} ExitIff(f: Fabric, grp: Group, a: Arrival, ix: nat)
    requires WellFormed(f) && a.port.node in f.nodes && f.nodes[a.port.node].switch.Some?
    ensures var s := f.nodes[a.port.node].switch.value;
            && (Readable(f, grp, a, ix)
                <==> ix == a.entry || (ix / 64 < |s.fdb| && s.fdb[ix / 64].Some? && grp.mlid % 0x4000 < s.fdbSize % 0x4000))
            && (Readable(f, grp, a, ix) ==>
                  (Exits(f, grp, a, ix) <==> ix <= LastPort(f, a.port.node) && ix != a.entry && BitSet(s, grp.mlid, ix)))
  {
  }

  lemma {:induction false} EndIff(f: Fabric, grp: Group, a: Arrival, ix: nat)
    requires WellFormed(f) && a.port.node in f.nodes && IsStar(f, a.port.node) && f.nodes[a.port.node].kind == SW
    ensures var n := f.nodes[a.port.node];
            Leads(f, a, ix) && Clean(f, grp, Next(f, a, ix), 2) <==> TakesToMember(n, a.port.node, grp.members, ix)
    ensures Leads(f, a, ix) && Clean(f, grp, Next(f, a, ix), 2) ==> Switches(f, grp, Next(f, a, ix), 2) == []
  {
    hide CleanBelow, SwitchesBelow, LastPort;
    var n := f.nodes[a.port.node];
    if Leads(f, a, ix) && ix > 0 {
      assert IsEnd(f, Next(f, a, ix), 2);
    }
  }

  lemma {:induction false} Last(f: Fabric, g: Guid) returns (last: nat)
    requires g in f.nodes
    ensures last == LastPort(f, g)
    ensures var n := f.nodes[g].numPorts; last == if f.cut then n % 256 else if n < 256 then n else 255
  {
    last := LastPort(f, g);
  }

  lemma {:induction false} StartIff(f: Fabric, grp: Group, start: Arrival)
    requires WellFormed(f) && start.port.node in f.nodes && f.nodes[start.port.node].kind == SW
    ensures var n := f.nodes[start.port.node];
            && !IsEnd(f, start, 1)
            && (HasTable(f, grp, start, 1)
                <==> n.switch.Some? && grp.mlid % 0x4000 <= n.info.fdbTop % 0x4000 <= n.info.fdbCap)
  {
  }

  /** A switch between adapters forwards a group as a tree exactly if its table covers the group and
      every bit of the group takes it to a member. */
  lemma {:induction false} StarIff(f: Fabric, grp: Group, start: Arrival)
    requires WellFormed(f) && start.port.node in f.nodes && IsStar(f, start.port.node) && f.nodes[start.port.node].kind == SW
    ensures var n := f.nodes[start.port.node];
            ForwardsAsTree(f, grp, start)
            <==> ForwardsRight(n, start.port.node, grp, start.entry,
                               if f.cut then n.numPorts % 256 else if n.numPorts < 256 then n.numPorts else 255)
  {
    hide WellFormed, IsStar, Readable, Exits, Leads, Next, CleanBelow, SwitchesBelow, ForwardsAsTree, HasTable,
      IsEnd, BitSet, TakesToMember, LastPort;
    var n := f.nodes[start.port.node];
    var last := Last(f, start.port.node);
    StartIff(f, grp, start);
    TreeIffCleanAndNoRepeats(f, grp, start);
    if HasTable(f, grp, start, 1) {
      CleanBelowIff(f, grp, start, 1, last + 1);
      forall ix | 0 <= ix <= last
        ensures Readable(f, grp, start, ix) && (Exits(f, grp, start, ix) ==> Leads(f, start, ix) && Clean(f, grp, Next(f, start, ix), 2))
                <==> RightAt(n, start.port.node, grp, start.entry, ix)
        ensures Exits(f, grp, start, ix) && Leads(f, start, ix) && Clean(f, grp, Next(f, start, ix), 2) ==>
                  Switches(f, grp, Next(f, start, ix), 2) == []
      {
        ExitIff(f, grp, start, ix);
        EndIff(f, grp, start, ix);
      }
      if CleanBelow(f, grp, start, 1, last + 1) {
        OnlyTheSwitch(f, grp, start, last);
      }
    }
  }

  lemma {:induction false} OnlyTheSwitch(f: Fabric, grp: Group, start: Arrival, last: nat)
    requires WellFormed(f) && start.port.node in f.nodes && !IsEnd(f, start, 1) && HasTable(f, grp, start, 1)
    requires last == LastPort(f, start.port.node) && CleanBelow(f, grp, start, 1, last + 1)
    requires forall ix :: 0 <= ix <= last && Exits(f, grp, start, ix) && Leads(f, start, ix) && Clean(f, grp, Next(f, start, ix), 2) ==>
               Switches(f, grp, Next(f, start, ix), 2) == []
    ensures NoRepeats(Switches(f, grp, start, 1))
  {
    hide WellFormed, Readable, Exits, Leads, Next, Clean, CleanBelow, SwitchesBelow, IsEnd, LastPort;
    CleanBelowIff(f, grp, start, 1, last + 1);
    NoneBelow(f, grp, start, 1, last + 1);
  }

  // ---------------------------------------------------------------- how many routes end

  /** The ports below n that the group is forwarded to. */
  ghost function ExitsBelow(s: SwitchData, mlid: nat, entry: nat, n: nat): set<nat> {
    set ix | 0 <= ix < n && ix != entry && BitSet(s, mlid, ix)
  }

  lemma {:induction false} EndsAtMember(f: Fabric, grp: Group, a: Arrival, ix: nat)
    requires WellFormed(f) && a.port.node in f.nodes && IsStar(f, a.port.node) && f.nodes[a.port.node].kind == SW
    requires Leads(f, a, ix) && Clean(f, grp, Next(f, a, ix), 2)
    ensures Ends(f, grp, Next(f, a, ix), 2) == 1
  {
    hide CleanBelow, EndsBelow, LastPort;
    if ix > 0 {
      assert IsEnd(f, Next(f, a, ix), 2);
    }
  }

  lemma {:induction false} StarEndsBelow(f: Fabric, grp: Group, a: Arrival, n: nat)
    requires WellFormed(f) && a.port.node in f.nodes && IsStar(f, a.port.node) && f.nodes[a.port.node].kind == SW
    requires f.nodes[a.port.node].switch.Some? && n <= LastPort(f, a.port.node) + 1
    requires CleanBelow(f, grp, a, 1, LastPort(f, a.port.node) + 1)
    ensures EndsBelow(f, grp, a, 1, n) == |ExitsBelow(f.nodes[a.port.node].switch.value, grp.mlid, a.entry, n)|
    decreases n
  {
    hide WellFormed, IsStar, Readable, Exits, Leads, Next, CleanBelow, Ends, Clean, BitSet, LastPort;
    if n > 0 {
      var s, last := f.nodes[a.port.node].switch.value, LastPort(f, a.port.node);
      StarEndsBelow(f, grp, a, n - 1);
      CleanBelowIff(f, grp, a, 1, last + 1);
      ExitIff(f, grp, a, n - 1);
      var before, now := ExitsBelow(s, grp.mlid, a.entry, n - 1), ExitsBelow(s, grp.mlid, a.entry, n);
      if Exits(f, grp, a, n - 1) {
        EndsAtMember(f, grp, a, n - 1);
        assert now == before + {n - 1};
      } else {
        assert now == before;
      }
    } else {
      assert ExitsBelow(f.nodes[a.port.node].switch.value, grp.mlid, a.entry, 0) == {};
    }
  }

  /** A switch between adapters that forwards a group right has a route for each bit of the group. */
  lemma {:induction false} StarEnds(f: Fabric, grp: Group, start: Arrival)
    requires WellFormed(f) && start.port.node in f.nodes && IsStar(f, start.port.node) && f.nodes[start.port.node].kind == SW
    requires ForwardsAsTree(f, grp, start)
    ensures f.nodes[start.port.node].switch.Some?
    ensures Ends(f, grp, start, 1)
            == |ExitsBelow(f.nodes[start.port.node].switch.value, grp.mlid, start.entry, LastPort(f, start.port.node) + 1)|
  {
    hide WellFormed, IsStar, CleanBelow, EndsBelow, SwitchesBelow, ForwardsAsTree, HasTable, IsEnd, ExitsBelow, LastPort;
    StartIff(f, grp, start);
    TreeIffCleanAndNoRepeats(f, grp, start);
    StarEndsBelow(f, grp, start, LastPort(f, start.port.node) + 1);
  }

  // ---------------------------------------------------------------- two groups, and a second word

  const ADAPTER := Node(FI, 1, map[], SwitchInfo(false, 0, 0), None)
  const SECOND := Group(0xC001, [2])
  const FIRST := Group(0xC000, [2])

  /** Port 1 is down, port 2 leads to adapter 2; group 0xC000 is forwarded to port 1 and group 0xC001 to
      port 2. */
  const TWO_GROUPS := map[
    1 := Node(SW, 2, map[1 := PortInfo(false, None), 2 := PortInfo(true, Some(Port(2, 1)))], SwitchInfo(false, 1, 1),
              Some(SwitchData(2, [Some([{1}, {2}]), None, None, None]))),
    2 := ADAPTER]

  lemma {:induction false} EachMask()
    ensures ForwardsRight(TWO_GROUPS[1], 1, SECOND, 0, 2) && !ForwardsRight(TWO_GROUPS[1], 1, FIRST, 0, 2)
  {
    var n := TWO_GROUPS[1];
    assert n.switch.value.fdb[0] == Some([{1}, {2}]);
    assert forall ix :: 0 <= ix <= 2 ==> ix / 64 == 0;
    assert !RightAt(n, 1, FIRST, 0, 1);
  }

  lemma {:induction false} EachGroupHasItsMask()
    ensures WellFormed(Whole(TWO_GROUPS)) && WellFormed(Seen(TWO_GROUPS))
    ensures ForwardsAsTree(Whole(TWO_GROUPS), SECOND, EDGE) && ForwardsAsTree(Seen(TWO_GROUPS), SECOND, EDGE)
    ensures !ForwardsAsTree(Whole(TWO_GROUPS), FIRST, EDGE) && !ForwardsAsTree(Seen(TWO_GROUPS), FIRST, EDGE)
  {
    hide ForwardsAsTree, ForwardsRight;
    EachMask();
    StarIff(Whole(TWO_GROUPS), SECOND, EDGE);
    StarIff(Seen(TWO_GROUPS), SECOND, EDGE);
    StarIff(Whole(TWO_GROUPS), FIRST, EDGE);
    StarIff(Seen(TWO_GROUPS), FIRST, EDGE);
  }

  /** Port 69 of 70 leads to adapter 2: bit 5 of the second word. */
  const WIDE_SWITCH := map[
    1 := Node(SW, 70, map[69 := PortInfo(true, Some(Port(2, 1)))], SwitchInfo(false, 0, 0),
              Some(SwitchData(1, [Some([{}]), Some([{5}]), None, None]))),
    2 := ADAPTER]

  lemma {:induction false} SecondWord()
    ensures ForwardsRight(WIDE_SWITCH[1], 1, Group(0, [2]), 0, 70) && !ForwardsRight(WIDE_SWITCH[1], 1, Group(0, []), 0, 70)
  {
    var n := WIDE_SWITCH[1];
    assert n.switch.value.fdb[0] == Some([{}]) && n.switch.value.fdb[1] == Some([{5}]);
    forall ix: nat | ix <= 70 ensures RightAt(n, 1, Group(0, [2]), 0, ix) {
      assert ix / 64 == if ix < 64 then 0 else 1;
    }
    assert !RightAt(n, 1, Group(0, []), 0, 69);
  }

  lemma {:induction false} SecondWordIsRead()
    ensures WellFormed(Whole(WIDE_SWITCH)) && WellFormed(Seen(WIDE_SWITCH))
    ensures ForwardsAsTree(Whole(WIDE_SWITCH), Group(0, [2]), EDGE) && ForwardsAsTree(Seen(WIDE_SWITCH), Group(0, [2]), EDGE)
    ensures !ForwardsAsTree(Whole(WIDE_SWITCH), Group(0, []), EDGE) && !ForwardsAsTree(Seen(WIDE_SWITCH), Group(0, []), EDGE)
  {
    hide ForwardsAsTree, ForwardsRight;
    SecondWord();
    StarIff(Whole(WIDE_SWITCH), Group(0, [2]), EDGE);
    StarIff(Seen(WIDE_SWITCH), Group(0, [2]), EDGE);
    StarIff(Whole(WIDE_SWITCH), Group(0, []), EDGE);
    StarIff(Seen(WIDE_SWITCH), Group(0, []), EDGE);
  }
}
