/** The multicast route walk (Topology/route.c, WalkMCRoute and ValidateMCRoutes).

    The walk keeps the path from the start on a list, marks each switch it expands, and
    copies the path to a record whenever forwarding is wrong. Memory exhaustion, the only
    source of FERROR, is not modelled. */
module McRoute {
  import opened Options
  import opened Widths
  import opened Sequences
  import opened McFabric

  datatype Status = Success | NotDone | Unavailable | Duplicate

  datatype RouteStatus = NoTrace | NoTable | Loop | NoGroup

  /** One node of a route under examination. */
  datatype Hop = Hop(at: Arrival, exit: nat)

  datatype Record = Record(status: RouteStatus, route: seq<Hop>)

  /** Each hop is left by a port the switch forwards the group to, and that port leads to the
      next hop. */
  ghost predicate IsRoute(f: Fabric, grp: Group, start: Arrival, route: seq<Hop>)
    requires WellFormed(f)
  {
    && route != [] && route[0].at == start
    && (forall k :: 0 <= k < |route| ==> route[k].at.port.node in f.nodes)
    && forall k :: 0 <= k < |route| - 1 ==> Follows(f, grp, route[k], route[k + 1].at)
  }

  ghost predicate Follows(f: Fabric, grp: Group, h: Hop, next: Arrival)
    requires WellFormed(f) && h.at.port.node in f.nodes
  {
    && f.nodes[h.at.port.node].switch.Some? && Exits(f, grp, h.at, h.exit) && Leads(f, h.at, h.exit)
    && next == Next(f, h.at, h.exit)
  }

  /** Forwarding goes wrong at the hop-th hop, for the reason given. */
  ghost predicate Explains(f: Fabric, grp: Group, expanded: seq<Guid>, status: RouteStatus, last: Hop, hop: nat)
    requires WellFormed(f) && last.at.port.node in f.nodes
  {
    var n := f.nodes[last.at.port.node];
    match status
    case NoTrace =>
      hop == MAX_HOPS || n.switch.None? || (Exits(f, grp, last.at, last.exit) && !Leads(f, last.at, last.exit))
    case NoTable =>
      n.switch.Some? && (!HasTable(f, grp, last.at, hop)
                         || exists ix :: 0 <= ix <= LastPort(f, last.at.port.node) && !Readable(f, grp, last.at, ix))
    case Loop => last.at.port.node in expanded
    case NoGroup => if IsEnd(f, last.at, hop) then last.at.port.node !in grp.members else last.at.entry == 0 && hop > 1
  }

  ghost predicate Truthful(f: Fabric, grp: Group, start: Arrival, expanded: seq<Guid>, recs: seq<Record>)
    requires WellFormed(f)
  {
    forall r :: r in recs ==> IsRoute(f, grp, start, r.route) && Explains(f, grp, expanded, r.status, r.route[|r.route| - 1], |r.route|)
  }

  /** What a walk leaves behind. */
  datatype Log = Log(records: seq<Record>, expanded: seq<Guid>, pathCount: nat)

  /** The log grows. Nothing is recorded exactly when forwarding is clean and the switches it
      reaches are new and different; then exactly they are expanded and every end is counted. */
  ghost predicate Grows(was: Log, now: Log, status: Status, clean: bool, switches: seq<Guid>, ends: nat) {
    && was.records <= now.records && was.expanded <= now.expanded
    && (now.records == was.records <==> clean && NoRepeats(was.expanded + switches))
    && (now.records == was.records ==>
          now.expanded == was.expanded + switches && now.pathCount == was.pathCount + ends && status == Success)
  }

  class McWalker {
    const f: Fabric
    const grp: Group
    ghost const start: Arrival
    var visited: set<Guid>
    var path: seq<Hop>
    var records: seq<Record>
    var pathCount: nat
    ghost var expanded: seq<Guid>  // the switches in the order they were expanded

    ghost predicate Valid()
      reads this
    {
      && f.cut && WellFormed(f) && (forall g :: g in visited <==> g in expanded) && NoRepeats(expanded)
      && Truthful(f, grp, start, expanded, records)
    }

    /** The path is a route that has come to switch a as its hop-th hop, and the switch has a table. */
    ghost predicate AtSwitch(a: Arrival, hop: nat)
      reads this
    {
      && WellFormed(f) && 1 <= hop == |path| < MAX_HOPS && path[hop - 1].at == a && a.port.node in f.nodes
      && IsRoute(f, grp, start, path) && f.nodes[a.port.node].switch.Some? && !IsEnd(f, a, hop) && HasTable(f, grp, a, hop)
    }

    ghost function Now(): Log
      reads this
    {
      Log(records, expanded, pathCount)
    }

    constructor (f: Fabric, grp: Group, start: Arrival, visited: set<Guid>)
      requires f.cut && WellFormed(f) && visited == {}
      ensures Valid() && this.f == f && this.grp == grp && this.start == start
      ensures path == [] && Now() == Log([], [], 0)
    {
      this.f, this.grp, this.start, this.visited := f, grp, start, visited;
      path, records, expanded, pathCount := [], [], [], 0;
    }

    /** Copy the path to the records. */
    method CopyAndInsert(status: RouteStatus)
      requires Valid() && IsRoute(f, grp, start, path) && Explains(f, grp, expanded, status, path[|path| - 1], |path|)
      modifies this`records
      ensures Valid() && records == old(records) + [Record(status, path)]
    {
      records := records + [Record(status, path)];
    }

    method IsMember(g: Guid) returns (member: bool)
      ensures member <==> g in grp.members
    {
      member := false;
      for i := 0 to |grp.members|
        invariant !member && g !in grp.members[..i]
      {
        if grp.members[i] == g {
          return true;
        }
      }
      assert grp.members[..|grp.members|] == grp.members;
    }

    /** The list the C code keeps: push a hop, or drop the last one. */
    method Push(a: Arrival)
      modifies this`path
      ensures path == old(path) + [Hop(a, 0)]
    {
      path := path + [Hop(a, 0)];
    }

    method Pop()
      requires path != []
      modifies this`path
      ensures path == old(path)[..|old(path)| - 1]
    {
      path := path[..|path| - 1];
    }

    /** Walk on from an arrival. Nothing is recorded exactly when forwarding from there works
        and reaches only switches not seen before, each once. */
    method Walk(a: Arrival, hop: nat) returns (status: Status)
      requires Valid() && hop == |path| + 1 <= MAX_HOPS && a.port.node in f.nodes && IsRoute(f, grp, start, path + [Hop(a, 0)])
      modifies this
      ensures Valid() && path == old(path)
      ensures Grows(old(Now()), Now(), status, Clean(f, grp, a, hop), Switches(f, grp, a, hop), Ends(f, grp, a, hop))
      decreases MAX_HOPS - hop, 3
    {
      hide Grows, IsRoute, Truthful;
      ghost var was := Now();
      Push(a);
      var node := f.nodes[a.port.node];
      if hop >= MAX_HOPS {
        GiveUp(NoTrace);
        pathCount := pathCount + 1;
        Stops(was, Now(), NotDone, Clean(f, grp, a, hop), Switches(f, grp, a, hop), Ends(f, grp, a, hop));
        return NotDone;
      }
      if IsEnd(f, a, hop) {
        status := ReachEnd(a, hop);
        return;
      }
      if a.entry == 0 && hop > 1 {
        GiveUp(NoGroup);
        Stops(was, Now(), NotDone, Clean(f, grp, a, hop), Switches(f, grp, a, hop), Ends(f, grp, a, hop));
        return NotDone;
      }
      if node.switch.None? {
        GiveUp(NoTrace);
        pathCount := pathCount + 1;
        Stops(was, Now(), NotDone, Clean(f, grp, a, hop), Switches(f, grp, a, hop), Ends(f, grp, a, hop));
        return NotDone;
      }
      var tableSize := node.info.fdbTop % OFFSET_RANGE;
      if tableSize > node.info.fdbCap || grp.mlid % OFFSET_RANGE > tableSize {
        GiveUp(NoTable);
        pathCount := pathCount + 1;
        Stops(was, Now(), Unavailable, Clean(f, grp, a, hop), Switches(f, grp, a, hop), Ends(f, grp, a, hop));
        return Unavailable;
      }
      if a.port.node in visited {
        GiveUp(Loop);
        pathCount := pathCount + 1;
        RepeatsAfter(expanded, a.port.node, SwitchesBelow(f, grp, a, hop, LastPort(f, a.port.node) + 1));
        Stops(was, Now(), Duplicate, Clean(f, grp, a, hop), Switches(f, grp, a, hop), Ends(f, grp, a, hop));
        return Duplicate;
      }
      status := ExpandSwitch(a, hop);
      Pop();
    }

    /** Record the path and leave its last hop. */
    method GiveUp(reason: RouteStatus)
      requires Valid() && path != [] && IsRoute(f, grp, start, path) && path[|path| - 1].at.port.node in f.nodes
      requires Explains(f, grp, expanded, reason, path[|path| - 1], |path|)
      modifies this`path, this`records
      ensures Valid() && path == old(path)[..|old(path)| - 1] && records == old(records) + [Record(reason, old(path))]
    {
      CopyAndInsert(reason);
      Pop();
    }

    /** The route ends here: it should end at a member. */
    method ReachEnd(a: Arrival, hop: nat) returns (status: Status)
      requires Valid() && 1 <= hop == |path| < MAX_HOPS && path[hop - 1] == Hop(a, 0) && a.port.node in f.nodes
      requires IsRoute(f, grp, start, path) && IsEnd(f, a, hop)
      modifies this`path, this`records, this`pathCount
      ensures Valid() && path == old(path)[..hop - 1]
      ensures Grows(old(Now()), Now(), status, Clean(f, grp, a, hop), Switches(f, grp, a, hop), Ends(f, grp, a, hop))
    {
      hide IsRoute, Truthful;
      var member := IsMember(a.port.node);
      pathCount := pathCount + 1;
      if !member {
        GiveUp(NoGroup);
        return Unavailable;
      }
      Pop();
      assert old(expanded) + [] == old(expanded);
      return Success;
    }

    /** Mark the switch and try its ports in turn. */
    method ExpandSwitch(a: Arrival, hop: nat) returns (status: Status)
      requires Valid() && AtSwitch(a, hop) && a.port.node !in visited
      modifies this
      ensures Valid() && |path| == hop && path[..hop - 1] == old(path)[..hop - 1]
      ensures Grows(old(Now()), Now(), status, Clean(f, grp, a, hop), Switches(f, grp, a, hop), Ends(f, grp, a, hop))
      decreases MAX_HOPS - hop, 2
    {
      hide Grows, IsRoute, Truthful, Exits, Readable, Leads, CleanBelow, SwitchesBelow, EndsBelow, ExitClean, ExitSwitches, ExitEnds;
      ghost var was, base := Now(), path[..hop - 1];
      Expand(a.port.node);
      status := Success;
      StartsGrowth(was, Now(), a.port.node);
      NothingBelow(f, grp, a, hop);
      var ix := 0;
      var swmaxnumport := f.nodes[a.port.node].numPorts % UINT8;
      while ix <= swmaxnumport
        invariant 0 <= ix <= LastPort(f, a.port.node) + 1
        invariant Valid() && AtSwitch(a, hop) && path[..hop - 1] == base
        invariant Grows(was, Now(), status, CleanBelow(f, grp, a, hop, ix),
                        [a.port.node] + SwitchesBelow(f, grp, a, hop, ix), EndsBelow(f, grp, a, hop, ix))
      {
        ghost var before, now := Now(), status;
        var stop := false;
        if ix != a.entry {
          status, stop := TryExit(a, hop, ix, status);
        } else {
          NoExit(a, hop, ix, before, status);
        }
        OneMoreExit(was, before, Now(), now, status, a, hop, ix);
        if stop {
          ghost var mid := Now();
          pathCount := pathCount + 1;
          NotCleanAbove(f, grp, a, hop, ix, ix + 1);
          NotCleanAbove(f, grp, a, hop, ix, LastPort(f, a.port.node) + 1);
          StopsGrowth(was, mid, Now(), status, Unavailable, [a.port.node] + SwitchesBelow(f, grp, a, hop, ix + 1),
                      Switches(f, grp, a, hop), EndsBelow(f, grp, a, hop, ix + 1), Ends(f, grp, a, hop));
          return Unavailable;
        }
        ix := ix + 1;
      }
    }

    /** What is so below one more exit. */
    lemma OneMoreExit(was: Log, mid: Log, now: Log, s1: Status, s2: Status, a: Arrival, hop: nat, ix: nat)
      requires WellFormed(f) && a.port.node in f.nodes && f.nodes[a.port.node].switch.Some? && hop < MAX_HOPS
      requires Grows(was, mid, s1, CleanBelow(f, grp, a, hop, ix), [a.port.node] + SwitchesBelow(f, grp, a, hop, ix),
                     EndsBelow(f, grp, a, hop, ix))
      requires Grows(mid, now, if s1 == Success then s2 else Success, ExitClean(a, hop, ix), ExitSwitches(a, hop, ix), ExitEnds(a, hop, ix))
      ensures Grows(was, now, s2, CleanBelow(f, grp, a, hop, ix + 1), [a.port.node] + SwitchesBelow(f, grp, a, hop, ix + 1),
                    EndsBelow(f, grp, a, hop, ix + 1))
    {
      hide Grows, Exits, Readable, Leads, Next, WellFormed, Clean, Switches, Ends;
      GrowthAdds(was, mid, now, s1, s2, CleanBelow(f, grp, a, hop, ix), ExitClean(a, hop, ix),
                 [a.port.node] + SwitchesBelow(f, grp, a, hop, ix), ExitSwitches(a, hop, ix),
                 EndsBelow(f, grp, a, hop, ix), ExitEnds(a, hop, ix));
      AppendAssociates([a.port.node], SwitchesBelow(f, grp, a, hop, ix), ExitSwitches(a, hop, ix));
    }

    ghost predicate ExitClean(a: Arrival, hop: nat, ix: nat)
      requires WellFormed(f) && a.port.node in f.nodes && f.nodes[a.port.node].switch.Some? && hop < MAX_HOPS
    {
      && Readable(f, grp, a, ix)
      && (Exits(f, grp, a, ix) ==> Leads(f, a, ix) && Clean(f, grp, Next(f, a, ix), hop + 1))
    }

    ghost function ExitSwitches(a: Arrival, hop: nat, ix: nat): seq<Guid>
      requires WellFormed(f) && a.port.node in f.nodes && f.nodes[a.port.node].switch.Some? && hop < MAX_HOPS
    {
      if Exits(f, grp, a, ix) && Leads(f, a, ix) then Switches(f, grp, Next(f, a, ix), hop + 1) else []
    }

    ghost function ExitEnds(a: Arrival, hop: nat, ix: nat): nat
      requires WellFormed(f) && a.port.node in f.nodes && f.nodes[a.port.node].switch.Some? && hop < MAX_HOPS
    {
      if Exits(f, grp, a, ix) && Leads(f, a, ix) then Ends(f, grp, Next(f, a, ix), hop + 1) else 0
    }

    lemma NoExit(a: Arrival, hop: nat, ix: nat, now: Log, status: Status)
      requires WellFormed(f) && a.port.node in f.nodes && f.nodes[a.port.node].switch.Some? && hop < MAX_HOPS && ix == a.entry
      ensures ExitClean(a, hop, ix) && ExitSwitches(a, hop, ix) == [] && ExitEnds(a, hop, ix) == 0
      ensures NoRepeats(now.expanded) ==> Grows(now, now, Success, true, [], 0)
    {
    }

    method Expand(g: Guid)
      requires Valid() && g !in visited
      modifies this`visited, this`expanded
      ensures Valid() && Now() == old(Now()).(expanded := old(expanded) + [g])
    {
      visited := visited + {g};
      expanded := expanded + [g];
    }

    /** One turn of the loop over the exit ports; `stop` when the forwarding table is missing. */
    method TryExit(a: Arrival, hop: nat, ix: nat, was: Status) returns (status: Status, stop: bool)
      requires Valid() && AtSwitch(a, hop) && ix <= LastPort(f, a.port.node) && ix != a.entry
      modifies this
      ensures Valid() && AtSwitch(a, hop) && path[..hop - 1] == old(path)[..hop - 1]
      ensures stop ==> !Readable(f, grp, a, ix)
      ensures Grows(old(Now()), Now(), if was == Success then status else Success,
                    ExitClean(a, hop, ix), ExitSwitches(a, hop, ix), ExitEnds(a, hop, ix))
      decreases MAX_HOPS - hop, 1
    {
      hide Grows, Truthful, IsRoute;
      ghost var before := Now();
      status, stop := was, false;
      var mask := LookupMFT(f, a.port.node, grp.mlid, ix / MASK_WIDTH);
      if mask.None? {
        assert !Readable(f, grp, a, ix);
        CopyAndInsert(NoTable);
        Stops(before, Now(), if was == Success then Unavailable else Success, ExitClean(a, hop, ix), ExitSwitches(a, hop, ix),
              ExitEnds(a, hop, ix));
        return Unavailable, true;
      }
      if ix % MASK_WIDTH in mask.value {
        status := TakeExit(a, hop, ix);
        SucceedsIfUnrecorded(before, Now(), status, ExitClean(a, hop, ix), ExitSwitches(a, hop, ix), ExitEnds(a, hop, ix));
      } else {
        Untouched(before);
      }
    }

    /** Leave the switch by a port it forwards the group to. */
    method TakeExit(a: Arrival, hop: nat, ix: nat) returns (status: Status)
      requires Valid() && AtSwitch(a, hop) && Exits(f, grp, a, ix)
      modifies this
      ensures Valid() && AtSwitch(a, hop) && path[..hop - 1] == old(path)[..hop - 1]
      ensures Grows(old(Now()), Now(), status, ExitClean(a, hop, ix), ExitSwitches(a, hop, ix), ExitEnds(a, hop, ix))
      decreases MAX_HOPS - hop, 0
    {
      hide Grows, Truthful, IsRoute, HasTable;
      ghost var before := Now();
      TurnsTo(f, grp, start, path, ix);
      path := path[hop - 1 := Hop(a, ix)];
      if ix == 0 {
        LeadsOn(f, grp, start, path);
        status := Walk(Arrival(a.port, 0), hop + 1);
      } else {
        var ports := f.nodes[a.port.node].ports;
        if ix !in ports || !ports[ix].up || ports[ix].neighbor.None? {
          CopyAndInsert(NoTrace);
          pathCount := pathCount + 1;
          Stops(before, Now(), NotDone, ExitClean(a, hop, ix), ExitSwitches(a, hop, ix), ExitEnds(a, hop, ix));
          status := NotDone;
        } else {
          LeadsOn(f, grp, start, path);
          var n := ports[ix].neighbor.value;
          status := Walk(Arrival(n, n.num % UINT8), hop + 1);
        }
      }
    }
  }

  // ---------------------------------------------------------------- routes

  lemma {:induction false} TurnsTo(f: Fabric, grp: Group, start: Arrival, route: seq<Hop>, ix: nat)
    requires WellFormed(f) && IsRoute(f, grp, start, route)
    ensures IsRoute(f, grp, start, route[|route| - 1 := Hop(route[|route| - 1].at, ix)])
  {
    var turned := route[|route| - 1 := Hop(route[|route| - 1].at, ix)];
    forall k | 0 <= k < |turned| - 1
      ensures Follows(f, grp, turned[k], turned[k + 1].at)
    {
      assert Follows(f, grp, route[k], route[k + 1].at);
    }
  }

  lemma {:induction false} LeadsOn(f: Fabric, grp: Group, start: Arrival, route: seq<Hop>)
    requires WellFormed(f) && IsRoute(f, grp, start, route)
    requires var last := route[|route| - 1];
             f.nodes[last.at.port.node].switch.Some? && Exits(f, grp, last.at, last.exit) && Leads(f, last.at, last.exit)
    ensures var last := route[|route| - 1]; IsRoute(f, grp, start, route + [Hop(Next(f, last.at, last.exit), 0)])
  {
    var last := route[|route| - 1];
    var on := route + [Hop(Next(f, last.at, last.exit), 0)];
    forall k | 0 <= k < |on| - 1
      ensures Follows(f, grp, on[k], on[k + 1].at)
    {
      if k + 1 < |route| {
        assert Follows(f, grp, route[k], route[k + 1].at);
      }
    }
  }

  // ---------------------------------------------------------------- growth of the log

  lemma {:induction false} Untouched(now: Log)
    requires NoRepeats(now.expanded)
    ensures Grows(now, now, Success, true, [], 0)
  {
    assert now.expanded + [] == now.expanded;
  }

  lemma {:induction false} StartsGrowth(was: Log, now: Log, g: Guid)
    requires now == was.(expanded := was.expanded + [g]) && NoRepeats(was.expanded) && g !in was.expanded
    ensures Grows(was, now, Success, true, [g] + [], 0)
  {
    assert [g] + [] == [g];
  }

  lemma {:induction false} SucceedsIfUnrecorded(was: Log, now: Log, status: Status, clean: bool, switches: seq<Guid>, ends: nat)
    requires Grows(was, now, status, clean, switches, ends)
    ensures Grows(was, now, Success, clean, switches, ends)
  {
  }

  /** Growth adds up. The second step's status is the later one, unless it left it alone. */
  lemma {:induction false} GrowthAdds(was: Log, mid: Log, now: Log, s1: Status, s2: Status, c1: bool, c2: bool,
                                      sw1: seq<Guid>, sw2: seq<Guid>, e1: nat, e2: nat)
    requires Grows(was, mid, s1, c1, sw1, e1) && Grows(mid, now, if s1 == Success then s2 else Success, c2, sw2, e2)
    ensures Grows(was, now, s2, c1 && c2, sw1 + sw2, e1 + e2)
  {
    assert was.expanded + (sw1 + sw2) == (was.expanded + sw1) + sw2;
    if mid.records != was.records && c1 {
      StillRepeats(was.expanded + sw1, sw2);
    }
  }

  lemma {:induction false} StillRepeats<T>(s: seq<T>, t: seq<T>)
    requires !NoRepeats(s)
    ensures !NoRepeats(s + t)
  {
    var i, j :| 0 <= i < j < |s| && s[i] == s[j];
    assert (s + t)[i] == (s + t)[j];
  }

  lemma {:induction false} Stops(was: Log, now: Log, status: Status, clean: bool, switches: seq<Guid>, ends: nat)
    requires was.records < now.records && was.expanded == now.expanded && !(clean && NoRepeats(was.expanded + switches))
    ensures Grows(was, now, status, clean, switches, ends)
  {
  }

  lemma {:induction false} RepeatsAfter<T>(s: seq<T>, x: T, t: seq<T>)
    requires x in s
    ensures !NoRepeats(s + ([x] + t))
  {
    var i :| 0 <= i < |s| && s[i] == x;
    assert (s + ([x] + t))[i] == (s + ([x] + t))[|s|];
  }

  lemma {:induction false} StopsGrowth(was: Log, before: Log, now: Log, s1: Status, s2: Status, sw1: seq<Guid>, sw2: seq<Guid>,
                                       e1: nat, e2: nat)
    requires Grows(was, before, s1, false, sw1, e1) && now == before.(pathCount := now.pathCount)
    ensures Grows(was, now, s2, false, sw2, e2)
  {
  }

  lemma {:induction false} NothingBelow(f: Fabric, grp: Group, a: Arrival, hop: nat)
    requires WellFormed(f) && a.port.node in f.nodes && f.nodes[a.port.node].switch.Some? && hop < MAX_HOPS
    ensures CleanBelow(f, grp, a, hop, 0) && SwitchesBelow(f, grp, a, hop, 0) == [] && EndsBelow(f, grp, a, hop, 0) == 0
  {
  }

  /** An unreadable table entry makes forwarding unclean whatever follows. */
  lemma {:induction false} NotCleanAbove(f: Fabric, grp: Group, a: Arrival, hop: nat, ix: nat, n: nat)
    requires WellFormed(f) && a.port.node in f.nodes && f.nodes[a.port.node].switch.Some? && hop < MAX_HOPS
    requires ix < n && !Readable(f, grp, a, ix)
    ensures !CleanBelow(f, grp, a, hop, n)
  {
    if ix < n - 1 {
      NotCleanAbove(f, grp, a, hop, ix, n - 1);
    }
  }
}
