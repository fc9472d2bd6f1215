/** The port number generator (Topology/port_num_gen.c, update_count, pn_gen_register,
    pn_gen_process and pn_gen_get_port).

    `Model` is the generator's state as a value; the functions on it say what each call
    does, and the class does it in place. Memory exhaustion is not modelled. */
module PortNumGen {
  import opened PortName
  import opened PortGroups
  import opened OrderedKeys

  const MAX_PORT_NUM := 65535
  const NO_INDEX := MAX_SEGS

  datatype Status = Ok | AlreadyProcessed | InvalidName

  predicate SegmentsOk(segs: seq<Seg>) {
    |segs| <= MAX_SEGS && forall i :: 0 <= i < |segs| ==> segs[i].num >= -1
  }

  type Segments = segs: seq<Seg> | SegmentsOk(segs)

  /** A registered port; `segments` is empty when its name could not be parsed. */
  datatype PortItem = PortItem(segments: Segments, groupKey: Key, offset: nat, portNum: nat)

  datatype Model = Model(counts: map<Key, nat>, ports: map<Key, PortItem>)

  // ---------------------------------------------------------------- registering

  /** The segment counters are 8 bits wide. */
  function Counted(counts: map<Key, nat>, key: Key): map<Key, nat> {
    counts[key := ((if key in counts then counts[key] else 0) + 1) % 256]
  }

  function CountedAll(counts: map<Key, nat>, segs: seq<Seg>): map<Key, nat> {
    if segs == [] then counts
    else Counted(CountedAll(counts, segs[..|segs| - 1]), segs[|segs| - 1].key)
  }

  lemma {:induction false} ParsedSegmentsOk(name: string)
    ensures ParseSpec(name).Parsed? ==> SegmentsOk(ParseSpec(name).segs)
  {
    NumsAreNumbers(name, 0);
  }

  function SegmentsOf(name: string): Segments {
    ParsedSegmentsOk(name);
    match ParseSpec(name)
    case Parsed(segs) => segs
    case InvalidPortName => []
  }

  /** The state after registering `name`: an item is inserted under the name's key unless
      there is one, even when the name turns out to be invalid. */
  function Registered(m: Model, name: string): Model {
    var key := HashKey(0, name);
    var segs := SegmentsOf(name);
    Model(CountedAll(m.counts, segs),
          if key in m.ports then m.ports else m.ports[key := PortItem(segs, 0, 0, 0)])
  }

  function RegisteredAll(m: Model, names: seq<string>): Model {
    if names == [] then m else Registered(RegisteredAll(m, names[..|names| - 1]), names[|names| - 1])
  }

  // ---------------------------------------------------------------- one port of the process step

  /** The numeric segment among the first n with the lowest count, the last one on a tie. */
  function PickIn(segs: Segments, counts: map<Key, nat>, n: nat): (p: nat)
    requires n <= |segs|
    ensures p == NO_INDEX || (p < n && segs[p].num != -1 && segs[p].key in counts)
  {
    if n == 0 then NO_INDEX
    else
      var p := PickIn(segs, counts, n - 1);
      var s := segs[n - 1];
      if s.num == -1 || s.key !in counts then p
      else if p == NO_INDEX || counts[s.key] <= counts[segs[p].key] then n - 1
      else p
  }

  /** The key of a port's group: the keys of its other segments, in order. */
  function GroupKey(segs: seq<Seg>, skip: nat, n: nat): Key
    requires n <= |segs|
  {
    if n == 0 then 0
    else if n - 1 == skip then GroupKey(segs, skip, n - 1)
    else (31 * GroupKey(segs, skip, n - 1) + segs[n - 1].key) % KEY_SPACE
  }

  /** What is decided about a port: nothing, that its number is out of range, or its number
      and its group. */
  datatype Choice = NoNumber | OutOfRange | Numbered(portNum: nat, groupKey: Key)

  function ChoiceOf(segs: Segments, counts: map<Key, nat>): Choice {
    var p := PickIn(segs, counts, |segs|);
    if p == NO_INDEX then NoNumber
    else if segs[p].num >= MAX_PORT_NUM then OutOfRange
    else Numbered(segs[p].num, GroupKey(segs, p, |segs|))
  }

  // ---------------------------------------------------------------- the scan over the ports

  /** What the scan has found: the ports' numbers, the groups in order of appearance, the
      port numbers taken, whether two ports want one number, and whether it gave up. */
  datatype Scan = Scan(numbers: map<Key, Choice>, groups: seq<GroupVal>, used: set<nat>, conflict: bool, failed: bool)

  function ScanPort(s: Scan, key: Key, choice: Choice): Scan {
    match choice
    case NoNumber => s
    case OutOfRange => s.(failed := true)
    case Numbered(pn, g) =>
      Scan(s.numbers[key := choice], AddTo(s.groups, g, pn), s.used + {pn}, s.conflict || pn in s.used || pn == 0, s.failed)
  }

  function ScanPorts(m: Model, keys: seq<Key>, n: nat): Scan
    requires n <= |keys|
  {
    if n == 0 then Scan(map[], [], {}, false, false)
    else
      var s, key := ScanPorts(m, keys, n - 1), keys[n - 1];
      if s.failed || key !in m.ports then s else ScanPort(s, key, ChoiceOf(m.ports[key].segments, m.counts))
  }

  /** The ports with the numbers of a scan written to them. */
  function NumberedPorts(ports: map<Key, PortItem>, numbers: map<Key, Choice>): map<Key, PortItem> {
    map k | k in ports ::
      if k in numbers && numbers[k].Numbered?
      then ports[k].(portNum := numbers[k].portNum, groupKey := numbers[k].groupKey) else ports[k]
  }

  lemma {:induction false} NumberedPortsStep(ports: map<Key, PortItem>, numbers: map<Key, Choice>, key: Key)
    requires key in ports
    ensures var now := NumberedPorts(ports, numbers);
            && key in now && now[key].segments == ports[key].segments
            && forall pn, g :: NumberedPorts(ports, numbers[key := Numbered(pn, g)]) ==
                                 now[key := now[key].(portNum := pn, groupKey := g)]
  {
  }

  /** What the whole scan of pn_gen_process finds. */
  function AfterScan(m: Model): Scan {
    var keys := KeysOf(m.ports);
    ScanPorts(m, keys, |keys|)
  }

  function KeysOf(ports: map<Key, PortItem>): (keys: seq<Key>)
    ensures forall k :: k in keys <==> k in ports
    ensures forall i, j :: 0 <= i < j < |keys| ==> keys[i] < keys[j]
  {
    SortedKeysAreTheKeys(ports.Keys);
    SortedKeys(ports.Keys)
  }

  lemma {:induction false} FailureStays(m: Model, keys: seq<Key>, n: nat, n': nat)
    requires n <= n' <= |keys| && ScanPorts(m, keys, n).failed
    ensures ScanPorts(m, keys, n') == ScanPorts(m, keys, n)
  {
    if n < n' {
      FailureStays(m, keys, n, n' - 1);
    }
  }

  /** The scan lists each group once, and lists one as soon as a conflict is noticed. */
  lemma {:induction false} ScanGroups(m: Model, keys: seq<Key>, n: nat)
    requires n <= |keys|
    ensures DistinctKeys(ScanPorts(m, keys, n).groups)
    ensures ScanPorts(m, keys, n).conflict ==> ScanPorts(m, keys, n).groups != []
  {
    hide ChoiceOf, AddTo;
    if n > 0 {
      ScanGroups(m, keys, n - 1);
      var s, key := ScanPorts(m, keys, n - 1), keys[n - 1];
      if key in m.ports && ChoiceOf(m.ports[key].segments, m.counts).Numbered? {
        var c := ChoiceOf(m.ports[key].segments, m.counts);
        AddToKeepsKeys(s.groups, c.groupKey, c.portNum);
      }
    }
  }

  // ---------------------------------------------------------------- resolving conflicts

  function Shifted(item: PortItem, groups: seq<GroupVal>): PortItem {
    var o := OffsetOf(groups, item.groupKey);
    if o < 0 then item else item.(offset := o)
  }

  function ShiftedPorts(ports: map<Key, PortItem>, groups: seq<GroupVal>): map<Key, PortItem> {
    map k | k in ports :: Shifted(ports[k], groups)
  }

  /** The ports after pn_gen_process. */
  function Processed(m: Model): map<Key, PortItem> {
    var s := AfterScan(m);
    var ports := NumberedPorts(m.ports, s.numbers);
    if s.failed || !s.conflict then ports else ShiftedPorts(ports, WithOffsets(SortSpec(s.groups)))
  }

  /** The 16-bit number returned for a name. */
  function Answer(ports: map<Key, PortItem>, name: string): nat {
    var key := HashKey(0, name);
    if key in ports then (ports[key].portNum + ports[key].offset) % 65536 else 0
  }

  // ---------------------------------------------------------------- the generator

  class PnGen {
    var segMap: map<Key, nat>
    var portMap: map<Key, PortItem>
    var processed: bool

    ghost function Value(): Model
      reads this
    {
      Model(segMap, portMap)
    }

    ghost predicate Valid()
      reads this
    {
      forall k :: k in segMap ==> segMap[k] < 256
    }

    constructor ()
      ensures Valid() && Value() == Model(map[], map[]) && !processed
    {
      segMap, portMap, processed := map[], map[], false;
    }

    method UpdateCount(key: Key)
      requires Valid()
      modifies this`segMap
      ensures Valid() && segMap == Counted(old(segMap), key)
    {
      if key !in segMap {
        segMap := segMap[key := 0];
      }
      segMap := segMap[key := (segMap[key] + 1) % 256];
    }

    method Register(name: string) returns (r: Status)
      requires Valid() && Scannable(name)
      modifies this
      ensures Valid() && processed == old(processed)
      ensures r == if processed then AlreadyProcessed else if ParseSpec(name).Parsed? then Ok else InvalidName
      ensures Value() == if processed then old(Value()) else Registered(old(Value()), name)
    {
      if processed {
        return AlreadyProcessed;
      }
      var key := CalStrKey(0, name);
      var inserted := key !in portMap;
      if inserted {
        portMap := portMap[key := PortItem([], 0, 0, 0)];
      }
      var parse := ParsePortName(name);
      if parse == InvalidPortName {
        return InvalidName;
      }
      ParsedSegmentsOk(name);
      if inserted {
        portMap := portMap[key := portMap[key].(segments := parse.segs)];
      }
      UpdateCounts(parse.segs);
      return Ok;
    }

    method UpdateCounts(segs: seq<Seg>)
      requires Valid()
      modifies this`segMap
      ensures Valid() && segMap == CountedAll(old(segMap), segs)
    {
      for i := 0 to |segs|
        invariant Valid() && segMap == CountedAll(old(segMap), segs[..i])
      {
        UpdateCount(segs[i].key);
        assert segs[..i + 1][..i] == segs[..i];
      }
      assert segs[..|segs|] == segs;
    }

    /** The numeric segment with the least count, in favour of the larger index. */
    method SelectSegment(segs: Segments) returns (pnIndex: nat)
      requires Valid()
      ensures pnIndex == PickIn(segs, segMap, |segs|)
    {
      var minCount := 256;
      pnIndex := NO_INDEX;
      for i := 0 to |segs|
        invariant pnIndex == PickIn(segs, segMap, i)
        invariant minCount == if pnIndex == NO_INDEX then 256 else segMap[segs[pnIndex].key]
      {
        if segs[i].num != -1 && segs[i].key in segMap {
          var count := segMap[segs[i].key];
          if count <= minCount {
            pnIndex := i;
            minCount := count;
          }
        }
      }
    }

    method CalGroupKey(segs: seq<Seg>, pnIndex: nat) returns (key: Key)
      ensures key == GroupKey(segs, pnIndex, |segs|)
    {
      key := 0;
      for i := 0 to |segs|
        invariant key == GroupKey(segs, pnIndex, i)
      {
        if i != pnIndex {
          key := (31 * key + segs[i].key) % KEY_SPACE;
        }
      }
    }

    /** What the locals of pn_gen_process hold after the scan `s` of the ports of `m`. */
    ghost predicate Represents(m: Model, s: Scan, fullPorts: array<bool>, groups: GroupList, hasConfliction: bool)
      reads this, fullPorts, groups, Cells(groups.nodes)
    {
      && segMap == m.counts && portMap == NumberedPorts(m.ports, s.numbers)
      && !s.failed && hasConfliction == s.conflict
      && groups.Lists(s.groups) && Marks(fullPorts, s.used)
    }

    /** One turn of the scan loop. */
    method NumberPort(ghost m: Model, ghost s: Scan, key: Key, fullPorts: array<bool>, groups: GroupList, hasConfliction: bool)
      returns (ok: bool, hasConfliction': bool)
      requires Valid() && key in m.ports && Represents(m, s, fullPorts, groups, hasConfliction)
      modifies this`portMap, fullPorts, groups, Cells(groups.nodes)
      ensures fresh(Cells(groups.nodes) - old(Cells(groups.nodes)))
      ensures var s' := ScanPort(s, key, ChoiceOf(m.ports[key].segments, m.counts));
              if ok then Represents(m, s', fullPorts, groups, hasConfliction')
              else s' == s.(failed := true) && portMap == old(portMap)
    {
      hide PickIn, GroupKey, AddTo, Marks, NumberedPorts, GroupList.Valid, GroupList.TailIsLast;
      NumberedPortsStep(m.ports, s.numbers, key);
      ok, hasConfliction' := true, hasConfliction;
      var port := portMap[key];
      var pnIndex := SelectSegment(port.segments);
      if pnIndex < MAX_SEGS {
        var pn := port.segments[pnIndex].num;
        if pn >= MAX_PORT_NUM {
          return false, hasConfliction;
        }
        hasConfliction' := MarkPort(fullPorts, pn, s.used, hasConfliction);
        var gKey := CalGroupKey(port.segments, pnIndex);
        portMap := portMap[key := port.(portNum := pn, groupKey := gKey)];
        groups.AddPort(gKey, pn);
      }
    }

    /** The scan over all ports, in key order. */
    method NumberPorts(keys: seq<Key>) returns (ok: bool, groups: GroupList, hasConfliction: bool)
      requires Valid() && forall i :: 0 <= i < |keys| ==> keys[i] in portMap
      modifies this`portMap
      ensures fresh(groups) && fresh(Cells(groups.nodes))
      ensures var s := ScanPorts(old(Value()), keys, |keys|);
              && portMap == NumberedPorts(old(portMap), s.numbers) && ok == !s.failed
              && (ok ==> groups.Lists(s.groups) && hasConfliction == s.conflict)
    {
      hide ScanPort, ChoiceOf, Marks, GroupList.Lists;
      ghost var m := Value();
      var fullPorts := new bool[MAX_PORT_NUM](_ => false);
      NothingMarked(fullPorts);
      ok, hasConfliction := true, false;
      groups := new GroupList();
      for n := 0 to |keys|
        invariant fresh(fullPorts) && fresh(groups) && fresh(Cells(groups.nodes)) && ok
        invariant Represents(m, ScanPorts(m, keys, n), fullPorts, groups, hasConfliction)
      {
        ok, hasConfliction := NumberPort(m, ScanPorts(m, keys, n), keys[n], fullPorts, groups, hasConfliction);
        if !ok {
          FailureStays(m, keys, n + 1, |keys|);
          return;
        }
      }
    }

    method Process() returns (r: Status)
      requires Valid() && !processed
      modifies this
      ensures Valid() && segMap == old(segMap)
      ensures r == if AfterScan(old(Value())).failed then InvalidName else Ok
      ensures processed == (r == Ok) && portMap == Processed(old(Value()))
    {
      hide ScanPorts, DistinctKeys, ShiftedPorts, SortSpec, WithOffsets;
      ghost var m := Value();
      var keys := KeysOf(portMap);
      var ok, groups, hasConfliction := NumberPorts(keys);
      if !ok {
        return InvalidName;
      }
      if hasConfliction {
        ScanGroups(m, keys, |keys|);
        ResolveConfliction(groups);
      }
      processed := true;
      return Ok;
    }

    /** Shift whole groups so that their number ranges follow each other. */
    method ResolveConfliction(groups: GroupList)
      requires Valid() && groups.Valid() && groups.nodes != [] && DistinctKeys(groups.Contents())
      modifies this`portMap, groups, Cells(groups.nodes)
      ensures portMap == ShiftedPorts(old(portMap), WithOffsets(SortSpec(old(groups.Contents()))))
    {
      hide Linked, SortSpec, WithOffsets, DistinctKeys, ShiftedPorts, GroupList.Contents;
      groups.Sort();
      groups.SetOffsets();
      ShiftPorts(groups);
    }

    method ShiftPorts(groups: GroupList)
      requires Valid() && groups.Valid()
      modifies this`portMap
      ensures portMap == ShiftedPorts(old(portMap), groups.Contents())
    {
      hide Shifted, ShiftedPorts, ShiftedUpTo, GroupList.Valid, GroupList.Contents;
      ghost var was, vals := portMap, groups.Contents();
      var keys := KeysOf(portMap);
      ShiftedUpToAll(was, keys, vals);
      assert keys[..0] == [];
      for n := 0 to |keys|
        invariant portMap == ShiftedUpTo(was, keys[..n], vals)
      {
        ShiftedUpToStep(was, keys, n, vals);
        ShiftPort(groups, keys[n]);
      }
      assert keys[..|keys|] == keys;
    }

    method ShiftPort(groups: GroupList, key: Key)
      requires Valid() && groups.Valid() && key in portMap
      modifies this`portMap
      ensures portMap == old(portMap)[key := Shifted(old(portMap)[key], groups.Contents())]
    {
      var item;
      ghost var at;
      item, at := groups.Find(portMap[key].groupKey);
      OffsetOfIs(groups.Contents(), at, portMap[key].groupKey);
      if item != null {
        portMap := portMap[key := portMap[key].(offset := item.offset)];
      }
    }

    /** The number of a registered name; the ports are numbered by the first call. */
    method GetPort(name: string) returns (portNum: nat)
      requires Valid()
      modifies this
      ensures Valid() && segMap == old(segMap)
      ensures processed == (old(processed) || !AfterScan(old(Value())).failed)
      ensures portMap == if old(processed) then old(portMap) else Processed(old(Value()))
      ensures portNum == Answer(portMap, name)
    {
      if !processed {
        var _ := Process();
      }
      var key := CalStrKey(0, name);
      if key in portMap {
        return (portMap[key].portNum + portMap[key].offset) % 65536;
      } else {
        return 0;
      }
    }
  }

  // ---------------------------------------------------------------- helpers of the process step

  function ShiftedUpTo(ports: map<Key, PortItem>, keys: seq<Key>, groups: seq<GroupVal>): map<Key, PortItem> {
    if keys == [] then ports
    else
      var before, key := ShiftedUpTo(ports, keys[..|keys| - 1], groups), keys[|keys| - 1];
      if key in before then before[key := Shifted(before[key], groups)] else before
  }

  lemma {:induction false} ShiftedUpToAt(ports: map<Key, PortItem>, keys: seq<Key>, groups: seq<GroupVal>)
    requires forall i, j :: 0 <= i < j < |keys| ==> keys[i] < keys[j]
    ensures ShiftedUpTo(ports, keys, groups).Keys == ports.Keys
    ensures forall k :: k in ports ==>
              ShiftedUpTo(ports, keys, groups)[k] == if k in keys then Shifted(ports[k], groups) else ports[k]
  {
    hide Shifted;
    if keys != [] {
      var init, key := keys[..|keys| - 1], keys[|keys| - 1];
      ShiftedUpToAt(ports, init, groups);
      assert forall k :: k in keys <==> k in init || k == key;
      assert key !in init;
    }
  }

  lemma {:induction false} ShiftedUpToStep(ports: map<Key, PortItem>, keys: seq<Key>, n: nat, groups: seq<GroupVal>)
    requires n < |keys| && forall i, j :: 0 <= i < j < |keys| ==> keys[i] < keys[j]
    requires keys[n] in ports
    ensures var before := ShiftedUpTo(ports, keys[..n], groups);
            && keys[n] in before
            && ShiftedUpTo(ports, keys[..n + 1], groups) == before[keys[n] := Shifted(before[keys[n]], groups)]
  {
    hide Shifted;
    ShiftedUpToAt(ports, keys[..n], groups);
    assert keys[..n + 1][..n] == keys[..n];
  }

  lemma {:induction false} ShiftedUpToAll(ports: map<Key, PortItem>, keys: seq<Key>, groups: seq<GroupVal>)
    requires forall i, j :: 0 <= i < j < |keys| ==> keys[i] < keys[j]
    requires forall k :: k in keys <==> k in ports
    ensures ShiftedUpTo(ports, [], groups) == ports
    ensures ShiftedUpTo(ports, keys, groups) == ShiftedPorts(ports, groups)
  {
    hide Shifted;
    ShiftedUpToAt(ports, keys, groups);
  }

  ghost predicate Marks(fullPorts: array<bool>, used: set<nat>)
    reads fullPorts
  {
    fullPorts.Length == MAX_PORT_NUM && forall j :: 0 < j < MAX_PORT_NUM ==> (fullPorts[j] <==> j in used)
  }

  lemma NothingMarked(fullPorts: array<bool>)
    requires fullPorts.Length == MAX_PORT_NUM && forall j :: 0 <= j < MAX_PORT_NUM ==> !fullPorts[j]
    ensures Marks(fullPorts, {})
  {
  }

  method MarkPort(fullPorts: array<bool>, pn: nat, ghost used: set<nat>, hasConfliction: bool) returns (conflict: bool)
    requires Marks(fullPorts, used) && pn < MAX_PORT_NUM
    modifies fullPorts
    ensures Marks(fullPorts, used + {pn}) && conflict == (hasConfliction || pn in used || pn == 0)
  {
    conflict := hasConfliction;
    if fullPorts[pn] || pn == 0 {
      conflict := true;
    } else {
      fullPorts[pn] := true;
    }
  }
}
