/** The guarantee of port_num_gen.h:39-70: a unique positive number for each name.

    `names` is any sequence of registrations; all results are about the numbers
    pn_gen_get_port returns afterwards. */
module PortUnique {
  import opened OrderedKeys
  import opened PortName
  import opened PortGroups
  import opened PortNumGen
  import opened PortOffsets
  import opened PortScan

  function ModelOf(names: seq<string>): Model {
    RegisteredAll(Model(map[], map[]), names)
  }

  /** The number returned for `name` once `names` are registered. */
  function NumberOf(names: seq<string>, name: string): nat {
    Answer(Processed(ModelOf(names)), name)
  }

  /** Different names have different keys. */
  ghost predicate NamesDecide(names: seq<string>) {
    forall a, b :: a in names && b in names && HashKey(0, a) == HashKey(0, b) ==> a == b
  }

  // ---------------------------------------------------------------- what registering leaves behind

  ghost predicate IsKeyOf(names: seq<string>, k: Key) {
    exists a :: a in names && k == HashKey(0, a)
  }

  lemma {:induction false} RegisteredPorts(names: seq<string>)
    requires NamesDecide(names)
    ensures forall a :: a in names ==>
              HashKey(0, a) in ModelOf(names).ports
              && ModelOf(names).ports[HashKey(0, a)] == PortItem(SegmentsOf(a), 0, 0, 0)
    ensures forall k :: k in ModelOf(names).ports ==> IsKeyOf(names, k)
  {
    hide SegmentsOf, HashKey;
    if names != [] {
      var init, last := names[..|names| - 1], names[|names| - 1];
      assert names == init + [last];
      RegisteredPorts(init);
      assert ModelOf(names) == Registered(ModelOf(init), last);
      forall k | k in ModelOf(names).ports ensures IsKeyOf(names, k) {
        if k in ModelOf(init).ports {
          var a :| a in init && k == HashKey(0, a);
          assert a in names;
        } else {
          assert last in names;
        }
      }
      if HashKey(0, last) in ModelOf(init).ports {
        var a :| a in init && HashKey(0, last) == HashKey(0, a);
        assert a in names && last in names;
      }
    }
  }

  ghost predicate Counts(counts: map<Key, nat>, segs: seq<Seg>) {
    forall i :: 0 <= i < |segs| ==> segs[i].key in counts
  }

  lemma {:induction false} CountedAllCounts(counts: map<Key, nat>, segs: seq<Seg>)
    ensures Counts(CountedAll(counts, segs), segs) && counts.Keys <= CountedAll(counts, segs).Keys
  {
    if segs != [] {
      CountedAllCounts(counts, segs[..|segs| - 1]);
      assert segs == segs[..|segs| - 1] + [segs[|segs| - 1]];
    }
  }

  lemma {:induction false} RegisteredCounts(names: seq<string>)
    ensures forall a :: a in names ==> Counts(ModelOf(names).counts, SegmentsOf(a))
  {
    hide SegmentsOf, HashKey;
    if names != [] {
      var init, last := names[..|names| - 1], names[|names| - 1];
      assert names == init + [last];
      RegisteredCounts(init);
      CountedAllCounts(ModelOf(init).counts, SegmentsOf(last));
    }
  }

  /** Every registration was accepted, and so was the processing. */
  ghost predicate Accepted(names: seq<string>) {
    && (forall a {:trigger ParseSpec(a)} :: a in names ==> ParseSpec(a).Parsed?)
    && !AfterScan(ModelOf(names)).failed
  }

  lemma {:induction false} SomeSegmentIsPicked(segs: Segments, counts: map<Key, nat>, n: nat, i: nat)
    requires i < n <= |segs| && segs[i].num != -1 && segs[i].key in counts
    ensures PickIn(segs, counts, n) != NO_INDEX
  {
    if i < n - 1 {
      SomeSegmentIsPicked(segs, counts, n - 1, i);
    }
  }

  lemma {:induction false} NumberIsThere(ts: seq<Token>) returns (i: nat)
    requires HasNumber(ts)
    ensures i < |ts| && ts[i].num != -1
  {
    if ts[|ts| - 1].num != -1 {
      i := |ts| - 1;
    } else {
      i := NumberIsThere(ts[..|ts| - 1]);
    }
  }

  /** What was decided about a name. */
  function DecisionOn(names: seq<string>, a: string): Choice {
    ChoiceAt(ModelOf(names), HashKey(0, a))
  }

  lemma {:induction false} ParsedIsPicked(names: seq<string>, a: string)
    requires a in names && ParseSpec(a).Parsed?
    ensures !ChoiceOf(SegmentsOf(a), ModelOf(names).counts).NoNumber?
  {
    var segs := SegmentsOf(a);
    RegisteredCounts(names);
    var i := NumberIsThere(Tokens(a, 0));
    assert segs[i].num != -1;
    SomeSegmentIsPicked(segs, ModelOf(names).counts, |segs|, i);
  }

  lemma {:induction false} AcceptedIsNumbered(names: seq<string>, a: string)
    requires NamesDecide(names) && Accepted(names) && a in names
    ensures HashKey(0, a) in ModelOf(names).ports
    ensures DecisionOn(names, a) == ChoiceOf(SegmentsOf(a), ModelOf(names).counts)
    ensures DecisionOn(names, a).Numbered? && DecisionOn(names, a).portNum < MAX_PORT_NUM
  {
    hide ScanPorts, HashKey, ParseSpec;
    var m := ModelOf(names);
    RegisteredPorts(names);
    ParsedIsPicked(names, a);
    var keys := KeysOf(m.ports);
    NumbersAreChoices(m, keys, |keys|);
    assert HashKey(0, a) in keys;
  }

  // ---------------------------------------------------------------- the numbers, before they are cut to 16 bits

  function RawNumber(names: seq<string>, a: string): nat {
    var ports := Processed(ModelOf(names));
    if HashKey(0, a) in ports then ports[HashKey(0, a)].portNum + ports[HashKey(0, a)].offset else 0
  }

  function FinalGroups(names: seq<string>): seq<GroupVal> {
    WithOffsets(SortSpec(AfterScan(ModelOf(names)).groups))
  }

  function GroupsOf(names: seq<string>): seq<GroupVal> {
    AfterScan(ModelOf(names)).groups
  }

  lemma {:induction false} GroupOfName(names: seq<string>, a: string) returns (g: GroupVal)
    requires NamesDecide(names) && Accepted(names) && a in names
    ensures g in GroupsOf(names) && Holds(g, DecisionOn(names, a))
  {
    hide ScanPorts, HashKey, ParseSpec, Holds, ModelOf, Unshifted;
    var m := ModelOf(names);
    var keys := KeysOf(m.ports);
    GroupsHoldPorts(m, keys, |keys|);
    AcceptedIsNumbered(names, a);
    assert HashKey(0, a) in keys;
    var i :| 0 <= i < |keys| && keys[i] == HashKey(0, a);
    assert ChoiceAt(m, keys[i]).Numbered?;
    g :| g in GroupsOf(names) && Holds(g, DecisionOn(names, a));
  }

  lemma {:induction false} NameAtGroupEnd(names: seq<string>, g: GroupVal) returns (a: string)
    requires NamesDecide(names) && Accepted(names) && g in GroupsOf(names)
    ensures a in names && DecisionOn(names, a) == Numbered(g.max, g.key)
  {
    hide ScanPorts, HashKey, ParseSpec, Holds, ModelOf, Unshifted, ChoiceAt;
    var m := ModelOf(names);
    var keys := KeysOf(m.ports);
    GroupsHoldPorts(m, keys, |keys|);
    RegisteredPorts(names);
    var i :| 0 <= i < |keys| && ChoiceAt(m, keys[i]) == Numbered(g.max, g.key);
    assert keys[i] in keys;
    a :| a in names && keys[i] == HashKey(0, a);
  }

  lemma {:induction false} ScanOfNames(names: seq<string>)
    requires NamesDecide(names) && Accepted(names)
    ensures var m := ModelOf(names); var keys := KeysOf(m.ports);
            && (AfterScan(m).conflict <==> Clash(m, keys, |keys|))
            && (AfterScan(m).conflict ==> GroupsOf(names) != [])
            && DistinctKeys(GroupsOf(names)) && Unshifted(GroupsOf(names))
  {
    hide ScanPorts, Clash, ModelOf, DistinctKeys, Unshifted;
    var m := ModelOf(names);
    var keys := KeysOf(m.ports);
    ConflictIffClash(m, keys, |keys|);
    ScanGroups(m, keys, |keys|);
    GroupsHoldPorts(m, keys, |keys|);
  }

  lemma {:induction false} SameMembers(sorted: seq<GroupVal>, groups: seq<GroupVal>)
    requires multiset(sorted) == multiset(groups)
    ensures |sorted| == |groups| && forall g :: g in sorted <==> g in groups
    ensures Unshifted(groups) ==> Unshifted(sorted)
  {
    assert |multiset(sorted)| == |sorted| && |multiset(groups)| == |groups|;
    assert forall g :: g in sorted <==> g in multiset(sorted);
    assert forall g :: g in groups <==> g in multiset(groups);
    forall i | 0 <= i < |sorted| ensures sorted[i] in groups {
      assert sorted[i] in multiset(sorted);
    }
  }

  /** Sorting and shifting keeps the groups but for their offsets. */
  lemma {:induction false} FinalGroupsAre(groups: seq<GroupVal>)
    requires Unshifted(groups)
    ensures var gs := WithOffsets(SortSpec(groups));
            && Spread(gs) && |gs| == |groups|
            && (forall g :: g in groups ==> exists i :: 0 <= i < |gs| && gs[i].(offset := 0) == g)
            && (forall i :: 0 <= i < |gs| ==> gs[i].(offset := 0) in groups)
  {
    hide WithOffsets, Spread, Sorted;
    var sorted, gs := SortSpec(groups), WithOffsets(SortSpec(groups));
    SortSpecSorts(groups);
    SameMembers(sorted, groups);
    OffsetsSpread(sorted);
    forall i | 0 <= i < |gs| ensures gs[i].(offset := 0) == sorted[i] {
      OffsetsKeepGroups(sorted, i);
    }
    forall g | g in groups ensures exists i :: 0 <= i < |gs| && gs[i].(offset := 0) == g {
      assert g in sorted;
      var i :| 0 <= i < |sorted| && sorted[i] == g;
    }
  }

  lemma {:induction false} FirstWithKey(vals: seq<GroupVal>, key: Key) returns (i: nat)
    requires exists g :: g in vals && g.key == key
    ensures i < |vals| && vals[i].key == key && OffsetOf(vals, key) == vals[i].offset
  {
    i := 0;
    if vals[0].key != key {
      assert vals == [vals[0]] + vals[1..];
      i := FirstWithKey(vals[1..], key);
      i := i + 1;
    }
  }

  /** The final group a decision belongs to. */
  lemma {:induction false} FinalGroupOf(groups: seq<GroupVal>, g: GroupVal, c: Choice) returns (i: nat)
    requires DistinctKeys(groups) && Unshifted(groups) && g in groups && Holds(g, c)
    ensures var gs := WithOffsets(SortSpec(groups));
            i < |gs| && Holds(gs[i], c) && OffsetOf(gs, c.groupKey) == gs[i].offset
  {
    hide SortSpec, WithOffsets, Spread, Unshifted;
    var gs := WithOffsets(SortSpec(groups));
    FinalGroupsAre(groups);
    var j :| 0 <= j < |gs| && gs[j].(offset := 0) == g;
    assert gs[j] in gs && gs[j].key == g.key;
    i := FirstWithKey(gs, c.groupKey);
    assert gs[i].(offset := 0) in groups;
    assert gs[i].(offset := 0) == g;
  }

  // ---------------------------------------------------------------- uniqueness

  lemma {:induction false} NumberedAt(m: Model, key: Key)
    requires key in m.ports && !AfterScan(m).failed && ChoiceAt(m, key).Numbered?
    ensures key in AfterScan(m).numbers && AfterScan(m).numbers[key] == ChoiceAt(m, key)
  {
    hide ScanPorts, ChoiceAt;
    var keys := KeysOf(m.ports);
    NumbersAreChoices(m, keys, |keys|);
    assert key in keys;
    var at :| 0 <= at < |keys| && keys[at] == key;
    assert keys[at] in AfterScan(m).numbers;
  }

  lemma {:induction false} ProcessedAt(m: Model, key: Key)
    requires key in m.ports && m.ports[key].offset == 0 && !AfterScan(m).failed && ChoiceAt(m, key).Numbered?
    ensures key in Processed(m)
    ensures var c, o := ChoiceAt(m, key), OffsetOf(WithOffsets(SortSpec(AfterScan(m).groups)), ChoiceAt(m, key).groupKey);
            && Processed(m)[key].portNum == c.portNum
            && Processed(m)[key].offset == if !AfterScan(m).conflict || o < 0 then 0 else o
  {
    hide AfterScan, OffsetOf, WithOffsets, SortSpec, ChoiceAt;
    NumberedAt(m, key);
  }

  /** How a number comes from a decision: as it is, or shifted with its group. */
  ghost predicate Lands(raw: nat, c: Choice, conflict: bool, gs: seq<GroupVal>, i: nat) {
    c.Numbered? && if !conflict then raw == c.portNum
    else i < |gs| && Holds(gs[i], c) && OffsetOf(gs, c.groupKey) == gs[i].offset && raw == c.portNum + gs[i].offset
  }

  lemma {:induction false} RawNumberLands(names: seq<string>, a: string) returns (i: nat)
    requires NamesDecide(names) && Accepted(names) && a in names
    ensures Lands(RawNumber(names, a), DecisionOn(names, a), AfterScan(ModelOf(names)).conflict, FinalGroups(names), i)
  {
    hide AfterScan, HashKey, ParseSpec, ModelOf, Unshifted, DistinctKeys, Clash, SortSpec, WithOffsets, OffsetOf, Processed;
    AcceptedIsNumbered(names, a);
    RegisteredPorts(names);
    ProcessedAt(ModelOf(names), HashKey(0, a));
    i := 0;
    if AfterScan(ModelOf(names)).conflict {
      ScanOfNames(names);
      var g := GroupOfName(names, a);
      i := FinalGroupOf(GroupsOf(names), g, DecisionOn(names, a));
    }
  }

  lemma {:induction false} RawIsPositive(names: seq<string>, a: string)
    requires NamesDecide(names) && Accepted(names) && a in names
    ensures RawNumber(names, a) > 0
  {
    hide AfterScan, HashKey, ParseSpec, ModelOf, RawNumber, DistinctKeys, FinalGroups, Spread, OffsetOf;
    var m := ModelOf(names);
    var keys := KeysOf(m.ports);
    var i := RawNumberLands(names, a);
    ScanOfNames(names);
    AcceptedIsNumbered(names, a);
    if AfterScan(m).conflict {
      FinalGroupsApart(names, DecisionOn(names, a), i, DecisionOn(names, a), i);
    } else {
      assert HashKey(0, a) in keys;
    }
  }

  /** Two names get one number exactly when the same was decided about them. */
  lemma {:induction false} SameNumberIff(names: seq<string>, a: string, b: string)
    requires NamesDecide(names) && Accepted(names) && a in names && b in names && a != b
    ensures RawNumber(names, a) == RawNumber(names, b) <==> DecisionOn(names, a) == DecisionOn(names, b)
  {
    hide AfterScan, HashKey, ParseSpec, ModelOf, RawNumber, DistinctKeys, FinalGroups, Spread, OffsetOf;
    var m := ModelOf(names);
    var keys := KeysOf(m.ports);
    var i := RawNumberLands(names, a);
    var j := RawNumberLands(names, b);
    ScanOfNames(names);
    AcceptedIsNumbered(names, a);
    AcceptedIsNumbered(names, b);
    if AfterScan(m).conflict {
      FinalGroupsApart(names, DecisionOn(names, a), i, DecisionOn(names, b), j);
    } else {
      assert HashKey(0, a) in keys && HashKey(0, b) in keys;
      var x :| 0 <= x < |keys| && keys[x] == HashKey(0, a);
      var y :| 0 <= y < |keys| && keys[y] == HashKey(0, b);
      assert x != y;
      assert x < y || y < x;
    }
  }

  lemma {:induction false} FinalGroupsApart(names: seq<string>, c: Choice, i: nat, d: Choice, j: nat)
    requires NamesDecide(names) && Accepted(names)
    requires i < |FinalGroups(names)| && Holds(FinalGroups(names)[i], c)
    requires j < |FinalGroups(names)| && Holds(FinalGroups(names)[j], d)
    ensures var gs := FinalGroups(names);
            && c.portNum + gs[i].offset > 0
            && (c.portNum + gs[i].offset == d.portNum + gs[j].offset ==> i == j && c == d)
  {
    hide AfterScan, ModelOf, DistinctKeys, WithOffsets, SortSpec, Unshifted;
    ScanOfNames(names);
    FinalGroupsAre(GroupsOf(names));
  }

  /** The last shifted range ends within 16 bits. */
  ghost predicate Fits(names: seq<string>) {
    AfterScan(ModelOf(names)).conflict ==>
      FinalGroups(names) != [] && Top(FinalGroups(names)[|FinalGroups(names)| - 1]) < 65536
  }

  /** The last range fits if the widths of the groups, laid end to end from the highest start on,
      do. */
  lemma {:induction false} RoomFits(names: seq<string>, low: nat)
    requires NamesDecide(names) && Accepted(names)
    requires (forall g :: g in GroupsOf(names) ==> g.min <= low + 1) && low + Room(GroupsOf(names)) < 65536
    ensures Fits(names)
  {
    hide AfterScan, ModelOf, WithOffsets, SortSpec, Unshifted, DistinctKeys, Accepted, NamesDecide, Room, Sorted;
    ScanOfNames(names);
    if AfterScan(ModelOf(names)).conflict {
      var groups, sorted := GroupsOf(names), SortSpec(GroupsOf(names));
      SortSpecSorts(groups);
      SameMembers(sorted, groups);
      RoomPermutes(sorted, groups);
      TopWithinRoom(sorted, low);
    }
  }

  /** No number is cut to 16 bits exactly when the last range fits. */
  lemma {:induction false} WholeNumbersIffFits(names: seq<string>)
    requires NamesDecide(names) && Accepted(names)
    ensures (forall a :: a in names ==> NumberOf(names, a) == RawNumber(names, a)) <==> Fits(names)
  {
    hide AfterScan, HashKey, ParseSpec, ModelOf, RawNumber, DistinctKeys, FinalGroups, OffsetOf, NumberOf;
    if Fits(names) {
      forall a | a in names ensures NumberOf(names, a) == RawNumber(names, a) {
        SmallNumber(names, a);
      }
    }
    if (forall a :: a in names ==> NumberOf(names, a) == RawNumber(names, a)) && AfterScan(ModelOf(names)).conflict {
      var a := LastName(names);
      NumberIsCut(names, a);
    }
  }

  lemma {:induction false} NumberIsCut(names: seq<string>, a: string)
    ensures NumberOf(names, a) == RawNumber(names, a) % 65536
  {
    hide Processed;
  }

  lemma {:induction false} SmallNumber(names: seq<string>, a: string)
    requires NamesDecide(names) && Accepted(names) && Fits(names) && a in names
    ensures NumberOf(names, a) == RawNumber(names, a)
  {
    hide AfterScan, HashKey, ParseSpec, ModelOf, RawNumber, DistinctKeys, Spread, OffsetOf, NumberOf, WithOffsets, SortSpec;
    var i := RawNumberLands(names, a);
    AcceptedIsNumbered(names, a);
    NumberIsCut(names, a);
    if AfterScan(ModelOf(names)).conflict {
      ScanOfNames(names);
      FinalGroupsAre(GroupsOf(names));
      TopsAscend(FinalGroups(names), i);
    }
  }

  lemma {:induction false} TopsAscend(gs: seq<GroupVal>, i: nat)
    requires Spread(gs) && i < |gs| && forall j :: 0 <= j < |gs| ==> gs[j].min <= gs[j].max
    ensures Top(gs[i]) <= Top(gs[|gs| - 1])
  {
  }

  lemma {:induction false} SameKeySameGroup(gs: seq<GroupVal>, i: nat, j: nat)
    requires DistinctKeys(gs) && i < |gs| && j < |gs| && gs[i].key == gs[j].key
    ensures i == j
  {
  }

  /** A name whose number is the end of the last shifted range. */
  lemma {:induction false} LastName(names: seq<string>) returns (a: string)
    requires NamesDecide(names) && Accepted(names) && AfterScan(ModelOf(names)).conflict
    ensures FinalGroups(names) != [] && a in names
    ensures RawNumber(names, a) == Top(FinalGroups(names)[|FinalGroups(names)| - 1])
  {
    hide AfterScan, HashKey, ParseSpec, ModelOf, RawNumber, DistinctKeys, Spread, OffsetOf, WithOffsets, SortSpec;
    ScanOfNames(names);
    FinalGroupsAre(GroupsOf(names));
    var gs := FinalGroups(names);
    var last := gs[|gs| - 1];
    a := NameAtGroupEnd(names, last.(offset := 0));
    var i := RawNumberLands(names, a);
    assert gs[i].(offset := 0) in GroupsOf(names);
    FinalKeysDistinct(names);
    SameKeySameGroup(gs, i, |gs| - 1);
  }

  lemma {:induction false} FinalKeysDistinct(names: seq<string>)
    requires NamesDecide(names) && Accepted(names)
    ensures DistinctKeys(FinalGroups(names))
  {
    hide AfterScan, ModelOf, WithOffsets, SortSpec;
    var sorted, gs := SortSpec(GroupsOf(names)), FinalGroups(names);
    ScanOfNames(names);
    SortSpecSorts(GroupsOf(names));
    DistinctKeysPermute(sorted, GroupsOf(names));
    forall i | 0 <= i < |gs| ensures gs[i].key == sorted[i].key {
      OffsetsKeepGroups(sorted, i);
    }
  }

  lemma {:induction false} Occurrences(vals: seq<GroupVal>, i: nat)
    requires i < |vals|
    ensures multiset(vals)[vals[i]] == 1 + multiset(vals[..i])[vals[i]] + multiset(vals[i + 1..])[vals[i]]
  {
    assert vals == vals[..i] + ([vals[i]] + vals[i + 1..]);
  }

  lemma {:induction false} DistinctKeysPermute(a: seq<GroupVal>, b: seq<GroupVal>)
    requires multiset(a) == multiset(b) && DistinctKeys(b)
    ensures DistinctKeys(a)
  {
    forall i, j | 0 <= i < j < |a| ensures a[i].key != a[j].key {
      assert a[i] in multiset(b) && a[j] in multiset(b);
      var k :| 0 <= k < |b| && b[k] == a[j];
      Occurrences(a, j);
      Occurrences(b, k);
      assert a[j] !in b[..k] && a[j] !in b[k + 1..];
      assert a[i] in a[..j];
      assert a[i] != a[j];
    }
  }
}
