/** How the groups are laid out, in terms of their ports, and which names are refused
    (Topology/port_num_gen.c:172-268 and 394-541). */
module PortLayout {
  import opened OrderedKeys
  import opened PortName
  import opened PortGroups
  import opened PortNumGen
  import opened PortOffsets
  import opened PortScan
  import opened PortUnique
  import opened PortTwins
  import opened PortLimits

  // ---------------------------------------------------------------- the groups of the scan

  /** One more port in a group: its count goes up by one and its range covers the number. */
  ghost predicate OneMore(g: GroupVal, h: GroupVal, pn: nat) {
    && h.key == g.key && h.count == g.count + 1
    && h.min == (if pn < g.min then pn else g.min) && h.max == (if pn > g.max then pn else g.max)
  }

  lemma {:induction false} AddToIs(vals: seq<GroupVal>, key: Key, pn: nat)
    requires DistinctKeys(vals)
    ensures forall h :: h in AddTo(vals, key, pn) && h.key != key ==> h in vals
    ensures forall h :: h in AddTo(vals, key, pn) && h.key == key ==>
              if exists g :: g in vals && g.key == key then exists g :: g in vals && OneMore(g, h, pn)
              else h.count == 1 && h.min == h.max == pn
  {
    if vals != [] {
      var rest := vals[1..];
      assert vals == [vals[0]] + rest;
      if vals[0].key == key {
        forall h | h in AddTo(vals, key, pn) && h.key == key ensures OneMore(vals[0], h, pn) {
          assert h !in rest;
        }
      } else {
        AddToIs(rest, key, pn);
      }
    }
  }

  /** The ports among the first n that are numbered in this group. */
  ghost function MembersBelow(m: Model, keys: seq<Key>, n: nat, group: Key): set<Key>
    requires n <= |keys|
  {
    set i | 0 <= i < n && ChoiceAt(m, keys[i]).Numbered? && ChoiceAt(m, keys[i]).groupKey == group :: keys[i]
  }

  lemma {:induction false} MembersNext(m: Model, keys: seq<Key>, n: nat, group: Key)
    requires n < |keys| && Visits(m, keys)
    ensures var c := ChoiceAt(m, keys[n]);
            && keys[n] !in MembersBelow(m, keys, n, group)
            && MembersBelow(m, keys, n + 1, group)
               == if c.Numbered? && c.groupKey == group then MembersBelow(m, keys, n, group) + {keys[n]}
                  else MembersBelow(m, keys, n, group)
  {
    hide ChoiceAt;
  }

  /** A group lists this many ports, and its range starts at the least number one of them wants. */
  ghost predicate Describes(g: GroupVal, m: Model, members: set<Key>) {
    && g.count == |members| > 0
    && (exists k :: k in members && ChoiceAt(m, k) == Numbered(g.min, g.key))
    && (forall k :: k in members ==> ChoiceAt(m, k).Numbered? && g.min <= ChoiceAt(m, k).portNum <= g.max)
  }

  lemma {:induction false} DescribesMore(g: GroupVal, h: GroupVal, m: Model, members: set<Key>, k: Key)
    requires Describes(g, m, members) && k !in members && ChoiceAt(m, k).Numbered? && ChoiceAt(m, k).groupKey == g.key
    requires OneMore(g, h, ChoiceAt(m, k).portNum)
    ensures Describes(h, m, members + {k})
  {
    hide ChoiceAt;
  }

  lemma {:induction false} DescribesFirst(h: GroupVal, m: Model, k: Key)
    requires ChoiceAt(m, k) == Numbered(h.min, h.key) && h.count == 1 && h.min == h.max
    ensures Describes(h, m, {k})
  {
    hide ChoiceAt;
  }

  /** Every group of the scan describes its ports, and every numbered port has a group. */
  lemma {:induction false} GroupsDescribe(m: Model, keys: seq<Key>, n: nat)
    requires n <= |keys| && Visits(m, keys) && !ScanPorts(m, keys, n).failed
    ensures forall g :: g in ScanPorts(m, keys, n).groups ==> Describes(g, m, MembersBelow(m, keys, n, g.key))
    ensures forall group :: MembersBelow(m, keys, n, group) != {} ==>
              exists g :: g in ScanPorts(m, keys, n).groups && g.key == group
  {
    hide ChoiceAt, AddTo, ScanPorts, Describes, DistinctKeys;
    NothingScanned(m, keys);
    if n > 0 {
      ScanStep(m, keys, n - 1);
      GroupsDescribe(m, keys, n - 1);
      ScanGroups(m, keys, n - 1);
      var s, k := ScanPorts(m, keys, n - 1), keys[n - 1];
      var c := ChoiceAt(m, k);
      forall group ensures MembersBelow(m, keys, n, group)
                           == if c.Numbered? && c.groupKey == group then MembersBelow(m, keys, n - 1, group) + {k}
                              else MembersBelow(m, keys, n - 1, group)
      {
        MembersNext(m, keys, n - 1, group);
      }
      if c.Numbered? {
        forall g | g in AddTo(s.groups, c.groupKey, c.portNum)
          ensures Describes(g, m, MembersBelow(m, keys, n, g.key))
        {
          OneDescribed(m, keys, n - 1, s.groups, g);
        }
        GroupsCovered(s.groups, c.groupKey, c.portNum);
      }
    }
  }

  lemma {:induction false} GroupsCovered(vals: seq<GroupVal>, key: Key, pn: nat)
    ensures exists g :: g in AddTo(vals, key, pn) && g.key == key
    ensures forall h :: h in vals ==> exists g :: g in AddTo(vals, key, pn) && g.key == h.key
  {
    if vals != [] {
      var rest := vals[1..];
      assert vals == [vals[0]] + rest;
      if vals[0].key != key {
        GroupsCovered(rest, key, pn);
        assert forall g :: g in AddTo(rest, key, pn) ==> g in AddTo(vals, key, pn);
      } else {
        assert Widened(vals[0], pn) in AddTo(vals, key, pn);
        assert forall h :: h in rest ==> h in AddTo(vals, key, pn);
      }
    } else {
      assert GroupVal(key, pn, pn, 1, 0) in AddTo(vals, key, pn);
    }
  }

  lemma {:induction false} OneDescribed(m: Model, keys: seq<Key>, n: nat, vals: seq<GroupVal>, g: GroupVal)
    requires n < |keys| && Visits(m, keys) && DistinctKeys(vals)
    requires forall h :: h in vals ==> Describes(h, m, MembersBelow(m, keys, n, h.key))
    requires forall group :: MembersBelow(m, keys, n, group) != {} ==> exists h :: h in vals && h.key == group
    requires ChoiceAt(m, keys[n]).Numbered?
    requires g in AddTo(vals, ChoiceAt(m, keys[n]).groupKey, ChoiceAt(m, keys[n]).portNum)
    ensures Describes(g, m, MembersBelow(m, keys, n + 1, g.key))
  {
    hide ChoiceAt, AddTo, Describes, DistinctKeys, MembersBelow;
    var c := ChoiceAt(m, keys[n]);
    MembersNext(m, keys, n, g.key);
    AddToIs(vals, c.groupKey, c.portNum);
    if g.key == c.groupKey {
      if exists h :: h in vals && h.key == c.groupKey {
        var h :| h in vals && OneMore(h, g, c.portNum);
        DescribesMore(h, g, m, MembersBelow(m, keys, n, g.key), keys[n]);
      } else {
        DescribesFirst(g, m, keys[n]);
        assert MembersBelow(m, keys, n, g.key) == {};
        assert MembersBelow(m, keys, n + 1, g.key) == {keys[n]};
      }
    }
  }

  // ---------------------------------------------------------------- larger groups come first

  /** The ports in the group of a name. */
  ghost function GroupOf(names: seq<string>, a: string): set<Key> {
    set k | k in ModelOf(names).ports && ChoiceAt(ModelOf(names), k).Numbered? && DecisionOn(names, a).Numbered?
            && ChoiceAt(ModelOf(names), k).groupKey == DecisionOn(names, a).groupKey
  }

  /** A port of a's group wants a smaller number than every port of b's. */
  ghost predicate StartsBefore(names: seq<string>, a: string, b: string) {
    exists k :: k in GroupOf(names, a) && forall l :: l in GroupOf(names, b) ==>
      WantedAt(ModelOf(names), k) < WantedAt(ModelOf(names), l)
  }

  ghost function WantedAt(m: Model, k: Key): nat {
    if ChoiceAt(m, k).Numbered? then ChoiceAt(m, k).portNum else 0
  }

  lemma {:induction false} GroupIsDescribed(names: seq<string>, a: string, g: GroupVal)
    requires NamesDecide(names) && Accepted(names) && a in names
    requires g in GroupsOf(names) && DecisionOn(names, a).Numbered? && g.key == DecisionOn(names, a).groupKey
    ensures Describes(g, ModelOf(names), GroupOf(names, a))
  {
    hide ScanPorts, HashKey, ParseSpec, ModelOf, ChoiceAt, Describes;
    var m := ModelOf(names);
    var keys := KeysOf(m.ports);
    GroupsDescribe(m, keys, |keys|);
    assert MembersBelow(m, keys, |keys|, g.key) == GroupOf(names, a) by {
      forall k | k in GroupOf(names, a) ensures k in MembersBelow(m, keys, |keys|, g.key) {
        assert k in keys;
      }
      forall k | k in MembersBelow(m, keys, |keys|, g.key) ensures k in GroupOf(names, a) {
        assert k in keys;
      }
    }
  }

  /** In a sorted list a group with more members, or with as many and a smaller start, comes first. */
  lemma {:induction false} SortedPlaces(vals: seq<GroupVal>, i: nat, j: nat)
    requires i < |vals| && j < |vals| && Sorted(vals)
    requires vals[i].count > vals[j].count || (vals[i].count == vals[j].count && vals[i].min < vals[j].min)
    ensures i < j
  {
  }

  /** When numbers conflict, names of a larger group get the smaller numbers, and among groups of
      one size those of the group that starts first. */
  lemma {:induction false} LargerGroupsFirst(names: seq<string>, a: string, b: string)
    requires NamesDecide(names) && Accepted(names) && AfterScan(ModelOf(names)).conflict && a in names && b in names
    requires |GroupOf(names, a)| > |GroupOf(names, b)|
             || (|GroupOf(names, a)| == |GroupOf(names, b)| && StartsBefore(names, a, b))
    ensures RawNumber(names, a) < RawNumber(names, b)
  {
    hide AfterScan, HashKey, ParseSpec, ModelOf, RawNumber, Unshifted, DistinctKeys, SortSpec, WithOffsets, Sorted,
      OffsetOf, Accepted, NamesDecide, ChoiceAt, DecisionOn, GroupOf, StartsBefore, Describes, Compare;
    var i := RawNumberLands(names, a);
    var j := RawNumberLands(names, b);
    var g := Sized(names, a, i);
    var h := Sized(names, b, j);
    Ordered(names, a, b, g, h);
    ScanOfNames(names);
    SortSpecSorts(GroupsOf(names));
    FinalGroupsAre(GroupsOf(names));
    SortedPlaces(SortSpec(GroupsOf(names)), i, j);
  }

  /** The group a final group comes from describes the ports of its names. */
  lemma {:induction false} Sized(names: seq<string>, a: string, i: nat) returns (g: GroupVal)
    requires NamesDecide(names) && Accepted(names) && a in names
    requires i < |FinalGroups(names)| && Holds(FinalGroups(names)[i], DecisionOn(names, a))
    ensures |SortSpec(GroupsOf(names))| == |FinalGroups(names)| && g == SortSpec(GroupsOf(names))[i]
    ensures Describes(g, ModelOf(names), GroupOf(names, a))
  {
    hide AfterScan, HashKey, ParseSpec, ModelOf, Unshifted, DistinctKeys, SortSpec, WithOffsets, Sorted,
      Accepted, NamesDecide, ChoiceAt, DecisionOn, GroupOf, Describes;
    var sorted := SortSpec(GroupsOf(names));
    g := sorted[i];
    OffsetsKeepGroups(sorted, i);
    ScanOfNames(names);
    SortSpecSorts(GroupsOf(names));
    SameMembers(sorted, GroupsOf(names));
    GroupIsDescribed(names, a, g);
  }

  lemma {:induction false} Ordered(names: seq<string>, a: string, b: string, g: GroupVal, h: GroupVal)
    requires Describes(g, ModelOf(names), GroupOf(names, a)) && Describes(h, ModelOf(names), GroupOf(names, b))
    requires |GroupOf(names, a)| > |GroupOf(names, b)|
             || (|GroupOf(names, a)| == |GroupOf(names, b)| && StartsBefore(names, a, b))
    ensures g.count > h.count || (g.count == h.count && g.min < h.min)
  {
    hide ModelOf, ChoiceAt, DecisionOn, GroupOf;
    var m := ModelOf(names);
    if g.count == h.count {
      var k :| k in GroupOf(names, a) && forall l :: l in GroupOf(names, b) ==> WantedAt(m, k) < WantedAt(m, l);
      var l :| l in GroupOf(names, b) && ChoiceAt(m, l) == Numbered(h.min, h.key);
      assert WantedAt(m, k) < WantedAt(m, l);
    }
  }

  // ---------------------------------------------------------------- what is refused

  /** A name is accepted exactly if it has at most eight segments and one of them is a number. */
  lemma {:induction false} ParsedIff(name: string)
    ensures ParseSpec(name).Parsed? <==>
            |Tokens(name, 0)| <= 8 && exists k :: 0 <= k < |Tokens(name, 0)| && Tokens(name, 0)[k].num != -1
  {
    hide Tokens;
    HasNumberIff(Tokens(name, 0));
  }

  lemma {:induction false} HasNumberIff(ts: seq<Token>)
    ensures HasNumber(ts) <==> exists k :: 0 <= k < |ts| && ts[k].num != -1
  {
    if ts != [] {
      HasNumberIff(ts[..|ts| - 1]);
      assert forall k :: 0 <= k < |ts| - 1 ==> ts[..|ts| - 1][k] == ts[k];
    }
  }

  /** Processing is given up exactly when the number segment of a name is 65535 or more. */
  lemma {:induction false} GivenUpIff(names: seq<string>)
    requires NamesDecide(names)
    ensures AfterScan(ModelOf(names)).failed
            <==> exists a :: a in names && PickOf(names, a) < |SegmentsOf(a)| && SegmentsOf(a)[PickOf(names, a)].num >= 65535
  {
    hide ModelOf, HashKey, SegmentsOf, ParseSpec, PickIn, GroupKey, ScanPorts;
    var m := ModelOf(names);
    var keys := KeysOf(m.ports);
    RegisteredPorts(names);
    if AfterScan(m).failed && (forall k :: k in m.ports ==> !ChoiceAt(m, k).OutOfRange?) {
      NotGivenUp(m, keys, |keys|);
    }
    if AfterScan(m).failed {
      var k :| k in m.ports && ChoiceAt(m, k).OutOfRange?;
      var a :| a in names && k == HashKey(0, a);
      assert PickOf(names, a) < |SegmentsOf(a)|;
    } else {
      NumbersAreChoices(m, keys, |keys|);
      forall a | a in names ensures PickOf(names, a) < |SegmentsOf(a)| ==> SegmentsOf(a)[PickOf(names, a)].num < 65535 {
        assert HashKey(0, a) in keys;
      }
    }
  }

  /** A name that was not registered gets 0, unless its key is another name's. */
  lemma {:induction false} UnknownGetsZero(names: seq<string>, a: string)
    requires NamesDecide(names) && forall b :: b in names ==> HashKey(0, b) != HashKey(0, a)
    ensures NumberOf(names, a) == 0
  {
    hide HashKey, AfterScan, ModelOf, SegmentsOf;
    RegisteredPorts(names);
    var m := ModelOf(names);
    assert HashKey(0, a) in m.ports ==> IsKeyOf(names, HashKey(0, a));
  }
}
