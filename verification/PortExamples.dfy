/** Whole runs on two names whose numbers conflict. */
module PortExamples {
  import opened OrderedKeys
  import opened PortName
  import opened PortGroups
  import opened PortNumGen
  import opened PortOffsets
  import opened PortScan
  import opened PortUnique
  import opened PortTwins
  import opened PortLimits

  lemma {:induction false} TwoAscending(keys: seq<Key>, a: Key, b: Key)
    requires a < b && (forall k :: k in keys <==> k == a || k == b)
    requires forall i, j :: 0 <= i < j < |keys| ==> keys[i] < keys[j]
    ensures keys == [a, b]
  {
    assert a in keys && b in keys;
    var i :| 0 <= i < |keys| && keys[i] == a;
    var j :| 0 <= j < |keys| && keys[j] == b;
    assert keys[0] in keys && keys[|keys| - 1] in keys && keys[1] in keys;
  }

  lemma {:induction false} KeysOfTwo(a: string, b: string)
    requires NamesDecide([a, b]) && HashKey(0, a) < HashKey(0, b)
    ensures KeysOf(ModelOf([a, b]).ports) == [HashKey(0, a), HashKey(0, b)]
  {
    hide ModelOf, HashKey, SegmentsOf, SortedKeys, NamesDecide;
    RegisteredPorts([a, b]);
    var ports := ModelOf([a, b]).ports;
    assert a in [a, b] && b in [a, b];
    forall k | k in ports ensures k == HashKey(0, a) || k == HashKey(0, b) {
      assert IsKeyOf([a, b], k);
    }
    TwoAscending(KeysOf(ports), HashKey(0, a), HashKey(0, b));
  }

  lemma {:induction false} ScanTwo(m: Model, keys: seq<Key>)
    requires |keys| == 2 && Visits(m, keys) && !ScanPorts(m, keys, 2).failed
    requires ChoiceAt(m, keys[0]).Numbered? && ChoiceAt(m, keys[1]).Numbered?
    ensures var a, b := ChoiceAt(m, keys[0]), ChoiceAt(m, keys[1]);
            ScanPorts(m, keys, 2).groups == AddTo(AddTo([], a.groupKey, a.portNum), b.groupKey, b.portNum)
  {
    hide ChoiceAt, ScanPorts, AddTo;
    NothingScanned(m, keys);
    ScanStep(m, keys, 1);
    ScanStep(m, keys, 0);
  }

  function Alone(c: Choice): GroupVal
    requires c.Numbered?
  {
    GroupVal(c.groupKey, c.portNum, c.portNum, 1, 0)
  }

  /** Two names of different groups make a group each. */
  lemma {:induction false} GroupsOfTwo(a: string, b: string)
    requires NamesDecide([a, b]) && Accepted([a, b]) && HashKey(0, a) < HashKey(0, b)
    ensures var names := [a, b];
            && DecisionOn(names, a).Numbered? && DecisionOn(names, b).Numbered?
            && (DecisionOn(names, a).groupKey != DecisionOn(names, b).groupKey ==>
                  GroupsOf(names) == [Alone(DecisionOn(names, a)), Alone(DecisionOn(names, b))])
  {
    hide ModelOf, HashKey, ParseSpec, ScanPorts, ChoiceAt, AddTo, NamesDecide, Accepted, Visits;
    var names := [a, b];
    var m := ModelOf(names);
    assert a in names && b in names;
    AcceptedIsNumbered(names, a);
    AcceptedIsNumbered(names, b);
    KeysOfTwo(a, b);
    TwoAccepted(names);
    NotFailed(m, KeysOf(m.ports));
    ScanTwo(m, KeysOf(m.ports));
    if DecisionOn(names, a).groupKey != DecisionOn(names, b).groupKey {
      AddFirst(DecisionOn(names, a));
      AddSecond(Alone(DecisionOn(names, a)), Alone(DecisionOn(names, b)));
    }
  }

  lemma {:induction false} TwoAccepted(names: seq<string>)
    requires Accepted(names)
    ensures !AfterScan(ModelOf(names)).failed
  {
  }

  lemma {:induction false} AddFirst(c: Choice)
    requires c.Numbered?
    ensures AddTo([], c.groupKey, c.portNum) == [Alone(c)]
  {
  }

  /** Two groups of one port each: the smaller start comes first, or else the smaller key. */
  lemma {:induction false} FinalTwo(a: GroupVal, b: GroupVal)
    requires a.count == b.count && a.min == a.max && b.min == b.max && a.offset == 0 && b.offset == 0
    requires a.min < b.min || (a.min == b.min && a.key < b.key)
    requires b.min <= a.min + if a.min == 0 then 1 else 0
    ensures var o := if a.min == 0 then 1 else 0; var final := [a.(offset := o), b.(offset := a.min + o - b.min + 1)];
            WithOffsets(SortSpec([a, b])) == final && WithOffsets(SortSpec([b, a])) == final
  {
    hide SortSpec;
    SortTwo(a, b);
    FirstOffset([a]);
    WithOffsetsStep([a, b], 1);
    assert [a, b][..2] == [a, b] && WithOffsets([a])[0].offset == if a.min == 0 then 1 else 0;
  }

  lemma {:induction false} SortOne(g: GroupVal)
    ensures SortSpec([g]) == [g]
  {
    assert [g][..0] == [] && Inserted([], g) == [g];
  }

  lemma {:induction false} SortTwo(a: GroupVal, b: GroupVal)
    requires Compare(a, b) < 0
    ensures SortSpec([a, b]) == [a, b] && SortSpec([b, a]) == [a, b]
  {
    CompareIsTotalOrder(a, b, a);
    assert [a, b][..1] == [a] && [b, a][..1] == [b] && [a][..0] == [] && [b][..0] == [];
    SortOne(a);
    SortOne(b);
    assert Inserted([a], b) == [a, b];
    assert Inserted([], a) == [a] && Inserted([b], a) == [a, b];
  }

  /** A name's number in the group it is in. */
  lemma {:induction false} NumberInGroup(names: seq<string>, a: string, g: GroupVal, h: GroupVal)
    requires NamesDecide(names) && Accepted(names) && a in names && AfterScan(ModelOf(names)).conflict
    requires FinalGroups(names) == [g, h] || FinalGroups(names) == [h, g]
    requires g.key != h.key && DecisionOn(names, a).Numbered? && DecisionOn(names, a).groupKey == g.key
    ensures NumberOf(names, a) == (DecisionOn(names, a).portNum + g.offset) % 65536
  {
    hide ModelOf, AfterScan, HashKey, FinalGroups, RawNumber, NumberOf, DecisionOn, Accepted, NamesDecide, OffsetOf;
    var i := RawNumberLands(names, a);
    assert FinalGroups(names)[i].key == g.key;
    NumberIsCut(names, a);
  }

  // ---------------------------------------------------------------- numbers followed by letters

  const ONE_A := "1a"
  const ONE_B := "1b"
  const SUFFIXED := [ONE_A, ONE_B]

  lemma {:induction false} NumberAndLetter(name: string)
    requires |name| == 2 && Class(name[0]) == Digit && Class(name[1]) == Letter
    ensures Tokens(name, 0) == [Token(name[..1], name[0] as int - '0' as int, false), Token(name[1..], -1, false)]
  {
    RunEndIs(name, 0, Digit, 1);
    RunEndIs(name, 1, Letter, 2);
    assert RunEnd(name, 1, Separator) == 1 && RunEnd(name, 2, Separator) == 2;
    assert name[0..1] == name[..1] && name[1..2] == name[1..];
    assert Decimal(name, 0, 0) == 0 && Decimal(name, 0, 1) == name[0] as int - '0' as int;
    assert Tokens(name, 2) == [] && Tokens(name, 1) == [Token(name[1..], -1, false)];
  }

  lemma {:induction false} SuffixedTokens()
    ensures Tokens(ONE_A, 0) == [Token("1", 1, false), Token("a", -1, false)]
    ensures Tokens(ONE_B, 0) == [Token("1", 1, false), Token("b", -1, false)]
  {
    NumberAndLetter(ONE_A);
    NumberAndLetter(ONE_B);
    assert ONE_A[..1] == "1" && ONE_B[..1] == "1" && ONE_A[1..] == "a" && ONE_B[1..] == "b";
  }

  lemma {:induction false} SuffixedKeys()
    ensures HashKey(2, "a") == 177736 && HashKey(2, "b") == 177737
    ensures HashKey(0, ONE_A) == 5861623 && HashKey(0, ONE_B) == 5861624
  {
    assert "a"[..0] == "" && "b"[..0] == "" && "1"[..0] == "" && ONE_A[..1] == "1" && ONE_B[..1] == "1";
    assert HashFrom(5381, "") == 5381 && HashFrom(5383, "") == 5383 && HashFrom(5381, "1") == 177622;
  }

  lemma {:induction false} NumberLetterChoice(name: string, counts: map<Key, nat>, letter: string, num: nat)
    requires |Tokens(name, 0)| == 2 && Tokens(name, 0)[1] == Token(letter, -1, false)
    requires Tokens(name, 0)[0].num == num < MAX_PORT_NUM
    requires Counts(counts, SegmentsOf(name))
    ensures ParseSpec(name).Parsed? && ChoiceOf(SegmentsOf(name), counts) == Numbered(num, HashKey(2, letter))
  {
    hide HashKey, Tokens;
    var ts := Tokens(name, 0);
    assert ts[..1][..0] == [] && HasNumber(ts[..1]) && HasNumber(ts);
    var segs := SegmentsOf(name);
    assert PickIn(segs, counts, 1) == 0 && PickIn(segs, counts, 2) == 0;
    assert GroupKey(segs, 0, 1) == 0 && GroupKey(segs, 0, 2) == segs[1].key;
  }

  lemma {:induction false} SuffixedDecisions()
    ensures NamesDecide(SUFFIXED) && Accepted(SUFFIXED)
    ensures DecisionOn(SUFFIXED, ONE_A) == Numbered(1, 177736) && DecisionOn(SUFFIXED, ONE_B) == Numbered(1, 177737)
  {
    SuffixedTokens();
    SuffixedKeys();
    hide ModelOf, ScanPorts, HashKey, Tokens, ChoiceOf, SegmentsOf, ParseSpec;
    RegisteredPorts(SUFFIXED);
    RegisteredCounts(SUFFIXED);
    var m := ModelOf(SUFFIXED);
    NumberLetterChoice(ONE_A, m.counts, "a", 1);
    NumberLetterChoice(ONE_B, m.counts, "b", 1);
    PortsInRange(SUFFIXED);
  }

  /** 1a and 1b want number 1; the group of b, with the larger key, is shifted to 2. */
  lemma {:induction false} SuffixesDecide()
    ensures NumberOf(["1a", "1b"], "1a") == 1 && NumberOf(["1a", "1b"], "1b") == 2
  {
    hide ModelOf, AfterScan, HashKey, FinalGroups, RawNumber, NumberOf, DecisionOn, Accepted, NamesDecide, OffsetOf, WithOffsets, SortSpec;
    SuffixedDecisions();
    SuffixedKeys();
    TwoConflict(ONE_A, ONE_B);
    GroupsOfTwo(ONE_A, ONE_B);
    FinalTwo(Alone(DecisionOn(SUFFIXED, ONE_A)), Alone(DecisionOn(SUFFIXED, ONE_B)));
    FinalGroupsOf(SUFFIXED);
    var g, h := FinalGroups(SUFFIXED)[0], FinalGroups(SUFFIXED)[1];
    assert ONE_A in SUFFIXED && ONE_B in SUFFIXED;
    NumberInGroup(SUFFIXED, ONE_A, g, h);
    NumberInGroup(SUFFIXED, ONE_B, h, g);
  }

  lemma {:induction false} FinalGroupsOf(names: seq<string>)
    ensures FinalGroups(names) == WithOffsets(SortSpec(GroupsOf(names)))
  {
  }

  /** Two names that want one number, or one that wants zero, are a conflict. */
  lemma {:induction false} TwoConflict(a: string, b: string)
    requires NamesDecide([a, b]) && Accepted([a, b]) && HashKey(0, a) < HashKey(0, b)
    requires DecisionOn([a, b], a).Numbered? && DecisionOn([a, b], b).Numbered?
    requires DecisionOn([a, b], a).portNum == DecisionOn([a, b], b).portNum || DecisionOn([a, b], b).portNum == 0
    ensures AfterScan(ModelOf([a, b])).conflict
  {
    hide ModelOf, AfterScan, HashKey, Accepted, NamesDecide, ChoiceAt;
    ScanOfNames([a, b]);
    KeysOfTwo(a, b);
    var keys := KeysOf(ModelOf([a, b]).ports);
    assert keys[0] == HashKey(0, a) && keys[1] == HashKey(0, b);
  }

  // ---------------------------------------------------------------- a number zero

  const A_ONE := "a1"
  const B_ZERO := "b0"
  const ZEROED := [A_ONE, B_ZERO]

  lemma {:induction false} ZeroedTokens()
    ensures Tokens(A_ONE, 0) == [Token("a", -1, false), Token("1", 1, false)]
    ensures Tokens(B_ZERO, 0) == [Token("b", -1, false), Token("0", 0, false)]
  {
    LetterAndNumber(A_ONE);
    LetterAndNumber(B_ZERO);
    assert Decimal(A_ONE, 1, 1) == 0 && Decimal(A_ONE, 1, 2) == 1 && A_ONE[..1] == "a" && A_ONE[1..] == "1";
    assert Decimal(B_ZERO, 1, 1) == 0 && Decimal(B_ZERO, 1, 2) == 0 && B_ZERO[..1] == "b" && B_ZERO[1..] == "0";
  }

  lemma {:induction false} ZeroedKeys()
    ensures HashKey(0, A_ONE) == 5863159 && HashKey(0, B_ZERO) == 5863191
  {
    assert "a"[..0] == "" && "b"[..0] == "" && A_ONE[..1] == "a" && B_ZERO[..1] == "b";
    assert HashFrom(5381, "") == 5381 && HashFrom(5381, "a") == 177670 && HashFrom(5381, "b") == 177671;
  }

  lemma {:induction false} ZeroedDecisions()
    ensures NamesDecide(ZEROED) && Accepted(ZEROED)
    ensures DecisionOn(ZEROED, A_ONE) == Numbered(1, 177703) && DecisionOn(ZEROED, B_ZERO) == Numbered(0, 177704)
  {
    ZeroedTokens();
    ZeroedKeys();
    LowKeys();
    hide ModelOf, ScanPorts, HashKey, Tokens, ChoiceOf, SegmentsOf, ParseSpec;
    RegisteredPorts(ZEROED);
    RegisteredCounts(ZEROED);
    var m := ModelOf(ZEROED);
    LetterNumberChoice(A_ONE, m.counts, "a", 1);
    LetterNumberChoice(B_ZERO, m.counts, "b", 0);
    PortsInRange(ZEROED);
  }

  /** b0 cannot have number 0: its group, which starts first, is shifted to 1 and the other to 2. */
  lemma {:induction false} ZeroIsShifted()
    ensures NumberOf(["a1", "b0"], "b0") == 1 && NumberOf(["a1", "b0"], "a1") == 2
  {
    hide ModelOf, AfterScan, HashKey, FinalGroups, RawNumber, NumberOf, DecisionOn, Accepted, NamesDecide, OffsetOf, WithOffsets, SortSpec;
    ZeroedDecisions();
    ZeroedKeys();
    TwoConflict(A_ONE, B_ZERO);
    GroupsOfTwo(A_ONE, B_ZERO);
    FinalTwo(Alone(DecisionOn(ZEROED, B_ZERO)), Alone(DecisionOn(ZEROED, A_ONE)));
    FinalGroupsOf(ZEROED);
    var g, h := FinalGroups(ZEROED)[0], FinalGroups(ZEROED)[1];
    assert A_ONE in ZEROED && B_ZERO in ZEROED;
    NumberInGroup(ZEROED, A_ONE, h, g);
    NumberInGroup(ZEROED, B_ZERO, g, h);
  }

  /** A char above 127 counts as a negative number. */
  lemma {:induction false} CharsAreSigned()
    ensures HashKey(0, [200 as char]) == 5381 * 33 - 56
  {
    assert [200 as char][..0] == [] && HashFrom(5381, []) == 5381;
  }

  /** Where runs of digits and letters begin and end in the character set. */
  lemma BoundaryCharacters()
    ensures Class('0') == Digit && Class('9') == Digit && Class('/') == Separator && Class(':') == Separator
    ensures Class('A') == Letter && Class('Z') == Letter && Class('@') == Separator && Class('[') == Separator
    ensures Class('a') == Letter && Class('z') == Letter && Class('`') == Separator && Class('{') == Separator
  {
  }
}
