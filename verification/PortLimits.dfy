/** Where the uniqueness of port numbers ends: two concrete registrations that break it. */
module PortLimits {
  import opened OrderedKeys
  import opened PortName
  import opened PortGroups
  import opened PortNumGen
  import opened PortOffsets
  import opened PortScan
  import opened PortUnique
  import opened PortTwins
  import opened PortWeights
  import opened PortOrder

  const DOUBLED := "a1//"
  const SPLIT := "a1/1"

  lemma {:induction false} TokensOfDoubled()
    ensures Tokens(DOUBLED, 0) == [Token("a", -1, false), Token("1", 1, false), Token("1/", 1, true)]
  {
    assert RunEnd(DOUBLED, 0, Letter) == 1 && RunEnd(DOUBLED, 1, Separator) == 1;
    assert RunEnd(DOUBLED, 1, Digit) == 2 && RunEnd(DOUBLED, 2, Separator) == 4;
    assert DOUBLED[0..1] == "a" && DOUBLED[1..2] == "1" && DOUBLED[1..3] == "1/";
    assert Decimal(DOUBLED, 1, 1) == 0 && Decimal(DOUBLED, 1, 2) == 1;
    assert Repeats(DOUBLED, 1, 4, 4, 1) == [] && Repeats(DOUBLED, 1, 3, 4, 1) == [Token("1/", 1, true)];
    assert Tokens(DOUBLED, 4) == [];
    assert Tokens(DOUBLED, 1) == [Token("1", 1, false), Token("1/", 1, true)];
    assert Repeats(DOUBLED, 0, 2, 1, -1) == [];
  }

  lemma {:induction false} TokensOfSplit()
    ensures Tokens(SPLIT, 0) == [Token("a", -1, false), Token("1", 1, false), Token("1", 1, false)]
  {
    assert RunEnd(SPLIT, 0, Letter) == 1 && RunEnd(SPLIT, 1, Separator) == 1;
    assert RunEnd(SPLIT, 1, Digit) == 2 && RunEnd(SPLIT, 2, Separator) == 3;
    assert RunEnd(SPLIT, 3, Digit) == 4 && RunEnd(SPLIT, 4, Separator) == 4;
    assert SPLIT[0..1] == "a" && SPLIT[1..2] == "1" && SPLIT[3..4] == "1";
    assert Decimal(SPLIT, 1, 1) == 0 && Decimal(SPLIT, 1, 2) == 1;
    assert Decimal(SPLIT, 3, 3) == 0 && Decimal(SPLIT, 3, 4) == 1;
    assert Tokens(SPLIT, 3) == [Token("1", 1, false)];
    assert Tokens(SPLIT, 1) == [Token("1", 1, false), Token("1", 1, false)];
    assert Repeats(SPLIT, 0, 2, 1, -1) == [];
  }

  lemma {:induction false} Keys()
    ensures HashKey(1, "a") == 177703 && HashKey(2, "1") == 177688 && HashKey(3, "1") == 177721 && HashKey(3, "1/") == 5864840
  {
    assert "a"[..0] == "" && "1"[..0] == "" && "1/"[..1] == "1";
    assert HashFrom(5382, "") == 5382 && HashFrom(5383, "") == 5383 && HashFrom(5384, "") == 5384;
    assert HashFrom(5384, "1") == 177721;
  }

  lemma {:induction false} NameKeys()
    ensures HashKey(0, DOUBLED) != HashKey(0, SPLIT)
  {
    assert "a"[..0] == "" && "a1"[..1] == "a" && "a1/"[..2] == "a1" && DOUBLED[..3] == "a1/" && SPLIT[..3] == "a1/";
    assert HashFrom(5381, "") == 5381 && HashFrom(5381, "a") == 177670 && HashFrom(5381, "a1") == 5863159;
    assert HashFrom(5381, "a1/") == 193484294;
  }

  const PAIR := [DOUBLED, SPLIT]

  lemma {:induction false} SegmentsOfPair()
    ensures forall a :: a in PAIR ==> ParseSpec(a).Parsed?
    ensures SegmentsOf(DOUBLED) == [Seg(177703, -1), Seg(177688, 1), Seg(5864840, 1)]
    ensures SegmentsOf(SPLIT) == [Seg(177703, -1), Seg(177688, 1), Seg(177721, 1)]
  {
    TokensOfDoubled();
    TokensOfSplit();
    Keys();
    hide HashKey, Tokens;
    assert Tokens(DOUBLED, 0)[2].num == 1 && Tokens(SPLIT, 0)[2].num == 1;
  }

  lemma {:induction false} OccursInThree(a: Seg, b: Seg, c: Seg, key: Key)
    ensures Occurs([a, b, c], key) ==
              (if a.key == key then 1 else 0) + (if b.key == key then 1 else 0) + (if c.key == key then 1 else 0)
  {
    assert [a, b, c][..2] == [a, b] && [a, b][..1] == [a] && [a][..0] == [];
    assert Occurs([], key) == 0;
    assert Occurs([a], key) == if a.key == key then 1 else 0;
  }

  lemma {:induction false} PairCounts(key: Key)
    requires key in {177688, 5864840, 177721}
    ensures key in ModelOf(PAIR).counts && ModelOf(PAIR).counts[key] == if key == 177688 then 2 else 1
  {
    hide HashKey, Tokens, ModelOf, SegmentsOf, Occurs;
    SegmentsOfPair();
    OccursInThree(Seg(177703, -1), Seg(177688, 1), Seg(5864840, 1), key);
    OccursInThree(Seg(177703, -1), Seg(177688, 1), Seg(177721, 1), key);
    assert PAIR[..1] == [DOUBLED] && [DOUBLED][..0] == [];
    assert Total([], key) == 0;
    assert Total([DOUBLED], key) == Occurs(SegmentsOf(DOUBLED), key);
    CountsAreTotals(PAIR, key);
  }

  lemma {:induction false} PickTheThird(segs: Segments, counts: map<Key, nat>)
    requires |segs| == 3 && segs[0].num == -1 && segs[1].num == 1 && segs[2].num == 1
    requires segs[1].key in counts && segs[2].key in counts && counts[segs[2].key] <= counts[segs[1].key]
    ensures ChoiceOf(segs, counts) == Numbered(1, GroupKey(segs, 2, 3))
  {
    hide GroupKey;
    assert PickIn(segs, counts, 1) == NO_INDEX;
    assert PickIn(segs, counts, 2) == 1;
    assert PickIn(segs, counts, 3) == 2;
  }

  lemma {:induction false} NotGivenUp(m: Model, keys: seq<Key>, n: nat)
    requires n <= |keys| && Visits(m, keys) && forall k :: k in m.ports ==> !ChoiceAt(m, k).OutOfRange?
    ensures !ScanPorts(m, keys, n).failed
  {
    hide ChoiceAt, AddTo;
    if n > 0 {
      NotGivenUp(m, keys, n - 1);
      ScanOne(m, keys, n - 1);
    }
  }

  lemma {:induction false} ScanOne(m: Model, keys: seq<Key>, n: nat)
    requires n < |keys| && Visits(m, keys) && !ScanPorts(m, keys, n).failed
    ensures ScanPorts(m, keys, n + 1) == ScanPort(ScanPorts(m, keys, n), keys[n], ChoiceAt(m, keys[n]))
  {
    hide ChoiceOf;
  }

  /** With adjacent separators, names that do not read the same can share a number. */
  lemma {:induction false} AdjacentSeparatorsCollide()
    ensures Accepted(PAIR) && NamesDecide(PAIR) && Skeleton(DOUBLED) != Skeleton(SPLIT)
    ensures NumberOf(PAIR, DOUBLED) == NumberOf(PAIR, SPLIT)
  {
    hide ModelOf, GroupKey, ScanPorts, HashKey, ParseSpec, ChoiceOf, RawNumber, NumberOf, SegmentsOf, Tokens;
    NameKeys();
    SegmentsOfPair();
    PairCounts(177688);
    PairCounts(5864840);
    PairCounts(177721);
    RegisteredPorts(PAIR);
    var m := ModelOf(PAIR);
    PickTheThird(SegmentsOf(DOUBLED), m.counts);
    PickTheThird(SegmentsOf(SPLIT), m.counts);
    SameOthersSameKey(SegmentsOf(DOUBLED), SegmentsOf(SPLIT), 2, 3);
    assert DOUBLED in PAIR && SPLIT in PAIR;
    PortsInRange(PAIR);
    SameNumberIff(PAIR, DOUBLED, SPLIT);
    NumberIsCut(PAIR, DOUBLED);
    NumberIsCut(PAIR, SPLIT);
    PairReadsApart();
  }

  lemma {:induction false} PairReadsApart()
    ensures Skeleton(DOUBLED) != Skeleton(SPLIT)
  {
    TokensOfDoubled();
    TokensOfSplit();
    hide Tokens;
    var s := Tokens(DOUBLED, 0);
    assert Pieces(s) == Pieces(s[..2]) && |Pieces(s[..2])| == 2;
  }

  // ---------------------------------------------------------------- sixteen bits

  lemma {:induction false} LetterAndNumber(name: string)
    requires |name| >= 2 && Class(name[0]) == Letter && forall k :: 1 <= k < |name| ==> Class(name[k]) == Digit
    ensures Tokens(name, 0) == [Token(name[..1], -1, false), Token(name[1..], Decimal(name, 1, |name|), false)]
  {
    RunEndIs(name, 0, Letter, 1);
    RunEndIs(name, 1, Digit, |name|);
    assert RunEnd(name, 1, Separator) == 1 && RunEnd(name, |name|, Separator) == |name|;
    assert name[0..1] == name[..1] && name[1..|name|] == name[1..];
    assert Tokens(name, |name|) == [];
    assert Tokens(name, 1) == [Token(name[1..], Decimal(name, 1, |name|), false)];
  }

  const A_LOW := "a0"
  const A_HIGH := "a65534"
  const B_ONE := "b1"
  const WIDE := [A_LOW, A_HIGH, B_ONE]

  lemma {:induction false} LowTokens()
    ensures Tokens(A_LOW, 0) == [Token("a", -1, false), Token("0", 0, false)]
  {
    LetterAndNumber(A_LOW);
    assert Decimal(A_LOW, 1, 1) == 0 && Decimal(A_LOW, 1, 2) == 0 && A_LOW[..1] == "a" && A_LOW[1..] == "0";
  }

  lemma {:induction false} HighTokens()
    ensures Tokens(A_HIGH, 0) == [Token("a", -1, false), Token("65534", 65534, false)]
  {
    LetterAndNumber(A_HIGH);
    hide Tokens;
    assert Decimal(A_HIGH, 1, 1) == 0 && Decimal(A_HIGH, 1, 2) == 6 && Decimal(A_HIGH, 1, 3) == 65;
    assert Decimal(A_HIGH, 1, 4) == 655 && Decimal(A_HIGH, 1, 5) == 6553 && Decimal(A_HIGH, 1, 6) == 65534;
    assert A_HIGH[..1] == "a" && A_HIGH[1..] == "65534";
  }

  lemma {:induction false} OneTokens()
    ensures Tokens(B_ONE, 0) == [Token("b", -1, false), Token("1", 1, false)]
  {
    LetterAndNumber(B_ONE);
    assert Decimal(B_ONE, 1, 1) == 0 && Decimal(B_ONE, 1, 2) == 1 && B_ONE[..1] == "b" && B_ONE[1..] == "1";
  }

  lemma {:induction false} LowKeys()
    ensures HashKey(1, "a") == 177703 && HashKey(1, "b") == 177704
    ensures HashKey(0, A_LOW) == 5863158 && HashKey(0, B_ONE) == 5863192
  {
    assert "a"[..0] == "" && "b"[..0] == "" && A_LOW[..1] == "a" && B_ONE[..1] == "b";
    assert HashFrom(5382, "") == 5382 && HashFrom(5381, "") == 5381;
    assert HashFrom(5381, "a") == 177670 && HashFrom(5381, "b") == 177671;
  }

  lemma {:induction false} HighKey()
    ensures HashKey(0, A_HIGH) == 6953251278157
  {
    assert A_HIGH[..5] == "a6553" && "a6553"[..4] == "a655" && "a655"[..3] == "a65" && "a65"[..2] == "a6" && "a6"[..1] == "a";
    assert "a"[..0] == "" && HashFrom(5381, "") == 5381 && HashFrom(5381, "a") == 177670;
    assert HashFrom(5381, "a6") == 5863164 && HashFrom(5381, "a65") == 193484465;
    assert HashFrom(5381, "a655") == 6384987398 && HashFrom(5381, "a6553") == 210704584185;
  }

  lemma {:induction false} LetterNumberChoice(name: string, counts: map<Key, nat>, letter: string, num: nat)
    requires |Tokens(name, 0)| == 2 && Tokens(name, 0)[0] == Token(letter, -1, false)
    requires Tokens(name, 0)[1].num == num < MAX_PORT_NUM
    requires Counts(counts, SegmentsOf(name))
    ensures ParseSpec(name).Parsed? && ChoiceOf(SegmentsOf(name), counts) == Numbered(num, HashKey(1, letter))
  {
    hide HashKey, Tokens;
    var ts := Tokens(name, 0);
    assert HasNumber(ts);
    var segs := SegmentsOf(name);
    assert PickIn(segs, counts, 1) == NO_INDEX && PickIn(segs, counts, 2) == 1;
    assert GroupKey(segs, 1, 0) == 0 && GroupKey(segs, 1, 1) == segs[0].key;
  }

  lemma {:induction false} WideDecisions()
    ensures NamesDecide(WIDE) && Accepted(WIDE)
    ensures DecisionOn(WIDE, A_LOW) == Numbered(0, 177703) && DecisionOn(WIDE, A_HIGH) == Numbered(65534, 177703)
    ensures DecisionOn(WIDE, B_ONE) == Numbered(1, 177704)
  {
    LowTokens();
    HighTokens();
    OneTokens();
    LowKeys();
    HighKey();
    hide ModelOf, ScanPorts, HashKey, Tokens, ChoiceOf, SegmentsOf, ParseSpec;
    RegisteredPorts(WIDE);
    RegisteredCounts(WIDE);
    var m := ModelOf(WIDE);
    LetterNumberChoice(A_LOW, m.counts, "a", 0);
    LetterNumberChoice(A_HIGH, m.counts, "a", 65534);
    LetterNumberChoice(B_ONE, m.counts, "b", 1);
    PortsInRange(WIDE);
  }

  /** Processing is not given up when every name's number is in range. */
  lemma {:induction false} PortsInRange(names: seq<string>)
    requires NamesDecide(names)
    requires forall a :: a in names ==> !ChoiceOf(SegmentsOf(a), ModelOf(names).counts).OutOfRange?
    ensures !AfterScan(ModelOf(names)).failed
  {
    hide ModelOf, ScanPorts, HashKey, ChoiceOf, SegmentsOf, ParseSpec;
    var m := ModelOf(names);
    RegisteredPorts(names);
    forall k | k in m.ports ensures !ChoiceAt(m, k).OutOfRange? {
      var a :| a in names && k == HashKey(0, a);
    }
    NotGivenUp(m, KeysOf(m.ports), |KeysOf(m.ports)|);
  }

  /** Two groups can need a number that 16 bits do not hold: b1 lands on 65536, which is cut to 0. */
  lemma {:induction false} NumbersRunOut()
    ensures NamesDecide(WIDE) && Accepted(WIDE) && !Fits(WIDE)
    ensures RawNumber(WIDE, B_ONE) == 65536 && NumberOf(WIDE, B_ONE) == 0 && !Unique(WIDE)
  {
    hide ModelOf, AfterScan, HashKey, FinalGroups, RawNumber, NumberOf, DecisionOn, Accepted, OffsetOf;
    WideDecisions();
    WideConflicts();
    WideFinal();
    var k := RawNumberLands(WIDE, B_ONE);
    NumberIsCut(WIDE, B_ONE);
    assert B_ONE in WIDE;
  }

  lemma {:induction false} WideConflicts()
    ensures NamesDecide(WIDE) && Accepted(WIDE) && AfterScan(ModelOf(WIDE)).conflict
  {
    hide ModelOf, AfterScan, HashKey, Accepted;
    WideDecisions();
    ScanOfNames(WIDE);
    AcceptedIsNumbered(WIDE, A_LOW);
    assert HashKey(0, A_LOW) in KeysOf(ModelOf(WIDE).ports);
  }

  /** Three different keys in ascending order. */
  lemma {:induction false} ThreeAscending(keys: seq<Key>, a: Key, b: Key, c: Key)
    requires a < b < c && (forall k :: k in keys <==> k == a || k == b || k == c)
    requires forall i, j :: 0 <= i < j < |keys| ==> keys[i] < keys[j]
    ensures keys == [a, b, c]
  {
    assert a in keys && b in keys && c in keys;
    var i :| 0 <= i < |keys| && keys[i] == a;
    var j :| 0 <= j < |keys| && keys[j] == b;
    var k :| 0 <= k < |keys| && keys[k] == c;
    assert keys[0] in keys && keys[|keys| - 1] in keys;
    assert i == 0 && k == |keys| - 1;
    assert keys[1] in keys && keys[j + 1] in keys;
    assert j == 1 && k == 2;
  }

  lemma {:induction false} WideKeys()
    ensures KeysOf(ModelOf(WIDE).ports) == [5863158, 5863192, 6953251278157]
  {
    hide ModelOf, HashKey, SegmentsOf, SortedKeys, Accepted, DecisionOn;
    WideDecisions();
    LowKeys();
    HighKey();
    RegisteredPorts(WIDE);
    var ports := ModelOf(WIDE).ports;
    assert A_LOW in WIDE && A_HIGH in WIDE && B_ONE in WIDE;
    forall k | k in ports
      ensures k == 5863158 || k == 5863192 || k == 6953251278157
    {
      var a :| a in WIDE && k == HashKey(0, a);
    }
    ThreeAscending(KeysOf(ports), 5863158, 5863192, 6953251278157);
  }

  lemma {:induction false} ScanThree(m: Model, keys: seq<Key>)
    requires |keys| == 3 && Visits(m, keys) && !ScanPorts(m, keys, 3).failed
    requires ChoiceAt(m, keys[0]).Numbered? && ChoiceAt(m, keys[1]).Numbered? && ChoiceAt(m, keys[2]).Numbered?
    ensures var a, b, c := ChoiceAt(m, keys[0]), ChoiceAt(m, keys[1]), ChoiceAt(m, keys[2]);
            ScanPorts(m, keys, 3).groups
            == AddTo(AddTo(AddTo([], a.groupKey, a.portNum), b.groupKey, b.portNum), c.groupKey, c.portNum)
  {
    hide ChoiceAt, ScanPorts, AddTo;
    NothingScanned(m, keys);
    ScanStep(m, keys, 2);
    ScanStep(m, keys, 1);
    ScanStep(m, keys, 0);
  }

  lemma {:induction false} WideGroups()
    ensures GroupsOf(WIDE) == [GroupVal(177703, 0, 65534, 2, 0), GroupVal(177704, 1, 1, 1, 0)]
  {
    hide ModelOf, HashKey, KeysOf, ChoiceAt, ScanPorts, AfterScan, Accepted, AddTo, Visits;
    WideDecisions();
    LowKeys();
    HighKey();
    WideKeys();
    var m := ModelOf(WIDE);
    var keys := KeysOf(m.ports);
    WideAccepted();
    NotFailed(m, keys);
    ScanThree(m, keys);
    AddThree();
  }

  lemma {:induction false} WideAccepted()
    ensures !AfterScan(ModelOf(WIDE)).failed
  {
    WideDecisions();
  }

  lemma {:induction false} AddThree()
    ensures AddTo(AddTo(AddTo([], 177703, 0), 177704, 1), 177703, 65534)
            == [GroupVal(177703, 0, 65534, 2, 0), GroupVal(177704, 1, 1, 1, 0)]
  {
    var a, b := GroupVal(177703, 0, 0, 1, 0), GroupVal(177704, 1, 1, 1, 0);
    assert AddTo([], 177703, 0) == [a];
    AddSecond(a, b);
    assert [a, b][1..] == [b];
  }

  lemma {:induction false} AddSecond(a: GroupVal, b: GroupVal)
    requires a.key != b.key && b.min == b.max && b.count == 1 && b.offset == 0
    ensures AddTo([a], b.key, b.min) == [a, b]
  {
    assert [a][1..] == [] && AddTo([], b.key, b.min) == [b];
  }

  lemma {:induction false} NotFailed(m: Model, keys: seq<Key>)
    requires keys == KeysOf(m.ports) && !AfterScan(m).failed
    ensures !ScanPorts(m, keys, |keys|).failed && Visits(m, keys) && AfterScan(m) == ScanPorts(m, keys, |keys|)
  {
  }

  lemma {:induction false} WideFinal()
    ensures FinalGroups(WIDE) == [GroupVal(177703, 0, 65534, 2, 1), GroupVal(177704, 1, 1, 1, 65535)]
  {
    hide ModelOf, AfterScan;
    WideGroups();
    var a, b := GroupVal(177703, 0, 65534, 2, 0), GroupVal(177704, 1, 1, 1, 0);
    assert [a, b][..1] == [a] && [a][..0] == [];
    assert SortSpec([a]) == [a] && SortSpec([a, b]) == [a, b];
    FirstOffset([a]);
    WithOffsetsStep([a, b], 1);
    assert [a, b][..2] == [a, b];
  }

  // ---------------------------------------------------------------- all conditions together

  const ONE := "1"
  const TWO := "2"
  const BOTH := [ONE, TWO]

  lemma {:induction false} OneDigit(name: string, num: int)
    requires |name| == 1 && Class(name[0]) == Digit && num == name[0] as int - '0' as int
    ensures Tokens(name, 0) == [Token(name, num, false)]
    ensures ParseSpec(name) == Parsed([Seg(HashKey(1, name), num)]) && NoAdjacentSeparators(name)
  {
    hide HashKey;
    RunEndIs(name, 0, Digit, 1);
    assert RunEnd(name, 1, Separator) == 1 && name[0..1] == name;
    assert Decimal(name, 0, 0) == 0 && Decimal(name, 0, 1) == num;
    assert Tokens(name, 1) == [] && Repeats(name, 0, 2, 1, num) == [];
  }

  lemma {:induction false} DigitKeys()
    ensures HashKey(0, ONE) == 177622 && HashKey(0, TWO) == 177623 && HashKey(1, ONE) == 177655 && HashKey(1, TWO) == 177656
  {
    assert ONE[..0] == "" && TWO[..0] == "" && HashFrom(5381, "") == 5381 && HashFrom(5382, "") == 5382;
  }

  lemma {:induction false} OneDigitChoice(name: string, num: nat, counts: map<Key, nat>)
    requires ParseSpec(name) == Parsed([Seg(HashKey(1, name), num)]) && Counts(counts, SegmentsOf(name)) && num < MAX_PORT_NUM
    ensures PickIn(SegmentsOf(name), counts, 1) == 0 && ChoiceOf(SegmentsOf(name), counts) == Numbered(num, 0)
  {
    hide HashKey, ParseSpec;
    var segs := SegmentsOf(name);
    assert segs == [Seg(HashKey(1, name), num)];
    assert PickIn(segs, counts, 1) == 0;
    assert GroupKey(segs, 0, 1) == 0;
  }

  lemma {:induction false} BothDecided()
    ensures NamesDecide(BOTH) && Accepted(BOTH) && PickOf(BOTH, ONE) == 0 && PickOf(BOTH, TWO) == 0
    ensures DecisionOn(BOTH, ONE) == Numbered(1, 0) && DecisionOn(BOTH, TWO) == Numbered(2, 0)
    ensures SegmentsOf(ONE) == [Seg(HashKey(1, ONE), 1)] && SegmentsOf(TWO) == [Seg(HashKey(1, TWO), 2)]
  {
    hide HashKey, Tokens, ModelOf, AfterScan, ParseSpec, ChoiceOf, DecisionOn;
    OneDigit(ONE, 1);
    OneDigit(TWO, 2);
    DigitKeys();
    assert ONE in BOTH && TWO in BOTH;
    RegisteredCounts(BOTH);
    OneDigitChoice(ONE, 1, ModelOf(BOTH).counts);
    OneDigitChoice(TWO, 2, ModelOf(BOTH).counts);
    PortsInRange(BOTH);
    AcceptedIsNumbered(BOTH, ONE);
    AcceptedIsNumbered(BOTH, TWO);
  }

  lemma {:induction false} BothCollideNowhere()
    ensures SegmentsDecide(BOTH) && GroupsDecide(BOTH)
  {
    hide HashKey, Tokens, PickOf, ParseSpec, GroupKey, Weight, Accepted, NamesDecide, SegmentsOf, DecisionOn, KeysIn;
    OneDigit(ONE, 1);
    OneDigit(TWO, 2);
    DigitKeys();
    BothDecided();
    NoOthers(HashKey(1, ONE), 1);
    NoOthers(HashKey(1, TWO), 2);
  }

  lemma {:induction false} NoOthers(key: Key, num: int)
    ensures Others([Seg(key, num)], 0) == []
  {
    assert [Seg(key, num)][..0] + [Seg(key, num)][1..] == [];
  }

  lemma {:induction false} BothReadApart()
    ensures ReadApart(BOTH)
  {
    hide Tokens, ParseSpec, Pieces, NoAdjacentSeparators;
    OneDigit(ONE, 1);
    OneDigit(TWO, 2);
    assert Pieces(Tokens(ONE, 0)) == [Number(1)] && Pieces(Tokens(TWO, 0)) == [Number(2)];
  }

  lemma {:induction false} BothFree()
    ensures !AfterScan(ModelOf(BOTH)).conflict
  {
    hide HashKey, ModelOf, AfterScan, Accepted, ChoiceAt, SegmentsOf, PickOf;
    BothDecided();
    RegisteredPorts(BOTH);
    ScanOfNames(BOTH);
    var m := ModelOf(BOTH);
    var keys := KeysOf(m.ports);
    forall i | 0 <= i < |keys|
      ensures (keys[i] == HashKey(0, ONE) && ChoiceAt(m, keys[i]) == Numbered(1, 0))
              || (keys[i] == HashKey(0, TWO) && ChoiceAt(m, keys[i]) == Numbered(2, 0))
    {
      assert keys[i] in m.ports;
      assert IsKeyOf(BOTH, keys[i]);
    }
  }

  /** Two plain names meet every condition of the uniqueness theorem. */
  lemma {:induction false} ConditionsCanHold()
    ensures NoCollisions(BOTH) && Accepted(BOTH) && Fits(BOTH) && ReadApart(BOTH)
  {
    hide HashKey, ModelOf, AfterScan, Accepted, NamesDecide, SegmentsDecide, GroupsDecide, DecisionOn, ReadApart, PickOf, SegmentsOf;
    BothDecided();
    BothCollideNowhere();
    BothReadApart();
    BothFree();
  }
}
