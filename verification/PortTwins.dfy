/** When two names are given one number, in terms of the names themselves, and the
    uniqueness theorem of the port number generator (Topology/port_num_gen.h:39-70). */
module PortTwins {
  import opened OrderedKeys
  import opened PortName
  import opened PortNumGen
  import opened PortUnique
  import opened PortWeights

  /** The segment taken as a name's port number. */
  function PickOf(names: seq<string>, a: string): nat {
    var segs := SegmentsOf(a);
    PickIn(segs, ModelOf(names).counts, |segs|)
  }

  /** The names agree in every segment but the number segment, and there in its value. */
  ghost predicate Twins(names: seq<string>, a: string, b: string) {
    var p, s, t := PickOf(names, a), Tokens(a, 0), Tokens(b, 0);
    && p == PickOf(names, b) && |s| == |t| && p < |s| && s[p].num == t[p].num
    && forall j :: 0 <= j < |s| && j != p ==> s[j].text == t[j].text
  }

  /** Different segments have different keys. */
  ghost predicate SegmentsDecide(names: seq<string>) {
    forall a, b, i, j :: a in names && b in names && 0 <= i < |Tokens(a, 0)| && 0 <= j < |Tokens(b, 0)|
      && HashKey(i + 1, Tokens(a, 0)[i].text) == HashKey(j + 1, Tokens(b, 0)[j].text)
      ==> i == j && Tokens(a, 0)[i].text == Tokens(b, 0)[j].text
  }

  /** The keys of different groups do not come to the same in 64 bits. */
  ghost predicate GroupsDecide(names: seq<string>) {
    forall a, b ::
      a in names && b in names && PickOf(names, a) < |SegmentsOf(a)| && PickOf(names, b) < |SegmentsOf(b)|
      && Weight(SegmentsOf(a), PickOf(names, a)) == Weight(SegmentsOf(b), PickOf(names, b))
      ==> Others(SegmentsOf(a), PickOf(names, a)) == Others(SegmentsOf(b), PickOf(names, b))
  }

  lemma {:induction false} SameOthersSameKey(s: seq<Seg>, t: seq<Seg>, p: nat, n: nat)
    requires n <= |s| == |t| && forall j :: 0 <= j < n && j != p ==> s[j].key == t[j].key
    ensures GroupKey(s, p, n) == GroupKey(t, p, n)
  {
    if n > 0 {
      SameOthersSameKey(s, t, p, n - 1);
    }
  }

  /** Keys of the tokens of two names are equal only for the same text at the same position. */
  ghost predicate TokensDecide(s: seq<Token>, t: seq<Token>) {
    forall i, j :: 0 <= i < |s| && 0 <= j < |t| && HashKey(i + 1, s[i].text) == HashKey(j + 1, t[j].text)
                   ==> i == j && s[i].text == t[j].text
  }

  lemma {:induction false} OthersAt(s: seq<Token>, p: nat, t: seq<Token>, q: nat, i: nat)
    requires p < |s| && q < |t| && Others(SegsOf(s), p) == Others(SegsOf(t), q) && TokensDecide(s, t)
    requires i < |s| - 1
    ensures |s| == |t|
    ensures var j, k := if i < p then i else i + 1, if i < q then i else i + 1; j == k && s[j].text == t[k].text
  {
    hide HashKey;
    var u, v := Others(SegsOf(s), p), Others(SegsOf(t), q);
    assert |u| == |s| - 1 && |v| == |t| - 1;
    assert u[i] == SegsOf(s)[if i < p then i else i + 1].key;
    assert v[i] == SegsOf(t)[if i < q then i else i + 1].key;
  }

  /** Equal remainders leave out the same position. */
  lemma {:induction false} SameOthers(s: seq<Token>, p: nat, t: seq<Token>, q: nat)
    requires p < |s| && q < |t| && Others(SegsOf(s), p) == Others(SegsOf(t), q) && TokensDecide(s, t)
    ensures |s| == |t| && p == q && forall j :: 0 <= j < |s| && j != p ==> s[j].text == t[j].text
  {
    hide HashKey, TokensDecide;
    assert |Others(SegsOf(s), p)| == |s| - 1 && |Others(SegsOf(t), q)| == |t| - 1;
    if p < q {
      OthersAt(s, p, t, q, p);
    } else if q < p {
      OthersAt(s, p, t, q, q);
    } else {
      forall j | 0 <= j < |s| && j != p ensures s[j].text == t[j].text {
        OthersAt(s, p, t, q, if j < p then j else j - 1);
      }
    }
  }

  lemma {:induction false} DecisionIs(names: seq<string>, a: string)
    requires NamesDecide(names) && Accepted(names) && a in names
    ensures var p, s := PickOf(names, a), Tokens(a, 0);
            && p < |s| <= MAX_SEGS && SegmentsOf(a) == SegsOf(s)
            && DecisionOn(names, a) == Numbered(s[p].num, GroupKey(SegsOf(s), p, |s|))
  {
    hide HashKey, ModelOf, DecisionOn, Tokens;
    AcceptedIsNumbered(names, a);
  }

  lemma {:induction false} DecisionIsWeighted(names: seq<string>, a: string)
    requires NamesDecide(names) && Accepted(names) && a in names
    ensures var p, s := PickOf(names, a), SegmentsOf(a);
            p < |s| && DecisionOn(names, a) == Numbered(s[p].num, Weight(s, p))
  {
    hide HashKey, ModelOf, ParseSpec, PickOf, DecisionOn, Tokens, SegmentsOf, GroupKey, Weight, Accepted, NamesDecide;
    DecisionIs(names, a);
    GroupKeyIsWeight(SegmentsOf(a), PickOf(names, a));
  }

  /** The same is decided about two names exactly when they are twins. */
  lemma {:induction false} SameDecisionIffTwins(names: seq<string>, a: string, b: string)
    requires NamesDecide(names) && SegmentsDecide(names) && GroupsDecide(names) && Accepted(names)
    requires a in names && b in names
    ensures DecisionOn(names, a) == DecisionOn(names, b) <==> Twins(names, a, b)
  {
    hide HashKey, ModelOf, DecisionOn, Tokens, PickOf, SegmentsOf, GroupKey, ParseSpec, Weight;
    DecisionIs(names, a);
    DecisionIs(names, b);
    DecisionIsWeighted(names, a);
    DecisionIsWeighted(names, b);
    var p, q, s, t := PickOf(names, a), PickOf(names, b), Tokens(a, 0), Tokens(b, 0);
    if DecisionOn(names, a) == DecisionOn(names, b) {
      assert TokensDecide(s, t);
      SameOthers(s, p, t, q);
    } else if Twins(names, a, b) {
      SameOthersSameKey(SegsOf(s), SegsOf(t), p, |s|);
    }
  }

  // ---------------------------------------------------------------- names that read differently

  /** A name up to its separators and the leading zeros of its numbers. */
  datatype Piece = Word(text: string) | Number(value: int)

  function PieceOf(t: Token): Piece {
    if t.num == -1 then Word(t.text) else Number(t.num)
  }

  function Pieces(ts: seq<Token>): (ps: seq<Piece>)
    ensures (forall i :: 0 <= i < |ts| ==> !ts[i].repeat) ==>
              |ps| == |ts| && forall i :: 0 <= i < |ts| ==> ps[i] == PieceOf(ts[i])
  {
    if ts == [] then []
    else Pieces(ts[..|ts| - 1]) + if ts[|ts| - 1].repeat then [] else [PieceOf(ts[|ts| - 1])]
  }

  function Skeleton(name: string): seq<Piece> {
    Pieces(Tokens(name, 0))
  }

  predicate NoAdjacentSeparators(name: string) {
    forall k :: 0 <= k < |name| - 1 && Class(name[k]) == Separator ==> Class(name[k + 1]) != Separator
  }

  lemma {:induction false} NothingRepeats(s: string, i: nat)
    requires i <= |s| && NoAdjacentSeparators(s)
    ensures forall k :: 0 <= k < |Tokens(s, i)| ==> !Tokens(s, i)[k].repeat
    decreases |s| - i
  {
    if i < |s| && Class(s[i]) == Separator {
      NothingRepeats(s, i + 1);
    } else if i < |s| {
      var e := RunEnd(s, i, Class(s[i]));
      var f := RunEnd(s, e, Separator);
      RunIsUniform(s, e, Separator);
      assert f <= e + 1;
      NothingRepeats(s, f);
    }
  }

  lemma {:induction false} DecimalOfSlice(s: string, b: nat, e: nat)
    requires b <= e <= |s|
    ensures Decimal(s, b, e) == Decimal(s[b..e], 0, e - b)
  {
    if b < e {
      DecimalOfSlice(s, b, e - 1);
      DecimalOfPrefix(s[b..e], s[b..e - 1], e - 1 - b);
    }
  }

  lemma {:induction false} DecimalOfPrefix(s: string, t: string, e: nat)
    requires e <= |s| && e <= |t| && s[..e] == t[..e]
    ensures Decimal(s, 0, e) == Decimal(t, 0, e)
  {
    if e > 0 {
      assert s[..e][e - 1] == t[..e][e - 1];
      assert s[..e - 1] == s[..e][..e - 1] && t[..e - 1] == t[..e][..e - 1];
      DecimalOfPrefix(s, t, e - 1);
    }
  }

  /** The value of a token is the value of its text. */
  ghost predicate ReadsItsText(t: Token) {
    !t.repeat ==> t.text != [] && t.num == ValueOf(t.text, 0, |t.text|, Class(t.text[0]) == Digit)
  }

  lemma {:induction false} TokensReadTheirText(s: string, i: nat)
    requires i <= |s|
    ensures forall k :: 0 <= k < |Tokens(s, i)| ==> ReadsItsText(Tokens(s, i)[k])
    decreases |s| - i
  {
    if i < |s| && Class(s[i]) == Separator {
      TokensReadTheirText(s, i + 1);
    } else if i < |s| {
      var e := RunEnd(s, i, Class(s[i]));
      var f := RunEnd(s, e, Separator);
      var num := ValueOf(s, i, e, Class(s[i]) == Digit);
      assert e > i && s[i..e][0] == s[i];
      DecimalOfSlice(s, i, e);
      assert ReadsItsText(Token(s[i..e], num, false));
      RepeatsRepeat(s, i, e + 1, f, num);
      TokensReadTheirText(s, f);
    }
  }

  lemma {:induction false} RepeatsRepeat(s: string, b: nat, j: nat, f: nat, num: int)
    requires b <= j && f <= |s|
    ensures forall k :: 0 <= k < |Repeats(s, b, j, f, num)| ==> Repeats(s, b, j, f, num)[k].repeat
    decreases |s| - j
  {
    if j < f {
      RepeatsRepeat(s, b, j + 1, f, num);
    }
  }

  /** Without adjacent separators, twins read the same. */
  lemma {:induction false} TwinsReadTheSame(names: seq<string>, a: string, b: string)
    requires NamesDecide(names) && Accepted(names) && a in names && b in names && Twins(names, a, b)
    requires NoAdjacentSeparators(a) && NoAdjacentSeparators(b)
    ensures Skeleton(a) == Skeleton(b)
  {
    hide Tokens, PickOf, HashKey, Decimal, ParseSpec, SegmentsOf;
    NothingRepeats(a, 0);
    NothingRepeats(b, 0);
    TokensReadTheirText(a, 0);
    TokensReadTheirText(b, 0);
    NumberIsPicked(names, a);
    var s, t, p := Tokens(a, 0), Tokens(b, 0), PickOf(names, a);
    forall j | 0 <= j < |s| ensures PieceOf(s[j]) == PieceOf(t[j]) {
      assert ReadsItsText(s[j]) && ReadsItsText(t[j]);
    }
  }

  lemma {:induction false} NumberIsPicked(names: seq<string>, a: string)
    requires NamesDecide(names) && Accepted(names) && a in names
    ensures PickOf(names, a) < |Tokens(a, 0)| && Tokens(a, 0)[PickOf(names, a)].num != -1
  {
    hide HashKey, ModelOf, Tokens;
    DecisionIs(names, a);
  }

  // ---------------------------------------------------------------- the theorem

  /** No two registered names have keys that collide, as names, segments or groups. */
  ghost predicate NoCollisions(names: seq<string>) {
    NamesDecide(names) && SegmentsDecide(names) && GroupsDecide(names)
  }

  /** No adjacent separators, and no two names that differ only in separators and leading zeros. */
  ghost predicate ReadApart(names: seq<string>) {
    && (forall a :: a in names ==> NoAdjacentSeparators(a))
    && (forall a, b :: a in names && b in names && a != b ==> Skeleton(a) != Skeleton(b))
  }

  /** Every name gets a positive number of its own. */
  ghost predicate Unique(names: seq<string>) {
    && (forall a :: a in names ==> NumberOf(names, a) > 0)
    && (forall a, b :: a in names && b in names && a != b ==> NumberOf(names, a) != NumberOf(names, b))
  }

  lemma {:induction false} SameReturnedIffTwins(names: seq<string>, a: string, b: string)
    requires NoCollisions(names) && Accepted(names) && Fits(names) && a in names && b in names && a != b
    ensures NumberOf(names, a) == NumberOf(names, b) <==> Twins(names, a, b)
  {
    hide NamesDecide, SegmentsDecide, GroupsDecide, Accepted, Fits, Twins, NumberOf, RawNumber, DecisionOn;
    SmallNumber(names, a);
    SmallNumber(names, b);
    SameNumberIff(names, a, b);
    SameDecisionIffTwins(names, a, b);
  }

  /** The numbers are unique exactly when a number is unique in its group, as the header assumes. */
  lemma {:induction false} UniqueIffNoTwins(names: seq<string>)
    requires NoCollisions(names) && Accepted(names) && Fits(names)
    ensures Unique(names) <==> forall a, b :: a in names && b in names && a != b ==> !Twins(names, a, b)
  {
    hide NoCollisions, Accepted, Fits, Twins, NumberOf;
    forall a, b | a in names && b in names && a != b
      ensures NumberOf(names, a) == NumberOf(names, b) <==> Twins(names, a, b)
    {
      SameReturnedIffTwins(names, a, b);
    }
    forall a | a in names ensures NumberOf(names, a) > 0 {
      Positive(names, a);
    }
  }

  lemma {:induction false} Positive(names: seq<string>, a: string)
    requires NoCollisions(names) && Accepted(names) && Fits(names) && a in names
    ensures NumberOf(names, a) > 0
  {
    hide Accepted, Fits, NumberOf, RawNumber;
    SmallNumber(names, a);
    RawIsPositive(names, a);
  }

  /** Names that differ in more than separators and leading zeros get different numbers. */
  lemma {:induction false} UniqueNumbers(names: seq<string>)
    requires NoCollisions(names) && Accepted(names) && Fits(names) && ReadApart(names)
    ensures Unique(names)
  {
    hide SegmentsDecide, GroupsDecide, NamesDecide, Accepted, Fits, Twins, NumberOf, Skeleton, NoAdjacentSeparators, Unique;
    forall a, b | a in names && b in names && a != b ensures !Twins(names, a, b) {
      if Twins(names, a, b) {
        TwinsReadTheSame(names, a, b);
      }
    }
    UniqueIffNoTwins(names);
  }
}
