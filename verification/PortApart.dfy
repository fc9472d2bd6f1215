/** When two names get one number, read off their segments (Topology/port_num_gen.c:163-170 and
    464-541). Nothing here speaks of the group keys. */
module PortApart {
  import opened OrderedKeys
  import opened PortName
  import opened PortNumGen
  import opened PortWeights
  import opened PortUnique
  import opened PortTwins

  /** The number and the other segments decide about a name: two names get one number exactly
      when their number segments have one value and their other segments one weight in 64 bits. */
  lemma {:induction false} SameNumberIffSameWeight(names: seq<string>, a: string, b: string)
    requires NamesDecide(names) && Accepted(names) && a in names && b in names && a != b
    ensures PickOf(names, a) < |SegmentsOf(a)| && PickOf(names, b) < |SegmentsOf(b)|
    ensures var p, q, s, t := PickOf(names, a), PickOf(names, b), SegmentsOf(a), SegmentsOf(b);
            RawNumber(names, a) == RawNumber(names, b)
            <==> s[p].num == t[q].num && Weight(s, p) == Weight(t, q)
  {
    hide HashKey, ModelOf, RawNumber, ParseSpec, PickOf, DecisionOn, Tokens, SegmentsOf, GroupKey, Weight, Accepted, NamesDecide;
    DecisionIsWeighted(names, a);
    DecisionIsWeighted(names, b);
    SameNumberIff(names, a, b);
  }

  // ---------------------------------------------------------------- one segment apart

  /** The two sequences differ at i and nowhere else. */
  ghost predicate DifferAt(s: seq<Key>, t: seq<Key>, i: nat) {
    && |s| == |t| && i < |s| && s[i] != t[i]
    && forall j :: 0 <= j < |s| && j != i ==> s[j] == t[j]
  }

  const INVERSE_OF_31 := 17256631552825064415

  /** 31 has an inverse modulo 2^64. */
  lemma {:induction false} TimesOdd(d: int, q: int)
    requires -KEY_SPACE < d < KEY_SPACE && 31 * d == KEY_SPACE * q
    ensures d == 0
  {
    assert INVERSE_OF_31 * 31 == 29 * KEY_SPACE + 1;
    assert INVERSE_OF_31 * (31 * d) == 29 * KEY_SPACE * d + d;
    assert INVERSE_OF_31 * (KEY_SPACE * q) == KEY_SPACE * (INVERSE_OF_31 * q);
    var k := INVERSE_OF_31 * q - 29 * d;
    assert d == KEY_SPACE * k;
  }

  lemma {:induction false} ScaledApart(x: int, y: int, k: int)
    requires x % KEY_SPACE != y % KEY_SPACE
    ensures (31 * x + k) % KEY_SPACE != (31 * y + k) % KEY_SPACE
  {
    if (31 * x + k) % KEY_SPACE == (31 * y + k) % KEY_SPACE {
      var r, s := x % KEY_SPACE, y % KEY_SPACE;
      var u, v := (31 * x + k) / KEY_SPACE, (31 * y + k) / KEY_SPACE;
      assert 31 * (x - y) == KEY_SPACE * (u - v);
      var w := x / KEY_SPACE - y / KEY_SPACE;
      assert x - y == KEY_SPACE * w + (r - s);
      TimesOdd(r - s, u - v - 31 * w);
    }
  }

  lemma {:induction false} AddedApart(x: int, k: Key, l: Key)
    requires k != l
    ensures (x + k) % KEY_SPACE != (x + l) % KEY_SPACE
  {
  }

  lemma {:induction false} WeightsDiffer(s: seq<Key>, t: seq<Key>, i: nat)
    requires DifferAt(s, t, i)
    ensures Weighted(s) % KEY_SPACE != Weighted(t) % KEY_SPACE
  {
    hide Weighted;
    var n := |s| - 1;
    assert s == s[..n] + [s[n]] && t == t[..n] + [t[n]];
    WeightedNext(s[..n], s[n]);
    WeightedNext(t[..n], t[n]);
    if i < n {
      WeightsDiffer(s[..n], t[..n], i);
      ScaledApart(Weighted(s[..n]), Weighted(t[..n]), s[n]);
    } else {
      assert s[..n] == t[..n];
      AddedApart(31 * Weighted(s[..n]), s[n], t[n]);
    }
  }

  /** Names that differ in one segment besides the number segment get different numbers. */
  lemma {:induction false} OneSegmentApart(names: seq<string>, a: string, b: string, i: nat)
    requires NamesDecide(names) && Accepted(names) && a in names && b in names
    requires |SegmentsOf(a)| == |SegmentsOf(b)| && PickOf(names, a) == PickOf(names, b)
    requires i < |SegmentsOf(a)| && i != PickOf(names, a) && SegmentsOf(a)[i].key != SegmentsOf(b)[i].key
    requires forall j :: 0 <= j < |SegmentsOf(a)| && j != i && j != PickOf(names, a) ==>
               SegmentsOf(a)[j].key == SegmentsOf(b)[j].key
    ensures DecisionOn(names, a) != DecisionOn(names, b) && RawNumber(names, a) != RawNumber(names, b)
    ensures Fits(names) ==> NumberOf(names, a) != NumberOf(names, b)
  {
    hide HashKey, ModelOf, RawNumber, NumberOf, ParseSpec, PickOf, DecisionOn, Tokens, SegmentsOf, Weighted, Accepted, NamesDecide, Fits;
    SameNumberIffSameWeight(names, a, b);
    SameNumberIff(names, a, b);
    var p, s, t := PickOf(names, a), SegmentsOf(a), SegmentsOf(b);
    var u, v := Others(s, p), Others(t, p);
    OthersDifferAt(s, t, p, i);
    WeightsDiffer(u, v, if i < p then i else i - 1);
    if Fits(names) {
      SmallNumber(names, a);
      SmallNumber(names, b);
    }
  }

  lemma {:induction false} OthersDifferAt(s: seq<Seg>, t: seq<Seg>, p: nat, i: nat)
    requires |s| == |t| && p < |s| && i < |s| && i != p && s[i].key != t[i].key
    requires forall j :: 0 <= j < |s| && j != i && j != p ==> s[j].key == t[j].key
    ensures DifferAt(Others(s, p), Others(t, p), if i < p then i else i - 1)
  {
    var u, v := Others(s, p), Others(t, p);
    assert |u| == |s| - 1 && |v| == |s| - 1;
    forall j | 0 <= j < |u| ensures u[j] == s[if j < p then j else j + 1].key && v[j] == t[if j < p then j else j + 1].key {
    }
  }
}
