/** The key of a port's group as a number of base 31 (Topology/port_num_gen.c:464-474). */
module PortWeights {
  import opened OrderedKeys
  import opened PortName
  import opened PortNumGen

  function KeysIn(segs: seq<Seg>): (keys: seq<Key>)
    ensures |keys| == |segs| && forall i :: 0 <= i < |segs| ==> keys[i] == segs[i].key
  {
    if segs == [] then [] else KeysIn(segs[..|segs| - 1]) + [segs[|segs| - 1].key]
  }

  /** The keys a name's group key is made of. */
  function Others(segs: seq<Seg>, p: nat): seq<Key>
    requires p < |segs|
  {
    KeysIn(segs[..p] + segs[p + 1..])
  }

  function Power(base: nat, n: nat): nat {
    if n == 0 then 1 else base * Power(base, n - 1)
  }

  /** The keys as the digits of a number of base 31. */
  function Weighted(keys: seq<Key>): nat {
    if keys == [] then 0 else keys[0] * Power(31, |keys| - 1) + Weighted(keys[1..])
  }

  lemma {:induction false} WeightedNext(keys: seq<Key>, k: Key)
    ensures Weighted(keys + [k]) == 31 * Weighted(keys) + k
  {
    if keys == [] {
      assert [k][1..] == [] && Power(31, 0) == 1;
      assert Weighted([k]) == k && keys + [k] == [k];
    } else {
      assert (keys + [k])[1..] == keys[1..] + [k];
      WeightedNext(keys[1..], k);
      var w := Power(31, |keys| - 1);
      assert Power(31, |keys|) == 31 * w;
      assert keys[0] * (31 * w) == 31 * (keys[0] * w);
    }
  }

  /** The keys of the first n segments but for the one at p. */
  function OthersBelow(segs: seq<Seg>, p: nat, n: nat): seq<Key>
    requires n <= |segs|
  {
    if n == 0 then [] else OthersBelow(segs, p, n - 1) + if n - 1 == p then [] else [segs[n - 1].key]
  }

  lemma {:induction false} OthersBelowIs(segs: seq<Seg>, p: nat, n: nat)
    requires p < |segs| && n <= |segs|
    ensures OthersBelow(segs, p, n) == Others(segs, p)[..if n <= p then n else n - 1]
  {
    if n > 0 {
      OthersBelowIs(segs, p, n - 1);
    }
  }

  lemma {:induction false} ModStep(x: nat, k: nat)
    ensures (31 * (x % KEY_SPACE) + k) % KEY_SPACE == (31 * x + k) % KEY_SPACE
  {
    SameRemainder(31 * (x % KEY_SPACE) + k, 31 * (x / KEY_SPACE));
  }

  lemma {:induction false} SameRemainder(x: int, q: int)
    ensures (x + KEY_SPACE * q) % KEY_SPACE == x % KEY_SPACE
  {
  }

  lemma {:induction false} GroupKeyIsWeighted(segs: seq<Seg>, p: nat, n: nat)
    requires n <= |segs|
    ensures GroupKey(segs, p, n) == Weighted(OthersBelow(segs, p, n)) % KEY_SPACE
  {
    hide Weighted;
    if n > 0 {
      GroupKeyIsWeighted(segs, p, n - 1);
      var before := OthersBelow(segs, p, n - 1);
      if n - 1 != p {
        WeightedNext(before, segs[n - 1].key);
        ModStep(Weighted(before), segs[n - 1].key);
      } else {
        assert before + [] == before;
      }
    } else {
      assert Weighted([]) == 0 by {
        NothingWeighs();
      }
    }
  }

  lemma {:induction false} NothingWeighs()
    ensures Weighted([]) == 0
  {
  }

  /** What the group key of a name with number segment p comes to. */
  function Weight(segs: seq<Seg>, p: nat): Key
    requires p < |segs|
  {
    Weighted(Others(segs, p)) % KEY_SPACE
  }

  lemma {:induction false} GroupKeyIsWeight(segs: seq<Seg>, p: nat)
    requires p < |segs|
    ensures GroupKey(segs, p, |segs|) == Weight(segs, p)
  {
    hide Weighted;
    GroupKeyIsWeighted(segs, p, |segs|);
    OthersBelowIs(segs, p, |segs|);
    assert Others(segs, p)[..|segs| - 1] == Others(segs, p);
  }
}
