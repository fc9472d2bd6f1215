/** The order of registration does not matter: counts commute and ports are visited by key
    (Topology/port_num_gen.c:270-313 and 394-556). */
module PortOrder {
  import opened OrderedKeys
  import opened Sequences
  import opened PortName
  import opened PortNumGen
  import opened PortUnique

  /** How often a segment key occurs in a name, and in a sequence of names. */
  function Occurs(segs: seq<Seg>, key: Key): nat {
    if segs == [] then 0
    else Occurs(segs[..|segs| - 1], key) + if segs[|segs| - 1].key == key then 1 else 0
  }

  function Total(names: seq<string>, key: Key): nat {
    if names == [] then 0
    else Total(names[..|names| - 1], key) + Occurs(SegmentsOf(names[|names| - 1]), key)
  }

  lemma {:induction false} TotalConcat(a: seq<string>, b: seq<string>, key: Key)
    ensures Total(a + b, key) == Total(a, key) + Total(b, key)
  {
    hide SegmentsOf, Occurs;
    if b == [] {
      assert a + b == a;
    } else {
      assert (a + b)[..|a + b| - 1] == a + b[..|b| - 1];
      TotalConcat(a, b[..|b| - 1], key);
    }
  }

  lemma {:induction false} TotalPermutes(a: seq<string>, b: seq<string>, key: Key)
    requires multiset(a) == multiset(b)
    ensures Total(a, key) == Total(b, key)
  {
    hide SegmentsOf;
    if a == [] {
      assert |multiset(b)| == 0;
    } else {
      var init, last := a[..|a| - 1], a[|a| - 1];
      assert a == init + [last];
      assert last in multiset(b);
      var i :| 0 <= i < |b| && b[i] == last;
      var left, right := b[..i], b[i + 1..];
      assert b == left + ([last] + right);
      RemoveOne(init, last, left, right);
      TotalPermutes(init, left + right, key);
      TotalConcat(left, right, key);
      TotalConcat(left, [last] + right, key);
      TotalConcat([last], right, key);
      TotalConcat(init, [last], key);
    }
  }

  lemma {:induction false} CountedAllStep(counts: map<Key, nat>, segs: seq<Seg>, key: Key)
    ensures segs == [] ==> CountedAll(counts, segs) == counts && Occurs(segs, key) == 0
    ensures segs != [] ==>
              var init, last := CountedAll(counts, segs[..|segs| - 1]), segs[|segs| - 1].key;
              && CountedAll(counts, segs) == init[last := ((if last in init then init[last] else 0) + 1) % 256]
              && Occurs(segs, key) == Occurs(segs[..|segs| - 1], key) + if last == key then 1 else 0
  {
  }

  lemma {:induction false} CountedAllIs(counts: map<Key, nat>, segs: seq<Seg>, key: Key)
    ensures key in CountedAll(counts, segs) <==> key in counts || Occurs(segs, key) > 0
    ensures key in CountedAll(counts, segs) ==>
              CountedAll(counts, segs)[key] ==
                if Occurs(segs, key) == 0 then counts[key]
                else ((if key in counts then counts[key] else 0) + Occurs(segs, key)) % 256
  {
    hide *;
    CountedAllStep(counts, segs, key);
    if segs != [] {
      CountedAllIs(counts, segs[..|segs| - 1], key);
    }
  }

  /** Each segment counter is the number of its occurrences, in 8 bits. */
  lemma {:induction false} CountsAreTotals(names: seq<string>, key: Key)
    ensures key in ModelOf(names).counts <==> Total(names, key) > 0
    ensures key in ModelOf(names).counts ==> ModelOf(names).counts[key] == Total(names, key) % 256
  {
    hide HashKey, SegmentsOf;
    if names != [] {
      var init, last := names[..|names| - 1], names[|names| - 1];
      CountsAreTotals(init, key);
      CountedAllIs(ModelOf(init).counts, SegmentsOf(last), key);
      assert ModelOf(names) == Registered(ModelOf(init), last);
    }
  }

  lemma {:induction false} SameNamesSamePorts(a: seq<string>, b: seq<string>)
    requires NamesDecide(a) && NamesDecide(b) && forall n :: n in a <==> n in b
    ensures ModelOf(a).ports == ModelOf(b).ports
  {
    hide HashKey, SegmentsOf, ModelOf;
    RegisteredPorts(a);
    RegisteredPorts(b);
    forall k ensures k in ModelOf(a).ports <==> k in ModelOf(b).ports {
      if k in ModelOf(a).ports {
        var n :| n in a && k == HashKey(0, n);
        assert n in b;
      }
      if k in ModelOf(b).ports {
        var n :| n in b && k == HashKey(0, n);
        assert n in a;
      }
    }
    forall k | k in ModelOf(a).ports ensures ModelOf(a).ports[k] == ModelOf(b).ports[k] {
      var n :| n in a && k == HashKey(0, n);
      assert n in b;
    }
  }

  /** Any order of the same registrations, valid or not, gives every name the same number. */
  lemma {:induction false} OrderDoesNotMatter(a: seq<string>, b: seq<string>, name: string)
    requires NamesDecide(a) && multiset(a) == multiset(b)
    ensures ModelOf(a) == ModelOf(b)
    ensures NumberOf(a, name) == NumberOf(b, name)
  {
    hide HashKey, SegmentsOf, ModelOf, Processed;
    assert forall n :: n in a <==> n in multiset(a);
    assert forall n :: n in b <==> n in multiset(b);
    SameNamesSamePorts(a, b);
    forall k ensures k in ModelOf(a).counts <==> k in ModelOf(b).counts {
      CountsAreTotals(a, k);
      CountsAreTotals(b, k);
      TotalPermutes(a, b, k);
    }
    forall k | k in ModelOf(a).counts ensures ModelOf(a).counts[k] == ModelOf(b).counts[k] {
      CountsAreTotals(a, k);
      CountsAreTotals(b, k);
      TotalPermutes(a, b, k);
    }
    assert ModelOf(a).counts == ModelOf(b).counts;
  }
}
