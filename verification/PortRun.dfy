/** Whole runs of the port number generator: register every name, then ask for every number
    (IbaTools/ethxlattopology/ethportnum.c:102-150). */
module PortRun {
  import opened OrderedKeys
  import opened PortName
  import opened PortNumGen
  import opened PortUnique
  import opened PortTwins

  /** The number segment is a digit segment that occurs least, the last one on a tie. */
  ghost predicate IsLeastFrequent(segs: Segments, counts: map<Key, nat>, p: nat) {
    && p < |segs| && segs[p].num != -1 && segs[p].key in counts
    && forall j :: 0 <= j < |segs| && segs[j].num != -1 && segs[j].key in counts ==>
         counts[segs[p].key] < counts[segs[j].key] || (counts[segs[p].key] == counts[segs[j].key] && j <= p)
  }

  lemma {:induction false} PickIsLeast(segs: Segments, counts: map<Key, nat>, n: nat)
    requires n <= |segs|
    ensures var p := PickIn(segs, counts, n);
            if p == NO_INDEX then forall j :: 0 <= j < n ==> segs[j].num == -1 || segs[j].key !in counts
            else forall j :: 0 <= j < n && segs[j].num != -1 && segs[j].key in counts ==>
              counts[segs[p].key] < counts[segs[j].key] || (counts[segs[p].key] == counts[segs[j].key] && j <= p)
  {
    if n > 0 {
      PickIsLeast(segs, counts, n - 1);
    }
  }

  lemma {:induction false} PickIffLeastFrequent(segs: Segments, counts: map<Key, nat>, p: nat)
    requires p < |segs|
    ensures PickIn(segs, counts, |segs|) == p <==> IsLeastFrequent(segs, counts, p)
  {
    PickIsLeast(segs, counts, |segs|);
  }

  // ---------------------------------------------------------------- processing twice

  lemma {:induction false} ScanAgain(m: Model, m': Model, keys: seq<Key>, n: nat)
    requires n <= |keys| && m'.counts == m.counts && m'.ports.Keys == m.ports.Keys
    requires forall k :: k in m.ports ==> m'.ports[k].segments == m.ports[k].segments
    ensures ScanPorts(m', keys, n) == ScanPorts(m, keys, n)
  {
    hide ChoiceOf, ScanPort;
    if n > 0 {
      ScanAgain(m, m', keys, n - 1);
    }
  }

  /** Processing again after it was given up changes nothing. */
  lemma {:induction false} ProcessedAgain(m: Model)
    requires AfterScan(m).failed
    ensures var m' := Model(m.counts, Processed(m));
            AfterScan(m').failed && Processed(m') == Processed(m)
  {
    hide ScanPorts;
    var m' := Model(m.counts, Processed(m));
    var keys := KeysOf(m.ports);
    ScanAgain(m, m', keys, |keys|);
    SameKeys(m.ports, m'.ports);
  }

  lemma {:induction false} SameKeys(a: map<Key, PortItem>, b: map<Key, PortItem>)
    requires a.Keys == b.Keys
    ensures KeysOf(a) == KeysOf(b)
  {
  }

  // ---------------------------------------------------------------- a run

  method NumberAll(names: seq<string>) returns (nums: seq<nat>)
    requires forall i :: 0 <= i < |names| ==> Scannable(names[i])
    ensures |nums| == |names| && forall i :: 0 <= i < |names| ==> nums[i] == NumberOf(names, names[i])
    ensures NoCollisions(names) && Accepted(names) && Fits(names) && ReadApart(names) ==>
              forall i, j :: 0 <= i < |names| && 0 <= j < |names| ==> nums[i] > 0 && (nums[i] == nums[j] <==> names[i] == names[j])
  {
    hide Processed, Registered, AfterScan, ParseSpec, Answer;
    var gen := new PnGen();
    for i := 0 to |names|
      invariant gen.Valid() && !gen.processed && gen.Value() == ModelOf(names[..i])
    {
      var _ := gen.Register(names[i]);
      assert names[..i + 1][..i] == names[..i];
    }
    assert names[..|names|] == names;
    ghost var m := ModelOf(names);
    nums := [];
    for i := 0 to |names|
      invariant gen.Valid() && gen.segMap == m.counts && |nums| == i
      invariant gen.processed ==> gen.portMap == Processed(m)
      invariant !gen.processed ==>
                  gen.Value() == if i == 0 then m else Model(m.counts, Processed(m))
      invariant !gen.processed && i > 0 ==> AfterScan(m).failed
      invariant forall j :: 0 <= j < i ==> nums[j] == Answer(Processed(m), names[j])
    {
      if AfterScan(m).failed {
        ProcessedAgain(m);
      }
      var num := gen.GetPort(names[i]);
      nums := nums + [num];
    }
    if NoCollisions(names) && Accepted(names) && Fits(names) && ReadApart(names) {
      UniqueNumbers(names);
    }
  }
}
