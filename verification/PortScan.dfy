/** What the scan of pn_gen_process has found out when it has not given up
    (Topology/port_num_gen.c:419-520). */
module PortScan {
  import opened OrderedKeys
  import opened PortName
  import opened PortGroups
  import opened PortNumGen
  import opened PortOffsets

  function ChoiceAt(m: Model, key: Key): Choice {
    if key in m.ports then ChoiceOf(m.ports[key].segments, m.counts) else NoNumber
  }

  ghost predicate Visits(m: Model, keys: seq<Key>) {
    && (forall i :: 0 <= i < |keys| ==> keys[i] in m.ports)
    && (forall i, j :: 0 <= i < j < |keys| ==> keys[i] < keys[j])
  }

  lemma {:induction false} ScanStep(m: Model, keys: seq<Key>, n: nat)
    requires n < |keys| && Visits(m, keys) && !ScanPorts(m, keys, n + 1).failed
    ensures !ScanPorts(m, keys, n).failed && !ChoiceAt(m, keys[n]).OutOfRange?
    ensures ScanPorts(m, keys, n + 1) == ScanPort(ScanPorts(m, keys, n), keys[n], ChoiceAt(m, keys[n]))
  {
    hide ChoiceOf;
  }

  lemma {:induction false} NothingScanned(m: Model, keys: seq<Key>)
    ensures ScanPorts(m, keys, 0) == Scan(map[], [], {}, false, false)
  {
  }

  /** Every port visited has its own choice recorded, and none was out of range. */
  lemma {:induction false} NumbersAreChoices(m: Model, keys: seq<Key>, n: nat)
    requires n <= |keys| && Visits(m, keys) && !ScanPorts(m, keys, n).failed
    ensures forall i :: 0 <= i < n ==> !ChoiceAt(m, keys[i]).OutOfRange?
    ensures forall i :: 0 <= i < n && ChoiceAt(m, keys[i]).Numbered? ==>
              keys[i] in ScanPorts(m, keys, n).numbers && ScanPorts(m, keys, n).numbers[keys[i]] == ChoiceAt(m, keys[i])
    ensures forall k :: k in ScanPorts(m, keys, n).numbers ==> k in keys[..n] && ChoiceAt(m, k).Numbered?
  {
    hide ChoiceAt, AddTo, ScanPorts;
    NothingScanned(m, keys);
    if n > 0 {
      ScanStep(m, keys, n - 1);
      NumbersAreChoices(m, keys, n - 1);
      assert keys[..n] == keys[..n - 1] + [keys[n - 1]];
    }
  }

  /** Two of the first n ports want one number, or one wants zero. */
  ghost predicate Clash(m: Model, keys: seq<Key>, n: nat)
    requires n <= |keys|
  {
    || (exists i :: 0 <= i < n && ChoiceAt(m, keys[i]).Numbered? && ChoiceAt(m, keys[i]).portNum == 0)
    || (exists i, j :: 0 <= i < j < n && ChoiceAt(m, keys[i]).Numbered? && ChoiceAt(m, keys[j]).Numbered?
                       && ChoiceAt(m, keys[i]).portNum == ChoiceAt(m, keys[j]).portNum)
  }

  lemma {:induction false} UsedAreTheNumbers(m: Model, keys: seq<Key>, n: nat)
    requires n <= |keys| && Visits(m, keys) && !ScanPorts(m, keys, n).failed
    ensures forall x :: x in ScanPorts(m, keys, n).used <==>
                          exists i :: 0 <= i < n && ChoiceAt(m, keys[i]).Numbered? && ChoiceAt(m, keys[i]).portNum == x
  {
    hide ChoiceAt, AddTo, ScanPorts;
    NothingScanned(m, keys);
    if n > 0 {
      ScanStep(m, keys, n - 1);
      UsedAreTheNumbers(m, keys, n - 1);
    }
  }

  /** A conflict is noticed exactly when there is one. */
  lemma {:induction false} ConflictIffClash(m: Model, keys: seq<Key>, n: nat)
    requires n <= |keys| && Visits(m, keys) && !ScanPorts(m, keys, n).failed
    ensures ScanPorts(m, keys, n).conflict <==> Clash(m, keys, n)
  {
    hide ChoiceAt, AddTo, ScanPorts, Clash;
    if n > 0 {
      ScanStep(m, keys, n - 1);
      ConflictIffClash(m, keys, n - 1);
      UsedAreTheNumbers(m, keys, n - 1);
      ClashNext(m, keys, n - 1);
    } else {
      NoClash(m, keys);
    }
  }

  lemma {:induction false} NoClash(m: Model, keys: seq<Key>)
    ensures !ScanPorts(m, keys, 0).conflict && !Clash(m, keys, 0)
  {
  }

  /** One more port clashes if it wants zero or a number already wanted. */
  lemma {:induction false} ClashNext(m: Model, keys: seq<Key>, n: nat)
    requires n < |keys|
    ensures var c := ChoiceAt(m, keys[n]);
            Clash(m, keys, n + 1)
            <==> Clash(m, keys, n)
                 || (c.Numbered? && (c.portNum == 0 || exists i :: 0 <= i < n && ChoiceAt(m, keys[i]).Numbered?
                                                                 && ChoiceAt(m, keys[i]).portNum == c.portNum))
  {
    hide ChoiceAt;
  }

  /** A group whose range holds this number. */
  predicate Holds(g: GroupVal, c: Choice) {
    c.Numbered? && g.key == c.groupKey && g.min <= c.portNum <= g.max
  }

  lemma {:induction false} AddToHolds(vals: seq<GroupVal>, key: Key, pn: nat)
    requires Unshifted(vals)
    ensures Unshifted(AddTo(vals, key, pn))
    ensures exists g :: g in AddTo(vals, key, pn) && Holds(g, Numbered(pn, key))
    ensures forall g, c :: g in vals && Holds(g, c) ==> exists h :: h in AddTo(vals, key, pn) && Holds(h, c)
    ensures forall h :: h in AddTo(vals, key, pn) ==>
              (h.key == key && h.max == pn) || exists g :: g in vals && g.key == h.key && g.max == h.max
  {
    if vals == [] {
      assert AddTo(vals, key, pn) == [GroupVal(key, pn, pn, 1, 0)];
      assert Holds(AddTo(vals, key, pn)[0], Numbered(pn, key));
    } else {
      var rest := vals[1..];
      assert vals == [vals[0]] + rest;
      if vals[0].key == key {
        var w := Widened(vals[0], pn);
        assert AddTo(vals, key, pn) == [w] + rest;
        assert Holds(w, Numbered(pn, key)) && w in AddTo(vals, key, pn);
        forall g, c | g in vals && Holds(g, c) ensures exists h :: h in AddTo(vals, key, pn) && Holds(h, c) {
          assert g in rest ==> g in AddTo(vals, key, pn);
          assert g == vals[0] ==> Holds(w, c);
        }
      } else {
        AddToHolds(rest, key, pn);
        assert AddTo(vals, key, pn) == [vals[0]] + AddTo(rest, key, pn);
      }
    }
  }

  /** Each numbered port lies in the range of its group, and the range ends at a port. */
  lemma {:induction false} GroupsHoldPorts(m: Model, keys: seq<Key>, n: nat)
    requires n <= |keys| && Visits(m, keys) && !ScanPorts(m, keys, n).failed
    ensures Unshifted(ScanPorts(m, keys, n).groups)
    ensures forall i :: 0 <= i < n && ChoiceAt(m, keys[i]).Numbered? ==>
              exists g :: g in ScanPorts(m, keys, n).groups && Holds(g, ChoiceAt(m, keys[i]))
    ensures forall g :: g in ScanPorts(m, keys, n).groups ==>
              exists i :: 0 <= i < n && ChoiceAt(m, keys[i]) == Numbered(g.max, g.key)
  {
    hide ChoiceAt, AddTo, Holds, ScanPorts;
    NothingScanned(m, keys);
    if n > 0 {
      ScanStep(m, keys, n - 1);
      GroupsHoldPorts(m, keys, n - 1);
      var s, c := ScanPorts(m, keys, n - 1), ChoiceAt(m, keys[n - 1]);
      if c.Numbered? {
        AddToHolds(s.groups, c.groupKey, c.portNum);
      }
    }
  }
}
