/** The keys of a `cl_qmap`: 64 bits wide, and visited in ascending order. */
module OrderedKeys {

  const KEY_SPACE := 0x1_0000_0000_0000_0000

  type Key = k: nat | k < KEY_SPACE

  predicate IsLeast(k: Key, s: set<Key>) {
    k in s && forall j :: j in s ==> k <= j
  }

  lemma LeastExists(s: set<Key>)
    requires s != {}
    ensures exists k :: IsLeast(k, s)
  {
    var k :| k in s;
    var rest := s - {k};
    assert s == rest + {k};
    if rest == {} {
      assert IsLeast(k, s);
    } else {
      LeastExists(rest);
      var l :| IsLeast(l, rest);
      assert IsLeast(if k < l then k else l, s);
    }
  }

  /** The keys of a map in ascending order. */
  function SortedKeys(s: set<Key>): seq<Key> {
    if s == {} then []
    else
      LeastExists(s);
      var k :| k in s && IsLeast(k, s);
      [k] + SortedKeys(s - {k})
  }

  lemma {:induction false} SortedKeysStep(s: set<Key>)
    ensures s == {} ==> SortedKeys(s) == []
    ensures s != {} ==> SortedKeys(s) != []
    ensures s != {} ==> var k := SortedKeys(s)[0]; IsLeast(k, s) && SortedKeys(s) == [k] + SortedKeys(s - {k})
  {
    if s != {} {
      LeastExists(s);
      var l :| IsLeast(l, s);
      assert IsLeast(SortedKeys(s)[0], s);
    }
  }

  lemma {:induction false} SortedKeysAreTheKeys(s: set<Key>)
    ensures |SortedKeys(s)| == |s|
    ensures forall k :: k in SortedKeys(s) <==> k in s
    ensures forall i, j :: 0 <= i < j < |SortedKeys(s)| ==> SortedKeys(s)[i] < SortedKeys(s)[j]
  {
    hide SortedKeys;
    SortedKeysStep(s);
    if s != {} {
      var k := SortedKeys(s)[0];
      var rest := SortedKeys(s - {k});
      SortedKeysAreTheKeys(s - {k});
      forall j | 0 <= j < |rest| ensures k < rest[j] {
        assert rest[j] in s - {k};
      }
    }
  }
}
