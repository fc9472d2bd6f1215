/** Facts about sequences used in more than one place. */
module Sequences {

  ghost predicate NoRepeats<T>(s: seq<T>) {
    forall i, j :: 0 <= i < j < |s| ==> s[i] != s[j]
  }

  lemma {:induction false} NoRepeatsJoin<T>(s: seq<T>, t: seq<T>)
    requires NoRepeats(s) && NoRepeats(t) && forall x :: x in s ==> x !in t
    ensures NoRepeats(s + t)
  {
    forall i, j | 0 <= i < j < |s + t|
      ensures (s + t)[i] != (s + t)[j]
    {
      if i < |s| <= j {
        assert s[i] in s && t[j - |s|] in t;
      }
    }
  }

  lemma {:induction false} AppendAssociates<T>(r: seq<T>, s: seq<T>, t: seq<T>)
    ensures (r + s) + t == r + (s + t)
  {
  }

  lemma {:induction false} RemoveOne<T>(init: seq<T>, last: T, left: seq<T>, right: seq<T>)
    requires multiset(init + [last]) == multiset(left + ([last] + right))
    ensures multiset(init) == multiset(left + right)
  {
    assert multiset(init) == multiset(init + [last]) - multiset{last};
    assert multiset(left + right) == multiset(left + ([last] + right)) - multiset{last};
  }
}
