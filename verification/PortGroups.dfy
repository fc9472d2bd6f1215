/** The groups of port names: a doubly linked list of cells, its insertion sort, and the
    greedy offsets (Topology/port_num_gen.c, compare_groups, sort_groups and the group
    handling of pn_gen_process). */
module PortGroups {
  import opened OrderedKeys
  import opened Sequences
  import opened PortName

  datatype GroupVal = GroupVal(key: Key, min: nat, max: nat, count: nat, offset: nat)

  /** -1, 0 or 1: more members first, then the smaller start, then the smaller key. */
  function Compare(g1: GroupVal, g2: GroupVal): int {
    if g1.count > g2.count then -1
    else if g1.count < g2.count then 1
    else if g1.min < g2.min then -1
    else if g1.min > g2.min then 1
    else if g1.key < g2.key then -1
    else if g1.key > g2.key then 1
    else 0
  }

  /** A group with one more port. */
  function Widened(g: GroupVal, portNum: nat): (r: GroupVal)
    ensures r.key == g.key && r.offset == g.offset
  {
    g.(max := if portNum > g.max then portNum else g.max,
       min := if portNum < g.min then portNum else g.min,
       count := g.count + 1)
  }

  class Group {
    var key: Key
    var min: nat
    var max: nat
    var count: nat
    var offset: nat
    var prev: Group?
    var next: Group?

    constructor (key: Key, portNum: nat)
      ensures Val() == GroupVal(key, portNum, portNum, 1, 0) && prev == null && next == null
    {
      this.key, min, max, count, offset := key, portNum, portNum, 1, 0;
      prev, next := null, null;
    }

    function Val(): GroupVal
      reads this
    {
      GroupVal(key, min, max, count, offset)
    }

    method Widen(portNum: nat)
      modifies this`max, this`min, this`count
      ensures Val() == Widened(old(Val()), portNum)
    {
      if portNum > max {
        max := portNum;
      }
      if portNum < min {
        min := portNum;
      }
      count := count + 1;
    }

    method ShiftPast(before: Group)
      requires before != this
      modifies this`offset
      ensures Val() == old(Val()).(offset := OffsetAfter(old(Val()), Top(before.Val())))
    {
      if min <= before.max + before.offset {
        offset := before.max + before.offset - min + 1;
      }
    }
  }

  ghost function Cells(nodes: seq<Group>): set<Group> {
    set g | g in nodes
  }

  /** `nodes` is, in order, a doubly linked list ended by nulls. */
  ghost predicate Linked(nodes: seq<Group>)
    reads Cells(nodes)`prev, Cells(nodes)`next
  {
    && NoRepeats(nodes)
    && (forall i {:trigger nodes[i].prev} :: 0 <= i < |nodes| ==> nodes[i].prev == if i == 0 then null else nodes[i - 1])
    && (forall i {:trigger nodes[i].next} :: 0 <= i < |nodes| ==>
          nodes[i].next == if i == |nodes| - 1 then null else nodes[i + 1])
  }

  lemma LinksAt(nodes: seq<Group>, i: nat)
    requires Linked(nodes) && i < |nodes|
    ensures nodes[i].prev == if i == 0 then null else nodes[i - 1]
    ensures nodes[i].next == if i == |nodes| - 1 then null else nodes[i + 1]
    ensures i > 0 ==> nodes[i - 1] != nodes[i]
    ensures forall m :: 0 <= m < |nodes| && nodes[m] == nodes[i] ==> m == i
  {
  }

  ghost function Vals(nodes: seq<Group>): (vals: seq<GroupVal>)
    reads nodes
    ensures |vals| == |nodes|
    ensures forall i :: 0 <= i < |nodes| ==> vals[i] == nodes[i].Val()
  {
    seq(|nodes|, i requires 0 <= i < |nodes| reads nodes => nodes[i].Val())
  }

  ghost predicate HasVals(nodes: seq<Group>, vals: seq<GroupVal>)
    reads nodes
  {
    |vals| == |nodes| && forall m :: 0 <= m < |nodes| ==> nodes[m].Val() == vals[m]
  }

  ghost predicate Sorted(vals: seq<GroupVal>) {
    forall i, j :: 0 <= i < j < |vals| ==> Compare(vals[i], vals[j]) <= 0
  }

  ghost function Without<T>(s: seq<T>, i: nat): seq<T>
    requires i < |s|
  {
    s[..i] + s[i + 1..]
  }

  ghost function With<T>(s: seq<T>, i: nat, x: T): seq<T>
    requires i <= |s|
  {
    s[..i] + [x] + s[i..]
  }

  method Unlink(ghost nodes: seq<Group>, ghost i: nat, g: Group)
    requires Linked(nodes) && 0 < i < |nodes| && nodes[i] == g
    modifies Cells(nodes)`prev, Cells(nodes)`next
    ensures Linked(Without(nodes, i)) && g.prev == nodes[i - 1]
  {
    g.prev.next := g.next;
    if g.next != null {
      g.next.prev := g.prev;
    }
  }

  method InsertAfter(ghost nodes: seq<Group>, ghost j: nat, r: Group, g: Group)
    requires Linked(nodes) && j < |nodes| - 1 && nodes[j] == r && g !in nodes
    modifies Cells(nodes)`prev, Cells(nodes)`next, g`prev, g`next
    ensures Linked(With(nodes, j + 1, g))
  {
    var tmp := r.next;
    r.next := g;
    g.next := tmp;
    tmp.prev := g;
    g.prev := r;
  }

  method InsertHead(ghost nodes: seq<Group>, head: Group, g: Group)
    requires Linked(nodes) && |nodes| > 0 && nodes[0] == head && g !in nodes
    modifies Cells(nodes)`prev, Cells(nodes)`next, g`prev, g`next
    ensures Linked(With(nodes, 0, g))
  {
    g.prev := null;
    g.next := head;
    head.prev := g;
  }

  /** `s` with its cell i moved back to position k. */
  ghost function Moved<T>(s: seq<T>, i: nat, k: nat): seq<T>
    requires k <= i < |s|
  {
    With(Without(s, i), k, s[i])
  }

  lemma {:induction false} MovedAt<T>(s: seq<T>, i: nat, k: nat, m: nat)
    requires k <= i < |s| && m < |s|
    ensures |Moved(s, i, k)| == |s|
    ensures Moved(s, i, k)[m] == s[if m == k then i else if k < m <= i then m - 1 else m]
  {
  }

  lemma {:induction false} MovedVals(nodes: seq<Group>, vals: seq<GroupVal>, i: nat, k: nat)
    requires k <= i < |nodes| && HasVals(nodes, vals)
    ensures HasVals(Moved(nodes, i, k), Moved(vals, i, k))
  {
  }

  lemma {:induction false} MovedNowhere<T>(s: seq<T>, i: nat)
    requires i < |s|
    ensures Moved(s, i, i) == s
  {
  }

  lemma {:induction false} WithoutAndWith<T>(s: seq<T>, i: nat, t: seq<T>, k: nat, x: T)
    requires i < |s| && k <= |t|
    ensures multiset(Without(s, i)) + multiset{s[i]} == multiset(s)
    ensures multiset(With(t, k, x)) == multiset(t) + multiset{x}
  {
    assert s == s[..i] + ([s[i]] + s[i + 1..]);
    assert t == t[..k] + t[k..];
  }

  lemma {:induction false} MovedIsPermutation<T>(s: seq<T>, i: nat, k: nat)
    requires k <= i < |s|
    ensures |Moved(s, i, k)| == |s| && multiset(Moved(s, i, k)) == multiset(s)
  {
    WithoutAndWith(s, i, Without(s, i), k, s[i]);
  }

  lemma {:induction false} MovedKeepsCells(s: seq<Group>, i: nat, k: nat)
    requires k <= i < |s|
    ensures |Moved(s, i, k)| == |s| && Cells(Moved(s, i, k)) == Cells(s)
  {
    MovedIsPermutation(s, i, k);
    assert forall x :: x in s <==> x in multiset(s);
    assert forall x :: x in Moved(s, i, k) <==> x in multiset(Moved(s, i, k));
  }

  lemma {:induction false} MovedIsSorted(vals: seq<GroupVal>, i: nat, k: nat)
    requires k <= i < |vals| && Sorted(vals[..i])
    requires forall m :: k <= m < i ==> Compare(vals[i], vals[m]) <= 0
    requires k > 0 ==> Compare(vals[i], vals[k - 1]) >= 0
    ensures Sorted(Moved(vals, i, k)[..i + 1])
  {
    forall a, b | 0 <= a < b <= i
      ensures Compare(Moved(vals, i, k)[a], Moved(vals, i, k)[b]) <= 0
    {
      var m := k - 1;
      assert a < m ==> Compare(vals[..i][a], vals[..i][m]) <= 0;
      var a', b' := if a > k then a - 1 else a, if b > k then b - 1 else b;
      assert a' < b' < i ==> Compare(vals[..i][a'], vals[..i][b']) <= 0;
    }
  }

  /** The inner loop: from cell k - 1 backward, find the first cell smaller than pitem. */
  method SearchBack(ghost rest: seq<Group>, ghost vals: seq<GroupVal>, ghost i: nat, pitem: Group, newPitem: Group)
    returns (ritem: Group?, ghost k: nat)
    requires Linked(rest) && 0 < i <= |rest| && newPitem == rest[i - 1] && i < |vals|
    requires forall m :: 0 <= m < i ==> rest[m].Val() == vals[m]
    requires pitem.Val() == vals[i] && Compare(vals[i], vals[i - 1]) < 0
    ensures k < i && ritem == if k == 0 then null else rest[k - 1]
    ensures forall m :: k <= m < i ==> Compare(vals[i], vals[m]) <= 0
    ensures k > 0 ==> Compare(vals[i], vals[k - 1]) > 0
  {
    hide Compare;
    ritem := newPitem.prev;
    k := i - 1;
    while ritem != null
      invariant k < i && ritem == if k == 0 then null else rest[k - 1]
      invariant forall m :: k <= m < i ==> Compare(vals[i], vals[m]) <= 0
      decreases k
    {
      if Compare(pitem.Val(), ritem.Val()) > 0 {
        break;
      }
      ritem := ritem.prev;
      k := k - 1;
    }
  }

  lemma {:induction false} WithoutCells(nodes: seq<Group>, i: nat)
    requires i < |nodes| && Linked(nodes)
    ensures nodes[i] !in Without(nodes, i) && Cells(Without(nodes, i)) <= Cells(nodes)
    ensures forall m :: 0 <= m < i ==> Without(nodes, i)[m] == nodes[m]
  {
  }

  /** Take cell i out of the list and put it back after the first smaller cell before it. */
  method MoveBack(head: Group, ghost nodes: seq<Group>, ghost vals: seq<GroupVal>, ghost i: nat, pitem: Group)
    returns (head': Group, ghost k: nat)
    requires Linked(nodes) && 0 < i < |nodes| && head == nodes[0] && pitem == nodes[i]
    requires HasVals(nodes, vals) && Compare(vals[i], vals[i - 1]) < 0
    modifies Cells(nodes)`prev, Cells(nodes)`next
    ensures k < i && Linked(Moved(nodes, i, k)) && head' == Moved(nodes, i, k)[0]
    ensures HasVals(nodes, vals)
    ensures forall m :: k <= m < i ==> Compare(vals[i], vals[m]) <= 0
    ensures k > 0 ==> Compare(vals[i], vals[k - 1]) > 0
  {
    hide Compare, Linked;
    WithoutCells(nodes, i);
    ghost var rest := Without(nodes, i);
    Unlink(nodes, i, pitem);
    var ritem;
    ritem, k := SearchBack(rest, vals, i, pitem, pitem.prev);
    head' := PutBack(rest, head, k, ritem, pitem);
  }

  /** Put a cell into the list after ritem, or at its head. */
  method PutBack(ghost rest: seq<Group>, head: Group, ghost k: nat, ritem: Group?, pitem: Group) returns (head': Group)
    requires Linked(rest) && k < |rest| && head == rest[0] && pitem !in rest && ritem == if k == 0 then null else rest[k - 1]
    modifies Cells(rest)`prev, Cells(rest)`next, pitem`prev, pitem`next
    ensures Linked(With(rest, k, pitem)) && head' == With(rest, k, pitem)[0]
  {
    hide Linked;
    if ritem != null {
      InsertAfter(rest, k - 1, ritem, pitem);
      head' := head;
    } else {
      InsertHead(rest, head, pitem);
      head' := pitem;
    }
  }

  /** Insertion sort on the list itself: the cells stay, their links and the head change. */
  method SortGroups(head: Group?, ghost nodes: seq<Group>) returns (head': Group?, ghost sorted: seq<Group>)
    requires Linked(nodes) && head == if nodes == [] then null else nodes[0]
    modifies Cells(nodes)`prev, Cells(nodes)`next
    ensures Linked(sorted) && head' == if sorted == [] then null else sorted[0]
    ensures Cells(sorted) == Cells(nodes)
    ensures Sorted(Vals(sorted)) && multiset(Vals(sorted)) == multiset(old(Vals(nodes)))
  {
    hide Compare, Moved;
    head', sorted := head, nodes;
    if head == null {
      return;
    }
    var pitem := head.next;
    ghost var i, vals := 1, Vals(nodes);
    while pitem != null
      invariant 1 <= i <= |sorted| && pitem == if i == |sorted| then null else sorted[i]
      invariant Linked(sorted) && head' == sorted[0]
      invariant Cells(sorted) == Cells(nodes) && multiset(vals) == multiset(old(Vals(nodes)))
      invariant HasVals(sorted, vals) && Sorted(vals[..i])
      decreases |sorted| - i
    {
      if Compare(pitem.Val(), pitem.prev.Val()) < 0 {
        var newPitem := pitem.prev;
        ghost var k;
        head', k := MoveBack(head', sorted, vals, i, pitem);
        MovedKeepsCells(sorted, i, k);
        MovedIsPermutation(vals, i, k);
        MovedIsSorted(vals, i, k);
        MovedVals(sorted, vals, i, k);
        MovedAt(sorted, i, k, i);
        sorted, vals := Moved(sorted, i, k), Moved(vals, i, k);
        pitem := newPitem;
      } else {
        MovedIsSorted(vals, i, i);
        MovedNowhere(vals, i);
      }
      pitem := pitem.next;
      i := i + 1;
    }
    assert Vals(sorted) == vals && vals[..i] == vals;
  }

  // ---------------------------------------------------------------- the order

  lemma {:induction false} CompareIsTotalOrder(a: GroupVal, b: GroupVal, c: GroupVal)
    ensures Compare(a, b) == -Compare(b, a)
    ensures Compare(a, b) <= 0 && Compare(b, c) <= 0 ==> Compare(a, c) <= 0
    ensures Compare(a, b) == 0 <==> a.count == b.count && a.min == b.min && a.key == b.key
  {
  }

  ghost predicate DistinctKeys(vals: seq<GroupVal>) {
    forall i, j :: 0 <= i < j < |vals| ==> vals[i].key != vals[j].key
  }

  lemma {:induction false} HeadIsLeast(a: seq<GroupVal>, g: GroupVal)
    requires Sorted(a) && g in a
    ensures Compare(a[0], g) <= 0
  {
    var i :| 0 <= i < |a| && a[i] == g;
    CompareIsTotalOrder(a[0], a[0], a[0]);
  }

  /** No two different groups have the same key. */
  ghost predicate KeysDecide(vals: seq<GroupVal>) {
    forall g, h :: g in vals && h in vals && g.key == h.key ==> g == h
  }

  lemma {:induction false} TakeHead(a: seq<GroupVal>)
    requires Sorted(a) && a != []
    ensures Sorted(a[1..]) && multiset(a[1..]) == multiset(a) - multiset{a[0]}
  {
    assert a == [a[0]] + a[1..];
  }

  lemma {:induction false} KeysDecideRest(a: seq<GroupVal>)
    requires KeysDecide(a) && a != []
    ensures KeysDecide(a[1..])
  {
  }

  lemma {:induction false} SameHead(a: seq<GroupVal>, b: seq<GroupVal>)
    requires Sorted(a) && Sorted(b) && KeysDecide(a) && multiset(a) == multiset(b) && a != []
    ensures b != [] && a[0] == b[0]
  {
    hide Compare, Sorted;
    assert |multiset(a)| == |a| && |multiset(b)| == |b|;
    assert a[0] in multiset(b) && b[0] in multiset(a);
    HeadIsLeast(a, b[0]);
    HeadIsLeast(b, a[0]);
    CompareIsTotalOrder(a[0], b[0], b[0]);
  }

  /** With distinct keys there is only one sorted arrangement of a list of groups. */
  lemma {:induction false} SortedIsUnique(a: seq<GroupVal>, b: seq<GroupVal>)
    requires Sorted(a) && Sorted(b) && KeysDecide(a) && multiset(a) == multiset(b)
    ensures a == b
  {
    hide Compare, Sorted, KeysDecide;
    if a == [] {
      assert |multiset(b)| == 0;
    } else {
      SameHead(a, b);
      TakeHead(a);
      TakeHead(b);
      KeysDecideRest(a);
      SortedIsUnique(a[1..], b[1..]);
      assert a == [a[0]] + a[1..] && b == [b[0]] + b[1..];
    }
  }

  /** The sorted arrangement, by insertion of the last group into the others. */
  function SortSpec(vals: seq<GroupVal>): seq<GroupVal> {
    if vals == [] then []
    else Inserted(SortSpec(vals[..|vals| - 1]), vals[|vals| - 1])
  }

  function Inserted(vals: seq<GroupVal>, g: GroupVal): seq<GroupVal> {
    if vals == [] || Compare(g, vals[|vals| - 1]) > 0 then vals + [g]
    else Inserted(vals[..|vals| - 1], g) + [vals[|vals| - 1]]
  }

  lemma {:induction false} InsertedIsSorted(vals: seq<GroupVal>, g: GroupVal)
    requires Sorted(vals)
    ensures Sorted(Inserted(vals, g)) && multiset(Inserted(vals, g)) == multiset(vals) + multiset{g}
  {
    hide Compare;
    if vals != [] {
      var init, last := vals[..|vals| - 1], vals[|vals| - 1];
      assert vals == init + [last];
      if Compare(g, last) > 0 {
        forall i | 0 <= i < |vals| ensures Compare(vals[i], g) <= 0 {
          CompareIsTotalOrder(vals[i], last, g);
          CompareIsTotalOrder(g, last, last);
        }
      } else {
        InsertedIsSorted(init, g);
        forall i | 0 <= i < |Inserted(init, g)| ensures Compare(Inserted(init, g)[i], last) <= 0 {
          assert Inserted(init, g)[i] in multiset(init) + multiset{g};
          assert Inserted(init, g)[i] == g || Inserted(init, g)[i] in init;
        }
      }
    }
  }

  lemma {:induction false} SortSpecSorts(vals: seq<GroupVal>)
    ensures Sorted(SortSpec(vals)) && multiset(SortSpec(vals)) == multiset(vals)
  {
    if vals != [] {
      var init := vals[..|vals| - 1];
      assert vals == init + [vals[|vals| - 1]];
      SortSpecSorts(init);
      InsertedIsSorted(SortSpec(init), vals[|vals| - 1]);
    }
  }

  lemma {:induction false} SortedIs(vals: seq<GroupVal>, sorted: seq<GroupVal>)
    requires Sorted(sorted) && DistinctKeys(vals) && multiset(sorted) == multiset(vals)
    ensures sorted == SortSpec(vals) && |sorted| == |vals|
  {
    hide Sorted, SortSpec;
    SortSpecSorts(vals);
    assert forall g :: g in sorted ==> g in multiset(vals);
    assert KeysDecide(sorted);
    SortedIsUnique(sorted, SortSpec(vals));
    assert |multiset(sorted)| == |sorted| && |multiset(vals)| == |vals|;
  }

  // ---------------------------------------------------------------- what the process step does to the list

  /** Count one port: widen its group, or append a new group. */
  function AddTo(vals: seq<GroupVal>, key: Key, portNum: nat): seq<GroupVal> {
    if vals == [] then [GroupVal(key, portNum, portNum, 1, 0)]
    else if vals[0].key == key then [Widened(vals[0], portNum)] + vals[1..]
    else [vals[0]] + AddTo(vals[1..], key, portNum)
  }

  lemma {:induction false} AddToAt(vals: seq<GroupVal>, i: nat, key: Key, portNum: nat)
    requires i <= |vals| && forall m :: 0 <= m < i ==> vals[m].key != key
    ensures AddTo(vals, key, portNum) == vals[..i] + AddTo(vals[i..], key, portNum)
  {
    if i > 0 {
      AddToAt(vals[1..], i - 1, key, portNum);
      assert vals[1..][i - 1..] == vals[i..];
      assert [vals[0]] + vals[1..][..i - 1] == vals[..i];
    }
  }

  lemma {:induction false} AddToIs(vals: seq<GroupVal>, i: nat, key: Key, portNum: nat)
    requires i <= |vals| && forall m :: 0 <= m < i ==> vals[m].key != key
    requires i < |vals| ==> vals[i].key == key
    ensures AddTo(vals, key, portNum) ==
              if i < |vals| then vals[i := Widened(vals[i], portNum)] else vals + [GroupVal(key, portNum, portNum, 1, 0)]
  {
    AddToAt(vals, i, key, portNum);
    if i < |vals| {
      assert vals[i..] == [vals[i]] + vals[i + 1..];
    }
  }

  lemma {:induction false} AddToKeepsKeys(vals: seq<GroupVal>, key: Key, portNum: nat)
    requires DistinctKeys(vals)
    ensures DistinctKeys(AddTo(vals, key, portNum)) && AddTo(vals, key, portNum) != []
    ensures forall g :: g in AddTo(vals, key, portNum) ==> g.key == key || exists h :: h in vals && h.key == g.key
  {
    hide Widened;
    if vals != [] && vals[0].key != key {
      assert DistinctKeys(vals[1..]);
      AddToKeepsKeys(vals[1..], key, portNum);
    }
  }

  /** The end of a group's shifted range. */
  function Top(g: GroupVal): nat {
    g.max + g.offset
  }

  /** The offset of a group given the shifted end of the group in front of it. */
  function OffsetAfter(g: GroupVal, top: nat): nat {
    if g.min <= top then top - g.min + 1 else g.offset
  }

  /** The greedy offsets, in list order: only a first group that contains 0 moves. */
  function WithOffsets(vals: seq<GroupVal>): (r: seq<GroupVal>)
    ensures |r| == |vals|
  {
    if vals == [] then []
    else
      var before := WithOffsets(vals[..|vals| - 1]);
      var g := vals[|vals| - 1];
      before + [g.(offset := if before == [] then if g.min == 0 then 1 else g.offset
                             else OffsetAfter(g, Top(before[|before| - 1])))]
  }

  lemma {:induction false} FirstOffset(vals: seq<GroupVal>)
    requires vals != []
    ensures WithOffsets(vals[..1]) == [vals[0].(offset := if vals[0].min == 0 then 1 else vals[0].offset)]
    ensures vals[0 := WithOffsets(vals[..1])[0]] == WithOffsets(vals[..1]) + vals[1..]
  {
    assert vals[..1][..0] == [];
    assert WithOffsets(vals[..1][..0]) == [];
  }

  lemma {:induction false} WithOffsetsStep(vals: seq<GroupVal>, i: nat)
    requires 0 < i < |vals|
    ensures var now := WithOffsets(vals[..i]) + vals[i..];
            var g := now[i].(offset := OffsetAfter(now[i], Top(now[i - 1])));
            && now[..i] == WithOffsets(vals[..i]) && now[i] == vals[i]
            && WithOffsets(vals[..i + 1]) == now[..i] + [g]
            && now[i := g] == WithOffsets(vals[..i + 1]) + vals[i + 1..]
  {
    hide OffsetAfter, Top;
    var w := WithOffsets(vals[..i]);
    var now := w + vals[i..];
    assert vals[..i + 1][..i] == vals[..i] && vals[..i + 1][i] == vals[i];
    assert now[..i] == w && now[i] == vals[i] && now[i - 1] == w[i - 1];
    var g := now[i].(offset := OffsetAfter(now[i], Top(now[i - 1])));
    assert WithOffsets(vals[..i + 1]) == w + [g];
    assert now[i := g] == w + [g] + vals[i + 1..];
  }

  function OffsetOf(vals: seq<GroupVal>, key: Key): (r: int)
  {
    if vals == [] then -1 else if vals[0].key == key then vals[0].offset else OffsetOf(vals[1..], key)
  }

  lemma {:induction false} OffsetOfIs(vals: seq<GroupVal>, i: nat, key: Key)
    requires i <= |vals| && forall m :: 0 <= m < i ==> vals[m].key != key
    requires i < |vals| ==> vals[i].key == key
    ensures OffsetOf(vals, key) == if i < |vals| then vals[i].offset else -1
  {
    if i > 0 {
      OffsetOfIs(vals[1..], i - 1, key);
    }
  }

  /** The group list of pn_gen_process: a head, and a tail that is only kept while appending. */
  class GroupList {
    var head: Group?
    var tail: Group?
    ghost var nodes: seq<Group>

    ghost predicate Valid()
      reads this, nodes
    {
      Linked(nodes) && head == if nodes == [] then null else nodes[0]
    }

    ghost predicate TailIsLast()
      reads this
    {
      tail == if nodes == [] then null else nodes[|nodes| - 1]
    }

    ghost function Contents(): seq<GroupVal>
      reads this, nodes
    {
      Vals(nodes)
    }

    /** A list that can be appended to, with these groups. */
    ghost predicate Lists(vals: seq<GroupVal>)
      reads this, nodes
    {
      Valid() && TailIsLast() && Contents() == vals
    }

    constructor ()
      ensures Lists([]) && nodes == []
    {
      head, tail, nodes := null, null, [];
    }

    /** The first cell with this key, or null. */
    method Find(key: Key) returns (item: Group?, ghost i: nat)
      requires Valid()
      ensures i <= |nodes| && item == if i == |nodes| then null else nodes[i]
      ensures forall m :: 0 <= m < i ==> Contents()[m].key != key
      ensures item != null ==> item.key == key
    {
      item, i := head, 0;
      while item != null && item.key != key
        invariant 0 <= i <= |nodes| && item == if i == |nodes| then null else nodes[i]
        invariant forall m :: 0 <= m < i ==> Contents()[m].key != key
        decreases |nodes| - i
      {
        item := item.next;
        i := i + 1;
      }
    }

    method AddPort(key: Key, portNum: nat)
      requires Valid() && TailIsLast()
      modifies this, Cells(nodes)
      ensures Lists(AddTo(old(Contents()), key, portNum)) && fresh(Cells(nodes) - old(Cells(nodes)))
    {
      hide AddTo, Widened, Linked;
      ghost var vals := Contents();
      var pitem;
      ghost var i;
      pitem, i := Find(key);
      assert vals == Contents();
      AddToIs(vals, i, key, portNum);
      if pitem != null {
        WidenAt(pitem, i, portNum);
      } else {
        AppendNew(key, portNum);
      }
    }

    method WidenAt(pitem: Group, ghost i: nat, portNum: nat)
      requires Valid() && i < |nodes| && nodes[i] == pitem
      modifies pitem
      ensures Valid() && head == old(head) && nodes == old(nodes)
      ensures Contents() == old(Contents())[i := Widened(old(Contents())[i], portNum)]
    {
      hide Widened;
      ghost var vals := Contents();
      pitem.Widen(portNum);
      assert HasVals(nodes, vals[i := Widened(vals[i], portNum)]);
    }

    method AppendNew(key: Key, portNum: nat)
      requires Valid() && TailIsLast()
      modifies this, Cells(nodes)
      ensures Valid() && TailIsLast() && fresh(Cells(nodes) - old(Cells(nodes)))
      ensures Contents() == old(Contents()) + [GroupVal(key, portNum, portNum, 1, 0)]
    {
      ghost var vals := Contents();
      var item := new Group(key, portNum);
      Append(item);
      assert HasVals(nodes, vals + [item.Val()]);
    }

    method Append(item: Group)
      requires Valid() && TailIsLast() && item !in nodes && item.prev == null && item.next == null
      modifies this, Cells(nodes)`next, item`prev
      ensures Valid() && TailIsLast() && nodes == old(nodes) + [item]
    {
      if tail != null {
        tail.next := item;
        item.prev := tail;
        tail := item;
      } else {
        head, tail := item, item;
      }
      nodes := nodes + [item];
    }

    method Sort()
      requires Valid() && DistinctKeys(Contents())
      modifies this`head, this`nodes, Cells(nodes)`prev, Cells(nodes)`next
      ensures Valid() && Cells(nodes) == old(Cells(nodes)) && |nodes| == |old(nodes)|
      ensures Contents() == SortSpec(old(Contents()))
    {
      hide Linked, Sorted, SortSpec, DistinctKeys, Compare;
      ghost var vals := Contents();
      var h;
      ghost var sorted;
      h, sorted := SortGroups(head, nodes);
      SortedIs(vals, Vals(sorted));
      head, nodes := h, sorted;
    }

    method SetOffsets()
      requires Valid() && nodes != []
      modifies Cells(nodes)`offset
      ensures Valid() && Contents() == WithOffsets(old(Contents()))
    {
      ghost var vals := Contents();
      FirstOffset(vals);
      if head.min == 0 {
        head.offset := 1;
      }
      assert HasVals(nodes, vals[0 := WithOffsets(vals[..1])[0]]);
      ShiftRest(vals);
    }

    method ShiftRest(ghost vals: seq<GroupVal>)
      requires Valid() && nodes != [] && |vals| == |nodes|
      requires HasVals(nodes, WithOffsets(vals[..1]) + vals[1..])
      modifies Cells(nodes)`offset
      ensures Valid() && Contents() == WithOffsets(vals)
    {
      hide WithOffsets, OffsetAfter, Linked;
      ghost var i, now := 1, WithOffsets(vals[..1]) + vals[1..];
      LinksAt(nodes, 0);
      var item := head.next;
      while item != null
        invariant 1 <= i <= |nodes| && item == if i == |nodes| then null else nodes[i]
        invariant HasVals(nodes, now) && now == WithOffsets(vals[..i]) + vals[i..]
        decreases |nodes| - i
      {
        WithOffsetsStep(vals, i);
        LinksAt(nodes, i);
        item.ShiftPast(item.prev);
        now := now[i := item.Val()];
        item := item.next;
        i := i + 1;
      }
      assert vals[..i] == vals && vals[i..] == [];
    }
  }
}
