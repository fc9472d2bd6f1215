/** What the greedy offsets achieve: positive, disjoint, ascending ranges, with the least
    offsets that do (Topology/port_num_gen.c:522-541). */
module PortOffsets {
  import opened OrderedKeys
  import opened Sequences
  import opened PortName
  import opened PortGroups

  /** The shifted ranges are positive, disjoint and ascending in list order. */
  ghost predicate Spread(vals: seq<GroupVal>) {
    && (forall i :: 0 <= i < |vals| ==> vals[i].min + vals[i].offset > 0)
    && (forall i, j :: 0 <= i < j < |vals| ==> Top(vals[i]) < vals[j].min + vals[j].offset)
  }

  ghost predicate Unshifted(vals: seq<GroupVal>) {
    forall i :: 0 <= i < |vals| ==> vals[i].min <= vals[i].max && vals[i].offset == 0
  }

  lemma {:induction false} OffsetsKeepGroups(vals: seq<GroupVal>, i: nat)
    requires i < |vals|
    ensures WithOffsets(vals)[i] == vals[i].(offset := WithOffsets(vals)[i].offset)
  {
    if i < |vals| - 1 {
      OffsetsKeepGroups(vals[..|vals| - 1], i);
    }
  }

  lemma {:induction false} OffsetsSpread(vals: seq<GroupVal>)
    requires Unshifted(vals)
    ensures Spread(WithOffsets(vals))
    ensures vals != [] ==> WithOffsets(vals)[0].offset == if vals[0].min == 0 then 1 else 0
  {
    if vals != [] {
      var init := vals[..|vals| - 1];
      OffsetsSpread(init);
      var before, g := WithOffsets(init), WithOffsets(vals)[|init|];
      assert WithOffsets(vals) == before + [g];
      if before != [] {
        var last := before[|before| - 1];
        assert g.min + g.offset > Top(last);
        forall i | 0 <= i < |before| ensures Top(before[i]) <= Top(last) {
          OffsetsKeepGroups(init, |init| - 1);
        }
      }
    }
  }

  /** `offsets` in place of the groups' own. */
  ghost function Moved(vals: seq<GroupVal>, offsets: seq<nat>): (r: seq<GroupVal>)
    requires |offsets| == |vals|
  {
    seq(|vals|, i requires 0 <= i < |vals| => vals[i].(offset := offsets[i]))
  }

  /** No offsets with that effect are smaller anywhere. */
  lemma {:induction false} OffsetsAreLeast(vals: seq<GroupVal>, offsets: seq<nat>)
    requires Unshifted(vals) && |offsets| == |vals| && Spread(Moved(vals, offsets))
    ensures forall i :: 0 <= i < |vals| ==> WithOffsets(vals)[i].offset <= offsets[i]
  {
    if vals != [] {
      var n := |vals| - 1;
      var init := vals[..n];
      var moved := Moved(vals, offsets);
      assert Moved(init, offsets[..n]) == moved[..n];
      OffsetsAreLeast(init, offsets[..n]);
      if n > 0 {
        OffsetsKeepGroups(init, n - 1);
        assert Top(WithOffsets(init)[n - 1]) <= Top(moved[n - 1]) < moved[n].min + moved[n].offset;
      } else {
        assert moved[0].min + moved[0].offset > 0;
      }
    }
  }

  // ---------------------------------------------------------------- how far the ranges reach

  /** How many numbers a group's range takes. */
  function Width(g: GroupVal): nat {
    if g.min <= g.max then g.max - g.min + 1 else 0
  }

  function Room(vals: seq<GroupVal>): nat {
    if vals == [] then 0 else Room(vals[..|vals| - 1]) + Width(vals[|vals| - 1])
  }

  /** The shifted ranges take no more room than the widths from the highest start on. */
  lemma {:induction false} TopWithinRoom(vals: seq<GroupVal>, low: nat)
    requires Unshifted(vals) && vals != [] && forall g :: g in vals ==> g.min <= low + 1
    ensures Top(WithOffsets(vals)[|vals| - 1]) <= low + Room(vals)
  {
    var n := |vals| - 1;
    var init := vals[..n];
    assert vals[n] in vals;
    if n > 0 {
      assert forall g :: g in init ==> g in vals;
      TopWithinRoom(init, low);
    }
  }

  lemma {:induction false} RoomAppends(a: seq<GroupVal>, b: seq<GroupVal>)
    ensures Room(a + b) == Room(a) + Room(b)
  {
    if b == [] {
      assert a + b == a;
    } else {
      assert (a + b)[..|a + b| - 1] == a + b[..|b| - 1];
      RoomAppends(a, b[..|b| - 1]);
    }
  }

  /** The order of the groups does not matter to their room. */
  lemma {:induction false} RoomPermutes(a: seq<GroupVal>, b: seq<GroupVal>)
    requires multiset(a) == multiset(b)
    ensures Room(a) == Room(b)
  {
    hide Room;
    if a == [] {
      assert |multiset(b)| == |b|;
    } else {
      var init, g := a[..|a| - 1], a[|a| - 1];
      assert a == init + [g] && g in multiset(b);
      var i :| 0 <= i < |b| && b[i] == g;
      var left, right := b[..i], b[i + 1..];
      assert b == left + ([g] + right);
      RemoveOne(init, g, left, right);
      RoomPermutes(init, left + right);
      RoomAppends(left, right);
      RoomAppends(left, [g] + right);
      RoomAppends([g], right);
      RoomAppends(init, [g]);
    }
  }
}
