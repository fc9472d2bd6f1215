/** Which port holds which LID (Topology/fabricdata.c:529-630, 719-734 and 1009-1078, with
    FF_LIDARRAY set).

    A port owns the LIDs from EndPortLID to EndPortLID with its low LMC bits set. The LID of
    a port does not change while it is listed. */
module LidTable {
  import opened Options
  import opened LidIndex

  function Size(lmc: nat): (s: nat)
    ensures s > 0
  {
    if lmc == 0 then 1 else 2 * Size(lmc - 1)
  }

  /** lid | ((1 << lmc) - 1) */
  function LastOf(lid: nat, lmc: Lmc): (last: nat)
    ensures lid <= last
  {
    lid - lid % Size(lmc) + Size(lmc) - 1
  }

  function LastLid(p: PortData): (last: nat)
    ensures p.lid <= last
  {
    LastOf(p.lid, p.lmc)
  }

  predicate Owns(p: PortData, l: nat) {
    p.lid <= l <= LastLid(p)
  }

  function Range(p: PortData): set<nat> {
    Between(p.lid, LastLid(p) + 1)
  }

  predicate Aligned(p: PortData) {
    p.lid % Size(p.lmc) == 0
  }

  type Entries = map<nat, PortData>

  /** Every port in the table owns exactly its whole range. */
  ghost predicate WholeRanges(e: Entries) {
    forall l :: l in e ==> Owns(e[l], l) && OwnsWhole(e, e[l])
  }

  ghost predicate OwnsWhole(e: Entries, p: PortData) {
    forall k: nat :: Owns(p, k) ==> k in e && e[k] == p
  }

  /** A port that may be listed: it has a GUID and a LID aligned to its range. */
  predicate Listable(p: PortData) {
    p.guid != 0 && p.lid != 0 && p.lid <= LID_MAX && Aligned(p)
  }

  ghost predicate Sound(e: Entries) {
    WholeRanges(e) && forall l :: l in e ==> Listable(e[l])
  }

  /** The ranges of two ports meet. */
  predicate Overlap(q: PortData, p: PortData) {
    q != p && q.lid <= LastLid(p) && p.lid <= LastLid(q)
  }

  /** Some other port holds a LID of p. */
  ghost predicate Contested(e: Entries, p: PortData) {
    exists l :: l in e && Owns(p, l) && e[l] != p
  }

  ghost function At(e: Entries, l: nat): Option<PortData> {
    if l in e then Some(e[l]) else None
  }

  /** The table with p added and the ports it overlaps removed. */
  ghost predicate IsAdded(e: Entries, p: PortData, e': Entries) {
    forall l: nat :: At(e', l) == if Owns(p, l) then Some(p) else if l in e && Overlap(e[l], p) then None else At(e, l)
  }

  ghost function Removed(e: Entries, p: PortData): Entries {
    e - Range(p)
  }

  // ---------------------------------------------------------------- ranges

  lemma {:induction false} SizeSplits(a: nat, b: nat)
    requires a <= b
    ensures Size(b) == Size(b - a) * Size(a)
  {
    if a < b {
      SizeSplits(a, b - 1);
    }
  }

  lemma {:induction false} RangeSize(p: PortData)
    ensures |Range(p)| == Size(p.lmc) - p.lid % Size(p.lmc)
  {
  }

  function Between(a: nat, b: nat): (s: set<nat>)
    requires a <= b
    ensures |s| == b - a && forall l :: l in s <==> a <= l < b
  {
    if a == b then {} else Between(a, b - 1) + {b - 1}
  }

  /** A port owns 2^LMC LIDs, the number the count goes by, exactly when its LID is aligned. */
  lemma {:induction false} FullRangeIffAligned(p: PortData)
    ensures |Range(p)| == Size(p.lmc) <==> Aligned(p)
  {
    RangeSize(p);
  }

  /** Ranges stay within the map. */
  lemma {:induction false} RangeInMap(p: PortData)
    requires p.lid <= LID_MAX
    ensures LastLid(p) <= LID_MAX
  {
    MapSize();
    SizeSplits(p.lmc, 24);
    RoundUp(p.lid, Size(p.lmc), Size(24 - p.lmc));
  }

  lemma {:induction false} MapSize()
    ensures Size(24) == LID_MAX + 1
  {
    SizeSplits(8, 24);
    SizeSplits(8, 16);
    assert Size(4) == 16 && Size(8) == 256;
  }

  lemma {:induction false} RoundUp(x: nat, s: nat, t: nat)
    requires s > 0 && x < t * s
    ensures x - x % s + s <= t * s
  {
    var q := x / s;
    assert x == q * s + x % s;
    TimesKeepsOrder(t, q, s);
    TimesKeepsOrder(q + 1, t, s);
  }

  lemma TimesKeepsOrder(a: nat, b: nat, s: nat)
    ensures a <= b ==> a * s <= b * s
  {
  }

  // ---------------------------------------------------------------- adding and removing keep the table sound

  lemma {:induction false} AddedIsSound(e: Entries, p: PortData, e': Entries)
    requires Sound(e) && Listable(p) && IsAdded(e, p, e')
    ensures Sound(e')
  {
    hide LastLid, Listable;
    forall l | l in e'
      ensures Owns(e'[l], l) && OwnsWhole(e', e'[l]) && Listable(e'[l])
    {
      AddedOwnsWhole(e, p, e', l);
    }
  }

  lemma {:induction false} AddedOwnsWhole(e: Entries, p: PortData, e': Entries, l: nat)
    requires WholeRanges(e) && IsAdded(e, p, e') && l in e'
    ensures Owns(e'[l], l) && OwnsWhole(e', e'[l]) && (e'[l] == p || (l in e && e'[l] == e[l]))
  {
    hide LastLid;
    assert At(e', l) == Some(e'[l]);
    forall k: nat | Owns(e'[l], k)
      ensures k in e' && e'[k] == e'[l]
    {
      assert At(e', k) == Some(e'[l]);
    }
  }

  lemma {:induction false} RemovedIsSound(e: Entries, p: PortData)
    requires Sound(e) && p.lid in e && e[p.lid] == p
    ensures Sound(Removed(e, p))
  {
    hide LastLid, Listable;
    var e' := Removed(e, p);
    forall l | l in e'
      ensures Owns(e'[l], l) && OwnsWhole(e', e'[l])
    {
    }
  }

  /** A listed port's removal frees 2^LMC LIDs. */
  lemma {:induction false} RemovedCounts(e: Entries, p: PortData)
    requires OwnsWhole(e, p) && Aligned(p)
    ensures |Removed(e, p)| + Size(p.lmc) == |e|
  {
    hide LastLid;
    FullRangeIffAligned(p);
    assert Range(p) <= e.Keys;
    assert Removed(e, p).Keys == e.Keys - Range(p);
    assert |e.Keys| == |e| && |Removed(e, p).Keys| == |Removed(e, p)|;
  }

  // ---------------------------------------------------------------- claiming a range LID by LID

  ghost predicate HitBefore(q: PortData, p: PortData, x: nat) {
    q != p && q.lid < x && p.lid <= LastLid(q) && p.lid < x
  }

  /** The table once p has claimed its LIDs below x and the ports found there are gone. */
  ghost function StageAt(e: Entries, p: PortData, x: nat, l: nat): Option<PortData> {
    if p.lid <= l < x then Some(p) else if l in e && HitBefore(e[l], p, x) then None else At(e, l)
  }

  ghost predicate IsStage(e: Entries, p: PortData, x: nat, s: Entries) {
    forall l: nat :: At(s, l) == StageAt(e, p, x, l)
  }

  lemma {:induction false} StageStarts(e: Entries, p: PortData)
    ensures IsStage(e, p, p.lid, e)
  {
    hide LastLid;
  }

  lemma {:induction false} StageEnds(e: Entries, p: PortData, s: Entries)
    requires IsStage(e, p, LastLid(p) + 1, s)
    ensures IsAdded(e, p, s)
  {
    hide LastLid, At;
  }

  /** Only the holder of x is newly met at x. */
  lemma {:induction false} MetAt(e: Entries, p: PortData, x: nat, l: nat)
    requires WholeRanges(e) && p.lid <= x && l in e
    ensures HitBefore(e[l], p, x + 1) <==> HitBefore(e[l], p, x) || (e[l] != p && x in e && e[x] == e[l])
  {
    hide LastLid;
    if x == e[l].lid || e[l].lid <= x <= LastLid(e[l]) {
      assert Owns(e[l], x);
    }
    if x in e {
      assert Owns(e[x], x);
    }
  }

  lemma {:induction false} StageNext(e: Entries, p: PortData, x: nat, l: nat)
    requires WholeRanges(e) && p.lid <= x
    ensures StageAt(e, p, x + 1, l)
            == if l == x then Some(p)
               else if x in e && e[x] != p && !HitBefore(e[x], p, x) && Owns(e[x], l) then None
               else StageAt(e, p, x, l)
  {
    hide LastLid, HitBefore;
    if l in e {
      MetAt(e, p, x, l);
    }
    if x in e && e[x] != p && !HitBefore(e[x], p, x) && Owns(e[x], l) && p.lid <= l < x {
      NotYetMet(e[x], p, x, l);
    }
  }

  lemma {:induction false} NotYetMet(q: PortData, p: PortData, x: nat, l: nat)
    requires q != p && p.lid <= l < x && Owns(q, l)
    ensures HitBefore(q, p, x)
  {
    hide LastLid;
  }

  /** The next LID is free or p's own: p holds it now. */
  lemma {:induction false} StageFree(e: Entries, p: PortData, x: nat, s: Entries)
    requires WholeRanges(e) && p.lid <= x && IsStage(e, p, x, s) && (x in s ==> s[x] == p)
    ensures IsStage(e, p, x + 1, s[x := p])
  {
    hide LastLid, HitBefore;
    assert At(s, x) == StageAt(e, p, x, x);
    var s' := s[x := p];
    forall l: nat
      ensures At(s', l) == StageAt(e, p, x + 1, l)
    {
      assert At(s, l) == StageAt(e, p, x, l);
      StageNext(e, p, x, l);
    }
  }

  /** Another port holds the next LID: it still holds its whole range, and goes. */
  lemma {:induction false} StageTaken(e: Entries, p: PortData, x: nat, s: Entries)
    requires WholeRanges(e) && p.lid <= x && IsStage(e, p, x, s) && x in s && s[x] != p
    ensures x in e && s[x] == e[x] && OwnsWhole(s, s[x]) && x !in Removed(s, s[x])
    ensures IsStage(e, p, x + 1, Removed(s, s[x])[x := p])
  {
    hide LastLid, HitBefore;
    assert At(s, x) == StageAt(e, p, x, x);
    var q := e[x];
    assert Owns(q, x);
    forall l: nat | Owns(q, l)
      ensures l in s && s[l] == q
    {
      assert At(s, l) == StageAt(e, p, x, l);
      if p.lid <= l < x {
        NotYetMet(q, p, x, l);
      }
    }
    var s' := Removed(s, q)[x := p];
    forall l: nat
      ensures At(s', l) == StageAt(e, p, x + 1, l)
    {
      assert At(s, l) == StageAt(e, p, x, l);
      StageNext(e, p, x, l);
    }
  }

  /** No other port has been met below x. */
  ghost predicate NoneMet(e: Entries, p: PortData, x: nat) {
    forall l :: l in e && p.lid <= l < x ==> e[l] == p
  }

  /** Undoing a claim that met another port. */
  lemma {:induction false} Undone(e: Entries, p: PortData, x: nat, s: Entries)
    requires WholeRanges(e) && p.lid <= x <= LastLid(p) && x in e && e[x] != p && IsStage(e, p, x, s) && NoneMet(e, p, x)
    ensures s - Between(p.lid, x) == e
    ensures |s| == |e| + (x - p.lid)
  {
    hide LastLid, HitBefore, WholeRanges, NoneMet;
    forall l: nat
      ensures At(s, l) == if p.lid <= l < x then Some(p) else At(e, l)
      ensures l in e ==> !(p.lid <= l < x)
    {
      assert At(s, l) == StageAt(e, p, x, l);
      Untouched(e, p, x, l);
    }
    assert s.Keys == e.Keys + Between(p.lid, x);
    assert |s.Keys| == |s| && |e.Keys| == |e|;
  }

  lemma {:induction false} Untouched(e: Entries, p: PortData, x: nat, l: nat)
    requires WholeRanges(e) && p.lid <= x <= LastLid(p) && x in e && e[x] != p && NoneMet(e, p, x)
    ensures l in e ==> !(p.lid <= l < x) && !HitBefore(e[l], p, x)
  {
    hide LastLid;
    assert Owns(p, x);
    if l in e {
      var k := if e[l].lid > p.lid then e[l].lid else p.lid;
      if Owns(e[l], k) && k in e {
      }
    }
  }

  lemma {:induction false} OneMoreCleared(e: Entries, a: nat, x: nat)
    requires a <= x
    ensures (e - Between(a, x)) - {x} == e - Between(a, x + 1)
  {
  }

  lemma {:induction false} NothingCleared(e: Entries, a: nat)
    ensures e - Between(a, a) == e
  {
  }

  // ---------------------------------------------------------------- the table

  datatype Status = Success | Duplicate | Error

  /** Ports that take part: up, dormant, or port 0 of a switch with no state. */
  predicate Eligible(state: PortState, switchPort0: bool) {
    state == Up || state == Dormant || (switchPort0 && state == Nop)
  }

  /** Ports that are up or dormant always take part, ports that are down never; without a state only
      port 0 of a switch does. */
  lemma EligibleStates(switchPort0: bool)
    ensures Eligible(Up, switchPort0) && Eligible(Dormant, switchPort0) && !Eligible(Down, switchPort0)
    ensures Eligible(Nop, switchPort0) <==> switchPort0
  {
  }

  /** A range is contested exactly when it meets the range of another listed port. */
  lemma {:induction false} ContestedIffOverlap(e: Entries, p: PortData)
    requires Sound(e)
    ensures Contested(e, p) <==> exists l :: l in e && Overlap(e[l], p)
  {
    hide LastLid, Listable;
    if Contested(e, p) {
      var l: nat :| l in e && Owns(p, l) && e[l] != p;
      assert Owns(e[l], l);
      assert Overlap(e[l], p);
    }
    if exists l :: l in e && Overlap(e[l], p) {
      var l :| l in e && Overlap(e[l], p);
      var k := if e[l].lid > p.lid then e[l].lid else p.lid;
      assert OwnsWhole(e, e[l]) && Owns(e[l], k) && Owns(p, k);
    }
  }

  class LidTable {
    const lidMap: LidMap
    var lidCount: nat

    ghost predicate Valid()
      reads this, lidMap, lidMap.blocks, lidMap.pages
    {
      && lidMap.Valid() && Sound(lidMap.entries) && lidCount == |lidMap.entries|
    }

    constructor ()
      ensures Valid() && fresh(lidMap) && fresh(lidMap.blocks) && fresh(lidMap.pages) && lidMap.entries == map[]
    {
      lidMap := new LidMap();
      lidCount := 0;
    }

    /** What the table may be asked to take off: a port that holds its whole range, or one
        that is not eligible and holds nothing. */
    ghost predicate Removable(p: PortData)
      reads this, lidMap, p
    {
      if p.lid in lidMap.entries && lidMap.entries[p.lid] == p then Listable(p) && OwnsWhole(lidMap.entries, p)
      else p.state != Up && p.state != Dormant
    }

    /** Clear a port's LIDs. A port that is not eligible is only looked for. */
    method AllLidsRemove(p: PortData)
      requires lidMap.Valid() && lidCount == |lidMap.entries| && Removable(p)
      modifies this`lidCount, lidMap, lidMap.blocks, lidMap.pages
      ensures lidMap.Valid() && lidMap.pages == old(lidMap.pages) && lidCount == |lidMap.entries|
      ensures lidMap.entries == if p.guid != 0 && p.lid != 0 && At(old(lidMap.entries), p.lid) == Some(p)
                              then Removed(old(lidMap.entries), p) else old(lidMap.entries)
    {
      hide LidMap.Valid, LastLid, Size, OwnsWhole, Aligned, Removed, Between;
      if p.guid == 0 || p.lid == 0 {
        return;
      }
      if p.state != Dormant && p.state != Up {
        var q := lidMap.GetMapEntry(p.lid);
        if q != p {
          return;
        }
      }
      ghost var before := lidMap.entries;
      RemovedCounts(before, p);
      ClearRange(p);
      lidCount := lidCount - Size(p.lmc);
    }

    method ClearRange(p: PortData)
      requires lidMap.Valid()
      modifies lidMap, lidMap.blocks, lidMap.pages
      ensures lidMap.Valid() && lidMap.pages == old(lidMap.pages) && lidMap.entries == Removed(old(lidMap.entries), p)
    {
      hide LidMap.Valid, LastLid, Size, Between;
      ClearBelow(p, LastLid(p) + 1);
    }

    /** Clear the LIDs of p below x. */
    method ClearBelow(p: PortData, x: nat)
      requires lidMap.Valid() && p.lid <= x
      modifies lidMap, lidMap.blocks, lidMap.pages
      ensures lidMap.Valid() && lidMap.pages == old(lidMap.pages)
      ensures lidMap.entries == old(lidMap.entries) - Between(p.lid, x)
    {
      hide LidMap.Valid, LastLid, Size, Between;
      ghost var entries, pages := lidMap.entries, lidMap.pages;
      var first := p.lid;
      while first < x
        invariant p.lid <= first <= x && lidMap.Valid() && lidMap.pages == pages
        invariant lidMap.entries == entries - Between(p.lid, first)
      {
        var ok := lidMap.SetMapEntry(first, null);
        OneMoreCleared(entries, p.lid, first);
        first := first + 1;
      }
    }

    /** Give up the first `count` LIDs of a range just claimed. */
    method PartialLidsRemove(p: PortData, count: nat)
      requires lidMap.Valid() && lidCount >= count
      modifies this`lidCount, lidMap, lidMap.blocks, lidMap.pages
      ensures lidMap.Valid() && lidMap.pages == old(lidMap.pages)
      ensures lidMap.entries == old(lidMap.entries) - Between(p.lid, p.lid + count) && lidCount == old(lidCount) - count
    {
      hide LidMap.Valid, LastLid, Size, Between;
      ghost var entries, pages, before := lidMap.entries, lidMap.pages, lidCount;
      NothingCleared(entries, p.lid);
      var first := p.lid;
      while first < p.lid + count
        invariant p.lid <= first <= p.lid + count && lidMap.Valid() && lidMap.pages == pages
        invariant lidMap.entries == entries - Between(p.lid, first) && lidCount == before - (first - p.lid)
      {
        var ok := lidMap.SetMapEntry(first, null);
        OneMoreCleared(entries, p.lid, first);
        first := first + 1;
        lidCount := lidCount - 1;
      }
    }

    /** The table is sound but for port p, which has claimed its LIDs below x. */
    ghost predicate Claiming(e: Entries, p: PortData, x: nat)
      reads this, lidMap, lidMap.blocks, lidMap.pages
    {
      && lidMap.Valid() && lidCount == |lidMap.entries|
      && IsStage(e, p, x, lidMap.entries)
    }

    /** Claim one LID; if another port holds it and force is off, say so instead. */
    method ClaimOne(p: PortData, x: nat, force: bool, ghost e: Entries) returns (met: bool)
      requires Claiming(e, p, x) && Sound(e) && Owns(p, x) && Listable(p)
      modifies this`lidCount, lidMap, lidMap.blocks, lidMap.pages
      ensures fresh(lidMap.pages - old(lidMap.pages))
      ensures met <==> x in old(lidMap.entries) && old(lidMap.entries)[x] != p
      ensures if met && !force then Claiming(e, p, x) && lidMap.entries == old(lidMap.entries) else Claiming(e, p, x + 1)
    {
      hide LidMap.Valid, LastLid, Size, IsStage, Sound, Removed, At;
      RangeInMap(p);
      var test := lidMap.GetMapEntry(x);
      met := test != null && test != p;
      if !met {
        SoundStageFree(e, p, x, lidMap.entries);
      }
      if test != p {
        if test != null {
          if !force {
            return;
          }
          SoundStageTaken(e, p, x, lidMap.entries);
          AllLidsRemove(test);
        }
        lidCount := lidCount + 1;
        var ok := lidMap.SetMapEntry(x, p);
      }
    }

    lemma {:induction false} SoundStageFree(e: Entries, p: PortData, x: nat, s: Entries)
      requires Sound(e) && p.lid <= x && IsStage(e, p, x, s) && (x in s ==> s[x] == p)
      ensures IsStage(e, p, x + 1, s[x := p]) && (x in s ==> s[x := p] == s)
    {
      hide IsStage, LastLid;
      StageFree(e, p, x, s);
    }

    lemma {:induction false} SoundStageTaken(e: Entries, p: PortData, x: nat, s: Entries)
      requires Sound(e) && p.lid <= x && IsStage(e, p, x, s) && x in s && s[x] != p
      ensures OwnsWhole(s, s[x]) && Listable(s[x]) && x !in Removed(s, s[x]) && At(s, s[x].lid) == Some(s[x])
      ensures IsStage(e, p, x + 1, Removed(s, s[x])[x := p])
    {
      hide IsStage, LastLid;
      StageTaken(e, p, x, s);
      assert Owns(s[x], s[x].lid);
    }

    /** Claim a whole range. A contested range is refused, or with force its holders go. */
    method ClaimRange(p: PortData, force: bool) returns (status: Status)
      requires Valid() && Listable(p)
      modifies this`lidCount, lidMap, lidMap.blocks, lidMap.pages
      ensures Valid() && fresh(lidMap.pages - old(lidMap.pages))
      ensures status == if Contested(old(lidMap.entries), p) then Duplicate else Success
      ensures if status == Duplicate && !force then lidMap.entries == old(lidMap.entries)
              else IsAdded(old(lidMap.entries), p, lidMap.entries)
    {
      hide LidMap.Valid, LastLid, Size, IsStage, Sound, IsAdded, Contested, NoneMet;
      ghost var e := lidMap.entries;
      status := Success;
      StageStarts(e, p);
      NoneMetAtStart(e, p);
      var x := p.lid;
      while x <= LastLid(p)
        invariant p.lid <= x <= LastLid(p) + 1 && fresh(lidMap.pages - old(lidMap.pages)) && Claiming(e, p, x)
        invariant status != Error && (status == Success <==> NoneMet(e, p, x)) && (!force ==> status == Success)
      {
        ghost var s := lidMap.entries;
        var met := ClaimOne(p, x, force, e);
        MeetsNext(e, p, x, s);
        if met {
          status := Duplicate;
          if !force {
            Refuse(p, x, e);
            return;
          }
        }
        x := x + 1;
      }
      Claimed(e, p, lidMap.entries);
    }

    /** Another port holds LID x: undo the claim so far. */
    method Refuse(p: PortData, x: nat, ghost e: Entries)
      requires Claiming(e, p, x) && Sound(e) && Owns(p, x) && NoneMet(e, p, x)
      requires x in lidMap.entries && lidMap.entries[x] != p
      modifies this`lidCount, lidMap, lidMap.blocks, lidMap.pages
      ensures lidMap.Valid() && lidMap.pages == old(lidMap.pages) && lidCount == |e| && lidMap.entries == e
      ensures Contested(e, p)
    {
      hide LidMap.Valid, LastLid, Size, IsStage, Sound, Contested, NoneMet;
      SoundUndone(e, p, x, lidMap.entries);
      PartialLidsRemove(p, x - p.lid);
    }

    lemma {:induction false} NoneMetAtStart(e: Entries, p: PortData)
      ensures NoneMet(e, p, p.lid)
    {
    }

    /** The LID meets another port exactly when it did so before claiming began, as long as none
        had been met. */
    lemma {:induction false} MeetsNext(e: Entries, p: PortData, x: nat, s: Entries)
      requires Sound(e) && p.lid <= x && Owns(p, x) && IsStage(e, p, x, s)
      ensures NoneMet(e, p, x + 1) <==> NoneMet(e, p, x) && !(x in s && s[x] != p)
    {
      hide LastLid;
      assert At(s, x) == StageAt(e, p, x, x);
      if x in e && e[x] != p && HitBefore(e[x], p, x) {
        var k := if e[x].lid > p.lid then e[x].lid else p.lid;
        assert Owns(e[x], x);
        assert Owns(e[x], k);
        assert k in e && e[k] == e[x] && p.lid <= k < x;
      }
    }

    lemma {:induction false} SoundUndone(e: Entries, p: PortData, x: nat, s: Entries)
      requires Sound(e) && Owns(p, x) && IsStage(e, p, x, s) && x in s && s[x] != p && NoneMet(e, p, x)
      ensures s - Between(p.lid, x) == e && |s| == |e| + (x - p.lid) && Contested(e, p)
    {
      hide LastLid;
      assert At(s, x) == StageAt(e, p, x, x);
      Undone(e, p, x, s);
    }

    lemma {:induction false} Claimed(e: Entries, p: PortData, s: Entries)
      requires Sound(e) && Listable(p) && IsStage(e, p, LastLid(p) + 1, s)
      ensures IsAdded(e, p, s) && Sound(s) && (Contested(e, p) <==> !NoneMet(e, p, LastLid(p) + 1))
    {
      hide LastLid, IsStage;
      StageEnds(e, p, s);
      AddedIsSound(e, p, s);
    }

    /** Add a port that takes part. */
    method AllLidsAdd(p: PortData, force: bool) returns (status: Status)
      requires Valid() && (p.guid != 0 && Eligible(p.state, p.switchPort0) ==> p.lid != 0 && Aligned(p))
      modifies this`lidCount, lidMap, lidMap.blocks, lidMap.pages
      ensures Valid() && fresh(lidMap.pages - old(lidMap.pages))
      ensures status == Asked(old(lidMap.entries), p)
      ensures AddedOr(old(lidMap.entries), p, status == Success || (status == Duplicate && force), lidMap.entries)
    {
      hide LidMap.Valid, Sound, IsAdded, Contested, Aligned, LastLid, Size;
      if p.guid == 0 {
        return Success;
      }
      if p.state != Up && p.state != Dormant && !(p.switchPort0 && p.state == Nop) {
        return Success;
      }
      if p.lid > LID_MAX {
        return Error;
      }
      status := ClaimRange(p, force);
    }

    /** What an attempt to add p reports. */
    static ghost function Asked(e: Entries, p: PortData): Status
      reads p
    {
      if p.guid == 0 || !Eligible(p.state, p.switchPort0) then Success
      else if p.lid > LID_MAX then Error
      else if Contested(e, p) then Duplicate else Success
    }

    /** The table before and after an attempt to add p. */
    static ghost predicate AddedOr(e: Entries, p: PortData, goes: bool, e': Entries)
      reads p
    {
      if p.guid != 0 && Eligible(p.state, p.switchPort0) && p.lid <= LID_MAX && goes then IsAdded(e, p, e') else e' == e
    }

    /** A port's state changed: an eligible port takes its LIDs from whoever holds them, any other
        gives up its own. */
    method PortDataStateChanged(p: PortData)
      requires Valid() && (p.guid != 0 && Eligible(p.state, p.switchPort0) ==> p.lid != 0 && Aligned(p))
      modifies this`lidCount, lidMap, lidMap.blocks, lidMap.pages
      ensures Valid() && fresh(lidMap.pages - old(lidMap.pages))
      ensures p.state == Up || p.state == Dormant ==>
                if p.guid != 0 && p.lid <= LID_MAX then IsAdded(old(lidMap.entries), p, lidMap.entries)
                else lidMap.entries == old(lidMap.entries)
      ensures p.state != Up && p.state != Dormant ==> IsGone(old(lidMap.entries), p, lidMap.entries)
    {
      hide LidMap.Valid, IsAdded, Contested, Aligned, LastLid, Size;
      if p.state == Up || p.state == Dormant {
        var status := AllLidsAdd(p, true);
      } else {
        GoesWhole(lidMap.entries, p);
        AllLidsRemove(p);
      }
    }

    /** All LIDs of p are free and nothing else has changed. */
    static ghost predicate IsGone(e: Entries, p: PortData, e': Entries) {
      forall l: nat :: At(e', l) == if At(e, l) == Some(p) then None else At(e, l)
    }

    lemma {:induction false} GoesWhole(e: Entries, p: PortData)
      requires Sound(e)
      ensures At(e, p.lid) == Some(p) ==> Listable(p) && OwnsWhole(e, p) && Sound(Removed(e, p)) && IsGone(e, p, Removed(e, p))
      ensures At(e, p.lid) != Some(p) ==> IsGone(e, p, e)
    {
      hide LastLid, Size;
      if At(e, p.lid) == Some(p) {
        RemovedIsSound(e, p);
      } else {
        forall l | l in e
          ensures e[l] != p
        {
          assert Owns(e[l], e[l].lid);
        }
      }
    }
  }
}
