/** Expected links competing for the links of the fabric (Topology/topology.c, ResolvePorts).

    Each expected link is resolved to at most two ports and a match level. A physical link
    should belong to the best match. A run is the sequence of resolutions; the state is which
    expected link each port points to and what each expected link points to. */
module ExpectedLinks {
  import opened Options
  import opened PortIds

  /** Where an expected link resolved to, and how well. */
  datatype Resolution = Resolution(p1: Option<PortId>, p2: Option<PortId>, level: nat)

  const UNASSOCIATED := Resolution(None, None, 0)

  /** `own[p]` is the expected link port p points to; `links[i]` is what expected link i holds. */
  datatype State = State(own: map<PortId, nat>, links: seq<Resolution>)

  const START := State(map[], [])

  /** One more expected link (Topology/topology.c:443-493). */
  function Step(w: Wiring, st: State, r: Resolution): State
    requires OwnersExist(st)
  {
    if (r.p1.None? && r.p2.None?) || Refuses(st, r) then st.(links := st.links + [UNASSOCIATED])
    else
      var y := Yield(st, r);
      Attach(w, State(y.own, y.links + [r]), r, |st.links|)
  }

  /** The owner of both ports is a better match. */
  predicate Refuses(st: State, r: Resolution)
    requires OwnersExist(st)
  {
    Contested(st, r) && st.links[st.own[r.p1.value]].level > r.level
  }

  /** The owner of both ports gives them up if it is a worse match. */
  function Yield(st: State, r: Resolution): State
    requires OwnersExist(st)
  {
    if Contested(st, r) && st.links[st.own[r.p1.value]].level < r.level then
      State(st.own - {r.p1.value, r.p2.value}, st.links[st.own[r.p1.value] := UNASSOCIATED])
    else st
  }

  predicate OwnersExist(st: State) {
    forall p :: p in st.own ==> st.own[p] < |st.links|
  }

  /** Both ports already point to one expected link. */
  predicate Contested(st: State, r: Resolution) {
    && r.p1.Some? && r.p2.Some? && r.p1.value in st.own && r.p2.value in st.own
    && st.own[r.p1.value] == st.own[r.p2.value]
  }

  /** The two ends of a physical link, neither of them taken, now point to link i. */
  function Attach(w: Wiring, st: State, r: Resolution, i: nat): State {
    if r.p1.Some? && r.p2.Some? && r.p1.value in w && w[r.p1.value] == r.p2.value
       && r.p1.value !in st.own && r.p2.value !in st.own
    then st.(own := st.own[r.p1.value := i][r.p2.value := i])
    else st
  }

  function Run(w: Wiring, hist: seq<Resolution>): (st: State)
    ensures |st.links| == |hist| && OwnersExist(st)
  {
    if hist == [] then START else Step(w, Run(w, hist[..|hist| - 1]), hist[|hist| - 1])
  }

  // ---------------------------------------------------------------- best match

  predicate Joins(r: Resolution, p: PortId, q: PortId) {
    (r.p1 == Some(p) && r.p2 == Some(q)) || (r.p1 == Some(q) && r.p2 == Some(p))
  }

  /** Link i is the first of the best of those that resolved to exactly p and q. */
  ghost predicate IsBest(hist: seq<Resolution>, p: PortId, q: PortId, i: nat) {
    && i < |hist| && Joins(hist[i], p, q)
    && forall j :: 0 <= j < |hist| && Joins(hist[j], p, q) ==>
         hist[j].level <= hist[i].level && (j < i ==> hist[j].level < hist[i].level)
  }

  /** Each physical link belongs to its best match, at both ends; to none if none joins it. */
  ghost predicate BestMatchWins(w: Wiring, hist: seq<Resolution>, st: State) {
    && (forall p :: p in st.own ==> p in w)
    && (forall p :: p in w ==> (p in st.own <==> w[p] in st.own))
    && (forall p :: p in w && p in st.own ==> st.own[p] == st.own[w[p]] && IsBest(hist, p, w[p], st.own[p]))
    && (forall p, j :: p in w && 0 <= j < |hist| && Joins(hist[j], p, w[p]) ==> p in st.own)
  }

  /** Both ends of every attached physical link point to the same expected link. */
  ghost predicate EndsAgree(w: Wiring, st: State) {
    forall p :: p in st.own ==> p in w && w[p] in st.own && st.own[w[p]] == st.own[p]
  }

  /** Every expected link keeps its ports, unless it resolved nowhere or a better one claims them. */
  ghost predicate LostOnlyToBetter(hist: seq<Resolution>, st: State) {
    && |st.links| == |hist|
    && forall i :: 0 <= i < |hist| ==>
         st.links[i] == hist[i]
         || (st.links[i] == UNASSOCIATED && ((hist[i].p1.None? && hist[i].p2.None?) || exists j :: Beats(hist, j, i)))
  }

  ghost predicate Beats(hist: seq<Resolution>, j: nat, i: nat) {
    && j < |hist| && i < |hist| && hist[i].level < hist[j].level
    && hist[i].p1 in [hist[j].p1, hist[j].p2] && hist[i].p2 in [hist[j].p1, hist[j].p2]
  }

  /** The owners still hold their ports. */
  ghost predicate OwnersHold(hist: seq<Resolution>, st: State) {
    |st.links| == |hist| && forall p :: p in st.own ==> st.own[p] < |hist| && st.links[st.own[p]] == hist[st.own[p]]
  }

  ghost predicate Inv(w: Wiring, hist: seq<Resolution>, st: State) {
    BestMatchWins(w, hist, st) && LostOnlyToBetter(hist, st) && OwnersHold(hist, st)
  }

  /** The step that breaks agreement: both selectors came to the same attached port, and match
      it better than its owner matches the link. */
  ghost predicate Splits(st: State, r: Resolution)
    requires OwnersExist(st)
  {
    r.p1 == r.p2 && r.p1.Some? && r.p1.value in st.own && st.links[st.own[r.p1.value]].level < r.level
  }

  // ---------------------------------------------------------------- one step

  /** What an attached physical link's owner says about later links. */
  lemma {:induction false} StillBest(hist: seq<Resolution>, r: Resolution, p: PortId, q: PortId, i: nat)
    requires IsBest(hist, p, q, i) && (Joins(r, p, q) ==> r.level <= hist[i].level)
    ensures IsBest(hist + [r], p, q, i)
  {
  }

  lemma {:induction false} BecomesBest(hist: seq<Resolution>, r: Resolution, p: PortId, q: PortId)
    requires Joins(r, p, q) && forall j :: 0 <= j < |hist| && Joins(hist[j], p, q) ==> hist[j].level < r.level
    ensures IsBest(hist + [r], p, q, |hist|)
  {
  }

  lemma {:induction false} BeatsAll(hist: seq<Resolution>, p: PortId, q: PortId, i: nat, r: Resolution)
    requires IsBest(hist, p, q, i) && hist[i].level < r.level
    ensures i < |hist| && forall j :: 0 <= j < |hist| && Joins(hist[j], p, q) ==> hist[j].level < r.level
  {
  }

  /** The ports stay as they are. */
  lemma {:induction false} NothingTaken(w: Wiring, hist: seq<Resolution>, st: State, st': State, r: Resolution)
    requires BestMatchWins(w, hist, st) && st'.own == st.own
    requires forall p :: p in w && Joins(r, p, w[p]) ==> p in st.own && r.level <= hist[st.own[p]].level
    ensures BestMatchWins(w, hist + [r], st')
  {
    forall p | p in w && p in st.own
      ensures IsBest(hist + [r], p, w[p], st.own[p])
    {
      StillBest(hist, r, p, w[p], st.own[p]);
    }
  }

  /** Link r takes the physical link between p and q. */
  lemma {:induction false} Taken(w: Wiring, hist: seq<Resolution>, st: State, st': State, r: Resolution, p: PortId, q: PortId)
    requires BestMatchWins(w, hist, st) && p in w && w[p] == q && Joins(r, p, q)
    requires st'.own == st.own[p := |hist|][q := |hist|]
    requires p in st.own ==> hist[st.own[p]].level < r.level
    ensures BestMatchWins(w, hist + [r], st')
  {
    hide IsBest;
    if p in st.own {
      BeatsAll(hist, p, q, st.own[p], r);
    }
    forall k | k in w && k in st'.own
      ensures st'.own[k] == st'.own[w[k]] && IsBest(hist + [r], k, w[k], st'.own[k])
    {
      if k == p || k == q {
        BecomesBest(hist, r, k, w[k]);
      } else {
        StillBest(hist, r, k, w[k], st.own[k]);
      }
    }
  }

  /** Link r is added with its ports; the others keep what they hold. */
  lemma {:induction false} Added(hist: seq<Resolution>, st: State, st': State, r: Resolution)
    requires LostOnlyToBetter(hist, st) && OwnersHold(hist, st)
    requires st'.links == st.links + [r] || (st'.links == st.links + [UNASSOCIATED] && r.p1.None? && r.p2.None?)
    requires forall p :: p in st'.own ==> (p in st.own && st'.own[p] == st.own[p]) || (st'.own[p] == |hist| && st'.links[|hist|] == r)
    ensures LostOnlyToBetter(hist + [r], st') && OwnersHold(hist + [r], st')
  {
    StillBeaten(hist, r);
  }

  lemma {:induction false} StillBeaten(hist: seq<Resolution>, r: Resolution)
    ensures forall j: nat, i: nat :: Beats(hist, j, i) ==> Beats(hist + [r], j, i)
  {
  }

  /** A better rival holds the ports of link r. */
  lemma {:induction false} Refused(hist: seq<Resolution>, st: State, r: Resolution, rival: nat)
    requires LostOnlyToBetter(hist, st) && OwnersHold(hist, st)
    requires rival < |hist| && Beats(hist + [r], rival, |hist|)
    ensures LostOnlyToBetter(hist + [r], st.(links := st.links + [UNASSOCIATED]))
    ensures OwnersHold(hist + [r], st.(links := st.links + [UNASSOCIATED]))
  {
    StillBeaten(hist, r);
  }

  /** Link r displaces its rival. */
  lemma {:induction false} Displaced(hist: seq<Resolution>, st: State, st': State, r: Resolution, rival: nat)
    requires LostOnlyToBetter(hist, st) && OwnersHold(hist, st)
    requires rival < |hist| && Beats(hist + [r], |hist|, rival)
    requires st'.links == st.links[rival := UNASSOCIATED] + [r]
    requires forall p :: p in st'.own ==> st'.own[p] != rival && (st'.own[p] == |hist| || (p in st.own && st'.own[p] == st.own[p]))
    ensures LostOnlyToBetter(hist + [r], st') && OwnersHold(hist + [r], st')
  {
    StillBeaten(hist, r);
  }

  /** An attached port's owner joins exactly that port and its neighbour. */
  lemma {:induction false} OwnerJoins(w: Wiring, hist: seq<Resolution>, st: State, p: PortId)
    requires BestMatchWins(w, hist, st) && p in st.own
    ensures st.own[p] < |hist| && Joins(hist[st.own[p]], p, w[p])
  {
    assert IsBest(hist, p, w[p], st.own[p]);
  }

  /** A step that does not split a pair keeps the best matches. */
  lemma {:induction false} StepKeeps(w: Wiring, hist: seq<Resolution>, st: State, r: Resolution)
    requires Inv(w, hist, st) && OwnersExist(st) && !Splits(st, r)
    ensures Inv(w, hist + [r], Step(w, st, r))
  {
    hide IsBest, LostOnlyToBetter, OwnersHold, BestMatchWins;
    if Contested(st, r) {
      StepContested(w, hist, st, r);
    } else {
      StepUncontested(w, hist, st, r);
    }
  }

  lemma {:induction false} StepUncontested(w: Wiring, hist: seq<Resolution>, st: State, r: Resolution)
    requires Inv(w, hist, st) && OwnersExist(st) && !Contested(st, r)
    ensures Inv(w, hist + [r], Step(w, st, r))
  {
    hide IsBest, LostOnlyToBetter;
    var st' := Step(w, st, r);
    Added(hist, st, st', r);
    if st'.own == st.own {
      NothingTaken(w, hist, st, st', r);
    } else {
      Taken(w, hist, st, st', r, r.p1.value, r.p2.value);
    }
  }

  lemma {:induction false} StepContested(w: Wiring, hist: seq<Resolution>, st: State, r: Resolution)
    requires Inv(w, hist, st) && OwnersExist(st) && Contested(st, r) && !Splits(st, r)
    ensures Inv(w, hist + [r], Step(w, st, r))
  {
    hide IsBest, LostOnlyToBetter, BestMatchWins;
    var rival := st.own[r.p1.value];
    OwnerJoins(w, hist, st, r.p1.value);
    OwnerJoins(w, hist, st, r.p2.value);
    var st' := Step(w, st, r);
    if st.links[rival].level < r.level {
      StepDisplaces(w, hist, st, r);
    } else {
      OwnersLevel(w, hist, st, r);
      if st.links[rival].level > r.level {
        Refused(hist, st, r, rival);
      } else {
        Added(hist, st, st', r);
      }
      NothingTaken(w, hist, st, st', r);
    }
  }

  lemma {:induction false} OwnersLevel(w: Wiring, hist: seq<Resolution>, st: State, r: Resolution)
    requires Inv(w, hist, st) && OwnersExist(st) && Contested(st, r) && st.links[st.own[r.p1.value]].level >= r.level
    ensures forall p :: p in w && Joins(r, p, w[p]) ==> p in st.own && r.level <= hist[st.own[p]].level
  {
  }

  lemma {:induction false} StepDisplaces(w: Wiring, hist: seq<Resolution>, st: State, r: Resolution)
    requires Inv(w, hist, st) && OwnersExist(st) && Contested(st, r) && r.p1 != r.p2
    requires st.links[st.own[r.p1.value]].level < r.level
    ensures Inv(w, hist + [r], Step(w, st, r))
  {
    hide IsBest, LostOnlyToBetter, BestMatchWins;
    var p, q := r.p1.value, r.p2.value;
    OwnsThePair(w, hist, st, p, q);
    var st' := Step(w, st, r);
    assert st'.own == st.own[p := |hist|][q := |hist|];
    Taken(w, hist, st, st', r, p, q);
    Displaced(hist, st, st', r, st.own[p]);
  }

  /** Ports that share an owner are the two ends of a physical link. */
  lemma {:induction false} OwnsThePair(w: Wiring, hist: seq<Resolution>, st: State, p: PortId, q: PortId)
    requires BestMatchWins(w, hist, st) && p in st.own && q in st.own && st.own[p] == st.own[q] && p != q
    ensures p in w && w[p] == q && st.own[p] < |hist| && Joins(hist[st.own[p]], p, q)
    ensures forall k :: k in st.own && st.own[k] == st.own[p] ==> k == p || k == q
  {
    hide IsBest;
    forall k | k in st.own
      ensures st.own[k] < |hist| && Joins(hist[st.own[k]], k, w[k])
    {
      OwnerJoins(w, hist, st, k);
    }
  }

  // ---------------------------------------------------------------- whole runs

  /** No step of the run splits a pair. */
  ghost predicate NeverSplits(w: Wiring, hist: seq<Resolution>) {
    hist == [] || (var n := |hist| - 1; NeverSplits(w, hist[..n]) && !Splits(Run(w, hist[..n]), hist[n]))
  }

  /** The two ends of every physical link agree after every step of the run. */
  ghost predicate AlwaysAgrees(w: Wiring, hist: seq<Resolution>) {
    EndsAgree(w, Run(w, hist)) && (hist == [] || AlwaysAgrees(w, hist[..|hist| - 1]))
  }

  /** Over a run that never splits a pair each physical link belongs to the first of its best matches. */
  lemma {:induction false} BestMatchesWin(w: Wiring, hist: seq<Resolution>)
    requires NeverSplits(w, hist)
    ensures Inv(w, hist, Run(w, hist))
  {
    if hist != [] {
      var n := |hist| - 1;
      BestMatchesWin(w, hist[..n]);
      StepKeeps(w, hist[..n], Run(w, hist[..n]), hist[n]);
      assert hist[..n] + [hist[n]] == hist;
    }
  }

  /** A step that splits a pair leaves its two ends pointing apart. */
  lemma {:induction false} SplitParts(w: Wiring, hist: seq<Resolution>, st: State, r: Resolution)
    requires Inv(w, hist, st) && OwnersExist(st) && Splits(st, r)
    ensures !EndsAgree(w, Step(w, st, r))
  {
    var p := r.p1.value;
    var st' := Step(w, st, r);
    assert p !in st'.own && w[p] in st'.own && w[w[p]] == p;
  }

  lemma {:induction false} AgreesNext(w: Wiring, hist: seq<Resolution>, r: Resolution)
    requires NeverSplits(w, hist)
    ensures EndsAgree(w, Run(w, hist + [r])) <==> !Splits(Run(w, hist), r)
  {
    hide Inv, EndsAgree, Step, Splits, NeverSplits;
    assert (hist + [r])[..|hist|] == hist;
    BestMatchesWin(w, hist);
    if Splits(Run(w, hist), r) {
      SplitParts(w, hist, Run(w, hist), r);
    } else {
      StepKeeps(w, hist, Run(w, hist), r);
      InvAgrees(w, hist + [r], Run(w, hist + [r]));
    }
  }

  lemma {:induction false} InvAgrees(w: Wiring, hist: seq<Resolution>, st: State)
    requires Inv(w, hist, st)
    ensures EndsAgree(w, st)
  {
  }

  /** No link reclaims one port. */
  ghost predicate NeverReclaims(w: Wiring, hist: seq<Resolution>) {
    hist == [] || (var n := |hist| - 1; NeverReclaims(w, hist[..n]) && !ReclaimsOnePort(w, hist[..n], hist[n]))
  }

  /** The two ends of every physical link agree throughout a run exactly when no link reclaims
      one port. */
  lemma {:induction false} AgreesIffNeverReclaims(w: Wiring, hist: seq<Resolution>)
    ensures AlwaysAgrees(w, hist) <==> NeverReclaims(w, hist)
    ensures NeverSplits(w, hist) <==> NeverReclaims(w, hist)
  {
    hide Run, Splits, ReclaimsOnePort, EndsAgree;
    if hist == [] {
      AgreesAtStart(w);
    } else {
      var n := |hist| - 1;
      AgreesIffNeverReclaims(w, hist[..n]);
      assert hist[..n] + [hist[n]] == hist;
      if NeverSplits(w, hist[..n]) {
        AgreesNext(w, hist[..n], hist[n]);
        SplitIffReclaims(w, hist[..n], hist[n]);
      }
    }
  }

  lemma {:induction false} AgreesAtStart(w: Wiring)
    ensures EndsAgree(w, Run(w, []))
  {
  }

  /** A link resolves to one port twice, better than every earlier match of that port's
      physical link; seen from the resolutions alone. */
  ghost predicate ReclaimsOnePort(w: Wiring, hist: seq<Resolution>, r: Resolution) {
    && r.p1 == r.p2 && r.p1.Some? && r.p1.value in w
    && (exists j :: 0 <= j < |hist| && Joins(hist[j], r.p1.value, w[r.p1.value]))
    && forall j :: 0 <= j < |hist| && Joins(hist[j], r.p1.value, w[r.p1.value]) ==> hist[j].level < r.level
  }

  lemma {:induction false} SplitIffReclaims(w: Wiring, hist: seq<Resolution>, r: Resolution)
    requires NeverSplits(w, hist)
    ensures Splits(Run(w, hist), r) <==> ReclaimsOnePort(w, hist, r)
  {
    var st := Run(w, hist);
    BestMatchesWin(w, hist);
    if r.p1 == r.p2 && r.p1.Some? && r.p1.value in st.own {
      assert IsBest(hist, r.p1.value, w[r.p1.value], st.own[r.p1.value]);
    }
  }

  /** One link between two ports, then a better one that names the first port twice: the ports no
      longer point to the same expected link. */
  lemma {:induction false} OnePortNamedTwice(w: Wiring, a: PortId, first: Resolution, second: Resolution)
    requires a in w && first.p1 == Some(a) && first.p2 == Some(w[a])
    requires second.p1 == second.p2 == Some(a) && first.level < second.level
    ensures var st := Run(w, [first, second]); a !in st.own && w[a] in st.own && !EndsAgree(w, st)
  {
    assert [first, second][..1] == [first] && [first][..0] == [];
    assert Run(w, [first]) == Step(w, START, first);
    assert Run(w, [first, second]) == Step(w, Run(w, [first]), second);
  }
}
