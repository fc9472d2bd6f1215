/** Which node and port an end of a link names, in the fields of its selector and of the nodes
    (Topology/topology.c:1116-1174; Topology/search.c:2141-2199). */
module TopologyNames {
  import opened Options
  import opened Widths
  import opened OrderedKeys
  import opened LinkSelectors
  import opened TopologyNodes
  import opened TopologyCheck

  /** Both strings have ended before place k, or they have the same character there. */
  ghost predicate AgreeAt(s: string, t: string, k: nat) {
    (k < |s| <==> k < |t|) && (k < |s| && k < |t| ==> s[k] == t[k])
  }

  ghost predicate AgreeTo64(s: string, t: string) {
    forall k :: 0 <= k < 64 ==> AgreeAt(s, t, k)
  }

  lemma {:induction false} SameTextIff(s: string, t: string)
    ensures SameText(s, t, 64) <==> AgreeTo64(s, t)
  {
    var u, v := Cut(s, 64), Cut(t, 64);
    if AgreeTo64(s, t) {
      assert |u| < 64 ==> AgreeAt(s, t, |u|);
      assert |v| < 64 ==> AgreeAt(s, t, |v|);
      forall k | 0 <= k < |u| ensures u[k] == v[k] {
        assert AgreeAt(s, t, k);
      }
    }
    if u == v {
      forall k | 0 <= k < 64 ensures AgreeAt(s, t, k) {
        assert k < |u| ==> u[k] == v[k];
      }
    }
  }

  ghost predicate IsCalled(n: ExpectedNode, desc: string) {
    n.nodeDesc.Some? && AgreeTo64(n.nodeDesc.value, desc)
  }

  /** The first node of the list that is called so. */
  ghost predicate IsFirstCalled(s: seq<ExpectedNode>, desc: string, n: ExpectedNode) {
    exists i :: 0 <= i < |s| && s[i] == n && IsCalled(n, desc) && forall j :: 0 <= j < i ==> !IsCalled(s[j], desc)
  }

  ghost predicate NoneCalled(s: seq<ExpectedNode>, desc: string) {
    forall n :: n in s ==> !IsCalled(n, desc)
  }

  /** A node found by description: a switch, unless the input says FI, or else an adapter, unless the
      input says SW. */
  ghost predicate IsDescribed(ls: Lists, desc: string, nodeType: nat, n: ExpectedNode) {
    || (nodeType != 1 && IsFirstCalled(ls.switches, desc, n))
    || (nodeType != 2 && (nodeType == 1 || NoneCalled(ls.switches, desc)) && IsFirstCalled(ls.fis, desc, n))
  }

  /** The input names port k of node n: by GUID, or else by description. Types must not differ where
      both are given, nor descriptions where both are given besides a GUID. */
  ghost predicate Names(ls: Lists, sel: Option<Selector>, n: ExpectedNode, k: Uint16) {
    && sel.Some? && sel.value.portNum == Some(k)
    && (n.nodeType == 0 || sel.value.nodeType == 0 || n.nodeType == sel.value.nodeType)
    && (if sel.value.nodeGuid != 0
        then sel.value.nodeGuid in ls.byGuid && ls.byGuid[sel.value.nodeGuid] == n
             && (sel.value.nodeDesc == None || n.nodeDesc == None || sel.value.nodeDesc == n.nodeDesc)
        else sel.value.nodeDesc.Some? && IsDescribed(ls, sel.value.nodeDesc.value, sel.value.nodeType, n))
  }

  lemma {:induction false} FirstDescribedIff(s: seq<ExpectedNode>, desc: string, n: ExpectedNode)
    ensures FirstDescribed(s, desc) == Some(n) <==> IsFirstCalled(s, desc, n)
    ensures FirstDescribed(s, desc) == None <==> NoneCalled(s, desc)
  {
    hide AgreeTo64, SameText;
    if s != [] {
      if s[0].nodeDesc.Some? {
        SameTextIff(s[0].nodeDesc.value, desc);
      }
      FirstDescribedIff(s[1..], desc, n);
      assert s == [s[0]] + s[1..];
      if IsCalled(s[0], desc) {
        assert IsFirstCalled(s, desc, s[0]);
      } else {
        FirstCalledLater(s, desc, n);
      }
    }
  }

  lemma {:induction false} FirstCalledLater(s: seq<ExpectedNode>, desc: string, n: ExpectedNode)
    requires s != [] && !IsCalled(s[0], desc)
    ensures IsFirstCalled(s, desc, n) <==> IsFirstCalled(s[1..], desc, n)
  {
    hide IsCalled;
    if IsFirstCalled(s, desc, n) {
      var i :| 0 <= i < |s| && s[i] == n && IsCalled(n, desc) && forall j :: 0 <= j < i ==> !IsCalled(s[j], desc);
      assert s[1..][i - 1] == n;
      assert forall j :: 0 <= j < i - 1 ==> !IsCalled(s[1..][j], desc);
    }
    if IsFirstCalled(s[1..], desc, n) {
      var i :| 0 <= i < |s[1..]| && s[1..][i] == n && IsCalled(n, desc) && forall j :: 0 <= j < i ==> !IsCalled(s[1..][j], desc);
      assert s[i + 1] == n;
      forall j | 0 <= j < i + 1 ensures !IsCalled(s[j], desc) {
        assert j > 0 ==> s[j] == s[1..][j - 1];
      }
    }
  }

  lemma {:induction false} ByDescIff(ls: Lists, desc: string, nodeType: nat, n: ExpectedNode)
    ensures ByDesc(ls, desc, nodeType) == Some(n) <==> IsDescribed(ls, desc, nodeType, n)
    ensures ByDesc(ls, desc, nodeType) == None ==> !exists m :: IsDescribed(ls, desc, nodeType, m)
  {
    hide IsFirstCalled, NoneCalled, FirstDescribed;
    FirstDescribedIff(ls.switches, desc, n);
    FirstDescribedIff(ls.fis, desc, n);
    forall m ensures FirstDescribed(ls.switches, desc) == Some(m) <==> IsFirstCalled(ls.switches, desc, m) {
      FirstDescribedIff(ls.switches, desc, m);
    }
    forall m ensures FirstDescribed(ls.fis, desc) == Some(m) <==> IsFirstCalled(ls.fis, desc, m) {
      FirstDescribedIff(ls.fis, desc, m);
    }
  }

  /** The end of a link that validation goes by is the one its selector names. */
  lemma {:induction false} EndIff(ls: Lists, links: Links, s: Side, n: ExpectedNode, k: Uint16)
    requires ls.WellFormed() && s.link < |links|
    ensures EndAt(ls, links, s) == Some(End(n, k))
            <==> Names(ls, if s.first then links[s.link].portselp1 else links[s.link].portselp2, n, k)
  {
    hide IsDescribed, ByDesc;
    var sel := SelectorAt(links, s);
    if sel.Some? && sel.value.nodeDesc.Some? {
      ByDescIff(ls, sel.value.nodeDesc.value, sel.value.nodeType, n);
    }
  }

  /** What the checks of an end come to, by the node it names. */
  lemma {:induction false} CheckIff(ls: Lists, sel: Option<Selector>)
    requires ls.WellFormed()
    ensures CheckSelector(ls, sel) == Success
            <==> sel.Some? && sel.value.portNum.Some? && exists n :: n in ls.Nodes() && Names(ls, sel, n, sel.value.portNum.value)
    ensures CheckSelector(ls, sel) == Success ==>
              Names(ls, sel, EndOf(ls, sel).node, EndOf(ls, sel).num)
              && forall n :: n in ls.Nodes() && Names(ls, sel, n, EndOf(ls, sel).num) ==> n == EndOf(ls, sel).node
  {
    hide IsDescribed, ByDesc;
    if sel.Some? && sel.value.nodeDesc.Some? {
      forall n ensures ByDesc(ls, sel.value.nodeDesc.value, sel.value.nodeType) == Some(n)
                       <==> IsDescribed(ls, sel.value.nodeDesc.value, sel.value.nodeType, n)
      {
        ByDescIff(ls, sel.value.nodeDesc.value, sel.value.nodeType, n);
      }
    }
  }
}
