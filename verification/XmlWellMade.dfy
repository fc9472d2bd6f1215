/** Which documents are parsed without failure (Xml/ixml.c:1248-1299 and 1356-1437), read off the
    document and the field tables. */
module XmlWellMade {
  import opened Options
  import opened XmlParser
  import opened XmlDocument

  /** The first of the subfields that goes by this tag. */
  ghost predicate IsFirstMatch(t: Table, subs: seq<FieldId>, tag: string, i: nat)
    requires Within(subs, |t|)
  {
    && i < |subs| && t[subs[i]].tag in [tag, "*"]
    && forall j :: 0 <= j < i ==> t[subs[j]].tag !in [tag, "*"]
  }

  ghost predicate IsKnown(t: Table, subs: seq<FieldId>, tag: string)
    requires Within(subs, |t|)
  {
    exists i :: 0 <= i < |subs| && t[subs[i]].tag in [tag, "*"]
  }

  /** Some of the elements is one for subfield i. */
  ghost predicate HasElement(t: Table, subs: seq<FieldId>, ds: Forest, i: nat)
    requires Within(subs, |t|)
  {
    ds.Then? && (IsFirstMatch(t, subs, ds.tag, i) || HasElement(t, subs, ds.before, i))
  }

  /** Each mandatory subfield among the first 64 has an element. */
  ghost predicate HasMandatory(t: Table, subs: seq<FieldId>, ds: Forest)
    requires Within(subs, |t|)
  {
    forall i :: 0 <= i < |subs| && i < 64 && t[subs[i]].mandatory ==> HasElement(t, subs, ds, i)
  }

  /** A known element has text or children but not both, children only if it has subfields, and all
      the mandatory ones; its children are well made in turn. Unknown elements may be anything. */
  ghost predicate WellMade(t: Table, subs: Option<seq<FieldId>>, ds: Forest)
    requires subs.Some? ==> Within(subs.value, |t|)
    decreases ds
  {
    match ds
    case Empty => true
    case Then(before, tag, obj, text, children) =>
      && subs.Some? && WellMade(t, subs, before)
      && forall i :: 0 <= i < |subs.value| && IsFirstMatch(t, subs.value, tag, i) ==>
           var inner := t[subs.value[i]].subfields;
           && (text ==> children == Empty) && WellMade(t, inner, children)
           && (inner.Some? ==> HasMandatory(t, inner.value, children))
  }

  // ---------------------------------------------------------------- finding a subfield

  lemma {:induction false} FindIff(t: Table, subs: seq<FieldId>, tag: string)
    requires Within(subs, |t|)
    ensures Find(t, subs, tag).Some? <==> IsKnown(t, subs, tag)
    ensures forall i: nat :: IsFirstMatch(t, subs, tag, i) <==> Find(t, subs, tag) == Some(i)
  {
    if subs != [] {
      FindIff(t, subs[1..], tag);
      assert forall i :: 0 < i < |subs| ==> subs[i] == subs[1..][i - 1];
      if t[subs[0]].tag !in [tag, "*"] {
        forall i: nat ensures IsFirstMatch(t, subs, tag, i) <==> Find(t, subs, tag) == Some(i) {
          LaterMatch(t, subs, tag, i);
          assert i > 0 ==> (IsFirstMatch(t, subs[1..], tag, i - 1) <==> Find(t, subs[1..], tag) == Some(i - 1));
        }
        assert IsKnown(t, subs, tag) <==> IsKnown(t, subs[1..], tag);
      } else {
        assert IsFirstMatch(t, subs, tag, 0);
      }
    }
  }

  lemma {:induction false} LaterMatch(t: Table, subs: seq<FieldId>, tag: string, i: nat)
    requires subs != [] && Within(subs, |t|) && t[subs[0]].tag !in [tag, "*"]
    ensures IsFirstMatch(t, subs, tag, i) <==> i > 0 && IsFirstMatch(t, subs[1..], tag, i - 1)
  {
    assert forall k :: 0 < k < |subs| ==> subs[k] == subs[1..][k - 1];
    if i > 0 && IsFirstMatch(t, subs[1..], tag, i - 1) {
      forall j | 0 <= j < i ensures t[subs[j]].tag !in [tag, "*"] {
        assert j > 0 ==> subs[j] == subs[1..][j - 1];
      }
    }
    if i > 0 && IsFirstMatch(t, subs, tag, i) {
      forall j | 0 <= j < i - 1 ensures t[subs[1..][j]].tag !in [tag, "*"] {
        assert subs[j + 1] == subs[1..][j];
      }
    }
  }

  // ---------------------------------------------------------------- runs without failure

  /** The events are accepted and none of them fails. */
  ghost predicate Parses(t: Table, p: Parser, es: seq<Event>)
    requires Valid(t, p)
  {
    Run(t, p, es).Some? && !Run(t, p, es).value.failed
  }

  lemma {:induction false} ParsesOn(t: Table, p: Parser, a: seq<Event>, b: seq<Event>)
    requires Valid(t, p)
    ensures Parses(t, p, a + b) <==> Parses(t, p, a) && Parses(t, Run(t, p, a).value, b)
    ensures Parses(t, p, a) ==> Run(t, p, a + b) == Run(t, Run(t, p, a).value, b)
  {
    hide Valid, Run;
    RunOn(t, p, a, b);
    var r := Run(t, p, a);
    if r.Some? && r.value.failed && Run(t, r.value, b).Some? {
      FailureStays(t, r.value, b);
    }
  }

  lemma {:induction false} ParsesOne(t: Table, p: Parser, e: Event)
    requires Valid(t, p)
    ensures Accepts(t, p, e) ==> EntryFits(t, p.current) && (e.End? && p.skip == 0 ==> p.current.field.Some? && p.stack != [])
    ensures Accepts(t, p, e) ==> Run(t, p, [e]) == Some(Step(t, p, e)) && Valid(t, Step(t, p, e))
    ensures Parses(t, p, [e]) <==> Accepts(t, p, e) && !Step(t, p, e).failed
  {
    assert [e][..0] == [];
    if Accepts(t, p, e) {
      StepKeeps(t, p, e);
    }
  }

  /** The subfields, among the first 64, that the elements are for. */
  ghost function Found(t: Table, subs: seq<FieldId>, ds: Forest): set<nat>
    requires Within(subs, |t|)
  {
    set i | 0 <= i < |subs| && i < 64 && HasElement(t, subs, ds, i)
  }

  /** What parsing elements comes to: they are parsed exactly if they are well made, or skipped; and
      then their subfields are noted as found. */
  ghost predicate Outcome(t: Table, p: Parser, ds: Forest)
    requires Valid(t, p)
  {
    && EntryFits(t, p.current)
    && (Parses(t, p, Events(ds)) <==> p.skip != 0 || WellMade(t, p.current.subfields, ds))
    && (Parses(t, p, Events(ds)) && p.skip != 0 ==> Run(t, p, Events(ds)).value.current == p.current)
    && (Parses(t, p, Events(ds)) && p.skip == 0 && p.current.subfields.Some? ==>
          Run(t, p, Events(ds)).value.current.found == p.current.found + Found(t, p.current.subfields.value, ds))
  }

  lemma {:induction false} NoElements(t: Table, p: Parser)
    requires Valid(t, p) && !p.text && !p.failed
    ensures Outcome(t, p, Empty) && Parses(t, p, Events(Empty)) && Run(t, p, Events(Empty)) == Some(p)
  {
    assert p.current.subfields.Some? ==> Found(t, p.current.subfields.value, Empty) == {};
  }

  lemma {:induction false} MadeOneByOne(t: Table, subs: Option<seq<FieldId>>, ds: Forest)
    requires (subs.Some? ==> Within(subs.value, |t|)) && ds.Then?
    ensures WellMade(t, subs, ds) <==> WellMade(t, subs, ds.before) && WellMade(t, subs, ds.(before := Empty))
    ensures subs.Some? ==> Found(t, subs.value, ds) == Found(t, subs.value, ds.before) + Found(t, subs.value, ds.(before := Empty))
  {
    hide IsFirstMatch, HasMandatory;
    if subs.Some? {
      forall i: nat
        ensures HasElement(t, subs.value, ds, i)
                <==> HasElement(t, subs.value, ds.before, i) || HasElement(t, subs.value, ds.(before := Empty), i)
      {
      }
    }
  }

  /** Elements are parsed without failure exactly if they are well made, or skipped. */
  lemma {:induction false} WellMadeIff(t: Table, p: Parser, ds: Forest)
    requires Valid(t, p) && !p.text && !p.failed
    ensures Outcome(t, p, ds)
    decreases ds, 0
  {
    hide Valid, Run, WellMade, Found, Events;
    NoElements(t, p);
    if ds != Empty {
      var one := ds.(before := Empty);
      EventsOneByOne(ds);
      MadeOneByOne(t, p.current.subfields, ds);
      WellMadeIff(t, p, ds.before);
      ParsesOn(t, p, Events(ds.before), Events(one));
      if Parses(t, p, Events(ds.before)) {
        ParsesTo(t, p, ds.before);
        ElementOutcome(t, Run(t, p, Events(ds.before)).value, one, ds.children);
      }
    }
  }

  /** The outcome for one element, from the outcome for its children. */
  lemma {:induction false} ElementOutcome(t: Table, p: Parser, ds: Forest, children: Forest)
    requires Valid(t, p) && !p.text && !p.failed && ds.Then? && ds.before == Empty && ds.children == children
    ensures Outcome(t, p, ds)
    decreases children, 1
  {
    hide Valid, Run, WellMade, Found, Events, RawStart, RawEnd, Find;
    var start := Start(ds.tag, ds.obj, false);
    var text, rest := if ds.text then [Text(false)] else [], Events(children) + [End(false)];
    EventsOfOne(ds);
    ParsesOn(t, p, [start], text + rest);
    ParsesOne(t, p, start);
    NoElements(t, p);
    if !Accepts(t, p, start) {
      NotInLeaf(t, p, ds);
      return;
    }
    var s1 := RawStart(t, p, ds.tag, ds.obj, false);
    StartIs(t, p, ds);
    ParsesOn(t, s1, text, rest);
    TextParses(t, s1, ds.text);
    var s2 := s1.(text := ds.text && s1.skip == 0);
    ParsesOn(t, s2, Events(children), [End(false)]);
    if s2.text {
      TextAndChildren(t, p, ds, s1, s2);
    } else {
      assert s2 == s1;
      WellMadeIff(t, s1, children);
      ChildrenOnly(t, p, ds, s1);
    }
  }

  lemma {:induction false} EventsOfOne(ds: Forest)
    requires ds.Then? && ds.before == Empty
    ensures var text, rest := if ds.text then [Text(false)] else [], Events(ds.children) + [End(false)];
            Events(ds) == [Start(ds.tag, ds.obj, false)] + (text + rest)
  {
  }

  lemma {:induction false} NotInLeaf(t: Table, p: Parser, ds: Forest)
    requires Valid(t, p) && !p.text && !p.failed && ds.Then? && !Accepts(t, p, Start(ds.tag, ds.obj, false))
    ensures p.skip == 0 && p.current.subfields.None? && EntryFits(t, p.current) && !WellMade(t, p.current.subfields, ds)
  {
  }

  lemma {:induction false} StartIs(t: Table, p: Parser, ds: Forest)
    requires Valid(t, p) && !p.text && !p.failed && ds.Then? && Accepts(t, p, Start(ds.tag, ds.obj, false))
    ensures EntryFits(t, p.current)
    ensures var s1 := RawStart(t, p, ds.tag, ds.obj, false); !s1.text && !s1.failed && s1.depth == p.depth + 1 > 1
  {
  }

  lemma {:induction false} TextParses(t: Table, p: Parser, text: bool)
    requires Valid(t, p) && !p.text && !p.failed
    ensures Parses(t, p, if text then [Text(false)] else [])
    ensures Run(t, p, if text then [Text(false)] else []) == Some(p.(text := text && p.skip == 0))
  {
    if text {
      ParsesOne(t, p, Text(false));
    }
  }

  /** What an element that was started needs of its children. */
  ghost predicate OneMade(t: Table, subs: seq<FieldId>, ds: Forest)
    requires Within(subs, |t|) && ds.Then?
  {
    var i := Find(t, subs, ds.tag);
    i.Some? ==>
      var inner := t[subs[i.value]].subfields;
      && (ds.text ==> ds.children == Empty) && WellMade(t, inner, ds.children)
      && (inner.Some? ==> HasMandatory(t, inner.value, ds.children))
  }

  lemma {:induction false} OneMadeIff(t: Table, subs: seq<FieldId>, ds: Forest)
    requires Within(subs, |t|) && ds.Then? && ds.before == Empty
    ensures WellMade(t, Some(subs), ds) <==> OneMade(t, subs, ds)
    ensures var i := Find(t, subs, ds.tag); Found(t, subs, ds) == if i.Some? && i.value < 64 then {i.value} else {}
  {
    hide IsFirstMatch, HasMandatory, Find;
    FindIff(t, subs, ds.tag);
    assert WellMade(t, Some(subs), Empty);
    forall i ensures HasElement(t, subs, ds, i) <==> IsFirstMatch(t, subs, ds.tag, i) {
    }
  }

  lemma {:induction false} MissingIff(t: Table, e: Entry, ds: Forest)
    requires EntryFits(t, e) && e.subfields.Some? && e.found == Found(t, e.subfields.value, ds)
    ensures Missing(t, e) <==> !HasMandatory(t, e.subfields.value, ds)
  {
    hide HasElement;
  }

  /** The start of a known element, and of one that is skipped. */
  lemma {:induction false} Started1(t: Table, p: Parser, ds: Forest)
    requires Valid(t, p) && !p.text && !p.failed && ds.Then? && Accepts(t, p, Start(ds.tag, ds.obj, false))
    ensures EntryFits(t, p.current)
    ensures var s1 := RawStart(t, p, ds.tag, ds.obj, false);
            if p.skip != 0 || Find(t, p.current.subfields.value, ds.tag).None?
            then s1.skip != 0 && s1.stack == p.stack && s1.current == p.current && s1.depth == p.depth + 1
                 && s1.skip == (if p.skip != 0 then p.skip else p.depth)
            else
              var i := Find(t, p.current.subfields.value, ds.tag).value;
              && s1.skip == 0 && s1.current.field == Some(p.current.subfields.value[i]) && s1.current.found == {}
              && s1.stack == p.stack + [p.current.(found := p.current.found + if i < 64 then {i} else {})]
              && s1.current.subfields == t[p.current.subfields.value[i]].subfields && EntryFits(t, s1.current)
  {
    hide Opens, Replay, Find;
    assert p.current.found + {} == p.current.found;
  }

  lemma {:induction false} Skipped(t: Table, p: Parser, ds: Forest, s3: Parser)
    requires Valid(t, p) && !p.text && !p.failed && ds.Then? && Valid(t, s3) && !s3.failed
    requires s3.depth == p.depth + 1 && s3.stack == p.stack && s3.skip == (if p.skip != 0 then p.skip else p.depth)
    requires s3.current == p.current
    ensures !RawEnd(t, s3, false).failed && RawEnd(t, s3, false).current == s3.current
  {
    hide Opens, Replay;
  }

  lemma {:induction false} Ended1(t: Table, s3: Parser)
    requires Valid(t, s3) && s3.depth > 1 && s3.skip == 0 && !s3.failed
    ensures EntryFits(t, s3.current) && s3.current.field.Some? && s3.stack != []
    ensures RawEnd(t, s3, false).failed <==> Missing(t, s3.current)
    ensures RawEnd(t, s3, false).current == s3.stack[|s3.stack| - 1]
  {
    hide Opens, Replay, Missing;
  }

  /** An element with text: it must have no children and no mandatory subfields. */
  lemma {:induction false} TextAndChildren(t: Table, p: Parser, ds: Forest, s1: Parser, s2: Parser)
    requires Valid(t, p) && !p.text && !p.failed && ds.Then? && ds.before == Empty && ds.text
    requires Accepts(t, p, Start(ds.tag, ds.obj, false)) && EntryFits(t, p.current) && s1 == RawStart(t, p, ds.tag, ds.obj, false)
    requires Valid(t, s2) && s2 == s1.(text := true) && s1.skip == 0 && !s1.failed && s1.depth > 1
    requires Parses(t, p, Events(ds)) <==> Parses(t, s2, Events(ds.children) + [End(false)])
    requires Parses(t, p, Events(ds)) ==> Run(t, p, Events(ds)) == Run(t, s2, Events(ds.children) + [End(false)])
    ensures Outcome(t, p, ds)
  {
    hide Valid, Run, WellMade, Found, Events, RawStart, RawEnd, Find, Missing, HasMandatory, InStep, StackFits;
    Started1(t, p, ds);
    OneMadeIff(t, p.current.subfields.value, ds);
    ParsesOn(t, s2, Events(ds.children), [End(false)]);
    if ds.children != Empty {
      if Run(t, s2, Events(ds.children)).Some? {
        ElementsAfterTextFail(t, s2, ds.children);
      }
    } else {
      NothingRun(t, s2);
      ParsesOne(t, s2, End(false));
      Ended1(t, s2);
      NothingMade(t, s2.current);
    }
  }

  lemma {:induction false} NothingRun(t: Table, p: Parser)
    requires Valid(t, p) && !p.failed
    ensures Run(t, p, Events(Empty)) == Some(p) && Parses(t, p, Events(Empty))
  {
  }

  /** An element without elements. */
  lemma {:induction false} NothingMade(t: Table, e: Entry)
    requires EntryFits(t, e) && e.found == {}
    ensures WellMade(t, e.subfields, Empty)
    ensures Missing(t, e) <==> e.subfields.Some? && !HasMandatory(t, e.subfields.value, Empty)
  {
    if e.subfields.Some? {
      assert Found(t, e.subfields.value, Empty) == {};
      MissingIff(t, e, Empty);
    }
  }

  /** An element without text, or one that is skipped. */
  lemma {:induction false} ChildrenOnly(t: Table, p: Parser, ds: Forest, s1: Parser)
    requires Valid(t, p) && !p.text && !p.failed && ds.Then? && ds.before == Empty
    requires Accepts(t, p, Start(ds.tag, ds.obj, false)) && EntryFits(t, p.current) && s1 == RawStart(t, p, ds.tag, ds.obj, false)
    requires Valid(t, s1) && !s1.text && !s1.failed && s1.depth == p.depth + 1 > 1 && (s1.skip == 0 ==> !ds.text)
    requires Outcome(t, s1, ds.children)
    requires Parses(t, p, Events(ds)) <==> Parses(t, s1, Events(ds.children) + [End(false)])
    requires Parses(t, p, Events(ds)) ==> Run(t, p, Events(ds)) == Run(t, s1, Events(ds.children) + [End(false)])
    ensures Outcome(t, p, ds)
  {
    hide Valid, Run, WellMade, Found, Events, RawStart, RawEnd, Find, Missing, HasMandatory, InStep, StackFits, Calls;
    Started1(t, p, ds);
    ParsesOn(t, s1, Events(ds.children), [End(false)]);
    if p.current.subfields.Some? {
      OneMadeIff(t, p.current.subfields.value, ds);
    }
    if Parses(t, s1, Events(ds.children)) {
      ParsesTo(t, s1, ds.children);
      var s3 := Run(t, s1, Events(ds.children)).value;
      ParsesOne(t, s3, End(false));
      if s1.skip != 0 {
        Skipped(t, p, ds, s3);
      } else {
        Ended1(t, s3);
        ChildrenMade(t, s3.current, ds.children);
      }
    }
  }

  lemma {:induction false} ChildrenMade(t: Table, e: Entry, ds: Forest)
    requires EntryFits(t, e) && (e.subfields.Some? ==> e.found == Found(t, e.subfields.value, ds))
    ensures Missing(t, e) <==> e.subfields.Some? && !HasMandatory(t, e.subfields.value, ds)
  {
    if e.subfields.Some? {
      MissingIff(t, e, ds);
    }
  }

  // ---------------------------------------------------------------- text and reported errors

  /** Blank text is nothing, and neither is text in a skipped element. */
  lemma TextIs(t: Table, p: Parser)
    requires Valid(t, p)
    ensures RawText(p, true) == p && RawText(p, false) == p.(text := p.text || p.skip == 0)
  {
  }

  /** An error that a start function reports is a failure, and changes nothing else. */
  lemma {:induction false} StartErrorFails(t: Table, p: Parser, tag: string, obj: Object, i: nat)
    requires Valid(t, p) && !p.text && p.skip == 0 && p.current.subfields.Some? && EntryFits(t, p.current)
    requires IsFirstMatch(t, p.current.subfields.value, tag, i)
    ensures var f, r := p.current.subfields.value[i], RawStart(t, p, tag, obj, true);
            (r.failed <==> p.failed || t[f].hasStart) && r == RawStart(t, p, tag, obj, false).(failed := r.failed)
  {
    hide IsFirstMatch;
    FindIff(t, p.current.subfields.value, tag);
  }

  /** So is one that an end function reports. After a failure just the elements with an object from
      their start function are still ended. */
  lemma {:induction false} EndErrorFails(t: Table, p: Parser)
    requires Valid(t, p) && p.depth > 1
    ensures p.skip == 0 ==> EntryFits(t, p.current) && p.current.field.Some? && p.stack != []
    ensures RawEnd(t, p, true).failed <==> RawEnd(t, p, false).failed || RawEnd(t, p, true).log != p.log
    ensures RawEnd(t, p, true).log == RawEnd(t, p, false).log
    ensures p.failed && p.skip == 0 ==>
              (RawEnd(t, p, false).log != p.log <==> t[p.current.field.value].hasStart && p.current.obj.Some?)
  {
    hide Opens, Replay, Missing;
    EndKeeps(t, p, true);
    assert forall c: Call :: p.log + [c] != p.log;
  }

  // ---------------------------------------------------------------- one document of each kind

  /** A container "box" that must hold an element "leaf". */
  const FULL_BOXES: seq<Field> := [Field("box", false, Some([1]), true), Field("leaf", true, None, true)]

  const LEAF := Then(Empty, "leaf", Some(2), false, Empty)
  const FULL := Then(Empty, "box", Some(1), false, LEAF)
  const BARE := Then(Empty, "box", Some(1), false, Empty)

  lemma {:induction false} BoxStarts()
    ensures Valid(FULL_BOXES, Init([0], None))
    ensures IsFirstMatch(FULL_BOXES, [0], "box", 0) && IsFirstMatch(FULL_BOXES, [1], "leaf", 0)
  {
    InitIsValid(FULL_BOXES, [0], None);
  }

  /** A box with a leaf is parsed without failure, and each is ended as valid. */
  lemma {:induction false} FullBoxParses()
    ensures Valid(FULL_BOXES, Init([0], None)) && Parses(FULL_BOXES, Init([0], None), Events(FULL))
    ensures Run(FULL_BOXES, Init([0], None), Events(FULL)).value.log
            == [Started(0, None, Some(1)), Started(1, Some(1), Some(2)), Ended(1, Some(2), Some(1), true), Ended(0, Some(1), None, true)]
  {
    hide Run, Valid, Events;
    BoxStarts();
    var p := Init([0], None);
    FullIsWellMade();
    WellMadeIff(FULL_BOXES, p, FULL);
    ParsesTo(FULL_BOXES, p, FULL);
    FullCalls();
  }

  lemma {:induction false} FullIsWellMade()
    ensures WellMade(FULL_BOXES, Some([0]), FULL)
  {
    BoxStarts();
    assert WellMade(FULL_BOXES, Some([1]), LEAF) by {
      assert WellMade(FULL_BOXES, None, Empty);
    }
    assert HasElement(FULL_BOXES, [1], LEAF, 0);
  }

  lemma {:induction false} FullCalls()
    ensures Calls(FULL_BOXES, Some([0]), None, FULL)
            == [Started(0, None, Some(1)), Started(1, Some(1), Some(2)), Ended(1, Some(2), Some(1), true), Ended(0, Some(1), None, true)]
  {
    assert Find(FULL_BOXES, [0], "box") == Some(0) && Find(FULL_BOXES, [1], "leaf") == Some(0);
    assert Calls(FULL_BOXES, None, Some(2), Empty) == [];
    assert Calls(FULL_BOXES, Some([1]), Some(1), LEAF) == [Started(1, Some(1), Some(2)), Ended(1, Some(2), Some(1), true)];
  }

  /** A box without one is a failure, and is ended as invalid. */
  lemma {:induction false} BareBoxFails()
    ensures Valid(FULL_BOXES, Init([0], None)) && !Parses(FULL_BOXES, Init([0], None), Events(BARE))
    ensures var r := Run(FULL_BOXES, Init([0], None), Events(BARE));
            r.Some? && r.value.failed && r.value.log == [Started(0, None, Some(1)), Ended(0, Some(1), None, false)]
  {
    hide Valid, Opens, Replay;
    BoxStarts();
    var p := Init([0], None);
    assert Find(FULL_BOXES, [0], "box") == Some(0);
    BareIsNot();
    WellMadeIff(FULL_BOXES, p, BARE);
    var start, end := Start("box", Some(1), false), End(false);
    assert Events(BARE) == [start] + [end];
    RunOn(FULL_BOXES, p, [start], [end]);
    ParsesOne(FULL_BOXES, p, start);
    var s := Step(FULL_BOXES, p, start);
    ParsesOne(FULL_BOXES, s, end);
    assert p.log + [Started(0, None, Some(1))] == s.log;
  }

  lemma {:induction false} BareIsNot()
    ensures !WellMade(FULL_BOXES, Some([0]), BARE)
  {
    BoxStarts();
    assert !HasMandatory(FULL_BOXES, [1], Empty);
  }
}
