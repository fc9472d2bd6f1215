/** What parsing a document comes to (Xml/ixml.c:1226-1437): the calls made for each element,
    told from the document instead of the parser's stack. */
module XmlDocument {
  import opened Options
  import opened XmlParser

  /** Elements side by side: those before, then one with its tag, the object its start function
      would return, whether it has text, and its children. */
  datatype Forest = Empty | Then(before: Forest, tag: string, obj: Object, text: bool, children: Forest)

  function Events(ds: Forest): seq<Event> {
    match ds
    case Empty => []
    case Then(before, tag, obj, text, children) =>
      Events(before) + [Start(tag, obj, false)] + (if text then [Text(false)] else []) + Events(children) + [End(false)]
  }

  /** The calls for elements of a container: each known one is started with its container's object
      as parent and ended after its children; unknown ones are passed over, children and all. */
  function Calls(t: Table, subs: Option<seq<FieldId>>, parent: Object, ds: Forest): seq<Call>
    requires subs.Some? ==> Within(subs.value, |t|)
    decreases ds
  {
    match ds
    case Empty => []
    case Then(before, tag, obj, text, children) =>
      Calls(t, subs, parent, before) +
      if subs.None? || Find(t, subs.value, tag).None? then []
      else
        var f := subs.value[Find(t, subs.value, tag).value];
        var own := if t[f].hasStart then obj else parent;
        (if t[f].hasStart then [Started(f, parent, obj)] else []) + Calls(t, t[f].subfields, own, children) + [Ended(f, own, parent, true)]
  }

  lemma {:induction false} RunOn(t: Table, p: Parser, a: seq<Event>, b: seq<Event>)
    requires Valid(t, p)
    ensures Run(t, p, a + b) == if Run(t, p, a).None? then None else Run(t, Run(t, p, a).value, b)
  {
    hide Valid, Accepts, Step;
    if b == [] {
      assert a + b == a;
    } else {
      var n := |b| - 1;
      assert (a + b)[..|a + b| - 1] == a + b[..n];
      RunOn(t, p, a, b[..n]);
    }
  }

  /** A failure is final. */
  lemma {:induction false} FailureStays(t: Table, p: Parser, es: seq<Event>)
    requires Valid(t, p) && p.failed && Run(t, p, es).Some?
    ensures Run(t, p, es).value.failed
  {
    hide Valid, InStep, StackFits;
    if es != [] {
      FailureStays(t, p, es[..|es| - 1]);
    }
  }

  /** If the whole is parsed without failure, so is its first part, and then the rest. */
  lemma {:induction false} Splits(t: Table, p: Parser, a: seq<Event>, b: seq<Event>)
    requires Valid(t, p) && Run(t, p, a + b).Some? && !Run(t, p, a + b).value.failed
    ensures Run(t, p, a).Some? && !Run(t, p, a).value.failed
    ensures Run(t, Run(t, p, a).value, b) == Run(t, p, a + b)
  {
    hide Valid, Run;
    RunOn(t, p, a, b);
    var r := Run(t, p, a);
    if r.Some? && r.value.failed {
      FailureStays(t, r.value, b);
    }
  }

  lemma {:induction false} OneEvent(t: Table, p: Parser, e: Event)
    requires Valid(t, p)
    ensures Run(t, p, [e]).Some? ==> Accepts(t, p, e)
    ensures Accepts(t, p, e) ==> EntryFits(t, p.current) && (e.End? && p.skip == 0 ==> p.current.field.Some? && p.stack != [])
    ensures Run(t, p, [e]).Some? ==> Run(t, p, [e]).value == Step(t, p, e)
  {
    assert [e][..0] == [];
    if Accepts(t, p, e) {
      StepKeeps(t, p, e);
    }
  }

  /** Elements after text are a failure. */
  lemma {:induction false} ElementsAfterTextFail(t: Table, p: Parser, ds: Forest)
    requires Valid(t, p) && p.text && ds != Empty && Run(t, p, Events(ds)).Some?
    ensures Run(t, p, Events(ds)).value.failed
  {
    hide Valid, Run, Step;
    if !Run(t, p, Events(ds)).value.failed {
      var rest := (if ds.text then [Text(false)] else []) + Events(ds.children) + [End(false)];
      assert Events(ds) == Events(ds.before) + ([Start(ds.tag, ds.obj, false)] + rest);
      Splits(t, p, Events(ds.before), [Start(ds.tag, ds.obj, false)] + rest);
      if ds.before != Empty {
        ElementsAfterTextFail(t, p, ds.before);
      } else {
        assert Events(ds) == [Start(ds.tag, ds.obj, false)] + rest;
        StartAfterTextFails(t, p, ds.tag, ds.obj, rest);
      }
    }
  }

  lemma {:induction false} StartAfterTextFails(t: Table, p: Parser, tag: string, obj: Object, rest: seq<Event>)
    requires Valid(t, p) && p.text && Run(t, p, [Start(tag, obj, false)] + rest).Some?
    ensures Run(t, p, [Start(tag, obj, false)] + rest).value.failed
  {
    hide Valid;
    if !Run(t, p, [Start(tag, obj, false)] + rest).value.failed {
      Splits(t, p, [Start(tag, obj, false)], rest);
      OneEvent(t, p, Start(tag, obj, false));
    }
  }

  /** Nothing but the log and what was found in the current element has changed. */
  ghost predicate Passed(p: Parser, r: Parser, calls: seq<Call>) {
    && r.depth == p.depth && r.skip == p.skip && r.stack == p.stack && !r.text && !r.failed
    && r.current == p.current.(found := r.current.found) && r.log == p.log + calls
  }

  ghost function Expected(t: Table, p: Parser, ds: Forest): seq<Call>
    requires EntryFits(t, p.current)
  {
    if p.skip != 0 then [] else Calls(t, p.current.subfields, p.current.obj, ds)
  }

  /** Parsed without failure, elements leave just their calls behind. */
  lemma {:induction false} ParsesTo(t: Table, p: Parser, ds: Forest)
    requires Valid(t, p) && !p.text && !p.failed && Run(t, p, Events(ds)).Some? && !Run(t, p, Events(ds)).value.failed
    ensures EntryFits(t, p.current) && Passed(p, Run(t, p, Events(ds)).value, Expected(t, p, ds))
    decreases ds, 0
  {
    hide Run, Valid, Events, Calls;
    if ds == Empty {
      NoEvents(t, p);
    } else {
      var one := Then(Empty, ds.tag, ds.obj, ds.text, ds.children);
      EventsOneByOne(ds);
      Splits(t, p, Events(ds.before), Events(one));
      var r := Run(t, p, Events(ds.before)).value;
      ParsesTo(t, p, ds.before);
      ElementParsesTo(t, r, one, ds.children);
      OneByOne(t, p.current.subfields, p.current.obj, ds);
    }
  }

  lemma {:induction false} EventsOneByOne(ds: Forest)
    requires ds.Then?
    ensures Events(ds) == Events(ds.before) + Events(ds.(before := Empty))
  {
  }

  lemma {:induction false} OneByOne(t: Table, subs: Option<seq<FieldId>>, parent: Object, ds: Forest)
    requires (subs.Some? ==> Within(subs.value, |t|)) && ds.Then?
    ensures Calls(t, subs, parent, ds) == Calls(t, subs, parent, ds.before) + Calls(t, subs, parent, ds.(before := Empty))
  {
  }

  lemma {:induction false} NoEvents(t: Table, p: Parser)
    requires Valid(t, p) && !p.text && !p.failed
    ensures EntryFits(t, p.current) && Run(t, p, Events(Empty)) == Some(p) && Passed(p, p, Expected(t, p, Empty))
  {
  }

  lemma {:induction false} ElementParsesTo(t: Table, p: Parser, ds: Forest, children: Forest)
    requires Valid(t, p) && !p.text && !p.failed && Run(t, p, Events(ds)).Some? && !Run(t, p, Events(ds)).value.failed
    requires ds.Then? && ds.before == Empty && ds.children == children
    ensures EntryFits(t, p.current) && Passed(p, Run(t, p, Events(ds)).value, Expected(t, p, ds))
    decreases children, 1
  {
    hide Run, Opens, Replay, Calls, RawStart, RawEnd, RawText, InStep;
    var start, text, rest := Start(ds.tag, ds.obj, false), if ds.text then [Text(false)] else [], Events(ds.children) + [End(false)];
    assert Events(ds) == [start] + (text + rest);
    Splits(t, p, [start], text + rest);
    OneEvent(t, p, start);
    var s1 := Run(t, p, [start]).value;
    Splits(t, s1, text, rest);
    var s2 := Run(t, s1, text).value;
    TextEvents(t, s1, ds.text);
    Splits(t, s2, Events(children), [End(false)]);
    var s3 := Run(t, s2, Events(children)).value;
    OneEvent(t, s3, End(false));
    if s2.text {
      if children != Empty {
        ElementsAfterTextFail(t, s2, children);
      }
      Nothing(t, s2);
    } else {
      ParsesTo(t, s2, children);
    }
    Finishes(t, p, ds, s1, s2, s3);
  }

  lemma {:induction false} Nothing(t: Table, p: Parser)
    requires Valid(t, p)
    ensures Run(t, p, []) == Some(p)
  {
  }

  lemma {:induction false} TextEvents(t: Table, p: Parser, text: bool)
    requires Valid(t, p) && Run(t, p, if text then [Text(false)] else []).Some?
    ensures Run(t, p, if text then [Text(false)] else []).value == p.(text := p.text || (text && p.skip == 0))
  {
    if text {
      OneEvent(t, p, Text(false));
    }
  }

  /** The four steps of an element: its start, its text, its children and its end. */
  ghost predicate Steps(t: Table, p: Parser, ds: Forest, s1: Parser, s2: Parser, s3: Parser) {
    && Valid(t, p) && !p.text && !p.failed && ds.Then? && ds.before == Empty
    && Valid(t, s2) && Valid(t, s3) && s3.depth > 1 && Accepts(t, p, Start(ds.tag, ds.obj, false))
    && s1 == RawStart(t, p, ds.tag, ds.obj, false) && s2 == s1.(text := s1.text || (ds.text && s1.skip == 0))
    && (if s2.text then s3 == s2 && ds.children == Empty else Passed(s2, s3, Expected(t, s2, ds.children)))
    && (s3.skip == 0 ==> s3.current.field.Some? && s3.stack != [])
    && !RawEnd(t, s3, false).failed
  }

  /** From the four steps of an element to its calls. */
  lemma {:induction false} Finishes(t: Table, p: Parser, ds: Forest, s1: Parser, s2: Parser, s3: Parser)
    requires Steps(t, p, ds, s1, s2, s3)
    ensures Passed(p, RawEnd(t, s3, false), Expected(t, p, ds))
  {
    hide Opens, Replay, Calls, Missing;
    if p.skip == 0 {
      var i := Find(t, p.current.subfields.value, ds.tag);
      if i.Some? {
        KnownFinishes(t, p, ds, s1, s2, s3);
      } else {
        UnknownCalls(t, p, ds);
      }
    }
  }

  lemma {:induction false} UnknownCalls(t: Table, p: Parser, ds: Forest)
    requires EntryFits(t, p.current) && p.current.subfields.Some? && ds.Then? && ds.before == Empty
    requires Find(t, p.current.subfields.value, ds.tag).None?
    ensures Calls(t, p.current.subfields, p.current.obj, ds) == []
  {
  }

  lemma {:induction false} KnownFinishes(t: Table, p: Parser, ds: Forest, s1: Parser, s2: Parser, s3: Parser)
    requires Steps(t, p, ds, s1, s2, s3) && p.skip == 0 && p.current.subfields.Some?
    requires Find(t, p.current.subfields.value, ds.tag).Some?
    ensures Passed(p, RawEnd(t, s3, false), Expected(t, p, ds))
  {
    hide Opens, Replay, Missing, Calls, Find, InStep;
    var f := p.current.subfields.value[Find(t, p.current.subfields.value, ds.tag).value];
    var own := if t[f].hasStart then ds.obj else p.current.obj;
    var started := if t[f].hasStart then [Started(f, p.current.obj, ds.obj)] else [];
    var below := Calls(t, t[f].subfields, own, ds.children);
    var r := RawEnd(t, s3, false);
    NoCalls(t, t[f].subfields, own);
    assert s1.log == p.log + started && s3.log == s1.log + below;
    assert r.log == s3.log + [Ended(f, own, p.current.obj, true)];
    KnownCalls(t, p, ds, f);
    assert r.log == p.log + (started + below + [Ended(f, own, p.current.obj, true)]);
    assert r.stack == p.stack;
  }

  lemma {:induction false} NoCalls(t: Table, subs: Option<seq<FieldId>>, parent: Object)
    requires subs.Some? ==> Within(subs.value, |t|)
    ensures Calls(t, subs, parent, Empty) == []
  {
  }

  lemma {:induction false} KnownCalls(t: Table, p: Parser, ds: Forest, f: FieldId)
    requires EntryFits(t, p.current) && p.current.subfields.Some? && ds.Then? && ds.before == Empty
    requires Find(t, p.current.subfields.value, ds.tag).Some?
    requires f == p.current.subfields.value[Find(t, p.current.subfields.value, ds.tag).value]
    ensures f < |t|
    ensures var own := if t[f].hasStart then ds.obj else p.current.obj;
            Calls(t, p.current.subfields, p.current.obj, ds)
            == (if t[f].hasStart then [Started(f, p.current.obj, ds.obj)] else []) + Calls(t, t[f].subfields, own, ds.children)
               + [Ended(f, own, p.current.obj, true)]
  {
  }
}
