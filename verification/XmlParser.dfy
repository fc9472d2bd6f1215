/** The XML parser's element stack (Xml/ixml.c:783-805, 1226-1437 and 1590-1613).

    Input is a sequence of events. What a field's functions do is part of the event: the object
    a start function would return, and whether a function reports an error. Memory exhaustion
    and the depth limit of the stack are not modelled. */
module XmlParser {
  import opened Options

  type FieldId = nat

  type Object = Option<nat>

  /** One entry of a field table. A container has subfields; tag "*" stands for any tag. */
  datatype Field = Field(tag: string, mandatory: bool, subfields: Option<seq<FieldId>>, hasStart: bool)

  /** The field tables: every field named in a table exists. */
  type Table = t: seq<Field> | forall k :: 0 <= k < |t| && t[k].subfields.Some? ==> Within(t[k].subfields.value, |t|)
    witness []

  predicate Within(subs: seq<FieldId>, n: nat) {
    forall i :: 0 <= i < |subs| ==> subs[i] < n
  }

  const MAX_TRACKED := 64

  datatype Event = Start(tag: string, obj: Object, fails: bool) | End(fails: bool) | Text(blank: bool)

  /** A call of a start function, and the end processing of an element (its end function, or
      the parsing of its value where there is none). */
  datatype Call = Started(field: FieldId, parent: Object, obj: Object)
                | Ended(field: FieldId, obj: Object, parent: Object, valid: bool)

  datatype Entry = Entry(field: Option<FieldId>, subfields: Option<seq<FieldId>>, obj: Object, found: set<nat>)

  datatype Parser = Parser(depth: nat, skip: nat, current: Entry, stack: seq<Entry>, text: bool, failed: bool, log: seq<Call>)

  function Init(subfields: seq<FieldId>, obj: Object): Parser {
    Parser(1, 0, Entry(None, Some(subfields), obj, {}), [], false, false, [])
  }

  predicate EntryFits(t: Table, e: Entry) {
    && (e.field.Some? ==> e.field.value < |t| && e.subfields == t[e.field.value].subfields)
    && (e.subfields.Some? ==> Within(e.subfields.value, |t|))
  }

  /** The first of the subfields that matches a tag. */
  function Find(t: Table, subs: seq<FieldId>, tag: string): (r: Option<nat>)
    requires Within(subs, |t|)
    ensures r.Some? ==> r.value < |subs|
  {
    if subs == [] then None
    else if t[subs[0]].tag == tag || t[subs[0]].tag == "*" then Some(0)
    else var r := Find(t, subs[1..], tag); if r.Some? then Some(r.value + 1) else None
  }

  // ---------------------------------------------------------------- the three events

  function PushField(t: Table, p: Parser, i: nat, obj: Object, fails: bool): Parser
    requires EntryFits(t, p.current) && p.current.subfields.Some? && i < |p.current.subfields.value|
  {
    var f := p.current.subfields.value[i];
    var parent := p.current.(found := if i < MAX_TRACKED then p.current.found + {i} else p.current.found);
    var own := if t[f].hasStart then obj else parent.obj;
    p.(depth := p.depth + 1, stack := p.stack + [parent], current := Entry(Some(f), t[f].subfields, own, {}),
       failed := p.failed || (t[f].hasStart && fails),
       log := p.log + if t[f].hasStart then [Started(f, parent.obj, obj)] else [])
  }

  function RawStart(t: Table, p: Parser, tag: string, obj: Object, fails: bool): Parser
    requires EntryFits(t, p.current)
  {
    if p.text then p.(failed := true)
    else if p.skip == 0 && p.current.subfields.Some? then
      var i := Find(t, p.current.subfields.value, tag);
      if i.Some? then PushField(t, p, i.value, obj, fails)
      else p.(skip := p.depth, depth := p.depth + 1)
    else p.(depth := p.depth + 1)
  }

  predicate Missing(t: Table, e: Entry)
    requires EntryFits(t, e)
  {
    e.subfields.Some? && exists i :: 0 <= i < |e.subfields.value| && i < MAX_TRACKED && t[e.subfields.value[i]].mandatory && i !in e.found
  }

  /** The end of the current element. Once parsing has failed only elements whose start function
      returned an object are still ended. */
  function EndTag(t: Table, p: Parser, fails: bool): Parser
    requires EntryFits(t, p.current) && p.current.field.Some? && p.stack != []
  {
    var f := p.current.field.value;
    var failed := p.failed || Missing(t, p.current);
    if (t[f].hasStart && p.current.obj.Some?) || !failed then
      p.(text := false, failed := failed || fails,
         log := p.log + [Ended(f, p.current.obj, p.stack[|p.stack| - 1].obj, !failed)])
    else p.(text := false, failed := failed)
  }

  function Pop(p: Parser): Parser
    requires p.stack != []
  {
    p.(current := p.stack[|p.stack| - 1], stack := p.stack[..|p.stack| - 1])
  }

  /** Going up one level; a skipped subtree ends at the level it began. */
  function Up(p: Parser): Parser
    requires p.depth > 1
  {
    p.(depth := p.depth - 1, skip := if p.skip == p.depth - 1 then 0 else p.skip)
  }

  function RawEnd(t: Table, p: Parser, fails: bool): Parser
    requires p.depth > 1 && (p.skip == 0 ==> EntryFits(t, p.current) && p.current.field.Some? && p.stack != [])
  {
    Up(if p.skip == 0 then Pop(EndTag(t, p, fails)) else p)
  }

  function RawText(p: Parser, blank: bool): Parser {
    if p.skip == 0 && !blank then p.(text := true) else p
  }

  // ---------------------------------------------------------------- what every run keeps

  /** The stack holds one entry for each level but the current one; skipped levels have none. */
  ghost predicate InStep(p: Parser) {
    if p.skip == 0 then |p.stack| + 1 == p.depth else |p.stack| + 1 == p.skip < p.depth
  }

  ghost predicate StackFits(t: Table, p: Parser) {
    && EntryFits(t, p.current) && (p.current.field.None? <==> p.stack == [])
    && (forall i :: 0 <= i < |p.stack| ==>
          EntryFits(t, p.stack[i]) && (p.stack[i].field.None? <==> i == 0) && p.stack[i].subfields.Some?)
    && (p.skip != 0 ==> p.current.subfields.Some?)
  }

  /** A started element still open: its object must be ended. */
  datatype Open = Open(field: FieldId, obj: nat, parent: Object)

  /** The open elements of a stack. */
  ghost function Opens(t: Table, all: seq<Entry>): seq<Open>
    requires forall i :: 0 <= i < |all| ==> EntryFits(t, all[i])
  {
    if |all| <= 1 then []
    else
      var e, n := all[|all| - 1], |all| - 1;
      assert EntryFits(t, e);
      Opens(t, all[..n]) +
        if e.field.Some? && t[e.field.value].hasStart && e.obj.Some?
        then [Open(e.field.value, e.obj.value, all[n - 1].obj)] else []
  }

  /** The elements a log leaves open, if it ends them last opened first, each with the parent it
      was started with. */
  ghost function Replay(t: Table, log: seq<Call>): Option<seq<Open>> {
    if log == [] then Some([])
    else
      var before := Replay(t, log[..|log| - 1]);
      if before.None? then None else ReplayCall(t, before.value, log[|log| - 1])
  }

  ghost function ReplayCall(t: Table, open: seq<Open>, c: Call): Option<seq<Open>> {
    match c
    case Started(f, parent, obj) => Some(if obj.Some? then open + [Open(f, obj.value, parent)] else open)
    case Ended(f, obj, parent, valid) =>
      if f >= |t| || !t[f].hasStart || obj.None? then Some(open)
      else if open != [] && open[|open| - 1] == Open(f, obj.value, parent) then Some(open[..|open| - 1])
      else None
  }

  ghost predicate Valid(t: Table, p: Parser) {
    InStep(p) && StackFits(t, p) && Replay(t, p.log) == Some(Opens(t, p.stack + [p.current]))
  }

  lemma {:induction false} ReplayMore(t: Table, log: seq<Call>, c: Call)
    ensures Replay(t, log + [c]) == if Replay(t, log).None? then None else ReplayCall(t, Replay(t, log).value, c)
  {
    assert (log + [c])[..|log|] == log;
  }

  /** What was found in an entry does not matter to what is open. */
  lemma {:induction false} OpensSame(t: Table, below: seq<Entry>, e: Entry, e': Entry)
    requires forall i :: 0 <= i < |below| ==> EntryFits(t, below[i])
    requires EntryFits(t, e) && EntryFits(t, e') && e'.field == e.field && e'.obj == e.obj
    ensures Opens(t, below + [e]) == Opens(t, below + [e'])
  {
    assert (below + [e])[..|below|] == below && (below + [e'])[..|below|] == below;
  }

  lemma {:induction false} OpensMore(t: Table, all: seq<Entry>, e: Entry)
    requires all != [] && (forall i :: 0 <= i < |all| ==> EntryFits(t, all[i])) && EntryFits(t, e) && e.field.Some?
    ensures Opens(t, all + [e])
            == Opens(t, all) + if t[e.field.value].hasStart && e.obj.Some?
                               then [Open(e.field.value, e.obj.value, all[|all| - 1].obj)] else []
  {
    assert (all + [e])[..|all|] == all;
  }

  lemma {:induction false} PushKeeps(t: Table, p: Parser, i: nat, obj: Object, fails: bool)
    requires Valid(t, p) && p.skip == 0 && p.current.subfields.Some? && i < |p.current.subfields.value|
    ensures Valid(t, PushField(t, p, i, obj, fails))
  {
    hide Opens, Replay;
    var f := p.current.subfields.value[i];
    var parent := p.current.(found := if i < MAX_TRACKED then p.current.found + {i} else p.current.found);
    var p' := PushField(t, p, i, obj, fails);
    OpensSame(t, p.stack, p.current, parent);
    OpensMore(t, p'.stack, p'.current);
    assert p.log + [] == p.log && Opens(t, p'.stack) + [] == Opens(t, p'.stack);
    if t[f].hasStart {
      ReplayMore(t, p.log, Started(f, p.current.obj, obj));
    }
  }

  /** A start keeps the parser in step, unless it is the start of a child of an element that has
      no subfields and no text. */
  lemma {:induction false} StartKeepsIff(t: Table, p: Parser, tag: string, obj: Object, fails: bool)
    requires Valid(t, p)
    ensures EntryFits(t, p.current)
    ensures Valid(t, RawStart(t, p, tag, obj, fails)) <==> p.text || p.skip != 0 || p.current.subfields.Some?
  {
    hide Opens, Replay;
    if !p.text && p.skip == 0 && p.current.subfields.Some? {
      var i := Find(t, p.current.subfields.value, tag);
      if i.Some? {
        PushKeeps(t, p, i.value, obj, fails);
      }
    }
  }

  /** An end keeps the parser in step. */
  lemma {:induction false} EndKeeps(t: Table, p: Parser, fails: bool)
    requires Valid(t, p) && p.depth > 1
    ensures p.skip == 0 ==> EntryFits(t, p.current) && p.current.field.Some? && p.stack != []
    ensures Valid(t, RawEnd(t, p, fails))
  {
    hide Opens, Replay;
    if p.skip == 0 {
      EndReplays(t, p, fails);
      var p' := RawEnd(t, p, fails);
      assert p'.stack + [p'.current] == p.stack;
    }
  }

  /** Ending an element closes it, if it is open. */
  lemma {:induction false} EndReplays(t: Table, p: Parser, fails: bool)
    requires StackFits(t, p) && p.stack != [] && EntryFits(t, p.current) && p.current.field.Some?
    requires Replay(t, p.log) == Some(Opens(t, p.stack + [p.current]))
    ensures forall k :: 0 <= k < |p.stack| ==> EntryFits(t, p.stack[k])
    ensures Replay(t, EndTag(t, p, fails).log) == Some(Opens(t, p.stack))
  {
    hide Opens, Replay, Missing;
    OpensMore(t, p.stack, p.current);
    var f := p.current.field.value;
    var c := Ended(f, p.current.obj, p.stack[|p.stack| - 1].obj, !(p.failed || Missing(t, p.current)));
    ReplayMore(t, p.log, c);
    var open := Opens(t, p.stack);
    assert forall o :: (open + [o])[..|open|] == open;
    assert open + [] == open;
  }

  // ---------------------------------------------------------------- whole runs

  /** One level less: what is done to an element still open when parsing is over. */
  function Unwound1(t: Table, p: Parser): Parser
    requires p.depth > 1 && (p.skip == 0 ==> EntryFits(t, p.current) && p.stack != [])
  {
    if p.current.field.Some? then RawEnd(t, p, false) else Up(if p.skip == 0 then Pop(p) else p)
  }

  ghost function Unwound(t: Table, p: Parser): Parser
    requires Valid(t, p)
    decreases p.depth
  {
    if p.depth <= 1 then p
    else
      EndKeeps(t, p, false);
      SkippedEnd(t, p);
      Unwound(t, Unwound1(t, p))
  }

  /** With no element open, only a skipped subtree can be left to unwind. */
  lemma {:induction false} SkippedEnd(t: Table, p: Parser)
    requires Valid(t, p) && p.depth > 1
    ensures p.skip == 0 ==> p.current.field.Some?
    ensures p.skip == 0 ==> EntryFits(t, p.current) && p.stack != []
    ensures Unwound1(t, p) == RawEnd(t, p, false)
  {
  }

  /** Events the parser accepts: a start only before a failure and not inside an element without
      subfields or text, an end only inside an element, text only before a failure. */
  predicate Accepts(t: Table, p: Parser, e: Event) {
    match e
    case Start(_, _, _) => !p.failed && (p.text || p.skip != 0 || p.current.subfields.Some?)
    case End(_) => p.depth > 1
    case Text(_) => !p.failed
  }

  function Step(t: Table, p: Parser, e: Event): Parser
    requires EntryFits(t, p.current) && (e.End? ==> p.depth > 1)
    requires e.End? && p.skip == 0 ==> p.current.field.Some? && p.stack != []
  {
    match e
    case Start(tag, obj, fails) => RawStart(t, p, tag, obj, fails)
    case End(fails) => RawEnd(t, p, fails)
    case Text(blank) => RawText(p, blank)
  }

  lemma {:induction false} StepKeeps(t: Table, p: Parser, e: Event)
    requires Valid(t, p) && Accepts(t, p, e)
    ensures EntryFits(t, p.current) && (e.End? && p.skip == 0 ==> p.current.field.Some? && p.stack != [])
    ensures Valid(t, Step(t, p, e))
  {
    match e
    case Start(tag, obj, fails) => StartKeepsIff(t, p, tag, obj, fails);
    case End(fails) => EndKeeps(t, p, fails);
    case Text(blank) =>
  }

  /** The parser after some events; None once one is not accepted. */
  ghost function Run(t: Table, p: Parser, es: seq<Event>): (r: Option<Parser>)
    requires Valid(t, p)
    ensures r.Some? ==> Valid(t, r.value)
  {
    if es == [] then Some(p)
    else
      var r := Run(t, p, es[..|es| - 1]);
      if r.None? || !Accepts(t, r.value, es[|es| - 1]) then None
      else
        StepKeeps(t, r.value, es[|es| - 1]);
        Some(Step(t, r.value, es[|es| - 1]))
  }

  lemma {:induction false} UnwoundKeeps(t: Table, p: Parser)
    requires Valid(t, p)
    ensures Valid(t, Unwound(t, p)) && Unwound(t, p).depth <= 1
    decreases p.depth
  {
    if p.depth > 1 {
      EndKeeps(t, p, false);
      SkippedEnd(t, p);
      UnwoundKeeps(t, Unwound1(t, p));
    }
  }

  lemma {:induction false} InitIsValid(t: Table, subfields: seq<FieldId>, obj: Object)
    requires Within(subfields, |t|)
    ensures Valid(t, Init(subfields, obj))
  {
  }

  /** However far a run gets, unwinding it ends every started element exactly once, last started
      first, with the parent it was started with. */
  lemma {:induction false} EveryStartIsEnded(t: Table, subfields: seq<FieldId>, obj: Object, es: seq<Event>)
    requires Within(subfields, |t|)
    ensures Valid(t, Init(subfields, obj))
    ensures var r := Run(t, Init(subfields, obj), es);
            r.Some? ==> Replay(t, Unwound(t, r.value).log) == Some([]) && Unwound(t, r.value).stack == []
  {
    InitIsValid(t, subfields, obj);
    var r := Run(t, Init(subfields, obj), es);
    if r.Some? {
      UnwoundKeeps(t, r.value);
    }
  }

  // ---------------------------------------------------------------- a child of a leaf

  /** A container "box" of elements "leaf", which have no subfields. */
  const BOXES: seq<Field> := [Field("box", false, Some([1]), true), Field("leaf", false, None, true)]

  predicate CanEnd(t: Table, p: Parser) {
    p.depth > 1 && (p.skip == 0 ==> EntryFits(t, p.current) && p.current.field.Some? && p.stack != [])
  }

  /** In <box><leaf><x></x></leaf></box> the leaf is ended by the end of x and the box by the end of
      the leaf. The box's own end tag then finds no element open and nothing on the stack. */
  lemma {:induction false} ChildOfLeafEndsEarly() returns (atX: Parser, afterX: Parser, afterLeaf: Parser)
    ensures var start := Init([0], None);
            && EntryFits(BOXES, start.current)
            && var inBox := RawStart(BOXES, start, "box", Some(1), false);
               && EntryFits(BOXES, inBox.current)
               && var inLeaf := RawStart(BOXES, inBox, "leaf", Some(2), false);
                  EntryFits(BOXES, inLeaf.current) && atX == RawStart(BOXES, inLeaf, "x", None, false)
    ensures atX.log == [Started(0, None, Some(1)), Started(1, Some(1), Some(2))]
    ensures CanEnd(BOXES, atX) && afterX == RawEnd(BOXES, atX, false)
    ensures afterX.log == atX.log + [Ended(1, Some(2), Some(1), true)]
    ensures CanEnd(BOXES, afterX) && afterLeaf == RawEnd(BOXES, afterX, false)
    ensures afterLeaf.log == afterX.log + [Ended(0, Some(1), None, true)]
    ensures afterLeaf.depth == 2 && afterLeaf.skip == 0 && afterLeaf.current.field.None? && afterLeaf.stack == []
  {
    var start := Init([0], None);
    assert Find(BOXES, [0], "box") == Some(0) && Find(BOXES, [1], "leaf") == Some(0);
    var inBox := RawStart(BOXES, start, "box", Some(1), false);
    var inLeaf := RawStart(BOXES, inBox, "leaf", Some(2), false);
    atX := RawStart(BOXES, inLeaf, "x", None, false);
    assert !Missing(BOXES, atX.current);
    afterX := RawEnd(BOXES, atX, false);
    assert !Missing(BOXES, afterX.current);
    afterLeaf := RawEnd(BOXES, afterX, false);
  }
}
