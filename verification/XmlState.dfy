/** The parser state that events update (Xml/ixml.c:783-805, 1226-1437 and 1590-1613;
    Xml/ixml.h:362-397). */
module XmlState {
  import opened Options
  import opened XmlParser

  class ParserState {
    const table: Table
    var depth: nat
    var skip: nat
    var current: Entry
    var stack: seq<Entry>
    var text: bool
    var failed: bool
    var log: seq<Call>

    ghost function Now(): Parser
      reads this
    {
      Parser(depth, skip, current, stack, text, failed, log)
    }

    constructor (table: Table, subfields: seq<FieldId>, obj: Object)
      requires Within(subfields, |table|)
      ensures this.table == table && Now() == Init(subfields, obj) && Valid(table, Now())
    {
      this.table := table;
      depth, skip, current, stack := 1, 0, Entry(None, Some(subfields), obj, {}), [];
      text, failed, log := false, false, [];
    }

    method Push()
      modifies this`stack
      ensures stack == old(stack) + [current]
    {
      stack := stack + [current];
    }

    method PopEntry()
      requires stack != []
      modifies this`stack, this`current
      ensures Now() == Pop(old(Now()))
    {
      current := stack[|stack| - 1];
      stack := stack[..|stack| - 1];
    }

    /** The start of an element, known or not. */
    method RawStart(tag: string, obj: Object, fails: bool)
      requires EntryFits(table, current)
      modifies this
      ensures Now() == XmlParser.RawStart(table, old(Now()), tag, obj, fails)
    {
      hide PushField;
      if text {
        failed := true;
        return;
      }
      if skip == 0 && current.subfields.Some? {
        var i := FindField(current.subfields.value, tag);
        if i.Some? {
          StartField(i.value, obj, fails);
          return;
        }
        skip := depth;
      }
      depth := depth + 1;
    }

    /** The first of the subfields that matches a tag. */
    method FindField(subs: seq<FieldId>, tag: string) returns (r: Option<nat>)
      requires Within(subs, |table|)
      ensures r == Find(table, subs, tag)
    {
      var i := 0;
      while i < |subs|
        invariant 0 <= i <= |subs|
        invariant Find(table, subs, tag) == Shifted(Find(table, subs[i..], tag), i)
      {
        if tag == table[subs[i]].tag || table[subs[i]].tag == "*" {
          return Some(i);
        }
        i := i + 1;
      }
      return None;
    }

    static function Shifted(r: Option<nat>, i: nat): Option<nat> {
      if r.Some? then Some(r.value + i) else None
    }

    /** A known element: keep its container and call its start function, if it has one. */
    method StartField(i: nat, obj: Object, fails: bool)
      requires EntryFits(table, current) && current.subfields.Some? && i < |current.subfields.value|
      modifies this
      ensures Now() == PushField(table, old(Now()), i, obj, fails)
    {
      var f := current.subfields.value[i];
      if i < MAX_TRACKED {
        current := current.(found := current.found + {i});
      }
      Push();
      current := current.(field := Some(f), subfields := table[f].subfields, found := {});
      if table[f].hasStart {
        log := log + [Started(f, current.obj, obj)];
        current := current.(obj := obj);
        failed := failed || fails;
      }
      depth := depth + 1;
    }

    /** Whether every mandatory subfield was found. */
    method CheckSubfields() returns (missing: bool)
      requires EntryFits(table, current)
      ensures missing == Missing(table, current)
    {
      missing := false;
      if current.subfields.Some? {
        var subs := current.subfields.value;
        var i := 0;
        while i < |subs| && i < MAX_TRACKED
          invariant 0 <= i <= |subs|
          invariant missing <==> exists k :: 0 <= k < i && k < MAX_TRACKED && table[subs[k]].mandatory && k !in current.found
        {
          if i !in current.found && table[subs[i]].mandatory {
            missing := true;
          }
          i := i + 1;
        }
      }
    }

    method EndTag(fails: bool)
      requires EntryFits(table, current) && current.field.Some? && stack != []
      modifies this`failed, this`log, this`text
      ensures Now() == XmlParser.EndTag(table, old(Now()), fails)
    {
      if !failed {
        var missing := CheckSubfields();
        failed := missing;
      }
      var f := current.field.value;
      if (table[f].hasStart && current.obj.Some?) || !failed {
        log := log + [Ended(f, current.obj, stack[|stack| - 1].obj, !failed)];
        failed := failed || fails;
      }
      text := false;
    }

    /** The end of an element, skipped or not. */
    method RawEnd(fails: bool)
      requires depth > 1 && (skip == 0 ==> EntryFits(table, current) && current.field.Some? && stack != [])
      modifies this
      ensures Now() == XmlParser.RawEnd(table, old(Now()), fails)
    {
      depth := depth - 1;
      if skip == 0 {
        EndTag(fails);
        PopEntry();
      }
      if skip == depth {
        skip := 0;
      }
    }

    method RawCharHandler(blank: bool)
      modifies this`text
      ensures Now() == RawText(old(Now()), blank)
    {
      if skip == 0 {
        text := text || !blank;
      }
    }

    /** Unwind what is still open. Then every started element has been ended exactly once, last
        started first. */
    method Destroy()
      requires Valid(table, Now())
      modifies this
      ensures Now() == Unwound(table, old(Now())) && stack == [] && Replay(table, log) == Some([])
    {
      hide InStep, StackFits, Opens, Replay, Unwound;
      ghost var was := Now();
      UnwoundKeeps(table, was);
      while depth > 1
        invariant Valid(table, Now()) && Unwound(table, Now()) == Unwound(table, was)
        decreases depth
      {
        EndKeeps(table, Now(), false);
        SkippedEnd(table, Now());
        OneLevel(table, Now());
        if current.field.Some? {
          RawEnd(false);
        } else {
          // with no element open only a skipped subtree is left, so nothing is popped
          depth := depth - 1;
          if skip == 0 {
            assert false;
          }
          if skip == depth {
            skip := 0;
          }
        }
      }
      OneLevel(table, Now());
    }

    lemma OneLevel(t: Table, p: Parser)
      requires Valid(t, p)
      ensures p.depth > 1 ==> (p.skip == 0 ==> EntryFits(t, p.current) && p.stack != [])
      ensures p.depth > 1 ==> Valid(t, Unwound1(t, p)) && Unwound(t, p) == Unwound(t, Unwound1(t, p))
      ensures p.depth <= 1 ==> Unwound(t, p) == p && p.stack == [] && Replay(t, p.log) == Some([])
    {
      if p.depth > 1 {
        EndKeeps(t, p, false);
        SkippedEnd(t, p);
      }
    }
  }
}
