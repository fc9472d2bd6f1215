/** Port names and the segments the port number generator cuts them into
    (Topology/port_num_gen.c, parse_port_name and cal_str_key).

    A name is cut into maximal runs of digits and maximal runs of letters. The scanner
    closes a segment at the first separator after a run, and closes it AGAIN at every
    further separator, so a run followed by m separators leaves m - 1 extra segments
    whose text includes separators. `Tokens` says this without the scanner's state. */
module PortName {
  import opened OrderedKeys
  import opened Sequences

  const MAX_SEGS := 8
  const MAX_INT := 0x7fff_ffff

  datatype CharClass = Digit | Letter | Separator

  function Class(c: char): CharClass {
    if '0' <= c <= '9' then Digit
    else if 'a' <= c <= 'z' || 'A' <= c <= 'Z' then Letter
    else Separator
  }

  // ---------------------------------------------------------------- keys

  /** The value of a C `char`, which is signed on the supported targets. */
  function Signed(c: char): int {
    if c as int < 128 then c as int else c as int - 256
  }

  function HashFrom(start: Key, text: string): Key {
    if text == [] then start
    else (HashFrom(start, text[..|text| - 1]) * 33 + Signed(text[|text| - 1])) % KEY_SPACE
  }

  /** The 64-bit key of `text` at segment position `index` (0 is used for whole names). */
  function HashKey(index: nat, text: string): Key {
    HashFrom((5381 + index) % KEY_SPACE, text)
  }

  method CalStrKey(index: nat, text: string) returns (key: Key)
    ensures key == HashKey(index, text)
  {
    key := (5381 + index) % KEY_SPACE;
    for i := 0 to |text|
      invariant key == HashFrom((5381 + index) % KEY_SPACE, text[..i])
    {
      assert text[..i + 1][..i] == text[..i];
      key := (key * 33 + Signed(text[i])) % KEY_SPACE;
    }
    assert text[..|text|] == text;
  }

  // ---------------------------------------------------------------- tokens

  /** A closed segment: its text, its decimal value (-1 for letters), and whether it is one
      more close of the segment before it. */
  datatype Token = Token(text: string, num: int, repeat: bool)

  /** What the C code keeps of a segment. */
  datatype Seg = Seg(key: Key, num: int)

  function SegsOf(ts: seq<Token>): (segs: seq<Seg>)
    ensures |segs| == |ts|
    ensures forall i :: 0 <= i < |ts| ==> segs[i] == Seg(HashKey(i + 1, ts[i].text), ts[i].num)
  {
    seq(|ts|, i requires 0 <= i < |ts| => Seg(HashKey(i + 1, ts[i].text), ts[i].num))
  }

  /** The decimal value of the digits s[b..e]. */
  function Decimal(s: string, b: nat, e: nat): int
    requires b <= e <= |s|
    decreases e
  {
    if b == e then 0 else Decimal(s, b, e - 1) * 10 + (s[e - 1] as int - '0' as int)
  }

  function ValueOf(s: string, b: nat, e: nat, isNum: bool): int
    requires b <= e <= |s|
  {
    if isNum then Decimal(s, b, e) else -1
  }

  /** The end of the maximal run of `cls` characters that covers [i..]. */
  function RunEnd(s: string, i: nat, cls: CharClass): (e: nat)
    requires i <= |s|
    ensures i <= e <= |s|
    decreases |s| - i
  {
    if i < |s| && Class(s[i]) == cls then RunEnd(s, i + 1, cls) else i
  }

  lemma {:induction false} RunEndIs(s: string, i: nat, cls: CharClass, e: nat)
    requires i <= e <= |s|
    requires forall k :: i <= k < e ==> Class(s[k]) == cls
    requires e < |s| ==> Class(s[e]) != cls
    ensures RunEnd(s, i, cls) == e
    decreases e - i
  {
    if i < e {
      RunEndIs(s, i + 1, cls, e);
    }
  }

  lemma {:induction false} RunIsUniform(s: string, i: nat, cls: CharClass)
    requires i <= |s|
    ensures forall k :: i <= k < RunEnd(s, i, cls) ==> Class(s[k]) == cls
    ensures RunEnd(s, i, cls) < |s| ==> Class(s[RunEnd(s, i, cls)]) != cls
    decreases |s| - i
  {
    if i < |s| && Class(s[i]) == cls {
      RunIsUniform(s, i + 1, cls);
    }
  }

  /** The segments closed by the separators s[j..f] after the first one, for the run at b. */
  function Repeats(s: string, b: nat, j: nat, f: nat, num: int): seq<Token>
    requires b <= j && f <= |s|
    decreases |s| - j
  {
    if j < f then [Token(s[b..j], num, true)] + Repeats(s, b, j + 1, f, num) else []
  }

  function Tokens(s: string, i: nat): seq<Token>
    requires i <= |s|
    decreases |s| - i
  {
    if i == |s| then []
    else if Class(s[i]) == Separator then Tokens(s, i + 1)
    else
      var e := RunEnd(s, i, Class(s[i]));
      var f := RunEnd(s, e, Separator);
      var num := ValueOf(s, i, e, Class(s[i]) == Digit);
      [Token(s[i..e], num, false)] + (Repeats(s, i, e + 1, f, num) + Tokens(s, f))
  }

  lemma {:induction false} RepeatsHaveNum(s: string, b: nat, j: nat, f: nat, num: int)
    requires b <= j && f <= |s|
    ensures forall k :: 0 <= k < |Repeats(s, b, j, f, num)| ==> Repeats(s, b, j, f, num)[k].num == num
    decreases |s| - j
  {
    if j < f {
      RepeatsHaveNum(s, b, j + 1, f, num);
    }
  }

  lemma {:induction false} NumsAreNumbers(s: string, i: nat)
    requires i <= |s|
    ensures forall k :: 0 <= k < |Tokens(s, i)| ==> Tokens(s, i)[k].num >= -1
    decreases |s| - i
  {
    if i < |s| && Class(s[i]) == Separator {
      NumsAreNumbers(s, i + 1);
    } else if i < |s| {
      var e := RunEnd(s, i, Class(s[i]));
      var f := RunEnd(s, e, Separator);
      RunIsUniform(s, i, Class(s[i]));
      if Class(s[i]) == Digit {
        DecimalOfDigits(s, i, e);
      }
      RepeatsHaveNum(s, i, e + 1, f, ValueOf(s, i, e, Class(s[i]) == Digit));
      NumsAreNumbers(s, f);
    }
  }

  /** The tokens of a run that ends at e and of the separators up to f. */
  lemma {:induction false} TokensAtRun(s: string, i: nat, e: nat, f: nat)
    requires i < |s| && Class(s[i]) != Separator
    requires e == RunEnd(s, i, Class(s[i])) && f == RunEnd(s, e, Separator)
    ensures i < e <= f <= |s|
    ensures var num := ValueOf(s, i, e, Class(s[i]) == Digit);
            Tokens(s, i) == [Token(s[i..e], num, false)] + (Repeats(s, i, e + 1, f, num) + Tokens(s, f))
  {
    hide RunEnd, Repeats, ValueOf, Class;
    RunEndAdvances(s, i);
  }

  lemma {:induction false} RunEndAdvances(s: string, i: nat)
    requires i < |s|
    ensures RunEnd(s, i, Class(s[i])) > i
  {
  }

  function Letters(s: string, i: nat): string
    requires i <= |s|
    decreases |s| - i
  {
    if i == |s| then [] else (if Class(s[i]) == Separator then [] else [s[i]]) + Letters(s, i + 1)
  }

  function Spelled(ts: seq<Token>): string {
    if ts == [] then [] else (if ts[0].repeat then [] else ts[0].text) + Spelled(ts[1..])
  }

  lemma {:induction false} LettersOfRun(s: string, i: nat, e: nat)
    requires i <= e <= |s| && forall k :: i <= k < e ==> Class(s[k]) != Separator
    ensures Letters(s, i) == s[i..e] + Letters(s, e)
    decreases e - i
  {
    hide Class;
    if i < e {
      LettersOfRun(s, i + 1, e);
      AppendAssociates([s[i]], s[i + 1..e], Letters(s, e));
      assert s[i..e] == [s[i]] + s[i + 1..e];
    }
  }

  lemma {:induction false} LettersOfSeparators(s: string, i: nat, e: nat)
    requires i <= e <= |s| && forall k :: i <= k < e ==> Class(s[k]) == Separator
    ensures Letters(s, i) == Letters(s, e)
    decreases e - i
  {
    hide Class;
    if i < e {
      LettersOfSeparators(s, i + 1, e);
    }
  }

  lemma {:induction false} SpelledNext(t: Token, rest: seq<Token>)
    ensures Spelled([t] + rest) == (if t.repeat then [] else t.text) + Spelled(rest)
  {
    assert ([t] + rest)[1..] == rest;
  }

  lemma {:induction false} SpelledRepeats(s: string, b: nat, j: nat, f: nat, num: int, rest: seq<Token>)
    requires b <= j && f <= |s|
    ensures Spelled(Repeats(s, b, j, f, num) + rest) == Spelled(rest)
    decreases |s| - j
  {
    hide Spelled;
    if j < f {
      SpelledNext(Token(s[b..j], num, true), Repeats(s, b, j + 1, f, num) + rest);
      assert Repeats(s, b, j, f, num) + rest == [Token(s[b..j], num, true)] + (Repeats(s, b, j + 1, f, num) + rest);
      SpelledRepeats(s, b, j + 1, f, num, rest);
    } else {
      assert Repeats(s, b, j, f, num) + rest == rest;
    }
  }

  /** The runs of a name, joined, are the name without its separators. */
  lemma {:induction false} TokensSpellTheName(s: string, i: nat)
    requires i <= |s|
    ensures Spelled(Tokens(s, i)) == Letters(s, i)
    decreases |s| - i
  {
    hide Tokens, RunEnd, Repeats, Letters, ValueOf, Spelled;
    NothingToSpell(s, i);
    if i < |s| && Class(s[i]) == Separator {
      TokensSpellTheName(s, i + 1);
    } else if i < |s| {
      var e := RunEnd(s, i, Class(s[i]));
      var f := RunEnd(s, e, Separator);
      var num := ValueOf(s, i, e, Class(s[i]) == Digit);
      TokensAtRun(s, i, e, f);
      RunIsUniform(s, i, Class(s[i]));
      RunIsUniform(s, e, Separator);
      LettersOfRun(s, i, e);
      LettersOfSeparators(s, e, f);
      SpelledRepeats(s, i, e + 1, f, num, Tokens(s, f));
      SpelledRun(s[i..e], num, Repeats(s, i, e + 1, f, num) + Tokens(s, f));
      TokensSpellTheName(s, f);
    }
  }

  lemma {:induction false} NothingToSpell(s: string, i: nat)
    requires i <= |s|
    ensures i == |s| ==> Spelled(Tokens(s, i)) == Letters(s, i)
    ensures i < |s| && Class(s[i]) == Separator ==> Tokens(s, i) == Tokens(s, i + 1) && Letters(s, i) == Letters(s, i + 1)
  {
  }

  lemma {:induction false} SpelledRun(text: string, num: int, rest: seq<Token>)
    ensures Spelled([Token(text, num, false)] + rest) == text + Spelled(rest)
  {
    assert ([Token(text, num, false)] + rest)[1..] == rest;
  }

  predicate HasNumber(ts: seq<Token>) {
    ts != [] && (HasNumber(ts[..|ts| - 1]) || ts[|ts| - 1].num != -1)
  }

  /** The names the C code is defined on: no write past the eight segment slots and no
      overflow of the 32-bit segment value. */
  predicate Scannable(name: string) {
    var ts := Tokens(name, 0);
    && (|ts| > MAX_SEGS ==> !ts[MAX_SEGS].repeat)
    && forall k :: 0 <= k < |ts| && k < MAX_SEGS ==> ts[k].num <= MAX_INT
  }

  // ---------------------------------------------------------------- the scanner

  datatype ParseResult = Parsed(segs: seq<Seg>) | InvalidPortName

  function ParseSpec(name: string): ParseResult {
    var ts := Tokens(name, 0);
    if |ts| > MAX_SEGS || !HasNumber(ts) then InvalidPortName else Parsed(SegsOf(ts))
  }

  datatype ScanState = None | Start | In | End

  /** The tokens the scanner has not closed yet, when it has read name[..p]. */
  ghost function Owed(name: string, b: nat, value: int, state: ScanState, p: nat): seq<Token>
    requires b <= p <= |name|
  {
    match state
    case None => Tokens(name, p)
    case Start => Tokens(name, p)
    case In => Tokens(name, b)
    case End =>
      var f := RunEnd(name, p, Separator);
      Repeats(name, b, p, f, value) + Tokens(name, f)
  }

  /** name[b..p] is (so far) one run, of digits or of letters, with this value. */
  ghost predicate InRun(name: string, b: nat, p: nat, isNum: bool, value: int) {
    && b < p <= |name| && (if isNum then value == Decimal(name, b, p) >= 0 else value == -1)
    && forall k :: b <= k < p ==> Class(name[k]) == if isNum then Digit else Letter
  }

  lemma {:induction false} ExtendRun(name: string, b: nat, p: nat, isNum: bool, value: int)
    requires p < |name| && Class(name[p]) == (if isNum then Digit else Letter)
    requires b == p || InRun(name, b, p, isNum, value)
    ensures var d := name[p] as int - '0' as int;
            InRun(name, b, p + 1, isNum, if !isNum then -1 else if b == p then d else value * 10 + d)
  {
    assert Decimal(name, p, p) == 0;
    if isNum && b < p {
      DecimalOfDigits(name, b, p);
    }
  }

  lemma {:induction false} DecimalOfDigits(s: string, b: nat, e: nat)
    requires b <= e <= |s| && forall k :: b <= k < e ==> Class(s[k]) == Digit
    ensures Decimal(s, b, e) >= 0
  {
    if b < e {
      DecimalOfDigits(s, b, e - 1);
    }
  }

  /** What is owed once the segment at b has been closed because of name[p]. */
  ghost function AfterClose(name: string, b: nat, value: int, p: nat): seq<Token>
    requires b <= p < |name|
  {
    if Class(name[p]) == Separator then Owed(name, b, value, End, p + 1) else Tokens(name, p)
  }

  /** Closing a run takes the next token off what is owed. */
  lemma {:induction false} CloseRun(name: string, b: nat, isNum: bool, value: int, p: nat)
    requires p < |name| && InRun(name, b, p, isNum, value)
    requires Class(name[p]) != (if isNum then Digit else Letter)
    ensures Tokens(name, b) == [Token(name[b..p], value, false)] + AfterClose(name, b, value, p)
  {
    hide Tokens, Decimal, Class;
    RunEndIs(name, b, Class(name[b]), p);
    var f := RunEnd(name, p, Separator);
    TokensAtRun(name, b, p, f);
    if Class(name[p]) != Separator {
      assert f == p && Repeats(name, b, p + 1, p, value) == [];
    } else {
      assert RunEnd(name, p + 1, Separator) == f;
    }
  }

  /** So does closing it again at one more separator. */
  lemma {:induction false} CloseAgain(name: string, b: nat, value: int, p: nat)
    requires b <= p < |name| && Class(name[p]) == Separator
    ensures Owed(name, b, value, End, p) == [Token(name[b..p], value, true)] + AfterClose(name, b, value, p)
  {
    AppendAssociates([Token(name[b..p], value, true)], Repeats(name, b, p + 1, RunEnd(name, p, Separator), value),
                     Tokens(name, RunEnd(name, p, Separator)));
  }

  lemma {:induction false} TakeNext(all: seq<Token>, segs: seq<Token>, seg: Token, rest: seq<Token>)
    requires all == segs + ([seg] + rest)
    ensures all == segs + [seg] + rest && all[|segs|] == seg
    ensures HasNumber(segs + [seg]) <==> HasNumber(segs) || seg.num != -1
  {
    assert (segs + [seg])[..|segs|] == segs;
  }

  lemma {:induction false} NothingToClose(name: string, b: nat, value: int, state: ScanState, p: nat)
    requires b <= p < |name| && state in {None, End}
    ensures Class(name[p]) != Separator ==> Owed(name, b, value, state, p) == Tokens(name, p)
    ensures Class(name[p]) == Separator ==> Owed(name, b, value, None, p) == Owed(name, b, value, None, p + 1)
  {
    if Class(name[p]) != Separator {
      assert RunEnd(name, p, Separator) == p && Repeats(name, b, p, p, value) == [];
    }
  }

  /** At the end of the name only a run that is still open is owed. */
  lemma {:induction false} LastRun(name: string, b: nat, isNum: bool, value: int, state: ScanState)
    requires b <= |name| && (state == In ==> InRun(name, b, |name|, isNum, value)) && state != Start
    ensures Owed(name, b, value, state, |name|) == if state == In then [Token(name[b..], value, false)] else []
  {
    if state == In {
      RunEndIs(name, b, Class(name[b]), |name|);
      assert name[b..|name|] == name[b..];
      assert RunEnd(name, |name|, Separator) == |name|;
      assert Repeats(name, b, |name| + 1, |name|, value) + Tokens(name, |name|) == [];
    } else if state == End {
      assert Repeats(name, b, |name|, |name|, value) + Tokens(name, |name|) == [];
    }
  }

  /** The scanner's state after name[..p], when it has closed the tokens `ts`. */
  ghost predicate Scanned(name: string, ts: seq<Token>, b: nat, isNum: bool, value: int,
                          state: ScanState, p: nat) {
    && b <= p <= |name| && |ts| <= MAX_SEGS
    && Tokens(name, 0) == ts + Owed(name, b, value, state, p)
    && (state == In ==> |ts| < MAX_SEGS && InRun(name, b, p, isNum, value))
    && (state == End ==> b < p && (value != -1 ==> HasNumber(ts)))
  }

  lemma {:induction false} SomeToken(name: string, p: nat)
    requires p < |name| && Class(name[p]) != Separator
    ensures Tokens(name, p) != []
  {
  }

  lemma {:induction false} Untouched(name: string)
    ensures Scanned(name, [], 0, false, 0, None, 0)
  {
    assert Owed(name, 0, 0, None, 0) == Tokens(name, 0);
  }

  predicate Closes(name: string, isNum: bool, state: ScanState, p: nat)
    requires p < |name|
  {
    if state == In then Class(name[p]) != if isNum then Digit else Letter
    else state == End && Class(name[p]) == Separator
  }

  lemma {:induction false} CloseStep(name: string, ts: seq<Token>, b: nat, isNum: bool, value: int,
                                     state: ScanState, p: nat)
    requires p < |name| && Scannable(name) && Scanned(name, ts, b, isNum, value, state, p)
    requires Closes(name, isNum, state, p)
    ensures var ts' := ts + [Token(name[b..p], value, state == End)];
            && |ts'| <= MAX_SEGS && Tokens(name, 0) == ts' + AfterClose(name, b, value, p)
            && (HasNumber(ts') <==> HasNumber(ts) || (state == In && isNum))
            && (Class(name[p]) == Separator ==> Scanned(name, ts', b, isNum, value, End, p + 1))
  {
    if state == In {
      CloseRun(name, b, isNum, value, p);
    } else {
      CloseAgain(name, b, value, p);
    }
    TakeNext(Tokens(name, 0), ts, Token(name[b..p], value, state == End), AfterClose(name, b, value, p));
  }

  lemma {:induction false} ContinueStep(name: string, ts: seq<Token>, b: nat, isNum: bool, value: int, p: nat)
    requires p < |name| && Scanned(name, ts, b, isNum, value, In, p)
    requires Class(name[p]) == if isNum then Digit else Letter
    ensures var value' := if isNum then value * 10 + (name[p] as int - '0' as int) else value;
            Scanned(name, ts, b, isNum, value', In, p + 1)
  {
    ExtendRun(name, b, p, isNum, value);
  }

  lemma {:induction false} StartStep(name: string, ts: seq<Token>, isNum: bool, p: nat)
    requires p < |name| && |ts| < MAX_SEGS && Tokens(name, 0) == ts + Tokens(name, p)
    requires Class(name[p]) == if isNum then Digit else Letter
    ensures Scanned(name, ts, p, isNum, if isNum then name[p] as int - '0' as int else -1, In, p + 1)
  {
    ExtendRun(name, p, p, isNum, -1);
  }

  method CloseSegment(segs: seq<Seg>, text: string, value: int, ghost ts: seq<Token>, ghost token: Token)
    returns (segs': seq<Seg>)
    requires segs == SegsOf(ts) && token.text == text && token.num == value
    ensures segs' == SegsOf(ts + [token])
  {
    var key := CalStrKey(|segs| + 1, text);
    segs' := segs + [Seg(key, value)];
  }

  method ParsePortName(name: string) returns (r: ParseResult)
    requires Scannable(name)
    ensures r == ParseSpec(name)
  {
    hide Owed, Tokens;
    Untouched(name);
    if name == [] {
      LastRun(name, 0, false, 0, None);
      return InvalidPortName;
    }
    var segs: seq<Seg> := [];
    ghost var ts: seq<Token> := [];
    var segStart := 0;
    var hasNum, isNum, toClose := false, false, false;
    var value := 0;
    var state := None;
    for p := 0 to |name|
      invariant !toClose && state != Start && 0 <= segStart
      invariant hasNum <==> HasNumber(ts) || (state == In && isNum)
      invariant segs == SegsOf(ts) && Scanned(name, ts, segStart, isNum, value, state, p)
    {
      ghost var token := Token(name[segStart..p], value, state == End);
      if Closes(name, isNum, state, p) {
        CloseStep(name, ts, segStart, isNum, value, state, p);
      } else if state == In {
        ContinueStep(name, ts, segStart, isNum, value, p);
      } else {
        NothingToClose(name, segStart, value, state, p);
      }
      if Class(name[p]) == Digit {
        if state == In && isNum {
          value := value * 10 + (name[p] as int - '0' as int);
        } else {
          isNum := true;
          hasNum := true;
          toClose := state == In;
          state := Start;
        }
      } else if Class(name[p]) == Letter {
        if state != In || isNum {
          isNum := false;
          toClose := state == In;
          state := Start;
        }
      } else if state == In {
        state := End;
      }
      if state == End || toClose {
        segs := CloseSegment(segs, name[segStart..p], value, ts, token);
        ts := ts + [token];
        toClose := false;
      }
      if state == Start {
        if |segs| == MAX_SEGS {
          assert Tokens(name, p) != [] by { SomeToken(name, p); }
          return InvalidPortName;
        }
        StartStep(name, ts, isNum, p);
        segStart := p;
        value := if isNum then name[p] as int - '0' as int else -1;
        state := In;
      }
    }
    ghost var last := Token(name[segStart..], value, false);
    LastRun(name, segStart, isNum, value, state);
    if state == In {
      TakeNext(Tokens(name, 0), ts, last, []);
    }
    assert Tokens(name, 0) == if state == In then ts + [last] else ts;
    if !hasNum {
      return InvalidPortName;
    }
    if state == In {
      segs := CloseSegment(segs, name[segStart..], value, ts, last);
    }
    return Parsed(segs);
  }
}
