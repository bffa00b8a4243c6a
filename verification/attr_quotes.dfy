/** Attribute paths with quotes: exactly which targets the parser gives back. */
module AttrQuotes {
  import opened AttrPath

  function Brackets(s: string): nat {
    if s == [] then 0 else (if s[0] == ']' then 1 else 0) + Brackets(s[1..])
  }

  /** What is used of the debug form: no character vanishes, brackets stay, and only a quote becomes one. */
  ghost predicate DebugForm(esc: char -> string) {
    forall c: char {:trigger esc(c)} ::
      esc(c) != [] && Brackets(esc(c)) == Brackets([c]) && (IsQuote(esc(c)[0]) ==> IsQuote(c))
  }

  lemma {:induction false} BracketsJoin(s: string, t: string)
    ensures Brackets(s + t) == Brackets(s) + Brackets(t)
  {
    if s == [] {
      assert s + t == t;
    } else {
      assert (s + t)[1..] == s[1..] + t;
      BracketsJoin(s[1..], t);
    }
  }

  lemma {:induction false} EscapedKeeps(esc: char -> string, v: string)
    requires DebugForm(esc)
    ensures Brackets(Escaped(esc, v)) == Brackets(v)
    ensures v != [] ==> Escaped(esc, v) != [] && (IsQuote(Escaped(esc, v)[0]) ==> IsQuote(v[0]))
  {
    if v != [] {
      EscapedKeeps(esc, v[1..]);
      BracketsJoin(esc(v[0]), Escaped(esc, v[1..]));
      assert Brackets(esc(v[0])) == Brackets([v[0]]);
      assert v == [v[0]] + v[1..];
      BracketsJoin([v[0]], v[1..]);
    }
  }

  /** The part that the parser finishes next, given what it has of it. */
  ghost predicate NextIs(part: string, current: string, inBrackets: bool) {
    && part != []
    && (current != [] ==> part[0] == current[0] && (!inBrackets ==> Brackets(part) == Brackets(current)))
    && (current == [] ==> !IsQuote(part[0]) || Brackets(part) == 0)
  }

  /** Outside brackets no closing bracket enters a part, inside them no quote does. */
  lemma {:induction false} NextPart(s: string, parts: seq<string>, current: string, inBrackets: bool)
    requires Scan(s, parts, current, inBrackets).Ok?
    ensures var r := Scan(s, parts, current, inBrackets).parts;
      parts <= r && (|r| > |parts| ==> NextIs(r[|parts|], current, inBrackets)) && (current != [] ==> |r| > |parts|)
    decreases |s|
  {
    if s == [] {
    } else if inBrackets {
      if IsQuote(s[0]) {
        NextPart(s[2..], parts, current, false);
      } else {
        NextPart(s[1..], parts, current + [s[0]], true);
      }
    } else if s[0] == '.' {
      NextPart(s[1..], Flush(parts, current), "", false);
    } else if s[0] == '[' {
      if |s| > 1 {
        NextPart(s[2..], Flush(parts, current), "", true);
      }
    } else {
      BracketsJoin(current, [s[0]]);
      assert [s[0]][1..] == [];
      NextPart(s[1..], parts, current + [s[0]], false);
    }
  }

  /** The position of the first quote. */
  function FirstQuote(e: string): (q: nat)
    requires !NoQuotes(e)
    ensures q < |e| && IsQuote(e[q]) && NoQuotes(e[..q])
  {
    if IsQuote(e[0]) then 0 else
    assert !NoQuotes(e[1..]) by {
      var i :| 0 <= i < |e| && IsQuote(e[i]);
      assert e[1..][i - 1] == e[i];
    }
    1 + FirstQuote(e[1..])
  }

  /** A quote inside an index ends it early, if a closing bracket follows, or is an error. */
  lemma {:induction false} ScanEarlyQuote(e: string, q: nat, rest: string, parts: seq<string>, current: string)
    requires q < |e| && IsQuote(e[q]) && NoQuotes(e[..q])
    ensures Scan(e + ("\"]" + rest), parts, current, true) ==
      if q + 1 < |e| && e[q + 1] == ']' then Scan(e[q + 2..] + ("\"]" + rest), parts, current + e[..q], false)
      else Err(ExpectedClosingBracket)
    decreases q
  {
    var s := e + ("\"]" + rest);
    if q == 0 {
      assert current + e[..0] == current;
      assert s[1] == if |e| > 1 then e[1] else '\"';
      if |e| > 1 {
        assert s[2..] == e[2..] + ("\"]" + rest);
      }
    } else {
      var f := e[1..];
      assert !IsQuote(e[..q][0]);
      assert s[1..] == f + ("\"]" + rest);
      assert f[..q - 1] == e[1..q];
      var before := f[..q - 1];
      forall i | 0 <= i < |before| ensures !IsQuote(before[i]) {
        assert before[i] == e[..q][i + 1];
      }
      ScanEarlyQuote(f, q - 1, rest, parts, current + [e[0]]);
      assert (current + [e[0]]) + f[..q - 1] == current + e[..q];
      assert q + 1 < |e| ==> f[q + 1..] == e[q + 2..];
    }
  }

  /** A target with a quote in an index never comes back: the part in its place is another one. */
  lemma {:induction false} QuoteIsLost(esc: char -> string, v: string, rest: string, parts: seq<string>)
    requires DebugForm(esc) && !NoQuotes(Escaped(esc, v))
    requires Scan(Escaped(esc, v) + ("\"]" + rest), parts, "", true).Ok?
    ensures var r := Scan(Escaped(esc, v) + ("\"]" + rest), parts, "", true).parts;
      parts <= r && (|r| > |parts| ==> r[|parts|] != v)
  {
    var e := Escaped(esc, v);
    var q := FirstQuote(e);
    ScanEarlyQuote(e, q, rest, parts, "");
    assert "" + e[..q] == e[..q];
    NextPart(e[q + 2..] + ("\"]" + rest), parts, e[..q], false);
    EscapedKeeps(esc, v);
    BracketsAfter(e, q);
  }

  lemma {:induction false} BracketsAfter(e: string, q: nat)
    requires q + 1 < |e| && e[q + 1] == ']'
    ensures Brackets(e) > Brackets(e[..q])
  {
    assert e == e[..q] + e[q..];
    BracketsJoin(e[..q], e[q..]);
    assert e[q..][1..] == e[q + 1..] && e[q + 1..][0] == ']';
  }

  /** Every text step after `current` begins with a character that finishes `current`. */
  lemma {:induction false} Finished(esc: char -> string, steps: seq<Step>, parts: seq<string>, current: string)
    requires current != [] && Scan(StepsText(esc, steps), parts, current, false).Ok?
    ensures parts + [current] <= Scan(StepsText(esc, steps), parts, current, false).parts
  {
    if steps != [] {
      var s := StepsText(esc, steps);
      assert s[0] == StepText(esc, steps[0])[0];
      if s[0] == '.' {
        NextPart(s[1..], parts + [current], "", false);
      } else if |s| > 1 {
        NextPart(s[2..], parts + [current], "", true);
      }
    }
  }

  predicate SimpleStep(step: Step) {
    match step
    case Member(name) => Unbroken(name)
    case Index(index) => WellFormedIndex(index)
  }

  /** A step that comes back as its own name. */
  predicate Returns(esc: char -> string, step: Step) {
    && IsTextStep(step) && Verbatim(esc, step)
    && (step.Index? ==> NoQuotes(step.index.value))
  }

  lemma {:induction false} IndexReturns(
    esc: char -> string, v: string, tail: seq<Step>, parts: seq<string>, current: string, r: seq<string>)
    requires DebugForm(esc) && v != []
    requires Scan(StepText(esc, Index(Text(v))) + StepsText(esc, tail), parts, current, false) == Ok(r)
    requires |r| > |Flush(parts, current)| && r[|Flush(parts, current)|] == v
    ensures Escaped(esc, v) == v && NoQuotes(v)
  {
    var rest, e, done := StepsText(esc, tail), Escaped(esc, v), Flush(parts, current);
    EscapedKeeps(esc, v);
    if NoQuotes(e) {
      ScanIndex(esc, v, rest, parts, current);
      Finished(esc, tail, done, e);
      assert (done + [e])[|done|] == e;
    } else {
      IndexShape(e, rest);
      ScanOpen(e + ("\"]" + rest), parts, current);
      QuoteIsLost(esc, v, rest, done);
    }
  }

  /** The step at which a returned name stands is one that comes back. */
  lemma {:induction false} StepReturns(
    esc: char -> string, step: Step, tail: seq<Step>, parts: seq<string>, current: string, r: seq<string>)
    requires DebugForm(esc) && SimpleStep(step) && current != []
    requires Scan(StepText(esc, step) + StepsText(esc, tail), parts, current, false) == Ok(r)
    requires |r| > |parts| + 1 && r[|parts| + 1] == StepName(step) != []
    ensures Returns(esc, step)
    ensures Scan(StepsText(esc, tail), parts + [current], StepName(step), false) == Ok(r)
  {
    var rest := StepsText(esc, tail);
    match step
    case Member(name) => ScanMember(name, rest, parts, current);
    case Index(index) =>
      if index.Text? {
        IndexReturns(esc, index.value, tail, parts, current, r);
        ScanIndex(esc, index.value, rest, parts, current);
      } else {
        ScanNumber(esc, index, rest, parts, current);
      }
  }

  lemma {:induction false} StepsReturn(esc: char -> string, steps: seq<Step>, parts: seq<string>, current: string)
    requires DebugForm(esc) && current != [] && forall i :: 0 <= i < |steps| ==> SimpleStep(steps[i])
    requires AllFull(parts)
    requires Scan(StepsText(esc, steps), parts, current, false) == Ok(parts + [current] + StepNames(steps))
    ensures forall i :: 0 <= i < |steps| ==> Returns(esc, steps[i])
    decreases |steps|
  {
    if steps != [] {
      var name, names, done := StepName(steps[0]), StepNames(steps[1..]), parts + [current];
      PartsAreFull(StepsText(esc, steps), parts, current, false);
      MoveName(done, name, names);
      assert (done + [name] + names)[|done|] == name;
      StepReturns(esc, steps[0], steps[1..], parts, current, done + [name] + names);
      StepsReturn(esc, steps[1..], done, name);
      forall i | 0 <= i < |steps| ensures Returns(esc, steps[i]) {
        assert i > 0 ==> steps[i] == steps[1..][i - 1];
      }
    }
  }

  lemma {:induction false} MoveName(done: seq<string>, name: string, names: seq<string>)
    ensures done + ([name] + names) == done + [name] + names
  {
  }

  /**
   * Parsing the printed form of any target without separators in its names gives back exactly its names if
   * and only if every index is a string without quotes that is its own debug form, and no name is empty.
   */
  lemma {:induction false} PathRoundTripExact(esc: char -> string, t: Target)
    requires DebugForm(esc) && Unbroken(t.name) && forall i :: 0 <= i < |t.paths| ==> SimpleStep(t.paths[i])
    ensures Scan(PathText(esc, t), [], "", false) == Ok(Names(t))
       <==> t.name != [] && forall i :: 0 <= i < |t.paths| ==> Returns(esc, t.paths[i])
  {
    if t.name != [] && forall i :: 0 <= i < |t.paths| ==> Returns(esc, t.paths[i]) {
      AllReturn(esc, t);
    }
    if Scan(PathText(esc, t), [], "", false) == Ok(Names(t)) {
      OnlyReturned(esc, t);
    }
  }

  lemma {:induction false} AllReturn(esc: char -> string, t: Target)
    requires Unbroken(t.name) && t.name != []
    requires forall i :: 0 <= i < |t.paths| ==> SimpleStep(t.paths[i]) && Returns(esc, t.paths[i])
    ensures Scan(PathText(esc, t), [], "", false) == Ok(Names(t))
  {
    forall i | 0 <= i < |t.paths|
      ensures LooseStep(esc, t.paths[i]) && IsTextStep(t.paths[i]) && Verbatim(esc, t.paths[i])
    {
      assert Returns(esc, t.paths[i]) && SimpleStep(t.paths[i]);
    }
    PathRoundTrip(esc, t);
  }

  lemma {:induction false} StartName(name: string, names: seq<string>)
    ensures "" + name == name && [] + [name] + names == [name] + names
  {
  }

  lemma {:induction false} OnlyReturned(esc: char -> string, t: Target)
    requires DebugForm(esc) && Unbroken(t.name) && forall i :: 0 <= i < |t.paths| ==> SimpleStep(t.paths[i])
    requires Scan(PathText(esc, t), [], "", false) == Ok(Names(t))
    ensures t.name != [] && forall i :: 0 <= i < |t.paths| ==> Returns(esc, t.paths[i])
  {
    PartsAreFull(PathText(esc, t), [], "", false);
    assert Names(t)[0] == t.name;
    ScanName(t.name, StepsText(esc, t.paths), [], "");
    StartName(t.name, StepNames(t.paths));
    StepsReturn(esc, t.paths, [], t.name);
  }

  /** A single quote needs no escape, and still the target does not come back. */
  lemma {:induction false} SingleQuoteFails(esc: char -> string, name: string)
    requires PlainName(name) && esc('\'') == ['\'']
    ensures Scan(PathText(esc, Target(name, [Index(Text("'"))])), [], "", false) == Err(ExpectedClosingBracket)
  {
    var step := Index(Text("'"));
    assert Escaped(esc, "'") == "'" by {
      assert "'"[1..] == [] && ['\''] + [] == "'";
    }
    assert [step][1..] == [] && StepsText(esc, [step]) == StepText(esc, step) + [];
    ScanName(name, StepsText(esc, [step]), [], "");
    assert "" + name == name;
    IndexShape("'", []);
    ScanOpen("'" + ("\"]" + []), [], name);
    assert NoQuotes([]) && "'"[..0] == [];
    ScanEarlyQuote("'", 0, [], [name], "");
  }
}
