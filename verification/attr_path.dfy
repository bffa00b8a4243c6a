/** Attribute paths: the printer of assignment targets and the parser of query paths. */
module AttrPath {

  datatype Error = ExpectedClosingBracket | ExpectedOpeningQuote | UnmatchedBracket

  datatype Result = Ok(parts: seq<string>) | Err(error: Error)

  predicate IsQuote(c: char) { c == '\"' || c == '\'' }

  /** A finished part is kept unless it is empty. */
  function Flush(parts: seq<string>, current: string): seq<string> {
    if current == [] then parts else parts + [current]
  }

  /** What the parser makes of the rest of a path. */
  function Scan(s: string, parts: seq<string>, current: string, inBrackets: bool): Result
    decreases |s|
  {
    if s == [] then Ok(Flush(parts, current))
    else if inBrackets then
      if IsQuote(s[0]) then
        if |s| > 1 && s[1] == ']' then Scan(s[2..], parts, current, false) else Err(ExpectedClosingBracket)
      else Scan(s[1..], parts, current + [s[0]], true)
    else if s[0] == '.' then Scan(s[1..], Flush(parts, current), "", false)
    else if s[0] == '[' then
      if |s| == 1 then Ok(Flush(parts, current))
      else if IsQuote(s[1]) then Scan(s[2..], Flush(parts, current), "", true)
      else Err(ExpectedOpeningQuote)
    else if s[0] == ']' then Err(UnmatchedBracket)
    else Scan(s[1..], parts, current + [s[0]], false)
  }

  method ParseAttributePath(path: string) returns (r: Result)
    ensures r == Scan(path, [], "", false)
  {
    var parts: seq<string>, current, inBrackets, i := [], "", false, 0;
    while i < |path|
      invariant 0 <= i <= |path|
      invariant Scan(path[i..], parts, current, inBrackets) == Scan(path, [], "", false)
      decreases |path| - i
    {
      var ch := path[i];
      i := i + 1;
      if inBrackets {
        if IsQuote(ch) {
          if i < |path| && path[i] == ']' {
            i := i + 1;
            inBrackets := false;
            continue;
          }
          return Err(ExpectedClosingBracket);
        } else {
          current := current + [ch];
        }
      } else {
        if ch == '.' {
          if current != "" {
            parts := parts + [current];
            current := "";
          }
        } else if ch == '[' {
          if current != "" {
            parts := parts + [current];
            current := "";
          }
          inBrackets := true;
          if i < |path| {
            var next := path[i];
            i := i + 1;
            if !IsQuote(next) {
              return Err(ExpectedOpeningQuote);
            }
          }
        } else if ch == ']' {
          return Err(UnmatchedBracket);
        } else {
          current := current + [ch];
        }
      }
    }
    if current != "" {
      parts := parts + [current];
    }
    return Ok(parts);
  }

  /** An index: a string, a number, a signed number, or anything else. */
  datatype Index = Text(value: string) | Number(digits: string) | Signed(sign: string, digits: string) | Other

  datatype Step = Member(name: string) | Index(index: Index)

  datatype Target = Target(name: string, paths: seq<Step>)

  /** The debug form of a string, character by character. */
  function Escaped(esc: char -> string, s: string): string {
    if s == [] then [] else esc(s[0]) + Escaped(esc, s[1..])
  }

  function IndexText(esc: char -> string, index: Index): string {
    match index
    case Text(v) => "\"" + Escaped(esc, v) + "\""
    case Number(digits) => digits
    case Signed(sign, digits) => sign + digits
    case Other => "..."
  }

  function StepText(esc: char -> string, step: Step): string {
    match step
    case Member(name) => "." + name
    case Index(index) => "[" + IndexText(esc, index) + "]"
  }

  function StepsText(esc: char -> string, steps: seq<Step>): string {
    if steps == [] then [] else StepText(esc, steps[0]) + StepsText(esc, steps[1..])
  }

  function PathText(esc: char -> string, t: Target): string {
    t.name + StepsText(esc, t.paths)
  }

  method PushStep(esc: char -> string, result: string, step: Step) returns (r: string)
    ensures r == result + StepText(esc, step)
  {
    r := result;
    match step
    case Member(name) =>
      r := r + ['.'];
      r := r + name;
    case Index(index) =>
      r := r + ['['];
      match index {
        case Signed(sign, digits) =>
          r := r + sign;
          r := r + digits;
        case Number(digits) => r := r + digits;
        case Text(v) => r := r + ("\"" + Escaped(esc, v) + "\"");
        case Other => r := r + "...";
      }
      r := r + [']'];
  }

  method GetTargetPath(esc: char -> string, t: Target) returns (result: string)
    ensures result == PathText(esc, t)
  {
    result := t.name;
    for i := 0 to |t.paths|
      invariant result + StepsText(esc, t.paths[i..]) == PathText(esc, t)
    {
      StepsTextAt(esc, t.paths, i, result);
      result := PushStep(esc, result, t.paths[i]);
    }
    assert t.paths[|t.paths|..] == [];
  }

  lemma {:induction false} StepsTextAt(esc: char -> string, steps: seq<Step>, i: nat, before: string)
    requires i < |steps|
    ensures before + StepsText(esc, steps[i..]) == before + StepText(esc, steps[i]) + StepsText(esc, steps[i + 1..])
  {
    assert steps[i..][0] == steps[i] && steps[i..][1..] == steps[i + 1..];
  }

  /** The names along a target. */
  function StepName(step: Step): string {
    match step case Member(name) => name case Index(index) => if index.Text? then index.value else ""
  }

  function StepNames(steps: seq<Step>): seq<string> {
    if steps == [] then [] else [StepName(steps[0])] + StepNames(steps[1..])
  }

  function Names(t: Target): seq<string> {
    [t.name] + StepNames(t.paths)
  }

  /** No character that separates names. */
  predicate Unbroken(s: string) {
    forall i :: 0 <= i < |s| ==> s[i] != '.' && s[i] != '[' && s[i] != ']'
  }

  predicate PlainName(s: string) { s != [] && Unbroken(s) }

  predicate NoQuotes(s: string) {
    forall i :: 0 <= i < |s| ==> !IsQuote(s[i])
  }

  /** A member without separators, or a string index whose debug form has no quote inside. */
  predicate LooseStep(esc: char -> string, step: Step) {
    match step
    case Member(name) => Unbroken(name)
    case Index(index) => WellFormedIndex(index) && (index.Text? ==> NoQuotes(Escaped(esc, index.value)))
  }

  predicate IsTextStep(step: Step) { step.Member? || step.index.Text? }

  predicate AllText(steps: seq<Step>) {
    forall i :: 0 <= i < |steps| ==> IsTextStep(steps[i])
  }

  /** A non-string index starts with no quote. */
  predicate WellFormedIndex(index: Index) {
    match index
    case Text(_) => true
    case Number(digits) => digits != [] && !IsQuote(digits[0])
    case Signed(sign, digits) => sign != [] && !IsQuote(sign[0])
    case Other => true
  }

  /** The name of a step as the parser sees it. */
  function SeenName(esc: char -> string, step: Step): string {
    if step.Member? then step.name else if step.index.Text? then Escaped(esc, step.index.value) else ""
  }

  function SeenNames(esc: char -> string, steps: seq<Step>): seq<string> {
    if steps == [] then [] else [SeenName(esc, steps[0])] + SeenNames(esc, steps[1..])
  }

  /** The non-empty names. */
  function Kept(names: seq<string>): seq<string> {
    if names == [] then [] else Flush([], names[0]) + Kept(names[1..])
  }

  lemma {:induction false} ScanName(name: string, rest: string, parts: seq<string>, current: string)
    requires Unbroken(name)
    ensures Scan(name + rest, parts, current, false) == Scan(rest, parts, current + name, false)
  {
    if name == [] {
      assert name + rest == rest && current + name == current;
    } else {
      assert (name + rest)[1..] == name[1..] + rest;
      ScanName(name[1..], rest, parts, current + [name[0]]);
      assert (current + [name[0]]) + name[1..] == current + name;
    }
  }

  lemma {:induction false} ScanQuoted(v: string, rest: string, parts: seq<string>, current: string)
    requires NoQuotes(v)
    ensures Scan(v + ("\"]" + rest), parts, current, true) == Scan(rest, parts, current + v, false)
  {
    var close := "\"]" + rest;
    if v == [] {
      assert v + close == close && current + v == current && close[2..] == rest;
    } else {
      assert (v + close)[1..] == v[1..] + close;
      ScanQuoted(v[1..], rest, parts, current + [v[0]]);
      assert (current + [v[0]]) + v[1..] == current + v;
    }
  }

  /** The debug form goes through a string character by character, and leaves a string without escapes as it is. */
  lemma {:induction false} EscapedParts(esc: char -> string, a: string, b: string, c: char)
    ensures Escaped(esc, a + b) == Escaped(esc, a) + Escaped(esc, b) && Escaped(esc, [c]) == esc(c)
    ensures (forall i :: 0 <= i < |a| ==> esc(a[i]) == [a[i]]) ==> Escaped(esc, a) == a
  {
    assert [c][1..] == [] && Escaped(esc, []) == [] && esc(c) + [] == esc(c);
    if a == [] {
      assert a + b == b;
    } else {
      assert (a + b)[1..] == a[1..] + b;
      EscapedParts(esc, a[1..], b, c);
      Rejoin(esc(a[0]), Escaped(esc, a[1..]), Escaped(esc, b));
      if forall i :: 0 <= i < |a| ==> esc(a[i]) == [a[i]] {
        assert forall i :: 0 <= i < |a[1..]| ==> a[1..][i] == a[i + 1];
        assert a == [a[0]] + a[1..];
      }
    }
  }

  lemma {:induction false} Rejoin(a: string, b: string, c: string)
    ensures (a + b) + c == a + (b + c)
  {
  }

  // Paths as they are written by hand.

  lemma {:induction false} ScanAny(v: string, q: char, rest: string, parts: seq<string>, current: string)
    requires NoQuotes(v) && (q == '\"' || q == '\'')
    ensures Scan(v + ([q, ']'] + rest), parts, current, true) == Scan(rest, parts, current + v, false)
    ensures Scan(v, parts, current, true) == Ok(Flush(parts, current + v))
    ensures rest == [] || rest[0] != ']' ==>
      Scan(v + ([q] + rest), parts, current, true) == Err(ExpectedClosingBracket)
  {
    if v == [] {
      assert v + ([q, ']'] + rest) == [q, ']'] + rest && ([q, ']'] + rest)[2..] == rest && current + v == current;
      assert v + ([q] + rest) == [q] + rest;
    } else {
      assert (v + ([q, ']'] + rest))[1..] == v[1..] + ([q, ']'] + rest);
      assert (v + ([q] + rest))[1..] == v[1..] + ([q] + rest);
      ScanAny(v[1..], q, rest, parts, current + [v[0]]);
      assert (current + [v[0]]) + v[1..] == current + v;
    }
  }

  lemma {:induction false} OpensIndex(o: char, s: string, parts: seq<string>, current: string)
    requires o == '\"' || o == '\''
    ensures Scan(['[', o] + s, parts, current, false) == Scan(s, Flush(parts, current), "", true)
  {
    assert (['[', o] + s)[2..] == s;
  }

  /** A name with an index in quotes of either kind, also behind a dot, is the name and the index. */
  lemma {:induction false} IndexParses(name: string, v: string, o: char, q: char)
    requires PlainName(name) && NoQuotes(v) && v != [] && o in {'\"', '\''} && q in {'\"', '\''}
    ensures Scan(name + (['[', o] + (v + [q, ']'])), [], "", false) == Ok([name, v])
    ensures Scan(name + ("." + (['[', o] + (v + [q, ']']))), [], "", false) == Ok([name, v])
  {
    var index := ['[', o] + (v + [q, ']']);
    assert [q, ']'] + [] == [q, ']'] && "" + name == name && "" + v == v;
    assert Flush([], name) == [name] && Flush([name], v) == [name, v];
    ScanName(name, index, [], "");
    OpensIndex(o, v + [q, ']'], [], name);
    ScanAny(v, q, [], [name], "");
    ScanName(name, "." + index, [], "");
    assert ("." + index)[1..] == index;
    OpensIndex(o, v + [q, ']'], [name], "");
  }

  /** The errors: an index without a quote, a quote without a bracket behind it, a bracket without an index. */
  lemma {:induction false} BadPaths(name: string, v: string, o: char, rest: string)
    requires PlainName(name) && NoQuotes(v) && o in {'\"', '\''}
    ensures rest != [] && !(rest[0] in {'\"', '\''}) ==>
      Scan(name + ("[" + rest), [], "", false) == Err(ExpectedOpeningQuote)
    ensures (rest == [] || rest[0] != ']') ==>
      Scan(name + (['[', o] + (v + ([o] + rest))), [], "", false) == Err(ExpectedClosingBracket)
    ensures Scan(name + ("]" + rest), [], "", false) == Err(UnmatchedBracket)
  {
    assert "" + name == name && Flush([], name) == [name];
    ScanName(name, "[" + rest, [], "");
    ScanName(name, "]" + rest, [], "");
    ScanName(name, ['[', o] + (v + ([o] + rest)), [], "");
    OpensIndex(o, v + ([o] + rest), [], name);
    ScanAny(v, o, rest, [name], "");
  }

  /** A path may end inside an index: a missing closing quote, or everything behind the bracket, is forgiven. */
  lemma {:induction false} UnfinishedPaths(name: string, v: string, o: char)
    requires PlainName(name) && NoQuotes(v) && v != [] && o in {'\"', '\''}
    ensures Scan(name + "[", [], "", false) == Ok([name])
    ensures Scan(name + (['[', o] + v), [], "", false) == Ok([name, v])
  {
    assert "" + name == name && "" + v == v;
    ScanName(name, "[", [], "");
    ScanName(name, ['[', o] + v, [], "");
    OpensIndex(o, v, [], name);
    ScanAny(v, o, [], [name], "");
  }

  /** Indices that are no strings are printed as they are written, or as three dots. */
  lemma {:induction false} PlainIndices(esc: char -> string, name: string, sign: string, digits: string)
    ensures PathText(esc, Target(name, [Index(Number(digits))])) == name + "[" + digits + "]"
    ensures PathText(esc, Target(name, [Index(Signed(sign, digits))])) == name + "[" + sign + digits + "]"
    ensures PathText(esc, Target(name, [Index(Other)])) == name + "[...]"
  {
    OneStep(esc, name, Index(Number(digits)));
    OneStep(esc, name, Index(Signed(sign, digits)));
    OneStep(esc, name, Index(Other));
    assert "[" + "..." + "]" == "[...]";
  }

  lemma {:induction false} OneStep(esc: char -> string, name: string, step: Step)
    ensures PathText(esc, Target(name, [step])) == name + StepText(esc, step)
  {
    assert [step][1..] == [] && StepsText(esc, []) == "";
  }

  lemma {:induction false} ScanIndex(esc: char -> string, v: string, rest: string, parts: seq<string>, current: string)
    requires NoQuotes(Escaped(esc, v))
    ensures Scan(StepText(esc, Index(Text(v))) + rest, parts, current, false)
         == Scan(rest, Flush(parts, current), Escaped(esc, v), false)
  {
    var e := Escaped(esc, v);
    IndexShape(e, rest);
    ScanOpen(e + ("\"]" + rest), parts, current);
    ScanQuoted(e, rest, Flush(parts, current), "");
    assert "" + e == e;
  }

  lemma {:induction false} IndexShape(e: string, rest: string)
    ensures ("[" + ("\"" + e + "\"") + "]") + rest == "[\"" + (e + ("\"]" + rest))
  {
  }

  lemma {:induction false} ScanOpen(s: string, parts: seq<string>, current: string)
    ensures Scan("[\"" + s, parts, current, false) == Scan(s, Flush(parts, current), "", true)
  {
    assert ("[\"" + s)[2..] == s;
  }

  lemma {:induction false} ScanMember(name: string, rest: string, parts: seq<string>, current: string)
    requires Unbroken(name)
    ensures Scan(("." + name) + rest, parts, current, false) == Scan(rest, Flush(parts, current), name, false)
  {
    assert (("." + name) + rest)[1..] == name + rest;
    ScanName(name, rest, Flush(parts, current), "");
    assert "" + name == name;
  }

  lemma {:induction false} ScanNumber(
    esc: char -> string, index: Index, rest: string, parts: seq<string>, current: string)
    requires WellFormedIndex(index) && !index.Text?
    ensures Scan(StepText(esc, Index(index)) + rest, parts, current, false) == Err(ExpectedOpeningQuote)
  {
    var s := StepText(esc, Index(index)) + rest;
    assert s[0] == '[' && s[1] == IndexText(esc, index)[0];
  }

  lemma {:induction false} ScanStep(esc: char -> string, step: Step, rest: string, parts: seq<string>, current: string)
    requires LooseStep(esc, step)
    ensures Scan(StepText(esc, step) + rest, parts, current, false)
         == if IsTextStep(step) then Scan(rest, Flush(parts, current), SeenName(esc, step), false)
            else Err(ExpectedOpeningQuote)
  {
    if !IsTextStep(step) {
      ScanNumber(esc, step.index, rest, parts, current);
    } else if step.Member? {
      ScanMember(step.name, rest, parts, current);
    } else {
      ScanIndex(esc, step.index.value, rest, parts, current);
    }
  }

  lemma {:induction false} FlushAll(parts: seq<string>, name: string, names: seq<string>)
    ensures Flush(parts, name) + names == parts + (Flush([], name) + names)
  {
  }

  lemma {:induction false} ScanSteps(esc: char -> string, steps: seq<Step>, parts: seq<string>, current: string)
    requires forall i :: 0 <= i < |steps| ==> LooseStep(esc, steps[i])
    ensures Scan(StepsText(esc, steps), parts, current, false)
         == if AllText(steps) then Ok(Flush(parts, current) + Kept(SeenNames(esc, steps)))
            else Err(ExpectedOpeningQuote)
    decreases |steps|
  {
    if steps == [] {
      assert Flush(parts, current) + [] == Flush(parts, current);
    } else {
      var rest := StepsText(esc, steps[1..]);
      ScanStep(esc, steps[0], rest, parts, current);
      assert StepsText(esc, steps) == StepText(esc, steps[0]) + rest;
      if IsTextStep(steps[0]) {
        ScanSteps(esc, steps[1..], Flush(parts, current), SeenName(esc, steps[0]));
        AllSplit(steps);
        FlushAll(Flush(parts, current), SeenName(esc, steps[0]), Kept(SeenNames(esc, steps[1..])));
        assert SeenNames(esc, steps)[1..] == SeenNames(esc, steps[1..]);
      }
    }
  }

  lemma {:induction false} AllSplit(steps: seq<Step>)
    requires steps != [] && IsTextStep(steps[0])
    ensures AllText(steps) <==> AllText(steps[1..])
  {
    if AllText(steps[1..]) {
      forall i | 0 <= i < |steps| ensures IsTextStep(steps[i]) {
        assert i > 0 ==> steps[i] == steps[1..][i - 1];
      }
    }
  }

  /** What the parser makes of a printed target: a missing quote if an index is not a string, and
      otherwise the non-empty names, with indices in their debug form. */
  lemma {:induction false} PathParses(esc: char -> string, t: Target)
    requires Unbroken(t.name) && forall i :: 0 <= i < |t.paths| ==> LooseStep(esc, t.paths[i])
    ensures Scan(PathText(esc, t), [], "", false)
         == if AllText(t.paths) then Ok(Kept([t.name] + SeenNames(esc, t.paths))) else Err(ExpectedOpeningQuote)
  {
    ScanName(t.name, StepsText(esc, t.paths), [], "");
    assert "" + t.name == t.name;
    ScanSteps(esc, t.paths, [], t.name);
    var names := [t.name] + SeenNames(esc, t.paths);
    assert names[1..] == SeenNames(esc, t.paths);
  }

  lemma {:induction false} KeptAll(names: seq<string>)
    ensures |Kept(names)| <= |names|
    ensures (forall i :: 0 <= i < |names| ==> names[i] != []) ==> Kept(names) == names
    ensures |Kept(names)| == |names| ==> forall i :: 0 <= i < |names| ==> names[i] != []
    decreases |names|
  {
    if names != [] {
      KeptAll(names[1..]);
      if |Kept(names)| == |names| {
        forall i | 0 <= i < |names| ensures names[i] != [] {
          assert i > 0 ==> names[i] == names[1..][i - 1];
        }
      }
    }
  }

  /** The names are what is printed: none is empty and no index needs escaping. */
  predicate Verbatim(esc: char -> string, step: Step) {
    StepName(step) != [] && SeenName(esc, step) == StepName(step)
  }

  lemma {:induction false} SeenAt(esc: char -> string, steps: seq<Step>, i: nat)
    requires i < |steps|
    ensures |SeenNames(esc, steps)| == |steps| && SeenNames(esc, steps)[i] == SeenName(esc, steps[i])
    decreases |steps|
  {
    if |steps| > 1 {
      SeenAt(esc, steps[1..], if i > 0 then i - 1 else 0);
      assert i > 0 ==> steps[i] == steps[1..][i - 1];
    }
  }

  /** Parsing a printed target gives back exactly its names if and only if every index is a string, no
      name is empty and every index is its own debug form. */
  lemma {:induction false} PathRoundTrip(esc: char -> string, t: Target)
    requires Unbroken(t.name) && forall i :: 0 <= i < |t.paths| ==> LooseStep(esc, t.paths[i])
    ensures Scan(PathText(esc, t), [], "", false) == Ok(Names(t))
       <==> AllText(t.paths) && t.name != [] && forall i :: 0 <= i < |t.paths| ==> Verbatim(esc, t.paths[i])
  {
    PathParses(esc, t);
    if AllText(t.paths) {
      NamesKept(esc, t);
    }
  }

  lemma {:induction false} NamesKept(esc: char -> string, t: Target)
    ensures Kept([t.name] + SeenNames(esc, t.paths)) == Names(t)
       <==> t.name != [] && forall i :: 0 <= i < |t.paths| ==> Verbatim(esc, t.paths[i])
  {
    var seen, names := [t.name] + SeenNames(esc, t.paths), Names(t);
    KeptAll(seen);
    SameLength(esc, t.paths);
    forall i | 0 <= i < |t.paths|
      ensures seen[i + 1] == SeenName(esc, t.paths[i]) && names[i + 1] == StepName(t.paths[i])
    {
      SeenAt(esc, t.paths, i);
      NameAt(t.paths, i);
    }
    if t.name != [] && forall i :: 0 <= i < |t.paths| ==> Verbatim(esc, t.paths[i]) {
      forall i | 0 <= i < |seen| ensures seen[i] == names[i] && seen[i] != [] {
        assert i > 0 ==> Verbatim(esc, t.paths[i - 1]);
      }
      assert seen == names;
    }
    if Kept(seen) == names {
      assert seen[0] != [];
      forall i | 0 <= i < |t.paths| ensures Verbatim(esc, t.paths[i]) {
        assert seen[i + 1] != [] && seen[i + 1] == names[i + 1];
      }
    }
  }

  lemma {:induction false} SameLength(esc: char -> string, steps: seq<Step>)
    ensures |SeenNames(esc, steps)| == |StepNames(steps)| == |steps|
    decreases |steps|
  {
    if steps != [] {
      SameLength(esc, steps[1..]);
    }
  }

  // Why the names must be plain.

  predicate Clean(s: string) {
    s != [] && forall i :: 0 <= i < |s| ==> s[i] != '.' && s[i] != ']'
  }

  predicate AllFull(parts: seq<string>) {
    forall i :: 0 <= i < |parts| ==> parts[i] != []
  }

  /** A parsed part is never empty. */
  lemma {:induction false} PartsAreFull(s: string, parts: seq<string>, current: string, inBrackets: bool)
    requires AllFull(parts)
    ensures var r := Scan(s, parts, current, inBrackets); r.Ok? ==> AllFull(r.parts)
    decreases |s|
  {
    assert AllFull(Flush(parts, current));
    if s == [] {
    } else if inBrackets {
      if IsQuote(s[0]) {
        if |s| > 1 && s[1] == ']' {
          PartsAreFull(s[2..], parts, current, false);
        }
      } else {
        PartsAreFull(s[1..], parts, current + [s[0]], true);
      }
    } else if s[0] == '.' {
      PartsAreFull(s[1..], Flush(parts, current), "", false);
    } else if s[0] == '[' {
      if |s| > 1 && IsQuote(s[1]) {
        PartsAreFull(s[2..], Flush(parts, current), "", true);
        assert Scan(s, parts, current, false) == Scan(s[2..], Flush(parts, current), "", true);
      }
    } else if s[0] != ']' {
      PartsAreFull(s[1..], parts, current + [s[0]], false);
      assert Scan(s, parts, current, false) == Scan(s[1..], parts, current + [s[0]], false);
    }
  }

  predicate AllClean(parts: seq<string>) {
    forall i :: 0 <= i < |parts| ==> Clean(parts[i])
  }

  /** Without an opening bracket no parsed part holds a dot or a closing bracket, or is empty. */
  lemma {:induction false} PartsAreClean(s: string, parts: seq<string>, current: string)
    requires '[' !in s && (current == [] || Clean(current)) && AllClean(parts)
    ensures var r := Scan(s, parts, current, false); r.Ok? ==> AllClean(r.parts)
    decreases |s|
  {
    if s != [] {
      if s[0] == '.' {
        PartsAreClean(s[1..], Flush(parts, current), "");
      } else if s[0] != ']' {
        assert s[0] in s;
        PartsAreClean(s[1..], parts, current + [s[0]]);
      }
    }
  }

  predicate AllMembers(t: Target) {
    '[' !in t.name && forall i :: 0 <= i < |t.paths| ==> t.paths[i].Member? && '[' !in t.paths[i].name
  }

  lemma {:induction false} NoBracket(esc: char -> string, steps: seq<Step>)
    requires forall i :: 0 <= i < |steps| ==> steps[i].Member? && '[' !in steps[i].name
    ensures '[' !in StepsText(esc, steps)
    decreases |steps|
  {
    if steps != [] {
      NoBracket(esc, steps[1..]);
    }
  }

  lemma {:induction false} NameAt(steps: seq<Step>, i: nat)
    requires i < |steps|
    ensures |StepNames(steps)| == |steps| && StepNames(steps)[i] == StepName(steps[i])
    decreases |steps|
  {
    if |steps| > 1 {
      NameAt(steps[1..], if i > 0 then i - 1 else 0);
      assert i > 0 ==> steps[i] == steps[1..][i - 1];
    }
  }

  /** For dotted targets without an opening bracket the round trip holds exactly when every name is plain. */
  lemma {:induction false} DottedRoundTripExact(esc: char -> string, t: Target)
    requires AllMembers(t)
    ensures Scan(PathText(esc, t), [], "", false) == Ok(Names(t))
       <==> PlainName(t.name) && forall i :: 0 <= i < |t.paths| ==> PlainName(t.paths[i].name)
  {
    if PlainName(t.name) && forall i :: 0 <= i < |t.paths| ==> PlainName(t.paths[i].name) {
      PathRoundTrip(esc, t);
      assert forall i :: 0 <= i < |t.paths| ==> Verbatim(esc, t.paths[i]);
    } else if Scan(PathText(esc, t), [], "", false) == Ok(Names(t)) {
      NoBracket(esc, t.paths);
      PartsAreClean(PathText(esc, t), [], "");
      assert Clean(Names(t)[0]);
      forall i | 0 <= i < |t.paths| ensures PlainName(t.paths[i].name) {
        NameAt(t.paths, i);
        assert Clean(Names(t)[i + 1]);
      }
      assert false;
    }
  }
}
