/** Printed string literals: exactly which values come back as one closed token. */
module LexerStrings {
  import opened Printer
  import L = LexerSpec
  import opened LexerTokens

  predicate LineBreak(c: char) { c in {'\r', '\n', L.EOF} }

  /** The number of backslashes right before position `i`. */
  function Slashes(s: string, i: nat): (n: nat)
    requires i <= |s|
    ensures n <= i
  {
    if i == 0 || s[i - 1] != '\\' then 0 else 1 + Slashes(s, i - 1)
  }

  predicate EvenBefore(s: string, i: nat)
    requires i <= |s|
  {
    Slashes(s, i) % 2 == 0
  }

  /** A line break at `i` that the scanner does not stop at. */
  predicate BreakOk(s: string, i: nat)
    requires i < |s|
  {
    LineBreak(s[i]) ==> i == 0 || s[i - 1] == '\"' || (s[i - 1] == '\\' && EvenBefore(s, i))
  }

  predicate QuoteOk(s: string, i: nat)
    requires i < |s|
  {
    s[i] == '\"' ==> EvenBefore(s, i)
  }

  /**
   * Before every quote and at the end stands an even number of backslashes, and every line break follows a
   * quote or an even number of backslashes, or begins the value.
   */
  predicate ShortOk(s: string) {
    EvenBefore(s, |s|) && forall i :: 0 <= i < |s| ==> QuoteOk(s, i) && BreakOk(s, i)
  }

  /** At the end, and before a quote at the end, stands an even number of backslashes. */
  predicate LongOk(s: string) {
    EvenBefore(s, |s|) && (s != [] && s[|s| - 1] == '\"' ==> EvenBefore(s, |s| - 1))
  }

  // How the scanner goes through a value.

  predicate ShortScans(s: string)
    decreases |s|
  {
    if s == [] then true
    else if s[0] == '\"' then ShortScans(s[1..])
    else if s[0] == '\\' && |s| > 1 && s[1] == '\\' then ShortScans(s[2..])
    else if s[0] == '\\' && (|s| == 1 || s[1] == '\"') then false
    else (|s| > 1 ==> !LineBreak(s[1])) && ShortScans(s[1..])
  }

  predicate LongScans(s: string)
    decreases |s|
  {
    if s == [] then true
    else if s[0] == '\\' && |s| > 1 && s[1] == '\\' then LongScans(s[2..])
    else if s[0] == '\\' && |s| > 1 && s[1] == '\"' then |s| > 2 && LongScans(s[2..])
    else s != ['\\'] && LongScans(s[1..])
  }

  lemma {:induction false} SlashesAll(s: string, i: nat, j: nat)
    requires j < i <= |s| && Slashes(s, i) == i
    ensures s[j] == '\\'
  {
    if j < i - 1 {
      SlashesAll(s, i - 1, j);
    }
  }

  /** Dropping a beginning shortens a run of backslashes only if the run reaches into it. */
  lemma {:induction false} SlashesDrop(s: string, d: nat, i: nat)
    requires d <= i <= |s|
    ensures Slashes(s, i) == Slashes(s[d..], i - d) + if Slashes(s[d..], i - d) == i - d then Slashes(s, d) else 0
    decreases i
  {
    if i > d {
      assert s[d..][i - d - 1] == s[i - 1];
      SlashesDrop(s, d, i - 1);
    }
  }

  /** A beginning that ends a run, or is a pair of backslashes, does not matter behind it. */
  lemma {:induction false} EvenDrop(s: string, d: nat, i: nat)
    requires d <= i <= |s|
    requires EvenBefore(s, d) || (d < i && s[d] != '\\')
    ensures EvenBefore(s, i) <==> EvenBefore(s[d..], i - d)
  {
    SlashesDrop(s, d, i);
    if d < i && s[d] != '\\' && Slashes(s[d..], i - d) == i - d {
      SlashesAll(s[d..], i - d, 0);
    }
  }

  lemma {:induction false} PlaceDrop(s: string, d: nat, i: nat)
    requires d < i < |s| && (EvenBefore(s, d) || s[d] != '\\')
    ensures BreakOk(s, i) <==> BreakOk(s[d..], i - d)
    ensures QuoteOk(s, i) <==> QuoteOk(s[d..], i - d)
  {
    EvenDrop(s, d, i);
    assert s[d..][i - d] == s[i] && s[d..][i - d - 1] == s[i - 1];
  }

  /** A value is right if its beginning is and the rest is right by itself. */
  lemma {:induction false} ShortDrop(s: string, d: nat)
    requires 1 <= d <= |s| && (EvenBefore(s, d) || (d < |s| && s[d] != '\\'))
    ensures ShortOk(s) <==>
      && ShortOk(s[d..]) && (forall i :: 0 <= i < d ==> QuoteOk(s, i) && BreakOk(s, i))
      && (d < |s| ==> QuoteOk(s, d) && BreakOk(s, d))
  {
    var t := s[d..];
    EvenDrop(s, d, |s|);
    forall i | d < i < |s| ensures (BreakOk(s, i) <==> BreakOk(t, i - d)) && (QuoteOk(s, i) <==> QuoteOk(t, i - d)) {
      PlaceDrop(s, d, i);
    }
    if ShortOk(s) {
      forall j | 0 <= j < |t| ensures QuoteOk(t, j) && BreakOk(t, j) {
        assert t[j] == s[d + j];
        assert j > 0 ==> QuoteOk(s, d + j) && BreakOk(s, d + j);
      }
    }
    if && ShortOk(t) && (forall i :: 0 <= i < d ==> QuoteOk(s, i) && BreakOk(s, i))
       && (d < |s| ==> QuoteOk(s, d) && BreakOk(s, d))
    {
      forall i | 0 <= i < |s| ensures QuoteOk(s, i) && BreakOk(s, i) {
        if i > d {
          assert QuoteOk(t, i - d) && BreakOk(t, i - d);
        }
      }
    }
  }

  lemma {:induction false} FirstSlashes(s: string)
    requires s != []
    ensures EvenBefore(s, 0) && (EvenBefore(s, 1) <==> s[0] != '\\')
    ensures |s| > 1 && s[0] == '\\' && s[1] == '\\' ==> EvenBefore(s, 2)
  {
    assert Slashes(s, 0) == 0;
    assert Slashes(s, 1) == if s[0] == '\\' then 1 else 0;
  }

  lemma {:induction false} ShortIff(s: string)
    ensures ShortOk(s) <==> ShortScans(s)
    decreases |s|
  {
    if s != [] {
      FirstSlashes(s);
      if s[0] == '\\' && |s| > 1 && s[1] == '\\' {
        ShortDrop(s, 2);
        ShortIff(s[2..]);
      } else if s[0] == '\\' && (|s| == 1 || s[1] == '\"') {
        assert |s| > 1 ==> !QuoteOk(s, 1);
      } else {
        ShortDrop(s, 1);
        ShortIff(s[1..]);
        assert |s| > 1 && s[0] != '\"' ==> (BreakOk(s, 1) <==> !LineBreak(s[1]));
      }
    }
  }

  lemma {:induction false} LongDrop(s: string, d: nat)
    requires 1 <= d < |s| && (EvenBefore(s, d) || s[d] != '\\')
    requires |s| == d + 1 && s[d] == '\"' ==> EvenBefore(s, d)
    ensures LongOk(s) <==> LongOk(s[d..])
  {
    EvenDrop(s, d, |s|);
    if |s| > d + 1 {
      EvenDrop(s, d, |s| - 1);
    }
    assert s[d..][|s| - d - 1] == s[|s| - 1];
  }

  lemma {:induction false} LongIff(s: string)
    ensures LongOk(s) <==> LongScans(s)
    decreases |s|
  {
    if s != [] {
      FirstSlashes(s);
      if s[0] == '\\' && |s| > 1 && s[1] == '\\' {
        if |s| > 2 {
          LongDrop(s, 2);
        }
        LongIff(s[2..]);
      } else if s[0] == '\\' && |s| > 1 && s[1] == '\"' {
        if |s| > 2 {
          assert EvenBefore(s, 2);
          LongDrop(s, 2);
        }
        LongIff(s[2..]);
      } else {
        if |s| > 1 {
          LongDrop(s, 1);
        }
        LongIff(s[1..]);
      }
    }
  }

  // One step of the scanner.

  function Ahead(r: L.Quoted, n: nat): L.Quoted { L.Quoted(r.closed, n + r.n) }

  lemma {:induction false} EscapedStep(triple: bool, c: char, tail: string)
    requires c == '\\' || c == '\"'
    ensures L.ScanString('\"', triple, ['\\', c] + tail) == Ahead(L.ScanString('\"', triple, tail), 2)
  {
    var t := ['\\', c] + tail;
    assert t[1..] == [c] + tail;
    assert t[1..][1..] == tail;
  }

  /** Not a quote, nor a backslash before a backslash or a quote. */
  predicate PlainHere(c: char, tail: string) {
    c != '\"' && (c == '\\' && tail != [] ==> tail[0] != '\\' && tail[0] != '\"')
  }

  /** A plain character stops a short string exactly when a line break comes next. */
  lemma {:induction false} PlainStep(c: char, tail: string)
    requires PlainHere(c, tail) && tail != []
    ensures L.ScanString('\"', false, [c] + tail)
         == if LineBreak(tail[0]) then L.Quoted(false, 1) else Ahead(L.ScanString('\"', false, tail), 1)
  {
    assert ([c] + tail)[1..] == tail;
  }

  lemma {:induction false} PlainLongStep(c: char, tail: string)
    requires PlainHere(c, tail) && tail != []
    ensures L.ScanString('\"', true, [c] + tail) == Ahead(L.ScanString('\"', true, tail), 1)
  {
    assert ([c] + tail)[1..] == tail;
  }

  /** A lone quote inside a triple-quoted string is a character like others. */
  lemma {:induction false} LoneQuoteStep(tail: string)
    requires tail != [] && tail[0] != '\"'
    ensures L.ScanString('\"', true, ['\"'] + tail) == Ahead(L.ScanString('\"', true, tail), 1)
  {
    assert (['\"'] + tail)[1..] == tail;
  }

  lemma {:induction false} EscapeHead(s: string)
    ensures s != [] ==> Escape(s) != [] && (LineBreak(Escape(s)[0]) <==> LineBreak(s[0]))
    ensures s != [] ==> Escape(s)[0] == if s[0] == '\"' then '\\' else s[0]
  {
  }

  lemma {:induction false} EscapeCons(s: string, after: string)
    requires s != []
    ensures s[0] == '\"' ==> Escape(s) + after == ['\\', '\"'] + (Escape(s[1..]) + after)
    ensures s[0] != '\"' ==> Escape(s) + after == [s[0]] + (Escape(s[1..]) + after)
    ensures |Escape(s)| == (if s[0] == '\"' then 2 else 1) + |Escape(s[1..])|
  {
  }

  /** Two characters that begin with a backslash and print as themselves. */
  lemma {:induction false} EscapePair(s: string, after: string)
    requires |s| > 1 && s[0] == '\\' && s[1] == '\\'
    ensures Escape(s) + after == ['\\', '\\'] + (Escape(s[2..]) + after) && |Escape(s)| == 2 + |Escape(s[2..])|
  {
    EscapeCons(s, after);
    EscapeCons(s[1..], after);
    assert s[1..][1..] == s[2..];
    Concat(['\\'], ['\\'], Escape(s[2..]) + after);
  }

  /** A backslash before a quote meets the backslash that the printer puts there. */
  lemma {:induction false} EscapeSlashQuote(s: string, after: string)
    requires |s| > 1 && s[0] == '\\' && s[1] == '\"'
    ensures Escape(s) + after == ['\\', '\\'] + (['\"'] + (Escape(s[2..]) + after))
    ensures |Escape(s)| == 3 + |Escape(s[2..])|
  {
    EscapeCons(s, after);
    EscapeCons(s[1..], after);
    assert s[1..][1..] == s[2..];
    var tail := Escape(s[2..]) + after;
    assert ['\\'] + (['\\', '\"'] + tail) == ['\\', '\\'] + (['\"'] + tail);
  }

  predicate Exact(r: L.Quoted, n: nat) { r == L.Quoted(true, n) }

  /** A short value scans to its own closing quote exactly when the scanner can go through it. */
  lemma {:induction false} ShortScan(s: string, rest: string)
    ensures Exact(L.ScanString('\"', false, Escape(s) + ("\"" + rest)), |Escape(s)| + 1) <==> ShortScans(s)
    decreases |s|
  {
    var close := "\"" + rest;
    if s == [] {
      assert Escape(s) + close == close;
    } else if s[0] == '\\' && |s| > 1 && s[1] == '\\' {
      EscapePair(s, close);
      ShortScan(s[2..], rest);
      EscapedStep(false, '\\', Escape(s[2..]) + close);
    } else if s[0] == '\\' && |s| > 1 && s[1] == '\"' {
      EscapeSlashQuote(s, close);
      EscapedStep(false, '\\', ['\"'] + (Escape(s[2..]) + close));
    } else if s == ['\\'] {
      EscapeCons(s, close);
      assert ['\\'] + ([] + close) == ['\\', '\"'] + rest;
      EscapedStep(false, '\"', rest);
    } else {
      ShortScanStep(s, rest);
      ShortScan(s[1..], rest);
    }
  }

  lemma {:induction false} ShortScanStep(s: string, rest: string)
    requires s != [] && (s[0] == '\\' ==> |s| > 1 && s[1] != '\\' && s[1] != '\"')
    ensures var close := "\"" + rest;
      L.ScanString('\"', false, Escape(s) + close) ==
        if s[0] != '\"' && |s| > 1 && LineBreak(s[1]) then L.Quoted(false, 1)
        else Ahead(L.ScanString('\"', false, Escape(s[1..]) + close), |Escape(s)| - |Escape(s[1..])|)
  {
    var close := "\"" + rest;
    var tail := Escape(s[1..]) + close;
    EscapeCons(s, close);
    EscapeHead(s[1..]);
    assert tail[0] == if |s| == 1 then '\"' else Escape(s[1..])[0];
    if s[0] == '\"' {
      EscapedStep(false, '\"', tail);
    } else {
      PlainStep(s[0], tail);
    }
  }

  lemma {:induction false} LongScan(s: string, rest: string)
    ensures Exact(L.ScanString('\"', true, Escape(s) + ("\"\"\"" + rest)), |Escape(s)| + 3) <==> LongScans(s)
    decreases |s|
  {
    var close := "\"\"\"" + rest;
    if s == [] {
      LongClose(rest);
    } else if s[0] == '\\' && |s| > 1 && s[1] == '\\' {
      EscapePair(s, close);
      LongScan(s[2..], rest);
      EscapedStep(true, '\\', Escape(s[2..]) + close);
    } else if s[0] == '\\' && |s| > 1 && s[1] == '\"' {
      LongSlashQuote(s, rest);
      LongScan(s[2..], rest);
    } else if s == ['\\'] {
      LongEndSlash(rest);
    } else {
      LongScanStep(s, rest);
      LongScan(s[1..], rest);
    }
  }

  lemma {:induction false} LongClose(rest: string)
    ensures Exact(L.ScanString('\"', true, Escape([]) + ("\"\"\"" + rest)), 3)
  {
    var close := "\"\"\"" + rest;
    assert Escape([]) + close == close;
    assert close[1..][0] == '\"' && close[1..][1] == '\"';
  }

  lemma {:induction false} LongEndSlash(rest: string)
    ensures |Escape(['\\'])| == 1
    ensures !Exact(L.ScanString('\"', true, Escape(['\\']) + ("\"\"\"" + rest)), 4)
  {
    var s, close := ['\\'], "\"\"\"" + rest;
    EscapeCons(s, close);
    assert s[1..] == [] && ['\\'] + ([] + close) == ['\\', '\"'] + ("\"\"" + rest);
    EscapedStep(true, '\"', "\"\"" + rest);
  }

  lemma {:induction false} LongScanStep(s: string, rest: string)
    requires s != [] && (s[0] == '\\' ==> |s| > 1 && s[1] != '\\' && s[1] != '\"')
    ensures var close := "\"\"\"" + rest;
      L.ScanString('\"', true, Escape(s) + close)
      == Ahead(L.ScanString('\"', true, Escape(s[1..]) + close), |Escape(s)| - |Escape(s[1..])|)
  {
    var close := "\"\"\"" + rest;
    var tail := Escape(s[1..]) + close;
    EscapeCons(s, close);
    EscapeHead(s[1..]);
    assert tail[0] == if |s| == 1 then '\"' else Escape(s[1..])[0];
    if s[0] == '\"' {
      EscapedStep(true, '\"', tail);
    } else {
      PlainLongStep(s[0], tail);
    }
  }

  /** A backslash and a quote leave the quote alone: harmless, except that at the end it closes too early. */
  lemma {:induction false} LongSlashQuote(s: string, rest: string)
    requires |s| > 1 && s[0] == '\\' && s[1] == '\"'
    ensures var close := "\"\"\"" + rest;
      var r := L.ScanString('\"', true, Escape(s) + close);
      && (|s| == 2 ==> !Exact(r, |Escape(s)| + 3))
      && |Escape(s)| == 3 + |Escape(s[2..])|
      && (|s| > 2 ==> r == Ahead(L.ScanString('\"', true, Escape(s[2..]) + close), 3))
  {
    var close := "\"\"\"" + rest;
    var tail := Escape(s[2..]) + close;
    EscapeSlashQuote(s, close);
    EscapedStep(true, '\\', ['\"'] + tail);
    EscapeHead(s[2..]);
    if |s| > 2 {
      assert tail[0] == Escape(s[2..])[0];
      LoneQuoteStep(tail);
    } else {
      assert tail == close;
      assert (['\"'] + close)[1..] == close && close[0] == '\"' && close[1] == '\"';
    }
  }

  // Whole literals.

  predicate NoQuote(rest: string) { rest != [] ==> rest[0] != '\"' }

  lemma {:induction false} QuoteFirst(cc: L.Classes, tail: string)
    ensures L.FirstToken(cc, ['\"'] + tail) == L.StringToken('\"', tail, 1)
  {
    FirstOf(cc, '\"', tail);
    assert !L.IsWhitespace('\"') && L.IsQuote('\"');
  }

  lemma {:induction false} LongBody(body: string, n: nat)
    ensures L.StringToken('\"', "\"\"" + body, 1) == L.Token(L.Literal(L.StrLit(true, true), 3 + n), 3 + n)
       <==> Exact(L.ScanString('\"', true, body), n)
  {
    assert ("\"\"" + body)[2..] == body;
  }

  /** A long literal is one closed, triple-quoted token covering it if and only if no odd run of backslashes
      stands at its end or before a quote at its end. */
  lemma {:induction false} LongLiteral(cc: L.Classes, s: string, rest: string)
    ensures LongOk(s) <==>
      L.FirstToken(cc, StringText(s, true) + rest) == L.Token(StringLexeme(s, true).kind, |StringText(s, true)|)
  {
    var body := Escape(s) + ("\"\"\"" + rest);
    var tail := "\"\"" + body;
    var q := "\"\"\"";
    Concat(q + Escape(s), q, rest);
    Concat(q, Escape(s), q + rest);
    assert q == ['\"'] + "\"\"";
    Concat(['\"'], "\"\"", body);
    QuoteFirst(cc, tail);
    LongScan(s, rest);
    LongIff(s);
    LongBody(body, |Escape(s)| + 3);
  }

  /** A short literal is one closed token covering it if and only if an even number of backslashes stands before
      every quote and at the end, and every line break follows a quote or a pair of backslashes or comes first. */
  lemma {:induction false} ShortLiteral(cc: L.Classes, s: string, rest: string)
    requires NoQuote(rest)
    ensures ShortOk(s) <==>
      L.FirstToken(cc, StringText(s, false) + rest) == L.Token(StringLexeme(s, false).kind, |StringText(s, false)|)
  {
    var tail := Escape(s) + ("\"" + rest);
    Concat("\"" + Escape(s), "\"", rest);
    Concat("\"", Escape(s), "\"" + rest);
    QuoteFirst(cc, tail);
    ShortScan(s, rest);
    ShortIff(s);
    EscapeHead(s);
    assert s == [] ==> tail == "\"" + rest;
    assert tail[0..] == tail;
  }

  /** A value of one backslash: printed, short or long, it escapes the closing quote. */
  lemma {:induction false} BackslashFails(cc: L.Classes, isLong: bool, rest: string)
    requires isLong || NoQuote(rest)
    ensures L.FirstToken(cc, StringText("\\", isLong) + rest) !=
      L.Token(StringLexeme("\\", isLong).kind, |StringText("\\", isLong)|)
  {
    if isLong {
      LongLiteral(cc, "\\", rest);
    } else {
      ShortLiteral(cc, "\\", rest);
    }
  }

  lemma {:induction false} StringRight(cc: L.Classes, s: string, isLong: bool)
    requires if isLong then LongOk(s) else ShortOk(s)
    ensures Lexes(cc, StringText(s, isLong), [StringLexeme(s, isLong)], Safe)
  {
    var kind := StringLexeme(s, isLong).kind;
    forall rest | Safe(rest)
      ensures L.FirstToken(cc, StringText(s, isLong) + rest) == L.Token(kind, |StringText(s, isLong)|)
    {
      if isLong {
        LongLiteral(cc, s, rest);
      } else {
        ShortLiteral(cc, s, rest);
      }
    }
    PunctRight(cc, StringText(s, isLong), kind, Safe);
  }
}
