/** What printed literals stand for: numbers read back as their values and units, strings as their characters. */
module LexerReading {
  import opened Values
  import opened Printer
  import L = LexerSpec
  import opened LexerTokens
  import opened LexerRoundTrip

  // ---- numbers ----

  function DigitValue(c: char): nat {
    if '0' <= c <= '9' then (c - '0') as nat else 0
  }

  /** The number that decimal digits stand for. */
  function Decimal(s: string): nat {
    if s == [] then 0 else 10 * Decimal(s[..|s| - 1]) + DigitValue(s[|s| - 1])
  }

  /** The printed digits of a number stand for it. */
  lemma {:induction false} DigitsReadBack(v: nat)
    ensures Decimal(DecimalText(v)) == v
  {
    var s := DecimalText(v);
    assert DigitValue(DigitChar(v % 10)) == v % 10;
    if v < 10 {
      assert s == [DigitChar(v)] && s[..0] == [];
      assert Decimal([]) == 0;
    } else {
      DigitsReadBack(v / 10);
      assert s[..|s| - 1] == DecimalText(v / 10);
    }
  }

  /** The unit that the parser takes a suffix for. */
  function UnitOf(text: string): Option<Suffix> {
    if text == "n" then Some(n) else if text == "u" then Some(u) else if text == "m" then Some(m)
    else if text == "k" then Some(k) else if text == "K" then Some(K) else if text == "M" then Some(M)
    else if text == "G" then Some(G) else if text == "T" then Some(T) else if text == "P" then Some(P)
    else if text == "Ki" then Some(Ki) else if text == "Mi" then Some(Mi) else if text == "Gi" then Some(Gi)
    else if text == "Ti" then Some(Ti) else if text == "Pi" then Some(Pi) else Option.None
  }

  lemma {:induction false} UnitReadsBack(suffix: Suffix)
    ensures UnitOf(SuffixName(suffix)) == Some(suffix)
  {
    match suffix
    case n => case u => case m => case k => case K => case M => case G => case T => case P =>
    case Ki => assert "Ki"[1] == 'i' && "K" != "Ki";
    case Mi => assert "Mi"[1] == 'i' && "M" != "Mi";
    case Gi => assert "Gi"[1] == 'i' && "G" != "Gi";
    case Ti => assert "Ti"[1] == 'i' && "T" != "Ti";
    case Pi => assert "Pi"[1] == 'i' && "P" != "Pi";
  }

  // ---- strings ----

  /** The characters of a literal's body: a backslash before a quote is dropped. */
  function Unescaped(s: string): string {
    if s == [] then []
    else if |s| > 1 && s[0] == '\\' && s[1] == '\"' then ['\"'] + Unescaped(s[2..])
    else [s[0]] + Unescaped(s[1..])
  }

  lemma {:induction false} EscapedReadsBack(s: string)
    ensures Unescaped(Escape(s)) == s
    ensures s != [] && s[0] == '\"' ==> Escape(s)[0] == '\\'
  {
    if s != [] {
      EscapedReadsBack(s[1..]);
      var rest := Escape(s[1..]);
      if s[0] == '\"' {
        assert Escape(s) == ['\\', '\"'] + rest && Escape(s)[2..] == rest;
      } else {
        assert Escape(s) == [s[0]] + rest && Escape(s)[1..] == rest;
        NoQuoteFirst(s[1..]);
      }
    }
  }

  lemma {:induction false} NoQuoteFirst(s: string)
    ensures Escape(s) != [] ==> Escape(s)[0] != '\"'
  {
  }

  // ---- tokens ----

  /** What a token stands for: a number, a string, or itself. */
  datatype Reading =
    | NumberOf(value: nat, suffix: Option<Suffix>)
    | TextOf(text: string, isLong: bool)
    | Sign(token: Lexeme)

  function ReadNumber(l: Lexeme, n: nat): Reading {
    if n > |l.text| then Sign(l)
    else if n == |l.text| then NumberOf(Decimal(l.text), Option.None)
    else match UnitOf(l.text[n..])
      case None => Sign(l)
      case Some(unit) => NumberOf(Decimal(l.text[..n]), Some(unit))
  }

  function ReadString(l: Lexeme, isLong: bool): Reading {
    var q := if isLong then 3 else 1;
    if |l.text| < 2 * q then Sign(l) else TextOf(Unescaped(l.text[q..|l.text| - q]), isLong)
  }

  function Read(l: Lexeme): Reading {
    match l.kind
    case Literal(IntLit(Decimal, false), n) => ReadNumber(l, n)
    case Literal(StrLit(true, isLong), _) => ReadString(l, isLong)
    case _ => Sign(l)
  }

  function Readings(ls: seq<Lexeme>): (rs: seq<Reading>)
    ensures |rs| == |ls| && forall i :: 0 <= i < |ls| ==> rs[i] == Read(ls[i])
  {
    seq(|ls|, i requires 0 <= i < |ls| => Read(ls[i]))
  }

  lemma {:induction false} ReadingsAppend(a: seq<Lexeme>, b: seq<Lexeme>)
    ensures Readings(a + b) == Readings(a) + Readings(b)
  {
  }

  lemma {:induction false} NumberReads(v: nat, suffix: Option<Suffix>)
    ensures Read(NumberToken(v, suffix)) == NumberOf(v, suffix)
  {
    var digits, text := DecimalText(v), NumberToken(v, suffix).text;
    DigitsReadBack(v);
    if suffix.Some? {
      UnitReadsBack(suffix.value);
      assert text[..|digits|] == digits && text[|digits|..] == SuffixName(suffix.value);
    } else {
      assert text == digits;
    }
  }

  lemma {:induction false} StringReads(s: string, isLong: bool)
    ensures Read(StringLexeme(s, isLong)) == TextOf(s, isLong)
  {
    var text, q := StringText(s, isLong), if isLong then 3 else 1;
    EscapedReadsBack(s);
    assert text[q..|text| - q] == Escape(s);
  }

  // ---- expressions ----

  function Signs(ls: seq<Lexeme>): (rs: seq<Reading>)
    ensures |rs| == |ls| && forall i :: 0 <= i < |ls| ==> rs[i] == Sign(ls[i])
  {
    seq(|ls|, i requires 0 <= i < |ls| => Sign(ls[i]))
  }

  /** What an expression says, from its syntax: its numbers, its strings and its signs, in order. */
  function Says(e: Expr): seq<Reading>
    decreases e
  {
    match e
    case Identifier(names) => Signs(NamesTokens(names))
    case NumberLit(v, suffix) => [NumberOf(v, suffix)]
    case StringLit(s, isLong) => [TextOf(s, isLong)]
    case Unary(op, operand) => Signs([UnaryToken(op)]) + Says(operand)
    case Binary(l, op, r) => Says(l) + Signs([BinToken(op)]) + Says(r)
    case Compare(first, links) => Says(first) + LinksSay(links)
    case IfExpr(body, cond, orelse) =>
      Says(body) + Signs([Word("if")]) + Says(cond) + Signs([Word("else")]) + Says(orelse)
    case Paren(inner) => Signs([LEFT_PAREN]) + Says(inner) + Signs([RIGHT_PAREN])
    case Call(func, a) => Says(func) + Signs([LEFT_PAREN]) + ArgumentsSay(a) + Signs([RIGHT_PAREN])
    case Subscript(base, hasQuestion, sub) =>
      Says(base) + Signs(if hasQuestion then [QUESTION] else []) + Signs([LEFT_BRACKET]) + IndexSays(sub)
      + Signs([RIGHT_BRACKET])
  }

  function LinksSay(links: seq<Link>): seq<Reading>
    decreases links
  {
    if links == [] then [] else LinkSays(links[0]) + LinksSay(links[1..])
  }

  function LinkSays(link: Link): seq<Reading>
    decreases link
  {
    Signs(CmpTokens(link.op)) + Says(link.operand)
  }

  function ArgumentsSay(a: Arguments): seq<Reading>
    decreases a
  {
    ArgsSay(a.args) + Signs(if a.args != [] && a.keywords != [] then [COMMA] else []) + KeywordsSay(a.keywords)
  }

  function ArgsSay(args: seq<Expr>): seq<Reading>
    decreases args
  {
    if args == [] then [] else Says(args[0]) + ArgsTailSay(args[1..])
  }

  function ArgsTailSay(args: seq<Expr>): seq<Reading>
    decreases args
  {
    if args == [] then [] else Signs([COMMA]) + Says(args[0]) + ArgsTailSay(args[1..])
  }

  function KeywordSays(kw: Keyword): seq<Reading>
    decreases kw
  {
    Signs(NamesTokens(kw.arg)) + (if kw.value.Some? then Signs([ASSIGN]) + Says(kw.value.value) else [])
  }

  function KeywordsSay(kws: seq<Keyword>): seq<Reading>
    decreases kws
  {
    if kws == [] then [] else KeywordSays(kws[0]) + KeywordsTailSay(kws[1..])
  }

  function KeywordsTailSay(kws: seq<Keyword>): seq<Reading>
    decreases kws
  {
    if kws == [] then [] else Signs([COMMA]) + KeywordSays(kws[0]) + KeywordsTailSay(kws[1..])
  }

  function OptionSays(e: Option<Expr>): seq<Reading>
    decreases e
  {
    if e.Some? then Says(e.value) else []
  }

  function IndexSays(i: Index): seq<Reading>
    decreases i
  {
    match i
    case At(index) => Says(index)
    case Slice(lower, upper, step) =>
      OptionSays(lower) + Signs([COLON]) + OptionSays(upper) + Signs([COLON]) + OptionSays(step)
  }

  // ---- the tokens of an expression say what it says ----

  /** No number and no string among the tokens. */
  predicate NoLiterals(ls: seq<Lexeme>) { forall i :: 0 <= i < |ls| ==> !ls[i].kind.Literal? }

  lemma {:induction false} SignsRead(ls: seq<Lexeme>)
    requires NoLiterals(ls)
    ensures Readings(ls) == Signs(ls)
  {
  }

  lemma {:induction false} NamesAreSigns(names: seq<string>)
    ensures NoLiterals(NamesTokens(names))
  {
    if |names| > 1 {
      NamesAreSigns(names[1..]);
    }
  }

  lemma {:induction false} Read2(a: seq<Lexeme>, x: seq<Reading>, b: seq<Lexeme>, y: seq<Reading>)
    requires Readings(a) == x && Readings(b) == y
    ensures Readings(a + b) == x + y
  {
    ReadingsAppend(a, b);
  }

  lemma {:induction false} Read3(
    a: seq<Lexeme>, x: seq<Reading>, b: seq<Lexeme>, c: seq<Lexeme>, z: seq<Reading>)
    requires Readings(a) == x && NoLiterals(b) && Readings(c) == z
    ensures Readings(a + b + c) == x + Signs(b) + z
  {
    SignsRead(b);
    Read2(a, x, b, Signs(b));
    Read2(a + b, x + Signs(b), c, z);
  }

  lemma {:induction false} TokensSay(e: Expr)
    ensures Readings(Toks(e)) == Says(e)
    decreases e
  {
    match e
    case Identifier(names) => NamesAreSigns(names); SignsRead(NamesTokens(names));
    case NumberLit(v, suffix) => NumberReads(v, suffix);
    case StringLit(s, isLong) => StringReads(s, isLong);
    case Unary(op, operand) =>
      TokensSay(operand);
      SignsRead([UnaryToken(op)]);
      Read2([UnaryToken(op)], Signs([UnaryToken(op)]), Toks(operand), Says(operand));
    case Binary(l, op, r) =>
      TokensSay(l);
      TokensSay(r);
      Read3(Toks(l), Says(l), [BinToken(op)], Toks(r), Says(r));
    case Compare(first, links) =>
      TokensSay(first);
      LinkTokensSay(links);
      Read2(Toks(first), Says(first), LinksToks(links), LinksSay(links));
    case IfExpr(body, cond, orelse) =>
      TokensSay(body);
      TokensSay(cond);
      TokensSay(orelse);
      Read3(Toks(body), Says(body), [Word("if")], Toks(cond), Says(cond));
      Read3(Toks(body) + [Word("if")] + Toks(cond), Says(body) + Signs([Word("if")]) + Says(cond), [Word("else")],
            Toks(orelse), Says(orelse));
    case Paren(inner) =>
      TokensSay(inner);
      SignsRead([LEFT_PAREN]);
      SignsRead([RIGHT_PAREN]);
      Read2([LEFT_PAREN], Signs([LEFT_PAREN]), Toks(inner), Says(inner));
      Read2([LEFT_PAREN] + Toks(inner), Signs([LEFT_PAREN]) + Says(inner), [RIGHT_PAREN], Signs([RIGHT_PAREN]));
    case Call(func, a) =>
      TokensSay(func);
      ArgumentTokensSay(a);
      Enclosing(Toks(func), Says(func), [LEFT_PAREN], ArgumentsToks(a), ArgumentsSay(a), [RIGHT_PAREN]);
    case Subscript(base, hasQuestion, sub) =>
      var q := if hasQuestion then [QUESTION] else [];
      TokensSay(base);
      IndexTokensSay(sub);
      SignsRead(q);
      Read2(Toks(base), Says(base), q, Signs(q));
      Enclosing(Toks(base) + q, Says(base) + Signs(q), [LEFT_BRACKET], IndexToks(sub), IndexSays(sub), [RIGHT_BRACKET]);
  }

  lemma {:induction false} Enclosing(
    a: seq<Lexeme>, x: seq<Reading>, open: seq<Lexeme>, b: seq<Lexeme>, y: seq<Reading>, close: seq<Lexeme>)
    requires Readings(a) == x && NoLiterals(open) && Readings(b) == y && NoLiterals(close)
    ensures Readings(a + open + b + close) == x + Signs(open) + y + Signs(close)
  {
    Read3(a, x, open, b, y);
    SignsRead(close);
    Read2(a + open + b, x + Signs(open) + y, close, Signs(close));
  }

  lemma {:induction false} CmpAreSigns(op: CmpOp)
    ensures NoLiterals(CmpTokens(op))
  {
  }

  lemma {:induction false} LinkSaysOne(link: Link)
    ensures Readings(LinkToks(link)) == LinkSays(link)
    decreases link
  {
    TokensSay(link.operand);
    CmpAreSigns(link.op);
    SignsRead(CmpTokens(link.op));
    Read2(CmpTokens(link.op), Signs(CmpTokens(link.op)), Toks(link.operand), Says(link.operand));
  }

  lemma {:induction false} LinkTokensSay(links: seq<Link>)
    ensures Readings(LinksToks(links)) == LinksSay(links)
    decreases links
  {
    if links != [] {
      LinkSaysOne(links[0]);
      LinkTokensSay(links[1..]);
      Read2(LinkToks(links[0]), LinkSays(links[0]), LinksToks(links[1..]), LinksSay(links[1..]));
    }
  }

  lemma {:induction false} ArgumentTokensSay(a: Arguments)
    ensures Readings(ArgumentsToks(a)) == ArgumentsSay(a)
    decreases a
  {
    ArgTokensSay(a.args);
    KeywordTokensSay(a.keywords);
    Read3(ArgsToks(a.args), ArgsSay(a.args), if a.args != [] && a.keywords != [] then [COMMA] else [],
          KeywordsToks(a.keywords), KeywordsSay(a.keywords));
  }

  lemma {:induction false} ArgTokensSay(args: seq<Expr>)
    ensures Readings(ArgsToks(args)) == ArgsSay(args)
    decreases args, 1
  {
    if args != [] {
      TokensSay(args[0]);
      ArgTailSays(args[1..]);
      Read2(Toks(args[0]), Says(args[0]), ArgsTailToks(args[1..]), ArgsTailSay(args[1..]));
    }
  }

  lemma {:induction false} AfterComma(b: seq<Lexeme>, y: seq<Reading>, c: seq<Lexeme>, z: seq<Reading>)
    requires Readings(b) == y && Readings(c) == z
    ensures Readings([COMMA] + b + c) == Signs([COMMA]) + y + z
  {
    SignsRead([COMMA]);
    Read2([COMMA], Signs([COMMA]), b, y);
    Read2([COMMA] + b, Signs([COMMA]) + y, c, z);
  }

  lemma {:induction false} ArgTailSays(args: seq<Expr>)
    ensures Readings(ArgsTailToks(args)) == ArgsTailSay(args)
    decreases args, 0
  {
    if args != [] {
      TokensSay(args[0]);
      ArgTailSays(args[1..]);
      AfterComma(Toks(args[0]), Says(args[0]), ArgsTailToks(args[1..]), ArgsTailSay(args[1..]));
    }
  }

  lemma {:induction false} KeywordSaysOne(kw: Keyword)
    ensures Readings(KeywordToks(kw)) == KeywordSays(kw)
    decreases kw
  {
    NamesAreSigns(kw.arg);
    SignsRead(NamesTokens(kw.arg));
    if kw.value.Some? {
      TokensSay(kw.value.value);
      SignsRead([ASSIGN]);
      Read2([ASSIGN], Signs([ASSIGN]), Toks(kw.value.value), Says(kw.value.value));
      Read2(NamesTokens(kw.arg), Signs(NamesTokens(kw.arg)), [ASSIGN] + Toks(kw.value.value),
            Signs([ASSIGN]) + Says(kw.value.value));
    } else {
      Read2(NamesTokens(kw.arg), Signs(NamesTokens(kw.arg)), [], []);
    }
  }

  lemma {:induction false} KeywordTokensSay(kws: seq<Keyword>)
    ensures Readings(KeywordsToks(kws)) == KeywordsSay(kws)
    decreases kws, 1
  {
    if kws != [] {
      KeywordSaysOne(kws[0]);
      KeywordTailSays(kws[1..]);
      Read2(KeywordToks(kws[0]), KeywordSays(kws[0]), KeywordsTailToks(kws[1..]), KeywordsTailSay(kws[1..]));
    }
  }

  lemma {:induction false} KeywordTailSays(kws: seq<Keyword>)
    ensures Readings(KeywordsTailToks(kws)) == KeywordsTailSay(kws)
    decreases kws, 0
  {
    if kws != [] {
      KeywordSaysOne(kws[0]);
      KeywordTailSays(kws[1..]);
      AfterComma(KeywordToks(kws[0]), KeywordSays(kws[0]), KeywordsTailToks(kws[1..]), KeywordsTailSay(kws[1..]));
    }
  }

  lemma {:induction false} OptionTokensSay(e: Option<Expr>)
    ensures Readings(OptionToks(e)) == OptionSays(e)
    decreases e
  {
    if e.Some? {
      TokensSay(e.value);
    }
  }

  lemma {:induction false} IndexTokensSay(i: Index)
    ensures Readings(IndexToks(i)) == IndexSays(i)
    decreases i
  {
    match i
    case At(index) => TokensSay(index);
    case Slice(lower, upper, step) =>
      OptionTokensSay(lower);
      OptionTokensSay(upper);
      OptionTokensSay(step);
      Read3(OptionToks(lower), OptionSays(lower), [COLON], OptionToks(upper), OptionSays(upper));
      Read3(OptionToks(lower) + [COLON] + OptionToks(upper), OptionSays(lower) + Signs([COLON]) + OptionSays(upper),
            [COLON], OptionToks(step), OptionSays(step));
  }

  /** The printed form of every well-formed expression reads back as its numbers, strings and signs, in order. */
  lemma {:induction false} PrintedReadsBack(cc: L.Classes, e: Expr)
    requires Valid(e)
    ensures Readings(Lexemes(cc, Text(e))) == Says(e)
  {
    PrintedLexesBack(cc, e, []);
    TokensSay(e);
  }

  /** The printer, the lexer and the reading of literals, one after the other. */
  method PrintThenRead(cc: L.Classes, e: Expr) returns (tokens: seq<L.Token>, text: string)
    requires Valid(e)
    ensures L.TotalLength(tokens) == |text| && Readings(Laid(tokens, text)) == Says(e)
  {
    text, tokens := PrintThenTokenize(cc, e);
    TokensSay(e);
  }
}
