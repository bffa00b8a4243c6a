/** Printed expressions lex back to the tokens they are made of. */
module LexerRoundTrip {
  import opened Values
  import opened Printer
  import L = LexerSpec
  import opened LexerTokens
  import opened LexerStrings
  import Lexer

  // The token sequence of an expression, from its syntax alone.

  function Toks(e: Expr): seq<Lexeme>
    decreases e
  {
    match e
    case Identifier(names) => NamesTokens(names)
    case NumberLit(v, suffix) => [NumberToken(v, suffix)]
    case StringLit(s, isLong) => [StringLexeme(s, isLong)]
    case Unary(op, operand) => [UnaryToken(op)] + Toks(operand)
    case Binary(l, op, r) => Toks(l) + [BinToken(op)] + Toks(r)
    case Compare(first, links) => Toks(first) + LinksToks(links)
    case IfExpr(body, cond, orelse) => Toks(body) + [Word("if")] + Toks(cond) + [Word("else")] + Toks(orelse)
    case Paren(inner) => [LEFT_PAREN] + Toks(inner) + [RIGHT_PAREN]
    case Call(func, a) => Toks(func) + [LEFT_PAREN] + ArgumentsToks(a) + [RIGHT_PAREN]
    case Subscript(base, hasQuestion, sub) =>
      Toks(base) + (if hasQuestion then [QUESTION] else []) + [LEFT_BRACKET] + IndexToks(sub) + [RIGHT_BRACKET]
  }

  function LinksToks(links: seq<Link>): seq<Lexeme>
    decreases links
  {
    if links == [] then [] else LinkToks(links[0]) + LinksToks(links[1..])
  }

  function LinkToks(link: Link): seq<Lexeme>
    decreases link
  {
    CmpTokens(link.op) + Toks(link.operand)
  }

  function ArgumentsToks(a: Arguments): seq<Lexeme>
    decreases a
  {
    ArgsToks(a.args) + (if a.args != [] && a.keywords != [] then [COMMA] else []) + KeywordsToks(a.keywords)
  }

  function ArgsToks(args: seq<Expr>): seq<Lexeme>
    decreases args
  {
    if args == [] then [] else Toks(args[0]) + ArgsTailToks(args[1..])
  }

  function ArgsTailToks(args: seq<Expr>): seq<Lexeme>
    decreases args
  {
    if args == [] then [] else [COMMA] + Toks(args[0]) + ArgsTailToks(args[1..])
  }

  function KeywordToks(kw: Keyword): seq<Lexeme>
    decreases kw
  {
    NamesTokens(kw.arg) + (if kw.value.Some? then [ASSIGN] + Toks(kw.value.value) else [])
  }

  function KeywordsToks(kws: seq<Keyword>): seq<Lexeme>
    decreases kws
  {
    if kws == [] then [] else KeywordToks(kws[0]) + KeywordsTailToks(kws[1..])
  }

  function KeywordsTailToks(kws: seq<Keyword>): seq<Lexeme>
    decreases kws
  {
    if kws == [] then [] else [COMMA] + KeywordToks(kws[0]) + KeywordsTailToks(kws[1..])
  }

  function OptionToks(e: Option<Expr>): seq<Lexeme>
    decreases e
  {
    if e.Some? then Toks(e.value) else []
  }

  function IndexToks(i: Index): seq<Lexeme>
    decreases i
  {
    match i
    case At(index) => Toks(index)
    case Slice(lower, upper, step) =>
      OptionToks(lower) + [COLON] + OptionToks(upper) + [COLON] + OptionToks(step)
  }

  // Well-formed expressions.

  predicate Valid(e: Expr)
    decreases e
  {
    match e
    case Identifier(names) => AreNames(names)
    case NumberLit(_, _) => true
    case StringLit(s, isLong) => if isLong then LongOk(s) else ShortOk(s)
    case Unary(_, operand) => Valid(operand)
    case Binary(l, _, r) => Valid(l) && Valid(r)
    case Compare(first, links) => Valid(first) && forall i :: 0 <= i < |links| ==> ValidLink(links[i])
    case IfExpr(body, cond, orelse) => Valid(body) && Valid(cond) && Valid(orelse)
    case Paren(inner) => Valid(inner)
    case Call(func, a) => Valid(func) && ValidArguments(a)
    case Subscript(base, _, sub) => Valid(base) && ValidIndex(sub)
  }

  predicate ValidLink(link: Link) decreases link { Valid(link.operand) }

  predicate ValidArguments(a: Arguments)
    decreases a
  {
    && (forall i :: 0 <= i < |a.args| ==> Valid(a.args[i]))
    && (forall i :: 0 <= i < |a.keywords| ==> ValidKeyword(a.keywords[i]))
  }

  predicate ValidKeyword(kw: Keyword)
    decreases kw
  {
    AreNames(kw.arg) && ValidOption(kw.value)
  }

  predicate ValidOption(e: Option<Expr>) decreases e { e.Some? ==> Valid(e.value) }

  predicate ValidIndex(i: Index)
    decreases i
  {
    match i
    case At(index) => Valid(index)
    case Slice(lower, upper, step) => ValidOption(lower) && ValidOption(upper) && ValidOption(step)
  }

  // Expressions.

  /** A printed expression is not empty and never turns a sign before it into another token. */
  predicate Opens(t: string) { t != [] && t[0] != '=' }

  lemma {:induction false} TextOpens(e: Expr)
    requires Valid(e)
    ensures Opens(Text(e))
    decreases e
  {
    match e
    case Identifier(names) => assert JoinNames(names)[0] == names[0][0];
    case NumberLit(v, _) => DecimalDigits(v); assert L.IsDigit(DecimalText(v)[0]);
    case StringLit(_, _) =>
    case Unary(_, _) =>
    case Binary(l, _, _) => TextOpens(l);
    case Compare(first, _) => TextOpens(first);
    case IfExpr(body, _, _) => TextOpens(body);
    case Paren(_) =>
    case Call(func, _) => TextOpens(func);
    case Subscript(base, _, _) => TextOpens(base);
  }

  /** A separator that lexes before anything, with what it separates. */
  lemma {:induction false} Between(
    cc: L.Classes, t: string, ts: seq<Lexeme>, sep: string, seps: seq<Lexeme>, u: string, us: seq<Lexeme>,
    g: string -> bool)
    requires Lexes(cc, t, ts, Safe) && Lexes(cc, sep, seps, Anything) && Lexes(cc, u, us, g)
    requires sep != [] && Safe(sep)
    ensures Lexes(cc, t + sep + u, ts + seps + us, g)
  {
    Join(cc, t, ts, Safe, sep, seps, Anything);
    Join(cc, t + sep, ts + seps, Anything, u, us, g);
  }

  lemma {:induction false} Nothing(cc: L.Classes, f: string -> bool)
    ensures Lexes(cc, [], [], f)
  {
    forall rest | f(rest) ensures Lexemes(cc, [] + rest) == [] + Lexemes(cc, rest) {
      assert [] + rest == rest;
    }
  }

  ghost predicate Prints(cc: L.Classes, t: string, ts: seq<Lexeme>) {
    Lexes(cc, t, ts, Safe)
  }

  lemma {:induction false} NotRight(cc: L.Classes, t: string, ts: seq<Lexeme>)
    requires Prints(cc, t, ts)
    ensures Prints(cc, "not" + " " + t, [Word("not")] + ts)
  {
    WordRight(cc, "not");
    SpaceRight(cc);
    Join(cc, "not", [Word("not")], Blank, " ", [], Anything);
    assert [Word("not")] + [] == [Word("not")];
    Join(cc, "not" + " ", [Word("not")], Anything, t, ts, Safe);
  }

  lemma {:induction false} UnaryRight(cc: L.Classes, op: UnaryOp, t: string, ts: seq<Lexeme>)
    requires Prints(cc, t, ts) && Opens(t)
    ensures Prints(cc, UnarySymbol(op) + (if op.Not? then " " else "") + t, [UnaryToken(op)] + ts)
  {
    if op.Not? {
      NotRight(cc, t, ts);
    } else {
      var sign := UnarySymbol(op);
      SignRight(cc, sign[0], UnaryToken(op).kind, NoEq);
      assert [sign[0]] == sign && sign + "" == sign;
      Join(cc, sign, [UnaryToken(op)], NoEq, t, ts, Safe);
    }
  }

  lemma {:induction false} WordBetween(cc: L.Classes, w: string)
    requires IsName(w)
    ensures Lexes(cc, " " + w + " ", [Word(w)], Anything)
  {
    WordRight(cc, w);
    Spaced(cc, w, [Word(w)]);
  }

  lemma {:induction false} IfRight(
    cc: L.Classes, b: string, bs: seq<Lexeme>, c: string, cs: seq<Lexeme>, o: string, os: seq<Lexeme>)
    requires Prints(cc, b, bs) && Prints(cc, c, cs) && Prints(cc, o, os)
    ensures Prints(cc, b + " if " + c + " else " + o, bs + [Word("if")] + cs + [Word("else")] + os)
  {
    WordBetween(cc, "if");
    assert " " + "if" + " " == " if ";
    WordBetween(cc, "else");
    assert " " + "else" + " " == " else ";
    Between(cc, b, bs, " if ", [Word("if")], c, cs, Safe);
    Between(cc, b + " if " + c, bs + [Word("if")] + cs, " else ", [Word("else")], o, os, Safe);
  }

  lemma {:induction false} DelimiterRight(cc: L.Classes, c: char, kind: L.TokenKind)
    requires (c == '(' && kind == L.OpenParen) || (c == ')' && kind == L.CloseParen)
          || (c == '[' && kind == L.OpenBracket) || (c == ']' && kind == L.CloseBracket)
          || (c == ',' && kind == L.Comma) || (c == ':' && kind == L.Colon) || (c == '?' && kind == L.Question)
    ensures Lexes(cc, [c], [Lexeme(kind, [c])], Anything)
  {
    SignRight(cc, c, kind, Anything);
  }

  lemma {:induction false} Enclosed(
    cc: L.Classes, t: string, ts: seq<Lexeme>, o: string, os: seq<Lexeme>, u: string, us: seq<Lexeme>, c: string,
    cs: seq<Lexeme>)
    requires Prints(cc, t, ts) && Prints(cc, u, us)
    requires Lexes(cc, o, os, Anything) && Lexes(cc, c, cs, Anything)
    requires o != [] && c != [] && Safe(o) && Safe(c)
    ensures Prints(cc, t + o + u + c, ts + os + us + cs)
  {
    Between(cc, t, ts, o, os, u, us, Safe);
    Join(cc, t + o + u, ts + os + us, Safe, c, cs, Anything);
  }

  /** A text in parentheses, after nothing or an expression. */
  lemma {:induction false} InParens(cc: L.Classes, t: string, ts: seq<Lexeme>, u: string, us: seq<Lexeme>)
    requires Prints(cc, t, ts) && Prints(cc, u, us)
    ensures Prints(cc, t + "(" + u + ")", ts + [LEFT_PAREN] + us + [RIGHT_PAREN])
  {
    DelimiterRight(cc, '(', L.OpenParen);
    DelimiterRight(cc, ')', L.CloseParen);
    Enclosed(cc, t, ts, "(", [LEFT_PAREN], u, us, ")", [RIGHT_PAREN]);
  }

  lemma {:induction false} InBrackets(cc: L.Classes, t: string, ts: seq<Lexeme>, u: string, us: seq<Lexeme>)
    requires Prints(cc, t, ts) && Prints(cc, u, us)
    ensures Prints(cc, t + "[" + u + "]", ts + [LEFT_BRACKET] + us + [RIGHT_BRACKET])
  {
    DelimiterRight(cc, '[', L.OpenBracket);
    DelimiterRight(cc, ']', L.CloseBracket);
    Enclosed(cc, t, ts, "[", [LEFT_BRACKET], u, us, "]", [RIGHT_BRACKET]);
  }

  lemma {:induction false} QuestionAfter(cc: L.Classes, t: string, ts: seq<Lexeme>)
    requires Prints(cc, t, ts)
    ensures Prints(cc, t + "?", ts + [QUESTION])
  {
    DelimiterRight(cc, '?', L.Question);
    Behind(cc, t, ts, "?", [QUESTION]);
  }

  /** A sign that lexes before anything, behind an expression. */
  lemma {:induction false} Behind(cc: L.Classes, t: string, ts: seq<Lexeme>, sign: string, signs: seq<Lexeme>)
    requires Prints(cc, t, ts) && Lexes(cc, sign, signs, Anything) && sign != [] && Safe(sign)
    ensures Prints(cc, t + sign, ts + signs)
  {
    Join(cc, t, ts, Safe, sign, signs, Anything);
  }

  lemma {:induction false} QuestionRight(cc: L.Classes, t: string, ts: seq<Lexeme>, q: bool)
    requires Prints(cc, t, ts)
    ensures Prints(cc, t + (if q then "?" else ""), ts + if q then [QUESTION] else [])
  {
    if q {
      QuestionAfter(cc, t, ts);
    } else {
      assert t + "" == t && ts + [] == ts;
    }
  }

  lemma {:induction false} CommaRight(cc: L.Classes)
    ensures Lexes(cc, ", ", [COMMA], Anything)
  {
    DelimiterRight(cc, ',', L.Comma);
    SpaceRight(cc);
    Join(cc, ",", [COMMA], Anything, " ", [], Anything);
    assert "," + " " == ", " && [COMMA] + [] == [COMMA];
  }

  /** A further item of a list. */
  lemma {:induction false} ItemRight(cc: L.Classes, t: string, ts: seq<Lexeme>, u: string, us: seq<Lexeme>)
    requires Prints(cc, t, ts) && Prints(cc, u, us) && (u != [] ==> Safe(u))
    ensures Prints(cc, ", " + t + u, [COMMA] + ts + us)
  {
    CommaRight(cc);
    Join(cc, ", ", [COMMA], Anything, t, ts, Safe);
    Join(cc, ", " + t, [COMMA] + ts, Safe, u, us, Safe);
  }

  lemma {:induction false} KeywordPair(cc: L.Classes, t: string, ts: seq<Lexeme>, u: string, us: seq<Lexeme>)
    requires Lexes(cc, t, ts, EndsName) && Prints(cc, u, us) && Opens(u)
    ensures Prints(cc, t + ("=" + u), ts + ([ASSIGN] + us))
  {
    SignRight(cc, '=', L.Eq, NoEq);
    Join(cc, "=", [ASSIGN], NoEq, u, us, Safe);
    Join(cc, t, ts, EndsName, "=" + u, [ASSIGN] + us, Safe);
  }

  lemma {:induction false} SliceRight(
    cc: L.Classes, a: string, xs: seq<Lexeme>, b: string, ys: seq<Lexeme>, c: string, zs: seq<Lexeme>)
    requires Prints(cc, a, xs) && Prints(cc, b, ys) && Prints(cc, c, zs)
    ensures Prints(cc, a + ":" + b + ":" + c, xs + [COLON] + ys + [COLON] + zs)
  {
    DelimiterRight(cc, ':', L.Colon);
    Between(cc, a, xs, ":", [COLON], b, ys, Safe);
    Between(cc, a + ":" + b, xs + [COLON] + ys, ":", [COLON], c, zs, Safe);
  }

  lemma {:induction false} ArgumentsJoin(
    cc: L.Classes, t: string, ts: seq<Lexeme>, u: string, us: seq<Lexeme>, both: bool)
    requires Prints(cc, t, ts) && Prints(cc, u, us) && (!both ==> (t == [] && ts == []) || (u == [] && us == []))
    ensures Prints(cc, t + (if both then ", " else "") + u, ts + (if both then [COMMA] else []) + us)
  {
    if both {
      CommaRight(cc);
      Between(cc, t, ts, ", ", [COMMA], u, us, Safe);
    } else {
      if u == [] && us == [] {
        assert t + "" + u == t && ts + [] + us == ts;
      } else {
        assert t + "" + u == u && ts + [] + us == us;
      }
    }
  }

  /** A chain of comparisons: its text, if any, starts with a space. */
  lemma {:induction false} LinksRight(cc: L.Classes, links: seq<Link>)
    requires forall i :: 0 <= i < |links| ==> ValidLink(links[i])
    ensures Prints(cc, LinksText(links), LinksToks(links))
    ensures links != [] ==> LinksText(links) != [] && LinksText(links)[0] == ' '
    decreases links
  {
    if links == [] {
      Nothing(cc, Safe);
    } else {
      LinkRight(cc, links[0]);
      LinksRight(cc, links[1..]);
      Join(cc, LinkText(links[0]), LinkToks(links[0]), Safe, LinksText(links[1..]), LinksToks(links[1..]), Safe);
    }
  }

  lemma {:induction false} LinkRight(cc: L.Classes, link: Link)
    requires ValidLink(link)
    ensures Prints(cc, LinkText(link), LinkToks(link))
    decreases link
  {
    ExprRight(cc, link.operand);
    CmpRight(cc, link.op);
    Join(cc, " " + CmpSymbol(link.op) + " ", CmpTokens(link.op), Anything,
         Text(link.operand), Toks(link.operand), Safe);
  }

  lemma {:induction false} ArgsRight(cc: L.Classes, args: seq<Expr>)
    requires forall i :: 0 <= i < |args| ==> Valid(args[i])
    ensures Prints(cc, ArgsText(args), ArgsToks(args))
    decreases args, 1
  {
    if args == [] {
      Nothing(cc, Safe);
    } else {
      ExprRight(cc, args[0]);
      ArgsTailRight(cc, args[1..]);
      Join(cc, Text(args[0]), Toks(args[0]), Safe, ArgsTail(args[1..]), ArgsTailToks(args[1..]), Safe);
    }
  }

  lemma {:induction false} ArgsTailRight(cc: L.Classes, args: seq<Expr>)
    requires forall i :: 0 <= i < |args| ==> Valid(args[i])
    ensures Prints(cc, ArgsTail(args), ArgsTailToks(args))
    ensures ArgsTail(args) != [] ==> ArgsTail(args)[0] == ','
    decreases args, 0
  {
    if args == [] {
      Nothing(cc, Safe);
    } else {
      ExprRight(cc, args[0]);
      ArgsTailRight(cc, args[1..]);
      ItemRight(cc, Text(args[0]), Toks(args[0]), ArgsTail(args[1..]), ArgsTailToks(args[1..]));
    }
  }

  lemma {:induction false} KeywordRight(cc: L.Classes, kw: Keyword)
    requires ValidKeyword(kw)
    ensures Prints(cc, KeywordText(kw), KeywordToks(kw))
    decreases kw
  {
    NamesRight(cc, kw.arg);
    if kw.value.Some? {
      ExprRight(cc, kw.value.value);
      TextOpens(kw.value.value);
      KeywordPair(cc, JoinNames(kw.arg), NamesTokens(kw.arg), Text(kw.value.value), Toks(kw.value.value));
    } else {
      assert JoinNames(kw.arg) + "" == JoinNames(kw.arg) && NamesTokens(kw.arg) + [] == NamesTokens(kw.arg);
    }
  }

  lemma {:induction false} KeywordsRight(cc: L.Classes, kws: seq<Keyword>)
    requires forall i :: 0 <= i < |kws| ==> ValidKeyword(kws[i])
    ensures Prints(cc, KeywordsText(kws), KeywordsToks(kws))
    decreases kws, 1
  {
    if kws == [] {
      Nothing(cc, Safe);
    } else {
      KeywordRight(cc, kws[0]);
      KeywordsTailRight(cc, kws[1..]);
      Join(cc, KeywordText(kws[0]), KeywordToks(kws[0]), Safe,
           KeywordsTail(kws[1..]), KeywordsTailToks(kws[1..]), Safe);
    }
  }

  lemma {:induction false} KeywordsTailRight(cc: L.Classes, kws: seq<Keyword>)
    requires forall i :: 0 <= i < |kws| ==> ValidKeyword(kws[i])
    ensures Prints(cc, KeywordsTail(kws), KeywordsTailToks(kws))
    ensures KeywordsTail(kws) != [] ==> KeywordsTail(kws)[0] == ','
    decreases kws, 0
  {
    if kws == [] {
      Nothing(cc, Safe);
    } else {
      KeywordRight(cc, kws[0]);
      KeywordsTailRight(cc, kws[1..]);
      ItemRight(cc, KeywordText(kws[0]), KeywordToks(kws[0]), KeywordsTail(kws[1..]), KeywordsTailToks(kws[1..]));
    }
  }

  lemma {:induction false} ArgumentsRight(cc: L.Classes, a: Arguments)
    requires ValidArguments(a)
    ensures Prints(cc, ArgumentsText(a), ArgumentsToks(a))
    decreases a
  {
    ArgsRight(cc, a.args);
    KeywordsRight(cc, a.keywords);
    ArgumentsJoin(cc, ArgsText(a.args), ArgsToks(a.args), KeywordsText(a.keywords), KeywordsToks(a.keywords),
                  a.args != [] && a.keywords != []);
  }

  lemma {:induction false} OptionRight(cc: L.Classes, e: Option<Expr>)
    requires ValidOption(e)
    ensures Prints(cc, OptionText(e), OptionToks(e))
    decreases e
  {
    if e.Some? {
      ExprRight(cc, e.value);
    } else {
      Nothing(cc, Safe);
    }
  }

  lemma {:induction false} IndexRight(cc: L.Classes, i: Index)
    requires ValidIndex(i)
    ensures Prints(cc, IndexText(i), IndexToks(i))
    decreases i
  {
    match i
    case At(index) => ExprRight(cc, index);
    case Slice(lower, upper, step) =>
      OptionRight(cc, lower);
      OptionRight(cc, upper);
      OptionRight(cc, step);
      SliceRight(cc, OptionText(lower), OptionToks(lower), OptionText(upper), OptionToks(upper),
                 OptionText(step), OptionToks(step));
  }

  lemma {:induction false} ExprRight(cc: L.Classes, e: Expr)
    requires Valid(e)
    ensures Prints(cc, Text(e), Toks(e))
    decreases e
  {
    match e
    case Identifier(names) => NamesRight(cc, names);
    case NumberLit(v, suffix) => NumberRight(cc, v, suffix);
    case StringLit(s, isLong) => StringRight(cc, s, isLong);
    case Unary(op, operand) =>
      ExprRight(cc, operand);
      TextOpens(operand);
      UnaryRight(cc, op, Text(operand), Toks(operand));
    case Binary(l, op, r) =>
      ExprRight(cc, l);
      ExprRight(cc, r);
      BinaryRight(cc, Text(l), Toks(l), op, Text(r), Toks(r));
    case Compare(first, links) =>
      ExprRight(cc, first);
      LinksRight(cc, links);
      Join(cc, Text(first), Toks(first), Safe, LinksText(links), LinksToks(links), Safe);
    case IfExpr(body, cond, orelse) =>
      ExprRight(cc, body);
      ExprRight(cc, cond);
      ExprRight(cc, orelse);
      IfRight(cc, Text(body), Toks(body), Text(cond), Toks(cond), Text(orelse), Toks(orelse));
    case Paren(inner) =>
      ExprRight(cc, inner);
      Nothing(cc, Safe);
      InParens(cc, [], [], Text(inner), Toks(inner));
      assert [] + "(" == "(" && [] + [LEFT_PAREN] == [LEFT_PAREN];
    case Call(func, a) =>
      ExprRight(cc, func);
      ArgumentsRight(cc, a);
      InParens(cc, Text(func), Toks(func), ArgumentsText(a), ArgumentsToks(a));
    case Subscript(base, hasQuestion, sub) =>
      ExprRight(cc, base);
      IndexRight(cc, sub);
      QuestionRight(cc, Text(base), Toks(base), hasQuestion);
      InBrackets(cc, Text(base) + (if hasQuestion then "?" else ""),
                 Toks(base) + (if hasQuestion then [QUESTION] else []), IndexText(sub), IndexToks(sub));
  }

  lemma {:induction false} BinaryRight(cc: L.Classes, t: string, ts: seq<Lexeme>, op: BinOp, u: string, us: seq<Lexeme>)
    requires Prints(cc, t, ts) && Prints(cc, u, us)
    ensures Prints(cc, t + " " + BinSymbol(op) + " " + u, ts + [BinToken(op)] + us)
  {
    BinRight(cc, op);
    var sep := " " + BinSymbol(op) + " ";
    Between(cc, t, ts, sep, [BinToken(op)], u, us, Safe);
    Concat(t + " ", BinSymbol(op), " ");
    Concat(t, " ", BinSymbol(op) + " ");
    Concat(" ", BinSymbol(op), " ");
  }

  /** Printing and lexing agree: the printed form of every well-formed expression, before any
      acceptable text, lexes to exactly the tokens of the expression. */
  lemma {:induction false} PrintedLexesBack(cc: L.Classes, e: Expr, rest: string)
    requires Valid(e) && Safe(rest)
    ensures Lexemes(cc, Text(e) + rest) == Toks(e) + Lexemes(cc, rest)
    ensures Lexemes(cc, Text(e)) == Toks(e)
  {
    ExprRight(cc, e);
    assert Lexemes(cc, Text(e) + []) == Toks(e) + Lexemes(cc, []);
    assert Text(e) + [] == Text(e);
  }

  /** A token list laid over its text, spaces dropped. */
  function Laid(ts: seq<L.Token>, s: string): seq<Lexeme>
    requires L.TotalLength(ts) == |s|
  {
    if ts == [] then [] else
    (if ts[0].kind.Space? then [] else [Lexeme(ts[0].kind, s[..ts[0].len])]) + Laid(ts[1..], s[ts[0].len..])
  }

  lemma {:induction false} LexemesAreTokens(cc: L.Classes, s: string)
    ensures L.TotalLength(L.Tokens(cc, s)) == |s|
    ensures Laid(L.Tokens(cc, s), s) == Lexemes(cc, s)
    decreases |s|
  {
    L.TokensTile(cc, s);
    if s != [] {
      var t := L.FirstToken(cc, s);
      LexemesAreTokens(cc, s[t.len..]);
      assert L.Tokens(cc, s)[1..] == L.Tokens(cc, s[t.len..]);
    }
  }

  /** The printer and the lexer run one after the other. */
  method PrintThenTokenize(cc: L.Classes, e: Expr) returns (text: string, tokens: seq<L.Token>)
    requires Valid(e)
    ensures L.TotalLength(tokens) == |text|
    ensures Laid(tokens, text) == Toks(e)
  {
    var printer := new Printer();
    printer.WalkExpr(e);
    text := printer.out;
    assert text == Text(e);
    tokens := Lexer.Tokenize(cc, text);
    LexemesAreTokens(cc, text);
    PrintedLexesBack(cc, e, []);
  }
}
