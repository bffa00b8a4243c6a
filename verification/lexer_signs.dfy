/** Signs, comments, prefixes and the other quote: which token each text is, from its characters. */
module LexerSigns {
  import opened Values
  import L = LexerSpec
  import opened LexerTokens

  // ---- operators ----

  predicate CompareKinds(c: char, plain: L.TokenKind, eq: L.TokenKind) {
    match c
    case '=' => plain == L.Eq && eq == L.EqEq
    case '!' => plain == L.Bang && eq == L.BangEq
    case '<' => plain == L.Lt && eq == L.LtEq
    case '>' => plain == L.Gt && eq == L.GtEq
    case _ => false
  }

  predicate ArithmeticKinds(c: char, plain: L.TokenKind, eq: L.TokenKind) {
    match c
    case '-' => plain == L.Minus && eq == L.MinusEq
    case '+' => plain == L.Plus && eq == L.PlusEq
    case '*' => plain == L.Star && eq == L.StarEq
    case '/' => plain == L.Slash && eq == L.SlashEq
    case '%' => plain == L.Percent && eq == L.PercentEq
    case _ => false
  }

  predicate BitKinds(c: char, plain: L.TokenKind, eq: L.TokenKind) {
    match c
    case '&' => plain == L.And && eq == L.AndEq
    case '|' => plain == L.Or && eq == L.OrEq
    case '^' => plain == L.Caret && eq == L.CaretEq
    case _ => false
  }

  /** A sign, what it is alone, and what it is before `=`. */
  predicate SignKinds(c: char, plain: L.TokenKind, eq: L.TokenKind) {
    CompareKinds(c, plain, eq) || ArithmeticKinds(c, plain, eq) || BitKinds(c, plain, eq)
  }

  /** The same for the signs that can stand twice. */
  predicate DoubleKinds(c: char, plain: L.TokenKind, eq: L.TokenKind) {
    match c
    case '<' => plain == L.LtLt && eq == L.LtLtEq
    case '>' => plain == L.GtGt && eq == L.GtGtEq
    case '*' => plain == L.StarStar && eq == L.StarStarEq
    case '/' => plain == L.SlashSlash && eq == L.SlashSlashEq
    case _ => false
  }

  predicate Doubles(c: char) { c == '<' || c == '>' || c == '*' || c == '/' }

  lemma {:induction false} SignTable(c: char, plain: L.TokenKind, eq: L.TokenKind)
    requires SignKinds(c, plain, eq)
    ensures L.SingleSign(c) == Some(L.Sign(plain, eq))
  {
    if CompareKinds(c, plain, eq) {
      CompareTable(c, plain, eq);
    } else if ArithmeticKinds(c, plain, eq) {
      ArithmeticTable(c, plain, eq);
    } else {
      BitTable(c, plain, eq);
    }
  }

  lemma {:induction false} CompareTable(c: char, plain: L.TokenKind, eq: L.TokenKind)
    requires CompareKinds(c, plain, eq)
    ensures L.SingleSign(c) == Some(L.Sign(plain, eq))
  {
  }

  lemma {:induction false} ArithmeticTable(c: char, plain: L.TokenKind, eq: L.TokenKind)
    requires ArithmeticKinds(c, plain, eq)
    ensures L.SingleSign(c) == Some(L.Sign(plain, eq))
  {
  }

  lemma {:induction false} BitTable(c: char, plain: L.TokenKind, eq: L.TokenKind)
    requires BitKinds(c, plain, eq)
    ensures L.SingleSign(c) == Some(L.Sign(plain, eq))
  {
  }

  lemma {:induction false} CanDouble(c: char)
    ensures L.DoubleSign(c).Some? <==> Doubles(c)
  {
  }

  lemma {:induction false} DoubleTable(c: char, plain: L.TokenKind, eq: L.TokenKind)
    requires DoubleKinds(c, plain, eq)
    ensures L.DoubleSign(c) == Some(L.Sign(plain, eq)) && c != L.EOF
  {
  }

  lemma {:induction false} SignPunct(cc: L.Classes, c: char, sign: L.Sign, rest: string)
    requires L.SingleSign(c) == Some(sign)
    ensures IsSign(c) && L.PunctToken(cc, c, rest) == L.SignToken(c, rest, sign, L.DoubleSign(c))
  {
    OperatorSign(c);
  }

  lemma {:induction false} SignIs(cc: L.Classes, c: char, plain: L.TokenKind, eq: L.TokenKind, rest: string)
    requires SignKinds(c, plain, eq)
    ensures L.FirstToken(cc, [c] + rest) == L.SignToken(c, rest, L.Sign(plain, eq), L.DoubleSign(c))
    ensures L.DoubleSign(c).Some? <==> Doubles(c)
  {
    SignTable(c, plain, eq);
    CanDouble(c);
    SignPunct(cc, c, L.Sign(plain, eq), rest);
    SignFirst(cc, c, rest);
  }

  /** A sign alone, before neither `=` nor, where it can stand twice, itself. */
  lemma {:induction false} PlainSign(cc: L.Classes, c: char, plain: L.TokenKind, eq: L.TokenKind, rest: string)
    requires SignKinds(c, plain, eq) && (rest != [] ==> rest[0] != '=' && !(Doubles(c) && rest[0] == c))
    ensures L.FirstToken(cc, [c] + rest) == L.Token(plain, 1)
  {
    SignIs(cc, c, plain, eq, rest);
  }

  lemma {:induction false} EqSign(cc: L.Classes, c: char, plain: L.TokenKind, eq: L.TokenKind, rest: string)
    requires SignKinds(c, plain, eq)
    ensures L.FirstToken(cc, [c] + (['='] + rest)) == L.Token(eq, 2)
  {
    SignIs(cc, c, plain, eq, ['='] + rest);
  }

  lemma {:induction false} DoubleIs(
    cc: L.Classes, c: char, plain: L.TokenKind, eq: L.TokenKind, one: L.TokenKind, two: L.TokenKind, rest: string)
    requires DoubleKinds(c, plain, eq) && SignKinds(c, one, two)
    ensures L.FirstToken(cc, [c] + ([c] + rest)) == L.WithEq(rest, 2, L.Sign(plain, eq))
  {
    SignIs(cc, c, one, two, [c] + rest);
    DoubleTable(c, plain, eq);
    assert ([c] + rest)[1..] == rest;
  }

  /** A sign that stands twice, and then before `=` or not. */
  lemma {:induction false} DoubledSign(
    cc: L.Classes, c: char, plain: L.TokenKind, eq: L.TokenKind, one: L.TokenKind, two: L.TokenKind, rest: string)
    requires DoubleKinds(c, plain, eq) && SignKinds(c, one, two)
    ensures (rest != [] ==> rest[0] != '=') ==> L.FirstToken(cc, [c] + ([c] + rest)) == L.Token(plain, 2)
    ensures L.FirstToken(cc, [c] + ([c] + (['='] + rest))) == L.Token(eq, 3)
  {
    DoubleIs(cc, c, plain, eq, one, two, rest);
    DoubleIs(cc, c, plain, eq, one, two, ['='] + rest);
  }

  predicate IsBracket(c: char, kind: L.TokenKind) {
    match c
    case '(' => kind == L.OpenParen
    case ')' => kind == L.CloseParen
    case '{' => kind == L.OpenBrace
    case '}' => kind == L.CloseBrace
    case '[' => kind == L.OpenBracket
    case ']' => kind == L.CloseBracket
    case _ => false
  }

  predicate IsMark(c: char, kind: L.TokenKind) {
    match c
    case '\t' => kind == L.Tab
    case ' ' => kind == L.Space
    case '\n' => kind == L.Newline
    case ';' => kind == L.Semi
    case ',' => kind == L.Comma
    case '@' => kind == L.At
    case '~' => kind == L.Tilde
    case '?' => kind == L.Question
    case ':' => kind == L.Colon
    case _ => false
  }

  /** Characters that are a token by themselves. */
  predicate IsDelimiter(c: char, kind: L.TokenKind) { IsBracket(c, kind) || IsMark(c, kind) }

  lemma {:induction false} DelimiterIs(cc: L.Classes, c: char, kind: L.TokenKind, rest: string)
    requires IsDelimiter(c, kind)
    ensures L.FirstToken(cc, [c] + rest) == L.Token(kind, 1)
  {
    if IsBracket(c, kind) {
      BracketTable(c, kind);
      BracketSign(c, kind);
    } else {
      MarkTable(c, kind);
      MarkSign(c, kind);
    }
    SignFirst(cc, c, rest);
  }

  lemma {:induction false} BracketTable(c: char, kind: L.TokenKind)
    requires IsBracket(c, kind)
    ensures L.Delimiter(c) == Some(kind)
  {
  }

  lemma {:induction false} BracketSign(c: char, kind: L.TokenKind)
    requires IsBracket(c, kind)
    ensures IsSign(c)
  {
  }

  lemma {:induction false} MarkTable(c: char, kind: L.TokenKind)
    requires IsMark(c, kind)
    ensures L.Delimiter(c) == Some(kind)
  {
  }

  lemma {:induction false} MarkSign(c: char, kind: L.TokenKind)
    requires IsMark(c, kind)
    ensures IsSign(c)
  {
  }

  /** Three dots are one token, one or two dots are single ones; a line continuation takes its line break. */
  lemma {:induction false} DotsAndContinuations(cc: L.Classes, rest: string)
    ensures L.FirstToken(cc, "..." + rest) == L.Token(L.DotDotDot, 3)
    ensures (|rest| < 2 || rest[..2] != "..") ==> L.FirstToken(cc, "." + rest) == L.Token(L.Dot, 1)
    ensures L.FirstToken(cc, "\\\n" + rest) == L.Token(L.LineContinue, 2)
    ensures L.FirstToken(cc, "\\") == L.Token(L.LineContinue, 1)
    ensures rest != [] && rest[0] != '\n' && rest[0] != '\0' ==>
      L.FirstToken(cc, "\\" + rest) == L.Token(L.InvalidLineContinue, 1)
  {
    assert "..." + rest == ['.'] + (".." + rest);
    SignFirst(cc, '.', ".." + rest);
    SignFirst(cc, '.', rest);
    assert "\\\n" + rest == ['\\'] + ("\n" + rest);
    SignFirst(cc, '\\', "\n" + rest);
    assert "\\" == ['\\'] + "";
    SignFirst(cc, '\\', "");
    SignFirst(cc, '\\', rest);
  }

  // ---- comments and white space ----

  /** A comment reaches to the end of its line. */
  lemma {:induction false} CommentIs(cc: L.Classes, body: string, rest: string)
    requires '\n' !in body && (rest != [] ==> rest[0] == '\n')
    ensures L.FirstToken(cc, ['#'] + (body + rest)) == L.Token(L.LineComment, 1 + |body|)
  {
    FirstOf(cc, '#', body + rest);
    forall i | 0 <= i < |body| ensures body[i] != '\n' {
      assert body[i] in body;
    }
    SpanPrefix(body, rest, d => d != '\n');
  }

  predicate Blanks(c: char) {
    || c == '\U{0B}' || c == '\U{0C}' || c == '\U{0D}' || c == '\U{85}'
    || c == '\U{200E}' || c == '\U{200F}' || c == '\U{2028}' || c == '\U{2029}'
  }

  lemma {:induction false} WhitespaceIs(cc: L.Classes, c: char, rest: string)
    requires Blanks(c)
    ensures L.FirstToken(cc, [c] + rest) == L.Token(L.Whitespace, 1)
  {
    FirstOf(cc, c, rest);
  }

  // ---- names ----

  predicate Letter(cc: L.Classes, c: char) {
    'a' <= c <= 'z' || 'A' <= c <= 'Z' || c == '_' || (c >= '\U{80}' && cc.idStart(c))
  }

  predicate Continues(cc: L.Classes, c: char) {
    'a' <= c <= 'z' || 'A' <= c <= 'Z' || c == '_' || '0' <= c <= '9' || (c >= '\U{80}' && cc.idContinue(c))
  }

  predicate Emoji(cc: L.Classes, c: char) { c >= '\U{80}' && cc.emoji(c) }

  /** A text after which a name has ended. */
  predicate NameEnds(cc: L.Classes, rest: string) {
    rest != [] ==> !Continues(cc, rest[0]) && !Emoji(cc, rest[0])
  }

  predicate Goes(cc: L.Classes, w: string) { forall i :: 0 <= i < |w| ==> Continues(cc, w[i]) }

  lemma {:induction false} IdentIs(cc: L.Classes, w: string, rest: string)
    requires Goes(cc, w) && NameEnds(cc, rest)
    ensures L.IdentToken(cc, w + rest) == L.Token(L.Ident, 1 + |w|)
  {
    SpanPrefix(w, rest, c => L.IsIdContinue(cc, c));
    assert (w + rest)[|w|..] == rest;
  }

  lemma {:induction false} LetterStart(cc: L.Classes, c: char, tail: string)
    requires Letter(cc, c) && !Blanks(c) && ((c == 'r' || c == 'R') && tail != [] ==> !L.IsQuote(tail[0]))
    ensures L.FirstToken(cc, [c] + tail) == L.IdentToken(cc, tail)
  {
    FirstOf(cc, c, tail);
  }

  /** A name of letters and digits of any script, also behind a dollar sign. */
  lemma {:induction false} NameIs(cc: L.Classes, c: char, w: string, rest: string)
    requires Letter(cc, c) && Goes(cc, w) && NameEnds(cc, rest) && !Blanks(c)
    requires (c == 'r' || c == 'R') && w == [] && rest != [] ==> !L.IsQuote(rest[0])
    ensures L.FirstToken(cc, [c] + (w + rest)) == L.Token(L.Ident, 1 + |w|)
  {
    IdentIs(cc, w, rest);
    assert w == [] ==> w + rest == rest;
    LetterStart(cc, c, w + rest);
  }

  lemma {:induction false} DollarNameIs(cc: L.Classes, w: string, rest: string)
    requires w != [] && Letter(cc, w[0]) && Goes(cc, w) && NameEnds(cc, rest)
    ensures L.FirstToken(cc, ['$'] + (w + rest)) == L.Token(L.Ident, 1 + |w|)
  {
    IdentIs(cc, w, rest);
    FirstOf(cc, '$', w + rest);
  }

  predicate Fakes(cc: L.Classes, c: char) { Continues(cc, c) || Emoji(cc, c) || c == '\U{200d}' }

  lemma {:induction false} EmojiIdent(cc: L.Classes, w: string, v: string, rest: string)
    requires Goes(cc, w) && v != [] && Emoji(cc, v[0]) && !Continues(cc, v[0])
    requires (forall i :: 0 <= i < |v| ==> Fakes(cc, v[i])) && (rest != [] ==> !Fakes(cc, rest[0]))
    ensures L.IdentToken(cc, w + (v + rest)) == L.Token(L.InvalidIdent, 1 + |w| + |v|)
  {
    SpanPrefix(w, v + rest, d => L.IsIdContinue(cc, d));
    assert (w + (v + rest))[|w|..] == v + rest;
    SpanPrefix(v, rest, d => L.IsFakeIdent(cc, d));
  }

  /** A name that runs into an emoji is one invalid name, which also takes joiners and more emoji. */
  lemma {:induction false} EmojiNameIs(cc: L.Classes, c: char, w: string, v: string, rest: string)
    requires Letter(cc, c) && !Blanks(c) && Goes(cc, w) && v != [] && Emoji(cc, v[0]) && !Continues(cc, v[0])
    requires (forall i :: 0 <= i < |v| ==> Fakes(cc, v[i])) && (rest != [] ==> !Fakes(cc, rest[0]))
    ensures L.FirstToken(cc, [c] + (w + (v + rest))) == L.Token(L.InvalidIdent, 1 + |w| + |v|)
  {
    EmojiIdent(cc, w, v, rest);
    assert w == [] ==> w + (v + rest) == v + rest;
    LetterStart(cc, c, w + (v + rest));
  }

  // ---- strings ----

  function Exchange(c: char): char { if c == '\'' then '\"' else if c == '\"' then '\'' else c }

  /** A text with the two quotes exchanged. */
  function Exchanged(s: string): (t: string)
    ensures |t| == |s| && forall i :: 0 <= i < |s| ==> t[i] == Exchange(s[i])
  {
    seq(|s|, i requires 0 <= i < |s| => Exchange(s[i]))
  }

  lemma {:induction false} ExchangedFrom(s: string, n: nat)
    requires n <= |s|
    ensures Exchanged(s)[n..] == Exchanged(s[n..])
  {
  }

  lemma {:induction false} ExchangedPeeks(s: string, q: char)
    requires q == '\'' || q == '\"'
    ensures L.Peek(Exchanged(s)) == Exchange(q) <==> L.Peek(s) == q
    ensures L.Peek1(Exchanged(s)) == Exchange(q) <==> L.Peek1(s) == q
    ensures L.Peek(Exchanged(s)) == '\\' <==> L.Peek(s) == '\\'
    ensures L.Peek(Exchanged(s)) in {'\r', '\n', L.EOF} <==> L.Peek(s) in {'\r', '\n', L.EOF}
  {
  }

  /** One step of the scanner, on a text and on the same text with the quotes exchanged. */
  lemma {:induction false} ScanExchanged(q: char, triple: bool, s: string)
    requires q == '\'' || q == '\"'
    ensures L.ScanString(Exchange(q), triple, Exchanged(s)) == L.ScanString(q, triple, s)
    decreases |s|
  {
    if s != [] {
      var rest, other := s[1..], Exchanged(s)[1..];
      ExchangedFrom(s, 1);
      ExchangedPeeks(rest, q);
      if s[0] == '\\' && (L.Peek(rest) == '\\' || L.Peek(rest) == q) {
        ExchangedFrom(rest, 1);
        ScanExchanged(q, triple, rest[1..]);
        assert L.ScanString(Exchange(q), triple, Exchanged(s)).n == 2 + L.ScanString(Exchange(q), triple, other[1..]).n;
      } else {
        ScanExchanged(q, triple, rest);
      }
    }
  }

  lemma {:induction false} StringExchanged(q: char, s: string, before: nat)
    requires q == '\'' || q == '\"'
    ensures L.StringToken(Exchange(q), Exchanged(s), before) == L.StringToken(q, s, before)
  {
    ExchangedPeeks(s, q);
    var skip := if L.Peek(s) == q && L.Peek1(s) == q then 2 else 0;
    ExchangedFrom(s, skip);
    ScanExchanged(q, skip == 2, s[skip..]);
  }

  lemma {:induction false} QuoteStart(cc: L.Classes, q: char, s: string)
    requires q == '\'' || q == '\"'
    ensures L.FirstToken(cc, [q] + s) == L.StringToken(q, s, 1)
  {
    FirstOf(cc, q, s);
  }

  /** Single-quoted strings lex as double-quoted ones do. */
  lemma {:induction false} QuotesAlike(cc: L.Classes, q: char, s: string)
    requires q == '\'' || q == '\"'
    ensures L.FirstToken(cc, [Exchange(q)] + Exchanged(s)) == L.FirstToken(cc, [q] + s)
  {
    QuoteStart(cc, q, s);
    QuoteStart(cc, Exchange(q), Exchanged(s));
    StringExchanged(q, s, 1);
  }

  /** A raw prefix makes a string literal one character longer and changes nothing else. */
  lemma {:induction false} RawIs(cc: L.Classes, r: char, quote: char, s: string)
    requires r in {'r', 'R'} && quote in {'\'', '\"'}
    ensures
      var t := L.FirstToken(cc, [quote] + s);
      && t.kind.Literal? && t.kind.kind.StrLit?
      && L.FirstToken(cc, [r] + ([quote] + s)) ==
           L.Token(L.Literal(t.kind.kind, t.kind.suffixStart + 1), t.len + 1)
  {
    FirstOf(cc, quote, s);
    FirstOf(cc, r, [quote] + s);
    assert ([quote] + s)[1..] == s;
  }

  /** What closes no short string and stops none: neither quote, backslash nor line break. */
  predicate Tame(s: string, quote: char) {
    forall i :: 0 <= i < |s| ==> s[i] != quote && s[i] != '\\' && s[i] !in {'\r', '\n', '\0'}
  }

  lemma {:induction false} TameScan(quote: char, s: string, rest: string)
    requires quote in {'\'', '\"'} && Tame(s, quote)
    ensures L.ScanString(quote, false, s + ([quote] + rest)) == L.Quoted(true, |s| + 1)
    ensures s != [] && (rest == [] || rest[0] in {'\r', '\n', '\0'}) ==>
      L.ScanString(quote, false, s + rest) == L.Quoted(false, |s|)
    decreases |s|
  {
    if s == [] {
      assert s + ([quote] + rest) == [quote] + rest;
    } else {
      assert (s + ([quote] + rest))[1..] == s[1..] + ([quote] + rest) && (s + rest)[1..] == s[1..] + rest;
      TameScan(quote, s[1..], rest);
      assert s[1..] == [] ==> s[1..] + rest == rest && s[1..] + ([quote] + rest) == [quote] + rest;
    }
  }

  /** A short string without escapes ends at its quote, or unclosed at the end of its line. */
  lemma {:induction false} ShortStringIs(cc: L.Classes, quote: char, s: string, rest: string)
    requires quote in {'\'', '\"'} && Tame(s, quote) && s != []
    ensures L.FirstToken(cc, [quote] + (s + ([quote] + rest))) ==
      L.Token(L.Literal(L.StrLit(true, false), |s| + 2), |s| + 2)
    ensures rest == [] || rest[0] in {'\r', '\n', '\0'} ==>
      L.FirstToken(cc, [quote] + (s + rest)) == L.Token(L.Literal(L.StrLit(false, false), |s| + 1), |s| + 1)
  {
    TameScan(quote, s, rest);
    FirstOf(cc, quote, s + ([quote] + rest));
    FirstOf(cc, quote, s + rest);
    assert (s + rest)[0..] == s + rest;
    assert (s + ([quote] + rest))[0..] == s + ([quote] + rest);
  }

  /** A long string whose body has no quote and no backslash closes at its three quotes, or is unclosed at the end. */
  lemma {:induction false} LongScan(quote: char, s: string, rest: string)
    requires quote in {'\'', '\"'} && forall i :: 0 <= i < |s| ==> s[i] != quote && s[i] != '\\'
    ensures L.ScanString(quote, true, s + ([quote, quote, quote] + rest)) == L.Quoted(true, |s| + 3)
    ensures L.ScanString(quote, true, s) == L.Quoted(false, |s|)
    decreases |s|
  {
    var close := [quote, quote, quote] + rest;
    if s == [] {
      assert s + close == close;
    } else {
      assert (s + close)[1..] == s[1..] + close;
      LongScan(quote, s[1..], rest);
    }
  }

  lemma {:induction false} LongStringIs(cc: L.Classes, quote: char, s: string, rest: string)
    requires quote in {'\'', '\"'} && forall i :: 0 <= i < |s| ==> s[i] != quote && s[i] != '\\'
    ensures L.FirstToken(cc, [quote] + ([quote, quote] + (s + ([quote, quote, quote] + rest)))) ==
      L.Token(L.Literal(L.StrLit(true, true), |s| + 6), |s| + 6)
    ensures L.FirstToken(cc, [quote] + ([quote, quote] + s)) ==
      L.Token(L.Literal(L.StrLit(false, false), |s| + 3), |s| + 3)
  {
    LongScan(quote, s, rest);
    LongToken(cc, quote, s + ([quote, quote, quote] + rest));
    LongToken(cc, quote, s);
  }

  lemma {:induction false} LongToken(cc: L.Classes, quote: char, s: string)
    requires quote in {'\'', '\"'}
    ensures
      var r := L.ScanString(quote, true, s);
      L.FirstToken(cc, [quote] + ([quote, quote] + s)) ==
        L.Token(L.Literal(L.StrLit(r.closed, r.closed), 3 + r.n), 3 + r.n)
  {
    QuoteStart(cc, quote, [quote, quote] + s);
    assert ([quote, quote] + s)[2..] == s;
  }

  // ---- what is left ----

  /** A dollar sign before no name, an emoji before anything, and any other character. */
  lemma {:induction false} StrayIs(cc: L.Classes, c: char, v: string, rest: string)
    requires (forall i :: 0 <= i < |v| ==> Fakes(cc, v[i])) && (rest != [] ==> !Fakes(cc, rest[0]))
    ensures (v + rest == [] || !Letter(cc, (v + rest)[0])) ==>
      L.FirstToken(cc, ['$'] + (v + rest)) == L.Token(L.Dollar, 1)
    ensures Emoji(cc, c) && !Letter(cc, c) && !Blanks(c) ==>
      L.FirstToken(cc, [c] + (v + rest)) == L.Token(L.InvalidIdent, 1 + |v|)
    ensures c >= '\U{80}' && !Emoji(cc, c) && !Letter(cc, c) && !Blanks(c) ==>
      L.FirstToken(cc, [c] + (v + rest)) == L.Token(L.Unknown, 1)
  {
    SpanPrefix(v, rest, d => L.IsFakeIdent(cc, d));
    FirstOf(cc, '$', v + rest);
    FirstOf(cc, c, v + rest);
  }
}
