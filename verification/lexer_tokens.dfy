/** How the printed leaves and signs of an expression lex: each is one token before an acceptable text. */
module LexerTokens {
  import opened Values
  import opened Printer
  import L = LexerSpec

  /** A token and the characters it covers. */
  datatype Lexeme = Lexeme(kind: L.TokenKind, text: string)

  /** The tokens of a text with their characters, spaces dropped. */
  function Lexemes(cc: L.Classes, s: string): seq<Lexeme>
    decreases |s|
  {
    if s == [] then [] else
    var t := L.FirstToken(cc, s);
    (if t.kind.Space? then [] else [Lexeme(t.kind, s[..t.len])]) + Lexemes(cc, s[t.len..])
  }

  // The tokens of names, literals and operators, from the syntax alone.

  function Word(w: string): Lexeme { Lexeme(L.Ident, w) }

  function UnaryToken(op: UnaryOp): Lexeme {
    match op
    case UAdd => Lexeme(L.Plus, "+")
    case USub => Lexeme(L.Minus, "-")
    case Invert => Lexeme(L.Tilde, "~")
    case Not => Word("not")
  }

  function BinToken(op: BinOp): Lexeme {
    match op
    case Add => Lexeme(L.Plus, "+")
    case Sub => Lexeme(L.Minus, "-")
    case Mul => Lexeme(L.Star, "*")
    case Div => Lexeme(L.Slash, "/")
    case Mod => Lexeme(L.Percent, "%")
    case Pow => Lexeme(L.StarStar, "**")
    case FloorDiv => Lexeme(L.SlashSlash, "//")
    case LShift => Lexeme(L.LtLt, "<<")
    case RShift => Lexeme(L.GtGt, ">>")
    case BitXor => Lexeme(L.Caret, "^")
    case BitAnd => Lexeme(L.And, "&")
    case BitOr => Lexeme(L.Or, "|")
    case And => Word("and")
    case Or => Word("or")
    case As => Word("as")
  }

  function CmpTokens(op: CmpOp): seq<Lexeme> {
    match op
    case Eq => [Lexeme(L.EqEq, "==")]
    case NotEq => [Lexeme(L.BangEq, "!=")]
    case Lt => [Lexeme(L.Lt, "<")]
    case LtE => [Lexeme(L.LtEq, "<=")]
    case Gt => [Lexeme(L.Gt, ">")]
    case GtE => [Lexeme(L.GtEq, ">=")]
    case Is => [Word("is")]
    case In => [Word("in")]
    case NotIn => [Word("not"), Word("in")]
    case CmpNot => [Word("not")]
    case IsNot => [Word("is"), Word("not")]
  }

  function NamesTokens(names: seq<string>): seq<Lexeme> {
    if names == [] then [] else if |names| == 1 then [Word(names[0])]
    else [Word(names[0]), Lexeme(L.Dot, ".")] + NamesTokens(names[1..])
  }

  /** One literal; its unit suffix starts after its last digit. */
  function NumberToken(v: nat, suffix: Option<Suffix>): Lexeme {
    Lexeme(L.Literal(L.IntLit(L.Decimal, false), |DecimalText(v)|),
           DecimalText(v) + if suffix.Some? then SuffixName(suffix.value) else "")
  }

  /** One closed literal, triple-quoted exactly when the literal is long. */
  function StringLexeme(s: string, isLong: bool): Lexeme {
    Lexeme(L.Literal(L.StrLit(true, isLong), |StringText(s, isLong)|), StringText(s, isLong))
  }

  const LEFT_PAREN := Lexeme(L.OpenParen, "(")
  const RIGHT_PAREN := Lexeme(L.CloseParen, ")")
  const LEFT_BRACKET := Lexeme(L.OpenBracket, "[")
  const RIGHT_BRACKET := Lexeme(L.CloseBracket, "]")
  const COMMA := Lexeme(L.Comma, ",")
  const COLON := Lexeme(L.Colon, ":")
  const QUESTION := Lexeme(L.Question, "?")
  const ASSIGN := Lexeme(L.Eq, "=")

  // Well-formed leaves: names are ASCII identifiers.

  predicate IsWordChar(c: char) { L.IsLetter(c) || L.IsDigit(c) }

  predicate IsName(s: string) {
    s != [] && L.IsLetter(s[0]) && AreWordChars(s)
  }

  predicate AreNames(names: seq<string>) {
    names != [] && forall i :: 0 <= i < |names| ==> IsName(names[i])
  }

  // A text lexes to given tokens whenever an acceptable text follows.

  predicate Anything(rest: string) { true }

  predicate NoEq(rest: string) { rest != [] ==> rest[0] != '=' }

  /** What may follow a name: a character that neither extends it nor makes it a string prefix. */
  predicate EndsName(rest: string) {
    rest != [] ==> L.IsAscii(rest[0]) && !IsWordChar(rest[0]) && !L.IsQuote(rest[0])
  }

  /** What may follow an expression. */
  predicate Safe(rest: string) {
    EndsName(rest) && (rest != [] ==> rest[0] != '.')
  }

  ghost predicate Lexes(cc: L.Classes, t: string, ts: seq<Lexeme>, follow: string -> bool) {
    forall rest | follow(rest) :: Lexemes(cc, t + rest) == ts + Lexemes(cc, rest)
  }

  /** `u` followed by something acceptable for `g` is acceptable for `f`. */
  ghost predicate Meets(f: string -> bool, u: string, g: string -> bool) {
    forall rest | g(rest) :: f(u + rest)
  }

  lemma {:induction false} Join(
    cc: L.Classes, t: string, ts: seq<Lexeme>, f: string -> bool, u: string, us: seq<Lexeme>, g: string -> bool)
    requires Lexes(cc, t, ts, f) && Lexes(cc, u, us, g) && Meets(f, u, g)
    ensures Lexes(cc, t + u, ts + us, g)
  {
    forall rest | g(rest) ensures Lexemes(cc, (t + u) + rest) == (ts + us) + Lexemes(cc, rest) {
      assert f(u + rest);
      Concat(t, u, rest);
      assert Lexemes(cc, t + (u + rest)) == ts + Lexemes(cc, u + rest);
      assert Lexemes(cc, u + rest) == us + Lexemes(cc, rest);
      Regroup(ts, us, Lexemes(cc, rest));
    }
  }

  lemma {:induction false} Regroup(a: seq<Lexeme>, b: seq<Lexeme>, c: seq<Lexeme>)
    ensures (a + b) + c == a + (b + c)
  {
  }

  lemma {:induction false} FirstOf(cc: L.Classes, c: char, rest: string)
    ensures L.FirstToken(cc, [c] + rest) == L.TokenFrom(cc, c, rest)
  {
    assert ([c] + rest)[1..] == rest;
  }

  lemma {:induction false} OneToken(cc: L.Classes, t: string, kind: L.TokenKind, rest: string)
    requires t != [] && !kind.Space?
    requires L.FirstToken(cc, t + rest) == L.Token(kind, |t|)
    ensures Lexemes(cc, t + rest) == [Lexeme(kind, t)] + Lexemes(cc, rest)
  {
    assert (t + rest)[..|t|] == t;
    assert (t + rest)[|t|..] == rest;
  }

  lemma {:induction false} SpaceRight(cc: L.Classes)
    ensures Lexes(cc, " ", [], Anything)
  {
    forall rest ensures Lexemes(cc, " " + rest) == Lexemes(cc, rest) {
      assert (" " + rest)[1..] == rest;
      SignFirst(cc, ' ', rest);
    }
  }

  // Names.

  lemma {:induction false} SpanPrefix(t: string, rest: string, p: char -> bool)
    requires forall i :: 0 <= i < |t| ==> p(t[i])
    requires rest != [] ==> !p(rest[0])
    ensures L.Span(t + rest, p) == |t|
  {
    if t == [] {
      assert t + rest == rest;
    } else {
      assert (t + rest)[1..] == t[1..] + rest;
      SpanPrefix(t[1..], rest, p);
    }
  }

  predicate AreWordChars(s: string) { forall i :: 0 <= i < |s| ==> IsWordChar(s[i]) }

  lemma {:induction false} IdentRest(cc: L.Classes, w: string, rest: string)
    requires AreWordChars(w) && EndsName(rest)
    ensures L.IdentToken(cc, w + rest) == L.Token(L.Ident, 1 + |w|)
    ensures !L.IsQuote(L.Peek(w + rest))
  {
    SpanPrefix(w, rest, c => L.IsIdContinue(cc, c));
    assert (w + rest)[|w|..] == rest;
    assert w == [] ==> w + rest == rest;
  }

  lemma {:induction false} LetterFirst(cc: L.Classes, c: char, tail: string)
    requires L.IsLetter(c) && !L.IsQuote(L.Peek(tail))
    ensures L.FirstToken(cc, [c] + tail) == L.IdentToken(cc, tail)
  {
    FirstOf(cc, c, tail);
  }

  lemma {:induction false} NameFirst(cc: L.Classes, s: string, rest: string)
    requires IsName(s) && EndsName(rest)
    ensures L.FirstToken(cc, s + rest) == L.Token(L.Ident, |s|)
  {
    var w := s[1..];
    assert s == [s[0]] + w;
    Concat([s[0]], w, rest);
    IdentRest(cc, w, rest);
    LetterFirst(cc, s[0], w + rest);
  }

  lemma {:induction false} NameRight(cc: L.Classes, s: string)
    requires IsName(s)
    ensures Lexes(cc, s, [Word(s)], EndsName)
  {
    forall rest | EndsName(rest) ensures Lexemes(cc, s + rest) == [Word(s)] + Lexemes(cc, rest) {
      NameFirst(cc, s, rest);
      OneToken(cc, s, L.Ident, rest);
    }
  }

  // Punctuation and operators.

  lemma {:induction false} PunctRight(cc: L.Classes, t: string, kind: L.TokenKind, follow: string -> bool)
    requires t != [] && !kind.Space?
    requires forall rest | follow(rest) :: L.FirstToken(cc, t + rest) == L.Token(kind, |t|)
    ensures Lexes(cc, t, [Lexeme(kind, t)], follow)
  {
    forall rest | follow(rest) ensures Lexemes(cc, t + rest) == [Lexeme(kind, t)] + Lexemes(cc, rest) {
      OneToken(cc, t, kind, rest);
    }
  }

  predicate IsSign(c: char) {
    && L.IsAscii(c) && c != '#' && c != '$' && !L.IsQuote(c)
    && !L.IsWhitespace(c) && !L.IsLetter(c) && !L.IsDigit(c)
  }

  lemma {:induction false} SignFirst(cc: L.Classes, c: char, rest: string)
    requires IsSign(c)
    ensures L.FirstToken(cc, [c] + rest) == L.PunctToken(cc, c, rest)
  {
    FirstOf(cc, c, rest);
  }

  /** A sign that the punctuation table makes one token before every acceptable text. */
  lemma {:induction false} SignRight(cc: L.Classes, c: char, kind: L.TokenKind, follow: string -> bool)
    requires IsSign(c) && !kind.Space?
    requires forall rest | follow(rest) :: L.PunctToken(cc, c, rest) == L.Token(kind, 1)
    ensures Lexes(cc, [c], [Lexeme(kind, [c])], follow)
  {
    forall rest | follow(rest) ensures L.FirstToken(cc, [c] + rest) == L.Token(kind, 1) {
      SignFirst(cc, c, rest);
    }
    PunctRight(cc, [c], kind, follow);
  }

  predicate AfterDot(rest: string) { rest != [] && L.IsLetter(rest[0]) }

  predicate Blank(rest: string) { rest != [] && rest[0] == ' ' }

  /** Two characters that make one operator. */
  predicate IsPair(c: char, d: char, kind: L.TokenKind) {
    && L.SingleSign(c).Some?
    && ((L.DoubleSign(c).Some? && d == c && kind == L.DoubleSign(c).value.plain)
        || (d == '=' && kind == L.SingleSign(c).value.eq))
  }

  lemma {:induction false} OperatorSign(c: char)
    requires L.SingleSign(c).Some?
    ensures IsSign(c) && L.Delimiter(c).None?
    ensures L.DoubleSign(c).Some? ==> c != '=' && c != L.EOF
  {
  }

  lemma {:induction false} PairToken(c: char, d: char, kind: L.TokenKind, rest: string)
    requires Blank(rest) && IsPair(c, d, kind)
    ensures L.SignToken(c, [d] + rest, L.SingleSign(c).value, L.DoubleSign(c)) == L.Token(kind, 2)
  {
    OperatorSign(c);
    assert ([d] + rest)[1..] == rest;
  }

  lemma {:induction false} PairFirst(cc: L.Classes, c: char, d: char, kind: L.TokenKind, rest: string)
    requires Blank(rest) && IsPair(c, d, kind)
    ensures L.FirstToken(cc, [c, d] + rest) == L.Token(kind, 2)
  {
    OperatorSign(c);
    assert [c, d] == [c] + [d];
    Concat([c], [d], rest);
    SignFirst(cc, c, [d] + rest);
    PairToken(c, d, kind, rest);
  }

  lemma {:induction false} PairRight(cc: L.Classes, c: char, d: char, kind: L.TokenKind)
    requires IsPair(c, d, kind) && !kind.Space?
    ensures Lexes(cc, [c, d], [Lexeme(kind, [c, d])], Blank)
  {
    forall rest | Blank(rest) ensures L.FirstToken(cc, [c, d] + rest) == L.Token(kind, 2) {
      PairFirst(cc, c, d, kind, rest);
    }
    PunctRight(cc, [c, d], kind, Blank);
  }

  lemma {:induction false} WordRight(cc: L.Classes, w: string)
    requires IsName(w)
    ensures Lexes(cc, w, [Word(w)], Blank)
  {
    NameRight(cc, w);
  }

  /** A text that needs a space after it, between two spaces. */
  lemma {:induction false} Spaced(cc: L.Classes, t: string, ts: seq<Lexeme>)
    requires Lexes(cc, t, ts, Blank)
    ensures Lexes(cc, " " + t + " ", ts, Anything)
  {
    SpaceRight(cc);
    Join(cc, " ", [], Anything, t, ts, Blank);
    assert [] + ts == ts;
    Join(cc, " " + t, ts, Blank, " ", [], Anything);
    assert ts + [] == ts;
  }

  lemma {:induction false} BinRight(cc: L.Classes, op: BinOp)
    ensures Lexes(cc, " " + BinSymbol(op) + " ", [BinToken(op)], Anything)
  {
    BinBare(cc, op);
    Spaced(cc, BinSymbol(op), [BinToken(op)]);
  }

  lemma {:induction false} BinBare(cc: L.Classes, op: BinOp)
    ensures Lexes(cc, BinSymbol(op), [BinToken(op)], Blank)
  {
    var t := BinToken(op);
    if t.kind.Ident? {
      WordRight(cc, BinSymbol(op));
    } else if |t.text| == 1 {
      SignRight(cc, t.text[0], t.kind, Blank);
    } else {
      PairRight(cc, t.text[0], t.text[1], t.kind);
    }
    assert BinSymbol(op) == t.text;
  }

  lemma {:induction false} TwoWords(cc: L.Classes, w: string, v: string)
    requires IsName(w) && IsName(v)
    ensures Lexes(cc, w + " " + v, [Word(w), Word(v)], Blank)
  {
    SpaceRight(cc);
    WordRight(cc, w);
    WordRight(cc, v);
    Join(cc, w, [Word(w)], Blank, " ", [], Anything);
    assert [Word(w)] + [] == [Word(w)];
    Join(cc, w + " ", [Word(w)], Anything, v, [Word(v)], Blank);
    assert [Word(w)] + [Word(v)] == [Word(w), Word(v)];
  }

  lemma {:induction false} CmpRight(cc: L.Classes, op: CmpOp)
    ensures Lexes(cc, " " + CmpSymbol(op) + " ", CmpTokens(op), Anything)
  {
    CmpBare(cc, op);
    Spaced(cc, CmpSymbol(op), CmpTokens(op));
  }

  lemma {:induction false} CmpBare(cc: L.Classes, op: CmpOp)
    ensures Lexes(cc, CmpSymbol(op), CmpTokens(op), Blank)
  {
    match op {
      case NotIn => TwoWords(cc, "not", "in"); assert "not" + " " + "in" == "not in";
      case IsNot => TwoWords(cc, "is", "not"); assert "is" + " " + "not" == "is not";
      case Lt => SignRight(cc, '<', L.Lt, Blank);
      case Gt => SignRight(cc, '>', L.Gt, Blank);
      case Is => WordRight(cc, "is");
      case In => WordRight(cc, "in");
      case CmpNot => WordRight(cc, "not");
      case _ => PairRight(cc, CmpSymbol(op)[0], '=', CmpTokens(op)[0].kind);
    }
  }

  // Dotted names.

  lemma {:induction false} NamesRight(cc: L.Classes, names: seq<string>)
    requires AreNames(names)
    ensures JoinNames(names) != [] && L.IsLetter(JoinNames(names)[0])
    ensures Lexes(cc, JoinNames(names), NamesTokens(names), EndsName)
    decreases |names|
  {
    NameRight(cc, names[0]);
    if |names| > 1 {
      NamesRight(cc, names[1..]);
      SignRight(cc, '.', L.Dot, AfterDot);
      var rest, toks := JoinNames(names[1..]), NamesTokens(names[1..]);
      Join(cc, names[0], [Word(names[0])], EndsName, ".", [Lexeme(L.Dot, ".")], AfterDot);
      Join(cc, names[0] + ".", [Word(names[0])] + [Lexeme(L.Dot, ".")], AfterDot, rest, toks, EndsName);
      assert [Word(names[0])] + [Lexeme(L.Dot, ".")] == [Word(names[0]), Lexeme(L.Dot, ".")];
    }
  }

  // Numbers.

  lemma {:induction false} DecimalDigits(v: nat)
    ensures DecimalText(v) != []
    ensures forall i :: 0 <= i < |DecimalText(v)| ==> L.IsDigit(DecimalText(v)[i])
    ensures DecimalText(v)[0] == '0' ==> v == 0
  {
    if v >= 10 {
      DecimalDigits(v / 10);
    }
  }

  /** What a suffix, or its absence, may be followed by. */
  predicate IsUnit(t: string) {
    (forall i :: 0 <= i < |t| ==> L.IsLetter(t[i])) && (t != [] ==> t[0] !in {'_', 'e', 'E', 'b', 'o', 'x'})
  }

  lemma {:induction false} UnitSpan(cc: L.Classes, t: string, rest: string)
    requires IsUnit(t) && Safe(rest)
    ensures L.LitSuffix(cc, t + rest) == |t|
  {
    if t != [] {
      assert (t + rest)[1..] == t[1..] + rest;
      SpanPrefix(t[1..], rest, c => L.IsIdContinue(cc, c));
    } else {
      assert t + rest == rest;
    }
  }

  lemma {:induction false} NumberScan(cc: L.Classes, d: char, ds: string, after: string)
    requires L.IsDigit(d) && (d == '0' ==> ds == [])
    requires forall i :: 0 <= i < |ds| ==> L.IsDigit(ds[i])
    requires EndsDigits(after)
    ensures L.Number(cc, d, ds + after) == L.Scan(L.IntLit(L.Decimal, false), |ds|)
  {
    if d == '0' {
      assert ds + after == after;
    } else {
      SpanPrefix(ds, after, L.IsDecimalChar);
      assert (ds + after)[|ds|..] == after;
    }
  }

  /** What follows the digits cannot extend them. */
  predicate EndsDigits(after: string) {
    after != [] ==> !L.IsDecimalChar(after[0]) && after[0] !in {'.', 'e', 'E', 'b', 'o', 'x'}
  }

  lemma {:induction false} UnitHead(unit: string, rest: string)
    requires IsUnit(unit) && Safe(rest)
    ensures EndsDigits(unit + rest)
  {
    assert unit == [] ==> unit + rest == rest;
  }

  lemma {:induction false} DigitFirst(cc: L.Classes, d: char, tail: string)
    requires L.IsDigit(d)
    ensures L.FirstToken(cc, [d] + tail) == L.NumberToken(cc, d, tail)
  {
    FirstOf(cc, d, tail);
    assert !L.IsWhitespace(d) && !L.IsIdStart(cc, d);
  }

  lemma {:induction false} DigitsScan(cc: L.Classes, d: char, ds: string, unit: string, rest: string)
    requires L.IsDigit(d) && (d == '0' ==> ds == [])
    requires forall i :: 0 <= i < |ds| ==> L.IsDigit(ds[i])
    requires IsUnit(unit) && Safe(rest)
    ensures L.NumberToken(cc, d, ds + (unit + rest))
         == L.Token(L.Literal(L.IntLit(L.Decimal, false), 1 + |ds|), 1 + |ds| + |unit|)
  {
    var after := unit + rest;
    UnitHead(unit, rest);
    NumberScan(cc, d, ds, after);
    assert (ds + after)[|ds|..] == after;
    UnitSpan(cc, unit, rest);
  }

  lemma {:induction false} MoveHead(d: char, ds: string, unit: string, rest: string)
    ensures (([d] + ds) + unit) + rest == [d] + (ds + (unit + rest))
  {
    Concat([d] + ds, unit, rest);
    Concat([d], ds, unit + rest);
  }

  lemma {:induction false} DigitsFirst(cc: L.Classes, d: char, ds: string, unit: string, rest: string)
    requires L.IsDigit(d) && (d == '0' ==> ds == [])
    requires forall i :: 0 <= i < |ds| ==> L.IsDigit(ds[i])
    requires IsUnit(unit) && Safe(rest)
    ensures L.FirstToken(cc, (([d] + ds) + unit) + rest)
         == L.Token(L.Literal(L.IntLit(L.Decimal, false), 1 + |ds|), 1 + |ds| + |unit|)
  {
    MoveHead(d, ds, unit, rest);
    DigitFirst(cc, d, ds + (unit + rest));
    DigitsScan(cc, d, ds, unit, rest);
  }

  lemma {:induction false} SuffixIsUnit(suffix: Suffix)
    ensures IsUnit(SuffixName(suffix))
  {
  }

  lemma {:induction false} NumberRight(cc: L.Classes, v: nat, suffix: Option<Suffix>)
    ensures Lexes(cc, NumberToken(v, suffix).text, [NumberToken(v, suffix)], Safe)
    ensures NumberToken(v, suffix).text != [] && L.IsDigit(NumberToken(v, suffix).text[0])
  {
    var unit := if suffix.Some? then SuffixName(suffix.value) else "";
    if suffix.Some? {
      SuffixIsUnit(suffix.value);
    }
    DecimalDigits(v);
    assert v == 0 ==> DecimalText(v) == ['0'];
    var d, ds := DecimalText(v)[0], DecimalText(v)[1..];
    assert DecimalText(v) == [d] + ds;
    var kind := NumberToken(v, suffix).kind;
    forall rest | Safe(rest)
      ensures L.FirstToken(cc, (DecimalText(v) + unit) + rest) == L.Token(kind, |DecimalText(v) + unit|)
    {
      DigitsFirst(cc, d, ds, unit, rest);
    }
    PunctRight(cc, DecimalText(v) + unit, NumberToken(v, suffix).kind, Safe);
  }
}
