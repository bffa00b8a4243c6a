/** What the lexer recognises: the first token of a text, as a function of that text. */
module LexerSpec {
  import opened Values

  /** Character classes outside ASCII, as the Unicode tables give them. */
  datatype Classes = Classes(idStart: char -> bool, idContinue: char -> bool, emoji: char -> bool)

  datatype Base = Binary | Octal | Hexadecimal | Decimal

  datatype LiteralKind =
    | IntLit(base: Base, emptyInt: bool)
    | FloatLit(base: Base, emptyExponent: bool)
    | StrLit(terminated: bool, tripleQuoted: bool)

  datatype TokenKind =
    | LineComment | Whitespace | Tab | Space | Newline
    | Ident | InvalidIdent | LineContinue | InvalidLineContinue
    | Literal(kind: LiteralKind, suffixStart: nat)
    | Semi | Comma | Dot | DotDotDot | OpenParen | CloseParen | OpenBrace | CloseBrace
    | OpenBracket | CloseBracket | At | Tilde | Question | Colon | Dollar
    | Eq | EqEq | Bang | BangEq | Lt | LtEq | LtLt | LtLtEq | Gt | GtEq | GtGt | GtGtEq
    | Minus | MinusEq | And | AndEq | Or | OrEq | Plus | PlusEq | Caret | CaretEq | Percent | PercentEq
    | Star | StarEq | StarStar | StarStarEq | Slash | SlashEq | SlashSlash | SlashSlashEq
    | Unknown

  datatype Token = Token(kind: TokenKind, len: nat)

  const EOF: char := '\0'

  /** The next character, or the end marker, which a text may also contain. */
  function Peek(s: string): char {
    if s == [] then EOF else s[0]
  }

  function Peek1(s: string): char {
    if |s| < 2 then EOF else s[1]
  }

  predicate IsAscii(c: char) { c < '\U{80}' }

  predicate IsLetter(c: char) { 'a' <= c <= 'z' || 'A' <= c <= 'Z' || c == '_' }

  predicate IsDigit(c: char) { '0' <= c <= '9' }

  predicate IsIdStart(cc: Classes, c: char) {
    IsLetter(c) || (!IsAscii(c) && cc.idStart(c))
  }

  predicate IsIdContinue(cc: Classes, c: char) {
    IsLetter(c) || IsDigit(c) || (!IsAscii(c) && cc.idContinue(c))
  }

  predicate IsEmoji(cc: Classes, c: char) { !IsAscii(c) && cc.emoji(c) }

  predicate IsFakeIdent(cc: Classes, c: char) {
    IsIdContinue(cc, c) || IsEmoji(cc, c) || c == '\U{200d}'
  }

  predicate IsWhitespace(c: char) {
    c in {'\U{0B}', '\U{0C}', '\U{0D}', '\U{85}', '\U{200E}', '\U{200F}', '\U{2028}', '\U{2029}'}
  }

  predicate IsDecimalChar(c: char) { c == '_' || IsDigit(c) }

  predicate IsHexChar(c: char) {
    IsDecimalChar(c) || 'a' <= c <= 'f' || 'A' <= c <= 'F'
  }

  /** The length of the longest prefix whose characters all satisfy `p`. */
  function Span(s: string, p: char -> bool): (n: nat)
    ensures n <= |s|
  {
    if s != [] && p(s[0]) then 1 + Span(s[1..], p) else 0
  }

  /** Whether the text has something other than `_`. */
  predicate HasDigit(s: string) {
    s != [] && (s[|s| - 1] != '_' || HasDigit(s[..|s| - 1]))
  }

  /** A number: what kind it is and how far it reaches after its first digit. */
  datatype Scan = Scan(kind: LiteralKind, n: nat)

  function Number(cc: Classes, first: char, s: string): (r: Scan)
    ensures r.n <= |s|
  {
    if first == '0' then
      var c := Peek(s);
      if c == 'b' then Prefixed(cc, s, Binary, 1 + Span(s[1..], IsDecimalChar))
      else if c == 'o' || IsDigit(c) then Prefixed(cc, s, Octal, 1 + Span(s[1..], IsDecimalChar))
      else if c == 'x' then Prefixed(cc, s, Hexadecimal, 1 + Span(s[1..], IsHexChar))
      else if c in {'_', '.', 'e', 'E'} then Fraction(cc, s, Decimal, Span(s, IsDecimalChar))
      else Scan(IntLit(Decimal, false), 0)
    else
      Fraction(cc, s, Decimal, Span(s, IsDecimalChar))
  }

  /** After a base prefix there must be a digit. */
  function Prefixed(cc: Classes, s: string, base: Base, n: nat): (r: Scan)
    requires 1 <= n <= |s|
    ensures r.n <= |s|
  {
    if HasDigit(s[1..n]) then Fraction(cc, s, base, n) else Scan(IntLit(base, true), n)
  }

  /** A fraction or an exponent after `n` characters of integer part. */
  function Fraction(cc: Classes, s: string, base: Base, n: nat): (r: Scan)
    requires n <= |s|
    ensures r.n <= |s|
  {
    var t := s[n..];
    if Peek(t) == '.' && Peek1(t) != '.' && !IsIdStart(cc, Peek1(t)) then
      if IsDigit(Peek(s[n + 1..])) then FractionDigits(s, base, n + 1) else Scan(FloatLit(base, false), n + 1)
    else if Peek(t) in {'e', 'E'} then
      Exponent(s, base, n + 1)
    else
      Scan(IntLit(base, false), n)
  }

  /** The digits of a fraction that start at `n`, and an exponent after them. */
  function FractionDigits(s: string, base: Base, n: nat): (r: Scan)
    requires n <= |s|
    ensures r.n <= |s|
  {
    FractionEnd(s, base, n + Span(s[n..], IsDecimalChar))
  }

  function FractionEnd(s: string, base: Base, m: nat): (r: Scan)
    requires m <= |s|
    ensures r.n <= |s|
  {
    if Peek(s[m..]) in {'e', 'E'} then Exponent(s, base, m + 1) else Scan(FloatLit(base, false), m)
  }

  /** The exponent that starts at `m`, after its letter. */
  function Exponent(s: string, base: Base, m: nat): (r: Scan)
    requires m <= |s|
    ensures r.n <= |s|
  {
    var m' := if Peek(s[m..]) in {'-', '+'} then m + 1 else m;
    var n := Span(s[m'..], IsDecimalChar);
    Scan(FloatLit(base, !HasDigit(s[m'..m' + n])), m' + n)
  }

  function LitSuffix(cc: Classes, s: string): (n: nat)
    ensures n <= |s|
  {
    if IsIdStart(cc, Peek(s)) then 1 + Span(s[1..], c => IsIdContinue(cc, c)) else 0
  }

  /** The rest of a quoted string: whether it is closed and how far it reaches. */
  datatype Quoted = Quoted(closed: bool, n: nat)

  function ScanString(quote: char, triple: bool, s: string): (r: Quoted)
    requires quote in {'\'', '\"'}
    ensures r.n <= |s| && (r.closed ==> r.n >= if triple then 3 else 1)
    decreases |s|
  {
    if s == [] then Quoted(false, 0)
    else
      var c, rest := s[0], s[1..];
      if c == '\\' && (Peek(rest) == '\\' || Peek(rest) == quote) then
        var r := ScanString(quote, triple, rest[1..]);
        Quoted(r.closed, 2 + r.n)
      else if c == quote && !triple then
        Quoted(true, 1)
      else if c == quote && Peek(rest) == quote && Peek1(rest) == quote then
        Quoted(true, 3)
      else if c != quote && !triple && Peek(rest) in {'\r', '\n', EOF} then
        Quoted(false, 1)
      else
        var r := ScanString(quote, triple, rest);
        Quoted(r.closed, 1 + r.n)
  }

  /** A string literal whose opening quote has `before` characters up to and including it. */
  function StringToken(quote: char, s: string, before: nat): (t: Token)
    requires quote in {'\'', '\"'}
    ensures before <= t.len <= before + |s|
    ensures t.kind.Literal? && t.kind.suffixStart == t.len
  {
    var triple := Peek(s) == quote && Peek1(s) == quote;
    var skip := if triple then 2 else 0;
    var r := ScanString(quote, triple, s[skip..]);
    var len := before + skip + r.n;
    Token(Literal(StrLit(r.closed, r.closed && triple), len), len)
  }

  /** An identifier after its first character; one that runs into an emoji is invalid. */
  function IdentToken(cc: Classes, s: string): (t: Token)
    ensures 1 <= t.len <= 1 + |s|
  {
    var n := Span(s, c => IsIdContinue(cc, c));
    if IsEmoji(cc, Peek(s[n..])) then Token(InvalidIdent, 1 + n + Span(s[n..], c => IsFakeIdent(cc, c)))
    else Token(Ident, 1 + n)
  }

  /** Characters that are a token by themselves whatever follows. */
  function Delimiter(c: char): Option<TokenKind> {
    match c
    case '\t' => Some(Tab)
    case ' ' => Some(Space)
    case '\n' => Some(Newline)
    case ';' => Some(Semi)
    case ',' => Some(Comma)
    case '(' => Some(OpenParen)
    case ')' => Some(CloseParen)
    case '{' => Some(OpenBrace)
    case '}' => Some(CloseBrace)
    case '[' => Some(OpenBracket)
    case ']' => Some(CloseBracket)
    case '@' => Some(At)
    case '~' => Some(Tilde)
    case '?' => Some(Question)
    case ':' => Some(Colon)
    case '$' => Some(Dollar)
    case _ => None
  }

  /** Punctuation and operators, from their first character and what follows it. */
  function PunctToken(cc: Classes, c: char, s: string): (t: Token)
    ensures 1 <= t.len <= 1 + |s|
  {
    match Delimiter(c)
    case Some(kind) => Token(kind, 1)
    case None => OperatorToken(cc, c, s)
  }

  /** An operator sign, and the one it makes with `=`. */
  datatype Sign = Sign(plain: TokenKind, eq: TokenKind)

  function SingleSign(c: char): Option<Sign> {
    match c
    case '=' => Some(Sign(Eq, EqEq))
    case '!' => Some(Sign(Bang, BangEq))
    case '-' => Some(Sign(Minus, MinusEq))
    case '&' => Some(Sign(And, AndEq))
    case '|' => Some(Sign(Or, OrEq))
    case '+' => Some(Sign(Plus, PlusEq))
    case '^' => Some(Sign(Caret, CaretEq))
    case '%' => Some(Sign(Percent, PercentEq))
    case '<' => Some(Sign(Lt, LtEq))
    case '>' => Some(Sign(Gt, GtEq))
    case '*' => Some(Sign(Star, StarEq))
    case '/' => Some(Sign(Slash, SlashEq))
    case _ => None
  }

  /** The signs that can be doubled, and what they are then. */
  function DoubleSign(c: char): Option<Sign> {
    match c
    case '<' => Some(Sign(LtLt, LtLtEq))
    case '>' => Some(Sign(GtGt, GtGtEq))
    case '*' => Some(Sign(StarStar, StarStarEq))
    case '/' => Some(Sign(SlashSlash, SlashSlashEq))
    case _ => None
  }

  /** An operator that may be followed by `=`. */
  function WithEq(s: string, len: nat, sign: Sign): (t: Token) {
    if Peek(s) == '=' then Token(sign.eq, len + 1) else Token(sign.plain, len)
  }

  /** A sign, possibly doubled, possibly followed by `=`. */
  function SignToken(c: char, s: string, sign: Sign, double: Option<Sign>): (t: Token)
    ensures 1 <= t.len <= 1 + |s|
  {
    if double.Some? && Peek(s) == c && s != [] then WithEq(s[1..], 2, double.value) else WithEq(s, 1, sign)
  }

  function DotToken(s: string): (t: Token)
    ensures 1 <= t.len <= 1 + |s|
  {
    if Peek(s) == '.' && Peek1(s) == '.' then Token(DotDotDot, 3) else Token(Dot, 1)
  }

  function BackslashToken(s: string): (t: Token)
    ensures 1 <= t.len <= 1 + |s|
  {
    if Peek(s) == '\n' then Token(LineContinue, 2)
    else if Peek(s) == EOF then Token(LineContinue, 1)
    else Token(InvalidLineContinue, 1)
  }

  function StrayToken(cc: Classes, c: char, s: string): (t: Token)
    ensures 1 <= t.len <= 1 + |s|
  {
    if IsEmoji(cc, c) then Token(InvalidIdent, 1 + Span(s, d => IsFakeIdent(cc, d))) else Token(Unknown, 1)
  }

  /** Operators, then dots, line continuations, and what is left over. */
  function OperatorToken(cc: Classes, c: char, s: string): (t: Token)
    ensures 1 <= t.len <= 1 + |s|
  {
    match SingleSign(c)
    case Some(sign) => SignToken(c, s, sign, DoubleSign(c))
    case None =>
      if c == '.' then DotToken(s)
      else if c == '\\' then BackslashToken(s)
      else StrayToken(cc, c, s)
  }

  predicate IsQuote(c: char) { c == '\'' || c == '\"' }

  /** The first token of a text, from its first character and the rest. */
  function TokenFrom(cc: Classes, c: char, rest: string): (t: Token)
    ensures 1 <= t.len <= 1 + |rest|
    ensures t.kind.Literal? ==> t.kind.suffixStart <= t.len
  {
    if c == '#' then Token(LineComment, 1 + Span(rest, d => d != '\n'))
    else if IsWhitespace(c) then Token(Whitespace, 1)
    else if c in {'r', 'R'} && IsQuote(Peek(rest)) then StringToken(rest[0], rest[1..], 2)
    else if IsQuote(c) then StringToken(c, rest, 1)
    else if IsIdStart(cc, if c == '$' then Peek(rest) else c) then IdentToken(cc, rest)
    else if IsDigit(c) then NumberToken(cc, c, rest)
    else PunctToken(cc, c, rest)
  }

  /** A number and its suffix. */
  function NumberToken(cc: Classes, first: char, s: string): (t: Token)
    ensures 1 <= t.len <= 1 + |s|
    ensures t.kind.Literal? && t.kind.suffixStart <= t.len
  {
    var r := Number(cc, first, s);
    Token(Literal(r.kind, 1 + r.n), 1 + r.n + LitSuffix(cc, s[r.n..]))
  }

  /** The first token of a non-empty text. It is never empty and lies within the text. */
  function FirstToken(cc: Classes, s: string): (t: Token)
    requires s != []
    ensures 1 <= t.len <= |s|
    ensures t.kind.Literal? ==> t.kind.suffixStart <= t.len
  {
    TokenFrom(cc, s[0], s[1..])
  }

  lemma {:induction false} Dropped(s: string, a: nat, b: nat)
    requires a + b <= |s|
    ensures s[a..][b..] == s[a + b..]
  {
  }

  /** All tokens of a text. */
  function Tokens(cc: Classes, s: string): seq<Token>
    decreases |s|
  {
    if s == [] then [] else
    var t := FirstToken(cc, s);
    [t] + Tokens(cc, s[t.len..])
  }

  function TotalLength(ts: seq<Token>): nat {
    if ts == [] then 0 else ts[0].len + TotalLength(ts[1..])
  }

  /** The lexer is lossless: the tokens of every text tile it exactly, and none is empty. */
  lemma {:induction false} TokensTile(cc: Classes, s: string)
    ensures TotalLength(Tokens(cc, s)) == |s|
    ensures forall i :: 0 <= i < |Tokens(cc, s)| ==>
      var t := Tokens(cc, s)[i]; t.len >= 1 && (t.kind.Literal? ==> t.kind.suffixStart <= t.len)
    decreases |s|
  {
    if s != [] {
      TokensTile(cc, s[FirstToken(cc, s).len..]);
    }
  }

  /** Where the i-th token starts. */
  function Start(ts: seq<Token>, i: nat): nat
    requires i <= |ts|
  {
    if i == 0 then 0 else ts[0].len + Start(ts[1..], i - 1)
  }

  /** Every token is the first token of what remains of the text at its start. */
  lemma {:induction false} TokensAreFirst(cc: Classes, s: string, i: nat)
    requires i < |Tokens(cc, s)|
    ensures Start(Tokens(cc, s), i) < |s|
    ensures Tokens(cc, s)[i] == FirstToken(cc, s[Start(Tokens(cc, s), i)..])
    decreases |s|
  {
    var t := FirstToken(cc, s);
    if i > 0 {
      var rest := Tokens(cc, s[t.len..]);
      TokensAreFirst(cc, s[t.len..], i - 1);
      assert ([t] + rest)[1..] == rest && ([t] + rest)[i] == rest[i - 1];
      var at := Start(Tokens(cc, s[t.len..]), i - 1);
      Dropped(s, t.len, at);
    } else {
      assert s[0..] == s;
    }
  }
}
