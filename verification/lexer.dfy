/** The lexer: a cursor over the characters still to be read, advanced in place. */
module Lexer {
  import opened Values
  import opened LexerSpec

  class Cursor {
    const cc: Classes
    /** The characters not read yet. */
    var chars: string
    /** How many characters were left when the current token began. */
    var initialLen: nat

    constructor (cc: Classes, input: string)
      ensures this.cc == cc && chars == input && initialLen == |input|
    {
      this.cc := cc;
      chars, initialLen := input, |input|;
    }

    predicate Valid()
      reads this
    {
      |chars| <= initialLen
    }

    function LenConsumed(): nat
      requires Valid()
      reads this
    {
      initialLen - |chars|
    }

    /** The cursor has moved `n` characters on from `before`. */
    ghost predicate At(before: string, n: nat)
      reads this
    {
      n <= |before| && chars == before[n..]
    }

    method ResetLenConsumed()
      modifies this`initialLen
      ensures Valid() && LenConsumed() == 0
    {
      initialLen := |chars|;
    }

    method Bump() returns (c: char)
      requires Valid()
      modifies this`chars
      ensures Valid() && c == Peek(old(chars))
      ensures At(old(chars), if old(chars) == [] then 0 else 1)
    {
      c := Peek(chars);
      if chars != [] {
        chars := chars[1..];
      }
    }

    method EatWhile(p: char -> bool)
      requires Valid()
      modifies this`chars
      ensures Valid() && At(old(chars), Span(old(chars), p))
    {
      ghost var n := 0;
      while p(Peek(chars)) && chars != []
        invariant Valid() && At(old(chars), n)
        invariant n + Span(chars, p) == Span(old(chars), p)
        decreases |chars|
      {
        chars := chars[1..];
        n := n + 1;
      }
    }

    method EatDecimalDigits() returns (hasDigits: bool)
      requires Valid()
      modifies this`chars
      ensures Valid()
      ensures var n := Span(old(chars), IsDecimalChar);
        At(old(chars), n) && hasDigits == HasDigit(old(chars)[..n])
    {
      hasDigits := EatDigits(IsDecimalChar);
    }

    /** The digit loop: underscores are skipped and do not count. */
    method EatDigits(p: char -> bool) returns (hasDigits: bool)
      requires Valid()
      modifies this`chars
      ensures Valid()
      ensures var n := Span(old(chars), p); At(old(chars), n) && hasDigits == HasDigit(old(chars)[..n])
    {
      hasDigits := false;
      ghost var n := 0;
      while chars != [] && p(chars[0])
        invariant Valid() && At(old(chars), n)
        invariant n + Span(chars, p) == Span(old(chars), p)
        invariant hasDigits == HasDigit(old(chars)[..n])
        decreases |chars|
      {
        assert old(chars)[..n + 1] == old(chars)[..n] + [chars[0]];
        MoreDigits(old(chars)[..n], chars[0]);
        if chars[0] != '_' {
          hasDigits := true;
        }
        chars := chars[1..];
        n := n + 1;
      }
    }

    /** Eats the exponent after its letter. */
    method EatFloatExponent() returns (hasDigits: bool)
      requires Valid()
      modifies this`chars
      ensures Valid()
      ensures
        var m := if Peek(old(chars)) in {'-', '+'} then 1 else 0;
        var n := Span(old(chars)[m..], IsDecimalChar);
        At(old(chars), m + n) && hasDigits == HasDigit(old(chars)[m..m + n])
    {
      ghost var m := if Peek(old(chars)) in {'-', '+'} then 1 else 0;
      if Peek(chars) == '-' || Peek(chars) == '+' {
        chars := chars[1..];
      }
      ghost var s := chars;
      hasDigits := EatDecimalDigits();
      assert s[..Span(s, IsDecimalChar)] == old(chars)[m..m + Span(s, IsDecimalChar)];
    }

    /** A number whose first digit has been read. */
    method EatNumber(first: char) returns (kind: LiteralKind)
      requires Valid()
      modifies this`chars
      ensures Valid()
      ensures var r := Number(cc, first, old(chars)); At(old(chars), r.n) && kind == r.kind
    {
      ghost var s := chars;
      if first == '0' {
        var c := Peek(chars);
        if c == 'b' {
          kind := EatPrefixed(Binary, IsDecimalChar);
        } else if c == 'o' || IsDigit(c) {
          kind := EatPrefixed(Octal, IsDecimalChar);
        } else if c == 'x' {
          kind := EatPrefixed(Hexadecimal, IsHexChar);
        } else if c in {'_', '.', 'e', 'E'} {
          kind := EatDecimal();
        } else {
          kind := IntLit(Decimal, false);
        }
      } else {
        kind := EatDecimal();
      }
    }

    /** A decimal number after its first digit. */
    method EatDecimal() returns (kind: LiteralKind)
      requires Valid()
      modifies this`chars
      ensures Valid()
      ensures
        var r := Fraction(cc, old(chars), Decimal, Span(old(chars), IsDecimalChar));
        At(old(chars), r.n) && kind == r.kind
    {
      ghost var s := chars;
      assert s[0..] == s;
      SkipDecimals(s, 0);
      kind := EatFraction(Decimal, s, Span(s, IsDecimalChar));
    }

    /** A base prefix, the digits after it, and what may follow them. */
    method EatPrefixed(base: Base, digit: char -> bool) returns (kind: LiteralKind)
      requires Valid() && chars != []
      modifies this`chars
      ensures Valid()
      ensures
        var r := Prefixed(cc, old(chars), base, 1 + Span(old(chars)[1..], digit));
        At(old(chars), r.n) && kind == r.kind
    {
      ghost var s := chars;
      chars := chars[1..];
      var hasDigits := EatDigits(digit);
      ghost var n := 1 + Span(s[1..], digit);
      assert s[1..n] == s[1..][..n - 1];
      assert At(s, n);
      if hasDigits {
        kind := EatFraction(base, s, n);
      } else {
        kind := IntLit(base, true);
      }
    }

    method EatFraction(base: Base, ghost s: string, ghost n: nat) returns (kind: LiteralKind)
      requires Valid() && At(s, n)
      modifies this`chars
      ensures Valid()
      ensures var r := Fraction(cc, s, base, n); At(s, r.n) && kind == r.kind
    {
      if Peek(chars) == '.' && Peek1(chars) != '.' && !IsIdStart(cc, Peek1(chars)) {
        Dropped(s, n, 1);
        chars := chars[1..];
        if IsDigit(Peek(chars)) {
          SkipDecimals(s, n + 1);
          kind := EatFractionEnd(base, s, n + 1 + Span(s[n + 1..], IsDecimalChar));
        } else {
          kind := FloatLit(base, false);
        }
      } else if Peek(chars) == 'e' || Peek(chars) == 'E' {
        Dropped(s, n, 1);
        chars := chars[1..];
        kind := EatExponent(base, s, n + 1);
      } else {
        kind := IntLit(base, false);
      }
    }

    /** Digits whose presence is already known or does not matter. */
    method SkipDecimals(ghost s: string, ghost n: nat)
      requires Valid() && At(s, n)
      modifies this`chars
      ensures Valid() && At(s, n + Span(s[n..], IsDecimalChar))
    {
      var _ := EatDecimalDigits();
      Dropped(s, n, Span(s[n..], IsDecimalChar));
    }

    /** The end of a fraction: an exponent if there is one. */
    method EatFractionEnd(base: Base, ghost s: string, ghost m: nat) returns (kind: LiteralKind)
      requires Valid() && At(s, m)
      modifies this`chars
      ensures Valid()
      ensures var r := FractionEnd(s, base, m); At(s, r.n) && kind == r.kind
    {
      if Peek(chars) == 'e' || Peek(chars) == 'E' {
        Dropped(s, m, 1);
        chars := chars[1..];
        kind := EatExponent(base, s, m + 1);
      } else {
        kind := FloatLit(base, false);
      }
    }

    method EatExponent(base: Base, ghost s: string, ghost m: nat) returns (kind: LiteralKind)
      requires Valid() && At(s, m)
      modifies this`chars
      ensures Valid()
      ensures var r := Exponent(s, base, m); At(s, r.n) && kind == r.kind
    {
      ghost var t := chars;
      var hasDigits := EatFloatExponent();
      kind := FloatLit(base, !hasDigits);
      ghost var d := if Peek(t) in {'-', '+'} then 1 else 0;
      ghost var n := Span(t[d..], IsDecimalChar);
      assert t[d..] == s[m + d..] && t[d..d + n] == s[m + d..m + d + n];
    }

    method EatLitSuffix()
      requires Valid()
      modifies this`chars
      ensures Valid() && At(old(chars), LitSuffix(cc, old(chars)))
    {
      if !IsIdStart(cc, Peek(chars)) {
        return;
      }
      chars := chars[1..];
      EatWhile(c => IsIdContinue(cc, c));
    }

    method EatQuotedString(quote: char) returns (kind: TokenKind)
      requires Valid() && quote in {'\'', '\"'}
      modifies this`chars
      ensures Valid()
      ensures
        var t := StringToken(quote, old(chars), old(LenConsumed()));
        At(old(chars), t.len - old(LenConsumed())) && kind == t.kind
    {
      ghost var s := chars;
      var triple := quote == Peek(chars) && quote == Peek1(chars);
      if triple {
        chars := chars[2..];
      }
      ghost var skip := if triple then 2 else 0;
      ghost var r := ScanString(quote, triple, s[skip..]);
      var closed := ScanToClose(quote, triple);
      Dropped(s, skip, r.n);
      kind := Literal(StrLit(closed, closed && triple), LenConsumed());
    }

    /** Scans to the closing quote, or to where an unclosed string gives up. */
    method ScanToClose(quote: char, triple: bool) returns (closed: bool)
      requires Valid() && quote in {'\'', '\"'}
      modifies this`chars
      ensures Valid()
      ensures var r := ScanString(quote, triple, old(chars)); At(old(chars), r.n) && closed == r.closed
    {
      ghost var s, n := chars, 0;
      ghost var whole := ScanString(quote, triple, s);
      while chars != []
        invariant Valid() && At(s, n)
        invariant n <= whole.n && ScanString(quote, triple, chars) == Quoted(whole.closed, whole.n - n)
        decreases |chars|
      {
        var c := chars[0];
        chars := chars[1..];
        n := n + 1;
        if c == '\\' && (Peek(chars) == '\\' || Peek(chars) == quote) {
          chars := chars[1..];
          n := n + 1;
        } else if c == quote {
          if triple {
            if quote == Peek(chars) && quote == Peek1(chars) {
              chars := chars[2..];
              return true;
            }
          } else {
            return true;
          }
        } else if !triple && Peek(chars) in {'\r', '\n', EOF} {
          return false;
        }
      }
      closed := false;
    }

    method EatIdent() returns (kind: TokenKind)
      requires Valid()
      modifies this`chars
      ensures Valid()
      ensures var t := IdentToken(cc, old(chars)); At(old(chars), t.len - 1) && kind == t.kind
    {
      EatWhile(c => IsIdContinue(cc, c));
      if IsEmoji(cc, Peek(chars)) {
        EatWhile(c => IsFakeIdent(cc, c));
        kind := InvalidIdent;
      } else {
        kind := Ident;
      }
    }

    method EatIfEq(sign: Sign) returns (kind: TokenKind)
      requires Valid()
      modifies this`chars
      ensures Valid()
      ensures kind == (if Peek(old(chars)) == '=' then sign.eq else sign.plain)
      ensures At(old(chars), if Peek(old(chars)) == '=' then 1 else 0)
    {
      if Peek(chars) == '=' {
        chars := chars[1..];
        kind := sign.eq;
      } else {
        kind := sign.plain;
      }
    }

    method EatPunct(c: char) returns (kind: TokenKind)
      requires Valid()
      modifies this`chars
      ensures Valid()
      ensures var t := PunctToken(cc, c, old(chars)); At(old(chars), t.len - 1) && kind == t.kind
    {
      match Delimiter(c)
      case Some(k) => kind := k;
      case None => kind := EatOperator(c);
    }

    method EatDots() returns (kind: TokenKind)
      requires Valid()
      modifies this`chars
      ensures Valid()
      ensures var t := DotToken(old(chars)); At(old(chars), t.len - 1) && kind == t.kind
    {
      if Peek(chars) == '.' && Peek1(chars) == '.' {
        chars := chars[2..];
        kind := DotDotDot;
      } else {
        kind := Dot;
      }
    }

    method EatBackslash() returns (kind: TokenKind)
      requires Valid()
      modifies this`chars
      ensures Valid()
      ensures var t := BackslashToken(old(chars)); At(old(chars), t.len - 1) && kind == t.kind
    {
      if Peek(chars) == '\n' {
        chars := chars[1..];
        kind := LineContinue;
      } else if Peek(chars) == EOF {
        kind := LineContinue;
      } else {
        kind := InvalidLineContinue;
      }
    }

    method EatOperator(c: char) returns (kind: TokenKind)
      requires Valid()
      modifies this`chars
      ensures Valid()
      ensures var t := OperatorToken(cc, c, old(chars)); At(old(chars), t.len - 1) && kind == t.kind
    {
      var sign := SingleSign(c);
      if sign.Some? {
        kind := EatSign(c, sign.value, DoubleSign(c));
      } else if c == '.' {
        kind := EatDots();
      } else if c == '\\' {
        kind := EatBackslash();
      } else {
        kind := EatStray(c);
      }
    }

    method EatStray(c: char) returns (kind: TokenKind)
      requires Valid()
      modifies this`chars
      ensures Valid()
      ensures var t := StrayToken(cc, c, old(chars)); At(old(chars), t.len - 1) && kind == t.kind
    {
      if IsEmoji(cc, c) {
        EatWhile(d => IsFakeIdent(cc, d));
        kind := InvalidIdent;
      } else {
        kind := Unknown;
      }
    }

    /** An operator sign, possibly doubled, possibly followed by `=`. */
    method EatSign(c: char, sign: Sign, double: Option<Sign>) returns (kind: TokenKind)
      requires Valid()
      modifies this`chars
      ensures Valid()
      ensures var t := SignToken(c, old(chars), sign, double); At(old(chars), t.len - 1) && kind == t.kind
    {
      if double.Some? && Peek(chars) == c && chars != [] {
        kind := EatSecond(double.value);
      } else {
        kind := EatIfEq(sign);
      }
    }

    /** The second of two equal signs, possibly followed by `=`. */
    method EatSecond(sign: Sign) returns (kind: TokenKind)
      requires Valid() && chars != []
      modifies this`chars
      ensures Valid()
      ensures
        var t := WithEq(old(chars)[1..], 2, sign);
        t.len - 1 <= |old(chars)| && At(old(chars), t.len - 1) && kind == t.kind
    {
      ghost var s := chars;
      ghost var n := if Peek(s[1..]) == '=' then 1 else 0;
      chars := chars[1..];
      kind := EatIfEq(sign);
      assert n <= |s[1..]|;
      Dropped(s, 1, n);
    }

    /** A number and its suffix. */
    method EatNumberToken(c: char) returns (kind: TokenKind)
      requires Valid() && LenConsumed() == 1
      modifies this`chars
      ensures Valid()
      ensures var t := NumberToken(cc, c, old(chars)); At(old(chars), t.len - 1) && kind == t.kind
    {
      ghost var s := chars;
      var literal := EatNumber(c);
      ghost var n := Number(cc, c, s).n;
      var suffixStart := LenConsumed();
      EatLitSuffix();
      Dropped(s, n, LitSuffix(cc, s[n..]));
      kind := Literal(literal, suffixStart);
    }

    /** A string after its prefix letter. */
    method EatRawString() returns (kind: TokenKind)
      requires Valid() && LenConsumed() == 1 && chars != [] && IsQuote(chars[0])
      modifies this`chars
      ensures Valid()
      ensures var t := StringToken(old(chars)[0], old(chars)[1..], 2); At(old(chars), t.len - 1) && kind == t.kind
    {
      ghost var s := chars;
      var quote := Bump();
      kind := EatQuotedString(quote);
      Dropped(s, 1, |s| - 1 - |chars|);
    }

    /** Reads one token. */
    method NextToken() returns (t: Token)
      requires Valid() && LenConsumed() == 0 && chars != []
      modifies this`chars
      ensures Valid() && t == FirstToken(cc, old(chars)) && At(old(chars), t.len)
    {
      ghost var s := chars;
      var c := Bump();
      assert chars == s[1..];
      var kind := TokenAfter(c);
      ghost var n := |s| - 1 - |chars|;
      Dropped(s, 1, n);
      t := Token(kind, LenConsumed());
    }

    /** The rest of a token whose first character has been read. */
    method TokenAfter(c: char) returns (kind: TokenKind)
      requires Valid() && LenConsumed() == 1
      modifies this`chars
      ensures Valid()
      ensures var t := TokenFrom(cc, c, old(chars)); At(old(chars), t.len - 1) && kind == t.kind
    {
      if c == '#' {
        EatWhile(d => d != '\n');
        kind := LineComment;
      } else if IsWhitespace(c) {
        kind := Whitespace;
      } else if c in {'r', 'R'} && IsQuote(Peek(chars)) {
        kind := EatRawString();
      } else if IsQuote(c) {
        kind := EatQuotedString(c);
      } else if IsIdStart(cc, if c == '$' then Peek(chars) else c) {
        kind := EatIdent();
      } else if IsDigit(c) {
        kind := EatNumberToken(c);
      } else {
        kind := EatPunct(c);
      }
    }
  }

  lemma {:induction false} MoreDigits(s: string, c: char)
    ensures HasDigit(s + [c]) <==> HasDigit(s) || c != '_'
  {
    assert (s + [c])[..|s|] == s;
  }

  /** The token loop: it ends on every input and yields exactly the tokens of the text. */
  method Tokenize(cc: Classes, input: string) returns (tokens: seq<Token>)
    ensures tokens == Tokens(cc, input)
  {
    var cursor := new Cursor(cc, input);
    tokens := [];
    while cursor.chars != []
      invariant cursor.Valid() && cursor.cc == cc
      invariant tokens + Tokens(cc, cursor.chars) == Tokens(cc, input)
      decreases |cursor.chars|
    {
      cursor.ResetLenConsumed();
      var t := cursor.NextToken();
      tokens := tokens + [t];
    }
  }
}
