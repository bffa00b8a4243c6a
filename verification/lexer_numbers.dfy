/** Number literals, from their characters: which base a literal has, whether it is empty, and when it is a float. */
module LexerNumbers {
  import L = LexerSpec
  import opened LexerTokens

  predicate Digit(c: char) { '0' <= c <= '9' }

  predicate DecimalChar(c: char) { Digit(c) || c == '_' }

  predicate HexChar(c: char) { Digit(c) || 'a' <= c <= 'f' || 'A' <= c <= 'F' || c == '_' }

  predicate Word(c: char) { Digit(c) || 'a' <= c <= 'z' || 'A' <= c <= 'Z' || c == '_' }

  predicate Decimals(s: string) { forall i :: 0 <= i < |s| ==> DecimalChar(s[i]) }

  predicate Hexes(s: string) { forall i :: 0 <= i < |s| ==> HexChar(s[i]) }

  /** The digits of a base, as the lexer takes them: it leaves wrong digits to the parser. */
  predicate DigitsOf(s: string, base: L.Base) {
    if base.Hexadecimal? then Hexes(s) else Decimals(s)
  }

  predicate SomeDigit(s: string) { exists i :: 0 <= i < |s| && s[i] != '_' }

  /** A text that cannot go on with a number: it begins with no dot, no digit and no letter. */
  predicate CannotExtend(rest: string) {
    rest != [] ==> rest[0] < '\U{80}' && !Word(rest[0]) && rest[0] != '.'
  }

  lemma {:induction false} HasDigitIff(s: string)
    ensures L.HasDigit(s) <==> SomeDigit(s)
  {
    if s != [] {
      var k := |s| - 1;
      HasDigitIff(s[..k]);
      if SomeDigit(s) && s[k] == '_' {
        var i :| 0 <= i < |s| && s[i] != '_';
        assert s[..k][i] == s[i];
      }
    }
  }

  lemma {:induction false} DigitSpan(s: string, base: L.Base, tail: string)
    requires DigitsOf(s, base)
    requires tail != [] ==> !(if base.Hexadecimal? then HexChar(tail[0]) else DecimalChar(tail[0]))
    ensures L.Span(s + tail, if base.Hexadecimal? then L.IsHexChar else L.IsDecimalChar) == |s|
  {
    SpanPrefix(s, tail, if base.Hexadecimal? then L.IsHexChar else L.IsDecimalChar);
  }

  // ---- the integer part ----

  /** The letter of a base prefix, or a digit: a leading zero makes a number octal. */
  predicate Marks(c: char, base: L.Base) {
    match base
    case Binary => c == 'b'
    case Octal => c == 'o' || Digit(c)
    case Hexadecimal => c == 'x'
    case Decimal => false
  }

  /** A base prefix without its zero, or a digit behind a leading zero, and digits. */
  predicate IsPrefixed(ip: string, base: L.Base) {
    ip != [] && Marks(ip[0], base) && DigitsOf(ip[1..], base)
  }

  lemma {:induction false} PrefixScan(cc: L.Classes, ip: string, base: L.Base, tail: string)
    requires IsPrefixed(ip, base)
    requires tail != [] ==> !(if base.Hexadecimal? then HexChar(tail[0]) else DecimalChar(tail[0]))
    ensures L.Number(cc, '0', ip + tail) ==
      if SomeDigit(ip[1..]) then L.Fraction(cc, ip + tail, base, |ip|) else L.Scan(L.IntLit(base, true), |ip|)
  {
    assert (ip + tail)[1..] == ip[1..] + tail && (ip + tail)[1..|ip|] == ip[1..];
    DigitSpan(ip[1..], base, tail);
    HasDigitIff(ip[1..]);
  }

  /** What may follow a decimal integer part `d` and `ds` so that it ends there. */
  predicate EndsDecimal(d: char, ds: string, tail: string) {
    tail != [] ==> !DecimalChar(tail[0]) && (d == '0' && ds == [] ==> tail[0] !in {'b', 'o', 'x'})
  }

  predicate Continues(c: char) { c == '.' || c == 'e' || c == 'E' }

  /** A decimal integer part: no zero stands first, unless alone or before an underscore. */
  predicate IsDecimal(d: char, ds: string) {
    Digit(d) && Decimals(ds) && (d == '0' && ds != [] ==> ds[0] == '_')
  }

  lemma {:induction false} DecimalScan(cc: L.Classes, d: char, ds: string, tail: string)
    requires IsDecimal(d, ds) && EndsDecimal(d, ds, tail)
    ensures
      L.Number(cc, d, ds + tail) ==
        if d == '0' && ds == [] && (tail == [] || !Continues(tail[0])) then L.Scan(L.IntLit(L.Decimal, false), 0)
        else L.Fraction(cc, ds + tail, L.Decimal, |ds|)
  {
    DigitSpan(ds, L.Decimal, tail);
    if ds == [] {
      assert ds + tail == tail;
    }
  }

  // ---- what may follow it ----

  lemma {:induction false} NoFraction(cc: L.Classes, s: string, base: L.Base, n: nat)
    requires n <= |s| && CannotExtend(s[n..])
    ensures L.Fraction(cc, s, base, n) == L.Scan(L.IntLit(base, false), n)
  {
  }

  /** The digits of a fraction: none, or a digit first. */
  predicate IsFraction(fr: string) { Decimals(fr) && (fr != [] ==> Digit(fr[0])) }

  lemma {:induction false} DotAlone(cc: L.Classes, s: string, base: L.Base, n: nat, rest: string)
    requires n <= |s| && s[n..] == "." + rest && CannotExtend(rest)
    ensures L.Fraction(cc, s, base, n) == L.Scan(L.FloatLit(base, false), n + 1)
  {
    assert s[n..][1..] == rest;
    L.Dropped(s, n, 1);
  }

  lemma {:induction false} DotFirst(cc: L.Classes, s: string, base: L.Base, n: nat, fr: string, after: string)
    requires n <= |s| && s[n..] == "." + (fr + after) && IsFraction(fr) && fr != []
    requires after != [] ==> !DecimalChar(after[0])
    ensures n + 1 + |fr| <= |s| && L.Fraction(cc, s, base, n) == L.FractionEnd(s, base, n + 1 + |fr|)
  {
    Dropped2(s, n, ".", fr, after);
    DigitSpan(fr, L.Decimal, after);
    assert s[n..][1] == fr[0];
  }

  predicate IsSign(sign: string) { sign == "" || sign == "+" || sign == "-" }

  lemma {:induction false} Dropped2(s: string, m: nat, a: string, b: string, rest: string)
    requires m <= |s| && s[m..] == a + (b + rest)
    ensures m + |a| + |b| <= |s| && s[m + |a|..] == b + rest && s[m + |a|..m + |a| + |b|] == b
    ensures s[m + |a| + |b|..] == rest
  {
    var t := s[m..];
    assert t[|a|..] == b + rest;
    L.Dropped(s, m, |a|);
    assert s[m + |a|..][..|b|] == b && s[m + |a|..][|b|..] == rest;
    L.Dropped(s, m + |a|, |b|);
  }

  lemma {:induction false} ExponentScan(s: string, base: L.Base, m: nat, sign: string, ex: string, rest: string)
    requires m <= |s| && s[m..] == sign + (ex + rest) && IsSign(sign) && Decimals(ex) && CannotExtend(rest)
    requires sign == "" && ex == "" && rest != [] ==> rest[0] !in {'+', '-'}
    ensures L.Exponent(s, base, m) == L.Scan(L.FloatLit(base, !SomeDigit(ex)), m + |sign| + |ex|)
    ensures m + |sign| + |ex| <= |s| && s[m + |sign| + |ex|..] == rest
  {
    Dropped2(s, m, sign, ex, rest);
    SignSkipped(sign, ex, rest);
    DigitSpan(ex, L.Decimal, rest);
    HasDigitIff(ex);
  }

  lemma {:induction false} SignSkipped(sign: string, ex: string, rest: string)
    requires IsSign(sign) && Decimals(ex)
    requires sign == "" && ex == "" && rest != [] ==> rest[0] !in {'+', '-'}
    ensures L.Peek(sign + (ex + rest)) in {'-', '+'} <==> sign != ""
  {
    if sign == "" {
      assert sign + (ex + rest) == ex + rest;
      assert ex == "" ==> ex + rest == rest;
    }
  }

  predicate IsE(e: char) { e == 'e' || e == 'E' }

  /** A dot and digits, or a dot alone, behind an integer part. */
  lemma {:induction false} FractionIs(cc: L.Classes, s: string, base: L.Base, n: nat, fr: string, rest: string)
    requires n <= |s| && s[n..] == "." + (fr + rest) && IsFraction(fr) && CannotExtend(rest)
    ensures n + 1 + |fr| <= |s| && s[n + 1 + |fr|..] == rest
    ensures L.Fraction(cc, s, base, n) == L.Scan(L.FloatLit(base, false), n + 1 + |fr|)
  {
    Dropped2(s, n, ".", fr, rest);
    if fr == [] {
      assert fr + rest == rest;
      DotAlone(cc, s, base, n, rest);
    } else {
      DotFirst(cc, s, base, n, fr, rest);
    }
  }

  /** An exponent behind it. */
  lemma {:induction false} ExponentIs(
    cc: L.Classes, s: string, base: L.Base, n: nat, e: char, sign: string, ex: string, rest: string)
    requires n <= |s| && s[n..] == [e] + (sign + (ex + rest)) && IsE(e)
    requires IsSign(sign) && Decimals(ex) && CannotExtend(rest)
    requires sign == "" && ex == "" && rest != [] ==> rest[0] !in {'+', '-'}
    ensures n + 1 + |sign| + |ex| <= |s| && s[n + 1 + |sign| + |ex|..] == rest
    ensures L.Fraction(cc, s, base, n) == L.Scan(L.FloatLit(base, !SomeDigit(ex)), n + 1 + |sign| + |ex|)
  {
    assert s[n..][1..] == sign + (ex + rest);
    L.Dropped(s, n, 1);
    ExponentScan(s, base, n + 1, sign, ex, rest);
  }

  lemma {:induction false} LetterEnds(s: string, base: L.Base, m: nat, e: char, end: string)
    requires m <= |s| && s[m..] == [e] + end && IsE(e)
    ensures m + 1 <= |s| && s[m + 1..] == end && L.FractionEnd(s, base, m) == L.Exponent(s, base, m + 1)
  {
    assert s[m..][1..] == end;
    L.Dropped(s, m, 1);
  }

  /** An exponent behind a fraction. */
  lemma {:induction false} FractionExponentIs(
    cc: L.Classes, s: string, base: L.Base, n: nat, fr: string, e: char, sign: string, ex: string, rest: string)
    requires n <= |s| && s[n..] == "." + (fr + ([e] + (sign + (ex + rest)))) && IsFraction(fr) && fr != "" && IsE(e)
    requires IsSign(sign) && Decimals(ex) && CannotExtend(rest)
    requires sign == "" && ex == "" && rest != [] ==> rest[0] !in {'+', '-'}
    ensures n + 2 + |fr| + |sign| + |ex| <= |s| && s[n + 2 + |fr| + |sign| + |ex|..] == rest
    ensures L.Fraction(cc, s, base, n) == L.Scan(L.FloatLit(base, !SomeDigit(ex)), n + 2 + |fr| + |sign| + |ex|)
  {
    FractionTail(s, n, fr, e, sign + (ex + rest));
    ExponentScan(s, base, n + 2 + |fr|, sign, ex, rest);
    FractionToExponent(cc, s, base, n, fr, e, sign + (ex + rest),
                       L.Scan(L.FloatLit(base, !SomeDigit(ex)), n + 2 + |fr| + |sign| + |ex|));
  }

  lemma {:induction false} FractionTail(s: string, n: nat, fr: string, e: char, end: string)
    requires n <= |s| && s[n..] == "." + (fr + ([e] + end))
    ensures n + 2 + |fr| <= |s| && s[n + 2 + |fr|..] == end
  {
    Dropped2(s, n, ".", fr, [e] + end);
    var m := n + 1 + |fr|;
    assert s[m..][1..] == end;
    L.Dropped(s, m, 1);
  }

  lemma {:induction false} FractionToExponent(
    cc: L.Classes, s: string, base: L.Base, n: nat, fr: string, e: char, end: string, r: L.Scan)
    requires n <= |s| && s[n..] == "." + (fr + ([e] + end)) && IsFraction(fr) && fr != "" && IsE(e)
    requires n + 2 + |fr| <= |s| && L.Exponent(s, base, n + 2 + |fr|) == r
    ensures L.Fraction(cc, s, base, n) == r
  {
    Dropped2(s, n, ".", fr, [e] + end);
    DotFirst(cc, s, base, n, fr, [e] + end);
    LetterEnds(s, base, n + 1 + |fr|, e, end);
  }

  // ---- whole literals ----

  /** A literal of this kind and length stands at the beginning of a text. */
  predicate IsLiteral(cc: L.Classes, text: string, kind: L.LiteralKind, len: nat) {
    text != [] && L.FirstToken(cc, text) == L.Token(L.Literal(kind, len), len)
  }

  lemma {:induction false} NoSuffix(cc: L.Classes, rest: string)
    requires CannotExtend(rest)
    ensures L.LitSuffix(cc, rest) == 0
  {
  }

  lemma {:induction false} TokenOf(cc: L.Classes, first: char, s: string, kind: L.LiteralKind, n: nat)
    requires L.Number(cc, first, s) == L.Scan(kind, n) && n <= |s| && CannotExtend(s[n..])
    ensures L.NumberToken(cc, first, s) == L.Token(L.Literal(kind, 1 + n), 1 + n)
  {
    NoSuffix(cc, s[n..]);
  }

  lemma {:induction false} LiteralOf(cc: L.Classes, first: char, s: string, kind: L.LiteralKind, len: nat)
    requires Digit(first) && L.NumberToken(cc, first, s) == L.Token(L.Literal(kind, len), len)
    ensures IsLiteral(cc, [first] + s, kind, len)
  {
    DigitFirst(cc, first, s);
  }

  /**
   * A base prefix and its digits are one literal of that base, empty exactly when no digit stands among them; so is a
   * leading zero, whose next digit counts as part of the prefix.
   */
  lemma {:induction false} PrefixedLiteral(cc: L.Classes, ip: string, base: L.Base, rest: string)
    requires IsPrefixed(ip, base) && CannotExtend(rest)
    ensures IsLiteral(cc, ['0'] + (ip + rest), L.IntLit(base, !SomeDigit(ip[1..])), 1 + |ip|)
  {
    PrefixScan(cc, ip, base, rest);
    assert (ip + rest)[|ip|..] == rest;
    if SomeDigit(ip[1..]) {
      NoFraction(cc, ip + rest, base, |ip|);
    }
    TokenOf(cc, '0', ip + rest, L.IntLit(base, !SomeDigit(ip[1..])), |ip|);
    LiteralOf(cc, '0', ip + rest, L.IntLit(base, !SomeDigit(ip[1..])), 1 + |ip|);
  }

  lemma {:induction false} DecimalLiteral(cc: L.Classes, d: char, ds: string, rest: string)
    requires IsDecimal(d, ds) && CannotExtend(rest)
    ensures IsLiteral(cc, [d] + (ds + rest), L.IntLit(L.Decimal, false), 1 + |ds|)
  {
    assert (ds + rest)[|ds|..] == rest;
    DecimalScan(cc, d, ds, rest);
    NoFraction(cc, ds + rest, L.Decimal, |ds|);
    TokenOf(cc, d, ds + rest, L.IntLit(L.Decimal, false), |ds|);
    LiteralOf(cc, d, ds + rest, L.IntLit(L.Decimal, false), 1 + |ds|);
  }

  // ---- floats ----

  lemma {:induction false} Behind(a: string, tail: string, n: nat)
    requires n <= |tail|
    ensures (a + tail)[|a|..] == tail && (a + tail)[|a| + n..] == tail[n..]
  {
    assert (a + tail)[|a|..] == tail;
    L.Dropped(a + tail, |a|, n);
  }

  lemma {:induction false} FractionEnds(fr: string, rest: string)
    ensures var tail := "." + (fr + rest); 1 + |fr| <= |tail| && tail[1 + |fr|..] == rest
  {
    Dropped2("." + (fr + rest), 0, ".", fr, rest);
  }

  lemma {:induction false} ExponentEnds(e: char, sign: string, ex: string, rest: string)
    ensures
      var tail := [e] + (sign + (ex + rest));
      1 + |sign| + |ex| <= |tail| && tail[1 + |sign| + |ex|..] == rest
  {
    var tail := [e] + (sign + (ex + rest));
    assert tail[1..] == sign + (ex + rest);
    Dropped2(tail, 1, sign, ex, rest);
  }

  lemma {:induction false} FractionExponentEnds(fr: string, e: char, sign: string, ex: string, rest: string)
    ensures
      var tail := "." + (fr + ([e] + (sign + (ex + rest))));
      2 + |fr| + |sign| + |ex| <= |tail| && tail[2 + |fr| + |sign| + |ex|..] == rest
  {
    var after := [e] + (sign + (ex + rest));
    var tail := "." + (fr + after);
    Dropped2(tail, 0, ".", fr, after);
    ExponentEnds(e, sign, ex, rest);
    L.Dropped(tail, 1 + |fr|, 1 + |sign| + |ex|);
  }

  /** What follows a scanned integer part of any base and takes `n` characters of `tail`. */
  lemma {:induction false} FloatToken(
    cc: L.Classes, first: char, ip: string, base: L.Base, tail: string, empty: bool, n: nat)
    requires Integer(cc, first, ip, base, tail) && n <= |tail| && CannotExtend(tail[n..])
    requires L.Fraction(cc, ip + tail, base, |ip|) == L.Scan(L.FloatLit(base, empty), |ip| + n)
    ensures L.NumberToken(cc, first, ip + tail) ==
      L.Token(L.Literal(L.FloatLit(base, empty), 1 + |ip| + n), 1 + |ip| + n)
  {
    Behind(ip, tail, n);
    TokenOf(cc, first, ip + tail, L.FloatLit(base, empty), |ip| + n);
  }

  /** A scanned integer part of some base. */
  ghost predicate Integer(cc: L.Classes, first: char, ip: string, base: L.Base, tail: string) {
    Digit(first) && L.Number(cc, first, ip + tail) == L.Fraction(cc, ip + tail, base, |ip|)
  }

  lemma {:induction false} DecimalInteger(cc: L.Classes, d: char, ds: string, tail: string)
    requires IsDecimal(d, ds) && tail != [] && Continues(tail[0])
    ensures Integer(cc, d, ds, L.Decimal, tail)
  {
    DecimalScan(cc, d, ds, tail);
  }

  lemma {:induction false} PrefixedInteger(cc: L.Classes, ip: string, base: L.Base, tail: string)
    requires IsPrefixed(ip, base) && SomeDigit(ip[1..]) && tail != [] && Continues(tail[0])
    requires base.Hexadecimal? ==> tail[0] == '.'
    ensures Integer(cc, '0', ip, base, tail)
  {
    PrefixScan(cc, ip, base, tail);
  }

  lemma {:induction false} FractionToken(
    cc: L.Classes, first: char, ip: string, base: L.Base, fr: string, rest: string)
    requires Integer(cc, first, ip, base, "." + (fr + rest)) && IsFraction(fr) && CannotExtend(rest)
    ensures L.NumberToken(cc, first, ip + ("." + (fr + rest))) ==
      L.Token(L.Literal(L.FloatLit(base, false), 1 + |ip| + (1 + |fr|)), 1 + |ip| + (1 + |fr|))
  {
    var tail := "." + (fr + rest);
    FirstBehind(ip, tail);
    FractionIs(cc, ip + tail, base, |ip|, fr, rest);
    FractionEnds(fr, rest);
    FloatToken(cc, first, ip, base, tail, false, 1 + |fr|);
  }

  /** An integer part, a dot and digits, or a dot alone, are one float literal. */
  lemma {:induction false} FractionLiteral(
    cc: L.Classes, first: char, ip: string, base: L.Base, fr: string, rest: string)
    requires Integer(cc, first, ip, base, "." + (fr + rest)) && IsFraction(fr) && CannotExtend(rest)
    ensures IsLiteral(cc, [first] + (ip + ("." + (fr + rest))), L.FloatLit(base, false), 1 + |ip| + (1 + |fr|))
  {
    FractionToken(cc, first, ip, base, fr, rest);
    LiteralOf(cc, first, ip + ("." + (fr + rest)), L.FloatLit(base, false), 1 + |ip| + (1 + |fr|));
  }

  lemma {:induction false} ExponentToken(
    cc: L.Classes, first: char, ip: string, base: L.Base, e: char, sign: string, ex: string, rest: string)
    requires Integer(cc, first, ip, base, [e] + (sign + (ex + rest)))
    requires IsE(e) && IsSign(sign) && Decimals(ex) && CannotExtend(rest)
    requires sign == "" && ex == "" && rest != [] ==> rest[0] !in {'+', '-'}
    ensures
      var len := 1 + |ip| + (1 + |sign| + |ex|);
      L.NumberToken(cc, first, ip + ([e] + (sign + (ex + rest)))) ==
        L.Token(L.Literal(L.FloatLit(base, !SomeDigit(ex)), len), len)
  {
    var tail := [e] + (sign + (ex + rest));
    FirstBehind(ip, tail);
    ExponentIs(cc, ip + tail, base, |ip|, e, sign, ex, rest);
    ExponentEnds(e, sign, ex, rest);
    FloatToken(cc, first, ip, base, tail, !SomeDigit(ex), 1 + |sign| + |ex|);
  }

  /** An exponent behind an integer part: the literal has an empty exponent exactly when it has no digit. */
  lemma {:induction false} ExponentLiteral(
    cc: L.Classes, first: char, ip: string, base: L.Base, e: char, sign: string, ex: string, rest: string)
    requires Integer(cc, first, ip, base, [e] + (sign + (ex + rest)))
    requires IsE(e) && IsSign(sign) && Decimals(ex) && CannotExtend(rest)
    requires sign == "" && ex == "" && rest != [] ==> rest[0] !in {'+', '-'}
    ensures IsLiteral(cc, [first] + (ip + ([e] + (sign + (ex + rest)))), L.FloatLit(base, !SomeDigit(ex)),
                      1 + |ip| + (1 + |sign| + |ex|))
  {
    var tail := [e] + (sign + (ex + rest));
    ExponentToken(cc, first, ip, base, e, sign, ex, rest);
    LiteralOf(cc, first, ip + tail, L.FloatLit(base, !SomeDigit(ex)), 1 + |ip| + (1 + |sign| + |ex|));
  }

  lemma {:induction false} FractionExponentToken(
    cc: L.Classes, first: char, ip: string, base: L.Base, fr: string, e: char, sign: string, ex: string, rest: string)
    requires Integer(cc, first, ip, base, "." + (fr + ([e] + (sign + (ex + rest)))))
    requires IsFraction(fr) && fr != "" && IsE(e) && IsSign(sign) && Decimals(ex) && CannotExtend(rest)
    requires sign == "" && ex == "" && rest != [] ==> rest[0] !in {'+', '-'}
    ensures
      var len := 1 + |ip| + (2 + |fr| + |sign| + |ex|);
      L.NumberToken(cc, first, ip + ("." + (fr + ([e] + (sign + (ex + rest)))))) ==
        L.Token(L.Literal(L.FloatLit(base, !SomeDigit(ex)), len), len)
  {
    var tail := "." + (fr + ([e] + (sign + (ex + rest))));
    FirstBehind(ip, tail);
    FractionExponentIs(cc, ip + tail, base, |ip|, fr, e, sign, ex, rest);
    FractionExponentEnds(fr, e, sign, ex, rest);
    FloatToken(cc, first, ip, base, tail, !SomeDigit(ex), 2 + |fr| + |sign| + |ex|);
  }

  /** The same behind a fraction, which then has a digit. */
  lemma {:induction false} FractionExponentLiteral(
    cc: L.Classes, first: char, ip: string, base: L.Base, fr: string, e: char, sign: string, ex: string, rest: string)
    requires Integer(cc, first, ip, base, "." + (fr + ([e] + (sign + (ex + rest)))))
    requires IsFraction(fr) && fr != "" && IsE(e) && IsSign(sign) && Decimals(ex) && CannotExtend(rest)
    requires sign == "" && ex == "" && rest != [] ==> rest[0] !in {'+', '-'}
    ensures IsLiteral(cc, [first] + (ip + ("." + (fr + ([e] + (sign + (ex + rest)))))),
                      L.FloatLit(base, !SomeDigit(ex)), 1 + |ip| + (2 + |fr| + |sign| + |ex|))
  {
    var tail := "." + (fr + ([e] + (sign + (ex + rest))));
    FractionExponentToken(cc, first, ip, base, fr, e, sign, ex, rest);
    LiteralOf(cc, first, ip + tail, L.FloatLit(base, !SomeDigit(ex)), 1 + |ip| + (2 + |fr| + |sign| + |ex|));
  }

  /** All decimal float literals: a fraction, an exponent, or both. */
  lemma {:induction false} DecimalFloats(
    cc: L.Classes, d: char, ds: string, fr: string, e: char, sign: string, ex: string, rest: string)
    requires IsDecimal(d, ds) && IsFraction(fr) && IsE(e) && IsSign(sign) && Decimals(ex) && CannotExtend(rest)
    requires sign == "" && ex == "" && rest != [] ==> rest[0] !in {'+', '-'}
    ensures IsLiteral(cc, [d] + (ds + ("." + (fr + rest))), L.FloatLit(L.Decimal, false), 1 + |ds| + (1 + |fr|))
    ensures IsLiteral(cc, [d] + (ds + ([e] + (sign + (ex + rest)))), L.FloatLit(L.Decimal, !SomeDigit(ex)),
                      1 + |ds| + (1 + |sign| + |ex|))
    ensures fr != "" ==>
      IsLiteral(cc, [d] + (ds + ("." + (fr + ([e] + (sign + (ex + rest)))))), L.FloatLit(L.Decimal, !SomeDigit(ex)),
                1 + |ds| + (2 + |fr| + |sign| + |ex|))
  {
    DecimalInteger(cc, d, ds, "." + (fr + rest));
    FractionLiteral(cc, d, ds, L.Decimal, fr, rest);
    DecimalInteger(cc, d, ds, [e] + (sign + (ex + rest)));
    ExponentLiteral(cc, d, ds, L.Decimal, e, sign, ex, rest);
    if fr != "" {
      DecimalInteger(cc, d, ds, "." + (fr + ([e] + (sign + (ex + rest)))));
      FractionExponentLiteral(cc, d, ds, L.Decimal, fr, e, sign, ex, rest);
    }
  }

  /** A fraction or an exponent is scanned behind a base prefix with digits, too, and makes a float of that base. */
  lemma {:induction false} PrefixedFraction(cc: L.Classes, ip: string, base: L.Base, fr: string, rest: string)
    requires IsPrefixed(ip, base) && SomeDigit(ip[1..]) && IsFraction(fr) && CannotExtend(rest)
    ensures IsLiteral(cc, ['0'] + (ip + ("." + (fr + rest))), L.FloatLit(base, false), 1 + |ip| + (1 + |fr|))
  {
    PrefixedInteger(cc, ip, base, "." + (fr + rest));
    FractionLiteral(cc, '0', ip, base, fr, rest);
  }

  lemma {:induction false} PrefixedExponent(
    cc: L.Classes, ip: string, base: L.Base, e: char, sign: string, ex: string, rest: string)
    requires IsPrefixed(ip, base) && SomeDigit(ip[1..]) && !base.Hexadecimal?
    requires IsE(e) && IsSign(sign) && Decimals(ex) && CannotExtend(rest)
    requires sign == "" && ex == "" && rest != [] ==> rest[0] !in {'+', '-'}
    ensures IsLiteral(cc, ['0'] + (ip + ([e] + (sign + (ex + rest)))), L.FloatLit(base, !SomeDigit(ex)),
                      1 + |ip| + (1 + |sign| + |ex|))
  {
    PrefixedInteger(cc, ip, base, [e] + (sign + (ex + rest)));
    ExponentLiteral(cc, '0', ip, base, e, sign, ex, rest);
  }

  // ---- suffixes ----

  predicate Letter(c: char) { 'a' <= c <= 'z' || 'A' <= c <= 'Z' || c == '_' }

  predicate Words(s: string) { forall i :: 0 <= i < |s| ==> Word(s[i]) }

  /** A suffix: a letter, and letters and digits behind it. */
  predicate IsSuffix(w: string) { w != [] && Letter(w[0]) && Words(w) }

  lemma {:induction false} SuffixScan(cc: L.Classes, w: string, rest: string)
    requires IsSuffix(w) && CannotExtend(rest)
    ensures L.LitSuffix(cc, w + rest) == |w|
  {
    assert (w + rest)[1..] == w[1..] + rest;
    SpanPrefix(w[1..], rest, c => L.IsIdContinue(cc, c));
  }

  lemma {:induction false} SuffixedToken(
    cc: L.Classes, first: char, s: string, kind: L.LiteralKind, n: nat, w: string, rest: string)
    requires L.Number(cc, first, s) == L.Scan(kind, n) && n <= |s| && s[n..] == w + rest
    requires IsSuffix(w) && CannotExtend(rest)
    ensures L.NumberToken(cc, first, s) == L.Token(L.Literal(kind, 1 + n), 1 + n + |w|)
  {
    SuffixScan(cc, w, rest);
  }

  lemma {:induction false} SuffixedFirst(cc: L.Classes, first: char, s: string, kind: L.LiteralKind, n: nat, len: nat)
    requires Digit(first) && L.NumberToken(cc, first, s) == L.Token(L.Literal(kind, n), len)
    ensures L.FirstToken(cc, [first] + s) == L.Token(L.Literal(kind, n), len)
  {
    DigitFirst(cc, first, s);
  }

  /** A suffix that is no digit and no exponent of its base belongs to the literal and starts behind the digits. */
  lemma {:induction false} PrefixedSuffix(cc: L.Classes, ip: string, base: L.Base, w: string, rest: string)
    requires IsPrefixed(ip, base) && IsSuffix(w) && CannotExtend(rest)
    requires !IsE(w[0]) && !(if base.Hexadecimal? then HexChar(w[0]) else DecimalChar(w[0]))
    ensures L.FirstToken(cc, ['0'] + (ip + (w + rest))) ==
      L.Token(L.Literal(L.IntLit(base, !SomeDigit(ip[1..])), 1 + |ip|), 1 + |ip| + |w|)
  {
    var kind := L.IntLit(base, !SomeDigit(ip[1..]));
    PrefixedSuffixScan(cc, ip, base, w + rest);
    assert (ip + (w + rest))[|ip|..] == w + rest;
    SuffixedToken(cc, '0', ip + (w + rest), kind, |ip|, w, rest);
    SuffixedFirst(cc, '0', ip + (w + rest), kind, 1 + |ip|, 1 + |ip| + |w|);
  }

  lemma {:induction false} PrefixedSuffixScan(cc: L.Classes, ip: string, base: L.Base, tail: string)
    requires IsPrefixed(ip, base) && tail != [] && !Continues(tail[0])
    requires !(if base.Hexadecimal? then HexChar(tail[0]) else DecimalChar(tail[0]))
    ensures L.Number(cc, '0', ip + tail) == L.Scan(L.IntLit(base, !SomeDigit(ip[1..])), |ip|)
  {
    PrefixScan(cc, ip, base, tail);
    assert (ip + tail)[|ip|..] == tail;
  }

  lemma {:induction false} FractionSuffixToken(
    cc: L.Classes, first: char, ip: string, base: L.Base, fr: string, w: string, rest: string)
    requires Integer(cc, first, ip, base, "." + (fr + (w + rest))) && IsFraction(fr) && fr != ""
    requires IsSuffix(w) && CannotExtend(rest) && !IsE(w[0]) && !DecimalChar(w[0])
    ensures
      var n := 1 + |ip| + (1 + |fr|);
      L.NumberToken(cc, first, ip + ("." + (fr + (w + rest)))) ==
        L.Token(L.Literal(L.FloatLit(base, false), n), n + |w|)
  {
    var tail := "." + (fr + (w + rest));
    FirstBehind(ip, tail);
    PlainFraction(cc, ip + tail, base, |ip|, fr, w + rest);
    Dropped2(ip + tail, |ip|, ".", fr, w + rest);
    SuffixedToken(cc, first, ip + tail, L.FloatLit(base, false), |ip| + (1 + |fr|), w, rest);
  }

  /** The same behind a fraction. */
  lemma {:induction false} FractionSuffix(
    cc: L.Classes, d: char, ds: string, fr: string, w: string, rest: string)
    requires IsDecimal(d, ds) && IsFraction(fr) && fr != "" && IsSuffix(w) && CannotExtend(rest)
    requires !IsE(w[0]) && !DecimalChar(w[0])
    ensures
      var n := 1 + |ds| + (1 + |fr|);
      L.FirstToken(cc, [d] + (ds + ("." + (fr + (w + rest))))) ==
        L.Token(L.Literal(L.FloatLit(L.Decimal, false), n), n + |w|)
  {
    var tail, n := "." + (fr + (w + rest)), 1 + |ds| + (1 + |fr|);
    DecimalInteger(cc, d, ds, tail);
    FractionSuffixToken(cc, d, ds, L.Decimal, fr, w, rest);
    SuffixedFirst(cc, d, ds + tail, L.FloatLit(L.Decimal, false), n, n + |w|);
  }

  lemma {:induction false} FirstBehind(a: string, tail: string)
    ensures (a + tail)[|a|..] == tail
  {
  }

  lemma {:induction false} PlainFraction(cc: L.Classes, s: string, base: L.Base, n: nat, fr: string, after: string)
    requires n <= |s| && s[n..] == "." + (fr + after) && IsFraction(fr) && fr != ""
    requires after != [] && !DecimalChar(after[0]) && !IsE(after[0])
    ensures L.Fraction(cc, s, base, n) == L.Scan(L.FloatLit(base, false), n + 1 + |fr|)
  {
    Dropped2(s, n, ".", fr, after);
    DotFirst(cc, s, base, n, fr, after);
  }
}
