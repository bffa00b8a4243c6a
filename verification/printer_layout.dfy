/** Where the printer puts spaces and separators. */
module PrinterLayout {
  import opened Values
  import opened Printer
  import opened LexerTokens

  /** Texts with a comma and a space between each two. */
  function Separated(ts: seq<string>): string {
    if ts == [] then ""
    else if |ts| == 1 then ts[0]
    else Separated(ts[..|ts| - 1]) + ", " + ts[|ts| - 1]
  }

  function Texts(args: seq<Expr>): (ts: seq<string>)
    ensures |ts| == |args| && forall i :: 0 <= i < |args| ==> ts[i] == Text(args[i])
  {
    seq(|args|, i requires 0 <= i < |args| => Text(args[i]))
  }

  /** A keyword argument: its name, and its value behind an equals sign without spaces. */
  function Assignment(kw: Keyword): string {
    if kw.value.None? then JoinNames(kw.arg) else JoinNames(kw.arg) + "=" + Text(kw.value.value)
  }

  function Assignments(kws: seq<Keyword>): (ts: seq<string>)
    ensures |ts| == |kws| && forall i :: 0 <= i < |kws| ==> ts[i] == Assignment(kws[i])
  {
    seq(|kws|, i requires 0 <= i < |kws| => Assignment(kws[i]))
  }

  /** The further texts of a list, each behind its separator. */
  function Tails(ts: seq<string>): string {
    if ts == [] then "" else ", " + ts[0] + Tails(ts[1..])
  }

  lemma {:induction false} TailsSnoc(ts: seq<string>, t: string)
    ensures Tails(ts + [t]) == Tails(ts) + (", " + t)
  {
    if ts == [] {
      assert [] + [t] == [t] && [t][1..] == [] && Tails([]) == "";
    } else {
      assert (ts + [t])[1..] == ts[1..] + [t];
      TailsSnoc(ts[1..], t);
      Concat(", " + ts[0], Tails(ts[1..]), ", " + t);
    }
  }

  lemma {:induction false} SeparatedIs(ts: seq<string>)
    requires ts != []
    ensures Separated(ts) == ts[0] + Tails(ts[1..])
    decreases |ts|
  {
    var k := |ts| - 1;
    if k == 0 {
      assert ts[1..] == [];
    } else {
      SeparatedIs(ts[..k]);
      assert ts[..k][1..] + [ts[k]] == ts[1..];
      TailsSnoc(ts[..k][1..], ts[k]);
      Concat(ts[0], Tails(ts[..k][1..]), ", " + ts[k]);
      Concat(Separated(ts[..k]), ", ", ts[k]);
    }
  }

  lemma {:induction false} TailsAppend(ts: seq<string>, us: seq<string>)
    ensures Tails(ts + us) == Tails(ts) + Tails(us)
  {
    if ts == [] {
      assert ts + us == us;
    } else {
      assert (ts + us)[1..] == ts[1..] + us;
      TailsAppend(ts[1..], us);
      Concat(", " + ts[0], Tails(ts[1..]), Tails(us));
    }
  }

  lemma {:induction false} ArgsTailIs(args: seq<Expr>)
    ensures ArgsTail(args) == Tails(Texts(args))
  {
    if args != [] {
      ArgsTailIs(args[1..]);
      assert Texts(args)[1..] == Texts(args[1..]);
    }
  }

  lemma {:induction false} AssignmentIs(kw: Keyword)
    ensures KeywordText(kw) == Assignment(kw)
  {
    if kw.value.Some? {
      Concat(JoinNames(kw.arg), "=", Text(kw.value.value));
    }
  }

  lemma {:induction false} KeywordsTailIs(kws: seq<Keyword>)
    ensures KeywordsTail(kws) == Tails(Assignments(kws))
  {
    if kws != [] {
      KeywordsTailIs(kws[1..]);
      AssignmentIs(kws[0]);
      assert Assignments(kws)[1..] == Assignments(kws[1..]);
    }
  }

  lemma {:induction false} FirstArg(args: seq<Expr>)
    requires args != []
    ensures ArgsText(args) == Text(args[0]) + Tails(Texts(args)[1..])
  {
    ArgsTailIs(args[1..]);
    assert Texts(args)[1..] == Texts(args[1..]);
  }

  lemma {:induction false} FirstKeyword(kws: seq<Keyword>)
    requires kws != []
    ensures KeywordsText(kws) == Assignments(kws)[0] + Tails(Assignments(kws)[1..])
    ensures ", " + KeywordsText(kws) == Tails(Assignments(kws))
  {
    AssignmentIs(kws[0]);
    KeywordsTailIs(kws[1..]);
    assert Assignments(kws)[1..] == Assignments(kws[1..]);
    Concat(", ", KeywordText(kws[0]), KeywordsTail(kws[1..]));
  }

  lemma {:induction false} OnlyKeywords(kws: seq<Keyword>)
    ensures KeywordsText(kws) == Separated(Assignments(kws))
  {
    if kws != [] {
      FirstKeyword(kws);
      SeparatedIs(Assignments(kws));
    }
  }

  lemma {:induction false} WithArgs(args: seq<Expr>, us: seq<string>)
    requires args != []
    ensures Separated(Texts(args) + us) == ArgsText(args) + Tails(us)
  {
    var ts := Texts(args);
    FirstArg(args);
    SeparatedIs(ts + us);
    assert (ts + us)[1..] == ts[1..] + us;
    TailsAppend(ts[1..], us);
    Concat(Text(args[0]), Tails(ts[1..]), Tails(us));
  }

  /** Arguments and then keyword arguments, all separated alike by a comma and a space. */
  lemma {:induction false} ArgumentsSeparated(a: Arguments)
    ensures ArgumentsText(a) == Separated(Texts(a.args) + Assignments(a.keywords))
  {
    var us := Assignments(a.keywords);
    if a.args == [] {
      NoArgs(a.keywords);
      OnlyKeywords(a.keywords);
      assert Texts(a.args) + us == us;
    } else {
      WithArgs(a.args, us);
      if a.keywords == [] {
        assert Tails(us) == "" && KeywordsText([]) == "";
      } else {
        FirstKeyword(a.keywords);
        Concat(ArgsText(a.args), ", ", KeywordsText(a.keywords));
      }
    }
  }

  lemma {:induction false} NoArgs(kws: seq<Keyword>)
    ensures ArgumentsText(Arguments([], kws)) == KeywordsText(kws)
  {
    assert ArgsText([]) == "" && "" + "" + KeywordsText(kws) == KeywordsText(kws);
  }

  lemma {:induction false} LinksSnoc(links: seq<Link>, link: Link)
    ensures LinksText(links + [link]) == LinksText(links) + LinkText(link)
  {
    if links == [] {
      assert [] + [link] == [link] && [link][1..] == [] && LinksText([]) == "";
    } else {
      assert (links + [link])[1..] == links[1..] + [link];
      LinksSnoc(links[1..], link);
      Concat(LinkText(links[0]), LinksText(links[1..]), LinkText(link));
    }
  }

  /** A comparison chain grows by an operator between spaces and its operand. */
  lemma {:induction false} CompareGrows(first: Expr, links: seq<Link>, op: CmpOp, operand: Expr, sign: string)
    requires sign == match op
      case Eq => "==" case NotEq => "!=" case Lt => "<" case LtE => "<=" case Gt => ">" case GtE => ">="
      case Is => "is" case In => "in" case NotIn => "not in" case CmpNot => "not" case IsNot => "is not"
    ensures Text(Compare(first, links + [Link(op, operand)])) ==
      Text(Compare(first, links)) + (" " + sign + " " + Text(operand))
    ensures Text(Compare(first, [])) == Text(first)
  {
    LinksSnoc(links, Link(op, operand));
    Concat(Text(first), LinksText(links), LinkText(Link(op, operand)));
  }

  /** Signs stand close to their operand, and `not` before a space. */
  lemma {:induction false} UnaryLayout(e: Expr)
    ensures Text(Unary(UAdd, e)) == "+" + Text(e) && Text(Unary(USub, e)) == "-" + Text(e)
    ensures Text(Unary(Invert, e)) == "~" + Text(e) && Text(Unary(Not, e)) == "not " + Text(e)
  {
    assert "not" + " " == "not " && "+" + "" == "+" && "-" + "" == "-" && "~" + "" == "~";
  }

  /** Conditionals have their words between spaces, and brackets stand close to what they enclose. */
  lemma {:induction false} BracketLayout(l: Expr, r: Expr, c: Expr, a: Arguments)
    ensures Text(IfExpr(l, c, r)) == Text(l) + " if " + Text(c) + " else " + Text(r)
    ensures Text(Paren(l)) == "(" + Text(l) + ")"
    ensures Text(Call(l, a)) == Text(l) + "(" + Separated(Texts(a.args) + Assignments(a.keywords)) + ")"
  {
    ArgumentsSeparated(a);
  }

  lemma {:induction false} SubscriptLayout(l: Expr, r: Expr)
    ensures Text(Subscript(l, false, At(r))) == Text(l) + "[" + Text(r) + "]"
    ensures Text(Subscript(l, true, At(r))) == Text(l) + "?[" + Text(r) + "]"
  {
    assert "?" + "[" == "?[" && Text(l) + "" == Text(l);
    Concat(Text(l), "?", "[");
  }

  /** Binary operators stand between spaces. */
  lemma {:induction false} BinaryLayout(l: Expr, op: BinOp, r: Expr)
    ensures Text(Binary(l, op, r)) == Text(l) + (" " + BinToken(op).text + " ") + Text(r)
  {
    assert BinSymbol(op) == BinToken(op).text;
    Concat(Text(l), " ", BinSymbol(op));
    Concat(Text(l), " " + BinSymbol(op), " ");
  }

  /** A slice leaves out what is missing and always has two colons. */
  lemma {:induction false} SliceLayout(l: Expr, q: bool, lower: Option<Expr>, upper: Option<Expr>, step: Option<Expr>)
    ensures
      var a, b, c := if lower.Some? then Text(lower.value) else "", if upper.Some? then Text(upper.value) else "",
        if step.Some? then Text(step.value) else "";
      Text(Subscript(l, q, Slice(lower, upper, step))) ==
        Text(l) + (if q then "?" else "") + "[" + (a + ":" + b + ":" + c) + "]"
  {
    assert IndexText(Slice(lower, upper, step)) == OptionText(lower) + ":" + OptionText(upper) + ":" + OptionText(step);
  }
}
