/** The expression printer: every walk appends to the output buffer. */
module Printer {
  import opened Values

  datatype UnaryOp = UAdd | USub | Invert | Not

  datatype BinOp =
    | Add | Sub | Mul | Div | Mod | Pow | FloorDiv
    | LShift | RShift | BitXor | BitAnd | BitOr | And | Or | As

  datatype CmpOp = Eq | NotEq | Lt | LtE | Gt | GtE | Is | In | NotIn | CmpNot | IsNot

  datatype Suffix = n | u | m | k | K | M | G | T | P | Ki | Mi | Gi | Ti | Pi

  datatype Link = Link(op: CmpOp, operand: Expr)

  datatype Keyword = Keyword(arg: seq<string>, value: Option<Expr>)

  datatype Arguments = Arguments(args: seq<Expr>, keywords: seq<Keyword>)

  datatype Index =
    | At(index: Expr)
    | Slice(lower: Option<Expr>, upper: Option<Expr>, step: Option<Expr>)

  datatype Expr =
    | Identifier(names: seq<string>)
    | NumberLit(value: nat, suffix: Option<Suffix>)
    | StringLit(text: string, isLong: bool)
    | Unary(uop: UnaryOp, operand: Expr)
    | Binary(left: Expr, bop: BinOp, right: Expr)
    | Compare(first: Expr, links: seq<Link>)
    | IfExpr(body: Expr, cond: Expr, orelse: Expr)
    | Paren(inner: Expr)
    | Call(func: Expr, arguments: Arguments)
    | Subscript(base: Expr, hasQuestion: bool, sub: Index)

  function UnarySymbol(op: UnaryOp): string {
    match op case UAdd => "+" case USub => "-" case Invert => "~" case Not => "not"
  }

  function BinSymbol(op: BinOp): string {
    match op
    case Add => "+" case Sub => "-" case Mul => "*" case Div => "/" case Mod => "%"
    case Pow => "**" case FloorDiv => "//" case LShift => "<<" case RShift => ">>"
    case BitXor => "^" case BitAnd => "&" case BitOr => "|"
    case And => "and" case Or => "or" case As => "as"
  }

  function CmpSymbol(op: CmpOp): string {
    match op
    case Eq => "==" case NotEq => "!=" case Lt => "<" case LtE => "<=" case Gt => ">" case GtE => ">="
    case Is => "is" case In => "in" case NotIn => "not in" case CmpNot => "not" case IsNot => "is not"
  }

  function SuffixName(s: Suffix): string {
    match s
    case n => "n" case u => "u" case m => "m" case k => "k" case K => "K" case M => "M"
    case G => "G" case T => "T" case P => "P"
    case Ki => "Ki" case Mi => "Mi" case Gi => "Gi" case Ti => "Ti" case Pi => "Pi"
  }

  function DigitChar(d: nat): char
    requires d < 10
  {
    '0' + d as char
  }

  /** The decimal digits of a number. */
  function DecimalText(v: nat): string {
    if v < 10 then [DigitChar(v)] else DecimalText(v / 10) + [DigitChar(v % 10)]
  }

  /** Quotes inside a string literal get a backslash. */
  function Escape(s: string): string {
    if s == [] then [] else (if s[0] == '\"' then ['\\', '\"'] else [s[0]]) + Escape(s[1..])
  }

  function StringText(s: string, isLong: bool): string {
    var quote := if isLong then "\"\"\"" else "\"";
    quote + Escape(s) + quote
  }

  function JoinNames(names: seq<string>): string {
    if names == [] then [] else if |names| == 1 then names[0]
    else names[0] + "." + JoinNames(names[1..])
  }

  /** The printed form of an expression. */
  function Text(e: Expr): string
    decreases e
  {
    match e
    case Identifier(names) => JoinNames(names)
    case NumberLit(v, suffix) => DecimalText(v) + (if suffix.Some? then SuffixName(suffix.value) else "")
    case StringLit(s, isLong) => StringText(s, isLong)
    case Unary(op, operand) => UnarySymbol(op) + (if op.Not? then " " else "") + Text(operand)
    case Binary(l, op, r) => Text(l) + " " + BinSymbol(op) + " " + Text(r)
    case Compare(first, links) => Text(first) + LinksText(links)
    case IfExpr(body, cond, orelse) => Text(body) + " if " + Text(cond) + " else " + Text(orelse)
    case Paren(inner) => "(" + Text(inner) + ")"
    case Call(func, arguments) => Text(func) + "(" + ArgumentsText(arguments) + ")"
    case Subscript(base, hasQuestion, sub) =>
      Text(base) + (if hasQuestion then "?" else "") + "[" + IndexText(sub) + "]"
  }

  function LinksText(links: seq<Link>): string
    decreases links
  {
    if links == [] then [] else
    LinkText(links[0]) + LinksText(links[1..])
  }

  function LinkText(link: Link): string
    decreases link
  {
    " " + CmpSymbol(link.op) + " " + Text(link.operand)
  }

  function ArgumentsText(a: Arguments): string
    decreases a
  {
    ArgsText(a.args) + (if a.args != [] && a.keywords != [] then ", " else "") + KeywordsText(a.keywords)
  }

  function ArgsText(args: seq<Expr>): string
    decreases args
  {
    if args == [] then [] else Text(args[0]) + ArgsTail(args[1..])
  }

  function ArgsTail(args: seq<Expr>): string
    decreases args
  {
    if args == [] then [] else ", " + Text(args[0]) + ArgsTail(args[1..])
  }

  function KeywordText(kw: Keyword): string
    decreases kw
  {
    JoinNames(kw.arg) + (if kw.value.Some? then "=" + Text(kw.value.value) else "")
  }

  function KeywordsText(kws: seq<Keyword>): string
    decreases kws
  {
    if kws == [] then [] else KeywordText(kws[0]) + KeywordsTail(kws[1..])
  }

  function KeywordsTail(kws: seq<Keyword>): string
    decreases kws
  {
    if kws == [] then [] else ", " + KeywordText(kws[0]) + KeywordsTail(kws[1..])
  }

  function OptionText(e: Option<Expr>): string
    decreases e
  {
    if e.Some? then Text(e.value) else ""
  }

  function IndexText(i: Index): string
    decreases i
  {
    match i
    case At(index) => Text(index)
    case Slice(lower, upper, step) => OptionText(lower) + ":" + OptionText(upper) + ":" + OptionText(step)
  }

  /** The printer object. */
  class Printer {
    var out: string

    constructor ()
      ensures out == ""
    {
      out := "";
    }

    method Write(text: string)
      modifies this
      ensures out == old(out) + text
    {
      out := out + text;
    }

    method WalkExpr(e: Expr)
      modifies this
      ensures out == old(out) + Text(e)
      decreases e, 1
    {
      match e
      case Identifier(names) => Write(JoinNames(names));
      case NumberLit(_, _) => WalkNumberLit(e);
      case StringLit(s, isLong) => Write(StringText(s, isLong));
      case Unary(_, _) => WalkUnaryExpr(e);
      case Binary(_, _, _) => WalkBinaryExpr(e);
      case Compare(_, _) => WalkCompare(e);
      case IfExpr(_, _, _) => WalkIfExpr(e);
      case Paren(_) => WalkParenExpr(e);
      case Call(_, _) => WalkCallExpr(e);
      case Subscript(_, _, _) => WalkSubscript(e);
    }

    method WalkNumberLit(e: Expr)
      requires e.NumberLit?
      modifies this
      ensures out == old(out) + Text(e)
    {
      Write(DecimalText(e.value));
      if e.suffix.Some? {
        Write(SuffixName(e.suffix.value));
      }
    }

    method WalkUnaryExpr(e: Expr)
      requires e.Unary?
      modifies this
      ensures out == old(out) + Text(e)
      decreases e, 0
    {
      Write(UnarySymbol(e.uop));
      if e.uop.Not? {
        Write(" ");
      }
      WalkExpr(e.operand);
    }

    method WalkBinaryExpr(e: Expr)
      requires e.Binary?
      modifies this
      ensures out == old(out) + Text(e)
      decreases e, 0
    {
      WalkExpr(e.left);
      Write(" ");
      Write(BinSymbol(e.bop));
      Write(" ");
      WalkExpr(e.right);
    }

    method WalkCompare(e: Expr)
      requires e.Compare?
      modifies this
      ensures out == old(out) + Text(e)
      decreases e, 0
    {
      WalkExpr(e.first);
      WalkLinks(e.links);
    }

    method WalkLinks(links: seq<Link>)
      modifies this
      ensures out == old(out) + LinksText(links)
      decreases links
    {
      for i := 0 to |links|
        invariant out + LinksText(links[i..]) == old(out) + LinksText(links)
      {
        assert links[i..][0] == links[i] && links[i..][1..] == links[i + 1..];
        ghost var before := out;
        WalkLink(links[i]);
        Concat(before, LinkText(links[i]), LinksText(links[i + 1..]));
      }
    }

    method WalkLink(link: Link)
      modifies this
      ensures out == old(out) + LinkText(link)
      decreases link
    {
      Write(" ");
      Write(CmpSymbol(link.op));
      Write(" ");
      WalkExpr(link.operand);
    }

    method WalkIfExpr(e: Expr)
      requires e.IfExpr?
      modifies this
      ensures out == old(out) + Text(e)
      decreases e, 0
    {
      WalkExpr(e.body);
      Write(" if ");
      WalkExpr(e.cond);
      Write(" else ");
      WalkExpr(e.orelse);
    }

    method WalkParenExpr(e: Expr)
      requires e.Paren?
      modifies this
      ensures out == old(out) + Text(e)
      decreases e, 0
    {
      Write("(");
      WalkExpr(e.inner);
      Write(")");
    }

    method WalkCallExpr(e: Expr)
      requires e.Call?
      modifies this
      ensures out == old(out) + Text(e)
      decreases e, 0
    {
      WalkExpr(e.func);
      Write("(");
      WriteArgsAndKwargs(e.arguments);
      Write(")");
    }

    method WriteArgsAndKwargs(a: Arguments)
      modifies this
      ensures out == old(out) + ArgumentsText(a)
      decreases a
    {
      WalkArgs(a.args);
      if a.args != [] && a.keywords != [] {
        Write(", ");
      }
      WalkKeywords(a.keywords);
    }

    method WalkCommaExpr(e: Expr)
      modifies this
      ensures out == old(out) + (", " + Text(e))
      decreases e, 2
    {
      Write(", ");
      WalkExpr(e);
    }

    method WalkCommaKeyword(kw: Keyword)
      modifies this
      ensures out == old(out) + (", " + KeywordText(kw))
      decreases kw, 1
    {
      Write(", ");
      WalkKeyword(kw);
    }

    method WalkArgs(args: seq<Expr>)
      modifies this
      ensures out == old(out) + ArgsText(args)
      decreases args
    {
      if args != [] {
        WalkExpr(args[0]);
        for i := 1 to |args|
          invariant out + ArgsTail(args[i..]) == old(out) + ArgsText(args)
        {
          assert args[i..][0] == args[i] && args[i..][1..] == args[i + 1..];
          ghost var before := out;
          WalkCommaExpr(args[i]);
          Concat(before, ", " + Text(args[i]), ArgsTail(args[i + 1..]));
        }
      }
    }

    method WalkKeyword(kw: Keyword)
      modifies this
      ensures out == old(out) + KeywordText(kw)
      decreases kw, 0
    {
      Write(JoinNames(kw.arg));
      if kw.value.Some? {
        Write("=");
        WalkExpr(kw.value.value);
      }
    }

    method WalkKeywords(kws: seq<Keyword>)
      modifies this
      ensures out == old(out) + KeywordsText(kws)
      decreases kws
    {
      if kws != [] {
        WalkKeyword(kws[0]);
        Concat(old(out), KeywordText(kws[0]), KeywordsTail(kws[1..]));
        for i := 1 to |kws|
          invariant out + KeywordsTail(kws[i..]) == old(out) + KeywordsText(kws)
        {
          ghost var before := out;
          WalkCommaKeyword(kws[i]);
          KeywordsTailStep(before, kws, i);
        }
        assert kws[|kws|..] == [];
      }
    }

    method WalkSubscript(e: Expr)
      requires e.Subscript?
      modifies this
      ensures out == old(out) + Text(e)
      decreases e, 0
    {
      WalkExpr(e.base);
      if e.hasQuestion {
        Write("?");
      }
      Write("[");
      WalkIndex(e.sub);
      Write("]");
    }

    method WalkOption(e: Option<Expr>)
      modifies this
      ensures out == old(out) + OptionText(e)
      decreases e
    {
      if e.Some? {
        WalkExpr(e.value);
      }
    }

    method WalkIndex(i: Index)
      modifies this
      ensures out == old(out) + IndexText(i)
      decreases i
    {
      match i
      case At(index) => WalkExpr(index);
      case Slice(lower, upper, step) =>
        WalkOption(lower);
        Write(":");
        WalkOption(upper);
        Write(":");
        WalkOption(step);
    }
  }

  lemma {:induction false} Concat(a: string, b: string, c: string)
    ensures (a + b) + c == a + (b + c)
  {
  }

  lemma {:induction false} KeywordsTailStep(out: string, kws: seq<Keyword>, i: nat)
    requires i < |kws|
    ensures (out + (", " + KeywordText(kws[i]))) + KeywordsTail(kws[i + 1..]) == out + KeywordsTail(kws[i..])
  {
    assert kws[i..][0] == kws[i] && kws[i..][1..] == kws[i + 1..];
    Concat(out, ", " + KeywordText(kws[i]), KeywordsTail(kws[i + 1..]));
  }
}
