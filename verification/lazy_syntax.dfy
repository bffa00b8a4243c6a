/**
 * The statement language of a module body: single-target assignments, augmented
 * assignments and `if` statements of any nesting, over expressions without calls.
 */
module LazySyntax {
  import opened Values

  /** A node id. The parser gives every node a fresh one. */
  type Id = nat

  datatype Operator =
    | Add | Sub | Mul | Div | Mod | Pow | FloorDiv
    | LShift | RShift | BitXor | BitAnd | BitOr

  datatype Expr =
    | Lit(value: Value)
    | Name(name: string)
    | Binary(op: Operator, left: Expr, right: Expr)
    | Logic(isAnd: bool, left: Expr, right: Expr)
    | Cond(test: Expr, body: Expr, orelse: Expr)

  datatype Stmt =
    | Assign(id: Id, target: string, value: Expr)
    | AugAssign(id: Id, target: string, op: Operator, value: Expr)
    | If(id: Id, cond: Expr, body: seq<Stmt>, orelse: seq<Stmt>)

  /** Value arithmetic and truth, which the evaluator only calls. */
  datatype Semantics = Semantics(binary: (Operator, Value, Value) -> Value, truthy: Value -> bool)

  /** Which part of an `if` statement a setter may run. */
  datatype SetterKind = Normal | IfBranch | OrElse

  /** One statement that can bind a name: its place in the body and where to stop inside it. */
  datatype Setter = Setter(stmt: nat, stmtId: Id, stopped: Option<Id>, kind: SetterKind)

  /** All names an expression mentions, evaluated or not. */
  function Reads(e: Expr): set<string> {
    match e
    case Lit(_) => {}
    case Name(x) => {x}
    case Binary(_, l, r) => Reads(l) + Reads(r)
    case Logic(_, l, r) => Reads(l) + Reads(r)
    case Cond(c, t, f) => Reads(c) + Reads(t) + Reads(f)
  }

  /** The ids of a list of statements. */
  function IdsOf(body: seq<Stmt>): seq<Id> {
    seq(|body|, i requires 0 <= i < |body| => body[i].id)
  }
}
