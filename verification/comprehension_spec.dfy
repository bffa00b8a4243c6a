/** What a comprehension means: one element for every tuple of loop positions that passes all
    filters, in lexicographic order of the positions. */
module ComprehensionSpec {
  import opened Values
  import opened UnionTheorems

  type Env = map<string, Value>

  /** A pure expression: the names it may read and its value. */
  datatype Expr = Expr(names: set<string>, eval: Env -> Value)

  datatype Generator = Generator(targets: seq<string>, iter: Expr, ifs: seq<Expr>)

  /** A list comprehension, or a dictionary comprehension with its entry operation. */
  datatype Comp = ListOf(elt: Expr) | DictOf(key: Expr, value: Expr, op: EntryOp)

  /** The same names with the same values, leaving out the hidden ones. */
  predicate SameExcept(a: Env, b: Env, hidden: set<string>) {
    && (forall x :: x in a && x !in hidden ==> x in b && b[x] == a[x])
    && (forall x :: x in b && x !in hidden ==> x in a)
  }

  /** The value depends on the listed names alone. */
  ghost predicate Pure(e: Expr) {
    forall a: Env, b: Env, hidden: set<string> {:trigger SameExcept(a, b, hidden), e.eval(a)} ::
      SameExcept(a, b, hidden) && e.names !! hidden ==> e.eval(a) == e.eval(b)
  }

  /** One iteration: what a single loop variable gets, and what a pair of them gets. */
  datatype Step = Step(next: Value, key: Value, value: Value)

  /** Strings iterate over characters, lists over elements, dictionaries over keys; nothing else can. */
  function Steps(v: Value): (r: Option<seq<Step>>) {
    match v
    case Str(s) => Some(seq(|s|, i requires 0 <= i < |s| => Step(Str([s[i]]), Int(i), Str([s[i]]))))
    case List(items) => Some(seq(|items|, i requires 0 <= i < |items| => Step(items[i], Int(i), items[i])))
    case Dict(es, _, _) =>
      Some(seq(|es|, i requires 0 <= i < |es| => Step(Str(es[i].key), Str(es[i].key), es[i].value)))
    case _ => Option.None
  }

  /** The loop variables of one iteration; there must be one or two. */
  function Bind(targets: seq<string>, step: Step, env: Env): (r: Option<Env>) {
    if |targets| == 1 then Some(env[targets[0] := step.next])
    else if |targets| == 2 then Some(env[targets[0] := step.key][targets[1] := step.value])
    else Option.None
  }

  predicate Passes(truthy: Value -> bool, ifs: seq<Expr>, env: Env) {
    forall i :: 0 <= i < |ifs| ==> truthy(ifs[i].eval(env))
  }

  /** A tuple of loop positions and the variables it binds. */
  datatype Row = Row(path: seq<nat>, env: Env)

  function Under(k: nat, rows: seq<Row>): (r: seq<Row>)
    ensures |r| == |rows|
    ensures forall i :: 0 <= i < |rows| ==> r[i] == Row([k] + rows[i].path, rows[i].env)
  {
    seq(|rows|, i requires 0 <= i < |rows| => Row([k] + rows[i].path, rows[i].env))
  }

  function Both(a: Option<seq<Row>>, b: Option<seq<Row>>): Option<seq<Row>> {
    if a.Some? && b.Some? then Some(a.value + b.value) else Option.None
  }

  /** The rows of nested generators; none at all when something cannot be iterated or bound. */
  function Rows(truthy: Value -> bool, gens: seq<Generator>, env: Env): Option<seq<Row>>
    decreases |gens|, 0, 0
  {
    if gens == [] then Some([Row([], env)])
    else match Steps(gens[0].iter.eval(env))
      case None => Option.None
      case Some(steps) => RowsTo(truthy, gens, steps, |steps|, env)
  }

  /** The rows of the first `n` iterations of the first generator. */
  function RowsTo(truthy: Value -> bool, gens: seq<Generator>, steps: seq<Step>, n: nat, env: Env): Option<seq<Row>>
    requires gens != [] && n <= |steps|
    decreases |gens| - 1, 1, n
  {
    if n == 0 then Some([])
    else Both(RowsTo(truthy, gens, steps, n - 1, env), RowsAt(truthy, gens, steps[n - 1], n - 1, env))
  }

  /** The rows of one iteration of the first generator. */
  function RowsAt(truthy: Value -> bool, gens: seq<Generator>, step: Step, k: nat, env: Env): Option<seq<Row>>
    requires gens != []
    decreases |gens| - 1, 1, 0
  {
    match Bind(gens[0].targets, step, env)
    case None => Option.None
    case Some(e) =>
      if !Passes(truthy, gens[0].ifs, e) then Some([])
      else match Rows(truthy, gens[1..], e)
        case None => Option.None
        case Some(rows) => Some(Under(k, rows))
  }

  // The rows are exactly the admitted tuples, in lexicographic order.

  /** What one loop variable takes at position `p`: the character, the element or the key there. */
  function OneAt(v: Value, p: nat): Option<Value> {
    match v
    case Str(s) => if p < |s| then Some(Str([s[p]])) else Option.None
    case List(items) => if p < |items| then Some(items[p]) else Option.None
    case Dict(es, _, _) => if p < |es| then Some(Str(es[p].key)) else Option.None
    case _ => Option.None
  }

  /** What two loop variables take there: the position or the key, and the character, the element or the value. */
  function PairAt(v: Value, p: nat): Option<(Value, Value)> {
    match v
    case Str(s) => if p < |s| then Some((Int(p), Str([s[p]]))) else Option.None
    case List(items) => if p < |items| then Some((Int(p), items[p])) else Option.None
    case Dict(es, _, _) => if p < |es| then Some((Str(es[p].key), es[p].value)) else Option.None
    case _ => Option.None
  }

  /** The scope of the iteration at position `p` of an iterable. */
  function LoopVars(targets: seq<string>, v: Value, p: nat, env: Env): Option<Env> {
    if |targets| == 1 && OneAt(v, p).Some? then Some(env[targets[0] := OneAt(v, p).value])
    else if |targets| == 2 && PairAt(v, p).Some? then
      Some(env[targets[0] := PairAt(v, p).value.0][targets[1] := PairAt(v, p).value.1])
    else Option.None
  }

  lemma {:induction false} BindIsLoop(targets: seq<string>, v: Value, p: nat, env: Env)
    ensures Steps(v).None? ==> LoopVars(targets, v, p, env).None?
    ensures Steps(v).Some? ==>
      LoopVars(targets, v, p, env) ==
        if p < |Steps(v).value| then Bind(targets, Steps(v).value[p], env) else Option.None
  {
  }

  /** The variables a tuple of positions binds, if every position exists and every filter passes. */
  function Reach(truthy: Value -> bool, gens: seq<Generator>, env: Env, path: seq<nat>): Option<Env>
    decreases |gens|
  {
    if gens == [] || path == [] then (if gens == [] && path == [] then Some(env) else Option.None)
    else match LoopVars(gens[0].targets, gens[0].iter.eval(env), path[0], env)
      case None => Option.None
      case Some(e) =>
        if forall j :: 0 <= j < |gens[0].ifs| ==> truthy(gens[0].ifs[j].eval(e)) then
          Reach(truthy, gens[1..], e, path[1..])
        else Option.None
  }

  predicate LexLess(a: seq<nat>, b: seq<nat>)
    decreases |a|
  {
    a != [] && b != [] && (a[0] < b[0] || (a[0] == b[0] && LexLess(a[1..], b[1..])))
  }

  ghost predicate Increasing(rows: seq<Row>) {
    forall i, j :: 0 <= i < j < |rows| ==> LexLess(rows[i].path, rows[j].path)
  }

  ghost predicate HeadsIn(rows: seq<Row>, lo: nat, hi: nat) {
    forall i :: 0 <= i < |rows| ==> rows[i].path != [] && lo <= rows[i].path[0] < hi
  }

  lemma {:induction false} IncreasingUnder(k: nat, rows: seq<Row>)
    requires Increasing(rows)
    ensures Increasing(Under(k, rows)) && HeadsIn(Under(k, rows), k, k + 1)
  {
    var r := Under(k, rows);
    forall i, j | 0 <= i < j < |r| ensures LexLess(r[i].path, r[j].path) {
      assert r[i].path[1..] == rows[i].path && r[j].path[1..] == rows[j].path;
    }
  }

  lemma {:induction false} IncreasingJoin(a: seq<Row>, b: seq<Row>, k: nat)
    requires Increasing(a) && Increasing(b) && HeadsIn(a, 0, k) && HeadsIn(b, k, k + 1)
    ensures Increasing(a + b) && HeadsIn(a + b, 0, k + 1)
  {
  }

  /** Rows come in strictly increasing lexicographic order of their positions. */
  lemma {:induction false} RowsInOrder(truthy: Value -> bool, gens: seq<Generator>, env: Env)
    requires Rows(truthy, gens, env).Some?
    ensures Increasing(Rows(truthy, gens, env).value)
    decreases |gens|, 0, 0
  {
    if gens != [] {
      var steps := Steps(gens[0].iter.eval(env)).value;
      RowsToInOrder(truthy, gens, steps, |steps|, env);
    }
  }

  lemma {:induction false} RowsToInOrder(
    truthy: Value -> bool, gens: seq<Generator>, steps: seq<Step>, n: nat, env: Env)
    requires gens != [] && n <= |steps| && RowsTo(truthy, gens, steps, n, env).Some?
    ensures Increasing(RowsTo(truthy, gens, steps, n, env).value)
    ensures HeadsIn(RowsTo(truthy, gens, steps, n, env).value, 0, n)
    decreases |gens| - 1, 1, n
  {
    if n > 0 {
      RowsToInOrder(truthy, gens, steps, n - 1, env);
      var here := RowsAt(truthy, gens, steps[n - 1], n - 1, env).value;
      var e := Bind(gens[0].targets, steps[n - 1], env).value;
      if Passes(truthy, gens[0].ifs, e) {
        RowsInOrder(truthy, gens[1..], e);
        IncreasingUnder(n - 1, Rows(truthy, gens[1..], e).value);
      }
      IncreasingJoin(RowsTo(truthy, gens, steps, n - 1, env).value, here, n - 1);
    }
  }

  ghost predicate Listed(rows: seq<Row>, row: Row) { exists i :: 0 <= i < |rows| && rows[i] == row }

  lemma {:induction false} ListedUnder(k: nat, rows: seq<Row>, row: Row)
    ensures Listed(Under(k, rows), row) <==>
      row.path != [] && row.path[0] == k && Listed(rows, Row(row.path[1..], row.env))
  {
    var r := Under(k, rows);
    if Listed(r, row) {
      var i :| 0 <= i < |r| && r[i] == row;
      assert row.path[1..] == rows[i].path;
    }
    if row.path != [] && row.path[0] == k && Listed(rows, Row(row.path[1..], row.env)) {
      var i :| 0 <= i < |rows| && rows[i] == Row(row.path[1..], row.env);
      assert [k] + row.path[1..] == row.path;
      assert r[i] == row;
    }
  }

  lemma {:induction false} ListedJoin(a: seq<Row>, b: seq<Row>, row: Row)
    ensures Listed(a + b, row) <==> Listed(a, row) || Listed(b, row)
  {
    if Listed(a + b, row) {
      var i :| 0 <= i < |a + b| && (a + b)[i] == row;
      assert if i < |a| then a[i] == row else b[i - |a|] == row;
    }
    if Listed(a, row) {
      var i :| 0 <= i < |a| && a[i] == row;
      assert (a + b)[i] == row;
    }
    if Listed(b, row) {
      var i :| 0 <= i < |b| && b[i] == row;
      assert (a + b)[|a| + i] == row;
    }
  }

  /** A row is listed if and only if its positions exist, its filters pass and its variables are theirs. */
  lemma {:induction false} RowsExact(truthy: Value -> bool, gens: seq<Generator>, env: Env, row: Row)
    requires Rows(truthy, gens, env).Some?
    ensures Listed(Rows(truthy, gens, env).value, row) <==> Reach(truthy, gens, env, row.path) == Some(row.env)
    decreases |gens|, 0, 0
  {
    if gens == [] {
      assert Rows(truthy, gens, env).value[0] == Row([], env);
    } else {
      var steps := Steps(gens[0].iter.eval(env)).value;
      RowsToExact(truthy, gens, steps, |steps|, env, row);
    }
  }

  lemma {:induction false} RowsToExact(
    truthy: Value -> bool, gens: seq<Generator>, steps: seq<Step>, n: nat, env: Env, row: Row)
    requires gens != [] && n <= |steps| && Steps(gens[0].iter.eval(env)) == Some(steps)
    requires RowsTo(truthy, gens, steps, n, env).Some?
    ensures Listed(RowsTo(truthy, gens, steps, n, env).value, row)
       <==> row.path != [] && row.path[0] < n && Reach(truthy, gens, env, row.path) == Some(row.env)
    decreases |gens| - 1, 1, n
  {
    if n > 0 {
      RowsToExact(truthy, gens, steps, n - 1, env, row);
      ListedJoin(RowsTo(truthy, gens, steps, n - 1, env).value,
                 RowsAt(truthy, gens, steps[n - 1], n - 1, env).value, row);
      var e := Bind(gens[0].targets, steps[n - 1], env).value;
      BindIsLoop(gens[0].targets, gens[0].iter.eval(env), n - 1, env);
      if Passes(truthy, gens[0].ifs, e) {
        ListedUnder(n - 1, Rows(truthy, gens[1..], e).value, row);
        if row.path != [] {
          RowsExact(truthy, gens[1..], e, Row(row.path[1..], row.env));
        }
      }
    }
  }

  /** How often an iterable iterates, if it can at all. */
  function Count(v: Value): Option<nat> {
    match v
    case Str(s) => Some(|s|)
    case List(items) => Some(|items|)
    case Dict(es, _, _) => Some(|es|)
    case _ => Option.None
  }

  /** Something on the way cannot be iterated, or cannot be bound to its loop variables. */
  ghost predicate Stuck(truthy: Value -> bool, gens: seq<Generator>, env: Env)
    decreases |gens|, 0
  {
    gens != [] &&
    var n := Count(gens[0].iter.eval(env));
    n.None? || StuckTo(truthy, gens, env, n.value)
  }

  /** One of the first `n` iterations is stuck. */
  ghost predicate StuckTo(truthy: Value -> bool, gens: seq<Generator>, env: Env, n: nat)
    requires gens != []
    decreases |gens| - 1, 2, n
  {
    n > 0 && (StuckTo(truthy, gens, env, n - 1) || StuckAt(truthy, gens, env, n - 1))
  }

  ghost predicate StuckAt(truthy: Value -> bool, gens: seq<Generator>, env: Env, p: nat)
    requires gens != []
    decreases |gens| - 1, 1
  {
    match LoopVars(gens[0].targets, gens[0].iter.eval(env), p, env)
    case None => true
    case Some(e) =>
      (forall j :: 0 <= j < |gens[0].ifs| ==> truthy(gens[0].ifs[j].eval(e))) && Stuck(truthy, gens[1..], e)
  }

  /** A comprehension fails exactly when something on the way is stuck. */
  lemma {:induction false} RowsFail(truthy: Value -> bool, gens: seq<Generator>, env: Env)
    ensures Rows(truthy, gens, env).None? <==> Stuck(truthy, gens, env)
    decreases |gens|, 0, 0
  {
    if gens != [] {
      var steps := Steps(gens[0].iter.eval(env));
      if steps.Some? {
        RowsToFail(truthy, gens, steps.value, |steps.value|, env);
        assert Count(gens[0].iter.eval(env)) == Some(|steps.value|);
      }
    }
  }

  lemma {:induction false} RowsToFail(
    truthy: Value -> bool, gens: seq<Generator>, steps: seq<Step>, n: nat, env: Env)
    requires gens != [] && n <= |steps| && Steps(gens[0].iter.eval(env)) == Some(steps)
    ensures RowsTo(truthy, gens, steps, n, env).None? <==> StuckTo(truthy, gens, env, n)
    decreases |gens| - 1, 1, n
  {
    if n > 0 {
      RowsToFail(truthy, gens, steps, n - 1, env);
      BindIsLoop(gens[0].targets, gens[0].iter.eval(env), n - 1, env);
      var e := Bind(gens[0].targets, steps[n - 1], env);
      if e.Some? {
        RowsFail(truthy, gens[1..], e.value);
      }
      assert RowsAt(truthy, gens, steps[n - 1], n - 1, env).None? <==> StuckAt(truthy, gens, env, n - 1);
    }
  }

  // What the rows make of a collection.

  function KeyText(v: Value): string { if v.Str? then v.s else "" }

  /** One element appended, or one entry merged in. */
  function Emit(comp: Comp, c: Option<Value>, env: Env): Option<Value> {
    match comp
    case ListOf(elt) =>
      if c.Some? && c.value.List? then Some(List(c.value.items + [elt.eval(env)])) else Option.None
    case DictOf(_, _, _) => Then(c, Some(Single(EntryOf(comp, env))))
  }

  function EntryOf(comp: Comp, env: Env): Item
    requires comp.DictOf?
  {
    Item(KeyText(comp.key.eval(env)), comp.value.eval(env), comp.op, Option.None)
  }

  function Collect(comp: Comp, c: Option<Value>, rows: seq<Row>): Option<Value> {
    if rows == [] then c else
    var k := |rows| - 1;
    Emit(comp, Collect(comp, c, rows[..k]), rows[k].env)
  }

  lemma {:induction false} CollectJoin(comp: Comp, c: Option<Value>, a: seq<Row>, b: seq<Row>)
    ensures Collect(comp, c, a + b) == Collect(comp, Collect(comp, c, a), b)
    decreases |b|
  {
    if b == [] {
      assert a + b == a;
    } else {
      CollectJoin(comp, c, a, b[..|b| - 1]);
      assert (a + b)[..|a + b| - 1] == a + b[..|b| - 1];
    }
  }

  lemma {:induction false} CollectUnder(comp: Comp, c: Option<Value>, k: nat, rows: seq<Row>)
    ensures Collect(comp, c, Under(k, rows)) == Collect(comp, c, rows)
    decreases |rows|
  {
    if rows != [] {
      var n := |rows| - 1;
      CollectUnder(comp, c, k, rows[..n]);
      assert Under(k, rows)[..n] == Under(k, rows[..n]);
    }
  }

  /** The elements of the rows, one per row. */
  function Elements(elt: Expr, rows: seq<Row>): (r: seq<Value>)
    ensures |r| == |rows| && forall i :: 0 <= i < |rows| ==> r[i] == elt.eval(rows[i].env)
  {
    seq(|rows|, i requires 0 <= i < |rows| => elt.eval(rows[i].env))
  }

  /** A list comprehension appends exactly one element per row and keeps what was there as a prefix. */
  lemma {:induction false} CollectList(elt: Expr, items: seq<Value>, rows: seq<Row>)
    ensures Collect(ListOf(elt), Some(List(items)), rows) == Some(List(items + Elements(elt, rows)))
    decreases |rows|
  {
    if rows == [] {
      assert items + Elements(elt, rows) == items;
    } else {
      var k := |rows| - 1;
      CollectList(elt, items, rows[..k]);
      assert items + Elements(elt, rows) == items + Elements(elt, rows[..k]) + [elt.eval(rows[k].env)];
    }
  }

  function Entries(comp: Comp, rows: seq<Row>): (r: seq<Item>)
    requires comp.DictOf?
    ensures |r| == |rows| && forall i :: 0 <= i < |rows| ==> r[i] == EntryOf(comp, rows[i].env)
  {
    seq(|rows|, i requires 0 <= i < |rows| => EntryOf(comp, rows[i].env))
  }

  /** A dictionary comprehension is the config block of its rows' entries. */
  lemma {:induction false} CollectDict(comp: Comp, rows: seq<Row>)
    requires comp.DictOf?
    ensures Collect(comp, Some(EMPTY), rows) == Block(Entries(comp, rows))
    decreases |rows|
  {
    if rows != [] {
      var k := |rows| - 1;
      CollectDict(comp, rows[..k]);
      assert Entries(comp, rows)[..k] == Entries(comp, rows[..k]);
    }
  }
}
