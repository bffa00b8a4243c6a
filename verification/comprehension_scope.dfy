/** Why comprehensions must be scoped: wherever an inner loop's variable is read too early, it can show. */
module ComprehensionScope {
  import opened Values
  import opened ComprehensionSpec
  import opened Comprehension

  /** Every generator has one or two loop variables. */
  ghost predicate Bindable(gens: seq<Generator>) {
    forall i :: 0 <= i < |gens| ==> 1 <= |gens[i].targets| <= 2
  }

  ghost predicate SameGenerator(g: Generator, h: Generator) {
    && g.targets == h.targets && g.iter.names == h.iter.names && |g.ifs| == |h.ifs|
    && forall j :: 0 <= j < |g.ifs| ==> g.ifs[j].names == h.ifs[j].names
  }

  /** The same loop variables and the same names read, with any meaning of the expressions. */
  ghost predicate SameShape(gens: seq<Generator>, others: seq<Generator>) {
    |gens| == |others| && forall i :: 0 <= i < |gens| ==> SameGenerator(gens[i], others[i])
  }

  lemma {:induction false} ShapeVars(gens: seq<Generator>, others: seq<Generator>)
    requires SameShape(gens, others)
    ensures Vars(gens) == Vars(others)
    decreases |gens|
  {
    if gens != [] {
      assert SameGenerator(gens[0], others[0]);
      ShapeTail(gens, others);
      ShapeVars(gens[1..], others[1..]);
    }
  }

  lemma {:induction false} ShapeTail(gens: seq<Generator>, others: seq<Generator>)
    requires SameShape(gens, others) && gens != []
    ensures SameShape(gens[1..], others[1..])
  {
    forall i | 0 <= i < |gens[1..]| ensures SameGenerator(gens[1..][i], others[1..][i]) {
      assert SameGenerator(gens[i + 1], others[i + 1]);
    }
  }

  lemma {:induction false} ShapeInside(gens: seq<Generator>, others: seq<Generator>)
    requires SameShape(gens, others) && gens != [] && Inside(gens)
    ensures Inside(others)
    decreases |gens|
  {
    assert SameGenerator(gens[0], others[0]);
    ShapeTail(gens, others);
    ShapeVars(gens[1..], others[1..]);
    if gens[1..] != [] {
      assert SameGenerator(gens[1..][0], others[1..][0]);
      ShapeInside(gens[1..], others[1..]);
    }
  }

  // Meanings that show an early read: outer loops run twice over one value, inner loops once over another.

  predicate IsTrue(v: Value) { v == Bool(true) }

  const OUTER: Value := Str("a")
  const INNER: Value := Str("b")

  function Once(): Value { Dict([Entry("b", INNER)], map[], map[]) }
  function Twice(): Value { Dict([Entry("a", OUTER), Entry("c", OUTER)], map[], map[]) }
  function Never(): Value { Dict([], map[], map[]) }

  const INNER_STEP := Step(INNER, INNER, INNER)
  const FIRST_STEP := Step(OUTER, OUTER, OUTER)
  const SECOND_STEP := Step(Str("c"), Str("c"), OUTER)

  lemma {:induction false} StepsAre()
    ensures Steps(Once()) == Some([INNER_STEP]) && Steps(Never()) == Some([])
    ensures Steps(Twice()) == Some([FIRST_STEP, SECOND_STEP])
  {
    assert Steps(Once()).value == [INNER_STEP];
    assert Steps(Never()).value == [];
    assert Steps(Twice()).value == [FIRST_STEP, SECOND_STEP];
  }

  /** Whether `y` holds what the inner loops bind. */
  predicate Stale(env: Env, y: string) { y in env && env[y] == INNER }

  function Always(e: Expr, v: Value): Expr { Expr(e.names, (env: Env) => v) }

  function Unless(e: Expr, y: string, no: Value, yes: Value): Expr {
    Expr(e.names, (env: Env) => if Stale(env, y) then no else yes)
  }

  function AllTrue(ifs: seq<Expr>): (r: seq<Expr>)
    ensures |r| == |ifs| && forall j :: 0 <= j < |ifs| ==> r[j] == Always(ifs[j], Bool(true))
  {
    seq(|ifs|, j requires 0 <= j < |ifs| => Always(ifs[j], Bool(true)))
  }

  function AllTrueUnless(ifs: seq<Expr>, b: nat, y: string): (r: seq<Expr>)
    ensures |r| == |ifs|
    ensures forall j :: 0 <= j < |ifs| ==>
      r[j] == if j == b then Unless(ifs[j], y, Bool(false), Bool(true)) else Always(ifs[j], Bool(true))
  {
    seq(|ifs|, j requires 0 <= j < |ifs| =>
      if j == b then Unless(ifs[j], y, Bool(false), Bool(true)) else Always(ifs[j], Bool(true)))
  }

  function Inner(g: Generator): Generator { Generator(g.targets, Always(g.iter, Once()), AllTrue(g.ifs)) }

  function Outer(g: Generator): Generator { Generator(g.targets, Always(g.iter, Twice()), AllTrue(g.ifs)) }

  function Inners(gens: seq<Generator>): (r: seq<Generator>)
    ensures |r| == |gens|
  {
    if gens == [] then [] else [Inner(gens[0])] + Inners(gens[1..])
  }

  // One and two iterations.

  lemma {:induction false} WalkOnce(gens: seq<Generator>, step: Step, vars: Env)
    requires gens != [] && Steps(gens[0].iter.eval(vars)) == Some([step])
    ensures var u := WalkAt(IsTrue, gens, step, 0, vars);
      Walk(IsTrue, gens, vars) == if u.None? then Option.None else Some(Trace([] + u.value.rows, u.value.vars))
  {
    assert WalkTo(IsTrue, gens, [step], 0, vars) == Some(Trace([], vars));
    assert WalkTo(IsTrue, gens, [step], 1, vars) == Walk(IsTrue, gens, vars);
  }

  lemma {:induction false} RowsOnce(gens: seq<Generator>, step: Step, env: Env)
    requires gens != [] && Steps(gens[0].iter.eval(env)) == Some([step])
    ensures Rows(IsTrue, gens, env) == Both(Some([]), RowsAt(IsTrue, gens, step, 0, env))
  {
    assert RowsTo(IsTrue, gens, [step], 0, env) == Some([]);
    assert RowsTo(IsTrue, gens, [step], 1, env) == Rows(IsTrue, gens, env);
  }

  lemma {:induction false} WalkTwice(gens: seq<Generator>, s: Step, t: Step, vars: Env)
    requires gens != [] && Steps(gens[0].iter.eval(vars)) == Some([s, t])
    requires WalkAt(IsTrue, gens, s, 0, vars).Some?
    requires WalkAt(IsTrue, gens, t, 1, WalkAt(IsTrue, gens, s, 0, vars).value.vars).Some?
    ensures var u := WalkAt(IsTrue, gens, s, 0, vars).value;
      var w := WalkAt(IsTrue, gens, t, 1, u.vars).value;
      Walk(IsTrue, gens, vars).Some? && |Walk(IsTrue, gens, vars).value.rows| == |u.rows| + |w.rows|
  {
    var u := WalkAt(IsTrue, gens, s, 0, vars).value;
    assert WalkTo(IsTrue, gens, [s, t], 0, vars) == Some(Trace([], vars));
    assert WalkTo(IsTrue, gens, [s, t], 1, vars) == Some(Trace([] + u.rows, u.vars));
    assert WalkTo(IsTrue, gens, [s, t], 2, vars) == Walk(IsTrue, gens, vars);
  }

  lemma {:induction false} RowsTwice(gens: seq<Generator>, s: Step, t: Step, env: Env)
    requires gens != [] && Steps(gens[0].iter.eval(env)) == Some([s, t])
    requires RowsAt(IsTrue, gens, s, 0, env).Some? && RowsAt(IsTrue, gens, t, 1, env).Some?
    ensures Rows(IsTrue, gens, env).Some?
    ensures |Rows(IsTrue, gens, env).value|
         == |RowsAt(IsTrue, gens, s, 0, env).value| + |RowsAt(IsTrue, gens, t, 1, env).value|
  {
    assert RowsTo(IsTrue, gens, [s, t], 0, env) == Some([]);
    assert RowsTo(IsTrue, gens, [s, t], 1, env) == Both(Some([]), RowsAt(IsTrue, gens, s, 0, env));
    assert RowsTo(IsTrue, gens, [s, t], 2, env) == Rows(IsTrue, gens, env);
  }

  /** What binding one or two variables does. */
  lemma {:induction false} BindSets(targets: seq<string>, step: Step, env: Env, x: string)
    requires 1 <= |targets| <= 2
    ensures Bind(targets, step, env).Some?
    ensures var e := Bind(targets, step, env).value;
      if x in targets then x in e && (e[x] == step.next || e[x] == step.key || e[x] == step.value)
      else (x in e <==> x in env) && (x in e ==> e[x] == env[x])
  {
  }

  lemma {:induction false} TruePasses(ifs: seq<Expr>, env: Env)
    ensures Passes(IsTrue, AllTrue(ifs), env)
  {
  }

  lemma {:induction false} UnlessPasses(ifs: seq<Expr>, b: nat, y: string, env: Env)
    requires b < |ifs|
    ensures Passes(IsTrue, AllTrueUnless(ifs, b, y), env) <==> !Stale(env, y)
  {
    var r := AllTrueUnless(ifs, b, y);
    assert r[b].eval(env) == if Stale(env, y) then Bool(false) else Bool(true);
    forall j | 0 <= j < |ifs| && j != b ensures IsTrue(r[j].eval(env)) {
    }
  }

  /** Inner loops reach one row, and leave their variables with what they bind. */
  lemma {:induction false} InnersRun(gens: seq<Generator>, vars: Env, y: string)
    requires Bindable(gens)
    ensures var t := Walk(IsTrue, Inners(gens), vars);
      && t.Some? && |t.value.rows| == 1
      && (if y in Vars(gens) then Stale(t.value.vars, y) else Stale(t.value.vars, y) <==> Stale(vars, y))
    ensures Rows(IsTrue, Inners(gens), vars).Some? && |Rows(IsTrue, Inners(gens), vars).value| == 1
    decreases |gens|
  {
    if gens != [] {
      var all := Inners(gens);
      assert all[0] == Inner(gens[0]) && all[1..] == Inners(gens[1..]);
      StepsAre();
      WalkOnce(all, INNER_STEP, vars);
      RowsOnce(all, INNER_STEP, vars);
      BindSets(gens[0].targets, INNER_STEP, vars, y);
      var v := Bind(gens[0].targets, INNER_STEP, vars).value;
      TruePasses(gens[0].ifs, v);
      InnersRun(gens[1..], v, y);
    }
  }

  /** With a stale `y` nothing is reached; otherwise one row, after which `y` is stale. */
  ghost predicate Gate(gens: seq<Generator>, y: string, step: Step, k: nat)
    requires gens != []
  {
    && (forall vars: Env {:trigger WalkAt(IsTrue, gens, step, k, vars)} ::
          var t := WalkAt(IsTrue, gens, step, k, vars);
          t.Some? && Stale(t.value.vars, y) && |t.value.rows| == if Stale(vars, y) then 0 else 1)
    && (forall env: Env {:trigger RowsAt(IsTrue, gens, step, k, env)} :: !Stale(env, y) ==>
          RowsAt(IsTrue, gens, step, k, env).Some? && |RowsAt(IsTrue, gens, step, k, env).value| == 1)
  }

  /** The walk always misses rows that the specification has. */
  ghost predicate Loses(gens: seq<Generator>, y: string) {
    forall vars: Env, env: Env {:trigger Walk(IsTrue, gens, vars), Rows(IsTrue, gens, env)} :: !Stale(env, y) ==>
      && Walk(IsTrue, gens, vars).Some? && Rows(IsTrue, gens, env).Some?
      && |Walk(IsTrue, gens, vars).value.rows| < |Rows(IsTrue, gens, env).value|
  }

  lemma {:induction false} GateLoses(gens: seq<Generator>, y: string)
    requires gens != [] && Gate(gens, y, FIRST_STEP, 0) && Gate(gens, y, SECOND_STEP, 1)
    requires forall env: Env :: gens[0].iter.eval(env) == Twice()
    ensures Loses(gens, y)
  {
    StepsAre();
    forall vars: Env, env: Env | !Stale(env, y)
      ensures Walk(IsTrue, gens, vars).Some? && Rows(IsTrue, gens, env).Some?
      ensures |Walk(IsTrue, gens, vars).value.rows| < |Rows(IsTrue, gens, env).value|
    {
      var u := WalkAt(IsTrue, gens, FIRST_STEP, 0, vars);
      assert u.Some? && Stale(u.value.vars, y);
      WalkTwice(gens, FIRST_STEP, SECOND_STEP, vars);
      RowsTwice(gens, FIRST_STEP, SECOND_STEP, env);
    }
  }

  lemma {:induction false} OuterLoses(g: Generator, inside: seq<Generator>, y: string)
    requires 1 <= |g.targets| <= 2 && Loses(inside, y)
    ensures Loses([Outer(g)] + inside, y)
  {
    var gens := [Outer(g)] + inside;
    assert gens[1..] == inside;
    StepsAre();
    forall vars: Env, env: Env | !Stale(env, y)
      ensures Walk(IsTrue, gens, vars).Some? && Rows(IsTrue, gens, env).Some?
      ensures |Walk(IsTrue, gens, vars).value.rows| < |Rows(IsTrue, gens, env).value|
    {
      OuterStep(g, inside, y, FIRST_STEP, 0, vars, env);
      var u := WalkAt(IsTrue, gens, FIRST_STEP, 0, vars).value;
      OuterStep(g, inside, y, SECOND_STEP, 1, u.vars, env);
      WalkTwice(gens, FIRST_STEP, SECOND_STEP, vars);
      RowsTwice(gens, FIRST_STEP, SECOND_STEP, env);
    }
  }

  lemma {:induction false} OuterStep(
    g: Generator, inside: seq<Generator>, y: string, step: Step, k: nat, vars: Env, env: Env)
    requires 1 <= |g.targets| <= 2 && Loses(inside, y) && !Stale(env, y) && (step == FIRST_STEP || step == SECOND_STEP)
    ensures var gens := [Outer(g)] + inside;
      var t, rows := WalkAt(IsTrue, gens, step, k, vars), RowsAt(IsTrue, gens, step, k, env);
      t.Some? && rows.Some? && |t.value.rows| < |rows.value|
  {
    var gens := [Outer(g)] + inside;
    assert gens[0] == Outer(g) && gens[1..] == inside;
    BindSets(g.targets, step, vars, y);
    BindSets(g.targets, step, env, y);
    var v, e := Bind(g.targets, step, vars).value, Bind(g.targets, step, env).value;
    TruePasses(g.ifs, v);
    TruePasses(g.ifs, e);
    assert !Stale(e, y);
    var w, r := Walk(IsTrue, inside, v), Rows(IsTrue, inside, e);
    assert w.Some? && r.Some? && |w.value.rows| < |r.value|;
  }

  function Guarded(g: Generator, b: nat, y: string): Generator {
    Generator(g.targets, Always(g.iter, Twice()), AllTrueUnless(g.ifs, b, y))
  }

  /** A filter that reads a variable which only inner loops set. */
  lemma {:induction false} FilterGate(g: Generator, rest: seq<Generator>, b: nat, y: string, step: Step, k: nat)
    requires 1 <= |g.targets| <= 2 && Bindable(rest) && b < |g.ifs| && y in Vars(rest) && y !in g.targets
    ensures Gate([Guarded(g, b, y)] + Inners(rest), y, step, k)
  {
    var gens := [Guarded(g, b, y)] + Inners(rest);
    assert gens[0] == Guarded(g, b, y) && gens[1..] == Inners(rest);
    forall vars: Env
      ensures var t := WalkAt(IsTrue, gens, step, k, vars);
        t.Some? && Stale(t.value.vars, y) && |t.value.rows| == if Stale(vars, y) then 0 else 1
    {
      BindSets(g.targets, step, vars, y);
      var v := Bind(g.targets, step, vars).value;
      UnlessPasses(g.ifs, b, y, v);
      InnersRun(rest, v, y);
    }
    forall env: Env | !Stale(env, y)
      ensures RowsAt(IsTrue, gens, step, k, env).Some? && |RowsAt(IsTrue, gens, step, k, env).value| == 1
    {
      BindSets(g.targets, step, env, y);
      var e := Bind(g.targets, step, env).value;
      UnlessPasses(g.ifs, b, y, e);
      InnersRun(rest, e, y);
    }
  }

  function Fed(h: Generator, y: string): Generator {
    Generator(h.targets, Unless(h.iter, y, Never(), Once()), AllTrue(h.ifs))
  }

  /** An iterable that reads a variable which only it and inner loops set: empty once that is stale. */
  lemma {:induction false} FedRuns(h: Generator, rest: seq<Generator>, y: string, vars: Env)
    requires 1 <= |h.targets| <= 2 && Bindable(rest) && (y in h.targets || y in Vars(rest))
    ensures var t := Walk(IsTrue, [Fed(h, y)] + Inners(rest), vars);
      t.Some? && Stale(t.value.vars, y) && |t.value.rows| == if Stale(vars, y) then 0 else 1
    ensures var rows := Rows(IsTrue, [Fed(h, y)] + Inners(rest), vars);
      !Stale(vars, y) ==> rows.Some? && |rows.value| == 1
  {
    var gens := [Fed(h, y)] + Inners(rest);
    assert gens[0] == Fed(h, y) && gens[1..] == Inners(rest);
    StepsAre();
    if Stale(vars, y) {
      assert WalkTo(IsTrue, gens, [], 0, vars) == Some(Trace([], vars));
    } else {
      WalkOnce(gens, INNER_STEP, vars);
      RowsOnce(gens, INNER_STEP, vars);
      BindSets(h.targets, INNER_STEP, vars, y);
      var v := Bind(h.targets, INNER_STEP, vars).value;
      TruePasses(h.ifs, v);
      InnersRun(rest, v, y);
    }
  }

  lemma {:induction false} IterGate(g: Generator, h: Generator, rest: seq<Generator>, y: string, step: Step, k: nat)
    requires 1 <= |g.targets| <= 2 && 1 <= |h.targets| <= 2 && Bindable(rest)
    requires (y in h.targets || y in Vars(rest)) && y !in g.targets
    ensures Gate([Outer(g)] + ([Fed(h, y)] + Inners(rest)), y, step, k)
  {
    var inside := [Fed(h, y)] + Inners(rest);
    var gens := [Outer(g)] + inside;
    assert gens[0] == Outer(g) && gens[1..] == inside;
    forall vars: Env
      ensures var t := WalkAt(IsTrue, gens, step, k, vars);
        t.Some? && Stale(t.value.vars, y) && |t.value.rows| == if Stale(vars, y) then 0 else 1
    {
      BindSets(g.targets, step, vars, y);
      var v := Bind(g.targets, step, vars).value;
      TruePasses(g.ifs, v);
      FedRuns(h, rest, y, v);
    }
    forall env: Env | !Stale(env, y)
      ensures RowsAt(IsTrue, gens, step, k, env).Some? && |RowsAt(IsTrue, gens, step, k, env).value| == 1
    {
      BindSets(g.targets, step, env, y);
      var e := Bind(g.targets, step, env).value;
      TruePasses(g.ifs, e);
      FedRuns(h, rest, y, e);
    }
  }

  // The meanings are pure and keep the shape.

  ghost predicate Fine(gens: seq<Generator>, others: seq<Generator>) {
    SameShape(gens, others) && AllPure(others)
  }

  ghost predicate FineOne(g: Generator, h: Generator) {
    SameGenerator(g, h) && Pure(h.iter) && forall j :: 0 <= j < |h.ifs| ==> Pure(h.ifs[j])
  }

  lemma {:induction false} FineCons(g: Generator, h: Generator, gens: seq<Generator>, others: seq<Generator>)
    requires FineOne(g, h) && Fine(gens, others)
    ensures Fine([g] + gens, [h] + others)
  {
    var a, b := [g] + gens, [h] + others;
    forall i | 0 <= i < |a| ensures FineOne(a[i], b[i]) {
      if i > 0 {
        assert SameGenerator(gens[i - 1], others[i - 1]) && Pure(others[i - 1].iter);
      }
    }
    forall i | 0 <= i < |a| ensures SameGenerator(a[i], b[i]) {
      assert FineOne(a[i], b[i]);
    }
    forall i | 0 <= i < |b| ensures Pure(b[i].iter) && forall j :: 0 <= j < |b[i].ifs| ==> Pure(b[i].ifs[j]) {
      assert FineOne(a[i], b[i]);
    }
  }

  lemma {:induction false} AlwaysPure(e: Expr, v: Value)
    ensures Pure(Always(e, v))
  {
  }

  lemma {:induction false} UnlessPure(e: Expr, y: string, no: Value, yes: Value)
    requires y in e.names
    ensures Pure(Unless(e, y, no, yes))
  {
    var u := Unless(e, y, no, yes);
    forall a: Env, b: Env, hidden: set<string> | SameExcept(a, b, hidden) && u.names !! hidden
      ensures u.eval(a) == u.eval(b)
    {
      assert y !in hidden;
    }
  }

  lemma {:induction false} PlainFine(g: Generator, v: Value)
    ensures FineOne(g, Generator(g.targets, Always(g.iter, v), AllTrue(g.ifs)))
  {
    AlwaysPure(g.iter, v);
    forall j | 0 <= j < |g.ifs| ensures Pure(AllTrue(g.ifs)[j]) {
      AlwaysPure(g.ifs[j], Bool(true));
    }
  }

  lemma {:induction false} InnersFine(gens: seq<Generator>)
    ensures Fine(gens, Inners(gens))
    decreases |gens|
  {
    if gens != [] {
      PlainFine(gens[0], Once());
      InnersFine(gens[1..]);
      FineCons(gens[0], Inner(gens[0]), gens[1..], Inners(gens[1..]));
      assert [gens[0]] + gens[1..] == gens;
    }
  }

  lemma {:induction false} GuardedFine(g: Generator, b: nat, y: string)
    requires b < |g.ifs| && y in g.ifs[b].names
    ensures FineOne(g, Guarded(g, b, y))
  {
    AlwaysPure(g.iter, Twice());
    var r := AllTrueUnless(g.ifs, b, y);
    forall j | 0 <= j < |g.ifs| ensures Pure(r[j]) {
      if j == b {
        UnlessPure(g.ifs[j], y, Bool(false), Bool(true));
      } else {
        AlwaysPure(g.ifs[j], Bool(true));
      }
    }
  }

  lemma {:induction false} FedFine(h: Generator, y: string)
    requires y in h.iter.names
    ensures FineOne(h, Fed(h, y))
  {
    UnlessPure(h.iter, y, Never(), Once());
    forall j | 0 <= j < |h.ifs| ensures Pure(AllTrue(h.ifs)[j]) {
      AlwaysPure(h.ifs[j], Bool(true));
    }
  }

  /** Wherever a loop variable is read too early, some meaning of the expressions makes the walk lose rows. */
  lemma {:induction false} EarlyReadLoses(gens: seq<Generator>) returns (others: seq<Generator>, y: string)
    requires gens != [] && Bindable(gens) && !Inside(gens)
    ensures Fine(gens, others) && Loses(others, y)
    decreases |gens|
  {
    var g, rest, targets := gens[0], gens[1..], Names(gens[0].targets);
    assert gens == [g] + rest;
    assert Bindable(rest);
    if b :| 0 <= b < |g.ifs| && !(g.ifs[b].names !! Vars(rest) - targets) {
      y :| y in g.ifs[b].names && y in Vars(rest) - targets;
      others := [Guarded(g, b, y)] + Inners(rest);
      FilterGate(g, rest, b, y, FIRST_STEP, 0);
      FilterGate(g, rest, b, y, SECOND_STEP, 1);
      GateLoses(others, y);
      GuardedFine(g, b, y);
      InnersFine(rest);
      FineCons(g, Guarded(g, b, y), rest, Inners(rest));
    } else if !(rest[0].iter.names !! Vars(rest) - targets) {
      var h, tail := rest[0], rest[1..];
      assert rest == [h] + tail && Bindable(tail);
      y :| y in h.iter.names && y in Vars(rest) - targets;
      var inside := [Fed(h, y)] + Inners(tail);
      others := [Outer(g)] + inside;
      IterGate(g, h, tail, y, FIRST_STEP, 0);
      IterGate(g, h, tail, y, SECOND_STEP, 1);
      GateLoses(others, y);
      FedFine(h, y);
      InnersFine(tail);
      FineCons(h, Fed(h, y), tail, Inners(tail));
      PlainFine(g, Twice());
      FineCons(g, Outer(g), rest, inside);
    } else {
      var inside;
      inside, y := EarlyReadLoses(rest);
      others := [Outer(g)] + inside;
      OuterLoses(g, inside, y);
      PlainFine(g, Twice());
      FineCons(g, Outer(g), rest, inside);
    }
  }

  /** The walk reaches the specified rows and changes loop variables only. */
  ghost predicate Meets(gens: seq<Generator>, truthy: Value -> bool, env: Env) {
    Agrees(Walk(truthy, gens, env), Rows(truthy, gens, env), env, Vars(gens))
  }

  /**
   * Scoping is exactly what a comprehension needs: its loop variables and the names its expressions read are
   * scoped if and only if, whatever the expressions mean, the walk reaches the specified rows.
   */
  lemma {:induction false} ScopingIsExact(gens: seq<Generator>)
    requires gens != [] && Bindable(gens)
    ensures Inside(gens) <==>
      forall others: seq<Generator>, truthy: Value -> bool, env: Env ::
        Fine(gens, others) ==> Meets(others, truthy, env)
  {
    if Inside(gens) {
      forall others: seq<Generator>, truthy: Value -> bool, env: Env | Fine(gens, others)
        ensures Meets(others, truthy, env)
      {
        ShapeInside(gens, others);
        WalkMeetsRows(truthy, others, env);
      }
    } else {
      var others, y := EarlyReadLoses(gens);
      var env: Env := map[];
      var truthy: Value -> bool := IsTrue;
      var t, rows := Walk(truthy, others, env), Rows(truthy, others, env);
      assert t.Some? && rows.Some? && |t.value.rows| < |rows.value|;
      assert !Meets(others, truthy, env);
    }
  }
}
