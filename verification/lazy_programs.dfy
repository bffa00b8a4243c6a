/** Small programs, for all values and operators: what reads before and after an `if` yield, and in which order. */
module LazyPrograms {
  import opened Values
  import opened LazySyntax
  import opened LazyEmit
  import opened LazyMachine
  import opened LazyNested
  import opened LazySelected

  // ---- one load ----

  /** A forward read whose last setter stands in an `if` and is selected: the value that is stored there. */
  lemma {:induction false} ForwardRead(env: Env, st: State, x: string, stop: Id)
    requires x in env.setters && env.setters[x] != [] && Level(st, x) == 0
    requires x in st.vars && x !in st.cache && x != Target(st)
    requires
      var setter := env.setters[x][|env.setters[x]| - 1];
      Selects(env, Deepen(st, x), setter, stop) && StmtIn(env.body[setter.stmt], stop).target == x
    ensures
      var setter := env.setters[x][|env.setters[x]| - 1];
      LoadName(env, st, x).1 ==
        Stored(env, Reached(env, Deepen(st, x), setter, stop), StmtIn(env.body[setter.stmt], stop))
  {
    SelectedRead(env, st, x, stop);
    assert GetValue(env, st, x, st.vars[x]) == Backtrack(env, st, x);
  }

  /**
   * Loads that do not backtrack: a name that is no variable is undefined, a cached one has its cached value, and
   * a name without setters, one whose setters are all being run, or the target itself outside backtracking, has
   * the value of its variable.
   */
  lemma {:induction false} PlainLoads(env: Env, st: State, x: string)
    ensures x !in st.vars ==> LoadName(env, st, x).1 == Undefined
    ensures x in st.vars && x == Target(st) && Level(st, x) == 0 ==> LoadName(env, st, x).1 == st.vars[x]
    ensures x in st.vars && x != Target(st) && x in st.cache ==> LoadName(env, st, x).1 == st.cache[x]
    ensures x in st.vars && x !in st.cache && (x !in env.setters || Level(st, x) >= |env.setters[x]|) ==>
      LoadName(env, st, x).1 == st.vars[x]
  {
  }

  // ---- expressions of literals ----

  /** Operators take their operands in order; `and`, `or` and conditionals choose. */
  lemma {:induction false} LiteralValues(env: Env, st: State, op: Operator, a: Value, b: Value, c: Value)
    ensures WalkExpr(env, st, Binary(op, Lit(a), Lit(b))).1 == env.sem.binary(op, a, b)
    ensures WalkExpr(env, st, Logic(true, Lit(a), Lit(b))).1 == if env.sem.truthy(a) then b else a
    ensures WalkExpr(env, st, Logic(false, Lit(a), Lit(b))).1 == if env.sem.truthy(a) then a else b
    ensures WalkExpr(env, st, Cond(Lit(c), Lit(a), Lit(b))).1 == if env.sem.truthy(c) then a else b
  {
    assert WalkExpr(env, st, Lit(a)) == (st, a) && WalkExpr(env, st, Lit(b)) == (st, b);
    assert WalkExpr(env, st, Lit(c)) == (st, c);
  }

  // ---- the order of reads ----

  /** The names of an expression in text order. */
  function NamesIn(e: Expr): seq<string> {
    match e
    case Lit(_) => []
    case Name(x) => [x]
    case Binary(_, l, r) => NamesIn(l) + NamesIn(r)
    case Logic(_, l, r) => NamesIn(l) + NamesIn(r)
    case Cond(c, t, f) => NamesIn(c) + NamesIn(t) + NamesIn(f)
  }

  predicate Strict(e: Expr) {
    match e
    case Lit(_) => true
    case Name(_) => true
    case Binary(_, l, r) => Strict(l) && Strict(r)
    case Logic(_, _, _) => false
    case Cond(_, _, _) => false
  }

  /** A name whose load starts no backtracking. */
  predicate Quiet(env: Env, st: State, x: string) {
    || x !in st.vars
    || (if x == Target(st) then Level(st, x) == 0 else x in st.cache || x !in env.setters)
  }

  predicate AllQuiet(env: Env, st: State, xs: seq<string>) {
    forall i :: 0 <= i < |xs| ==> Quiet(env, st, xs[i])
  }

  function Loaded(st: State, x: string): Read {
    Read(Target(st), x,
         if x !in st.vars then Undefined else if x != Target(st) && x in st.cache then st.cache[x] else st.vars[x])
  }

  function Loads(st: State, xs: seq<string>): (rs: seq<Read>)
    ensures |rs| == |xs| && forall i :: 0 <= i < |xs| ==> rs[i] == Loaded(st, xs[i])
  {
    seq(|xs|, i requires 0 <= i < |xs| => Loaded(st, xs[i]))
  }

  function Logged(st: State, rs: seq<Read>): State {
    st.(readLog := st.readLog + rs)
  }

  lemma {:induction false} LoggedTwice(st: State, xs: seq<string>, ys: seq<string>)
    ensures Logged(Logged(st, Loads(st, xs)), Loads(st, ys)) == Logged(st, Loads(st, xs + ys))
  {
    assert Loads(st, xs + ys) == Loads(st, xs) + Loads(st, ys);
    assert (st.readLog + Loads(st, xs)) + Loads(st, ys) == st.readLog + (Loads(st, xs) + Loads(st, ys));
  }

  lemma {:induction false} LoggedSame(env: Env, st: State, rs: seq<Read>, ys: seq<string>)
    ensures Loads(Logged(st, rs), ys) == Loads(st, ys)
    ensures AllQuiet(env, Logged(st, rs), ys) <==> AllQuiet(env, st, ys)
  {
    forall i | 0 <= i < |ys|
      ensures Quiet(env, Logged(st, rs), ys[i]) <==> Quiet(env, st, ys[i])
      ensures Loaded(Logged(st, rs), ys[i]) == Loaded(st, ys[i])
    {
    }
  }

  lemma {:induction false} QuietParts(env: Env, st: State, xs: seq<string>, ys: seq<string>)
    requires AllQuiet(env, st, xs + ys)
    ensures AllQuiet(env, st, xs) && AllQuiet(env, st, ys)
  {
    forall i | 0 <= i < |xs| ensures Quiet(env, st, xs[i]) {
      assert xs[i] == (xs + ys)[i];
    }
    forall i | 0 <= i < |ys| ensures Quiet(env, st, ys[i]) {
      assert ys[i] == (xs + ys)[|xs| + i];
    }
  }

  lemma {:induction false} LoadLogs(env: Env, st: State, x: string)
    requires Quiet(env, st, x)
    ensures LoadName(env, st, x) == (Logged(st, [Loaded(st, x)]), Loaded(st, x).value)
  {
  }

  /** Operands are evaluated from left to right: the reads of an expression are logged in text order. */
  lemma {:induction false} ReadsInOrder(env: Env, st: State, e: Expr)
    requires Strict(e) && AllQuiet(env, st, NamesIn(e))
    ensures WalkExpr(env, st, e).0 == Logged(st, Loads(st, NamesIn(e)))
    decreases e
  {
    match e
    case Lit(_) => assert st.readLog + [] == st.readLog;
    case Name(x) =>
      assert NamesIn(e)[0] == x;
      LoadLogs(env, st, x);
      assert Loads(st, [x]) == [Loaded(st, x)];
    case Binary(op, l, r) =>
      ReadsOfBoth(env, st, op, l, r);
  }

  lemma {:induction false} ReadsOfBoth(env: Env, st: State, op: Operator, l: Expr, r: Expr)
    requires Strict(l) && Strict(r) && AllQuiet(env, st, NamesIn(l) + NamesIn(r))
    ensures WalkExpr(env, st, Binary(op, l, r)).0 == Logged(st, Loads(st, NamesIn(l) + NamesIn(r)))
    decreases Binary(op, l, r), 0
  {
    var xs, ys := NamesIn(l), NamesIn(r);
    QuietParts(env, st, xs, ys);
    ReadsInOrder(env, st, l);
    var st1 := WalkExpr(env, st, l).0;
    LoggedSame(env, st, Loads(st, xs), ys);
    ReadsInOrder(env, st1, r);
    LoggedTwice(st, xs, ys);
    BinaryWalk(env, st, op, l, r);
  }

  lemma {:induction false} BinaryWalk(env: Env, st: State, op: Operator, l: Expr, r: Expr)
    ensures WalkExpr(env, st, Binary(op, l, r)).0 == WalkExpr(env, WalkExpr(env, st, l).0, r).0
  {
  }

  /** An augmented assignment reads its value first and its target's own value last. */
  lemma {:induction false} AugmentedReads(env: Env, st: State, x: string, e: Expr)
    requires Strict(e) && AllQuiet(env, st, NamesIn(e) + [x])
    ensures AugOperands(env, st, x, e).0 == Logged(st, Loads(st, NamesIn(e) + [x]))
  {
    var xs := NamesIn(e);
    QuietParts(env, st, xs, [x]);
    ReadsInOrder(env, st, e);
    var st1 := WalkExpr(env, st, e).0;
    LoggedSame(env, st, Loads(st, xs), [x]);
    assert Quiet(env, st1, [x][0]);
    LoadLogs(env, st1, x);
    assert Loads(st1, [x]) == [Loaded(st1, x)];
    LoggedTwice(st, xs, [x]);
  }

  // ---- a read before an `if` whose else part sets the name ----

  /** `y = x`, then `if no: z = u` with `else: x = v`. */
  function ElseBody(y: string, x: string, z: string, no: Value, u: Value, v: Value): seq<Stmt> {
    [Assign(0, y, Name(x)), If(1, Lit(no), [Assign(2, z, Lit(u))], [Assign(3, x, Lit(v))])]
  }

  lemma {:induction false} ElseBindings(x: string, z: string, no: Value, u: Value, v: Value)
    ensures StmtBindings(ElseBody("", x, z, no, u, v)[1], 1) ==
      [Binding(z, Setter(1, 1, Some(2), IfBranch)), Binding(x, Setter(1, 1, Some(3), SetterKind.OrElse))]
  {
    OneLeaf(2, z, Lit(u));
    OneLeaf(3, x, Lit(v));
  }

  lemma {:induction false} ElseSetters(y: string, x: string, z: string, no: Value, u: Value, v: Value)
    requires x != y && x != z
    ensures
      var m := SetterTable(ElseBody(y, x, z, no, u, v));
      x in m && m[x] == [Setter(1, 1, Some(3), SetterKind.OrElse)]
  {
    var a, b, c := Binding(y, Setter(0, 0, Option.None, Normal)), Binding(z, Setter(1, 1, Some(2), IfBranch)),
      Binding(x, Setter(1, 1, Some(3), SetterKind.OrElse));
    TwoBindings(ElseBody(y, x, z, no, u, v)[0], ElseBody(y, x, z, no, u, v)[1]);
    ElseBindings(x, z, no, u, v);
    assert BodyBindings(ElseBody(y, x, z, no, u, v)) == [a] + [b, c];
    TableOfLast(a, b, c);
  }

  lemma {:induction false} TableOfLast(a: Binding, b: Binding, c: Binding)
    requires a.name != c.name && b.name != c.name
    ensures
      var m := PushAll(map[], [a] + [b, c]);
      c.name in m && m[c.name] == [c.setter]
  {
    assert [a] + [b, c] == [a, b, c];
    SelectLastOf(a, b, c);
    TableAt([a, b, c], c.name);
  }

  lemma {:induction false} SelectLastOf(a: Binding, b: Binding, c: Binding)
    requires a.name != c.name && b.name != c.name
    ensures Select([a, b, c], c.name) == [c.setter]
  {
    var x := c.name;
    assert [a, b, c][..2] == [a, b] && [a, b][..1] == [a] && [a][..0] == [];
    assert Select([], x) == [] && Select([a], x) == [] && Select([a, b], x) == [];
  }

  lemma {:induction false} ElseWalk(
    env: Env, st: State, setter: Setter, x: string, z: string, no: Value, u: Value, v: Value)
    requires setter == Setter(1, 1, Some(3), SetterKind.OrElse) && !env.sem.truthy(no)
    requires |env.body| == 2 && env.body[1] == ElseBody("", x, z, no, u, v)[1]
    ensures WalkSetter(env, st, setter).vars == st.vars[x := v]
  {
    var s := env.body[1];
    var begun := Begun(env, st, setter);
    var a := s.orelse[0];
    var deeper := st.(metas := st.metas + [Meta(setter.stopped, false, setter.kind)]);
    WalkOne(env, begun, a);
    AssignLit(env, Enter(begun, a), x, v);
    assert WalkStmt(env, begun, a).vars == WalkAssign(env, Enter(begun, a), x, Lit(v)).vars;
    assert WalkIf(env, begun, s) == WalkStmts(env, begun, [a]);
    assert WalkStmt(env, deeper, s).vars == WalkIf(env, begun, s).vars;
  }

  lemma {:induction false} ElseLoad(env: Env, st: State, x: string, z: string, no: Value, u: Value, v: Value)
    requires |env.body| == 2 && env.body[1] == ElseBody("", x, z, no, u, v)[1] && x != Target(st)
    requires x in env.setters && env.setters[x] == [Setter(1, 1, Some(3), SetterKind.OrElse)]
    requires st.cache == map[] && st.levels == map[] && x in st.vars && !env.sem.truthy(no)
    ensures LoadName(env, st, x).1 == v
  {
    ElseWalk(env, Deepen(st, x), env.setters[x][0], x, z, no, u, v);
    BacktrackIs(env, st, x, WalkSetter(env, Deepen(st, x), env.setters[x][0]));
  }

  lemma {:induction false} ElseStarts(y: string, x: string, z: string, no: Value, u: Value, v: Value)
    ensures x in Predefined(ElseBody(y, x, z, no, u, v))
  {
    var body := ElseBody(y, x, z, no, u, v);
    assert body[1..][0] == body[1] && body[1].orelse[0] == Assign(3, x, Lit(v));
    assert x in Predefined(body[1].orelse);
    assert x in Predefined(body[1..]);
  }

  /** The reader gets the value that the else part assigns, whatever the values are, and the name ends with it. */
  lemma {:induction false} ElseReadRight(
    sem: Semantics, y: string, x: string, z: string, no: Value, u: Value, v: Value, seed: Id)
    requires x != y && x != z && !sem.truthy(no)
    ensures
      var body := ElseBody(y, x, z, no, u, v);
      var st := After(Env(sem, body, SetterTable(body)), seed, |body|);
      Variable(st, y) == v && Variable(st, x) == v
  {
    var body := ElseBody(y, x, z, no, u, v);
    var env := Env(sem, body, SetterTable(body));
    ElseSetters(y, x, z, no, u, v);
    ElseStarts(y, x, z, no, u, v);
    AfterStep(env, seed, 0);
    AfterStep(env, seed, 1);
    assert body[..0] == [] && After(env, seed, 0) == Init(env, seed);
    ElseFirst(env, Init(env, seed), y, x, z, no, u, v);
    ElseMain(env, After(env, seed, 1), x, z, no, u, v);
  }

  lemma {:induction false} ElseFirst(
    env: Env, st: State, y: string, x: string, z: string, no: Value, u: Value, v: Value)
    requires env.body == ElseBody(y, x, z, no, u, v) && x != y && !env.sem.truthy(no)
    requires x in env.setters && env.setters[x] == [Setter(1, 1, Some(3), SetterKind.OrElse)]
    requires st.metas == [] && st.cache == map[] && st.levels == map[] && st.targets == [] && x in st.vars
    ensures
      var st' := WalkStmt(env, st, env.body[0]);
      st'.metas == [] && Variable(st', y) == v
  {
    var pushed := Enter(st, env.body[0]).(targets := [y]);
    ElseLoad(env, pushed, x, z, no, u, v);
    assert WalkStmt(env, st, env.body[0]) == WalkAssign(env, Enter(st, env.body[0]), y, Name(x));
  }

  lemma {:induction false} ElseMain(env: Env, st: State, x: string, z: string, no: Value, u: Value, v: Value)
    requires st.metas == [] && !env.sem.truthy(no)
    ensures
      var st' := WalkStmt(env, st, ElseBody("", x, z, no, u, v)[1]);
      Variable(st', x) == v && forall y :: y != x ==> Variable(st', y) == Variable(st, y)
  {
    var s := ElseBody("", x, z, no, u, v)[1];
    MainIf(env, st, s);
    MainAssign(env, Enter(st, s), 3, x, v);
  }

  // ---- a read after an `if` whose else part updates the name ----

  /** `x = a`, then `if no: x = b` with `else: x op= c`, then `y = x`. */
  function UpdateBody(y: string, x: string, no: Value, a: Value, b: Value, op: Operator, c: Value): seq<Stmt> {
    [Assign(0, x, Lit(a)), If(1, Lit(no), [Assign(2, x, Lit(b))], [AugAssign(3, x, op, Lit(c))]), Assign(4, y, Name(x))]
  }

  ghost predicate UpdateSetters(env: Env, x: string) {
    && x in env.setters
    && env.setters[x] == [Setter(0, 0, Option.None, Normal), Setter(1, 1, Some(2), IfBranch),
                          Setter(1, 1, Some(3), SetterKind.OrElse)]
  }

  lemma {:induction false} UpdateBindings(y: string, x: string, no: Value, a: Value, b: Value, op: Operator, c: Value)
    ensures BodyBindings(UpdateBody(y, x, no, a, b, op, c)) ==
      [Binding(x, Setter(0, 0, Option.None, Normal)), Binding(x, Setter(1, 1, Some(2), IfBranch)),
       Binding(x, Setter(1, 1, Some(3), SetterKind.OrElse))] + [Binding(y, Setter(2, 4, Option.None, Normal))]
  {
    var body := UpdateBody(y, x, no, a, b, op, c);
    TwoBindings(body[0], body[1]);
    assert body[..2] == [body[0], body[1]];
    OneLeaf(2, x, Lit(b));
    OneUpdate(3, x, op, Lit(c));
    var f, g := Binding(x, Setter(1, 1, Some(2), IfBranch)), Binding(x, Setter(1, 1, Some(3), SetterKind.OrElse));
    assert StmtBindings(body[1], 1) == [f] + [g];
  }

  lemma {:induction false} OneUpdate(id: Id, x: string, op: Operator, e: Expr)
    ensures Leaves([AugAssign(id, x, op, e)]) == [Occurrence(x, id)]
  {
    assert [AugAssign(id, x, op, e)][..0] == [];
    assert Leaves([]) == [];
  }

  lemma {:induction false} SelectFirstThree(a: Binding, b: Binding, c: Binding, d: Binding)
    requires a.name == b.name == c.name != d.name
    ensures Select([a, b, c] + [d], a.name) == [a.setter, b.setter, c.setter]
  {
    var x, bs := a.name, [a, b, c] + [d];
    assert bs[..3] == [a, b, c];
    assert [a, b, c][..2] == [a, b] && [a, b][..1] == [a] && [a][..0] == [];
    assert Select([], x) == [] && Select([a], x) == [a.setter];
    assert Select([a, b], x) == [a.setter, b.setter];
    assert Select([a, b, c], x) == [a.setter, b.setter, c.setter];
  }

  /** A state of the main walk between two statements, without a backtracking level. */
  predicate Plain(st: State) { st.metas == [] && st.targets == [] && st.levels == map[] }

  /** The state after a store outside backtracking. */
  lemma {:induction false} StoreState(env: Env, st: State, x: string, v: Value)
    requires Level(st, x) == 0
    ensures
      var st', n := PopTarget(Store(env, st, x, v)), CalTimes(st, x) + 1;
      && st'.vars == st.vars[x := v] && st'.levels == st.levels && st'.calTimes == st.calTimes[x := n]
      && st'.metas == st.metas && st'.targets == PopTarget(st).targets
      && st'.cache ==
           if (n >= |SettersOf(env, x)| || IsLastSetter(env, st, x)) && x !in st.cache then st.cache[x := v]
           else st.cache
  {
    var n := CalTimes(st, x) + 1;
    var st1 := st.(vars := st.vars[x := v], calTimes := st.calTimes[x := n]);
    CountIs(env, st.(vars := st.vars[x := v]), x);
    assert IsLastSetter(env, st1, x) == IsLastSetter(env, st, x);
    StoreIs(env, st, x, v, st1, n >= |SettersOf(env, x)|);
  }

  lemma {:induction false} CountIs(env: Env, st: State, x: string)
    requires Level(st, x) == 0
    ensures
      var n := CalTimes(st, x) + 1;
      CalIncrement(env, st, x) == (st.(calTimes := st.calTimes[x := n]), n >= |SettersOf(env, x)|)
  {
  }

  lemma {:induction false} StoreIs(env: Env, st: State, x: string, v: Value, st1: State, all: bool)
    requires CalIncrement(env, st.(vars := st.vars[x := v]), x) == (st1, all)
    ensures Store(env, st, x, v) ==
      if (all || IsLastSetter(env, st1, x)) && x !in st1.cache then st1.(cache := st1.cache[x := v]) else st1
  {
  }

  lemma {:induction false} WalkLit(env: Env, st: State, x: string, v: Value)
    ensures WalkAssign(env, st, x, Lit(v)) == PopTarget(Store(env, st.(targets := st.targets + [x]), x, v))
  {
    var pushed := st.(targets := st.targets + [x]);
    assert WalkExpr(env, pushed, Lit(v)) == (pushed, v);
  }

  lemma {:induction false} LeafWalk(env: Env, st: State, s: Stmt)
    requires !s.If? && st.metas == []
    ensures WalkStmt(env, st, s) == WalkEntered(env, Enter(st, s), s)
  {
  }

  lemma {:induction false} FirstSet(env: Env, st: State, x: string, a: Value)
    requires UpdateSetters(env, x) && Plain(st) && st.cache == map[] && st.calTimes == map[]
    ensures
      var st' := WalkStmt(env, st, Assign(0, x, Lit(a)));
      Plain(st') && st'.cache == map[] && st'.calTimes == map[x := 1] && st'.vars == st.vars[x := a]
  {
    var s := Assign(0, x, Lit(a));
    LeafWalk(env, st, s);
    WalkLit(env, Enter(st, s), x, a);
    StoreState(env, Enter(st, s).(targets := [] + [x]), x, a);
  }

  lemma {:induction false} UpdateWalk(env: Env, st: State, x: string, op: Operator, c: Value)
    requires x in st.vars && Level(st, x) == 0
    ensures
      var pushed := st.(targets := st.targets + [x]);
      WalkAugAssign(env, st, x, op, Lit(c)) ==
        PopTarget(Store(env, LoadName(env, pushed, x).0, x, env.sem.binary(op, st.vars[x], c)))
    ensures
      var pushed := st.(targets := st.targets + [x]);
      LoadName(env, pushed, x).0 == pushed.(readLog := LoadName(env, pushed, x).0.readLog)
  {
    var pushed := st.(targets := st.targets + [x]);
    assert WalkExpr(env, pushed, Lit(c)) == (pushed, c);
    assert GetValue(env, pushed, x, st.vars[x]) == (pushed, st.vars[x]);
  }

  lemma {:induction false} ElseUpdates(env: Env, st: State, x: string, op: Operator, c: Value)
    requires UpdateSetters(env, x) && Plain(st) && st.cache == map[] && st.calTimes == map[x := 1] && x in st.vars
    ensures
      var st' := WalkStmt(env, st, AugAssign(3, x, op, Lit(c)));
      var v := env.sem.binary(op, st.vars[x], c);
      Plain(st') && st'.cache == map[x := v] && st'.vars == st.vars[x := v]
  {
    var s := AugAssign(3, x, op, Lit(c));
    LeafWalk(env, st, s);
    UpdateWalk(env, Enter(st, s), x, op, c);
    var loaded := LoadName(env, Enter(st, s).(targets := st.targets + [x]), x).0;
    StoreState(env, loaded, x, env.sem.binary(op, st.vars[x], c));
  }

  lemma {:induction false} CachedRead(env: Env, st: State, y: string, x: string, v: Value)
    requires Plain(st) && x != y && x in st.vars && st.cache == map[x := v]
    ensures
      var st' := WalkStmt(env, st, Assign(4, y, Name(x)));
      Variable(st', y) == v && Variable(st', x) == Variable(st, x)
  {
    var s := Assign(4, y, Name(x));
    var pushed := Enter(st, s).(targets := [] + [y]);
    LeafWalk(env, st, s);
    LoadLogs(env, pushed, x);
    assert WalkExpr(env, pushed, Name(x)) == LoadName(env, pushed, x);
    StoreState(env, LoadName(env, pushed, x).0, y, v);
  }

  /**
   * The update runs once, on the value before it: the name and its reader end with it, although the setter of the
   * other branch has not run.
   */
  lemma {:induction false} UpdateReadRight(
    sem: Semantics, y: string, x: string, no: Value, a: Value, b: Value, op: Operator, c: Value, seed: Id)
    requires x != y && !sem.truthy(no)
    ensures
      var body := UpdateBody(y, x, no, a, b, op, c);
      var st := After(Env(sem, body, SetterTable(body)), seed, |body|);
      Variable(st, y) == sem.binary(op, a, c) && Variable(st, x) == sem.binary(op, a, c)
  {
    var body := UpdateBody(y, x, no, a, b, op, c);
    var env := Env(sem, body, SetterTable(body));
    UpdateBindings(y, x, no, a, b, op, c);
    var bs := BodyBindings(body);
    SelectFirstThree(bs[0], bs[1], bs[2], bs[3]);
    TableAt(bs, x);
    assert body[..0] == [] && After(env, seed, 0) == Init(env, seed);
    UpdateRun(env, seed, y, x, no, a, b, op, c);
  }

  lemma {:induction false} UpdateRun(
    env: Env, seed: Id, y: string, x: string, no: Value, a: Value, b: Value, op: Operator, c: Value)
    requires env.body == UpdateBody(y, x, no, a, b, op, c) && UpdateSetters(env, x)
    requires x != y && !env.sem.truthy(no) && After(env, seed, 0) == Init(env, seed)
    ensures
      var st := After(env, seed, 3);
      Variable(st, y) == env.sem.binary(op, a, c) && Variable(st, x) == env.sem.binary(op, a, c)
  {
    var st := WalkStmt(env, WalkStmt(env, Init(env, seed), env.body[0]), env.body[1]);
    AfterThree(env, seed);
    FirstTwo(env, Init(env, seed), x, no, a, b, op, c);
    CachedRead(env, st, y, x, env.sem.binary(op, a, c));
  }

  lemma {:induction false} AfterThree(env: Env, seed: Id)
    requires |env.body| == 3
    ensures After(env, seed, 3) ==
      WalkStmt(env, WalkStmt(env, WalkStmt(env, After(env, seed, 0), env.body[0]), env.body[1]), env.body[2])
  {
    AfterTwo(env, seed, 0);
    AfterStep(env, seed, 2);
  }

  lemma {:induction false} AfterTwo(env: Env, seed: Id, p: nat)
    requires p + 2 <= |env.body|
    ensures After(env, seed, p + 2) == WalkStmt(env, WalkStmt(env, After(env, seed, p), env.body[p]), env.body[p + 1])
  {
    var q := p + 1;
    AfterStep(env, seed, p);
    AfterStep(env, seed, q);
  }

  lemma {:induction false} FirstTwo(
    env: Env, st: State, x: string, no: Value, a: Value, b: Value, op: Operator, c: Value)
    requires UpdateSetters(env, x) && Plain(st) && st.cache == map[] && st.calTimes == map[] && !env.sem.truthy(no)
    ensures
      var body := UpdateBody("", x, no, a, b, op, c);
      var st', v := WalkStmt(env, WalkStmt(env, st, body[0]), body[1]), env.sem.binary(op, a, c);
      Plain(st') && st'.cache == map[x := v] && x in st'.vars && st'.vars[x] == v
  {
    FirstSet(env, st, x, a);
    UpdateIf(env, WalkStmt(env, st, Assign(0, x, Lit(a))), x, no, b, op, c);
  }

  lemma {:induction false} UpdateIf(env: Env, st: State, x: string, no: Value, b: Value, op: Operator, c: Value)
    requires UpdateSetters(env, x) && Plain(st) && st.cache == map[] && st.calTimes == map[x := 1] && x in st.vars
    requires !env.sem.truthy(no)
    ensures
      var st' := WalkStmt(env, st, UpdateBody("", x, no, b, b, op, c)[1]);
      var v := env.sem.binary(op, st.vars[x], c);
      Plain(st') && st'.cache == map[x := v] && st'.vars == st.vars[x := v]
  {
    var s := UpdateBody("", x, no, b, b, op, c)[1];
    MainIf(env, st, s);
    WalkOne(env, Enter(st, s), s.orelse[0]);
    ElseUpdates(env, Enter(st, s), x, op, c);
  }
}
