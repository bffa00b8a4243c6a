/**
 * Lazy evaluation refines the order-free meaning: under the invariant below every read of
 * another name yields that name's value in the solution, however deep the backtracking is.
 */
module LazyRefine {
  import opened Values
  import opened LazySyntax
  import opened LazyMachine
  import opened LazySpec

  /** Ids of the statements that some backtracking step executed. */
  ghost function BackIds(vs: seq<Visit>): set<Id> {
    if vs == [] then {} else
    var k := |vs| - 1;
    BackIds(vs[..k]) + (if vs[k].depth > 0 then {vs[k].id} else {})
  }

  /** No statement is executed by two backtracking steps. */
  ghost predicate NoRepeat(vs: seq<Visit>) {
    vs == [] ||
    var k := |vs| - 1;
    NoRepeat(vs[..k]) && (vs[k].depth > 0 ==> vs[k].id !in BackIds(vs[..k]))
  }

  lemma {:induction false} LogVisit(vs: seq<Visit>, v: Visit)
    ensures BackIds(vs + [v]) == BackIds(vs) + (if v.depth > 0 then {v.id} else {})
    ensures NoRepeat(vs) && (v.depth > 0 ==> v.id !in BackIds(vs)) ==> NoRepeat(vs + [v])
  {
    var ws := vs + [v];
    assert ws[..|ws| - 1] == vs;
  }

  /** The part of a state that the invariant speaks of, name by name. */
  datatype Core = Core(
    vars: map<string, Value>,
    cache: map<string, Value>,
    levels: map<string, nat>,
    calTimes: map<string, nat>,
    forced: map<string, nat>,
    back: set<Id>)

  ghost function CoreOf(st: State): Core {
    Core(st.vars, st.cache, st.levels, st.calTimes, st.forced, BackIds(st.visits))
  }

  ghost predicate Fragment(env: Env, rho: Valuation, rank: map<string, nat>) {
    StraightLine(env) && Solution(env, rho) && Acyclic(env, rank)
  }

  /** Backtracking has executed no statement of `x` before position `bound`. */
  ghost predicate Unvisited(env: Env, c: Core, x: string, bound: nat)
    requires StraightLine(env)
  {
    forall p :: 0 <= p < bound && p < |env.body| && env.body[p].target == x ==>
      env.body[p].id !in c.back
  }

  /** A name no backtracking is inside of: what its cache and variable hold. */
  ghost predicate NameOk(env: Env, rho: Valuation, c: Core, x: string)
    requires StraightLine(env) && x in env.setters && x in rho
  {
    var n, done := |env.setters[x]|, Count(c.calTimes, x);
    && Count(c.levels, x) == 0
    && done <= n
    && if x in c.cache then
         && c.cache[x] == rho[x]
         && if x in c.forced then
              c.forced[x] <= done && Lookup(c.vars, x) == Run(env, rho, x, rho[x], c.forced[x], done)
            else
              done == n && Lookup(c.vars, x) == rho[x]
       else
         && x !in c.forced && done < n && Lookup(c.vars, x) == Fold(env, rho, x, done)
         && Unvisited(env, c, x, |env.body|)
  }

  /** Every name ranked below `r` is as `NameOk` says. */
  ghost predicate Settled(env: Env, rho: Valuation, rank: map<string, nat>, c: Core, r: nat)
    requires StraightLine(env) && rank.Keys == env.setters.Keys == rho.Keys
  {
    forall z :: z in env.setters && rank[z] < r ==> NameOk(env, rho, c, z)
  }

  ghost predicate SameAt<T(!new)>(m: map<string, T>, m': map<string, T>, x: string) {
    (x in m <==> x in m') && (x in m ==> m[x] == m'[x])
  }

  ghost predicate Untouched(c: Core, c': Core, x: string) {
    && Count(c.levels, x) == Count(c'.levels, x)
    && SameAt(c.vars, c'.vars, x) && SameAt(c.cache, c'.cache, x) && SameAt(c.forced, c'.forced, x)
  }

  /**
   * What happens while a statement of `x` is evaluated: only names below `x` and `x` itself
   * may change, what is cached below `x` stays as it is, and backtracking executes only statements of
   * names below `x` and statements of `x` before position `bound`.
   */
  ghost predicate Framed(env: Env, rank: map<string, nat>, c: Core, c': Core, x: string, bound: nat)
    requires StraightLine(env) && rank.Keys == env.setters.Keys && x in rank
  {
    && c'.calTimes == c.calTimes && c'.vars.Keys == c.vars.Keys
    && Count(c'.levels, x) == Count(c.levels, x)
    && (forall z :: z in rank && z != x && rank[z] >= rank[x] ==> Untouched(c, c', z))
    && (forall z :: z in rank && rank[z] < rank[x] && z in c.cache ==>
          SameAt(c.cache, c'.cache, z) && SameAt(c.forced, c'.forced, z))
    && (forall z :: z in rank && rank[z] < rank[x] && z in c'.forced ==>
          SameAt(c.forced, c'.forced, z) || c'.forced[z] == Count(c.calTimes, z))
    && (forall p :: 0 <= p < |env.body| && env.body[p].id in c'.back ==>
          || env.body[p].id in c.back
          || rank[env.body[p].target] < rank[x]
          || (env.body[p].target == x && p < bound))
  }

  /**
   * The state of `x` itself while its statement is evaluated: by the main walk (k == 0), or as
   * the setter number k - 1 by backtracking. `own` is what a read of `x` then yields.
   */
  ghost predicate Self(env: Env, rho: Valuation, c: Core, x: string, k: nat, own: Value)
    requires StraightLine(env) && x in env.setters && k <= |env.setters[x]|
  {
    if k == 0 then
      Count(c.levels, x) == 0 && Lookup(c.vars, x) == own
    else
      && Count(c.levels, x) == |env.setters[x]| - k + 1
      && own == Fold(env, rho, x, k - 1)
      && if x in c.cache then c.cache[x] == own
         else Unvisited(env, c, x, env.setters[x][k - 1].stmt)
  }

  /** The position before which a statement of `x` under evaluation (see `Self`) may backtrack. */
  function Before(env: Env, x: string, k: nat): nat
    requires x in env.setters && k <= |env.setters[x]|
  {
    if k == 0 then 0 else env.setters[x][k - 1].stmt
  }

  /** What evaluating part of a statement of `x` may have changed. */
  ghost predicate Moved(env: Env, rank: map<string, nat>, c: Core, c': Core, x: string, k: nat)
    requires StraightLine(env) && rank.Keys == env.setters.Keys && x in rank && k <= |env.setters[x]|
  {
    && Framed(env, rank, c, c', x, Before(env, x, k))
    && SameAt(c.forced, c'.forced, x)
    && (k == 0 ==> Untouched(c, c', x))
  }

  lemma {:induction false} MovedRefl(env: Env, rank: map<string, nat>, c: Core, x: string, k: nat)
    requires StraightLine(env) && rank.Keys == env.setters.Keys && x in rank && k <= |env.setters[x]|
    ensures Moved(env, rank, c, c, x, k)
  {
  }

  lemma {:induction false} MovedTrans(env: Env, rank: map<string, nat>, a: Core, b: Core, c: Core, x: string, k: nat)
    requires StraightLine(env) && rank.Keys == env.setters.Keys && x in rank && k <= |env.setters[x]|
    requires Moved(env, rank, a, b, x, k) && Moved(env, rank, b, c, x, k)
    ensures Moved(env, rank, a, c, x, k)
  {
    forall z | z in rank && z != x && rank[z] >= rank[x] ensures Untouched(a, c, z) {
      assert Untouched(a, b, z) && Untouched(b, c, z);
    }
  }

  lemma {:induction false} NameOkKept(env: Env, rho: Valuation, c: Core, c': Core, x: string)
    requires StraightLine(env) && x in env.setters && x in rho
    requires NameOk(env, rho, c, x) && Untouched(c, c', x) && Count(c'.calTimes, x) == Count(c.calTimes, x)
    requires Unvisited(env, c, x, |env.body|) ==> Unvisited(env, c', x, |env.body|)
    ensures NameOk(env, rho, c', x)
  {
  }

  /** After backtracking has settled `y`, everything below `x` is settled again. */
  lemma {:induction false} CrossSettled(
    env: Env, rho: Valuation, rank: map<string, nat>, c: Core, c': Core, y: string, r: nat)
    requires Fragment(env, rho, rank) && y in rank && rank[y] < r
    requires Settled(env, rho, rank, c, r) && Settled(env, rho, rank, c', rank[y])
    requires NameOk(env, rho, c', y)
    requires Framed(env, rank, c, c', y, |env.body|)
    ensures Settled(env, rho, rank, c', r)
  {
    forall z | z in env.setters && rank[z] < r ensures NameOk(env, rho, c', z) {
      if rank[z] >= rank[y] && z != y {
        NameOkKept(env, rho, c, c', z);
      }
    }
  }

  lemma {:induction false} CrossMoved(
    env: Env, rho: Valuation, rank: map<string, nat>, c: Core, c': Core, y: string, x: string, k: nat, own: Value)
    requires Fragment(env, rho, rank) && x in rank && y in rank && rank[y] < rank[x]
    requires k <= |env.setters[x]| && y !in c.cache
    requires Self(env, rho, c, x, k, own)
    requires Framed(env, rank, c, c', y, |env.body|)
    requires y in c'.forced && c'.forced[y] == Count(c.calTimes, y)
    ensures Self(env, rho, c', x, k, own) && Moved(env, rank, c, c', x, k)
  {
    assert Untouched(c, c', x);
    forall z | z in rank && rank[z] < rank[x] && z in c.cache
      ensures SameAt(c.cache, c'.cache, z) && SameAt(c.forced, c'.forced, z)
    {
      if rank[z] >= rank[y] {
        assert Untouched(c, c', z);
      }
    }
    forall z | z in rank && rank[z] < rank[x] && z in c'.forced
      ensures SameAt(c.forced, c'.forced, z) || c'.forced[z] == Count(c.calTimes, z)
    {
      if rank[z] >= rank[y] && z != y {
        assert Untouched(c, c', z);
      }
    }
  }

  /** Facts about the whole state that every operation keeps. */
  ghost predicate Sound(env: Env, rho: Valuation, st: State) {
    && st.vars.Keys == env.setters.Keys
    && NoRepeat(st.visits)
    && (forall r :: r in st.readLog && r.reader != r.name ==> r.value == Lookup(rho, r.name))
  }

  /** The evaluator is inside a statement of `x` and everything `x` depends on is settled. */
  ghost predicate Ready(
    env: Env, rho: Valuation, rank: map<string, nat>, st: State, x: string, k: nat, own: Value)
    requires Fragment(env, rho, rank)
  {
    && x in env.setters && k <= |env.setters[x]|
    && Sound(env, rho, st) && Target(st) == x
    && Settled(env, rho, rank, CoreOf(st), rank[x])
    && Self(env, rho, CoreOf(st), x, k, own)
  }

  /**
   * Expression walking, for any state property `P` and any change relation `R` that every name
   * load keeps: they hold of the whole walk, whose value is the meaning of the expression.
   */
  lemma {:induction false} ExprLift(
    env: Env, rho: Valuation, st: State, e: Expr, P: State -> bool, R: (State, State) -> bool)
    requires P(st)
    requires forall s :: R(s, s)
    requires forall a, b, c :: R(a, b) && R(b, c) ==> R(a, c)
    requires forall s, y :: P(s) && y in Reads(e) ==>
      var (s', v) := LoadName(env, s, y); P(s') && R(s, s') && v == Lookup(rho, y)
    ensures
      var (st', v) := WalkExpr(env, st, e);
      P(st') && R(st, st') && v == EvalIn(env.sem, e, rho)
    decreases e
  {
    match e
    case Lit(_) =>
    case Name(y) =>
    case Binary(_, l, r) =>
      ExprLift(env, rho, st, l, P, R);
      ExprLift(env, rho, WalkExpr(env, st, l).0, r, P, R);
    case Logic(isAnd, l, r) =>
      ExprLift(env, rho, st, l, P, R);
      ExprLift(env, rho, WalkExpr(env, st, l).0, r, P, R);
    case Cond(c, t, f) =>
      ExprLift(env, rho, st, c, P, R);
      var st1 := WalkExpr(env, st, c).0;
      ExprLift(env, rho, st1, t, P, R);
      ExprLift(env, rho, st1, f, P, R);
  }

  /** Evaluating any expression of a statement of `x` yields its meaning and keeps the invariant. */
  lemma {:induction false} ExprRight(
    env: Env, rho: Valuation, rank: map<string, nat>, st: State, e: Expr, x: string, k: nat, own: Value)
    requires Fragment(env, rho, rank) && Ready(env, rho, rank, st, x, k, own)
    requires forall y :: y in Reads(e) && y in rank ==> y == x || rank[y] < rank[x]
    requires k == 1 ==> x !in Reads(e)
    ensures
      var (st', v) := WalkExpr(env, st, e);
      && v == EvalIn(env.sem, e, rho[x := own])
      && Ready(env, rho, rank, st', x, k, own) && Moved(env, rank, CoreOf(st), CoreOf(st'), x, k)
    decreases rank[x], k, 1
  {
    var P := s => Ready(env, rho, rank, s, x, k, own);
    var R := (a, b) => Moved(env, rank, CoreOf(a), CoreOf(b), x, k);
    forall s ensures R(s, s) {
      MovedRefl(env, rank, CoreOf(s), x, k);
    }
    forall a, b, c | R(a, b) && R(b, c) ensures R(a, c) {
      MovedTrans(env, rank, CoreOf(a), CoreOf(b), CoreOf(c), x, k);
    }
    forall s, y | P(s) && y in Reads(e)
      ensures var (s', v) := LoadName(env, s, y); P(s') && R(s, s') && v == Lookup(rho[x := own], y)
    {
      NameRight(env, rho, rank, s, y, x, k, own);
    }
    ExprLift(env, rho[x := own], st, e, P, R);
  }

  lemma {:induction false} NameRight(
    env: Env, rho: Valuation, rank: map<string, nat>, st: State, y: string, x: string, k: nat, own: Value)
    requires Fragment(env, rho, rank) && Ready(env, rho, rank, st, x, k, own)
    requires y in rank ==> y == x || rank[y] < rank[x]
    requires k == 1 ==> x != y
    ensures
      var (st', v) := LoadName(env, st, y);
      && v == Lookup(rho[x := own], y)
      && Ready(env, rho, rank, st', x, k, own) && Moved(env, rank, CoreOf(st), CoreOf(st'), x, k)
    decreases rank[x], k, 0
  {
    if y in env.setters {
      ScopeRight(env, rho, rank, st, y, x, k, own);
      var (st1, v) := GetValue(env, st, y, st.vars[y]);
      LogRead(env, rho, rank, st1, x, k, own, y, v);
    } else {
      MovedRefl(env, rank, CoreOf(st), x, k);
      LogRead(env, rho, rank, st, x, k, own, y, Undefined);
    }
  }

  lemma {:induction false} LogRead(
    env: Env, rho: Valuation, rank: map<string, nat>, st: State, x: string, k: nat, own: Value, y: string, v: Value)
    requires Fragment(env, rho, rank) && Ready(env, rho, rank, st, x, k, own)
    requires x != y ==> v == Lookup(rho, y)
    ensures
      var st' := st.(readLog := st.readLog + [Read(x, y, v)]);
      CoreOf(st') == CoreOf(st) && Ready(env, rho, rank, st', x, k, own)
  {
  }

  lemma {:induction false} ScopeRight(
    env: Env, rho: Valuation, rank: map<string, nat>, st: State, y: string, x: string, k: nat, own: Value)
    requires Fragment(env, rho, rank) && Ready(env, rho, rank, st, x, k, own)
    requires y in rank && (y == x || rank[y] < rank[x])
    requires k == 1 ==> x != y
    ensures
      var (st', v) := GetValue(env, st, y, st.vars[y]);
      && v == (if y == x then own else rho[y])
      && Ready(env, rho, rank, st', x, k, own) && Moved(env, rank, CoreOf(st), CoreOf(st'), x, k)
    decreases rank[x], k, 0, 0
  {
    MovedRefl(env, rank, CoreOf(st), x, k);
    if y == x {
      if k > 0 && x !in st.cache {
        SelfRight(env, rho, rank, st, x, k, own);
      }
    } else {
      assert NameOk(env, rho, CoreOf(st), y);
      if y !in st.cache {
        CrossRight(env, rho, rank, st, y, x, k, own);
      }
    }
  }

  lemma {:induction false} SelfRight(
    env: Env, rho: Valuation, rank: map<string, nat>, st: State, x: string, k: nat, own: Value)
    requires Fragment(env, rho, rank) && Ready(env, rho, rank, st, x, k, own)
    requires k >= 2 && x !in st.cache
    ensures
      var (st', v) := GetValue(env, st, x, st.vars[x]);
      && v == own
      && Ready(env, rho, rank, st', x, k, own) && Moved(env, rank, CoreOf(st), CoreOf(st'), x, k)
    decreases rank[x], k - 1, 5
  {
    BacktrackRight(env, rho, rank, st, x, k - 1, st.vars[x]);
    SelfDone(env, rho, rank, st, GetValue(env, st, x, st.vars[x]).0, x, k, own);
  }

  lemma {:induction false} CrossRight(
    env: Env, rho: Valuation, rank: map<string, nat>, st: State, y: string, x: string, k: nat, own: Value)
    requires Fragment(env, rho, rank) && Ready(env, rho, rank, st, x, k, own)
    requires y in rank && rank[y] < rank[x] && y !in st.cache
    ensures
      var (st', v) := GetValue(env, st, y, st.vars[y]);
      && v == rho[y]
      && Ready(env, rho, rank, st', x, k, own) && Moved(env, rank, CoreOf(st), CoreOf(st'), x, k)
    decreases rank[y], |env.setters[y]|, 5
  {
    assert NameOk(env, rho, CoreOf(st), y);
    BacktrackRight(env, rho, rank, st, y, |env.setters[y]|, st.vars[y]);
    CrossDone(env, rho, rank, st, GetValue(env, st, y, st.vars[y]).0, y, x, k, own);
  }

  /** The position before which a backtracking step that folds `k` setters of `x` may execute. */
  function Bound(env: Env, x: string, k: nat): nat
    requires x in env.setters
  {
    if k < |env.setters[x]| then env.setters[x][k].stmt else |env.body|
  }

  /** The state after a backtracking step that has folded the first `k` setters of `x`. */
  ghost predicate BackDone(
    env: Env, rho: Valuation, rank: map<string, nat>, st: State, st': State, x: string, k: nat)
    requires Fragment(env, rho, rank) && x in env.setters && k <= |env.setters[x]|
  {
    var c, c' := CoreOf(st), CoreOf(st');
    && st'.targets == st.targets
    && Sound(env, rho, st') && Settled(env, rho, rank, c', rank[x])
    && x in c'.cache && c'.cache[x] == Lookup(c'.vars, x) == Fold(env, rho, x, k)
    && Framed(env, rank, c, c', x, Bound(env, x, k))
    && (if Count(c.levels, x) == 0 then x in c'.forced && c'.forced[x] == Count(c.calTimes, x)
        else SameAt(c.forced, c'.forced, x))
  }

  lemma {:induction false} CrossDone(
    env: Env, rho: Valuation, rank: map<string, nat>, st: State, st': State, y: string, x: string, k: nat, own: Value)
    requires Fragment(env, rho, rank) && Ready(env, rho, rank, st, x, k, own)
    requires y in rank && rank[y] < rank[x] && y !in st.cache
    requires NameOk(env, rho, CoreOf(st), y) && BackDone(env, rho, rank, st, st', y, |env.setters[y]|)
    ensures Lookup(st'.vars, y) == rho[y]
    ensures Ready(env, rho, rank, st', x, k, own) && Moved(env, rank, CoreOf(st), CoreOf(st'), x, k)
  {
    assert Solved(env, rho, y);
    CrossSettled(env, rho, rank, CoreOf(st), CoreOf(st'), y, rank[x]);
    CrossMoved(env, rho, rank, CoreOf(st), CoreOf(st'), y, x, k, own);
  }

  lemma {:induction false} SelfDone(
    env: Env, rho: Valuation, rank: map<string, nat>, st: State, st': State, x: string, k: nat, own: Value)
    requires Fragment(env, rho, rank) && Ready(env, rho, rank, st, x, k, own) && k >= 1
    requires BackDone(env, rho, rank, st, st', x, k - 1)
    ensures Ready(env, rho, rank, st', x, k, own) && Moved(env, rank, CoreOf(st), CoreOf(st'), x, k)
  {
  }

  /** What a statement stores, and the state in which it stores it. */
  function Operand(env: Env, st: State, s: Stmt): (State, Value)
    requires !s.If?
  {
    if s.Assign? then
      WalkExpr(env, st, s.value)
    else
      var (st', right, own) := AugOperands(env, st, s.target, s.value);
      (st', env.sem.binary(s.op, own, right))
  }

  function PushTarget(st: State, x: string): State {
    st.(targets := st.targets + [x])
  }

  lemma {:induction false} EnteredIsStore(env: Env, st: State, s: Stmt)
    requires !s.If?
    ensures
      var (st1, v) := Operand(env, PushTarget(st, s.target), s);
      WalkEntered(env, st, s) == PopTarget(Store(env, st1, s.target, v))
  {
  }

  /** A backtracking step without a stop point never breaks off. */
  lemma {:induction false} StmtIsEntered(env: Env, st: State, s: Stmt)
    requires st.metas != []
    requires var top := st.metas[|st.metas| - 1]; !top.isBreak && top.stopped.None?
    ensures WalkStmt(env, st, s) == WalkEntered(env, Enter(st, s), s)
  {
    var st1 := WalkEntered(env, Enter(st, s), s);
    assert SameButBreak(st.metas, st1.metas);
    assert UpdateBreak(st1, s.id) == st1;
  }

  lemma {:induction false} DropLast(metas: seq<Meta>, m: Meta, metas': seq<Meta>)
    requires SameButBreak(metas + [m], metas')
    ensures |metas'| > 0 && metas'[..|metas'| - 1] == metas
  {
    assert (metas + [m])[..|metas|] == metas;
  }

  /** A setter without a stop point is its statement, executed one backtracking level deeper. */
  lemma {:induction false} SetterIsEntered(env: Env, st: State, setter: Setter, s: Stmt)
    requires setter.stmt < |env.body| && s == env.body[setter.stmt] && setter.stopped.None?
    ensures
      var deeper := st.(metas := st.metas + [Meta(setter.stopped, false, setter.kind)]);
      WalkSetter(env, st, setter) == WalkEntered(env, Enter(deeper, s), s).(metas := st.metas)
  {
    var meta := Meta(setter.stopped, false, setter.kind);
    var deeper := st.(metas := st.metas + [meta]);
    StmtIsEntered(env, deeper, s);
    DropLast(st.metas, meta, WalkStmt(env, deeper, s).metas);
  }

  /** A statement of `x` computes the step of its meaning from the value `own` of `x`. */
  lemma {:induction false} OperandRight(
    env: Env, rho: Valuation, rank: map<string, nat>, st: State, p: nat, x: string, k: nat, own: Value)
    requires Fragment(env, rho, rank) && Ready(env, rho, rank, st, x, k, own)
    requires p < |env.body| && env.body[p].target == x && (k == 1 ==> Resets(env.body[p]))
    ensures
      var (st', v) := Operand(env, st, env.body[p]);
      && v == Step(env.sem, env.body[p], own, rho)
      && Ready(env, rho, rank, st', x, k, own) && Moved(env, rank, CoreOf(st), CoreOf(st'), x, k)
    decreases rank[x], k, 2
  {
    var s := env.body[p];
    assert Downward(env, rank, p);
    ExprRight(env, rho, rank, st, s.value, x, k, own);
    if s.AugAssign? {
      var st1 := WalkExpr(env, st, s.value).0;
      NameRight(env, rho, rank, st1, x, x, k, own);
      MovedTrans(env, rank, CoreOf(st), CoreOf(st1), CoreOf(LoadName(env, st1, x).0), x, k);
    }
  }

  /** The core of a state that has entered setter k - 1 of `x`. */
  ghost function EnteredCore(env: Env, c: Core, x: string, k: nat): Core
    requires StraightLine(env) && x in env.setters && 1 <= k <= |env.setters[x]|
  {
    var forced := if Count(c.levels, x) == 0 then c.forced[x := Count(c.calTimes, x)] else c.forced;
    c.(levels := c.levels[x := Count(c.levels, x) + 1],
       forced := forced,
       back := c.back + {StmtOf(env, x, k - 1).id})
  }

  lemma {:induction false} BackBegin(env: Env, rho: Valuation, rank: map<string, nat>, c: Core, x: string, k: nat)
    requires Fragment(env, rho, rank) && x in env.setters && 1 <= k <= |env.setters[x]|
    requires Settled(env, rho, rank, c, rank[x])
    requires Count(c.levels, x) == |env.setters[x]| - k && x !in c.cache
    requires Unvisited(env, c, x, Bound(env, x, k))
    ensures StmtOf(env, x, k - 1).id !in c.back
    ensures Settled(env, rho, rank, EnteredCore(env, c, x, k), rank[x])
    ensures Self(env, rho, EnteredCore(env, c, x, k), x, k, Fold(env, rho, x, k - 1))
  {
    var c' := EnteredCore(env, c, x, k);
    assert SetterAt(env, x, env.setters[x][k - 1]);
    forall z | z in env.setters && rank[z] < rank[x] ensures NameOk(env, rho, c', z) {
      NameOkKept(env, rho, c, c', z);
    }
  }

  lemma {:induction false} BackEnd(
    env: Env, rho: Valuation, rank: map<string, nat>, c: Core, d: Core, x: string, k: nat, c': Core)
    requires Fragment(env, rho, rank) && x in env.setters && 1 <= k <= |env.setters[x]|
    requires Count(c.levels, x) == |env.setters[x]| - k && x in c.vars
    requires Moved(env, rank, EnteredCore(env, c, x, k), d, x, k)
    requires c' == LeftCore(d, x, Count(c.levels, x), Fold(env, rho, x, k))
    ensures Framed(env, rank, c, c', x, Bound(env, x, k))
    ensures if Count(c.levels, x) == 0 then x in c'.forced && c'.forced[x] == Count(c.calTimes, x)
            else SameAt(c.forced, c'.forced, x)
  {
    BackEndForced(env, rank, c, d, x, k, c');
    forall z | z in rank && z != x && rank[z] >= rank[x] ensures Untouched(c, c', z) {
      BackEndOther(env, rank, c, d, x, k, Count(c.levels, x), Fold(env, rho, x, k), z);
    }
    forall z | z in rank && rank[z] < rank[x]
      ensures z in c.cache ==> SameAt(c.cache, c'.cache, z) && SameAt(c.forced, c'.forced, z)
      ensures z in c'.forced ==> SameAt(c.forced, c'.forced, z) || c'.forced[z] == Count(c.calTimes, z)
    {
      BackEndBelow(env, rank, c, d, x, k, Count(c.levels, x), Fold(env, rho, x, k), z);
    }
    forall p | 0 <= p < |env.body| && env.body[p].id in c'.back
      ensures env.body[p].id in c.back || rank[env.body[p].target] < rank[x]
              || (env.body[p].target == x && p < Bound(env, x, k))
    {
      BackEndVisits(env, rank, c, d, x, k, p);
    }
  }

  lemma {:induction false} BackEndForced(
    env: Env, rank: map<string, nat>, c: Core, d: Core, x: string, k: nat, c': Core)
    requires StraightLine(env) && rank.Keys == env.setters.Keys && x in env.setters && 1 <= k <= |env.setters[x]|
    requires Moved(env, rank, EnteredCore(env, c, x, k), d, x, k)
    requires c'.forced == d.forced
    ensures if Count(c.levels, x) == 0 then x in c'.forced && c'.forced[x] == Count(c.calTimes, x)
            else SameAt(c.forced, c'.forced, x)
  {
  }

  lemma {:induction false} BackEndBelow(
    env: Env, rank: map<string, nat>, c: Core, d: Core, x: string, k: nat, level: nat, v: Value, z: string)
    requires StraightLine(env) && rank.Keys == env.setters.Keys && x in env.setters && 1 <= k <= |env.setters[x]|
    requires Moved(env, rank, EnteredCore(env, c, x, k), d, x, k)
    requires z in rank && rank[z] < rank[x]
    ensures
      var c' := LeftCore(d, x, level, v);
      && (z in c.cache ==> SameAt(c.cache, c'.cache, z) && SameAt(c.forced, c'.forced, z))
      && (z in c'.forced ==> SameAt(c.forced, c'.forced, z) || c'.forced[z] == Count(c.calTimes, z))
  {
  }

  lemma {:induction false} BackEndOther(
    env: Env, rank: map<string, nat>, c: Core, d: Core, x: string, k: nat, level: nat, v: Value, z: string)
    requires StraightLine(env) && rank.Keys == env.setters.Keys && x in env.setters && 1 <= k <= |env.setters[x]|
    requires Moved(env, rank, EnteredCore(env, c, x, k), d, x, k)
    requires z in rank && z != x && rank[z] >= rank[x]
    ensures Untouched(c, LeftCore(d, x, level, v), z)
  {
    assert Untouched(EnteredCore(env, c, x, k), d, z);
  }

  lemma {:induction false} BackEndVisits(env: Env, rank: map<string, nat>, c: Core, d: Core, x: string, k: nat, p: nat)
    requires StraightLine(env) && Acyclic(env, rank) && x in env.setters && 1 <= k <= |env.setters[x]|
    requires Framed(env, rank, EnteredCore(env, c, x, k), d, x, env.setters[x][k - 1].stmt)
    requires p < |env.body| && env.body[p].id in d.back
    ensures env.body[p].id in c.back || rank[env.body[p].target] < rank[x]
            || (env.body[p].target == x && p < Bound(env, x, k))
  {
    var i := env.setters[x][k - 1].stmt;
    assert SetterAt(env, x, env.setters[x][k - 1]);
    assert i < Bound(env, x, k);
    if p != i {
      assert env.body[p].id != env.body[i].id;
    }
  }

  /** The core after `x` was stored, its level restored and its value cached. */
  ghost function LeftCore(d: Core, x: string, level: nat, v: Value): Core {
    d.(vars := d.vars[x := v], levels := d.levels[x := level], cache := d.cache[x := v])
  }

  lemma {:induction false} LeftSettled(
    env: Env, rho: Valuation, rank: map<string, nat>, d: Core, x: string, level: nat, v: Value)
    requires Fragment(env, rho, rank) && x in env.setters
    requires Settled(env, rho, rank, d, rank[x])
    ensures Settled(env, rho, rank, LeftCore(d, x, level, v), rank[x])
  {
    var c' := LeftCore(d, x, level, v);
    forall z | z in env.setters && rank[z] < rank[x] ensures NameOk(env, rho, c', z) {
      NameOkKept(env, rho, d, c', z);
    }
  }

  /** One backtracking step: the lazy scope computes the fold of the first `k` setters of `x`. */
  lemma {:induction false} BacktrackRight(
    env: Env, rho: Valuation, rank: map<string, nat>, st: State, x: string, k: nat, default: Value)
    requires Fragment(env, rho, rank) && x in env.setters && 1 <= k <= |env.setters[x]|
    requires Sound(env, rho, st) && Settled(env, rho, rank, CoreOf(st), rank[x])
    requires Level(st, x) == |env.setters[x]| - k && x !in st.cache
    requires Unvisited(env, CoreOf(st), x, Bound(env, x, k))
    requires x == Target(st) ==> Level(st, x) > 0 && |env.setters[x]| > 1
    ensures
      var (st', v) := GetValue(env, st, x, default);
      v == Lookup(st'.vars, x) && BackDone(env, rho, rank, st, st', x, k)
    decreases rank[x], k, 4
  {
    assert SetterAt(env, x, env.setters[x][k - 1]);
    var (st4, v) := SetterOperand(env, st, x, k);
    SetterOperandRight(env, rho, rank, st, x, k);
    BacktrackUnfold(env, st, x, k, default);
    StepFinish(env, rho, rank, st, st4, x, k, v, GetValue(env, st, x, default).0);
  }

  /** What the statement of setter k - 1 of `x` stores when a read backtracks into it. */
  function SetterOperand(env: Env, st: State, x: string, k: nat): (State, Value)
    requires x in env.setters && 1 <= k <= |env.setters[x]|
    requires var i := env.setters[x][k - 1].stmt; i < |env.body| && !env.body[i].If?
  {
    var s := env.body[env.setters[x][k - 1].stmt];
    Operand(env, PushTarget(Enter(Deeper(st, x), s), x), s)
  }

  lemma {:induction false} SetterOperandRight(
    env: Env, rho: Valuation, rank: map<string, nat>, st: State, x: string, k: nat)
    requires Fragment(env, rho, rank) && x in env.setters && 1 <= k <= |env.setters[x]|
    requires Sound(env, rho, st) && Settled(env, rho, rank, CoreOf(st), rank[x])
    requires Level(st, x) == |env.setters[x]| - k && x !in st.cache
    requires Unvisited(env, CoreOf(st), x, Bound(env, x, k))
    requires SetterAt(env, x, env.setters[x][k - 1])
    ensures
      var (st', v) := SetterOperand(env, st, x, k);
      && v == Fold(env, rho, x, k)
      && Ready(env, rho, rank, st', x, k, Fold(env, rho, x, k - 1))
      && Moved(env, rank, EnteredCore(env, CoreOf(st), x, k), CoreOf(st'), x, k)
    decreases rank[x], k, 3
  {
    var i := env.setters[x][k - 1].stmt;
    var st3 := PushTarget(Enter(Deeper(st, x), env.body[i]), x);
    DeeperReady(env, rho, rank, st, x, k);
    if k == 1 {
      assert StartsFresh(env, x);
    }
    OperandRight(env, rho, rank, st3, i, x, k, Fold(env, rho, x, k - 1));
  }

  /** A backtracking step that has entered its setter and pushed the target is ready. */
  lemma {:induction false} DeeperReady(
    env: Env, rho: Valuation, rank: map<string, nat>, st: State, x: string, k: nat)
    requires Fragment(env, rho, rank) && x in env.setters && 1 <= k <= |env.setters[x]|
    requires Sound(env, rho, st) && Settled(env, rho, rank, CoreOf(st), rank[x])
    requires Level(st, x) == |env.setters[x]| - k && x !in st.cache
    requires Unvisited(env, CoreOf(st), x, Bound(env, x, k))
    requires SetterAt(env, x, env.setters[x][k - 1])
    ensures
      var st3 := PushTarget(Enter(Deeper(st, x), env.body[env.setters[x][k - 1].stmt]), x);
      && CoreOf(st3) == EnteredCore(env, CoreOf(st), x, k)
      && Ready(env, rho, rank, st3, x, k, Fold(env, rho, x, k - 1))
  {
    var i := env.setters[x][k - 1].stmt;
    EnterReady(env, rho, rank, st, PushTarget(Enter(Deeper(st, x), env.body[i]), x), x, k, |st.metas| + 1);
  }

  function Deeper(st: State, x: string): State {
    Deepen(st, x).(metas := st.metas + [Meta(Option.None, false, Normal)])
  }

  /** What a backtracking read of `x` at setter k - 1 runs, for a setter without a stop point. */
  lemma {:induction false} BacktrackUnfold(env: Env, st: State, x: string, k: nat, default: Value)
    requires x in env.setters && 1 <= k <= |env.setters[x]|
    requires Level(st, x) == |env.setters[x]| - k && x !in st.cache
    requires x == Target(st) ==> Level(st, x) > 0 && |env.setters[x]| > 1
    requires
      var setter := env.setters[x][k - 1];
      && setter.stmt < |env.body| && !env.body[setter.stmt].If? && env.body[setter.stmt].target == x
      && setter.stopped.None? && setter.kind.Normal?
    ensures
      var (st4, v) := SetterOperand(env, st, x, k);
      GetValue(env, st, x, default) ==
        (st4.(vars := st4.vars[x := v], levels := st4.levels[x := Level(st, x)],
              cache := st4.cache[x := v], targets := st.targets, metas := st.metas), v)
  {
    SetterUnfold(env, st, x, k);
    assert GetValue(env, st, x, default) == Backtrack(env, st, x);
    BacktrackIs(env, st, x, WalkSetter(env, Deepen(st, x), env.setters[x][k - 1]));
  }

  /** Running the setter stores what it computes and leaves the stacks as they were. */
  lemma {:induction false} SetterUnfold(env: Env, st: State, x: string, k: nat)
    requires x in env.setters && 1 <= k <= |env.setters[x]| && Level(st, x) == |env.setters[x]| - k
    requires
      var setter := env.setters[x][k - 1];
      && setter.stmt < |env.body| && !env.body[setter.stmt].If? && env.body[setter.stmt].target == x
      && setter.stopped.None? && setter.kind.Normal?
    ensures
      var (st4, v) := SetterOperand(env, st, x, k);
      WalkSetter(env, Deepen(st, x), env.setters[x][k - 1]) ==
        st4.(vars := st4.vars[x := v], targets := st.targets, metas := st.metas)
  {
    var setter := env.setters[x][k - 1];
    var s := env.body[setter.stmt];
    SetterIsEntered(env, Deepen(st, x), setter, s);
    EnteredIsStore(env, Enter(Deeper(st, x), s), s);
    OperandKept(env, PushTarget(Enter(Deeper(st, x), s), x), s);
    var (st4, v) := SetterOperand(env, st, x, k);
    assert Level(st4, x) > 0;
    assert PopTarget(Store(env, st4, x, v)) == st4.(vars := st4.vars[x := v], targets := st.targets);
  }

  lemma {:induction false} OperandKept(env: Env, st: State, s: Stmt)
    requires !s.If?
    ensures var st' := Operand(env, st, s).0; Kept(env, st, st', |st.metas| + 1) && st'.metas == st.metas
  {
  }

  lemma {:induction false} EnterReady(
    env: Env, rho: Valuation, rank: map<string, nat>, st: State, st': State, x: string, k: nat, d: nat)
    requires Fragment(env, rho, rank) && x in env.setters && 1 <= k <= |env.setters[x]|
    requires Sound(env, rho, st) && Settled(env, rho, rank, CoreOf(st), rank[x])
    requires Level(st, x) == |env.setters[x]| - k && x !in st.cache
    requires Unvisited(env, CoreOf(st), x, Bound(env, x, k))
    requires Target(st') == x && st'.readLog == st.readLog && st'.vars == st.vars && st'.cache == st.cache
    requires st'.calTimes == st.calTimes && st'.levels == st.levels[x := Level(st, x) + 1]
    requires st'.forced == EnteredCore(env, CoreOf(st), x, k).forced
    requires d > 0 && st'.visits == st.visits + [Visit(StmtOf(env, x, k - 1).id, d)]
    ensures CoreOf(st') == EnteredCore(env, CoreOf(st), x, k)
    ensures Ready(env, rho, rank, st', x, k, Fold(env, rho, x, k - 1))
  {
    LogVisit(st.visits, Visit(StmtOf(env, x, k - 1).id, d));
    BackBegin(env, rho, rank, CoreOf(st), x, k);
  }

  lemma {:induction false} StepFinish(
    env: Env, rho: Valuation, rank: map<string, nat>, st: State, st4: State, x: string, k: nat, v: Value, st': State)
    requires Fragment(env, rho, rank) && x in env.setters && 1 <= k <= |env.setters[x]|
    requires Level(st, x) == |env.setters[x]| - k && x in st.vars
    requires Ready(env, rho, rank, st4, x, k, Fold(env, rho, x, k - 1))
    requires Moved(env, rank, EnteredCore(env, CoreOf(st), x, k), CoreOf(st4), x, k)
    requires v == Fold(env, rho, x, k)
    requires st' == st4.(vars := st4.vars[x := v], levels := st4.levels[x := Level(st, x)],
                         cache := st4.cache[x := v], targets := st.targets, metas := st.metas)
    ensures BackDone(env, rho, rank, st, st', x, k)
  {
    BackEnd(env, rho, rank, CoreOf(st), CoreOf(st4), x, k, CoreOf(st'));
    LeftSettled(env, rho, rank, CoreOf(st4), x, Level(st, x), v);
  }
}
