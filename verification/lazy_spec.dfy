/**
 * What a module body means, without any evaluation order: a valuation of its names in which
 * every name is the fold of its own setters, in text order, over the other names' values.
 */
module LazySpec {
  import opened Values
  import opened LazySyntax
  import opened LazyMachine

  type Valuation = map<string, Value>

  function EvalIn(sem: Semantics, e: Expr, rho: Valuation): Value {
    match e
    case Lit(v) => v
    case Name(x) => Lookup(rho, x)
    case Binary(op, l, r) => sem.binary(op, EvalIn(sem, l, rho), EvalIn(sem, r, rho))
    case Logic(isAnd, l, r) =>
      var left := EvalIn(sem, l, rho);
      if sem.truthy(left) == isAnd then EvalIn(sem, r, rho) else left
    case Cond(c, t, f) =>
      if sem.truthy(EvalIn(sem, c, rho)) then EvalIn(sem, t, rho) else EvalIn(sem, f, rho)
  }

  /** The value a setter statement gives its target, whose value so far is `own`. */
  function Step(sem: Semantics, s: Stmt, own: Value, rho: Valuation): Value
    requires !s.If?
  {
    var right := EvalIn(sem, s.value, rho[s.target := own]);
    if s.Assign? then right else sem.binary(s.op, own, right)
  }

  /**
   * Straight-line bodies with unique node ids and emitted setters: the setters of a name are
   * exactly its statements, in text order, and each runs as a whole.
   */
  ghost predicate StraightLine(env: Env) {
    && (forall p :: 0 <= p < |env.body| ==>
          !env.body[p].If? && env.body[p].target in env.setters)
    && (forall p, q :: 0 <= p < q < |env.body| ==> env.body[p].id != env.body[q].id)
    && (forall x :: x in env.setters ==> env.setters[x] != [])
    && (forall x, k :: x in env.setters && 0 <= k < |env.setters[x]| ==>
          SetterAt(env, x, env.setters[x][k]))
    && (forall x, i, j :: x in env.setters && 0 <= i < j < |env.setters[x]| ==>
          env.setters[x][i].stmt < env.setters[x][j].stmt)
    && (forall p :: 0 <= p < |env.body| ==> HasSetter(env, p, env.body[p].target))
  }

  ghost predicate SetterAt(env: Env, x: string, s: Setter) {
    s.stmt < |env.body| && !env.body[s.stmt].If? && env.body[s.stmt].target == x
    && s == Setter(s.stmt, env.body[s.stmt].id, Option.None, Normal)
  }

  ghost predicate HasSetter(env: Env, p: nat, x: string) {
    x in env.setters && exists k :: 0 <= k < |env.setters[x]| && env.setters[x][k].stmt == p
  }

  /** The statement of the k-th setter of `x`. */
  function StmtOf(env: Env, x: string, k: nat): Stmt
    requires StraightLine(env) && x in env.setters && k < |env.setters[x]|
    ensures !StmtOf(env, x, k).If? && StmtOf(env, x, k).target == x
  {
    assert SetterAt(env, x, env.setters[x][k]);
    env.body[env.setters[x][k].stmt]
  }

  /** The value of `x` after running its setters `lo..hi` from the value `start`. */
  function Run(env: Env, rho: Valuation, x: string, start: Value, lo: nat, hi: nat): Value
    requires StraightLine(env) && x in env.setters && lo <= hi <= |env.setters[x]|
    decreases hi
  {
    if lo == hi then start
    else Step(env.sem, StmtOf(env, x, hi - 1), Run(env, rho, x, start, lo, hi - 1), rho)
  }

  /** The value of `x` after its first `k` setters. */
  function Fold(env: Env, rho: Valuation, x: string, k: nat): Value
    requires StraightLine(env) && x in env.setters && k <= |env.setters[x]|
  {
    Run(env, rho, x, Undefined, 0, k)
  }

  /** `x` has the value that its setters, in text order, compute from the other names' values. */
  ghost predicate Solved(env: Env, rho: Valuation, x: string)
    requires StraightLine(env) && x in env.setters
  {
    x in rho && rho[x] == Fold(env, rho, x, |env.setters[x]|)
  }

  ghost predicate Solution(env: Env, rho: Valuation)
    requires StraightLine(env)
  {
    && rho.Keys == env.setters.Keys
    && forall x {:trigger Solved(env, rho, x)} :: x in env.setters ==> Solved(env, rho, x)
  }

  /** The statement at `p` reads, besides its own target, only names of lower rank. */
  ghost predicate Downward(env: Env, rank: map<string, nat>, p: nat)
    requires StraightLine(env) && rank.Keys == env.setters.Keys && p < |env.body|
  {
    forall y :: y in Reads(env.body[p].value) && y in rank ==>
      y == env.body[p].target || rank[y] < rank[env.body[p].target]
  }

  ghost predicate StartsFresh(env: Env, x: string)
    requires StraightLine(env) && x in env.setters
  {
    Resets(StmtOf(env, x, 0))
  }

  /**
   * Names depend on each other without cycles: `rank` falls along every read of another name,
   * and every name starts with a plain assignment that does not read the name itself.
   */
  ghost predicate Acyclic(env: Env, rank: map<string, nat>)
    requires StraightLine(env)
  {
    && rank.Keys == env.setters.Keys
    && (forall p {:trigger Downward(env, rank, p)} :: 0 <= p < |env.body| ==> Downward(env, rank, p))
    && (forall x {:trigger StartsFresh(env, x)} :: x in env.setters ==> StartsFresh(env, x))
  }

  /** A setter whose result does not depend on what its target held before. */
  predicate Resets(s: Stmt) {
    s.Assign? && s.target !in Reads(s.value)
  }

  /** Only the names an expression reads matter to its value. */
  lemma {:induction false} EvalInAgree(sem: Semantics, e: Expr, rho: Valuation, rho': Valuation)
    requires forall y :: y in Reads(e) ==> (y in rho <==> y in rho') && (y in rho ==> rho[y] == rho'[y])
    ensures EvalIn(sem, e, rho) == EvalIn(sem, e, rho')
  {
    match e
    case Lit(_) =>
    case Name(_) =>
    case Binary(_, l, r) => EvalInAgree(sem, l, rho, rho'); EvalInAgree(sem, r, rho, rho');
    case Logic(_, l, r) => EvalInAgree(sem, l, rho, rho'); EvalInAgree(sem, r, rho, rho');
    case Cond(c, t, f) =>
      EvalInAgree(sem, c, rho, rho'); EvalInAgree(sem, t, rho, rho'); EvalInAgree(sem, f, rho, rho');
  }

  lemma {:induction false} ResetStep(sem: Semantics, s: Stmt, a: Value, b: Value, rho: Valuation)
    requires Resets(s)
    ensures Step(sem, s, a, rho) == Step(sem, s, b, rho)
  {
    EvalInAgree(sem, s.value, rho[s.target := a], rho[s.target := b]);
  }

  /** A resetting setter makes what came before it irrelevant. */
  lemma {:induction false} ResetRun(env: Env, rho: Valuation, x: string, start: Value, lo: nat, m: nat, hi: nat)
    requires StraightLine(env) && x in env.setters && lo <= m < hi <= |env.setters[x]|
    requires Resets(StmtOf(env, x, m))
    ensures Run(env, rho, x, start, lo, hi) == Fold(env, rho, x, hi)
  {
    if hi == m + 1 {
      ResetStep(env.sem, StmtOf(env, x, m), Run(env, rho, x, start, lo, m), Fold(env, rho, x, m), rho);
    } else {
      ResetRun(env, rho, x, start, lo, m, hi - 1);
    }
  }
}
