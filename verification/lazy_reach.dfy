/**
 * Which names a read reaches: for given values of all names, what a run has cached at any point depends on the
 * statements alone.
 */
module LazyReach {
  import opened Values
  import opened LazySyntax
  import opened LazyMachine
  import opened LazySpec
  import opened LazyRefine

  /** The names that evaluating an expression reads, which `and`, `or` and conditionals make a matter of values. */
  function ReadsIn(sem: Semantics, e: Expr, rho: Valuation): set<string> {
    match e
    case Lit(_) => {}
    case Name(x) => {x}
    case Binary(_, l, r) => ReadsIn(sem, l, rho) + ReadsIn(sem, r, rho)
    case Logic(isAnd, l, r) =>
      ReadsIn(sem, l, rho) + (if sem.truthy(EvalIn(sem, l, rho)) == isAnd then ReadsIn(sem, r, rho) else {})
    case Cond(c, t, f) =>
      ReadsIn(sem, c, rho) + (if sem.truthy(EvalIn(sem, c, rho)) then ReadsIn(sem, t, rho) else ReadsIn(sem, f, rho))
  }

  lemma {:induction false} ReadsInReads(sem: Semantics, e: Expr, rho: Valuation)
    ensures ReadsIn(sem, e, rho) <= Reads(e)
  {
    match e
    case Lit(_) =>
    case Name(_) =>
    case Binary(_, l, r) => ReadsInReads(sem, l, rho); ReadsInReads(sem, r, rho);
    case Logic(_, l, r) => ReadsInReads(sem, l, rho); ReadsInReads(sem, r, rho);
    case Cond(c, t, f) => ReadsInReads(sem, c, rho); ReadsInReads(sem, t, rho); ReadsInReads(sem, f, rho);
  }

  /** Expressions without `and`, `or` and conditionals. */
  predicate Strict(e: Expr) {
    match e
    case Lit(_) => true
    case Name(_) => true
    case Binary(_, l, r) => Strict(l) && Strict(r)
    case Logic(_, _, _) => false
    case Cond(_, _, _) => false
  }

  /** They read all their names, whatever the values. */
  lemma {:induction false} StrictReads(sem: Semantics, e: Expr, rho: Valuation)
    requires Strict(e)
    ensures ReadsIn(sem, e, rho) == Reads(e)
  {
    match e
    case Lit(_) =>
    case Name(_) =>
    case Binary(_, l, r) => StrictReads(sem, l, rho); StrictReads(sem, r, rho);
  }

  /**
   * Expression walking, for any state property `P` that the loads of the names actually read keep, and any
   * property `Q` that they keep and the load of `x` establishes.
   */
  lemma {:induction false} ReadLift(
    env: Env, rho: Valuation, st: State, e: Expr, P: State -> bool, Q: State -> bool, x: string)
    requires P(st)
    requires forall s, y :: P(s) && y in ReadsIn(env.sem, e, rho) ==>
      var (s', v) := LoadName(env, s, y); P(s') && v == Lookup(rho, y) && (Q(s) || y == x ==> Q(s'))
    ensures var (st', v) := WalkExpr(env, st, e);
      P(st') && v == EvalIn(env.sem, e, rho) && (x in ReadsIn(env.sem, e, rho) || Q(st) ==> Q(st'))
    decreases e
  {
    match e
    case Lit(_) =>
    case Name(_) =>
    case Binary(_, l, r) =>
      ReadLift(env, rho, st, l, P, Q, x);
      ReadLift(env, rho, WalkExpr(env, st, l).0, r, P, Q, x);
    case Logic(isAnd, l, r) =>
      ReadLift(env, rho, st, l, P, Q, x);
      if env.sem.truthy(EvalIn(env.sem, l, rho)) == isAnd {
        ReadLift(env, rho, WalkExpr(env, st, l).0, r, P, Q, x);
      }
    case Cond(c, t, f) =>
      ReadLift(env, rho, st, c, P, Q, x);
      var st1 := WalkExpr(env, st, c).0;
      if env.sem.truthy(EvalIn(env.sem, c, rho)) {
        ReadLift(env, rho, st1, t, P, Q, x);
      } else {
        ReadLift(env, rho, st1, f, P, Q, x);
      }
  }

  /** The names a statement loads: those its value reads, and its target when it augments. */
  function Loads(env: Env, rho: Valuation, s: Stmt, own: Value): set<string>
    requires !s.If?
  {
    ReadsIn(env.sem, s.value, rho[s.target := own]) + if s.AugAssign? then {s.target} else {}
  }

  /** What setter `m` of `x` loads when a read backtracks into it. */
  ghost function SetterLoads(env: Env, rho: Valuation, x: string, m: nat): set<string>
    requires StraightLine(env) && x in env.setters && m < |env.setters[x]|
  {
    Loads(env, rho, StmtOf(env, x, m), Fold(env, rho, x, m))
  }

  /** A setter that loads its own name, so that the setter before it counts too. */
  ghost predicate SelfLoads(env: Env, rho: Valuation, x: string, m: nat)
    requires StraightLine(env) && x in env.setters && m < |env.setters[x]|
  {
    x in SetterLoads(env, rho, x, m)
  }

  /** Of the first `k` setters of `x`, setter `m` is not overwritten by a later one. */
  ghost predicate Live(env: Env, rho: Valuation, x: string, m: nat, k: nat)
    requires StraightLine(env) && x in env.setters
  {
    m < k <= |env.setters[x]| && forall j :: m < j < k ==> SelfLoads(env, rho, x, j)
  }

  ghost predicate Uses(env: Env, rho: Valuation, x: string, m: nat, y: string)
    requires StraightLine(env) && x in env.setters
  {
    m < |env.setters[x]| && y != x && y in env.setters && y in SetterLoads(env, rho, x, m)
  }

  /** Reading `x` leads to a read of `z`. */
  ghost predicate Reaches(env: Env, rho: Valuation, rank: map<string, nat>, x: string, z: string)
    requires StraightLine(env) && rank.Keys == env.setters.Keys && x in rank
    decreases rank[x], 1
  {
    x == z || ReachesBy(env, rho, rank, x, |env.setters[x]|, z)
  }

  /** So does the fold of its first `k` setters. */
  ghost predicate ReachesBy(env: Env, rho: Valuation, rank: map<string, nat>, x: string, k: nat, z: string)
    requires StraightLine(env) && rank.Keys == env.setters.Keys && x in rank
    decreases rank[x], 0
  {
    exists m: nat, y: string ::
      Live(env, rho, x, m, k) && Uses(env, rho, x, m, y) && rank[y] < rank[x] && Reaches(env, rho, rank, y, z)
  }

  lemma {:induction false} UsesLower(env: Env, rho: Valuation, rank: map<string, nat>, x: string, m: nat, y: string)
    requires StraightLine(env) && Acyclic(env, rank) && x in rank && Uses(env, rho, x, m, y)
    ensures rank[y] < rank[x]
  {
    var s := StmtOf(env, x, m);
    assert SetterAt(env, x, env.setters[x][m]);
    assert Downward(env, rank, env.setters[x][m].stmt);
    ReadsInReads(env.sem, s.value, rho[x := Fold(env, rho, x, m)]);
  }

  lemma {:induction false} ReachIsName(env: Env, rho: Valuation, rank: map<string, nat>, x: string, z: string)
    requires StraightLine(env) && rank.Keys == env.setters.Keys && x in rank && Reaches(env, rho, rank, x, z)
    ensures z in env.setters
    decreases rank[x]
  {
    if x != z {
      var m: nat, y :|
        Live(env, rho, x, m, |env.setters[x]|) && Uses(env, rho, x, m, y) && rank[y] < rank[x]
          && Reaches(env, rho, rank, y, z);
      ReachIsName(env, rho, rank, y, z);
    }
  }

  /** What setter `m` reads leads to `z`. */
  ghost predicate ReachesAt(env: Env, rho: Valuation, rank: map<string, nat>, x: string, m: nat, z: string)
    requires StraightLine(env) && rank.Keys == env.setters.Keys && x in rank
  {
    exists y :: Uses(env, rho, x, m, y) && Reaches(env, rho, rank, y, z)
  }

  lemma {:induction false} ReachLast(env: Env, rho: Valuation, rank: map<string, nat>, x: string, k: nat, z: string)
    requires StraightLine(env) && Acyclic(env, rank) && x in rank && 1 <= k <= |env.setters[x]|
    requires ReachesAt(env, rho, rank, x, k - 1, z)
    ensures ReachesBy(env, rho, rank, x, k, z)
  {
    var y :| Uses(env, rho, x, k - 1, y) && Reaches(env, rho, rank, y, z);
    UsesLower(env, rho, rank, x, k - 1, y);
    assert Live(env, rho, x, k - 1, k);
  }

  lemma {:induction false} ReachMore(env: Env, rho: Valuation, rank: map<string, nat>, x: string, k: nat, z: string)
    requires StraightLine(env) && rank.Keys == env.setters.Keys && x in rank && 1 <= k <= |env.setters[x]|
    requires SelfLoads(env, rho, x, k - 1) && ReachesBy(env, rho, rank, x, k - 1, z)
    ensures ReachesBy(env, rho, rank, x, k, z)
  {
    var m: nat, y :|
      Live(env, rho, x, m, k - 1) && Uses(env, rho, x, m, y) && rank[y] < rank[x] && Reaches(env, rho, rank, y, z);
    LiveMore(env, rho, x, m, k);
  }

  lemma {:induction false} LiveMore(env: Env, rho: Valuation, x: string, m: nat, k: nat)
    requires StraightLine(env) && x in env.setters && 1 <= k <= |env.setters[x]|
    requires Live(env, rho, x, m, k - 1) && SelfLoads(env, rho, x, k - 1)
    ensures Live(env, rho, x, m, k)
  {
  }

  lemma {:induction false} ReachBack(env: Env, rho: Valuation, rank: map<string, nat>, x: string, k: nat, z: string)
    requires StraightLine(env) && rank.Keys == env.setters.Keys && x in rank && 1 <= k <= |env.setters[x]|
    requires ReachesBy(env, rho, rank, x, k, z)
    ensures
      || ReachesAt(env, rho, rank, x, k - 1, z)
      || (SelfLoads(env, rho, x, k - 1) && ReachesBy(env, rho, rank, x, k - 1, z))
  {
    var m: nat, y :|
      Live(env, rho, x, m, k) && Uses(env, rho, x, m, y) && rank[y] < rank[x] && Reaches(env, rho, rank, y, z);
    if m < k - 1 {
      assert Live(env, rho, x, m, k - 1);
    }
  }

  // ---- what is cached ----

  /** Everything that the first `k` setters of `x` reach is cached. */
  ghost predicate Covered(env: Env, rho: Valuation, rank: map<string, nat>, cached: set<string>, x: string, k: nat)
    requires StraightLine(env) && rank.Keys == env.setters.Keys && x in rank
  {
    forall z :: ReachesBy(env, rho, rank, x, k, z) ==> z in cached
  }

  /** Cached names ranked below `r` are cached with all they reach. */
  ghost predicate Closed(env: Env, rho: Valuation, rank: map<string, nat>, cached: set<string>, r: nat)
    requires StraightLine(env) && rank.Keys == env.setters.Keys
  {
    forall y {:trigger Covered(env, rho, rank, cached, y, |env.setters[y]|)} ::
      y in rank && rank[y] < r && y in cached ==> Covered(env, rho, rank, cached, y, |env.setters[y]|)
  }

  ghost predicate SelfClosed(env: Env, rho: Valuation, rank: map<string, nat>, cached: set<string>, x: string, k: nat)
    requires StraightLine(env) && rank.Keys == env.setters.Keys && x in rank
  {
    k >= 1 && x in cached ==> Covered(env, rho, rank, cached, x, k - 1)
  }

  lemma {:induction false} CoveredGrows(
    env: Env, rho: Valuation, rank: map<string, nat>, a: set<string>, b: set<string>, x: string, k: nat)
    requires StraightLine(env) && rank.Keys == env.setters.Keys && x in rank
    requires Covered(env, rho, rank, a, x, k) && a <= b
    ensures Covered(env, rho, rank, b, x, k)
  {
  }

  /** Caching `y` with all it reaches keeps what is above it closed. */
  lemma {:induction false} ClosedCross(
    env: Env, rho: Valuation, rank: map<string, nat>, a: set<string>, b: set<string>, y: string, r: nat)
    requires StraightLine(env) && rank.Keys == env.setters.Keys && y in rank
    requires Closed(env, rho, rank, a, r) && Closed(env, rho, rank, b, rank[y]) && a <= b
    requires Covered(env, rho, rank, b, y, |env.setters[y]|)
    requires forall z :: z in rank && z != y && rank[z] >= rank[y] && z in b ==> z in a
    ensures Closed(env, rho, rank, b, r)
  {
    forall z | z in rank && rank[z] < r && z in b ensures Covered(env, rho, rank, b, z, |env.setters[z]|) {
      if z != y && rank[z] >= rank[y] {
        CoveredGrows(env, rho, rank, a, b, z, |env.setters[z]|);
      }
    }
  }

  /** What a load of `y` inside a statement of `x` may cache lies in `more`. */
  ghost predicate Allowed(
    env: Env, rho: Valuation, rank: map<string, nat>, y: string, x: string, k: nat, more: set<string>)
    requires StraightLine(env) && rank.Keys == env.setters.Keys && x in rank
  {
    && (y != x && y in rank ==> forall z :: Reaches(env, rho, rank, y, z) ==> z in more)
    && (y == x && k >= 2 ==> x in more && forall z :: ReachesBy(env, rho, rank, x, k - 1, z) ==> z in more)
  }

  /** What a load of `y` inside a statement of `x` has certainly cached. */
  ghost predicate Loaded(
    env: Env, rho: Valuation, rank: map<string, nat>, cached: set<string>, y: string, x: string, k: nat)
    requires StraightLine(env) && rank.Keys == env.setters.Keys && x in rank
  {
    && (y != x && y in rank ==> forall z :: Reaches(env, rho, rank, y, z) ==> z in cached)
    && (y == x && k >= 2 ==> x in cached)
  }

  ghost predicate Good(env: Env, rho: Valuation, rank: map<string, nat>, st: State, x: string, k: nat, own: Value)
    requires Fragment(env, rho, rank)
  {
    && Ready(env, rho, rank, st, x, k, own)
    && Closed(env, rho, rank, st.cache.Keys, rank[x]) && SelfClosed(env, rho, rank, st.cache.Keys, x, k)
  }

  /** From `a` the cache has grown to `b`, by names in `more` only. */
  ghost predicate Grown(a: set<string>, b: set<string>, more: set<string>) { a <= b <= a + more }

  lemma {:induction false} LoadReach(
    env: Env, rho: Valuation, rank: map<string, nat>, st: State, y: string, x: string, k: nat, own: Value,
    more: set<string>)
    requires Fragment(env, rho, rank) && Good(env, rho, rank, st, x, k, own)
    requires (y in rank ==> y == x || rank[y] < rank[x]) && (k == 1 ==> x != y)
    requires Allowed(env, rho, rank, y, x, k, more)
    ensures
      var st' := LoadName(env, st, y).0;
      && Good(env, rho, rank, st', x, k, own) && Grown(st.cache.Keys, st'.cache.Keys, more)
      && Loaded(env, rho, rank, st'.cache.Keys, y, x, k) && LoadName(env, st, y).1 == Lookup(rho[x := own], y)
    decreases rank[x], k, 0
  {
    NameRight(env, rho, rank, st, y, x, k, own);
    if y in env.setters {
      ScopeReach(env, rho, rank, st, y, x, k, own, more);
    }
  }

  lemma {:induction false} ScopeReach(
    env: Env, rho: Valuation, rank: map<string, nat>, st: State, y: string, x: string, k: nat, own: Value,
    more: set<string>)
    requires Fragment(env, rho, rank) && Good(env, rho, rank, st, x, k, own)
    requires y in rank && (y == x || rank[y] < rank[x]) && (k == 1 ==> x != y)
    requires Allowed(env, rho, rank, y, x, k, more)
    ensures
      var b := GetValue(env, st, y, st.vars[y]).0.cache.Keys;
      && Grown(st.cache.Keys, b, more) && Loaded(env, rho, rank, b, y, x, k)
      && Closed(env, rho, rank, b, rank[x]) && SelfClosed(env, rho, rank, b, x, k)
    decreases rank[x], k, 0, 0
  {
    if y == x {
      if k > 0 && x !in st.cache {
        SelfReach(env, rho, rank, st, x, k, own, more);
      }
    } else {
      assert NameOk(env, rho, CoreOf(st), y);
      if y !in st.cache {
        CrossReach(env, rho, rank, st, y, x, k, own, more);
      } else {
        assert Covered(env, rho, rank, st.cache.Keys, y, |env.setters[y]|);
      }
    }
  }

  lemma {:induction false} SelfReach(
    env: Env, rho: Valuation, rank: map<string, nat>, st: State, x: string, k: nat, own: Value, more: set<string>)
    requires Fragment(env, rho, rank) && Good(env, rho, rank, st, x, k, own)
    requires k >= 2 && x !in st.cache && Allowed(env, rho, rank, x, x, k, more)
    ensures
      var b := GetValue(env, st, x, st.vars[x]).0.cache.Keys;
      && Grown(st.cache.Keys, b, more) && x in b
      && Closed(env, rho, rank, b, rank[x]) && SelfClosed(env, rho, rank, b, x, k)
    decreases rank[x], k - 1, 5
  {
    BackReach(env, rho, rank, st, x, k - 1, st.vars[x], more);
  }

  lemma {:induction false} CrossReach(
    env: Env, rho: Valuation, rank: map<string, nat>, st: State, y: string, x: string, k: nat, own: Value,
    more: set<string>)
    requires Fragment(env, rho, rank) && Good(env, rho, rank, st, x, k, own)
    requires y in rank && rank[y] < rank[x] && y !in st.cache && Allowed(env, rho, rank, y, x, k, more)
    ensures
      var b := GetValue(env, st, y, st.vars[y]).0.cache.Keys;
      && Grown(st.cache.Keys, b, more) && Loaded(env, rho, rank, b, y, x, k)
      && Closed(env, rho, rank, b, rank[x]) && SelfClosed(env, rho, rank, b, x, k)
    decreases rank[y], |env.setters[y]|, 5
  {
    var n, a, st' := |env.setters[y]|, st.cache.Keys, GetValue(env, st, y, st.vars[y]).0;
    assert NameOk(env, rho, CoreOf(st), y);
    assert Reaches(env, rho, rank, y, y);
    BacktrackRight(env, rho, rank, st, y, n, st.vars[y]);
    BackReach(env, rho, rank, st, y, n, st.vars[y], more);
    CrossKeeps(env, rho, rank, CoreOf(st), CoreOf(st'), y, x, k);
  }

  lemma {:induction false} CrossKeeps(
    env: Env, rho: Valuation, rank: map<string, nat>, c: Core, d: Core, y: string, x: string, k: nat)
    requires Fragment(env, rho, rank) && x in rank && y in rank && rank[y] < rank[x]
    requires Framed(env, rank, c, d, y, |env.body|) && c.cache.Keys <= d.cache.Keys && y in d.cache
    requires Closed(env, rho, rank, c.cache.Keys, rank[x]) && SelfClosed(env, rho, rank, c.cache.Keys, x, k)
    requires Closed(env, rho, rank, d.cache.Keys, rank[y]) && Covered(env, rho, rank, d.cache.Keys, y, |env.setters[y]|)
    ensures Closed(env, rho, rank, d.cache.Keys, rank[x]) && SelfClosed(env, rho, rank, d.cache.Keys, x, k)
    ensures Loaded(env, rho, rank, d.cache.Keys, y, x, k)
  {
    forall z | z in rank && z != y && rank[z] >= rank[y] && z in d.cache ensures z in c.cache {
      assert Untouched(c, d, z);
    }
    ClosedCross(env, rho, rank, c.cache.Keys, d.cache.Keys, y, rank[x]);
  }

  /** A backtracking step caches exactly what its setters reach. */
  lemma {:induction false} BackReach(
    env: Env, rho: Valuation, rank: map<string, nat>, st: State, x: string, k: nat, default: Value, more: set<string>)
    requires Fragment(env, rho, rank) && x in env.setters && 1 <= k <= |env.setters[x]|
    requires Sound(env, rho, st) && Settled(env, rho, rank, CoreOf(st), rank[x])
    requires Level(st, x) == |env.setters[x]| - k && x !in st.cache
    requires Unvisited(env, CoreOf(st), x, Bound(env, x, k))
    requires x == Target(st) ==> Level(st, x) > 0 && |env.setters[x]| > 1
    requires Closed(env, rho, rank, st.cache.Keys, rank[x])
    requires x in more && forall z :: ReachesBy(env, rho, rank, x, k, z) ==> z in more
    ensures
      var b := GetValue(env, st, x, default).0.cache.Keys;
      && Grown(st.cache.Keys, b, more) && x in b
      && Closed(env, rho, rank, b, rank[x]) && Covered(env, rho, rank, b, x, k)
    decreases rank[x], k, 4
  {
    assert SetterAt(env, x, env.setters[x][k - 1]);
    SetterReach(env, rho, rank, st, x, k, more);
    BackKeys(env, st, x, k, default);
    AddSelf(env, rho, rank, SetterOperand(env, st, x, k).0.cache.Keys, x, k);
  }

  lemma {:induction false} BackKeys(env: Env, st: State, x: string, k: nat, default: Value)
    requires StraightLine(env) && x in env.setters && 1 <= k <= |env.setters[x]|
    requires SetterAt(env, x, env.setters[x][k - 1])
    requires Level(st, x) == |env.setters[x]| - k && x !in st.cache
    requires x == Target(st) ==> Level(st, x) > 0 && |env.setters[x]| > 1
    ensures GetValue(env, st, x, default).0.cache.Keys == SetterOperand(env, st, x, k).0.cache.Keys + {x}
  {
    BacktrackUnfold(env, st, x, k, default);
  }

  lemma {:induction false} AddSelf(env: Env, rho: Valuation, rank: map<string, nat>, a: set<string>, x: string, k: nat)
    requires StraightLine(env) && rank.Keys == env.setters.Keys && x in rank
    requires Closed(env, rho, rank, a, rank[x]) && Covered(env, rho, rank, a, x, k)
    ensures Closed(env, rho, rank, a + {x}, rank[x]) && Covered(env, rho, rank, a + {x}, x, k)
  {
    forall y | y in rank && rank[y] < rank[x] && y in a + {x}
      ensures Covered(env, rho, rank, a + {x}, y, |env.setters[y]|)
    {
      CoveredGrows(env, rho, rank, a, a + {x}, y, |env.setters[y]|);
    }
  }

  lemma {:induction false} SetterReach(
    env: Env, rho: Valuation, rank: map<string, nat>, st: State, x: string, k: nat, more: set<string>)
    requires Fragment(env, rho, rank) && x in env.setters && 1 <= k <= |env.setters[x]|
    requires Sound(env, rho, st) && Settled(env, rho, rank, CoreOf(st), rank[x])
    requires Level(st, x) == |env.setters[x]| - k && x !in st.cache
    requires Unvisited(env, CoreOf(st), x, Bound(env, x, k))
    requires SetterAt(env, x, env.setters[x][k - 1])
    requires Closed(env, rho, rank, st.cache.Keys, rank[x])
    requires x in more && forall z :: ReachesBy(env, rho, rank, x, k, z) ==> z in more
    ensures
      var b := SetterOperand(env, st, x, k).0.cache.Keys;
      && Grown(st.cache.Keys, b, more) && Closed(env, rho, rank, b, rank[x]) && Covered(env, rho, rank, b, x, k)
    decreases rank[x], k, 3
  {
    var i := env.setters[x][k - 1].stmt;
    var st3 := PushTarget(Enter(Deeper(st, x), env.body[i]), x);
    EnterGood(env, rho, rank, st, x, k);
    if k == 1 {
      assert StartsFresh(env, x);
    }
    SetterAllows(env, rho, rank, x, k, more);
    OperandReach(env, rho, rank, st3, i, x, k, Fold(env, rho, x, k - 1), more);
    SetterCovers(env, rho, rank, Operand(env, st3, env.body[i]).0.cache.Keys, x, k);
  }

  lemma {:induction false} EnterGood(
    env: Env, rho: Valuation, rank: map<string, nat>, st: State, x: string, k: nat)
    requires Fragment(env, rho, rank) && x in env.setters && 1 <= k <= |env.setters[x]|
    requires Sound(env, rho, st) && Settled(env, rho, rank, CoreOf(st), rank[x])
    requires Level(st, x) == |env.setters[x]| - k && x !in st.cache
    requires Unvisited(env, CoreOf(st), x, Bound(env, x, k))
    requires SetterAt(env, x, env.setters[x][k - 1])
    requires Closed(env, rho, rank, st.cache.Keys, rank[x])
    ensures
      var st3 := PushTarget(Enter(Deeper(st, x), env.body[env.setters[x][k - 1].stmt]), x);
      st3.cache == st.cache && Good(env, rho, rank, st3, x, k, Fold(env, rho, x, k - 1))
  {
    DeeperReady(env, rho, rank, st, x, k);
  }

  lemma {:induction false} SetterAllows(
    env: Env, rho: Valuation, rank: map<string, nat>, x: string, k: nat, more: set<string>)
    requires StraightLine(env) && Acyclic(env, rank) && x in rank && 1 <= k <= |env.setters[x]|
    requires x in more && forall z :: ReachesBy(env, rho, rank, x, k, z) ==> z in more
    ensures AllAllowed(env, rho, rank, SetterLoads(env, rho, x, k - 1), x, k, more)
  {
    forall y | y in SetterLoads(env, rho, x, k - 1) ensures Allowed(env, rho, rank, y, x, k, more) {
      if y != x && y in rank {
        forall z | Reaches(env, rho, rank, y, z) ensures z in more {
          assert Uses(env, rho, x, k - 1, y);
          ReachLast(env, rho, rank, x, k, z);
        }
      } else if y == x && k >= 2 {
        forall z | ReachesBy(env, rho, rank, x, k - 1, z) ensures z in more {
          ReachMore(env, rho, rank, x, k, z);
        }
      }
    }
  }

  lemma {:induction false} SetterCovers(
    env: Env, rho: Valuation, rank: map<string, nat>, b: set<string>, x: string, k: nat)
    requires StraightLine(env) && Acyclic(env, rank) && x in rank && 1 <= k <= |env.setters[x]|
    requires AllLoaded(env, rho, rank, b, SetterLoads(env, rho, x, k - 1), x, k) && SelfClosed(env, rho, rank, b, x, k)
    ensures Covered(env, rho, rank, b, x, k)
  {
    forall z | ReachesBy(env, rho, rank, x, k, z) ensures z in b {
      ReachBack(env, rho, rank, x, k, z);
      if ReachesAt(env, rho, rank, x, k - 1, z) {
        var y :| Uses(env, rho, x, k - 1, y) && Reaches(env, rho, rank, y, z);
        assert Loaded(env, rho, rank, b, y, x, k);
      } else {
        assert k >= 2 by {
          var m: nat, y :|
            Live(env, rho, x, m, k - 1) && Uses(env, rho, x, m, y) && rank[y] < rank[x]
              && Reaches(env, rho, rank, y, z);
        }
        assert Loaded(env, rho, rank, b, x, x, k);
      }
    }
  }

  ghost predicate AllAllowed(
    env: Env, rho: Valuation, rank: map<string, nat>, loads: set<string>, x: string, k: nat, more: set<string>)
    requires StraightLine(env) && rank.Keys == env.setters.Keys && x in rank
  {
    forall y {:trigger Allowed(env, rho, rank, y, x, k, more)} :: y in loads ==> Allowed(env, rho, rank, y, x, k, more)
  }

  ghost predicate AllLoaded(
    env: Env, rho: Valuation, rank: map<string, nat>, cached: set<string>, loads: set<string>, x: string, k: nat)
    requires StraightLine(env) && rank.Keys == env.setters.Keys && x in rank
  {
    forall y {:trigger Loaded(env, rho, rank, cached, y, x, k)} ::
      y in loads ==> Loaded(env, rho, rank, cached, y, x, k)
  }

  /** A statement of `x` that may be evaluated now, with the names it loads allowed. */
  ghost predicate Evaluable(
    env: Env, rho: Valuation, rank: map<string, nat>, p: nat, x: string, k: nat, own: Value, more: set<string>)
    requires Fragment(env, rho, rank) && x in rank
  {
    && p < |env.body| && env.body[p].target == x && (k == 1 ==> Resets(env.body[p]))
    && AllAllowed(env, rho, rank, Loads(env, rho, env.body[p], own), x, k, more)
  }

  lemma {:induction false} OperandReach(
    env: Env, rho: Valuation, rank: map<string, nat>, st: State, p: nat, x: string, k: nat, own: Value,
    more: set<string>)
    requires Fragment(env, rho, rank) && Good(env, rho, rank, st, x, k, own)
    requires Evaluable(env, rho, rank, p, x, k, own, more)
    ensures
      var st' := Operand(env, st, env.body[p]).0;
      && Good(env, rho, rank, st', x, k, own) && Grown(st.cache.Keys, st'.cache.Keys, more)
      && AllLoaded(env, rho, rank, st'.cache.Keys, Loads(env, rho, env.body[p], own), x, k)
    decreases rank[x], k, 2
  {
    var s := env.body[p];
    ExprReach(env, rho, rank, st, p, x, k, own, more);
    if s.AugAssign? {
      var st1 := WalkExpr(env, st, s.value).0;
      assert Allowed(env, rho, rank, x, x, k, more);
      LoadReach(env, rho, rank, st1, x, x, k, own, more);
      LoadsGrow(env, rho, rank, st1.cache.Keys, LoadName(env, st1, x).0.cache.Keys, s, own, x, k);
    }
  }

  lemma {:induction false} LoadsGrow(
    env: Env, rho: Valuation, rank: map<string, nat>, a: set<string>, b: set<string>, s: Stmt, own: Value, x: string,
    k: nat)
    requires StraightLine(env) && rank.Keys == env.setters.Keys && x in rank && a <= b
    requires s.AugAssign? && s.target == x
    requires AllLoaded(env, rho, rank, a, ReadsIn(env.sem, s.value, rho[x := own]), x, k)
    requires Loaded(env, rho, rank, b, x, x, k)
    ensures AllLoaded(env, rho, rank, b, Loads(env, rho, s, own), x, k)
  {
    forall y | y in Loads(env, rho, s, own) ensures Loaded(env, rho, rank, b, y, x, k) {
      if y != x {
        assert Loaded(env, rho, rank, a, y, x, k);
      }
    }
  }

  lemma {:induction false} ExprReach(
    env: Env, rho: Valuation, rank: map<string, nat>, st: State, p: nat, x: string, k: nat, own: Value,
    more: set<string>)
    requires Fragment(env, rho, rank) && Good(env, rho, rank, st, x, k, own)
    requires Evaluable(env, rho, rank, p, x, k, own, more)
    ensures
      var st' := WalkExpr(env, st, env.body[p].value).0;
      && Good(env, rho, rank, st', x, k, own) && Grown(st.cache.Keys, st'.cache.Keys, more)
      && AllLoaded(env, rho, rank, st'.cache.Keys, ReadsIn(env.sem, env.body[p].value, rho[x := own]), x, k)
    decreases rank[x], k, 1
  {
    ExprGrows(env, rho, rank, st, p, x, k, own, more);
    forall y | y in ReadsIn(env.sem, env.body[p].value, rho[x := own])
      ensures Loaded(env, rho, rank, WalkExpr(env, st, env.body[p].value).0.cache.Keys, y, x, k)
    {
      ExprLoads(env, rho, rank, st, p, x, k, own, more, y);
    }
  }

  lemma {:induction false} ExprGrows(
    env: Env, rho: Valuation, rank: map<string, nat>, st: State, p: nat, x: string, k: nat, own: Value,
    more: set<string>)
    requires Fragment(env, rho, rank) && Good(env, rho, rank, st, x, k, own)
    requires Evaluable(env, rho, rank, p, x, k, own, more)
    ensures
      var st' := WalkExpr(env, st, env.body[p].value).0;
      Good(env, rho, rank, st', x, k, own) && Grown(st.cache.Keys, st'.cache.Keys, more)
    decreases rank[x], k, 1, 1
  {
    var e, inner := env.body[p].value, rho[x := own];
    var a := st.cache.Keys;
    var P := s => GoodFrom(env, rho, rank, a, s, x, k, own, more);
    forall s, y | P(s) && y in ReadsIn(env.sem, e, inner)
      ensures var (s', v) := LoadName(env, s, y); P(s') && v == Lookup(inner, y)
    {
      LoadStepFrom(env, rho, rank, a, s, p, x, k, own, more, y);
    }
    ReadLift(env, inner, st, e, P, P, x);
  }

  /** One load of the value of statement `p`. */
  lemma {:induction false} LoadStep(
    env: Env, rho: Valuation, rank: map<string, nat>, st: State, p: nat, x: string, k: nat, own: Value,
    more: set<string>, y: string)
    requires Fragment(env, rho, rank) && Good(env, rho, rank, st, x, k, own)
    requires Evaluable(env, rho, rank, p, x, k, own, more) && y in ReadsIn(env.sem, env.body[p].value, rho[x := own])
    ensures
      var (st', v) := LoadName(env, st, y);
      && Good(env, rho, rank, st', x, k, own) && Grown(st.cache.Keys, st'.cache.Keys, more)
      && Loaded(env, rho, rank, st'.cache.Keys, y, x, k) && v == Lookup(rho[x := own], y)
    decreases rank[x], k, 1, 0, 0
  {
    ReadsInReads(env.sem, env.body[p].value, rho[x := own]);
    assert Downward(env, rank, p);
    assert Allowed(env, rho, rank, y, x, k, more);
    LoadReach(env, rho, rank, st, y, x, k, own, more);
  }

  ghost predicate GoodFrom(
    env: Env, rho: Valuation, rank: map<string, nat>, a: set<string>, st: State, x: string, k: nat, own: Value,
    more: set<string>)
    requires Fragment(env, rho, rank)
  {
    Good(env, rho, rank, st, x, k, own) && Grown(a, st.cache.Keys, more)
  }

  lemma {:induction false} LoadStepFrom(
    env: Env, rho: Valuation, rank: map<string, nat>, a: set<string>, st: State, p: nat, x: string, k: nat, own: Value,
    more: set<string>, y: string)
    requires Fragment(env, rho, rank) && GoodFrom(env, rho, rank, a, st, x, k, own, more)
    requires Evaluable(env, rho, rank, p, x, k, own, more) && y in ReadsIn(env.sem, env.body[p].value, rho[x := own])
    ensures
      var (st', v) := LoadName(env, st, y);
      GoodFrom(env, rho, rank, a, st', x, k, own, more) && v == Lookup(rho[x := own], y)
    decreases rank[x], k, 1, 0, 1
  {
    LoadStep(env, rho, rank, st, p, x, k, own, more, y);
  }

  lemma {:induction false} ExprLoads(
    env: Env, rho: Valuation, rank: map<string, nat>, st: State, p: nat, x: string, k: nat, own: Value,
    more: set<string>, y0: string)
    requires Fragment(env, rho, rank) && Good(env, rho, rank, st, x, k, own)
    requires Evaluable(env, rho, rank, p, x, k, own, more) && y0 in ReadsIn(env.sem, env.body[p].value, rho[x := own])
    ensures Loaded(env, rho, rank, WalkExpr(env, st, env.body[p].value).0.cache.Keys, y0, x, k)
    decreases rank[x], k, 1, 1
  {
    var e, inner := env.body[p].value, rho[x := own];
    var P := s => Good(env, rho, rank, s, x, k, own);
    var Q := (s: State) => Loaded(env, rho, rank, s.cache.Keys, y0, x, k);
    forall s, y | P(s) && y in ReadsIn(env.sem, e, inner)
      ensures var (s', v) := LoadName(env, s, y); P(s') && v == Lookup(inner, y) && (Q(s) || y == y0 ==> Q(s'))
    {
      LoadStep(env, rho, rank, s, p, x, k, own, more, y);
      LoadedGrows(env, rho, rank, s.cache.Keys, LoadName(env, s, y).0.cache.Keys, y0, x, k);
    }
    ReadLift(env, inner, st, e, P, Q, y0);
  }

  lemma {:induction false} LoadedGrows(
    env: Env, rho: Valuation, rank: map<string, nat>, a: set<string>, b: set<string>, y: string, x: string, k: nat)
    requires StraightLine(env) && rank.Keys == env.setters.Keys && x in rank && a <= b
    ensures Loaded(env, rho, rank, a, y, x, k) ==> Loaded(env, rho, rank, b, y, x, k)
  {
  }
}
