/**
 * The results about whole programs: a straight-line body without cyclic dependencies has one
 * meaning, every run reads that meaning, and the order of statements does not matter.
 */
module LazyTheorems {
  import opened Values
  import opened LazySyntax
  import opened LazyEmit
  import opened LazyMachine
  import opened LazySpec
  import opened LazyRefine
  import opened LazyRun

  function Program(sem: Semantics, body: seq<Stmt>): Env {
    Env(sem, body, SetterTable(body))
  }

  predicate FlatBody(body: seq<Stmt>) {
    && (forall p :: 0 <= p < |body| ==> !body[p].If?)
    && (forall p, q :: 0 <= p < q < |body| ==> body[p].id != body[q].id)
  }

  lemma {:induction false} FlatBindings(body: seq<Stmt>)
    requires forall p :: 0 <= p < |body| ==> !body[p].If?
    ensures |BodyBindings(body)| == |body|
    ensures forall p :: 0 <= p < |body| ==>
      BodyBindings(body)[p] == Binding(body[p].target, Setter(p, body[p].id, Option.None, Normal))
  {
    if body != [] {
      FlatBindings(body[..|body| - 1]);
    }
  }

  /** Bindings that stand at their own statement index are selected in increasing order. */
  lemma {:induction false} SelectIncreasing(bs: seq<Binding>, x: string)
    requires forall p :: 0 <= p < |bs| ==> bs[p].setter.stmt == p
    ensures forall k :: 0 <= k < |Select(bs, x)| ==>
      var p := Select(bs, x)[k].stmt; p < |bs| && bs[p] == Binding(x, Select(bs, x)[k])
    ensures forall i, j :: 0 <= i < j < |Select(bs, x)| ==> Select(bs, x)[i].stmt < Select(bs, x)[j].stmt
    ensures forall p :: 0 <= p < |bs| && bs[p].name == x ==> bs[p].setter in Select(bs, x)
  {
    if bs != [] {
      SelectIncreasing(bs[..|bs| - 1], x);
    }
  }

  /** Emission puts every straight-line body with unique ids into the form the results need. */
  lemma {:induction false} FlatIsStraightLine(sem: Semantics, body: seq<Stmt>)
    requires FlatBody(body)
    ensures StraightLine(Program(sem, body))
  {
    var env, bs := Program(sem, body), BodyBindings(body);
    FlatBindings(body);
    forall x ensures SettersOf(env, x) == Select(bs, x) && (x in env.setters ==> env.setters[x] != []) {
      TableAt(bs, x);
    }
    forall x, k | x in env.setters && 0 <= k < |env.setters[x]| ensures SetterAt(env, x, env.setters[x][k]) {
      SelectIncreasing(bs, x);
    }
    forall x, i, j | x in env.setters && 0 <= i < j < |env.setters[x]|
      ensures env.setters[x][i].stmt < env.setters[x][j].stmt
    {
      SelectIncreasing(bs, x);
    }
    forall p | 0 <= p < |body| ensures HasSetter(env, p, body[p].target) {
      var x := body[p].target;
      SelectIncreasing(bs, x);
      assert bs[p].setter in Select(bs, x);
      assert SettersOf(env, x) == Select(bs, x);
      var k :| 0 <= k < |Select(bs, x)| && Select(bs, x)[k] == bs[p].setter;
    }
  }

  /** The value of `x`, computed name by name in dependency order. */
  ghost function Den(env: Env, rank: map<string, nat>, x: string): Value
    requires StraightLine(env) && Acyclic(env, rank) && x in rank
    decreases rank[x], 1
  {
    Fold(env, Below(env, rank, x), x, |env.setters[x]|)
  }

  ghost function Below(env: Env, rank: map<string, nat>, x: string): (rho: Valuation)
    requires StraightLine(env) && Acyclic(env, rank) && x in rank
    decreases rank[x], 0
  {
    map y | y in rank && rank[y] < rank[x] :: Den(env, rank, y)
  }

  ghost function Solve(env: Env, rank: map<string, nat>): Valuation
    requires StraightLine(env) && Acyclic(env, rank)
  {
    map x | x in rank :: Den(env, rank, x)
  }

  /** The fold of a name's setters looks only at names of lower rank. */
  lemma {:induction false} FoldAgree(
    env: Env, rank: map<string, nat>, rho: Valuation, rho': Valuation, x: string, k: nat)
    requires StraightLine(env) && Acyclic(env, rank) && x in rank && k <= |env.setters[x]|
    requires rho.Keys <= rank.Keys && rho'.Keys <= rank.Keys
    requires forall y :: y in rank && rank[y] < rank[x] ==> y in rho && y in rho' && rho[y] == rho'[y]
    ensures Fold(env, rho, x, k) == Fold(env, rho', x, k)
    decreases k
  {
    if k > 0 {
      FoldAgree(env, rank, rho, rho', x, k - 1);
      var s, own := StmtOf(env, x, k - 1), Fold(env, rho, x, k - 1);
      assert SetterAt(env, x, env.setters[x][k - 1]) && Downward(env, rank, env.setters[x][k - 1].stmt);
      EvalInAgree(env.sem, s.value, rho[x := own], rho'[x := own]);
    }
  }

  /** Every program without cyclic dependencies has a meaning ... */
  lemma {:induction false} SolutionExists(env: Env, rank: map<string, nat>)
    requires StraightLine(env) && Acyclic(env, rank)
    ensures Solution(env, Solve(env, rank))
  {
    var rho := Solve(env, rank);
    forall x | x in env.setters ensures Solved(env, rho, x) {
      FoldAgree(env, rank, Below(env, rank, x), rho, x, |env.setters[x]|);
    }
  }

  /** ... and only one. */
  lemma {:induction false} SolutionUnique(env: Env, rank: map<string, nat>, rho: Valuation, rho': Valuation)
    requires StraightLine(env) && Acyclic(env, rank)
    requires Solution(env, rho) && Solution(env, rho')
    ensures rho == rho'
  {
    forall x | x in rank ensures rho[x] == rho'[x] {
      SolutionUniqueAt(env, rank, rho, rho', x);
    }
  }

  lemma {:induction false} SolutionUniqueAt(
    env: Env, rank: map<string, nat>, rho: Valuation, rho': Valuation, x: string)
    requires StraightLine(env) && Acyclic(env, rank) && x in rank
    requires Solution(env, rho) && Solution(env, rho')
    ensures rho[x] == rho'[x]
    decreases rank[x]
  {
    forall y | y in rank && rank[y] < rank[x] ensures y in rho && y in rho' && rho[y] == rho'[y] {
      SolutionUniqueAt(env, rank, rho, rho', y);
    }
    FoldAgree(env, rank, rho, rho', x, |env.setters[x]|);
    assert Solved(env, rho, x) && Solved(env, rho', x);
  }

  /**
   * Every read of a name by another name's statement, in the main walk or at any depth of
   * backtracking, yields the name's value in the solution.
   */
  lemma {:induction false} ReadsRefine(env: Env, rho: Valuation, rank: map<string, nat>, seed: Id, p: nat, r: Read)
    requires Fragment(env, rho, rank) && p <= |env.body|
    requires r in After(env, seed, p).readLog && r.reader != r.name
    ensures r.value == Lookup(rho, r.name)
  {
    RunBetween(env, rho, rank, seed, p);
  }

  ghost function Final(env: Env, seed: Id): State {
    After(env, seed, |env.body|)
  }

  /** Every name ends up cached with its value in the solution. */
  lemma {:induction false} FinalCache(env: Env, rho: Valuation, rank: map<string, nat>, seed: Id, x: string)
    requires Fragment(env, rho, rank) && x in env.setters
    ensures x in Final(env, seed).cache && Final(env, seed).cache[x] == rho[x]
    ensures CalTimes(Final(env, seed), x) == |env.setters[x]|
  {
    RunBetween(env, rho, rank, seed, |env.body|);
    var c := CoreOf(Final(env, seed));
    assert NameOk(env, rho, c, x) && Stored(env, c, x, |env.body|);
    var n := |env.setters[x]|;
    assert SetterAt(env, x, env.setters[x][n - 1]);
  }

  /** Once a name is cached between two statements, it stays cached with the same value. */
  lemma {:induction false} CacheStable(
    env: Env, rho: Valuation, rank: map<string, nat>, seed: Id, p: nat, q: nat, x: string)
    requires Fragment(env, rho, rank) && p <= q <= |env.body| && x in env.setters
    requires x in After(env, seed, p).cache
    ensures x in After(env, seed, q).cache && After(env, seed, q).cache[x] == After(env, seed, p).cache[x]
  {
    CachedStays(env, rho, rank, seed, p, q, x);
    CachedIs(env, rho, rank, seed, p, x);
    CachedIs(env, rho, rank, seed, q, x);
  }

  /** Inside a statement, too: no load changes what is cached for a name at level 0. */
  lemma {:induction false} LoadKeepsCache(
    env: Env, rho: Valuation, rank: map<string, nat>, st: State, y: string, x: string, k: nat, own: Value, z: string)
    requires Fragment(env, rho, rank) && Ready(env, rho, rank, st, x, k, own)
    requires (y in rank ==> y == x || rank[y] < rank[x]) && (k == 1 ==> x != y)
    requires z in rank && Level(st, z) == 0 && z in st.cache
    ensures SameAt(st.cache, LoadName(env, st, y).0.cache, z)
  {
    NameRight(env, rho, rank, st, y, x, k, own);
    KeepsCache(env, rank, CoreOf(st), CoreOf(LoadName(env, st, y).0), x, k, z);
  }

  lemma {:induction false} KeepsCache(env: Env, rank: map<string, nat>, c: Core, d: Core, x: string, k: nat, z: string)
    requires StraightLine(env) && rank.Keys == env.setters.Keys && x in rank && k <= |env.setters[x]|
    requires Moved(env, rank, c, d, x, k) && z in rank && z in c.cache && (z == x ==> k == 0)
    ensures SameAt(c.cache, d.cache, z)
  {
    if z != x && rank[z] >= rank[x] {
      assert Untouched(c, d, z);
    }
  }

  /** Nor does a whole backtracking step, except for the name it is about. */
  lemma {:induction false} BacktrackKeepsCache(
    env: Env, rho: Valuation, rank: map<string, nat>, st: State, x: string, k: nat, default: Value, z: string)
    requires Fragment(env, rho, rank) && x in env.setters && 1 <= k <= |env.setters[x]|
    requires Sound(env, rho, st) && Settled(env, rho, rank, CoreOf(st), rank[x])
    requires Level(st, x) == |env.setters[x]| - k && x !in st.cache
    requires Unvisited(env, CoreOf(st), x, Bound(env, x, k))
    requires x == Target(st) ==> Level(st, x) > 0 && |env.setters[x]| > 1
    requires z in rank && z in st.cache
    ensures SameAt(st.cache, GetValue(env, st, x, default).0.cache, z)
  {
    BacktrackRight(env, rho, rank, st, x, k, default);
    if z != x && rank[z] >= rank[x] {
      assert Untouched(CoreOf(st), CoreOf(GetValue(env, st, x, default).0), z);
    }
  }

  lemma {:induction false} CachedStays(
    env: Env, rho: Valuation, rank: map<string, nat>, seed: Id, p: nat, q: nat, x: string)
    requires Fragment(env, rho, rank) && p <= q <= |env.body| && x in env.setters
    requires x in After(env, seed, p).cache
    ensures x in After(env, seed, q).cache
    decreases q - p
  {
    if p < q {
      CachedNext(env, rho, rank, seed, p, x);
      CachedStays(env, rho, rank, seed, p + 1, q, x);
    }
  }

  lemma {:induction false} CachedNext(env: Env, rho: Valuation, rank: map<string, nat>, seed: Id, p: nat, x: string)
    requires Fragment(env, rho, rank) && p < |env.body| && x in env.setters
    requires x in After(env, seed, p).cache
    ensures x in After(env, seed, p + 1).cache
  {
    RunBetween(env, rho, rank, seed, p);
    MainStep(env, rho, rank, seed, p);
  }

  lemma {:induction false} CachedIs(env: Env, rho: Valuation, rank: map<string, nat>, seed: Id, p: nat, x: string)
    requires Fragment(env, rho, rank) && p <= |env.body| && x in env.setters
    requires x in After(env, seed, p).cache
    ensures After(env, seed, p).cache[x] == rho[x]
  {
    RunBetween(env, rho, rank, seed, p);
    assert NameOk(env, rho, CoreOf(After(env, seed, p)), x);
  }

  /**
   * The variable a name ends with: its value in the solution, except that setters the main walk
   * still had to do when backtracking entered the name are applied to that value once more.
   */
  lemma {:induction false} FinalVariable(env: Env, rho: Valuation, rank: map<string, nat>, seed: Id, x: string)
    requires Fragment(env, rho, rank) && x in env.setters
    ensures
      var st, n := Final(env, seed), |env.setters[x]|;
      && (x in st.forced ==> st.forced[x] <= n)
      && Variable(st, x) ==
           if x in st.forced then Run(env, rho, x, rho[x], st.forced[x], n) else rho[x]
  {
    RunBetween(env, rho, rank, seed, |env.body|);
    FinalCache(env, rho, rank, seed, x);
    assert NameOk(env, rho, CoreOf(Final(env, seed)), x);
  }

  /** No setter is re-applied in vain when one of them starts the name afresh. */
  lemma {:induction false} FinalVariableReset(
    env: Env, rho: Valuation, rank: map<string, nat>, seed: Id, x: string, m: nat)
    requires Fragment(env, rho, rank) && x in env.setters && m < |env.setters[x]|
    requires Resets(StmtOf(env, x, m))
    requires x in Final(env, seed).forced ==> Final(env, seed).forced[x] <= m
    ensures Variable(Final(env, seed), x) == rho[x]
  {
    FinalVariable(env, rho, rank, seed, x);
    assert Solved(env, rho, x);
    if x in Final(env, seed).forced {
      ResetRun(env, rho, x, rho[x], Final(env, seed).forced[x], m, |env.setters[x]|);
    }
  }

  /** A name with a single setter ends with its value in the solution. */
  lemma {:induction false} FinalVariableSingle(env: Env, rho: Valuation, rank: map<string, nat>, seed: Id, x: string)
    requires Fragment(env, rho, rank) && x in env.setters && |env.setters[x]| == 1
    ensures Variable(Final(env, seed), x) == rho[x]
  {
    FinalVariable(env, rho, rank, seed, x);
    assert Solved(env, rho, x) && StartsFresh(env, x);
    if x in Final(env, seed).forced && Final(env, seed).forced[x] == 0 {
      ResetRun(env, rho, x, rho[x], 0, 0, 1);
    }
  }

  /**
   * Lazy evaluation refines evaluation in dependency order: wherever a statement reads another name,
   * it gets the value computed name by name, and every name is cached with it at the end.
   */
  lemma {:induction false} RunMeetsDependencyOrder(sem: Semantics, body: seq<Stmt>, rank: map<string, nat>, seed: Id)
    requires FlatBody(body) && StraightLine(Program(sem, body)) && Acyclic(Program(sem, body), rank)
    ensures
      var env := Program(sem, body);
      var st := Final(env, seed);
      && (forall r :: r in st.readLog && r.reader != r.name ==> r.value == Lookup(Solve(env, rank), r.name))
      && (forall x :: x in rank ==> x in st.cache && st.cache[x] == Den(env, rank, x))
      && (forall x :: x in rank && |env.setters[x]| == 1 ==> Variable(st, x) == Den(env, rank, x))
  {
    var env := Program(sem, body);
    var rho := Solve(env, rank);
    SolutionExists(env, rank);
    var st := Final(env, seed);
    forall r | r in st.readLog && r.reader != r.name ensures r.value == Lookup(rho, r.name) {
      ReadsRefine(env, rho, rank, seed, |body|, r);
    }
    forall x | x in rank ensures x in st.cache && st.cache[x] == rho[x] {
      FinalCache(env, rho, rank, seed, x);
    }
    forall x | x in rank && |env.setters[x]| == 1 ensures Variable(st, x) == rho[x] {
      FinalVariableSingle(env, rho, rank, seed, x);
    }
  }

  /** A statement can first enter `x` by backtracking only if its target ranks above `x`. */
  lemma {:induction false} ForcedStep(env: Env, rho: Valuation, rank: map<string, nat>, seed: Id, p: nat, x: string)
    requires Fragment(env, rho, rank) && p < |env.body| && x in env.setters
    requires rank[env.body[p].target] <= rank[x] || x in After(env, seed, p).cache
    ensures SameAt(After(env, seed, p).forced, After(env, seed, p + 1).forced, x)
  {
    var s, st := env.body[p], After(env, seed, p);
    var (st2, v) := Operand(env, PushTarget(Enter(st, s), s.target), s);
    RunBetween(env, rho, rank, seed, p);
    AfterStep(env, seed, p);
    MainUnfold(env, st, s);
    MainEvaluated(env, rho, rank, st, p);
    assert SameAt(st.forced, st2.forced, x) by {
      ForcedMoved(env, rank, CoreOf(st), CoreOf(st2), s.target, x);
    }
  }

  lemma {:induction false} ForcedMoved(env: Env, rank: map<string, nat>, c: Core, d: Core, t: string, x: string)
    requires StraightLine(env) && rank.Keys == env.setters.Keys && x in rank && t in rank
    requires Moved(env, rank, c, d, t, 0)
    requires rank[t] <= rank[x] || x in c.cache
    ensures SameAt(c.forced, d.forced, x)
  {
    if rank[t] <= rank[x] {
      assert Untouched(c, d, x);
    }
  }

  /** Between the first and the last setter of `x` stand only statements of names not above `x`. */
  ghost predicate Undisturbed(env: Env, rank: map<string, nat>, x: string)
    requires StraightLine(env) && Acyclic(env, rank) && x in rank
  {
    var setters := env.setters[x];
    forall p :: setters[0].stmt < p < setters[|setters| - 1].stmt && p < |env.body| ==>
      rank[env.body[p].target] <= rank[x]
  }

  lemma {:induction false} ForcedEarly(env: Env, rho: Valuation, rank: map<string, nat>, seed: Id, p: nat, x: string)
    requires Fragment(env, rho, rank) && p <= |env.body| && x in env.setters && Undisturbed(env, rank, x)
    ensures x in After(env, seed, p).forced ==> After(env, seed, p).forced[x] == 0
    decreases p
  {
    if p == 0 {
      assert env.body[..0] == [];
    } else {
      var q := p - 1;
      ForcedEarly(env, rho, rank, seed, q, x);
      if rank[env.body[q].target] <= rank[x] || x in After(env, seed, q).cache {
        ForcedStep(env, rho, rank, seed, q, x);
      } else {
        ForcedBeforeFirst(env, rho, rank, seed, q, x);
      }
    }
  }

  lemma {:induction false} ForcedBeforeFirst(
    env: Env, rho: Valuation, rank: map<string, nat>, seed: Id, q: nat, x: string)
    requires Fragment(env, rho, rank) && q < |env.body| && x in env.setters && Undisturbed(env, rank, x)
    requires rank[env.body[q].target] > rank[x] && x !in After(env, seed, q).cache
    ensures x in After(env, seed, q + 1).forced ==> After(env, seed, q + 1).forced[x] == 0
  {
    RunBetween(env, rho, rank, seed, q);
    RunBetween(env, rho, rank, seed, q + 1);
    var c, c' := CoreOf(After(env, seed, q)), CoreOf(After(env, seed, q + 1));
    assert NameOk(env, rho, c, x) && Stored(env, c, x, q) && NameOk(env, rho, c', x) && Stored(env, c', x, q + 1);
    var n := |env.setters[x]|;
    assert SetterAt(env, x, env.setters[x][0]) && SetterAt(env, x, env.setters[x][n - 1]);
  }

  /**
   * A name whose statements stand together, or apart only by statements that do not depend on
   * it, ends with its value in the solution.
   */
  lemma {:induction false} FinalVariableUndisturbed(
    env: Env, rho: Valuation, rank: map<string, nat>, seed: Id, x: string)
    requires Fragment(env, rho, rank) && x in env.setters && Undisturbed(env, rank, x)
    ensures Variable(Final(env, seed), x) == rho[x]
  {
    ForcedEarly(env, rho, rank, seed, |env.body|, x);
    assert StartsFresh(env, x);
    FinalVariableReset(env, rho, rank, seed, x, 0);
  }

  /** Names that every evaluation of the expression reads. */
  function MustRead(e: Expr): set<string> {
    match e
    case Lit(_) => {}
    case Name(x) => {x}
    case Binary(_, l, r) => MustRead(l) + MustRead(r)
    case Logic(_, l, _) => MustRead(l)
    case Cond(c, _, _) => MustRead(c)
  }

  /** Whatever loading `x` establishes, and every load keeps, holds once `x` has been read. */
  lemma {:induction false} MustLift(env: Env, st: State, e: Expr, P: State -> bool, Q: State -> bool, x: string)
    requires P(st) && (x in MustRead(e) || Q(st))
    requires forall s, y :: P(s) && y in Reads(e) ==>
      var s' := LoadName(env, s, y).0; P(s') && (Q(s) || y == x ==> Q(s'))
    ensures P(WalkExpr(env, st, e).0) && Q(WalkExpr(env, st, e).0)
    decreases e
  {
    match e
    case Lit(_) =>
    case Name(_) =>
    case Binary(_, l, r) =>
      var st1 := WalkExpr(env, st, l).0;
      if x in MustRead(l) || Q(st) {
        MustLift(env, st, l, P, Q, x);
      } else {
        PLift(env, st, l, P);
      }
      MustLift(env, st1, r, P, Q, x);
    case Logic(_, l, r) =>
      MustLift(env, st, l, P, Q, x);
      MustLift(env, WalkExpr(env, st, l).0, r, P, Q, x);
    case Cond(c, a, b) =>
      MustLift(env, st, c, P, Q, x);
      var st1 := WalkExpr(env, st, c).0;
      MustLift(env, st1, a, P, Q, x);
      MustLift(env, st1, b, P, Q, x);
  }

  lemma {:induction false} PLift(env: Env, st: State, e: Expr, P: State -> bool)
    requires P(st)
    requires forall s, y :: P(s) && y in Reads(e) ==> P(LoadName(env, s, y).0)
    ensures P(WalkExpr(env, st, e).0)
    decreases e
  {
    match e
    case Lit(_) =>
    case Name(_) =>
    case Binary(_, l, r) =>
      PLift(env, st, l, P);
      PLift(env, WalkExpr(env, st, l).0, r, P);
    case Logic(_, l, r) =>
      PLift(env, st, l, P);
      PLift(env, WalkExpr(env, st, l).0, r, P);
    case Cond(c, a, b) =>
      PLift(env, st, c, P);
      var st1 := WalkExpr(env, st, c).0;
      PLift(env, st1, a, P);
      PLift(env, st1, b, P);
  }

  /** A name that a statement of another name certainly reads is cached afterwards. */
  lemma {:induction false} MustReadCaches(
    env: Env, rho: Valuation, rank: map<string, nat>, st: State, e: Expr, t: string, own: Value, x: string)
    requires Fragment(env, rho, rank) && Ready(env, rho, rank, st, t, 0, own)
    requires forall y :: y in Reads(e) && y in rank ==> y == t || rank[y] < rank[t]
    requires x in rank && rank[x] < rank[t] && x in MustRead(e)
    ensures x in WalkExpr(env, st, e).0.cache
  {
    var P := s => Ready(env, rho, rank, s, t, 0, own);
    var Q := (s: State) => x in s.cache;
    forall s, y | P(s) && y in Reads(e)
      ensures var s' := LoadName(env, s, y).0; P(s') && (Q(s) || y == x ==> Q(s'))
    {
      LoadMust(env, rho, rank, s, y, t, own, x);
    }
    MustLift(env, st, e, P, Q, x);
  }

  /** Loading `x` caches it, and loading another name keeps it cached. */
  lemma {:induction false} LoadMust(
    env: Env, rho: Valuation, rank: map<string, nat>, st: State, y: string, t: string, own: Value, x: string)
    requires Fragment(env, rho, rank) && Ready(env, rho, rank, st, t, 0, own)
    requires y in rank ==> y == t || rank[y] < rank[t]
    requires x in rank && rank[x] < rank[t]
    ensures
      var st' := LoadName(env, st, y).0;
      Ready(env, rho, rank, st', t, 0, own) && (x in st.cache || y == x ==> x in st'.cache)
  {
    NameRight(env, rho, rank, st, y, t, 0, own);
    if y == x {
      LoadCaches(env, st, x);
    }
  }

  lemma {:induction false} LoadCaches(env: Env, st: State, x: string)
    requires x in env.setters && Level(st, x) == 0 && env.setters[x] != []
    requires x in st.vars && x != Target(st)
    ensures x in LoadName(env, st, x).0.cache
  {
    if x !in st.cache {
      assert x in Backtrack(env, st, x).0.cache;
    }
    assert x in GetValue(env, st, x, st.vars[x]).0.cache;
  }

  lemma {:induction false} OperandCaches(
    env: Env, rho: Valuation, rank: map<string, nat>, st: State, p: nat, x: string, own: Value)
    requires Fragment(env, rho, rank) && p < |env.body| && x in env.setters
    requires x in MustRead(env.body[p].value) && x != env.body[p].target
    requires Ready(env, rho, rank, st, env.body[p].target, 0, own)
    ensures x in Operand(env, st, env.body[p]).0.cache
  {
    var s := env.body[p];
    MustReadIsRead(s.value);
    assert Downward(env, rank, p);
    MustReadCaches(env, rho, rank, st, s.value, s.target, own, x);
    if s.AugAssign? {
      ExprRight(env, rho, rank, st, s.value, s.target, 0, own);
      NameRight(env, rho, rank, WalkExpr(env, st, s.value).0, s.target, s.target, 0, own);
    }
  }

  lemma {:induction false} StmtCaches(env: Env, rho: Valuation, rank: map<string, nat>, seed: Id, p: nat, x: string)
    requires Fragment(env, rho, rank) && p < |env.body| && x in env.setters
    requires x in MustRead(env.body[p].value) && x != env.body[p].target
    ensures x in After(env, seed, p + 1).cache
  {
    RunBetween(env, rho, rank, seed, p);
    AfterStep(env, seed, p);
    MainReady(env, rho, rank, After(env, seed, p), p);
    WalkCaches(env, rho, rank, After(env, seed, p), p, x);
  }

  lemma {:induction false} WalkCaches(env: Env, rho: Valuation, rank: map<string, nat>, st: State, p: nat, x: string)
    requires Fragment(env, rho, rank) && p < |env.body| && x in env.setters && st.metas == []
    requires x in MustRead(env.body[p].value) && x != env.body[p].target
    requires
      var s := env.body[p];
      Ready(env, rho, rank, PushTarget(Enter(st, s), s.target), s.target, 0, Variable(st, s.target))
    ensures x in WalkStmt(env, st, env.body[p]).cache
  {
    var s := env.body[p];
    OperandCaches(env, rho, rank, PushTarget(Enter(st, s), s.target), p, x, Variable(st, s.target));
    MainUnfold(env, st, s);
  }

  lemma {:induction false} MustReadIsRead(e: Expr)
    ensures MustRead(e) <= Reads(e)
  {
    match e
    case Lit(_) =>
    case Name(_) =>
    case Binary(_, l, r) => MustReadIsRead(l); MustReadIsRead(r);
    case Logic(_, l, _) => MustReadIsRead(l);
    case Cond(c, _, _) => MustReadIsRead(c);
  }

  lemma {:induction false} ForcedNew(env: Env, rho: Valuation, rank: map<string, nat>, seed: Id, p: nat, x: string)
    requires Fragment(env, rho, rank) && p < |env.body| && x in env.setters
    requires x !in After(env, seed, p).forced && x in After(env, seed, p + 1).forced
    ensures After(env, seed, p + 1).forced[x] == CalTimes(After(env, seed, p), x)
  {
    RunBetween(env, rho, rank, seed, p);
    AfterStep(env, seed, p);
    StmtForces(env, rho, rank, After(env, seed, p), p, x);
  }

  lemma {:induction false} StmtForces(env: Env, rho: Valuation, rank: map<string, nat>, st: State, p: nat, x: string)
    requires Fragment(env, rho, rank) && p < |env.body| && x in env.setters && Between(env, rho, st, p)
    requires x !in st.forced && x in WalkStmt(env, st, env.body[p]).forced
    ensures WalkStmt(env, st, env.body[p]).forced[x] == CalTimes(st, x)
  {
    var s := env.body[p];
    var st2 := Operand(env, PushTarget(Enter(st, s), s.target), s).0;
    StoreForcesNothing(env, st, s);
    assert Moved(env, rank, CoreOf(st), CoreOf(st2), s.target, 0) by {
      MainEvaluated(env, rho, rank, st, p);
    }
    NewlyForced(env, rank, CoreOf(st), CoreOf(st2), s.target, x);
  }

  lemma {:induction false} StoreForcesNothing(env: Env, st: State, s: Stmt)
    requires !s.If? && st.metas == []
    ensures WalkStmt(env, st, s).forced == Operand(env, PushTarget(Enter(st, s), s.target), s).0.forced
  {
    MainUnfold(env, st, s);
  }

  lemma {:induction false} NewlyForced(env: Env, rank: map<string, nat>, c: Core, d: Core, t: string, x: string)
    requires StraightLine(env) && rank.Keys == env.setters.Keys && x in rank && t in rank
    requires Moved(env, rank, c, d, t, 0)
    requires x !in c.forced && x in d.forced
    ensures d.forced[x] == Count(c.calTimes, x)
  {
    assert rank[x] >= rank[t] ==> Untouched(c, d, x);
  }

  lemma {:induction false} ForcedStays(
    env: Env, rho: Valuation, rank: map<string, nat>, seed: Id, p: nat, q: nat, x: string)
    requires Fragment(env, rho, rank) && p <= q <= |env.body| && x in env.setters
    requires x in After(env, seed, p).cache
    ensures SameAt(After(env, seed, p).forced, After(env, seed, q).forced, x)
    decreases q - p
  {
    if p < q {
      CachedNext(env, rho, rank, seed, p, x);
      ForcedStep(env, rho, rank, seed, p, x);
      ForcedStays(env, rho, rank, seed, p + 1, q, x);
    }
  }

  lemma {:induction false} DisturbedForces(
    env: Env, rho: Valuation, rank: map<string, nat>, seed: Id, p: nat, x: string)
    requires Fragment(env, rho, rank) && p < |env.body| && x in env.setters
    requires x in MustRead(env.body[p].value) && x != env.body[p].target
    requires x !in After(env, seed, p).cache
    ensures
      var j, st' := CalTimes(After(env, seed, p), x), After(env, seed, p + 1);
      j < |env.setters[x]| && x in st'.cache && x in st'.forced && st'.forced[x] == j
  {
    StmtCaches(env, rho, rank, seed, p, x);
    RunBetween(env, rho, rank, seed, p);
    RunBetween(env, rho, rank, seed, p + 1);
    assert NameOk(env, rho, CoreOf(After(env, seed, p)), x) && Stored(env, CoreOf(After(env, seed, p)), x, p);
    assert NameOk(env, rho, CoreOf(After(env, seed, p + 1)), x);
    assert Stored(env, CoreOf(After(env, seed, p + 1)), x, p + 1);
    DoneKept(env, CoreOf(After(env, seed, p)), CoreOf(After(env, seed, p + 1)), x, p);
    ForcedNew(env, rho, rank, seed, p, x);
  }

  lemma {:induction false} DoneKept(env: Env, c: Core, c': Core, x: string, p: nat)
    requires StraightLine(env) && x in env.setters && p < |env.body| && env.body[p].target != x
    requires Stored(env, c, x, p) && Stored(env, c', x, p + 1)
    requires Count(c.calTimes, x) < |env.setters[x]|
    ensures Count(c'.calTimes, x) <= Count(c.calTimes, x)
  {
    var k := Count(c.calTimes, x);
    assert SetterAt(env, x, env.setters[x][k]);
  }

  /**
   * When the first statement that needs `x` stands after `j` setters of `x`, the main walk
   * applies the remaining setters to the finished value once more.
   */
  lemma {:induction false} FinalVariableDisturbed(
    env: Env, rho: Valuation, rank: map<string, nat>, seed: Id, p: nat, x: string)
    requires Fragment(env, rho, rank) && p < |env.body| && x in env.setters
    requires x in MustRead(env.body[p].value) && x != env.body[p].target
    requires x !in After(env, seed, p).cache
    ensures
      var j, n := CalTimes(After(env, seed, p), x), |env.setters[x]|;
      j < n && Variable(Final(env, seed), x) == Run(env, rho, x, rho[x], j, n)
  {
    DisturbedForces(env, rho, rank, seed, p, x);
    ForcedStays(env, rho, rank, seed, p + 1, |env.body|, x);
    FinalVariable(env, rho, rank, seed, x);
  }

  /** Applying the last setters of `x` to its finished value again always shows. */
  ghost predicate AgainShows(env: Env, rho: Valuation, x: string)
    requires StraightLine(env) && x in env.setters && x in rho
  {
    forall j :: 0 < j < |env.setters[x]| ==> Run(env, rho, x, rho[x], j, |env.setters[x]|) != rho[x]
  }

  /** Between two statements: where the main walk stands in the setters of `x`, and what is known of `x`. */
  lemma {:induction false} Standing(env: Env, rho: Valuation, rank: map<string, nat>, seed: Id, k: nat, x: string)
    requires Fragment(env, rho, rank) && x in env.setters && k < |env.setters[x]|
    ensures
      var p := env.setters[x][k].stmt;
      && p < |env.body| && env.body[p].target == x
      && var st := After(env, seed, p);
         && CalTimes(st, x) == k
         && (x in st.forced <==> x in st.cache)
         && (x in st.forced ==> st.forced[x] <= k)
  {
    assert SetterAt(env, x, env.setters[x][k]);
    var p := env.setters[x][k].stmt;
    RunBetween(env, rho, rank, seed, p);
    var c := CoreOf(After(env, seed, p));
    assert NameOk(env, rho, c, x) && Stored(env, c, x, p);
    StoredCount(env, c, x, k);
  }

  lemma {:induction false} StoredCount(env: Env, c: Core, x: string, k: nat)
    requires StraightLine(env) && x in env.setters && k < |env.setters[x]|
    requires Stored(env, c, x, env.setters[x][k].stmt) && Count(c.calTimes, x) <= |env.setters[x]|
    ensures Count(c.calTimes, x) == k
  {
    var n, setters := Count(c.calTimes, x), env.setters[x];
    var next := if n < |setters| then setters[n].stmt else |env.body|;
    assert n < |setters| ==> !(next < setters[k].stmt);
  }

  /** Backtracking that first enters `x` after its first statement finds at least one setter done. */
  lemma {:induction false} ForcedLate(env: Env, rho: Valuation, rank: map<string, nat>, seed: Id, q: nat, x: string)
    requires Fragment(env, rho, rank) && x in env.setters
    requires env.setters[x][0].stmt <= q <= |env.body| && x !in After(env, seed, env.setters[x][0].stmt).cache
    ensures x in After(env, seed, q).forced ==> After(env, seed, q).forced[x] > 0
    decreases q
  {
    Standing(env, rho, rank, seed, 0, x);
    if q > env.setters[x][0].stmt {
      ForcedLate(env, rho, rank, seed, q - 1, x);
      LateStep(env, rho, rank, seed, q - 1, x);
    }
  }

  lemma {:induction false} LateStep(env: Env, rho: Valuation, rank: map<string, nat>, seed: Id, q: nat, x: string)
    requires Fragment(env, rho, rank) && x in env.setters && env.setters[x][0].stmt <= q < |env.body|
    requires x in After(env, seed, q).forced ==> After(env, seed, q).forced[x] > 0
    ensures x in After(env, seed, q + 1).forced ==> After(env, seed, q + 1).forced[x] > 0
  {
    assert SetterAt(env, x, env.setters[x][0]);
    if x in After(env, seed, q).cache || env.body[q].target == x {
      ForcedStep(env, rho, rank, seed, q, x);
    } else if x in After(env, seed, q + 1).forced {
      ForcedAfterFirst(env, rho, rank, seed, q, x);
    }
  }

  lemma {:induction false} ForcedAfterFirst(
    env: Env, rho: Valuation, rank: map<string, nat>, seed: Id, q: nat, x: string)
    requires Fragment(env, rho, rank) && x in env.setters && q < |env.body|
    requires env.setters[x][0].stmt < q && x !in After(env, seed, q).cache && x in After(env, seed, q + 1).forced
    ensures After(env, seed, q + 1).forced[x] > 0
  {
    RunBetween(env, rho, rank, seed, q);
    var c := CoreOf(After(env, seed, q));
    assert NameOk(env, rho, c, x) && Stored(env, c, x, q);
    ForcedNew(env, rho, rank, seed, q, x);
  }

  /** A name that is not cached before its last statement is never entered again. */
  lemma {:induction false} ForcedNever(env: Env, rho: Valuation, rank: map<string, nat>, seed: Id, x: string)
    requires Fragment(env, rho, rank) && x in env.setters
    requires x !in After(env, seed, env.setters[x][|env.setters[x]| - 1].stmt).cache
    ensures x !in Final(env, seed).forced
  {
    var n := |env.setters[x]|;
    var last := env.setters[x][n - 1].stmt;
    Standing(env, rho, rank, seed, n - 1, x);
    ForcedStep(env, rho, rank, seed, last, x);
    assert x !in After(env, seed, last + 1).forced;
    CachedAfterLast(env, rho, rank, seed, x);
    ForcedStays(env, rho, rank, seed, last + 1, |env.body|, x);
  }

  lemma {:induction false} CachedAfterLast(env: Env, rho: Valuation, rank: map<string, nat>, seed: Id, x: string)
    requires Fragment(env, rho, rank) && x in env.setters
    ensures
      var last := env.setters[x][|env.setters[x]| - 1].stmt;
      last < |env.body| && x in After(env, seed, last + 1).cache
  {
    var last := env.setters[x][|env.setters[x]| - 1].stmt;
    assert SetterAt(env, x, env.setters[x][|env.setters[x]| - 1]);
    CachedPast(env, rho, rank, seed, x, last + 1);
  }

  lemma {:induction false} CachedPast(
    env: Env, rho: Valuation, rank: map<string, nat>, seed: Id, x: string, p: nat)
    requires Fragment(env, rho, rank) && x in env.setters && p <= |env.body|
    requires env.setters[x][|env.setters[x]| - 1].stmt < p
    ensures x in After(env, seed, p).cache
  {
    RunBetween(env, rho, rank, seed, p);
    AllDoneCached(env, rho, CoreOf(After(env, seed, p)), x, p);
  }

  lemma {:induction false} AllDoneCached(env: Env, rho: Valuation, c: Core, x: string, p: nat)
    requires StraightLine(env) && rho.Keys == env.setters.Keys && x in env.setters && p <= |env.body|
    requires NamesOk(env, rho, c, p) && env.setters[x][|env.setters[x]| - 1].stmt < p
    ensures x in c.cache
  {
    assert NameOk(env, rho, c, x) && Stored(env, c, x, p);
    assert |env.setters[x]| - 1 < Count(c.calTimes, x);
  }

  /**
   * When applying setters again shows, the variable of a name ends right exactly when the name is already
   * cached before its first statement or not yet cached before its last one.
   */
  lemma {:induction false} FinalVariableExact(env: Env, rho: Valuation, rank: map<string, nat>, seed: Id, x: string)
    requires Fragment(env, rho, rank) && x in env.setters && AgainShows(env, rho, x)
    ensures
      var first, last := env.setters[x][0].stmt, env.setters[x][|env.setters[x]| - 1].stmt;
      && first <= last < |env.body|
      && (Variable(Final(env, seed), x) == rho[x]
          <==> x in After(env, seed, first).cache || x !in After(env, seed, last).cache)
  {
    var n := |env.setters[x]|;
    var first, last := env.setters[x][0].stmt, env.setters[x][n - 1].stmt;
    Standing(env, rho, rank, seed, 0, x);
    Standing(env, rho, rank, seed, n - 1, x);
    assert n > 1 ==> first < last;
    if x in After(env, seed, first).cache {
      CachedBeforeFirst(env, rho, rank, seed, x);
    } else if x !in After(env, seed, last).cache {
      ForcedNever(env, rho, rank, seed, x);
      FinalVariable(env, rho, rank, seed, x);
    } else {
      CachedBetween(env, rho, rank, seed, x);
      FinalVariable(env, rho, rank, seed, x);
    }
  }

  lemma {:induction false} CachedBeforeFirst(env: Env, rho: Valuation, rank: map<string, nat>, seed: Id, x: string)
    requires Fragment(env, rho, rank) && x in env.setters
    requires env.setters[x][0].stmt <= |env.body| && x in After(env, seed, env.setters[x][0].stmt).cache
    ensures Variable(Final(env, seed), x) == rho[x]
  {
    Standing(env, rho, rank, seed, 0, x);
    ForcedStays(env, rho, rank, seed, env.setters[x][0].stmt, |env.body|, x);
    assert StartsFresh(env, x);
    FinalVariableReset(env, rho, rank, seed, x, 0);
  }

  /** A name cached before its last statement but not before its first was entered between its setters. */
  lemma {:induction false} CachedBetween(env: Env, rho: Valuation, rank: map<string, nat>, seed: Id, x: string)
    requires Fragment(env, rho, rank) && x in env.setters
    requires var first, last := env.setters[x][0].stmt, env.setters[x][|env.setters[x]| - 1].stmt;
      first <= last <= |env.body| && x !in After(env, seed, first).cache && x in After(env, seed, last).cache
    ensures x in Final(env, seed).forced && 0 < Final(env, seed).forced[x] < |env.setters[x]|
  {
    var last := env.setters[x][|env.setters[x]| - 1].stmt;
    Standing(env, rho, rank, seed, |env.setters[x]| - 1, x);
    ForcedLate(env, rho, rank, seed, last, x);
    ForcedStays(env, rho, rank, seed, last, |env.body|, x);
  }
}
