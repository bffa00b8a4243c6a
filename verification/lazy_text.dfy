/**
 * What a run caches, and the variables it ends with, known before the run: from the statements and the values of
 * all names, and from the statements alone where values have no `and`, `or` or conditional.
 */
module LazyText {
  import opened Values
  import opened LazySyntax
  import opened LazyMachine
  import opened LazySpec
  import opened LazyRefine
  import opened LazyRun
  import opened LazyTheorems
  import opened LazyReach

  // ---- positions ----

  ghost function CountTo(env: Env, x: string, k: nat, p: nat): (j: nat)
    requires x in env.setters && k <= |env.setters[x]|
    ensures j <= k
  {
    if k == 0 then 0 else CountTo(env, x, k - 1, p) + if env.setters[x][k - 1].stmt < p then 1 else 0
  }

  /** How many setters of `x` stand before position `p`. */
  ghost function Done(env: Env, x: string, p: nat): (j: nat)
    requires x in env.setters
    ensures j <= |env.setters[x]|
  {
    CountTo(env, x, |env.setters[x]|, p)
  }

  lemma {:induction false} CountToIs(env: Env, x: string, k: nat, p: nat, i: nat)
    requires StraightLine(env) && x in env.setters && i < k <= |env.setters[x]|
    ensures i < CountTo(env, x, k, p) <==> env.setters[x][i].stmt < p
    decreases k
  {
    if i < k - 1 {
      CountToIs(env, x, k - 1, p, i);
    }
    if k >= 2 {
      CountToIs(env, x, k - 1, p, k - 2);
    }
  }

  lemma {:induction false} DoneIs(env: Env, x: string, p: nat, i: nat)
    requires StraightLine(env) && x in env.setters && i < |env.setters[x]|
    ensures i < Done(env, x, p) <==> env.setters[x][i].stmt < p
  {
    CountToIs(env, x, |env.setters[x]|, p, i);
  }

  lemma {:induction false} DoneMonotone(env: Env, x: string, q: nat, p: nat)
    requires StraightLine(env) && x in env.setters && q <= p
    ensures Done(env, x, q) <= Done(env, x, p)
  {
    var i := Done(env, x, p);
    if i < |env.setters[x]| {
      DoneIs(env, x, p, i);
      DoneIs(env, x, q, i);
    }
  }

  /** Where the first and the last setter of `x` stand. */
  ghost function FirstPlace(env: Env, x: string): nat
    requires StraightLine(env) && x in env.setters
  {
    env.setters[x][0].stmt
  }

  ghost function LastPlace(env: Env, x: string): nat
    requires StraightLine(env) && x in env.setters
  {
    env.setters[x][|env.setters[x]| - 1].stmt
  }

  lemma {:induction false} PlaceTargets(env: Env, x: string)
    requires StraightLine(env) && x in env.setters
    ensures FirstPlace(env, x) <= LastPlace(env, x) < |env.body|
    ensures env.body[FirstPlace(env, x)].target == x && env.body[LastPlace(env, x)].target == x
  {
    var n := |env.setters[x]|;
    assert SetterAt(env, x, env.setters[x][0]) && SetterAt(env, x, env.setters[x][n - 1]);
    assert n > 1 ==> env.setters[x][0].stmt < env.setters[x][n - 1].stmt;
  }

  lemma {:induction false} CountIs(env: Env, c: Core, x: string, p: nat)
    requires StraightLine(env) && x in env.setters
    requires Stored(env, c, x, p) && Count(c.calTimes, x) <= |env.setters[x]|
    ensures Count(c.calTimes, x) == Done(env, x, p)
  {
    var i, j, n := Count(c.calTimes, x), Done(env, x, p), |env.setters[x]|;
    if i < n {
      DoneIs(env, x, p, i);
    }
    if j < n {
      DoneIs(env, x, p, j);
    }
    var here, there := if i < n then env.setters[x][i].stmt else p, if j < n then env.setters[x][j].stmt else p;
    assert !(here < p) && !(there < p);
  }

  // ---- what a statement leads to ----

  /** The first statement before position `p` that leads to `x`, if any. */
  ghost function FirstLead(env: Env, rho: Valuation, rank: map<string, nat>, p: nat, x: string): (r: Option<nat>)
    requires Fragment(env, rho, rank) && p <= |env.body| && x in rank
    ensures r.Some? ==> r.value < p
    decreases p, 0
  {
    if p == 0 then Option.None
    else
      var before := FirstLead(env, rho, rank, p - 1, x);
      if before.Some? then before
      else if LeadsTo(env, rho, rank, p - 1, x) then Some(p - 1) else Option.None
  }

  /**
   * What the variable of the target of statement `p` holds when the main walk reaches `p`: the fold of the setters
   * so far, or, if an earlier statement has led to the name, its finished value with the setters since applied again.
   */
  ghost function OwnAt(env: Env, rho: Valuation, rank: map<string, nat>, p: nat): Value
    requires Fragment(env, rho, rank) && p < |env.body|
    decreases p, 1
  {
    var t := env.body[p].target;
    match FirstLead(env, rho, rank, p, t)
    case None => Fold(env, rho, t, Done(env, t, p))
    case Some(q) =>
      DoneMonotone(env, t, q, p);
      Run(env, rho, t, rho[t], Done(env, t, q), Done(env, t, p))
  }

  /** Statement `p` of the main walk leads to a read of `z` by another name's statement. */
  ghost predicate LeadsTo(env: Env, rho: Valuation, rank: map<string, nat>, p: nat, z: string)
    requires Fragment(env, rho, rank) && p < |env.body|
    decreases p, 2
  {
    LeadsWith(env, rho, rank, p, OwnAt(env, rho, rank, p), z)
  }

  ghost predicate LeadsWith(env: Env, rho: Valuation, rank: map<string, nat>, p: nat, own: Value, z: string)
    requires Fragment(env, rho, rank) && p < |env.body|
  {
    exists y :: y in Loads(env, rho, env.body[p], own) && y != env.body[p].target && y in rank
                && Reaches(env, rho, rank, y, z)
  }

  /** The names that statement `p` leads to when its target holds `own`. */
  ghost function Led(env: Env, rho: Valuation, rank: map<string, nat>, p: nat, own: Value): set<string>
    requires Fragment(env, rho, rank) && p < |env.body|
  {
    set z | z in rank && LeadsWith(env, rho, rank, p, own, z)
  }

  lemma {:induction false} LedIn(
    env: Env, rho: Valuation, rank: map<string, nat>, p: nat, own: Value, y: string, z: string)
    requires Fragment(env, rho, rank) && p < |env.body|
    requires y in Loads(env, rho, env.body[p], own) && y != env.body[p].target && y in rank
    requires Reaches(env, rho, rank, y, z)
    ensures z in Led(env, rho, rank, p, own)
  {
    ReachIsName(env, rho, rank, y, z);
  }

  lemma {:induction false} ReachLower(env: Env, rho: Valuation, rank: map<string, nat>, x: string, z: string)
    requires StraightLine(env) && rank.Keys == env.setters.Keys && x in rank && Reaches(env, rho, rank, x, z)
    ensures z in rank && rank[z] <= rank[x]
    decreases rank[x]
  {
    if x != z {
      var m: nat, y :|
        Live(env, rho, x, m, |env.setters[x]|) && Uses(env, rho, x, m, y) && rank[y] < rank[x]
        && Reaches(env, rho, rank, y, z);
      ReachLower(env, rho, rank, y, z);
    }
  }

  lemma {:induction false} LedLower(env: Env, rho: Valuation, rank: map<string, nat>, p: nat, own: Value, z: string)
    requires Fragment(env, rho, rank) && p < |env.body| && LeadsWith(env, rho, rank, p, own, z)
    ensures z in rank && rank[z] < rank[env.body[p].target]
  {
    var s := env.body[p];
    var y :| y in Loads(env, rho, s, own) && y != s.target && y in rank && Reaches(env, rho, rank, y, z);
    ReadsInReads(env.sem, s.value, rho[s.target := own]);
    assert Downward(env, rank, p);
    ReachLower(env, rho, rank, y, z);
  }

  // ---- one statement of the main walk ----

  /** Every cached name is cached with all it reaches. */
  ghost predicate ClosedAll(env: Env, rho: Valuation, rank: map<string, nat>, cached: set<string>)
    requires StraightLine(env) && rank.Keys == env.setters.Keys
  {
    forall y {:trigger Covered(env, rho, rank, cached, y, |env.setters[y]|)} ::
      y in rank && y in cached ==> Covered(env, rho, rank, cached, y, |env.setters[y]|)
  }

  lemma {:induction false} MainAllows(env: Env, rho: Valuation, rank: map<string, nat>, p: nat, own: Value)
    requires Fragment(env, rho, rank) && p < |env.body|
    ensures Evaluable(env, rho, rank, p, env.body[p].target, 0, own, Led(env, rho, rank, p, own))
  {
    var s, more := env.body[p], Led(env, rho, rank, p, own);
    forall y | y in Loads(env, rho, s, own) ensures Allowed(env, rho, rank, y, s.target, 0, more) {
      if y != s.target && y in rank {
        forall z | Reaches(env, rho, rank, y, z) ensures z in more {
          LedIn(env, rho, rank, p, own, y, z);
        }
      }
    }
  }

  lemma {:induction false} MainLoads(
    env: Env, rho: Valuation, rank: map<string, nat>, p: nat, own: Value, cached: set<string>)
    requires Fragment(env, rho, rank) && p < |env.body|
    requires AllLoaded(env, rho, rank, cached, Loads(env, rho, env.body[p], own), env.body[p].target, 0)
    ensures Led(env, rho, rank, p, own) <= cached
  {
    var s := env.body[p];
    forall z | z in Led(env, rho, rank, p, own) ensures z in cached {
      var y :| y in Loads(env, rho, s, own) && y != s.target && y in rank && Reaches(env, rho, rank, y, z);
      assert Loaded(env, rho, rank, cached, y, s.target, 0);
    }
  }

  lemma {:induction false} MainGood(env: Env, rho: Valuation, rank: map<string, nat>, st: State, p: nat)
    requires Fragment(env, rho, rank) && p < |env.body| && Between(env, rho, st, p)
    requires ClosedAll(env, rho, rank, st.cache.Keys)
    ensures
      var s := env.body[p];
      var pushed := PushTarget(Enter(st, s), s.target);
      pushed.cache == st.cache && Good(env, rho, rank, pushed, s.target, 0, Variable(st, s.target))
  {
    MainReady(env, rho, rank, st, p);
    assert Closed(env, rho, rank, st.cache.Keys, rank[env.body[p].target]);
  }

  /** Evaluating statement `p` caches exactly what it leads to. */
  lemma {:induction false} MainCaches(env: Env, rho: Valuation, rank: map<string, nat>, st: State, p: nat)
    requires Fragment(env, rho, rank) && p < |env.body| && Between(env, rho, st, p)
    requires ClosedAll(env, rho, rank, st.cache.Keys)
    ensures
      var s := env.body[p];
      var b := Operand(env, PushTarget(Enter(st, s), s.target), s).0.cache.Keys;
      && b == st.cache.Keys + Led(env, rho, rank, p, Variable(st, s.target))
      && Closed(env, rho, rank, b, rank[s.target])
  {
    var s, own := env.body[p], Variable(st, env.body[p].target);
    var pushed := PushTarget(Enter(st, s), s.target);
    MainGood(env, rho, rank, st, p);
    MainAllows(env, rho, rank, p, own);
    OperandReach(env, rho, rank, pushed, p, s.target, 0, own, Led(env, rho, rank, p, own));
    MainLoads(env, rho, rank, p, own, Operand(env, pushed, s).0.cache.Keys);
  }

  lemma {:induction false} LastIsLast(env: Env, c: Core, x: string, p: nat)
    requires StraightLine(env) && p < |env.body| && env.body[p].target == x
    requires Stored(env, c, x, p) && Count(c.calTimes, x) <= |env.setters[x]|
    ensures Count(c.calTimes, x) + 1 == |env.setters[x]| <==> p == LastPlace(env, x)
  {
    NextSetter(env, c, x, p);
    var n := |env.setters[x]|;
    assert Count(c.calTimes, x) + 1 < n ==> p < env.setters[x][n - 1].stmt;
  }

  /** One statement of the main walk adds what it leads to, and its target after its last setter. */
  lemma {:induction false} CacheStep(env: Env, rho: Valuation, rank: map<string, nat>, seed: Id, p: nat)
    requires Fragment(env, rho, rank) && p < |env.body|
    requires ClosedAll(env, rho, rank, After(env, seed, p).cache.Keys)
    ensures
      var t := env.body[p].target;
      var b := After(env, seed, p).cache.Keys + Led(env, rho, rank, p, Variable(After(env, seed, p), t));
      && After(env, seed, p + 1).cache.Keys == b + (if p == LastPlace(env, t) then {t} else {})
      && Closed(env, rho, rank, b, rank[t])
  {
    var s, st := env.body[p], After(env, seed, p);
    var (st2, v) := Operand(env, PushTarget(Enter(st, s), s.target), s);
    RunBetween(env, rho, rank, seed, p);
    AfterStep(env, seed, p);
    MainUnfold(env, st, s);
    MainEvaluated(env, rho, rank, st, p);
    MainCaches(env, rho, rank, st, p);
    MainCore(env, rho, rank, st, p, st2, v);
    assert NameOk(env, rho, CoreOf(st), s.target) && Stored(env, CoreOf(st), s.target, p);
    LastIsLast(env, CoreOf(st), s.target, p);
    StoredKeys(env, rank, CoreOf(st), CoreOf(st2), s.target, v);
  }

  lemma {:induction false} StoredKeys(env: Env, rank: map<string, nat>, c: Core, d: Core, x: string, v: Value)
    requires StraightLine(env) && rank.Keys == env.setters.Keys && x in rank && Moved(env, rank, c, d, x, 0)
    ensures
      var cached := x !in d.cache && Count(d.calTimes, x) + 1 == |env.setters[x]|;
      StoredCore(d, x, v, cached).cache.Keys ==
        d.cache.Keys + if Count(c.calTimes, x) + 1 == |env.setters[x]| then {x} else {}
  {
  }

  // ---- the whole run ----

  lemma {:induction false} LeadStays(env: Env, rho: Valuation, rank: map<string, nat>, q: nat, p: nat, x: string)
    requires Fragment(env, rho, rank) && q <= p <= |env.body| && x in rank
    requires FirstLead(env, rho, rank, q, x).Some?
    ensures FirstLead(env, rho, rank, p, x) == FirstLead(env, rho, rank, q, x)
    decreases p
  {
    if q < p {
      LeadStays(env, rho, rank, q, p - 1, x);
    }
  }

  lemma {:induction false} LeadFound(env: Env, rho: Valuation, rank: map<string, nat>, q: nat, p: nat, x: string)
    requires Fragment(env, rho, rank) && q < p <= |env.body| && x in rank && LeadsTo(env, rho, rank, q, x)
    ensures FirstLead(env, rho, rank, p, x).Some?
  {
    LeadStays(env, rho, rank, q + 1, p, x);
  }

  lemma {:induction false} LeadLeads(env: Env, rho: Valuation, rank: map<string, nat>, p: nat, x: string)
    requires Fragment(env, rho, rank) && p <= |env.body| && x in rank && FirstLead(env, rho, rank, p, x).Some?
    ensures
      var q := FirstLead(env, rho, rank, p, x).value;
      LeadsTo(env, rho, rank, q, x) && FirstLead(env, rho, rank, q, x).None?
    decreases p
  {
    if FirstLead(env, rho, rank, p - 1, x).Some? {
      LeadLeads(env, rho, rank, p - 1, x);
    }
  }

  /** `FirstLead` is the first statement before position `p` that leads to `x`. */
  lemma {:induction false} FirstLeadIs(env: Env, rho: Valuation, rank: map<string, nat>, p: nat, x: string)
    requires Fragment(env, rho, rank) && p <= |env.body| && x in rank
    ensures
      var first := FirstLead(env, rho, rank, p, x);
      && (first.Some? ==> LeadsTo(env, rho, rank, first.value, x))
      && forall q :: 0 <= q < p && LeadsTo(env, rho, rank, q, x) ==> first.Some? && first.value <= q
  {
    var first := FirstLead(env, rho, rank, p, x);
    if first.Some? {
      LeadLeads(env, rho, rank, p, x);
    }
    forall q | 0 <= q < p && LeadsTo(env, rho, rank, q, x) ensures first.Some? && first.value <= q {
      LeadStays(env, rho, rank, q + 1, p, x);
    }
  }

  /** How many setters of `x` are done when backtracking enters it, if that happens before position `p`. */
  ghost function Entry(env: Env, rho: Valuation, rank: map<string, nat>, p: nat, x: string): (r: Option<nat>)
    requires Fragment(env, rho, rank) && p <= |env.body| && x in rank
    ensures r.Some? ==> r.value <= Done(env, x, p)
  {
    match FirstLead(env, rho, rank, p, x)
    case None => Option.None
    case Some(q) =>
      DoneMonotone(env, x, q, p);
      if Done(env, x, q) < |env.setters[x]| then Some(Done(env, x, q)) else Option.None
  }

  /** What is cached and what has been entered is what the statements before position `p` say. */
  ghost predicate CacheTold(env: Env, rho: Valuation, rank: map<string, nat>, c: Core, p: nat, x: string)
    requires Fragment(env, rho, rank) && p <= |env.body| && x in rank
  {
    x in c.cache <==> FirstLead(env, rho, rank, p, x).Some? || LastPlace(env, x) < p
  }

  ghost predicate EntryTold(env: Env, rho: Valuation, rank: map<string, nat>, c: Core, p: nat, x: string)
    requires Fragment(env, rho, rank) && p <= |env.body| && x in rank
  {
    match Entry(env, rho, rank, p, x)
    case None => x !in c.forced
    case Some(j) => x in c.forced && c.forced[x] == j
  }

  ghost predicate CachesTold(env: Env, rho: Valuation, rank: map<string, nat>, c: Core, p: nat)
    requires Fragment(env, rho, rank) && p <= |env.body|
  {
    forall x {:trigger CacheTold(env, rho, rank, c, p, x)} :: x in rank ==> CacheTold(env, rho, rank, c, p, x)
  }

  ghost predicate EntriesTold(env: Env, rho: Valuation, rank: map<string, nat>, c: Core, p: nat)
    requires Fragment(env, rho, rank) && p <= |env.body|
  {
    forall x {:trigger EntryTold(env, rho, rank, c, p, x)} :: x in rank ==> EntryTold(env, rho, rank, c, p, x)
  }

  lemma {:induction false} DoneAll(env: Env, x: string, p: nat)
    requires StraightLine(env) && x in env.setters
    ensures Done(env, x, p) == |env.setters[x]| <==> LastPlace(env, x) < p
  {
    DoneIs(env, x, p, |env.setters[x]| - 1);
  }

  /** The place of setter `m` has `m` setters before it. */
  lemma {:induction false} DoneAt(env: Env, x: string, m: nat)
    requires StraightLine(env) && x in env.setters && m < |env.setters[x]|
    ensures Done(env, x, env.setters[x][m].stmt) == m
  {
    var q := env.setters[x][m].stmt;
    DoneIs(env, x, q, m);
    if m > 0 {
      DoneIs(env, x, q, m - 1);
    }
  }

  lemma {:induction false} TargetNotPast(env: Env, p: nat)
    requires StraightLine(env) && p < |env.body|
    ensures env.body[p].target in env.setters && p <= LastPlace(env, env.body[p].target)
  {
    assert HasSetter(env, p, env.body[p].target);
  }

  /** The main walk finds in the variable of its target what `OwnAt` says. */
  lemma {:induction false} OwnTold(env: Env, rho: Valuation, rank: map<string, nat>, c: Core, p: nat)
    requires Fragment(env, rho, rank) && p < |env.body|
    requires NamesOk(env, rho, c, p) && CachesTold(env, rho, rank, c, p) && EntriesTold(env, rho, rank, c, p)
    ensures Lookup(c.vars, env.body[p].target) == OwnAt(env, rho, rank, p)
  {
    var t := env.body[p].target;
    TargetNotPast(env, p);
    assert NameOk(env, rho, c, t) && Stored(env, c, t, p);
    assert CacheTold(env, rho, rank, c, p, t) && EntryTold(env, rho, rank, c, p, t);
    CountIs(env, c, t, p);
    DoneAll(env, t, p);
  }

  /** An unentered name all of whose statements have been walked is cached with all it reaches. */
  lemma {:induction false} WalkedCovers(
    env: Env, rho: Valuation, rank: map<string, nat>, cached: set<string>, p: nat, x: string)
    requires Fragment(env, rho, rank) && p <= |env.body| && x in rank && LastPlace(env, x) < p
    requires FirstLead(env, rho, rank, p, x).None?
    requires forall z :: z in rank && FirstLead(env, rho, rank, p, z).Some? ==> z in cached
    ensures Covered(env, rho, rank, cached, x, |env.setters[x]|)
  {
    var n := |env.setters[x]|;
    forall z | ReachesBy(env, rho, rank, x, n, z) ensures z in cached {
      var m: nat, y :|
        Live(env, rho, x, m, n) && Uses(env, rho, x, m, y) && rank[y] < rank[x] && Reaches(env, rho, rank, y, z);
      UseLeads(env, rho, rank, p, x, m, y, z);
    }
  }

  lemma {:induction false} UseLeads(
    env: Env, rho: Valuation, rank: map<string, nat>, p: nat, x: string, m: nat, y: string, z: string)
    requires Fragment(env, rho, rank) && p <= |env.body| && x in rank && LastPlace(env, x) < p
    requires FirstLead(env, rho, rank, p, x).None?
    requires Uses(env, rho, x, m, y) && Reaches(env, rho, rank, y, z)
    ensures z in rank && FirstLead(env, rho, rank, p, z).Some?
  {
    var n, q := |env.setters[x]|, env.setters[x][m].stmt;
    assert SetterAt(env, x, env.setters[x][m]) && (m < n - 1 ==> q < env.setters[x][n - 1].stmt);
    UnledOwn(env, rho, rank, p, x, m);
    ReachIsName(env, rho, rank, y, z);
    assert LeadsTo(env, rho, rank, q, z);
    LeadFound(env, rho, rank, q, p, z);
  }

  lemma {:induction false} UnledOwn(env: Env, rho: Valuation, rank: map<string, nat>, p: nat, x: string, m: nat)
    requires Fragment(env, rho, rank) && p <= |env.body| && x in rank && m < |env.setters[x]|
    requires FirstLead(env, rho, rank, p, x).None? && env.setters[x][m].stmt < p
    ensures env.body[env.setters[x][m].stmt].target == x
    ensures OwnAt(env, rho, rank, env.setters[x][m].stmt) == Fold(env, rho, x, m)
  {
    var q := env.setters[x][m].stmt;
    assert SetterAt(env, x, env.setters[x][m]);
    DoneAt(env, x, m);
    if FirstLead(env, rho, rank, q, x).Some? {
      LeadStays(env, rho, rank, q, p, x);
    }
  }

  /** Whether `x` is cached after statement `p`. */
  lemma {:induction false} CacheToldStep(
    env: Env, rho: Valuation, rank: map<string, nat>, c: Core, c': Core, p: nat, x: string)
    requires Fragment(env, rho, rank) && p < |env.body| && x in rank && CacheTold(env, rho, rank, c, p, x)
    requires
      var t, own := env.body[p].target, OwnAt(env, rho, rank, p);
      t in env.setters &&
      c'.cache.Keys == c.cache.Keys + Led(env, rho, rank, p, own) + (if p == LastPlace(env, t) then {t} else {})
    ensures CacheTold(env, rho, rank, c', p + 1, x)
  {
    PlaceTargets(env, x);
  }

  lemma {:induction false} ToldCovers(env: Env, rho: Valuation, rank: map<string, nat>, c: Core, p: nat, x: string)
    requires Fragment(env, rho, rank) && p <= |env.body| && x in rank && LastPlace(env, x) < p
    requires FirstLead(env, rho, rank, p, x).None? && CachesTold(env, rho, rank, c, p)
    ensures Covered(env, rho, rank, c.cache.Keys, x, |env.setters[x]|)
  {
    forall z | z in rank && FirstLead(env, rho, rank, p, z).Some? ensures z in c.cache {
      assert CacheTold(env, rho, rank, c, p, z);
    }
    WalkedCovers(env, rho, rank, c.cache.Keys, p, x);
  }

  lemma {:induction false} ClosedStep(
    env: Env, rho: Valuation, rank: map<string, nat>, c: Core, c': Core, p: nat)
    requires Fragment(env, rho, rank) && p < |env.body| && ClosedAll(env, rho, rank, c.cache.Keys)
    requires CachesTold(env, rho, rank, c, p) && CachesTold(env, rho, rank, c', p + 1)
    requires
      var t, own := env.body[p].target, OwnAt(env, rho, rank, p);
      var b := c.cache.Keys + Led(env, rho, rank, p, own);
      && t in env.setters && c'.cache.Keys == b + (if p == LastPlace(env, t) then {t} else {})
      && Closed(env, rho, rank, b, rank[t])
    ensures ClosedAll(env, rho, rank, c'.cache.Keys)
  {
    var t, own := env.body[p].target, OwnAt(env, rho, rank, p);
    var a, b, d := c.cache.Keys, c.cache.Keys + Led(env, rho, rank, p, own), c'.cache.Keys;
    forall y | y in rank && y in d ensures Covered(env, rho, rank, d, y, |env.setters[y]|) {
      if y in a {
        CoveredGrows(env, rho, rank, a, d, y, |env.setters[y]|);
      } else if y in Led(env, rho, rank, p, own) {
        LedLower(env, rho, rank, p, own, y);
        CoveredGrows(env, rho, rank, b, d, y, |env.setters[y]|);
      } else {
        assert CacheTold(env, rho, rank, c, p, y);
        assert FirstLead(env, rho, rank, p + 1, y).None?;
        ToldCovers(env, rho, rank, c', p + 1, y);
      }
    }
  }

  /** Between two statements the cache and the entries are what the statements before say, and the cache is closed. */
  ghost predicate Foretold(env: Env, rho: Valuation, rank: map<string, nat>, c: Core, p: nat)
    requires Fragment(env, rho, rank) && p <= |env.body|
  {
    && CachesTold(env, rho, rank, c, p) && EntriesTold(env, rho, rank, c, p)
    && ClosedAll(env, rho, rank, c.cache.Keys)
  }

  /** The cache after statement `p`. */
  lemma {:induction false} ToldStep(env: Env, rho: Valuation, rank: map<string, nat>, seed: Id, p: nat)
    requires Fragment(env, rho, rank) && p < |env.body|
    requires Foretold(env, rho, rank, CoreOf(After(env, seed, p)), p)
    ensures
      var c' := CoreOf(After(env, seed, p + 1));
      CachesTold(env, rho, rank, c', p + 1) && ClosedAll(env, rho, rank, c'.cache.Keys)
  {
    var c, c' := CoreOf(After(env, seed, p)), CoreOf(After(env, seed, p + 1));
    RunBetween(env, rho, rank, seed, p);
    OwnTold(env, rho, rank, c, p);
    CacheStep(env, rho, rank, seed, p);
    forall x | x in rank ensures CacheTold(env, rho, rank, c', p + 1, x) {
      assert CacheTold(env, rho, rank, c, p, x);
      CacheToldStep(env, rho, rank, c, c', p, x);
    }
    ClosedStep(env, rho, rank, c, c', p);
  }

  lemma {:induction false} EntryToldStep(
    env: Env, rho: Valuation, rank: map<string, nat>, seed: Id, p: nat, x: string)
    requires Fragment(env, rho, rank) && p < |env.body| && x in rank
    requires
      var c, c' := CoreOf(After(env, seed, p)), CoreOf(After(env, seed, p + 1));
      && CacheTold(env, rho, rank, c, p, x) && EntryTold(env, rho, rank, c, p, x)
      && CacheTold(env, rho, rank, c', p + 1, x)
    ensures EntryTold(env, rho, rank, CoreOf(After(env, seed, p + 1)), p + 1, x)
  {
    DoneAll(env, x, p);
    if x in After(env, seed, p).cache {
      ForcedStep(env, rho, rank, seed, p, x);
    } else if LeadsTo(env, rho, rank, p, x) {
      EntersAt(env, rho, rank, seed, p, x);
    } else {
      StaysOut(env, rho, rank, seed, p, x);
    }
  }

  /** The first statement that leads to `x` enters `x`. */
  lemma {:induction false} EntersAt(env: Env, rho: Valuation, rank: map<string, nat>, seed: Id, p: nat, x: string)
    requires Fragment(env, rho, rank) && p < |env.body| && x in rank && LeadsTo(env, rho, rank, p, x)
    requires x !in After(env, seed, p).cache && x in After(env, seed, p + 1).cache
    ensures
      var st' := After(env, seed, p + 1);
      x in st'.forced && st'.forced[x] == Done(env, x, p)
  {
    LedLower(env, rho, rank, p, OwnAt(env, rho, rank, p), x);
    RunBetween(env, rho, rank, seed, p);
    RunBetween(env, rho, rank, seed, p + 1);
    var c, c' := CoreOf(After(env, seed, p)), CoreOf(After(env, seed, p + 1));
    assert NameOk(env, rho, c, x) && Stored(env, c, x, p) && NameOk(env, rho, c', x) && Stored(env, c', x, p + 1);
    CountIs(env, c, x, p);
    DoneKept(env, c, c', x, p);
    ForcedNew(env, rho, rank, seed, p, x);
  }

  lemma {:induction false} StaysOut(env: Env, rho: Valuation, rank: map<string, nat>, seed: Id, p: nat, x: string)
    requires Fragment(env, rho, rank) && p < |env.body| && x in rank
    requires x !in After(env, seed, p).cache && (x in After(env, seed, p + 1).cache ==> p == LastPlace(env, x))
    ensures x !in After(env, seed, p + 1).forced
  {
    PlaceTargets(env, x);
    if x in After(env, seed, p + 1).cache {
      ForcedStep(env, rho, rank, seed, p, x);
    } else {
      OutUnforced(env, rho, rank, seed, p + 1, x);
    }
    OutUnforced(env, rho, rank, seed, p, x);
  }

  lemma {:induction false} OutUnforced(env: Env, rho: Valuation, rank: map<string, nat>, seed: Id, p: nat, x: string)
    requires Fragment(env, rho, rank) && p <= |env.body| && x in rank && x !in After(env, seed, p).cache
    ensures x !in After(env, seed, p).forced
  {
    RunBetween(env, rho, rank, seed, p);
    assert NameOk(env, rho, CoreOf(After(env, seed, p)), x);
  }

  lemma {:induction false} StartsUncached(env: Env, seed: Id)
    ensures After(env, seed, 0).cache == map[] && After(env, seed, 0).forced == map[]
  {
    assert env.body[..0] == [];
  }

  lemma {:induction false} RunForetold(env: Env, rho: Valuation, rank: map<string, nat>, seed: Id, p: nat)
    requires Fragment(env, rho, rank) && p <= |env.body|
    ensures Foretold(env, rho, rank, CoreOf(After(env, seed, p)), p)
    decreases p
  {
    if p == 0 {
      StartsUncached(env, seed);
    } else {
      RunForetold(env, rho, rank, seed, p - 1);
      ForetoldStep(env, rho, rank, seed, p - 1);
    }
  }

  lemma {:induction false} ForetoldStep(env: Env, rho: Valuation, rank: map<string, nat>, seed: Id, p: nat)
    requires Fragment(env, rho, rank) && p < |env.body|
    requires Foretold(env, rho, rank, CoreOf(After(env, seed, p)), p)
    ensures Foretold(env, rho, rank, CoreOf(After(env, seed, p + 1)), p + 1)
  {
    var c, c' := CoreOf(After(env, seed, p)), CoreOf(After(env, seed, p + 1));
    ToldStep(env, rho, rank, seed, p);
    forall x | x in rank ensures EntryTold(env, rho, rank, c', p + 1, x) {
      assert CacheTold(env, rho, rank, c, p, x) && EntryTold(env, rho, rank, c, p, x);
      assert CacheTold(env, rho, rank, c', p + 1, x);
      EntryToldStep(env, rho, rank, seed, p, x);
    }
  }

  /**
   * What is cached, known before the run: before statement `p` a name is cached if and only if an earlier
   * statement leads to it or all its own statements stand earlier.
   */
  lemma {:induction false} CachedIff(env: Env, rho: Valuation, rank: map<string, nat>, seed: Id, p: nat, x: string)
    requires Fragment(env, rho, rank) && p <= |env.body| && x in rank
    ensures
      x in After(env, seed, p).cache <==>
        (exists q :: 0 <= q < p && LeadsTo(env, rho, rank, q, x)) || LastPlace(env, x) < p
  {
    RunForetold(env, rho, rank, seed, p);
    assert CacheTold(env, rho, rank, CoreOf(After(env, seed, p)), p, x);
    FirstLeadIs(env, rho, rank, p, x);
    assert FirstLead(env, rho, rank, p, x).Some? <==> exists q :: 0 <= q < p && LeadsTo(env, rho, rank, q, x);
  }

  /**
   * The variable a name ends with: if the first statement that leads to the name stands after `j` of its `n`
   * setters, the setters `j..n` are applied once more to its finished value.
   */
  ghost function Ending(env: Env, rho: Valuation, rank: map<string, nat>, x: string): Value
    requires Fragment(env, rho, rank) && x in rank
  {
    match FirstLead(env, rho, rank, |env.body|, x)
    case None => rho[x]
    case Some(q) => Run(env, rho, x, rho[x], Done(env, x, q), |env.setters[x]|)
  }

  lemma {:induction false} FinalVariableText(env: Env, rho: Valuation, rank: map<string, nat>, seed: Id, x: string)
    requires Fragment(env, rho, rank) && x in rank
    ensures Variable(Final(env, seed), x) == Ending(env, rho, rank, x)
  {
    RunForetold(env, rho, rank, seed, |env.body|);
    assert EntryTold(env, rho, rank, CoreOf(Final(env, seed)), |env.body|, x);
    FinalVariable(env, rho, rank, seed, x);
  }

  /**
   * When applying setters again shows, the variable of a name ends right if and only if the first statement
   * that leads to the name, if there is one, does not stand between its first and its last setter.
   */
  lemma {:induction false} FinalVariableRight(env: Env, rho: Valuation, rank: map<string, nat>, seed: Id, x: string)
    requires Fragment(env, rho, rank) && x in rank && AgainShows(env, rho, x)
    ensures
      Variable(Final(env, seed), x) == rho[x] <==>
        match FirstLead(env, rho, rank, |env.body|, x)
        case None => true
        case Some(q) => q <= FirstPlace(env, x) || LastPlace(env, x) < q
  {
    FinalVariableText(env, rho, rank, seed, x);
    match FirstLead(env, rho, rank, |env.body|, x)
    case None =>
    case Some(q) => AgainAt(env, rho, x, q);
  }

  lemma {:induction false} AgainAt(env: Env, rho: Valuation, x: string, q: nat)
    requires StraightLine(env) && Solution(env, rho) && x in rho && StartsFresh(env, x) && AgainShows(env, rho, x)
    ensures Run(env, rho, x, rho[x], Done(env, x, q), |env.setters[x]|) == rho[x] <==>
      q <= FirstPlace(env, x) || LastPlace(env, x) < q
  {
    var j, n := Done(env, x, q), |env.setters[x]|;
    DoneIs(env, x, q, 0);
    DoneAll(env, x, q);
    assert Solved(env, rho, x);
    if j == 0 {
      ResetRun(env, rho, x, rho[x], 0, 0, n);
    }
  }

  // ---- the text alone ----

  /** Programs of one text, whose values have no `and`, `or` or conditional, under any two meanings of operators. */
  ghost predicate SameText(env: Env, env': Env) {
    && StraightLine(env) && env.body == env'.body && env.setters == env'.setters
    && forall p :: 0 <= p < |env.body| ==> Strict(env.body[p].value)
  }

  lemma {:induction false} SameLoads(
    env: Env, rho: Valuation, env': Env, rho': Valuation, p: nat, own: Value, own': Value)
    requires SameText(env, env') && p < |env.body|
    ensures Loads(env, rho, env.body[p], own) == Loads(env', rho', env.body[p], own')
  {
    var s := env.body[p];
    StrictReads(env.sem, s.value, rho[s.target := own]);
    StrictReads(env'.sem, s.value, rho'[s.target := own']);
  }

  lemma {:induction false} SameSetterLoads(
    env: Env, rho: Valuation, env': Env, rho': Valuation, x: string, m: nat)
    requires SameText(env, env') && StraightLine(env') && x in env.setters && m < |env.setters[x]|
    ensures SetterLoads(env, rho, x, m) == SetterLoads(env', rho', x, m)
  {
    assert SetterAt(env, x, env.setters[x][m]);
    SameLoads(env, rho, env', rho', env.setters[x][m].stmt, Fold(env, rho, x, m), Fold(env', rho', x, m));
  }

  lemma {:induction false} SameLive(env: Env, rho: Valuation, env': Env, rho': Valuation, x: string, m: nat, k: nat)
    requires SameText(env, env') && StraightLine(env') && x in env.setters && Live(env, rho, x, m, k)
    ensures Live(env', rho', x, m, k)
  {
    forall j | m < j < k ensures SelfLoads(env', rho', x, j) {
      assert SelfLoads(env, rho, x, j);
      SameSetterLoads(env, rho, env', rho', x, j);
    }
  }

  lemma {:induction false} SameReach(
    env: Env, rho: Valuation, env': Env, rho': Valuation, rank: map<string, nat>, x: string, z: string)
    requires SameText(env, env') && StraightLine(env') && rank.Keys == env.setters.Keys && x in rank
    requires Reaches(env, rho, rank, x, z)
    ensures Reaches(env', rho', rank, x, z)
    decreases rank[x]
  {
    if x != z {
      var n := |env.setters[x]|;
      var m: nat, y :|
        Live(env, rho, x, m, n) && Uses(env, rho, x, m, y) && rank[y] < rank[x] && Reaches(env, rho, rank, y, z);
      SameLive(env, rho, env', rho', x, m, n);
      SameSetterLoads(env, rho, env', rho', x, m);
      SameReach(env, rho, env', rho', rank, y, z);
      assert Live(env', rho', x, m, n) && Uses(env', rho', x, m, y);
    }
  }

  lemma {:induction false} SameLeads(
    env: Env, rho: Valuation, env': Env, rho': Valuation, rank: map<string, nat>, p: nat, z: string)
    requires SameText(env, env') && Fragment(env, rho, rank) && Fragment(env', rho', rank) && p < |env.body|
    requires LeadsTo(env, rho, rank, p, z)
    ensures LeadsTo(env', rho', rank, p, z)
  {
    var s, own, own' := env.body[p], OwnAt(env, rho, rank, p), OwnAt(env', rho', rank, p);
    var y :| y in Loads(env, rho, s, own) && y != s.target && y in rank && Reaches(env, rho, rank, y, z);
    SameLoads(env, rho, env', rho', p, own, own');
    SameReach(env, rho, env', rho', rank, y, z);
  }

  lemma {:induction false} NotLater(
    env: Env, rho: Valuation, env': Env, rho': Valuation, rank: map<string, nat>, p: nat, x: string)
    requires SameText(env, env') && Fragment(env, rho, rank) && Fragment(env', rho', rank)
    requires p <= |env.body| && x in rank && FirstLead(env, rho, rank, p, x).Some?
    ensures
      var first' := FirstLead(env', rho', rank, p, x);
      first'.Some? && first'.value <= FirstLead(env, rho, rank, p, x).value
  {
    var q := FirstLead(env, rho, rank, p, x).value;
    FirstLeadIs(env, rho, rank, p, x);
    SameLeads(env, rho, env', rho', rank, q, x);
    FirstLeadIs(env', rho', rank, p, x);
  }

  /** Without `and`, `or` and conditionals the text alone decides which statement first leads to a name. */
  lemma {:induction false} TextDecides(
    env: Env, rho: Valuation, env': Env, rho': Valuation, rank: map<string, nat>, p: nat, x: string)
    requires SameText(env, env') && Fragment(env, rho, rank) && Fragment(env', rho', rank)
    requires p <= |env.body| && x in rank
    ensures FirstLead(env, rho, rank, p, x) == FirstLead(env', rho', rank, p, x)
  {
    if FirstLead(env, rho, rank, p, x).Some? {
      NotLater(env, rho, env', rho', rank, p, x);
    }
    if FirstLead(env', rho', rank, p, x).Some? {
      NotLater(env', rho', env, rho, rank, p, x);
    }
  }
}
