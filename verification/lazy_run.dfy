/**
 * Whole runs: the main walk over a straight-line body, and what every run ends with.
 */
module LazyRun {
  import opened Values
  import opened LazySyntax
  import opened LazyMachine
  import opened LazySpec
  import opened LazyRefine

  /** Ids of the statements the main walk executed, in order. */
  ghost function MainIds(vs: seq<Visit>): seq<Id> {
    if vs == [] then [] else
    var k := |vs| - 1;
    MainIds(vs[..k]) + (if vs[k].depth == 0 then [vs[k].id] else [])
  }

  /** The main walk has stored exactly the setters of `x` that stand before position `p`. */
  ghost predicate Stored(env: Env, c: Core, x: string, p: nat)
    requires x in env.setters
  {
    forall k :: 0 <= k < |env.setters[x]| ==>
      (k < Count(c.calTimes, x) <==> env.setters[x][k].stmt < p)
  }

  /** The invariant between the statements of the main walk. */
  ghost predicate Between(env: Env, rho: Valuation, st: State, p: nat)
    requires StraightLine(env) && rho.Keys == env.setters.Keys && p <= |env.body|
  {
    && Sound(env, rho, st) && Current(st)
    && st.metas == [] && st.targets == []
    && MainIds(st.visits) == IdsOf(env.body[..p])
    && NamesOk(env, rho, CoreOf(st), p)
  }

  lemma {:induction false} NoMainVisits(vs: seq<Visit>, ws: seq<Visit>)
    requires vs <= ws
    requires forall i :: |vs| <= i < |ws| ==> ws[i].depth > 0
    ensures MainIds(ws) == MainIds(vs)
    decreases |ws|
  {
    if |ws| > |vs| {
      NoMainVisits(vs, ws[..|ws| - 1]);
    } else {
      assert ws == vs;
    }
  }

  lemma {:induction false} LastBack(vs: seq<Visit>, ws: seq<Visit>)
    requires vs < ws
    requires forall i :: |vs| <= i < |ws| ==> ws[i].depth > 0
    ensures ws[|ws| - 1].id in BackIds(ws)
  {
  }

  lemma {:induction false} StartsBetween(env: Env, rho: Valuation, rank: map<string, nat>, seed: Id)
    requires Fragment(env, rho, rank)
    ensures Between(env, rho, After(env, seed, 0), 0)
  {
    var st := Init(env, seed);
    assert env.body[..0] == [] && After(env, seed, 0) == st;
    assert st.vars.Keys == env.setters.Keys by {
      PredefinedAll(env.body);
      forall x | x in env.setters ensures x in st.vars {
        assert StartsFresh(env, x) && SetterAt(env, x, env.setters[x][0]);
      }
    }
    assert IdsOf(env.body[..0]) == [];
  }

  lemma {:induction false} PredefinedAll(body: seq<Stmt>)
    requires forall p :: 0 <= p < |body| ==> !body[p].If?
    ensures forall p :: 0 <= p < |body| && body[p].Assign? ==> body[p].target in Predefined(body)
    ensures forall x :: x in Predefined(body) ==> exists p :: 0 <= p < |body| && body[p].target == x
  {
    if body != [] {
      PredefinedAll(body[1..]);
      forall x | x in Predefined(body) ensures exists p :: 0 <= p < |body| && body[p].target == x {
        if x in Predefined(body[1..]) {
          var p :| 0 <= p < |body[1..]| && body[1..][p].target == x;
          assert body[p + 1].target == x;
        } else {
          assert body[0].target == x;
        }
      }
    }
  }

  /** At position `p` the main walk stores the next setter of its target. */
  lemma {:induction false} NextSetter(env: Env, c: Core, x: string, p: nat)
    requires StraightLine(env) && p < |env.body| && env.body[p].target == x
    requires Stored(env, c, x, p) && Count(c.calTimes, x) <= |env.setters[x]|
    ensures
      var done := Count(c.calTimes, x);
      done < |env.setters[x]| && env.setters[x][done].stmt == p && StmtOf(env, x, done) == env.body[p]
  {
    assert HasSetter(env, p, x);
    var k :| 0 <= k < |env.setters[x]| && env.setters[x][k].stmt == p;
  }

  /** The core after the main walk has stored `v` in `x`. */
  ghost function StoredCore(d: Core, x: string, v: Value, cached: bool): Core {
    d.(vars := d.vars[x := v],
       calTimes := d.calTimes[x := Count(d.calTimes, x) + 1],
       cache := if cached then d.cache[x := v] else d.cache)
  }

  lemma {:induction false} StoreTarget(
    env: Env, rho: Valuation, rank: map<string, nat>, c: Core, d: Core, x: string, p: nat, cached: bool)
    requires Fragment(env, rho, rank) && p < |env.body| && env.body[p].target == x
    requires NameOk(env, rho, c, x) && Stored(env, c, x, p)
    requires Moved(env, rank, c, d, x, 0)
    requires cached <==> x !in d.cache && Count(d.calTimes, x) + 1 == |env.setters[x]|
    ensures
      var v := Step(env.sem, env.body[p], Lookup(c.vars, x), rho);
      var c' := StoredCore(d, x, v, cached);
      NameOk(env, rho, c', x) && Stored(env, c', x, p + 1)
  {
    NextSetter(env, c, x, p);
    StoreTargetName(env, rho, rank, c, d, x, p, cached);
  }

  lemma {:induction false} StoreTargetName(
    env: Env, rho: Valuation, rank: map<string, nat>, c: Core, d: Core, x: string, p: nat, cached: bool)
    requires Fragment(env, rho, rank) && p < |env.body| && env.body[p].target == x
    requires NameOk(env, rho, c, x) && Moved(env, rank, c, d, x, 0)
    requires
      var done := Count(c.calTimes, x);
      done < |env.setters[x]| && env.setters[x][done].stmt == p && StmtOf(env, x, done) == env.body[p]
    requires cached <==> x !in d.cache && Count(d.calTimes, x) + 1 == |env.setters[x]|
    ensures NameOk(env, rho, StoredCore(d, x, Step(env.sem, env.body[p], Lookup(c.vars, x), rho), cached), x)
  {
    assert Solved(env, rho, x);
    if x !in c.cache {
      assert Step(env.sem, env.body[p], Lookup(c.vars, x), rho) == Fold(env, rho, x, Count(c.calTimes, x) + 1);
    }
  }

  lemma {:induction false} StoreOther(
    env: Env, rho: Valuation, rank: map<string, nat>, c: Core, d: Core, x: string, p: nat, v: Value, cached: bool,
    z: string)
    requires Fragment(env, rho, rank) && p < |env.body| && env.body[p].target == x
    requires z in env.setters && z != x && NameOk(env, rho, c, z) && Stored(env, c, z, p)
    requires Settled(env, rho, rank, d, rank[x]) && Moved(env, rank, c, d, x, 0)
    ensures
      var c' := StoredCore(d, x, v, cached);
      NameOk(env, rho, c', z) && Stored(env, c', z, p + 1)
  {
    var c' := StoredCore(d, x, v, cached);
    if rank[z] >= rank[x] {
      assert Untouched(c, d, z);
      NameOkKept(env, rho, c, d, z);
    }
    NameOkKept(env, rho, d, c', z);
    forall k | 0 <= k < |env.setters[z]| ensures env.setters[z][k].stmt != p {
      assert SetterAt(env, z, env.setters[z][k]);
    }
  }

  /** While the target is not cached yet, only its last setter can be the statement entered last. */
  lemma {:induction false} LastSetterOnly(
    env: Env, rho: Valuation, rank: map<string, nat>, st: State, st2: State, p: nat)
    requires Fragment(env, rho, rank) && p < |env.body|
    requires
      var x := env.body[p].target;
      && NameOk(env, rho, CoreOf(st), x) && Stored(env, CoreOf(st), x, p) && x !in st.cache
      && Moved(env, rank, CoreOf(st), CoreOf(st2), x, 0)
      && st2.calTimes == st.calTimes
    requires Current(st2) && st.visits + [Visit(env.body[p].id, 0)] <= st2.visits
    requires forall i :: |st.visits| < i < |st2.visits| ==> st2.visits[i].depth > 0
    ensures
      var x := env.body[p].target;
      IsLastSetter(env, st2, x) ==> CalTimes(st2, x) + 1 == |env.setters[x]|
  {
    var x := env.body[p].target;
    NextSetter(env, CoreOf(st), x, p);
    var n := |env.setters[x]|;
    var last := env.setters[x][n - 1];
    assert SetterAt(env, x, last);
    if IsLastSetter(env, st2, x) && last.stmt != p {
      assert env.body[last.stmt].id != env.body[p].id;
      var base := st.visits + [Visit(env.body[p].id, 0)];
      assert st2.visits != base;
      LastBack(base, st2.visits);
    }
  }

  /** A top-level statement outside backtracking is its operand and the store of it. */
  lemma {:induction false} MainUnfold(env: Env, st: State, s: Stmt)
    requires !s.If? && st.metas == []
    ensures
      var pushed := PushTarget(Enter(st, s), s.target);
      var (st2, v) := Operand(env, pushed, s);
      && WalkStmt(env, st, s) == PopTarget(Store(env, st2, s.target, v))
      && Kept(env, pushed, st2, 1) && st2.metas == []
  {
    EnteredIsStore(env, Enter(st, s), s);
    OperandKept(env, PushTarget(Enter(st, s), s.target), s);
  }

  lemma {:induction false} MainReady(env: Env, rho: Valuation, rank: map<string, nat>, st: State, p: nat)
    requires Fragment(env, rho, rank) && p < |env.body| && Between(env, rho, st, p)
    ensures
      var s := env.body[p];
      var pushed := PushTarget(Enter(st, s), s.target);
      CoreOf(pushed) == CoreOf(st) && Ready(env, rho, rank, pushed, s.target, 0, Variable(st, s.target))
  {
    var s := env.body[p];
    LogVisit(st.visits, Visit(s.id, 0));
    assert CoreOf(PushTarget(Enter(st, s), s.target)) == CoreOf(st);
    assert NameOk(env, rho, CoreOf(st), s.target);
  }

  lemma {:induction false} MainOperand(env: Env, rho: Valuation, rank: map<string, nat>, st: State, p: nat)
    requires Fragment(env, rho, rank) && p < |env.body| && Between(env, rho, st, p)
    ensures
      var s := env.body[p];
      var (st2, v) := Operand(env, PushTarget(Enter(st, s), s.target), s);
      && v == Step(env.sem, s, Variable(st, s.target), rho)
      && Sound(env, rho, st2) && Settled(env, rho, rank, CoreOf(st2), rank[s.target])
      && Moved(env, rank, CoreOf(st), CoreOf(st2), s.target, 0)
  {
    var s := env.body[p];
    MainReady(env, rho, rank, st, p);
    OperandRight(env, rho, rank, PushTarget(Enter(st, s), s.target), p, s.target, 0, Variable(st, s.target));
  }

  lemma {:induction false} MainStore(env: Env, st: State, x: string, v: Value)
    requires x in env.setters && Level(st, x) == 0
    requires x !in st.cache && IsLastSetter(env, st, x) ==> CalTimes(st, x) + 1 == |env.setters[x]|
    requires CalTimes(st, x) < |env.setters[x]|
    ensures
      var cached := x !in st.cache && CalTimes(st, x) + 1 == |env.setters[x]|;
      var st' := Store(env, st, x, v);
      && CoreOf(st') == StoredCore(CoreOf(st), x, v, cached)
      && st' == st.(vars := st'.vars, cache := st'.cache, calTimes := st'.calTimes)
  {
  }

  /** Every name is in order for the statements before `p`. */
  ghost predicate NamesOk(env: Env, rho: Valuation, c: Core, p: nat)
    requires StraightLine(env) && rho.Keys == env.setters.Keys && p <= |env.body|
  {
    forall x :: x in env.setters ==> NameOk(env, rho, c, x) && Stored(env, c, x, p)
  }

  lemma {:induction false} MainNames(
    env: Env, rho: Valuation, rank: map<string, nat>, c: Core, d: Core, x: string, p: nat, cached: bool, v: Value,
    c': Core)
    requires Fragment(env, rho, rank) && p < |env.body| && env.body[p].target == x
    requires NamesOk(env, rho, c, p)
    requires Settled(env, rho, rank, d, rank[x]) && Moved(env, rank, c, d, x, 0)
    requires cached <==> x !in d.cache && Count(d.calTimes, x) + 1 == |env.setters[x]|
    requires v == Step(env.sem, env.body[p], Lookup(c.vars, x), rho) && c' == StoredCore(d, x, v, cached)
    ensures NamesOk(env, rho, c', p + 1)
  {
    forall z | z in env.setters ensures NameOk(env, rho, c', z) && Stored(env, c', z, p + 1) {
      assert NameOk(env, rho, c, z);
      if z == x {
        StoreTarget(env, rho, rank, c, d, x, p, cached);
      } else {
        StoreOther(env, rho, rank, c, d, x, p, v, cached, z);
      }
    }
  }

  /** Every cached name stays cached. */
  ghost predicate Persists(env: Env, st: State, st': State) {
    forall z :: z in env.setters && z in st.cache ==> z in st'.cache
  }

  /** The statement at `p` has been evaluated from `st`; `st2` is the state just before its store. */
  ghost predicate Evaluated(env: Env, rho: Valuation, rank: map<string, nat>, st: State, p: nat, st2: State)
    requires Fragment(env, rho, rank) && p < |env.body|
  {
    var s := env.body[p];
    && Sound(env, rho, st2) && Settled(env, rho, rank, CoreOf(st2), rank[s.target])
    && Moved(env, rank, CoreOf(st), CoreOf(st2), s.target, 0)
    && st2.metas == [] && st2.targets == [s.target] && Current(st2)
    && st.visits + [Visit(s.id, 0)] <= st2.visits
    && forall i :: |st.visits| < i < |st2.visits| ==> st2.visits[i].depth > 0
  }

  /** One statement of the main walk stores, and caches exactly after the last setter. */
  lemma {:induction false} MainCore(
    env: Env, rho: Valuation, rank: map<string, nat>, st: State, p: nat, st2: State, v: Value)
    requires Fragment(env, rho, rank) && p < |env.body| && Between(env, rho, st, p)
    requires Evaluated(env, rho, rank, st, p, st2)
    ensures
      var x := env.body[p].target;
      var cached := x !in st2.cache && CalTimes(st2, x) + 1 == |env.setters[x]|;
      var st' := PopTarget(Store(env, st2, x, v));
      && CoreOf(st') == StoredCore(CoreOf(st2), x, v, cached)
      && st'.metas == [] && st'.targets == []
      && st'.visits == st2.visits && st'.readLog == st2.readLog && st'.astId == st2.astId
  {
    var x := env.body[p].target;
    assert NameOk(env, rho, CoreOf(st), x);
    NextSetter(env, CoreOf(st), x, p);
    if x !in st.cache {
      LastSetterOnly(env, rho, rank, st, st2, p);
    }
    MainStore(env, st2, x, v);
  }

  lemma {:induction false} NamesAfterStore(
    env: Env, rho: Valuation, rank: map<string, nat>, st: State, p: nat, st2: State, v: Value, c: Core)
    requires Fragment(env, rho, rank) && p < |env.body| && NamesOk(env, rho, CoreOf(st), p)
    requires Settled(env, rho, rank, CoreOf(st2), rank[env.body[p].target])
    requires Moved(env, rank, CoreOf(st), CoreOf(st2), env.body[p].target, 0)
    requires st2.vars.Keys == env.setters.Keys
    requires v == Step(env.sem, env.body[p], Variable(st, env.body[p].target), rho)
    requires
      var x := env.body[p].target;
      c == StoredCore(CoreOf(st2), x, v, x !in st2.cache && CalTimes(st2, x) + 1 == |env.setters[x]|)
    ensures c.vars.Keys == env.setters.Keys
    ensures NamesOk(env, rho, c, p + 1)
  {
    var x := env.body[p].target;
    var cached := x !in st2.cache && CalTimes(st2, x) + 1 == |env.setters[x]|;
    MainNames(env, rho, rank, CoreOf(st), CoreOf(st2), x, p, cached, v, c);
  }

  /** No name loses its cached value while a statement of `x` is evaluated and stored. */
  lemma {:induction false} CacheKept(
    env: Env, rank: map<string, nat>, c: Core, d: Core, x: string, v: Value, cached: bool, z: string)
    requires StraightLine(env) && rank.Keys == env.setters.Keys && x in rank && z in rank
    requires Moved(env, rank, c, d, x, 0) && z in c.cache
    ensures z in StoredCore(d, x, v, cached).cache
  {
    if rank[z] >= rank[x] {
      assert Untouched(c, d, z);
    }
  }

  lemma {:induction false} MainFinish(
    env: Env, rho: Valuation, rank: map<string, nat>, st: State, p: nat, st2: State, v: Value)
    requires Fragment(env, rho, rank) && p < |env.body| && Between(env, rho, st, p)
    requires Evaluated(env, rho, rank, st, p, st2)
    requires v == Step(env.sem, env.body[p], Variable(st, env.body[p].target), rho)
    ensures
      var st' := PopTarget(Store(env, st2, env.body[p].target, v));
      Between(env, rho, st', p + 1) && Persists(env, st, st')
  {
    var x := env.body[p].target;
    var cached := x !in st2.cache && CalTimes(st2, x) + 1 == |env.setters[x]|;
    var c := StoredCore(CoreOf(st2), x, v, cached);
    NamesAfterStore(env, rho, rank, st, p, st2, v, c);
    MainCore(env, rho, rank, st, p, st2, v);
    MainIdsStep(env.body, p, st.visits, st2.visits);
    BetweenIntro(env, rho, PopTarget(Store(env, st2, x, v)), st2, p + 1, c);
    forall z | z in env.setters && z in st.cache ensures z in c.cache {
      CacheKept(env, rank, CoreOf(st), CoreOf(st2), x, v, cached, z);
    }
  }

  lemma {:induction false} BetweenIntro(env: Env, rho: Valuation, st: State, st2: State, p: nat, c: Core)
    requires StraightLine(env) && rho.Keys == env.setters.Keys && p <= |env.body|
    requires Sound(env, rho, st2) && Current(st2) && c.vars.Keys == env.setters.Keys
    requires CoreOf(st) == c && st.metas == [] && st.targets == []
    requires st.visits == st2.visits && st.readLog == st2.readLog && st.astId == st2.astId
    requires MainIds(st2.visits) == IdsOf(env.body[..p])
    requires NamesOk(env, rho, c, p)
    ensures Between(env, rho, st, p)
  {
  }

  lemma {:induction false} MainIdsStep(body: seq<Stmt>, p: nat, vs: seq<Visit>, ws: seq<Visit>)
    requires p < |body| && MainIds(vs) == IdsOf(body[..p])
    requires vs + [Visit(body[p].id, 0)] <= ws
    requires forall i :: |vs| < i < |ws| ==> ws[i].depth > 0
    ensures MainIds(ws) == IdsOf(body[..p + 1])
  {
    var base := vs + [Visit(body[p].id, 0)];
    NoMainVisits(base, ws);
    assert base[..|vs|] == vs;
    assert IdsOf(body[..p + 1]) == IdsOf(body[..p]) + [body[p].id];
  }

  lemma {:induction false} MainEvaluated(env: Env, rho: Valuation, rank: map<string, nat>, st: State, p: nat)
    requires Fragment(env, rho, rank) && p < |env.body| && Between(env, rho, st, p)
    ensures
      var s := env.body[p];
      var (st2, v) := Operand(env, PushTarget(Enter(st, s), s.target), s);
      && Evaluated(env, rho, rank, st, p, st2)
      && v == Step(env.sem, s, Variable(st, s.target), rho)
  {
    var s := env.body[p];
    var pushed := PushTarget(Enter(st, s), s.target);
    assert pushed.targets == [s.target];
    OperandKept(env, pushed, s);
    MainOperand(env, rho, rank, st, p);
    EvaluatedIntro(env, rho, rank, st, p, pushed, Operand(env, pushed, s).0);
  }

  lemma {:induction false} EvaluatedIntro(
    env: Env, rho: Valuation, rank: map<string, nat>, st: State, p: nat, pushed: State, st2: State)
    requires Fragment(env, rho, rank) && p < |env.body| && st.metas == [] && st.targets == []
    requires pushed.targets == [env.body[p].target] && Current(pushed)
    requires pushed.visits == st.visits + [Visit(env.body[p].id, 0)]
    requires Kept(env, pushed, st2, 1) && st2.metas == []
    requires Sound(env, rho, st2) && Settled(env, rho, rank, CoreOf(st2), rank[env.body[p].target])
    requires Moved(env, rank, CoreOf(st), CoreOf(st2), env.body[p].target, 0)
    ensures Evaluated(env, rho, rank, st, p, st2)
  {
  }

  /** Each statement of the main walk keeps the invariant and every cached name. */
  lemma {:induction false} MainStep(env: Env, rho: Valuation, rank: map<string, nat>, seed: Id, p: nat)
    requires Fragment(env, rho, rank) && p < |env.body| && Between(env, rho, After(env, seed, p), p)
    ensures Between(env, rho, After(env, seed, p + 1), p + 1)
    ensures Persists(env, After(env, seed, p), After(env, seed, p + 1))
  {
    var s, st := env.body[p], After(env, seed, p);
    var (st2, v) := Operand(env, PushTarget(Enter(st, s), s.target), s);
    AfterStep(env, seed, p);
    MainUnfold(env, st, s);
    MainEvaluated(env, rho, rank, st, p);
    MainFinish(env, rho, rank, st, p, st2, v);
  }

  lemma {:induction false} RunBetween(env: Env, rho: Valuation, rank: map<string, nat>, seed: Id, p: nat)
    requires Fragment(env, rho, rank) && p <= |env.body|
    ensures Between(env, rho, After(env, seed, p), p)
    decreases p
  {
    if p == 0 {
      StartsBetween(env, rho, rank, seed);
    } else {
      var q := p - 1;
      RunBetween(env, rho, rank, seed, q);
      MainStep(env, rho, rank, seed, q);
      assert q + 1 == p;
    }
  }
}
