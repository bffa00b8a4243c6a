/**
 * Consequences for whole runs: the cost of laziness and independence of statement order.
 */
module LazyOrder {
  import opened Values
  import opened LazySyntax
  import opened LazyEmit
  import opened LazyMachine
  import opened LazySpec
  import opened LazyRefine
  import opened LazyRun
  import opened LazyTheorems

  /** How often the statement with this id was executed. */
  function Times(vs: seq<Visit>, id: Id): nat {
    if vs == [] then 0 else
    var k := |vs| - 1;
    Times(vs[..k], id) + (if vs[k].id == id then 1 else 0)
  }

  lemma {:induction false} TimesBounds(vs: seq<Visit>, id: Id)
    requires NoRepeat(vs)
    ensures multiset(MainIds(vs))[id] <= Times(vs, id)
    ensures Times(vs, id) <= multiset(MainIds(vs))[id] + (if id in BackIds(vs) then 1 else 0)
  {
    if vs != [] {
      TimesBounds(vs[..|vs| - 1], id);
    }
  }

  lemma {:induction false} DistinctOnce(ids: seq<Id>, i: nat)
    requires i < |ids| && forall p, q :: 0 <= p < q < |ids| ==> ids[p] != ids[q]
    ensures multiset(ids)[ids[i]] == 1
  {
    assert ids == ids[..i] + [ids[i]] + ids[i + 1..];
    assert ids[i] !in ids[..i] && ids[i] !in ids[i + 1..];
  }

  /**
   * Laziness is linear: over the whole run every statement is executed once by the main walk
   * and at most once more by backtracking.
   */
  lemma {:induction false} AtMostTwice(env: Env, rho: Valuation, rank: map<string, nat>, seed: Id, p: nat)
    requires Fragment(env, rho, rank) && p < |env.body|
    ensures 1 <= Times(Final(env, seed).visits, env.body[p].id) <= 2
    ensures MainIds(Final(env, seed).visits) == IdsOf(env.body)
  {
    RunBetween(env, rho, rank, seed, |env.body|);
    assert env.body[..|env.body|] == env.body;
    OnceInBody(env, p);
    TimesBounds(Final(env, seed).visits, env.body[p].id);
  }

  lemma {:induction false} OnceInBody(env: Env, p: nat)
    requires StraightLine(env) && p < |env.body|
    ensures multiset(IdsOf(env.body))[env.body[p].id] == 1
  {
    var ids := IdsOf(env.body);
    DistinctOnce(ids, p);
    assert ids[p] == env.body[p].id;
  }

  /** The statements of `x`, in text order. */
  function ForName(body: seq<Stmt>, x: string): seq<Stmt>
    requires forall p :: 0 <= p < |body| ==> !body[p].If?
  {
    if body == [] then [] else
    var k := |body| - 1;
    ForName(body[..k], x) + (if body[k].target == x then [body[k]] else [])
  }

  lemma {:induction false} SelectLast(body: seq<Stmt>, x: string)
    requires body != [] && !body[|body| - 1].If?
    ensures
      var k := |body| - 1;
      Select(BodyBindings(body), x) == Select(BodyBindings(body[..k]), x) +
        if body[k].target == x then [Setter(k, body[k].id, Option.None, Normal)] else []
  {
    var k := |body| - 1;
    SelectAppend(BodyBindings(body[..k]), StmtBindings(body[k], k), x);
    var b := Binding(body[k].target, Setter(k, body[k].id, Option.None, Normal));
    assert StmtBindings(body[k], k) == [b] && [b][..0] == [];
    assert Select([b], x) == Select([], x) + (if b.name == x then [b.setter] else []);
  }

  /** The setters stand, one by one, at these statements of the body. */
  ghost predicate StandAt(ss: seq<Setter>, stmts: seq<Stmt>, body: seq<Stmt>) {
    && |ss| == |stmts|
    && forall k :: 0 <= k < |ss| ==> ss[k].stmt < |body| && body[ss[k].stmt] == stmts[k]
  }

  lemma {:induction false} StandLonger(ss: seq<Setter>, stmts: seq<Stmt>, body: seq<Stmt>, n: nat)
    requires n <= |body| && StandAt(ss, stmts, body[..n])
    ensures StandAt(ss, stmts, body)
  {
  }

  lemma {:induction false} StandMore(ss: seq<Setter>, stmts: seq<Stmt>, body: seq<Stmt>, s: Setter)
    requires StandAt(ss, stmts, body) && s.stmt < |body|
    ensures StandAt(ss + [s], stmts + [body[s.stmt]], body)
  {
  }

  lemma {:induction false} ForNameIsSelect(body: seq<Stmt>, x: string)
    requires forall p :: 0 <= p < |body| ==> !body[p].If?
    ensures StandAt(Select(BodyBindings(body), x), ForName(body, x), body)
  {
    if body != [] {
      var k := |body| - 1;
      var ss, stmts := Select(BodyBindings(body[..k]), x), ForName(body[..k], x);
      ForNameIsSelect(body[..k], x);
      SelectLast(body, x);
      StandNext(ss, stmts, body, x);
      assert ForName(body, x) == stmts + if body[k].target == x then [body[k]] else [];
    }
  }

  lemma {:induction false} StandNext(ss: seq<Setter>, stmts: seq<Stmt>, body: seq<Stmt>, x: string)
    requires body != [] && !body[|body| - 1].If? && StandAt(ss, stmts, body[..|body| - 1])
    ensures
      var k := |body| - 1;
      if body[k].target == x then
        StandAt(ss + [Setter(k, body[k].id, Option.None, Normal)], stmts + [body[k]], body)
      else StandAt(ss + [], stmts + [], body)
  {
    var k := |body| - 1;
    StandLonger(ss, stmts, body, k);
    StandMore(ss, stmts, body, Setter(k, body[k].id, Option.None, Normal));
    assert ss + [] == ss && stmts + [] == stmts;
  }

  /** The setters of a program are, name by name, the statements of that name. */
  lemma {:induction false} StmtOfIsForName(sem: Semantics, body: seq<Stmt>, x: string)
    requires FlatBody(body) && StraightLine(Program(sem, body))
    ensures
      var env := Program(sem, body);
      && (x in env.setters <==> ForName(body, x) != [])
      && (x in env.setters ==>
            && |env.setters[x]| == |ForName(body, x)|
            && forall k :: 0 <= k < |env.setters[x]| ==> StmtOf(env, x, k) == ForName(body, x)[k])
  {
    ForNameIsSelect(body, x);
    TableAt(BodyBindings(body), x);
  }

  /** Reordered bodies in which every name keeps its own statements in order. */
  ghost predicate Reordered(body: seq<Stmt>, body': seq<Stmt>) {
    FlatBody(body) && FlatBody(body') && forall x :: ForName(body, x) == ForName(body', x)
  }

  /** Programs with the same setter statements for every name. */
  ghost predicate SameSetters(env: Env, env': Env)
    requires StraightLine(env) && StraightLine(env')
  {
    && env.sem == env'.sem && env.setters.Keys == env'.setters.Keys
    && (forall x :: x in env.setters ==> |env.setters[x]| == |env'.setters[x]|)
    && (forall x, k :: x in env.setters && 0 <= k < |env.setters[x]| ==> StmtOf(env, x, k) == StmtOf(env', x, k))
  }

  lemma {:induction false} ReorderedSame(sem: Semantics, body: seq<Stmt>, body': seq<Stmt>)
    requires Reordered(body, body')
    ensures StraightLine(Program(sem, body)) && StraightLine(Program(sem, body'))
    ensures SameSetters(Program(sem, body), Program(sem, body'))
  {
    FlatIsStraightLine(sem, body);
    FlatIsStraightLine(sem, body');
    var env, env' := Program(sem, body), Program(sem, body');
    forall x
      ensures x in env.setters <==> x in env'.setters
      ensures x in env.setters ==> |env.setters[x]| == |env'.setters[x]|
      ensures x in env.setters ==>
        forall k :: 0 <= k < |env.setters[x]| ==> StmtOf(env, x, k) == StmtOf(env', x, k)
    {
      StmtOfIsForName(sem, body, x);
      StmtOfIsForName(sem, body', x);
    }
  }

  lemma {:induction false} SameFold(env: Env, env': Env, rho: Valuation, x: string, k: nat)
    requires StraightLine(env) && StraightLine(env') && SameSetters(env, env')
    requires x in env.setters && k <= |env.setters[x]|
    ensures Fold(env, rho, x, k) == Fold(env', rho, x, k)
    decreases k
  {
    if k > 0 {
      SameFold(env, env', rho, x, k - 1);
      assert StmtOf(env, x, k - 1) == StmtOf(env', x, k - 1);
    }
  }

  lemma {:induction false} SolutionReordered(env: Env, env': Env, rho: Valuation, x: string)
    requires StraightLine(env) && StraightLine(env') && SameSetters(env, env') && x in env.setters
    requires Solved(env, rho, x) && StartsFresh(env, x)
    ensures Solved(env', rho, x) && StartsFresh(env', x)
  {
    SameFold(env, env', rho, x, |env.setters[x]|);
    assert StmtOf(env, x, 0) == StmtOf(env', x, 0);
  }

  lemma {:induction false} DownwardReordered(env: Env, env': Env, rank: map<string, nat>, p: nat)
    requires StraightLine(env) && StraightLine(env') && SameSetters(env, env')
    requires Acyclic(env, rank) && p < |env'.body|
    ensures Downward(env', rank, p)
  {
    var x := env'.body[p].target;
    assert HasSetter(env', p, x);
    var k :| 0 <= k < |env'.setters[x]| && env'.setters[x][k].stmt == p;
    assert StmtOf(env', x, k) == StmtOf(env, x, k);
    assert SetterAt(env, x, env.setters[x][k]) && Downward(env, rank, env.setters[x][k].stmt);
  }

  /** A program's meaning and its dependencies do not change with the statement order. */
  lemma {:induction false} FragmentReordered(env: Env, env': Env, rho: Valuation, rank: map<string, nat>)
    requires Fragment(env, rho, rank) && StraightLine(env') && SameSetters(env, env')
    ensures Fragment(env', rho, rank)
  {
    forall x | x in env'.setters ensures Solved(env', rho, x) && StartsFresh(env', x) {
      assert Solved(env, rho, x) && StartsFresh(env, x);
      SolutionReordered(env, env', rho, x);
    }
    forall p | 0 <= p < |env'.body| ensures Downward(env', rank, p) {
      DownwardReordered(env, env', rank, p);
    }
  }

  /**
   * Statement order does not matter. In two runs of reordered bodies every read of a name by
   * another name's statement, every cached value and every variable of a name with a single
   * setter is the same.
   */
  lemma {:induction false} OrderIndependent(
    sem: Semantics, body: seq<Stmt>, body': seq<Stmt>, rank: map<string, nat>, seed: Id, seed': Id)
    requires Reordered(body, body') && StraightLine(Program(sem, body)) && Acyclic(Program(sem, body), rank)
    ensures
      var st, st' := Final(Program(sem, body), seed), Final(Program(sem, body'), seed');
      && (forall r, r' ::
            (&& r in st.readLog && r.reader != r.name
             && r' in st'.readLog && r'.reader != r'.name && r.name == r'.name)
            ==> r.value == r'.value)
      && (forall x :: ForName(body, x) != [] ==>
            x in st.cache && x in st'.cache && st.cache[x] == st'.cache[x])
      && (forall x :: |ForName(body, x)| == 1 ==> Variable(st, x) == Variable(st', x))
  {
    var env, env' := Program(sem, body), Program(sem, body');
    ReorderedSame(sem, body, body');
    var rho := Solve(env, rank);
    SolutionExists(env, rank);
    FragmentReordered(env, env', rho, rank);
    var st, st' := Final(env, seed), Final(env', seed');
    forall r | r in st.readLog && r.reader != r.name ensures r.value == Lookup(rho, r.name) {
      ReadsRefine(env, rho, rank, seed, |env.body|, r);
    }
    forall r | r in st'.readLog && r.reader != r.name ensures r.value == Lookup(rho, r.name) {
      ReadsRefine(env', rho, rank, seed', |env'.body|, r);
    }
    forall x | ForName(body, x) != []
      ensures x in st.cache && x in st'.cache && st.cache[x] == st'.cache[x]
      ensures |ForName(body, x)| == 1 ==> Variable(st, x) == Variable(st', x)
    {
      StmtOfIsForName(sem, body, x);
      FinalCache(env, rho, rank, seed, x);
      FinalCache(env', rho, rank, seed', x);
      if |ForName(body, x)| == 1 {
        FinalVariableSingle(env, rho, rank, seed, x);
        FinalVariableSingle(env', rho, rank, seed', x);
      }
    }
  }
}
