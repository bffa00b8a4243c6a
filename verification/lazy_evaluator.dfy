/** The evaluator object: its fields are updated in place, as the state machine prescribes. */
module LazyEvaluator {
  import opened Values
  import opened LazySyntax
  import opened LazyEmit
  import M = LazyMachine
  import B = LazyStart
  import S = LazySpec
  import F = LazyRefine
  import N = LazyRun
  import T = LazyTheorems
  import X = LazyText

  class Evaluator {
    const env: M.Env
    /** Global variables. */
    var vars: map<string, Value>
    /** The lazy scope. */
    var cache: map<string, Value>
    var levels: map<string, nat>
    var calTimes: map<string, nat>
    /** The stacks of assignment targets and of backtracking steps, and the current node id. */
    var targets: seq<string>
    var metas: seq<M.Meta>
    var astId: Id
    ghost var visits: seq<M.Visit>
    ghost var readLog: seq<M.Read>
    ghost var forced: map<string, nat>

    ghost function Abs(): M.State
      reads this
    {
      M.State(vars, cache, levels, calTimes, targets, metas, astId, visits, readLog, forced)
    }

    /** Emits the setters of the body and gives every plainly assigned name an undefined variable. */
    constructor (sem: Semantics, body: seq<Stmt>, seed: Id)
      ensures env == T.Program(sem, body)
      ensures Abs() == M.Init(env, seed)
    {
      var table := EmitSetters(body);
      var globals := PredefineGlobalVars(body, map[]);
      env := M.Env(sem, body, table);
      vars, cache, levels, calTimes := globals, map[], map[], map[];
      targets, metas, astId := [], [], seed;
      visits, readLog, forced := [], [], map[];
    }

    static method PredefineGlobalVars(body: seq<Stmt>, vars: map<string, Value>)
      returns (vars': map<string, Value>)
      ensures vars'.Keys == vars.Keys + M.Predefined(body)
      ensures forall x :: x in vars' ==>
        vars'[x] == if x in M.Predefined(body) then Undefined else vars[x]
      ensures forall x :: x in M.Predefined(body) <==> B.Binds(B.LeafStmts(body), x)
      decreases body
    {
      B.PredefinedAll(body);
      vars' := vars;
      ghost var done: set<string> := {};
      for i := 0 to |body|
        invariant M.Predefined(body) == done + M.Predefined(body[i..])
        invariant vars'.Keys == vars.Keys + done
        invariant forall x :: x in vars' ==> vars'[x] == if x in done then Undefined else vars[x]
      {
        var s := body[i];
        assert body[i..][0] == s && body[i..][1..] == body[i + 1..];
        if s.Assign? {
          vars' := vars'[s.target := Undefined];
          done := done + {s.target};
        } else if s.If? {
          vars' := PredefineGlobalVars(s.body, vars');
          vars' := PredefineGlobalVars(s.orelse, vars');
          done := done + M.Predefined(s.body) + M.Predefined(s.orelse);
        }
      }
    }

    /** Whether a direct store of `x` completes its setters; counts the store. */
    method CalIncrement(x: string) returns (all: bool)
      modifies this`calTimes
      ensures (Abs(), all) == M.CalIncrement(env, old(Abs()), x)
    {
      if M.Count(levels, x) > 0 {
        all := false;
      } else {
        var next := M.Count(calTimes, x) + 1;
        calTimes := calTimes[x := next];
        all := next >= |M.SettersOf(env, x)|;
      }
    }

    method IsLastSetter(x: string) returns (last: bool)
      ensures last == M.IsLastSetter(env, Abs(), x)
    {
      var setters := M.SettersOf(env, x);
      if M.Count(levels, x) > 0 || setters == [] {
        last := false;
      } else {
        var s := setters[|setters| - 1];
        last := astId == if s.stopped.Some? then s.stopped.value else s.stmtId;
      }
    }

    method SetValueToLazyScope(x: string, v: Value)
      requires x in vars && vars[x] == v
      modifies this`calTimes, this`cache
      ensures Abs() == M.Store(env, old(Abs()), x, v)
    {
      var all := CalIncrement(x);
      var last := false;
      if !all {
        last := IsLastSetter(x);
      }
      if (all || last) && x !in cache {
        cache := cache[x := v];
      }
      assert old(vars)[x := v] == vars;
    }

    method AddOrUpdateGlobalVariable(x: string, v: Value)
      modifies this`vars, this`calTimes, this`cache
      ensures Abs() == M.Store(env, old(Abs()), x, v)
    {
      vars := vars[x := v];
      SetValueToLazyScope(x, v);
    }

    method LoadName(x: string) returns (v: Value)
      modifies this
      ensures (Abs(), v) == M.LoadName(env, old(Abs()), x)
      decreases M.Room(env, Abs()), 1
    {
      ghost var reader := M.Target(Abs());
      if x in vars {
        v := GetValueFromLazyScope(x, vars[x]);
      } else {
        v := Undefined;
      }
      readLog := readLog + [M.Read(reader, x, v)];
    }

    method GetValueFromLazyScope(x: string, default: Value) returns (v: Value)
      modifies this
      ensures (Abs(), v) == M.GetValue(env, old(Abs()), x, default)
      decreases M.Room(env, Abs()), 0, 2
    {
      var setters := M.SettersOf(env, x);
      var target := if targets == [] then "" else targets[|targets| - 1];
      if x == target && (M.Count(levels, x) == 0 || |setters| <= 1) {
        v := default;
      } else if x in cache {
        v := cache[x];
      } else {
        v := GetUncached(x, default);
      }
    }

    /** The value of a name that is neither read in place nor cached. */
    method GetUncached(x: string, default: Value) returns (v: Value)
      requires x !in cache
      requires !(x == M.Target(Abs()) && (M.Count(levels, x) == 0 || |M.SettersOf(env, x)| <= 1))
      modifies this
      ensures (Abs(), v) == M.GetValue(env, old(Abs()), x, default)
      decreases M.Room(env, Abs()), 0, 1
    {
      var setters, level := M.SettersOf(env, x), M.Count(levels, x);
      if setters == [] {
        v := default;
      } else if level + 1 > |setters| {
        levels := levels[x := level + 1];
        v := default;
      } else {
        v := Backtrack(x);
      }
    }

    method Backtrack(x: string) returns (v: Value)
      requires x in env.setters && M.Count(levels, x) < |env.setters[x]|
      modifies this
      ensures (Abs(), v) == M.Backtrack(env, old(Abs()), x)
      decreases M.Room(env, Abs()), 0, 0
    {
      var setters, level := env.setters[x], M.Count(levels, x);
      Deepen(x);
      ghost var st := M.Deepen(old(Abs()), x);
      M.RoomShrinks(env, old(Abs()), st, x);
      WalkStmtsWithSetter(setters[|setters| - (level + 1)]);
      ghost var st1 := M.WalkSetter(env, st, setters[|setters| - (level + 1)]);
      assert Abs() == st1;
      v := Restore(x, level);
      M.BacktrackIs(env, old(Abs()), x, st1);
    }

    /** Caches what the variable holds and puts the level back. */
    method Restore(x: string, level: nat) returns (v: Value)
      modifies this`levels, this`cache
      ensures v == M.Variable(old(Abs()), x)
      ensures Abs() == old(Abs()).(levels := old(levels)[x := level], cache := old(cache)[x := v])
    {
      v := M.Lookup(vars, x);
      levels := levels[x := level];
      cache := cache[x := v];
    }

    method Deepen(x: string)
      modifies this`levels, this`forced
      ensures Abs() == M.Deepen(old(Abs()), x)
    {
      if M.Count(levels, x) == 0 {
        forced := forced[x := M.Count(calTimes, x)];
      }
      levels := levels[x := M.Count(levels, x) + 1];
    }

    method WalkStmtsWithSetter(setter: Setter)
      modifies this
      ensures Abs() == M.WalkSetter(env, old(Abs()), setter)
      decreases M.Room(env, Abs()), 5
    {
      if setter.stmt < |env.body| {
        ghost var st := Abs();
        metas := metas + [M.Meta(setter.stopped, false, setter.kind)];
        M.RoomKept(env, st, Abs());
        WalkStmt(env.body[setter.stmt]);
        metas := metas[..|metas| - 1];
      }
    }

    method WalkExpr(e: Expr) returns (v: Value)
      modifies this
      ensures (Abs(), v) == M.WalkExpr(env, old(Abs()), e)
      decreases M.Room(env, Abs()), 2, e
    {
      match e
      case Lit(value) => v := value;
      case Name(x) => v := LoadName(x);
      case Binary(op, left, right) =>
        var l := WalkExpr(left);
        M.RoomKept(env, old(Abs()), Abs());
        var r := WalkExpr(right);
        v := env.sem.binary(op, l, r);
      case Logic(isAnd, left, right) =>
        v := WalkExpr(left);
        M.RoomKept(env, old(Abs()), Abs());
        if env.sem.truthy(v) == isAnd {
          v := WalkExpr(right);
        }
      case Cond(test, body, orelse) =>
        var t := WalkExpr(test);
        M.RoomKept(env, old(Abs()), Abs());
        if env.sem.truthy(t) {
          v := WalkExpr(body);
        } else {
          v := WalkExpr(orelse);
        }
    }

    method WalkStmt(s: Stmt)
      modifies this
      ensures Abs() == M.WalkStmt(env, old(Abs()), s)
      decreases M.Room(env, Abs()), 4, s
    {
      if metas != [] && metas[|metas| - 1].isBreak {
        return;
      }
      astId := s.id;
      visits := visits + [M.Visit(s.id, |metas|)];
      M.RoomKept(env, old(Abs()), Abs());
      assert Abs() == M.Enter(old(Abs()), s);
      match s {
        case Assign(_, x, e) => WalkAssignStmt(x, e);
        case AugAssign(_, x, op, e) => WalkAugAssignStmt(x, op, e);
        case If(_, _, _, _) => WalkIfStmt(s);
      }
      assert Abs() == M.WalkEntered(env, M.Enter(old(Abs()), s), s);
      BacktrackUpdateBreak(s.id);
    }

    method BacktrackUpdateBreak(id: Id)
      modifies this`metas
      ensures Abs() == M.UpdateBreak(old(Abs()), id)
    {
      var k := |metas| - 1;
      if metas != [] && metas[k].stopped == Some(id) {
        metas := metas[k := metas[k].(isBreak := true)];
      }
    }

    method WalkAssignStmt(x: string, e: Expr)
      modifies this
      ensures Abs() == M.WalkAssign(env, old(Abs()), x, e)
      decreases M.Room(env, Abs()), 3
    {
      targets := targets + [x];
      M.RoomKept(env, old(Abs()), Abs());
      var v := WalkExpr(e);
      AddOrUpdateGlobalVariable(x, v);
      targets := targets[..|targets| - 1];
    }

    method WalkAugAssignStmt(x: string, op: Operator, e: Expr)
      modifies this
      ensures Abs() == M.WalkAugAssign(env, old(Abs()), x, op, e)
      decreases M.Room(env, Abs()), 3
    {
      targets := targets + [x];
      ghost var st := Abs();
      M.RoomKept(env, old(Abs()), st);
      var right := WalkExpr(e);
      M.RoomKept(env, st, Abs());
      var own := LoadName(x);
      AddOrUpdateGlobalVariable(x, env.sem.binary(op, own, right));
      targets := targets[..|targets| - 1];
    }

    method WalkIfStmt(s: Stmt)
      requires s.If?
      modifies this
      ensures Abs() == M.WalkIf(env, old(Abs()), s)
      decreases M.Room(env, Abs()), 4, s, 0
    {
      var c := WalkExpr(s.cond);
      M.RoomKept(env, old(Abs()), Abs());
      var truth := env.sem.truthy(c);
      var kind := if metas == [] then Normal else metas[|metas| - 1].kind;
      if kind == SetterKind.OrElse {
        if !truth {
          WalkStmts(s.orelse);
        }
      } else if kind == IfBranch {
        if truth {
          WalkStmts(s.body);
        }
      } else if truth {
        WalkStmts(s.body);
      } else {
        WalkStmts(s.orelse);
      }
    }

    method WalkStmts(body: seq<Stmt>)
      modifies this
      ensures Abs() == M.WalkStmts(env, old(Abs()), body)
      decreases M.Room(env, Abs()), 4, body
    {
      ghost var st := Abs();
      for i := 0 to |body|
        invariant M.WalkStmts(env, Abs(), body[i..]) == M.WalkStmts(env, st, body)
        invariant M.Room(env, Abs()) == M.Room(env, st)
      {
        assert body[i..][0] == body[i] && body[i..][1..] == body[i + 1..];
        ghost var before := Abs();
        WalkStmt(body[i]);
        M.RoomKept(env, before, Abs());
      }
    }

    /** The main walk over the whole body. */
    method CompileModule(seed: Id)
      requires Abs() == M.Init(env, seed)
      modifies this
      ensures Abs() == M.After(env, seed, |env.body|)
    {
      assert env.body[..|env.body|] == env.body;
      WalkStmts(env.body);
    }
  }

  /**
   * A whole run of the evaluator on a straight-line body. What it exports are the variables: that of a
   * single-setter name is its dependency-order value, and every other one is that value with the setters applied
   * again that `Ending` names. What statements read of each other is the cache, which has the dependency-order
   * value of every name.
   */
  method EvaluateModule(sem: Semantics, body: seq<Stmt>, seed: Id, ghost rank: map<string, nat>)
    returns (variables: map<string, Value>, cache: map<string, Value>)
    requires T.FlatBody(body) && S.StraightLine(T.Program(sem, body)) && S.Acyclic(T.Program(sem, body), rank)
    ensures variables.Keys == rank.Keys
    ensures var env := T.Program(sem, body);
      forall x :: x in rank && |env.setters[x]| == 1 ==> variables[x] == T.Den(env, rank, x)
    ensures var env := T.Program(sem, body); F.Fragment(env, T.Solve(env, rank), rank)
    ensures var env := T.Program(sem, body);
      forall x :: x in rank ==> variables[x] == X.Ending(env, T.Solve(env, rank), rank, x)
    ensures forall x :: x in rank ==> x in cache && cache[x] == T.Den(T.Program(sem, body), rank, x)
  {
    ghost var env := T.Program(sem, body);
    ghost var rho := T.Solve(env, rank);
    var evaluator := new Evaluator(sem, body, seed);
    evaluator.CompileModule(seed);
    T.RunMeetsDependencyOrder(sem, body, rank, seed);
    variables, cache := evaluator.vars, evaluator.cache;
    T.SolutionExists(env, rank);
    N.RunBetween(env, rho, rank, seed, |body|);
    assert forall x :: x in rank ==> variables[x] == M.Variable(T.Final(env, seed), x);
    forall x | x in rank ensures variables[x] == X.Ending(env, rho, rank, x) {
      X.FinalVariableText(env, rho, rank, seed, x);
    }
  }
}
