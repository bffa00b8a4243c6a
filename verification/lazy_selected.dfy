/** The value that backtracking into an `if` yields when the setter's statement is selected. */
module LazySelected {
  import opened Values
  import opened LazySyntax
  import opened LazyMachine
  import opened LazyBranch
  import opened LazyNested

  /** The assignment with this id. */
  ghost function StmtWith(body: seq<Stmt>, id: Id): (r: Stmt)
    requires Once(body, id)
    ensures !r.If? && r.id == id
    decreases body
  {
    StmtIn(body[Place(body, id)], id)
  }

  ghost function StmtIn(s: Stmt, id: Id): (r: Stmt)
    requires OnceIn(s, id)
    ensures !r.If? && r.id == id
    decreases s
  {
    if !s.If? then s else if id in AllIds(s.body) then StmtWith(s.body, id) else StmtWith(s.orelse, id)
  }

  /** In the branch of its kind the setter's statement is the one that the whole `if` has with this id. */
  lemma {:induction false} BranchStmt(s: Stmt, kind: SetterKind, id: Id)
    requires s.If? && OnceIn(s, id) && kind != Normal && Once(BranchOf(s, kind), id)
    ensures StmtIn(s, id) == StmtWith(BranchOf(s, kind), id)
  {
    OnceIsIn(BranchOf(s, kind), id);
  }

  /** The state in which a selected stop statement is reached. */
  ghost function Arrival(env: Env, st: State, body: seq<Stmt>, kind: SetterKind, stop: Id): State
    requires Once(body, stop) && Selected(env, st, body, kind, stop)
    decreases body
  {
    var i := Place(body, stop);
    var st1 := WalkStmts(env, st, body[..i]);
    if body[i].If? then IfArrival(env, Enter(st1, body[i]), body[i], kind, stop) else st1
  }

  ghost function IfArrival(env: Env, st: State, s: Stmt, kind: SetterKind, stop: Id): State
    requires s.If? && IfSelected(env, st, s, kind, stop)
    decreases s
  {
    Arrival(env, WalkExpr(env, st, s.cond).0, BranchOf(s, kind), kind, stop)
  }

  /** A walk with a selected stop statement ends with it. */
  lemma {:induction false} EndsWithStop(env: Env, st: State, body: seq<Stmt>, kind: SetterKind, stop: Id)
    requires Once(body, stop) && StopsAt(st, stop) && BacktrackKind(st) == kind && kind != Normal
    requires Selected(env, st, body, kind, stop)
    ensures
      var at := Arrival(env, st, body, kind, stop);
      && StopsAt(at, stop) && |at.metas| == |st.metas|
      && WalkStmts(env, st, body) == WalkStmt(env, at, StmtWith(body, stop))
    decreases body
  {
    var i := Place(body, stop);
    var s, st1 := body[i], WalkStmts(env, st, body[..i]);
    AbsentAround(body, stop, i);
    AbsentStmts(env, st, body[..i], stop);
    OnceIf(s, stop);
    if s.If? {
      IfUnbroken(env, st1, s, stop);
      EnterSkips(st1, s, stop);
      IfEndsWithStop(env, Enter(st1, s), s, kind, stop);
    }
    NestedAt(env, st, body, kind, stop);
    WalkAround(env, st, body, i);
    BrokenStops(env, WalkStmt(env, st1, s), body[i + 1..]);
  }

  lemma {:induction false} IfEndsWithStop(env: Env, st: State, s: Stmt, kind: SetterKind, stop: Id)
    requires s.If? && OnceIn(s, stop) && StopsAt(st, stop) && BacktrackKind(st) == kind && kind != Normal
    requires IfSelected(env, st, s, kind, stop)
    ensures
      var at := IfArrival(env, st, s, kind, stop);
      && StopsAt(at, stop) && |at.metas| == |st.metas|
      && WalkIf(env, st, s) == WalkStmt(env, at, StmtIn(s, stop))
    decreases s, 0
  {
    ExprSkips(env, st, s.cond, stop);
    EndsWithStop(env, WalkExpr(env, st, s.cond).0, BranchOf(s, kind), kind, stop);
    BranchStmt(s, kind, stop);
  }

  /** A setter in an `if` whose stop statement a backtracking step from `st` selects. */
  ghost predicate Selects(env: Env, st: State, setter: Setter, stop: Id) {
    && setter.stmt < |env.body| && env.body[setter.stmt].If? && setter.kind != Normal
    && setter.stopped == Some(stop) && OnceIn(env.body[setter.stmt], stop)
    && IfSelected(env, Begun(env, st, setter), env.body[setter.stmt], setter.kind, stop)
  }

  ghost function Reached(env: Env, st: State, setter: Setter, stop: Id): State
    requires Selects(env, st, setter, stop)
  {
    IfArrival(env, Begun(env, st, setter), env.body[setter.stmt], setter.kind, stop)
  }

  /** Running a setter whose stop statement is selected ends with that statement. */
  lemma {:induction false} SetterEndsWithStop(env: Env, st: State, setter: Setter, stop: Id)
    requires Selects(env, st, setter, stop)
    ensures
      var at := Reached(env, st, setter, stop);
      && StopsAt(at, stop)
      && WalkSetter(env, st, setter).vars == WalkStmt(env, at, StmtIn(env.body[setter.stmt], stop)).vars
  {
    var s := env.body[setter.stmt];
    var deeper := st.(metas := st.metas + [Meta(setter.stopped, false, setter.kind)]);
    OnceIf(s, stop);
    IfUnbroken(env, deeper, s, stop);
    IfEndsWithStop(env, Enter(deeper, s), s, setter.kind, stop);
  }

  /** What an assignment stores when it is walked in a state that has not broken off. */
  ghost function Stored(env: Env, st: State, s: Stmt): Value
    requires !s.If?
  {
    var pushed := Enter(st, s).(targets := st.targets + [s.target]);
    match s
    case Assign(_, _, e) => WalkExpr(env, pushed, e).1
    case AugAssign(_, x, op, e) =>
      var (_, right, own) := AugOperands(env, pushed, x, e);
      env.sem.binary(op, own, right)
  }

  lemma {:induction false} StoreSets(env: Env, st: State, x: string, v: Value)
    ensures PopTarget(Store(env, st, x, v)).vars == st.vars[x := v]
  {
  }

  lemma {:induction false} EnteredStores(env: Env, st: State, s: Stmt)
    requires !s.If?
    ensures Variable(WalkEntered(env, Enter(st, s), s), s.target) == Stored(env, st, s)
  {
    var pushed := Enter(st, s).(targets := st.targets + [s.target]);
    match s
    case Assign(_, x, e) =>
      var (st1, v) := WalkExpr(env, pushed, e);
      StoreSets(env, st1, x, v);
      assert WalkEntered(env, Enter(st, s), s) == WalkAssign(env, Enter(st, s), x, e);
    case AugAssign(_, x, op, e) =>
      var (st1, right, own) := AugOperands(env, pushed, x, e);
      StoreSets(env, st1, x, env.sem.binary(op, own, right));
      assert WalkEntered(env, Enter(st, s), s) == WalkAugAssign(env, Enter(st, s), x, op, e);
  }

  lemma {:induction false} AssignStores(env: Env, st: State, s: Stmt)
    requires !s.If? && !Broken(st)
    ensures Variable(WalkStmt(env, st, s), s.target) == Stored(env, st, s)
  {
    EnteredStores(env, st, s);
    assert WalkStmt(env, st, s) == UpdateBreak(WalkEntered(env, Enter(st, s), s), s.id);
  }

  /**
   * A read that backtracks into an `if` of any nesting, with the setter's statement selected, yields and caches what
   * that statement stores for the name when the walk arrives at it.
   */
  lemma {:induction false} SelectedRead(env: Env, st: State, x: string, stop: Id)
    requires x in env.setters && Level(st, x) < |env.setters[x]|
    requires
      var setter := env.setters[x][|env.setters[x]| - (Level(st, x) + 1)];
      Selects(env, Deepen(st, x), setter, stop) && StmtIn(env.body[setter.stmt], stop).target == x
    ensures
      var setter := env.setters[x][|env.setters[x]| - (Level(st, x) + 1)];
      var (st', v) := Backtrack(env, st, x);
      && v == Stored(env, Reached(env, Deepen(st, x), setter, stop), StmtIn(env.body[setter.stmt], stop))
      && x in st'.cache && st'.cache[x] == v
  {
    var setter := env.setters[x][|env.setters[x]| - (Level(st, x) + 1)];
    var s := StmtIn(env.body[setter.stmt], stop);
    SetterEndsWithStop(env, Deepen(st, x), setter, stop);
    AssignStores(env, Reached(env, Deepen(st, x), setter, stop), s);
    BacktrackIs(env, st, x, WalkSetter(env, Deepen(st, x), setter));
  }
}
