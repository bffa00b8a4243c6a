/**
 * Backtracking into an `if` statement: only the setter's own branch runs, up to and including
 * the statement the setter stops at, whatever further backtracking that starts.
 */
module LazyBranch {
  import opened Values
  import opened LazySyntax
  import opened LazyMachine

  /** Ids of the statements executed under exactly `d` backtracking steps, in order. */
  function AtDepth(vs: seq<Visit>, d: nat): seq<Id> {
    if vs == [] then [] else
    var k := |vs| - 1;
    AtDepth(vs[..k], d) + (if vs[k].depth == d then [vs[k].id] else [])
  }

  lemma {:induction false} DeeperVisits(vs: seq<Visit>, ws: seq<Visit>, d: nat)
    requires vs <= ws && forall i :: |vs| <= i < |ws| ==> ws[i].depth > d
    ensures AtDepth(ws, d) == AtDepth(vs, d)
    decreases |ws|
  {
    if |ws| > |vs| {
      DeeperVisits(vs, ws[..|ws| - 1], d);
    } else {
      assert ws == vs;
    }
  }

  /** A branch without nested `if` statements. */
  predicate Flat(branch: seq<Stmt>) {
    forall i :: 0 <= i < |branch| ==> !branch[i].If?
  }

  /** The top backtracking step is still running and stops at the statement `id`. */
  predicate StopsAt(st: State, id: Id) {
    st.metas != [] && var m := st.metas[|st.metas| - 1]; !m.isBreak && m.stopped == Some(id)
  }

  /** After the stop nothing runs any more. */
  lemma {:induction false} BrokenStops(env: Env, st: State, branch: seq<Stmt>)
    requires Broken(st)
    ensures WalkStmts(env, st, branch) == st
    decreases |branch|
  {
    if branch != [] {
      BrokenStops(env, st, branch[1..]);
    }
  }

  lemma {:induction false} LeafVisit(env: Env, st: State, s: Stmt, stop: Id)
    requires !s.If? && StopsAt(st, stop)
    ensures
      var st' := WalkStmt(env, st, s);
      && AtDepth(st'.visits, |st.metas|) == AtDepth(st.visits, |st.metas|) + [s.id]
      && |st'.metas| == |st.metas|
      && if s.id == stop then Broken(st') else StopsAt(st', stop)
  {
    var st1 := Enter(st, s);
    assert st1.visits[..|st.visits|] == st.visits;
    var st2 := WalkEntered(env, st1, s);
    assert Kept(env, st1, st2, |st.metas| + 1) && st2.metas == st.metas;
    DeeperVisits(st1.visits, st2.visits, |st.metas|);
  }

  lemma {:induction false} WalkCons(env: Env, st: State, branch: seq<Stmt>)
    requires branch != []
    ensures WalkStmts(env, st, branch) == WalkStmts(env, WalkStmt(env, st, branch[0]), branch[1..])
  {
  }

  lemma {:induction false} Regroup(a: seq<Id>, id: Id, b: seq<Id>)
    ensures a + [id] + b == a + ([id] + b)
  {
  }

  /** A flat branch runs up to and including its stop statement. */
  lemma {:induction false} BranchRun(env: Env, st: State, branch: seq<Stmt>, j: nat)
    requires Flat(branch) && j < |branch| && StopsAt(st, branch[j].id)
    requires forall i :: 0 <= i < j ==> branch[i].id != branch[j].id
    ensures
      var st' := WalkStmts(env, st, branch);
      AtDepth(st'.visits, |st.metas|) == AtDepth(st.visits, |st.metas|) + IdsOf(branch[..j + 1])
    decreases |branch|
  {
    var st1, rest := WalkStmt(env, st, branch[0]), branch[1..];
    LeafVisit(env, st, branch[0], branch[j].id);
    IdsCons(branch, j);
    WalkCons(env, st, branch);
    var before := AtDepth(st.visits, |st.metas|);
    if j == 0 {
      BrokenStops(env, st1, rest);
    } else {
      assert rest[j - 1] == branch[j] && Flat(rest);
      BranchRun(env, st1, rest, j - 1);
      Regroup(before, branch[0].id, IdsOf(rest[..j]));
    }
  }

  lemma {:induction false} IdsCons(branch: seq<Stmt>, j: nat)
    requires j < |branch|
    ensures IdsOf(branch[..j + 1]) == [branch[0].id] + IdsOf(branch[1..][..j])
    ensures j == 0 ==> IdsOf(branch[..1]) == [branch[0].id]
  {
  }

  /** The branch of an `if` statement that a setter of this kind runs. */
  function BranchOf(s: Stmt, kind: SetterKind): seq<Stmt>
    requires s.If?
  {
    if kind.OrElse? then s.orelse else s.body
  }

  lemma {:induction false} IfRun(env: Env, st: State, s: Stmt, kind: SetterKind, j: nat)
    requires s.If? && kind != Normal && BacktrackKind(st) == kind
    requires var branch := BranchOf(s, kind); Flat(branch) && j < |branch| && StopsAt(st, branch[j].id)
    requires var branch := BranchOf(s, kind); forall i :: 0 <= i < j ==> branch[i].id != branch[j].id
    ensures
      var truth := env.sem.truthy(WalkExpr(env, st, s.cond).1);
      AtDepth(WalkIf(env, st, s).visits, |st.metas|) ==
        AtDepth(st.visits, |st.metas|) +
        if truth == kind.IfBranch? then IdsOf(BranchOf(s, kind)[..j + 1]) else []
  {
    var (st1, c) := WalkExpr(env, st, s.cond);
    DeeperVisits(st.visits, st1.visits, |st.metas|);
    if env.sem.truthy(c) == kind.IfBranch? {
      BranchRun(env, st1, BranchOf(s, kind), j);
    }
  }

  /**
   * A backtracking step through an `if` setter executes the `if` statement and, when the
   * condition selects the setter's branch, exactly the branch's statements up to and including
   * the stop point; and it leaves the stack of backtracking steps as it was.
   */
  lemma {:induction false} IfSetterRunsToStop(env: Env, st: State, setter: Setter, j: nat)
    requires setter.stmt < |env.body| && env.body[setter.stmt].If? && setter.kind != Normal
    requires
      var branch := BranchOf(env.body[setter.stmt], setter.kind);
      && Flat(branch) && j < |branch| && setter.stopped == Some(branch[j].id)
      && env.body[setter.stmt].id != branch[j].id
      && forall i :: 0 <= i < j ==> branch[i].id != branch[j].id
    ensures
      var s := env.body[setter.stmt];
      var st1 := Enter(st.(metas := st.metas + [Meta(setter.stopped, false, setter.kind)]), s);
      var truth := env.sem.truthy(WalkExpr(env, st1, s.cond).1);
      var st' := WalkSetter(env, st, setter);
      && AtDepth(st'.visits, |st.metas| + 1) ==
           AtDepth(st.visits, |st.metas| + 1) + [s.id] +
           (if truth == setter.kind.IfBranch? then IdsOf(BranchOf(s, setter.kind)[..j + 1]) else [])
      && st'.metas == st.metas
  {
    var s := env.body[setter.stmt];
    var deeper := st.(metas := st.metas + [Meta(setter.stopped, false, setter.kind)]);
    var st1 := Enter(deeper, s);
    assert st1.visits[..|st.visits|] == st.visits;
    IfRun(env, st1, s, setter.kind, j);
    IfSetterVisits(env, st, setter);
  }

  lemma {:induction false} IfSetterVisits(env: Env, st: State, setter: Setter)
    requires setter.stmt < |env.body| && env.body[setter.stmt].If?
    ensures
      var s := env.body[setter.stmt];
      var deeper := st.(metas := st.metas + [Meta(setter.stopped, false, setter.kind)]);
      WalkSetter(env, st, setter).visits == WalkIf(env, Enter(deeper, s), s).visits
  {
    var s := env.body[setter.stmt];
    var deeper := st.(metas := st.metas + [Meta(setter.stopped, false, setter.kind)]);
    assert WalkEntered(env, Enter(deeper, s), s) == WalkIf(env, Enter(deeper, s), s);
    assert WalkStmt(env, deeper, s).visits == WalkEntered(env, Enter(deeper, s), s).visits;
  }
}
