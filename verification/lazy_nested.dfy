/**
 * Backtracking into nested `if` statements, such as an `elif`: the kind of the outermost branch decides at
 * every nested `if` as well, so a setter inside the other branch of one of them never runs.
 */
module LazyNested {
  import opened Values
  import opened LazySyntax
  import opened LazyEmit
  import opened LazyMachine
  import opened LazyBranch

  /** The ids of a statement and of all statements inside it. */
  function Ids(s: Stmt): set<Id> {
    {s.id} + if s.If? then AllIds(s.body) + AllIds(s.orelse) else {}
  }

  function AllIds(body: seq<Stmt>): set<Id> {
    set i, id | 0 <= i < |body| && id in Ids(body[i]) :: id
  }

  /** An assignment with this id stands once in the statements, at whatever depth. */
  ghost predicate Once(body: seq<Stmt>, id: Id)
    decreases body
  {
    exists i :: 0 <= i < |body| && OnceIn(body[i], id) && Elsewhere(body, id, i)
  }

  ghost predicate Elsewhere(body: seq<Stmt>, id: Id, i: nat) {
    forall j :: 0 <= j < |body| && j != i ==> id !in Ids(body[j])
  }

  ghost predicate OnceIn(s: Stmt, id: Id)
    decreases s
  {
    match s
    case Assign(id', _, _) => id' == id
    case AugAssign(id', _, _, _) => id' == id
    case If(id', _, body, orelse) =>
      && id' != id
      && if id in AllIds(body) then Once(body, id) && id !in AllIds(orelse) else Once(orelse, id)
  }

  /** Where in the statements it stands. */
  ghost function Place(body: seq<Stmt>, id: Id): (i: nat)
    requires Once(body, id)
    ensures i < |body| && OnceIn(body[i], id) && Elsewhere(body, id, i)
  {
    var i :| 0 <= i < |body| && OnceIn(body[i], id) && Elsewhere(body, id, i);
    i
  }

  lemma {:induction false} OnceIf(s: Stmt, id: Id)
    requires OnceIn(s, id)
    ensures s.If? <==> s.id != id
  {
  }

  // ---- what a walk at one depth executes ----

  /** The ids executed between `st` and `st'` at the depth of `st`. */
  function Ran(st: State, st': State): seq<Id> {
    var d := |st.metas|;
    var a, b := AtDepth(st.visits, d), AtDepth(st'.visits, d);
    if |a| <= |b| then b[|a|..] else []
  }

  ghost predicate Onward(st: State, st': State) {
    && |st'.metas| == |st.metas| && BacktrackKind(st') == BacktrackKind(st)
    && AtDepth(st.visits, |st.metas|) <= AtDepth(st'.visits, |st.metas|)
  }

  /** The walk went on without the stop statement. */
  ghost predicate Skipped(st: State, st': State, stop: Id) {
    Onward(st, st') && StopsAt(st', stop) && stop !in Ran(st, st')
  }

  /** The walk executed the stop statement, and that last of all. */
  ghost predicate Ended(st: State, st': State, stop: Id) {
    && Onward(st, st') && Broken(st')
    && var ran := Ran(st, st'); ran != [] && ran[|ran| - 1] == stop && stop !in ran[..|ran| - 1]
  }

  lemma {:induction false} RanAppend(a: State, b: State, c: State)
    requires Onward(a, b) && Onward(b, c)
    ensures Onward(a, c) && Ran(a, c) == Ran(a, b) + Ran(b, c)
  {
  }

  lemma {:induction false} SkippedOn(a: State, b: State, c: State, stop: Id)
    requires Skipped(a, b, stop) && Skipped(b, c, stop)
    ensures Skipped(a, c, stop)
  {
    RanAppend(a, b, c);
  }

  lemma {:induction false} EndedOn(a: State, b: State, c: State, stop: Id)
    requires Skipped(a, b, stop) && Ended(b, c, stop)
    ensures Ended(a, c, stop)
  {
    RanAppend(a, b, c);
    var r := Ran(b, c);
    var k := |r| - 1;
    assert (Ran(a, b) + r)[..|Ran(a, b)| + k] == Ran(a, b) + r[..k];
  }

  lemma {:induction false} SkippedSelf(st: State, stop: Id)
    requires StopsAt(st, stop)
    ensures Skipped(st, st, stop)
  {
  }

  /** Evaluating an expression executes nothing at this depth. */
  lemma {:induction false} ExprSkips(env: Env, st: State, e: Expr, stop: Id)
    requires StopsAt(st, stop)
    ensures Skipped(st, WalkExpr(env, st, e).0, stop)
  {
    DeeperVisits(st.visits, WalkExpr(env, st, e).0.visits, |st.metas|);
  }

  lemma {:induction false} EnterSkips(st: State, s: Stmt, stop: Id)
    requires StopsAt(st, stop) && s.id != stop
    ensures Skipped(st, Enter(st, s), stop)
  {
    assert Enter(st, s).visits[..|st.visits|] == st.visits;
  }

  lemma {:induction false} LeafSkips(env: Env, st: State, s: Stmt, stop: Id)
    requires !s.If? && StopsAt(st, stop) && s.id != stop
    ensures Skipped(st, WalkStmt(env, st, s), stop)
  {
    LeafVisit(env, st, s, stop);
  }

  lemma {:induction false} LeafEnds(env: Env, st: State, s: Stmt)
    requires !s.If? && StopsAt(st, s.id)
    ensures Ended(st, WalkStmt(env, st, s), s.id)
  {
    LeafVisit(env, st, s, s.id);
  }

  // ---- statements without the stop ----

  lemma {:induction false} AbsentStmt(env: Env, st: State, s: Stmt, stop: Id)
    requires stop !in Ids(s) && StopsAt(st, stop)
    ensures Skipped(st, WalkStmt(env, st, s), stop)
    decreases s
  {
    if s.If? {
      AbsentIf(env, Enter(st, s), s, stop);
      EnterSkips(st, s, stop);
      SkippedOn(st, Enter(st, s), WalkIf(env, Enter(st, s), s), stop);
    } else {
      LeafSkips(env, st, s, stop);
    }
  }

  lemma {:induction false} AbsentIf(env: Env, st: State, s: Stmt, stop: Id)
    requires s.If? && stop !in Ids(s) && StopsAt(st, stop)
    ensures Skipped(st, WalkIf(env, st, s), stop)
    decreases s, 0
  {
    var st1 := WalkExpr(env, st, s.cond).0;
    ExprSkips(env, st, s.cond, stop);
    AbsentBranch(env, st, st1, s.body, stop);
    AbsentBranch(env, st, st1, s.orelse, stop);
  }

  lemma {:induction false} AbsentBranch(env: Env, st: State, st1: State, branch: seq<Stmt>, stop: Id)
    requires Skipped(st, st1, stop) && stop !in AllIds(branch)
    ensures Skipped(st, WalkStmts(env, st1, branch), stop)
    decreases branch, 1
  {
    AbsentStmts(env, st1, branch, stop);
    SkippedOn(st, st1, WalkStmts(env, st1, branch), stop);
  }

  lemma {:induction false} AbsentStmts(env: Env, st: State, body: seq<Stmt>, stop: Id)
    requires stop !in AllIds(body) && StopsAt(st, stop)
    ensures Skipped(st, WalkStmts(env, st, body), stop)
    decreases body, 0
  {
    if body == [] {
      SkippedSelf(st, stop);
    } else {
      var st1 := WalkStmt(env, st, body[0]);
      AbsentStmt(env, st, body[0], stop);
      AbsentRest(body, stop);
      AbsentStmts(env, st1, body[1..], stop);
      SkippedOn(st, st1, WalkStmts(env, st1, body[1..]), stop);
      WalkCons(env, st, body);
    }
  }

  lemma {:induction false} AbsentRest(body: seq<Stmt>, stop: Id)
    requires body != [] && stop !in AllIds(body)
    ensures stop !in AllIds(body[1..])
  {
    forall i | 0 <= i < |body[1..]| ensures stop !in Ids(body[1..][i]) {
      assert body[1..][i] == body[i + 1];
    }
  }

  // ---- the stop among them ----

  lemma {:induction false} WalkAppend(env: Env, st: State, a: seq<Stmt>, b: seq<Stmt>)
    ensures WalkStmts(env, st, a + b) == WalkStmts(env, WalkStmts(env, st, a), b)
    decreases |a|
  {
    if a == [] {
      assert a + b == b;
    } else {
      assert (a + b)[1..] == a[1..] + b;
      WalkAppend(env, WalkStmt(env, st, a[0]), a[1..], b);
    }
  }

  /** A walk up to statement `i`, through it and on. */
  lemma {:induction false} WalkAround(env: Env, st: State, body: seq<Stmt>, i: nat)
    requires i < |body|
    ensures
      var st1 := WalkStmts(env, st, body[..i]);
      WalkStmts(env, st, body) == WalkStmts(env, WalkStmt(env, st1, body[i]), body[i + 1..])
  {
    assert body == body[..i] + body[i..] && body[i..][1..] == body[i + 1..];
    WalkAppend(env, st, body[..i], body[i..]);
    WalkCons(env, WalkStmts(env, st, body[..i]), body[i..]);
  }

  lemma {:induction false} AbsentAround(body: seq<Stmt>, stop: Id, i: nat)
    requires i < |body| && Elsewhere(body, stop, i)
    ensures stop !in AllIds(body[..i]) && stop !in AllIds(body[i + 1..])
  {
    var rest := body[i + 1..];
    forall j | 0 <= j < |rest| ensures stop !in Ids(rest[j]) {
      assert rest[j] == body[i + 1 + j];
    }
  }

  /**
   * Every `if` on the way to the stop statement has it in the branch of the setter's kind, and its condition,
   * when the walk gets there, selects that branch.
   */
  ghost predicate Selected(env: Env, st: State, body: seq<Stmt>, kind: SetterKind, stop: Id)
    requires Once(body, stop)
    decreases body
  {
    var i := Place(body, stop);
    body[i].If? ==> IfSelected(env, Enter(WalkStmts(env, st, body[..i]), body[i]), body[i], kind, stop)
  }

  /** The same for an `if` that has just been entered. */
  ghost predicate IfSelected(env: Env, st: State, s: Stmt, kind: SetterKind, stop: Id)
    requires s.If?
    decreases s
  {
    var (st1, c) := WalkExpr(env, st, s.cond);
    && Once(BranchOf(s, kind), stop)
    && env.sem.truthy(c) == kind.IfBranch?
    && Selected(env, st1, BranchOf(s, kind), kind, stop)
  }

  /** A walk through the statements executes the stop exactly when it is selected, and then last of all. */
  lemma {:induction false} NestedRun(env: Env, st: State, body: seq<Stmt>, kind: SetterKind, stop: Id)
    requires Once(body, stop) && StopsAt(st, stop) && BacktrackKind(st) == kind && kind != Normal
    ensures
      var st' := WalkStmts(env, st, body);
      if Selected(env, st, body, kind, stop) then Ended(st, st', stop) else Skipped(st, st', stop)
    decreases body
  {
    var i := Place(body, stop);
    var st1 := WalkStmts(env, st, body[..i]);
    var st2 := WalkStmt(env, st1, body[i]);
    AbsentAround(body, stop, i);
    AbsentStmts(env, st, body[..i], stop);
    NestedAt(env, st, body, kind, stop);
    WalkAround(env, st, body, i);
    if Selected(env, st, body, kind, stop) {
      EndedOn(st, st1, st2, stop);
      BrokenStops(env, st2, body[i + 1..]);
    } else {
      AbsentStmts(env, st2, body[i + 1..], stop);
      SkippedOn(st, st1, st2, stop);
      SkippedOn(st, st2, WalkStmts(env, st2, body[i + 1..]), stop);
    }
  }

  lemma {:induction false} NestedAt(env: Env, st: State, body: seq<Stmt>, kind: SetterKind, stop: Id)
    requires Once(body, stop) && BacktrackKind(st) == kind && kind != Normal
    requires Skipped(st, WalkStmts(env, st, body[..Place(body, stop)]), stop)
    ensures
      var i := Place(body, stop);
      var st1 := WalkStmts(env, st, body[..i]);
      var st2 := WalkStmt(env, st1, body[i]);
      if Selected(env, st, body, kind, stop) then Ended(st1, st2, stop) else Skipped(st1, st2, stop)
    decreases body, 0
  {
    var i := Place(body, stop);
    var s, st1 := body[i], WalkStmts(env, st, body[..i]);
    OnceIf(s, stop);
    if s.If? {
      NestedStmt(env, st1, s, kind, stop);
    } else {
      LeafEnds(env, st1, s);
    }
  }

  lemma {:induction false} NestedStmt(env: Env, st: State, s: Stmt, kind: SetterKind, stop: Id)
    requires s.If? && OnceIn(s, stop) && StopsAt(st, stop) && BacktrackKind(st) == kind && kind != Normal
    ensures
      var st' := WalkStmt(env, st, s);
      if IfSelected(env, Enter(st, s), s, kind, stop) then Ended(st, st', stop) else Skipped(st, st', stop)
    decreases s, 1
  {
    var entered := Enter(st, s);
    OnceIf(s, stop);
    EnterSkips(st, s, stop);
    NestedIf(env, entered, s, kind, stop);
    IfUnbroken(env, st, s, stop);
    if IfSelected(env, entered, s, kind, stop) {
      EndedOn(st, entered, WalkIf(env, entered, s), stop);
    } else {
      SkippedOn(st, entered, WalkIf(env, entered, s), stop);
    }
  }

  lemma {:induction false} IfUnbroken(env: Env, st: State, s: Stmt, stop: Id)
    requires s.If? && s.id != stop && StopsAt(st, stop)
    ensures WalkStmt(env, st, s) == WalkIf(env, Enter(st, s), s)
  {
  }

  lemma {:induction false} NestedIf(env: Env, st: State, s: Stmt, kind: SetterKind, stop: Id)
    requires s.If? && OnceIn(s, stop) && StopsAt(st, stop) && BacktrackKind(st) == kind && kind != Normal
    ensures
      var st' := WalkIf(env, st, s);
      if IfSelected(env, st, s, kind, stop) then Ended(st, st', stop) else Skipped(st, st', stop)
    decreases s, 0
  {
    var (st1, c) := WalkExpr(env, st, s.cond);
    var branch := BranchOf(s, kind);
    ExprSkips(env, st, s.cond, stop);
    if env.sem.truthy(c) == kind.IfBranch? {
      if Once(branch, stop) {
        NestedRun(env, st1, branch, kind, stop);
        if Selected(env, st1, branch, kind, stop) {
          EndedOn(st, st1, WalkStmts(env, st1, branch), stop);
        } else {
          SkippedOn(st, st1, WalkStmts(env, st1, branch), stop);
        }
      } else {
        AbsentStmts(env, st1, branch, stop);
        SkippedOn(st, st1, WalkStmts(env, st1, branch), stop);
      }
    }
  }

  // ---- a whole backtracking step ----

  /** The state of a backtracking step that has entered the statement of its setter. */
  ghost function Begun(env: Env, st: State, setter: Setter): State
    requires setter.stmt < |env.body|
  {
    Enter(st.(metas := st.metas + [Meta(setter.stopped, false, setter.kind)]), env.body[setter.stmt])
  }

  /** What a backtracking step through this setter executes at its own depth, the setter's statement included. */
  function Executed(env: Env, st: State, setter: Setter): seq<Id> {
    var d := |st.metas| + 1;
    var a, b := AtDepth(st.visits, d), AtDepth(WalkSetter(env, st, setter).visits, d);
    if |a| <= |b| then b[|a|..] else []
  }

  /**
   * A backtracking step through a setter in an `if` of any nesting executes the setter's stop statement if and
   * only if the condition of every `if` on the way selects the branch of the outermost kind and the stop
   * statement is there; it is then the last statement the step executes, and it executes it once.
   */
  lemma {:induction false} NestedSetterRunsToStop(env: Env, st: State, setter: Setter, stop: Id)
    requires setter.stmt < |env.body| && env.body[setter.stmt].If? && setter.kind != Normal
    requires setter.stopped == Some(stop) && OnceIn(env.body[setter.stmt], stop)
    ensures
      var s, ran := env.body[setter.stmt], Executed(env, st, setter);
      && (stop in ran <==> IfSelected(env, Begun(env, st, setter), s, setter.kind, stop))
      && (stop in ran ==> ran[|ran| - 1] == stop && stop !in ran[..|ran| - 1])
      && WalkSetter(env, st, setter).metas == st.metas
  {
    var deeper := st.(metas := st.metas + [Meta(setter.stopped, false, setter.kind)]);
    NestedStmt(env, deeper, env.body[setter.stmt], setter.kind, stop);
    assert WalkSetter(env, st, setter).visits == WalkStmt(env, deeper, env.body[setter.stmt]).visits;
  }

  /** The stop statement stands, through every nested `if`, in the branch of this kind. */
  ghost predicate InBranches(body: seq<Stmt>, kind: SetterKind, stop: Id)
    requires Once(body, stop)
    decreases body
  {
    var s := body[Place(body, stop)];
    s.If? ==> Once(BranchOf(s, kind), stop) && InBranches(BranchOf(s, kind), kind, stop)
  }

  lemma {:induction false} SelectedInBranches(env: Env, st: State, body: seq<Stmt>, kind: SetterKind, stop: Id)
    requires Once(body, stop) && Selected(env, st, body, kind, stop)
    ensures InBranches(body, kind, stop)
    decreases body
  {
    var i := Place(body, stop);
    if body[i].If? {
      var st1 := WalkExpr(env, Enter(WalkStmts(env, st, body[..i]), body[i]), body[i].cond).0;
      SelectedInBranches(env, st1, BranchOf(body[i], kind), kind, stop);
    }
  }

  /** A setter with one nested `if` on the way whose other branch it stands in never runs. */
  lemma {:induction false} OtherBranchNeverRuns(env: Env, st: State, setter: Setter, stop: Id)
    requires setter.stmt < |env.body| && env.body[setter.stmt].If? && setter.kind != Normal
    requires setter.stopped == Some(stop) && OnceIn(env.body[setter.stmt], stop)
    requires
      var branch := BranchOf(env.body[setter.stmt], setter.kind);
      Once(branch, stop) && !InBranches(branch, setter.kind, stop)
    ensures stop !in Executed(env, st, setter)
  {
    var s, begun := env.body[setter.stmt], Begun(env, st, setter);
    NestedSetterRunsToStop(env, st, setter, stop);
    if IfSelected(env, begun, s, setter.kind, stop) {
      SelectedInBranches(env, WalkExpr(env, begun, s.cond).0, BranchOf(s, setter.kind), setter.kind, stop);
    }
  }

  // ---- emitted setters ----

  /** All ids in the statements differ, at whatever depth. */
  ghost predicate Unique(body: seq<Stmt>)
    decreases body
  {
    && (forall i :: 0 <= i < |body| ==> UniqueIn(body[i]))
    && forall i, j :: 0 <= i < |body| && 0 <= j < |body| && i != j ==> Ids(body[i]) !! Ids(body[j])
  }

  ghost predicate UniqueIn(s: Stmt)
    decreases s
  {
    s.If? ==>
      && s.id !in AllIds(s.body) + AllIds(s.orelse) && AllIds(s.body) !! AllIds(s.orelse)
      && Unique(s.body) && Unique(s.orelse)
  }

  lemma {:induction false} LeafPlace(body: seq<Stmt>, o: Occurrence) returns (i: nat)
    requires o in Leaves(body)
    ensures i < |body| && o in LeavesOf(body[i])
    decreases |body|
  {
    var k := |body| - 1;
    if o in LeavesOf(body[k]) {
      i := k;
    } else {
      i := LeafPlace(body[..k], o);
    }
  }

  lemma {:induction false} LeafId(s: Stmt, o: Occurrence)
    requires o in LeavesOf(s)
    ensures o.id in Ids(s)
    decreases s
  {
    if s.If? {
      if o in Leaves(s.body) {
        LeafIds(s.body, o);
      } else {
        LeafIds(s.orelse, o);
      }
    }
  }

  lemma {:induction false} LeafIds(body: seq<Stmt>, o: Occurrence)
    requires o in Leaves(body)
    ensures o.id in AllIds(body)
    decreases body
  {
    var i := LeafPlace(body, o);
    LeafId(body[i], o);
  }

  lemma {:induction false} LeafOnce(body: seq<Stmt>, o: Occurrence)
    requires Unique(body) && o in Leaves(body)
    ensures Once(body, o.id)
    decreases body
  {
    var i := LeafPlace(body, o);
    LeafId(body[i], o);
    LeafOnceIn(body[i], o);
    assert Elsewhere(body, o.id, i);
  }

  lemma {:induction false} LeafOnceIn(s: Stmt, o: Occurrence)
    requires UniqueIn(s) && o in LeavesOf(s)
    ensures OnceIn(s, o.id)
    decreases s
  {
    if s.If? {
      if o in Leaves(s.body) {
        LeafIds(s.body, o);
        LeafOnce(s.body, o);
      } else {
        LeafIds(s.orelse, o);
        LeafOnce(s.orelse, o);
      }
    }
  }

  /** Every emitted setter in an `if` is as the results above need it. */
  lemma {:induction false} EmittedOnce(body: seq<Stmt>, x: string, k: nat)
    requires Unique(body) && x in SetterTable(body) && k < |SetterTable(body)[x]|
    requires SetterTable(body)[x][k].kind != Normal
    ensures
      var setter := SetterTable(body)[x][k];
      && setter.stmt < |body| && body[setter.stmt].If? && setter.stopped.Some?
      && OnceIn(body[setter.stmt], setter.stopped.value)
      && Once(BranchOf(body[setter.stmt], setter.kind), setter.stopped.value)
  {
    var setter := SetterTable(body)[x][k];
    EmissionIsTagged(body, x, k);
    var s, o := body[setter.stmt], Occurrence(x, setter.stopped.value);
    assert UniqueIn(s);
    LeafOnceIn(s, o);
    LeafOnce(BranchOf(s, setter.kind), o);
  }

  // ---- elif ----

  lemma {:induction false} OnceIsIn(body: seq<Stmt>, id: Id)
    requires Once(body, id)
    ensures id in AllIds(body)
    decreases body
  {
    OnceInIsIn(body[Place(body, id)], id);
  }

  lemma {:induction false} OnceInIsIn(s: Stmt, id: Id)
    requires OnceIn(s, id)
    ensures id in Ids(s)
    decreases s
  {
    if s.If? && id !in AllIds(s.body) {
      OnceIsIn(s.orelse, id);
    }
  }

  /** An `elif` is an `if` in the else part, whose body a setter of the else part never enters. */
  lemma {:induction false} ElifNeverRuns(env: Env, st: State, setter: Setter, stop: Id)
    requires setter.stmt < |env.body| && env.body[setter.stmt].If? && setter.kind.OrElse?
    requires setter.stopped == Some(stop) && OnceIn(env.body[setter.stmt], stop)
    requires
      var orelse := env.body[setter.stmt].orelse;
      |orelse| == 1 && orelse[0].If? && stop in AllIds(orelse[0].body)
    ensures stop !in Executed(env, st, setter)
  {
    var s := env.body[setter.stmt];
    var elif := s.orelse[0];
    assert stop in Ids(s.orelse[0]);
    assert Once(s.orelse, stop) && Place(s.orelse, stop) == 0;
    if Once(elif.orelse, stop) {
      OnceIsIn(elif.orelse, stop);
    }
    OtherBranchNeverRuns(env, st, setter, stop);
  }

  /** `if no: x = v` with `elif yes: x = w`. */
  function Elif(x: string, no: Value, v: Value, yes: Value, w: Value): Stmt {
    If(1, Lit(no), [Assign(2, x, Lit(v))], [If(3, Lit(yes), [Assign(4, x, Lit(w))], [])])
  }

  /** `y = x` before it. */
  function ElifBody(y: string, x: string, no: Value, v: Value, yes: Value, w: Value): seq<Stmt> {
    [Assign(0, y, Name(x)), Elif(x, no, v, yes, w)]
  }

  lemma {:induction false} OneLeaf(id: Id, x: string, e: Expr)
    ensures Leaves([Assign(id, x, e)]) == [Occurrence(x, id)]
  {
    assert [Assign(id, x, e)][..0] == [];
    assert Leaves([]) == [];
  }

  lemma {:induction false} ElifLeaves(s: Stmt)
    requires s.If?
    ensures Leaves([s]) == Leaves(s.body) + Leaves(s.orelse)
  {
    assert [s][..0] == [];
    assert Leaves([]) == [];
  }

  /** The setters of the `elif` statement at index 1. */
  lemma {:induction false} ElifBindings(x: string, no: Value, v: Value, yes: Value, w: Value)
    ensures StmtBindings(Elif(x, no, v, yes, w), 1) ==
      [Binding(x, Setter(1, 1, Some(2), IfBranch)), Binding(x, Setter(1, 1, Some(4), SetterKind.OrElse))]
  {
    var s := Elif(x, no, v, yes, w);
    OneLeaf(2, x, Lit(v));
    OneLeaf(4, x, Lit(w));
    ElifLeaves(s.orelse[0]);
    assert Leaves([]) == [];
  }

  lemma {:induction false} TwoBindings(s: Stmt, t: Stmt)
    ensures BodyBindings([s, t]) == StmtBindings(s, 0) + StmtBindings(t, 1)
  {
    assert [s, t][..1] == [s] && [s][..0] == [];
    assert BodyBindings([]) == [];
    assert BodyBindings([s]) == StmtBindings(s, 0);
  }

  lemma {:induction false} ElifSetters(y: string, x: string, no: Value, v: Value, yes: Value, w: Value)
    requires x != y
    ensures
      var m := SetterTable(ElifBody(y, x, no, v, yes, w));
      x in m && m[x] == [Setter(1, 1, Some(2), IfBranch), Setter(1, 1, Some(4), SetterKind.OrElse)]
  {
    var a, b, c := Binding(y, Setter(0, 0, Option.None, Normal)), Binding(x, Setter(1, 1, Some(2), IfBranch)),
      Binding(x, Setter(1, 1, Some(4), SetterKind.OrElse));
    TwoBindings(Assign(0, y, Name(x)), Elif(x, no, v, yes, w));
    ElifBindings(x, no, v, yes, w);
    assert BodyBindings(ElifBody(y, x, no, v, yes, w)) == [a] + [b, c];
    TableOfThree(a, b, c);
  }

  lemma {:induction false} TableOfThree(a: Binding, b: Binding, c: Binding)
    requires a.name != b.name == c.name
    ensures
      var m := PushAll(map[], [a] + [b, c]);
      b.name in m && m[b.name] == [b.setter, c.setter]
  {
    assert [a] + [b, c] == [a, b, c];
    SelectThree(a, b, c);
    TableAt([a, b, c], b.name);
  }

  lemma {:induction false} SelectThree(a: Binding, b: Binding, c: Binding)
    requires a.name != b.name == c.name
    ensures Select([a, b, c], b.name) == [b.setter, c.setter]
  {
    var x := b.name;
    assert [a, b, c][..2] == [a, b] && [a, b][..1] == [a] && [a][..0] == [];
    assert Select([], x) == [] && Select([a], x) == [];
    assert Select([a, b], x) == [b.setter];
  }

  lemma {:induction false} WalkOne(env: Env, st: State, s: Stmt)
    ensures WalkStmts(env, st, [s]) == WalkStmt(env, st, s)
  {
    assert [s][1..] == [];
    assert WalkStmts(env, WalkStmt(env, st, s), []) == WalkStmt(env, st, s);
  }

  /** Backtracking through the `elif` setter leaves the variables as they are. */
  lemma {:induction false} ElifWalk(
    env: Env, st: State, setter: Setter, x: string, no: Value, v: Value, yes: Value, w: Value)
    requires setter == Setter(1, 1, Some(4), SetterKind.OrElse)
    requires |env.body| == 2 && env.body[1] == Elif(x, no, v, yes, w)
    requires !env.sem.truthy(no) && env.sem.truthy(yes)
    ensures WalkSetter(env, st, setter).vars == st.vars
  {
    var s := env.body[1];
    var begun := Begun(env, st, setter);
    var inner := Enter(begun, s.orelse[0]);
    assert WalkIf(env, inner, s.orelse[0]) == inner;
    assert WalkStmt(env, begun, s.orelse[0]) == inner;
    WalkOne(env, begun, s.orelse[0]);
    assert WalkIf(env, begun, s) == WalkStmts(env, begun, [s.orelse[0]]);
    var deeper := st.(metas := st.metas + [Meta(setter.stopped, false, setter.kind)]);
    assert WalkStmt(env, deeper, s) == WalkIf(env, begun, s);
  }

  lemma {:induction false} MainAssign(env: Env, st: State, id: Id, x: string, v: Value)
    requires st.metas == []
    ensures
      var st' := WalkStmts(env, st, [Assign(id, x, Lit(v))]);
      st'.metas == [] && Variable(st', x) == v && forall y :: y != x ==> Variable(st', y) == Variable(st, y)
  {
    var s := Assign(id, x, Lit(v));
    WalkOne(env, st, s);
    assert WalkStmt(env, st, s) == WalkAssign(env, Enter(st, s), x, Lit(v));
    AssignLit(env, Enter(st, s), x, v);
  }

  lemma {:induction false} AssignLit(env: Env, st: State, x: string, v: Value)
    ensures WalkAssign(env, st, x, Lit(v)).vars == st.vars[x := v]
  {
    var pushed := st.(targets := st.targets + [x]);
    assert WalkExpr(env, pushed, Lit(v)) == (pushed, v);
  }

  lemma {:induction false} MainIf(env: Env, st: State, s: Stmt)
    requires st.metas == [] && s.If? && s.cond.Lit?
    ensures WalkStmt(env, st, s) ==
      WalkStmts(env, Enter(st, s), if env.sem.truthy(s.cond.value) then s.body else s.orelse)
  {
    assert WalkStmt(env, st, s) == WalkIf(env, Enter(st, s), s);
    assert WalkExpr(env, Enter(st, s), s.cond) == (Enter(st, s), s.cond.value);
  }

  /** The main walk, in contrast, executes the assignment of the `elif`. */
  lemma {:induction false} ElifMain(env: Env, st: State, x: string, no: Value, v: Value, yes: Value, w: Value)
    requires st.metas == [] && !env.sem.truthy(no) && env.sem.truthy(yes)
    ensures
      var st' := WalkStmt(env, st, Elif(x, no, v, yes, w));
      Variable(st', x) == w && forall y :: y != x ==> Variable(st', y) == Variable(st, y)
  {
    var s := Elif(x, no, v, yes, w);
    var elif := s.orelse[0];
    var st1 := Enter(st, s);
    MainIf(env, st, s);
    WalkOne(env, st1, elif);
    MainIf(env, st1, elif);
    MainAssign(env, Enter(st1, elif), 4, x, w);
  }

  /**
   * A read of a name that an `elif` below sets: the reader gets nothing, whatever values are assigned, and the
   * name itself ends with what the `elif` assigns.
   */
  lemma {:induction false} ElifReadFails(
    sem: Semantics, y: string, x: string, no: Value, v: Value, yes: Value, w: Value, seed: Id)
    requires x != y && !sem.truthy(no) && sem.truthy(yes)
    ensures
      var body := ElifBody(y, x, no, v, yes, w);
      var st := After(Env(sem, body, SetterTable(body)), seed, |body|);
      Variable(st, y) == Undefined && Variable(st, x) == w
  {
    var body := ElifBody(y, x, no, v, yes, w);
    var env := Env(sem, body, SetterTable(body));
    ElifSetters(y, x, no, v, yes, w);
    AfterStep(env, seed, 0);
    AfterStep(env, seed, 1);
    var st := After(env, seed, 0);
    assert body[..0] == [] && st == Init(env, seed);
    ElifFirst(env, st, y, x, no, v, yes, w);
    ElifMain(env, After(env, seed, 1), x, no, v, yes, w);
  }

  lemma {:induction false} ElifFirst(
    env: Env, st: State, y: string, x: string, no: Value, v: Value, yes: Value, w: Value)
    requires env.body == ElifBody(y, x, no, v, yes, w) && x != y
    requires x in env.setters
      && env.setters[x] == [Setter(1, 1, Some(2), IfBranch), Setter(1, 1, Some(4), SetterKind.OrElse)]
    requires st.metas == [] && st.cache == map[] && st.levels == map[] && st.targets == []
    requires Variable(st, x) == Undefined && !env.sem.truthy(no) && env.sem.truthy(yes)
    ensures
      var st' := WalkStmt(env, st, env.body[0]);
      st'.metas == [] && Variable(st', y) == Undefined
  {
    var pushed := Enter(st, env.body[0]).(targets := [y]);
    ElifLoad(env, pushed, x, no, v, yes, w);
    assert WalkStmt(env, st, env.body[0]) == WalkAssign(env, Enter(st, env.body[0]), y, Name(x));
  }

  lemma {:induction false} ElifLoad(env: Env, st: State, x: string, no: Value, v: Value, yes: Value, w: Value)
    requires |env.body| == 2 && env.body[1] == Elif(x, no, v, yes, w) && x != Target(st)
    requires x in env.setters
      && env.setters[x] == [Setter(1, 1, Some(2), IfBranch), Setter(1, 1, Some(4), SetterKind.OrElse)]
    requires st.cache == map[] && st.levels == map[]
    requires Variable(st, x) == Undefined && !env.sem.truthy(no) && env.sem.truthy(yes)
    ensures LoadName(env, st, x).1 == Undefined
  {
    ElifWalk(env, Deepen(st, x), env.setters[x][1], x, no, v, yes, w);
    BacktrackIs(env, st, x, WalkSetter(env, Deepen(st, x), env.setters[x][1]));
  }
}
