/**
 * The lazy evaluator as a state machine. A read of a name that is not cached runs that
 * name's setters from the last one backwards; `levels` counts how deep that has gone.
 */
module LazyMachine {
  import opened Values
  import opened LazySyntax

  /** The fixed part of a run: the module body, its emitted setters and the value operators. */
  datatype Env = Env(sem: Semantics, body: seq<Stmt>, setters: map<string, seq<Setter>>)

  /** Book-keeping of one backtracking step into a setter. */
  datatype Meta = Meta(stopped: Option<Id>, isBreak: bool, kind: SetterKind)

  /** One executed statement, with the number of backtracking steps it ran under. */
  datatype Visit = Visit(id: Id, depth: nat)

  /** One read of a name, by the statement of `reader`. */
  datatype Read = Read(reader: string, name: string, value: Value)

  /**
   * The changing part of a run. The last three fields are logs that no operation looks at:
   * every executed statement, every read, and for each name how many of its setters the main
   * walk had done when backtracking first entered it. The others are the evaluator's own.
   */
  datatype State = State(
    vars: map<string, Value>,
    cache: map<string, Value>,
    levels: map<string, nat>,
    calTimes: map<string, nat>,
    targets: seq<string>,
    metas: seq<Meta>,
    astId: Id,
    visits: seq<Visit>,
    readLog: seq<Read>,
    forced: map<string, nat>)

  function SettersOf(env: Env, x: string): seq<Setter> {
    if x in env.setters then env.setters[x] else []
  }

  function Count(m: map<string, nat>, x: string): nat {
    if x in m then m[x] else 0
  }

  function Lookup(m: map<string, Value>, x: string): Value {
    if x in m then m[x] else Undefined
  }

  function Level(st: State, x: string): nat {
    Count(st.levels, x)
  }

  function CalTimes(st: State, x: string): nat {
    Count(st.calTimes, x)
  }

  function Variable(st: State, x: string): Value {
    Lookup(st.vars, x)
  }

  /** The name whose statement is being evaluated, or the empty name outside any assignment. */
  function Target(st: State): string {
    if st.targets == [] then "" else st.targets[|st.targets| - 1]
  }

  /** The setters of every name that backtracking has not entered yet: the termination measure. */
  ghost function Room(env: Env, st: State): set<(string, nat)> {
    set x, k: nat | x in env.setters && Level(st, x) <= k < |env.setters[x]| :: (x, k)
  }

  /** Every level below its name's setter count is unchanged; the others stay at or above it. */
  ghost predicate LevelsKept(env: Env, st: State, st': State) {
    forall x :: x in env.setters ==>
      var n := |env.setters[x]|;
      if Level(st, x) < n then Level(st', x) == Level(st, x) else Level(st', x) >= n
  }

  lemma {:induction false} RoomKept(env: Env, st: State, st': State)
    requires LevelsKept(env, st, st')
    ensures Room(env, st) == Room(env, st')
  {
  }

  lemma {:induction false} RoomShrinks(env: Env, st: State, st': State, x: string)
    requires x in env.setters && Level(st, x) < |env.setters[x]|
    requires st'.levels == st.levels[x := Level(st, x) + 1]
    ensures Room(env, st') < Room(env, st)
  {
    assert (x, Level(st, x)) in Room(env, st);
    assert (x, Level(st, x)) !in Room(env, st');
  }

  /** The log only grows, and by visits at depth `depth` or deeper. */
  ghost predicate VisitsGrow(st: State, st': State, depth: nat) {
    && st.visits <= st'.visits
    && (forall i :: |st.visits| <= i < |st'.visits| ==> st'.visits[i].depth >= depth)
    && (Current(st) ==> Current(st'))
  }

  /** The current id is that of the statement entered last. */
  ghost predicate Current(st: State) {
    st.visits != [] ==> st.astId == st.visits[|st.visits| - 1].id
  }

  /** Meta stacks that differ at most in whether the top one has reached its stop. */
  ghost predicate SameButBreak(a: seq<Meta>, b: seq<Meta>) {
    && |a| == |b|
    && (a != [] ==>
          var k := |a| - 1;
          && a[..k] == b[..k] && a[k].stopped == b[k].stopped && a[k].kind == b[k].kind
          && (a[k].isBreak ==> b[k].isBreak))
  }

  /** What evaluating an expression leaves as it was. */
  ghost predicate Kept(env: Env, st: State, st': State, depth: nat) {
    && st'.targets == st.targets
    && LevelsKept(env, st, st')
    && VisitsGrow(st, st', depth)
  }

  /** Counts one direct (not backtracking) store of `x`; true once every setter has stored. */
  function CalIncrement(env: Env, st: State, x: string): (r: (State, bool)) {
    if Level(st, x) > 0 then
      (st, false)
    else
      var next := CalTimes(st, x) + 1;
      (st.(calTimes := st.calTimes[x := next]), next >= |SettersOf(env, x)|)
  }

  /** Whether the statement walked most recently is where the last setter of `x` stops. */
  function IsLastSetter(env: Env, st: State, x: string): bool {
    var setters := SettersOf(env, x);
    Level(st, x) == 0 && setters != [] &&
    var last := setters[|setters| - 1];
    st.astId == (if last.stopped.Some? then last.stopped.value else last.stmtId)
  }

  /** Stores a global variable and offers the value to the lazy scope's cache. */
  function Store(env: Env, st: State, x: string, v: Value): State {
    var (st1, all) := CalIncrement(env, st.(vars := st.vars[x := v]), x);
    if (all || IsLastSetter(env, st1, x)) && x !in st1.cache then
      st1.(cache := st1.cache[x := v])
    else
      st1
  }

  /** Reads a name: the lazy scope decides unless the name is no variable at all. */
  function LoadName(env: Env, st: State, x: string): (r: (State, Value))
    ensures Kept(env, st, r.0, |st.metas| + 1) && r.0.metas == st.metas
    decreases Room(env, st), 1
  {
    var (st1, v) := if x in st.vars then GetValue(env, st, x, st.vars[x]) else (st, Undefined);
    (st1.(readLog := st1.readLog + [Read(Target(st), x, v)]), v)
  }

  /** One level deeper into `x`, noting how far the main walk was when that first happened. */
  function Deepen(st: State, x: string): State {
    st.(levels := st.levels[x := Level(st, x) + 1],
        forced := if Level(st, x) == 0 then st.forced[x := CalTimes(st, x)] else st.forced)
  }

  /** The lazy scope's read: own value in place, else the cache, else one more setter back. */
  function GetValue(env: Env, st: State, x: string, default: Value): (r: (State, Value))
    ensures Kept(env, st, r.0, |st.metas| + 1) && r.0.metas == st.metas
    decreases Room(env, st), 0
  {
    var setters := SettersOf(env, x);
    if x == Target(st) && (Level(st, x) == 0 || |setters| <= 1) then
      (st, default)
    else if x in st.cache then
      (st, st.cache[x])
    else if setters == [] then
      (st, default)
    else
      if Level(st, x) + 1 > |setters| then
        (st.(levels := st.levels[x := Level(st, x) + 1]), default)
      else
        Backtrack(env, st, x)
  }

  /** Runs the next setter back, then caches what the variable holds and restores the level. */
  function Backtrack(env: Env, st: State, x: string): (r: (State, Value))
    requires x in env.setters && Level(st, x) < |env.setters[x]|
    ensures Kept(env, st, r.0, |st.metas| + 1) && r.0.metas == st.metas
    decreases Room(env, st), 0, 0
  {
    RoomShrinks(env, st, Deepen(st, x), x);
    var setters := env.setters[x];
    var st1 := WalkSetter(env, Deepen(st, x), setters[|setters| - (Level(st, x) + 1)]);
    var v := Variable(st1, x);
    LevelsRestored(env, st, st1, x);
    (st1.(levels := st1.levels[x := Level(st, x)], cache := st1.cache[x := v]), v)
  }

  /** The state after the setter of a backtracking step has run. */
  lemma {:induction false} BacktrackIs(env: Env, st: State, x: string, st1: State)
    requires x in env.setters && Level(st, x) < |env.setters[x]|
    requires st1 == WalkSetter(env, Deepen(st, x), env.setters[x][|env.setters[x]| - (Level(st, x) + 1)])
    ensures Backtrack(env, st, x)
         == (st1.(levels := st1.levels[x := Level(st, x)], cache := st1.cache[x := Variable(st1, x)]), Variable(st1, x))
  {
  }

  lemma {:induction false} LevelsRestored(env: Env, st: State, st1: State, x: string)
    requires x in env.setters && Level(st, x) < |env.setters[x]|
    requires LevelsKept(env, Deepen(st, x), st1)
    ensures LevelsKept(env, st, st1.(levels := st1.levels[x := Level(st, x)]))
  {
  }

  /** Runs the statement of a setter as a backtracking step of its own. */
  function WalkSetter(env: Env, st: State, setter: Setter): (st': State)
    ensures Kept(env, st, st', |st.metas| + 1) && st'.metas == st.metas
    decreases Room(env, st), 5
  {
    if setter.stmt < |env.body| then
      var meta := Meta(setter.stopped, false, setter.kind);
      var st1 := WalkStmt(env, st.(metas := st.metas + [meta]), env.body[setter.stmt]);
      st1.(metas := st1.metas[..|st1.metas| - 1])
    else
      st
  }

  function WalkExpr(env: Env, st: State, e: Expr): (r: (State, Value))
    ensures Kept(env, st, r.0, |st.metas| + 1) && r.0.metas == st.metas
    decreases Room(env, st), 2, e
  {
    match e
    case Lit(v) => (st, v)
    case Name(x) => LoadName(env, st, x)
    case Binary(op, left, right) =>
      var (st1, l) := WalkExpr(env, st, left);
      RoomKept(env, st, st1);
      var (st2, r) := WalkExpr(env, st1, right);
      (st2, env.sem.binary(op, l, r))
    case Logic(isAnd, left, right) =>
      var (st1, l) := WalkExpr(env, st, left);
      RoomKept(env, st, st1);
      if env.sem.truthy(l) == isAnd then WalkExpr(env, st1, right) else (st1, l)
    case Cond(test, body, orelse) =>
      var (st1, t) := WalkExpr(env, st, test);
      RoomKept(env, st, st1);
      if env.sem.truthy(t) then WalkExpr(env, st1, body) else WalkExpr(env, st1, orelse)
  }

  predicate Broken(st: State) {
    st.metas != [] && st.metas[|st.metas| - 1].isBreak
  }

  function BacktrackKind(st: State): SetterKind {
    if st.metas == [] then Normal else st.metas[|st.metas| - 1].kind
  }

  /** Marks the top backtracking step as finished when it has passed its stop statement. */
  function UpdateBreak(st: State, id: Id): State {
    if st.metas != [] && st.metas[|st.metas| - 1].stopped == Some(id) then
      var k := |st.metas| - 1;
      st.(metas := st.metas[k := st.metas[k].(isBreak := true)])
    else
      st
  }

  /** Notes that `s` is being executed. */
  function Enter(st: State, s: Stmt): State {
    st.(astId := s.id, visits := st.visits + [Visit(s.id, |st.metas|)])
  }

  function WalkStmt(env: Env, st: State, s: Stmt): (st': State)
    ensures Kept(env, st, st', |st.metas|) && SameButBreak(st.metas, st'.metas)
    decreases Room(env, st), 4, s
  {
    if Broken(st) then
      st
    else
      RoomKept(env, st, Enter(st, s));
      UpdateBreak(WalkEntered(env, Enter(st, s), s), s.id)
  }

  function WalkEntered(env: Env, st: State, s: Stmt): (st': State)
    ensures Kept(env, st, st', |st.metas|) && SameButBreak(st.metas, st'.metas)
    decreases Room(env, st), 4, s, 1
  {
    match s
    case Assign(_, x, e) => WalkAssign(env, st, x, e)
    case AugAssign(_, x, op, e) => WalkAugAssign(env, st, x, op, e)
    case If(_, _, _, _) => WalkIf(env, st, s)
  }

  /** A backtracking step enters only the branch its setter came from. */
  function WalkIf(env: Env, st: State, s: Stmt): (st': State)
    requires s.If?
    ensures Kept(env, st, st', |st.metas|) && SameButBreak(st.metas, st'.metas)
    decreases Room(env, st), 4, s, 0
  {
    var (st1, c) := WalkExpr(env, st, s.cond);
    RoomKept(env, st, st1);
    var truth := env.sem.truthy(c);
    if BacktrackKind(st1) == OrElse then
      (if !truth then WalkStmts(env, st1, s.orelse) else st1)
    else if BacktrackKind(st1) == IfBranch then
      (if truth then WalkStmts(env, st1, s.body) else st1)
    else if truth then WalkStmts(env, st1, s.body) else WalkStmts(env, st1, s.orelse)
  }

  function WalkAssign(env: Env, st: State, x: string, e: Expr): (st': State)
    ensures Kept(env, st, st', |st.metas| + 1) && st'.metas == st.metas
    decreases Room(env, st), 3
  {
    var pushed := st.(targets := st.targets + [x]);
    RoomKept(env, st, pushed);
    var (st1, v) := WalkExpr(env, pushed, e);
    PopTarget(Store(env, st1, x, v))
  }

  function WalkAugAssign(env: Env, st: State, x: string, op: Operator, e: Expr): (st': State)
    ensures Kept(env, st, st', |st.metas| + 1) && st'.metas == st.metas
    decreases Room(env, st), 3
  {
    var pushed := st.(targets := st.targets + [x]);
    RoomKept(env, st, pushed);
    var (st1, right, own) := AugOperands(env, pushed, x, e);
    PopTarget(Store(env, st1, x, env.sem.binary(op, own, right)))
  }

  /** The right-hand side is evaluated first, then the target's own value is loaded. */
  function AugOperands(env: Env, st: State, x: string, e: Expr): (r: (State, Value, Value))
    ensures Kept(env, st, r.0, |st.metas| + 1) && r.0.metas == st.metas
    decreases Room(env, st), 2
  {
    var (st1, right) := WalkExpr(env, st, e);
    RoomKept(env, st, st1);
    var (st2, own) := LoadName(env, st1, x);
    (st2, right, own)
  }

  function PopTarget(st: State): State {
    if st.targets == [] then st else st.(targets := st.targets[..|st.targets| - 1])
  }

  function WalkStmts(env: Env, st: State, body: seq<Stmt>): (st': State)
    ensures Kept(env, st, st', |st.metas|) && SameButBreak(st.metas, st'.metas)
    decreases Room(env, st), 4, body
  {
    if body == [] then
      st
    else
      var st1 := WalkStmt(env, st, body[0]);
      RoomKept(env, st, st1);
      WalkStmts(env, st1, body[1..])
  }

  /** The targets of all plain assignments, which get an undefined variable before the walk. */
  function Predefined(body: seq<Stmt>): set<string> {
    if body == [] then {} else
    (match body[0]
     case Assign(_, x, _) => {x}
     case AugAssign(_, _, _, _) => {}
     case If(_, _, body, orelse) => Predefined(body) + Predefined(orelse))
    + Predefined(body[1..])
  }

  /** The state before the main walk. The current id is a fresh one. */
  function Init(env: Env, seed: Id): State {
    State(map x | x in Predefined(env.body) :: Undefined,
          map[], map[], map[], [], [], seed, [], [], map[])
  }

  /** The state after the main walk has done the first `p` statements. */
  function After(env: Env, seed: Id, p: nat): State
    requires p <= |env.body|
  {
    WalkStmts(env, Init(env, seed), env.body[..p])
  }

  lemma {:induction false} WalkSnoc(env: Env, st: State, body: seq<Stmt>, s: Stmt)
    ensures WalkStmts(env, st, body + [s]) == WalkStmt(env, WalkStmts(env, st, body), s)
    decreases |body|
  {
    if body == [] {
      assert body + [s] == [s];
      assert WalkStmts(env, WalkStmt(env, st, s), []) == WalkStmt(env, st, s);
    } else {
      assert (body + [s])[1..] == body[1..] + [s];
      WalkSnoc(env, WalkStmt(env, st, body[0]), body[1..], s);
    }
  }

  lemma {:induction false} AfterStep(env: Env, seed: Id, p: nat)
    requires p < |env.body|
    ensures After(env, seed, p + 1) == WalkStmt(env, After(env, seed, p), env.body[p])
  {
    assert env.body[..p + 1] == env.body[..p] + [env.body[p]];
    WalkSnoc(env, Init(env, seed), env.body[..p], env.body[p]);
  }

  /**
   * For every body, cyclic ones included, the evaluation ends and leaves no trace of
   * backtracking between the statements of the main walk: every level is back to zero and
   * both stacks are empty.
   */
  lemma {:induction false} NoBacktrackingBetweenStatements(env: Env, seed: Id, p: nat, x: string)
    requires p <= |env.body|
    requires x in env.setters && env.setters[x] != []
    ensures
      var st := After(env, seed, p);
      Level(st, x) == 0 && st.metas == [] && st.targets == []
  {
    assert LevelsKept(env, Init(env, seed), After(env, seed, p));
  }
}
