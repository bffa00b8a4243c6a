/** The comprehension walker: nested generators share one scope and fill one collection. */
module Comprehension {
  import opened Values
  import opened UnionTheorems
  import UnionOperations
  import MergeSpec
  import opened ComprehensionSpec

  // The walk with its one scope: a loop variable keeps its last value when its loop ends.

  /** The rows reached so far and the scope afterwards. */
  datatype Trace = Trace(rows: seq<Row>, vars: Env)

  function Walk(truthy: Value -> bool, gens: seq<Generator>, vars: Env): Option<Trace>
    decreases |gens|, 0, 0
  {
    if gens == [] then Some(Trace([Row([], vars)], vars))
    else match Steps(gens[0].iter.eval(vars))
      case None => Option.None
      case Some(steps) => WalkTo(truthy, gens, steps, |steps|, vars)
  }

  function WalkTo(truthy: Value -> bool, gens: seq<Generator>, steps: seq<Step>, n: nat, vars: Env): Option<Trace>
    requires gens != [] && n <= |steps|
    decreases |gens| - 1, 1, n
  {
    if n == 0 then Some(Trace([], vars))
    else match WalkTo(truthy, gens, steps, n - 1, vars)
      case None => Option.None
      case Some(t) =>
        match WalkAt(truthy, gens, steps[n - 1], n - 1, t.vars)
        case None => Option.None
        case Some(u) => Some(Trace(t.rows + u.rows, u.vars))
  }

  function WalkAt(truthy: Value -> bool, gens: seq<Generator>, step: Step, k: nat, vars: Env): Option<Trace>
    requires gens != []
    decreases |gens| - 1, 1, 0
  {
    match Bind(gens[0].targets, step, vars)
    case None => Option.None
    case Some(v) =>
      if !Passes(truthy, gens[0].ifs, v) then Some(Trace([], v))
      else match Walk(truthy, gens[1..], v)
        case None => Option.None
        case Some(t) => Some(Trace(Under(k, t.rows), t.vars))
  }

  function Names(targets: seq<string>): set<string> {
    set x | x in targets
  }

  function Vars(gens: seq<Generator>): set<string> {
    if gens == [] then {} else Names(gens[0].targets) + Vars(gens[1..])
  }

  class Walker {
    const truthy: Value -> bool
    /** The variables of the comprehension's scope over those around it. */
    var vars: Env
    var locals: set<string>
    /** The list or dictionary being filled; none after a failed merge. */
    var collection: Option<Value>

    constructor (truthy: Value -> bool, vars: Env, collection: Value)
      ensures this.truthy == truthy && this.vars == vars && locals == {} && this.collection == Some(collection)
    {
      this.truthy := truthy;
      this.vars := vars;
      locals := {};
      this.collection := Some(collection);
    }

    /** Stores the loop variables of one iteration; fails unless there are one or two. */
    method StoreTargets(targets: seq<string>, step: Step) returns (ok: bool)
      modifies this`vars
      ensures ok == Bind(targets, step, old(vars)).Some?
      ensures ok ==> Some(vars) == Bind(targets, step, old(vars))
    {
      if |targets| == 1 {
        vars := vars[targets[0] := step.next];
        ok := true;
      } else if |targets| == 2 {
        vars := vars[targets[0] := step.key];
        vars := vars[targets[1] := step.value];
        ok := true;
      } else {
        ok := false;
      }
    }

    /** Evaluates every filter, even after one has failed. */
    method CheckFilters(ifs: seq<Expr>) returns (skip: bool)
      ensures skip == !Passes(truthy, ifs, vars)
    {
      skip := false;
      for i := 0 to |ifs|
        invariant skip == !Passes(truthy, ifs[..i], vars)
      {
        assert ifs[..i + 1] == ifs[..i] + [ifs[i]];
        PassesSnoc(truthy, ifs[..i], ifs[i], vars);
        var value := ifs[i].eval(vars);
        if !truthy(value) {
          skip := true;
        }
      }
      assert ifs[..|ifs|] == ifs;
    }

    method AddElement(comp: Comp)
      modifies this`collection
      ensures collection == Emit(comp, old(collection), vars)
    {
      match comp
      case ListOf(elt) =>
        if collection.Some? && collection.value.List? {
          collection := Some(List(collection.value.items + [elt.eval(vars)]));
        } else {
          collection := Option.None;
        }
      case DictOf(key, value, op) =>
        collection := DictInsert(collection, Item(KeyText(key.eval(vars)), value.eval(vars), op, Option.None));
    }

    /** The walk from one generator on. */
    method WalkGenerator(gens: seq<Generator>, comp: Comp, index: nat) returns (ok: bool)
      requires index < |gens|
      modifies this
      ensures ok == Walk(truthy, gens[index..], old(vars)).Some?
      ensures ok ==> Filled(comp, old(collection), Walk(truthy, gens[index..], old(vars)), collection, vars)
      ensures ok ==> old(locals) - Vars(gens[index..]) <= locals <= old(locals)
      decreases |gens| - index, 1
    {
      ghost var here := gens[index..];
      assert here[0] == gens[index] && here[1..] == gens[index + 1..];
      var steps := Steps(gens[index].iter.eval(vars));
      if steps.None? {
        return false;
      }
      var pos := 0;
      while pos < |steps.value|
        invariant 0 <= pos <= |steps.value|
        invariant Filled(comp, old(collection), WalkTo(truthy, here, steps.value, pos, old(vars)), collection, vars)
        invariant old(locals) - Vars(here) <= locals <= old(locals) + Names(gens[index].targets)
      {
        ghost var c, v, before := collection, vars, locals;
        ok := WalkStep(gens, comp, index, steps.value[pos], pos);
        StepFilled(truthy, here, steps.value, pos, old(vars), comp, old(collection), c, collection, vars);
        if !ok {
          WalkFails(truthy, here, steps.value, pos + 1, |steps.value|, old(vars));
          return false;
        }
        LocalsKept(old(locals), before, locals, Names(gens[index].targets), Vars(gens[index + 1..]));
        pos := pos + 1;
      }
      locals := locals - Names(gens[index].targets);
      ok := true;
    }

    /** One iteration of one generator. */
    method WalkStep(gens: seq<Generator>, comp: Comp, index: nat, step: Step, ghost pos: nat) returns (ok: bool)
      requires index < |gens|
      modifies this
      ensures ok == WalkAt(truthy, gens[index..], step, pos, old(vars)).Some?
      ensures ok ==>
        Filled(comp, old(collection), WalkAt(truthy, gens[index..], step, pos, old(vars)), collection, vars)
      ensures ok ==>
        old(locals) + Names(gens[index].targets) - Vars(gens[index + 1..]) <= locals <=
          old(locals) + Names(gens[index].targets)
      decreases |gens| - index, 0
    {
      ghost var here, rest := gens[index..], gens[index + 1..];
      assert here[0] == gens[index] && here[1..] == rest;
      locals := locals + Names(gens[index].targets);
      ok := StoreTargets(gens[index].targets, step);
      if !ok {
        return;
      }
      var skip := CheckFilters(gens[index].ifs);
      if skip {
        return;
      }
      ghost var bound := vars;
      if index + 1 >= |gens| {
        AddElement(comp);
        assert [Row([], bound)][..0] == [];
        CollectUnder(comp, old(collection), pos, [Row([], bound)]);
      } else {
        ok := WalkGenerator(gens, comp, index + 1);
        if ok {
          CollectUnder(comp, old(collection), pos, Walk(truthy, rest, bound).value.rows);
        }
      }
    }
  }

  /** Local names through one iteration of a loop with variables `mine`, inside which `inner` are set. */
  lemma {:induction false} LocalsKept(
    start: set<string>, before: set<string>, after: set<string>, mine: set<string>, inner: set<string>)
    requires start - (mine + inner) <= before <= start + mine && before + mine - inner <= after <= before + mine
    ensures start - (mine + inner) <= after <= start + mine
  {
  }

  /** The collection has received exactly the rows of a walk, which has left these variables. */
  ghost predicate Filled(comp: Comp, before: Option<Value>, t: Option<Trace>, after: Option<Value>, vars: Env) {
    t.Some? && after == Collect(comp, before, t.value.rows) && vars == t.value.vars
  }

  lemma {:induction false} StepFilled(truthy: Value -> bool, gens: seq<Generator>, steps: seq<Step>, n: nat, vars: Env,
                                      comp: Comp, c: Option<Value>, d: Option<Value>, e: Option<Value>, vars': Env)
    requires gens != [] && n < |steps| && WalkTo(truthy, gens, steps, n, vars).Some?
    requires d == Collect(comp, c, WalkTo(truthy, gens, steps, n, vars).value.rows)
    ensures var u := WalkAt(truthy, gens, steps[n], n, WalkTo(truthy, gens, steps, n, vars).value.vars);
      && (u.None? ==> WalkTo(truthy, gens, steps, n + 1, vars).None?)
      && (Filled(comp, d, u, e, vars') ==> Filled(comp, c, WalkTo(truthy, gens, steps, n + 1, vars), e, vars'))
  {
    var t := WalkTo(truthy, gens, steps, n, vars).value;
    var u := WalkAt(truthy, gens, steps[n], n, t.vars);
    if u.Some? {
      CollectJoin(comp, c, t.rows, u.value.rows);
    }
  }

  lemma {:induction false} WalkFails(
    truthy: Value -> bool, gens: seq<Generator>, steps: seq<Step>, k: nat, n: nat, vars: Env)
    requires gens != [] && k <= n <= |steps| && WalkTo(truthy, gens, steps, k, vars).None?
    ensures WalkTo(truthy, gens, steps, n, vars).None?
    decreases n
  {
    if k < n {
      WalkFails(truthy, gens, steps, k, n - 1, vars);
    }
  }

  lemma {:induction false} PassesSnoc(truthy: Value -> bool, ifs: seq<Expr>, e: Expr, env: Env)
    ensures Passes(truthy, ifs + [e], env) <==> Passes(truthy, ifs, env) && truthy(e.eval(env))
  {
    if Passes(truthy, ifs + [e], env) {
      assert (ifs + [e])[|ifs|] == e;
      forall i | 0 <= i < |ifs| ensures truthy(ifs[i].eval(env)) {
        assert (ifs + [e])[i] == ifs[i];
      }
    }
  }

  // The walk meets the specification when nothing reads a loop variable that an inner loop has left behind.

  ghost predicate AllPure(gens: seq<Generator>) {
    forall i :: 0 <= i < |gens| ==> Pure(gens[i].iter) && forall j :: 0 <= j < |gens[i].ifs| ==> Pure(gens[i].ifs[j])
  }

  /** No iterable reads a variable of its own or a later generator, unless the generator before has just set it. */
  predicate Scoped(gens: seq<Generator>, justSet: set<string>)
    decreases |gens|, 0
  {
    gens == [] || (gens[0].iter.names !! Vars(gens) - justSet && Inside(gens))
  }

  /** No filter reads a variable of a later generator, unless its own has just set it; and so on inside. */
  predicate Inside(gens: seq<Generator>)
    requires gens != []
    decreases |gens| - 1, 1
  {
    var targets := Names(gens[0].targets);
    && (forall j :: 0 <= j < |gens[0].ifs| ==> gens[0].ifs[j].names !! Vars(gens[1..]) - targets)
    && Scoped(gens[1..], targets)
  }

  lemma {:induction false} SetBoth(a: Env, b: Env, x: string, v: Value, outer: set<string>, inner: set<string>)
    requires SameExcept(a, b, outer) && outer <= inner + {x}
    ensures SameExcept(a[x := v], b[x := v], inner)
  {
  }

  /** Binding the same variables in both scopes uncovers them. */
  lemma {:induction false} BindUncovers(targets: seq<string>, step: Step, a: Env, b: Env, inner: set<string>)
    requires SameExcept(a, b, Names(targets) + inner)
    ensures Bind(targets, step, a).Some? <==> Bind(targets, step, b).Some?
    ensures Bind(targets, step, a).Some? ==>
      SameExcept(Bind(targets, step, a).value, Bind(targets, step, b).value, inner - Names(targets))
  {
    var left := inner - Names(targets);
    if |targets| == 1 {
      assert targets == [targets[0]];
      SetBoth(a, b, targets[0], step.next, Names(targets) + inner, left);
    } else if |targets| == 2 {
      var x, y := targets[0], targets[1];
      assert targets == [x, y];
      SetBoth(a, b, x, step.key, Names(targets) + inner, left + {y});
      SetBoth(a[x := step.key], b[x := step.key], y, step.value, left + {y}, left);
    }
  }

  /** What the inner generators leave behind is hidden from the outer ones. */
  lemma {:induction false} BindCovers(targets: seq<string>, step: Step, env: Env, a: Env, inner: set<string>)
    requires Bind(targets, step, env).Some?
    requires SameExcept(a, Bind(targets, step, env).value, inner)
    ensures SameExcept(a, env, Names(targets) + inner)
  {
    var e := Bind(targets, step, env).value;
    forall x | x !in Names(targets) + inner ensures (x in e <==> x in env) && (x in e ==> e[x] == env[x]) {
      assert x !in targets;
    }
  }

  lemma {:induction false} FiltersAgree(truthy: Value -> bool, ifs: seq<Expr>, hidden: set<string>, a: Env, b: Env)
    requires SameExcept(a, b, hidden)
    requires forall j :: 0 <= j < |ifs| ==> Pure(ifs[j]) && ifs[j].names !! hidden
    ensures Passes(truthy, ifs, a) <==> Passes(truthy, ifs, b)
  {
    forall j | 0 <= j < |ifs| ensures ifs[j].eval(a) == ifs[j].eval(b) {
      assert Pure(ifs[j]);
    }
  }

  /** A walk and its specification: they fail together, reach the same rows, and differ afterwards
      at most in the loop variables. */
  ghost predicate Agrees(t: Option<Trace>, rows: Option<seq<Row>>, env: Env, hidden: set<string>) {
    if rows.None? then t.None? else t.Some? && t.value.rows == rows.value && SameExcept(t.value.vars, env, hidden)
  }

  /** The walk reaches exactly the specified rows, whatever the loop variables held before. */
  lemma {:induction false} WalkIsRows(
    truthy: Value -> bool, gens: seq<Generator>, vars: Env, env: Env, justSet: set<string>)
    requires AllPure(gens) && Scoped(gens, justSet) && SameExcept(vars, env, Vars(gens) - justSet)
    ensures Agrees(Walk(truthy, gens, vars), Rows(truthy, gens, env), env, Vars(gens))
    decreases |gens|, 0, 0
  {
    if gens == [] {
      assert vars == env;
    } else {
      assert gens[0].iter.eval(vars) == gens[0].iter.eval(env);
      var steps := Steps(gens[0].iter.eval(env));
      if steps.Some? {
        WalkToIsRows(truthy, gens, steps.value, |steps.value|, vars, env);
      }
    }
  }

  lemma {:induction false} WalkToIsRows(
    truthy: Value -> bool, gens: seq<Generator>, steps: seq<Step>, n: nat, vars: Env, env: Env)
    requires gens != [] && n <= |steps| && AllPure(gens) && Inside(gens) && SameExcept(vars, env, Vars(gens))
    ensures Agrees(WalkTo(truthy, gens, steps, n, vars), RowsTo(truthy, gens, steps, n, env), env, Vars(gens))
    decreases |gens| - 1, 1, n
  {
    if n > 0 {
      WalkToIsRows(truthy, gens, steps, n - 1, vars, env);
      var t := WalkTo(truthy, gens, steps, n - 1, vars);
      if t.Some? {
        WalkAtIsRows(truthy, gens, steps[n - 1], n - 1, t.value.vars, env);
      }
    }
  }

  lemma {:induction false} WalkAtIsRows(
    truthy: Value -> bool, gens: seq<Generator>, step: Step, k: nat, vars: Env, env: Env)
    requires gens != [] && AllPure(gens) && Inside(gens) && SameExcept(vars, env, Vars(gens))
    ensures Agrees(WalkAt(truthy, gens, step, k, vars), RowsAt(truthy, gens, step, k, env), env, Vars(gens))
    decreases |gens| - 1, 1, 0
  {
    var targets, inner := gens[0].targets, Vars(gens[1..]);
    BindUncovers(targets, step, vars, env, inner);
    if Bind(targets, step, env).Some? {
      var v, e := Bind(targets, step, vars).value, Bind(targets, step, env).value;
      FiltersAgree(truthy, gens[0].ifs, inner - Names(targets), v, e);
      BindCovers(targets, step, env, v, inner);
      if Passes(truthy, gens[0].ifs, e) {
        WalkIsRows(truthy, gens[1..], v, e, Names(targets));
        var t := Walk(truthy, gens[1..], v);
        if t.Some? {
          BindCovers(targets, step, env, t.value.vars, inner);
        }
      }
    }
  }

  /** A whole comprehension reaches the specified rows and changes loop variables only. */
  lemma {:induction false} WalkMeetsRows(truthy: Value -> bool, gens: seq<Generator>, env: Env)
    requires gens != [] && AllPure(gens) && Inside(gens)
    ensures Agrees(Walk(truthy, gens, env), Rows(truthy, gens, env), env, Vars(gens))
  {
    var steps := Steps(gens[0].iter.eval(env));
    if steps.Some? {
      WalkToIsRows(truthy, gens, steps.value, |steps.value|, env, env);
    }
  }

  /** A row changes the variables of its loops only. */
  lemma {:induction false} ReachKeeps(truthy: Value -> bool, gens: seq<Generator>, env: Env, path: seq<nat>)
    requires Reach(truthy, gens, env, path).Some?
    ensures SameExcept(Reach(truthy, gens, env, path).value, env, Vars(gens))
    decreases |gens|
  {
    if gens != [] {
      var e := LoopVars(gens[0].targets, gens[0].iter.eval(env), path[0], env).value;
      ReachKeeps(truthy, gens[1..], e, path[1..]);
      forall x | x !in Vars(gens) ensures (x in e <==> x in env) && (x in e ==> e[x] == env[x]) {
        assert x !in gens[0].targets;
      }
    }
  }

  /** In these variables stands what an iteration over `v` at position `p` sets. */
  predicate Bound(targets: seq<string>, v: Value, p: nat, env: Env) {
    && (|targets| == 1 || |targets| == 2) && (forall i :: 0 <= i < |targets| ==> targets[i] in env)
    && match v
       case List(items) =>
         && p < |items|
         && (|targets| == 1 ==> env[targets[0]] == items[p])
         && (|targets| == 2 && targets[0] != targets[1] ==> env[targets[0]] == Int(p) && env[targets[1]] == items[p])
       case Dict(es, _, _) =>
         && p < |es|
         && (|targets| == 1 ==> env[targets[0]] == Str(es[p].key))
         && (|targets| == 2 && targets[0] != targets[1] ==>
               env[targets[0]] == Str(es[p].key) && env[targets[1]] == es[p].value)
       case Str(s) =>
         && p < |s|
         && (|targets| == 1 ==> env[targets[0]] == Str([s[p]]))
         && (|targets| == 2 && targets[0] != targets[1] ==>
               env[targets[0]] == Int(p) && env[targets[1]] == Str([s[p]]))
       case _ => false
  }

  /**
   * In every row the variables of every loop, unless a later loop has them too, stand for the position that the
   * row has there in the value of the loop's iterable, which is evaluated in a scope `e` that differs from the
   * row's in the variables of this and later loops only.
   */
  lemma {:induction false} RowHolds(truthy: Value -> bool, gens: seq<Generator>, env: Env, row: Row, g: nat)
    returns (e: Env)
    requires Rows(truthy, gens, env).Some? && Listed(Rows(truthy, gens, env).value, row)
    requires g < |gens| && Names(gens[g].targets) !! Vars(gens[g + 1..])
    ensures SameExcept(row.env, e, Vars(gens[g..])) && (g == 0 ==> e == env)
    ensures |row.path| == |gens| && Bound(gens[g].targets, gens[g].iter.eval(e), row.path[g], row.env)
  {
    RowsExact(truthy, gens, env, row);
    e := ReachHolds(truthy, gens, env, row.path, g);
  }

  lemma {:induction false} ReachHolds(truthy: Value -> bool, gens: seq<Generator>, env: Env, path: seq<nat>, g: nat)
    returns (e: Env)
    requires Reach(truthy, gens, env, path).Some? && g < |gens| && Names(gens[g].targets) !! Vars(gens[g + 1..])
    ensures SameExcept(Reach(truthy, gens, env, path).value, e, Vars(gens[g..])) && (g == 0 ==> e == env)
    ensures |path| == |gens|
    ensures Bound(gens[g].targets, gens[g].iter.eval(e), path[g], Reach(truthy, gens, env, path).value)
    decreases |gens|
  {
    ReachLength(truthy, gens, env, path);
    var rest, first := gens[1..], LoopVars(gens[0].targets, gens[0].iter.eval(env), path[0], env).value;
    if g == 0 {
      e := env;
      assert gens[0..] == gens;
      ReachKeeps(truthy, gens, env, path);
      ReachKeeps(truthy, rest, first, path[1..]);
      var last := Reach(truthy, gens, env, path).value;
      FirstBound(gens[0].targets, gens[0].iter.eval(env), path[0], env, last, Vars(rest));
    } else {
      assert rest[g - 1] == gens[g] && rest[g - 1..] == gens[g..] && rest[g..] == gens[g + 1..];
      e := ReachHolds(truthy, rest, first, path[1..], g - 1);
    }
  }

  lemma {:induction false} ReachLength(truthy: Value -> bool, gens: seq<Generator>, env: Env, path: seq<nat>)
    requires Reach(truthy, gens, env, path).Some?
    ensures |path| == |gens|
    decreases |gens|
  {
    if gens != [] {
      var e := LoopVars(gens[0].targets, gens[0].iter.eval(env), path[0], env).value;
      ReachLength(truthy, gens[1..], e, path[1..]);
    }
  }

  lemma {:induction false} FirstBound(targets: seq<string>, v: Value, p: nat, env: Env, last: Env, later: set<string>)
    requires LoopVars(targets, v, p, env).Some? && Names(targets) !! later
    requires SameExcept(last, LoopVars(targets, v, p, env).value, later)
    ensures Bound(targets, v, p, last)
  {
    forall i | 0 <= i < |targets| ensures targets[i] in Names(targets) {
    }
  }

  /** The entry of a row, unless another row has its key or the entry overrides, stands in the dictionary. */
  lemma {:induction false} DictCompHolds(comp: Comp, rows: seq<Row>, i: nat, k: string)
    requires comp.DictOf? && i < |rows| && Block(Entries(comp, rows)).Some? && comp.key.eval(rows[i].env) == Str(k)
    requires forall j :: i < j < |rows| ==> comp.key.eval(rows[j].env).Str? && comp.key.eval(rows[j].env) != Str(k)
    requires comp.op.Override? ||
      forall j :: 0 <= j < i ==> comp.key.eval(rows[j].env).Str? && comp.key.eval(rows[j].env) != Str(k)
    ensures
      var d := Block(Entries(comp, rows)).value;
      d.Dict? && MergeSpec.Find(d.entries, k) == Some(comp.value.eval(rows[i].env))
  {
    UnionOperations.BlockKeeps(Entries(comp, rows), i);
  }

  /** A list comprehension: one element per row, in order. */
  method WalkListComp(truthy: Value -> bool, gens: seq<Generator>, elt: Expr, env: Env) returns (r: Option<Value>)
    requires gens != [] && AllPure(gens) && Inside(gens)
    ensures r == match Rows(truthy, gens, env)
                 case None => Option.None
                 case Some(rows) => Some(List(Elements(elt, rows)))
  {
    var walker := new Walker(truthy, env, List([]));
    var ok := walker.WalkGenerator(gens, ListOf(elt), 0);
    assert gens[0..] == gens;
    WalkMeetsRows(truthy, gens, env);
    if ok {
      var rows := Rows(truthy, gens, env).value;
      CollectList(elt, [], rows);
      assert [] + Elements(elt, rows) == Elements(elt, rows);
    }
    r := if ok then walker.collection else Option.None;
  }

  /** A dictionary comprehension: the config block of the rows' entries, in order. */
  method WalkDictComp(truthy: Value -> bool, gens: seq<Generator>, comp: Comp, env: Env) returns (r: Option<Value>)
    requires gens != [] && comp.DictOf? && AllPure(gens) && Inside(gens)
    ensures r == match Rows(truthy, gens, env)
                 case None => Option.None
                 case Some(rows) => Block(Entries(comp, rows))
  {
    var walker := new Walker(truthy, env, EMPTY);
    var ok := walker.WalkGenerator(gens, comp, 0);
    assert gens[0..] == gens;
    WalkMeetsRows(truthy, gens, env);
    if ok {
      CollectDict(comp, Rows(truthy, gens, env).value);
    }
    r := if ok then walker.collection else Option.None;
  }
}
