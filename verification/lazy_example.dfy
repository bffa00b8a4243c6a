/** A program whose raw variable differs from its value: the main walk re-applies a setter. */
module LazyExample {
  import opened Values
  import opened LazySyntax
  import opened LazyEmit
  import opened LazyMachine
  import opened LazySpec
  import opened LazyRefine
  import opened LazyTheorems
  import opened LazyReach
  import opened LazyText

  /** Integer addition; the other operators do not occur below. */
  function AddInts(op: Operator, a: Value, b: Value): Value {
    if op.Add? && a.Int? && b.Int? then Int(a.i + b.i) else Undefined
  }

  /** `x = 1; y = x; x += 1`, for any two names. */
  function Example(x: string, y: string): (body: seq<Stmt>) {
    [Assign(0, x, Lit(Int(1))), Assign(1, y, Name(x)), AugAssign(2, x, Add, Lit(Int(1)))]
  }

  function ExampleSemantics(): Semantics {
    Semantics(AddInts, (v: Value) => true)
  }

  ghost predicate IsExample(env: Env, x: string, y: string) {
    && x != y && env.sem == ExampleSemantics() && env.body == Example(x, y)
    && StraightLine(env) && env.setters.Keys == {x, y}
    && env.setters[x] == [Setter(0, 0, Option.None, Normal), Setter(2, 2, Option.None, Normal)]
    && env.setters[y] == [Setter(1, 1, Option.None, Normal)]
  }

  lemma {:induction false} ExampleBindings(x: string, y: string)
    ensures BodyBindings(Example(x, y)) ==
      [Binding(x, Setter(0, 0, Option.None, Normal)),
       Binding(y, Setter(1, 1, Option.None, Normal)),
       Binding(x, Setter(2, 2, Option.None, Normal))]
  {
    FlatBindings(Example(x, y));
  }

  lemma {:induction false} PushThree(a: Binding, b: Binding, c: Binding)
    ensures PushAll(map[], [a, b, c]) == Push(Push(Push(map[], a), b), c)
  {
    assert [a, b, c][..2] == [a, b] && [a, b][..1] == [a] && [a][..0] == [];
    assert PushAll(map[], [a]) == Push(map[], a);
    assert PushAll(map[], [a, b]) == Push(Push(map[], a), b);
  }

  lemma {:induction false} ExampleIs(x: string, y: string)
    requires x != y
    ensures IsExample(Program(ExampleSemantics(), Example(x, y)), x, y)
  {
    FlatIsStraightLine(ExampleSemantics(), Example(x, y));
    ExampleBindings(x, y);
    PushThree(Binding(x, Setter(0, 0, Option.None, Normal)), Binding(y, Setter(1, 1, Option.None, Normal)),
              Binding(x, Setter(2, 2, Option.None, Normal)));
  }

  lemma {:induction false} ExampleFolds(env: Env, x: string, y: string, rho: Valuation)
    requires IsExample(env, x, y) && rho == map[x := Int(2), y := Int(2)]
    ensures Fold(env, rho, x, 2) == Int(2) && Fold(env, rho, y, 1) == Int(2)
    ensures Run(env, rho, x, Int(2), 1, 2) == Int(3)
  {
    assert StmtOf(env, x, 0) == env.body[0] && StmtOf(env, x, 1) == env.body[2] && StmtOf(env, y, 0) == env.body[1];
    assert Fold(env, rho, x, 0) == Undefined && Fold(env, rho, y, 0) == Undefined;
    assert Fold(env, rho, x, 1) == Int(1);
  }

  lemma {:induction false} ExampleFragment(env: Env, x: string, y: string, rho: Valuation, rank: map<string, nat>)
    requires IsExample(env, x, y) && rho == map[x := Int(2), y := Int(2)] && rank == map[x := 0, y := 1]
    ensures Fragment(env, rho, rank)
  {
    assert rho.Keys == env.setters.Keys && rank.Keys == env.setters.Keys;
    forall z | z in env.setters ensures Solved(env, rho, z) {
      ExampleSolved(env, x, y, rho, z);
    }
    forall z | z in env.setters ensures StartsFresh(env, z) {
      ExampleSolved(env, x, y, rho, z);
    }
    forall p | 0 <= p < |env.body| ensures Downward(env, rank, p) {
      ExampleDownward(env, x, y, rank, p);
    }
  }

  lemma {:induction false} ExampleSolved(env: Env, x: string, y: string, rho: Valuation, z: string)
    requires IsExample(env, x, y) && rho == map[x := Int(2), y := Int(2)] && z in env.setters
    ensures Solved(env, rho, z) && StartsFresh(env, z)
  {
    ExampleFolds(env, x, y, rho);
    assert StmtOf(env, x, 0) == env.body[0] && StmtOf(env, y, 0) == env.body[1];
  }

  lemma {:induction false} ExampleDownward(env: Env, x: string, y: string, rank: map<string, nat>, p: nat)
    requires IsExample(env, x, y) && rank == map[x := 0, y := 1] && p < |env.body|
    ensures Downward(env, rank, p)
  {
  }

  /** The first statement of the example leads nowhere, the second to `x`. */
  lemma {:induction false} ExampleLeads(env: Env, x: string, y: string, rho: Valuation, rank: map<string, nat>)
    requires IsExample(env, x, y) && Fragment(env, rho, rank) && rank.Keys == {x, y}
    ensures !LeadsTo(env, rho, rank, 0, x) && LeadsTo(env, rho, rank, 1, x)
  {
    var own := OwnAt(env, rho, rank, 1);
    assert Loads(env, rho, env.body[0], OwnAt(env, rho, rank, 0)) == {};
    assert x in Loads(env, rho, env.body[1], own) && Reaches(env, rho, rank, x, x);
    assert LeadsWith(env, rho, rank, 1, own, x);
  }

  lemma {:induction false} ExamplePlaces(env: Env, x: string, y: string)
    requires IsExample(env, x, y)
    ensures FirstPlace(env, x) == 0 && LastPlace(env, x) == 2 && Done(env, x, 1) == 1
  {
    DoneIs(env, x, 1, 0);
    DoneIs(env, x, 1, 1);
  }

  /** The example meets the hypotheses of the theorems on the text, and the condition under which they say it fails. */
  lemma {:induction false} ExampleText(env: Env, x: string, y: string, rho: Valuation, rank: map<string, nat>)
    requires IsExample(env, x, y) && rho == map[x := Int(2), y := Int(2)] && rank == map[x := 0, y := 1]
    ensures Fragment(env, rho, rank) && AgainShows(env, rho, x)
    ensures FirstLead(env, rho, rank, |env.body|, x) == Some(1)
    ensures FirstPlace(env, x) < 1 <= LastPlace(env, x) && Done(env, x, 1) == 1
  {
    ExampleFragment(env, x, y, rho, rank);
    ExampleFolds(env, x, y, rho);
    ExamplePlaces(env, x, y);
    ExampleLeads(env, x, y, rho, rank);
    FirstLeadIs(env, rho, rank, 3, x);
  }

  /**
   * The read in the middle finishes `x` at 2, which `y` gets and the cache keeps, and then the
   * main walk adds 1 again: the variable of `x` ends at 3.
   */
  lemma {:induction false} MultiSetterVariableFails(x: string, y: string, seed: Id)
    requires x != y
    ensures
      var st := Final(Program(ExampleSemantics(), Example(x, y)), seed);
      Variable(st, y) == Int(2) && x in st.cache && st.cache[x] == Int(2) && Variable(st, x) == Int(3)
  {
    var env := Program(ExampleSemantics(), Example(x, y));
    var rho, rank := map[x := Int(2), y := Int(2)], map[x := 0, y := 1];
    ExampleIs(x, y);
    ExampleText(env, x, y, rho, rank);
    ExampleFolds(env, x, y, rho);
    FinalVariableSingle(env, rho, rank, seed, y);
    FinalCache(env, rho, rank, seed, x);
    FinalVariableText(env, rho, rank, seed, x);
  }
}
