/** The variables before the main walk: exactly the names that some plain assignment of the body binds. */
module LazyStart {
  import opened Values
  import opened LazySyntax
  import opened LazyEmit
  import opened LazyMachine

  /** The assignments of a body in text order, through every nesting of `if`. */
  function LeafStmts(body: seq<Stmt>): seq<Stmt> {
    if body == [] then [] else LeafStmts(body[..|body| - 1]) + LeafStmtsOf(body[|body| - 1])
  }

  function LeafStmtsOf(s: Stmt): seq<Stmt> {
    if s.If? then LeafStmts(s.body) + LeafStmts(s.orelse) else [s]
  }

  /** They are the statements whose occurrences emission lists. */
  ghost predicate Lists(os: seq<Occurrence>, ss: seq<Stmt>) {
    |os| == |ss| && forall i :: 0 <= i < |ss| ==> !ss[i].If? && os[i] == Occurrence(ss[i].target, ss[i].id)
  }

  lemma {:induction false} ListsAppend(os: seq<Occurrence>, ss: seq<Stmt>, ps: seq<Occurrence>, ts: seq<Stmt>)
    requires Lists(os, ss) && Lists(ps, ts)
    ensures Lists(os + ps, ss + ts)
  {
  }

  lemma {:induction false} LeavesListed(body: seq<Stmt>)
    ensures Lists(Leaves(body), LeafStmts(body))
    decreases body
  {
    if body != [] {
      var k := |body| - 1;
      LeavesListed(body[..k]);
      LeavesListedOf(body[k]);
      ListsAppend(Leaves(body[..k]), LeafStmts(body[..k]), LeavesOf(body[k]), LeafStmtsOf(body[k]));
    }
  }

  lemma {:induction false} LeavesListedOf(s: Stmt)
    ensures Lists(LeavesOf(s), LeafStmtsOf(s))
    decreases s
  {
    if s.If? {
      LeavesListed(s.body);
      LeavesListed(s.orelse);
      ListsAppend(Leaves(s.body), LeafStmts(s.body), Leaves(s.orelse), LeafStmts(s.orelse));
    }
  }

  /** Some plain assignment among the statements binds `x`. */
  ghost predicate Binds(ss: seq<Stmt>, x: string) {
    exists i :: 0 <= i < |ss| && ss[i].Assign? && ss[i].target == x
  }

  lemma {:induction false} BindsAppend(ss: seq<Stmt>, ts: seq<Stmt>, x: string)
    ensures Binds(ss + ts, x) <==> Binds(ss, x) || Binds(ts, x)
  {
    if Binds(ss, x) {
      var i :| 0 <= i < |ss| && ss[i].Assign? && ss[i].target == x;
      assert (ss + ts)[i] == ss[i];
    }
    if Binds(ts, x) {
      var i :| 0 <= i < |ts| && ts[i].Assign? && ts[i].target == x;
      assert (ss + ts)[|ss| + i] == ts[i];
    }
    if Binds(ss + ts, x) {
      var i :| 0 <= i < |ss + ts| && (ss + ts)[i].Assign? && (ss + ts)[i].target == x;
      assert if i < |ss| then (ss + ts)[i] == ss[i] else (ss + ts)[i] == ts[i - |ss|];
    }
  }

  lemma {:induction false} LeafStmtsCons(body: seq<Stmt>)
    requires body != []
    ensures LeafStmts(body) == LeafStmtsOf(body[0]) + LeafStmts(body[1..])
    decreases |body|
  {
    var k := |body| - 1;
    if k == 0 {
      assert body[..0] == [] && body[1..] == [] && LeafStmts([]) == [];
      assert [] + LeafStmtsOf(body[0]) == LeafStmtsOf(body[0]) + [];
    } else {
      LeafStmtsCons(body[..k]);
      assert body[..k][1..] == body[1..][..k - 1];
      Attach3(LeafStmtsOf(body[0]), LeafStmts(body[1..][..k - 1]), LeafStmtsOf(body[k]));
    }
  }

  lemma {:induction false} Attach3(a: seq<Stmt>, b: seq<Stmt>, c: seq<Stmt>)
    ensures (a + b) + c == a + (b + c)
  {
  }

  lemma {:induction false} PredefinedBinds(body: seq<Stmt>, x: string)
    ensures x in Predefined(body) <==> Binds(LeafStmts(body), x)
    decreases body
  {
    if body != [] {
      LeafStmtsCons(body);
      BindsAppend(LeafStmtsOf(body[0]), LeafStmts(body[1..]), x);
      PredefinedBinds(body[1..], x);
      var s := body[0];
      if s.If? {
        PredefinedBinds(s.body, x);
        PredefinedBinds(s.orelse, x);
        BindsAppend(LeafStmts(s.body), LeafStmts(s.orelse), x);
      } else {
        assert s.Assign? && s.target == x ==> LeafStmtsOf(s)[0] == s;
      }
    }
  }

  lemma {:induction false} PredefinedAll(body: seq<Stmt>)
    ensures forall x :: x in Predefined(body) <==> Binds(LeafStmts(body), x)
  {
    forall x ensures x in Predefined(body) <==> Binds(LeafStmts(body), x) {
      PredefinedBinds(body, x);
    }
  }

  /**
   * Before the main walk a name is a variable, and then an undefined one, if and only if one of the occurrences that
   * emission lists for the body binds it by a plain assignment, in whichever branch of whichever `if` it stands.
   */
  lemma {:induction false} VariablesAtStart(env: Env, seed: Id, x: string)
    ensures
      var os, ss := Leaves(env.body), LeafStmts(env.body);
      && Lists(os, ss)
      && (x in Init(env, seed).vars <==> exists i :: 0 <= i < |os| && ss[i].Assign? && os[i].name == x)
      && (x in Init(env, seed).vars ==> Init(env, seed).vars[x] == Undefined)
  {
    LeavesListed(env.body);
    PredefinedBinds(env.body, x);
    var os, ss := Leaves(env.body), LeafStmts(env.body);
    if Binds(ss, x) {
      var i :| 0 <= i < |ss| && ss[i].Assign? && ss[i].target == x;
      assert os[i].name == x;
    }
  }
}
