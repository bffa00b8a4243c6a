/**
 * Setter emission: which statements can bind a name, in text order, with the branch of the
 * outermost `if` each one sits in and the leaf statement at which backtracking must stop.
 */
module LazyEmit {
  import opened Values
  import opened LazySyntax

  /** A name bound somewhere in a body, with the id of the binding statement. */
  datatype Occurrence = Occurrence(name: string, id: Id)

  datatype Binding = Binding(name: string, setter: Setter)

  /** All binding occurrences of a body, whatever their nesting, in text order. */
  function Leaves(body: seq<Stmt>): seq<Occurrence> {
    if body == [] then [] else
    var k := |body| - 1;
    Leaves(body[..k]) + LeavesOf(body[k])
  }

  function LeavesOf(s: Stmt): seq<Occurrence> {
    match s
    case Assign(id, x, _) => [Occurrence(x, id)]
    case AugAssign(id, x, _, _) => [Occurrence(x, id)]
    case If(_, _, body, orelse) => Leaves(body) + Leaves(orelse)
  }

  /** The setters for occurrences inside one branch of the `if` statement at index `i`. */
  function Tag(os: seq<Occurrence>, i: nat, id: Id, kind: SetterKind): (bs: seq<Binding>)
    ensures |bs| == |os|
    ensures forall j :: 0 <= j < |os| ==> bs[j] == Binding(os[j].name, Setter(i, id, Some(os[j].id), kind))
  {
    seq(|os|, j requires 0 <= j < |os| => Binding(os[j].name, Setter(i, id, Some(os[j].id), kind)))
  }

  /** The setters a top-level statement contributes. */
  function StmtBindings(s: Stmt, i: nat): seq<Binding> {
    match s
    case Assign(id, x, _) => [Binding(x, Setter(i, id, Option.None, Normal))]
    case AugAssign(id, x, _, _) => [Binding(x, Setter(i, id, Option.None, Normal))]
    case If(id, _, body, orelse) =>
      Tag(Leaves(body), i, id, IfBranch) + Tag(Leaves(orelse), i, id, SetterKind.OrElse)
  }

  function BodyBindings(body: seq<Stmt>): seq<Binding> {
    if body == [] then [] else
    var k := |body| - 1;
    BodyBindings(body[..k]) + StmtBindings(body[k], k)
  }

  /** The setters of `x` among the bindings, in order. */
  function Select(bs: seq<Binding>, x: string): seq<Setter> {
    if bs == [] then [] else
    var k := |bs| - 1;
    Select(bs[..k], x) + (if bs[k].name == x then [bs[k].setter] else [])
  }

  function Push(m: map<string, seq<Setter>>, b: Binding): map<string, seq<Setter>> {
    m[b.name := (if b.name in m then m[b.name] else []) + [b.setter]]
  }

  function PushAll(m: map<string, seq<Setter>>, cs: seq<Binding>): map<string, seq<Setter>> {
    if cs == [] then m else
    var k := |cs| - 1;
    Push(PushAll(m, cs[..k]), cs[k])
  }

  /** The setters of a body grouped by name. */
  function SetterTable(body: seq<Stmt>): map<string, seq<Setter>> {
    PushAll(map[], BodyBindings(body))
  }

  /** The table holds for every name exactly its own bindings, in order, and no empty list. */
  lemma {:induction false} TableAt(bs: seq<Binding>, x: string)
    ensures
      var m := PushAll(map[], bs);
      (if x in m then m[x] else []) == Select(bs, x) && (x in m ==> m[x] != [])
  {
    if bs != [] {
      TableAt(bs[..|bs| - 1], x);
    }
  }

  /** The table with one setter added for a list of in-branch names, as the emitter's loop does it. */
  method AddAll(m: map<string, seq<Setter>>, os: seq<Occurrence>, i: nat, id: Id, kind: SetterKind)
    returns (m': map<string, seq<Setter>>)
    ensures m' == PushAll(m, Tag(os, i, id, kind))
  {
    m' := m;
    ghost var bs := Tag(os, i, id, kind);
    for j := 0 to |os|
      invariant m' == PushAll(m, bs[..j])
    {
      m' := Push(m', Binding(os[j].name, Setter(i, id, Some(os[j].id), kind)));
      assert bs[..j + 1][..j] == bs[..j];
    }
    assert bs[..|os|] == bs;
  }

  /**
   * Emits the setters of a body into the table, or, inside an `if`, collects the names for the
   * enclosing statement, which knows its own index and branch.
   */
  method EmitSettersWith(
    body: seq<Stmt>, table: map<string, seq<Setter>>, isInIf: bool, inIfNames: seq<Occurrence>)
    returns (table': map<string, seq<Setter>>, inIfNames': seq<Occurrence>)
    ensures isInIf ==> table' == table && inIfNames' == inIfNames + Leaves(body)
    ensures !isInIf ==> table' == PushAll(table, BodyBindings(body)) && inIfNames' == inIfNames
    decreases body
  {
    table', inIfNames' := table, inIfNames;
    for i := 0 to |body|
      invariant isInIf ==> table' == table && inIfNames' == inIfNames + Leaves(body[..i])
      invariant !isInIf ==> table' == PushAll(table, BodyBindings(body[..i])) && inIfNames' == inIfNames
    {
      EmitStep(table, inIfNames, body, i);
      var s := body[i];
      if s.If? {
        table', inIfNames' := EmitIf(s, i, table', isInIf, inIfNames');
      } else if isInIf {
        inIfNames' := inIfNames' + [Occurrence(s.target, s.id)];
      } else {
        table' := Push(table', Binding(s.target, Setter(i, s.id, Option.None, Normal)));
      }
    }
    assert body[..|body|] == body;
  }

  /** The `if` statement at index `i`: the names of its body first, then those of its else part. */
  method EmitIf(s: Stmt, i: nat, table: map<string, seq<Setter>>, isInIf: bool, inIfNames: seq<Occurrence>)
    returns (table': map<string, seq<Setter>>, inIfNames': seq<Occurrence>)
    requires s.If?
    ensures isInIf ==> table' == table && inIfNames' == inIfNames + (Leaves(s.body) + Leaves(s.orelse))
    ensures !isInIf ==>
      && table' == PushAll(PushAll(table, Tag(Leaves(s.body), i, s.id, IfBranch)),
                           Tag(Leaves(s.orelse), i, s.id, SetterKind.OrElse))
      && inIfNames' == inIfNames
    decreases s
  {
    var ifNames, orElseNames;
    table', ifNames := EmitSettersWith(s.body, table, true, []);
    inIfNames' := inIfNames;
    if isInIf {
      inIfNames' := inIfNames' + ifNames;
    } else {
      assert ifNames == Leaves(s.body);
      table' := AddAll(table', ifNames, i, s.id, IfBranch);
    }
    table', orElseNames := EmitSettersWith(s.orelse, table', true, []);
    if isInIf {
      inIfNames' := inIfNames' + orElseNames;
    } else {
      assert orElseNames == Leaves(s.orelse);
      table' := AddAll(table', orElseNames, i, s.id, SetterKind.OrElse);
    }
  }

  lemma {:induction false} EmitStep(table: map<string, seq<Setter>>, names: seq<Occurrence>, body: seq<Stmt>, i: nat)
    requires i < |body|
    ensures
      var s := body[i];
      var before := PushAll(table, BodyBindings(body[..i]));
      PushAll(table, BodyBindings(body[..i + 1])) ==
        if s.If? then
          PushAll(PushAll(before, Tag(Leaves(s.body), i, s.id, IfBranch)),
                  Tag(Leaves(s.orelse), i, s.id, SetterKind.OrElse))
        else
          Push(before, Binding(s.target, Setter(i, s.id, Option.None, Normal)))
    ensures
      var s := body[i];
      names + Leaves(body[..i + 1]) ==
        names + Leaves(body[..i]) +
        (if s.If? then Leaves(s.body) + Leaves(s.orelse) else [Occurrence(s.target, s.id)])
  {
    assert body[..i + 1][..i] == body[..i];
    PushAllAppend(table, BodyBindings(body[..i]), StmtBindings(body[i], i));
    PushStmt(PushAll(table, BodyBindings(body[..i])), body[i], i);
    LeavesStep(names, body, i);
  }

  /** What the bindings of one statement add to a table. */
  lemma {:induction false} PushStmt(before: map<string, seq<Setter>>, s: Stmt, i: nat)
    ensures PushAll(before, StmtBindings(s, i)) ==
      if s.If? then
        PushAll(PushAll(before, Tag(Leaves(s.body), i, s.id, IfBranch)),
                Tag(Leaves(s.orelse), i, s.id, SetterKind.OrElse))
      else
        Push(before, Binding(s.target, Setter(i, s.id, Option.None, Normal)))
  {
    if s.If? {
      PushAllAppend(before, Tag(Leaves(s.body), i, s.id, IfBranch), Tag(Leaves(s.orelse), i, s.id, SetterKind.OrElse));
    } else {
      PushSingle(before, Binding(s.target, Setter(i, s.id, Option.None, Normal)));
    }
  }

  lemma {:induction false} PushSingle(m: map<string, seq<Setter>>, b: Binding)
    ensures PushAll(m, [b]) == Push(m, b)
  {
    assert [b][..0] == [];
    assert PushAll(m, []) == m;
  }

  lemma {:induction false} LeavesStep(names: seq<Occurrence>, body: seq<Stmt>, i: nat)
    requires i < |body|
    ensures names + Leaves(body[..i + 1]) == names + Leaves(body[..i]) + LeavesOf(body[i])
  {
    assert body[..i + 1][..i] == body[..i];
    Attach(names, Leaves(body[..i]), LeavesOf(body[i]));
  }

  lemma {:induction false} Attach(a: seq<Occurrence>, b: seq<Occurrence>, c: seq<Occurrence>)
    ensures a + (b + c) == a + b + c
  {
  }

  method EmitSetters(body: seq<Stmt>) returns (table: map<string, seq<Setter>>)
    ensures table == SetterTable(body)
  {
    var names;
    table, names := EmitSettersWith(body, map[], false, []);
  }

  lemma {:induction false} PushAllAppend(m: map<string, seq<Setter>>, bs: seq<Binding>, cs: seq<Binding>)
    ensures PushAll(m, bs + cs) == PushAll(PushAll(m, bs), cs)
  {
    if cs == [] {
      assert bs + cs == bs;
    } else {
      var k := |cs| - 1;
      assert (bs + cs)[..|bs| + k] == bs + cs[..k];
      PushAllAppend(m, bs, cs[..k]);
    }
  }

  /** The statement at which a backtracking step through this setter has done its work. */
  function Stop(s: Setter): Id {
    if s.stopped.Some? then s.stopped.value else s.stmtId
  }

  function Stops(ss: seq<Setter>): seq<Id> {
    seq(|ss|, i requires 0 <= i < |ss| => Stop(ss[i]))
  }

  /** The ids of the statements binding `x`, in text order. */
  function IdsFor(os: seq<Occurrence>, x: string): seq<Id> {
    if os == [] then [] else
    var k := |os| - 1;
    IdsFor(os[..k], x) + (if os[k].name == x then [os[k].id] else [])
  }

  lemma {:induction false} SelectAppend(bs: seq<Binding>, cs: seq<Binding>, x: string)
    ensures Select(bs + cs, x) == Select(bs, x) + Select(cs, x)
  {
    if cs == [] {
      assert bs + cs == bs;
    } else {
      var k := |cs| - 1;
      assert (bs + cs)[..|bs| + k] == bs + cs[..k];
      SelectAppend(bs, cs[..k], x);
    }
  }

  lemma {:induction false} IdsForAppend(os: seq<Occurrence>, ps: seq<Occurrence>, x: string)
    ensures IdsFor(os + ps, x) == IdsFor(os, x) + IdsFor(ps, x)
  {
    if ps == [] {
      assert os + ps == os;
    } else {
      var k := |ps| - 1;
      assert (os + ps)[..|os| + k] == os + ps[..k];
      IdsForAppend(os, ps[..k], x);
    }
  }

  lemma {:induction false} StopsAppend(ss: seq<Setter>, ts: seq<Setter>)
    ensures Stops(ss + ts) == Stops(ss) + Stops(ts)
  {
  }

  lemma {:induction false} TagStops(os: seq<Occurrence>, i: nat, id: Id, kind: SetterKind, x: string)
    ensures Stops(Select(Tag(os, i, id, kind), x)) == IdsFor(os, x)
  {
    if os != [] {
      var k := |os| - 1;
      assert Tag(os, i, id, kind)[..k] == Tag(os[..k], i, id, kind);
      TagStops(os[..k], i, id, kind, x);
    }
  }

  lemma {:induction false} StmtStops(s: Stmt, i: nat, x: string)
    ensures Stops(Select(StmtBindings(s, i), x)) == IdsFor(LeavesOf(s), x)
  {
    if s.If? {
      var ts := Tag(Leaves(s.body), i, s.id, IfBranch);
      var us := Tag(Leaves(s.orelse), i, s.id, SetterKind.OrElse);
      SelectAppend(ts, us, x);
      StopsAppend(Select(ts, x), Select(us, x));
      IdsForAppend(Leaves(s.body), Leaves(s.orelse), x);
      TagStops(Leaves(s.body), i, s.id, IfBranch, x);
      TagStops(Leaves(s.orelse), i, s.id, SetterKind.OrElse, x);
    } else {
      LeafStops(s.target, s.id, i, x);
    }
  }

  lemma {:induction false} LeafStops(name: string, id: Id, i: nat, x: string)
    ensures Stops(Select([Binding(name, Setter(i, id, Option.None, Normal))], x)) == IdsFor([Occurrence(name, id)], x)
  {
    var b := Binding(name, Setter(i, id, Option.None, Normal));
    assert [b][..0] == [] && [Occurrence(name, id)][..0] == [];
    assert Select([b], x) == Select([], x) + (if name == x then [b.setter] else []);
  }

  /**
   * Emission loses and duplicates nothing: the stop points of the setters of `x` are the
   * binding occurrences of `x` in text order, through every nesting of `if`.
   */
  lemma {:induction false} EmissionIsFlattening(body: seq<Stmt>, x: string)
    ensures
      var m := SetterTable(body);
      Stops(if x in m then m[x] else []) == IdsFor(Leaves(body), x)
  {
    TableAt(BodyBindings(body), x);
    FlatteningAt(body, x);
  }

  lemma {:induction false} FlatteningAt(body: seq<Stmt>, x: string)
    ensures Stops(Select(BodyBindings(body), x)) == IdsFor(Leaves(body), x)
  {
    if body != [] {
      var k := |body| - 1;
      FlatteningAt(body[..k], x);
      StmtStops(body[k], k, x);
      SelectAppend(BodyBindings(body[..k]), StmtBindings(body[k], k), x);
      StopsAppend(Select(BodyBindings(body[..k]), x), Select(StmtBindings(body[k], k), x));
      IdsForAppend(Leaves(body[..k]), LeavesOf(body[k]), x);
    }
  }

  /** The setter belongs to `x` at its top-level statement, in the branch its kind names. */
  predicate TaggedRight(body: seq<Stmt>, x: string, s: Setter) {
    && s.stmt < |body| && s.stmtId == body[s.stmt].id
    && match s.kind
       case Normal => !body[s.stmt].If? && body[s.stmt].target == x && s.stopped.None?
       case IfBranch =>
         body[s.stmt].If? && s.stopped.Some? && Occurrence(x, s.stopped.value) in Leaves(body[s.stmt].body)
       case OrElse =>
         body[s.stmt].If? && s.stopped.Some? && Occurrence(x, s.stopped.value) in Leaves(body[s.stmt].orelse)
  }

  /** Every emitted setter carries its top-level index, its branch and a leaf of that branch. */
  lemma {:induction false} EmissionIsTagged(body: seq<Stmt>, x: string, k: nat)
    requires x in SetterTable(body) && k < |SetterTable(body)[x]|
    ensures TaggedRight(body, x, SetterTable(body)[x][k])
  {
    TableAt(BodyBindings(body), x);
    SelectedFrom(BodyBindings(body), x, k);
    var b: Binding :| b in BodyBindings(body) && b.name == x && b.setter == SetterTable(body)[x][k];
    BindingsTagged(body, b);
  }

  lemma {:induction false} SelectedFrom(bs: seq<Binding>, x: string, k: nat)
    requires k < |Select(bs, x)|
    ensures Binding(x, Select(bs, x)[k]) in bs
  {
    var j := |bs| - 1;
    if k < |Select(bs[..j], x)| {
      SelectedFrom(bs[..j], x, k);
    } else {
      assert bs[j] in bs;
    }
  }

  lemma {:induction false} BindingsTagged(body: seq<Stmt>, b: Binding)
    requires b in BodyBindings(body)
    ensures TaggedRight(body, b.name, b.setter)
  {
    var k := |body| - 1;
    if b in BodyBindings(body[..k]) {
      BindingsTagged(body[..k], b);
    } else {
      assert b in StmtBindings(body[k], k);
    }
  }
}
