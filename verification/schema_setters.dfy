/** Schema hierarchies: the setters of an attribute, collected from the parent, the schema itself and its mixins. */
module SchemaSetters {
  import opened Values
  import opened LazySyntax
  import opened LazyEmit

  /** A setter and the schema it was written in. */
  datatype Origin = Origin(index: Option<nat>, setter: Setter)

  type Table = map<string, seq<Origin>>

  /** What is fixed about a schema: indices of its parent and mixins, and its body. */
  datatype Decl = Decl(parent: Option<nat>, mixins: seq<nat>, body: seq<Stmt>)

  /** Every parent and mixin exists and lies lower: no schema is its own ancestor. */
  ghost predicate Acyclic(decls: seq<Decl>, rank: seq<nat>) {
    |rank| == |decls| && forall k :: 0 <= k < |decls| ==> Lower(decls, rank, k)
  }

  ghost predicate Lower(decls: seq<Decl>, rank: seq<nat>, k: nat)
    requires k < |decls| == |rank|
  {
    && (decls[k].parent.Some? ==> decls[k].parent.value < |decls| && rank[decls[k].parent.value] < rank[k])
    && forall i :: 0 <= i < |decls[k].mixins| ==> decls[k].mixins[i] < |decls| && rank[decls[k].mixins[i]] < rank[k]
  }

  function Marked(index: Option<nat>, setters: seq<Setter>): (r: seq<Origin>)
    ensures |r| == |setters| && forall i :: 0 <= i < |setters| ==> r[i] == Origin(index, setters[i])
  {
    seq(|setters|, i requires 0 <= i < |setters| => Origin(index, setters[i]))
  }

  // The linearisation of one attribute.

  /** The schema's own setters of an attribute, in text order. */
  function Own(body: seq<Stmt>, index: Option<nat>, x: string): seq<Origin> {
    Marked(index, Select(BodyBindings(body), x))
  }

  /** The setters of an attribute: the parent's, then the schema's own, then each mixin's in order. */
  ghost function Linear(decls: seq<Decl>, rank: seq<nat>, k: nat, index: Option<nat>, x: string): seq<Origin>
    requires Acyclic(decls, rank) && k < |decls|
    decreases rank[k], 1, 0
  {
    LinearTo(decls, rank, k, index, |decls[k].mixins|, x)
  }

  ghost function LinearTo(decls: seq<Decl>, rank: seq<nat>, k: nat, index: Option<nat>, n: nat, x: string): seq<Origin>
    requires Acyclic(decls, rank) && k < |decls| && n <= |decls[k].mixins|
    decreases rank[k], 0, n
  {
    assert Lower(decls, rank, k);
    if n > 0 then
      var m := decls[k].mixins[n - 1];
      LinearTo(decls, rank, k, index, n - 1, x) + Linear(decls, rank, m, Some(m), x)
    else
      (if decls[k].parent.None? then [] else Linear(decls, rank, decls[k].parent.value, decls[k].parent, x))
      + Own(decls[k].body, index, x)
  }

  // The tables the code builds.

  function At(t: Table, x: string): seq<Origin> {
    if x in t then t[x] else []
  }

  function MergedOne(s: Table, key: string, setters: seq<Origin>): Table {
    s[key := At(s, key) + setters]
  }

  /** A value with an undefined entry for a name it lacks. */
  function WithOne(v: map<string, Value>, key: string): map<string, Value> {
    if key in v then v else v[key := Undefined]
  }

  /** The setters of one attribute: pushed after those already there, or a new list. */
  method MergeOne(
    v: map<string, Value>, s: Table, key: string, setters: seq<Origin>)
    returns (v': map<string, Value>, s': Table)
    ensures s' == MergedOne(s, key, setters) && v' == WithOne(v, key)
  {
    v', s' := v, s;
    if key in s {
      var values := s[key];
      for i := 0 to |setters|
        invariant values == s[key] + setters[..i]
      {
        values := values + [setters[i]];
      }
      assert setters[..|setters|] == setters;
      s' := s[key := values];
    } else {
      assert [] + setters == setters;
      s' := s[key := setters];
    }
    if key !in v {
      v' := v[key := Undefined];
    }
  }

  function MergedTo(s: Table, other: Table, keys: seq<string>): Table {
    if keys == [] then s else
    var k := |keys| - 1;
    MergedOne(MergedTo(s, other, keys[..k]), keys[k], At(other, keys[k]))
  }

  function ExtendedTo(v: map<string, Value>, keys: seq<string>): map<string, Value> {
    if keys == [] then v else
    var k := |keys| - 1;
    WithOne(ExtendedTo(v, keys[..k]), keys[k])
  }

  /** Two tables, the second's setters after the first's. */
  function Merged(s: Table, other: Table): Table {
    map x | x in s.Keys + other.Keys :: At(s, x) + At(other, x)
  }

  /** A value with an undefined entry for every listed name it lacks. */
  function Extended(v: map<string, Value>, names: set<string>): map<string, Value> {
    map x | x in v.Keys + names :: if x in v then v[x] else Undefined
  }

  ghost predicate Distinct(keys: seq<string>) {
    forall i, j :: 0 <= i < j < |keys| ==> keys[i] != keys[j]
  }

  lemma {:induction false} MergedAt(s: Table, other: Table, keys: seq<string>, x: string)
    requires Distinct(keys)
    ensures At(MergedTo(s, other, keys), x) == At(s, x) + (if x in keys then At(other, x) else [])
    ensures x in MergedTo(s, other, keys) <==> x in s || x in keys
    decreases |keys|
  {
    if keys == [] {
      assert At(s, x) + [] == At(s, x);
    } else {
      var k := |keys| - 1;
      MergedAt(s, other, keys[..k], x);
      assert keys == keys[..k] + [keys[k]];
      if x == keys[k] {
        assert x !in keys[..k];
        assert At(s, x) + [] == At(s, x);
      }
    }
  }

  lemma {:induction false} ExtendedAt(v: map<string, Value>, keys: seq<string>, x: string)
    ensures x in ExtendedTo(v, keys) <==> x in v || x in keys
    ensures x in ExtendedTo(v, keys) ==> ExtendedTo(v, keys)[x] == if x in v then v[x] else Undefined
    decreases |keys|
  {
    if keys != [] {
      var k := |keys| - 1;
      ExtendedAt(v, keys[..k], x);
      assert keys == keys[..k] + [keys[k]];
    }
  }

  lemma {:induction false} MergedAll(s: Table, other: Table, keys: seq<string>)
    requires Distinct(keys) && forall x :: x in keys <==> x in other
    ensures MergedTo(s, other, keys) == Merged(s, other)
  {
    var t := MergedTo(s, other, keys);
    forall x ensures At(t, x) == At(s, x) + At(other, x) && (x in t <==> x in s || x in other) {
      MergedAt(s, other, keys, x);
    }
    assert t.Keys == Merged(s, other).Keys;
    forall x | x in t ensures t[x] == Merged(s, other)[x] {
      assert At(t, x) == t[x];
    }
  }

  lemma {:induction false} ExtendedAll(v: map<string, Value>, keys: seq<string>, names: set<string>)
    requires forall x :: x in keys <==> x in names
    ensures ExtendedTo(v, keys) == Extended(v, names)
  {
    forall x
      ensures x in ExtendedTo(v, keys) <==> x in v || x in names
      ensures x in ExtendedTo(v, keys) ==> ExtendedTo(v, keys)[x] == if x in v then v[x] else Undefined
    {
      ExtendedAt(v, keys, x);
    }
    assert ExtendedTo(v, keys).Keys == Extended(v, names).Keys;
  }

  /** The keys of a table, each once. */
  method KeysOf(t: Table) returns (keys: seq<string>)
    ensures Distinct(keys) && forall x :: x in keys <==> x in t
  {
    keys := [];
    var todo := t.Keys;
    while todo != {}
      invariant Distinct(keys)
      invariant forall x :: x in keys ==> x in t && x !in todo
      invariant forall x :: x in t ==> x in keys || x in todo
      invariant forall x :: x in todo ==> x in t
      decreases |todo|
    {
      var key :| key in todo;
      keys := keys + [key];
      todo := todo - {key};
    }
  }

  /** Adds the setters of one table to another, and undefined entries to the value. */
  method MergeVariablesAndSetters(
    v: map<string, Value>, s: Table, other: Table)
    returns (v': map<string, Value>, s': Table)
    ensures v' == Extended(v, other.Keys) && s' == Merged(s, other)
  {
    v', s' := v, s;
    var keys := KeysOf(other);
    for i := 0 to |keys|
      invariant v' == ExtendedTo(v, keys[..i]) && s' == MergedTo(s, other, keys[..i])
    {
      MergeStep(v, s, other, keys, i);
      v', s' := MergeOne(v', s', keys[i], other[keys[i]]);
    }
    assert keys[..|keys|] == keys;
    MergedAll(s, other, keys);
    ExtendedAll(v, keys, other.Keys);
  }

  lemma {:induction false} MergeStep(v: map<string, Value>, s: Table, other: Table, keys: seq<string>, i: nat)
    requires i < |keys|
    ensures MergedTo(s, other, keys[..i + 1]) == MergedOne(MergedTo(s, other, keys[..i]), keys[i], At(other, keys[i]))
    ensures ExtendedTo(v, keys[..i + 1]) == WithOne(ExtendedTo(v, keys[..i]), keys[i])
  {
    assert keys[..i + 1][..i] == keys[..i];
  }

  function OwnTable(body: seq<Stmt>, index: Option<nat>): Table {
    map x | x in SetterTable(body) :: Marked(index, SetterTable(body)[x])
  }

  /** The setters of a body, marked with where they come from. */
  method EmitMarked(body: seq<Stmt>, index: Option<nat>) returns (t: Table)
    ensures t == OwnTable(body, index)
  {
    var table := EmitSetters(body);
    t := map x | x in table :: Marked(index, table[x]);
  }

  ghost function TableOf(decls: seq<Decl>, rank: seq<nat>, k: nat, index: Option<nat>): Table
    requires Acyclic(decls, rank) && k < |decls|
    decreases rank[k], 2, 0
  {
    TableTo(decls, rank, k, index, |decls[k].mixins|)
  }

  ghost function ParentTable(decls: seq<Decl>, rank: seq<nat>, k: nat): Table
    requires Acyclic(decls, rank) && k < |decls|
    decreases rank[k], 0, 0
  {
    assert Lower(decls, rank, k);
    if decls[k].parent.None? then map[] else TableOf(decls, rank, decls[k].parent.value, decls[k].parent)
  }

  ghost function TableTo(decls: seq<Decl>, rank: seq<nat>, k: nat, index: Option<nat>, n: nat): Table
    requires Acyclic(decls, rank) && k < |decls| && n <= |decls[k].mixins|
    decreases rank[k], 1, n
  {
    assert Lower(decls, rank, k);
    if n > 0 then
      var m := decls[k].mixins[n - 1];
      Merged(TableTo(decls, rank, k, index, n - 1), TableOf(decls, rank, m, Some(m)))
    else
      Merged(ParentTable(decls, rank, k), OwnTable(decls[k].body, index))
  }

  lemma {:induction false} MergedHas(a: Table, b: Table, x: string)
    ensures At(Merged(a, b), x) == At(a, x) + At(b, x)
    ensures x in Merged(a, b) <==> x in a || x in b
  {
  }

  lemma {:induction false} OwnHas(body: seq<Stmt>, index: Option<nat>, x: string)
    ensures At(OwnTable(body, index), x) == Own(body, index, x)
    ensures x in OwnTable(body, index) <==> Own(body, index, x) != []
  {
    TableAt(BodyBindings(body), x);
  }

  /** The tables list exactly the linearised setters of every attribute, and no empty list. */
  lemma {:induction false} TableIsLinear(decls: seq<Decl>, rank: seq<nat>, k: nat, index: Option<nat>, x: string)
    requires Acyclic(decls, rank) && k < |decls|
    ensures At(TableOf(decls, rank, k, index), x) == Linear(decls, rank, k, index, x)
    ensures x in TableOf(decls, rank, k, index) <==> Linear(decls, rank, k, index, x) != []
    decreases rank[k], 1, 0
  {
    TableToIsLinear(decls, rank, k, index, |decls[k].mixins|, x);
  }

  lemma {:induction false} TableToIsLinear(
    decls: seq<Decl>, rank: seq<nat>, k: nat, index: Option<nat>, n: nat, x: string)
    requires Acyclic(decls, rank) && k < |decls| && n <= |decls[k].mixins|
    ensures At(TableTo(decls, rank, k, index, n), x) == LinearTo(decls, rank, k, index, n, x)
    ensures x in TableTo(decls, rank, k, index, n) <==> LinearTo(decls, rank, k, index, n, x) != []
    decreases rank[k], 0, n
  {
    assert Lower(decls, rank, k);
    if n > 0 {
      var m := decls[k].mixins[n - 1];
      TableToIsLinear(decls, rank, k, index, n - 1, x);
      TableIsLinear(decls, rank, m, Some(m), x);
      MergedHas(TableTo(decls, rank, k, index, n - 1), TableOf(decls, rank, m, Some(m)), x);
    } else {
      OwnHas(decls[k].body, index, x);
      if decls[k].parent.Some? {
        TableIsLinear(decls, rank, decls[k].parent.value, decls[k].parent, x);
      }
      MergedHas(ParentTable(decls, rank, k), OwnTable(decls[k].body, index), x);
    }
  }

  /** The schemas an index leads to through parents and mixins. */
  ghost predicate Above(decls: seq<Decl>, rank: seq<nat>, k: nat, j: nat)
    requires Acyclic(decls, rank) && k < |decls|
    decreases rank[k]
  {
    assert Lower(decls, rank, k);
    || j == k
    || (decls[k].parent.Some? && Above(decls, rank, decls[k].parent.value, j))
    || exists i :: 0 <= i < |decls[k].mixins| && Above(decls, rank, decls[k].mixins[i], j)
  }

  ghost predicate Defines(decls: seq<Decl>, rank: seq<nat>, k: nat, x: string, o: Origin)
    requires Acyclic(decls, rank) && k < |decls|
  {
    && o.index.Some? && o.index.value < |decls| && Above(decls, rank, k, o.index.value)
    && o.setter in Select(BodyBindings(decls[o.index.value].body), x)
  }

  /** Every setter of an attribute is marked with a schema of the hierarchy in whose body it sets that attribute. */
  lemma {:induction false} LinearIsMarked(decls: seq<Decl>, rank: seq<nat>, k: nat, x: string, o: Origin)
    requires Acyclic(decls, rank) && k < |decls| && o in Linear(decls, rank, k, Some(k), x)
    ensures Defines(decls, rank, k, x, o)
    decreases rank[k], 1, 0
  {
    LinearToIsMarked(decls, rank, k, |decls[k].mixins|, x, o);
  }

  lemma {:induction false} LinearToIsMarked(decls: seq<Decl>, rank: seq<nat>, k: nat, n: nat, x: string, o: Origin)
    requires Acyclic(decls, rank) && k < |decls| && n <= |decls[k].mixins|
    requires o in LinearTo(decls, rank, k, Some(k), n, x)
    ensures Defines(decls, rank, k, x, o)
    decreases rank[k], 0, n
  {
    assert Lower(decls, rank, k);
    if n > 0 {
      var m := decls[k].mixins[n - 1];
      if o in LinearTo(decls, rank, k, Some(k), n - 1, x) {
        LinearToIsMarked(decls, rank, k, n - 1, x, o);
      } else {
        LinearIsMarked(decls, rank, m, x, o);
      }
    } else if o !in Own(decls[k].body, Some(k), x) {
      LinearIsMarked(decls, rank, decls[k].parent.value, x, o);
    }
  }

  lemma {:induction false} ExtendedTwice(v: map<string, Value>, a: Table, b: Table)
    ensures Extended(Extended(v, a.Keys), b.Keys) == Extended(v, Merged(a, b).Keys)
  {
    assert Merged(a, b).Keys == a.Keys + b.Keys;
    assert Extended(Extended(v, a.Keys), b.Keys).Keys == Extended(v, Merged(a, b).Keys).Keys;
  }

  /** The value of a schema keeps what it had and gets an undefined entry for every further attribute with a setter. */
  lemma {:induction false} ExtendedIs(v: map<string, Value>, names: set<string>, x: string)
    ensures x in Extended(v, names) <==> x in v || x in names
    ensures x in v ==> Extended(v, names)[x] == v[x]
    ensures x in names && x !in v ==> Extended(v, names)[x] == Undefined
  {
  }

  /** All schema contexts: their values and, once initialised, their lazy scopes. */
  class Schemas {
    const decls: seq<Decl>
    var values: seq<map<string, Value>>
    var scopes: seq<Option<Table>>

    ghost predicate Valid()
      reads this
    {
      |values| == |decls| && |scopes| == |decls|
    }

    constructor (decls: seq<Decl>, values: seq<map<string, Value>>)
      requires |values| == |decls|
      ensures Valid() && this.decls == decls && this.values == values
    {
      this.decls := decls;
      this.values := values;
      scopes := seq(|decls|, _ => Option.None);
    }

    /** Contexts that are not below `k` are as they were. */
    twostate predicate OthersKept(rank: seq<nat>, k: nat)
      reads this
      requires Valid() && old(Valid()) && k < |decls| == |rank|
    {
      forall j :: 0 <= j < |decls| && rank[j] >= rank[k] ==> values[j] == old(values)[j] && scopes[j] == old(scopes)[j]
    }

    /** The scope of a schema gets its table, its value an entry for every attribute that has a setter. */
    method InitLazyScope(k: nat, index: Option<nat>, ghost rank: seq<nat>)
      requires Valid() && Acyclic(decls, rank) && k < |decls|
      modifies this
      ensures Valid() && scopes[k] == Some(TableOf(decls, rank, k, index))
      ensures values[k] == Extended(old(values)[k], TableOf(decls, rank, k, index).Keys)
      ensures forall j :: 0 <= j < |decls| && j != k && rank[j] >= rank[k] ==>
        values[j] == old(values)[j] && scopes[j] == old(scopes)[j]
      decreases rank[k], 1, 0
    {
      ghost var before := values[k];
      var value, setters := MergeOwn(k, index, rank);
      for i := 0 to |decls[k].mixins|
        invariant Valid() && OthersKept(rank, k)
        invariant setters == TableTo(decls, rank, k, index, i)
        invariant value == Extended(before, setters.Keys)
      {
        value, setters := MergeMixin(k, index, rank, i, before, value, setters);
      }
      values := values[k := value];
      scopes := scopes[k := Some(setters)];
    }

    /** The parent's setters, then those of the schema's own body. */
    method MergeOwn(k: nat, index: Option<nat>, ghost rank: seq<nat>)
      returns (value: map<string, Value>, setters: Table)
      requires Valid() && Acyclic(decls, rank) && k < |decls|
      modifies this
      ensures Valid() && OthersKept(rank, k)
      ensures setters == TableTo(decls, rank, k, index, 0)
      ensures value == Extended(old(values)[k], setters.Keys)
      decreases rank[k], 0, 1
    {
      value, setters := MergeParent(k, rank);
      var own := EmitMarked(decls[k].body, index);
      ExtendedTwice(old(values)[k], setters, own);
      value, setters := MergeVariablesAndSetters(value, setters, own);
    }

    /** The next mixin's scope is initialised and added. */
    method MergeMixin(k: nat, ghost index: Option<nat>, ghost rank: seq<nat>, i: nat, ghost before: map<string, Value>,
                      value: map<string, Value>, setters: Table)
      returns (value': map<string, Value>, setters': Table)
      requires Valid() && Acyclic(decls, rank) && k < |decls| && i < |decls[k].mixins|
      requires setters == TableTo(decls, rank, k, index, i) && value == Extended(before, setters.Keys)
      modifies this
      ensures Valid() && OthersKept(rank, k)
      ensures setters' == TableTo(decls, rank, k, index, i + 1) && value' == Extended(before, setters'.Keys)
      decreases rank[k], 0, 0
    {
      assert Lower(decls, rank, k);
      var m := decls[k].mixins[i];
      InitLazyScope(m, Some(m), rank);
      ExtendedTwice(before, setters, scopes[m].value);
      value', setters' := MergeVariablesAndSetters(value, setters, scopes[m].value);
    }

    /** The parent's scope is initialised first and starts the table. */
    method MergeParent(k: nat, ghost rank: seq<nat>) returns (value: map<string, Value>, setters: Table)
      requires Valid() && Acyclic(decls, rank) && k < |decls|
      modifies this
      ensures Valid() && OthersKept(rank, k)
      ensures setters == ParentTable(decls, rank, k)
      ensures value == Extended(old(values)[k], setters.Keys)
      decreases rank[k], 0, 0
    {
      assert Lower(decls, rank, k);
      setters := map[];
      value := values[k];
      if decls[k].parent.Some? {
        var p := decls[k].parent.value;
        InitLazyScope(p, Some(p), rank);
        value, setters := MergeVariablesAndSetters(value, setters, scopes[p].value);
        MergedEmpty(scopes[p].value);
      } else {
        assert Extended(value, {}).Keys == value.Keys;
      }
    }
  }

  lemma {:induction false} MergedEmpty(t: Table)
    ensures Merged(map[], t) == t
  {
    assert Merged(map[], t).Keys == t.Keys;
    forall x | x in t ensures Merged(map[], t)[x] == t[x] {
      assert [] + t[x] == t[x];
    }
  }
}
