/**
 * The union loop computes the merge: with the idempotence check it succeeds exactly on
 * configurations that agree, without it on all configurations of consistent kinds.
 */
module UnionLaws {
  import opened Values
  import opened MergeSpec
  import opened MergeAgree
  import opened MergeLaws
  import opened Union

  const CHECKED := Options(false, true)
  const UNCHECKED := Options(false, false)

  /** Only plain union entries, at every depth: `key: value` without an index. */
  predicate UnionOnly(v: Value) {
    match v
    case List(items) => forall i :: 0 <= i < |items| ==> UnionOnly(items[i])
    case Dict(es, ops, indexes) =>
      && indexes == map[] && (forall k :: k in ops ==> ops[k] == EntryOp.Union)
      && forall i :: 0 <= i < |es| ==> UnionOnly(es[i].value)
    case _ => true
  }

  // ---- one step of the loop ----

  lemma {:induction false} KeysPut(es: seq<Entry>, k: string, v: Value)
    ensures Keys(Put(es, k, v)) == Keys(es) + {k}
    ensures k !in Keys(es) ==> Put(es, k, v) == es + [Entry(k, v)]
  {
    if es != [] {
      KeysPut(es[1..], k, v);
      if es[0].key != k {
        assert Put(es, k, v)[1..] == Put(es[1..], k, v);
      } else {
        assert Put(es, k, v)[1..] == es[1..];
      }
    }
  }

  lemma {:induction false} FindPut(es: seq<Entry>, k: string, v: Value, j: string)
    ensures Find(Put(es, k, v), j) == if j == k then Some(v) else Find(es, j)
  {
    if es != [] {
      FindPut(es[1..], k, v, j);
      if es[0].key != k {
        assert Put(es, k, v)[1..] == Put(es[1..], k, v);
      } else {
        assert Put(es, k, v)[1..] == es[1..];
      }
    }
  }

  lemma {:induction false} UniquePut(es: seq<Entry>, k: string, v: Value)
    requires UniqueKeys(es) && AllWellFormed(es) && WellFormed(v)
    ensures UniqueKeys(Put(es, k, v)) && AllWellFormed(Put(es, k, v))
  {
    if es != [] {
      KeysPut(es[1..], k, v);
      UniquePut(es[1..], k, v);
      if es[0].key != k {
        assert Put(es, k, v)[1..] == Put(es[1..], k, v);
      } else {
        assert Put(es, k, v)[1..] == es[1..];
      }
    }
  }

  lemma {:induction false} UpdatedIgnores(xs: seq<Entry>, e: Entry, ys: seq<Entry>)
    requires e.key !in Keys(xs)
    ensures Updated(xs, [e] + ys) == Updated(xs, ys)
  {
    if xs != [] {
      UpdatedIgnores(xs[1..], e, ys);
      assert ([e] + ys)[1..] == ys;
    }
  }

  lemma {:induction false} UpdatedPut(es: seq<Entry>, k: string, v: Value, ds: seq<Entry>)
    requires UniqueKeys(es) && Find(es, k).Some? && k !in Keys(ds)
    ensures Updated(Put(es, k, Merge(Find(es, k).value, v)), ds) == Updated(es, [Entry(k, v)] + ds)
  {
    var u, e := Merge(Find(es, k).value, v), Entry(k, v);
    assert ([e] + ds)[1..] == ds;
    FindIffKey(ds, k);
    if es[0].key == k {
      assert Put(es, k, u)[1..] == es[1..];
      UpdatedIgnores(es[1..], e, ds);
    } else {
      assert Put(es, k, u)[1..] == Put(es[1..], k, u);
      UpdatedPut(es[1..], k, v, ds);
    }
  }

  lemma {:induction false} FreshIgnores(ks: set<string>, k: string, ds: seq<Entry>)
    requires k !in Keys(ds)
    ensures Fresh(ks + {k}, ds) == Fresh(ks, ds)
  {
    if ds != [] {
      FreshIgnores(ks, k, ds[1..]);
    }
  }

  /** Merging one entry and then the rest is merging all of them. */
  lemma {:induction false} MergeStep(es: seq<Entry>, k: string, v: Value, ds: seq<Entry>)
    requires UniqueKeys(es) && k !in Keys(ds)
    ensures
      var o := Find(es, k);
      MergeEntries(Put(es, k, if o.Some? then Merge(o.value, v) else v), ds) == MergeEntries(es, [Entry(k, v)] + ds)
  {
    var o, e := Find(es, k), Entry(k, v);
    assert ([e] + ds)[1..] == ds;
    FindIffKey(es, k);
    FindIffKey(ds, k);
    if o.Some? {
      UpdatedPut(es, k, v, ds);
      KeysPut(es, k, Merge(o.value, v));
      assert Keys(es) + {k} == Keys(es);
      assert Fresh(Keys(es), [e] + ds) == [] + Fresh(Keys(es), ds);
    } else {
      KeysPut(es, k, v);
      UpdatedAppend(es, [e], ds);
      UpdatedIgnores(es, e, ds);
      FreshIgnores(Keys(es), k, ds);
      assert [e][1..] == [] && Updated([e], ds) == [e];
      assert Fresh(Keys(es), [e] + ds) == [e] + Fresh(Keys(es), ds);
      ConcatAssoc(Updated(es, ds), [e], Fresh(Keys(es), ds));
    }
  }

  lemma {:induction false} AgreePut(es: seq<Entry>, k: string, u: Value, ds: seq<Entry>)
    requires k !in Keys(ds)
    ensures AgreeEntries(Put(es, k, u), ds) == AgreeEntries(es, ds)
  {
    if ds != [] {
      FindPut(es, k, u, ds[0].key);
      AgreePut(es, k, u, ds[1..]);
    }
  }

  lemma {:induction false} AgreeSubsume(o: Value, v: Value)
    requires Agree(o, v)
    ensures Subsume(v, o)
    decreases v
  {
    if !o.Empty() && !v.Empty() && v.List? {
      AgreeSubsumeItems(o.items, v.items);
    }
  }

  lemma {:induction false} AgreeSubsumeItems(xs: seq<Value>, ys: seq<Value>)
    requires |xs| == |ys| && AgreeItems(xs, ys)
    ensures SubsumeItems(ys, xs)
    decreases ys
  {
    if ys != [] {
      AgreeSubsume(xs[0], ys[0]);
      AgreeSubsumeItems(xs[1..], ys[1..]);
    }
  }

  // ---- with the idempotence check ----

  /** A checked union reports a conflict exactly when the two values do not agree. */
  lemma {:induction false} CheckedUnion(p: Value, x: Value, conflict: bool)
    requires WellFormed(p) && WellFormed(x) && UnionOnly(x) && Subsume(x, p)
    ensures
      var r := UnionValues(p, x, false, CHECKED, conflict);
      && r.Done? && (r.conflict <==> conflict || !Agree(p, x))
      && (!r.conflict ==> r.value == Merge(p, x))
    decreases x
  {
    if !p.Empty() && !x.Empty() {
      if x.List? {
        CheckedItems(p.items, x.items, conflict);
      } else if x.Dict? {
        CheckedEntries(p.entries, x.entries, x.ops, conflict);
      }
    }
  }

  lemma {:induction false} CheckedItems(xs: seq<Value>, ys: seq<Value>, conflict: bool)
    requires |xs| == |ys| && SubsumeItems(ys, xs)
    requires forall i :: 0 <= i < |xs| ==> WellFormed(xs[i])
    requires forall i :: 0 <= i < |ys| ==> WellFormed(ys[i]) && UnionOnly(ys[i])
    ensures
      var r := UnionItems(xs, ys, CHECKED, conflict);
      && r.ItemsDone? && (r.conflict <==> conflict || !AgreeItems(xs, ys))
      && (!r.conflict ==> r.items == MergeItems(xs, ys))
    decreases ys
  {
    if xs != [] {
      CheckedUnion(xs[0], ys[0], conflict);
      CheckedItems(xs[1..], ys[1..], UnionValues(xs[0], ys[0], false, CHECKED, conflict).conflict);
    }
  }

  /** A plain union entry is inserted when new and merged in place when its key exists. */
  lemma {:induction false} PlainEntry(
    es: seq<Entry>, ds: seq<Entry>, ops: map<string, EntryOp>, opts: Options, conflict: bool)
    requires ds != [] && OpOf(ops, ds[0].key) == EntryOp.Union
    ensures
      var k, v := ds[0].key, ds[0].value;
      UnionEntries(es, ds, ops, map[], opts, conflict) ==
      match Find(es, k)
      case None => UnionEntries(Put(es, k, v), ds[1..], ops, map[], opts, conflict)
      case Some(o) =>
        if opts.idempotentCheck && !Subsume(v, o) then EntriesDone(es, true, true)
        else match UnionValues(o, v, false, opts, conflict)
          case Panic => EntriesPanic
          case Done(u, c) =>
            if c then EntriesDone(Put(es, k, u), true, true)
            else UnionEntries(Put(es, k, u), ds[1..], ops, map[], opts, false)
  {
    var k, v := ds[0].key, ds[0].value;
    var indexes: map<string, int> := map[];
    assert IndexOf(indexes, k).None?;
    var o := Find(es, k);
    if o.Some? {
      assert UnionEntry(es, k, v, EntryOp.Union, Option.None, opts, conflict) ==
             UnionShared(es, k, v, o.value, opts, conflict);
    }
  }

  lemma {:induction false} CheckedEntries(es: seq<Entry>, ds: seq<Entry>, ops: map<string, EntryOp>, conflict: bool)
    requires UniqueKeys(es) && UniqueKeys(ds) && AllWellFormed(es) && AllWellFormed(ds)
    requires forall i :: 0 <= i < |ds| ==> UnionOnly(ds[i].value)
    requires forall k :: k in ops ==> ops[k] == EntryOp.Union
    ensures
      var r := UnionEntries(es, ds, ops, map[], CHECKED, conflict);
      && r.EntriesDone? && (r.conflict <==> conflict || !AgreeEntries(es, ds))
      && (!r.conflict ==> r.entries == MergeEntries(es, ds))
    decreases ds
  {
    if ds == [] {
      NothingToMerge(es);
    } else {
      var k, v, rest := ds[0].key, ds[0].value, ds[1..];
      assert ds == [Entry(k, v)] + rest;
      var o := Find(es, k);
      PlainEntry(es, ds, ops, CHECKED, conflict);
      if o.None? {
        UniquePut(es, k, v);
        AgreePut(es, k, v, rest);
        MergeStep(es, k, v, rest);
        CheckedEntries(Put(es, k, v), rest, ops, conflict);
      } else if !Subsume(v, o.value) {
        if Agree(o.value, v) {
          AgreeSubsume(o.value, v);
        }
      } else {
        FindWellFormed(es, k);
        CheckedUnion(o.value, v, conflict);
        var r := UnionValues(o.value, v, false, CHECKED, conflict);
        if !r.conflict {
          MergeWellFormed(o.value, v);
          UniquePut(es, k, r.value);
          AgreePut(es, k, r.value, rest);
          MergeStep(es, k, v, rest);
          CheckedEntries(Put(es, k, r.value), rest, ops, conflict);
        }
      }
    }
  }

  lemma {:induction false} NothingToMerge(es: seq<Entry>)
    ensures MergeEntries(es, []) == es
  {
    UpdatedByNothing(es);
  }

  lemma {:induction false} UpdatedByNothing(es: seq<Entry>)
    ensures Updated(es, []) == es
  {
    if es != [] {
      UpdatedByNothing(es[1..]);
    }
  }

  // ---- without the idempotence check ----

  /** Wherever both sides hold a value under one key, no list meets a dictionary. */
  ghost predicate CompatibleKeys(es: seq<Entry>, ds: seq<Entry>) {
    forall k :: Find(es, k).Some? && Find(ds, k).Some? ==> Compatible(Find(es, k).value, Find(ds, k).value)
  }

  /** An unchecked union computes the merge where no list meets a dictionary ... */
  lemma {:induction false} UncheckedUnion(p: Value, x: Value)
    requires WellFormed(p) && WellFormed(x) && UnionOnly(x) && Compatible(p, x)
    ensures UnionValues(p, x, false, UNCHECKED, false) == Done(Merge(p, x), false)
    decreases x
  {
    if !p.Empty() && !x.Empty() {
      if p.List? && x.List? {
        UncheckedItems(p.items, x.items);
      } else if p.Dict? && x.Dict? {
        forall k | Find(p.entries, k).Some? && Find(x.entries, k).Some?
          ensures Compatible(Find(p.entries, k).value, Find(x.entries, k).value)
        {
          CompatibleAt(p.entries, x.entries, k);
        }
        UncheckedEntries(p.entries, x.entries, x.ops);
      }
    }
  }

  lemma {:induction false} UncheckedItems(xs: seq<Value>, ys: seq<Value>)
    requires CompatibleItems(xs, ys)
    requires forall i :: 0 <= i < |xs| ==> WellFormed(xs[i])
    requires forall i :: 0 <= i < |ys| ==> WellFormed(ys[i]) && UnionOnly(ys[i])
    ensures UnionItems(xs, ys, UNCHECKED, false) == ItemsDone(MergeItems(xs, ys), false)
    decreases ys
  {
    if xs != [] && ys != [] {
      UncheckedUnion(xs[0], ys[0]);
      UncheckedItems(xs[1..], ys[1..]);
    }
  }

  lemma {:induction false} UncheckedEntries(es: seq<Entry>, ds: seq<Entry>, ops: map<string, EntryOp>)
    requires UniqueKeys(es) && UniqueKeys(ds) && AllWellFormed(es) && AllWellFormed(ds)
    requires forall i :: 0 <= i < |ds| ==> UnionOnly(ds[i].value)
    requires forall k :: k in ops ==> ops[k] == EntryOp.Union
    requires CompatibleKeys(es, ds)
    ensures UnionEntries(es, ds, ops, map[], UNCHECKED, false) == EntriesDone(MergeEntries(es, ds), false, false)
    decreases ds
  {
    if ds == [] {
      NothingToMerge(es);
    } else {
      var k, v, rest := ds[0].key, ds[0].value, ds[1..];
      assert ds == [Entry(k, v)] + rest;
      var o := Find(es, k);
      var u := if o.Some? then Merge(o.value, v) else v;
      PlainEntry(es, ds, ops, UNCHECKED, false);
      if o.Some? {
        assert Find(ds, k) == Some(v);
        FindWellFormed(es, k);
        UncheckedUnion(o.value, v);
        MergeWellFormed(o.value, v);
      }
      UniquePut(es, k, u);
      MergeStep(es, k, v, rest);
      assert CompatibleKeys(Put(es, k, u), rest) by {
        CompatibleRest(es, ds, k, u);
      }
      UncheckedEntries(Put(es, k, u), rest, ops);
    }
  }

  lemma {:induction false} CompatibleRest(es: seq<Entry>, ds: seq<Entry>, k: string, u: Value)
    requires ds != [] && UniqueKeys(ds) && k == ds[0].key && CompatibleKeys(es, ds)
    ensures CompatibleKeys(Put(es, k, u), ds[1..])
  {
    forall j | Find(Put(es, k, u), j).Some? && Find(ds[1..], j).Some?
      ensures Compatible(Find(Put(es, k, u), j).value, Find(ds[1..], j).value)
    {
      FindIffKey(ds[1..], j);
      FindPut(es, k, u, j);
      assert Find(ds, j) == Find(ds[1..], j);
    }
  }

  /** ... and fails where one does. */
  lemma {:induction false} UncheckedFails(p: Value, x: Value)
    requires WellFormed(p) && WellFormed(x) && UnionOnly(x) && !Compatible(p, x)
    ensures UnionValues(p, x, false, UNCHECKED, false) == Panic
    decreases x
  {
    if p.List? && x.List? {
      ItemsFail(p.items, x.items);
    } else if p.Dict? && x.Dict? {
      if CompatibleKeys(p.entries, x.entries) {
        EntriesCompatible(p.entries, x.entries);
      }
      EntriesFail(p.entries, x.entries, x.ops);
    }
  }

  lemma {:induction false} ItemsFail(xs: seq<Value>, ys: seq<Value>)
    requires !CompatibleItems(xs, ys)
    requires forall i :: 0 <= i < |xs| ==> WellFormed(xs[i])
    requires forall i :: 0 <= i < |ys| ==> WellFormed(ys[i]) && UnionOnly(ys[i])
    ensures UnionItems(xs, ys, UNCHECKED, false) == ItemsPanic
    decreases ys
  {
    if Compatible(xs[0], ys[0]) {
      UncheckedUnion(xs[0], ys[0]);
      ItemsFail(xs[1..], ys[1..]);
    } else {
      UncheckedFails(xs[0], ys[0]);
    }
  }

  lemma {:induction false} EntriesCompatible(xs: seq<Entry>, ys: seq<Entry>)
    requires UniqueKeys(xs) && CompatibleKeys(xs, ys)
    ensures CompatibleEntries(xs, ys)
    decreases xs
  {
    if xs != [] {
      assert Find(xs, xs[0].key).Some?;
      forall k | Find(xs[1..], k).Some? && Find(ys, k).Some?
        ensures Compatible(Find(xs[1..], k).value, Find(ys, k).value)
      {
        FindIffKey(xs[1..], k);
        assert Find(xs, k) == Find(xs[1..], k);
      }
      EntriesCompatible(xs[1..], ys);
    }
  }

  lemma {:induction false} EntriesFail(es: seq<Entry>, ds: seq<Entry>, ops: map<string, EntryOp>)
    requires UniqueKeys(es) && UniqueKeys(ds) && AllWellFormed(es) && AllWellFormed(ds)
    requires forall i :: 0 <= i < |ds| ==> UnionOnly(ds[i].value)
    requires forall k :: k in ops ==> ops[k] == EntryOp.Union
    requires !CompatibleKeys(es, ds)
    ensures UnionEntries(es, ds, ops, map[], UNCHECKED, false) == EntriesPanic
    decreases ds
  {
    var k, v, rest := ds[0].key, ds[0].value, ds[1..];
    var o := Find(es, k);
    PlainEntry(es, ds, ops, UNCHECKED, false);
    if o.Some? {
      FindWellFormed(es, k);
    }
    if o.Some? && !Compatible(o.value, v) {
      UncheckedFails(o.value, v);
    } else {
      var u := if o.Some? then Merge(o.value, v) else v;
      if o.Some? {
        UncheckedUnion(o.value, v);
        MergeWellFormed(o.value, v);
      }
      UniquePut(es, k, u);
      IncompatibleRest(es, ds, u);
      EntriesFail(Put(es, k, u), rest, ops);
    }
  }

  lemma {:induction false} IncompatibleRest(es: seq<Entry>, ds: seq<Entry>, u: Value)
    requires ds != [] && UniqueKeys(ds) && !CompatibleKeys(es, ds)
    requires var o := Find(es, ds[0].key); o.Some? ==> Compatible(o.value, ds[0].value)
    ensures !CompatibleKeys(Put(es, ds[0].key, u), ds[1..])
  {
    var j :| Find(es, j).Some? && Find(ds, j).Some? && !Compatible(Find(es, j).value, Find(ds, j).value);
    FindPut(es, ds[0].key, u, j);
    assert Find(ds, j) == Find(ds[1..], j);
  }

  // ---- the merge of plain entries has plain entries ----

  lemma {:induction false} MergeUnionOnly(a: Value, b: Value)
    requires UnionOnly(a) && UnionOnly(b)
    ensures UnionOnly(Merge(a, b))
    decreases a
  {
    if !a.Empty() && !b.Empty() {
      if a.List? && b.List? {
        ItemsUnionOnly(a.items, b.items);
      } else if a.Dict? && b.Dict? {
        UpdatedUnionOnly(a.entries, b.entries);
        FreshUnionOnly(Keys(a.entries), b.entries);
      }
    }
  }

  lemma {:induction false} ItemsUnionOnly(xs: seq<Value>, ys: seq<Value>)
    requires forall i :: 0 <= i < |xs| ==> UnionOnly(xs[i])
    requires forall i :: 0 <= i < |ys| ==> UnionOnly(ys[i])
    ensures forall i :: 0 <= i < |MergeItems(xs, ys)| ==> UnionOnly(MergeItems(xs, ys)[i])
    decreases xs
  {
    if xs != [] && ys != [] {
      MergeUnionOnly(xs[0], ys[0]);
      ItemsUnionOnly(xs[1..], ys[1..]);
    }
  }

  predicate AllUnionOnly(es: seq<Entry>) {
    forall i :: 0 <= i < |es| ==> UnionOnly(es[i].value)
  }

  lemma {:induction false} FindUnionOnly(es: seq<Entry>, k: string)
    requires Find(es, k).Some? && AllUnionOnly(es)
    ensures UnionOnly(Find(es, k).value)
  {
    if es[0].key != k {
      FindUnionOnly(es[1..], k);
    }
  }

  lemma {:induction false} UpdatedUnionOnly(xs: seq<Entry>, ys: seq<Entry>)
    requires AllUnionOnly(xs) && AllUnionOnly(ys)
    ensures AllUnionOnly(Updated(xs, ys))
    decreases xs
  {
    if xs != [] {
      if Find(ys, xs[0].key).Some? {
        FindUnionOnly(ys, xs[0].key);
        MergeUnionOnly(xs[0].value, Find(ys, xs[0].key).value);
      }
      UpdatedUnionOnly(xs[1..], ys);
    }
  }

  lemma {:induction false} FreshUnionOnly(ks: set<string>, es: seq<Entry>)
    requires AllUnionOnly(es)
    ensures AllUnionOnly(Fresh(ks, es))
  {
    if es != [] {
      FreshUnionOnly(ks, es[1..]);
    }
  }
}
