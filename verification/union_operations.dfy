/**
 * What a config entry leaves under its key, for every operation, with and without an index: read off the result,
 * key by key, and independent of the loop that gets there.
 */
module UnionOperations {
  import opened Values
  import opened Floats
  import opened MergeSpec
  import opened MergeAgree
  import opened Union
  import opened UnionLaws
  import opened UnionTheorems

  // ---- lists ----

  /** The position that an index names in a list, counted from the end if it is negative. */
  predicate IsPlace(index: int, len: nat, j: nat) {
    j == if index < 0 then len + index else index
  }

  predicate Replaced(items: seq<Value>, j: nat, v: Value, r: seq<Value>) {
    && |r| == |items| && j < |items| && r[j] == v
    && forall t :: 0 <= t < |items| && t != j ==> r[t] == items[t]
  }

  predicate Removed(items: seq<Value>, j: nat, r: seq<Value>) {
    && j < |items| && |r| == |items| - 1
    && (forall t :: 0 <= t < j ==> r[t] == items[t])
    && (forall t :: j <= t < |r| ==> r[t] == items[t + 1])
  }

  predicate Inserted(items: seq<Value>, j: nat, vs: seq<Value>, r: seq<Value>) {
    && j <= |items| && |r| == |items| + |vs|
    && (forall t :: 0 <= t < j ==> r[t] == items[t])
    && (forall t :: 0 <= t < |vs| ==> r[j + t] == vs[t])
    && (forall t :: j <= t < |items| ==> r[t + |vs|] == items[t])
  }

  // ---- one key ----

  /** The union of two values under one key: where the check is on it must accept them, and nothing may fail. */
  ghost predicate Unites(o: Value, v: Value, opts: Options, u: Value) {
    (opts.idempotentCheck ==> Subsume(v, o)) && UnionValues(o, v, false, opts, false) == Done(u, false)
  }

  ghost predicate UnitesAt(items: seq<Value>, j: nat, v: Value, opts: Options, r: seq<Value>) {
    |r| == |items| && j < |items| && Unites(items[j], v, opts, r[j]) && Replaced(items, j, r[j], r)
  }

  /** The list that an insertion goes into: none, or nothing, counts as an empty one. */
  function Base(o: Option<Value>): Value {
    if o.None? || o.value.Empty() then List([]) else o.value
  }

  /** The entry `k: v` leaves `w`. */
  ghost predicate UnionGives(o: Option<Value>, v: Value, index: Option<int>, opts: Options, w: Value) {
    if index.None? then if o.None? then w == v else Unites(o.value, v, opts, w)
    else
      && o.Some? && o.value.List? && w.List?
      && exists j: nat :: IsPlace(index.value, |o.value.items|, j) && UnitesAt(o.value.items, j, v, opts, w.items)
  }

  /** The entry `k = v` leaves `w`. */
  ghost predicate OverrideGives(o: Option<Value>, v: Value, index: Option<int>, w: Value) {
    if index.None? then w == v
    else
      && o.Some? && o.value.List? && w.List?
      && exists j: nat :: IsPlace(index.value, |o.value.items|, j) &&
           if v.Undefined? then Removed(o.value.items, j, w.items) else Replaced(o.value.items, j, v, w.items)
  }

  /** Nothing is inserted at any position, something only up to the end. */
  ghost predicate InsertGivesAt(items: seq<Value>, index: int, vs: seq<Value>, r: seq<Value>) {
    exists j: nat :: IsPlace(index, |items|, j) && (Inserted(items, j, vs, r) || (vs == [] && r == items))
  }

  /** The entry `k += v` leaves `w`. */
  ghost predicate InsertGives(o: Option<Value>, v: Value, index: Option<int>, w: Value) {
    if o.None? && index.None? then w == v
    else
      && Base(o).List? && v.List? && w.List?
      && if index.None? then w.items == Base(o).items + v.items
         else InsertGivesAt(Base(o).items, index.value, v.items, w.items)
  }

  ghost predicate Gives(o: Option<Value>, v: Value, op: EntryOp, index: Option<int>, opts: Options, w: Value) {
    match op
    case Union => UnionGives(o, v, index, opts, w)
    case Override => OverrideGives(o, v, index, w)
    case Insert => InsertGives(o, v, index, w)
  }

  /** What one step of the loop does, in these terms. */
  ghost predicate StepGives(
    es: seq<Entry>, k: string, v: Value, op: EntryOp, index: Option<int>, opts: Options, r: EntriesOutcome)
  {
    if r.EntriesDone? && !r.conflict then
      !r.stop && exists w :: r.entries == Put(es, k, w) && Gives(Find(es, k), v, op, index, opts, w)
    else
      (r.EntriesDone? ==> r.stop) && forall w :: !Gives(Find(es, k), v, op, index, opts, w)
  }

  lemma {:induction false} SharedIs(es: seq<Entry>, k: string, v: Value, opts: Options)
    requires Find(es, k).Some?
    ensures
      var o := Find(es, k).value;
      var u := UnionValues(o, v, false, opts, false);
      var r := UnionEntry(es, k, v, EntryOp.Union, Option.None, opts, false);
      if (opts.idempotentCheck ==> Subsume(v, o)) && u.Done? && !u.conflict then
        r == EntriesDone(Put(es, k, u.value), false, false)
      else r.EntriesDone? ==> r.conflict && r.stop
  {
    assert UnionEntry(es, k, v, EntryOp.Union, Option.None, opts, false) ==
           UnionShared(es, k, v, Find(es, k).value, opts, false);
  }

  lemma {:induction false} SharedStep(es: seq<Entry>, k: string, v: Value, opts: Options)
    requires Find(es, k).Some?
    ensures StepGives(es, k, v, EntryOp.Union, Option.None, opts,
                      UnionEntry(es, k, v, EntryOp.Union, Option.None, opts, false))
  {
    var o := Find(es, k).value;
    var u := UnionValues(o, v, false, opts, false);
    SharedIs(es, k, v, opts);
    if (opts.idempotentCheck ==> Subsume(v, o)) && u.Done? && !u.conflict {
      assert Gives(Find(es, k), v, EntryOp.Union, Option.None, opts, u.value);
    } else {
      forall w ensures !Gives(Find(es, k), v, EntryOp.Union, Option.None, opts, w) {
        assert !Unites(o, v, opts, w);
      }
    }
  }

  lemma {:induction false} GivesAt(items: seq<Value>, v: Value, i: int, opts: Options, w: Value)
    requires Gives(Some(List(items)), v, EntryOp.Union, Some(i), opts, w)
    ensures w.List? && |w.items| == |items|
    ensures var at := Normalize(i, |items|);
      at.Some? && at.value < |items| && Unites(items[at.value], v, opts, w.items[at.value])
  {
  }

  lemma {:induction false} UnionIndexStep(es: seq<Entry>, k: string, v: Value, i: int, opts: Options)
    ensures StepGives(es, k, v, EntryOp.Union, Some(i), opts,
                      UnionEntry(es, k, v, EntryOp.Union, Some(i), opts, false))
  {
    var o := Find(es, k);
    if o.Some? && o.value.List? {
      UnionListStep(es, k, v, i, opts);
    }
  }

  lemma {:induction false} UnionListStep(es: seq<Entry>, k: string, v: Value, i: int, opts: Options)
    requires Find(es, k).Some? && Find(es, k).value.List?
    ensures StepGives(es, k, v, EntryOp.Union, Some(i), opts,
                      UnionEntry(es, k, v, EntryOp.Union, Some(i), opts, false))
  {
    var o, items := Find(es, k), Find(es, k).value.items;
    var at := Normalize(i, |items|);
    assert UnionEntry(es, k, v, EntryOp.Union, Some(i), opts, false) == UnionAtIndex(es, k, v, i, opts, false);
    if at.Some? && at.value < |items| && Unitable(items[at.value], v, opts) {
      var u := UnionValues(items[at.value], v, false, opts, false).value;
      var w := List(items[at.value := u]);
      assert IsPlace(i, |items|, at.value) && UnitesAt(items, at.value, v, opts, w.items);
      assert Gives(o, v, EntryOp.Union, Some(i), opts, w);
    } else {
      forall w ensures !Gives(o, v, EntryOp.Union, Some(i), opts, w) {
        if Gives(o, v, EntryOp.Union, Some(i), opts, w) {
          GivesAt(items, v, i, opts, w);
        }
      }
    }
  }

  /** Two values unite to something. */
  ghost predicate Unitable(o: Value, v: Value, opts: Options) {
    var u := UnionValues(o, v, false, opts, false);
    (opts.idempotentCheck ==> Subsume(v, o)) && u.Done? && !u.conflict
  }

  lemma {:induction false} OverrideStep(es: seq<Entry>, k: string, v: Value, opts: Options)
    ensures StepGives(es, k, v, EntryOp.Override, Option.None, opts,
                      UnionEntry(es, k, v, EntryOp.Override, Option.None, opts, false))
  {
    assert Gives(Find(es, k), v, EntryOp.Override, Option.None, opts, v);
  }

  lemma {:induction false} OverrideIndexStep(es: seq<Entry>, k: string, v: Value, i: int, opts: Options)
    ensures StepGives(es, k, v, EntryOp.Override, Some(i), opts,
                      UnionEntry(es, k, v, EntryOp.Override, Some(i), opts, false))
  {
    var o := Find(es, k);
    assert UnionEntry(es, k, v, EntryOp.Override, Some(i), opts, false) == OverrideAtIndex(es, k, v, i, false);
    if o.Some? && o.value.List? {
      var items := o.value.items;
      var at := Normalize(i, |items|);
      if at.Some? && at.value < |items| {
        ChangedAt(items, i, at.value, v);
        assert Gives(o, v, EntryOp.Override, Some(i), opts, List(Changed(items, at.value, v)));
      } else {
        forall w ensures !OverrideGives(o, v, Some(i), w) {
          NoPlace(items, i, v, w);
        }
      }
    }
  }

  /** The list with position `j` removed or replaced. */
  function Changed(items: seq<Value>, j: nat, v: Value): seq<Value>
    requires j < |items|
  {
    if v.Undefined? then items[..j] + items[j + 1..] else items[j := v]
  }

  lemma {:induction false} ChangedAt(items: seq<Value>, i: int, j: nat, v: Value)
    requires j < |items| && IsPlace(i, |items|, j)
    ensures OverrideGives(Some(List(items)), v, Some(i), List(Changed(items, j, v)))
  {
    var r := Changed(items, j, v);
    assert if v.Undefined? then Removed(items, j, r) else Replaced(items, j, v, r);
  }

  lemma {:induction false} NoPlace(items: seq<Value>, i: int, v: Value, w: Value)
    requires var at := Normalize(i, |items|); at.None? || at.value >= |items|
    ensures !OverrideGives(Some(List(items)), v, Some(i), w)
  {
  }

  lemma {:induction false} InsertStep(es: seq<Entry>, k: string, v: Value, opts: Options)
    ensures StepGives(es, k, v, EntryOp.Insert, Option.None, opts,
                      UnionEntry(es, k, v, EntryOp.Insert, Option.None, opts, false))
  {
    var o := Find(es, k);
    if o.None? {
      assert Gives(o, v, EntryOp.Insert, Option.None, opts, v);
    } else if Base(o).List? && v.List? {
      assert Gives(o, v, EntryOp.Insert, Option.None, opts, List(Base(o).items + v.items));
    }
  }

  lemma {:induction false} InsertIndexStep(es: seq<Entry>, k: string, v: Value, i: int, opts: Options)
    ensures StepGives(es, k, v, EntryOp.Insert, Some(i), opts,
                      UnionEntry(es, k, v, EntryOp.Insert, Some(i), opts, false))
  {
    var o := Find(es, k);
    if Base(o).List? && v.List? {
      var items := Base(o).items;
      var at := Normalize(i, |items|);
      if at.Some? {
        var j := at.value;
        assert IsPlace(i, |items|, j);
        if v.items == [] {
          assert Gives(o, v, EntryOp.Insert, Some(i), opts, Base(o));
        } else if j <= |items| {
          var w := List(items[..j] + v.items + items[j..]);
          assert Inserted(items, j, v.items, w.items);
          assert Gives(o, v, EntryOp.Insert, Some(i), opts, w);
        }
      }
    }
  }

  lemma {:induction false} NewStep(es: seq<Entry>, k: string, v: Value, opts: Options)
    requires Find(es, k).None?
    ensures StepGives(es, k, v, EntryOp.Union, Option.None, opts,
                      UnionEntry(es, k, v, EntryOp.Union, Option.None, opts, false))
  {
    assert Gives(Find(es, k), v, EntryOp.Union, Option.None, opts, v);
  }

  lemma {:induction false} EntryStep(
    es: seq<Entry>, k: string, v: Value, op: EntryOp, index: Option<int>, opts: Options)
    ensures StepGives(es, k, v, op, index, opts, UnionEntry(es, k, v, op, index, opts, false))
  {
    match (op, index)
    case (Union, Some(i)) => UnionIndexStep(es, k, v, i, opts);
    case (Override, Some(i)) => OverrideIndexStep(es, k, v, i, opts);
    case (Insert, Some(i)) => InsertIndexStep(es, k, v, i, opts);
    case (Override, None) => OverrideStep(es, k, v, opts);
    case (Insert, None) => InsertStep(es, k, v, opts);
    case (Union, None) =>
      if Find(es, k).None? {
        NewStep(es, k, v, opts);
      } else {
        SharedStep(es, k, v, opts);
      }
  }

  // ---- whole dictionaries ----

  /** The entry under `k` of the right-hand side leaves `w` where the left-hand side had `Find(es, k)`. */
  ghost predicate KeyGives(
    es: seq<Entry>, ds: seq<Entry>, ops: map<string, EntryOp>, indexes: map<string, int>, opts: Options, k: string,
    w: Value)
  {
    Find(ds, k).Some? &&
    Gives(Find(es, k), Find(ds, k).value, if k in ops then ops[k] else EntryOp.Union,
          if k in indexes then Some(indexes[k]) else Option.None, opts, w)
  }

  ghost predicate Possible(
    es: seq<Entry>, ds: seq<Entry>, ops: map<string, EntryOp>, indexes: map<string, int>, opts: Options, k: string)
  {
    exists w :: KeyGives(es, ds, ops, indexes, opts, k, w)
  }

  predicate Ends(r: EntriesOutcome) { r.EntriesDone? && !r.conflict }

  lemma {:induction false} FirstStep(
    es: seq<Entry>, ds: seq<Entry>, ops: map<string, EntryOp>, indexes: map<string, int>, opts: Options)
    returns (w: Value)
    requires ds != []
    ensures
      var k, r := ds[0].key, UnionEntries(es, ds, ops, indexes, opts, false);
      if Possible(es, ds, ops, indexes, opts, k) then
        && KeyGives(es, ds, ops, indexes, opts, k, w)
        && r == UnionEntries(Put(es, k, w), ds[1..], ops, indexes, opts, false)
      else !Ends(r)
  {
    var k, v := ds[0].key, ds[0].value;
    var op, index := OpOf(ops, k), IndexOf(indexes, k);
    EntryStep(es, k, v, op, index, opts);
    var step := UnionEntry(es, k, v, op, index, opts, false);
    assert Find(ds, k) == Some(v);
    w := Undefined;
    if Ends(step) {
      w :| step.entries == Put(es, k, w) && Gives(Find(es, k), v, op, index, opts, w);
      assert KeyGives(es, ds, ops, indexes, opts, k, w);
    } else {
      forall u ensures !KeyGives(es, ds, ops, indexes, opts, k, u) {
      }
    }
  }

  /** The other keys are not affected by the first entry. */
  lemma {:induction false} LaterKey(
    es: seq<Entry>, ds: seq<Entry>, ops: map<string, EntryOp>, indexes: map<string, int>, opts: Options, u: Value,
    k: string)
    requires ds != [] && UniqueKeys(ds) && k != ds[0].key
    ensures Find(Put(es, ds[0].key, u), k) == Find(es, k) && Find(ds[1..], k) == Find(ds, k)
    ensures Possible(Put(es, ds[0].key, u), ds[1..], ops, indexes, opts, k) <==> Possible(es, ds, ops, indexes, opts, k)
  {
    FindPut(es, ds[0].key, u, k);
    forall w
      ensures KeyGives(Put(es, ds[0].key, u), ds[1..], ops, indexes, opts, k, w) <==>
              KeyGives(es, ds, ops, indexes, opts, k, w)
    {
    }
  }

  /**
   * A union of dictionaries ends exactly when each entry of the right-hand side is possible on what the left-hand
   * side has under its key, whatever the operations and indexes are.
   */
  lemma {:induction false} EntriesExact(
    es: seq<Entry>, ds: seq<Entry>, ops: map<string, EntryOp>, indexes: map<string, int>, opts: Options)
    requires UniqueKeys(ds)
    ensures Ends(UnionEntries(es, ds, ops, indexes, opts, false)) <==>
      forall k :: k in Keys(ds) ==> Possible(es, ds, ops, indexes, opts, k)
    decreases ds
  {
    if ds != [] {
      var k0 := ds[0].key;
      var w := FirstStep(es, ds, ops, indexes, opts);
      if Possible(es, ds, ops, indexes, opts, k0) {
        EntriesExact(Put(es, k0, w), ds[1..], ops, indexes, opts);
        forall k | k in Keys(ds[1..])
          ensures Possible(Put(es, k0, w), ds[1..], ops, indexes, opts, k) <==> Possible(es, ds, ops, indexes, opts, k)
        {
          LaterKey(es, ds, ops, indexes, opts, w, k);
        }
      }
    }
  }

  /** Then every key of the right-hand side has what its entry leaves, and every other key what it had. */
  lemma {:induction false} EntriesAt(
    es: seq<Entry>, ds: seq<Entry>, ops: map<string, EntryOp>, indexes: map<string, int>, opts: Options, k: string)
    requires UniqueKeys(ds) && Ends(UnionEntries(es, ds, ops, indexes, opts, false))
    ensures
      var found := Find(UnionEntries(es, ds, ops, indexes, opts, false).entries, k);
      if k in Keys(ds) then found.Some? && KeyGives(es, ds, ops, indexes, opts, k, found.value)
      else found == Find(es, k)
    decreases ds
  {
    if ds != [] {
      var k0 := ds[0].key;
      var w := FirstStep(es, ds, ops, indexes, opts);
      EntriesAt(Put(es, k0, w), ds[1..], ops, indexes, opts, k);
      if k != k0 {
        LaterKey(es, ds, ops, indexes, opts, w, k);
      } else {
        FindPut(es, k0, w, k0);
      }
    }
  }

  // ---- key order ----

  function KeyList(es: seq<Entry>): (ks: seq<string>)
    ensures |ks| == |es| && forall i :: 0 <= i < |es| ==> ks[i] == es[i].key
  {
    seq(|es|, i requires 0 <= i < |es| => es[i].key)
  }

  lemma {:induction false} KeyListPut(es: seq<Entry>, k: string, v: Value)
    ensures KeyList(Put(es, k, v)) == if k in Keys(es) then KeyList(es) else KeyList(es) + [k]
  {
    if es != [] {
      KeyListPut(es[1..], k, v);
      if es[0].key != k {
        assert KeyList(Put(es, k, v)) == [es[0].key] + KeyList(Put(es[1..], k, v));
        assert KeyList(es) == [es[0].key] + KeyList(es[1..]);
      } else {
        assert KeyList(Put(es, k, v)) == KeyList(es);
      }
    }
  }

  /** The keys keep their order, and new ones follow in theirs. */
  lemma {:induction false} KeyOrder(
    es: seq<Entry>, ds: seq<Entry>, ops: map<string, EntryOp>, indexes: map<string, int>, opts: Options)
    requires UniqueKeys(ds) && Ends(UnionEntries(es, ds, ops, indexes, opts, false))
    ensures KeyList(UnionEntries(es, ds, ops, indexes, opts, false).entries) ==
      KeyList(es) + KeyList(Fresh(Keys(es), ds))
    decreases ds
  {
    if ds == [] {
      assert KeyList(es) + [] == KeyList(es);
    } else {
      var k := ds[0].key;
      var w := FirstStep(es, ds, ops, indexes, opts);
      KeyOrder(Put(es, k, w), ds[1..], ops, indexes, opts);
      KeyListPut(es, k, w);
      KeysPut(es, k, w);
      FreshIgnores(Keys(es), k, ds[1..]);
      FreshKeys(Keys(es), ds);
      assert k in Keys(es) ==> Keys(es) + {k} == Keys(es);
      ThreeLists(KeyList(es), if k in Keys(es) then [] else [k], KeyList(Fresh(Keys(es), ds[1..])));
      assert k in Keys(es) ==> KeyList(es) + [] == KeyList(es);
    }
  }

  lemma {:induction false} ThreeLists(a: seq<string>, b: seq<string>, c: seq<string>)
    ensures (a + b) + c == a + (b + c)
  {
  }

  lemma {:induction false} FreshKeys(ks: set<string>, ds: seq<Entry>)
    requires ds != []
    ensures KeyList(Fresh(ks, ds)) == (if ds[0].key in ks then [] else [ds[0].key]) + KeyList(Fresh(ks, ds[1..]))
  {
    var rest := Fresh(ks, ds[1..]);
    if ds[0].key in ks {
      assert Fresh(ks, ds) == [] + rest && [] + rest == rest;
    } else {
      assert Fresh(ks, ds) == [ds[0]] + rest;
    }
  }

  lemma {:induction false} DictsUnite(p: Value, x: Value, orMode: bool, opts: Options)
    requires p.Dict? && x.Dict?
    ensures
      var r := UnionEntries(p.entries, x.entries, x.ops, x.indexes, opts, false);
      UnionEntryPoint(p, x, orMode, opts) ==
        if Ends(r) then Some(Dict(r.entries, p.ops + x.ops, p.indexes + x.indexes)) else Option.None
  {
    assert UnionValues(p, x, orMode, opts, false) == DoUnion(p, x, opts, false);
  }

  // ---- override entries ----

  /** The entry under `k` is written `k = v`, without an index. */
  predicate Overrides(x: Value, k: string, v: Value)
    requires x.Dict?
  {
    Find(x.entries, k) == Some(v) && k in x.ops && x.ops[k] == EntryOp.Override && k !in x.indexes
  }

  /** The entry under `k` is a plain `k: v`. */
  predicate IsPlain(x: Value, k: string, v: Value)
    requires x.Dict?
  {
    && Find(x.entries, k) == Some(v) && (k in x.ops ==> x.ops[k] == EntryOp.Union) && k !in x.indexes
    && WellFormed(v) && UnionOnly(v)
  }

  /**
   * A union that ends has under every override key the value written there, whatever stood there before; keys with a
   * plain entry have what a merge gives them, keys without one what they had, the keys keep their order, and each
   * keeps the operation and the index it was last written with.
   */
  lemma {:induction false} OverrideWins(p: Value, x: Value, opts: Options, k: string, v: Value)
    requires p.Dict? && x.Dict? && UniqueKeys(p.entries) && UniqueKeys(x.entries)
    requires UnionEntryPoint(p, x, true, opts).Some?
    ensures
      var r := UnionEntryPoint(p, x, true, opts).value;
      && r.Dict? && KeyList(r.entries) == KeyList(p.entries) + KeyList(Fresh(Keys(p.entries), x.entries))
      && (k in r.ops <==> k in p.ops || k in x.ops) && (k in r.indexes <==> k in p.indexes || k in x.indexes)
      && (k in r.ops ==> r.ops[k] == if k in x.ops then x.ops[k] else p.ops[k])
      && (k in r.indexes ==> r.indexes[k] == if k in x.indexes then x.indexes[k] else p.indexes[k])
      && (Overrides(x, k, v) ==> Find(r.entries, k) == Some(v))
      && (IsPlain(x, k, v) && WellFormed(p) && !opts.listOverride ==>
            Find(r.entries, k) == Find(MergeEntries(p.entries, x.entries), k))
      && (k !in Keys(x.entries) ==> Find(r.entries, k) == Find(p.entries, k))
  {
    DictsUnite(p, x, true, opts);
    EntriesAt(p.entries, x.entries, x.ops, x.indexes, opts, k);
    KeyOrder(p.entries, x.entries, x.ops, x.indexes, opts);
    FindIffKey(x.entries, k);
    if IsPlain(x, k, v) && WellFormed(p) && !opts.listOverride {
      PlainWins(p.entries, x, opts, k, v);
    }
  }

  lemma {:induction false} PlainWins(es: seq<Entry>, x: Value, opts: Options, k: string, v: Value)
    requires x.Dict? && UniqueKeys(x.entries) && AllWellFormed(es) && IsPlain(x, k, v) && !opts.listOverride
    requires Ends(UnionEntries(es, x.entries, x.ops, x.indexes, opts, false))
    ensures Find(UnionEntries(es, x.entries, x.ops, x.indexes, opts, false).entries, k) ==
            Find(MergeEntries(es, x.entries), k)
  {
    EntriesAt(es, x.entries, x.ops, x.indexes, opts, k);
    FindMerged(es, x.entries, k);
    FindIffKey(x.entries, k);
    var o := Find(es, k);
    if o.Some? {
      FindWellFormed(es, k);
      var r := UnionEntries(es, x.entries, x.ops, x.indexes, opts, false);
      UnitesIsMerge(o.value, v, opts, Find(r.entries, k).value);
    }
  }

  lemma {:induction false} UnitesIsMerge(o: Value, v: Value, opts: Options, u: Value)
    requires Unites(o, v, opts, u) && WellFormed(o) && WellFormed(v) && UnionOnly(v) && !opts.listOverride
    ensures u == Merge(o, v)
  {
    if opts.idempotentCheck {
      assert opts == CHECKED;
      CheckedUnion(o, v, false);
    } else {
      assert opts == UNCHECKED;
      if Compatible(o, v) {
        UncheckedUnion(o, v);
      } else {
        UncheckedFails(o, v);
      }
    }
  }

  /** In a config block: an override entry always builds, and the last one of a key decides. */
  lemma {:induction false} BlockOverride(items: seq<Item>, k: string, v: Value, j: string)
    requires Block(items).Some?
    ensures
      var b, r := Block(items), Block(items + [Item(k, v, EntryOp.Override, Option.None)]);
      && b.value.Dict? && r.Some? && r.value.Dict?
      && Find(r.value.entries, j) == (if j == k then Some(v) else Find(b.value.entries, j))
      && KeyList(r.value.entries) ==
           KeyList(b.value.entries) + (if k in Keys(b.value.entries) then [] else [k])
  {
    var item := Item(k, v, EntryOp.Override, Option.None);
    assert (items + [item])[..|items|] == items;
    BlockIsDict(items);
    DictsUnite(Block(items).value, Single(item), true, CHECKED);
    OneOverride(Block(items).value.entries, Single(item), k, v, j);
  }

  lemma {:induction false} OneOverride(es: seq<Entry>, x: Value, k: string, v: Value, j: string)
    requires x == Single(Item(k, v, EntryOp.Override, Option.None))
    ensures
      var r := UnionEntries(es, x.entries, x.ops, x.indexes, CHECKED, false);
      && Ends(r) && Find(r.entries, j) == (if j == k then Some(v) else Find(es, j))
      && KeyList(r.entries) == KeyList(es) + (if k in Keys(es) then [] else [k])
  {
    assert x.entries[1..] == [] && UniqueKeys(x.entries[1..]) && Keys(x.entries) == {k};
    assert KeyGives(es, x.entries, x.ops, x.indexes, CHECKED, k, v);
    EntriesExact(es, x.entries, x.ops, x.indexes, CHECKED);
    EntriesAt(es, x.entries, x.ops, x.indexes, CHECKED, j);
    KeyOrder(es, x.entries, x.ops, x.indexes, CHECKED);
    FreshKeys(Keys(es), x.entries);
    assert Fresh(Keys(es), []) == [];
  }

  lemma {:induction false} BlockIsDict(items: seq<Item>)
    requires Block(items).Some?
    ensures Block(items).value.Dict?
  {
    if items != [] {
      var k := |items| - 1;
      BlockIsDict(items[..k]);
      DictsUnite(Block(items[..k]).value, Single(items[k]), true, CHECKED);
    }
  }

  /** What the last entry of a block leaves under each key. */
  lemma {:induction false} BlockLast(items: seq<Item>, j: string)
    requires items != [] && Block(items).Some?
    ensures
      var n := |items| - 1;
      && Block(items[..n]).Some? && Block(items[..n]).value.Dict? && Block(items).value.Dict?
      && var was, found := Find(Block(items[..n]).value.entries, j), Find(Block(items).value.entries, j);
         if j != items[n].key then found == was
         else found.Some? && Gives(was, items[n].value, items[n].op, items[n].index, CHECKED, found.value)
  {
    var n := |items| - 1;
    BlockIsDict(items);
    BlockIsDict(items[..n]);
    var p, x := Block(items[..n]).value, Single(items[n]);
    assert x.entries[1..] == [] && UniqueKeys(x.entries[1..]) && Keys(x.entries) == {items[n].key};
    DictsUnite(p, x, true, CHECKED);
    EntriesAt(p.entries, x.entries, x.ops, x.indexes, CHECKED, j);
  }

  lemma {:induction false} BlockLacks(items: seq<Item>, k: string)
    requires Block(items).Some? && forall i :: 0 <= i < |items| ==> items[i].key != k
    ensures Block(items).value.Dict? && Find(Block(items).value.entries, k) == Option.None
  {
    if items != [] {
      BlockLast(items, k);
      BlockLacks(items[..|items| - 1], k);
    }
  }

  /** An entry that no later one touches, and that is new or overrides, has its value in the block. */
  lemma {:induction false} BlockKeeps(items: seq<Item>, i: nat)
    requires Block(items).Some? && i < |items| && items[i].index.None?
    requires forall j :: i < j < |items| ==> items[j].key != items[i].key
    requires items[i].op.Override? || forall j :: 0 <= j < i ==> items[j].key != items[i].key
    ensures Block(items).value.Dict? && Find(Block(items).value.entries, items[i].key) == Some(items[i].value)
    decreases |items|
  {
    var n := |items| - 1;
    BlockLast(items, items[i].key);
    if i < n {
      BlockKeeps(items[..n], i);
    } else if !items[i].op.Override? {
      BlockLacks(items[..n], items[i].key);
    }
  }

  // ---- the operator on other values ----

  predicate Collection(v: Value) { v.List? || v.Dict? }

  /** Bit `n` of a number in two's complement. */
  predicate Bit(a: int, n: nat)
    decreases n
  {
    if n == 0 then a % 2 == 1 else Bit(a / 2, n - 1)
  }

  lemma {:induction false} BitOrHalves(a: int, b: int)
    ensures BitOr(a, b) % 2 == (if a % 2 == 1 || b % 2 == 1 then 1 else 0) && BitOr(a, b) / 2 == BitOr(a / 2, b / 2)
  {
    if Magnitude(a) + Magnitude(b) == 0 {
      assert a / 2 == a && b / 2 == b;
    }
  }

  lemma {:induction false} BitOrBits(a: int, b: int, n: nat)
    ensures Bit(BitOr(a, b), n) <==> Bit(a, n) || Bit(b, n)
    decreases n
  {
    BitOrHalves(a, b);
    if n > 0 {
      BitOrBits(a / 2, b / 2, n - 1);
    }
  }

  /** The `|` operator on two ints sets a bit where one of them has it. */
  lemma {:induction false} IntsJoin(a: int, b: int, n: nat)
    ensures Join(Int(a), Int(b)).Some? && Join(Int(a), Int(b)).value.Int?
    ensures Bit(Join(Int(a), Int(b)).value.i, n) <==> Bit(a, n) || Bit(b, n)
  {
    BitOrBits(a, b, n);
  }

  /** Equality of leaves: the same value, or an int and the float nearest to it. */
  predicate SameLeaf(v: Value, w: Value) {
    v == w || (v.Int? && w.Float? && ToFloat(v.i) == w.f) || (v.Float? && w.Int? && v.f == ToFloat(w.i))
  }

  /** Two leaves under one key: no conflict exactly when they are equal, and the second stays. */
  lemma {:induction false} LeavesJoin(k: string, v: Value, w: Value)
    requires v.Scalar() && w.Scalar()
    ensures
      var a, b := Single(Item(k, v, EntryOp.Union, Option.None)), Single(Item(k, w, EntryOp.Union, Option.None));
      if SameLeaf(v, w) then Join(a, b).Some? && Join(a, b).value.Dict? && Find(Join(a, b).value.entries, k) == Some(w)
      else Join(a, b) == Option.None
  {
    var a, b := Single(Item(k, v, EntryOp.Union, Option.None)), Single(Item(k, w, EntryOp.Union, Option.None));
    assert b.entries[1..] == [] && UniqueKeys(b.entries[1..]) && Keys(b.entries) == {k};
    assert a.entries[0] == Entry(k, v) && b.entries[0] == Entry(k, w);
    DictsUnite(a, b, true, CHECKED);
    EntriesExact(a.entries, b.entries, b.ops, b.indexes, CHECKED);
    assert UnionValues(v, w, false, CHECKED, false) == Done(w, false);
    if SameLeaf(v, w) {
      assert KeyGives(a.entries, b.entries, b.ops, b.indexes, CHECKED, k, w);
      EntriesAt(a.entries, b.entries, b.ops, b.indexes, CHECKED, k);
    } else {
      forall u ensures !KeyGives(a.entries, b.entries, b.ops, b.indexes, CHECKED, k, u) {
        assert !Unites(v, w, CHECKED, u);
      }
      assert !Possible(a.entries, b.entries, b.ops, b.indexes, CHECKED, k);
    }
  }

  /**
   * Nothing gives way to the other side, and anything else that is neither two ints nor two collections of one kind
   * fails; inside a dictionary the second value wins instead.
   */
  lemma {:induction false} OtherJoins(a: Value, b: Value, opts: Options, conflict: bool)
    ensures a.Empty() ==> Join(a, b) == Some(b)
    ensures b.Empty() && !a.Empty() ==> Join(a, b) == Some(a)
    ensures !a.Empty() && !b.Empty() && !(a.Int? && b.Int?) && !(a.List? && b.List?) && !(a.Dict? && b.Dict?) ==>
      Join(a, b) == Option.None
    ensures !a.Empty() && !b.Empty() && !(Collection(a) && Collection(b)) ==>
      UnionValues(a, b, false, opts, conflict) == Done(b, conflict)
    ensures a.List? && b.List? && opts.listOverride ==> UnionValues(a, b, false, opts, conflict) == Done(a, conflict)
  {
    if (a.List? && b.Dict?) || (a.Dict? && b.List?) {
      assert DoUnion(a, b, CHECKED, false) == Panic;
    }
  }
}
