/** Merging a value with itself, and merging two values in either order. */
module UnionSymmetry {
  import opened Values
  import opened MergeSpec
  import opened MergeAgree
  import opened Union
  import opened UnionLaws
  import opened UnionTheorems

  /** Union and override entries without an index, at every depth. */
  predicate Repeatable(v: Value) {
    match v
    case List(items) => forall i :: 0 <= i < |items| ==> Repeatable(items[i])
    case Dict(es, ops, indexes) =>
      && indexes == map[] && (forall k :: k in ops ==> ops[k] != EntryOp.Insert)
      && forall i :: 0 <= i < |es| ==> Repeatable(es[i].value)
    case _ => true
  }

  lemma {:induction false} SubsumeSelf(v: Value)
    ensures Subsume(v, v)
  {
    if v.List? {
      SubsumeSelfItems(v.items);
    }
  }

  lemma {:induction false} SubsumeSelfItems(items: seq<Value>)
    ensures SubsumeItems(items, items)
  {
    if items != [] {
      SubsumeSelf(items[0]);
      SubsumeSelfItems(items[1..]);
    }
  }

  lemma {:induction false} PutSame(es: seq<Entry>, k: string)
    requires Find(es, k).Some?
    ensures Put(es, k, Find(es, k).value) == es
  {
    if es[0].key != k {
      PutSame(es[1..], k);
    }
  }

  /** Every entry of `ds` is found in `es` under its key. */
  predicate Within(ds: seq<Entry>, es: seq<Entry>) {
    forall i :: 0 <= i < |ds| ==> Find(es, ds[i].key) == Some(ds[i].value)
  }

  lemma {:induction false} WithinSelf(es: seq<Entry>)
    requires UniqueKeys(es)
    ensures Within(es, es)
  {
    if es != [] {
      WithinSelf(es[1..]);
      forall i | 0 < i < |es| ensures Find(es, es[i].key) == Some(es[i].value) {
        assert es[i] == es[1..][i - 1];
        FindIffKey(es[1..], es[i].key);
      }
    }
  }

  /** Merging a value with its own copy changes nothing and raises nothing, checked or not. */
  lemma {:induction false} UnionIdempotent(v: Value, opts: Options)
    requires WellFormed(v) && Repeatable(v)
    ensures UnionValues(v, v, false, opts, false) == Done(v, false)
    decreases v
  {
    if v.List? {
      SelfItems(v.items, opts);
    } else if v.Dict? {
      WithinSelf(v.entries);
      SelfEntries(v.entries, v.entries, v.ops, opts);
      assert v.ops + v.ops == v.ops && v.indexes + v.indexes == v.indexes;
    }
  }

  lemma {:induction false} SelfItems(items: seq<Value>, opts: Options)
    requires forall i :: 0 <= i < |items| ==> WellFormed(items[i]) && Repeatable(items[i])
    ensures UnionItems(items, items, opts, false) == ItemsDone(items, false)
    decreases items
  {
    if items != [] {
      UnionIdempotent(items[0], opts);
      SelfItems(items[1..], opts);
    }
  }

  lemma {:induction false} SelfEntries(es: seq<Entry>, ds: seq<Entry>, ops: map<string, EntryOp>, opts: Options)
    requires Within(ds, es)
    requires forall i :: 0 <= i < |ds| ==> WellFormed(ds[i].value) && Repeatable(ds[i].value)
    requires forall k :: k in ops ==> ops[k] != EntryOp.Insert
    ensures UnionEntries(es, ds, ops, map[], opts, false) == EntriesDone(es, false, false)
    decreases ds
  {
    if ds != [] {
      var k, v := ds[0].key, ds[0].value;
      var indexes: map<string, int> := map[];
      assert IndexOf(indexes, k).None?;
      PutSame(es, k);
      UnionIdempotent(v, opts);
      SubsumeSelf(v);
      assert UnionShared(es, k, v, v, opts, false) == EntriesDone(es, false, false);
      assert UnionEntry(es, k, v, OpOf(ops, k), Option.None, opts, false) == EntriesDone(es, false, false);
      SelfEntries(es, ds[1..], ops, opts);
    }
  }

  // ---- either order ----

  /** Equal up to the order of dictionary keys. */
  predicate Same(a: Value, b: Value)
    decreases a
  {
    match (a, b)
    case (List(xs), List(ys)) => |xs| == |ys| && SameItems(xs, ys)
    case (Dict(xs, ops, idx), Dict(ys, ops', idx')) =>
      Keys(xs) == Keys(ys) && SameEntries(xs, ys) && ops == ops' && idx == idx'
    case _ => a == b
  }

  predicate SameItems(xs: seq<Value>, ys: seq<Value>)
    requires |xs| == |ys|
    decreases xs
  {
    xs != [] ==> Same(xs[0], ys[0]) && SameItems(xs[1..], ys[1..])
  }

  predicate SameEntries(xs: seq<Entry>, ys: seq<Entry>)
    decreases xs
  {
    xs != [] ==>
      && (match Find(ys, xs[0].key) case None => false case Some(v) => Same(xs[0].value, v))
      && SameEntries(xs[1..], ys)
  }

  /** No shared path holds `None` against `Undefined`, or an int against a float. */
  predicate NoClash(a: Value, b: Value)
    decreases b
  {
    && (a.Empty() && b.Empty() ==> a == b)
    && (a.Scalar() && b.Scalar() ==> (a.Int? <==> b.Int?))
    && (a.List? && b.List? && |a.items| == |b.items| ==> NoClashItems(a.items, b.items))
    && (a.Dict? && b.Dict? ==> NoClashEntries(a.entries, b.entries))
  }

  predicate NoClashItems(xs: seq<Value>, ys: seq<Value>)
    requires |xs| == |ys|
    decreases ys
  {
    ys != [] ==> NoClash(xs[0], ys[0]) && NoClashItems(xs[1..], ys[1..])
  }

  predicate NoClashEntries(xs: seq<Entry>, ys: seq<Entry>)
    decreases ys
  {
    ys != [] ==>
      && (match Find(xs, ys[0].key) case None => true case Some(v) => NoClash(v, ys[0].value))
      && NoClashEntries(xs, ys[1..])
  }

  predicate SameAt(xs: seq<Entry>, ys: seq<Entry>, k: string) {
    Find(xs, k).Some? ==> Find(ys, k).Some? && Same(Find(xs, k).value, Find(ys, k).value)
  }

  predicate NoClashAt(xs: seq<Entry>, ys: seq<Entry>, k: string) {
    Find(xs, k).Some? && Find(ys, k).Some? ==> NoClash(Find(xs, k).value, Find(ys, k).value)
  }

  lemma {:induction false} SameKey(xs: seq<Entry>, ys: seq<Entry>, k: string)
    requires SameEntries(xs, ys)
    ensures SameAt(xs, ys, k)
  {
    if xs != [] && xs[0].key != k {
      SameKey(xs[1..], ys, k);
    }
  }

  lemma {:induction false} SameIntro(xs: seq<Entry>, ys: seq<Entry>)
    requires UniqueKeys(xs) && forall k :: SameAt(xs, ys, k)
    ensures SameEntries(xs, ys)
  {
    if xs != [] {
      assert SameAt(xs, ys, xs[0].key);
      forall k ensures SameAt(xs[1..], ys, k) {
        FindIffKey(xs[1..], k);
        assert SameAt(xs, ys, k);
      }
      SameIntro(xs[1..], ys);
    }
  }

  lemma {:induction false} NoClashKey(xs: seq<Entry>, ys: seq<Entry>, k: string)
    requires NoClashEntries(xs, ys)
    ensures NoClashAt(xs, ys, k)
  {
    if ys != [] && ys[0].key != k {
      NoClashKey(xs, ys[1..], k);
    }
  }

  lemma {:induction false} NoClashIntro(xs: seq<Entry>, ys: seq<Entry>)
    requires UniqueKeys(ys) && forall k :: NoClashAt(xs, ys, k)
    ensures NoClashEntries(xs, ys)
  {
    if ys != [] {
      assert NoClashAt(xs, ys, ys[0].key);
      forall k ensures NoClashAt(xs, ys[1..], k) {
        FindIffKey(ys[1..], k);
        assert NoClashAt(xs, ys, k);
      }
      NoClashIntro(xs, ys[1..]);
    }
  }

  lemma {:induction false} SameSelf(v: Value)
    requires WellFormed(v)
    ensures Same(v, v)
    decreases Size(v)
  {
    if v.List? {
      SameSelfItems(v.items);
    } else if v.Dict? {
      forall k ensures SameAt(v.entries, v.entries, k) {
        if Find(v.entries, k).Some? {
          FindSize(v.entries, k);
          FindWellFormed(v.entries, k);
          SameSelf(Find(v.entries, k).value);
        }
      }
      SameIntro(v.entries, v.entries);
    }
  }

  lemma {:induction false} SameSelfItems(items: seq<Value>)
    requires forall i :: 0 <= i < |items| ==> WellFormed(items[i])
    ensures SameItems(items, items)
    decreases SizeItems(items)
  {
    if items != [] {
      SameSelf(items[0]);
      SameSelfItems(items[1..]);
    }
  }

  /**
   * Two configurations that agree merge to the same thing in either order, up to key order,
   * exactly when no shared path holds `None` against `Undefined` or an int against an equal float.
   */
  lemma {:induction false} MergeCommutes(a: Value, b: Value)
    requires WellFormed(a) && WellFormed(b) && UnionOnly(a) && UnionOnly(b) && Agree(a, b)
    ensures Same(Merge(a, b), Merge(b, a)) <==> NoClash(a, b)
    decreases Size(a)
  {
    if a.Empty() || b.Empty() {
      SameSelf(a);
      SameSelf(b);
    } else if a.List? {
      ItemsCommute(a.items, b.items);
    } else if a.Dict? {
      EntriesCommute(a.entries, b.entries);
      assert a.ops + b.ops == b.ops + a.ops && a.indexes + b.indexes == b.indexes + a.indexes;
    }
  }

  lemma {:induction false} ItemsCommute(xs: seq<Value>, ys: seq<Value>)
    requires |xs| == |ys| && AgreeItems(xs, ys)
    requires forall i :: 0 <= i < |xs| ==> WellFormed(xs[i]) && UnionOnly(xs[i])
    requires forall i :: 0 <= i < |ys| ==> WellFormed(ys[i]) && UnionOnly(ys[i])
    ensures |MergeItems(xs, ys)| == |MergeItems(ys, xs)|
    ensures SameItems(MergeItems(xs, ys), MergeItems(ys, xs)) <==> NoClashItems(xs, ys)
    decreases SizeItems(xs)
  {
    MergedLength(xs, ys);
    MergedLength(ys, xs);
    if xs != [] {
      MergeCommutes(xs[0], ys[0]);
      ItemsCommute(xs[1..], ys[1..]);
      assert MergeItems(xs, ys)[1..] == MergeItems(xs[1..], ys[1..]);
      assert MergeItems(ys, xs)[1..] == MergeItems(ys[1..], xs[1..]);
    }
  }

  lemma {:induction false} EntriesCommute(xs: seq<Entry>, ys: seq<Entry>)
    requires UniqueKeys(xs) && UniqueKeys(ys) && AgreeEntries(xs, ys)
    requires AllWellFormed(xs) && AllWellFormed(ys) && AllUnionOnly(xs) && AllUnionOnly(ys)
    ensures Keys(MergeEntries(xs, ys)) == Keys(MergeEntries(ys, xs))
    ensures SameEntries(MergeEntries(xs, ys), MergeEntries(ys, xs)) <==> NoClashEntries(xs, ys)
    decreases SizeEntries(xs), 1
  {
    var m, m' := MergeEntries(xs, ys), MergeEntries(ys, xs);
    FindMerged(xs, ys, "");
    FindMerged(ys, xs, "");
    UniqueMerged(xs, ys);
    forall k ensures SameAt(m, m', k) <==> NoClashAt(xs, ys, k) {
      CommuteAt(xs, ys, k);
    }
    if SameEntries(m, m') {
      forall k ensures NoClashAt(xs, ys, k) {
        SameKey(m, m', k);
      }
      NoClashIntro(xs, ys);
    }
    if NoClashEntries(xs, ys) {
      forall k ensures SameAt(m, m', k) {
        NoClashKey(xs, ys, k);
      }
      SameIntro(m, m');
    }
  }

  lemma {:induction false} CommuteAt(xs: seq<Entry>, ys: seq<Entry>, k: string)
    requires AgreeEntries(xs, ys)
    requires AllWellFormed(xs) && AllWellFormed(ys) && AllUnionOnly(xs) && AllUnionOnly(ys)
    ensures SameAt(MergeEntries(xs, ys), MergeEntries(ys, xs), k) <==> NoClashAt(xs, ys, k)
    decreases SizeEntries(xs), 0
  {
    FindMerged(xs, ys, k);
    FindMerged(ys, xs, k);
    var x, y := Find(xs, k), Find(ys, k);
    if x.Some? {
      FindSize(xs, k);
      FindWellFormed(xs, k);
      FindUnionOnly(xs, k);
      SameSelf(x.value);
    }
    if y.Some? {
      FindWellFormed(ys, k);
      FindUnionOnly(ys, k);
      SameSelf(y.value);
    }
    if x.Some? && y.Some? {
      AgreeKey(xs, ys, k);
      MergeCommutes(x.value, y.value);
    }
  }

  /**
   * The `|` operator: both orders raise a conflict or neither does, and then the results are the same up to
   * key order exactly when no shared path holds `None` against `Undefined` or an int against an equal float.
   */
  lemma {:induction false} JoinCommutes(a: Value, b: Value)
    requires Config(a) && Config(b)
    ensures Join(a, b).Some? <==> Join(b, a).Some?
    ensures Join(a, b).Some? ==> (Same(Join(a, b).value, Join(b, a).value) <==> NoClash(a, b))
  {
    JoinIffAgree(a, b);
    JoinIffAgree(b, a);
    if Agree(a, b) {
      AgreeSym(a, b);
      MergeCommutes(a, b);
    }
    if Agree(b, a) {
      AgreeSym(b, a);
    }
  }
}
