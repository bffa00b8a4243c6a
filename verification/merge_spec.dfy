/**
 * What merging two configurations means, without any order of operations: every key of either
 * side is present once, shared keys hold the merge of both values, and new keys follow the old
 * ones in their own order.
 */
module MergeSpec {
  import opened Values
  import opened Floats

  function Keys(es: seq<Entry>): set<string> {
    if es == [] then {} else {es[0].key} + Keys(es[1..])
  }

  function Find(es: seq<Entry>, k: string): Option<Value> {
    if es == [] then Option.None
    else if es[0].key == k then Some(es[0].value)
    else Find(es[1..], k)
  }

  /** The entries whose key is not among `ks`, in order. */
  function Fresh(ks: set<string>, es: seq<Entry>): seq<Entry> {
    if es == [] then []
    else (if es[0].key in ks then [] else [es[0]]) + Fresh(ks, es[1..])
  }

  /** The merge of two values: absent values give way, collections combine, otherwise the second wins. */
  function Merge(a: Value, b: Value): Value
    decreases a
  {
    if a.Empty() then b
    else if b.Empty() then a
    else match (a, b)
      case (List(xs), List(ys)) => List(MergeItems(xs, ys))
      case (Dict(xs, ops, idx), Dict(ys, ops', idx')) => Dict(MergeEntries(xs, ys), ops + ops', idx + idx')
      case _ => b
  }

  function MergeItems(xs: seq<Value>, ys: seq<Value>): seq<Value>
    decreases xs
  {
    if xs == [] then ys
    else if ys == [] then xs
    else [Merge(xs[0], ys[0])] + MergeItems(xs[1..], ys[1..])
  }

  function MergeEntries(xs: seq<Entry>, ys: seq<Entry>): seq<Entry>
    decreases xs, 1
  {
    Updated(xs, ys) + Fresh(Keys(xs), ys)
  }

  function Updated(xs: seq<Entry>, ys: seq<Entry>): seq<Entry>
    decreases xs, 0
  {
    if xs == [] then []
    else
      var x := xs[0];
      [Entry(x.key, match Find(ys, x.key) case None => x.value case Some(v) => Merge(x.value, v))]
      + Updated(xs[1..], ys)
  }

  /** Dictionaries with unique keys, at every depth: what an insertion-ordered map always is. */
  predicate WellFormed(v: Value) {
    match v
    case List(items) => forall i :: 0 <= i < |items| ==> WellFormed(items[i])
    case Dict(es, _, _) => UniqueKeys(es) && forall i :: 0 <= i < |es| ==> WellFormed(es[i].value)
    case _ => true
  }

  predicate UniqueKeys(es: seq<Entry>) {
    es == [] || (es[0].key !in Keys(es[1..]) && UniqueKeys(es[1..]))
  }

  /** Equality of scalars as the runtime compares them: an int equals the float it converts to. */
  predicate EqualScalars(a: Value, b: Value) {
    a.Scalar() &&
    match (a, b)
    case (Int(i), Float(f)) => ToFloat(i) == f
    case (Float(f), Int(i)) => f == ToFloat(i)
    case _ => a == b
  }

  /** Shared paths hold values of the same kind, or nothing on one side. */
  predicate Consistent(a: Value, b: Value)
    decreases a
  {
    || a.Empty() || b.Empty() || (a.Scalar() && b.Scalar())
    || (a.List? && b.List? && ConsistentItems(a.items, b.items))
    || (a.Dict? && b.Dict? && ConsistentEntries(a.entries, b.entries))
  }

  predicate ConsistentItems(xs: seq<Value>, ys: seq<Value>)
    decreases xs
  {
    xs == [] || ys == [] || (Consistent(xs[0], ys[0]) && ConsistentItems(xs[1..], ys[1..]))
  }

  predicate ConsistentEntries(xs: seq<Entry>, ys: seq<Entry>)
    decreases xs
  {
    xs != [] ==>
      && (match Find(ys, xs[0].key) case None => true case Some(v) => Consistent(xs[0].value, v))
      && ConsistentEntries(xs[1..], ys)
  }

  /** No shared path holds a list on one side and a dictionary on the other. */
  predicate Compatible(a: Value, b: Value)
    decreases a
  {
    match (a, b)
    case (List(xs), List(ys)) => CompatibleItems(xs, ys)
    case (Dict(xs, _, _), Dict(ys, _, _)) => CompatibleEntries(xs, ys)
    case _ => !((a.List? && b.Dict?) || (a.Dict? && b.List?))
  }

  predicate CompatibleItems(xs: seq<Value>, ys: seq<Value>)
    decreases xs
  {
    xs == [] || ys == [] || (Compatible(xs[0], ys[0]) && CompatibleItems(xs[1..], ys[1..]))
  }

  predicate CompatibleEntries(xs: seq<Entry>, ys: seq<Entry>)
    decreases xs
  {
    xs != [] ==>
      && (match Find(ys, xs[0].key) case None => true case Some(v) => Compatible(xs[0].value, v))
      && CompatibleEntries(xs[1..], ys)
  }

  lemma {:induction false} ConsistentCompatible(a: Value, b: Value)
    requires Consistent(a, b)
    ensures Compatible(a, b)
    decreases a
  {
    if a.List? && b.List? {
      ConsistentItemsCompatible(a.items, b.items);
    } else if a.Dict? && b.Dict? {
      ConsistentEntriesCompatible(a.entries, b.entries);
    }
  }

  lemma {:induction false} ConsistentItemsCompatible(xs: seq<Value>, ys: seq<Value>)
    requires ConsistentItems(xs, ys)
    ensures CompatibleItems(xs, ys)
    decreases xs
  {
    if xs != [] && ys != [] {
      ConsistentCompatible(xs[0], ys[0]);
      ConsistentItemsCompatible(xs[1..], ys[1..]);
    }
  }

  lemma {:induction false} ConsistentEntriesCompatible(xs: seq<Entry>, ys: seq<Entry>)
    requires ConsistentEntries(xs, ys)
    ensures CompatibleEntries(xs, ys)
    decreases xs
  {
    if xs != [] {
      if Find(ys, xs[0].key).Some? {
        ConsistentCompatible(xs[0].value, Find(ys, xs[0].key).value);
      }
      ConsistentEntriesCompatible(xs[1..], ys);
    }
  }

  // ---- lookups ----

  lemma {:induction false} FindIffKey(es: seq<Entry>, k: string)
    ensures Find(es, k).Some? <==> k in Keys(es)
  {
    if es != [] {
      FindIffKey(es[1..], k);
    }
  }

  lemma {:induction false} KeysAppend(es: seq<Entry>, fs: seq<Entry>)
    ensures Keys(es + fs) == Keys(es) + Keys(fs)
  {
    if es == [] {
      assert es + fs == fs;
    } else {
      assert (es + fs)[1..] == es[1..] + fs;
      KeysAppend(es[1..], fs);
    }
  }

  lemma {:induction false} FindAppend(es: seq<Entry>, fs: seq<Entry>, k: string)
    ensures Find(es + fs, k) == if k in Keys(es) then Find(es, k) else Find(fs, k)
  {
    if es == [] {
      assert es + fs == fs;
    } else {
      assert (es + fs)[1..] == es[1..] + fs;
      FindAppend(es[1..], fs, k);
    }
  }

  lemma {:induction false} FreshAppend(ks: set<string>, es: seq<Entry>, fs: seq<Entry>)
    ensures Fresh(ks, es + fs) == Fresh(ks, es) + Fresh(ks, fs)
  {
    if es == [] {
      assert es + fs == fs;
    } else {
      assert (es + fs)[1..] == es[1..] + fs;
      FreshAppend(ks, es[1..], fs);
    }
  }

  lemma {:induction false} FindFresh(ks: set<string>, es: seq<Entry>, k: string)
    ensures Keys(Fresh(ks, es)) == Keys(es) - ks
    ensures Find(Fresh(ks, es), k) == if k in ks then Option.None else Find(es, k)
  {
    if es != [] {
      FindFresh(ks, es[1..], k);
      var rest := Fresh(ks, es[1..]);
      if es[0].key !in ks {
        assert ([es[0]] + rest)[1..] == rest;
      } else {
        assert [] + rest == rest;
      }
    }
  }

  lemma {:induction false} FreshTwice(ks: set<string>, js: set<string>, es: seq<Entry>)
    ensures Fresh(ks, Fresh(js, es)) == Fresh(ks + js, es)
  {
    if es != [] {
      FreshTwice(ks, js, es[1..]);
      var rest := Fresh(js, es[1..]);
      if es[0].key !in js {
        assert ([es[0]] + rest)[1..] == rest;
      } else {
        assert [] + rest == rest;
      }
    }
  }

  /** The value under a key after an update. */
  function Both(a: Value, b: Option<Value>): Value {
    match b case None => a case Some(v) => Merge(a, v)
  }

  lemma {:induction false} FindUpdated(xs: seq<Entry>, ys: seq<Entry>, k: string)
    ensures Keys(Updated(xs, ys)) == Keys(xs)
    ensures Find(Updated(xs, ys), k) ==
      match Find(xs, k) case None => Option.None case Some(a) => Some(Both(a, Find(ys, k)))
  {
    if xs != [] {
      FindUpdated(xs[1..], ys, k);
      assert Updated(xs, ys)[1..] == Updated(xs[1..], ys);
    }
  }

  /** What a merged dictionary holds under each key. */
  lemma {:induction false} FindMerged(xs: seq<Entry>, ys: seq<Entry>, k: string)
    ensures Keys(MergeEntries(xs, ys)) == Keys(xs) + Keys(ys)
    ensures Find(MergeEntries(xs, ys), k) ==
      match Find(xs, k) case None => Find(ys, k) case Some(a) => Some(Both(a, Find(ys, k)))
  {
    KeysAppend(Updated(xs, ys), Fresh(Keys(xs), ys));
    FindAppend(Updated(xs, ys), Fresh(Keys(xs), ys), k);
    FindUpdated(xs, ys, k);
    FindFresh(Keys(xs), ys, k);
    FindIffKey(xs, k);
  }

  lemma {:induction false} UpdatedAppend(xs: seq<Entry>, xs': seq<Entry>, ys: seq<Entry>)
    ensures Updated(xs + xs', ys) == Updated(xs, ys) + Updated(xs', ys)
  {
    if xs == [] {
      assert xs + xs' == xs';
    } else {
      assert (xs + xs')[1..] == xs[1..] + xs';
      UpdatedAppend(xs[1..], xs', ys);
    }
  }

  lemma {:induction false} UpdatedFresh(ks: set<string>, xs: seq<Entry>, ys: seq<Entry>)
    ensures Updated(Fresh(ks, xs), ys) == Fresh(ks, Updated(xs, ys))
  {
    if xs != [] {
      UpdatedFresh(ks, xs[1..], ys);
      var rest := Fresh(ks, xs[1..]);
      assert Updated(xs, ys)[1..] == Updated(xs[1..], ys);
      if xs[0].key !in ks {
        assert ([xs[0]] + rest)[1..] == rest;
      } else {
        assert [] + rest == rest;
      }
    }
  }

  // ---- consistency and compatibility, key by key ----

  lemma {:induction false} ConsistentAt(xs: seq<Entry>, ys: seq<Entry>, k: string)
    requires ConsistentEntries(xs, ys) && Find(xs, k).Some? && Find(ys, k).Some?
    ensures Consistent(Find(xs, k).value, Find(ys, k).value)
  {
    if xs[0].key != k {
      ConsistentAt(xs[1..], ys, k);
    }
  }

  lemma {:induction false} CompatibleAt(xs: seq<Entry>, ys: seq<Entry>, k: string)
    requires CompatibleEntries(xs, ys) && Find(xs, k).Some? && Find(ys, k).Some?
    ensures Compatible(Find(xs, k).value, Find(ys, k).value)
  {
    if xs[0].key != k {
      CompatibleAt(xs[1..], ys, k);
    }
  }
}
