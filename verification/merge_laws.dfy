/** The algebra of configuration merging. */
module MergeLaws {
  import opened Values
  import opened MergeSpec

  /** Merging is associative, key order included, on values of consistent kinds. */
  lemma {:induction false} MergeAssoc(a: Value, b: Value, c: Value)
    requires Consistent(a, b) && Consistent(b, c) && Consistent(a, c)
    ensures Merge(Merge(a, b), c) == Merge(a, Merge(b, c))
    decreases a
  {
    if a.Empty() || b.Empty() || c.Empty() {
      EmptyAssoc(a, b, c);
    } else if a.List? {
      ItemsAssoc(a.items, b.items, c.items);
    } else if a.Dict? {
      EntriesAssoc(a.entries, b.entries, c.entries);
      assert (a.ops + b.ops) + c.ops == a.ops + (b.ops + c.ops);
      assert (a.indexes + b.indexes) + c.indexes == a.indexes + (b.indexes + c.indexes);
    }
  }

  lemma {:induction false} EmptyAssoc(a: Value, b: Value, c: Value)
    requires a.Empty() || b.Empty() || c.Empty()
    requires Consistent(a, b) && Consistent(b, c) && Consistent(a, c)
    ensures Merge(Merge(a, b), c) == Merge(a, Merge(b, c))
  {
  }

  lemma {:induction false} ItemsAssoc(xs: seq<Value>, ys: seq<Value>, zs: seq<Value>)
    requires ConsistentItems(xs, ys) && ConsistentItems(ys, zs) && ConsistentItems(xs, zs)
    ensures MergeItems(MergeItems(xs, ys), zs) == MergeItems(xs, MergeItems(ys, zs))
    decreases xs
  {
    if xs != [] && ys != [] && zs != [] {
      MergeAssoc(xs[0], ys[0], zs[0]);
      ItemsAssoc(xs[1..], ys[1..], zs[1..]);
      assert MergeItems(xs, ys)[1..] == MergeItems(xs[1..], ys[1..]);
      assert MergeItems(ys, zs)[1..] == MergeItems(ys[1..], zs[1..]);
    }
  }

  lemma {:induction false} EntriesAssoc(xs: seq<Entry>, ys: seq<Entry>, zs: seq<Entry>)
    requires ConsistentEntries(xs, ys) && ConsistentEntries(ys, zs) && ConsistentEntries(xs, zs)
    ensures MergeEntries(MergeEntries(xs, ys), zs) == MergeEntries(xs, MergeEntries(ys, zs))
    decreases xs, 1
  {
    var ks, js := Keys(xs), Keys(ys);
    var news := Fresh(ks, ys);
    assert Updated(MergeEntries(xs, ys), zs) == Updated(xs, MergeEntries(ys, zs)) + Fresh(ks, Updated(ys, zs)) by {
      UpdatedAppend(Updated(xs, ys), news, zs);
      UpdatedAssoc(xs, ys, zs);
      UpdatedFresh(ks, ys, zs);
    }
    assert Fresh(Keys(MergeEntries(xs, ys)), zs) == Fresh(ks, Fresh(js, zs)) by {
      FindMerged(xs, ys, "");
      FreshTwice(ks, js, zs);
    }
    FreshAppend(ks, Updated(ys, zs), Fresh(js, zs));
    ConcatAssoc(Updated(xs, MergeEntries(ys, zs)), Fresh(ks, Updated(ys, zs)), Fresh(ks, Fresh(js, zs)));
  }

  lemma {:induction false} ConcatAssoc(a: seq<Entry>, b: seq<Entry>, c: seq<Entry>)
    ensures (a + b) + c == a + (b + c)
  {
  }

  lemma {:induction false} UpdatedAssoc(xs: seq<Entry>, ys: seq<Entry>, zs: seq<Entry>)
    requires ConsistentEntries(xs, ys) && ConsistentEntries(ys, zs) && ConsistentEntries(xs, zs)
    ensures Updated(Updated(xs, ys), zs) == Updated(xs, MergeEntries(ys, zs))
    decreases xs, 0
  {
    if xs != [] {
      var k := xs[0].key;
      var y, z := Find(ys, k), Find(zs, k);
      FindMerged(ys, zs, k);
      if y.Some? && z.Some? {
        ConsistentAt(ys, zs, k);
        MergeAssoc(xs[0].value, y.value, z.value);
      }
      UpdatedAssoc(xs[1..], ys, zs);
      assert Updated(xs, ys)[1..] == Updated(xs[1..], ys);
    }
  }

  // ---- kinds stay consistent under merging ----

  lemma {:induction false} ConsistentMergeLeft(a: Value, b: Value, c: Value)
    requires Consistent(a, b) && Consistent(b, c) && Consistent(a, c)
    ensures Consistent(Merge(a, b), c)
    decreases a
  {
    if !a.Empty() && !b.Empty() && !c.Empty() {
      if a.List? {
        LeftItemsConsistent(a.items, b.items, c.items);
      } else if a.Dict? {
        var news := Fresh(Keys(a.entries), b.entries);
        LeftUpdatedConsistent(a.entries, b.entries, c.entries);
        FreshConsistent(Keys(a.entries), b.entries, c.entries);
        ConsistentAppend(Updated(a.entries, b.entries), news, c.entries);
      }
    }
  }

  lemma {:induction false} LeftItemsConsistent(xs: seq<Value>, ys: seq<Value>, zs: seq<Value>)
    requires ConsistentItems(xs, ys) && ConsistentItems(ys, zs) && ConsistentItems(xs, zs)
    ensures ConsistentItems(MergeItems(xs, ys), zs)
    decreases xs
  {
    if xs != [] && ys != [] && zs != [] {
      ConsistentMergeLeft(xs[0], ys[0], zs[0]);
      LeftItemsConsistent(xs[1..], ys[1..], zs[1..]);
      assert MergeItems(xs, ys)[1..] == MergeItems(xs[1..], ys[1..]);
    }
  }

  lemma {:induction false} LeftUpdatedConsistent(xs: seq<Entry>, ys: seq<Entry>, zs: seq<Entry>)
    requires ConsistentEntries(xs, ys) && ConsistentEntries(ys, zs) && ConsistentEntries(xs, zs)
    ensures ConsistentEntries(Updated(xs, ys), zs)
    decreases xs
  {
    if xs != [] {
      var k := xs[0].key;
      if Find(ys, k).Some? && Find(zs, k).Some? {
        ConsistentAt(ys, zs, k);
        ConsistentMergeLeft(xs[0].value, Find(ys, k).value, Find(zs, k).value);
      }
      LeftUpdatedConsistent(xs[1..], ys, zs);
      assert Updated(xs, ys)[1..] == Updated(xs[1..], ys);
    }
  }

  lemma {:induction false} FreshConsistent(ks: set<string>, ys: seq<Entry>, zs: seq<Entry>)
    requires ConsistentEntries(ys, zs)
    ensures ConsistentEntries(Fresh(ks, ys), zs)
  {
    if ys != [] {
      FreshConsistent(ks, ys[1..], zs);
      var rest := Fresh(ks, ys[1..]);
      if ys[0].key !in ks {
        assert ([ys[0]] + rest)[1..] == rest;
      } else {
        assert [] + rest == rest;
      }
    }
  }

  lemma {:induction false} ConsistentAppend(xs: seq<Entry>, xs': seq<Entry>, zs: seq<Entry>)
    requires ConsistentEntries(xs, zs) && ConsistentEntries(xs', zs)
    ensures ConsistentEntries(xs + xs', zs)
  {
    if xs == [] {
      assert xs + xs' == xs';
    } else {
      assert (xs + xs')[1..] == xs[1..] + xs';
      ConsistentAppend(xs[1..], xs', zs);
    }
  }

  lemma {:induction false} ConsistentMergeRight(a: Value, b: Value, c: Value)
    requires Consistent(a, b) && Consistent(b, c) && Consistent(a, c)
    ensures Consistent(a, Merge(b, c))
    decreases a
  {
    if !a.Empty() && !b.Empty() && !c.Empty() {
      if a.List? {
        RightItemsConsistent(a.items, b.items, c.items);
      } else if a.Dict? {
        RightEntriesConsistent(a.entries, b.entries, c.entries);
      }
    }
  }

  lemma {:induction false} RightItemsConsistent(xs: seq<Value>, ys: seq<Value>, zs: seq<Value>)
    requires ConsistentItems(xs, ys) && ConsistentItems(ys, zs) && ConsistentItems(xs, zs)
    ensures ConsistentItems(xs, MergeItems(ys, zs))
    decreases xs
  {
    if xs != [] && ys != [] && zs != [] {
      ConsistentMergeRight(xs[0], ys[0], zs[0]);
      RightItemsConsistent(xs[1..], ys[1..], zs[1..]);
      assert MergeItems(ys, zs)[1..] == MergeItems(ys[1..], zs[1..]);
    }
  }

  lemma {:induction false} RightEntriesConsistent(xs: seq<Entry>, ys: seq<Entry>, zs: seq<Entry>)
    requires ConsistentEntries(xs, ys) && ConsistentEntries(ys, zs) && ConsistentEntries(xs, zs)
    ensures ConsistentEntries(xs, MergeEntries(ys, zs))
    decreases xs
  {
    if xs != [] {
      var k := xs[0].key;
      FindMerged(ys, zs, k);
      if Find(ys, k).Some? && Find(zs, k).Some? {
        ConsistentAt(ys, zs, k);
        ConsistentMergeRight(xs[0].value, Find(ys, k).value, Find(zs, k).value);
      }
      RightEntriesConsistent(xs[1..], ys, zs);
    }
  }
}
