/** When two configurations agree: no shared path holds two different things. */
module MergeAgree {
  import opened Values
  import opened MergeSpec

  /** Shared paths hold equal leaves, equally long lists or dictionaries, or nothing on one side. */
  predicate Agree(a: Value, b: Value)
    decreases b
  {
    || a.Empty() || b.Empty() || EqualScalars(a, b)
    || (a.List? && b.List? && |a.items| == |b.items| && AgreeItems(a.items, b.items))
    || (a.Dict? && b.Dict? && AgreeEntries(a.entries, b.entries))
  }

  predicate AgreeItems(xs: seq<Value>, ys: seq<Value>)
    requires |xs| == |ys|
    decreases ys
  {
    ys != [] ==> Agree(xs[0], ys[0]) && AgreeItems(xs[1..], ys[1..])
  }

  predicate AgreeEntries(xs: seq<Entry>, ys: seq<Entry>)
    decreases ys
  {
    ys != [] ==>
      && (match Find(xs, ys[0].key) case None => true case Some(v) => Agree(v, ys[0].value))
      && AgreeEntries(xs, ys[1..])
  }

  /** The number of nodes below a value, for induction along lookups. */
  function Size(v: Value): nat {
    match v
    case List(items) => 1 + SizeItems(items)
    case Dict(es, _, _) => 1 + SizeEntries(es)
    case _ => 0
  }

  function SizeItems(items: seq<Value>): nat {
    if items == [] then 0 else 1 + Size(items[0]) + SizeItems(items[1..])
  }

  function SizeEntries(es: seq<Entry>): nat {
    if es == [] then 0 else 1 + Size(es[0].value) + SizeEntries(es[1..])
  }

  lemma {:induction false} FindSize(es: seq<Entry>, k: string)
    requires Find(es, k).Some?
    ensures Size(Find(es, k).value) < SizeEntries(es)
  {
    if es[0].key != k {
      FindSize(es[1..], k);
    }
  }

  lemma {:induction false} FindWellFormed(es: seq<Entry>, k: string)
    requires Find(es, k).Some? && forall i :: 0 <= i < |es| ==> WellFormed(es[i].value)
    ensures WellFormed(Find(es, k).value)
  {
    if es[0].key != k {
      FindWellFormed(es[1..], k);
    }
  }

  /** Both sides hold a value under `k`, and the values agree. */
  predicate AgreeAt(xs: seq<Entry>, ys: seq<Entry>, k: string) {
    Find(xs, k).Some? && Find(ys, k).Some? ==> Agree(Find(xs, k).value, Find(ys, k).value)
  }

  lemma {:induction false} AgreeKey(xs: seq<Entry>, ys: seq<Entry>, k: string)
    requires AgreeEntries(xs, ys)
    ensures AgreeAt(xs, ys, k)
  {
    if ys != [] && ys[0].key != k {
      AgreeKey(xs, ys[1..], k);
    }
  }

  lemma {:induction false} AgreeIntro(xs: seq<Entry>, ys: seq<Entry>)
    requires UniqueKeys(ys) && forall k :: AgreeAt(xs, ys, k)
    ensures AgreeEntries(xs, ys)
  {
    if ys != [] {
      assert AgreeAt(xs, ys, ys[0].key);
      forall k ensures AgreeAt(xs, ys[1..], k) {
        FindIffKey(ys[1..], k);
        assert AgreeAt(xs, ys, k);
      }
      AgreeIntro(xs, ys[1..]);
    }
  }

  lemma {:induction false} UniqueFresh(ks: set<string>, es: seq<Entry>)
    requires UniqueKeys(es)
    ensures UniqueKeys(Fresh(ks, es))
  {
    if es != [] {
      UniqueFresh(ks, es[1..]);
      var rest := Fresh(ks, es[1..]);
      FindFresh(ks, es[1..], "");
      if es[0].key !in ks {
        assert ([es[0]] + rest)[1..] == rest;
      } else {
        assert [] + rest == rest;
      }
    }
  }

  lemma {:induction false} UniqueUpdated(xs: seq<Entry>, ys: seq<Entry>)
    requires UniqueKeys(xs)
    ensures UniqueKeys(Updated(xs, ys))
  {
    if xs != [] {
      UniqueUpdated(xs[1..], ys);
      FindUpdated(xs[1..], ys, "");
      assert Updated(xs, ys)[1..] == Updated(xs[1..], ys);
    }
  }

  lemma {:induction false} UniqueAppend(es: seq<Entry>, fs: seq<Entry>)
    requires UniqueKeys(es) && UniqueKeys(fs) && Keys(es) !! Keys(fs)
    ensures UniqueKeys(es + fs)
  {
    if es == [] {
      assert es + fs == fs;
    } else {
      assert (es + fs)[1..] == es[1..] + fs;
      UniqueAppend(es[1..], fs);
      KeysAppend(es[1..], fs);
    }
  }

  lemma {:induction false} UniqueMerged(xs: seq<Entry>, ys: seq<Entry>)
    requires UniqueKeys(xs) && UniqueKeys(ys)
    ensures UniqueKeys(MergeEntries(xs, ys))
  {
    UniqueUpdated(xs, ys);
    UniqueFresh(Keys(xs), ys);
    FindUpdated(xs, ys, "");
    FindFresh(Keys(xs), ys, "");
    UniqueAppend(Updated(xs, ys), Fresh(Keys(xs), ys));
  }

  lemma {:induction false} MergedLength(xs: seq<Value>, ys: seq<Value>)
    requires |xs| == |ys|
    ensures |MergeItems(xs, ys)| == |xs|
  {
    if xs != [] {
      MergedLength(xs[1..], ys[1..]);
    }
  }

  predicate AllWellFormed(es: seq<Entry>) {
    forall i :: 0 <= i < |es| ==> WellFormed(es[i].value)
  }

  lemma {:induction false} AgreeSym(a: Value, b: Value)
    requires WellFormed(a) && WellFormed(b) && Agree(a, b)
    ensures Agree(b, a)
    decreases Size(a)
  {
    if !a.Empty() && !b.Empty() {
      if a.List? {
        ItemsSym(a.items, b.items);
      } else if a.Dict? {
        forall k ensures AgreeAt(b.entries, a.entries, k) {
          AgreeKey(a.entries, b.entries, k);
          if Find(a.entries, k).Some? && Find(b.entries, k).Some? {
            FindSize(a.entries, k);
            FindWellFormed(a.entries, k);
            FindWellFormed(b.entries, k);
            AgreeSym(Find(a.entries, k).value, Find(b.entries, k).value);
          }
        }
        AgreeIntro(b.entries, a.entries);
      }
    }
  }

  lemma {:induction false} ItemsSym(xs: seq<Value>, ys: seq<Value>)
    requires |xs| == |ys| && AgreeItems(xs, ys)
    requires forall i :: 0 <= i < |xs| ==> WellFormed(xs[i])
    requires forall i :: 0 <= i < |ys| ==> WellFormed(ys[i])
    ensures AgreeItems(ys, xs)
    decreases SizeItems(xs)
  {
    if xs != [] {
      AgreeSym(xs[0], ys[0]);
      ItemsSym(xs[1..], ys[1..]);
    }
  }

  /** Merging keeps keys unique at every depth. */
  lemma {:induction false} MergeWellFormed(a: Value, b: Value)
    requires WellFormed(a) && WellFormed(b)
    ensures WellFormed(Merge(a, b))
    decreases a
  {
    if !a.Empty() && !b.Empty() {
      if a.List? && b.List? {
        ItemsWellFormed(a.items, b.items);
      } else if a.Dict? && b.Dict? {
        UniqueMerged(a.entries, b.entries);
        UpdatedWellFormed(a.entries, b.entries);
        FreshWellFormed(Keys(a.entries), b.entries);
      }
    }
  }

  lemma {:induction false} ItemsWellFormed(xs: seq<Value>, ys: seq<Value>)
    requires forall i :: 0 <= i < |xs| ==> WellFormed(xs[i])
    requires forall i :: 0 <= i < |ys| ==> WellFormed(ys[i])
    ensures forall i :: 0 <= i < |MergeItems(xs, ys)| ==> WellFormed(MergeItems(xs, ys)[i])
    decreases xs
  {
    if xs != [] && ys != [] {
      MergeWellFormed(xs[0], ys[0]);
      ItemsWellFormed(xs[1..], ys[1..]);
    }
  }

  lemma {:induction false} UpdatedWellFormed(xs: seq<Entry>, ys: seq<Entry>)
    requires AllWellFormed(xs) && AllWellFormed(ys)
    ensures AllWellFormed(Updated(xs, ys))
    decreases xs
  {
    if xs != [] {
      if Find(ys, xs[0].key).Some? {
        FindWellFormed(ys, xs[0].key);
        MergeWellFormed(xs[0].value, Find(ys, xs[0].key).value);
      }
      UpdatedWellFormed(xs[1..], ys);
    }
  }

  lemma {:induction false} FreshWellFormed(ks: set<string>, es: seq<Entry>)
    requires AllWellFormed(es)
    ensures AllWellFormed(Fresh(ks, es))
  {
    if es != [] {
      FreshWellFormed(ks, es[1..]);
    }
  }
}
