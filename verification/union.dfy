/**
 * Configuration union as the evaluator performs it: entry by entry on an insertion-ordered
 * dictionary, with the per-key operations, the idempotence check and the failures it raises.
 */
module Union {
  import opened Values
  import opened MergeSpec

  datatype Options = Options(listOverride: bool, idempotentCheck: bool)

  /** A merged value and whether a conflict has been met so far, or a failure that ends the run. */
  datatype Outcome = Done(value: Value, conflict: bool) | Panic

  datatype ItemsOutcome = ItemsDone(items: seq<Value>, conflict: bool) | ItemsPanic

  /** Entries after merging some keys; `stop` when a conflict ended the loop. */
  datatype EntriesOutcome = EntriesDone(entries: seq<Entry>, conflict: bool, stop: bool) | EntriesPanic

  /** Replaces the value under an existing key in place, or appends a new entry. */
  function Put(es: seq<Entry>, k: string, v: Value): seq<Entry> {
    if es == [] then [Entry(k, v)]
    else if es[0].key == k then [Entry(k, v)] + es[1..]
    else [es[0]] + Put(es[1..], k, v)
  }

  function OpOf(ops: map<string, EntryOp>, k: string): EntryOp {
    if k in ops then ops[k] else EntryOp.Union
  }

  function IndexOf(indexes: map<string, int>, k: string): Option<int> {
    if k in indexes then Some(indexes[k]) else Option.None
  }

  /** A negative index counts from the end; before the start there is no position. */
  function Normalize(i: int, len: nat): Option<nat> {
    if i >= 0 then Some(i) else if i + len >= 0 then Some(i + len) else Option.None
  }

  /** Whether the idempotence check accepts `a` on top of `b`. It does not look into dictionaries. */
  predicate Subsume(a: Value, b: Value)
    decreases a
  {
    || a.Empty() || b.Empty()
    || EqualScalars(a, b)
    || (a.List? && b.List? && |a.items| == |b.items| && SubsumeItems(a.items, b.items))
    || (a.Dict? && b.Dict?)
  }

  predicate SubsumeItems(xs: seq<Value>, ys: seq<Value>)
    requires |xs| == |ys|
    decreases xs
  {
    xs == [] || (Subsume(xs[0], ys[0]) && SubsumeItems(xs[1..], ys[1..]))
  }

  function Magnitude(a: int): nat {
    if a >= 0 then a else -a - 1
  }

  /** Bitwise or of integers in two's complement. */
  function BitOr(a: int, b: int): int
    decreases Magnitude(a) + Magnitude(b)
  {
    if Magnitude(a) + Magnitude(b) == 0 then (if a == 0 && b == 0 then 0 else -1)
    else 2 * BitOr(a / 2, b / 2) + (if a % 2 == 1 || b % 2 == 1 then 1 else 0)
  }

  function UnionValues(p: Value, x: Value, orMode: bool, opts: Options, conflict: bool): Outcome
    decreases x, 1
  {
    if p.Empty() then Done(x, conflict)
    else if x.Empty() then Done(p, conflict)
    else if (p.List? || p.Dict?) && (x.List? || x.Dict?) then DoUnion(p, x, opts, conflict)
    else if orMode then
      (if p.Int? && x.Int? then Done(Int(BitOr(p.i, x.i)), conflict) else Panic)
    else Done(x, conflict)
  }

  function DoUnion(p: Value, x: Value, opts: Options, conflict: bool): Outcome
    requires (p.List? || p.Dict?) && (x.List? || x.Dict?)
    decreases x, 0
  {
    if p.List? && x.List? then
      if opts.listOverride then Done(p, conflict)
      else match UnionItems(p.items, x.items, opts, conflict)
        case ItemsDone(items, c) => Done(List(items), c)
        case ItemsPanic => Panic
    else if p.Dict? && x.Dict? then
      match UnionEntries(p.entries, x.entries, x.ops, x.indexes, opts, conflict)
      case EntriesDone(es, c, _) => Done(Dict(es, p.ops + x.ops, p.indexes + x.indexes), c)
      case EntriesPanic => Panic
    else Panic
  }

  /** Lists merge position by position; the longer tail is kept. */
  function UnionItems(xs: seq<Value>, ys: seq<Value>, opts: Options, conflict: bool): ItemsOutcome
    decreases ys
  {
    if xs == [] then ItemsDone(ys, conflict)
    else if ys == [] then ItemsDone(xs, conflict)
    else match UnionValues(xs[0], ys[0], false, opts, conflict)
      case Panic => ItemsPanic
      case Done(v, c) =>
        match UnionItems(xs[1..], ys[1..], opts, c)
        case ItemsPanic => ItemsPanic
        case ItemsDone(items, c') => ItemsDone([v] + items, c')
  }

  /** The loop over the entries of the right-hand side. */
  function UnionEntries(
    es: seq<Entry>, ds: seq<Entry>, ops: map<string, EntryOp>, indexes: map<string, int>,
    opts: Options, conflict: bool): EntriesOutcome
    decreases ds
  {
    if ds == [] then EntriesDone(es, conflict, false)
    else
      var d := ds[0];
      match UnionEntry(es, d.key, d.value, OpOf(ops, d.key), IndexOf(indexes, d.key), opts, conflict)
      case EntriesPanic => EntriesPanic
      case EntriesDone(es', c, stop) =>
        if stop then EntriesDone(es', c, true)
        else UnionEntries(es', ds[1..], ops, indexes, opts, c)
  }

  function UnionEntry(
    es: seq<Entry>, k: string, v: Value, op: EntryOp, index: Option<int>,
    opts: Options, conflict: bool): EntriesOutcome
    decreases v, 3
  {
    if Find(es, k).None? && index.None? then
      EntriesDone(Put(es, k, v), conflict, false)
    else match op
      case Union =>
        if index.Some? then UnionAtIndex(es, k, v, index.value, opts, conflict)
        else UnionShared(es, k, v, Find(es, k).value, opts, conflict)
      case Override =>
        if index.Some? then OverrideAtIndex(es, k, v, index.value, conflict)
        else EntriesDone(Put(es, k, v), conflict, false)
      case Insert => InsertInto(es, k, v, index, conflict)
  }

  function UnionShared(
    es: seq<Entry>, k: string, v: Value, origin: Value, opts: Options, conflict: bool): EntriesOutcome
    decreases v, 2
  {
    if opts.idempotentCheck && !Subsume(v, origin) then
      EntriesDone(es, true, true)
    else match UnionValues(origin, v, false, opts, conflict)
      case Panic => EntriesPanic
      case Done(u, c) => EntriesDone(Put(es, k, u), c, c)
  }

  function UnionAtIndex(es: seq<Entry>, k: string, v: Value, index: int, opts: Options, conflict: bool): EntriesOutcome
    decreases v, 2
  {
    var origin := Find(es, k);
    if !(origin.Some? && origin.value.List?) then EntriesPanic
    else
      var items := origin.value.items;
      var at := Normalize(index, |items|);
      if at.None? || at.value >= |items| then EntriesPanic
      else if opts.idempotentCheck && !Subsume(v, items[at.value]) then
        EntriesDone(es, true, true)
      else match UnionValues(items[at.value], v, false, opts, conflict)
        case Panic => EntriesPanic
        case Done(u, c) => EntriesDone(Put(es, k, List(items[at.value := u])), c, c)
  }

  function OverrideAtIndex(es: seq<Entry>, k: string, v: Value, index: int, conflict: bool): EntriesOutcome {
    var origin := Find(es, k);
    if !(origin.Some? && origin.value.List?) then EntriesPanic
    else
      var items := origin.value.items;
      var at := Normalize(index, |items|);
      if at.None? || at.value >= |items| then EntriesPanic
      else if v.Undefined? then
        EntriesDone(Put(es, k, List(items[..at.value] + items[at.value + 1..])), conflict, false)
      else
        EntriesDone(Put(es, k, List(items[at.value := v])), conflict, false)
  }

  function InsertInto(es: seq<Entry>, k: string, v: Value, index: Option<int>, conflict: bool): EntriesOutcome {
    var found := Find(es, k);
    var origin := if found.None? || found.value.Empty() then List([]) else found.value;
    if !(origin.List? && v.List?) then EntriesPanic
    else if index.None? then
      EntriesDone(Put(es, k, List(origin.items + v.items)), conflict, false)
    else
      var at := Normalize(index.value, |origin.items|);
      if at.None? then EntriesPanic
      else if v.items == [] then EntriesDone(Put(es, k, origin), conflict, false)
      else if at.value > |origin.items| then EntriesPanic
      else
        EntriesDone(
          Put(es, k, List(origin.items[..at.value] + v.items + origin.items[at.value..])), conflict, false)
  }

  /** The entry point: a conflict anywhere ends the run like any other failure. */
  function UnionEntryPoint(p: Value, x: Value, orMode: bool, opts: Options): Option<Value> {
    match UnionValues(p, x, orMode, opts, false)
    case Done(v, conflict) => if conflict then Option.None else Some(v)
    case Panic => Option.None
  }

  /** The loop over the right-hand entries, which stops at the first conflict. */
  method UnionFn(
    es: seq<Entry>, ds: seq<Entry>, ops: map<string, EntryOp>, indexes: map<string, int>,
    opts: Options, conflict: bool) returns (r: EntriesOutcome)
    ensures r == UnionEntries(es, ds, ops, indexes, opts, conflict)
  {
    var acc, c := es, conflict;
    for i := 0 to |ds|
      invariant UnionEntries(acc, ds[i..], ops, indexes, opts, c) == UnionEntries(es, ds, ops, indexes, opts, conflict)
    {
      var d := ds[i];
      assert ds[i..][0] == d && ds[i..][1..] == ds[i + 1..];
      var step := UnionEntry(acc, d.key, d.value, OpOf(ops, d.key), IndexOf(indexes, d.key), opts, c);
      if step.EntriesPanic? || step.stop {
        return step;
      }
      acc, c := step.entries, step.conflict;
    }
    r := EntriesDone(acc, c, false);
  }

  function Prepend(prefix: seq<Value>, r: ItemsOutcome): ItemsOutcome {
    match r
    case ItemsDone(items, c) => ItemsDone(prefix + items, c)
    case ItemsPanic => ItemsPanic
  }

  /** What the loop over list positions will still make of `items` from position `i` on. */
  ghost function Rest(items: seq<Value>, i: nat, ys: seq<Value>, opts: Options, c: bool): ItemsOutcome
    requires i <= |items|
  {
    Prepend(items[..i], UnionItems(items[i..], if i <= |ys| then ys[i..] else [], opts, c))
  }

  lemma {:induction false} RestMerge(items: seq<Value>, i: nat, ys: seq<Value>, opts: Options, c: bool)
    requires i < |items| && i < |ys|
    ensures
      match UnionValues(items[i], ys[i], false, opts, c)
      case Panic => Rest(items, i, ys, opts, c) == ItemsPanic
      case Done(v, c') => Rest(items, i, ys, opts, c) == Rest(items[i := v], i + 1, ys, opts, c')
  {
    var u := UnionValues(items[i], ys[i], false, opts, c);
    assert items[i..][1..] == items[i + 1..] && ys[i..][1..] == ys[i + 1..];
    if u.Done? {
      var items' := items[i := u.value];
      assert items'[i + 1..] == items[i + 1..] && items'[..i + 1] == items[..i] + [u.value];
      var r := UnionItems(items[i + 1..], ys[i + 1..], opts, u.conflict);
      if r.ItemsDone? {
        assert items[..i] + ([u.value] + r.items) == items'[..i + 1] + r.items;
      }
    }
  }

  lemma {:induction false} RestAppend(items: seq<Value>, i: nat, ys: seq<Value>, opts: Options, c: bool)
    requires i == |items| && i < |ys|
    ensures Rest(items, i, ys, opts, c) == Rest(items + [ys[i]], i + 1, ys, opts, c)
  {
    var items' := items + [ys[i]];
    assert items[i..] == [] && items'[i + 1..] == [] && items'[..i + 1] == items';
    assert items + ys[i..] == items' + ys[i + 1..];
  }

  lemma {:induction false} RestKeep(items: seq<Value>, i: nat, ys: seq<Value>, opts: Options, c: bool)
    requires i < |items| && i >= |ys|
    ensures Rest(items, i, ys, opts, c) == Rest(items, i + 1, ys, opts, c)
  {
    assert items[..i] + items[i..] == items && items[..i + 1] + items[i + 1..] == items;
    assert UnionItems(items[i + 1..], [], opts, c) == ItemsDone(items[i + 1..], c);
  }

  lemma {:induction false} RestStart(xs: seq<Value>, ys: seq<Value>, opts: Options, c: bool)
    ensures Rest(xs, 0, ys, opts, c) == UnionItems(xs, ys, opts, c)
  {
    assert xs[..0] == [] && xs[0..] == xs && ys[0..] == ys;
    var r := UnionItems(xs, ys, opts, c);
    if r.ItemsDone? {
      assert [] + r.items == r.items;
    }
  }

  lemma {:induction false} RestEnd(items: seq<Value>, ys: seq<Value>, opts: Options, c: bool)
    requires |ys| <= |items|
    ensures Rest(items, |items|, ys, opts, c) == ItemsDone(items, c)
  {
    assert items[..|items|] == items && items[|items|..] == [] && (|items| <= |ys| ==> ys[|items|..] == []);
    assert items + [] == items;
  }

  /** One list position. */
  method UnionAt(items: seq<Value>, i: nat, ys: seq<Value>, opts: Options, c: bool) returns (r: ItemsOutcome)
    requires i <= |items| && (i == |items| ==> i < |ys|)
    ensures r.ItemsPanic? ==> Rest(items, i, ys, opts, c) == ItemsPanic
    ensures r.ItemsDone? ==> |r.items| == (if i == |items| then i + 1 else |items|)
    ensures r.ItemsDone? ==> Rest(r.items, i + 1, ys, opts, r.conflict) == Rest(items, i, ys, opts, c)
  {
    if i >= |items| {
      RestAppend(items, i, ys, opts, c);
      r := ItemsDone(items + [ys[i]], c);
    } else if i < |ys| {
      RestMerge(items, i, ys, opts, c);
      var u := UnionValues(items[i], ys[i], false, opts, c);
      r := if u.Panic? then ItemsPanic else ItemsDone(items[i := u.value], u.conflict);
    } else {
      RestKeep(items, i, ys, opts, c);
      r := ItemsDone(items, c);
    }
  }

  /** The loop over list positions: merge where both lists reach, append where only the right does. */
  method UnionList(xs: seq<Value>, ys: seq<Value>, opts: Options, conflict: bool) returns (r: ItemsOutcome)
    ensures r == UnionItems(xs, ys, opts, conflict)
  {
    var items, c := xs, conflict;
    var length := if |xs| > |ys| then |xs| else |ys|;
    RestStart(xs, ys, opts, conflict);
    for i := 0 to length
      invariant |items| == if i > |xs| then i else |xs|
      invariant Rest(items, i, ys, opts, c) == UnionItems(xs, ys, opts, conflict)
    {
      var step := UnionAt(items, i, ys, opts, c);
      if step.ItemsPanic? {
        return ItemsPanic;
      }
      items, c := step.items, step.conflict;
    }
    RestEnd(items, ys, opts, c);
    r := ItemsDone(items, c);
  }
}
