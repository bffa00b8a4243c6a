/** What the language relies on: union is a partial associative operation, so blocks can be split. */
module UnionTheorems {
  import opened Values
  import opened MergeSpec
  import opened MergeAgree
  import opened MergePaths
  import opened MergeLaws
  import opened Union
  import opened UnionLaws

  /** A configuration dictionary of plain union entries. */
  predicate Config(v: Value) {
    v.Dict? && WellFormed(v) && UnionOnly(v)
  }

  /** The `|` operator and config blocks: union with the idempotence check. */
  function Join(a: Value, b: Value): Option<Value> {
    UnionEntryPoint(a, b, true, CHECKED)
  }

  /** A union succeeds exactly when the configurations agree, and then yields their merge. */
  lemma {:induction false} JoinIffAgree(a: Value, b: Value)
    requires Config(a) && Config(b)
    ensures Join(a, b) == if Agree(a, b) then Some(Merge(a, b)) else Option.None
    ensures Agree(a, b) ==> Config(Merge(a, b))
  {
    CheckedUnion(a, b, false);
    assert UnionValues(a, b, true, CHECKED, false) == UnionValues(a, b, false, CHECKED, false);
    MergeWellFormed(a, b);
    MergeUnionOnly(a, b);
  }

  /** Sequencing of partial results. */
  function Then(a: Option<Value>, b: Option<Value>): Option<Value> {
    if a.Some? && b.Some? then Join(a.value, b.value) else Option.None
  }

  /**
   * Two different ints that convert to one float stand on either side of it, in the order in which one
   * grouping compares each with the float and the other compares them with each other; and nothing else
   * is in conflict.
   */
  ghost predicate Torn(a: Value, b: Value, c: Value) {
    Agree(b, c) &&
    (|| (Agree(a, b) && AgreeBeside(a, c, b) && Rounds(a, b, c))
     || (Agree(a, c) && AgreeBeside(a, b, c) && Rounds(a, c, b)))
  }

  lemma {:induction false} LeftGrouping(a: Value, b: Value, c: Value)
    requires Config(a) && Config(b) && Config(c)
    ensures Then(Join(a, b), Some(c)) ==
      if Agree(a, b) && Agree(b, c) && AgreeBeside(a, c, b) then Some(Merge(Merge(a, b), c)) else Option.None
  {
    JoinIffAgree(a, b);
    if Agree(a, b) {
      JoinIffAgree(Merge(a, b), c);
      AgreeFit(a, b);
      AgreeMergeLeft(a, b, c);
    }
  }

  lemma {:induction false} RightGrouping(a: Value, b: Value, c: Value)
    requires Config(a) && Config(b) && Config(c)
    ensures Then(Some(a), Join(b, c)) ==
      if Agree(b, c) && Agree(a, c) && AgreeBeside(a, b, c) then Some(Merge(a, Merge(b, c))) else Option.None
  {
    JoinIffAgree(b, c);
    if Agree(b, c) {
      JoinIffAgree(a, Merge(b, c));
      AgreeFit(b, c);
      AgreeMergeRight(a, b, c);
    }
  }

  /**
   * Union is associative, failures included, exactly when rounding does not tear the three
   * configurations: then both groupings raise a conflict, or both give the same dictionary, key order
   * included.
   */
  lemma {:induction false} JoinAssoc(a: Value, b: Value, c: Value)
    requires Config(a) && Config(b) && Config(c)
    ensures Then(Join(a, b), Some(c)) == Then(Some(a), Join(b, c)) <==> !Torn(a, b, c)
  {
    LeftGrouping(a, b, c);
    RightGrouping(a, b, c);
    if Agree(b, c) {
      AgreeBothWays(b, c);
      if Agree(a, b) {
        Triangle(a, b, c);
        AgreePaths(a, b);
      }
      if Agree(a, c) {
        Triangle(a, c, b);
        AgreePaths(a, c);
      }
      if Agree(a, b) && Agree(a, c) {
        AgreeFit(a, b);
        AgreeFit(b, c);
        AgreeFit(a, c);
        FitConsistent(a, b);
        FitConsistent(b, c);
        FitConsistent(a, c);
        MergeAssoc(a, b, c);
      }
    }
  }

  /** In particular it is associative when no int of the first configuration reaches 2^53. */
  lemma {:induction false} JoinAssocSmall(a: Value, b: Value, c: Value)
    requires Config(a) && Config(b) && Config(c) && SmallInts(a)
    ensures Then(Join(a, b), Some(c)) == Then(Some(a), Join(b, c))
  {
    JoinAssoc(a, b, c);
    SmallNeverRounds(a, b, c);
    SmallNeverRounds(a, c, b);
  }

  /** Without the check, union is associative on all values of consistent kinds and never fails. */
  lemma {:induction false} UncheckedAssoc(a: Value, b: Value, c: Value)
    requires WellFormed(a) && WellFormed(b) && WellFormed(c) && UnionOnly(b) && UnionOnly(c)
    requires Consistent(a, b) && Consistent(b, c) && Consistent(a, c)
    ensures
      var ab, bc := UnionValues(a, b, false, UNCHECKED, false), UnionValues(b, c, false, UNCHECKED, false);
      && ab.Done? && bc.Done?
      && UnionValues(ab.value, c, false, UNCHECKED, false) == UnionValues(a, bc.value, false, UNCHECKED, false)
      && UnionValues(ab.value, c, false, UNCHECKED, false).Done?
  {
    ConsistentCompatible(a, b);
    ConsistentCompatible(b, c);
    UncheckedUnion(a, b);
    UncheckedUnion(b, c);
    MergeWellFormed(a, b);
    MergeWellFormed(b, c);
    MergeUnionOnly(b, c);
    ConsistentMergeLeft(a, b, c);
    ConsistentMergeRight(a, b, c);
    ConsistentCompatible(Merge(a, b), c);
    ConsistentCompatible(a, Merge(b, c));
    UncheckedUnion(Merge(a, b), c);
    UncheckedUnion(a, Merge(b, c));
    MergeAssoc(a, b, c);
  }

  // ---- config blocks ----

  /** One evaluated entry of a config block. */
  datatype Item = Item(key: string, value: Value, op: EntryOp, index: Option<int>)

  const EMPTY: Value := Dict([], map[], map[])

  /** The one-entry dictionary that inserting an item merges in. */
  function Single(item: Item): Value {
    Dict([Entry(item.key, item.value)], map[item.key := item.op],
         if item.index.Some? then map[item.key := item.index.value] else map[])
  }

  /** A config block: its entries merged one after the other into an empty dictionary. */
  function Block(items: seq<Item>): Option<Value> {
    if items == [] then Some(EMPTY) else
    var k := |items| - 1;
    Then(Block(items[..k]), Some(Single(items[k])))
  }

  /** The loop that evaluates a config block. */
  method WalkConfigEntries(items: seq<Item>) returns (config: Option<Value>)
    ensures config == Block(items)
  {
    config := Some(EMPTY);
    for i := 0 to |items|
      invariant config == Block(items[..i])
    {
      config := DictInsert(config, items[i]);
      assert items[..i + 1][..i] == items[..i];
    }
    assert items[..|items|] == items;
  }

  /** Inserting merges the one-entry dictionary of the item; a failed block stays failed. */
  method DictInsert(dict: Option<Value>, item: Item) returns (dict': Option<Value>)
    ensures dict' == Then(dict, Some(Single(item)))
  {
    if dict.Some? {
      dict' := UnionEntryPoint(dict.value, Single(item), true, CHECKED);
    } else {
      dict' := Option.None;
    }
  }

  predicate Plain(item: Item) {
    item.op == EntryOp.Union && item.index.None? && WellFormed(item.value) && UnionOnly(item.value)
  }

  lemma {:induction false} BlockIsConfig(items: seq<Item>)
    requires forall i :: 0 <= i < |items| ==> Plain(items[i])
    ensures Block(items).Some? ==> Config(Block(items).value)
  {
    if items != [] {
      var k := |items| - 1;
      BlockIsConfig(items[..k]);
      if Block(items[..k]).Some? {
        SingleIsConfig(items[k]);
        JoinIffAgree(Block(items[..k]).value, Single(items[k]));
      }
    }
  }

  lemma {:induction false} SingleIsConfig(item: Item)
    requires Plain(item)
    ensures Config(Single(item))
  {
    var e := Entry(item.key, item.value);
    assert [e][1..] == [] && UniqueKeys([]);
    assert UniqueKeys([e]);
  }

  lemma {:induction false} JoinEmpty(a: Value)
    requires Config(a)
    ensures Join(a, EMPTY) == Some(a)
  {
    JoinIffAgree(a, EMPTY);
    NothingToMerge(a.entries);
    assert a.ops + map[] == a.ops && a.indexes + map[] == a.indexes;
  }
}
