/** Splitting config blocks, and the numbers at which a split or a grouping shows. */
module UnionSplit {
  import opened Values
  import opened Floats
  import opened MergeSpec
  import opened MergeAgree
  import opened MergePaths
  import opened MergeLaws
  import opened UnionLaws
  import opened UnionTheorems

  /** The first value of a block at every path, where the block itself has the last one. */
  function Firsts(items: seq<Item>): Value {
    if items == [] then EMPTY else
    var k := |items| - 1;
    Merge(Single(items[k]), Firsts(items[..k]))
  }

  /** The last value of a block at every path, whether or not the block builds. */
  function Lasts(items: seq<Item>): Value {
    if items == [] then EMPTY else
    var k := |items| - 1;
    Merge(Lasts(items[..k]), Single(items[k]))
  }

  /** Entry `k` agrees with the last values before it. */
  ghost predicate Joins(items: seq<Item>, k: nat)
    requires k < |items|
  {
    Agree(Lasts(items[..k]), Single(items[k]))
  }

  ghost predicate Builds(items: seq<Item>) {
    forall k :: 0 <= k < |items| ==> Joins(items, k)
  }

  ghost predicate AllPlain(items: seq<Item>) {
    forall i :: 0 <= i < |items| ==> Plain(items[i])
  }

  /** Something at the same paths, of the same kinds. */
  ghost predicate Alike(a: Value, b: Value) {
    forall p: Path :: AlikeNodes(NodeAt(a, p), NodeAt(b, p))
  }

  predicate AlikeNodes(m: Node, n: Node) { (m.Nothing? <==> n.Nothing?) && FitNodes(m, n) }

  lemma {:induction false} FitAlike(a: Value, f: Value, d: Value)
    requires Fit(a, f) && Alike(f, d)
    ensures Fit(a, d)
  {
    forall p: Path ensures FitNodes(NodeAt(a, p), NodeAt(d, p)) {
      assert FitNodes(NodeAt(a, p), NodeAt(f, p)) && AlikeNodes(NodeAt(f, p), NodeAt(d, p));
    }
  }

  lemma {:induction false} AlikeFits(f: Value, d: Value, s: Value)
    requires Alike(f, d) && Fit(d, s)
    ensures Fit(s, f)
  {
    forall p: Path ensures FitNodes(NodeAt(s, p), NodeAt(f, p)) {
      assert AlikeNodes(NodeAt(f, p), NodeAt(d, p)) && FitNodes(NodeAt(d, p), NodeAt(s, p));
    }
  }

  lemma {:induction false} AlikeStep(f: Value, d: Value, s: Value)
    requires Alike(f, d) && Fit(d, s) && Fit(s, f)
    ensures Alike(Merge(s, f), Merge(d, s))
  {
    forall p: Path ensures AlikeNodes(NodeAt(Merge(s, f), p), NodeAt(Merge(d, s), p)) {
      MergeAt(s, f, p);
      MergeAt(d, s, p);
      assert AlikeNodes(NodeAt(f, p), NodeAt(d, p)) && FitNodes(NodeAt(d, p), NodeAt(s, p));
    }
  }

  lemma {:induction false} BesideAlike(b: Value, s: Value, f: Value, d: Value)
    requires Alike(f, d)
    ensures AgreeBeside(b, s, f) <==> AgreeBeside(b, s, d)
  {
    forall p: Path ensures NodeAt(f, p).Nothing? <==> NodeAt(d, p).Nothing? {
      assert AlikeNodes(NodeAt(f, p), NodeAt(d, p));
    }
  }

  /** Adding one more entry behind a block that is `d` and begins as `f`. */
  lemma {:induction false} OneMore(b: Value, f: Value, d: Value, s: Value)
    requires WellFormed(b) && WellFormed(f) && WellFormed(d) && WellFormed(s)
    requires Alike(f, d) && Agree(d, s)
    ensures Fit(s, f)
    ensures Agree(b, Merge(s, f)) <==> Agree(b, f) && Agree(Merge(b, d), s)
  {
    AgreeFit(d, s);
    AlikeFits(f, d, s);
    AgreeMergeRight(b, s, f);
    BesideAlike(b, s, f, d);
    if Agree(b, f) {
      AgreeFit(b, f);
      FitAlike(b, f, d);
      AgreeMergeLeft(b, d, s);
    }
  }

  lemma {:induction false} FitAcross(b: Value, d: Value, s: Value)
    requires Fit(b, d) && Fit(d, s) && AgreeBeside(b, s, d)
    ensures Fit(b, s)
  {
    forall p: Path ensures FitNodes(NodeAt(b, p), NodeAt(s, p)) {
      assert FitNodes(NodeAt(b, p), NodeAt(d, p)) && FitNodes(NodeAt(d, p), NodeAt(s, p));
    }
  }

  lemma {:induction false} RegroupMerge(b: Value, f: Value, d: Value, s: Value)
    requires WellFormed(b) && WellFormed(f) && WellFormed(d) && WellFormed(s)
    requires Alike(f, d) && Agree(b, f) && Agree(d, s) && Agree(Merge(b, d), s)
    ensures Merge(Merge(b, d), s) == Merge(b, Merge(d, s))
  {
    AgreeFit(b, f);
    FitAlike(b, f, d);
    AgreeFit(d, s);
    AgreeMergeLeft(b, d, s);
    FitAcross(b, d, s);
    FitConsistent(b, d);
    FitConsistent(d, s);
    FitConsistent(b, s);
    MergeAssoc(b, d, s);
  }

  lemma {:induction false} AlikeSelf(a: Value)
    ensures Alike(a, a)
  {
  }

  lemma {:induction false} FirstsAlike(ys: seq<Item>)
    requires AllPlain(ys) && Block(ys).Some?
    ensures Config(Firsts(ys)) && Alike(Firsts(ys), Block(ys).value)
    decreases |ys|
  {
    if ys == [] {
      AlikeSelf(EMPTY);
    } else {
      var k := |ys| - 1;
      var f, s := Firsts(ys[..k]), Single(ys[k]);
      FirstsAlike(ys[..k]);
      BlockIsConfig(ys[..k]);
      SingleIsConfig(ys[k]);
      var d := Block(ys[..k]).value;
      JoinIffAgree(d, s);
      AgreeFit(d, s);
      AlikeFits(f, d, s);
      AlikeStep(f, d, s);
      MergeWellFormed(s, f);
      MergeUnionOnly(s, f);
    }
  }

  lemma {:induction false} BlockSnoc(xs: seq<Item>, ys: seq<Item>)
    requires ys != []
    ensures var k := |ys| - 1; Block(xs + ys) == Then(Block(xs + ys[..k]), Some(Single(ys[k])))
  {
    var k := |ys| - 1;
    assert (xs + ys)[..|xs| + k] == xs + ys[..k];
  }

  /** A block goes on exactly when what follows builds by itself and begins in agreement with it. */
  lemma {:induction false} BlockAppend(xs: seq<Item>, ys: seq<Item>)
    requires AllPlain(xs) && AllPlain(ys) && Block(xs).Some?
    ensures Block(xs + ys) ==
      if Block(ys).Some? && Agree(Block(xs).value, Firsts(ys)) then Some(Merge(Block(xs).value, Block(ys).value))
      else Option.None
    decreases |ys|
  {
    BlockIsConfig(xs);
    var b := Block(xs).value;
    if ys == [] {
      assert xs + ys == xs;
      JoinEmpty(b);
      JoinIffAgree(b, EMPTY);
    } else {
      var k := |ys| - 1;
      BlockSnoc(xs, ys);
      BlockAppend(xs, ys[..k]);
      SingleIsConfig(ys[k]);
      if Block(ys[..k]).Some? {
        AppendStep(b, ys[..k], Single(ys[k]));
      }
    }
  }

  lemma {:induction false} AppendStep(b: Value, ys: seq<Item>, s: Value)
    requires Config(b) && AllPlain(ys) && Block(ys).Some? && Config(s)
    ensures var d, f := Block(ys).value, Firsts(ys);
      && Join(d, s) == (if Agree(d, s) then Some(Merge(d, s)) else Option.None)
      && (if Agree(b, f) then Join(Merge(b, d), s) else Option.None)
         == (if Agree(d, s) && Agree(b, Merge(s, f)) then Some(Merge(b, Merge(d, s))) else Option.None)
  {
    var d, f := Block(ys).value, Firsts(ys);
    BlockIsConfig(ys);
    FirstsAlike(ys);
    JoinIffAgree(d, s);
    if Agree(d, s) {
      OneMore(b, f, d, s);
    }
    if Agree(b, f) {
      MergeWellFormed(b, d);
      MergeUnionOnly(b, d);
      JoinIffAgree(Merge(b, d), s);
      AgreeFit(b, f);
      FitAlike(b, f, d);
      AgreeMergeLeft(b, d, s);
      if Agree(Merge(b, d), s) {
        RegroupMerge(b, f, d, s);
      }
    }
  }

  /** A block builds exactly when every entry agrees with the last values before it, and has its own last values. */
  lemma {:induction false} BlockIsLasts(items: seq<Item>)
    requires AllPlain(items)
    ensures Block(items) == if Builds(items) then Some(Lasts(items)) else Option.None
    decreases |items|
  {
    if items != [] {
      var k := |items| - 1;
      BlockIsLasts(items[..k]);
      BuildsSnoc(items);
      SingleIsConfig(items[k]);
      if Builds(items[..k]) {
        BlockIsConfig(items[..k]);
        JoinIffAgree(Lasts(items[..k]), Single(items[k]));
      }
    }
  }

  lemma {:induction false} BuildsSnoc(items: seq<Item>)
    requires items != []
    ensures
      var k := |items| - 1;
      Builds(items) <==> Builds(items[..k]) && Joins(items, k)
  {
    var k := |items| - 1;
    forall i | 0 <= i < k ensures Joins(items[..k], i) == Joins(items, i) {
      assert items[..k][..i] == items[..i];
    }
  }

  /** The entries of a longer block agree exactly when those of its parts do and the second part begins in agreement. */
  lemma {:induction false} BuildsAppend(xs: seq<Item>, ys: seq<Item>)
    requires AllPlain(xs) && AllPlain(ys)
    ensures Builds(xs + ys) <==> Builds(xs) && Builds(ys) && Agree(Lasts(xs), Firsts(ys))
    ensures Builds(xs + ys) ==> Lasts(xs + ys) == Merge(Lasts(xs), Lasts(ys))
  {
    BlockIsLasts(xs);
    BlockIsLasts(ys);
    BlockIsLasts(xs + ys);
    if Block(xs).Some? {
      BlockAppend(xs, ys);
    } else {
      FailedStays(xs, ys);
    }
  }

  /**
   * A block can be split exactly where the first part, if both parts build, agrees with how the second begins
   * if and only if it agrees with how the second ends: then building it whole is building the parts and merging
   * them, and it raises a conflict exactly when a part or that merge does.
   */
  lemma {:induction false} SplitAnywhere(xs: seq<Item>, ys: seq<Item>)
    requires AllPlain(xs) && AllPlain(ys)
    ensures Block(xs + ys) == Then(Block(xs), Block(ys)) <==>
      (Builds(xs) && Builds(ys) ==> (Agree(Lasts(xs), Firsts(ys)) <==> Agree(Lasts(xs), Lasts(ys))))
  {
    BlockIsLasts(xs);
    BlockIsLasts(ys);
    if Block(xs).Some? {
      BlockIsConfig(xs);
      BlockIsConfig(ys);
      BlockAppend(xs, ys);
      if Block(ys).Some? {
        JoinIffAgree(Lasts(xs), Lasts(ys));
      }
    } else {
      FailedStays(xs, ys);
    }
  }

  lemma {:induction false} FailedStays(xs: seq<Item>, ys: seq<Item>)
    requires Block(xs).None?
    ensures Block(xs + ys).None?
    decreases |ys|
  {
    if ys == [] {
      assert xs + ys == xs;
    } else {
      BlockSnoc(xs, ys);
      FailedStays(xs, ys[..|ys| - 1]);
    }
  }

  // ---- without large ints ----

  ghost predicate AllSmall(items: seq<Item>) {
    forall i :: 0 <= i < |items| ==> SmallInts(items[i].value)
  }

  lemma {:induction false} FindOnly(e: Entry, k: string)
    ensures Find([e], k) == if k == e.key then Some(e.value) else Option.None
  {
    assert [e][1..] == [] && Find([], k) == Option.None;
  }

  lemma {:induction false} SmallSingle(item: Item)
    requires SmallInts(item.value)
    ensures SmallInts(Single(item))
  {
    forall p: Path ensures SmallNode(NodeAt(Single(item), p)) {
      if p != [] {
        var below := Down(Single(item), p[0]);
        FindOnly(Entry(item.key, item.value), if p[0].Key? then p[0].key else "");
        if below == item.value {
          assert SmallNode(NodeAt(item.value, p[1..]));
        } else {
          NothingBelow(below, p[1..]);
        }
      }
    }
  }

  lemma {:induction false} SmallMerge(a: Value, b: Value)
    requires Fit(a, b) && SmallInts(a) && SmallInts(b)
    ensures SmallInts(Merge(a, b))
  {
    forall p: Path ensures SmallNode(NodeAt(Merge(a, b), p)) {
      MergeAt(a, b, p);
      assert SmallNode(NodeAt(a, p)) && SmallNode(NodeAt(b, p));
    }
  }

  lemma {:induction false} SmallEmpty()
    ensures SmallInts(EMPTY)
  {
    forall p: Path ensures SmallNode(NodeAt(EMPTY, p)) {
      if p != [] {
        NothingBelow(Down(EMPTY, p[0]), p[1..]);
      }
    }
  }

  lemma {:induction false} SmallBlock(ys: seq<Item>)
    requires AllPlain(ys) && AllSmall(ys) && Block(ys).Some?
    ensures SmallInts(Block(ys).value) && SmallInts(Firsts(ys)) && Agree(Firsts(ys), Block(ys).value)
    decreases |ys|
  {
    if ys == [] {
      SmallEmpty();
    } else {
      var k := |ys| - 1;
      var f, s := Firsts(ys[..k]), Single(ys[k]);
      SmallBlock(ys[..k]);
      SmallSingle(ys[k]);
      BlockIsConfig(ys[..k]);
      SingleIsConfig(ys[k]);
      FirstsAlike(ys[..k]);
      var d := Block(ys[..k]).value;
      JoinIffAgree(d, s);
      AgreeFit(d, s);
      AlikeFits(f, d, s);
      SmallMerge(d, s);
      SmallMerge(s, f);
      FirstAndLast(f, d, s);
    }
  }

  /** Through small ints agreement is passed on, so the first and the last value agree. */
  lemma {:induction false} FirstAndLast(f: Value, d: Value, s: Value)
    requires WellFormed(f) && WellFormed(d) && WellFormed(s)
    requires Agree(f, d) && Agree(d, s) && Alike(f, d) && Fit(s, f) && SmallInts(f)
    ensures Agree(Merge(s, f), Merge(d, s))
  {
    AgreeFit(d, s);
    MergeWellFormed(s, f);
    MergeWellFormed(d, s);
    AgreePaths(f, d);
    AgreePaths(d, s);
    forall p: Path ensures AgreeNodes(NodeAt(Merge(s, f), p), NodeAt(Merge(d, s), p)) {
      MergeAt(s, f, p);
      MergeAt(d, s, p);
      var x, n, y := NodeAt(f, p), NodeAt(d, p), NodeAt(s, p);
      assert AlikeNodes(x, n) && AgreeNodes(x, n) && AgreeNodes(n, y) && SmallNode(x);
      PassedOn(x, n, y);
    }
    AgreePaths(Merge(s, f), Merge(d, s));
  }

  lemma {:induction false} PassedOn(x: Node, n: Node, y: Node)
    requires AlikeNodes(x, n) && AgreeNodes(x, n) && AgreeNodes(n, y) && SmallNode(x)
    requires y.Leaf? ==> y.value.Scalar()
    ensures AgreeNodes(Over(y, x), Over(n, y))
  {
    if !n.Nothing? {
      NodeTriangle(x, n, y);
      SmallNodeExact(x, n, y);
    }
  }

  /** With ints below 2^53 a config block can be split anywhere. */
  lemma {:induction false} SplitSmall(xs: seq<Item>, ys: seq<Item>)
    requires AllPlain(xs) && AllPlain(ys) && AllSmall(xs) && AllSmall(ys)
    ensures Block(xs + ys) == Then(Block(xs), Block(ys))
  {
    SplitAnywhere(xs, ys);
    BlockIsLasts(xs);
    BlockIsLasts(ys);
    if Builds(xs) && Builds(ys) {
      var b, c, f := Lasts(xs), Lasts(ys), Firsts(ys);
      BlockIsConfig(xs);
      BlockIsConfig(ys);
      SmallBlock(xs);
      SmallBlock(ys);
      FirstsAlike(ys);
      AgreeBothWays(f, c);
      EmptyTogether(b, f, c);
      if Agree(b, f) {
        Triangle(b, f, c);
        SmallNeverRounds(b, f, c);
      }
      if Agree(b, c) {
        Triangle(b, c, f);
        SmallNeverRounds(b, c, f);
      }
    }
  }

  lemma {:induction false} EmptyTogether(b: Value, f: Value, c: Value)
    requires Alike(f, c)
    ensures AgreeBeside(b, c, f) && AgreeBeside(b, f, c)
  {
    forall p: Path ensures NodeAt(f, p).Nothing? <==> NodeAt(c, p).Nothing? {
      assert AlikeNodes(NodeAt(f, p), NodeAt(c, p));
    }
    NothingBeside(b, c, f);
    NothingBeside(b, f, c);
  }

  lemma {:induction false} NothingBeside(b: Value, c: Value, f: Value)
    requires forall p: Path :: NodeAt(f, p).Nothing? ==> NodeAt(c, p).Nothing?
    ensures AgreeBeside(b, c, f)
  {
  }

  // ---- with large ints ----

  function Only(k: string, v: Value): Item { Item(k, v, EntryOp.Union, Option.None) }

  lemma {:induction false} AgreeSingles(k: string, v: Value, w: Value)
    requires v.Scalar() && w.Scalar()
    ensures Config(Single(Only(k, v)))
    ensures Agree(Single(Only(k, v)), Single(Only(k, w))) <==> EqualScalars(v, w)
    ensures Merge(Single(Only(k, v)), Single(Only(k, w))) == Single(Only(k, w))
  {
    SingleIsConfig(Only(k, v));
    var es, ds := [Entry(k, v)], [Entry(k, w)];
    assert es[1..] == [] && ds[1..] == [];
    assert Find(es, k) == Some(v) && Find(ds, k) == Some(w);
    assert AgreeEntries(es, ds) == (Agree(v, w) && AgreeEntries(es, []));
    assert Updated(es, ds) == [Entry(k, w)] + Updated([], ds);
    assert Fresh(Keys(es), ds) == [] + Fresh(Keys(es), []);
    var ops := map[k := EntryOp.Union];
    assert ops + ops == ops;
  }

  /**
   * 2^53 as an int, as a float, and the next int: one grouping compares each int with the float and
   * succeeds, the other compares the ints and fails. Written as one block, the three entries succeed, and
   * split after the first they fail.
   */
  lemma {:induction false} RoundingTears(k: string)
    ensures
      var a, b := Single(Only(k, Int(LIMIT))), Single(Only(k, Float(LIMIT as real)));
      var c := Single(Only(k, Int(LIMIT + 1)));
      Then(Join(a, b), Some(c)) == Some(c) && Then(Some(a), Join(b, c)) == Option.None
  {
    LargeCollide();
    var x, y, z := Int(LIMIT), Float(LIMIT as real), Int(LIMIT + 1);
    AgreeSingles(k, x, y);
    AgreeSingles(k, y, z);
    AgreeSingles(k, x, z);
    AgreeSingles(k, z, z);
    JoinIffAgree(Single(Only(k, x)), Single(Only(k, y)));
    JoinIffAgree(Single(Only(k, y)), Single(Only(k, z)));
    JoinIffAgree(Single(Only(k, x)), Single(Only(k, z)));
  }

  lemma {:induction false} BlockOfOne(item: Item)
    requires Plain(item)
    ensures Block([item]) == Some(Single(item))
  {
    SingleIsConfig(item);
    assert [item][..0] == [];
    assert Block([]) == Some(EMPTY);
    var s := Single(item);
    JoinIffAgree(EMPTY, s);
    assert s.entries[1..] == [] && AgreeEntries([], s.entries);
    assert Fresh({}, s.entries) == [s.entries[0]] + Fresh({}, []);
    assert Keys([]) == {} && Updated([], s.entries) == [];
    assert MergeEntries([], s.entries) == [] + s.entries;
    assert EMPTY.ops + s.ops == s.ops && EMPTY.indexes + s.indexes == s.indexes;
    assert Merge(EMPTY, s) == s;
    assert Then(Block([]), Some(s)) == Join(EMPTY, s);
  }

  /** The same three entries as a block: whole they build, split after the first they do not. */
  lemma {:induction false} SplitTears(k: string)
    ensures
      var x, y, z := Only(k, Int(LIMIT)), Only(k, Float(LIMIT as real)), Only(k, Int(LIMIT + 1));
      Block([x] + [y, z]).Some? && Then(Block([x]), Block([y, z])).None?
  {
    var x, y, z := Only(k, Int(LIMIT)), Only(k, Float(LIMIT as real)), Only(k, Int(LIMIT + 1));
    RoundingTears(k);
    BlockOfOne(x);
    BlockOfOne(y);
    assert [y, z][..1] == [y] && ([x] + [y, z])[..2] == [x] + [y] && ([x] + [y])[..1] == [x];
  }
}
