/** Configurations seen path by path: what agreement and merging mean at each place. */
module MergePaths {
  import opened Values
  import opened Floats
  import opened MergeSpec
  import opened MergeAgree

  datatype Step = Key(key: string) | Index(index: nat)

  type Path = seq<Step>

  /** What a configuration holds at a path. */
  datatype Node = Nothing | Leaf(value: Value) | ListNode(len: nat) | DictNode

  function NodeOf(v: Value): Node {
    if v.Empty() then Nothing
    else match v
      case List(items) => ListNode(|items|)
      case Dict(_, _, _) => DictNode
      case _ => Leaf(v)
  }

  /** The value one step down; nothing if there is none. */
  function Down(v: Value, step: Step): Value {
    match step
    case Key(k) => if v.Dict? && Find(v.entries, k).Some? then Find(v.entries, k).value else Undefined
    case Index(i) => if v.List? && i < |v.items| then v.items[i] else Undefined
  }

  function NodeAt(v: Value, p: Path): (n: Node)
    ensures n.Leaf? ==> n.value.Scalar()
    decreases |p|
  {
    if p == [] then NodeOf(v) else NodeAt(Down(v, p[0]), p[1..])
  }

  /** Nothing on one side, equal scalars, equally long lists, or two dictionaries. */
  predicate AgreeNodes(m: Node, n: Node) {
    || m.Nothing? || n.Nothing?
    || (m.Leaf? && n.Leaf? && EqualScalars(m.value, n.value))
    || (m.ListNode? && m == n) || (m.DictNode? && n.DictNode?)
  }

  /** The same with any two scalars. */
  predicate FitNodes(m: Node, n: Node) {
    m.Nothing? || n.Nothing? || (m.Leaf? && n.Leaf?) || (m.ListNode? && m == n) || (m.DictNode? && n.DictNode?)
  }

  ghost predicate Fit(a: Value, b: Value) {
    forall p: Path :: FitNodes(NodeAt(a, p), NodeAt(b, p))
  }

  ghost predicate AgreeAlong(a: Value, b: Value) {
    forall p: Path :: AgreeNodes(NodeAt(a, p), NodeAt(b, p))
  }

  lemma {:induction false} NodeDown(v: Value, step: Step, p: Path)
    ensures NodeAt(v, [step] + p) == NodeAt(Down(v, step), p)
  {
    assert ([step] + p)[1..] == p;
  }

  lemma {:induction false} NothingBelow(v: Value, p: Path)
    requires v.Empty()
    ensures NodeAt(v, p) == Nothing
    decreases |p|
  {
    if p != [] {
      NothingBelow(Undefined, p[1..]);
    }
  }

  // ---- agreement ----

  lemma {:induction false} AgreeBelow(a: Value, b: Value, step: Step)
    requires Agree(a, b) && !a.Empty() && !b.Empty()
    ensures Agree(Down(a, step), Down(b, step))
  {
    match step
    case Key(k) =>
      if a.Dict? && b.Dict? {
        AgreeKey(a.entries, b.entries, k);
      }
    case Index(i) =>
      if a.List? && b.List? && i < |a.items| {
        AgreeIndex(a.items, b.items, i);
      }
  }

  lemma {:induction false} AgreeIndex(xs: seq<Value>, ys: seq<Value>, i: nat)
    requires |xs| == |ys| && AgreeItems(xs, ys) && i < |xs|
    ensures Agree(xs[i], ys[i])
  {
    if i > 0 {
      AgreeIndex(xs[1..], ys[1..], i - 1);
    }
  }

  lemma {:induction false} NodesAgree(a: Value, b: Value, p: Path)
    requires Agree(a, b)
    ensures AgreeNodes(NodeAt(a, p), NodeAt(b, p))
    decreases |p|
  {
    if a.Empty() {
      NothingBelow(a, p);
    } else if b.Empty() {
      NothingBelow(b, p);
    } else if p != [] {
      AgreeBelow(a, b, p[0]);
      NodesAgree(Down(a, p[0]), Down(b, p[0]), p[1..]);
    }
  }

  lemma {:induction false} AlongBelow(a: Value, b: Value, step: Step)
    requires AgreeAlong(a, b)
    ensures AgreeAlong(Down(a, step), Down(b, step))
  {
    forall p: Path ensures AgreeNodes(NodeAt(Down(a, step), p), NodeAt(Down(b, step), p)) {
      NodeDown(a, step, p);
      NodeDown(b, step, p);
      assert AgreeNodes(NodeAt(a, [step] + p), NodeAt(b, [step] + p));
    }
  }

  lemma {:induction false} AlongAgree(a: Value, b: Value)
    requires WellFormed(a) && WellFormed(b) && AgreeAlong(a, b)
    ensures Agree(a, b)
    decreases Size(a), 1
  {
    assert AgreeNodes(NodeAt(a, []), NodeAt(b, []));
    if !a.Empty() && !b.Empty() {
      if a.List? {
        forall i | 0 <= i < |a.items| ensures AgreeAlong(a.items[i], b.items[i]) {
          AlongBelow(a, b, Index(i));
        }
        AlongItems(a.items, b.items);
      } else if a.Dict? {
        forall k ensures AgreeAt(a.entries, b.entries, k) {
          AlongBelow(a, b, Key(k));
          if Find(a.entries, k).Some? && Find(b.entries, k).Some? {
            FindSize(a.entries, k);
            FindWellFormed(a.entries, k);
            FindWellFormed(b.entries, k);
            AlongAgree(Find(a.entries, k).value, Find(b.entries, k).value);
          }
        }
        AgreeIntro(a.entries, b.entries);
      }
    }
  }

  lemma {:induction false} AlongItems(xs: seq<Value>, ys: seq<Value>)
    requires |xs| == |ys| && forall i :: 0 <= i < |xs| ==> AgreeAlong(xs[i], ys[i])
    requires forall i :: 0 <= i < |xs| ==> WellFormed(xs[i]) && WellFormed(ys[i])
    ensures AgreeItems(xs, ys)
    decreases SizeItems(xs), 0
  {
    if xs != [] {
      AlongAgree(xs[0], ys[0]);
      forall i | 0 <= i < |xs[1..]| ensures AgreeAlong(xs[1..][i], ys[1..][i]) {
        assert AgreeAlong(xs[i + 1], ys[i + 1]);
      }
      AlongItems(xs[1..], ys[1..]);
    }
  }

  /** Configurations agree exactly when they agree at every path. */
  lemma {:induction false} AgreePaths(a: Value, b: Value)
    requires WellFormed(a) && WellFormed(b)
    ensures Agree(a, b) <==> AgreeAlong(a, b)
  {
    if Agree(a, b) {
      forall p: Path ensures AgreeNodes(NodeAt(a, p), NodeAt(b, p)) {
        NodesAgree(a, b, p);
      }
    }
    if AgreeAlong(a, b) {
      AlongAgree(a, b);
    }
  }

  // ---- merging ----

  /** What a merge holds at a path: the second side's, or the first's where the second has nothing. */
  function Over(m: Node, n: Node): Node {
    if n.Nothing? then m else n
  }

  lemma {:induction false} ItemAt(xs: seq<Value>, ys: seq<Value>, i: nat)
    requires |xs| == |ys| && i < |xs|
    ensures |MergeItems(xs, ys)| == |xs| && MergeItems(xs, ys)[i] == Merge(xs[i], ys[i])
  {
    MergedLength(xs, ys);
    if i > 0 {
      ItemAt(xs[1..], ys[1..], i - 1);
      assert MergeItems(xs, ys)[1..] == MergeItems(xs[1..], ys[1..]);
    }
  }

  lemma {:induction false} MergeBelow(a: Value, b: Value, step: Step)
    requires !a.Empty() && !b.Empty() && FitNodes(NodeOf(a), NodeOf(b))
    ensures var m, d, e := Down(Merge(a, b), step), Down(a, step), Down(b, step);
      m == Merge(d, e) || (m.Empty() && d.Empty() && e.Empty())
  {
    match step
    case Key(k) =>
      if a.Dict? {
        FindMerged(a.entries, b.entries, k);
      }
    case Index(i) =>
      if a.List? {
        MergedLength(a.items, b.items);
        if i < |a.items| {
          ItemAt(a.items, b.items, i);
        }
      }
  }

  lemma {:induction false} FitBelow(a: Value, b: Value, step: Step)
    requires Fit(a, b)
    ensures Fit(Down(a, step), Down(b, step))
  {
    forall p: Path ensures FitNodes(NodeAt(Down(a, step), p), NodeAt(Down(b, step), p)) {
      NodeDown(a, step, p);
      NodeDown(b, step, p);
      assert FitNodes(NodeAt(a, [step] + p), NodeAt(b, [step] + p));
    }
  }

  lemma {:induction false} MergeAt(a: Value, b: Value, p: Path)
    requires Fit(a, b)
    ensures NodeAt(Merge(a, b), p) == Over(NodeAt(a, p), NodeAt(b, p))
    decreases |p|
  {
    if a.Empty() {
      NothingBelow(a, p);
    } else if b.Empty() {
      NothingBelow(b, p);
    } else {
      assert FitNodes(NodeAt(a, []), NodeAt(b, []));
      if p == [] {
        if a.List? {
          MergedLength(a.items, b.items);
        }
      } else {
        var step, rest := p[0], p[1..];
        MergeBelow(a, b, step);
        FitBelow(a, b, step);
        MergeAt(Down(a, step), Down(b, step), rest);
        if Down(Merge(a, b), step).Empty() {
          NothingBelow(Down(Merge(a, b), step), rest);
          NothingBelow(Merge(Down(a, step), Down(b, step)), rest);
        }
      }
    }
  }

  lemma {:induction false} FitConsistent(a: Value, b: Value)
    requires WellFormed(a) && Fit(a, b)
    ensures Consistent(a, b)
    decreases Size(a), 1
  {
    assert FitNodes(NodeAt(a, []), NodeAt(b, []));
    if !a.Empty() && !b.Empty() {
      if a.List? {
        forall i | 0 <= i < |a.items| ensures Fit(a.items[i], b.items[i]) {
          FitBelow(a, b, Index(i));
        }
        FitItems(a.items, b.items);
      } else if a.Dict? {
        forall k | Find(a.entries, k).Some? && Find(b.entries, k).Some?
          ensures Fit(Find(a.entries, k).value, Find(b.entries, k).value)
        {
          FitBelow(a, b, Key(k));
        }
        FitEntries(a.entries, b.entries);
      }
    }
  }

  lemma {:induction false} FitItems(xs: seq<Value>, ys: seq<Value>)
    requires |xs| == |ys| && forall i :: 0 <= i < |xs| ==> Fit(xs[i], ys[i])
    requires forall i :: 0 <= i < |xs| ==> WellFormed(xs[i])
    ensures ConsistentItems(xs, ys)
    decreases SizeItems(xs), 0
  {
    if xs != [] {
      FitConsistent(xs[0], ys[0]);
      forall i | 0 <= i < |xs[1..]| ensures Fit(xs[1..][i], ys[1..][i]) {
        assert Fit(xs[i + 1], ys[i + 1]);
      }
      FitItems(xs[1..], ys[1..]);
    }
  }

  lemma {:induction false} FitEntries(xs: seq<Entry>, ys: seq<Entry>)
    requires UniqueKeys(xs) && AllWellFormed(xs)
    requires forall k :: Find(xs, k).Some? && Find(ys, k).Some? ==> Fit(Find(xs, k).value, Find(ys, k).value)
    ensures ConsistentEntries(xs, ys)
    decreases SizeEntries(xs), 0
  {
    if xs != [] {
      var k := xs[0].key;
      assert Find(xs, k) == Some(xs[0].value);
      if Find(ys, k).Some? {
        FitConsistent(xs[0].value, Find(ys, k).value);
      }
      forall j | Find(xs[1..], j).Some? && Find(ys, j).Some? ensures Fit(Find(xs[1..], j).value, Find(ys, j).value) {
        FindIffKey(xs[1..], j);
        assert Find(xs, j) == Find(xs[1..], j);
      }
      FitEntries(xs[1..], ys);
    }
  }

  lemma {:induction false} AgreeFit(a: Value, b: Value)
    requires WellFormed(a) && WellFormed(b) && Agree(a, b)
    ensures Fit(a, b)
  {
    AgreePaths(a, b);
  }

  // ---- three configurations ----

  /** `a` and `c` agree wherever `b` holds nothing. */
  ghost predicate AgreeBeside(a: Value, c: Value, b: Value) {
    forall p: Path :: NodeAt(b, p).Nothing? ==> AgreeNodes(NodeAt(a, p), NodeAt(c, p))
  }

  /** Two different ints on either side of a float that both convert to. */
  predicate RoundNodes(x: Node, m: Node, y: Node) {
    && x.Leaf? && x.value.Int? && m.Leaf? && m.value.Float? && y.Leaf? && y.value.Int?
    && x.value.i != y.value.i && ToFloat(x.value.i) == m.value.f == ToFloat(y.value.i)
  }

  ghost predicate Rounds(a: Value, m: Value, c: Value) {
    exists p: Path :: RoundNodes(NodeAt(a, p), NodeAt(m, p), NodeAt(c, p))
  }

  lemma {:induction false} NodeTriangle(x: Node, m: Node, y: Node)
    requires AgreeNodes(x, m) && AgreeNodes(m, y) && !m.Nothing?
    ensures AgreeNodes(x, y) <==> !RoundNodes(x, m, y)
  {
  }

  lemma {:induction false} NodesSym(x: Node, y: Node)
    ensures AgreeNodes(x, y) <==> AgreeNodes(y, x)
  {
  }

  /** Agreement carries over a third configuration except where that has nothing or rounds. */
  lemma {:induction false} Triangle(a: Value, m: Value, c: Value)
    requires WellFormed(a) && WellFormed(m) && WellFormed(c) && Agree(a, m) && Agree(m, c)
    ensures Agree(a, c) <==> AgreeBeside(a, c, m) && !Rounds(a, m, c)
  {
    AgreePaths(a, m);
    AgreePaths(m, c);
    AgreePaths(a, c);
    if AgreeAlong(a, c) {
      NoRounding(a, m, c);
    }
    if AgreeBeside(a, c, m) && !Rounds(a, m, c) {
      forall p: Path ensures AgreeNodes(NodeAt(a, p), NodeAt(c, p)) {
        TriangleAt(a, m, c, p);
        assert !RoundNodes(NodeAt(a, p), NodeAt(m, p), NodeAt(c, p));
      }
    }
  }

  lemma {:induction false} NoRounding(a: Value, m: Value, c: Value)
    requires AgreeAlong(a, m) && AgreeAlong(m, c) && AgreeAlong(a, c)
    ensures AgreeBeside(a, c, m) && !Rounds(a, m, c)
  {
    forall p: Path ensures !RoundNodes(NodeAt(a, p), NodeAt(m, p), NodeAt(c, p)) {
      TriangleAt(a, m, c, p);
      assert AgreeNodes(NodeAt(a, p), NodeAt(c, p));
    }
  }

  lemma {:induction false} TriangleAt(a: Value, m: Value, c: Value, p: Path)
    requires AgreeAlong(a, m) && AgreeAlong(m, c)
    ensures var x, n, y := NodeAt(a, p), NodeAt(m, p), NodeAt(c, p);
      if n.Nothing? then !RoundNodes(x, n, y) else AgreeNodes(x, y) <==> !RoundNodes(x, n, y)
  {
    var x, n, y := NodeAt(a, p), NodeAt(m, p), NodeAt(c, p);
    assert AgreeNodes(x, n) && AgreeNodes(n, y);
    if !n.Nothing? {
      NodeTriangle(x, n, y);
    }
  }

  /** Agreement with a merge is agreement with its second side, and with its first where the second has nothing. */
  lemma {:induction false} AgreeMergeLeft(a: Value, b: Value, c: Value)
    requires WellFormed(a) && WellFormed(b) && WellFormed(c) && Fit(a, b)
    ensures Agree(Merge(a, b), c) <==> Agree(b, c) && AgreeBeside(a, c, b)
  {
    MergeWellFormed(a, b);
    AgreePaths(Merge(a, b), c);
    AgreePaths(b, c);
    forall p: Path ensures NodeAt(Merge(a, b), p) == Over(NodeAt(a, p), NodeAt(b, p)) {
      MergeAt(a, b, p);
    }
    if AgreeAlong(Merge(a, b), c) {
      forall p: Path
        ensures AgreeNodes(NodeAt(b, p), NodeAt(c, p))
        ensures NodeAt(b, p).Nothing? ==> AgreeNodes(NodeAt(a, p), NodeAt(c, p))
      {
        assert AgreeNodes(NodeAt(Merge(a, b), p), NodeAt(c, p));
      }
    }
    if AgreeAlong(b, c) && AgreeBeside(a, c, b) {
      forall p: Path ensures AgreeNodes(NodeAt(Merge(a, b), p), NodeAt(c, p)) {
        assert AgreeNodes(NodeAt(b, p), NodeAt(c, p));
      }
    }
  }

  lemma {:induction false} AgreeMergeRight(a: Value, b: Value, c: Value)
    requires WellFormed(a) && WellFormed(b) && WellFormed(c) && Fit(b, c)
    ensures Agree(a, Merge(b, c)) <==> Agree(a, c) && AgreeBeside(a, b, c)
  {
    MergeWellFormed(b, c);
    AgreeMergeLeft(b, c, a);
    AgreeBothWays(Merge(b, c), a);
    AgreeBothWays(c, a);
    BesideSym(a, b, c);
    BesideSym(b, a, c);
  }

  lemma {:induction false} BesideSym(a: Value, b: Value, c: Value)
    ensures AgreeBeside(a, b, c) ==> AgreeBeside(b, a, c)
  {
    forall p: Path | AgreeNodes(NodeAt(a, p), NodeAt(b, p)) ensures AgreeNodes(NodeAt(b, p), NodeAt(a, p)) {
      NodesSym(NodeAt(a, p), NodeAt(b, p));
    }
  }

  lemma {:induction false} AgreeBothWays(a: Value, b: Value)
    requires WellFormed(a) && WellFormed(b)
    ensures Agree(a, b) <==> Agree(b, a)
  {
    if Agree(a, b) {
      AgreeSym(a, b);
    }
    if Agree(b, a) {
      AgreeSym(b, a);
    }
  }

  /** No int so large that another one has the same float. */
  ghost predicate SmallInts(a: Value) {
    forall p: Path :: SmallNode(NodeAt(a, p))
  }

  predicate SmallNode(n: Node) {
    n.Leaf? && n.value.Int? ==> -LIMIT < n.value.i < LIMIT
  }

  lemma {:induction false} SmallNeverRounds(a: Value, m: Value, c: Value)
    requires SmallInts(a)
    ensures !Rounds(a, m, c)
  {
    forall p: Path ensures !RoundNodes(NodeAt(a, p), NodeAt(m, p), NodeAt(c, p)) {
      SmallNodeExact(NodeAt(a, p), NodeAt(m, p), NodeAt(c, p));
    }
  }

  lemma {:induction false} SmallNodeExact(x: Node, m: Node, y: Node)
    requires SmallNode(x)
    ensures !RoundNodes(x, m, y)
  {
    if x.Leaf? && x.value.Int? && y.Leaf? && y.value.Int? && ToFloat(x.value.i) == ToFloat(y.value.i) {
      SmallIsExact(x.value.i, y.value.i);
    }
  }
}
