/** The tree of buildTree has the least weighted path length of all binary trees over the same
    weights. The comparison trees are arbitrary shapes; the proof is the exchange argument:
    any shape can have its two lightest tips moved to a deepest pair of siblings and merged
    there without getting longer, which is what one greedy merge does to the queue. */
module HuffmanOptimality {
  import opened Bytes
  import opened HuffmanTree
  import opened HuffmanDepth

  /** An arbitrary binary tree over weights. */
  datatype Shape = Tip(weight: nat) | Fork(left: Shape, right: Shape)

  ghost function One(x: nat, w: nat): nat {
    if x == w then 1 else 0
  }

  /** The number of tips of weight w. */
  ghost function Count(s: Shape, w: nat): nat {
    match s
    case Tip(x) => One(x, w)
    case Fork(l, r) => Count(l, w) + Count(r, w)
  }

  ghost predicate SameWeights(s: Shape, t: Shape) {
    forall w :: Count(s, w) == Count(t, w)
  }

  /** The sum of weight times depth over all tips, for a tree hanging at the given depth. */
  ghost function PathLength(s: Shape, depth: nat): nat {
    match s
    case Tip(w) => w * depth
    case Fork(l, r) => PathLength(l, depth + 1) + PathLength(r, depth + 1)
  }

  ghost function ShapeOf(t: Node): Shape {
    match t
    case Leaf(w, _) => Tip(w)
    case Branch(_, l, r) => Fork(ShapeOf(l), ShapeOf(r))
  }

  ghost function Levels(s: Shape): nat {
    match s
    case Tip(_) => 0
    case Fork(l, r) => 1 + if Levels(l) >= Levels(r) then Levels(l) else Levels(r)
  }

  // ---------------------------------------------------------------- positions in a shape

  ghost predicate Within(s: Shape, p: seq<bool>) {
    p != [] ==> s.Fork? && Within(if p[0] then s.left else s.right, p[1..])
  }

  ghost function At(s: Shape, p: seq<bool>): Shape
    requires Within(s, p)
  {
    if p == [] then s else At(if p[0] then s.left else s.right, p[1..])
  }

  ghost predicate TipAt(s: Shape, p: seq<bool>) {
    Within(s, p) && At(s, p).Tip?
  }

  ghost function Replace(s: Shape, p: seq<bool>, n: Shape): Shape
    requires Within(s, p)
  {
    if p == [] then n
    else if p[0] then Fork(Replace(s.left, p[1..], n), s.right)
    else Fork(s.left, Replace(s.right, p[1..], n))
  }

  lemma {:induction false} ReplaceLength(s: Shape, p: seq<bool>, n: Shape, depth: nat)
    requires Within(s, p)
    ensures PathLength(Replace(s, p, n), depth) + PathLength(At(s, p), depth + |p|)
         == PathLength(s, depth) + PathLength(n, depth + |p|)
  {
    if p != [] {
      ReplaceLength(if p[0] then s.left else s.right, p[1..], n, depth + 1);
    }
  }

  lemma {:induction false} ReplaceCount(s: Shape, p: seq<bool>, n: Shape, w: nat)
    requires Within(s, p)
    ensures Count(Replace(s, p, n), w) + Count(At(s, p), w) == Count(s, w) + Count(n, w)
  {
    if p != [] {
      ReplaceCount(if p[0] then s.left else s.right, p[1..], n, w);
    }
  }

  /** Replacing a tip by a tip changes nothing at other tip positions. */
  lemma {:induction false} ReplaceElsewhere(s: Shape, p: seq<bool>, w: nat, q: seq<bool>)
    requires TipAt(s, p) && q != p
    ensures TipAt(Replace(s, p, Tip(w)), p) && At(Replace(s, p, Tip(w)), p) == Tip(w)
    ensures TipAt(Replace(s, p, Tip(w)), q) <==> TipAt(s, q)
    ensures TipAt(s, q) ==> At(Replace(s, p, Tip(w)), q) == At(s, q)
    ensures Levels(Replace(s, p, Tip(w))) == Levels(s)
  {
    if p != [] {
      var sub := if p[0] then s.left else s.right;
      if q != [] && q[0] == p[0] {
        assert q == [q[0]] + q[1..] && p == [p[0]] + p[1..];
        ReplaceElsewhere(sub, p[1..], w, q[1..]);
      } else {
        ReplaceElsewhere(sub, p[1..], w, p[1..] + [true]);
      }
    }
  }

  lemma {:induction false} FindTip(s: Shape, w: nat) returns (p: seq<bool>)
    requires Count(s, w) > 0
    ensures TipAt(s, p) && At(s, p) == Tip(w)
  {
    if s.Tip? {
      p := [];
    } else if Count(s.left, w) > 0 {
      var q := FindTip(s.left, w);
      p := [true] + q;
      assert p[1..] == q;
    } else {
      var q := FindTip(s.right, w);
      p := [false] + q;
      assert p[1..] == q;
    }
  }

  lemma {:induction false} WeightAt(s: Shape, p: seq<bool>)
    requires TipAt(s, p)
    ensures Count(s, At(s, p).weight) > 0 && |p| <= Levels(s)
  {
    if p != [] {
      WeightAt(if p[0] then s.left else s.right, p[1..]);
    }
  }

  /** Some two tips at the deepest level are siblings. */
  lemma {:induction false} DeepestPair(s: Shape) returns (p: seq<bool>)
    requires s.Fork?
    ensures Within(s, p) && |p| + 1 == Levels(s)
    ensures At(s, p).Fork? && At(s, p).left.Tip? && At(s, p).right.Tip?
  {
    var goLeft := Levels(s.left) >= Levels(s.right);
    var sub := if goLeft then s.left else s.right;
    if sub.Tip? {
      p := [];
    } else {
      var q := DeepestPair(sub);
      p := [goLeft] + q;
      assert p[1..] == q;
    }
  }

  lemma {:induction false} ChildPositions(s: Shape, p: seq<bool>, goLeft: bool)
    ensures Within(s, p + [goLeft]) <==> Within(s, p) && At(s, p).Fork?
    ensures Within(s, p + [goLeft]) ==>
      At(s, p + [goLeft]) == if goLeft then At(s, p).left else At(s, p).right
  {
    if p == [] {
      assert ([goLeft])[1..] == [];
    } else {
      assert (p + [goLeft])[1..] == p[1..] + [goLeft];
      if s.Fork? {
        ChildPositions(if p[0] then s.left else s.right, p[1..], goLeft);
      }
    }
  }

  // ---------------------------------------------------------------- the exchange

  /** Moves the tip at q to the deepest position p, and the tip there to q. */
  ghost function Swap(s: Shape, p: seq<bool>, q: seq<bool>): Shape
    requires TipAt(s, p) && TipAt(s, q)
  {
    if p == q then s
    else
      ReplaceElsewhere(s, p, At(s, q).weight, q);
      Replace(Replace(s, p, At(s, q)), q, At(s, p))
  }

  lemma SwapDeeper(s: Shape, p: seq<bool>, q: seq<bool>)
    requires TipAt(s, p) && TipAt(s, q) && |p| == Levels(s)
    requires At(s, q).weight <= At(s, p).weight
    ensures Levels(Swap(s, p, q)) == Levels(s)
    ensures PathLength(Swap(s, p, q), 0) <= PathLength(s, 0)
  {
    if p != q {
      var a, x := At(s, q), At(s, p);
      ReplaceElsewhere(s, p, a.weight, q);
      var mid := Replace(s, p, a);
      ReplaceElsewhere(mid, q, x.weight, p);
      SwapLength(s, p, q);
      WeightAt(s, q);
      LighterDeeper(a.weight, x.weight, |q|, |p|);
    }
  }

  /** What exchanging any two tips does to the weighted path length. */
  lemma SwapLength(s: Shape, p: seq<bool>, q: seq<bool>)
    requires TipAt(s, p) && TipAt(s, q)
    ensures var x, a := At(s, p).weight, At(s, q).weight;
      PathLength(Swap(s, p, q), 0) + x * |p| + a * |q| == PathLength(s, 0) + a * |p| + x * |q|
  {
    if p != q {
      var a, x := At(s, q), At(s, p);
      ReplaceElsewhere(s, p, a.weight, q);
      ReplaceLength(s, p, a, 0);
      ReplaceLength(Replace(s, p, a), q, x, 0);
    }
  }

  lemma LighterDeeper(a: nat, x: nat, high: nat, deep: nat)
    requires a <= x && high <= deep
    ensures a * deep + x * high <= x * deep + a * high
  {
    assert (x - a) * (deep - high) >= 0;
  }

  lemma SwapWeights(s: Shape, p: seq<bool>, q: seq<bool>)
    requires TipAt(s, p) && TipAt(s, q)
    ensures SameWeights(Swap(s, p, q), s)
  {
    if p != q {
      var a, x := At(s, q), At(s, p);
      ReplaceElsewhere(s, p, a.weight, q);
      forall w
        ensures Count(Swap(s, p, q), w) == Count(s, w)
      {
        ReplaceCount(s, p, a, w);
        ReplaceCount(Replace(s, p, a), q, x, w);
      }
    }
  }

  lemma SwapPlaces(s: Shape, p: seq<bool>, q: seq<bool>, r: seq<bool>)
    requires TipAt(s, p) && TipAt(s, q)
    ensures TipAt(Swap(s, p, q), p) && At(Swap(s, p, q), p) == At(s, q)
    ensures r != p && r != q && TipAt(s, r) ==> TipAt(Swap(s, p, q), r) && At(Swap(s, p, q), r) == At(s, r)
    ensures TipAt(s, r) ==> TipAt(Swap(s, p, q), r)
  {
    if p != q {
      var a, x := At(s, q), At(s, p);
      ReplaceElsewhere(s, p, a.weight, q);
      var mid := Replace(s, p, a);
      ReplaceElsewhere(mid, q, x.weight, p);
      if r != p && r != q {
        ReplaceElsewhere(s, p, a.weight, r);
        ReplaceElsewhere(mid, q, x.weight, r);
      }
    }
  }

  ghost predicate TwoLightest(s: Shape, a: nat, b: nat) {
    && Count(s, a) >= 1 && Count(s, b) >= 1 + One(a, b)
    && (forall w :: Count(s, w) > 0 ==> a <= w)
    && (forall w :: Count(s, w) > One(a, w) ==> b <= w)
  }

  /** The two lightest tips can be brought together at the bottom without any cost. */
  lemma BringTogether(s: Shape, a: nat, b: nat) returns (t: Shape, p: seq<bool>)
    requires TwoLightest(s, a, b)
    ensures SameWeights(t, s) && PathLength(t, 0) <= PathLength(s, 0)
    ensures Within(t, p) && At(t, p) == Fork(Tip(a), Tip(b))
  {
    assert s.Fork?;
    p := DeepestPair(s);
    var L, R := p + [true], p + [false];
    ChildPositions(s, p, true);
    ChildPositions(s, p, false);
    assert L != R by { assert L[|p|] != R[|p|]; }
    var q := FindTip(s, a);
    WeightAt(s, L);
    SwapDeeper(s, L, q);
    SwapWeights(s, L, q);
    SwapPlaces(s, L, q, R);
    t := PlaceSecond(Swap(s, L, q), L, R, a, b);
    ChildPositions(t, p, true);
    ChildPositions(t, p, false);
  }

  lemma PlaceSecond(s: Shape, L: seq<bool>, R: seq<bool>, a: nat, b: nat) returns (t: Shape)
    requires TwoLightest(s, a, b) && L != R
    requires TipAt(s, L) && At(s, L) == Tip(a) && TipAt(s, R) && |R| == Levels(s)
    ensures SameWeights(t, s) && PathLength(t, 0) <= PathLength(s, 0)
    ensures TipAt(t, L) && At(t, L) == Tip(a) && TipAt(t, R) && At(t, R) == Tip(b)
  {
    // Mark position L, so that a tip b is found elsewhere even if a == b.
    var marked := Replace(s, L, Tip(b + 1));
    ReplaceElsewhere(s, L, b + 1, R);
    WeightAt(marked, R);
    ReplaceCount(s, L, Tip(b + 1), At(s, R).weight);
    ReplaceCount(s, L, Tip(b + 1), b);
    var q := FindTip(marked, b);
    ReplaceElsewhere(s, L, b + 1, q);
    SwapDeeper(s, R, q);
    SwapWeights(s, R, q);
    SwapPlaces(s, R, q, L);
    t := Swap(s, R, q);
  }

  lemma MergedLength(t: Shape, p: seq<bool>, a: nat, b: nat)
    requires Within(t, p) && At(t, p) == Fork(Tip(a), Tip(b))
    ensures PathLength(Replace(t, p, Tip(a + b)), 0) + a + b == PathLength(t, 0)
  {
    ReplaceLength(t, p, Tip(a + b), 0);
    PairLength(a, b, |p|);
  }

  lemma MergedCount(t: Shape, p: seq<bool>, a: nat, b: nat, w: nat)
    requires Within(t, p) && At(t, p) == Fork(Tip(a), Tip(b))
    ensures Count(Replace(t, p, Tip(a + b)), w) + One(a, w) + One(b, w) == Count(t, w) + One(a + b, w)
  {
    ReplaceCount(t, p, Tip(a + b), w);
    assert Count(At(t, p), w) == Count(Tip(a), w) + Count(Tip(b), w);
  }

  /** One greedy merge, seen from any competing shape. */
  lemma MergeShape(s: Shape, a: nat, b: nat) returns (merged: Shape)
    requires TwoLightest(s, a, b)
    ensures forall w :: Count(merged, w) + One(a, w) + One(b, w) == Count(s, w) + One(a + b, w)
    ensures PathLength(merged, 0) + a + b <= PathLength(s, 0)
  {
    var t, p := BringTogether(s, a, b);
    merged := Replace(t, p, Tip(a + b));
    forall w
      ensures Count(merged, w) + One(a, w) + One(b, w) == Count(s, w) + One(a + b, w)
    {
      MergedCount(t, p, a, b, w);
    }
    MergedLength(t, p, a, b);
  }

  lemma PairLength(a: nat, b: nat, depth: nat)
    ensures PathLength(Fork(Tip(a), Tip(b)), depth) == PathLength(Tip(a + b), depth) + a + b
  {
    assert PathLength(Fork(Tip(a), Tip(b)), depth) == PathLength(Tip(a), depth + 1) + PathLength(Tip(b), depth + 1);
    Deeper(a, b, depth);
  }

  lemma Deeper(x: nat, y: nat, depth: nat)
    ensures x * (depth + 1) + y * (depth + 1) == (x + y) * depth + x + y
  {
  }

  // ---------------------------------------------------------------- the queue

  ghost function Weighs(w: nat): Node -> nat {
    (t: Node) => One(t.value, w)
  }

  ghost predicate SameValues(s: Shape, q: seq<Node>) {
    forall w :: Count(s, w) == SumOf(q, Weighs(w))
  }

  lemma {:induction false} SomeValue(q: seq<Node>, w: nat) returns (k: nat)
    requires SumOf(q, Weighs(w)) > 0
    ensures k < |q| && q[k].value == w
  {
    var n := |q| - 1;
    if q[n].value == w {
      k := n;
    } else {
      k := SomeValue(q[..n], w);
    }
  }

  /** The merged pair is the two lightest of any shape over the queued values. */
  lemma PairIsLightest(q: seq<Node>, pick: seq<Node> -> nat, s: Shape)
    requires PicksMinimum(pick) && |q| >= 2 && SameValues(s, q)
    ensures var rest := Without(q, pick(q)); TwoLightest(s, q[pick(q)].value, rest[pick(rest)].value)
  {
    assert IsLightest(q, pick(q));
    var rest := Without(q, pick(q));
    assert IsLightest(rest, pick(rest));
    var a, b := q[pick(q)].value, rest[pick(rest)].value;
    forall w
      ensures Count(s, w) == SumOf(rest, Weighs(w)) + One(a, w)
      ensures Count(s, w) > 0 ==> a <= w
      ensures Count(s, w) > One(a, w) ==> b <= w
    {
      SumWithout(q, Weighs(w), pick(q));
      if Count(s, w) > 0 {
        var k := SomeValue(q, w);
      }
      if Count(s, w) > One(a, w) {
        var k := SomeValue(rest, w);
      }
    }
    SumMember(q, Weighs(a), pick(q));
    SumMember(rest, Weighs(b), pick(rest));
  }

  /** The sum of the values of all inner nodes. */
  ghost function Internal(t: Node): nat {
    match t
    case Leaf(_, _) => 0
    case Branch(v, l, r) => v + Internal(l) + Internal(r)
  }

  lemma {:induction false} InternalIsPathLength(t: Node, depth: nat)
    requires Greedy(t)
    ensures PathLength(ShapeOf(t), depth) == Internal(t) + t.value * depth
  {
    match t
    case Leaf(_, _) =>
    case Branch(_, l, r) =>
      InternalIsPathLength(l, depth + 1);
      InternalIsPathLength(r, depth + 1);
      Deeper(l.value, r.value, depth);
  }

  /** From any queue on: no shape over the queued values beats what merging still adds. */
  lemma {:induction false} GreedyIsOptimal(q: seq<Node>, pick: seq<Node> -> nat, s: Shape)
    requires PicksMinimum(pick) && q != [] && GreedyQueue(q) && SameValues(s, q)
    ensures Internal(MergeAll(q, pick)) <= SumOf(q, Internal) + PathLength(s, 0)
    decreases |q|
  {
    if |q| == 1 {
      assert q[..0] == [];
    } else {
      var merged := MergeStep(q, pick, s);
      MergeKeepsGreedy(q, pick);
      GreedyIsOptimal(MergeLightest(q, pick), pick, merged);
    }
  }

  lemma MergeStep(q: seq<Node>, pick: seq<Node> -> nat, s: Shape) returns (merged: Shape)
    requires PicksMinimum(pick) && |q| >= 2 && GreedyQueue(q) && SameValues(s, q)
    ensures SameValues(merged, MergeLightest(q, pick))
    ensures SumOf(MergeLightest(q, pick), Internal) + PathLength(merged, 0)
         <= SumOf(q, Internal) + PathLength(s, 0)
  {
    PairIsLightest(q, pick, s);
    var rest := Without(q, pick(q));
    var a, b := q[pick(q)], rest[pick(rest)];
    SumWithout(q, ValueOf, pick(q));
    SumMember(rest, ValueOf, pick(rest));
    assert Join(a, b).value == a.value + b.value;
    merged := MergeShape(s, a.value, b.value);
    SumMerge(q, pick, Internal);
    MergedValues(q, pick, s, merged);
  }

  lemma MergedValues(q: seq<Node>, pick: seq<Node> -> nat, s: Shape, merged: Shape)
    requires PicksMinimum(pick) && |q| >= 2 && SameValues(s, q)
    requires var rest := Without(q, pick(q)); var a, b := q[pick(q)], rest[pick(rest)];
      Join(a, b).value == a.value + b.value
      && forall w :: Count(merged, w) + One(a.value, w) + One(b.value, w) == Count(s, w) + One(a.value + b.value, w)
    ensures SameValues(merged, MergeLightest(q, pick))
  {
    forall w
      ensures Count(merged, w) == SumOf(MergeLightest(q, pick), Weighs(w))
    {
      SumMerge(q, pick, Weighs(w));
    }
  }

  // ---------------------------------------------------------------- the theorem

  ghost function CountIn(w: nat): Node -> nat {
    t => Count(ShapeOf(t), w)
  }

  lemma {:induction false} LeafValues(q: seq<Node>, w: nat)
    requires forall i :: 0 <= i < |q| ==> q[i].Leaf?
    ensures SumOf(q, CountIn(w)) == SumOf(q, Weighs(w)) && SumOf(q, Internal) == 0
  {
    if q != [] {
      LeafValues(q[..|q| - 1], w);
    }
  }

  /** For every header and every priority queue, the tree's weighted path length is the sum of
      its inner values, and no binary tree with the same weighted leaves has a smaller one. */
  lemma TreeIsOptimal(header: Header, pick: seq<Node> -> nat, s: Shape)
    requires PicksMinimum(pick) && HasWeight(header)
    requires SameWeights(s, ShapeOf(Tree(header, pick)))
    ensures PathLength(ShapeOf(Tree(header, pick)), 0) == Internal(Tree(header, pick))
    ensures PathLength(ShapeOf(Tree(header, pick)), 0) <= PathLength(s, 0)
  {
    var q := LeavesUpTo(header, 256);
    QueueNonEmpty(header);
    TreeGreedy(header, pick);
    InternalIsPathLength(Tree(header, pick), 0);
    forall w
      ensures Count(s, w) == SumOf(q, Weighs(w))
    {
      LeafValues(q, w);
      MergeConserves(q, pick, CountIn(w));
    }
    LeafValues(q, 0);
    GreedyIsOptimal(q, pick, s);
  }
}
