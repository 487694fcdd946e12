/** The code words that HuffmanBase::generateMapping reads off a tree: left is 1, right is 0. */
module HuffmanCodes {
  import opened Bytes
  import opened HuffmanTree
  import opened HuffmanDepth
  import HuffmanOptimality

  type Mapping = m: seq<seq<bool>> | |m| == 256 witness seq(256, i => [])

  function NoCodes(): (m: Mapping)
    ensures forall i :: 0 <= i < 256 ==> m[i] == []
  {
    seq(256, i => [])
  }

  predicate Has(t: Node, c: byte) {
    match t
    case Leaf(_, d) => d == c
    case Branch(_, l, r) => Has(l, c) || Has(r, c)
  }

  /** The path from the root to the leaf of c. */
  function CodeOf(t: Node, c: byte): seq<bool>
    requires Has(t, c)
  {
    match t
    case Leaf(_, _) => []
    case Branch(_, l, r) => if Has(l, c) then [true] + CodeOf(l, c) else [false] + CodeOf(r, c)
  }

  ghost function SymbolCount(t: Node, c: byte): (n: nat)
    ensures n > 0 <==> Has(t, c)
  {
    match t
    case Leaf(_, d) => if d == c then 1 else 0
    case Branch(_, l, r) => SymbolCount(l, c) + SymbolCount(r, c)
  }

  /** Every symbol has at most one leaf. */
  ghost predicate OneLeafEach(t: Node) {
    forall c: byte :: SymbolCount(t, c) <= 1
  }

  lemma ChildrenApart(t: Node)
    requires OneLeafEach(t) && t.Branch?
    ensures OneLeafEach(t.left) && OneLeafEach(t.right)
    ensures forall c: byte :: !(Has(t.left, c) && Has(t.right, c))
  {
    forall c: byte
      ensures SymbolCount(t.left, c) <= 1 && SymbolCount(t.right, c) <= 1
      ensures !(Has(t.left, c) && Has(t.right, c))
    {
      assert SymbolCount(t, c) <= 1;
    }
  }

  // ---------------------------------------------------------------- generateMapping

  ghost function Mapped(t: Node, bits: seq<bool>, m: Mapping): Mapping {
    match t
    case Leaf(_, c) => m[c := bits]
    case Branch(_, l, r) => Mapped(r, bits + [false], Mapped(l, bits + [true], m))
  }

  method GenerateMapping(node: Node, bitSeq: seq<bool>, mapping: array<seq<bool>>)
    requires mapping.Length == 256
    modifies mapping
    ensures mapping[..] == Mapped(node, bitSeq, old(mapping[..]))
  {
    match node
    case Leaf(_, c) =>
      mapping[c] := bitSeq;
    case Branch(_, l, r) =>
      GenerateMapping(l, bitSeq + [true], mapping);
      GenerateMapping(r, bitSeq + [false], mapping);
  }

  /** The in-place recursion enters each symbol's path and touches no other entry. */
  lemma {:induction false} MappedAt(t: Node, bits: seq<bool>, m: Mapping, c: byte)
    requires OneLeafEach(t)
    ensures Mapped(t, bits, m)[c] == if Has(t, c) then bits + CodeOf(t, c) else m[c]
  {
    match t
    case Leaf(_, _) =>
    case Branch(_, l, r) =>
      ChildrenApart(t);
      var m1 := Mapped(l, bits + [true], m);
      MappedAt(l, bits + [true], m, c);
      MappedAt(r, bits + [false], m1, c);
      if Has(l, c) {
        assert bits + [true] + CodeOf(l, c) == bits + ([true] + CodeOf(l, c));
      } else if Has(r, c) {
        assert bits + [false] + CodeOf(r, c) == bits + ([false] + CodeOf(r, c));
      }
  }

  ghost function Codes(t: Node): Mapping {
    Mapped(t, [], NoCodes())
  }

  lemma CodesAt(t: Node, c: byte)
    requires OneLeafEach(t)
    ensures Codes(t)[c] == if Has(t, c) then CodeOf(t, c) else []
  {
    MappedAt(t, [], NoCodes(), c);
  }

  // ---------------------------------------------------------------- which symbols

  ghost function CountSymbol(c: byte): Node -> nat {
    t => SymbolCount(t, c)
  }

  lemma {:induction false} QueueSymbols(header: Header, n: nat, c: byte)
    requires n <= 256
    ensures SumOf(LeavesUpTo(header, n), CountSymbol(c)) == if c < n && header[c] != 0 then 1 else 0
  {
    if n > 0 {
      QueueSymbols(header, n - 1, c);
      if header[n - 1] != 0 {
        SumAppend(LeavesUpTo(header, n - 1), CountSymbol(c), Leaf(header[n - 1], n - 1));
      }
    }
  }

  /** The tree knows exactly the symbols of non-zero weight, each by one leaf, and no code is
      longer than 22 bits. */
  lemma TreeSymbols(header: Header, pick: seq<Node> -> nat)
    requires PicksMinimum(pick) && HasWeight(header)
    ensures OneLeafEach(Tree(header, pick))
    ensures forall c: byte :: Has(Tree(header, pick), c) <==> header[c] != 0
    ensures forall c: byte :: Has(Tree(header, pick), c) ==> |CodeOf(Tree(header, pick), c)| <= MAX_CODE_BITS
  {
    var t := Tree(header, pick);
    TreeHeight(header, pick);
    forall c: byte
      ensures SymbolCount(t, c) == if header[c] != 0 then 1 else 0
      ensures Has(t, c) ==> |CodeOf(t, c)| <= MAX_CODE_BITS
    {
      QueueNonEmpty(header);
      QueueSymbols(header, 256, c);
      MergeConserves(LeavesUpTo(header, 256), pick, CountSymbol(c));
      if Has(t, c) {
        CodeWithinHeight(t, c);
      }
    }
  }

  lemma {:induction false} CodeWithinHeight(t: Node, c: byte)
    requires Has(t, c)
    ensures |CodeOf(t, c)| <= Height(t)
  {
    match t
    case Leaf(_, _) =>
    case Branch(_, l, r) => CodeWithinHeight(if Has(l, c) then l else r, c);
  }

  // ---------------------------------------------------------------- prefix-free and complete

  lemma PrefixUnder(x: seq<bool>, a: seq<bool>, b: seq<bool>)
    requires x + a <= x + b
    ensures a <= b
  {
    assert a == (x + a)[|x|..] && b == (x + b)[|x|..];
  }

  lemma {:induction false} PrefixFree(t: Node, c: byte, d: byte)
    requires OneLeafEach(t) && Has(t, c) && Has(t, d) && c != d
    ensures !(CodeOf(t, c) <= CodeOf(t, d))
  {
    if t.Branch? {
      ChildrenApart(t);
      if Has(t.left, c) == Has(t.left, d) {
        var sub := if Has(t.left, c) then t.left else t.right;
        PrefixFree(sub, c, d);
        var x := [Has(t.left, c)];
        assert CodeOf(t, c) == x + CodeOf(sub, c) && CodeOf(t, d) == x + CodeOf(sub, d);
        if CodeOf(t, c) <= CodeOf(t, d) {
          PrefixUnder(x, CodeOf(sub, c), CodeOf(sub, d));
        }
      } else {
        assert CodeOf(t, c)[0] != CodeOf(t, d)[0];
      }
    }
  }

  /** A measure of (symbol, code length), added up over the first n symbols that have a code. */
  ghost function SymbolSum(t: Node, depth: nat, g: (byte, nat) -> nat, n: nat): nat
    requires n <= 256
  {
    if n == 0 then 0
    else SymbolSum(t, depth, g, n - 1) + SymbolTerm(t, depth, g, n - 1)
  }

  ghost function SymbolTerm(t: Node, depth: nat, g: (byte, nat) -> nat, c: byte): nat {
    if Has(t, c) then g(c, depth + |CodeOf(t, c)|) else 0
  }

  /** The same measure added up over the tree. */
  ghost function TreeSum(t: Node, depth: nat, g: (byte, nat) -> nat): nat {
    match t
    case Leaf(_, c) => g(c, depth)
    case Branch(_, l, r) => TreeSum(l, depth + 1, g) + TreeSum(r, depth + 1, g)
  }

  lemma {:induction false} SymbolSumLeaf(t: Node, depth: nat, g: (byte, nat) -> nat, n: nat)
    requires t.Leaf? && n <= 256
    ensures SymbolSum(t, depth, g, n) == if t.c < n then g(t.c, depth) else 0
  {
    if n > 0 {
      SymbolSumLeaf(t, depth, g, n - 1);
    }
  }

  lemma {:induction false} SymbolSumBranch(t: Node, depth: nat, g: (byte, nat) -> nat, n: nat)
    requires t.Branch? && n <= 256 && OneLeafEach(t)
    ensures SymbolSum(t, depth, g, n)
         == SymbolSum(t.left, depth + 1, g, n) + SymbolSum(t.right, depth + 1, g, n)
  {
    if n > 0 {
      SymbolSumBranch(t, depth, g, n - 1);
      ChildrenApart(t);
      assert SymbolTerm(t, depth, g, n - 1)
          == SymbolTerm(t.left, depth + 1, g, n - 1) + SymbolTerm(t.right, depth + 1, g, n - 1);
    }
  }

  lemma {:induction false} SymbolSumIsTreeSum(t: Node, depth: nat, g: (byte, nat) -> nat)
    requires OneLeafEach(t)
    ensures SymbolSum(t, depth, g, 256) == TreeSum(t, depth, g)
  {
    match t
    case Leaf(_, _) => SymbolSumLeaf(t, depth, g, 256);
    case Branch(_, l, r) =>
      ChildrenApart(t);
      SymbolSumBranch(t, depth, g, 256);
      SymbolSumIsTreeSum(l, depth + 1, g);
      SymbolSumIsTreeSum(r, depth + 1, g);
  }

  /** The share of a code in the Kraft sum, scaled to integers. */
  ghost function KraftShare(c: byte, len: nat): nat {
    if len <= MAX_CODE_BITS then Pow2(MAX_CODE_BITS - len) else 0
  }

  lemma {:induction false} TreeKraft(t: Node, depth: nat)
    requires depth + Height(t) <= MAX_CODE_BITS
    ensures TreeSum(t, depth, KraftShare) == Pow2(MAX_CODE_BITS - depth)
  {
    if t.Branch? {
      TreeKraft(t.left, depth + 1);
      TreeKraft(t.right, depth + 1);
    }
  }

  /** The code is complete: the Kraft sum over all symbols with a code is exactly one. */
  lemma KraftEquality(header: Header, pick: seq<Node> -> nat)
    requires PicksMinimum(pick) && HasWeight(header)
    ensures SymbolSum(Tree(header, pick), 0, KraftShare, 256) == Pow2(MAX_CODE_BITS)
  {
    var t := Tree(header, pick);
    TreeSymbols(header, pick);
    TreeHeight(header, pick);
    TreeKraft(t, 0);
    SymbolSumIsTreeSum(t, 0, KraftShare);
  }

  /** The weight of a symbol times the length of its code. */
  ghost function WeightedBits(header: Header): (byte, nat) -> nat {
    (c: byte, len: nat) => header[c] * len
  }

  ghost predicate LeavesMatch(t: Node, header: Header) {
    match t
    case Leaf(w, c) => w == header[c]
    case Branch(_, l, r) => LeavesMatch(l, header) && LeavesMatch(r, header)
  }

  lemma {:induction false} CountedLeavesMatch(t: Node, header: Header)
    requires forall w, c: byte :: LeafCount(t, w, c) > 0 ==> w == header[c]
    ensures LeavesMatch(t, header)
  {
    match t
    case Leaf(w, c) => assert LeafCount(t, w, c) > 0;
    case Branch(_, l, r) =>
      assert forall w, c: byte :: LeafCount(t, w, c) == LeafCount(l, w, c) + LeafCount(r, w, c);
      CountedLeavesMatch(l, header);
      CountedLeavesMatch(r, header);
  }

  /** Every leaf of the tree carries its symbol's weight in the header. */
  lemma TreeMatches(header: Header, pick: seq<Node> -> nat)
    requires PicksMinimum(pick) && HasWeight(header)
    ensures LeavesMatch(Tree(header, pick), header)
  {
    forall w, c: byte
      ensures LeafCount(Tree(header, pick), w, c) > 0 ==> w == header[c]
    {
      TreeLeaves(header, pick, w, c);
    }
    CountedLeavesMatch(Tree(header, pick), header);
  }

  lemma {:induction false} TreeWeightedBits(t: Node, header: Header, depth: nat)
    requires LeavesMatch(t, header)
    ensures TreeSum(t, depth, WeightedBits(header))
         == HuffmanOptimality.PathLength(HuffmanOptimality.ShapeOf(t), depth)
  {
    if t.Branch? {
      TreeWeightedBits(t.left, header, depth + 1);
      TreeWeightedBits(t.right, header, depth + 1);
    }
  }

  /** Optimality in terms of the emitted codes: the total of weight times code length over all
      symbols is at most the weighted path length of any binary tree over the same weights. */
  lemma CodesAreOptimal(header: Header, pick: seq<Node> -> nat, s: HuffmanOptimality.Shape)
    requires PicksMinimum(pick) && HasWeight(header)
    requires HuffmanOptimality.SameWeights(s, HuffmanOptimality.ShapeOf(Tree(header, pick)))
    ensures SymbolSum(Tree(header, pick), 0, WeightedBits(header), 256)
         <= HuffmanOptimality.PathLength(s, 0)
  {
    var t := Tree(header, pick);
    TreeSymbols(header, pick);
    SymbolSumIsTreeSum(t, 0, WeightedBits(header));
    TreeMatches(header, pick);
    TreeWeightedBits(t, header, 0);
    HuffmanOptimality.TreeIsOptimal(header, pick, s);
  }

  // ---------------------------------------------------------------- which bit is which

  lemma {:induction false} SomeSymbol(t: Node) returns (c: byte)
    ensures Has(t, c)
  {
    match t
    case Leaf(_, d) => c := d;
    case Branch(_, l, _) => c := SomeSymbol(l);
  }

  /** A tree with one symbol is a leaf. */
  lemma OneSymbol(t: Node, c: byte)
    requires OneLeafEach(t) && forall d: byte :: Has(t, d) ==> d == c
    ensures t.Leaf? && t.c == c
  {
    if t.Branch? {
      ChildrenApart(t);
      var l := SomeSymbol(t.left);
      var r := SomeSymbol(t.right);
      assert Has(t, l) && Has(t, r);
    } else {
      assert Has(t, t.c);
    }
  }

  /** Of two symbols, the lighter one has the code 1 and the heavier one the code 0. */
  lemma TwoSymbolCodes(header: Header, pick: seq<Node> -> nat, x: byte, y: byte)
    requires PicksMinimum(pick) && 0 < header[x] < header[y]
    requires forall c: byte :: header[c] != 0 ==> c == x || c == y
    ensures HasWeight(header) && Has(Tree(header, pick), x) && Has(Tree(header, pick), y)
    ensures CodeOf(Tree(header, pick), x) == [true] && CodeOf(Tree(header, pick), y) == [false]
  {
    assert HasWeight(header);
    var t := Tree(header, pick);
    TreeSymbols(header, pick);
    TreeOrdered(header, pick);
    TreeMatches(header, pick);
    assert Has(t, x) && Has(t, y);
    ChildrenApart(t);
    var l := SomeSymbol(t.left);
    var r := SomeSymbol(t.right);
    assert Has(t, l) && Has(t, r) && l != r;
    forall d: byte
      ensures Has(t.left, d) ==> d == l
      ensures Has(t.right, d) ==> d == r
    {
      assert Has(t, d) ==> d == x || d == y;
    }
    OneSymbol(t.left, l);
    OneSymbol(t.right, r);
  }

  // ---------------------------------------------------------------- weights and lengths

  /** A symbol's code is its position in the shape of the tree. */
  lemma {:induction false} CodeIsPosition(t: Node, header: Header, c: byte)
    requires Has(t, c) && LeavesMatch(t, header)
    ensures HuffmanOptimality.TipAt(HuffmanOptimality.ShapeOf(t), CodeOf(t, c))
    ensures HuffmanOptimality.At(HuffmanOptimality.ShapeOf(t), CodeOf(t, c)).weight == header[c]
  {
    if t.Branch? {
      var sub := if Has(t.left, c) then t.left else t.right;
      CodeIsPosition(sub, header, c);
      assert CodeOf(t, c)[1..] == CodeOf(sub, c);
    }
  }

  lemma LessPath(heavy: nat, light: nat, deep: nat, high: nat)
    requires heavy > light && deep > high
    ensures light * deep + heavy * high < heavy * deep + light * high
  {
    assert (heavy - light) * (deep - high) > 0;
  }

  /** For every header and tie-breaking, a heavier symbol never has a longer code. */
  lemma HeavierIsShorter(header: Header, pick: seq<Node> -> nat, x: byte, y: byte)
    requires PicksMinimum(pick) && header[x] > header[y] > 0
    ensures HasWeight(header) && Has(Tree(header, pick), x) && Has(Tree(header, pick), y)
    ensures |CodeOf(Tree(header, pick), x)| <= |CodeOf(Tree(header, pick), y)|
  {
    assert HasWeight(header);
    var t := Tree(header, pick);
    TreeSymbols(header, pick);
    assert Has(t, x) && Has(t, y);
    var p, q := CodeOf(t, x), CodeOf(t, y);
    if |p| > |q| {
      var s := HuffmanOptimality.ShapeOf(t);
      TreeMatches(header, pick);
      CodeIsPosition(t, header, x);
      CodeIsPosition(t, header, y);
      HuffmanOptimality.SwapWeights(s, p, q);
      HuffmanOptimality.SwapLength(s, p, q);
      LessPath(header[x], header[y], |p|, |q|);
      HuffmanOptimality.TreeIsOptimal(header, pick, HuffmanOptimality.Swap(s, p, q));
    }
  }

  /** The least value of a greedy tree that has a leaf of weight w at depth n. */
  ghost function Grown(w: nat, n: nat): nat {
    if n < 2 then w else Grown(w, n - 1) + Grown(w, n - 2)
  }

  lemma {:induction false} GrownIsProduct(w: nat, n: nat)
    ensures Grown(w, n) == w * Fib(n + 1)
  {
    if n >= 2 {
      GrownIsProduct(w, n - 1);
      GrownIsProduct(w, n - 2);
      assert w * (Fib(n) + Fib(n - 1)) == w * Fib(n) + w * Fib(n - 1);
    } else {
      assert Fib(1) == 1 && Fib(2) == 1;
    }
  }

  /** A heavy leaf lies high: along its path the values grow like the Fibonacci numbers. */
  lemma {:induction false} HeavyLeaf(t: Node, header: Header, c: byte)
    requires Greedy(t) && LeavesMatch(t, header) && Has(t, c)
    ensures t.value >= Grown(header[c], |CodeOf(t, c)|)
  {
    if t.Branch? {
      var sub := if Has(t.left, c) then t.left else t.right;
      HeavyLeaf(sub, header, c);
      if sub.Branch? {
        HeavyLeaf(if Has(sub.left, c) then sub.left else sub.right, header, c);
      }
    }
  }

  /** For every header and tie-breaking: a symbol's weight times the Fibonacci number of its code
      length stays within the total weight, so frequent symbols have short codes. */
  lemma WeightBoundsLength(header: Header, pick: seq<Node> -> nat, c: byte)
    requires PicksMinimum(pick) && header[c] > 0
    ensures HasWeight(header) && Has(Tree(header, pick), c)
    ensures header[c] * Fib(|CodeOf(Tree(header, pick), c)| + 1) <= SumOf(LeavesUpTo(header, 256), ValueOf)
  {
    assert HasWeight(header);
    TreeSymbols(header, pick);
    TreeGreedy(header, pick);
    TreeMatches(header, pick);
    QueueNonEmpty(header);
    MergeAllGreedy(LeavesUpTo(header, 256), pick);
    HeavyLeaf(Tree(header, pick), header, c);
    GrownIsProduct(header[c], |CodeOf(Tree(header, pick), c)|);
  }
}
