/** The tree that HuffmanBase::buildTree makes from a 256-entry weight header. */
module HuffmanTree {
  import opened Bytes

  /** A node of the probability tree. A leaf is a node without children; only its `c` is valid. */
  datatype Node =
    | Leaf(value: nat, c: byte)
    | Branch(value: nat, left: Node, right: Node)

  type Header = h: seq<byte> | |h| == 256 witness seq(256, i => 0)

  // ---------------------------------------------------------------- the priority queue

  /** A std::priority_queue only promises that its top has the least value; which of several
      lightest nodes comes first is up to the library. A `pick` stands for one such library:
      any function that chooses a lightest node of the queue. */
  ghost predicate PicksMinimum(pick: seq<Node> -> nat) {
    forall q: seq<Node> :: q != [] ==> IsLightest(q, pick(q))
  }

  ghost predicate IsLightest(q: seq<Node>, k: nat) {
    k < |q| && forall i :: 0 <= i < |q| ==> q[k].value <= q[i].value
  }

  /** One such choice: the first of the lightest nodes. */
  function FirstLightest(q: seq<Node>): (k: nat)
    ensures q != [] ==> IsLightest(q, k)
  {
    if |q| <= 1 then 0
    else
      var k := FirstLightest(q[..|q| - 1]);
      if q[|q| - 1].value < q[k].value then |q| - 1 else k
  }

  lemma FirstLightestPicksMinimum()
    ensures PicksMinimum(FirstLightest)
  {
  }

  function Without<T>(s: seq<T>, k: nat): (r: seq<T>)
    requires k < |s|
    ensures |r| == |s| - 1
  {
    s[..k] + s[k + 1..]
  }

  // ---------------------------------------------------------------- buildTree

  /** Combines two nodes; `value` is a 32-bit field. */
  function Join(left: Node, right: Node): Node {
    Branch((left.value + right.value) % UINT32, left, right)
  }

  function MergeLightest(q: seq<Node>, pick: seq<Node> -> nat): (r: seq<Node>)
    requires PicksMinimum(pick) && |q| >= 2
    ensures |r| == |q| - 1
  {
    assert IsLightest(q, pick(q));
    var rest := Without(q, pick(q));
    assert IsLightest(rest, pick(rest));
    Without(rest, pick(rest)) + [Join(q[pick(q)], rest[pick(rest)])]
  }

  function MergeAll(q: seq<Node>, pick: seq<Node> -> nat): Node
    requires PicksMinimum(pick) && q != []
    decreases |q|
  {
    if |q| == 1 then q[0] else MergeAll(MergeLightest(q, pick), pick)
  }

  /** The leaves queued for the first n header entries. */
  function LeavesUpTo(header: Header, n: nat): (q: seq<Node>)
    requires n <= 256
    ensures |q| <= n
    ensures forall i :: 0 <= i < |q| ==> q[i].Leaf? && 1 <= q[i].value <= 255
  {
    if n == 0 then []
    else if header[n - 1] == 0 then LeavesUpTo(header, n - 1)
    else LeavesUpTo(header, n - 1) + [Leaf(header[n - 1], n - 1)]
  }

  predicate HasWeight(header: Header) {
    exists i :: 0 <= i < 256 && header[i] != 0
  }

  lemma {:induction false} LeavesNonEmpty(header: Header, n: nat, i: nat)
    requires i < n <= 256 && header[i] != 0
    ensures LeavesUpTo(header, n) != []
  {
    if i < n - 1 {
      LeavesNonEmpty(header, n - 1, i);
    }
  }

  lemma QueueNonEmpty(header: Header)
    requires HasWeight(header)
    ensures LeavesUpTo(header, 256) != []
  {
    var i :| 0 <= i < 256 && header[i] != 0;
    LeavesNonEmpty(header, 256, i);
  }

  ghost function Tree(header: Header, pick: seq<Node> -> nat): Node
    requires PicksMinimum(pick) && HasWeight(header)
  {
    QueueNonEmpty(header);
    MergeAll(LeavesUpTo(header, 256), pick)
  }

  method BuildTree(header: Header, pick: seq<Node> -> nat) returns (root: Node)
    requires PicksMinimum(pick) && HasWeight(header)
    ensures root == Tree(header, pick)
  {
    var queue: seq<Node> := [];
    for i := 0 to 256
      invariant queue == LeavesUpTo(header, i)
    {
      if header[i] != 0 {
        queue := queue + [Leaf(header[i], i)];
      }
    }
    QueueNonEmpty(header);
    while |queue| >= 2
      invariant queue != [] && MergeAll(queue, pick) == Tree(header, pick)
      decreases |queue|
    {
      ghost var before := queue;
      assert IsLightest(queue, pick(queue));
      var left := queue[pick(queue)];
      queue := Without(queue, pick(queue));
      assert IsLightest(queue, pick(queue));
      var right := queue[pick(queue)];
      queue := Without(queue, pick(queue));
      queue := queue + [Branch((left.value + right.value) % UINT32, left, right)];
      assert queue == MergeLightest(before, pick);
    }
    root := queue[0];
  }

  // ---------------------------------------------------------------- what merging conserves

  ghost function SumOf<T>(s: seq<T>, f: T -> nat): nat {
    if s == [] then 0 else SumOf(s[..|s| - 1], f) + f(s[|s| - 1])
  }

  lemma {:induction false} SumWithout<T>(s: seq<T>, f: T -> nat, k: nat)
    requires k < |s|
    ensures SumOf(Without(s, k), f) + f(s[k]) == SumOf(s, f)
  {
    var n := |s| - 1;
    if k == n {
      assert Without(s, k) == s[..n];
    } else {
      SumWithout(s[..n], f, k);
      assert Without(s, k)[..n - 1] == Without(s[..n], k);
    }
  }

  lemma SumAppend<T>(s: seq<T>, f: T -> nat, x: T)
    ensures SumOf(s + [x], f) == SumOf(s, f) + f(x)
  {
    assert (s + [x])[..|s|] == s;
  }

  lemma {:induction false} SumMember<T>(s: seq<T>, f: T -> nat, k: nat)
    requires k < |s|
    ensures f(s[k]) <= SumOf(s, f)
  {
    SumWithout(s, f, k);
  }

  /** One merge in terms of any measure f of nodes. */
  lemma SumMerge(q: seq<Node>, pick: seq<Node> -> nat, f: Node -> nat)
    requires PicksMinimum(pick) && |q| >= 2
    ensures
      var rest := Without(q, pick(q));
      var a, b := q[pick(q)], rest[pick(rest)];
      SumOf(MergeLightest(q, pick), f) + f(a) + f(b) == SumOf(q, f) + f(Join(a, b))
  {
    var rest := Without(q, pick(q));
    SumWithout(q, f, pick(q));
    SumWithout(rest, f, pick(rest));
    SumAppend(Without(rest, pick(rest)), f, Join(q[pick(q)], rest[pick(rest)]));
  }

  /** A measure that joining adds up is conserved from the queue to the tree. */
  lemma {:induction false} MergeConserves(q: seq<Node>, pick: seq<Node> -> nat, f: Node -> nat)
    requires PicksMinimum(pick) && q != []
    requires forall l, r :: f(Join(l, r)) == f(l) + f(r)
    ensures f(MergeAll(q, pick)) == SumOf(q, f)
    decreases |q|
  {
    if |q| == 1 {
      assert q[..0] == [];
    } else {
      SumMerge(q, pick, f);
      MergeConserves(MergeLightest(q, pick), pick, f);
    }
  }

  /** How often the leaf (w, c) occurs in a tree. */
  ghost function LeafCount(t: Node, w: nat, c: byte): nat {
    match t
    case Leaf(v, d) => if v == w && d == c then 1 else 0
    case Branch(_, l, r) => LeafCount(l, w, c) + LeafCount(r, w, c)
  }

  ghost function CountOf(w: nat, c: byte): Node -> nat {
    t => LeafCount(t, w, c)
  }

  lemma {:induction false} LeavesCount(header: Header, n: nat, w: nat, c: byte)
    requires n <= 256
    ensures SumOf(LeavesUpTo(header, n), CountOf(w, c))
         == if c < n && w == header[c] && w != 0 then 1 else 0
  {
    if n > 0 {
      LeavesCount(header, n - 1, w, c);
      if header[n - 1] != 0 {
        SumAppend(LeavesUpTo(header, n - 1), CountOf(w, c), Leaf(header[n - 1], n - 1));
      }
    }
  }

  /** Exactly the symbols of non-zero weight get a leaf: one each, carrying the header's weight. */
  lemma TreeLeaves(header: Header, pick: seq<Node> -> nat, w: nat, c: byte)
    requires PicksMinimum(pick) && HasWeight(header)
    ensures LeafCount(Tree(header, pick), w, c) == if w == header[c] && w != 0 then 1 else 0
  {
    QueueNonEmpty(header);
    LeavesCount(header, 256, w, c);
    MergeConserves(LeavesUpTo(header, 256), pick, CountOf(w, c));
  }

  // ---------------------------------------------------------------- which child is which

  /** In every branch the node that was popped first, a lightest one, is the left child. */
  ghost predicate Ordered(t: Node) {
    match t
    case Leaf(_, _) => true
    case Branch(_, l, r) => l.value <= r.value && Ordered(l) && Ordered(r)
  }

  lemma MergeKeepsOrdered(q: seq<Node>, pick: seq<Node> -> nat)
    requires PicksMinimum(pick) && |q| >= 2 && forall i :: 0 <= i < |q| ==> Ordered(q[i])
    ensures forall i :: 0 <= i < |q| - 1 ==> Ordered(MergeLightest(q, pick)[i])
  {
    assert IsLightest(q, pick(q));
    var rest := Without(q, pick(q));
    assert IsLightest(rest, pick(rest));
    assert forall i :: 0 <= i < |rest| ==> rest[i] == if i < pick(q) then q[i] else q[i + 1];
    assert Ordered(Join(q[pick(q)], rest[pick(rest)]));
  }

  lemma {:induction false} MergeAllOrdered(q: seq<Node>, pick: seq<Node> -> nat)
    requires PicksMinimum(pick) && q != [] && forall i :: 0 <= i < |q| ==> Ordered(q[i])
    ensures Ordered(MergeAll(q, pick))
    decreases |q|
  {
    if |q| >= 2 {
      MergeKeepsOrdered(q, pick);
      MergeAllOrdered(MergeLightest(q, pick), pick);
    }
  }

  /** For every header and tie-breaking, no left child is heavier than its sibling. */
  lemma TreeOrdered(header: Header, pick: seq<Node> -> nat)
    requires PicksMinimum(pick) && HasWeight(header)
    ensures Ordered(Tree(header, pick))
  {
    QueueNonEmpty(header);
    MergeAllOrdered(LeavesUpTo(header, 256), pick);
  }
}
