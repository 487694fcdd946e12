/** No code is longer than 22 bits: the greedy merging order makes a tree of height h weigh at
    least the (h + 2)nd Fibonacci number, and a header can weigh at most 256 * 255. */
module HuffmanDepth {
  import opened Bytes
  import opened HuffmanTree

  const MAX_CODE_BITS := 22

  ghost function ValueOf(t: Node): nat {
    t.value
  }

  ghost function Height(t: Node): nat {
    match t
    case Leaf(_, _) => 0
    case Branch(_, l, r) => 1 + if Height(l) >= Height(r) then Height(l) else Height(r)
  }

  ghost predicate ChildrenAtMost(t: Node, bound: nat) {
    t.Branch? ==> t.left.value <= bound && t.right.value <= bound
  }

  /** What greedy merging guarantees of every node: its value is the sum of its children's, and
      neither child is lighter than a child of the other. */
  ghost predicate Greedy(t: Node) {
    match t
    case Leaf(v, _) => v >= 1
    case Branch(v, l, r) =>
      && Greedy(l) && Greedy(r) && v == l.value + r.value
      && ChildrenAtMost(l, r.value) && ChildrenAtMost(r, l.value)
  }

  /** The queue invariant: no queued node is lighter than a child of any queued node. */
  ghost predicate GreedyQueue(q: seq<Node>) {
    && SumOf(q, ValueOf) < UINT32
    && (forall t :: t in q ==> Greedy(t))
    && (forall t, u :: t in q && u in q ==> ChildrenAtMost(t, u.value))
  }

  /** After a merge the queue holds the joined node and nodes no lighter than its children. */
  lemma MergeMembers(q: seq<Node>, pick: seq<Node> -> nat, f: Node -> nat) returns (a: Node, b: Node)
    requires PicksMinimum(pick) && |q| >= 2
    ensures a in q && b in q && a.value + b.value <= SumOf(q, ValueOf)
    ensures forall t :: t in MergeLightest(q, pick) ==>
      t == Join(a, b) || (t in q && a.value <= t.value && b.value <= t.value)
    ensures SumOf(MergeLightest(q, pick), f) + f(a) + f(b) == SumOf(q, f) + f(Join(a, b))
  {
    assert IsLightest(q, pick(q));
    var rest := Without(q, pick(q));
    assert IsLightest(rest, pick(rest));
    a, b := q[pick(q)], rest[pick(rest)];
    assert forall t :: t in rest ==> t in q;
    SumWithout(q, ValueOf, pick(q));
    SumWithout(rest, ValueOf, pick(rest));
    SumMerge(q, pick, f);
  }

  lemma MergeKeepsGreedy(q: seq<Node>, pick: seq<Node> -> nat)
    requires PicksMinimum(pick) && |q| >= 2 && GreedyQueue(q)
    ensures GreedyQueue(MergeLightest(q, pick))
    ensures SumOf(MergeLightest(q, pick), ValueOf) == SumOf(q, ValueOf)
  {
    var a, b := MergeMembers(q, pick, ValueOf);
    JoinKeepsGreedy(q, a, b, MergeLightest(q, pick));
  }

  lemma JoinKeepsGreedy(q: seq<Node>, a: Node, b: Node, merged: seq<Node>)
    requires GreedyQueue(q) && a in q && b in q && a.value + b.value <= SumOf(q, ValueOf)
    requires forall t :: t in merged ==>
      t == Join(a, b) || (t in q && a.value <= t.value && b.value <= t.value)
    requires SumOf(merged, ValueOf) + ValueOf(a) + ValueOf(b) == SumOf(q, ValueOf) + ValueOf(Join(a, b))
    ensures GreedyQueue(merged) && SumOf(merged, ValueOf) == SumOf(q, ValueOf)
  {
    var j := Join(a, b);
    assert j.value == a.value + b.value && Greedy(j);
    forall t, u | t in merged && u in merged
      ensures ChildrenAtMost(t, u.value)
    {
      assert t != j ==> ChildrenAtMost(t, a.value);
    }
  }

  lemma {:induction false} MergeAllGreedy(q: seq<Node>, pick: seq<Node> -> nat)
    requires PicksMinimum(pick) && q != [] && GreedyQueue(q)
    ensures Greedy(MergeAll(q, pick)) && MergeAll(q, pick).value == SumOf(q, ValueOf)
    decreases |q|
  {
    if |q| == 1 {
      assert q[..0] == [];
    } else {
      MergeKeepsGreedy(q, pick);
      MergeAllGreedy(MergeLightest(q, pick), pick);
    }
  }

  lemma {:induction false} QueueWeight(header: Header, n: nat)
    requires n <= 256
    ensures SumOf(LeavesUpTo(header, n), ValueOf) <= 255 * n
  {
    if n > 0 {
      QueueWeight(header, n - 1);
      if header[n - 1] != 0 {
        SumAppend(LeavesUpTo(header, n - 1), ValueOf, Leaf(header[n - 1], n - 1));
      }
    }
  }

  /** The 32-bit sums never wrap, and the tree is greedy throughout. */
  lemma TreeGreedy(header: Header, pick: seq<Node> -> nat)
    requires PicksMinimum(pick) && HasWeight(header)
    ensures GreedyQueue(LeavesUpTo(header, 256))
    ensures Greedy(Tree(header, pick)) && Tree(header, pick).value <= 256 * 255
  {
    QueueNonEmpty(header);
    QueueWeight(header, 256);
    MergeAllGreedy(LeavesUpTo(header, 256), pick);
  }

  ghost function Fib(n: nat): nat {
    if n < 2 then n else Fib(n - 1) + Fib(n - 2)
  }

  lemma {:induction false} GreedyWeight(t: Node)
    requires Greedy(t)
    ensures t.value >= Fib(Height(t) + 2) && t.value >= 1
  {
    match t
    case Leaf(_, _) =>
    case Branch(_, l, r) =>
      GreedyWeight(l);
      GreedyWeight(r);
      if Height(l) >= Height(r) {
        GreedyPair(l, r);
      } else {
        GreedyPair(r, l);
      }
  }

  /** The taller of two siblings weighs Fib(h + 2); the other at least Fib(h + 1), because it is
      not lighter than the taller one's taller child. */
  lemma {:induction false} GreedyPair(tall: Node, other: Node)
    requires Greedy(tall) && other.value >= 1 && ChildrenAtMost(tall, other.value)
    requires tall.value >= Fib(Height(tall) + 2)
    ensures tall.value + other.value >= Fib(Height(tall) + 3)
    decreases tall, 0
  {
    var h := Height(tall);
    assert Fib(h + 3) == Fib(h + 2) + Fib(h + 1);
    if tall.Branch? {
      var u := if Height(tall.left) >= Height(tall.right) then tall.left else tall.right;
      GreedyWeight(u);
      assert Fib(Height(u) + 2) == Fib(h + 1);
    }
  }

  lemma FibAt25()
    ensures Fib(25) == 75025
  {
    assert Fib(8) == 21 && Fib(9) == 34;
    assert Fib(16) == 987 && Fib(17) == 1597;
  }

  lemma {:induction false} FibFrom25(n: nat)
    requires n >= 25
    ensures Fib(n) >= 75025
  {
    if n == 25 {
      FibAt25();
    } else {
      FibFrom25(n - 1);
    }
  }

  lemma GreedyHeight(t: Node)
    requires Greedy(t) && t.value <= 256 * 255
    ensures Height(t) <= MAX_CODE_BITS
  {
    GreedyWeight(t);
    if Height(t) > MAX_CODE_BITS {
      FibFrom25(Height(t) + 2);
    }
  }

  /** Depth bound for every header and every priority queue. */
  lemma TreeHeight(header: Header, pick: seq<Node> -> nat)
    requires PicksMinimum(pick) && HasWeight(header)
    ensures Height(Tree(header, pick)) <= MAX_CODE_BITS
  {
    TreeGreedy(header, pick);
    GreedyHeight(Tree(header, pick));
  }
}
