/** HuffmanGeneric, too, accepts texts that it cannot decompress: rounding the frequencies down can
    cost more than eight bits a byte. The size of the payload in terms of the frequencies, and a
    text of 2^32 - 9 bytes for which it passes 2^32 bytes, whatever the tie-breaking. */
module HuffmanGenericLimit {
  import opened Bytes
  import opened ClockErrors
  import opened HuffmanTree
  import opened HuffmanDepth
  import opened HuffmanCodes
  import opened HuffmanDecoder
  import opened HuffmanEncoder
  import opened HuffmanGeneric
  import opened HuffmanFixedLimit

  // ---------------------------------------------------------------- bits from frequencies

  /** How often a symbol occurs, times the length of its code. */
  ghost function Spent(text: seq<byte>): (byte, nat) -> nat {
    (c: byte, len: nat) => Count(text, c) * len
  }

  lemma OnceMore(n: nat, len: nat)
    ensures (n + 1) * len == n * len + len
  {
  }

  lemma {:induction false} SpentSnoc(t: Node, text: seq<byte>, d: byte, n: nat)
    requires n <= 256 && Has(t, d)
    ensures SymbolSum(t, 0, Spent(text + [d]), n)
         == SymbolSum(t, 0, Spent(text), n) + if d < n then |CodeOf(t, d)| else 0
  {
    if n > 0 {
      SpentSnoc(t, text, d, n - 1);
      assert (text + [d])[..|text|] == text;
      var c: byte := n - 1;
      if Has(t, c) {
        OnceMore(Count(text, c), |CodeOf(t, c)|);
      }
    }
  }

  lemma {:induction false} NothingSpent(t: Node, n: nat)
    requires n <= 256
    ensures SymbolSum(t, 0, Spent([]), n) == 0
  {
    if n > 0 {
      NothingSpent(t, n - 1);
    }
  }

  /** The codes of a text take, in total, the sum of frequency times code length. */
  lemma {:induction false} BitsFromFrequencies(t: Node, text: seq<byte>)
    requires OneLeafEach(t) && AllHave(t, text)
    ensures |Concat(Codes(t), text)| == SymbolSum(t, 0, Spent(text), 256)
    decreases |text|
  {
    if text == [] {
      NothingSpent(t, 256);
    } else {
      var front, d := text[..|text| - 1], text[|text| - 1];
      assert text == front + [d];
      BitsFromFrequencies(t, front);
      ConcatSnoc(Codes(t), front, d);
      CodesAt(t, d);
      SpentSnoc(t, front, d, 256);
    }
  }

  // ---------------------------------------------------------------- the text

  /** Symbol 0 occurs a little less than twice as often as each of the others. */
  const OFTEN := 33294322
  const SELDOM := 16712443

  function Occurs(c: byte): nat {
    if c == 0 then OFTEN else SELDOM
  }

  ghost function TextUpTo(n: nat): (text: seq<byte>)
    requires n <= 256
    ensures |text| == if n == 0 then 0 else OFTEN + (n - 1) * SELDOM
  {
    if n == 0 then [] else TextUpTo(n - 1) + Copies(n - 1, Occurs(n - 1))
  }

  lemma {:induction false} CountConcat(a: seq<byte>, b: seq<byte>, c: byte)
    ensures Count(a + b, c) == Count(a, c) + Count(b, c)
  {
    if b == [] {
      assert a + b == a;
    } else {
      assert (a + b)[..|a + b| - 1] == a + b[..|b| - 1];
      CountConcat(a, b[..|b| - 1], c);
    }
  }

  lemma {:induction false} CountCopies(d: byte, n: nat, c: byte)
    ensures Count(Copies(d, n), c) == if c == d then n else 0
  {
    if n > 0 {
      CountCopies(d, n - 1, c);
      CountConcat([d], Copies(d, n - 1), c);
      assert Count([d], c) == Count([], c) + if d == c then 1 else 0;
    }
  }

  lemma {:induction false} CountInText(n: nat, c: byte)
    requires n <= 256
    ensures Count(TextUpTo(n), c) == if c < n then Occurs(c) else 0
  {
    if n > 0 {
      CountInText(n - 1, c);
      CountConcat(TextUpTo(n - 1), Copies(n - 1, Occurs(n - 1)), c);
      CountCopies(n - 1, Occurs(n - 1), c);
    }
  }

  ghost predicate AsChosen(text: seq<byte>) {
    forall c: byte :: Count(text, c) == Occurs(c)
  }

  lemma WholeText() returns (text: seq<byte>)
    ensures |text| == UINT32 - 9 && AsChosen(text)
  {
    text := TextUpTo(256);
    forall c: byte
      ensures Count(text, c) == Occurs(c)
    {
      CountInText(256, c);
    }
  }

  /** Its header: the exact quotient 127.99... of the seldom symbols is cut to 127. */
  lemma ChosenHeader(text: seq<byte>, header: Header)
    requires AsChosen(text) && text != [] && DescribesText(header, text, ExactScale)
    ensures forall c: byte :: header[c] == if c == 0 then 255 else 127
  {
    LargestIsMaximum(text);
    assert Count(text, 0) == OFTEN;
    assert Largest(text) == OFTEN;
    assert OFTEN * 255 / OFTEN == 255 && SELDOM * 255 / OFTEN == 127;
    forall c: byte
      ensures header[c] == if c == 0 then 255 else 127
    {
      assert Count(text, c) == Occurs(c);
    }
  }

  // ---------------------------------------------------------------- the code lengths

  ghost predicate HasAll(t: Node) {
    forall c: byte :: Has(t, c) && |CodeOf(t, c)| <= MAX_CODE_BITS
  }

  /** The lengths of the codes of symbols 1 to n - 1, added up. */
  ghost function OtherBits(t: Node, n: nat): nat
    requires HasAll(t) && 1 <= n <= 256
  {
    if n == 1 then 0 else OtherBits(t, n - 1) + |CodeOf(t, n - 1)|
  }

  lemma {:induction false} SpentOnText(t: Node, text: seq<byte>, n: nat)
    requires HasAll(t) && AsChosen(text) && 1 <= n <= 256
    ensures SymbolSum(t, 0, Spent(text), n) == OFTEN * |CodeOf(t, 0)| + SELDOM * OtherBits(t, n)
  {
    assert Count(text, n - 1) == Occurs(n - 1);
    if n > 1 {
      SpentOnText(t, text, n - 1);
    } else {
      assert SymbolSum(t, 0, Spent(text), 0) == 0;
    }
  }

  /** A code's share of the Kraft sum lies above the line through the shares of 8 and 9 bits. */
  lemma {:induction false} ShareAboveLine(c: byte, len: nat)
    requires len <= MAX_CODE_BITS
    ensures KraftShare(c, len) >= 8192 * (10 - len) + if len < 8 then 8192 else 0
    ensures KraftShare(c, len) >= 1 && (len <= 7 ==> KraftShare(c, len) >= 32768 * (8 - len))
    decreases MAX_CODE_BITS - len
  {
    if len >= 9 {
      assert Pow2(13) == 8192;
      if len < MAX_CODE_BITS {
        ShareAboveLine(c, len + 1);
      }
    } else {
      ShareAboveLine(c, len + 1);
      assert Pow2(13) == 8192 && Pow2(14) == 16384;
      assert KraftShare(c, len) == 2 * KraftShare(c, len + 1);
    }
  }

  ghost predicate SomeShort(t: Node, n: nat)
    requires HasAll(t) && n <= 256
  {
    exists c: byte :: 1 <= c < n && |CodeOf(t, c)| < 8
  }

  lemma {:induction false} SharesAboveLine(t: Node, n: nat)
    requires HasAll(t) && 1 <= n <= 256
    ensures SymbolSum(t, 0, KraftShare, n)
         >= KraftShare(0, |CodeOf(t, 0)|) + 8192 * (10 * (n - 1) - OtherBits(t, n)) + if SomeShort(t, n) then 8192 else 0
  {
    var c: byte := n - 1;
    if n == 1 {
      assert SymbolSum(t, 0, KraftShare, 0) == 0;
    } else {
      SharesAboveLine(t, n - 1);
      ShareAboveLine(c, |CodeOf(t, c)|);
    }
  }

  lemma {:induction false} NoneShort(t: Node, n: nat)
    requires HasAll(t) && 1 <= n <= 256 && !SomeShort(t, n)
    ensures OtherBits(t, n) >= 8 * (n - 1)
    ensures OtherBits(t, n) == 8 * (n - 1) ==> forall c: byte :: 1 <= c < n ==> |CodeOf(t, c)| == 8
  {
    if n > 1 {
      assert !SomeShort(t, n - 1);
      NoneShort(t, n - 1);
      var last: byte := n - 1;
      assert |CodeOf(t, last)| >= 8;
    }
  }

  // ---------------------------------------------------------------- not all codes have eight bits

  ghost predicate ChosenWeights(t: Node) {
    match t
    case Leaf(w, c) => w == if c == 0 then 255 else 127
    case Branch(_, l, r) => ChosenWeights(l) && ChosenWeights(r)
  }

  ghost predicate Level(t: Node, k: nat) {
    forall c: byte :: Has(t, c) ==> |CodeOf(t, c)| == k
  }

  lemma LevelBelow(t: Node, k: nat)
    requires OneLeafEach(t) && Level(t, k) && k > 0
    ensures t.Branch? && Level(t.left, k - 1) && Level(t.right, k - 1)
  {
    var c := SomeSymbol(t);
    assert |CodeOf(t, c)| == k;
    ChildrenApart(t);
    forall d: byte | Has(t.left, d)
      ensures |CodeOf(t.left, d)| == k - 1
    {
      assert |CodeOf(t, d)| == k;
    }
    forall d: byte | Has(t.right, d)
      ensures |CodeOf(t.right, d)| == k - 1
    {
      assert |CodeOf(t, d)| == k;
    }
  }

  lemma LevelZero(t: Node)
    requires Level(t, 0)
    ensures t.Leaf?
  {
    var c := SomeSymbol(t);
    assert |CodeOf(t, c)| == 0;
  }

  /** Two leaves without symbol 0 weigh 254 together. */
  lemma LightPair(t: Node)
    requires OneLeafEach(t) && Greedy(t) && ChosenWeights(t) && Level(t, 1) && !Has(t, 0)
    ensures t.value == 254
  {
    LevelBelow(t, 1);
    LevelZero(t.left);
    LevelZero(t.right);
  }

  lemma HeavyPair(t: Node)
    requires OneLeafEach(t) && ChosenWeights(t) && Level(t, 1) && Has(t, 0)
    ensures !ChildrenAtMost(t, 254)
  {
    LevelBelow(t, 1);
    LevelZero(t.left);
    LevelZero(t.right);
  }

  /** In a level tree symbol 0 would lie beside a pair of seldom ones that weighs less than it,
      which greedy merging never leaves behind. */
  lemma {:induction false} NotLevel(t: Node, k: nat)
    requires OneLeafEach(t) && Greedy(t) && ChosenWeights(t) && Has(t, 0) && k >= 2
    ensures !Level(t, k)
  {
    if Level(t, k) {
      LevelBelow(t, k);
      ChildrenApart(t);
      var sub, other := if Has(t.left, 0) then t.left else t.right, if Has(t.left, 0) then t.right else t.left;
      if k > 2 {
        NotLevel(sub, k - 1);
      } else {
        LightPair(other);
        HeavyPair(sub);
      }
    }
  }

  // ---------------------------------------------------------------- the result

  lemma EnoughBits(first: nat, others: nat)
    requires first <= 7 ==> others >= 2070 - 4 * first
    requires first == 8 ==> others >= 2041
    requires first >= 9 ==> others >= 2039
    ensures OFTEN * first + SELDOM * others >= 8 * UINT32
  {
  }

  lemma ManyOtherBits(t: Node)
    requires HasAll(t) && !Level(t, 8) && SymbolSum(t, 0, KraftShare, 256) == Pow2(MAX_CODE_BITS)
    ensures OFTEN * |CodeOf(t, 0)| + SELDOM * OtherBits(t, 256) >= 8 * UINT32
  {
    var first, others := |CodeOf(t, 0)|, OtherBits(t, 256);
    assert Pow2(11) == 2048;
    assert Pow2(MAX_CODE_BITS) == 4194304;
    SharesAboveLine(t, 256);
    ShareAboveLine(0, first);
    if first == 8 && !SomeShort(t, 256) {
      NoneShort(t, 256);
    }
    EnoughBits(first, others);
  }

  lemma LeavesAsChosen(t: Node, header: Header)
    requires LeavesMatch(t, header) && forall c: byte :: header[c] == if c == 0 then 255 else 127
    ensures ChosenWeights(t)
  {
  }

  /** The tree of the chosen text spends more than eight bits a byte. */
  lemma ChosenBits(pick: seq<Node> -> nat, text: seq<byte>, header: Header)
    requires PicksMinimum(pick) && AsChosen(text)
    requires forall c: byte :: header[c] == if c == 0 then 255 else 127
    ensures HasWeight(header) && |Concat(Codes(Tree(header, pick)), text)| >= 8 * UINT32
  {
    assert header[0] != 0;
    var t := Tree(header, pick);
    TreeSymbols(header, pick);
    TreeGreedy(header, pick);
    TreeMatches(header, pick);
    LeavesAsChosen(t, header);
    NotLevel(t, 8);
    KraftEquality(header, pick);
    ManyOtherBits(t);
    SpentOnText(t, text, 256);
    BitsFromFrequencies(t, text);
  }

  lemma ChosenFails(pick: seq<Node> -> nat, text: seq<byte>)
    requires PicksMinimum(pick) && KeepsZero(ExactScale) && AsChosen(text) && text != []
    ensures CodeBits(text, pick, ExactScale) >= 8 * UINT32
  {
    var header := HeaderOf(text, ExactScale);
    ChosenHeader(text, header);
    ChosenBits(pick, text, header);
  }

  /** Some text of less than 2^32 bytes, scaled exactly, is compressed without complaint and cannot
      be read back, for every tie-breaking. */
  lemma GenericRoundTripFails(pick: seq<Node> -> nat) returns (text: seq<byte>)
    requires PicksMinimum(pick)
    ensures KeepsZero(ExactScale) && |text| == UINT32 - 9 && Compressed(text, pick, ExactScale).Ok?
    ensures Decompressed(Compressed(text, pick, ExactScale).bytes, pick) == Error(InvalidArgument)
  {
    text := WholeText();
    ExactScaleKeepsZero();
    ChosenFails(pick, text);
    RoundTrip(text, pick, ExactScale);
  }
}
