/** HuffmanFixed accepts texts that it cannot decompress: some code of the built-in tree has
    nine bits or more, and 2^32 - 1 copies of that symbol overrun the 32-bit byte index. */
module HuffmanFixedLimit {
  import opened Bytes
  import opened ClockErrors
  import opened HuffmanTree
  import opened HuffmanDepth
  import opened HuffmanCodes
  import opened HuffmanDecoder
  import opened HuffmanGeneric
  import opened HuffmanFixed

  // ---------------------------------------------------------------- the built-in weights

  /** The built-in weights of the first n symbols, added up: one each, and the excess of those that
      weigh more. */
  ghost function WeightBefore(n: nat): nat
    requires n <= 256
  {
    if n <= 97 then
      n + (if n > 10 then 6 else 0) + (if n > 32 then 254 else 0) + (if n > 39 then 2 else 0)
      + (if n > 40 then 3 else 0) + (if n > 41 then 3 else 0) + (if n > 44 then 9 else 0)
      + (if n > 45 then 1 else 0) + (if n > 46 then 9 else 0) + (if n > 65 then 1 else 0)
      + (if n > 72 then 1 else 0) + (if n > 84 then 2 else 0)
    else if n <= 123 then
      388 + [0, 74, 98, 128, 168, 347, 371, 394, 461, 556, 557, 560, 610, 643, 737, 825, 845, 853, 919, 988, 1099, 1132, 1139, 1160, 1162, 1183, 1185][n - 97]
    else 1573 + (n - 123)
  }

  lemma WeightStep(c: byte)
    ensures BuiltInWeight(c) == WeightBefore(c + 1) - WeightBefore(c)
  {
  }

  lemma QueueStep(header: Header, n: nat)
    requires n < 256
    ensures SumOf(LeavesUpTo(header, n + 1), ValueOf) == SumOf(LeavesUpTo(header, n), ValueOf) + header[n]
  {
    SumAppend(LeavesUpTo(header, n), ValueOf, Leaf(header[n], n));
  }

  lemma {:induction false} BuiltInTotal(header: Header, n: nat)
    requires n <= 256 && header == BuiltInHeader()
    ensures SumOf(LeavesUpTo(header, n), ValueOf) == WeightBefore(n)
  {
    if n > 0 {
      BuiltInTotal(header, n - 1);
      QueueStep(header, n - 1);
      WeightStep(n - 1);
    }
  }

  /** The built-in weights add up to 1706, which bounds the code of every symbol. */
  lemma BuiltInLengths(pick: seq<Node> -> nat, c: byte)
    requires PicksMinimum(pick)
    ensures Has(FixedTree(pick), c) && BuiltInWeight(c) * Fib(|CodeOf(FixedTree(pick), c)| + 1) <= 1706
  {
    WeightBoundsLength(BuiltInHeader(), pick, c);
    BuiltInTotal(BuiltInHeader(), 256);
  }

  lemma {:induction false} FibGrows(m: nat, n: nat)
    requires 1 <= m <= n
    ensures Fib(m) <= Fib(n)
  {
    if m < n {
      FibGrows(m, n - 1);
    }
  }

  lemma TimesGrows(w: nat, x: nat, y: nat)
    requires x <= y
    ensures w * x <= w * y
  {
  }

  lemma WeightForces(w: nat, len: nat, bound: nat)
    requires w * Fib(len + 1) <= 1706 < w * Fib(bound + 2)
    ensures len <= bound
  {
    if len > bound {
      FibGrows(bound + 2, len + 1);
      TimesGrows(w, Fib(bound + 2), Fib(len + 1));
    }
  }

  lemma LengthAtMost(pick: seq<Node> -> nat, c: byte, bound: nat)
    requires PicksMinimum(pick) && BuiltInWeight(c) * Fib(bound + 2) > 1706
    ensures Has(FixedTree(pick), c) && |CodeOf(FixedTree(pick), c)| <= bound
  {
    BuiltInLengths(pick, c);
    WeightForces(BuiltInWeight(c), |CodeOf(FixedTree(pick), c)|, bound);
  }

  lemma SmallFibs()
    ensures Fib(6) == 8 && Fib(7) == 13 && Fib(8) == 21 && Fib(9) == 34
  {
    assert Fib(4) == 3 && Fib(5) == 5;
  }

  /** The frequent symbols have short codes: the space at most 4 bits, e at most 5, t, i, n and o
      at most 6, a, s, h and r at most 7. */
  lemma FrequentSymbols(pick: seq<Node> -> nat, c: byte)
    requires PicksMinimum(pick) && c in [32, 101, 116, 105, 110, 111, 97, 115, 104, 114]
    ensures Has(FixedTree(pick), c)
    ensures |CodeOf(FixedTree(pick), c)|
         <= if c == 32 then 4 else if c == 101 then 5 else if c in [116, 105, 110, 111] then 6 else 7
  {
    SmallFibs();
    LengthAtMost(pick, c, if c == 32 then 4 else if c == 101 then 5 else if c in [116, 105, 110, 111] then 6 else 7);
  }

  ghost predicate ShortCodes(t: Node) {
    forall c: byte :: Has(t, c) && |CodeOf(t, c)| <= if c == 32 then 7 else 8
  }

  /** If all codes were short, their shares would add up to more than the whole. */
  lemma {:induction false} ShareSum(t: Node, n: nat)
    requires n <= 256 && ShortCodes(t)
    ensures SymbolSum(t, 0, KraftShare, n) >= 16384 * n + if n > 32 then 16384 else 0
  {
    if n > 0 {
      ShareSum(t, n - 1);
      ShareOf(n - 1, |CodeOf(t, n - 1)|);
    }
  }

  lemma ShareOf(c: byte, len: nat)
    requires len <= 8
    ensures KraftShare(c, len) >= if len <= 7 then 32768 else 16384
    decreases 8 - len
  {
    if len < 8 {
      ShareOf(c, len + 1);
    } else {
      assert Pow2(14) == 16384;
    }
  }

  lemma NotAllShort(t: Node)
    requires SymbolSum(t, 0, KraftShare, 256) == Pow2(MAX_CODE_BITS)
    ensures !ShortCodes(t)
  {
    assert Pow2(11) == 2048;
    assert Pow2(MAX_CODE_BITS) == 4194304;
    if ShortCodes(t) {
      ShareSum(t, 256);
    }
  }

  lemma SomeLongCode(pick: seq<Node> -> nat) returns (c: byte)
    requires PicksMinimum(pick)
    ensures Has(FixedTree(pick), c) && |CodeOf(FixedTree(pick), c)| >= 9
  {
    var t := FixedTree(pick);
    FrequentSymbols(pick, 32);
    KraftEquality(BuiltInHeader(), pick);
    TreeSymbols(BuiltInHeader(), pick);
    NotAllShort(t);
    c :| !(Has(t, c) && |CodeOf(t, c)| <= if c == 32 then 7 else 8);
  }

  ghost function Copies(c: byte, n: nat): (text: seq<byte>)
    ensures |text| == n && forall i :: 0 <= i < n ==> text[i] == c
  {
    if n == 0 then [] else [c] + Copies(c, n - 1)
  }

  lemma {:induction false} CopiesBits(m: Mapping, c: byte, n: nat)
    ensures |Concat(m, Copies(c, n))| == |m[c]| * n
  {
    if n > 0 {
      assert Copies(c, n)[1..] == Copies(c, n - 1);
      CopiesBits(m, c, n - 1);
      assert |m[c]| * n == |m[c]| + |m[c]| * (n - 1);
    }
  }

  /** Some text of 2^32 - 1 bytes is compressed without complaint and cannot be read back. */
  lemma FixedRoundTripFails(pick: seq<Node> -> nat) returns (text: seq<byte>)
    requires PicksMinimum(pick)
    ensures |text| == UINT32 - 1 && FixedCompressed(text, pick).Ok?
    ensures FixedDecompressed(FixedCompressed(text, pick).bytes, pick) == Error(InvalidArgument)
  {
    var t := FixedTree(pick);
    var c := SomeLongCode(pick);
    text := Copies(c, UINT32 - 1);
    FixedCodes(pick, c);
    CopiesBits(Codes(t), c, UINT32 - 1);
    assert |CodeOf(t, c)| * (UINT32 - 1) >= 9 * (UINT32 - 1);
    FixedRoundTrip(text, pick);
  }
}
