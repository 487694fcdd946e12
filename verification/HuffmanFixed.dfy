/** HuffmanFixed: a built-in header, one tree for the lifetime of the program, and a table of
    codes that the first call fills. */
module HuffmanFixed {
  import opened Bytes
  import opened ClockErrors
  import opened HuffmanTree
  import opened HuffmanDepth
  import opened HuffmanCodes
  import opened HuffmanDecoder
  import opened HuffmanEncoder
  import opened HuffmanGeneric

  /** Entry c of the built-in header. */
  function BuiltInWeight(c: byte): (w: byte)
    ensures w >= 1
  {
    if c < 97 then
      if c == 10 then 7 else if c == 32 then 255 else if c == 39 then 3
      else if c == 40 || c == 41 then 4 else if c == 44 || c == 46 then 10
      else if c == 45 || c == 65 || c == 72 then 2 else if c == 84 then 3 else 1
    else if c < 123 then
      [74, 24, 30, 40, 179, 24, 23, 67, 95, 1, 3, 50, 33, 94, 88, 20, 8, 66, 69, 111, 33, 7, 21, 2, 21, 2][c - 97]
    else 1
  }

  function BuiltInHeader(): (h: Header)
    ensures forall c: byte :: h[c] == BuiltInWeight(c)
    ensures HasWeight(h)
  {
    var h: seq<byte> := seq(256, (c: int) requires 0 <= c < 256 => BuiltInWeight(c));
    assert h[0] != 0;
    h
  }

  ghost function FixedTree(pick: seq<Node> -> nat): Node
    requires PicksMinimum(pick)
  {
    Tree(BuiltInHeader(), pick)
  }

  /** Every byte has a code, and none of them is empty. */
  lemma FixedCodes(pick: seq<Node> -> nat, c: byte)
    requires PicksMinimum(pick)
    ensures OneLeafEach(FixedTree(pick)) && Has(FixedTree(pick), c)
    ensures Codes(FixedTree(pick))[c] == CodeOf(FixedTree(pick), c) != []
    ensures |CodeOf(FixedTree(pick), c)| <= MAX_CODE_BITS
  {
    var t := FixedTree(pick);
    TreeSymbols(BuiltInHeader(), pick);
    assert Has(t, c) && Has(t, 0) && Has(t, 1);
    CodesAt(t, c);
  }

  /** The static members: the tree, and the table that is empty until it is first needed. */
  class Codec {
    const root: Node
    const mappings: array<seq<bool>>
    ghost const pick: seq<Node> -> nat

    ghost predicate Valid()
      reads mappings
    {
      && PicksMinimum(pick) && root == FixedTree(pick) && mappings.Length == 256
      && (mappings[..] == NoCodes() || mappings[..] == Codes(root))
    }

    constructor (pick: seq<Node> -> nat)
      requires PicksMinimum(pick)
      ensures Valid() && this.pick == pick && fresh(mappings)
    {
      var tree := BuildTree(BuiltInHeader(), pick);
      root := tree;
      var table := new seq<bool>[256](i => []);
      mappings := table;
      this.pick := pick;
      new;
      assert mappings[..] == NoCodes();
    }

    /** The table is filled when it is empty, and only then. */
    method Fill()
      requires Valid()
      modifies mappings
      ensures Valid() && mappings[..] == Codes(root)
      ensures old(mappings[..]) == Codes(root) ==> unchanged(mappings)
    {
      FixedCodes(pick, 0);
      if |mappings[0]| == 0 {
        assert mappings[..][0] == mappings[0];
        GenerateMapping(root, [], mappings);
      }
    }

    method Compress(text: seq<byte>) returns (r: CodecResult)
      requires Valid()
      modifies mappings
      ensures Valid() && r == FixedCompressed(text, pick)
    {
      if |text| > UINT32 - 1 {
        return Error(InvalidArgument);
      }
      var compressed := AppendLength([], |text|);
      assert compressed == LengthBytes(|text|);
      Fill();
      compressed := Convert(text, mappings[..], compressed);
      return Ok(compressed);
    }

    method Decompress(compressed: seq<byte>) returns (r: CodecResult)
      requires Valid()
      ensures r == FixedDecompressed(compressed, pick)
    {
      if |compressed| < 4 {
        return Error(InvalidArgument);
      }
      var len := ReadLength(compressed[..4]);
      var decompressed := new byte[len](i => 0);
      var err := GetChar(compressed[4..], root, len, decompressed);
      return if err == Success then Ok(decompressed[..]) else Error(err);
    }
  }

  ghost function FixedCompressed(text: seq<byte>, pick: seq<Node> -> nat): CodecResult
    requires PicksMinimum(pick)
  {
    if |text| >= UINT32 then Error(InvalidArgument)
    else if text == [] then Ok(LengthBytes(0))
    else Ok(LengthBytes(|text|) + Pack(Concat(Codes(FixedTree(pick)), text)))
  }

  ghost function FixedDecompressed(compressed: seq<byte>, pick: seq<Node> -> nat): CodecResult
    requires PicksMinimum(pick)
  {
    if |compressed| < 4 then Error(InvalidArgument)
    else
      match Decoded(FixedTree(pick), compressed[4..], LengthOf(compressed[..4]))
      case Some(text) => Ok(text)
      case None => Error(InvalidArgument)
  }

  ghost function FixedCodeBits(text: seq<byte>, pick: seq<Node> -> nat): nat
    requires PicksMinimum(pick)
  {
    |Concat(Codes(FixedTree(pick)), text)|
  }

  /** For every text that compress accepts, decompressing gives the text back exactly when the
      text is not empty and its codes end within 2^32 bytes; otherwise it reports an error. */
  lemma FixedRoundTrip(text: seq<byte>, pick: seq<Node> -> nat)
    requires PicksMinimum(pick) && |text| < UINT32
    ensures FixedCompressed(text, pick).Ok?
    ensures FixedDecompressed(FixedCompressed(text, pick).bytes, pick)
         == if text != [] && FixedCodeBits(text, pick) / 8 < UINT32 then Ok(text) else Error(InvalidArgument)
  {
    var t := FixedTree(pick);
    var c := FixedCompressed(text, pick).bytes;
    assert c[..4] == LengthBytes(|text|);
    LengthRoundTrip(|text|);
    if text == [] {
      NeverAccepted(t, c[4..], 0);
    } else {
      assert c[4..] == Pack(Concat(Codes(t), text));
      forall i | 0 <= i < |text|
        ensures OneLeafEach(t) && Has(t, text[i])
      {
        FixedCodes(pick, text[i]);
      }
      FixedCodes(pick, 0);
      DecodedOfPacked(t, text);
    }
  }

  lemma FixedSafeRoundTrip(text: seq<byte>, pick: seq<Node> -> nat)
    requires PicksMinimum(pick) && 0 < |text| <= SAFE_LENGTH
    ensures FixedCompressed(text, pick).Ok?
    ensures FixedDecompressed(FixedCompressed(text, pick).bytes, pick) == Ok(text)
  {
    TreeSymbols(BuiltInHeader(), pick);
    ConcatBound(FixedTree(pick), text, MAX_CODE_BITS);
    FixedRoundTrip(text, pick);
  }

  /** Inputs without a payload are refused, and texts whose length has no four bytes. */
  lemma FixedRefused(bytes: seq<byte>, pick: seq<Node> -> nat)
    requires PicksMinimum(pick)
    ensures |bytes| <= 4 ==> FixedDecompressed(bytes, pick) == Error(InvalidArgument)
    ensures FixedCompressed(bytes, pick) == Error(InvalidArgument) <==> |bytes| >= UINT32
  {
    if |bytes| == 4 {
      NeverAccepted(FixedTree(pick), bytes[4..], LengthOf(bytes[..4]));
    }
  }
}
