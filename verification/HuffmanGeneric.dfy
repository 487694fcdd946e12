/** HuffmanGeneric: a 256-byte header of scaled frequencies, a four-byte length, the codes. */
module HuffmanGeneric {
  import opened Bytes
  import opened ClockErrors
  import opened HuffmanTree
  import opened HuffmanDepth
  import opened HuffmanCodes
  import opened HuffmanDecoder
  import opened HuffmanEncoder

  /** `Undefined` marks calls on which the source has no defined behaviour: it takes the top of
      an empty priority queue. */
  datatype CodecResult = Ok(bytes: seq<byte>) | Error(err: ClockError) | Undefined

  const PREFIX := 260

  /** The longest text for which 22 bits a symbol stay within a 32-bit byte index. */
  const SAFE_LENGTH := 1561806289

  // ---------------------------------------------------------------- calcFrequencies

  ghost function Count(text: seq<byte>, c: byte): nat {
    if text == [] then 0 else Count(text[..|text| - 1], c) + (if text[|text| - 1] == c then 1 else 0)
  }

  ghost function Largest(text: seq<byte>): nat {
    if text == [] then 0
    else
      var before, here := Largest(text[..|text| - 1]), Count(text, text[|text| - 1]);
      if here > before then here else before
  }

  lemma {:induction false} LargestIsMaximum(text: seq<byte>)
    ensures forall c: byte :: Count(text, c) <= Largest(text)
    ensures text != [] ==> exists c: byte :: c in text && Count(text, c) == Largest(text)
  {
    if text != [] {
      var front, last := text[..|text| - 1], text[|text| - 1];
      LargestIsMaximum(front);
      if Count(text, last) != Largest(text) {
        assert Count(text, last) >= 1;
        var c: byte :| c in front && Count(front, c) == Largest(front);
        assert c != last && Count(text, c) == Largest(text);
      }
    }
  }

  lemma {:induction false} CountedIsPresent(text: seq<byte>, c: byte)
    ensures Count(text, c) <= |text| && (Count(text, c) > 0 <==> c in text)
  {
    if text != [] {
      CountedIsPresent(text[..|text| - 1], c);
      assert text == text[..|text| - 1] + [text[|text| - 1]];
    }
  }

  /** The floating-point scaling `uint8_t(count / max * 255.0)`, of which only this is used:
      its result is a byte, and zero stays zero. */
  ghost predicate KeepsZero(scale: (nat, nat) -> byte) {
    forall max :: scale(0, max) == 0
  }

  /** The scaling in exact arithmetic. */
  function ExactScale(count: nat, max: nat): byte {
    if count == 0 || count > max then 0
    else
      QuotientBound(count * 255, max);
      count * 255 / max
  }

  lemma QuotientBound(x: nat, max: nat)
    requires 0 < max && x <= 255 * max
    ensures x / max <= 255
  {
    var q := x / max;
    assert q * max <= x;
    assert q >= 256 ==> q * max >= 256 * max;
  }

  lemma ExactScaleKeepsZero()
    ensures KeepsZero(ExactScale)
  {
  }

  function Clamped(count: nat, scaled: byte): byte {
    if count > 0 && scaled == 0 then 1 else scaled
  }

  ghost function HeaderEntry(text: seq<byte>, scale: (nat, nat) -> byte, c: byte): byte {
    Clamped(Count(text, c), scale(Count(text, c), Largest(text)))
  }

  /** A header of the text: entry c is the clamped, scaled count of c. */
  ghost predicate DescribesText(header: Header, text: seq<byte>, scale: (nat, nat) -> byte) {
    forall c: byte :: header[c] == HeaderEntry(text, scale, c)
  }

  method CalcFrequencies(text: seq<byte>, scale: (nat, nat) -> byte) returns (charHeader: Header)
    requires 0 < |text| < UINT32 && KeepsZero(scale)
    ensures DescribesText(charHeader, text, scale)
  {
    var header := seq(256, i => 0);
    var max: nat := 0;
    for k := 0 to |text|
      invariant |header| == 256 && max == Largest(text[..k])
      invariant forall c: byte :: header[c] == Count(text[..k], c)
    {
      assert text[..k + 1][..k] == text[..k];
      CountedIsPresent(text[..k], text[k]);
      header := header[text[k] := (header[text[k]] + 1) % UINT32];
      if header[text[k]] > max {
        max := header[text[k]];
      }
    }
    assert text[..|text|] == text;
    charHeader := seq(256, i => 0);
    for i := 0 to 256
      invariant forall c: byte :: c < i ==>
        charHeader[c] == HeaderEntry(text, scale, c)
    {
      charHeader := charHeader[i := scale(header[i], max)];
      if header[i] > 0 && charHeader[i] == 0 {
        charHeader := charHeader[i := 1];
      }
    }
  }

  /** Exactly the symbols of the text have a weight. */
  lemma HeaderSymbols(header: Header, text: seq<byte>, scale: (nat, nat) -> byte)
    requires DescribesText(header, text, scale) && KeepsZero(scale)
    ensures forall c: byte :: header[c] != 0 <==> c in text
    ensures text != [] ==> HasWeight(header)
  {
    forall c: byte
      ensures header[c] != 0 <==> c in text
    {
      CountedIsPresent(text, c);
    }
    if text != [] {
      assert text[0] in text;
    }
  }

  ghost predicate Monotone(scale: (nat, nat) -> byte) {
    forall a: nat, b: nat, max: nat :: a <= b <= max ==> scale(a, max) <= scale(b, max)
  }

  lemma ExactScaleIsMonotone()
    ensures Monotone(ExactScale)
  {
    forall a: nat, b: nat, max: nat | a <= b <= max
      ensures ExactScale(a, max) <= ExactScale(b, max)
    {
      if 0 < a {
        DivMonotone(a * 255, b * 255, max);
      }
    }
  }

  lemma DivMonotone(x: nat, y: nat, max: nat)
    requires x <= y && max > 0
    ensures x / max <= y / max
  {
    var p, q := x / max, y / max;
    assert p * max <= x && y < q * max + max;
    assert p >= q + 1 ==> p * max >= (q + 1) * max;
  }

  /** Symbols that scale to zero and occur weigh exactly one, all others what they scale to; and a
      more frequent symbol never weighs less. */
  lemma HeaderFollowsCounts(header: Header, text: seq<byte>, scale: (nat, nat) -> byte, x: byte, y: byte)
    requires DescribesText(header, text, scale) && KeepsZero(scale) && Monotone(scale)
    ensures header[x] == if x in text && scale(Count(text, x), Largest(text)) == 0 then 1 else scale(Count(text, x), Largest(text))
    ensures Count(text, x) <= Count(text, y) ==> header[x] <= header[y]
  {
    LargestIsMaximum(text);
    CountedIsPresent(text, x);
    CountedIsPresent(text, y);
  }

  ghost function HeaderOf(text: seq<byte>, scale: (nat, nat) -> byte): (h: Header)
    ensures DescribesText(h, text, scale)
  {
    var h: seq<byte> := seq(256, (c: int) requires 0 <= c < 256 => HeaderEntry(text, scale, c));
    h
  }

  // ---------------------------------------------------------------- compress and decompress

  ghost function Compressed(text: seq<byte>, pick: seq<Node> -> nat, scale: (nat, nat) -> byte): CodecResult
    requires PicksMinimum(pick) && KeepsZero(scale)
  {
    if |text| >= UINT32 then Error(InvalidArgument)
    else if text == [] then Undefined
    else
      var header := HeaderOf(text, scale);
      HeaderSymbols(header, text, scale);
      Ok(header + LengthBytes(|text|) + Pack(Concat(Codes(Tree(header, pick)), text)))
  }

  method Compress(text: seq<byte>, pick: seq<Node> -> nat, scale: (nat, nat) -> byte) returns (r: CodecResult)
    requires PicksMinimum(pick) && KeepsZero(scale)
    ensures r == Compressed(text, pick, scale)
  {
    if |text| > UINT32 - 1 {
      return Error(InvalidArgument);
    }
    if |text| == 0 {
      return Undefined;
    }
    var header := CalcFrequencies(text, scale);
    assert header == HeaderOf(text, scale);
    HeaderSymbols(header, text, scale);
    var compressed := AppendLength(header, |text|);
    var root := BuildTree(header, pick);
    var mappings := new seq<bool>[256](i => []);
    assert mappings[..] == NoCodes();
    GenerateMapping(root, [], mappings);
    compressed := Convert(text, mappings[..], compressed);
    return Ok(compressed);
  }

  ghost function Decompressed(compressed: seq<byte>, pick: seq<Node> -> nat): CodecResult
    requires PicksMinimum(pick)
  {
    if |compressed| < PREFIX then Error(InvalidArgument)
    else if !HasWeight(compressed[..256]) then Undefined
    else
      match Decoded(Tree(compressed[..256], pick), compressed[PREFIX..], LengthOf(compressed[256..PREFIX]))
      case Some(text) => Ok(text)
      case None => Error(InvalidArgument)
  }

  method Decompress(compressed: seq<byte>, pick: seq<Node> -> nat) returns (r: CodecResult)
    requires PicksMinimum(pick)
    ensures r == Decompressed(compressed, pick)
  {
    if |compressed| < PREFIX {
      return Error(InvalidArgument);
    }
    var header: Header := compressed[..256];
    if !(exists i :: 0 <= i < 256 && header[i] != 0) {
      return Undefined;
    }
    var root := BuildTree(header, pick);
    var len := ReadLength(compressed[256..PREFIX]);
    var decompressed := new byte[len](i => 0);
    var err := GetChar(compressed[PREFIX..], root, len, decompressed);
    return if err == Success then Ok(decompressed[..]) else Error(err);
  }

  // ---------------------------------------------------------------- the round trip

  ghost function CodeBits(text: seq<byte>, pick: seq<Node> -> nat, scale: (nat, nat) -> byte): nat
    requires PicksMinimum(pick) && KeepsZero(scale) && text != []
  {
    HeaderSymbols(HeaderOf(text, scale), text, scale);
    |Concat(Codes(Tree(HeaderOf(text, scale), pick)), text)|
  }

  /** For every non-empty text that compress accepts, decompressing gives the text back exactly
      when its codes end within 2^32 bytes; otherwise decompress reports an error. */
  lemma RoundTrip(text: seq<byte>, pick: seq<Node> -> nat, scale: (nat, nat) -> byte)
    requires PicksMinimum(pick) && KeepsZero(scale) && 0 < |text| < UINT32
    ensures Compressed(text, pick, scale).Ok?
    ensures Decompressed(Compressed(text, pick, scale).bytes, pick)
         == if CodeBits(text, pick, scale) / 8 < UINT32 then Ok(text) else Error(InvalidArgument)
  {
    var header := HeaderOf(text, scale);
    HeaderSymbols(header, text, scale);
    var t := Tree(header, pick);
    TreeSymbols(header, pick);
    var payload := Pack(Concat(Codes(t), text));
    var c := Compressed(text, pick, scale).bytes;
    assert c[..256] == header && c[256..PREFIX] == LengthBytes(|text|) && c[PREFIX..] == payload;
    LengthRoundTrip(|text|);
    DecodedOfPacked(t, text);
  }

  lemma {:induction false} ConcatBound(t: Node, text: seq<byte>, bound: nat)
    requires OneLeafEach(t) && forall c: byte :: Has(t, c) ==> |CodeOf(t, c)| <= bound
    ensures |Concat(Codes(t), text)| <= bound * |text|
  {
    if text != [] {
      CodesAt(t, text[0]);
      ConcatBound(t, text[1..], bound);
      assert bound * |text| == bound + bound * |text[1..]|;
    }
  }

  /** Up to 1561806289 bytes the 32-bit byte index cannot wrap, so every text comes back. */
  lemma SafeRoundTrip(text: seq<byte>, pick: seq<Node> -> nat, scale: (nat, nat) -> byte)
    requires PicksMinimum(pick) && KeepsZero(scale) && 0 < |text| <= SAFE_LENGTH
    ensures CodeBits(text, pick, scale) / 8 < UINT32
    ensures Compressed(text, pick, scale).Ok?
    ensures Decompressed(Compressed(text, pick, scale).bytes, pick) == Ok(text)
  {
    var header := HeaderOf(text, scale);
    HeaderSymbols(header, text, scale);
    TreeSymbols(header, pick);
    ConcatBound(Tree(header, pick), text, MAX_CODE_BITS);
    RoundTrip(text, pick, scale);
  }

  /** Whatever decompress accepts, from any input: the text has the announced length, its codes
      end in the last byte of the payload, and the payload starts with them (of a payload of
      exactly 2^32 bytes: read in a circle). */
  lemma AcceptedInput(compressed: seq<byte>, pick: seq<Node> -> nat)
    requires PicksMinimum(pick) && Decompressed(compressed, pick).Ok?
    ensures PREFIX < |compressed| <= PREFIX + UINT32
    ensures var text, payload := Decompressed(compressed, pick).bytes, compressed[PREFIX..];
      var bits := Concat(Codes(Tree(compressed[..256], pick)), text);
      && |text| == LengthOf(compressed[256..PREFIX]) && |bits| / 8 % UINT32 == |payload| - 1
      && ReadFrom(bits, payload, 0) && (|payload| < UINT32 ==> bits <= Bits(payload))
  {
    TreeSymbols(compressed[..256], pick);
    DecodedIsEncoded(Tree(compressed[..256], pick), compressed[PREFIX..], LengthOf(compressed[256..PREFIX]));
  }

  /** What decompress refuses without looking at any code, and what compress refuses: inputs
      shorter than the header and the length, and texts whose length has no four bytes. */
  lemma Refused(bytes: seq<byte>, pick: seq<Node> -> nat, scale: (nat, nat) -> byte)
    requires PicksMinimum(pick) && KeepsZero(scale)
    ensures |bytes| < 260 ==> Decompressed(bytes, pick) == Error(InvalidArgument)
    ensures |bytes| == 260 && HasWeight(bytes[..256]) ==> Decompressed(bytes, pick) == Error(InvalidArgument)
    ensures Compressed(bytes, pick, scale) == Error(InvalidArgument) <==> |bytes| >= UINT32
  {
    if |bytes| == 260 && HasWeight(bytes[..256]) {
      NeverAccepted(Tree(bytes[..256], pick), bytes[260..], LengthOf(bytes[256..260]));
    }
  }

  // ---------------------------------------------------------------- one text in full

  lemma CountsOfAab(text: seq<byte>, c: byte)
    requires text == [97, 97, 98]
    ensures Count(text, c) == (if c == 97 then 2 else if c == 98 then 1 else 0) && Largest(text) == 2
  {
    assert text[..2] == [97, 97] && [97, 97][..1] == [97] && [97][..0] == [];
    assert Count([97], c) == Count([], c) + if c == 97 then 1 else 0;
    assert Count([97, 97], c) == Count([97], c) + if c == 97 then 1 else 0;
    assert Count(text, c) == Count([97, 97], c) + if c == 98 then 1 else 0;
    assert Count([97], 97) == 1 && Count([97, 97], 97) == 2;
    assert Count([97], 98) == 0 && Count([97, 97], 98) == 0 && Count(text, 98) == 1;
  }

  lemma HeaderOfAab(text: seq<byte>, header: Header, c: byte)
    requires text == [97, 97, 98] && DescribesText(header, text, ExactScale)
    ensures header[c] == if c == 97 then 255 else if c == 98 then 127 else 0
  {
    CountsOfAab(text, c);
    assert header[c] == HeaderEntry(text, ExactScale, c);
  }

  lemma PackThree(bits: seq<bool>)
    requires bits == [false, false, true]
    ensures Pack(bits) == [0x20]
  {
    var padded := bits + Zeros(5);
    assert padded == [false, false, true, false, false, false, false, false];
    assert padded[..7] == [false, false, true, false, false, false, false];
    assert FromBits(padded[..3]) == 1 by {
      assert padded[..3] == [false, false, true] && padded[..3][..2] == [false, false] && [false, false][..1] == [false];
      assert [false][..0] == [];
    }
    assert forall k :: 3 <= k < 8 ==> padded[..k + 1][..k] == padded[..k];
    assert FromBits(padded[..4]) == 2 && FromBits(padded[..5]) == 4 && FromBits(padded[..6]) == 8;
    assert FromBits(padded[..7]) == 16 && padded[..8] == padded;
  }

  lemma CodesOfAab(t: Node, text: seq<byte>)
    requires text == [97, 97, 98] && OneLeafEach(t) && Has(t, 97) && Has(t, 98)
    requires CodeOf(t, 97) == [false] && CodeOf(t, 98) == [true]
    ensures Concat(Codes(t), text) == [false, false, true]
  {
    CodesAt(t, 97);
    CodesAt(t, 98);
    assert text[1..] == [97, 98] && [97, 98][1..] == [98] && [98][1..] == [];
    assert Concat(Codes(t), [98]) == [true] + [];
    assert Concat(Codes(t), [97, 98]) == [false] + [true];
  }

  /** The text "aab", scaled exactly: the rarer b is 1 and a is 0, so the payload is 0x20 whatever
      the priority queue. */
  lemma CompressedAab(text: seq<byte>, pick: seq<Node> -> nat)
    requires PicksMinimum(pick) && text == [97, 97, 98]
    ensures KeepsZero(ExactScale)
    ensures Compressed(text, pick, ExactScale) == Ok(HeaderOf(text, ExactScale) + [0, 0, 0, 3] + [0x20])
  {
    ExactScaleKeepsZero();
    var header := HeaderOf(text, ExactScale);
    forall c: byte
      ensures header[c] == if c == 97 then 255 else if c == 98 then 127 else 0
    {
      HeaderOfAab(text, header, c);
    }
    TwoSymbolCodes(header, pick, 98, 97);
    TreeSymbols(header, pick);
    CodesOfAab(Tree(header, pick), text);
    PackThree(Concat(Codes(Tree(header, pick)), text));
  }
}
