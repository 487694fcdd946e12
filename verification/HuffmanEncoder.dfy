/** The `convert` loop of both Huffman variants: code bits are OR-ed into a byte string that
    grows by zero bytes ahead of the write position. */
module HuffmanEncoder {
  import opened Bytes
  import opened HuffmanCodes
  import opened HuffmanDecoder

  /** The string holds the bits `filled`, and zeros after them. */
  ghost predicate Holds(s: seq<byte>, filled: seq<bool>) {
    |filled| <= 8 * |s| && Bits(s) == filled + Zeros(8 * |s| - |filled|)
  }

  lemma Grow(s: seq<byte>, filled: seq<bool>)
    requires Holds(s, filled)
    ensures Holds(s + [0], filled)
  {
    BitsConcat(s, [0]);
    ZeroByte();
  }

  lemma ZeroByte()
    ensures Bits([0]) == Zeros(8)
  {
    assert ToBits(0, 8) == [false, false, false, false, false, false, false, false];
    assert Bits([0]) == Bits([]) + ToBits(0, 8);
  }

  /** OR-ing a mask into the byte that holds position pos sets that one bit of the string. */
  lemma SetInString(s: seq<byte>, pos: nat)
    requires pos < 8 * |s|
    ensures SetBit(s[pos / 8], 7 - pos % 8) < 256
    ensures Bits(s[pos / 8 := SetBit(s[pos / 8], 7 - pos % 8)]) == Bits(s)[pos := true]
  {
    assert Pow2(8) == 256;
    var b, j := s[pos / 8], pos % 8;
    SetBitInBits(b, 8, j);
    var r := s[pos / 8 := SetBit(b, 7 - j)];
    forall k | 0 <= k < 8 * |s|
      ensures Bits(r)[k] == Bits(s)[pos := true][k]
    {
      BitsAt(r, k);
      BitsAt(s, k);
    }
  }

  lemma Write(s: seq<byte>, filled: seq<bool>, bit: bool)
    requires Holds(s, filled) && |filled| < 8 * |s|
    ensures var pos := |filled|;
      && SetBit(s[pos / 8], 7 - pos % 8) < 256
      && Holds(if bit then s[pos / 8 := SetBit(s[pos / 8], 7 - pos % 8)] else s, filled + [bit])
  {
    SetInString(s, |filled|);
  }

  lemma {:induction false} ConcatSnoc(m: Mapping, text: seq<byte>, c: byte)
    ensures Concat(m, text + [c]) == Concat(m, text) + m[c]
  {
    if text == [] {
      assert [c][1..] == [];
    } else {
      assert (text + [c])[1..] == text[1..] + [c];
      ConcatSnoc(m, text[1..], c);
    }
  }

  /** The two inner loops: make room for the code, then write it bit by bit. */
  method AppendCode(code: seq<bool>, index: nat, start: seq<byte>, ghost filled: seq<bool>)
    returns (result: seq<byte>)
    requires Holds(start, filled) && index == |filled| && |start| <= (index + |code|) / 8 + 1
    ensures Holds(result, filled + code) && |result| == (index + |code|) / 8 + 1
  {
    result := start;
    var len := |code|;
    while (index + len) / 8 + 1 > |result|
      invariant Holds(result, filled) && |result| <= (index + len) / 8 + 1
      decreases (index + len) / 8 + 1 - |result|
    {
      Grow(result, filled);
      result := result + [0];
    }
    ghost var now := filled;
    for i := 0 to len
      invariant |result| == (index + len) / 8 + 1
      invariant now == filled + code[..i] && Holds(result, now)
    {
      Write(result, now, code[i]);
      if code[i] {
        result := result[(index + i) / 8 := SetBit(result[(index + i) / 8], 7 - (index + i) % 8)];
      }
      now := now + [code[i]];
    }
  }

  /** Appends the packed codes of the text; the bytes already there stay as they are. */
  method Convert(text: seq<byte>, mappings: Mapping, start: seq<byte>) returns (result: seq<byte>)
    ensures result == if text == [] then start else start + Pack(Concat(mappings, text))
  {
    result := start;
    var index := 8 * |start|;
    ghost var filled := Bits(start);
    for k := 0 to |text|
      invariant filled == Bits(start) + Concat(mappings, text[..k])
      invariant index == |filled| && Holds(result, filled)
      invariant if k == 0 then result == start else |result| == index / 8 + 1
    {
      var code := mappings[text[k]];
      result := AppendCode(code, index, result, filled);
      filled := filled + code;
      index := index + |code|;
      assert text[..k + 1] == text[..k] + [text[k]];
      ConcatSnoc(mappings, text[..k], text[k]);
    }
    assert text[..|text|] == text;
    if text != [] {
      ConvertedBits(start, Concat(mappings, text));
      HoldsUnique(result, start + Pack(Concat(mappings, text)), filled);
    }
  }

  /** What convert leaves: the header bytes unchanged, then as many bytes as the codes need plus
      the one the acceptance test counts on, starting with the codes and padded with zeros. */
  lemma ConvertedBits(start: seq<byte>, bits: seq<bool>)
    ensures var r := start + Pack(bits);
      && r[..|start|] == start && |r| == |start| + |bits| / 8 + 1
      && Holds(r, Bits(start) + bits)
  {
    var r, base, z := start + Pack(bits), Bits(start), Zeros(8 * (|bits| / 8 + 1) - |bits|);
    BitsConcat(start, Pack(bits));
    BitsOfPack(bits);
    assert 8 * |r| - |base + bits| == |z|;
    assert base + (bits + z) == (base + bits) + z;
  }

  lemma HoldsUnique(s: seq<byte>, t: seq<byte>, filled: seq<bool>)
    requires Holds(s, filled) && Holds(t, filled) && |s| == |t|
    ensures s == t
  {
    BitsInjective(s, t);
  }
}
