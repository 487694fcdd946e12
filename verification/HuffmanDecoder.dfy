/** HuffmanBase::getChar, a tree walk over a byte and bit cursor, against a decoder on plain
    lists of bits. The cursor's byte index has 32 bits and wraps. */
module HuffmanDecoder {
  import opened Bytes
  import opened ClockErrors
  import opened HuffmanTree
  import opened HuffmanCodes

  // ---------------------------------------------------------------- the cursor

  /** Reading index 0 of an empty string yields the terminating zero. */
  function Readable(compressed: seq<byte>): (s: seq<byte>)
    ensures s != []
  {
    if compressed == [] then [0] else compressed
  }

  /** The end flag is raised when the byte index reaches the length; a 32-bit index never
      reaches a length of 2^32 or more. */
  predicate AtEnd(s: seq<byte>, pos: nat) {
    |s| < UINT32 && pos / 8 >= |s|
  }

  function ByteAt(s: seq<byte>, pos: nat): byte
    requires s != [] && !AtEnd(s, pos)
  {
    s[pos / 8 % UINT32]
  }

  /** The walk of one symbol from bit position pos: the leaf found and the position after it. */
  ghost function Walk(t: Node, s: seq<byte>, pos: nat): Option<(byte, nat)>
    requires s != []
  {
    match t
    case Leaf(_, c) => Some((c, pos))
    case Branch(_, l, r) =>
      if AtEnd(s, pos) then None
      else Walk(if HasBit(ByteAt(s, pos), 7 - pos % 8) then l else r, s, pos + 1)
  }

  ghost function WalkText(t: Node, s: seq<byte>, pos: nat, n: nat): Option<(seq<byte>, nat)>
    requires s != []
    decreases n
  {
    if n == 0 then Some(([], pos))
    else
      match Walk(t, s, pos)
      case None => None
      case Some((c, next)) => Prefixed([c], WalkText(t, s, next, n - 1))
  }

  ghost function Prefixed(done: seq<byte>, d: Option<(seq<byte>, nat)>): Option<(seq<byte>, nat)> {
    match d
    case None => None
    case Some((text, p)) => Some((done + text, p))
  }

  /** What getChar yields: the decoded text, if the cursor ends in the last byte. */
  ghost function Decoded(t: Node, compressed: seq<byte>, length: nat): Option<seq<byte>> {
    match WalkText(t, Readable(compressed), 0, length)
    case None => None
    case Some((text, pos)) => if pos / 8 % UINT32 == |compressed| - 1 then Some(text) else None
  }

  /** The cursor variables at bit position pos. */
  ghost predicate Cursor(compressed: seq<byte>, pos: nat,
                         bitIndex: nat, byteIndex: nat, currentChar: byte, endReached: bool) {
    var s := Readable(compressed);
    && bitIndex == pos % 8 && byteIndex == pos / 8 % UINT32
    && endReached == AtEnd(s, pos)
    && (!endReached ==> currentChar == ByteAt(s, pos))
  }

  lemma NextBit(compressed: seq<byte>, pos: nat)
    requires pos % 8 < 7 && !AtEnd(Readable(compressed), pos)
    ensures !AtEnd(Readable(compressed), pos + 1)
    ensures ByteAt(Readable(compressed), pos + 1) == ByteAt(Readable(compressed), pos)
    ensures (pos + 1) / 8 == pos / 8 && (pos + 1) % 8 == pos % 8 + 1
  {
  }

  lemma NextByte(compressed: seq<byte>, pos: nat)
    requires pos % 8 == 7 && !AtEnd(Readable(compressed), pos)
    ensures (pos + 1) / 8 % UINT32 == (pos / 8 % UINT32 + 1) % UINT32 && (pos + 1) % 8 == 0
    ensures var i := (pos + 1) / 8 % UINT32; AtEnd(Readable(compressed), pos + 1) <==> i >= |compressed|
  {
    assert (pos + 1) / 8 == pos / 8 + 1;
  }

  /** After decoding `done`, the walk of the whole text goes on at bit position pos. */
  ghost predicate Progress(root: Node, s: seq<byte>, length: nat, done: seq<byte>, pos: nat)
    requires s != []
  {
    && |done| <= length
    && WalkText(root, s, 0, length) == Prefixed(done, WalkText(root, s, pos, length - |done|))
  }

  lemma ProgressStarts(root: Node, s: seq<byte>, length: nat)
    requires s != []
    ensures Progress(root, s, length, [], 0)
  {
    var d := WalkText(root, s, 0, length);
    if d.Some? {
      assert [] + d.value.0 == d.value.0;
    }
  }

  lemma ProgressStep(root: Node, s: seq<byte>, length: nat, done: seq<byte>, pos: nat)
    requires s != [] && Progress(root, s, length, done, pos) && |done| < length
    requires Walk(root, s, pos).Some?
    ensures var (c, next) := Walk(root, s, pos).value; Progress(root, s, length, done + [c], next)
  {
    var (c, next) := Walk(root, s, pos).value;
    var d := WalkText(root, s, next, length - |done| - 1);
    if d.Some? {
      assert done + ([c] + d.value.0) == done + [c] + d.value.0;
    }
  }

  lemma ProgressStops(root: Node, compressed: seq<byte>, length: nat, done: seq<byte>, pos: nat)
    requires Progress(root, Readable(compressed), length, done, pos) && |done| < length
    requires Walk(root, Readable(compressed), pos) == None
    ensures Decoded(root, compressed, length) == None
  {
  }

  lemma ProgressEnds(root: Node, compressed: seq<byte>, done: seq<byte>, pos: nat)
    requires Progress(root, Readable(compressed), |done|, done, pos)
    ensures Decoded(root, compressed, |done|)
         == if pos / 8 % UINT32 == |compressed| - 1 then Some(done) else None
  {
    assert done + [] == done;
  }

  method GetChar(compressed: seq<byte>, root: Node, length: nat, result: array<byte>) returns (err: ClockError)
    requires length < UINT32 && result.Length == length
    modifies result
    ensures err == if Decoded(root, compressed, length).Some? then Success else InvalidArgument
    ensures err == Success ==> result[..] == Decoded(root, compressed, length).value
  {
    ghost var s := Readable(compressed);
    ghost var pos := 0;
    var bitIndex: nat := 0;
    var byteIndex: nat := 0;
    var currentChar: byte := if |compressed| == 0 then 0 else compressed[0];
    var endReached := false;
    ProgressStarts(root, s, length);
    ghost var done: seq<byte> := [];
    for i := 0 to length
      invariant Cursor(compressed, pos, bitIndex, byteIndex, currentChar, endReached)
      invariant result[..i] == done && Progress(root, s, length, done, pos)
    {
      ghost var start := pos;
      var node := root;
      while node.Branch?
        invariant Cursor(compressed, pos, bitIndex, byteIndex, currentChar, endReached)
        invariant result[..i] == done && Walk(root, s, start) == Walk(node, s, pos)
        decreases node
      {
        if endReached {
          ProgressStops(root, compressed, length, done, start);
          return InvalidArgument;
        }
        node := if HasBit(currentChar, 7 - bitIndex) then node.left else node.right;
        bitIndex := bitIndex + 1;
        if bitIndex == 8 {
          NextByte(compressed, pos);
          bitIndex := 0;
          byteIndex := (byteIndex + 1) % UINT32;
          if byteIndex >= |compressed| {
            endReached := true;
          } else {
            currentChar := compressed[byteIndex];
          }
        } else {
          NextBit(compressed, pos);
        }
        pos := pos + 1;
      }
      ProgressStep(root, s, length, done, start);
      result[i] := node.c;
      done := done + [node.c];
    }
    assert result[..length] == result[..];
    ProgressEnds(root, compressed, result[..], pos);
    return if byteIndex == |compressed| - 1 then Success else InvalidArgument;
  }

  // ---------------------------------------------------------------- decoding a list of bits

  /** The symbol that starts at position pos of a bit list, and the position after it. */
  ghost function DecodeSymbol(t: Node, bits: seq<bool>, pos: nat): (d: Option<(byte, nat)>)
    requires pos <= |bits|
    ensures d.Some? ==> pos <= d.value.1 <= |bits|
  {
    match t
    case Leaf(_, c) => Some((c, pos))
    case Branch(_, l, r) =>
      if pos == |bits| then None else DecodeSymbol(if bits[pos] then l else r, bits, pos + 1)
  }

  ghost function DecodeText(t: Node, bits: seq<bool>, pos: nat, n: nat): (d: Option<(seq<byte>, nat)>)
    requires pos <= |bits|
    ensures d.Some? ==> pos <= d.value.1 <= |bits|
    decreases n
  {
    if n == 0 then Some(([], pos))
    else
      match DecodeSymbol(t, bits, pos)
      case None => None
      case Some((c, next)) => Prefixed([c], DecodeText(t, bits, next, n - 1))
  }

  /** The concatenated code words of a text. */
  ghost function Concat(m: Mapping, text: seq<byte>): seq<bool> {
    if text == [] then [] else m[text[0]] + Concat(m, text[1..])
  }

  ghost predicate AllHave(t: Node, text: seq<byte>) {
    forall i :: 0 <= i < |text| ==> Has(t, text[i])
  }

  /** The list `part` stands at position pos. */
  ghost predicate Stands(part: seq<bool>, bits: seq<bool>, pos: nat) {
    pos + |part| <= |bits| && bits[pos..pos + |part|] == part
  }

  lemma StandsApart(a: seq<bool>, b: seq<bool>, bits: seq<bool>, pos: nat)
    ensures Stands(a + b, bits, pos) <==> Stands(a, bits, pos) && Stands(b, bits, pos + |a|)
  {
    if pos + |a + b| <= |bits| {
      var whole, mid := bits[pos..pos + |a + b|], pos + |a|;
      assert whole == bits[pos..mid] + bits[mid..mid + |b|];
      assert whole[..|a|] == bits[pos..mid] && whole[|a|..] == bits[mid..mid + |b|];
      assert (a + b)[..|a|] == a && (a + b)[|a|..] == b;
    }
  }

  lemma {:induction false} DecodeOfCode(t: Node, c: byte, bits: seq<bool>, pos: nat)
    requires Has(t, c) && Stands(CodeOf(t, c), bits, pos)
    ensures DecodeSymbol(t, bits, pos) == Some((c, pos + |CodeOf(t, c)|))
  {
    if t.Branch? {
      var goLeft := Has(t.left, c);
      var sub := if goLeft then t.left else t.right;
      StandsApart([goLeft], CodeOf(sub, c), bits, pos);
      assert bits[pos] == bits[pos..pos + 1][0];
      DecodeOfCode(sub, c, bits, pos + 1);
    }
  }

  /** Decoding undoes encoding, whatever follows. */
  lemma {:induction false} DecodeOfConcat(t: Node, text: seq<byte>, bits: seq<bool>, pos: nat)
    requires OneLeafEach(t) && AllHave(t, text) && Stands(Concat(Codes(t), text), bits, pos)
    ensures DecodeText(t, bits, pos, |text|) == Some((text, pos + |Concat(Codes(t), text)|))
    decreases |text|
  {
    if text != [] {
      var c, tail := text[0], Concat(Codes(t), text[1..]);
      CodesAt(t, c);
      StandsApart(CodeOf(t, c), tail, bits, pos);
      DecodeOfCode(t, c, bits, pos);
      DecodeOfConcat(t, text[1..], bits, pos + |CodeOf(t, c)|);
      assert [c] + text[1..] == text;
    }
  }

  lemma {:induction false} CodeOfDecode(t: Node, bits: seq<bool>, pos: nat)
    requires pos <= |bits| && OneLeafEach(t) && DecodeSymbol(t, bits, pos).Some?
    ensures var (c, next) := DecodeSymbol(t, bits, pos).value;
      Has(t, c) && Stands(CodeOf(t, c), bits, pos) && next == pos + |CodeOf(t, c)|
  {
    if t.Branch? {
      ChildrenApart(t);
      var sub := if bits[pos] then t.left else t.right;
      CodeOfDecode(sub, bits, pos + 1);
      var (c, _) := DecodeSymbol(sub, bits, pos + 1).value;
      StandsApart([bits[pos]], CodeOf(sub, c), bits, pos);
    }
  }

  /** Encoding undoes decoding: what was consumed is the concatenation of the decoded codes. */
  lemma {:induction false} ConcatOfDecode(t: Node, bits: seq<bool>, pos: nat, n: nat)
    requires pos <= |bits| && OneLeafEach(t) && DecodeText(t, bits, pos, n).Some?
    ensures var (text, end) := DecodeText(t, bits, pos, n).value;
      |text| == n && AllHave(t, text) && bits[pos..end] == Concat(Codes(t), text)
    decreases n
  {
    if n > 0 {
      CodeOfDecode(t, bits, pos);
      var (c, next) := DecodeSymbol(t, bits, pos).value;
      ConcatOfDecode(t, bits, next, n - 1);
      var (rest, end) := DecodeText(t, bits, next, n - 1).value;
      CodesAt(t, c);
      assert ([c] + rest)[1..] == rest;
      assert bits[pos..end] == bits[pos..next] + bits[next..end];
    }
  }

  // ---------------------------------------------------------------- cursor against list

  lemma CursorBit(s: seq<byte>, pos: nat)
    requires pos < 8 * |s| && |s| <= UINT32
    ensures !AtEnd(s, pos) && HasBit(ByteAt(s, pos), 7 - pos % 8) == Bits(s)[pos]
  {
    ModSmall(pos, 8 * |s|);
    CursorReads(s, pos);
  }

  lemma {:induction false} WalkIsDecode(t: Node, s: seq<byte>, pos: nat)
    requires s != [] && pos <= 8 * |s| && |s| <= UINT32
    ensures var d := DecodeSymbol(t, Bits(s), pos); d.Some? || |s| < UINT32 ==> Walk(t, s, pos) == d
  {
    if t.Branch? && pos < 8 * |s| {
      CursorBit(s, pos);
      WalkIsDecode(if Bits(s)[pos] then t.left else t.right, s, pos + 1);
    }
  }

  lemma {:induction false} WalkTextIsDecode(t: Node, s: seq<byte>, pos: nat, n: nat)
    requires s != [] && pos <= 8 * |s| && |s| <= UINT32
    ensures var d := DecodeText(t, Bits(s), pos, n); d.Some? || |s| < UINT32 ==> WalkText(t, s, pos, n) == d
    decreases n
  {
    if n > 0 {
      WalkIsDecode(t, s, pos);
      var d := DecodeSymbol(t, Bits(s), pos);
      if d.Some? {
        WalkTextIsDecode(t, s, d.value.1, n - 1);
      }
    }
  }

  /** What the acceptance test makes of a finished decoding. */
  ghost function Accepted(d: Option<(seq<byte>, nat)>, size: nat): Option<seq<byte>> {
    match d
    case None => None
    case Some((text, n)) => if n / 8 == size - 1 then Some(text) else None
  }

  lemma AcceptedByCursor(t: Node, payload: seq<byte>, length: nat, d: Option<(seq<byte>, nat)>)
    requires payload != [] && WalkText(t, payload, 0, length) == d
    requires d.Some? ==> d.value.1 / 8 < UINT32
    ensures Decoded(t, payload, length) == Accepted(d, |payload|)
  {
    if d.Some? {
      assert d.value.1 / 8 % UINT32 == d.value.1 / 8;
    }
  }

  /** On any tree and any non-empty payload below 2^32 bytes, getChar succeeds exactly when the
      list decoder yields `length` symbols from n bits with n / 8 == |payload| - 1, and then the
      results agree. */
  lemma DecodedExactly(t: Node, payload: seq<byte>, length: nat)
    requires 0 < |payload| < UINT32
    ensures Decoded(t, payload, length) == Accepted(DecodeText(t, Bits(payload), 0, length), |payload|)
  {
    WalkTextIsDecode(t, payload, 0, length);
    AcceptedByCursor(t, payload, length, DecodeText(t, Bits(payload), 0, length));
  }

  /** A longer payload than 2^32 bytes is never accepted, and neither is an empty one. */
  lemma NeverAccepted(t: Node, payload: seq<byte>, length: nat)
    requires |payload| == 0 || |payload| > UINT32
    ensures Decoded(t, payload, length) == None
  {
  }

  /** Bit k of a payload that is read in a circle, as a 32-bit byte index does with 2^32 bytes. */
  ghost function CircularBit(s: seq<byte>, k: nat): bool
    requires s != []
  {
    Bits(s)[k % (8 * |s|)]
  }

  /** The list `part` is read from position pos on. */
  ghost predicate ReadFrom(part: seq<bool>, s: seq<byte>, pos: nat)
    requires s != []
  {
    forall k :: 0 <= k < |part| ==> part[k] == CircularBit(s, pos + k)
  }

  lemma ReadApart(a: seq<bool>, b: seq<bool>, s: seq<byte>, pos: nat)
    requires s != [] && ReadFrom(a, s, pos) && ReadFrom(b, s, pos + |a|)
    ensures ReadFrom(a + b, s, pos)
  {
    forall k | |a| <= k < |a + b|
      ensures (a + b)[k] == CircularBit(s, pos + k)
    {
      assert (a + b)[k] == b[k - |a|] && pos + k == pos + |a| + (k - |a|);
    }
  }

  lemma ModOfDiv(pos: nat, n: nat)
    requires n > 0
    ensures pos % (8 * n) / 8 == pos / 8 % n && pos % (8 * n) % 8 == pos % 8
  {
    var q, r := pos / 8 / n, pos / 8 % n;
    assert pos == 8 * (q * n + r) + pos % 8;
    assert pos == q * (8 * n) + (8 * r + pos % 8);
    DivUnique(pos, 8 * n, q, 8 * r + pos % 8);
  }

  lemma ModSmall(k: nat, n: nat)
    requires k < n
    ensures k % n == k
  {
  }

  lemma ByteRead(s: seq<byte>, pos: nat)
    requires s != [] && |s| <= UINT32 && !AtEnd(s, pos)
    ensures ByteAt(s, pos) == s[pos / 8 % |s|]
  {
    if |s| < UINT32 {
      ModSmall(pos / 8, |s|);
      ModSmall(pos / 8, UINT32);
    }
  }

  lemma CursorReads(s: seq<byte>, pos: nat)
    requires s != [] && |s| <= UINT32 && !AtEnd(s, pos)
    ensures HasBit(ByteAt(s, pos), 7 - pos % 8) == CircularBit(s, pos)
  {
    ModOfDiv(pos, |s|);
    ByteRead(s, pos);
    BitsAtMask(s, pos % (8 * |s|));
  }

  lemma {:induction false} WalkReads(t: Node, s: seq<byte>, pos: nat)
    requires s != [] && |s| <= UINT32 && OneLeafEach(t) && Walk(t, s, pos).Some?
    ensures var (c, next) := Walk(t, s, pos).value;
      Has(t, c) && next == pos + |CodeOf(t, c)| && ReadFrom(CodeOf(t, c), s, pos)
    ensures |s| < UINT32 && pos <= 8 * |s| ==> Walk(t, s, pos).value.1 <= 8 * |s|
  {
    if t.Branch? {
      ChildrenApart(t);
      CursorReads(s, pos);
      var bit := HasBit(ByteAt(s, pos), 7 - pos % 8);
      var sub := if bit then t.left else t.right;
      WalkReads(sub, s, pos + 1);
      var (c, _) := Walk(sub, s, pos + 1).value;
      ReadApart([bit], CodeOf(sub, c), s, pos);
    }
  }

  lemma {:induction false} WalkTextReads(t: Node, s: seq<byte>, pos: nat, n: nat)
    requires s != [] && |s| <= UINT32 && OneLeafEach(t) && WalkText(t, s, pos, n).Some?
    ensures var (text, end) := WalkText(t, s, pos, n).value; var bits := Concat(Codes(t), text);
      |text| == n && AllHave(t, text) && end == pos + |bits| && ReadFrom(bits, s, pos)
    ensures |s| < UINT32 && pos <= 8 * |s| ==> WalkText(t, s, pos, n).value.1 <= 8 * |s|
    decreases n
  {
    if n > 0 {
      WalkReads(t, s, pos);
      var (c, next) := Walk(t, s, pos).value;
      WalkTextReads(t, s, next, n - 1);
      var (rest, end) := WalkText(t, s, next, n - 1).value;
      CodesAt(t, c);
      assert ([c] + rest)[1..] == rest;
      ReadApart(CodeOf(t, c), Concat(Codes(t), rest), s, pos);
    }
  }

  lemma ReadIsPrefix(bits: seq<bool>, s: seq<byte>)
    requires s != [] && ReadFrom(bits, s, 0) && |bits| <= 8 * |s|
    ensures bits <= Bits(s)
  {
    forall k | 0 <= k < |bits|
      ensures bits[k] == Bits(s)[k]
    {
      ModSmall(k, 8 * |s|);
      assert bits[k] == CircularBit(s, 0 + k);
    }
  }

  /** Whatever getChar accepts, from any payload, is the text whose codes the payload starts with
      and whose last bit lies before or in the last byte. Only a payload of exactly 2^32 bytes can
      be read more than once around. */
  lemma DecodedIsEncoded(t: Node, payload: seq<byte>, length: nat)
    requires OneLeafEach(t) && Decoded(t, payload, length).Some?
    ensures 0 < |payload| <= UINT32
    ensures var text := Decoded(t, payload, length).value; var bits := Concat(Codes(t), text);
      && |text| == length && AllHave(t, text) && |bits| / 8 % UINT32 == |payload| - 1
      && ReadFrom(bits, payload, 0) && (|payload| < UINT32 ==> bits <= Bits(payload))
  {
    if |payload| == 0 || |payload| > UINT32 {
      NeverAccepted(t, payload, length);
    } else {
      WalkTextReads(t, payload, 0, length);
      if |payload| < UINT32 {
        ReadIsPrefix(Concat(Codes(t), Decoded(t, payload, length).value), payload);
      }
    }
  }

  /** Decoding the packed codes of a text: it comes back exactly when the codes end within the
      first 2^32 bytes; longer ones are refused. */
  lemma DecodedOfPacked(t: Node, text: seq<byte>)
    requires OneLeafEach(t) && AllHave(t, text)
    ensures var bits := Concat(Codes(t), text);
      Decoded(t, Pack(bits), |text|) == if |bits| / 8 < UINT32 then Some(text) else None
  {
    var bits := Concat(Codes(t), text);
    var payload := Pack(bits);
    if |payload| > UINT32 {
      NeverAccepted(t, payload, |text|);
    } else {
      BitsOfPack(bits);
      DecodeOfConcat(t, text, Bits(payload), 0);
      WalkTextIsDecode(t, payload, 0, |text|);
      AcceptedByCursor(t, payload, |text|, Some((text, |bits|)));
    }
  }
}
