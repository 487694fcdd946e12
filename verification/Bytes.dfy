/** Bytes and the bit view of a byte string: bit k of a string is bit k % 8, counted from
    the most significant end, of byte k / 8. */
module Bytes {

  type byte = x: int | 0 <= x < 256

  const UINT32: nat := 0x1_0000_0000

  function Pow2(n: nat): (p: nat)
    ensures p >= 1
  {
    if n == 0 then 1 else 2 * Pow2(n - 1)
  }

  /** `b & (1 << k)` as a truth value. */
  predicate HasBit(b: nat, k: nat) {
    b / Pow2(k) % 2 == 1
  }

  /** `b | (1 << k)`: a clear bit is added, a set bit stays. */
  function SetBit(b: nat, k: nat): nat {
    if HasBit(b, k) then b else b + Pow2(k)
  }

  /** The n low bits of b, most significant first. */
  function ToBits(b: nat, n: nat): (bits: seq<bool>)
    ensures |bits| == n
  {
    if n == 0 then [] else ToBits(b / 2, n - 1) + [b % 2 == 1]
  }

  function FromBits(bits: seq<bool>): nat {
    if bits == [] then 0
    else 2 * FromBits(bits[..|bits| - 1]) + (if bits[|bits| - 1] then 1 else 0)
  }

  lemma {:induction false} FromBitsBound(bits: seq<bool>)
    ensures FromBits(bits) < Pow2(|bits|)
  {
    if bits != [] {
      FromBitsBound(bits[..|bits| - 1]);
    }
  }

  lemma {:induction false} ToBitsOfFromBits(bits: seq<bool>)
    ensures ToBits(FromBits(bits), |bits|) == bits
  {
    if bits != [] {
      var front := bits[..|bits| - 1];
      ToBitsOfFromBits(front);
      assert FromBits(bits) / 2 == FromBits(front);
      assert bits == front + [bits[|bits| - 1]];
    }
  }

  lemma {:induction false} FromBitsOfToBits(b: nat, n: nat)
    requires b < Pow2(n)
    ensures FromBits(ToBits(b, n)) == b
  {
    if n > 0 {
      FromBitsOfToBits(b / 2, n - 1);
      assert ToBits(b, n)[..n - 1] == ToBits(b / 2, n - 1);
    }
  }

  lemma {:induction false} HasBitHalf(b: nat, k: nat)
    requires k > 0
    ensures HasBit(b, k) == HasBit(b / 2, k - 1)
  {
    DivTwice(b, Pow2(k - 1));
  }

  lemma DivTwice(b: nat, p: nat)
    requires p >= 1
    ensures b / (2 * p) == b / 2 / p
  {
    var h := b / 2;
    var q := h / p;
    assert h == q * p + h % p;
    assert b == 2 * h + b % 2;
    assert b == q * (2 * p) + (2 * (h % p) + b % 2);
    DivUnique(b, 2 * p, q, 2 * (h % p) + b % 2);
  }

  lemma DivUnique(a: int, d: int, q: int, r: int)
    requires d > 0 && a == q * d + r && 0 <= r < d
    ensures a / d == q
  {
    var x := a / d - q;
    assert x * d == r - a % d;
    assert x >= 1 ==> x * d >= d;
    assert x <= -1 ==> x * d <= -d;
  }

  /** Position j of the bit list is the bit the mask `1 << (n - 1 - j)` selects. */
  lemma {:induction false} ToBitsIsMask(b: nat, n: nat, j: nat)
    requires j < n
    ensures ToBits(b, n)[j] == HasBit(b, n - 1 - j)
  {
    if j < n - 1 {
      ToBitsIsMask(b / 2, n - 1, j);
      HasBitHalf(b, n - 1 - j);
    }
  }

  lemma SetBitHalf(b: nat, k: nat)
    requires k > 0
    ensures SetBit(b, k) / 2 == SetBit(b / 2, k - 1)
    ensures SetBit(b, k) % 2 == b % 2
  {
    HasBitHalf(b, k);
    var p := Pow2(k - 1);
    assert Pow2(k) == 2 * p;
    assert (b + 2 * p) / 2 == b / 2 + p;
  }

  /** OR-ing in a mask changes exactly one position of the bit list. */
  lemma {:induction false} SetBitInBits(b: nat, n: nat, j: nat)
    requires j < n && b < Pow2(n)
    ensures SetBit(b, n - 1 - j) < Pow2(n)
    ensures ToBits(SetBit(b, n - 1 - j), n) == ToBits(b, n)[j := true]
  {
    var k := n - 1 - j;
    assert b / 2 < Pow2(n - 1);
    if k == 0 {
      assert Pow2(0) == 1;
      assert SetBit(b, 0) / 2 == b / 2;
      assert ToBits(SetBit(b, k), n) == ToBits(b / 2, n - 1) + [true];
    } else {
      SetBitInBits(b / 2, n - 1, j);
      SetBitHalf(b, k);
      assert ToBits(SetBit(b, k), n) == ToBits(b / 2, n - 1)[j := true] + [b % 2 == 1];
    }
  }

  /** The bit list of a byte string. */
  function Bits(s: seq<byte>): (bits: seq<bool>)
    ensures |bits| == 8 * |s|
  {
    if s == [] then [] else Bits(s[..|s| - 1]) + ToBits(s[|s| - 1], 8)
  }

  lemma {:induction false} BitsAt(s: seq<byte>, k: nat)
    requires k < 8 * |s|
    ensures Bits(s)[k] == ToBits(s[k / 8], 8)[k % 8]
  {
    if k < 8 * (|s| - 1) {
      BitsAt(s[..|s| - 1], k);
    }
  }

  lemma BitsAtMask(s: seq<byte>, k: nat)
    requires k < 8 * |s|
    ensures Bits(s)[k] == HasBit(s[k / 8], 7 - k % 8)
  {
    BitsAt(s, k);
    var b, j := s[k / 8], k % 8;
    ToBitsIsMask(b, 8, j);
  }

  lemma {:induction false} BitsConcat(s: seq<byte>, t: seq<byte>)
    ensures Bits(s + t) == Bits(s) + Bits(t)
  {
    if t == [] {
      assert s + t == s;
    } else {
      var front := t[..|t| - 1];
      BitsConcat(s, front);
      assert (s + t)[..|s + t| - 1] == s + front;
      var last := ToBits(t[|t| - 1], 8);
      assert Bits(s + t) == Bits(s + front) + last && Bits(t) == Bits(front) + last;
      assert Bits(s) + Bits(front) + last == Bits(s) + (Bits(front) + last);
    }
  }

  lemma LastByte(s: seq<byte>)
    requires s != []
    ensures var n := |s| - 1; Bits(s)[..8 * n] == Bits(s[..n]) && FromBits(Bits(s)[8 * n..]) == s[n]
  {
    var n := |s| - 1;
    assert Bits(s)[8 * n..] == ToBits(s[n], 8);
    assert Pow2(8) == 256;
    FromBitsOfToBits(s[n], 8);
  }

  /** A byte string is determined by its bits. */
  lemma {:induction false} BitsInjective(s: seq<byte>, t: seq<byte>)
    requires Bits(s) == Bits(t)
    ensures s == t
  {
    if s != [] {
      LastByte(s);
      LastByte(t);
      BitsInjective(s[..|s| - 1], t[..|s| - 1]);
    }
  }

  function Zeros(n: nat): (z: seq<bool>)
    ensures |z| == n && forall i :: 0 <= i < n ==> !z[i]
  {
    seq(n, i => false)
  }

  /** Packs a bit list into |bits| / 8 + 1 bytes, padding with zero bits: a list that fills
      whole bytes is followed by one further zero byte. */
  function Pack(bits: seq<bool>): (s: seq<byte>)
    ensures |s| == |bits| / 8 + 1
    decreases |bits|
  {
    assert Pow2(8) == 256;
    if |bits| < 8 then
      var padded := bits + Zeros(8 - |bits|);
      FromBitsBound(padded);
      [FromBits(padded)]
    else
      FromBitsBound(bits[..8]);
      [FromBits(bits[..8])] + Pack(bits[8..])
  }

  /** Unpacking gives the packed list back, followed only by zero bits. */
  lemma {:induction false} BitsOfPack(bits: seq<bool>)
    ensures Bits(Pack(bits)) == bits + Zeros(8 * (|bits| / 8 + 1) - |bits|)
    decreases |bits|
  {
    if |bits| < 8 {
      var padded := bits + Zeros(8 - |bits|);
      ToBitsOfFromBits(padded);
      assert Bits(Pack(bits)) == [] + ToBits(FromBits(padded), 8);
    } else {
      var head := Pack(bits)[..1];
      assert Bits(head) == bits[..8] by {
        ToBitsOfFromBits(bits[..8]);
        assert Bits(head) == [] + ToBits(head[0], 8);
      }
      assert Pack(bits) == head + Pack(bits[8..]);
      BitsConcat(head, Pack(bits[8..]));
      BitsOfPack(bits[8..]);
    }
  }

  // ---------------------------------------------------------------- four-byte lengths

  function Pow256(k: nat): (p: nat)
    requires k < 4
    ensures p >= 1
  {
    if k == 0 then 1 else if k == 1 then 0x100 else if k == 2 then 0x1_0000 else 0x100_0000
  }

  /** Byte i of the big-endian form: `(n >> (8 * (3 - i))) & 0xFF`. */
  function LengthByte(n: nat, i: nat): byte
    requires i < 4
  {
    n / Pow256(3 - i) % 256
  }

  function LengthBytes(n: nat): (s: seq<byte>)
    ensures |s| == 4
  {
    [LengthByte(n, 0), LengthByte(n, 1), LengthByte(n, 2), LengthByte(n, 3)]
  }

  method AppendLength(start: seq<byte>, n: nat) returns (r: seq<byte>)
    ensures r == start + LengthBytes(n)
  {
    r := start;
    for i := 0 to 4
      invariant r == start + LengthBytes(n)[..i]
    {
      r := r + [LengthByte(n, i)];
    }
  }

  /** The big-endian value of up to four bytes. */
  function LengthOf(s: seq<byte>): (n: nat)
    requires |s| <= 4
    ensures n < if |s| == 4 then UINT32 else Pow256(|s|)
  {
    if s == [] then 0 else LengthOf(s[..|s| - 1]) * 0x100 + s[|s| - 1]
  }

  /** The loop that multiplies by 256 and adds, in 32-bit arithmetic. */
  method ReadLength(s: seq<byte>) returns (len: nat)
    requires |s| == 4
    ensures len == LengthOf(s)
  {
    len := 0;
    for i := 0 to 4
      invariant len == LengthOf(s[..i])
    {
      assert s[..i + 1][..i] == s[..i];
      len := len * 0x100 % UINT32;
      len := (len + s[i]) % UINT32;
    }
    assert s[..4] == s;
  }

  lemma LengthRoundTrip(n: nat)
    requires n < UINT32
    ensures LengthOf(LengthBytes(n)) == n
  {
    var s := LengthBytes(n);
    var a, b, c := n / 0x100, n / 0x1_0000, n / 0x100_0000;
    assert b == a / 0x100 && c == b / 0x100;
    assert s[..1][..0] == [] && LengthOf(s[..1]) == c;
    assert s[..2][..1] == s[..1] && LengthOf(s[..2]) == b;
    assert s[..3][..2] == s[..2] && LengthOf(s[..3]) == a;
  }
}
