/** The packet frame of both sockets: a bar, four length bytes, the contents, a bar. */
module Framing {
  import opened Bytes
  import opened ClockErrors

  const BAR: byte := 124

  /** A length byte of 128 or more overflows the signed arithmetic that reads it back. */
  const MAX_LENGTH := 0x8000_0000

  function Frame(p: seq<byte>): (f: seq<byte>)
    ensures |f| == |p| + 6 && f[0] == BAR && f[|f| - 1] == BAR
  {
    [BAR] + LengthBytes(|p|) + p + [BAR]
  }

  function Frames(ps: seq<seq<byte>>): seq<byte> {
    if ps == [] then [] else Frame(ps[0]) + Frames(ps[1..])
  }

  function Flat(chunks: seq<seq<byte>>): seq<byte> {
    if chunks == [] then [] else chunks[0] + Flat(chunks[1..])
  }

  /** The buffer that writePacket fills and sends. */
  method WritePacket(str: seq<byte>) returns (buf: array<byte>)
    ensures buf[..] == Frame(str)
  {
    var length := |str|;
    buf := new byte[length + 6](i => 0);
    buf[0] := BAR;
    buf[1] := length / 256 / 256 / 256 % 256;
    buf[2] := length / 256 / 256 % 256;
    buf[3] := length / 256 % 256;
    buf[4] := length % 256;
    for i := 0 to length
      invariant buf[0] == BAR && buf[1] == length / 256 / 256 / 256 % 256 && buf[2] == length / 256 / 256 % 256
      invariant buf[3] == length / 256 % 256 && buf[4] == length % 256
      invariant forall k :: 0 <= k < i ==> buf[5 + k] == str[k]
    {
      buf[5 + i] := str[i];
    }
    buf[length + 5] := BAR;
    LengthByDivision(length);
  }

  lemma LengthByDivision(n: nat)
    ensures LengthBytes(n) == [n / 256 / 256 / 256 % 256, n / 256 / 256 % 256, n / 256 % 256, n % 256]
  {
    assert n / 256 / 256 == n / 0x1_0000;
    assert n / 256 / 256 / 256 == n / 0x100_0000;
  }

  datatype Outcome = Packet(bytes: seq<byte>) | Failed(err: ClockError) | Undefined | Waiting

  /** The packets, and nothing else, reported in order. */
  function Packets(ps: seq<seq<byte>>): (os: seq<Outcome>)
    ensures |os| == |ps| && forall i :: 0 <= i < |ps| ==> os[i] == Packet(ps[i])
  {
    if ps == [] then [] else [Packet(ps[0])] + Packets(ps[1..])
  }

  /** What both receivers make of the bytes collected so far: a packet with what follows it, no
      packet yet (None), or arithmetic that overflows. */
  function Parse(result: seq<byte>): Option<(Outcome, seq<byte>)> {
    if |result| < 5 then None
    else if result[1] >= 128 then Some((Undefined, []))
    else
      var length := LengthOf(result[1..5]);
      if |result| >= length + 6 then Some((Packet(result[5..5 + length]), result[length + 6..])) else None
  }

  /** A frame is recognised as soon as its last byte is there, and not before; what follows is
      left alone. */
  lemma ParseFrame(p: seq<byte>, result: seq<byte>, owed: seq<byte>, rest: seq<byte>)
    requires |p| < MAX_LENGTH && result + owed == Frame(p) + rest
    ensures Parse(result) ==
      if |result| < |p| + 6 then None else Some((Packet(p), result[|p| + 6..]))
    ensures |result| >= |p| + 6 ==> result[|p| + 6..] + owed == rest
  {
    var all := Frame(p) + rest;
    if |result| >= 5 {
      assert result == all[..|result|];
      assert all[1..5] == LengthBytes(|p|) && result[1..5] == all[1..5];
      LengthRoundTrip(|p|);
      SmallFirstByte(|p|);
      if |result| >= |p| + 6 {
        assert result[5..5 + |p|] == all[5..5 + |p|] == p;
        assert all[|p| + 6..] == rest;
        assert (result + owed)[|p| + 6..] == result[|p| + 6..] + owed;
      }
    }
  }

  lemma SmallFirstByte(n: nat)
    requires n < MAX_LENGTH
    ensures LengthBytes(n)[0] < 128
  {
  }
}
