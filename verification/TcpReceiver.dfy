/** TcpSocket::receivePacket: packets are rebuilt from whatever chunks the stream delivers, and
    the bytes after a packet are kept for the next call. */
module TcpReceiver {
  import opened Bytes
  import opened ClockErrors
  import opened Framing

  /** The result of one call, the kept bytes, and the chunks not yet read. */
  datatype Reception = Reception(outcome: Outcome, buffer: seq<byte>, chunks: seq<seq<byte>>)

  /** The loop from a point where the bytes in `result` have been collected. The kept bytes are
      replaced only when a packet is complete. The peer has closed when no chunk is left. */
  function Collect(buffer: seq<byte>, result: seq<byte>, chunks: seq<seq<byte>>): Reception
    decreases |chunks|
  {
    match Parse(result)
    case Some((outcome, rest)) => Reception(outcome, if outcome.Packet? then rest else buffer, chunks)
    case None =>
      if chunks == [] then Reception(Failed(NotConnected), buffer, chunks)
      else if chunks[0] == [] then Collect(buffer, result, chunks[1..])
      else if result == [] && chunks[0][0] != BAR then Reception(Failed(Unknown), buffer, chunks[1..])
      else Collect(buffer, result + chunks[0], chunks[1..])
  }

  lemma CollectMore(buffer: seq<byte>, result: seq<byte>, chunks: seq<seq<byte>>)
    requires Parse(result) == None && chunks != []
    ensures chunks[0] == [] ==> Collect(buffer, result, chunks) == Collect(buffer, result, chunks[1..])
    ensures chunks[0] != [] && (result != [] || chunks[0][0] == BAR) ==>
      Collect(buffer, result, chunks) == Collect(buffer, result + chunks[0], chunks[1..])
  {
  }

  /** The length variable stays zero until five bytes are there, and is then the announced one. */
  ghost predicate KnownLength(result: seq<byte>, length: nat) {
    if |result| < 5 then length == 0 else result[1] < 128 && length == LengthOf(result[1..5])
  }

  lemma ParseKnown(result: seq<byte>, length: nat)
    requires KnownLength(result, length)
    ensures Parse(result) ==
      if |result| >= length + 6 then Some((Packet(result[5..5 + length]), result[length + 6..])) else None
  {
  }

  lemma KnownLonger(result: seq<byte>, length: nat, s: seq<byte>)
    requires KnownLength(result, length) && length != 0
    ensures KnownLength(result + s, length)
  {
    assert (result + s)[1..5] == result[1..5];
  }

  /** When the length is known, the loop ends exactly if the frame is complete. */
  lemma CollectKnown(buffer: seq<byte>, result: seq<byte>, chunks: seq<seq<byte>>, length: nat)
    requires KnownLength(result, length)
    ensures if |result| >= length + 6
      then Collect(buffer, result, chunks) == Reception(Packet(result[5..5 + length]), result[length + 6..], chunks)
      else Parse(result) == None
  {
    ParseKnown(result, length);
  }

  function Receive(buffer: seq<byte>, chunks: seq<seq<byte>>): Reception {
    Collect(buffer, buffer, chunks)
  }

  class Socket {
    var buffer: seq<byte>
    var incoming: seq<seq<byte>>

    constructor (incoming: seq<seq<byte>>)
      ensures buffer == [] && this.incoming == incoming
    {
      buffer := [];
      this.incoming := incoming;
    }

    /** The next chunk, or an error if the peer has closed. */
    method Read() returns (err: ClockError, s: seq<byte>)
      modifies this`incoming
      ensures if old(incoming) == [] then err == NotConnected && s == [] && incoming == []
              else err == Success && s == old(incoming)[0] && incoming == old(incoming)[1..]
    {
      if |incoming| == 0 {
        return NotConnected, [];
      }
      err, s := Success, incoming[0];
      incoming := incoming[1..];
    }

    method ReceivePacket() returns (outcome: Outcome)
      modifies this
      ensures Reception(outcome, buffer, incoming) == old(Receive(buffer, incoming))
    {
      var result := buffer;
      var skipFirstRead := |result| != 0;
      var length := 0;
      ghost var kept := buffer;
      ghost var goal := Receive(buffer, incoming);
      while true
        invariant buffer == kept && goal == Collect(kept, result, incoming)
        invariant !skipFirstRead ==> Parse(result) == None
        invariant skipFirstRead ==> result != []
        invariant length != 0 ==> KnownLength(result, length)
        decreases |incoming|, skipFirstRead
      {
        var s: seq<byte> := [];
        var error := Success;
        if skipFirstRead {
          assert result + s == result;
        } else {
          if |incoming| != 0 { CollectMore(kept, result, incoming); }
          error, s := Read();
        }
        if error != Success {
          return Failed(error);
        }
        if !skipFirstRead && |s| == 0 {
          continue;
        }
        skipFirstRead := false;
        if |result| == 0 {
          if s[0] == BAR {
            result := s;
            assert [] + s == s;
          } else {
            return Failed(Unknown);
          }
        } else {
          if length != 0 { KnownLonger(result, length, s); }
          result := result + s;
        }
        if length == 0 && |result| >= 5 {
          if result[1] >= 128 {
            return Undefined;
          }
          length := LengthOf(result[1..5]);
        }
        CollectKnown(kept, result, incoming, length);
        if |result| >= length + 6 {
          outcome := Packet(result[5..5 + length]);
          if |result| > length + 6 {
            buffer := result[length + 6..];
          } else {
            buffer := [];
            assert result[length + 6..] == [];
          }
          return;
        }
      }
    }
  }

  // ---------------------------------------------------------------- reassembly

  lemma {:induction false} CollectFrame(buffer: seq<byte>, result: seq<byte>, chunks: seq<seq<byte>>, ps: seq<seq<byte>>)
    requires ps != [] && |ps[0]| < MAX_LENGTH && result + Flat(chunks) == Frames(ps)
    ensures var r := Collect(buffer, result, chunks);
      r.outcome == Packet(ps[0]) && r.buffer + Flat(r.chunks) == Frames(ps[1..])
    decreases |chunks|
  {
    var p, owed := ps[0], Flat(chunks);
    ParseFrame(p, result, owed, Frames(ps[1..]));
    if |result| < |p| + 6 {
      assert |result + owed| >= |p| + 6;
      var c := chunks[0];
      assert owed == c + Flat(chunks[1..]);
      assert result + (c + Flat(chunks[1..])) == result + c + Flat(chunks[1..]);
      if c == [] {
        assert result + c == result;
      } else {
        assert result == [] ==> (result + owed)[0] == c[0];
      }
      CollectFrame(buffer, result + c, chunks[1..], ps);
    }
  }

  /** One call, for any packets and any division of their stream into chunks: the next packet
      comes out, and kept plus unread bytes are the frames still owed. */
  lemma NextPacket(buffer: seq<byte>, chunks: seq<seq<byte>>, ps: seq<seq<byte>>)
    requires ps != [] && |ps[0]| < MAX_LENGTH && buffer + Flat(chunks) == Frames(ps)
    ensures var r := Receive(buffer, chunks);
      r.outcome == Packet(ps[0]) && r.buffer + Flat(r.chunks) == Frames(ps[1..])
  {
    CollectFrame(buffer, buffer, chunks, ps);
  }

  /** The outcomes of n successive calls. */
  function ReceiveMany(buffer: seq<byte>, chunks: seq<seq<byte>>, n: nat): seq<Outcome>
    decreases n
  {
    if n == 0 then []
    else
      var r := Receive(buffer, chunks);
      [r.outcome] + ReceiveMany(r.buffer, r.chunks, n - 1)
  }

  lemma {:induction false} NothingOwed(result: seq<byte>, chunks: seq<seq<byte>>)
    requires result + Flat(chunks) == []
    ensures Collect([], result, chunks) == Reception(Failed(NotConnected), [], [])
    decreases |chunks|
  {
    if chunks != [] {
      assert |chunks[0]| + |Flat(chunks[1..])| == 0;
      NothingOwed(result, chunks[1..]);
    }
  }

  /** Successive calls return exactly the packets that were framed into the stream, in order,
      whatever they contain and however the stream was cut; after the last one the end of the
      stream is reported. */
  lemma {:induction false} Reassembly(buffer: seq<byte>, chunks: seq<seq<byte>>, ps: seq<seq<byte>>)
    requires forall i :: 0 <= i < |ps| ==> |ps[i]| < MAX_LENGTH
    requires buffer + Flat(chunks) == Frames(ps)
    ensures ReceiveMany(buffer, chunks, |ps| + 1) == Packets(ps) + [Failed(NotConnected)]
    decreases |ps|
  {
    if ps == [] {
      NothingOwed(buffer, chunks);
      assert buffer == [];
      assert ReceiveMany(buffer, chunks, 1) == [Failed(NotConnected)] + [];
    } else {
      NextPacket(buffer, chunks, ps);
      var r := Receive(buffer, chunks);
      Reassembly(r.buffer, r.chunks, ps[1..]);
      assert [Packet(ps[0])] + (Packets(ps[1..]) + [Failed(NotConnected)]) == Packets(ps) + [Failed(NotConnected)];
    }
  }

  /** A stream that does not start with a bar, however many empty reads come first: the call fails,
      has consumed the first bytes, and keeps nothing. */
  lemma {:induction false} NoBar(chunks: seq<seq<byte>>, n: nat)
    requires n < |chunks| && (forall i :: 0 <= i < n ==> chunks[i] == []) && chunks[n] != [] && chunks[n][0] != BAR
    ensures Receive([], chunks) == Reception(Failed(Unknown), [], chunks[n + 1..])
    decreases n
  {
    if n > 0 {
      CollectMore([], [], chunks);
      NoBar(chunks[1..], n - 1);
    }
  }

  /** Without kept bytes, a call returns a packet, or bytes for a later one, only if the first byte
      read is a bar. */
  lemma {:induction false} OnlyAfterBar(chunks: seq<seq<byte>>)
    requires Receive([], chunks).outcome.Packet?
    ensures Flat(chunks) != [] && Flat(chunks)[0] == BAR
    decreases |chunks|
  {
    if chunks != [] && chunks[0] == [] {
      CollectMore([], [], chunks);
      OnlyAfterBar(chunks[1..]);
    }
  }

  /** A stream that ends inside a frame: the call fails, and what it has read is not kept. */
  lemma {:induction false} EndInsideFrame(buffer: seq<byte>, result: seq<byte>, chunks: seq<seq<byte>>, p: seq<byte>)
    requires |p| < MAX_LENGTH && result + Flat(chunks) < Frame(p)
    ensures Collect(buffer, result, chunks) == Reception(Failed(NotConnected), buffer, [])
    decreases |chunks|
  {
    var all := result + Flat(chunks);
    var owed := Flat(chunks) + Frame(p)[|all|..];
    assert result + owed == all + Frame(p)[|all|..] == Frame(p) + [];
    ParseFrame(p, result, owed, []);
    if chunks != [] {
      var c := chunks[0];
      assert result + (c + Flat(chunks[1..])) == result + c + Flat(chunks[1..]);
      CollectMore(buffer, result, chunks);
      if c == [] {
        assert result + c == result;
      } else {
        assert result == [] ==> all[0] == c[0];
      }
      EndInsideFrame(buffer, result + c, chunks[1..], p);
    }
  }
}
