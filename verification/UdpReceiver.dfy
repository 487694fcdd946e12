/** UdpSocket: a frame is written as datagrams of at most MAX_PACKET_SIZE bytes, and rebuilt on
    the other side with one buffer for every sender. */
module UdpReceiver {
  import opened Bytes
  import opened ClockErrors
  import opened Framing

  const MAX_PACKET_SIZE := 32768

  datatype Address = Address(ip: string, port: nat)
  datatype Datagram = Datagram(from: Address, bytes: seq<byte>)

  // ---------------------------------------------------------------- writing

  /** The datagrams of one write. Data that fills them evenly is followed by an empty one. */
  function Pieces(data: seq<byte>): seq<seq<byte>>
    decreases |data|
  {
    if |data| < MAX_PACKET_SIZE then [data]
    else [data[..MAX_PACKET_SIZE]] + Pieces(data[MAX_PACKET_SIZE..])
  }

  method Write(data: seq<byte>) returns (sent: seq<seq<byte>>)
    ensures sent == Pieces(data)
  {
    var length := |data|;
    sent := [];
    for i := 0 to length / MAX_PACKET_SIZE + 1
      invariant i <= length / MAX_PACKET_SIZE ==> sent + Pieces(data[i * MAX_PACKET_SIZE..]) == Pieces(data)
      invariant i == length / MAX_PACKET_SIZE + 1 ==> sent == Pieces(data)
    {
      var start := i * MAX_PACKET_SIZE;
      var sendLength := if i < length / MAX_PACKET_SIZE then MAX_PACKET_SIZE else length - start;
      var piece := data[start..start + sendLength];
      PieceAt(data, i);
      assert i < length / MAX_PACKET_SIZE ==>
        sent + ([piece] + Pieces(data[start + MAX_PACKET_SIZE..])) == sent + [piece] + Pieces(data[start + MAX_PACKET_SIZE..]);
      assert i == length / MAX_PACKET_SIZE ==> piece == data[start..];
      sent := sent + [piece];
    }
  }

  lemma PieceAt(data: seq<byte>, i: nat)
    requires i <= |data| / MAX_PACKET_SIZE
    ensures var start := i * MAX_PACKET_SIZE;
      if i < |data| / MAX_PACKET_SIZE
      then start + MAX_PACKET_SIZE <= |data|
        && Pieces(data[start..]) == [data[start..start + MAX_PACKET_SIZE]] + Pieces(data[start + MAX_PACKET_SIZE..])
      else Pieces(data[start..]) == [data[start..]]
  {
    var start := i * MAX_PACKET_SIZE;
    if i < |data| / MAX_PACKET_SIZE {
      assert data[start..][..MAX_PACKET_SIZE] == data[start..start + MAX_PACKET_SIZE];
      assert data[start..][MAX_PACKET_SIZE..] == data[start + MAX_PACKET_SIZE..];
    }
  }

  /** The pieces are small enough, there are |data| / MAX + 1 of them, and together they are the
      data. */
  lemma {:induction false} PiecesMakeData(data: seq<byte>)
    ensures Flat(Pieces(data)) == data && |Pieces(data)| == |data| / MAX_PACKET_SIZE + 1
    ensures forall i :: 0 <= i < |Pieces(data)| ==> |Pieces(data)[i]| <= MAX_PACKET_SIZE
    decreases |data|
  {
    if |data| < MAX_PACKET_SIZE {
      assert Flat([data]) == data + [];
    } else {
      PiecesMakeData(data[MAX_PACKET_SIZE..]);
      assert data == data[..MAX_PACKET_SIZE] + data[MAX_PACKET_SIZE..];
    }
  }

  // ---------------------------------------------------------------- receiving

  /** What one datagram does to its sender's buffer, and the outcome it leads to, if any. A read
      of zero bytes is reported as a lost connection. */
  function Accept(buffer: seq<byte>, bytes: seq<byte>): (Option<Outcome>, seq<byte>) {
    if bytes == [] then (Some(Failed(NotConnected)), buffer)
    else if buffer == [] && bytes[0] != BAR then (Some(Failed(Unknown)), buffer)
    else
      match Parse(buffer + bytes)
      case Some((Packet(p), rest)) => (Some(Packet(p)), rest)
      case Some((other, _)) => (Some(other), buffer)
      case None => (None, buffer + bytes)
  }

  type Buffers = map<Address, seq<byte>>

  function BufferOf(buffers: Buffers, a: Address): seq<byte> {
    if a in buffers then buffers[a] else []
  }

  function Updated(buffers: Buffers, a: Address, buffer: seq<byte>): Buffers {
    if BufferOf(buffers, a) == buffer then buffers else buffers[a := buffer]
  }

  datatype Event = Event(from: Address, outcome: Outcome)

  /** The events that datagrams lead to, one datagram at a time. */
  function Events(buffers: Buffers, incoming: seq<Datagram>): seq<Event>
    decreases |incoming|
  {
    if incoming == [] then []
    else
      var d := incoming[0];
      var (outcome, rest) := Accept(BufferOf(buffers, d.from), d.bytes);
      (if outcome.Some? then [Event(d.from, outcome.value)] else [])
      + Events(Updated(buffers, d.from, rest), incoming[1..])
  }

  class Socket {
    var buffer: Buffers
    var incoming: seq<Datagram>

    constructor (incoming: seq<Datagram>)
      ensures buffer == map[] && this.incoming == incoming
    {
      buffer := map[];
      this.incoming := incoming;
    }

    /** The body of the receive loop, for the datagram just read. */
    method Handle(s: seq<byte>, from: Address) returns (outcome: Option<Outcome>)
      modifies this`buffer
      ensures old(Accept(BufferOf(buffer, from), s)) == (outcome, BufferOf(buffer, from))
      ensures buffer == Updated(old(buffer), from, BufferOf(buffer, from))
    {
      if |s| == 0 {
        return Some(Failed(NotConnected));
      }
      var result := BufferOf(buffer, from);
      if |result| == 0 {
        if s[0] != BAR {
          return Some(Failed(Unknown));
        }
        result := s;
        assert [] + s == s;
      } else {
        result := result + s;
      }
      var length := 0;
      if |result| >= 5 {
        if result[1] >= 128 {
          return Some(Undefined);
        }
        length := LengthOf(result[1..5]);
      }
      if |result| >= length + 6 {
        buffer := Updated(buffer, from, if |result| > length + 6 then result[length + 6..] else []);
        return Some(Packet(result[5..5 + length]));
      }
      buffer := Updated(buffer, from, result);
      return None;
    }

    /** One call: the first event of the datagrams read, from the sender that caused it, leaving
        the later events to later calls. A call that finds no further datagram keeps waiting. */
    method ReceivePacket() returns (outcome: Outcome, from: Address)
      modifies this
      ensures outcome == Waiting ==> incoming == [] && old(Events(buffer, incoming)) == []
      ensures outcome != Waiting ==>
        && |incoming| < old(|incoming|)
        && old(Events(buffer, incoming)) == [Event(from, outcome)] + Events(buffer, incoming)
    {
      from := Address("", 0);
      ghost var goal := Events(buffer, incoming);
      while |incoming| > 0
        invariant |incoming| <= old(|incoming|) && goal == Events(buffer, incoming)
        decreases |incoming|
      {
        var s := incoming[0].bytes;
        from := incoming[0].from;
        incoming := incoming[1..];
        var r := Handle(s, from);
        if r.Some? {
          return r.value, from;
        }
        assert [] + Events(buffer, incoming) == Events(buffer, incoming);
      }
      return Waiting, from;
    }
  }

  // ---------------------------------------------------------------- senders never mix

  function DatagramsFrom(incoming: seq<Datagram>, a: Address): seq<seq<byte>> {
    if incoming == [] then []
    else (if incoming[0].from == a then [incoming[0].bytes] else []) + DatagramsFrom(incoming[1..], a)
  }

  function OutcomesFrom(events: seq<Event>, a: Address): seq<Outcome> {
    if events == [] then []
    else (if events[0].from == a then [events[0].outcome] else []) + OutcomesFrom(events[1..], a)
  }

  /** The outcomes of one sender's datagrams alone. */
  function Outcomes(buffer: seq<byte>, datagrams: seq<seq<byte>>): seq<Outcome>
    decreases |datagrams|
  {
    if datagrams == [] then []
    else
      var (outcome, rest) := Accept(buffer, datagrams[0]);
      (if outcome.Some? then [outcome.value] else []) + Outcomes(rest, datagrams[1..])
  }

  lemma {:induction false} OutcomesFromConcat(x: seq<Event>, y: seq<Event>, a: Address)
    ensures OutcomesFrom(x + y, a) == OutcomesFrom(x, a) + OutcomesFrom(y, a)
  {
    if x == [] {
      assert x + y == y;
    } else {
      assert (x + y)[1..] == x[1..] + y;
      OutcomesFromConcat(x[1..], y, a);
    }
  }

  /** Whatever arrives in whatever order: the outcomes reported for a sender are those of its own
      datagrams alone. */
  lemma {:induction false} SendersNeverMix(buffers: Buffers, incoming: seq<Datagram>, a: Address)
    ensures OutcomesFrom(Events(buffers, incoming), a)
         == Outcomes(BufferOf(buffers, a), DatagramsFrom(incoming, a))
    decreases |incoming|
  {
    if incoming != [] {
      var d, later := incoming[0], DatagramsFrom(incoming[1..], a);
      var (outcome, rest) := Accept(BufferOf(buffers, d.from), d.bytes);
      var first := if outcome.Some? then [Event(d.from, outcome.value)] else [];
      OutcomesFromConcat(first, Events(Updated(buffers, d.from, rest), incoming[1..]), a);
      SendersNeverMix(Updated(buffers, d.from, rest), incoming[1..], a);
      if d.from == a {
        assert DatagramsFrom(incoming, a)[1..] == later;
      } else {
        assert DatagramsFrom(incoming, a) == [] + later == later;
        assert OutcomesFrom(first, a) == [];
      }
    }
  }

  // ---------------------------------------------------------------- reassembly

  /** The datagrams that carry some packets, in order. */
  function Sent(ps: seq<seq<byte>>): seq<seq<byte>> {
    if ps == [] then [] else Pieces(Frame(ps[0])) + Sent(ps[1..])
  }

  /** What the receiver reports for them: every packet, and a lost connection after each packet
      whose frame fills its datagrams evenly. */
  function Expected(ps: seq<seq<byte>>): seq<Outcome> {
    if ps == [] then []
    else Completed(ps[0]) + Expected(ps[1..])
  }

  function Report(outcome: Option<Outcome>): seq<Outcome> {
    if outcome.Some? then [outcome.value] else []
  }

  lemma OutcomesStep(buffer: seq<byte>, d: seq<byte>, tail: seq<seq<byte>>)
    ensures var (outcome, rest) := Accept(buffer, d);
      Outcomes(buffer, [d] + tail) == Report(outcome) + Outcomes(rest, tail)
  {
    assert ([d] + tail)[1..] == tail;
  }

  function Completed(p: seq<byte>): seq<Outcome> {
    [Packet(p)] + if (|p| + 6) % MAX_PACKET_SIZE == 0 then [Failed(NotConnected)] else []
  }

  /** One piece of a frame: it completes the frame or is kept. */
  lemma AcceptPiece(p: seq<byte>, buffer: seq<byte>, piece: seq<byte>, more: seq<byte>)
    requires |p| < MAX_LENGTH && buffer + piece + more == Frame(p) && piece != []
    ensures Accept(buffer, piece) == if more == [] then (Some(Packet(p)), []) else (None, buffer + piece)
  {
    assert Frame(p) + [] == Frame(p);
    ParseFrame(p, buffer + piece, more, []);
    assert buffer == [] ==> piece[0] == (buffer + piece + more)[0];
  }

  lemma FullPiece(p: seq<byte>, buffer: seq<byte>, rest: seq<byte>, tail: seq<seq<byte>>)
    requires |p| < MAX_LENGTH && buffer + rest == Frame(p) && |rest| >= MAX_PACKET_SIZE
    ensures var first, more := rest[..MAX_PACKET_SIZE], rest[MAX_PACKET_SIZE..];
      Outcomes(buffer, Pieces(rest) + tail)
      == if more == [] then [Packet(p)] + Outcomes([], Pieces([]) + tail) else Outcomes(buffer + first, Pieces(more) + tail)
  {
    var first, more := rest[..MAX_PACKET_SIZE], rest[MAX_PACKET_SIZE..];
    assert buffer + first + more == buffer + rest;
    AcceptPiece(p, buffer, first, more);
    assert Pieces(rest) + tail == [first] + (Pieces(more) + tail);
    OutcomesStep(buffer, first, Pieces(more) + tail);
  }

  lemma AtBoundary(b: nat, r: nat)
    requires b % MAX_PACKET_SIZE == 0
    ensures (b + r) % MAX_PACKET_SIZE == r % MAX_PACKET_SIZE && (b + MAX_PACKET_SIZE) % MAX_PACKET_SIZE == 0
    ensures 0 < r < MAX_PACKET_SIZE ==> (b + r) % MAX_PACKET_SIZE != 0
  {
  }

  lemma NotEven(p: seq<byte>, b: nat, r: nat)
    requires |p| + 6 == b + r && b % MAX_PACKET_SIZE == 0 && 0 < r < MAX_PACKET_SIZE
    ensures Completed(p) == [Packet(p)]
  {
    AtBoundary(b, r);
  }

  lemma SmallPiece(p: seq<byte>, buffer: seq<byte>, rest: seq<byte>, tail: seq<seq<byte>>)
    requires |p| < MAX_LENGTH && buffer + rest == Frame(p) && 0 < |rest| < MAX_PACKET_SIZE && |buffer| % MAX_PACKET_SIZE == 0
    ensures Outcomes(buffer, Pieces(rest) + tail) == Completed(p) + Outcomes([], tail)
  {
    NotEven(p, |buffer|, |rest|);
    assert buffer + rest + [] == Frame(p);
    AcceptPiece(p, buffer, rest, []);
    OutcomesStep(buffer, rest, tail);
  }

  /** A frame that fills its datagrams evenly is followed by an empty one. */
  lemma EvenPiece(p: seq<byte>, buffer: seq<byte>, rest: seq<byte>, tail: seq<seq<byte>>)
    requires |p| < MAX_LENGTH && buffer + rest == Frame(p) && |rest| == MAX_PACKET_SIZE && |buffer| % MAX_PACKET_SIZE == 0
    ensures Outcomes(buffer, Pieces(rest) + tail) == Completed(p) + Outcomes([], tail)
  {
    AtBoundary(|buffer|, |rest|);
    assert |p| + 6 == |buffer| + |rest|;
    FullPiece(p, buffer, rest, tail);
    EvenEnd(p, tail);
  }

  lemma EvenEnd(p: seq<byte>, tail: seq<seq<byte>>)
    requires (|p| + 6) % MAX_PACKET_SIZE == 0
    ensures [Packet(p)] + Outcomes([], Pieces([]) + tail) == Completed(p) + Outcomes([], tail)
  {
    OutcomesStep([], [], tail);
    assert Pieces([]) + tail == [[]] + tail;
  }

  /** From any point at a datagram boundary inside a frame. */
  lemma {:induction false} FrameArrives(p: seq<byte>, buffer: seq<byte>, rest: seq<byte>, tail: seq<seq<byte>>)
    requires |p| < MAX_LENGTH && buffer + rest == Frame(p) && rest != [] && |buffer| % MAX_PACKET_SIZE == 0
    ensures Outcomes(buffer, Pieces(rest) + tail) == Completed(p) + Outcomes([], tail)
    decreases |rest|
  {
    if |rest| < MAX_PACKET_SIZE {
      SmallPiece(p, buffer, rest, tail);
    } else if |rest| == MAX_PACKET_SIZE {
      EvenPiece(p, buffer, rest, tail);
    } else {
      FullPiece(p, buffer, rest, tail);
      var first, more := rest[..MAX_PACKET_SIZE], rest[MAX_PACKET_SIZE..];
      assert (buffer + first) + more == buffer + rest;
      AtBoundary(|buffer|, 0);
      FrameArrives(p, buffer + first, more, tail);
    }
  }

  lemma {:induction false} SentArrives(ps: seq<seq<byte>>)
    requires forall i :: 0 <= i < |ps| ==> |ps[i]| < MAX_LENGTH
    ensures Outcomes([], Sent(ps)) == Expected(ps)
  {
    if ps != [] {
      assert [] + Frame(ps[0]) == Frame(ps[0]);
      FrameArrives(ps[0], [], Frame(ps[0]), Sent(ps[1..]));
      SentArrives(ps[1..]);
    }
  }

  /** For any number of senders and any interleaving of their datagrams (in order and without
      loss for each of them), every sender's packets come out in order, under its own address. */
  lemma Reassembly(incoming: seq<Datagram>, packets: Address -> seq<seq<byte>>, a: Address)
    requires forall b :: DatagramsFrom(incoming, b) == Sent(packets(b))
    requires forall b, i :: 0 <= i < |packets(b)| ==> |packets(b)[i]| < MAX_LENGTH
    ensures OutcomesFrom(Events(map[], incoming), a) == Expected(packets(a))
  {
    SendersNeverMix(map[], incoming, a);
    SentArrives(packets(a));
  }

  lemma {:induction false} ExpectedIsPackets(ps: seq<seq<byte>>)
    ensures |Expected(ps)| >= |ps|
    ensures Expected(ps) == Packets(ps) <==> forall i :: 0 <= i < |ps| ==> (|ps[i]| + 6) % MAX_PACKET_SIZE != 0
  {
    if ps != [] {
      ExpectedIsPackets(ps[1..]);
      if (|ps[0]| + 6) % MAX_PACKET_SIZE != 0 {
        assert Expected(ps)[1..] == Expected(ps[1..]) && Packets(ps)[1..] == Packets(ps[1..]);
        assert forall i :: 0 < i < |ps| ==> ps[i] == ps[1..][i - 1];
      } else {
        assert |Expected(ps)| > |ps|;
      }
    }
  }

  /** The receiver reports a sender's packets and nothing else if and only if none of that
      sender's frames fills its datagrams evenly. */
  lemma OnlyPackets(incoming: seq<Datagram>, packets: Address -> seq<seq<byte>>, a: Address)
    requires forall b :: DatagramsFrom(incoming, b) == Sent(packets(b))
    requires forall b, i :: 0 <= i < |packets(b)| ==> |packets(b)[i]| < MAX_LENGTH
    ensures OutcomesFrom(Events(map[], incoming), a) == Packets(packets(a))
       <==> forall i :: 0 <= i < |packets(a)| ==> (|packets(a)[i]| + 6) % MAX_PACKET_SIZE != 0
  {
    Reassembly(incoming, packets, a);
    ExpectedIsPackets(packets(a));
  }

  /** An input on which more is reported: any packet of 32762 bytes is sent as one full and one
      empty datagram, and is received as the packet and a lost connection. */
  lemma EvenFrameLosesConnection(p: seq<byte>, a: Address)
    requires |p| == MAX_PACKET_SIZE - 6
    ensures Pieces(Frame(p)) == [Frame(p), []]
    ensures Events(map[], [Datagram(a, Frame(p)), Datagram(a, [])])
         == [Event(a, Packet(p)), Event(a, Failed(NotConnected))]
  {
    assert Frame(p)[..MAX_PACKET_SIZE] == Frame(p) && Frame(p)[MAX_PACKET_SIZE..] == [];
    assert [] + Frame(p) + [] == Frame(p);
    AcceptPiece(p, [], Frame(p), []);
    var rest := [Datagram(a, [])];
    assert [Datagram(a, Frame(p)), Datagram(a, [])][1..] == rest && rest[1..] == [];
    assert Events(map[], rest) == [Event(a, Failed(NotConnected))] + [];
  }

  /** A sender from whom nothing is kept and whose datagram does not start with a bar: one error is
      reported for it, and the receiver goes on as if the datagram had not come. */
  lemma NoBar(buffers: Buffers, incoming: seq<Datagram>)
    requires incoming != [] && BufferOf(buffers, incoming[0].from) == []
    requires incoming[0].bytes != [] && incoming[0].bytes[0] != BAR
    ensures Events(buffers, incoming) == [Event(incoming[0].from, Failed(Unknown))] + Events(buffers, incoming[1..])
  {
  }
}
