/** AsyncTCPSocket: packets with a 16-bit length in front over a byte stream. */
module AsyncTcp {

  import opened ByteOrder

  type Packet = seq<byte>

  const MAX_PACKET_SIZE: nat := 64 * 1024
  const PKT_LEN_SIZE: nat := 2
  const BUF_SIZE: nat := MAX_PACKET_SIZE + PKT_LEN_SIZE

  /** The length in front, cast to uint16 and put in network order, and then the payload. */
  function Frame(p: Packet): (f: seq<byte>)
    ensures |f| == PKT_LEN_SIZE + |p|
  {
    var n := |p| % 0x1_0000;
    [n / 256, n % 256] + p
  }

  function Frames(ps: seq<Packet>): seq<byte> {
    if ps == [] then [] else Frames(ps[..|ps| - 1]) + Frame(ps[|ps| - 1])
  }

  function Length(data: seq<byte>): (n: nat)
    requires |data| >= PKT_LEN_SIZE
    ensures n < 0x1_0000
  {
    256 * (data[0] as int) + data[1] as int
  }

  /** A whole packet lies at the front. */
  predicate Ready(data: seq<byte>) {
    |data| >= PKT_LEN_SIZE && |data| >= PKT_LEN_SIZE + Length(data)
  }

  /** The whole packets in a stream, in order. */
  function Packets(data: seq<byte>): seq<Packet> {
    if !Ready(data) then []
    else [data[PKT_LEN_SIZE..PKT_LEN_SIZE + Length(data)]] + Packets(data[PKT_LEN_SIZE + Length(data)..])
  }

  /** What is left of a stream behind its whole packets. */
  function Residue(data: seq<byte>): (r: seq<byte>)
    ensures !Ready(r)
  {
    if !Ready(data) then data else Residue(data[PKT_LEN_SIZE + Length(data)..])
  }

  // ---------------------------------------------------------------- laws of the framing

  /** A residue never fills the input buffer. */
  lemma ResidueFits(data: seq<byte>)
    ensures |Residue(data)| < BUF_SIZE
  {
  }

  /** Segmentation does not matter: to go on from the residue is to have had the stream in one piece. */
  lemma {:induction false} PacketsConcat(a: seq<byte>, b: seq<byte>)
    ensures Packets(a + b) == Packets(a) + Packets(Residue(a) + b)
    ensures Residue(a + b) == Residue(Residue(a) + b)
    decreases |a|
  {
    hide Packets, Residue;
    FirstPacket(a);
    if Ready(a) {
      var n := PKT_LEN_SIZE + Length(a);
      assert (a + b)[n..] == a[n..] + b;
      assert (a + b)[PKT_LEN_SIZE..n] == a[PKT_LEN_SIZE..n];
      FirstPacket(a + b);
      PacketsConcat(a[n..], b);
      assert [a[PKT_LEN_SIZE..n]] + Packets(a[n..]) + Packets(Residue(a[n..]) + b)
          == [a[PKT_LEN_SIZE..n]] + (Packets(a[n..]) + Packets(Residue(a[n..]) + b));
    } else {
      assert [] + Packets(a + b) == Packets(a + b);
    }
  }

  /** One frame, read back, is its packet exactly when the length fits 16 bits. */
  lemma FrameRoundTripIff(p: Packet)
    requires |p| <= MAX_PACKET_SIZE
    ensures (Packets(Frame(p)) == [p] && Residue(Frame(p)) == []) <==> |p| < MAX_PACKET_SIZE
  {
    var f := Frame(p);
    assert f[PKT_LEN_SIZE..] == p;
    if |p| < MAX_PACKET_SIZE {
      assert Length(f) == |p|;
      assert f[PKT_LEN_SIZE..PKT_LEN_SIZE + |p|] == p;
      assert f[PKT_LEN_SIZE + |p|..] == [];
      assert Packets([]) == [] && [p] + [] == [p];
    } else {
      assert Length(f) == 0;
      assert Packets(f)[0] == f[PKT_LEN_SIZE..PKT_LEN_SIZE];
    }
  }

  predicate Sendable(ps: seq<Packet>) {
    forall p :: p in ps ==> |p| < MAX_PACKET_SIZE
  }

  /** What Send does not refuse. */
  predicate Accepted(ps: seq<Packet>) {
    forall p :: p in ps ==> |p| <= MAX_PACKET_SIZE
  }

  lemma FirstPacket(data: seq<byte>)
    ensures !Ready(data) ==> Packets(data) == [] && Residue(data) == data
    ensures Ready(data) ==>
      && Packets(data)
         == [data[PKT_LEN_SIZE..PKT_LEN_SIZE + Length(data)]] + Packets(data[PKT_LEN_SIZE + Length(data)..])
      && Residue(data) == Residue(data[PKT_LEN_SIZE + Length(data)..])
  {
  }

  /** The length is in network order. */
  lemma LengthIsBigEndian(p: Packet)
    ensures Frame(p) == BE(|p| % 65536, 2) + p && Length(Frame(p)) == FromBE(Frame(p)[..2])
  {
    var n := |p| % 65536;
    assert LE(n, 2) == [n % 256] + LE(n / 256, 1) && LE(n / 256, 1) == [n / 256 % 256] + LE(n / 256 / 256, 0);
    assert BE(n, 2) == [n / 256, n % 256];
    assert Frame(p)[..2] == BE(n, 2);
    assert Range(2) == 256 * Range(1);
    FromBEOfBE(n, 2);
  }

  lemma NextFrame(ps: seq<Packet>, p: Packet)
    ensures Frames(ps + [p]) == Frames(ps) + Frame(p)
  {
    assert (ps + [p])[..|ps|] == ps;
  }

  lemma NothingToRead()
    ensures Packets([]) == [] && Residue([]) == []
  {
  }

  lemma {:induction false} FramesRoundTrip(ps: seq<Packet>)
    requires Sendable(ps)
    ensures Packets(Frames(ps)) == ps && Residue(Frames(ps)) == []
    decreases |ps|
  {
    hide Packets, Residue, Frame;
    if ps == [] {
      NothingToRead();
    } else {
      var front, last := ps[..|ps| - 1], ps[|ps| - 1];
      assert last in ps && ps == front + [last];
      NextFrame(front, last);
      FramesRoundTrip(front);
      hide Frames, Sendable;
      PacketsConcat(Frames(front), Frame(last));
      FrameRoundTripIff(last);
      assert [] + Frame(last) == Frame(last);
    }
  }

  lemma {:induction false} FramesConcat(a: seq<Packet>, b: seq<Packet>)
    ensures Frames(a + b) == Frames(a) + Frames(b)
    decreases |b|
  {
    hide Frame;
    if b == [] {
      assert a + b == a && Frames(b) == [];
    } else {
      var front := b[..|b| - 1];
      FramesConcat(a, front);
      assert (a + b)[..|a + b| - 1] == a + front;
    }
  }

  /** A packet of 65536 bytes is read as an empty one, whatever comes behind it. */
  lemma TooLong(p: Packet, rest: seq<byte>)
    requires |p| == MAX_PACKET_SIZE
    ensures Packets(Frame(p) + rest) != [] && Packets(Frame(p) + rest)[0] == []
  {
    hide Packets;
    var data := Frame(p) + rest;
    assert data[0] == 0 && data[1] == 0;
    FirstPacket(data);
    assert data[PKT_LEN_SIZE..PKT_LEN_SIZE] == [];
  }

  lemma {:induction false} FirstTooLong(ps: seq<Packet>) returns (k: nat)
    requires !Sendable(ps)
    ensures k < |ps| && Sendable(ps[..k]) && |ps[k]| >= MAX_PACKET_SIZE
    decreases |ps|
  {
    var front := ps[..|ps| - 1];
    if Sendable(front) {
      k := |ps| - 1;
      assert ps == front + [ps[k]];
    } else {
      k := FirstTooLong(front);
      assert ps[..k] == front[..k];
    }
  }

  /** Of what Send accepts, exactly sequences without a packet of 65536 bytes are read back. */
  lemma FramesRoundTripIff(ps: seq<Packet>)
    requires Accepted(ps)
    ensures Packets(Frames(ps)) == ps <==> Sendable(ps)
  {
    hide Packets, Residue, Frame, Frames;
    if Sendable(ps) {
      FramesRoundTrip(ps);
    } else {
      var k := FirstTooLong(ps);
      var front, rest := ps[..k], ps[k + 1..];
      assert ps == front + ([ps[k]] + rest);
      FramesConcat(front, [ps[k]] + rest);
      FramesConcat([ps[k]], rest);
      NextFrame([], ps[k]);
      assert [] + [ps[k]] == [ps[k]];
      NoFrames();
      assert Frames([ps[k]]) == Frame(ps[k]);
      FramesRoundTrip(front);
      PacketsConcat(Frames(front), Frame(ps[k]) + Frames(rest));
      assert [] + (Frame(ps[k]) + Frames(rest)) == Frame(ps[k]) + Frames(rest);
      assert ps[k] in ps;
      TooLong(ps[k], Frames(rest));
      assert Packets(Frames(ps))[k] == [];
    }
  }

  lemma NoFrames()
    ensures Frames([]) == []
    ensures forall f: seq<byte> :: [] + f == f
  {
  }

  /** What is read from a beginning of the stream is a beginning of what was sent. */
  lemma PrefixDelivers(ps: seq<Packet>, received: seq<byte>)
    requires Sendable(ps) && received <= Frames(ps)
    ensures Packets(received) <= ps
    ensures received == Frames(ps) ==> Packets(received) == ps && Residue(received) == []
  {
    FramesRoundTrip(ps);
    var rest := Frames(ps)[|received|..];
    assert Frames(ps) == received + rest;
    PacketsConcat(received, rest);
  }

  lemma Moved(sent: seq<byte>, bytes: seq<byte>, n: nat)
    requires n <= |bytes|
    ensures (sent + bytes[..n]) + bytes[n..] == sent + bytes
  {
  }

  // ---------------------------------------------------------------- the socket

  function Min(a: int, b: int): int {
    if a < b then a else b
  }

  class AsyncTCPSocket {
    const inbuf: array<byte>
    const outbuf: array<byte>
    var inpos: nat
    var outpos: nat

    /** The connection: bytes that it has taken from, and handed to, this socket. */
    var sent: seq<byte>
    var received: seq<byte>

    /** Packets that Send kept, and packets signalled to the reader. */
    ghost var kept: seq<Packet>
    ghost var delivered: seq<Packet>

    constructor ()
      ensures Valid() && fresh(inbuf) && fresh(outbuf)
      ensures kept == [] && sent == [] && received == [] && delivered == []
    {
      inbuf, outbuf := new byte[BUF_SIZE], new byte[BUF_SIZE];
      inpos, outpos := 0, 0;
      kept, sent, received, delivered := [], [], [], [];
    }

    /**
     The frames of the kept packets are the bytes sent and then the output buffer; the packets delivered are the
     packets in the bytes received, and the input buffer is the residue. Inbound, the buffer is never full.
     */
    ghost predicate Valid()
      reads this, inbuf, outbuf
    {
      && inbuf.Length == outbuf.Length == BUF_SIZE && inbuf != outbuf && inpos < BUF_SIZE && outpos <= BUF_SIZE
      && Frames(kept) == sent + outbuf[..outpos] && Accepted(kept)
      && delivered == Packets(received) && inbuf[..inpos] == Residue(received)
    }

    /** The connection's Send: it takes as much as it likes, if there is as much, or fails. */
    method SocketSend(takes: int) returns (res: int)
      requires outpos <= outbuf.Length
      modifies this`sent
      ensures res == Min(takes, outpos) && sent == old(sent) + if res > 0 then outbuf[..res] else []
    {
      res := Min(takes, outpos);
      sent := sent + if res > 0 then outbuf[..res] else [];
    }

    /** What the connection takes leaves the buffer, from the front. */
    method Flush(takes: int) returns (res: int)
      requires outbuf.Length == BUF_SIZE && outpos <= BUF_SIZE
      modifies this`sent, this`outpos, outbuf
      ensures res == Min(takes, old(outpos))
      ensures outpos == old(outpos) - if res > 0 then res else 0
      ensures sent == old(sent) + if res > 0 then old(outbuf[..outpos])[..res] else []
      ensures sent + outbuf[..outpos] == old(sent + outbuf[..outpos])
    {
      ghost var bytes, before := outbuf[..outpos], sent;
      res := SocketSend(takes);
      if res <= 0 {
        assert before + [] == before;
        return;
      }
      assert outbuf[..res] == bytes[..res];
      Moved(before, bytes, res);
      DropFront(res);
      assert outbuf[..outpos] == bytes[res..];
    }

    method DropFront(n: nat)
      requires n <= outpos <= outbuf.Length
      modifies this`outpos, outbuf
      ensures outpos == old(outpos) - n && outbuf[..outpos] == old(outbuf[n..outpos])
    {
      outpos := outpos - n;
      forall i | 0 <= i < outpos {
        outbuf[i] := outbuf[i + n];
      }
    }

    /**
     Send: the packet is refused for its size, or kept whole, or dropped whole, either because an earlier one is still
     on its way, which is reported as success, or because the connection took nothing of it.
     */
    method Send(p: Packet, takes: int) returns (res: int, ghost keeps: bool)
      requires Valid()
      modifies this`sent, this`outpos, this`kept, outbuf
      ensures Valid() && old(sent) <= sent
      ensures keeps <==> |p| <= 65536 && old(outpos) == 0 && takes > 0
      ensures kept == if keeps then old(kept) + [p] else old(kept)
      ensures keeps ==> res == |p| && |sent| == |old(sent)| + Min(takes, 2 + |p|)
      ensures !keeps ==> sent == old(sent) && outpos == old(outpos)
      ensures !keeps ==>
        if |p| > 65536 then res == -1 else if old(outpos) > 0 then res == |p| else res == Min(takes, 2 + |p|)
    {
      if |p| > MAX_PACKET_SIZE {
        return -1, false;
      }
      if outpos > 0 {
        return |p|, false;
      }
      hide Valid;
      res := StartPacket(p, takes);
      keeps := res > 0;
      if res > 0 {
        // All of it is claimed to be sent, even if only a part is.
        res := |p|;
      }
    }

    /** The packet into the empty output buffer, from which it is dropped again if the connection takes nothing. */
    method StartPacket(p: Packet, takes: int) returns (res: int)
      requires Valid() && |p| <= MAX_PACKET_SIZE && outpos == 0
      modifies this`sent, this`outpos, this`kept, outbuf
      ensures Valid() && old(sent) <= sent && res == Min(takes, PKT_LEN_SIZE + |p|)
      ensures kept == if res > 0 then old(kept) + [p] else old(kept)
      ensures |sent| == |old(sent)| + if res > 0 then res else 0
      ensures res <= 0 ==> outpos == 0 && sent == old(sent)
    {
      hide Frame, Frames, Packets, Residue;
      assert sent + outbuf[..0] == sent;
      PutFrame(p);
      NextFrame(kept, p);
      res := Flush(takes);
      if res <= 0 {
        outpos := 0;
        assert sent + outbuf[..0] == sent;
      } else {
        kept := kept + [p];
      }
    }

    method PutFrame(p: Packet)
      requires outbuf.Length == BUF_SIZE && |p| <= MAX_PACKET_SIZE
      modifies this`outpos, outbuf
      ensures outpos == PKT_LEN_SIZE + |p| && outbuf[..outpos] == Frame(p)
    {
      var frame := Frame(p);
      forall i | 0 <= i < |frame| {
        outbuf[i] := frame[i];
      }
      outpos := |frame|;
    }

    /** Signals every whole packet at the front of the input buffer, and keeps the rest. */
    method ProcessInput()
      requires inbuf.Length == BUF_SIZE && inpos <= BUF_SIZE
      modifies this`inpos, this`delivered, inbuf
      ensures inpos <= BUF_SIZE && inbuf[..inpos] == Residue(old(inbuf[..inpos]))
      ensures delivered == old(delivered) + Packets(old(inbuf[..inpos]))
    {
      hide Packets, Residue;
      ghost var data, before := inbuf[..inpos], delivered;
      while true
        invariant inpos <= BUF_SIZE
        invariant Residue(inbuf[..inpos]) == Residue(data)
        invariant delivered + Packets(inbuf[..inpos]) == before + Packets(data)
        decreases inpos
      {
        FirstPacket(inbuf[..inpos]);
        if inpos < PKT_LEN_SIZE {
          return;
        }
        var length := 256 * (inbuf[0] as int) + inbuf[1] as int;
        if inpos < PKT_LEN_SIZE + length {
          return;
        }
        TakePacket(length);
      }
    }

    /** Signals the packet of the given length at the front, and moves what follows there. */
    method TakePacket(length: nat)
      requires inbuf.Length == BUF_SIZE && PKT_LEN_SIZE + length <= inpos <= BUF_SIZE
      modifies this`inpos, this`delivered, inbuf
      ensures inpos == old(inpos) - (PKT_LEN_SIZE + length)
      ensures delivered == old(delivered) + [old(inbuf[..inpos])[PKT_LEN_SIZE..PKT_LEN_SIZE + length]]
      ensures inbuf[..inpos] == old(inbuf[..inpos])[PKT_LEN_SIZE + length..]
    {
      ghost var bytes := inbuf[..inpos];
      var packet := inbuf[PKT_LEN_SIZE..PKT_LEN_SIZE + length];
      assert packet == bytes[PKT_LEN_SIZE..PKT_LEN_SIZE + length];
      delivered := delivered + [packet];
      inpos := inpos - (PKT_LEN_SIZE + length);
      forall i | 0 <= i < inpos {
        inbuf[i] := inbuf[i + PKT_LEN_SIZE + length];
      }
    }

    /** The connection's Recv: it gives the next bytes of the stream, as many as it likes and fit, or fails. */
    method SocketRecv(stream: seq<byte>, gives: int) returns (res: int)
      requires inbuf.Length == BUF_SIZE && inpos <= BUF_SIZE
      modifies inbuf
      ensures res == Min(gives, Min(BUF_SIZE - inpos, |stream|)) && inbuf[..inpos] == old(inbuf[..inpos])
      ensures res >= 0 ==> inbuf[..inpos + res] == old(inbuf[..inpos]) + stream[..res]
    {
      res := Min(gives, Min(BUF_SIZE - inpos, |stream|));
      if res > 0 {
        forall i | 0 <= i < res {
          inbuf[inpos + i] := stream[i];
        }
      }
    }

    /** A read event on a connected socket; `stream` is what is on its way. */
    method OnReadEvent(stream: seq<byte>, gives: int) returns (taken: nat)
      requires Valid()
      modifies this`inpos, this`delivered, this`received, inbuf
      ensures Valid() && taken <= |stream| && received == old(received) + stream[..taken]
      ensures taken == if gives < 0 then 0 else Min(gives, Min(65538 - old(inpos), |stream|))
      ensures old(delivered) <= delivered
    {
      hide Frames, Packets, Residue, Accepted, Ready;
      var len := SocketRecv(stream, gives);
      if len < 0 {
        assert received + stream[..0] == received;
        return 0;
      }
      ghost var before := received;
      inpos := inpos + len;
      received := received + stream[..len];
      taken := len;
      ghost var data := inbuf[..inpos];
      ProcessInput();
      PacketsConcat(before, stream[..len]);
      assert data == Residue(before) + stream[..len];
      ResidueFits(received);
      if inpos >= BUF_SIZE {
        // "input buffer overflow", which would empty the buffer: the residue is always shorter than that.
        assert false;
      }
    }

    method OnWriteEvent(takes: int)
      requires Valid()
      modifies this`sent, this`outpos, outbuf
      ensures Valid() && old(sent) <= sent
      ensures outpos == old(outpos) - if takes > 0 then Min(takes, old(outpos)) else 0
    {
      if outpos > 0 {
        var res := Flush(takes);
      }
    }
  }

  // ---------------------------------------------------------------- a connection

  /** What one end does, and how many bytes the connection then takes or gives, if it does not fail. */
  datatype Event = SendPacket(p: Packet, takes: int) | Writable(takes: int) | Readable(gives: int)

  /**
   Any sequence of events on the two ends of a connection, which takes and hands over bytes in amounts of its own. The
   reader gets the kept packets in order, whole, and none but those, if no packet has more than 65535 bytes; and once
   all bytes are through, it has got them exactly in that case.
   */
  method Communicate(writer: AsyncTCPSocket, reader: AsyncTCPSocket, events: seq<Event>)
    requires writer != reader && writer.inbuf != reader.inbuf && writer.outbuf != reader.inbuf
    requires reader.outbuf != writer.outbuf
    requires writer.Valid() && writer.kept == [] && reader.Valid() && reader.received == []
    modifies writer, writer.outbuf, reader, reader.inbuf
    ensures writer.Valid() && reader.Valid()
    ensures Sendable(writer.kept) ==> reader.delivered <= writer.kept
    ensures writer.outpos == 0 && reader.received == writer.sent ==>
      && (reader.delivered == writer.kept <==> Sendable(writer.kept))
      && (Sendable(writer.kept) ==> reader.inpos == 0)
  {
    hide Frames, Packets, Residue, Frame;
    for i := 0 to |events|
      invariant writer.Valid() && reader.Valid() && reader.received <= writer.sent
    {
      match events[i] {
        case SendPacket(p, takes) =>
          var res, keeps := writer.Send(p, takes);
        case Writable(takes) =>
          writer.OnWriteEvent(takes);
        case Readable(gives) =>
          var taken := reader.OnReadEvent(writer.sent[|reader.received|..], gives);
      }
    }
    if Sendable(writer.kept) {
      PrefixDelivers(writer.kept, reader.received);
    }
    FramesRoundTripIff(writer.kept);
    assert writer.sent + [] == writer.sent;
  }
}
