/** A connection as an object that owns a receiver and a sender. */
module TCPConnections {
  import opened Bytes
  import opened Segments
  import opened Senders
  import opened TCPSenders
  import opened TCPReceivers
  import C = Connections
  import opened WrappingIntegers
  import opened Receivers

  class TCPConnection {
    const timeout: uint16
    const receiver: TCPReceiver
    const sender: TCPSender
    var segmentsOut: seq<Segment>
    var linger: bool
    var isActive: bool
    var waitTime: nat

    /** The two halves are sound and share no stream. */
    ghost predicate Sound()
      reads this, sender, sender.stream, receiver
      reads receiver.reassembler, receiver.reassembler.output, receiver.reassembler.nodes
    {
      sender.Valid() && receiver.Sound() && sender.stream != receiver.reassembler.output
    }

    ghost function View(): C.Connection
      reads this, sender, sender.stream, sender.timer, receiver, receiver.reassembler, receiver.reassembler.output
      requires sender.Valid() && receiver.reassembler.output.Valid()
    {
      C.Connection(timeout, receiver.View(), sender.View(), segmentsOut, linger, isActive, waitTime)
    }

    constructor (sendCapacity: nat, recvCapacity: nat, timeout: uint16, isn: uint32)
      ensures Sound() && View() == C.NewConnection(sendCapacity, recvCapacity, timeout, isn) && View().Valid()
    {
      this.timeout := timeout;
      receiver := new TCPReceiver(recvCapacity);
      sender := new TCPSender(sendCapacity, timeout, isn);
      segmentsOut, linger, isActive, waitTime := [], true, true, 0;
    }

    /** Moves the sender's queue out, stamping each segment with acknowledgment number and window. */
    method SendSegments()
      requires Sound()
      modifies this`segmentsOut, sender`segmentsOut
      ensures Sound() && View() == C.SendSegments(old(View()))
    {
      MoveQueue();
    }

    method MoveQueue()
      requires receiver.reassembler.output.Valid()
      modifies this`segmentsOut, sender`segmentsOut
      ensures segmentsOut == old(segmentsOut) + C.StampAll(receiver.View(), old(sender.segmentsOut))
      ensures sender.segmentsOut == []
    {
      ghost var r, out, queue := receiver.View(), segmentsOut, sender.segmentsOut;
      ghost var n := 0;
      while sender.segmentsOut != []
        invariant n <= |queue| && sender.segmentsOut == queue[n..]
        invariant segmentsOut == out + C.StampAll(r, queue)[..n]
        decreases |sender.segmentsOut|
      {
        MoveOne(r);
        n := n + 1;
      }
    }

    method MoveOne(ghost r: Receiver)
      requires receiver.reassembler.output.Valid() && r == receiver.View() && sender.segmentsOut != []
      modifies this`segmentsOut, sender`segmentsOut
      ensures sender.segmentsOut == old(sender.segmentsOut)[1..]
      ensures segmentsOut == old(segmentsOut) + [C.Stamp(r, old(sender.segmentsOut)[0])]
    {
      var seg := StampSegment(sender.segmentsOut[0]);
      segmentsOut := segmentsOut + [seg];
      sender.segmentsOut := sender.segmentsOut[1..];
    }

    method StampSegment(bare: Segment) returns (seg: Segment)
      requires receiver.reassembler.output.Valid()
      ensures seg == C.Stamp(receiver.View(), bare)
    {
      seg := bare;
      var ackno := receiver.Ackno();
      if ackno.Some? {
        var window := receiver.WindowSize();
        seg := seg.(header := seg.header.(ack := true, ackno := ackno.value, win := window % TWO16));
      }
    }

    method TryCleanClose()
      requires Sound()
      modifies this`isActive
      ensures Sound() && View() == C.TryCleanClose(old(View()))
    {
      if sender.stream.end && sender.stream.readSize == sender.stream.writtenSize && receiver.reassembler.output.end
         && sender.flightBytes == 0 && sender.nextSeqno == sender.stream.writtenSize + 2
         && (waitTime >= 10 * timeout || !linger)
      {
        isActive := false;
      }
    }

    method SendRst()
      requires Sound()
      modifies this`segmentsOut
      ensures Sound() && View() == var v := old(View()); v.(out := v.out + [C.Reset(v)])
    {
      var seg := StampSegment(Segment(PLAIN.(rst := true, seqno := Wrap(sender.nextSeqno, sender.isn)), []));
      segmentsOut := segmentsOut + [seg];
    }

    /** Both streams get an error and the connection is over. */
    method Break()
      requires Sound()
      modifies this`isActive, sender.stream, receiver.reassembler.output
      ensures Sound() && View() == C.Break(old(View()))
    {
      isActive := false;
      receiver.reassembler.output.SetError();
      sender.stream.SetError();
    }

    method GiveUp()
      requires Sound()
      modifies this`segmentsOut, this`isActive, sender.stream, receiver.reassembler.output
      ensures Sound() && View() == var v := old(View()); C.Break(v.(out := v.out + [C.Reset(v)]))
    {
      SendRst();
      Break();
    }

    method Connect()
      requires Sound()
      modifies this`segmentsOut, sender, sender.stream, sender.timer
      ensures Sound() && View() == C.Connect(old(View()))
    {
      sender.FillWindow();
      SendSegments();
    }

    method Write(data: seq<byte>) returns (n: nat)
      requires Sound()
      modifies this`segmentsOut, this`isActive, sender, sender.stream, sender.timer
      ensures Sound() && View() == C.Write(old(View()), data)
      ensures n == Min(old(View()).Outbound().Remaining(), |data|)
    {
      n := sender.stream.Write(data);
      sender.FillWindow();
      SendSegments();
      TryCleanClose();
    }

    method EndInputStream()
      requires Sound()
      modifies this`segmentsOut, sender, sender.stream, sender.timer
      ensures Sound() && View() == C.EndInputStream(old(View()))
    {
      sender.stream.EndInput();
      sender.FillWindow();
      SendSegments();
    }

    method Tick(ms: nat)
      requires Sound()
      modifies this`segmentsOut, this`isActive, this`waitTime
      modifies sender, sender.timer, sender.stream, receiver.reassembler.output
      ensures Sound() && View() == C.Tick(old(View()), ms)
    {
      sender.Tick(ms);
      if sender.consecutive > MAX_RETX_ATTEMPTS {
        GiveUp();
        return;
      }
      waitTime := waitTime + ms;
      SendSegments();
      TryCleanClose();
    }

    /** What the sender does about a segment. */
    method Respond(seg: Segment)
      requires Sound()
      modifies sender, sender.stream, sender.timer
      ensures Sound() && sender.View() == C.Respond(old(sender.View()), seg)
    {
      if seg.header.ack { sender.AckReceived(seg.header.ackno, seg.header.win); }
      sender.FillWindow();
      if seg.Length() > 0 && sender.segmentsOut == [] { sender.SendEmptySegment(); }
    }

    method SegmentReceived(seg: Segment)
      requires Sound()
      modifies this`segmentsOut, this`isActive, this`waitTime, this`linger
      modifies sender, sender.timer, sender.stream
      modifies receiver, receiver.reassembler, receiver.reassembler.output, receiver.reassembler.nodes
      ensures Sound() && View() == C.SegmentReceived(old(View()), seg)
      ensures forall n | n in receiver.reassembler.nodes :: n in old(receiver.reassembler.nodes) || fresh(n)
    {
      waitTime := 0;
      if seg.header.rst {
        Break();
        return;
      }
      receiver.SegmentReceived(seg);
      assert View() == var v := old(View()); v.(waited := 0, receiver := Receive(v.receiver, seg));
      React(seg);
    }

    /** What follows once the receiver has seen the segment. */
    method React(seg: Segment)
      requires Sound()
      modifies this`segmentsOut, this`isActive, this`linger, sender, sender.timer, sender.stream
      ensures Sound() && View() == C.React(old(View()), seg)
    {
      var ackno := receiver.Ackno();
      if ackno.Some? { Answer(seg); }
      TryCleanClose();
    }

    method Answer(seg: Segment)
      requires Sound()
      modifies this`segmentsOut, this`linger, sender, sender.timer, sender.stream
      ensures Sound() && View() == C.Answer(old(View()), seg)
    {
      Respond(seg);
      SendSegments();
      StopLingering();
    }

    method StopLingering()
      requires Sound()
      modifies this`linger
      ensures Sound()
      ensures View() == var v := old(View()); v.(linger := v.linger && (v.Outbound().Eof() || !v.Inbound().ended))
    {
      var eof := sender.stream.end && sender.stream.readSize == sender.stream.writtenSize;
      if !eof && receiver.reassembler.output.end { linger := false; }
    }
  }
}
