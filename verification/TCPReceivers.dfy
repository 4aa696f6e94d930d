/** The receiver as an object. */
module TCPReceivers {
  import opened Bytes
  import opened Segments
  import opened WrappingIntegers
  import opened Reassembly
  import opened Receivers
  import opened StreamReassemblers

  class TCPReceiver {
    const reassembler: StreamReassembler
    const capacity: nat
    var isn: uint32
    var setIsn: bool

    ghost predicate Sound()
      reads this, reassembler, reassembler.output, reassembler.nodes
    {
      reassembler.Sound() && reassembler.capacity == capacity
    }

    ghost function View(): Receiver
      reads this, reassembler, reassembler.output
      requires reassembler.output.Valid()
    {
      Receiver(reassembler.View(), capacity, isn, setIsn)
    }

    constructor (capacity: nat)
      ensures Sound() && View() == NewReceiver(capacity)
      ensures fresh(reassembler) && fresh(reassembler.output) && reassembler.nodes == []
    {
      reassembler := new StreamReassembler(capacity);
      this.capacity, isn, setIsn := capacity, 0, false;
    }

    method SegmentReceived(seg: Segment)
      requires Sound()
      modifies this, reassembler, reassembler.output, reassembler.nodes
      ensures Sound() && View() == Receive(old(View()), seg)
      ensures forall n | n in reassembler.nodes :: n in old(reassembler.nodes) || fresh(n)
    {
      var eof := seg.header.fin;
      var number := seg.header.seqno;
      if seg.header.syn {
        isn := seg.header.seqno;
        number := Plus(number, 1);
        setIsn := true;
      }
      ghost var t := View();
      assert t == Learn(old(View()), seg.header);
      if setIsn {
        var abs := Unwrap(number, isn, reassembler.output.writtenSize);
        assert abs == PayloadNumber(t, seg.header);
        Accept(seg, eof, abs);
      }
    }

    method Accept(seg: Segment, eof: bool, abs: nat)
      requires Sound() && eof == seg.header.fin
      modifies reassembler, reassembler.output, reassembler.nodes
      ensures Sound() && View() == Receivers.Accept(old(View()), seg, abs)
      ensures forall n | n in reassembler.nodes :: n in old(reassembler.nodes) || fresh(n)
    {
      var written := reassembler.output.writtenSize;
      if abs == 0 || (abs > written && abs - written > capacity) { return; }
      ghost var t := Receivers.Accept(View(), seg, abs);
      PushInto(seg.payload, abs - 1, eof, t.re);
      assert View() == t;
    }

    method PushInto(data: seq<byte>, index: nat, eof: bool, ghost re: Reassembler)
      requires Sound() && re == Push(View().re, data, index, eof)
      modifies reassembler, reassembler.output, reassembler.nodes
      ensures Sound() && View() == old(View()).(re := re)
      ensures forall n | n in reassembler.nodes :: n in old(reassembler.nodes) || fresh(n)
    {
      reassembler.PushSubstring(data, index, eof);
    }

    method Ackno() returns (a: Option<uint32>)
      requires reassembler.output.Valid()
      ensures a == View().Ackno()
    {
      if !setIsn { return None; }
      var written := reassembler.output.writtenSize + 1;
      if reassembler.output.end {
        return Some(Plus(isn, (written + 1) % TWO32));
      }
      return Some(Plus(isn, written % TWO32));
    }

    method WindowSize() returns (n: int)
      requires reassembler.output.Valid()
      ensures n == View().WindowSize()
    {
      n := capacity - |reassembler.output.que|;
    }
  }
}
