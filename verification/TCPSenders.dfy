/** The sender and its timer as objects whose methods update their fields. */
module TCPSenders {
  import opened Bytes
  import opened ByteStreams
  import opened Segments
  import opened WrappingIntegers
  import opened Senders

  class RetransmissionTimer {
    var active: bool
    var expired: bool
    const initTimeout: uint16
    var timeout: uint32
    var curTime: uint32

    ghost function View(): Timer
      reads this
    {
      Timer(active, expired, initTimeout, timeout, curTime)
    }

    constructor (retxTimeout: uint16)
      ensures View() == Timer(false, false, retxTimeout, retxTimeout, 0)
    {
      active, expired, initTimeout, timeout, curTime := false, false, retxTimeout, retxTimeout, 0;
    }

    method Start()
      modifies this
      ensures View() == old(View()).Start()
    {
      expired, active, curTime := false, true, 0;
    }

    method Stop()
      modifies this
      ensures View() == old(View()).Stop()
    {
      active := false;
    }

    method Reset()
      modifies this
      ensures View() == old(View()).Reset()
    {
      timeout := initTimeout;
    }

    /** The counter of consecutive retransmissions is passed in and handed back. */
    method Tictoc(window: uint16, ms: nat, consecutive: uint32) returns (count: uint32)
      modifies this
      ensures View() == old(View()).Tick(window, ms)
      ensures count == if old(View()).Counts(window, ms) then (consecutive + 1) % TWO32 else consecutive
    {
      count := consecutive;
      if active {
        curTime := (curTime + ms % TWO32) % TWO32;
        if curTime >= timeout {
          active := false;
          count := Expire(window, consecutive);
          expired := true;
        }
      }
    }

    method Expire(window: uint16, consecutive: uint32) returns (count: uint32)
      modifies this`timeout
      ensures timeout == if window != 0 then old(timeout) * 2 % TWO32 else old(timeout)
      ensures count == if window != 0 then (consecutive + 1) % TWO32 else consecutive
    {
      count := consecutive;
      if window != 0 {
        count := (consecutive + 1) % TWO32;
        timeout := timeout * 2 % TWO32;
      }
    }
  }

  /** The loop of `fill_window`, unrolled once. */
  lemma FillLoopRound(s: Sender, room: nat)
    requires s.stream.Valid() && room > 0 && !s.fin
    ensures var n := NextSegment(s, room).Length();
            FillLoop(s, room) == if n == 0 then s else FillLoop(Send(s, room), room - n)
  {
  }

  class TCPSender {
    const isn: uint32
    var segmentsOut: seq<Segment>
    const stream: ByteStream
    var nextSeqno: nat
    var windowSize: uint16
    var ackno: nat
    var flightBytes: nat
    var setFin: bool
    var waitAck: seq<Segment>
    const timer: RetransmissionTimer
    var consecutive: uint32

    ghost predicate Valid()
      reads this, stream
    {
      stream.Valid() && flightBytes == Total(waitAck)
    }

    ghost function View(): (s: Sender)
      reads this, stream, timer
      requires Valid()
      ensures s.stream.Valid() && s.flight == Total(s.wait)
    {
      Sender(isn, segmentsOut, stream.View(), nextSeqno, windowSize, ackno, flightBytes, setFin, waitAck,
             timer.View(), consecutive)
    }

    constructor (capacity: nat, retxTimeout: uint16, isn: uint32)
      ensures Valid() && View() == NewSender(capacity, retxTimeout, isn) && fresh(stream) && fresh(timer)
    {
      this.isn := isn;
      segmentsOut, waitAck := [], [];
      stream := new ByteStream(capacity);
      timer := new RetransmissionTimer(retxTimeout);
      nextSeqno, windowSize, ackno, flightBytes := 0, 1, 0, 0;
      setFin, consecutive := false, 0;
    }

    /** Builds the next segment, taking its payload off the stream. */
    method BuildSegment(room: nat) returns (seg: Segment)
      requires Valid() && room > 0
      modifies stream
      ensures Valid() && seg == NextSegment(old(View()), room)
      ensures stream.View() == old(stream.View()).Pop(ReadSize(old(View()), room))
    {
      var header := PLAIN.(seqno := Wrap(nextSeqno, isn));
      var n := 0;
      if nextSeqno == 0 {
        header := header.(syn := true);
        n := 1;
      }
      var payload := stream.Read(Min(room - n, MAX_PAYLOAD));
      n := n + |payload|;
      if stream.end && stream.readSize == stream.writtenSize && n < room {
        header := header.(fin := true);
      }
      seg := Segment(header, payload);
    }

    /** One round of the loop in `fill_window`; returns the sequence space used. */
    method SendOne(room: nat) returns (n: nat)
      requires Valid() && room > 0
      modifies this, stream, timer
      ensures Valid() && n == NextSegment(old(View()), room).Length() <= room
      ensures View() == if n == 0 then old(View()) else Send(old(View()), room)
    {
      var seg := BuildSegment(room);
      n := seg.Length();
      if n > 0 { Enqueue(seg); }
    }

    /** Puts a segment on both queues and makes sure the timer runs. */
    method Enqueue(seg: Segment)
      requires Valid()
      modifies this, timer
      ensures Valid()
      ensures var s := old(View());
              View() == s.(next := s.next + seg.Length(), fin := s.fin || seg.header.fin,
                           flight := s.flight + seg.Length(), out := s.out + [seg], wait := s.wait + [seg],
                           timer := if s.timer.active then s.timer else s.timer.Start())
    {
      if seg.header.fin { setFin := true; }
      nextSeqno := nextSeqno + seg.Length();
      flightBytes := flightBytes + seg.Length();
      segmentsOut := segmentsOut + [seg];
      if !timer.active { timer.Start(); }
      TotalSnoc(waitAck, seg);
      waitAck := waitAck + [seg];
    }

    method FillWindow()
      requires Valid()
      modifies this, stream, timer
      ensures Valid() && View() == Senders.FillWindow(old(View()))
    {
      if setFin { return; }
      var limit := ackno + if windowSize != 0 then windowSize else 1;
      if limit <= nextSeqno { return; }
      FillRoom(limit - nextSeqno);
    }

    /** The loop of `fill_window`. */
    method FillRoom(size: nat)
      requires Valid()
      modifies this, stream, timer
      ensures Valid() && View() == FillLoop(old(View()), size)
    {
      var room := size;
      ghost var s := View();
      while room > 0 && !setFin
        invariant Valid() && s == View() && FillLoop(s, room) == FillLoop(old(View()), size)
        decreases room
      {
        FillLoopRound(s, room);
        var n := SendOne(room);
        if n == 0 { return; }
        s, room := View(), room - n;
      }
    }

    method AckReceived(ack: uint32, window: uint16)
      requires Valid()
      modifies this, timer
      ensures Valid() && View() == Senders.AckReceived(old(View()), ack, window)
    {
      var abs := Unwrap(ack, isn, nextSeqno);
      ackno := abs;
      if abs > nextSeqno { return; }
      windowSize := window;
      var n := PopAcked(abs);
      TotalSplit(old(waitAck), n);
      assert View() == TakeAck(old(View()), abs, window);
      if n > 0 { NewDataAcked(); }
    }

    method NewDataAcked()
      requires Valid()
      modifies this`consecutive, timer
      ensures Valid() && View() == Refresh(old(View()))
    {
      timer.Reset();
      consecutive := 0;
      if waitAck != [] { timer.Start(); } else { timer.Stop(); }
    }

    /** The loop that takes wholly acknowledged segments off the front of the queue. */
    method PopAcked(abs: nat) returns (n: nat)
      requires Valid()
      modifies this`waitAck, this`flightBytes
      ensures n == AckedCount(old(waitAck), abs, isn, nextSeqno)
      ensures waitAck == old(waitAck)[n..] && flightBytes == Total(waitAck)
    {
      n := 0;
      while waitAck != []
        invariant 0 <= n <= |old(waitAck)| && waitAck == old(waitAck)[n..] && flightBytes == Total(waitAck)
        invariant n + AckedCount(waitAck, abs, isn, nextSeqno) == AckedCount(old(waitAck), abs, isn, nextSeqno)
        decreases |waitAck|
      {
        var temp := waitAck[0];
        if abs >= Unwrap(temp.header.seqno, isn, nextSeqno) + temp.Length() {
          flightBytes := flightBytes - temp.Length();
          waitAck := waitAck[1..];
          n := n + 1;
        } else {
          return;
        }
      }
    }

    method Tick(ms: nat)
      requires Valid()
      modifies this, timer
      ensures Valid() && View() == TickSender(old(View()), ms)
    {
      consecutive := timer.Tictoc(windowSize, ms, consecutive);
      if timer.expired && waitAck != [] {
        segmentsOut := segmentsOut + [waitAck[0]];
        timer.Start();
      }
    }

    method SendEmptySegment()
      requires Valid()
      modifies this
      ensures Valid() && View() == SendEmpty(old(View()))
    {
      segmentsOut := segmentsOut + [Segment(PLAIN.(seqno := Wrap(nextSeqno, isn)), [])];
    }
  }
}
