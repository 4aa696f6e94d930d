/** What a connection answers to a segment. */
module Replies {
  import opened Bytes
  import opened Segments
  import opened WrappingIntegers
  import opened Senders
  import opened SenderSafety
  import opened Receivers
  import opened Connections
  import N = Network

  /** `d` has queued more than `c`, every new segment stamped with the receiver of `d`. */
  ghost predicate Answers(c: Connection, d: Connection)
  {
    && c.out <= d.out
    && forall i | |c.out| <= i < |d.out| :: Stamped(d.out[i].header, d.receiver)
  }

  /** The header acknowledges everything received and advertises the window of this moment. */
  ghost predicate Stamped(h: Header, r: Receiver)
  {
    r.known && h.ack && Some(h.ackno) == r.Ackno() && h.win == r.WindowSize() % TWO16
  }

  /** What goes out is changed in three fields at most: once a SYN is known, the acknowledgment of all that has
      been received and the window. */
  lemma StampExact(r: Receiver, seg: Segment)
    ensures var h := Stamp(r, seg).header;
            && Stamp(r, seg).payload == seg.payload && h == seg.header.(ack := h.ack, ackno := h.ackno, win := h.win)
            && if r.known then h.ack && h.ackno == Wrap(r.AbsAckno(), r.isn) && h.win == r.WindowSize() % TWO16
               else h == seg.header
  {
  }

  /** Once a SYN is known, a segment that occupies sequence space is answered by at least one
      segment, and every answer carries the current acknowledgment number and window. */
  lemma ReplyCarriesAck(c: Connection, seg: Segment)
    requires c.Valid() && !seg.header.rst && Receive(c.receiver, seg).known
    ensures var d := SegmentReceived(c, seg); Answers(c, d) && (seg.Length() > 0 ==> |d.out| > |c.out|)
  {
    var r, s := Receive(c.receiver, seg), Respond(c.sender, seg);
    var stamped := StampAll(r, s.out);
    assert SegmentReceived(c, seg).out == c.out + stamped;
  }

  lemma RespondNonempty(s: Sender, seg: Segment)
    requires Inv(s) && seg.Length() == 0 && forall o | o in s.out :: o.Length() > 0
    ensures forall o | o in Respond(s, seg).out :: o.Length() > 0
  {
    AckKeeps(s, seg.header.ackno, seg.header.win);
    FillNonempty(if seg.header.ack then AckReceived(s, seg.header.ackno, seg.header.win) else s);
  }

  lemma FillNonempty(s: Sender)
    requires Inv(s) && forall o | o in s.out :: o.Length() > 0
    ensures forall o | o in FillWindow(s).out :: o.Length() > 0
  {
    var t := FillWindow(s);
    var added := FillQueues(s);
    FillFrame(s);
    TiledPositive(added, s.next, s.isn, t.Sent(), t.fin);
  }

  /** A segment of length zero never causes a reply of length zero. */
  lemma NoEmptyReply(c: Connection, seg: Segment)
    requires c.Valid() && Inv(c.sender) && seg.Length() == 0
    requires forall o | o in c.sender.out :: o.Length() > 0
    ensures var d := SegmentReceived(c, seg);
            c.out <= d.out && forall i | |c.out| <= i < |d.out| :: d.out[i].Length() > 0
  {
    var r := Receive(c.receiver, seg);
    if !seg.header.rst && r.known {
      RespondNonempty(c.sender, seg);
      var queue := Respond(c.sender, seg).out;
      var stamped := StampAll(r, queue);
      assert SegmentReceived(c, seg).out == c.out + stamped;
      assert forall i | 0 <= i < |queue| :: stamped[i].Length() == queue[i].Length() > 0;
    }
  }

  /** Nothing of length zero is left in the sender's queue. */
  predicate Filled(c: Connection) { forall seg | seg in c.sender.out :: seg.Length() > 0 }

  lemma StepFilled(c: Connection, op: N.Op)
    requires c.Valid() && Inv(c.sender) && Filled(c)
    ensures Filled(N.Apply(c, op))
  {
    if op.Tick? && c.sender.wait != [] {
      assert Made(c.sender.wait[0], c.sender.Base(), c.sender.isn, c.sender.Sent(), c.sender.fin);
    }
  }

  lemma {:induction false} RunFilled(n: N.Net, moves: seq<N.Move>)
    requires n.Valid() && N.Safe(n) && N.IsRun(n, moves) && Filled(n.x) && Filled(n.y)
    ensures var m := N.Run(n, moves); N.Safe(m) && Filled(m.x) && Filled(m.y)
    decreases |moves|
  {
    if moves != [] {
      var m := moves[0];
      if m.atX {
        StepFilled(n.x, m.op);
        N.StepSafe(n, m.op);
      } else {
        StepFilled(n.y, m.op);
        N.StepSafe(n.Flip(), m.op);
      }
      RunFilled(N.Next(n, m), moves[1..]);
    }
  }

  /** In every run of two endpoints, a segment of length zero that either receives, of whatever origin,
      is not answered by one of length zero. */
  lemma {:induction false} RunNoEmptyReply(n: N.Net, moves: seq<N.Move>, atX: bool, seg: Segment)
    requires N.Start(n) && N.IsRun(n, moves) && seg.Length() == 0
    ensures var m := N.Run(n, moves);
            forall o | o in SegmentReceived(if atX then m.x else m.y, seg).out :: o.Length() > 0
  {
    var m := N.Run(n, moves);
    N.StartSafe(n);
    RunFilled(n, moves);
    NoEmptyReply(if atX then m.x else m.y, seg);
  }

  /** Nothing is waiting that could be sent: the sender's queue has been moved out, and its window
      is full, or FIN has been sent, or there is nothing to send yet. */
  ghost predicate Settled(c: Connection)
  {
    && c.Outbound().Valid() && c.sender.out == []
    && (c.sender.next >= c.sender.Limit() || c.sender.fin || (c.Outbound().Buffered() == [] && !c.Outbound().ended))
  }

  /** No call of the application leaves anything behind that the peer's window has room for. */
  lemma CallsSettle(c: Connection, data: seq<byte>)
    requires c.Valid()
    ensures Settled(Connect(c)) && Settled(Write(c, data)) && Settled(EndInputStream(c))
  {
    FillExhausts(c.sender);
    FillExhausts(c.sender.(stream := c.Outbound().Write(data)));
    FillExhausts(c.sender.(stream := c.Outbound().EndInput()));
  }

  lemma RespondExhausts(s: Sender, seg: Segment)
    requires s.stream.Valid() && s.flight == Total(s.wait)
    ensures var t := Respond(s, seg);
            t.stream.Valid() && (t.next >= t.Limit() || t.fin || (t.stream.Buffered() == [] && !t.stream.ended))
  {
    FillExhausts(if seg.header.ack then AckReceived(s, seg.header.ackno, seg.header.win) else s);
  }

  /** Nor does a segment that arrives once a SYN is known. */
  lemma ArrivalSettles(c: Connection, seg: Segment)
    requires c.Valid() && !seg.header.rst && Receive(c.receiver, seg).known
    ensures Settled(SegmentReceived(c, seg))
  {
    RespondExhausts(c.sender, seg);
    var s := Respond(c.sender, seg);
    var d := SegmentReceived(c, seg);
    assert d.sender == s.(out := []);
  }
}
