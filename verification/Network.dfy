/** Two endpoints and a channel in each direction. A channel remembers every segment ever put on it
    and any of them may be delivered at any time, any number of times, in any order, or never: the
    network loses, duplicates and reorders at will. */
module Network {
  import opened Bytes
  import opened Segments
  import opened WrappingIntegers
  import opened Senders
  import opened SenderSafety
  import opened Receivers
  import opened Flow
  import C = Connections

  type Connection = C.Connection

  /** A segment on a channel, with the absolute numbers its 32-bit fields stood for when it was sent.
      Endpoints see only `seg`. */
  datatype Packet = Packet(seg: Segment, seqAt: nat, ackAt: nat)

  datatype Op =
    | Connect
    | Write(data: seq<byte>)
    | End
    | Tick(ms: nat)
    | Read(len: nat)
    | Deliver(packet: Packet)

  function Apply(c: Connection, op: Op): (d: Connection)
    requires c.Valid()
    ensures d.Valid()
  {
    match op
    case Connect => C.Connect(c)
    case Write(data) => C.Write(c, data)
    case End => C.EndInputStream(c)
    case Tick(ms) => C.Tick(c, ms)
    case Read(len) => C.ReadInbound(c, len)
    case Deliver(packet) => C.SegmentReceived(c, packet.seg)
  }

  /** A packet is fresh if its numbers are within half the sequence space of what the endpoint
      compares them with. */
  predicate Fresh(c: Connection, packet: Packet)
  {
    && Near(PayloadAt(packet.seg, packet.seqAt), c.receiver.re.Written())
    && (packet.seg.header.ack ==> Near(packet.ackAt, c.sender.next))
  }

  /** Nothing is accepted from the application after FIN and at or past 2^64 - 2^17 bytes; only fresh
      packets that were sent are delivered. */
  predicate Enabled(c: Connection, incoming: set<Packet>, op: Op)
    requires c.Valid()
  {
    match op
    case Write(data) => MayFeed(c.sender, data)
    case Deliver(packet) => packet in incoming && Fresh(c, packet)
    case _ => true
  }

  /** What an endpoint has queued, as packets. */
  function Packets(c: Connection): set<Packet>
  {
    set seg | seg in c.out :: Packet(seg, Unwrap(seg.header.seqno, c.sender.isn, c.sender.next), c.receiver.AbsAckno())
  }

  datatype Net = Net(x: Connection, y: Connection, xy: set<Packet>, yx: set<Packet>)
  {
    predicate Valid() { x.Valid() && y.Valid() }

    function Flip(): Net { Net(y, x, yx, xy) }
  }

  /** Endpoint `x` makes a step and everything it has queued goes onto the channel. */
  function StepX(n: Net, op: Op): (m: Net)
    requires n.x.Valid()
    ensures m.x.Valid() && m.y == n.y
  {
    var c := Apply(n.x, op);
    n.(x := c.(out := []), xy := n.xy + Packets(c))
  }

  // --- The invariant ---

  /** A connection that is over without an error has sent and seen acknowledged everything including
      its FIN, and has the whole inbound stream. */
  ghost predicate Closing(c: Connection)
  {
    !c.active && !c.Outbound().error ==> c.sender.fin && c.sender.flight == 0 && c.Inbound().ended
  }

  const SLACK: nat := 70000

  /** One direction: from `n.x` to `n.y`. */
  ghost predicate Half(n: Net)
  {
    && Intact(n.x.sender, n.y.receiver)
    && n.x.out == [] && OutRecent(n.x.sender, SLACK) && Closing(n.x)
    && (forall p | p in n.xy :: SentAt(n.x.sender, p.seg, p.seqAt))
    && (forall p | p in n.yx :: AcksAt(n.x.sender, n.y.receiver, p.seg, p.ackAt))
  }

  ghost predicate Safe(n: Net) { Half(n) && Half(n.Flip()) }

  // --- A step of one endpoint, seen from both directions ---

  /** What a step from `c` to `d` (queue not yet on the channel) must do: keep both directions
      intact, and queue only segments that carry the stream and acknowledge what was received. */
  ghost predicate Good(c: Connection, d: Connection, peer: Connection)
  {
    && Intact(d.sender, peer.receiver) && Follows(c.sender, d.sender)
    && Intact(peer.sender, d.receiver) && Upholds(c.receiver, d.receiver)
    && OutRecent(d.sender, SLACK) && Closing(d)
    && (forall seg | seg in d.out ::
          && SentAt(d.sender, seg, Unwrap(seg.header.seqno, d.sender.isn, d.sender.next))
          && AcksAt(peer.sender, d.receiver, seg, d.receiver.AbsAckno()))
  }

  lemma GoodStep(n: Net, op: Op)
    requires Safe(n) && n.x.Valid() && Good(n.x, Apply(n.x, op), n.y)
    ensures Safe(StepX(n, op))
  {
    var c, d := n.x, Apply(n.x, op);
    var m := StepX(n, op);
    forall p | p in m.xy
      ensures SentAt(m.x.sender, p.seg, p.seqAt) && AcksAt(n.y.sender, m.x.receiver, p.seg, p.ackAt)
    {
      if p in n.xy {
        SentStays(c.sender, d.sender, p.seg, p.seqAt);
        AcksStay(n.y.sender, c.receiver, d.receiver, p.seg, p.ackAt);
      }
    }
  }

  // --- Putting queued segments out ---

  lemma StampSent(s: Sender, r: Receiver, seg: Segment, a: nat)
    requires SentAt(s, seg, a)
    ensures SentAt(s, C.Stamp(r, seg), a)
  {
  }

  lemma StampAcks(s: Sender, r: Receiver, seg: Segment)
    requires Intact(s, r) && !seg.header.ack
    ensures AcksAt(s, r, C.Stamp(r, seg), r.AbsAckno())
  {
    if r.known { PromiseMade(s, r); }
  }

  lemma NextSmall(s: Sender, r: Receiver)
    requires Intact(s, r)
    ensures s.next < TWO64
  {
  }

  /** The state before the queue of the sender is moved out. */
  ghost predicate Primed(c: Connection, d: Connection, peer: Connection)
  {
    && Intact(d.sender, peer.receiver) && Follows(c.sender, d.sender)
    && Intact(peer.sender, d.receiver) && Upholds(c.receiver, d.receiver)
    && OutRecent(d.sender, 2 * SLACK) && Closing(d) && d.out == []
  }

  lemma FlushSegment(s: Sender, peer: Connection, r: Receiver, seg: Segment)
    requires Intact(s, peer.receiver) && Intact(peer.sender, r) && Recent(s, seg, 2 * SLACK)
    ensures var o := C.Stamp(r, seg);
            && SentAt(s, o, Unwrap(o.header.seqno, s.isn, s.next))
            && AcksAt(peer.sender, r, o, r.AbsAckno())
  {
    NextSmall(s, peer.receiver);
    RecentRecovered(s, seg, 2 * SLACK);
    StampSent(s, r, seg, Unwrap(seg.header.seqno, s.isn, s.next));
    StampAcks(peer.sender, r, seg);
  }

  lemma FlushGood(c: Connection, d: Connection, peer: Connection)
    requires Primed(c, d, peer)
    ensures Good(c, C.SendSegments(d), peer)
  {
    var e := C.SendSegments(d);
    forall seg | seg in e.out
      ensures SentAt(d.sender, seg, Unwrap(seg.header.seqno, d.sender.isn, d.sender.next))
      ensures AcksAt(peer.sender, d.receiver, seg, d.receiver.AbsAckno())
    {
      var i :| 0 <= i < |e.out| && e.out[i] == seg;
      FlushSegment(d.sender, peer, d.receiver, d.sender.out[i]);
    }
  }

  lemma CloseGood(c: Connection, d: Connection, peer: Connection)
    requires Good(c, d, peer)
    ensures Good(c, C.TryCleanClose(d), peer)
  {
  }

  /** Once FIN is sent and everything is acknowledged, the sender stays that way. */
  lemma DoneStays(s: Sender, ackno: uint32, window: uint16)
    requires Inv(s) && s.fin && s.flight == 0
    ensures FillWindow(s) == s
    ensures var t := AckReceived(s, ackno, window); t.fin && t.flight == 0
  {
    TotalSplit(s.wait, AckedCount(s.wait, AbsAck(s, ackno), s.isn, s.next));
  }

  // --- The steps, one by one ---

  lemma FillPrimed(c: Connection, d: Connection, peer: Connection)
    requires Primed(c, d, peer) && OutRecent(d.sender, SLACK)
    ensures Primed(c, d.(sender := FillWindow(d.sender)), peer)
  {
    FillIntact(d.sender, peer.receiver);
    FillRecent(d.sender, SLACK);
    WidenRecent(FillWindow(d.sender), SLACK + 65535, 2 * SLACK);
    if !d.active && !d.Outbound().error { DoneStays(d.sender, 0, 0); }
    FillFrame(d.sender);
  }

  lemma WidenRecent(s: Sender, slack: nat, slack': nat)
    requires OutRecent(s, slack) && slack <= slack'
    ensures OutRecent(s, slack')
  {
    forall seg | seg in s.out ensures Recent(s, seg, slack') {
      assert Recent(s, seg, slack);
    }
  }

  lemma FeedPrimed(c: Connection, data: seq<byte>, peer: Connection)
    requires Primed(c, c, peer) && OutRecent(c.sender, SLACK) && c.Valid() && MayFeed(c.sender, data)
    ensures var d := c.(sender := Feed(c.sender, data)); Primed(c, d, peer) && OutRecent(d.sender, SLACK)
  {
    var s := Feed(c.sender, data);
    FeedIntact(c.sender, peer.receiver, data);
    RecentStays(c.sender, s, SLACK, SLACK);
    WidenRecent(s, SLACK, 2 * SLACK);
  }

  lemma FinishPrimed(c: Connection, peer: Connection)
    requires Primed(c, c, peer) && OutRecent(c.sender, SLACK)
    ensures var d := c.(sender := Finish(c.sender)); Primed(c, d, peer) && OutRecent(d.sender, SLACK)
  {
    var s := Finish(c.sender);
    FinishIntact(c.sender, peer.receiver);
    RecentStays(c.sender, s, SLACK, SLACK);
    WidenRecent(s, SLACK, 2 * SLACK);
  }

  lemma ConnectGood(c: Connection, peer: Connection)
    requires Primed(c, c, peer) && OutRecent(c.sender, SLACK) && c.Valid()
    ensures Good(c, C.Connect(c), peer)
  {
    FillPrimed(c, c, peer);
    FlushGood(c, c.(sender := FillWindow(c.sender)), peer);
  }

  lemma WriteGood(c: Connection, data: seq<byte>, peer: Connection)
    requires Primed(c, c, peer) && OutRecent(c.sender, SLACK) && c.Valid()
    requires MayFeed(c.sender, data)
    ensures Good(c, C.Write(c, data), peer)
  {
    FeedPrimed(c, data, peer);
    var d := c.(sender := Feed(c.sender, data));
    FillPrimed(c, d, peer);
    var e := d.(sender := FillWindow(d.sender));
    FlushGood(c, e, peer);
    CloseGood(c, C.SendSegments(e), peer);
  }

  lemma EndGood(c: Connection, peer: Connection)
    requires Primed(c, c, peer) && OutRecent(c.sender, SLACK) && c.Valid()
    ensures Good(c, C.EndInputStream(c), peer)
  {
    FinishPrimed(c, peer);
    var d := c.(sender := Finish(c.sender));
    FillPrimed(c, d, peer);
    FlushGood(c, d.(sender := FillWindow(d.sender)), peer);
  }

  // --- tick ---

  lemma TickRecent(s: Sender, peer: Receiver, ms: nat)
    requires Intact(s, peer) && OutRecent(s, SLACK)
    ensures OutRecent(TickSender(s, ms), SLACK)
  {
    var t := TickSender(s, ms);
    TickIntact(s, peer, ms);
    FlightBound(s);
    forall seg | seg in t.out ensures Recent(t, seg, SLACK) {
      if seg in s.out {
        assert Recent(s, seg, SLACK);
        var a :| SentAt(s, seg, a) && s.next - a <= SLACK;
        SentStays(s, t, seg, a);
      } else {
        assert seg == s.wait[0] && Made(seg, s.Base(), s.isn, s.Sent(), s.fin);
        assert SentAt(t, seg, s.Base());
      }
    }
  }

  lemma TickPrimed(c: Connection, ms: nat, peer: Connection)
    requires Primed(c, c, peer) && OutRecent(c.sender, SLACK)
    ensures var d := c.(sender := TickSender(c.sender, ms)); Primed(c, d, peer) && OutRecent(d.sender, SLACK)
  {
    TickIntact(c.sender, peer.receiver, ms);
    TickRecent(c.sender, peer.receiver, ms);
    WidenRecent(TickSender(c.sender, ms), SLACK, 2 * SLACK);
  }

  /** Setting the error flags and going inactive touches nothing the protocol relies on. */
  lemma BreakGood(c: Connection, d: Connection, peer: Connection)
    requires Good(c, d, peer)
    ensures Good(c, C.Break(d), peer)
  {
    var e := C.Break(d);
    assert e.sender.Sent() == d.sender.Sent();
    BreakIntact(d.sender, peer.receiver);
    BreakIntact(peer.sender, d.receiver);
    RecentStays(d.sender, e.sender, SLACK, SLACK);
    forall seg | seg in e.out
      ensures SentAt(e.sender, seg, Unwrap(seg.header.seqno, e.sender.isn, e.sender.next))
      ensures AcksAt(peer.sender, e.receiver, seg, e.receiver.AbsAckno())
    {
      SentStays(d.sender, e.sender, seg, Unwrap(seg.header.seqno, d.sender.isn, d.sender.next));
    }
  }

  lemma BreakIntact(s: Sender, r: Receiver)
    requires Intact(s, r)
    ensures Intact(s.(stream := s.stream.SetError()), r) && Follows(s, s.(stream := s.stream.SetError()))
    ensures var t := r.(re := r.re.(out := r.re.out.SetError())); Intact(s, t) && Upholds(r, t)
  {
    assert s.(stream := s.stream.SetError()).Sent() == s.Sent();
  }

  lemma ResetGood(c: Connection, d: Connection, peer: Connection)
    requires Primed(c, d, peer) && OutRecent(d.sender, SLACK)
    ensures Good(c, d.(out := [C.Reset(d)]), peer)
  {
    var rst := Segment(PLAIN.(rst := true, seqno := Seqno(d.sender)), []);
    assert SentAt(d.sender, rst, d.sender.next);
    assert Recent(d.sender, rst, 2 * SLACK);
    FlushSegment(d.sender, peer, d.receiver, rst);
  }

  lemma GiveUpGood(c: Connection, d: Connection, peer: Connection)
    requires Primed(c, d, peer) && OutRecent(d.sender, SLACK)
    ensures Good(c, C.Break(d.(out := d.out + [C.Reset(d)])), peer)
  {
    ResetGood(c, d, peer);
    assert d.out + [C.Reset(d)] == [C.Reset(d)];
    BreakGood(c, d.(out := [C.Reset(d)]), peer);
  }

  lemma TickGood(c: Connection, ms: nat, peer: Connection)
    requires Primed(c, c, peer) && OutRecent(c.sender, SLACK)
    ensures Good(c, C.Tick(c, ms), peer)
  {
    TickPrimed(c, ms, peer);
    var d := c.(sender := TickSender(c.sender, ms));
    if d.sender.retx > MAX_RETX_ATTEMPTS {
      GiveUpGood(c, d, peer);
    } else {
      var e := d.(waited := d.waited + ms);
      FlushGood(c, e, peer);
      CloseGood(c, C.SendSegments(e), peer);
    }
  }

  // --- delivery ---

  /** The sender's part of a delivery. */
  lemma RespondPrimed(c: Connection, d: Connection, peer: Connection, seg: Segment, k: nat)
    requires Primed(c, d, peer) && OutRecent(d.sender, SLACK)
    requires AcksAt(d.sender, peer.receiver, seg, k) && (seg.header.ack ==> Near(k, d.sender.next))
    ensures Primed(c, d.(sender := C.Respond(d.sender, seg)), peer)
  {
    var s1 := if seg.header.ack then AckReceived(d.sender, seg.header.ackno, seg.header.win) else d.sender;
    if seg.header.ack { AckPrimed(c, d, peer, seg, k); }
    var d1 := d.(sender := s1);
    FillPrimed(c, d1, peer);
    var d2 := d1.(sender := FillWindow(s1));
    if seg.Length() > 0 && d2.sender.out == [] { EmptyPrimed(c, d2, peer); }
  }

  lemma AckPrimed(c: Connection, d: Connection, peer: Connection, seg: Segment, k: nat)
    requires Primed(c, d, peer) && OutRecent(d.sender, SLACK) && seg.header.ack
    requires AcksAt(d.sender, peer.receiver, seg, k) && Near(k, d.sender.next)
    ensures var e := d.(sender := AckReceived(d.sender, seg.header.ackno, seg.header.win));
            Primed(c, e, peer) && OutRecent(e.sender, SLACK)
  {
    var t := AckReceived(d.sender, seg.header.ackno, seg.header.win);
    AckIntact(d.sender, peer.receiver, seg, k);
    RecentStays(d.sender, t, SLACK, SLACK);
    WidenRecent(t, SLACK, 2 * SLACK);
    if !d.active && !d.Outbound().error { DoneStays(d.sender, seg.header.ackno, seg.header.win); }
  }

  lemma EmptyPrimed(c: Connection, d: Connection, peer: Connection)
    requires Primed(c, d, peer) && d.sender.out == []
    ensures Primed(c, d.(sender := SendEmpty(d.sender)), peer)
  {
    var t := SendEmpty(d.sender);
    var seg := t.out[0];
    assert SentAt(t, seg, t.next);
    assert Recent(t, seg, 2 * SLACK);
  }

  lemma ReceivePrimed(c: Connection, peer: Connection, p: Packet)
    requires Primed(c, c, peer) && SentAt(peer.sender, p.seg, p.seqAt) && Fresh(c, p)
    ensures Primed(c, c.(waited := 0, receiver := Receive(c.receiver, p.seg)), peer)
  {
    ReceiveIntact(peer.sender, c.receiver, p.seg, p.seqAt);
  }

  lemma DeliverGood(c: Connection, peer: Connection, p: Packet)
    requires Primed(c, c, peer) && OutRecent(c.sender, SLACK) && c.Valid()
    requires SentAt(peer.sender, p.seg, p.seqAt) && AcksAt(c.sender, peer.receiver, p.seg, p.ackAt) && Fresh(c, p)
    ensures Good(c, C.SegmentReceived(c, p.seg), peer)
  {
    if p.seg.header.rst {
      BreakGood(c, c.(waited := 0), peer);
    } else {
      var d := c.(waited := 0, receiver := Receive(c.receiver, p.seg));
      ReceivePrimed(c, peer, p);
      if d.receiver.Ackno().None? {
        CloseGood(c, d, peer);
      } else {
        RespondPrimed(c, d, peer, p.seg, p.ackAt);
        var e := d.(sender := C.Respond(d.sender, p.seg));
        FlushGood(c, e, peer);
        var f := C.SendSegments(e);
        CloseGood(c, f.(linger := f.linger && (f.Outbound().Eof() || !f.Inbound().ended)), peer);
      }
    }
  }

  lemma ReadGood(c: Connection, len: nat, peer: Connection)
    requires Primed(c, c, peer) && OutRecent(c.sender, SLACK) && c.Valid()
    ensures Good(c, C.ReadInbound(c, len), peer)
  {
    ReadIntact(peer.sender, c.receiver, len);
  }

  // --- Every step and every run ---

  lemma StepSafe(n: Net, op: Op)
    requires Safe(n) && n.x.Valid() && Enabled(n.x, n.yx, op)
    ensures Safe(StepX(n, op))
  {
    WidenRecent(n.x.sender, SLACK, 2 * SLACK);
    match op {
      case Connect => ConnectGood(n.x, n.y);
      case Write(data) => WriteGood(n.x, data, n.y);
      case End => EndGood(n.x, n.y);
      case Tick(ms) => TickGood(n.x, ms, n.y);
      case Read(len) => ReadGood(n.x, len, n.y);
      case Deliver(p) => DeliverGood(n.x, n.y, p);
    }
    GoodStep(n, op);
  }

  /** A step of either endpoint. */
  datatype Move = Move(atX: bool, op: Op)

  predicate CanMove(n: Net, m: Move)
    requires n.Valid()
  {
    if m.atX then Enabled(n.x, n.yx, m.op) else Enabled(n.y, n.xy, m.op)
  }

  function Next(n: Net, m: Move): (k: Net)
    requires n.Valid()
    ensures k.Valid()
  {
    if m.atX then StepX(n, m.op) else StepX(n.Flip(), m.op).Flip()
  }

  predicate IsRun(n: Net, moves: seq<Move>)
    requires n.Valid()
    decreases |moves|
  {
    moves == [] || (CanMove(n, moves[0]) && IsRun(Next(n, moves[0]), moves[1..]))
  }

  function Run(n: Net, moves: seq<Move>): (k: Net)
    requires n.Valid()
    ensures k.Valid()
    decreases |moves|
  {
    if moves == [] then n else Run(Next(n, moves[0]), moves[1..])
  }

  lemma {:induction false} RunSafe(n: Net, moves: seq<Move>)
    requires Safe(n) && n.Valid() && IsRun(n, moves)
    ensures Safe(Run(n, moves))
    decreases |moves|
  {
    if moves != [] {
      var m := moves[0];
      if m.atX { StepSafe(n, m.op); } else { StepSafe(n.Flip(), m.op); }
      RunSafe(Next(n, m), moves[1..]);
    }
  }

  /** Two fresh endpoints, of any configuration, and empty channels. */
  ghost predicate Start(n: Net): (s: bool)
    ensures s ==> n.Valid()
  {
    && Opening(n.x) && Opening(n.y) && n.xy == {} && n.yx == {}
  }

  ghost predicate Opening(c: Connection)
  {
    exists send, receive, timeout, isn :: c == C.NewConnection(send, receive, timeout, isn)
  }

  lemma StartSafe(n: Net)
    requires Start(n)
    ensures Safe(n)
  {
  }

  /** No run reaches the partial drain: in every reachable state both reassemblers are well formed. */
  lemma {:induction false} NeverBroken(n: Net, moves: seq<Move>)
    requires Start(n) && IsRun(n, moves)
    ensures var k := Run(n, moves); k.x.receiver.Valid() && k.y.receiver.Valid()
  {
    StartSafe(n);
    RunSafe(n, moves);
  }

  /** End-to-end safety. In every run, the bytes assembled at either side are a prefix of the bytes
      written at the other. */
  lemma {:induction false} EndToEnd(n: Net, moves: seq<Move>)
    requires Start(n) && IsRun(n, moves)
    ensures var m := Run(n, moves);
            m.y.Inbound().log <= m.x.Outbound().log && m.x.Inbound().log <= m.y.Outbound().log
  {
    StartSafe(n);
    RunSafe(n, moves);
    PrefixDelivered(Run(n, moves));
    PrefixDelivered(Run(n, moves).Flip());
  }

  lemma PrefixDelivered(n: Net)
    requires Half(n)
    ensures n.y.Inbound().log <= n.x.Outbound().log
  {
  }

  /** Safe close. In every run, once an endpoint is inactive without an error, the peer's inbound
      stream has ended and is exactly what this endpoint wrote, and this endpoint holds all of the
      peer's bytes. */
  lemma {:induction false} SafeClose(n: Net, moves: seq<Move>)
    requires Start(n) && IsRun(n, moves)
    ensures var m := Run(n, moves); CloseIsSafe(m) && CloseIsSafe(m.Flip())
  {
    StartSafe(n);
    RunSafe(n, moves);
    ClosedBothWays(Run(n, moves));
    ClosedBothWays(Run(n, moves).Flip());
  }

  ghost predicate CloseIsSafe(n: Net)
  {
    !n.x.active && !n.x.Outbound().error ==>
      && n.y.Inbound().ended && n.y.Inbound().log == n.x.Outbound().log
      && n.x.Inbound().ended && n.x.Inbound().log == n.y.Outbound().log && n.y.Outbound().ended
  }

  lemma ClosedBothWays(n: Net)
    requires Safe(n)
    ensures CloseIsSafe(n)
  {
    if !n.x.active && !n.x.Outbound().error {
      assert n.x.sender.Base() == |n.x.Outbound().log| + 2;
      assert n.x.sender.Sent() == n.x.Outbound().log;
      assert n.y.sender.Sent() == n.y.Outbound().log;
    }
  }

  /** The same at the moment of closing: `try_clean_close` acts only when both streams are complete
      at both ends. */
  lemma MayCloseOnlyWhenSafe(n: Net)
    requires Safe(n) && C.MayClose(n.x)
    ensures n.y.Inbound().ended && n.y.Inbound().log == n.x.Outbound().log
    ensures n.x.Inbound().ended && n.x.Inbound().log == n.y.Outbound().log && n.y.Outbound().ended
  {
    assert n.x.sender.Base() == |n.x.Outbound().log| + 2;
    assert n.x.sender.Sent() == n.x.Outbound().log;
    assert n.y.sender.Sent() == n.y.Outbound().log;
  }
}
