/** What each call does to a connection: which events its sender sees, what leaves, what becomes of the
    two streams. */
module Calls {
  import opened Bytes
  import opened ByteStreams
  import opened Segments
  import opened WrappingIntegers
  import opened Senders
  import opened SenderSafety
  import opened Receivers
  import opened Connections
  import F = Flow
  import N = Network
  import R = SenderRuns

  // --- Calls as events of the sender ---

  /** A segment that is not a reset is heard once a SYN is known: the acknowledgment, a fill, and if that
      sends nothing in answer to a segment that occupies sequence space, a bare segment. */
  function Heard(s: Sender, seg: Segment): (events: seq<R.Event>)
    requires R.Ready(s)
  {
    var events := Told(seg.header);
    if seg.Length() > 0 && R.RunOf(s, events).out == [] then events + [R.Bare] else events
  }

  function Told(h: Header): seq<R.Event> { if h.ack then [R.Ack(h.ackno, h.win), R.Fill] else [R.Fill] }

  predicate IsHeard(c: Connection, seg: Segment) { !seg.header.rst && (c.receiver.known || seg.header.syn) }

  /** What the sender sees of a call. */
  function EventsOf(c: Connection, op: N.Op): seq<R.Event>
    requires c.Valid()
  {
    match op
    case Connect => [R.Fill]
    case Write(data) => [R.Write(data), R.Fill]
    case End => [R.End, R.Fill]
    case Tick(ms) => [R.Tick(ms)]
    case Read(_) => []
    case Deliver(p) => if IsHeard(c, p.seg) then Heard(c.sender, p.seg) else []
  }

  lemma {:induction false} RunOne(s: Sender, a: R.Event)
    requires R.Ready(s)
    ensures R.RunOf(s, [a]) == R.Step(s, a)
  {
    assert [a][1..] == [];
  }

  lemma {:induction false} RunTwo(s: Sender, a: R.Event, b: R.Event)
    requires R.Ready(s)
    ensures R.RunOf(s, [a, b]) == R.Step(R.Step(s, a), b)
  {
    RunOne(R.Step(s, a), b);
    assert [a, b][1..] == [b];
  }

  lemma {:induction false} RunSnoc(s: Sender, events: seq<R.Event>, e: R.Event)
    requires R.Ready(s)
    ensures R.RunOf(s, events + [e]) == R.Step(R.RunOf(s, events), e)
    decreases |events|
  {
    if events == [] {
      assert ([] + [e])[1..] == [];
    } else {
      assert (events + [e])[1..] == events[1..] + [e];
      RunSnoc(R.Step(s, events[0]), events[1..], e);
    }
  }

  /** The sender answers a segment with exactly those events. */
  lemma RespondIsRun(s: Sender, seg: Segment)
    requires R.Ready(s)
    ensures Respond(s, seg) == R.RunOf(s, Heard(s, seg))
  {
    ToldIsRun(s, seg.header);
    RunSnoc(s, Told(seg.header), R.Bare);
    AnswerIsRun(s, seg, R.RunOf(s, Told(seg.header)));
  }

  lemma AnswerIsRun(s: Sender, seg: Segment, t: Sender)
    requires R.Ready(s)
    requires t == FillWindow(if seg.header.ack then AckReceived(s, seg.header.ackno, seg.header.win) else s)
    ensures Respond(s, seg) == if seg.Length() > 0 && t.out == [] then SendEmpty(t) else t
  {
  }

  lemma ToldIsRun(s: Sender, h: Header)
    requires R.Ready(s)
    ensures R.RunOf(s, Told(h)) == FillWindow(if h.ack then AckReceived(s, h.ackno, h.win) else s)
  {
    RunOne(s, R.Fill);
    RunTwo(s, R.Ack(h.ackno, h.win), R.Fill);
  }

  /** A tick after which there have been more than eight retransmissions in a row. */
  predicate GivesUp(c: Connection, op: N.Op) { op.Tick? && TickSender(c.sender, op.ms).retx > MAX_RETX_ATTEMPTS }

  predicate IsReset(op: N.Op) { op.Deliver? && op.packet.seg.header.rst }

  /** The sender has gone to `t`, and all it has queued has left, stamped by the receiver. */
  ghost predicate Emits(c: Connection, d: Connection, t: Sender)
  {
    d.sender == t.(out := []) && d.out == c.out + StampAll(d.receiver, t.out)
  }

  /** A call that neither gives up nor is a reset takes the sender through its events, and everything
      queued on the way leaves. */
  lemma CallIsRun(c: Connection, op: N.Op)
    requires c.Valid() && !GivesUp(c, op) && !IsReset(op)
    ensures var d := N.Apply(c, op);
            if EventsOf(c, op) == [] then d.sender == c.sender && d.out == c.out
            else Emits(c, d, R.RunOf(c.sender, EventsOf(c, op)))
  {
    match op {
      case Connect => RunOne(c.sender, R.Fill);
      case Write(data) => RunTwo(c.sender, R.Write(data), R.Fill);
      case End => RunTwo(c.sender, R.End, R.Fill);
      case Tick(ms) => RunOne(c.sender, R.Tick(ms));
      case Read(_) =>
      case Deliver(p) => DeliverIsRun(c, p.seg);
    }
  }

  lemma DeliverIsRun(c: Connection, seg: Segment)
    requires c.Valid() && !seg.header.rst
    ensures var d := SegmentReceived(c, seg);
            if IsHeard(c, seg) then Emits(c, d, R.RunOf(c.sender, Heard(c.sender, seg)))
            else d.sender == c.sender && d.out == c.out
  {
    RespondIsRun(c.sender, seg);
  }

  // --- The acknowledgment in a segment is heard ---

  /** What was outstanding, laid end to end from `a`, without the segments that end at or before `k`, is the
      front of what is outstanding now. */
  ghost predicate LeftOf(segs: seq<Segment>, a: int, k: nat, now: seq<Segment>)
  {
    if segs == [] || k < a + segs[0].Length() then segs <= now else LeftOf(segs[1..], a + segs[0].Length(), k, now)
  }

  /** Every outstanding segment ends past `k`. */
  ghost predicate Beyond(t: Sender, k: nat) { forall j | 0 < j <= |t.wait| :: k < t.Base() + Total(t.wait[..j]) }

  /** The sender has gone from `s` to `t` over an acknowledgment of `k` with this window: both are taken
      over, what was outstanding and ends at or before `k` is gone and nothing else, and as much is sent as
      the window then allows. */
  ghost predicate Hears(s: Sender, t: Sender, k: nat, window: uint16)
    requires s.stream.Valid()
  {
    && t.ackno == k && t.window == window
    && LeftOf(s.wait, s.Base(), k, t.wait) && Beyond(t, k)
    && t.next == Max(s.next, Min(k + Max(1, window), s.next + Pending(s)))
  }

  lemma {:induction false} CoverLeft(segs: seq<Segment>, a: nat, k: nat, n: nat, now: seq<Segment>)
    requires n == CoverCount(segs, a, k) && now == segs[n..]
    ensures LeftOf(segs, a, k, now)
    decreases |segs|
  {
    if n > 0 {
      assert segs[n..] == segs[1..][n - 1..];
      CoverLeft(segs[1..], a + segs[0].Length(), k, n - 1, now);
    }
  }

  lemma {:induction false} LeftGrows(segs: seq<Segment>, a: int, k: nat, now: seq<Segment>, more: seq<Segment>)
    requires LeftOf(segs, a, k, now) && now <= more
    ensures LeftOf(segs, a, k, more)
    decreases |segs|
  {
    if segs != [] && k >= a + segs[0].Length() { LeftGrows(segs[1..], a + segs[0].Length(), k, now, more); }
  }

  lemma AckRemoves(s: Sender, ackno: uint32, window: uint16, k: nat, t: Sender)
    requires Inv(s) && s.flight < TWO31 && s.next < TWO64 && AbsAck(s, ackno) == k <= s.next
    requires t == AckReceived(s, ackno, window)
    ensures LeftOf(s.wait, s.Base(), k, t.wait)
    ensures Inv(t) && t.next == s.next && t.stream == s.stream && t.fin == s.fin && t.ackno == k && t.window == window
    ensures t.wait != [] ==> k < t.Base() + t.wait[0].Length()
  {
    AckKeeps(s, ackno, window);
    AckExact(s, ackno, window);
    AckShape(s, ackno, window);
    AckTakesOver(s, ackno, window);
    AckedIsCover(s.wait, s.Base(), s.isn, s.Sent(), s.fin, k, s.next);
    CoverLeft(s.wait, s.Base(), k, CoverCount(s.wait, s.Base(), k), t.wait);
  }

  /** If the first outstanding segment ends past `k`, so does every other. */
  lemma FillHears(s: Sender, k: nat, t: Sender)
    requires Inv(s) && t == FillWindow(s) && s.ackno == k <= s.next
    requires s.wait != [] ==> k < s.Base() + s.wait[0].Length()
    ensures t.ackno == k && t.window == s.window && s.wait <= t.wait && t.next == Reach(s) && Beyond(t, k)
  {
    var added := FillQueues(s);
    FillFrame(s);
    FillExact(s);
    FillBase(s);
    if s.wait == [] && added != [] {
      assert t.wait == added;
      TiledPositive(added, s.next, t.isn, t.Sent(), t.fin);
    }
    forall j | 0 < j <= |t.wait| ensures k < t.Base() + Total(t.wait[..j]) {
      FirstWithin(t.wait, j);
    }
  }

  lemma ToldHears(s: Sender, h: Header, k: nat, m: Sender, t: Sender)
    requires Inv(s) && s.flight < TWO31 && s.next < TWO64 && AbsAck(s, h.ackno) == k <= s.next
    requires m == AckReceived(s, h.ackno, h.win) && t == FillWindow(m)
    ensures Hears(s, t, k, h.win)
  {
    AckRemoves(s, h.ackno, h.win, k, m);
    FillHears(m, k, t);
    LeftGrows(s.wait, s.Base(), k, m.wait, t.wait);
  }

  /** What a segment acknowledges is heard: number and window are taken over, exactly the segments it wholly
      covers leave the queue, and the window it opens is used. */
  lemma AckHeard(c: Connection, seg: Segment, k: nat)
    requires c.Valid() && Inv(c.sender) && c.sender.flight < TWO31 && c.sender.next < TWO64
    requires IsHeard(c, seg) && seg.header.ack && seg.header.ackno == Wrap(k, c.sender.isn)
    requires k <= c.sender.next && Near(k, c.sender.next)
    ensures Hears(c.sender, SegmentReceived(c, seg).sender, k, seg.header.win)
  {
    var m := AckReceived(c.sender, seg.header.ackno, seg.header.win);
    var t := FillWindow(m);
    AckRecovered(c.sender, seg.header.ackno, k);
    ToldHears(c.sender, seg.header, k, m, t);
    SenderAfter(c, seg, t);
    HearsQueue(c.sender, t, SegmentReceived(c, seg).sender, k, seg.header.win);
  }

  lemma AckRecovered(s: Sender, ackno: uint32, k: nat)
    requires ackno == Wrap(k, s.isn) && k <= s.next < TWO64 && Near(k, s.next)
    ensures AbsAck(s, ackno) == k
  {
    UnwrapWrap(k, s.isn, s.next);
  }

  lemma SenderAfter(c: Connection, seg: Segment, t: Sender)
    requires c.Valid() && IsHeard(c, seg) && seg.header.ack
    requires t == FillWindow(AckReceived(c.sender, seg.header.ackno, seg.header.win))
    ensures var d := SegmentReceived(c, seg).sender; d == t.(out := d.out)
  {
    AnswerIsRun(c.sender, seg, t);
    SenderResponds(c, seg, Respond(c.sender, seg));
  }

  lemma SenderResponds(c: Connection, seg: Segment, t: Sender)
    requires c.Valid() && IsHeard(c, seg) && t == Respond(c.sender, seg)
    ensures SegmentReceived(c, seg).sender == t.(out := [])
  {
  }

  lemma HearsQueue(s: Sender, t: Sender, d: Sender, k: nat, window: uint16)
    requires s.stream.Valid() && Hears(s, t, k, window) && d == t.(out := d.out)
    ensures Hears(s, d, k, window)
  {
  }

  /** In every run of two endpoints: a packet that arrives with an acknowledgment is heard as one of the
      number that was acknowledged when it was sent. */
  lemma {:induction false} PacketHeard(n: N.Net, moves: seq<N.Move>, m: N.Net, p: N.Packet)
    requires N.Start(n) && N.IsRun(n, moves) && (m == N.Run(n, moves) || m == N.Run(n, moves).Flip())
    requires p in m.yx && N.Fresh(m.x, p) && IsHeard(m.x, p.seg) && p.seg.header.ack
    ensures Hears(m.x.sender, SegmentReceived(m.x, p.seg).sender, p.ackAt, p.seg.header.win)
  {
    N.StartSafe(n);
    N.RunSafe(n, moves);
    F.AcknoReached(m.x.sender, m.y.receiver);
    FlightBound(m.x.sender);
    AckHeard(m.x, p.seg, p.ackAt);
  }

  // --- The two streams ---

  /** What a call appends to the outbound stream: the part of the data that fits. */
  function WrittenBy(a: Stream, op: N.Op): seq<byte>
    requires a.Valid()
  {
    if op.Write? then op.data[..Min(|op.data|, a.max - (|a.log| - a.read))] else []
  }

  /** Only a write appends to the outbound stream, only the end of input ends it, and only giving up and resets
      put it in error. */
  lemma OutboundAfter(c: Connection, op: N.Op)
    requires c.Valid()
    ensures var a, b := c.Outbound(), N.Apply(c, op).Outbound();
            && b.log == a.log + WrittenBy(a, op) && b.max == a.max
            && (b.ended <==> a.ended || op.End?) && (b.error <==> a.error || GivesUp(c, op) || IsReset(op))
  {
    match op {
      case Connect => FillStream(c.sender);
      case Write(data) => WriteOutbound(c, data);
      case End => FillStream(c.sender.(stream := c.Outbound().EndInput()));
      case Tick(ms) => TickOutbound(c, op);
      case Read(_) =>
      case Deliver(p) => DeliverOutbound(c, p.seg);
    }
  }

  lemma WriteOutbound(c: Connection, data: seq<byte>)
    requires c.Valid()
    ensures var a, b := c.Outbound(), Write(c, data).Outbound(); b == a.Write(data).(read := b.read)
  {
    FillStream(c.sender.(stream := c.Outbound().Write(data)));
  }

  lemma TickOutbound(c: Connection, op: N.Op)
    requires op.Tick?
    ensures Tick(c, op.ms).Outbound() == c.Outbound().(error := c.Outbound().error || GivesUp(c, op))
  {
  }

  lemma DeliverOutbound(c: Connection, seg: Segment)
    requires c.Valid()
    ensures var b := SegmentReceived(c, seg).Outbound();
            b == c.Outbound().(read := b.read, error := c.Outbound().error || seg.header.rst)
  {
    if IsHeard(c, seg) {
      SenderResponds(c, seg, Respond(c.sender, seg));
      RespondStream(c.sender, seg, Respond(c.sender, seg));
    } else {
      Unheard(c, seg);
    }
  }

  lemma Unheard(c: Connection, seg: Segment)
    requires c.Valid() && !IsHeard(c, seg)
    ensures var s := SegmentReceived(c, seg).sender;
            s == c.sender.(stream := c.Outbound().(error := c.Outbound().error || seg.header.rst))
  {
  }

  lemma RespondStream(s: Sender, seg: Segment, t: Sender)
    requires R.Ready(s) && t == Respond(s, seg)
    ensures t.stream == s.stream.(read := t.stream.read)
  {
    FillStream(if seg.header.ack then AckReceived(s, seg.header.ackno, seg.header.win) else s);
  }

  /** Only a delivery touches what has been received, and only a read takes it out. */
  lemma InboundAfter(c: Connection, op: N.Op)
    requires c.Valid() && !op.Deliver?
    ensures var a, d := c.Inbound(), N.Apply(c, op);
            && d.receiver == c.receiver.(re := c.receiver.re.(out := d.Inbound()))
            && d.Inbound() == a.(read := if op.Read? then a.read + Min(op.len, |a.log| - a.read) else a.read,
                                 error := a.error || GivesUp(c, op))
  {
    if op.Tick? { TickInbound(c, op); }
  }

  lemma TickInbound(c: Connection, op: N.Op)
    requires op.Tick?
    ensures var d := Tick(c, op.ms);
            && d.receiver == c.receiver.(re := c.receiver.re.(out := d.Inbound()))
            && d.Inbound() == c.Inbound().(error := c.Inbound().error || GivesUp(c, op))
  {
  }

  /** A segment that is not a reset goes to the receiver. */
  lemma ReceiverAfter(c: Connection, seg: Segment)
    requires c.Valid() && !seg.header.rst
    ensures SegmentReceived(c, seg).receiver == Receive(c.receiver, seg)
  {
  }

  function EndOf(n: N.Net, atX: bool): Connection { if atX then n.x else n.y }

  /** What one move makes an end accept from its application. */
  function Taken(n: N.Net, m: N.Move, atX: bool): seq<byte>
    requires n.Valid()
  {
    if m.atX == atX then WrittenBy(EndOf(n, atX).Outbound(), m.op) else []
  }

  lemma MoveOutbound(n: N.Net, m: N.Move, atX: bool)
    requires n.Valid()
    ensures EndOf(N.Next(n, m), atX).Outbound().log == EndOf(n, atX).Outbound().log + Taken(n, m, atX)
  {
    if m.atX == atX { OutboundAfter(EndOf(n, atX), m.op); }
  }

  /** All that has been accepted from the application at one end, over a run. */
  function Accepted(n: N.Net, moves: seq<N.Move>, atX: bool): seq<byte>
    requires n.Valid()
    decreases |moves|
  {
    if moves == [] then [] else Taken(n, moves[0], atX) + Accepted(N.Next(n, moves[0]), moves[1..], atX)
  }

  lemma Appended(a: seq<byte>, x: seq<byte>, b: seq<byte>, y: seq<byte>, c: seq<byte>)
    requires b == a + x && c == b + y
    ensures c == a + (x + y)
  {
  }

  lemma {:induction false} LogIsAccepted(n: N.Net, moves: seq<N.Move>, atX: bool)
    requires n.Valid()
    ensures EndOf(N.Run(n, moves), atX).Outbound().log == EndOf(n, atX).Outbound().log + Accepted(n, moves, atX)
    decreases |moves|
  {
    if moves != [] {
      var k := N.Next(n, moves[0]);
      MoveOutbound(n, moves[0], atX);
      LogIsAccepted(k, moves[1..], atX);
      Appended(EndOf(n, atX).Outbound().log, Taken(n, moves[0], atX), EndOf(k, atX).Outbound().log,
               Accepted(k, moves[1..], atX), EndOf(N.Run(n, moves), atX).Outbound().log);
    }
  }

  /** In every run, what one side has received is a prefix of what the other has accepted from its
      application, write by write. */
  lemma {:induction false} DeliversWrites(n: N.Net, moves: seq<N.Move>)
    requires N.Start(n) && N.IsRun(n, moves)
    ensures var m := N.Run(n, moves);
            m.y.Inbound().log <= Accepted(n, moves, true) && m.x.Inbound().log <= Accepted(n, moves, false)
  {
    N.EndToEnd(n, moves);
    AllAccepted(n, moves, true);
    AllAccepted(n, moves, false);
  }

  lemma {:induction false} AllAccepted(n: N.Net, moves: seq<N.Move>, atX: bool)
    requires N.Start(n)
    ensures EndOf(N.Run(n, moves), atX).Outbound().log == Accepted(n, moves, atX)
  {
    LogIsAccepted(n, moves, atX);
    assert EndOf(n, atX).Outbound().log == [];
  }

  // --- Resets and giving up ---

  /** A reset closes the connection with both streams in error and is not answered. */
  lemma ResetArrives(c: Connection, seg: Segment)
    requires c.Valid() && seg.header.rst
    ensures var d := SegmentReceived(c, seg);
            && !d.active && d.Inbound() == c.Inbound().(error := true) && d.Outbound() == c.Outbound().(error := true)
            && d.out == c.out
  {
  }

  /** Giving up closes the connection with both streams in error, and one segment leaves: a reset at the
      next sequence number, with the acknowledgment if there is one. */
  lemma GivenUp(c: Connection, op: N.Op)
    requires c.Valid() && GivesUp(c, op)
    ensures var d := N.Apply(c, op);
            && !d.active && d.Inbound() == c.Inbound().(error := true) && d.Outbound() == c.Outbound().(error := true)
            && |d.out| == |c.out| + 1 && c.out <= d.out
            && var rst := d.out[|c.out|];
            && rst.header.rst && !rst.header.syn && !rst.header.fin && rst.payload == []
            && rst.header.seqno == Wrap(c.sender.next, c.sender.isn)
            && (rst.header.ack <==> c.receiver.known)
            && (c.receiver.known ==> rst.header.ackno == Wrap(c.receiver.AbsAckno(), c.receiver.isn))
  {
  }
}
