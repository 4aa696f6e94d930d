/** How long a connection stays around before it closes cleanly, and that it stays closed. */
module Lingering {
  import opened Bytes
  import B = ByteStreams
  import opened Segments
  import opened Senders
  import opened SenderSafety
  import opened Receivers
  import opened Network
  import opened Calls

  /** The states `cs` one connection goes through under the operations `ops`. */
  ghost predicate IsBehavior(cs: seq<Connection>, ops: seq<Op>)
  {
    && |cs| == |ops| + 1
    && forall i {:trigger ops[i]} | 0 <= i < |ops| :: cs[i].Valid() && cs[i + 1] == Apply(cs[i], ops[i])
  }

  /** Milliseconds of ticks since the last delivered segment, before the `i`-th operation. */
  function Since(ops: seq<Op>, i: nat): nat
    requires i <= |ops|
  {
    if i == 0 then 0
    else
      match ops[i - 1]
      case Deliver(_) => 0
      case Tick(ms) => Since(ops, i - 1) + ms
      case _ => Since(ops, i - 1)
  }

  /** The time since the last segment, as the connection keeps it: a tick that gives up does not count. */
  ghost predicate Waits(c: Connection, op: Op, d: Connection)
  {
    && d.timeout == c.timeout
    && d.waited == match op
                   case Deliver(_) => 0
                   case Tick(ms) => c.waited + (if GivesUp(c, op) then 0 else ms)
                   case _ => c.waited
  }

  lemma StepWaits(c: Connection, op: Op)
    requires c.Valid()
    ensures Waits(c, op, Apply(c, op))
  {
    if op.Deliver? { DeliverWaits(c, op.packet.seg); }
  }

  lemma DeliverWaits(c: Connection, seg: Segment)
    requires c.Valid()
    ensures var d := C.SegmentReceived(c, seg); d.waited == 0 && d.timeout == c.timeout
  {
  }

  ghost predicate NeverGivesUp(cs: seq<Connection>, ops: seq<Op>, i: nat)
    requires |cs| == |ops| + 1 && i <= |ops|
  {
    forall j {:trigger ops[j]} | 0 <= j < i :: !GivesUp(cs[j], ops[j])
  }

  lemma {:induction false} WaitsAlong(cs: seq<Connection>, ops: seq<Op>, i: nat)
    requires |cs| == |ops| + 1 && cs[0].waited == 0 && i <= |ops|
    requires forall k {:trigger ops[k]} | 0 <= k < |ops| :: Waits(cs[k], ops[k], cs[k + 1])
    ensures cs[i].waited <= Since(ops, i) && cs[i].timeout == cs[0].timeout
    ensures NeverGivesUp(cs, ops, i) ==> cs[i].waited == Since(ops, i)
    decreases i
  {
    if i > 0 {
      WaitsAlong(cs, ops, i - 1);
      assert Waits(cs[i - 1], ops[i - 1], cs[i]);
    }
  }

  /** It is never more than the time that has passed, and exactly that until the connection gives up. */
  lemma {:induction false} BehaviorWaits(cs: seq<Connection>, ops: seq<Op>, i: nat)
    requires IsBehavior(cs, ops) && cs[0].waited == 0 && i <= |ops|
    ensures cs[i].waited <= Since(ops, i) && cs[i].timeout == cs[0].timeout
    ensures NeverGivesUp(cs, ops, i) ==> cs[i].waited == Since(ops, i)
  {
    forall k {:trigger ops[k]} | 0 <= k < |ops| ensures Waits(cs[k], ops[k], cs[k + 1]) { StepWaits(cs[k], ops[k]); }
    WaitsAlong(cs, ops, i);
  }

  /** A step at whose end the connection tries to close. */
  predicate Tries(c: Connection, op: Op)
  {
    op.Write? || (op.Tick? && !GivesUp(c, op)) || (op.Deliver? && !op.packet.seg.header.rst)
  }

  /** Write, a tick that does not give up and the arrival of anything but a reset close an active connection
      exactly when the closing condition holds. Apart from giving up and resets nothing else closes it. */
  lemma StepCloses(c: Connection, op: Op)
    requires c.Valid() && c.active
    ensures var d := Apply(c, op);
            !d.active <==> if Tries(c, op) then C.MayClose(d) else GivesUp(c, op) || IsReset(op)
  {
    match op {
      case Write(data) => WriteCloses(c, data);
      case Tick(ms) => TickCloses(c, op);
      case Deliver(packet) => if !packet.seg.header.rst { DeliverCloses(c, packet.seg); }
      case _ =>
    }
  }

  lemma WriteCloses(c: Connection, data: seq<byte>)
    requires c.Valid() && c.active
    ensures var d := C.Write(c, data); !d.active <==> C.MayClose(d)
  {
  }

  lemma TickCloses(c: Connection, op: Op)
    requires op.Tick? && c.active
    ensures var d := C.Tick(c, op.ms); !d.active <==> GivesUp(c, op) || C.MayClose(d)
    ensures GivesUp(c, op) ==> C.Tick(c, op.ms).Outbound().error
  {
  }

  lemma DeliverCloses(c: Connection, seg: Segment)
    requires c.Valid() && c.active && !seg.header.rst
    ensures var d := C.SegmentReceived(c, seg); !d.active <==> C.MayClose(d)
  {
    var d := c.(waited := 0, receiver := Receive(c.receiver, seg));
    TryCloses(if d.receiver.Ackno().None? then d else C.Answer(d, seg));
  }

  lemma TryCloses(c: Connection)
    requires c.active
    ensures var d := C.TryCleanClose(c); !d.active <==> C.MayClose(d)
  {
  }

  lemma ClosedInError(c: Connection, op: Op)
    requires c.Valid() && (GivesUp(c, op) || IsReset(op))
    ensures !Apply(c, op).active && Apply(c, op).Outbound().error
  {
  }

  /** An endpoint that closes cleanly while it is to linger has heard nothing for at least ten times
      the retransmission timeout. */
  lemma CloseWaits(cs: seq<Connection>, ops: seq<Op>, i: nat)
    requires IsBehavior(cs, ops) && cs[0].waited == 0 && i < |ops|
    requires cs[i].active && !cs[i + 1].active && !cs[i + 1].Outbound().error && cs[i + 1].linger
    ensures Since(ops, i + 1) >= 10 * cs[0].timeout
  {
    StepCloses(cs[i], ops[i]);
    if GivesUp(cs[i], ops[i]) || IsReset(ops[i]) { ClosedInError(cs[i], ops[i]); }
    BehaviorWaits(cs, ops, i + 1);
  }

  /** At this step the peer has been heard to have finished while this side has not. */
  ghost predicate Excuses(c: Connection, op: Op, d: Connection)
  {
    op.Deliver? && IsHeard(c, op.packet.seg) && d.Inbound().ended && !d.Outbound().Eof()
  }

  ghost predicate Lingers(c: Connection, op: Op, d: Connection) { d.linger <==> c.linger && !Excuses(c, op, d) }

  lemma StepLingers(c: Connection, op: Op)
    requires c.Valid()
    ensures Lingers(c, op, Apply(c, op))
  {
  }

  lemma {:induction false} LingersAlong(cs: seq<Connection>, ops: seq<Op>, i: nat)
    requires |cs| == |ops| + 1 && cs[0].linger && i <= |ops|
    requires forall k {:trigger ops[k]} | 0 <= k < |ops| :: Lingers(cs[k], ops[k], cs[k + 1])
    ensures !cs[i].linger <==> exists j :: 0 <= j < i && Excuses(cs[j], ops[j], cs[j + 1])
    decreases i
  {
    if i > 0 {
      LingersAlong(cs, ops, i - 1);
      assert Lingers(cs[i - 1], ops[i - 1], cs[i]);
    }
  }

  /** An endpoint is excused from lingering exactly if at some delivery the peer's stream had ended while
      its own had not been sent: the peer was first to finish. */
  lemma {:induction false} ExcusedIfPassive(cs: seq<Connection>, ops: seq<Op>, i: nat)
    requires IsBehavior(cs, ops) && cs[0].linger && i <= |ops|
    ensures !cs[i].linger <==> exists j :: 0 <= j < i && Excuses(cs[j], ops[j], cs[j + 1])
  {
    forall k {:trigger ops[k]} | 0 <= k < |ops| ensures Lingers(cs[k], ops[k], cs[k + 1]) {
      StepLingers(cs[k], ops[k]);
    }
    LingersAlong(cs, ops, i);
  }

  /** What is never undone in a stream: an error, and the end. */
  predicate StreamSticks(a: B.Stream, b: B.Stream) { (a.error ==> b.error) && (a.ended ==> b.ended) }

  /** What is never undone: being closed, being excused from lingering, and what sticks in either stream. */
  ghost predicate Sticks(c: Connection, d: Connection)
  {
    && (!c.active ==> !d.active) && (!c.linger ==> !d.linger)
    && StreamSticks(c.Outbound(), d.Outbound()) && StreamSticks(c.Inbound(), d.Inbound())
  }

  lemma RespondFlags(s: Sender, seg: Segment)
    requires s.stream.Valid() && s.flight == Total(s.wait)
    ensures StreamSticks(s.stream, C.Respond(s, seg).stream)
  {
    FillStream(if seg.header.ack then AckReceived(s, seg.header.ackno, seg.header.win) else s);
  }

  /** Moving the queue out and closing touch no stream. */
  lemma FlushSticks(c: Connection, s: Sender)
    requires StreamSticks(c.Outbound(), s.stream)
    ensures var d := C.SendSegments(c.(sender := s)); Sticks(c, d) && Sticks(c, C.TryCleanClose(d))
  {
  }

  /** Neither does the answer to a segment, once receiver and sender have seen it. */
  lemma AnswerSticks(c: Connection, seg: Segment, s: Sender)
    requires c.Valid() && s == C.Respond(c.sender, seg) && StreamSticks(c.Outbound(), s.stream)
    ensures Sticks(c, C.Answer(c, seg))
  {
  }

  lemma DeliverSticks(c: Connection, seg: Segment, r: Receiver)
    requires c.Valid() && r == Receive(c.receiver, seg) && StreamSticks(c.Inbound(), r.re.out)
    ensures Sticks(c, C.SegmentReceived(c, seg))
  {
    ReactSticks(c.(waited := 0, receiver := r), seg);
  }

  lemma ReactSticks(c: Connection, seg: Segment)
    requires c.Valid()
    ensures Sticks(c, C.React(c, seg))
  {
    RespondFlags(c.sender, seg);
    AnswerSticks(c, seg, C.Respond(c.sender, seg));
    CloseSticks(c, c);
    CloseSticks(c, C.Answer(c, seg));
  }

  lemma CloseSticks(c: Connection, d: Connection)
    requires Sticks(c, d)
    ensures Sticks(c, C.TryCleanClose(d))
  {
  }

  lemma CallSticks(c: Connection, stream: B.Stream)
    requires stream.Valid() && StreamSticks(c.Outbound(), stream)
    ensures var d := C.SendSegments(c.(sender := FillWindow(c.sender.(stream := stream))));
            Sticks(c, d) && Sticks(c, C.TryCleanClose(d))
  {
    var s := c.sender.(stream := stream);
    FillStream(s);
    FlushSticks(c, FillWindow(s));
  }

  lemma TickSticks(c: Connection, ms: nat)
    ensures Sticks(c, C.Tick(c, ms))
  {
    assert TickSender(c.sender, ms).stream == c.sender.stream;
  }

  lemma StepSticks(c: Connection, op: Op)
    requires c.Valid()
    ensures Sticks(c, Apply(c, op))
  {
    match op {
      case Connect => CallSticks(c, c.Outbound());
      case Write(data) => CallSticks(c, c.Outbound().Write(data));
      case End => CallSticks(c, c.Outbound().EndInput());
      case Tick(ms) => TickSticks(c, ms);
      case Read(len) =>
      case Deliver(packet) =>
        ReceiveAdvances(c.receiver, packet.seg);
        DeliverSticks(c, packet.seg, Receive(c.receiver, packet.seg));
    }
  }

  ghost predicate EachSticks(cs: seq<Connection>, ops: seq<Op>)
  {
    |cs| == |ops| + 1 && forall k {:trigger ops[k]} | 0 <= k < |ops| :: Sticks(cs[k], cs[k + 1])
  }

  lemma {:induction false} SticksAlong(cs: seq<Connection>, ops: seq<Op>, i: nat, j: nat)
    requires EachSticks(cs, ops) && i <= j <= |ops|
    ensures Sticks(cs[i], cs[j])
    decreases j - i
  {
    if i < j {
      SticksAlong(cs, ops, i + 1, j);
      var op := ops[i];
    }
  }

  /** Over every behaviour: a closed connection never reopens. */
  lemma StaysClosed(cs: seq<Connection>, ops: seq<Op>, i: nat, j: nat)
    requires IsBehavior(cs, ops) && i <= j <= |ops|
    ensures Sticks(cs[i], cs[j])
  {
    forall k | 0 <= k < |ops| ensures Sticks(cs[k], cs[k + 1]) { StepSticks(cs[k], ops[k]); }
    SticksAlong(cs, ops, i, j);
  }
}
