/** The state summaries of sender and receiver, and that they only move forward. */
module StateSummary {
  import opened Bytes
  import opened Senders
  import opened SenderSafety
  import opened SenderRuns
  import opened WrappingIntegers
  import R = Receivers
  import C = Connections

  datatype SenderState = Error | Closed | SynSent | SynAcked | FinSent | FinAcked

  function OfSender(s: Sender): SenderState
  {
    if s.stream.error then Error
    else if s.next == 0 then Closed
    else if s.next == s.flight then SynSent
    else if !s.stream.Eof() then SynAcked
    else if s.next < |s.stream.log| + 2 then SynAcked
    else if s.flight != 0 then FinSent
    else FinAcked
  }

  function Rank(state: SenderState): nat
  {
    match state
    case Error => 6
    case Closed => 0
    case SynSent => 1
    case SynAcked => 2
    case FinSent => 3
    case FinAcked => 4
  }

  /** What the states say: whether SYN has been sent and acknowledged, and FIN sent and everything
      acknowledged. A FIN that goes out before the SYN is acknowledged does not show. */
  lemma FinStates(s: Sender)
    requires Inv(s) && !s.stream.error
    ensures OfSender(s) == Closed <==> s.next == 0
    ensures OfSender(s) == SynSent <==> s.next > 0 && s.Base() == 0
    ensures OfSender(s) == SynAcked <==> s.Base() > 0 && !s.fin
    ensures OfSender(s) == FinSent <==> s.fin && s.flight != 0 && s.next != s.flight
    ensures OfSender(s) == FinAcked <==> s.fin && s.flight == 0
  {
  }

  lemma FillForward(s: Sender)
    requires Inv(s) && !s.stream.error
    ensures Rank(OfSender(s)) <= Rank(OfSender(FillWindow(s)))
  {
    FillExact(s);
    FillBase(s);
    FillFrame(s);
    FillKeeps(s);
  }

  lemma AckForward(s: Sender, ackno: uint32, window: uint16)
    requires Inv(s) && !s.stream.error
    ensures Rank(OfSender(s)) <= Rank(OfSender(AckReceived(s, ackno, window)))
  {
    AckKeeps(s, ackno, window);
    TotalSplit(s.wait, AckedCount(s.wait, AbsAck(s, ackno), s.isn, s.next));
  }

  /** Writing moves the summary back exactly when bytes are accepted after FIN has been sent and
      the SYN acknowledged: `ByteStream::write` does not look at the end of input. */
  lemma WriteForward(s: Sender, data: seq<byte>)
    requires Inv(s) && !s.stream.error
    ensures Rank(OfSender(s)) <= Rank(OfSender(Feed(s, data))) <==>
            !(s.fin && s.next != s.flight && data != [] && s.stream.Remaining() > 0)
  {
  }

  /** A write accepted after FIN takes a sender from FIN_SENT back to SYN_ACKED, out of its invariant. */
  lemma WriteAfterFin(isn: uint32, b: byte)
    ensures var start := Step(Step(NewSender(1, 1000, isn), End), Fill);
            var s := Step(Step(start, Ack(Wrap(1, isn), 10)), Fill);
            && OfSender(s) == FinSent && OfSender(Step(s, Write([b]))) == SynAcked
            && Inv(s) && !Inv(Step(s, Write([b])))
  {
    Finishes(1, isn);
    var s := FillWindow(AckReceived(FillWindow(Finish(NewSender(1, 1000, isn))), Wrap(1, isn), 10));
    FeedKeeps(s, [b]);
  }

  lemma StepForward(s: Sender, e: Event, past: Past)
    requires Sound(s, past) && Allowed(s, e) && !s.stream.error
    ensures Rank(OfSender(s)) <= Rank(OfSender(Step(s, e))) && !Step(s, e).stream.error
  {
    match e
    case Write(data) => WriteForward(s, data);
    case End =>
    case Fill =>
      FillForward(s);
      FillFrame(s);
    case Ack(ackno, window) => AckForward(s, ackno, window);
    case Tick(ms) =>
    case Bare =>
  }

  /** In every run the sender goes through its states in order. */
  lemma {:induction false} RunForward(s: Sender, events: seq<Event>, past: Past)
    requires Sound(s, past) && AllAllowed(s, events) && !s.stream.error
    ensures Rank(OfSender(s)) <= Rank(OfSender(RunOf(s, events)))
    decreases |events|
  {
    if events != [] {
      StepForward(s, events[0], past);
      StepSound(s, events[0], past);
      RunForward(Step(s, events[0]), events[1..], PastAfter(s, events[0], past));
    }
  }

  datatype ReceiverState = Failed | Listen | SynRecv | FinRecv

  function OfReceiver(r: R.Receiver): ReceiverState
  {
    if r.re.out.error then Failed
    else if r.Ackno().None? then Listen
    else if r.re.out.ended then FinRecv
    else SynRecv
  }

  function ReceiverRank(state: ReceiverState): nat
  {
    match state
    case Failed => 3
    case Listen => 0
    case SynRecv => 1
    case FinRecv => 2
  }

  /** In every run the receiver goes through its states in order, whatever arrives. */
  lemma {:induction false} ReceiverForward(r: R.Receiver, events: seq<R.Event>)
    requires r.Loose()
    ensures ReceiverRank(OfReceiver(r)) <= ReceiverRank(OfReceiver(R.RunOf(r, events)))
  {
    R.RunAdvances(r, events);
  }

  /** A connection without errors closes exactly in the state its summaries describe as finished. */
  lemma CloseBySummary(c: C.Connection)
    requires Inv(c.sender) && !c.Outbound().error && !c.Inbound().error && (c.Inbound().ended ==> c.receiver.known)
    ensures C.MayClose(c) <==>
            && OfSender(c.sender) == FinAcked && OfReceiver(c.receiver) == FinRecv
            && (c.linger ==> c.waited >= 10 * c.timeout)
  {
  }
}
