/** Whole lives of one connection, whatever its peer sends: when it gives up and when it closes. */
module Lifetimes {
  import opened Bytes
  import opened Senders
  import opened SenderSafety
  import opened Receivers
  import opened Network
  import opened Calls
  import opened Lingering
  import opened StateSummary
  import R = SenderRuns

  /** A new connection and what becomes of it, with what has happened at its sender. Nothing is accepted from
      the application after FIN, nor at or past 2^64 - 2^17 bytes. */
  ghost predicate IsLife(cs: seq<Connection>, ops: seq<Op>, pasts: seq<R.Past>)
  {
    && IsBehavior(cs, ops) && Opening(cs[0]) && |pasts| == |cs| && pasts[0] == R.NOTHING
    && (forall i {:trigger ops[i]} | 0 <= i < |ops| ::
          pasts[i + 1] == R.PastOf(cs[i].sender, EventsOf(cs[i], ops[i]), pasts[i]))
    && forall i | 0 <= i < |ops| :: ops[i].Write? ==> MayFeed(cs[i].sender, ops[i].data)
  }

  // --- Every step keeps the sender sound ---

  lemma {:induction false} EventsAllowed(c: Connection, op: Op)
    requires c.Valid() && (op.Write? ==> MayFeed(c.sender, op.data))
    ensures R.AllAllowed(c.sender, EventsOf(c, op))
  {
    if op.Write? {
      NoWrites(R.Step(c.sender, R.Write(op.data)), [R.Fill]);
    } else {
      NoWrites(c.sender, EventsOf(c, op));
    }
  }

  lemma {:induction false} NoWrites(s: Sender, events: seq<R.Event>)
    requires R.Ready(s) && forall e | e in events :: !e.Write?
    ensures R.AllAllowed(s, events)
    decreases |events|
  {
    if events != [] { NoWrites(R.Step(s, events[0]), events[1..]); }
  }

  /** Errors and the queue do not matter to soundness. */
  lemma SoundAnyway(s: Sender, past: R.Past, t: Sender)
    requires R.Sound(s, past) && t == s.(out := t.out, stream := s.stream.(error := t.stream.error))
    ensures R.Sound(t, past)
  {
    assert t.Sent() == s.Sent();
  }

  lemma {:induction false} StepSound(c: Connection, op: Op, past: R.Past)
    requires c.Valid() && R.Sound(c.sender, past) && (op.Write? ==> MayFeed(c.sender, op.data))
    ensures R.Sound(Apply(c, op).sender, R.PastOf(c.sender, EventsOf(c, op), past))
  {
    var events := EventsOf(c, op);
    EventsAllowed(c, op);
    R.RunSound(c.sender, events, past);
    SenderAfterCall(c, op);
    SoundAnyway(R.RunOf(c.sender, events), R.PastOf(c.sender, events, past), Apply(c, op).sender);
  }

  /** Whatever the call, the sender ends up where its events take it, errors and queue apart. */
  lemma SenderAfterCall(c: Connection, op: Op)
    requires c.Valid()
    ensures var s, t := R.RunOf(c.sender, EventsOf(c, op)), Apply(c, op).sender;
            t == s.(out := t.out, stream := s.stream.(error := t.stream.error))
  {
    if GivesUp(c, op) {
      RunOne(c.sender, R.Tick(op.ms));
    } else if !IsReset(op) {
      CallIsRun(c, op);
    }
  }

  /** A stream that has ended has begun, and an active connection has no stream in error. */
  predicate Proper(c: Connection)
  {
    (c.Inbound().ended ==> c.receiver.known) && (c.active ==> !c.Inbound().error && !c.Outbound().error)
  }

  lemma InboundProper(c: Connection, op: Op)
    requires c.Valid() && Proper(c)
    ensures var d := Apply(c, op);
            && (d.Inbound().ended ==> d.receiver.known)
            && (d.Inbound().error <==> c.Inbound().error || GivesUp(c, op) || IsReset(op))
  {
    if !op.Deliver? {
      InboundAfter(c, op);
    } else if IsReset(op) {
      ResetArrives(c, op.packet.seg);
    } else {
      ReceiverAfter(c, op.packet.seg);
      ReceiveAdvances(c.receiver, op.packet.seg);
    }
  }

  lemma StepProper(c: Connection, op: Op)
    requires c.Valid() && Proper(c)
    ensures Proper(Apply(c, op))
  {
    InboundProper(c, op);
    OutboundAfter(c, op);
    StepSticks(c, op);
    if c.active { StepCloses(c, op); }
  }

  /** From one state to the next the sender stays sound. */
  ghost predicate Keeps(c: Connection, past: R.Past, op: Op, d: Connection, past': R.Past)
  {
    R.Sound(c.sender, past) && Proper(c) && (op.Write? ==> MayFeed(c.sender, op.data)) ==>
      R.Sound(d.sender, past') && Proper(d) && d.sender.timer.init == c.sender.timer.init
  }

  lemma {:induction false} StepKeeps(c: Connection, op: Op, past: R.Past)
    requires c.Valid()
    ensures Keeps(c, past, op, Apply(c, op), R.PastOf(c.sender, EventsOf(c, op), past))
  {
    if R.Sound(c.sender, past) && Proper(c) && (op.Write? ==> MayFeed(c.sender, op.data)) {
      StepSound(c, op, past);
      StepProper(c, op);
      StepInit(c, op);
    }
  }

  lemma {:induction false} KeepsAlong(cs: seq<Connection>, ops: seq<Op>, pasts: seq<R.Past>, i: nat)
    requires |cs| == |pasts| == |ops| + 1 && i <= |ops| && R.Sound(cs[0].sender, pasts[0]) && Proper(cs[0])
    requires forall k {:trigger ops[k]} | 0 <= k < |ops| ::
               && (cs[k].Outbound().Valid() && ops[k].Write? ==> MayFeed(cs[k].sender, ops[k].data))
               && Keeps(cs[k], pasts[k], ops[k], cs[k + 1], pasts[k + 1])
    ensures R.Sound(cs[i].sender, pasts[i]) && Proper(cs[i]) && cs[i].sender.timer.init == cs[0].sender.timer.init
    decreases i
  {
    if i > 0 {
      KeepsAlong(cs, ops, pasts, i - 1);
      assert Keeps(cs[i - 1], pasts[i - 1], ops[i - 1], cs[i], pasts[i]);
    }
  }

  lemma {:induction false} LifeSound(cs: seq<Connection>, ops: seq<Op>, pasts: seq<R.Past>, i: nat)
    requires IsLife(cs, ops, pasts) && i <= |ops|
    ensures R.Sound(cs[i].sender, pasts[i]) && Proper(cs[i]) && cs[i].sender.timer.init == cs[0].timeout
  {
    NewSound(cs[0]);
    forall k {:trigger ops[k]} | 0 <= k < |ops| ensures Keeps(cs[k], pasts[k], ops[k], cs[k + 1], pasts[k + 1]) {
      StepKeeps(cs[k], ops[k], pasts[k]);
    }
    KeepsAlong(cs, ops, pasts, i);
  }

  lemma NewSound(c: Connection)
    requires Opening(c)
    ensures R.Sound(c.sender, R.NOTHING) && Proper(c) && c.sender.timer.init == c.timeout && c.waited == 0 && c.linger
  {
    var send, receive, timeout, isn :| c == C.NewConnection(send, receive, timeout, isn);
    R.NewSenderSound(send, timeout, isn);
  }

  lemma {:induction false} StepInit(c: Connection, op: Op)
    requires c.Valid()
    ensures Apply(c, op).sender.timer.init == c.sender.timer.init
  {
    SenderAfterCall(c, op);
    R.InitKept(c.sender, EventsOf(c, op));
  }

  // --- Giving up ---

  /** Over every life: the connection gives up at exactly those ticks that bring the retransmissions since the
      last newly acknowledged segment past eight (in 32 bits), and then 511 timeouts have passed since. */
  lemma {:induction false} GivesUpExactly(cs: seq<Connection>, ops: seq<Op>, pasts: seq<R.Past>, i: nat)
    requires IsLife(cs, ops, pasts) && i < |ops|
    ensures var past := pasts[i + 1];
            && (GivesUp(cs[i], ops[i]) <==> ops[i].Tick? && past.tries % TWO32 >= 9)
            && (GivesUp(cs[i], ops[i]) ==> past.quiet >= 511 * cs[0].timeout)
  {
    LifeSound(cs, ops, pasts, i + 1);
    if ops[i].Tick? {
      TickCount(cs[i], ops[i]);
      R.SmallTries(pasts[i + 1].tries);
    }
  }

  lemma TickCount(c: Connection, op: Op)
    requires c.Valid() && op.Tick?
    ensures GivesUp(c, op) <==> Apply(c, op).sender.retx > 8
  {
  }

  // --- Closing ---

  /** The state in which a connection is finished: everything sent and acknowledged, everything received, and
      the time to linger, unless it is excused, over. */
  ghost predicate Finished(cs: seq<Connection>, ops: seq<Op>, i: nat)
    requires |cs| == |ops| + 1 && i <= |ops|
  {
    && OfSender(cs[i].sender) == FinAcked && OfReceiver(cs[i].receiver) == FinRecv
    && (Since(ops, i) >= 10 * cs[0].timeout || exists j :: 0 <= j < i && Excuses(cs[j], ops[j], cs[j + 1]))
  }

  lemma {:induction false} InactiveSince(cs: seq<Connection>, ops: seq<Op>, j: nat, i: nat)
    requires IsBehavior(cs, ops) && j < i <= |ops| && GivesUp(cs[j], ops[j])
    ensures !cs[i].active
  {
    ClosedInError(cs[j], ops[j]);
    StaysClosed(cs, ops, j + 1, i);
  }

  /** A connection that is active has not given up. */
  lemma {:induction false} ActiveGoesOn(cs: seq<Connection>, ops: seq<Op>, pasts: seq<R.Past>, i: nat)
    requires IsLife(cs, ops, pasts) && i <= |ops| && cs[i].active
    ensures NeverGivesUp(cs, ops, i)
  {
    forall j {:trigger ops[j]} | 0 <= j < i ensures !GivesUp(cs[j], ops[j]) {
      if GivesUp(cs[j], ops[j]) { InactiveSince(cs, ops, j, i); }
    }
  }

  /** As long as there is no error, the closing condition says that the connection is finished. */
  lemma {:induction false} FinishedIsMayClose(cs: seq<Connection>, ops: seq<Op>, pasts: seq<R.Past>, i: nat)
    requires IsLife(cs, ops, pasts) && i <= |ops| && NeverGivesUp(cs, ops, i)
    requires !cs[i].Outbound().error && !cs[i].Inbound().error
    ensures C.MayClose(cs[i]) <==> Finished(cs, ops, i)
  {
    NewSound(cs[0]);
    LifeSound(cs, ops, pasts, i);
    BehaviorWaits(cs, ops, i);
    ExcusedIfPassive(cs, ops, i);
    CloseBySummary(cs[i]);
  }

  lemma NoError(c: Connection, op: Op)
    requires c.Valid() && Proper(c) && c.active && Tries(c, op)
    ensures !Apply(c, op).Outbound().error && !Apply(c, op).Inbound().error && !GivesUp(c, op)
  {
    InboundProper(c, op);
    OutboundAfter(c, op);
  }

  /** Over every life: an active connection goes inactive by giving up, by a reset, or, at a write, a tick or
      the arrival of a segment, exactly when it is finished then. */
  lemma {:induction false} ClosesExactly(cs: seq<Connection>, ops: seq<Op>, pasts: seq<R.Past>, i: nat)
    requires IsLife(cs, ops, pasts) && i < |ops| && cs[i].active
    ensures !cs[i + 1].active <==>
            || GivesUp(cs[i], ops[i]) || IsReset(ops[i])
            || ((ops[i].Write? || ops[i].Tick? || ops[i].Deliver?) && Finished(cs, ops, i + 1))
  {
    var op := ops[i];
    StepCloses(cs[i], op);
    if Tries(cs[i], op) {
      LifeSound(cs, ops, pasts, i);
      NoError(cs[i], op);
      ActiveGoesOn(cs, ops, pasts, i);
      FinishedIsMayClose(cs, ops, pasts, i + 1);
    }
  }
}
