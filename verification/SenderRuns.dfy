/** Whole runs of the sender: the invariants, the backoff of the timer, and the state summary. */
module SenderRuns {
  import opened Bytes
  import opened ByteStreams
  import opened WrappingIntegers
  import opened Senders
  import opened SenderSafety

  function Pow2(n: nat): nat { if n == 0 then 1 else 2 * Pow2(n - 1) }

  /** What can happen to a sender. */
  datatype Event = Write(data: seq<byte>) | End | Fill | Ack(ackno: uint32, window: uint16) | Tick(ms: nat) | Bare

  predicate Ready(s: Sender) { s.stream.Valid() && s.flight == Total(s.wait) }

  function Step(s: Sender, e: Event): (t: Sender)
    requires Ready(s)
    ensures Ready(t)
  {
    match e
    case Write(data) => Feed(s, data)
    case End => Finish(s)
    case Fill => FillTotal(s); FillWindow(s)
    case Ack(ackno, window) => AckReceived(s, ackno, window)
    case Tick(ms) => TickSender(s, ms)
    case Bare => SendEmpty(s)
  }

  /** Nothing is accepted from the application after FIN and at or past 2^64 - 2^17 bytes. */
  predicate Allowed(s: Sender, e: Event)
    requires Ready(s)
  {
    e.Write? ==> MayFeed(s, e.data)
  }

  /** Acknowledgments are for sequence numbers already used. */
  predicate Honest(s: Sender, e: Event) { e.Ack? ==> AbsAck(s, e.ackno) <= s.next }

  /** The event acknowledges at least one outstanding segment. */
  predicate NewlyAcks(s: Sender, e: Event)
  {
    e.Ack? && AbsAck(s, e.ackno) <= s.next && AckedCount(s.wait, AbsAck(s, e.ackno), s.isn, s.next) > 0
  }

  /** What has happened since the last newly acknowledged segment: milliseconds of ticks, and how
      many of the timeouts that ran out counted as retransmissions. Last, the milliseconds of ticks
      since a segment was first sent into an empty queue, a segment was newly acknowledged, or a
      timeout ran out. */
  datatype Past = Past(quiet: nat, tries: nat, elapsed: nat)

  const NOTHING: Past := Past(0, 0, 0)

  /** The timeout runs out: something is outstanding, and the time measured reaches the timeout. */
  predicate Expires(s: Sender, past: Past, ms: nat)
  {
    s.wait != [] && (past.elapsed + ms) % TWO32 >= s.timer.timeout
  }

  /** A timeout counts as a retransmission unless the peer's window is shut. */
  function PastAfter(s: Sender, e: Event, past: Past): Past
  {
    if e.Tick? && Expires(s, past, e.ms) then
      Past(past.quiet + e.ms, past.tries + if s.window != 0 then 1 else 0, 0)
    else if e.Tick? then
      Past(past.quiet + e.ms, past.tries, past.elapsed + e.ms)
    else if NewlyAcks(s, e) then NOTHING
    else if e.Fill? && s.wait == [] then past.(elapsed := 0)
    else past
  }

  /** While something is outstanding the timer shows the time measured, in 32 bits. */
  ghost predicate Clocked(s: Sender, past: Past) { s.wait != [] ==> s.timer.cur == past.elapsed % TWO32 }

  /** The timeout has doubled once per retransmission counted, in 32 bits; up to the sixteenth it has
      not overflowed and the quiet time covers every timeout waited out plus the one running. */
  ghost predicate Backoff(s: Sender, past: Past)
  {
    && s.retx == past.tries % TWO32
    && s.timer.timeout == s.timer.init * Pow2(past.tries) % TWO32
    && (past.tries <= 16 ==>
          && s.timer.timeout == s.timer.init * Pow2(past.tries)
          && s.timer.timeout - s.timer.init + (if s.timer.active then s.timer.cur else 0) <= past.quiet)
    && (past.tries > MAX_RETX_ATTEMPTS ==> past.quiet >= 511 * s.timer.init)
  }

  ghost predicate Sound(s: Sender, past: Past)
  {
    Inv(s) && Backoff(s, past) && Clocked(s, past) && |s.stream.log| < MAX_STREAM
  }

  lemma Pow2Small()
    ensures Pow2(0) == 1 && Pow2(9) == 512 && Pow2(16) == 65536
  {
    assert Pow2(2) == 4 && Pow2(4) == 16 && Pow2(6) == 64;
    assert Pow2(8) == 256 && Pow2(10) == 1024 && Pow2(12) == 4096 && Pow2(14) == 16384;
  }

  lemma {:induction false} Pow2Grows(m: nat, n: nat)
    requires m <= n
    ensures 1 <= Pow2(m) <= Pow2(n)
    decreases n
  {
    if m < n { Pow2Grows(m, n - 1); } else if m > 0 { Pow2Grows(m - 1, m - 1); }
  }

  /** Doubling, in 32 bits and, while it is small, exactly. */
  lemma Doubling(init: uint16, n: nat)
    ensures init * Pow2(n + 1) % TWO32 == init * Pow2(n) % TWO32 * 2 % TWO32
    ensures n < 16 ==> init * Pow2(n + 1) == 2 * (init * Pow2(n)) < TWO32
  {
    var y := init * Pow2(n);
    assert init * Pow2(n + 1) == 2 * y;
    DoubleLow(y);
    if n < 16 {
      Pow2Grows(n + 1, 16);
      Pow2Small();
      Times(init, Pow2(n + 1), 65536);
    }
  }

  lemma DoubleLow(y: nat)
    ensures 2 * y % TWO32 == y % TWO32 * 2 % TWO32
  {
    var q, r := y / TWO32, y % TWO32;
    assert y == r + TWO32 * q;
    WholeTurns(2 * r, 2 * q);
    assert 2 * y == 2 * r + TWO32 * (2 * q);
  }

  lemma Times(a: nat, b: nat, c: nat)
    requires b <= c
    ensures a * b <= a * c
  {
  }

  lemma Elapsed(cur: uint32, ms: nat, elapsed: nat)
    requires cur == elapsed % TWO32
    ensures (cur + ms % TWO32) % TWO32 == (elapsed + ms) % TWO32
    ensures (cur + ms % TWO32) % TWO32 <= cur + ms
  {
    var a, b, q, k := elapsed % TWO32, ms % TWO32, elapsed / TWO32, ms / TWO32;
    assert elapsed + ms == a + b + TWO32 * (q + k);
    WholeTurns(a + b, q + k);
  }

  lemma TickBackoff(s: Sender, ms: nat, past: Past)
    requires Timed(s) && Backoff(s, past) && Clocked(s, past)
    ensures var t, after := TickSender(s, ms), PastAfter(s, Tick(ms), past); Backoff(t, after) && Clocked(t, after)
  {
    var t, after := TickSender(s, ms), PastAfter(s, Tick(ms), past);
    if !s.timer.active {
      LaterBackoff(s, ms, past, s, after);
    } else if !Expires(s, past, ms) {
      TickOn(s, ms, past, t);
      LaterBackoff(s, ms, past, t, after);
    } else {
      TickOut(s, ms, past, t);
      if s.window == 0 { ShutBackoff(s, ms, past, t); } else { RetryBackoff(s, ms, past, t); }
    }
  }

  /** A tick before the timeout. */
  lemma TickOn(s: Sender, ms: nat, past: Past, t: Sender)
    requires Timed(s) && Clocked(s, past) && s.wait != [] && !Expires(s, past, ms) && t == TickSender(s, ms)
    ensures t == s.(timer := s.timer.(cur := (past.elapsed + ms) % TWO32)) && t.timer.cur <= s.timer.cur + ms
  {
    Elapsed(s.timer.cur, ms, past.elapsed);
  }

  /** A tick at which the timeout runs out. */
  lemma TickOut(s: Sender, ms: nat, past: Past, t: Sender)
    requires Timed(s) && Clocked(s, past) && Expires(s, past, ms) && t == TickSender(s, ms)
    ensures s.timer.cur + ms >= s.timer.timeout && t.wait == s.wait
    ensures var timeout := if s.window != 0 then s.timer.timeout * 2 % TWO32 else s.timer.timeout;
            t.timer == s.timer.(timeout := timeout).Start()
    ensures t.retx == if s.window != 0 then (s.retx + 1) % TWO32 else s.retx
  {
    Elapsed(s.timer.cur, ms, past.elapsed);
  }

  lemma LaterBackoff(s: Sender, ms: nat, past: Past, t: Sender, after: Past)
    requires Backoff(s, past) && after == Past(past.quiet + ms, past.tries, past.elapsed + ms)
    requires s.timer.active <==> s.wait != []
    requires if s.timer.active
             then t == s.(timer := s.timer.(cur := (past.elapsed + ms) % TWO32)) && t.timer.cur <= s.timer.cur + ms
             else t == s
    ensures Backoff(t, after) && Clocked(t, after)
  {
  }

  lemma ShutBackoff(s: Sender, ms: nat, past: Past, t: Sender)
    requires Backoff(s, past) && t.timer == s.timer.Start() && t.retx == s.retx
    ensures var after := Past(past.quiet + ms, past.tries, 0); Backoff(t, after) && Clocked(t, after)
  {
  }

  lemma OneMore(n: nat)
    ensures (n % TWO32 + 1) % TWO32 == (n + 1) % TWO32
  {
    WholeTurns(n % TWO32 + 1, n / TWO32);
  }

  lemma RetryBackoff(s: Sender, ms: nat, past: Past, t: Sender)
    requires Backoff(s, past) && s.timer.active && s.timer.cur + ms >= s.timer.timeout
    requires t.timer == s.timer.(timeout := s.timer.timeout * 2 % TWO32).Start() && t.retx == (s.retx + 1) % TWO32
    ensures var after := Past(past.quiet + ms, past.tries + 1, 0); Backoff(t, after) && Clocked(t, after)
  {
    Doubling(s.timer.init, past.tries);
    OneMore(past.tries);
    if past.tries == MAX_RETX_ATTEMPTS { Pow2Small(); }
  }

  /** Filling the window leaves a running timer alone, and starts one that is not when it sends. */
  lemma {:induction false} FillLoopTimer(s: Sender, room: nat, t: Sender)
    requires s.stream.Valid() && t == FillLoop(s, room)
    ensures t.retx == s.retx && (t.timer == s.timer || (!s.timer.active && t.timer == s.timer.Start()))
    decreases room
  {
    if room > 0 && !s.fin && NextSegment(s, room).Length() > 0 {
      FillLoopTimer(Send(s, room), room - NextSegment(s, room).Length(), t);
    }
  }

  lemma FillTimer(s: Sender)
    requires s.stream.Valid()
    ensures var t := FillWindow(s);
            t.retx == s.retx && (t.timer == s.timer || (!s.timer.active && t.timer == s.timer.Start()))
  {
    if !s.fin && s.Limit() > s.next { FillLoopTimer(s, s.Limit() - s.next, FillWindow(s)); }
  }

  lemma AckBackoff(s: Sender, ackno: uint32, window: uint16, past: Past)
    requires Inv(s) && Backoff(s, past) && Clocked(s, past)
    ensures var t, after := AckReceived(s, ackno, window), PastAfter(s, Ack(ackno, window), past);
            Backoff(t, after) && Clocked(t, after)
  {
    if NewlyAcks(s, Ack(ackno, window)) {
      NewBackoff(AckReceived(s, ackno, window));
    } else {
      AckTakesOver(s, ackno, window);
    }
  }

  lemma NewBackoff(s: Sender)
    requires s.retx == 0 && s.timer.timeout == s.timer.init && (s.timer.active ==> s.timer.cur == 0)
    ensures Backoff(s, NOTHING)
  {
    assert Pow2(0) == 1;
  }

  lemma FillSound(s: Sender, past: Past)
    requires Sound(s, past)
    ensures Sound(FillWindow(s), PastAfter(s, Fill, past))
  {
    FillKeeps(s);
    FillFrame(s);
    FillTimer(s);
  }

  lemma StepSound(s: Sender, e: Event, past: Past)
    requires Sound(s, past) && Allowed(s, e)
    ensures Sound(Step(s, e), PastAfter(s, e, past))
  {
    match e
    case Write(data) =>
      FeedKeeps(s, data);
    case End =>
      FinishKeeps(s);
    case Fill =>
      FillSound(s, past);
    case Ack(ackno, window) =>
      AckKeeps(s, ackno, window);
      AckTakesOver(s, ackno, window);
      AckBackoff(s, ackno, window, past);
    case Tick(ms) =>
      TickKeeps(s, ms);
      TickBackoff(s, ms, past);
    case Bare =>
  }

  lemma StepInWindow(s: Sender, e: Event, past: Past)
    requires Sound(s, past) && InWindow(s) && Allowed(s, e) && Honest(s, e)
    ensures InWindow(Step(s, e))
  {
    match e
    case Write(data) => FeedKeeps(s, data);
    case End => FinishKeeps(s);
    case Fill => FillInWindow(s);
    case Ack(ackno, window) => AckInWindow(s, ackno, window);
    case Tick(ms) => TickKeeps(s, ms);
    case Bare =>
  }

  predicate AllAllowed(s: Sender, events: seq<Event>)
    requires Ready(s)
    decreases |events|
  {
    events == [] || (Allowed(s, events[0]) && AllAllowed(Step(s, events[0]), events[1..]))
  }

  function RunOf(s: Sender, events: seq<Event>): (t: Sender)
    requires Ready(s)
    ensures Ready(t)
    decreases |events|
  {
    if events == [] then s else RunOf(Step(s, events[0]), events[1..])
  }

  function PastOf(s: Sender, events: seq<Event>, past: Past): Past
    requires Ready(s)
    decreases |events|
  {
    if events == [] then past else PastOf(Step(s, events[0]), events[1..], PastAfter(s, events[0], past))
  }

  predicate AllHonest(s: Sender, events: seq<Event>)
    requires Ready(s)
    decreases |events|
  {
    events == [] || (Honest(s, events[0]) && AllHonest(Step(s, events[0]), events[1..]))
  }

  /** Every run keeps the queue of outstanding segments a gapless tiling of the unacknowledged part
      of the stream, the timer running exactly while the queue is not empty, and the backoff exact. */
  lemma {:induction false} RunSound(s: Sender, events: seq<Event>, past: Past)
    requires Sound(s, past) && AllAllowed(s, events)
    ensures Sound(RunOf(s, events), PastOf(s, events, past))
    decreases |events|
  {
    if events != [] {
      StepSound(s, events[0], past);
      RunSound(Step(s, events[0]), events[1..], PastAfter(s, events[0], past));
    }
  }

  /** Every run with honest acknowledgments keeps bytes in flight below one window plus one segment. */
  lemma {:induction false} RunInWindow(s: Sender, events: seq<Event>, past: Past)
    requires Sound(s, past) && InWindow(s) && AllAllowed(s, events) && AllHonest(s, events)
    ensures InWindow(RunOf(s, events)) && RunOf(s, events).flight < 65535 + MAX_SEGMENT
    decreases |events|
  {
    if events == [] {
      FlightBound(s);
    } else {
      StepSound(s, events[0], past);
      StepInWindow(s, events[0], past);
      RunInWindow(Step(s, events[0]), events[1..], PastAfter(s, events[0], past));
    }
  }

  // --- Retransmission over whole runs ---

  /** The tick queues one segment, the one at the oldest unacknowledged number. */
  ghost predicate Retransmits(s: Sender, ms: nat, base: int)
    requires s.stream.Valid()
  {
    base >= 0 && exists seg :: TickSender(s, ms).out == s.out + [seg] && Made(seg, base, s.isn, s.Sent(), s.fin)
  }

  /** A tick retransmits exactly when the ticks since the timer was started add up to the timeout, which
      is the initial one doubled for each retransmission counted. Otherwise it sends nothing. */
  lemma TickTimely(s: Sender, ms: nat, past: Past)
    requires Sound(s, past)
    ensures var due := s.wait != [] && (past.elapsed + ms) % TWO32 >= s.timer.init * Pow2(past.tries) % TWO32;
            if due then Retransmits(s, ms, s.Base()) else TickSender(s, ms).out == s.out
  {
    if s.wait != [] { Elapsed(s.timer.cur, ms, past.elapsed); }
    TickRetransmits(s, ms);
  }

  /** The milliseconds of all ticks. */
  function Ticks(events: seq<Event>): nat
  {
    if events == [] then 0 else (if events[0].Tick? then events[0].ms else 0) + Ticks(events[1..])
  }

  lemma {:induction false} TicksFirst(events: seq<Event>)
    requires events != []
    ensures Ticks(events) == Ticks([events[0]]) + Ticks(events[1..])
  {
    assert [events[0]][1..] == [];
  }

  /** Nothing is newly acknowledged. */
  predicate NoneAcked(s: Sender, events: seq<Event>)
    requires Ready(s)
    decreases |events|
  {
    events == [] || (!NewlyAcks(s, events[0]) && NoneAcked(Step(s, events[0]), events[1..]))
  }

  /** Short of a timeout and an acknowledgment, the oldest segment stays outstanding and its time runs. */
  lemma StepWaiting(s: Sender, e: Event, past: Past)
    requires Sound(s, past) && s.wait != [] && !NewlyAcks(s, e) && !(e.Tick? && Expires(s, past, e.ms))
    ensures var t := Step(s, e);
            && t.wait != [] && t.Base() == s.Base() && t.timer.timeout == s.timer.timeout
            && PastAfter(s, e, past).elapsed == past.elapsed + Ticks([e])
  {
    assert [e][1..] == [];
    match e
    case Fill =>
      var added := FillQueues(s);
      FillBase(s);
      FillTimer(s);
    case Ack(ackno, window) => AckTakesOver(s, ackno, window);
    case Tick(ms) => Elapsed(s.timer.cur, ms, past.elapsed);
    case _ =>
  }

  /** With `more` milliseconds of ticks to come, the timeout is still due. */
  ghost predicate Due(s: Sender, past: Past, more: nat)
  {
    && Sound(s, past) && s.wait != [] && more > 0
    && s.timer.timeout <= past.elapsed + more < TWO32
  }

  lemma StillDue(s: Sender, e: Event, past: Past, more: nat)
    requires Due(s, past, Ticks([e]) + more) && Allowed(s, e) && !NewlyAcks(s, e)
    requires !(e.Tick? && Expires(s, past, e.ms))
    ensures Due(Step(s, e), PastAfter(s, e, past), more) && Step(s, e).Base() == s.Base()
  {
    StepWaiting(s, e, past);
    StepSound(s, e, past);
    assert Ticks([e]) == if e.Tick? then e.ms else 0 by { assert [e][1..] == []; }
    if e.Tick? { NotYet(s, past, e.ms); }
  }

  lemma NotYet(s: Sender, past: Past, ms: nat)
    requires s.wait != [] && !Expires(s, past, ms) && past.elapsed + ms < TWO32
    ensures past.elapsed + ms < s.timer.timeout
  {
  }

  /** Some tick of the run queues the segment at `base`. */
  ghost predicate RetransmitsIn(s: Sender, events: seq<Event>, base: int)
    requires Ready(s)
    decreases |events|
  {
    && events != []
    && ((events[0].Tick? && Retransmits(s, events[0].ms, base)) || RetransmitsIn(Step(s, events[0]), events[1..], base))
  }

  /** In every run in which nothing is newly acknowledged: once the ticks reach the timeout, however they
      are divided and whatever comes between them, the oldest segment has been retransmitted. */
  lemma {:induction false} RunRetransmits(s: Sender, events: seq<Event>, past: Past)
    requires Due(s, past, Ticks(events)) && AllAllowed(s, events) && NoneAcked(s, events)
    ensures RetransmitsIn(s, events, s.Base())
    decreases |events|
  {
    var e := events[0];
    if e.Tick? && Expires(s, past, e.ms) {
      TickTimely(s, e.ms, past);
    } else {
      TicksFirst(events);
      StillDue(s, e, past, Ticks(events[1..]));
      RunRetransmits(Step(s, e), events[1..], PastAfter(s, e, past));
    }
  }

  predicate Bounded(s: Sender) { s.flight < 65535 + MAX_SEGMENT }

  /** What decides, before a fill, whether it stays within one window plus one segment. */
  predicate Guarded(s: Sender, e: Event)
    requires Ready(s)
  {
    e.Fill? ==> Reach(s) < s.Base() + 65535 + MAX_SEGMENT
  }

  lemma StepBounded(s: Sender, e: Event)
    requires Inv(s) && Bounded(s)
    ensures Bounded(Step(s, e)) <==> Guarded(s, e)
  {
    if e.Fill? {
      FillFlight(s);
    } else if e.Ack? {
      TotalSplit(s.wait, AckedCount(s.wait, AbsAck(s, e.ackno), s.isn, s.next));
    }
  }

  predicate AllBounded(s: Sender, events: seq<Event>)
    requires Ready(s)
    decreases |events|
  {
    Bounded(s) && (events == [] || AllBounded(Step(s, events[0]), events[1..]))
  }

  predicate AllGuarded(s: Sender, events: seq<Event>)
    requires Ready(s)
    decreases |events|
  {
    events == [] || (Guarded(s, events[0]) && AllGuarded(Step(s, events[0]), events[1..]))
  }

  /** Over every run, whatever is acknowledged: the bound holds in every state exactly if the guard
      holds before every fill. */
  lemma {:induction false} RunBounded(s: Sender, events: seq<Event>, past: Past)
    requires Sound(s, past) && AllAllowed(s, events) && Bounded(s)
    ensures AllBounded(s, events) <==> AllGuarded(s, events)
    decreases |events|
  {
    if events != [] {
      StepBounded(s, events[0]);
      StepSound(s, events[0], past);
      if Guarded(s, events[0]) {
        RunBounded(Step(s, events[0]), events[1..], PastAfter(s, events[0], past));
      }
    }
  }

  lemma NewSenderSound(capacity: nat, timeout: uint16, isn: uint32)
    ensures Sound(NewSender(capacity, timeout, isn), NOTHING) && InWindow(NewSender(capacity, timeout, isn))
  {
    assert Pow2(0) == 1;
  }

  /** Over every run, giving up (more than eight consecutive retransmissions) takes at least 511
      times the initial timeout without a newly acknowledged segment. */
  lemma {:induction false} GiveUpTakesTime(capacity: nat, timeout: uint16, isn: uint32, events: seq<Event>)
    requires AllAllowed(NewSender(capacity, timeout, isn), events)
    ensures var s := NewSender(capacity, timeout, isn);
            RunOf(s, events).retx > MAX_RETX_ATTEMPTS ==> PastOf(s, events, NOTHING).quiet >= 511 * timeout
  {
    var s := NewSender(capacity, timeout, isn);
    NewSenderSound(capacity, timeout, isn);
    RunSound(s, events, NOTHING);
    InitKept(s, events);
    SmallTries(PastOf(s, events, NOTHING).tries);
  }

  lemma SmallTries(n: nat)
    ensures n % TWO32 <= n
  {
  }

  lemma StepInit(s: Sender, e: Event)
    requires Ready(s)
    ensures Step(s, e).timer.init == s.timer.init
  {
    if e.Fill? { FillTimer(s); }
  }

  lemma {:induction false} InitKept(s: Sender, events: seq<Event>)
    requires Ready(s)
    ensures RunOf(s, events).timer.init == s.timer.init
    decreases |events|
  {
    if events != [] {
      StepInit(s, events[0]);
      InitKept(Step(s, events[0]), events[1..]);
    }
  }

  // --- Runs past the window and to the end ---

  /** A new sender sends its SYN and sees it acknowledged. */
  lemma Opens(s: Sender, window: uint16)
    requires Inv(s) && InWindow(s) && s.next == 0 && s.Limit() == 1
    ensures Inv(FillWindow(s))
    ensures var t := AckReceived(FillWindow(s), Wrap(1, s.isn), window);
            && Inv(t) && InWindow(t) && t.next == 1 && t.flight == 0 && t.stream == s.stream && !t.fin
            && t.ackno == 1 && t.window == window && t.isn == s.isn
  {
    var m := FillWindow(s);
    FillKeeps(s);
    FillInWindow(s);
    FillExact(s);
    FillBase(s);
    FillFrame(s);
    assert m.next == 1 && m.flight == 1 && m.stream == s.stream;
    AcksSyn(m, window);
  }

  lemma AcksSyn(s: Sender, window: uint16)
    requires Inv(s) && InWindow(s) && s.next == 1 == s.flight
    ensures var t := AckReceived(s, Wrap(1, s.isn), window);
            && Inv(t) && InWindow(t) && t.next == 1 && t.flight == 0 && t.stream == s.stream
            && t.ackno == 1 && t.window == window && t.isn == s.isn && t.fin == s.fin
  {
    var t := AckReceived(s, Wrap(1, s.isn), window);
    UnwrapWrap(1, s.isn, 1);
    AckKeeps(s, Wrap(1, s.isn), window);
    AckInWindow(s, Wrap(1, s.isn), window);
    AckExact(s, Wrap(1, s.isn), window);
    AckTakesOver(s, Wrap(1, s.isn), window);
  }

  /** An impossible acknowledgment is stored before it is rejected, and what is sent next passes any
      window: with 100000 bytes to send, one for 80000 puts 80000 bytes in flight. */
  lemma RunawayExample(data: seq<byte>, isn: uint32)
    requires |data| == 100000
    ensures var start := Step(Step(NewSender(100000, 1000, isn), Write(data)), Fill);
            var live := Step(start, Ack(Wrap(1, isn), 1));
            Step(Step(live, Ack(Wrap(80000, isn), 1)), Fill).flight == 80000 > 65535 + MAX_SEGMENT
  {
    var s := NewSender(100000, 1000, isn);
    NewSenderSound(100000, 1000, isn);
    FeedKeeps(s, data);
    Opens(Feed(s, data), 1);
    var live := AckReceived(FillWindow(Feed(s, data)), Wrap(1, isn), 1);
    Impossible(live);
    var t := live.(ackno := 80000);
    assert |t.stream.Buffered()| == 100000;
    FillFlight(t);
  }

  /** The number stays stored: with nothing to send at first, the fill that passes any window can come
      long after the acknowledgment. */
  lemma LateRunaway(data: seq<byte>, isn: uint32)
    requires |data| == 100000
    ensures var live := Step(Step(NewSender(100000, 1000, isn), Fill), Ack(Wrap(1, isn), 1));
            var filled := Step(Step(live, Ack(Wrap(80000, isn), 1)), Fill);
            && Inv(live) && InWindow(live) && filled.flight == 0
            && Step(Step(filled, Write(data)), Fill).flight == 80000 > 65535 + MAX_SEGMENT
  {
    var s := NewSender(100000, 1000, isn);
    NewSenderSound(100000, 1000, isn);
    Opens(s, 1);
    var live := AckReceived(FillWindow(s), Wrap(1, isn), 1);
    Impossible(live);
    NothingPending(live.(ackno := 80000));
    LateFill(live.(ackno := 80000), data);
  }

  /** An acknowledgment of 80000 while only the SYN has been sent. */
  lemma Impossible(s: Sender)
    requires Inv(s) && s.next == 1
    ensures AckReceived(s, Wrap(80000, s.isn), 1) == s.(ackno := 80000)
    ensures Inv(s.(ackno := 80000))
  {
    UnwrapWrap(80000, s.isn, 1);
    AckKeeps(s, Wrap(80000, s.isn), 1);
  }

  lemma NothingPending(s: Sender)
    requires Inv(s) && s.next == 1 && s.stream.Buffered() == [] && !s.stream.ended
    ensures FillWindow(s) == s
  {
  }

  lemma LateFill(s: Sender, data: seq<byte>)
    requires Inv(s) && !s.fin && s.next == 1 && s.flight == 0 && s.stream == Fresh(100000) && |data| == 100000
    requires s.Limit() == 80001
    ensures FillWindow(Feed(s, data)).flight == 80000
  {
    FeedKeeps(s, data);
    assert |Feed(s, data).stream.Buffered()| == 100000;
    FillFlight(Feed(s, data));
  }

  /** A sender that has sent its FIN. */
  lemma Finishes(capacity: nat, isn: uint32)
    ensures var start := Step(Step(NewSender(capacity, 1000, isn), End), Fill);
            var s := Step(Step(start, Ack(Wrap(1, isn), 10)), Fill);
            Inv(s) && s.fin && s.next == 2 && s.flight == 1 && s.stream == Fresh(capacity).EndInput()
  {
    var s := NewSender(capacity, 1000, isn);
    NewSenderSound(capacity, 1000, isn);
    FinishKeeps(s);
    Opens(Finish(s), 10);
    var live := AckReceived(FillWindow(Finish(s)), Wrap(1, isn), 10);
    FillExact(live);
    FillBase(live);
    FillKeeps(live);
    FillFrame(live);
    FillExhausts(live);
  }
}
