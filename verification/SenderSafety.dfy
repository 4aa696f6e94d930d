/** What every step of the sender keeps. */
module SenderSafety {
  import opened Bytes
  import opened Segments
  import opened WrappingIntegers
  import opened Senders

  const MAX_SEGMENT: nat := 1002

  /** `seg`, read at absolute sequence number `a`, agrees with the stream: SYN only at 0, payload
      equal to the stream there, FIN only at the end of a finished stream. It has no options. */
  ghost predicate Carries(seg: Segment, a: nat, sent: seq<byte>, fin: bool)
  {
    var p := a + if seg.header.syn then 1 else 0;
    && seg.header.doff == 5 && (seg.header.syn ==> a == 0)
    && (seg.payload != [] || seg.header.fin ==>
          && p >= 1 && p - 1 + |seg.payload| <= |sent|
          && (forall k | 0 <= k < |seg.payload| :: seg.payload[k] == sent[p - 1 + k]))
    && (seg.header.fin ==> fin && p - 1 + |seg.payload| == |sent|)
  }

  /** A segment as the sender makes it for absolute sequence number `a`. */
  ghost predicate Made(seg: Segment, a: nat, isn: uint32, sent: seq<byte>, fin: bool)
  {
    && seg.header.seqno == Wrap(a, isn) && Carries(seg, a, sent, fin)
    && 0 < seg.Length() <= MAX_SEGMENT && (seg.header.syn <==> a == 0) && !seg.header.ack
  }

  /** The segments lie end to end from `a` on. */
  ghost predicate Tiled(segs: seq<Segment>, a: nat, isn: uint32, sent: seq<byte>, fin: bool)
  {
    segs == [] || (Made(segs[0], a, isn, sent, fin) && Tiled(segs[1..], a + segs[0].Length(), isn, sent, fin))
  }

  /** The sequence number counts SYN, the bytes taken from the stream, and FIN. */
  ghost predicate Counted(s: Sender)
  {
    && s.next == (if s.next == 0 then 0 else 1) + s.stream.read + (if s.fin then 1 else 0)
    && (s.next == 0 ==> s.stream.read == 0 && !s.fin)
    && (s.fin ==> s.stream.Eof())
  }

  /** The timer runs exactly while something is outstanding. */
  ghost predicate Timed(s: Sender)
  {
    !s.timer.expired && (s.timer.active <==> s.wait != [])
  }

  ghost predicate Inv(s: Sender)
  {
    && s.stream.Valid() && s.flight == Total(s.wait) <= s.next
    && Counted(s) && Timed(s)
    && Tiled(s.wait, s.Base(), s.isn, s.Sent(), s.fin)
  }

  /** The stream may grow until FIN has been sent. */
  ghost predicate Grows(sent: seq<byte>, fin: bool, sent': seq<byte>, fin': bool)
  {
    sent <= sent' && (fin ==> fin' && sent' == sent)
  }

  lemma CarriesGrow(seg: Segment, a: nat, sent: seq<byte>, fin: bool, sent': seq<byte>, fin': bool)
    requires Carries(seg, a, sent, fin) && Grows(sent, fin, sent', fin')
    ensures Carries(seg, a, sent', fin')
  {
  }

  lemma {:induction false} TiledGrow(segs: seq<Segment>, a: nat, isn: uint32, sent: seq<byte>, fin: bool,
        sent': seq<byte>, fin': bool)
    requires Tiled(segs, a, isn, sent, fin) && Grows(sent, fin, sent', fin')
    ensures Tiled(segs, a, isn, sent', fin')
    decreases |segs|
  {
    if segs != [] {
      CarriesGrow(segs[0], a, sent, fin, sent', fin');
      TiledGrow(segs[1..], a + segs[0].Length(), isn, sent, fin, sent', fin');
    }
  }

  lemma {:induction false} TiledAppend(segs: seq<Segment>, a: nat, isn: uint32, sent: seq<byte>, fin: bool,
        seg: Segment)
    requires Tiled(segs, a, isn, sent, fin) && Made(seg, a + Total(segs), isn, sent, fin)
    ensures Tiled(segs + [seg], a, isn, sent, fin) && Total(segs + [seg]) == Total(segs) + seg.Length()
    decreases |segs|
  {
    if segs == [] {
      assert ([] + [seg])[1..] == [];
    } else {
      assert (segs + [seg])[1..] == segs[1..] + [seg];
      TiledAppend(segs[1..], a + segs[0].Length(), isn, sent, fin, seg);
    }
  }

  lemma {:induction false} TiledDrop(segs: seq<Segment>, a: nat, isn: uint32, sent: seq<byte>, fin: bool, n: nat)
    requires Tiled(segs, a, isn, sent, fin) && n <= |segs|
    ensures Tiled(segs[n..], a + Total(segs[..n]), isn, sent, fin)
    decreases n
  {
    if n == 0 {
      assert segs[0..] == segs && segs[..0] == [];
    } else {
      TiledDrop(segs[1..], a + segs[0].Length(), isn, sent, fin, n - 1);
      assert segs[1..][n - 1..] == segs[n..];
      assert segs[..n][1..] == segs[1..][..n - 1];
    }
  }

  // --- fill_window ---

  /** The segment a round of the loop builds is the next piece of the stream. */
  lemma NextMade(s: Sender, room: nat)
    requires Inv(s) && !s.fin && room > 0
    ensures var seg, t := NextSegment(s, room), Send(s, room);
            Carries(seg, s.next, t.Sent(), t.fin) && Grows(s.Sent(), s.fin, t.Sent(), t.fin)
  {
    var seg, t := NextSegment(s, room), Send(s, room);
    assert t.stream.read == s.stream.read + |seg.payload|;
    assert forall k | 0 <= k < |seg.payload| :: seg.payload[k] == s.stream.log[s.stream.read + k];
  }

  lemma SendKeeps(s: Sender, room: nat)
    requires Inv(s) && !s.fin && room > 0 && NextSegment(s, room).Length() > 0
    ensures Inv(Send(s, room))
  {
    var seg, t := NextSegment(s, room), Send(s, room);
    NextMade(s, room);
    TiledGrow(s.wait, s.Base(), s.isn, s.Sent(), s.fin, t.Sent(), t.fin);
    TiledAppend(s.wait, s.Base(), s.isn, t.Sent(), t.fin, seg);
  }

  lemma {:induction false} FillLoopKeeps(s: Sender, room: nat)
    requires Inv(s)
    ensures Inv(FillLoop(s, room))
    decreases room
  {
    if room > 0 && !s.fin && NextSegment(s, room).Length() > 0 {
      SendKeeps(s, room);
      FillLoopKeeps(Send(s, room), room - NextSegment(s, room).Length());
    }
  }

  lemma FillKeeps(s: Sender)
    requires Inv(s)
    ensures Inv(FillWindow(s))
  {
    if !s.fin && s.Limit() > s.next { FillLoopKeeps(s, s.Limit() - s.next); }
  }

  /** What filling the window leaves alone. */
  ghost predicate Untouched(s: Sender, t: Sender)
  {
    && t.isn == s.isn && t.window == s.window && t.ackno == s.ackno && t.retx == s.retx
    && t.stream.log == s.stream.log && t.stream.max == s.stream.max
    && t.stream.ended == s.stream.ended && t.stream.error == s.stream.error
    && t.timer.init == s.timer.init && t.timer.timeout == s.timer.timeout
  }

  /** The step from `s` to `t` queued `added`, end to end from `s.next` on, up to `limit` at most. */
  ghost predicate Queued(s: Sender, t: Sender, added: seq<Segment>, limit: nat)
    requires t.stream.Valid()
  {
    && t.out == s.out + added && t.wait == s.wait + added
    && t.next == s.next + Total(added) <= Max(s.next, limit)
    && Tiled(added, s.next, t.isn, t.Sent(), t.fin)
  }

  lemma QueuedStep(s: Sender, m: Sender, t: Sender, seg: Segment, rest: seq<Segment>, limit: nat)
    requires m.stream.Valid() && t.stream.Valid() && m.isn == t.isn
    requires m.out == s.out + [seg] && m.wait == s.wait + [seg] && m.next == s.next + seg.Length() <= limit
    requires Made(seg, s.next, m.isn, m.Sent(), m.fin) && Grows(m.Sent(), m.fin, t.Sent(), t.fin)
    requires Queued(m, t, rest, limit)
    ensures Queued(s, t, [seg] + rest, limit)
  {
    var added := [seg] + rest;
    assert added[1..] == rest;
    CarriesGrow(seg, s.next, m.Sent(), m.fin, t.Sent(), t.fin);
    assert s.out + added == m.out + rest && s.wait + added == m.wait + rest;
  }

  /** One round of the loop, in flat terms. */
  lemma SendFacts(s: Sender, room: nat, seg: Segment, m: Sender)
    requires Inv(s) && !s.fin && room > 0 && seg == NextSegment(s, room) && m == Send(s, room) && seg.Length() > 0
    ensures Inv(m) && m.isn == s.isn && m.out == s.out + [seg] && m.wait == s.wait + [seg]
    ensures m.next == s.next + seg.Length() <= s.next + room && Made(seg, s.next, m.isn, m.Sent(), m.fin)
  {
    NextMade(s, room);
    SendKeeps(s, room);
  }

  /** No new segment passes the limit, and the new segments continue the stream without a gap. */
  lemma {:induction false} FillLoopQueues(s: Sender, room: nat, t: Sender) returns (added: seq<Segment>)
    requires Inv(s) && t == FillLoop(s, room)
    ensures Queued(s, t, added, s.next + room)
    decreases room
  {
    if room == 0 || s.fin || NextSegment(s, room).Length() == 0 {
      added := [];
      assert s.out + [] == s.out && s.wait + [] == s.wait;
    } else {
      added := FillLoopQueuesMore(s, room, NextSegment(s, room), Send(s, room), t);
    }
  }

  lemma {:induction false} FillLoopQueuesMore(s: Sender, room: nat, seg: Segment, m: Sender, t: Sender)
    returns (added: seq<Segment>)
    requires Inv(s) && !s.fin && room > 0 && seg == NextSegment(s, room) && m == Send(s, room) && seg.Length() > 0
    requires t == FillLoop(m, room - seg.Length())
    ensures Queued(s, t, added, s.next + room)
    decreases room, 0
  {
    SendFacts(s, room, seg, m);
    FillLoopFrame(m, room - seg.Length(), t);
    var rest := FillLoopQueues(m, room - seg.Length(), t);
    added := [seg] + rest;
    QueuedStep(s, m, t, seg, rest, s.next + room);
  }

  lemma SendFrame(s: Sender, room: nat, m: Sender)
    requires Inv(s) && !s.fin && room > 0 && m == Send(s, room)
    ensures Untouched(s, m) && Grows(s.Sent(), s.fin, m.Sent(), m.fin)
  {
    NextMade(s, room);
  }

  lemma {:induction false} FillLoopFrame(s: Sender, room: nat, t: Sender)
    requires Inv(s) && t == FillLoop(s, room)
    ensures Untouched(s, t) && Grows(s.Sent(), s.fin, t.Sent(), t.fin)
    decreases room
  {
    if room > 0 && !s.fin && NextSegment(s, room).Length() > 0 {
      FillLoopFrameMore(s, room, NextSegment(s, room), Send(s, room), t);
    }
  }

  lemma {:induction false} FillLoopFrameMore(s: Sender, room: nat, seg: Segment, m: Sender, t: Sender)
    requires Inv(s) && !s.fin && room > 0 && seg == NextSegment(s, room) && m == Send(s, room) && seg.Length() > 0
    requires t == FillLoop(m, room - seg.Length())
    ensures Untouched(s, t) && Grows(s.Sent(), s.fin, t.Sent(), t.fin)
    decreases room, 0
  {
    SendFrame(s, room, m);
    SendKeeps(s, room);
    FillLoopFrame(m, room - seg.Length(), t);
  }

  lemma FillQueues(s: Sender) returns (added: seq<Segment>)
    requires Inv(s)
    ensures Queued(s, FillWindow(s), added, s.Limit())
  {
    if s.fin || s.Limit() <= s.next {
      added := [];
      assert s.out + [] == s.out && s.wait + [] == s.wait;
    } else {
      added := FillLoopQueues(s, s.Limit() - s.next, FillWindow(s));
    }
  }

  lemma FillFrame(s: Sender)
    requires Inv(s)
    ensures var t := FillWindow(s); Untouched(s, t) && Grows(s.Sent(), s.fin, t.Sent(), t.fin)
  {
    if !s.fin && s.Limit() > s.next { FillLoopFrame(s, s.Limit() - s.next, FillWindow(s)); }
  }

  /** Filling the window reads from the stream and does nothing else to it. */
  lemma {:induction false} FillLoopStream(s: Sender, room: nat, t: Sender)
    requires s.stream.Valid() && t == FillLoop(s, room)
    ensures t.stream == s.stream.(read := t.stream.read)
    decreases room
  {
    if room > 0 && !s.fin && NextSegment(s, room).Length() > 0 {
      FillLoopStream(Send(s, room), room - NextSegment(s, room).Length(), t);
    }
  }

  lemma FillStream(s: Sender)
    requires s.stream.Valid()
    ensures var t := FillWindow(s); t.stream == s.stream.(read := t.stream.read)
  {
    if !s.fin && s.Limit() > s.next { FillLoopStream(s, s.Limit() - s.next, FillWindow(s)); }
  }

  lemma {:induction false} FillLoopExhausts(s: Sender, room: nat)
    requires s.stream.Valid()
    ensures var t := FillLoop(s, room);
            t.next == s.next + room || t.fin || (t.stream.Buffered() == [] && !t.stream.ended)
    decreases room
  {
    if room > 0 && !s.fin && NextSegment(s, room).Length() > 0 {
      FillLoopExhausts(Send(s, room), room - NextSegment(s, room).Length());
    }
  }

  /** On exit the window is full, or FIN has been sent, or there is nothing to send yet. */
  lemma FillExhausts(s: Sender)
    requires s.stream.Valid()
    ensures var t := FillWindow(s);
            t.next >= t.Limit() || t.fin || (t.stream.Buffered() == [] && !t.stream.ended)
  {
    if !s.fin && s.Limit() > s.next {
      FillLoopExhausts(s, s.Limit() - s.next);
      FillLoopKeepsLimit(s, s.Limit() - s.next);
    }
  }

  lemma {:induction false} FillLoopKeepsLimit(s: Sender, room: nat)
    requires s.stream.Valid()
    ensures FillLoop(s, room).Limit() == s.Limit()
    decreases room
  {
    if room > 0 && !s.fin && NextSegment(s, room).Length() > 0 {
      FillLoopKeepsLimit(Send(s, room), room - NextSegment(s, room).Length());
    }
  }

  /** How many sequence numbers there are still to send: SYN, what is buffered, and FIN. */
  function Pending(s: Sender): nat
    requires s.stream.Valid()
  {
    if s.fin then 0 else (if s.next == 0 then 1 else 0) + |s.stream.Buffered()| + (if s.stream.ended then 1 else 0)
  }

  /** The next sequence number once the window has been filled. */
  function Reach(s: Sender): nat
    requires s.stream.Valid()
  {
    Max(s.next, Min(s.ackno + Max(1, s.window), s.next + Pending(s)))
  }

  lemma {:induction false} FillLoopExact(s: Sender, room: nat)
    requires s.stream.Valid()
    ensures FillLoop(s, room).next == s.next + Min(room, Pending(s))
    decreases room
  {
    if room > 0 && !s.fin && NextSegment(s, room).Length() > 0 {
      SendPending(s, room, Send(s, room));
      FillLoopExact(Send(s, room), room - NextSegment(s, room).Length());
    }
  }

  lemma SendPending(s: Sender, room: nat, t: Sender)
    requires s.stream.Valid() && room > 0 && !s.fin && t == Send(s, room) && NextSegment(s, room).Length() > 0
    ensures Pending(s) == NextSegment(s, room).Length() + Pending(t)
  {
  }

  /** Filling sends exactly what there is to send, as far as the window goes. */
  lemma FillExact(s: Sender)
    requires s.stream.Valid()
    ensures FillWindow(s).next == Reach(s)
  {
    if !s.fin && s.Limit() > s.next { FillLoopExact(s, s.Limit() - s.next); }
  }

  // --- How a fill divides what it sends ---

  /** Every segment but the last carries 1000 bytes and no FIN. A FIN goes with data, unless there was
      none (`bare`). */
  predicate Full(segs: seq<Segment>, bare: bool)
  {
    && (forall i | 0 <= i < |segs| - 1 :: |segs[i].payload| == 1000 && !segs[i].header.fin)
    && (forall seg | seg in segs && seg.header.fin :: seg.payload != [] || bare)
  }

  lemma FullStep(s: Sender, room: nat, rest: seq<Segment>)
    requires s.stream.Valid() && room > 0 && !s.fin && NextSegment(s, room).Length() > 0
    requires Full(rest, Send(s, room).stream.Buffered() == [])
    requires Send(s, room).fin || Send(s, room).stream.Buffered() == [] || NextSegment(s, room).Length() == room
             ==> rest == []
    ensures Full([NextSegment(s, room)] + rest, s.stream.Buffered() == [])
  {
    var seg, m := NextSegment(s, room), Send(s, room);
    assert rest != [] ==> |seg.payload| == 1000;
  }

  lemma {:induction false} FillLoopFull(s: Sender, room: nat, t: Sender) returns (added: seq<Segment>)
    requires s.stream.Valid() && t == FillLoop(s, room)
    ensures t.out == s.out + added && Full(added, s.stream.Buffered() == [])
    ensures s.fin || room == 0 || (s.next > 0 && s.stream.Buffered() == [] && !s.stream.ended) ==> added == []
    decreases room
  {
    if room == 0 || s.fin || NextSegment(s, room).Length() == 0 {
      added := [];
    } else {
      var rest := FillLoopFull(Send(s, room), room - NextSegment(s, room).Length(), t);
      FullStep(s, room, rest);
      added := [NextSegment(s, room)] + rest;
      assert s.out + added == Send(s, room).out + rest;
    }
  }

  /** A fill sends as few segments as it can: full ones, and a last one that takes the FIN along. */
  lemma FillSegments(s: Sender) returns (added: seq<Segment>)
    requires Inv(s)
    ensures Queued(s, FillWindow(s), added, s.Limit()) && Full(added, s.stream.Buffered() == [])
  {
    added := FillQueues(s);
    if !s.fin && s.Limit() > s.next {
      var same := FillLoopFull(s, s.Limit() - s.next, FillWindow(s));
      assert added == (s.out + added)[|s.out|..] == same;
    }
  }

  // --- The window bound ---

  /** The acknowledgment in use has not passed the first outstanding segment, and nothing has been
      sent more than one full window past that segment's last number. */
  ghost predicate InWindow(s: Sender)
  {
    && s.ackno <= s.next
    && (s.wait != [] ==>
          && s.ackno < s.Base() + s.wait[0].Length()
          && s.next <= s.Base() + s.wait[0].Length() - 1 + 65535)
  }

  /** Bytes in flight stay below one full window plus one segment. */
  lemma FlightBound(s: Sender)
    requires Inv(s) && InWindow(s)
    ensures s.flight < 65535 + MAX_SEGMENT
  {
    if s.wait != [] { assert Made(s.wait[0], s.Base(), s.isn, s.Sent(), s.fin); }
  }

  lemma FillInWindow(s: Sender)
    requires Inv(s) && InWindow(s)
    ensures InWindow(FillWindow(s))
  {
    var t := FillWindow(s);
    var added := FillQueues(s);
    FillFrame(s);
    FillKeeps(s);
    if s.wait != [] {
      assert t.wait[0] == s.wait[0];
      QueuedTotal(s, added);
    } else if added != [] {
      assert t.wait == added;
      assert t.wait[0].Length() > 0;
    }
  }

  lemma {:induction false} QueuedTotal(s: Sender, added: seq<Segment>)
    requires Inv(s)
    ensures Total(s.wait + added) == Total(s.wait) + Total(added)
  {
    TotalSplit(s.wait + added, |s.wait|);
    assert (s.wait + added)[..|s.wait|] == s.wait && (s.wait + added)[|s.wait|..] == added;
  }

  // --- ack_received ---

  /** How many segments, laid end to end from `a`, end at or before `ack`. */
  function CoverCount(segs: seq<Segment>, a: nat, ack: nat): (n: nat)
    ensures n <= |segs|
  {
    if segs == [] || ack < a + segs[0].Length() then 0 else 1 + CoverCount(segs[1..], a + segs[0].Length(), ack)
  }

  /** Unwrapping against the next sequence number recovers the number each outstanding segment was
      made for, so the count is by absolute position. */
  lemma {:induction false} AckedIsCover(segs: seq<Segment>, a: nat, isn: uint32, sent: seq<byte>, fin: bool,
        ack: nat, next: nat)
    requires Tiled(segs, a, isn, sent, fin) && a + Total(segs) == next < TWO64 && Total(segs) < TWO31
    ensures AckedCount(segs, ack, isn, next) == CoverCount(segs, a, ack)
    decreases |segs|
  {
    if segs != [] {
      UnwrapWrap(a, isn, next);
      AckedIsCover(segs[1..], a + segs[0].Length(), isn, sent, fin, ack, next);
    }
  }

  /** The count is exact: the first `k` segments are removed just when the `k`-th ends at or before
      the acknowledgment. */
  lemma {:induction false} CoverExact(segs: seq<Segment>, a: nat, ack: nat, k: nat)
    requires 0 < k <= |segs|
    requires forall i | 0 <= i < |segs| :: segs[i].Length() > 0
    ensures k <= CoverCount(segs, a, ack) <==> a + Total(segs[..k]) <= ack
    decreases |segs|
  {
    assert segs[..k][1..] == segs[1..][..k - 1];
    if k == 1 {
      assert segs[..1][1..] == [];
    } else {
      if ack >= a + segs[0].Length() { CoverExact(segs[1..], a + segs[0].Length(), ack, k - 1); }
    }
  }

  lemma {:induction false} TiledPositive(segs: seq<Segment>, a: nat, isn: uint32, sent: seq<byte>, fin: bool)
    requires Tiled(segs, a, isn, sent, fin)
    ensures forall i | 0 <= i < |segs| :: 0 < segs[i].Length() <= MAX_SEGMENT
    decreases |segs|
  {
    if segs != [] { TiledPositive(segs[1..], a + segs[0].Length(), isn, sent, fin); }
  }

  lemma AckKeeps(s: Sender, ackno: uint32, window: uint16)
    requires Inv(s)
    ensures Inv(AckReceived(s, ackno, window))
  {
    var ack := AbsAck(s, ackno);
    if ack <= s.next {
      var n := AckedCount(s.wait, ack, s.isn, s.next);
      TotalSplit(s.wait, n);
      TiledDrop(s.wait, s.Base(), s.isn, s.Sent(), s.fin, n);
    }
  }

  /** An acknowledgment removes exactly the segments it wholly covers: the new base is the end of
      the last segment at or before it, never past it, and the next segment ends past it. */
  lemma AckExact(s: Sender, ackno: uint32, window: uint16)
    requires Inv(s) && s.flight < TWO31 && s.next < TWO64 && AbsAck(s, ackno) <= s.next
    ensures var t, ack := AckReceived(s, ackno, window), AbsAck(s, ackno);
            && (exists n :: 0 <= n <= |s.wait| && t.wait == s.wait[n..])
            && (t.wait == s.wait ==> t.Base() == s.Base())
            && (t.wait != s.wait ==> t.Base() <= ack)
            && (t.wait != [] ==> ack < t.Base() + t.wait[0].Length())
            && s.Base() <= t.Base() && t.next == s.next
  {
    var ack := AbsAck(s, ackno);
    var n := AckedCount(s.wait, ack, s.isn, s.next);
    AckedIsCover(s.wait, s.Base(), s.isn, s.Sent(), s.fin, ack, s.next);
    TiledPositive(s.wait, s.Base(), s.isn, s.Sent(), s.fin);
    AckShape(s, ackno, window);
    CoverRest(s.wait, s.Base(), ack, n, AckReceived(s, ackno, window).wait);
  }

  /** What is left behind the segments an acknowledgment covers. */
  lemma {:induction false} CoverRest(segs: seq<Segment>, a: nat, ack: nat, n: nat, rest: seq<Segment>)
    requires n == CoverCount(segs, a, ack) && rest == segs[n..]
    requires forall i | 0 <= i < |segs| :: segs[i].Length() > 0
    ensures var b := a + Total(segs) - Total(rest);
            && a <= b && (n > 0 ==> a < b <= ack) && (n == 0 ==> rest == segs)
            && (rest != [] ==> ack < b + rest[0].Length())
  {
    TotalSplit(segs, n);
    if n > 0 {
      FirstWithin(segs, n);
      CoverExact(segs, a, ack, n);
    }
    if n < |segs| {
      CoverExact(segs, a, ack, n + 1);
      TotalNext(segs, n);
    }
  }

  /** An acknowledgment number is always taken over, the window only with a possible one. The timer
      and the count of retransmissions start over exactly when a segment left the queue. */
  lemma AckTakesOver(s: Sender, ackno: uint32, window: uint16)
    requires Inv(s)
    ensures var t, ack := AckReceived(s, ackno, window), AbsAck(s, ackno);
            && t.ackno == ack && t.window == (if ack <= s.next then window else s.window)
            && t.stream == s.stream && t.out == s.out && t.fin == s.fin && t.isn == s.isn
            && if t.flight == s.flight then t.retx == s.retx && t.timer == s.timer
               else t.retx == 0 && t.timer.timeout == t.timer.init && (t.timer.active ==> t.timer.cur == 0)
  {
    var ack := AbsAck(s, ackno);
    if ack <= s.next {
      var n := AckedCount(s.wait, ack, s.isn, s.next);
      TotalSplit(s.wait, n);
      TiledPositive(s.wait, s.Base(), s.isn, s.Sent(), s.fin);
      if n > 0 { FirstWithin(s.wait, n); }
    }
  }

  lemma TotalNext(segs: seq<Segment>, n: nat)
    requires n < |segs|
    ensures Total(segs[..n + 1]) == Total(segs[..n]) + segs[n].Length()
  {
    var a := segs[..n + 1];
    TotalSplit(a, n);
    assert a[..n] == segs[..n] && a[n..] == [segs[n]] && [segs[n]][1..] == [];
  }

  /** The window discipline survives an acknowledgment exactly when it is for sequence numbers
      already used: the code stores an impossible one before rejecting it. */
  lemma AckInWindow(s: Sender, ackno: uint32, window: uint16)
    requires Inv(s) && InWindow(s) && s.next < TWO64
    ensures InWindow(AckReceived(s, ackno, window)) <==> AbsAck(s, ackno) <= s.next
  {
    if AbsAck(s, ackno) <= s.next {
      FlightBound(s);
      AckExact(s, ackno, window);
      AckShape(s, ackno, window);
      TiledPositive(s.wait, s.Base(), s.isn, s.Sent(), s.fin);
      AckFirst(s, AckReceived(s, ackno, window), AckedCount(s.wait, AbsAck(s, ackno), s.isn, s.next));
      StaysInWindow(s, AckReceived(s, ackno, window));
    }
  }

  lemma AckShape(s: Sender, ackno: uint32, window: uint16)
    requires s.flight == Total(s.wait) && AbsAck(s, ackno) <= s.next
    ensures var t := AckReceived(s, ackno, window);
            && t.wait == s.wait[AckedCount(s.wait, AbsAck(s, ackno), s.isn, s.next)..]
            && t.ackno == AbsAck(s, ackno) && t.next == s.next
  {
  }

  lemma StaysInWindow(s: Sender, t: Sender)
    requires InWindow(s) && t.ackno <= t.next == s.next && (t.wait != [] ==> t.ackno < t.Base() + t.wait[0].Length())
    requires t.wait != [] ==> s.wait != [] && s.Base() + s.wait[0].Length() <= t.Base() + t.wait[0].Length()
    ensures InWindow(t)
  {
  }

  /** What is still outstanding ends at least as far on as what was. */
  lemma AckFirst(s: Sender, t: Sender, n: nat)
    requires n <= |s.wait| && t.wait == s.wait[n..] && t.next == s.next
    requires s.flight == Total(s.wait) && t.flight == Total(t.wait)
    requires forall i | 0 <= i < |s.wait| :: s.wait[i].Length() > 0
    ensures t.wait != [] ==> s.wait != [] && s.Base() + s.wait[0].Length() <= t.Base() + t.wait[0].Length()
  {
    TotalSplit(s.wait, n);
    if n > 0 { FirstWithin(s.wait, n); }
  }

  /** What is in flight after filling the window, for every sender: from the first number not
      acknowledged up to the limit, as far as there is something to send. */
  lemma FillFlight(s: Sender)
    requires Inv(s)
    ensures FillWindow(s).flight == Reach(s) - s.Base()
  {
    FillExact(s);
    FillBase(s);
  }

  /** What is in flight once the window has been filled after an acknowledgment stays below one full
      window plus one segment exactly if the acknowledgment is possible, or what the stream still has
      to send or the limit the impossible number leads to is small enough. */
  lemma AckFillBound(s: Sender, ackno: uint32, window: uint16)
    requires Inv(s) && InWindow(s) && s.next < TWO64
    ensures FillWindow(AckReceived(s, ackno, window)).flight < 65535 + MAX_SEGMENT <==>
            || AbsAck(s, ackno) <= s.next
            || Min(AbsAck(s, ackno) + Max(1, s.window), s.next + Pending(s)) < s.Base() + 65535 + MAX_SEGMENT
  {
    var t := AckReceived(s, ackno, window);
    AckKeeps(s, ackno, window);
    FillKeeps(t);
    if AbsAck(s, ackno) <= s.next {
      AckInWindow(s, ackno, window);
      FillInWindow(t);
      FlightBound(FillWindow(t));
    } else {
      FlightBound(s);
      FillFlight(t);
    }
  }

  lemma FillBase(s: Sender)
    requires Inv(s)
    ensures FillWindow(s).Base() == s.Base()
  {
    var added := FillQueues(s);
    FillKeeps(s);
    QueuedTotal(s, added);
  }

  lemma FirstWithin(segs: seq<Segment>, n: nat)
    requires 0 < n <= |segs|
    ensures segs[0].Length() <= Total(segs[..n])
  {
  }

  // --- tick, write, end of input ---

  lemma TickKeeps(s: Sender, ms: nat)
    requires Inv(s)
    ensures Inv(TickSender(s, ms))
    ensures InWindow(s) ==> InWindow(TickSender(s, ms))
  {
  }

  /** A tick that outlasts the timeout retransmits the oldest outstanding segment, and no other tick
      sends anything. Only the queue, the timer and the count of retransmissions are touched. */
  lemma TickRetransmits(s: Sender, ms: nat)
    requires Inv(s)
    ensures var t := TickSender(s, ms); t == s.(timer := t.timer, retx := t.retx, out := t.out)
    ensures var t, now := TickSender(s, ms), (s.timer.cur + ms % TWO32) % TWO32;
            if s.wait != [] && now >= s.timer.timeout
            then exists seg :: t.out == s.out + [seg] && Made(seg, s.Base(), s.isn, s.Sent(), s.fin)
            else t.out == s.out
  {
    if s.wait != [] { assert Made(s.wait[0], s.Base(), s.isn, s.Sent(), s.fin); }
  }

  function Feed(s: Sender, data: seq<byte>): Sender
    requires s.stream.Valid()
  {
    s.(stream := s.stream.Write(data))
  }

  function Finish(s: Sender): Sender { s.(stream := s.stream.EndInput()) }

  /** Nothing is accepted once FIN has been sent, and the stream stays below its maximal length. */
  predicate MayFeed(s: Sender, data: seq<byte>)
    requires s.stream.Valid()
  {
    && (!s.fin || data == [] || s.stream.Remaining() == 0)
    && |s.stream.log| + Min(s.stream.Remaining(), |data|) < MAX_STREAM
  }

  /** Writing keeps the invariant exactly as long as FIN has not been sent or nothing is accepted. */
  lemma FeedKeeps(s: Sender, data: seq<byte>)
    requires Inv(s)
    ensures Inv(Feed(s, data)) <==> !s.fin || data == [] || s.stream.Remaining() == 0
    ensures InWindow(s) ==> InWindow(Feed(s, data))
  {
    var t := Feed(s, data);
    assert t.Sent() == s.Sent();
  }

  lemma FinishKeeps(s: Sender)
    requires Inv(s)
    ensures Inv(Finish(s)) && (InWindow(s) ==> InWindow(Finish(s)))
  {
    assert Finish(s).Sent() == s.Sent();
  }
}
