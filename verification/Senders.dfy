/** The TCP sender and its retransmission timer as values. */
module Senders {
  import opened Bytes
  import opened ByteStreams
  import opened Segments
  import opened WrappingIntegers

  const MAX_PAYLOAD: nat := 1000
  const MAX_RETX_ATTEMPTS: nat := 8

  /** Streams stay so short that no 64-bit sum of a sequence number and a window overflows. */
  const MAX_STREAM: nat := TWO64 - 0x2_0000

  // --- The retransmission timer; all its counters are 32 bits wide ---

  datatype Timer = Timer(active: bool, expired: bool, init: uint16, timeout: uint32, cur: uint32)
  {
    function Start(): Timer { this.(expired := false, active := true, cur := 0) }

    function Stop(): Timer { this.(active := false) }

    function Reset(): Timer { this.(timeout := init) }

    /** Time passes; expiry doubles the timeout unless the peer's window is zero. */
    function Tick(window: uint16, ms: nat): Timer
    {
      if !active then this
      else
        var now := (cur + ms % TWO32) % TWO32;
        if now < timeout then this.(cur := now)
        else this.(cur := now, active := false, expired := true,
                   timeout := if window != 0 then timeout * 2 % TWO32 else timeout)
    }

    /** Whether that tick counts as a consecutive retransmission. */
    predicate Counts(window: uint16, ms: nat)
    {
      active && (cur + ms % TWO32) % TWO32 >= timeout && window != 0
    }
  }

  datatype Sender = Sender(
    isn: uint32, out: seq<Segment>, stream: Stream, next: nat, window: uint16, ackno: nat,
    flight: nat, fin: bool, wait: seq<Segment>, timer: Timer, retx: uint32)
  {
    /** The stream bytes that have been put into segments. */
    function Sent(): seq<byte>
      requires stream.Valid()
    {
      stream.log[..stream.read]
    }

    /** The first absolute sequence number that is not acknowledged. */
    function Base(): int { next - flight }

    /** One past the last absolute sequence number the peer accepts; a shut window counts as one. */
    function Limit(): nat { ackno + if window != 0 then window else 1 }
  }

  function NewSender(capacity: nat, timeout: uint16, isn: uint32): Sender
  {
    Sender(isn, [], Fresh(capacity), 0, 1, 0, 0, false, [], Timer(false, false, timeout, timeout, 0), 0)
  }

  function Total(segs: seq<Segment>): nat { if segs == [] then 0 else segs[0].Length() + Total(segs[1..]) }

  // --- fill_window ---

  function Seqno(s: Sender): uint32 { Wrap(s.next, s.isn) }

  function ReadSize(s: Sender, room: nat): nat
    requires room > 0
  {
    Min(room - (if s.next == 0 then 1 else 0), MAX_PAYLOAD)
  }

  /** The segment one round of the loop builds when `room` sequence numbers are left. */
  function NextSegment(s: Sender, room: nat): (seg: Segment)
    requires s.stream.Valid() && room > 0
    ensures seg.Length() <= room && |seg.payload| <= MAX_PAYLOAD
  {
    var payload := s.stream.Peek(ReadSize(s, room));
    var syn := s.next == 0;
    var fin := s.stream.Pop(ReadSize(s, room)).Eof() && |payload| + (if syn then 1 else 0) < room;
    Segment(PLAIN.(seqno := Seqno(s), syn := syn, fin := fin), payload)
  }

  function Send(s: Sender, room: nat): (t: Sender)
    requires s.stream.Valid() && room > 0
    ensures t.stream.Valid()
  {
    var seg := NextSegment(s, room);
    s.(stream := s.stream.Pop(ReadSize(s, room)), next := s.next + seg.Length(), fin := s.fin || seg.header.fin,
       flight := s.flight + seg.Length(), out := s.out + [seg], wait := s.wait + [seg],
       timer := if s.timer.active then s.timer else s.timer.Start())
  }

  function FillLoop(s: Sender, room: nat): (t: Sender)
    requires s.stream.Valid()
    ensures t.stream.Valid()
    decreases room
  {
    if room == 0 || s.fin then s
    else
      var n := NextSegment(s, room).Length();
      if n == 0 then s else FillLoop(Send(s, room), room - n)
  }

  lemma {:induction false} FillLoopTotal(s: Sender, room: nat)
    requires s.stream.Valid() && s.flight == Total(s.wait)
    ensures var t := FillLoop(s, room); t.flight == Total(t.wait)
    decreases room
  {
    if room > 0 && !s.fin && NextSegment(s, room).Length() > 0 {
      TotalSnoc(s.wait, NextSegment(s, room));
      FillLoopTotal(Send(s, room), room - NextSegment(s, room).Length());
    }
  }

  lemma {:induction false} TotalSnoc(segs: seq<Segment>, seg: Segment)
    ensures Total(segs + [seg]) == Total(segs) + seg.Length()
    decreases |segs|
  {
    if segs == [] {
      assert ([] + [seg])[1..] == [];
    } else {
      assert (segs + [seg])[1..] == segs[1..] + [seg];
      TotalSnoc(segs[1..], seg);
    }
  }

  function FillWindow(s: Sender): (t: Sender)
    requires s.stream.Valid()
    ensures t.stream.Valid()
  {
    if s.fin || s.Limit() <= s.next then s else FillLoop(s, s.Limit() - s.next)
  }

  lemma FillTotal(s: Sender)
    requires s.stream.Valid() && s.flight == Total(s.wait)
    ensures var t := FillWindow(s); t.flight == Total(t.wait)
  {
    if !s.fin && s.Limit() > s.next { FillLoopTotal(s, s.Limit() - s.next); }
  }

  // --- ack_received ---

  predicate Covered(seg: Segment, ack: nat, isn: uint32, next: nat)
  {
    ack >= Unwrap(seg.header.seqno, isn, next) + seg.Length()
  }

  /** How many segments at the front of the queue the acknowledgment removes. */
  function AckedCount(wait: seq<Segment>, ack: nat, isn: uint32, next: nat): (n: nat)
    ensures n <= |wait|
  {
    if wait == [] || !Covered(wait[0], ack, isn, next) then 0 else 1 + AckedCount(wait[1..], ack, isn, next)
  }

  function AbsAck(s: Sender, ackno: uint32): nat { Unwrap(ackno, s.isn, s.next) }

  /** The acknowledgment and window are taken over and the covered segments leave the queue. */
  function TakeAck(s: Sender, ack: nat, window: uint16): (t: Sender)
    requires s.flight == Total(s.wait)
    ensures t.flight == Total(t.wait)
  {
    var n := AckedCount(s.wait, ack, s.isn, s.next);
    TotalSplit(s.wait, n);
    s.(ackno := ack, window := window, wait := s.wait[n..], flight := s.flight - Total(s.wait[..n]))
  }

  /** After new data was acknowledged the timer starts over, or stops if nothing is outstanding. */
  function Refresh(s: Sender): Sender
  {
    s.(retx := 0, timer := if s.wait != [] then s.timer.Reset().Start() else s.timer.Reset().Stop())
  }

  function AckReceived(s: Sender, ackno: uint32, window: uint16): (t: Sender)
    requires s.flight == Total(s.wait)
    ensures t.flight == Total(t.wait)
  {
    var ack := AbsAck(s, ackno);
    if ack > s.next then s.(ackno := ack)
    else
      var t := TakeAck(s, ack, window);
      if t.wait == s.wait then t else Refresh(t)
  }

  lemma {:induction false} TotalSplit(segs: seq<Segment>, n: nat)
    requires n <= |segs|
    ensures Total(segs) == Total(segs[..n]) + Total(segs[n..])
    decreases n
  {
    if n == 0 {
      assert segs[0..] == segs;
    } else {
      TotalSplit(segs[1..], n - 1);
      assert segs[1..][..n - 1] == segs[..n][1..];
      assert segs[1..][n - 1..] == segs[n..];
    }
  }

  // --- tick and send_empty_segment ---

  function TickSender(s: Sender, ms: nat): Sender
  {
    var retx := if s.timer.Counts(s.window, ms) then (s.retx + 1) % TWO32 else s.retx;
    var timer := s.timer.Tick(s.window, ms);
    if timer.expired && s.wait != [] then
      s.(retx := retx, timer := timer.Start(), out := s.out + [s.wait[0]])
    else
      s.(retx := retx, timer := timer)
  }

  function SendEmpty(s: Sender): Sender
  {
    s.(out := s.out + [Segment(PLAIN.(seqno := Seqno(s)), [])])
  }
}
