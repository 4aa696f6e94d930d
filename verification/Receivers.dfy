/** The TCP receiver as a value. */
module Receivers {
  import opened Bytes
  import opened Segments
  import opened WrappingIntegers
  import opened Reassembly
  import opened ReassemblySafety

  datatype Receiver = Receiver(re: Reassembler, capacity: nat, isn: uint32, known: bool)
  {
    predicate Valid() { re.Valid() && re.capacity == capacity }

    /** What every segment keeps, whatever its numbers. */
    predicate Loose() { re.Loose() && re.capacity == capacity }

    /** The absolute sequence number of the first byte not received; SYN and FIN count one each. */
    function AbsAckno(): nat { |re.out.log| + 1 + if re.out.ended then 1 else 0 }

    function Ackno(): Option<uint32>
    {
      if known then Some(Plus(isn, AbsAckno() % TWO32)) else None
    }

    function WindowSize(): int { capacity - (|re.out.log| - re.out.read) }
  }

  function NewReceiver(capacity: nat): Receiver { Receiver(Empty(capacity), capacity, 0, false) }

  /** A SYN sets the initial sequence number, every time it is seen. */
  function Learn(r: Receiver, h: Header): Receiver
  {
    if h.syn then r.(isn := h.seqno, known := true) else r
  }

  /** The absolute sequence number the receiver takes the first payload byte to have. */
  function PayloadNumber(r: Receiver, h: Header): nat
  {
    Unwrap(if h.syn then Plus(h.seqno, 1) else h.seqno, r.isn, r.re.Written())
  }

  function Receive(r: Receiver, seg: Segment): (t: Receiver)
    requires r.Loose()
    ensures t.Loose()
  {
    var t := Learn(r, seg.header);
    if t.known then Accept(t, seg, PayloadNumber(t, seg.header)) else t
  }

  /** Passes the payload on to the reassembler unless its number is that of the SYN or further ahead
      than the whole capacity. */
  function Accept(r: Receiver, seg: Segment, a: nat): (t: Receiver)
    requires r.Loose()
    ensures t.Loose()
  {
    if a == 0 || (a > r.re.Written() && a - r.re.Written() > r.capacity) then r
    else r.(re := Push(r.re, seg.payload, a - 1, seg.header.fin))
  }

  function Read(r: Receiver, len: nat): Receiver
    requires r.re.out.Valid()
  {
    r.(re := r.re.(out := r.re.out.Pop(len)))
  }

  /** Across a step the acknowledgment number and the right edge of the window do not move back. */
  ghost predicate Advances(r: Receiver, t: Receiver)
  {
    && r.AbsAckno() <= t.AbsAckno()
    && r.AbsAckno() + r.WindowSize() <= t.AbsAckno() + t.WindowSize()
    && (r.known ==> t.known) && t.capacity == r.capacity && t.WindowSize() >= 0
    && (r.re.out.ended ==> t.re.out.ended) && t.re.out.error == r.re.out.error
  }

  lemma ReceiveAdvances(r: Receiver, seg: Segment)
    requires r.Loose()
    ensures Advances(r, Receive(r, seg))
  {
    var t := Learn(r, seg.header);
    if t.known { AcceptAdvances(t, seg, PayloadNumber(t, seg.header)); }
  }

  lemma AcceptAdvances(r: Receiver, seg: Segment, a: nat)
    requires r.Loose()
    ensures Advances(r, Accept(r, seg, a))
  {
    if a > 0 { PushOnward(r.re, seg.payload, a - 1, seg.header.fin); }
    OnwardAdvances(r, Accept(r, seg, a).re);
  }

  lemma OnwardAdvances(r: Receiver, re: Reassembler)
    requires r.Loose() && (re == r.re || Onward(r.re, re))
    ensures Advances(r, r.(re := re))
  {
  }

  /** The window is exact: of the bytes that are next in order, it is the largest number that is
      accepted at once. */
  lemma WindowExact(r: Receiver, seg: Segment)
    requires r.Loose()
    ensures r.re.out.log + seg.payload <= Accept(r, seg, r.re.Written() + 1).re.out.log <==>
            |seg.payload| <= r.WindowSize()
  {
    var tail, fin, at := seg.payload, seg.header.fin, r.re.Written();
    PushOnward(r.re, tail, at, fin);
    if 0 < |tail| <= r.WindowSize() {
      assert tail[0..] == tail;
      var staged := Stage(r.re, tail, at, fin);
      assert staged == StageWrite(r.re, tail, fin);
      DrainOnward(staged);
    }
  }

  datatype Event = Arrive(seg: Segment) | Consume(len: nat)

  function Step(r: Receiver, e: Event): (t: Receiver)
    requires r.Loose()
    ensures t.Loose()
  {
    match e
    case Arrive(seg) => Receive(r, seg)
    case Consume(len) => Read(r, len)
  }

  function RunOf(r: Receiver, events: seq<Event>): Receiver
    requires r.Loose()
    decreases |events|
  {
    if events == [] then r else RunOf(Step(r, events[0]), events[1..])
  }

  /** In every run, whatever arrives: the acknowledgment number never decreases and the right edge of
      the window never moves left. */
  lemma {:induction false} RunAdvances(r: Receiver, events: seq<Event>)
    requires r.Loose()
    ensures Advances(r, RunOf(r, events))
    decreases |events|
  {
    if events != [] {
      match events[0] {
        case Arrive(seg) => ReceiveAdvances(r, seg);
        case Consume(len) =>
      }
      RunAdvances(Step(r, events[0]), events[1..]);
    }
  }
}
