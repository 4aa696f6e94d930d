/** A TCP endpoint as a value: receiver, sender and what the connection adds to them. */
module Connections {
  import opened Bytes
  import opened ByteStreams
  import opened Segments
  import opened Receivers
  import opened Senders

  datatype Connection = Connection(
    timeout: uint16, receiver: Receiver, sender: Sender, out: seq<Segment>, linger: bool, active: bool, waited: nat)
  {
    predicate Valid() { receiver.Loose() && sender.stream.Valid() && sender.flight == Total(sender.wait) }

    function Inbound(): Stream { receiver.re.out }

    function Outbound(): Stream { sender.stream }
  }

  function NewConnection(sendCapacity: nat, recvCapacity: nat, timeout: uint16, isn: uint32): Connection
  {
    Connection(timeout, NewReceiver(recvCapacity), NewSender(sendCapacity, timeout, isn), [], true, true, 0)
  }

  /** The receiver's fields, filled in before a segment goes out. */
  function Stamp(r: Receiver, seg: Segment): Segment
  {
    match r.Ackno()
    case None => seg
    case Some(n) => seg.(header := seg.header.(ack := true, ackno := n, win := r.WindowSize() % TWO16))
  }

  function StampAll(r: Receiver, segs: seq<Segment>): (t: seq<Segment>)
    ensures |t| == |segs|
    ensures forall i | 0 <= i < |segs| :: t[i] == Stamp(r, segs[i])
  {
    if segs == [] then [] else [Stamp(r, segs[0])] + StampAll(r, segs[1..])
  }

  function SendSegments(c: Connection): Connection
  {
    c.(out := c.out + StampAll(c.receiver, c.sender.out), sender := c.sender.(out := []))
  }

  predicate MayClose(c: Connection)
  {
    && c.Outbound().Eof() && c.Inbound().ended && c.sender.flight == 0
    && c.sender.next == |c.Outbound().log| + 2
    && (c.waited >= 10 * c.timeout || !c.linger)
  }

  function TryCleanClose(c: Connection): Connection { if MayClose(c) then c.(active := false) else c }

  /** Both streams are in error and the connection is over. */
  function Break(c: Connection): Connection
  {
    c.(active := false,
       receiver := c.receiver.(re := c.receiver.re.(out := c.Inbound().SetError())),
       sender := c.sender.(stream := c.Outbound().SetError()))
  }

  function Reset(c: Connection): Segment
  {
    Stamp(c.receiver, Segment(PLAIN.(rst := true, seqno := Seqno(c.sender)), []))
  }

  /** What the sender does about a segment: it hears the acknowledgment, fills the window, and makes
      sure that a segment occupying sequence space is answered. */
  function Respond(s: Sender, seg: Segment): (t: Sender)
    requires s.stream.Valid() && s.flight == Total(s.wait)
    ensures t.stream.Valid() && t.flight == Total(t.wait)
  {
    var s1 := if seg.header.ack then AckReceived(s, seg.header.ackno, seg.header.win) else s;
    FillTotal(s1);
    var s2 := FillWindow(s1);
    if seg.Length() > 0 && s2.out == [] then SendEmpty(s2) else s2
  }

  function SegmentReceived(c: Connection, seg: Segment): (d: Connection)
    requires c.Valid()
    ensures d.Valid()
  {
    if seg.header.rst then Break(c.(waited := 0))
    else
      React(c.(waited := 0, receiver := Receive(c.receiver, seg)), seg)
  }

  /** What follows once the receiver has seen the segment. */
  function React(c: Connection, seg: Segment): (d: Connection)
    requires c.Valid()
    ensures d.Valid()
  {
    TryCleanClose(if c.receiver.Ackno().None? then c else Answer(c, seg))
  }

  /** The reply goes out; if the peer has finished first, there will be no need to linger. */
  function Answer(c: Connection, seg: Segment): (d: Connection)
    requires c.Valid()
    ensures d.Valid()
  {
    var d := SendSegments(c.(sender := Respond(c.sender, seg)));
    d.(linger := d.linger && (d.Outbound().Eof() || !d.Inbound().ended))
  }

  function Write(c: Connection, data: seq<byte>): (d: Connection)
    requires c.Valid()
    ensures d.Valid()
  {
    var s := c.sender.(stream := c.Outbound().Write(data));
    FillTotal(s);
    TryCleanClose(SendSegments(c.(sender := FillWindow(s))))
  }

  function EndInputStream(c: Connection): (d: Connection)
    requires c.Valid()
    ensures d.Valid()
  {
    var s := c.sender.(stream := c.Outbound().EndInput());
    FillTotal(s);
    SendSegments(c.(sender := FillWindow(s)))
  }

  function Connect(c: Connection): (d: Connection)
    requires c.Valid()
    ensures d.Valid()
  {
    FillTotal(c.sender);
    SendSegments(c.(sender := FillWindow(c.sender)))
  }

  function Tick(c: Connection, ms: nat): (d: Connection)
    ensures c.Valid() ==> d.Valid()
  {
    var d := c.(sender := TickSender(c.sender, ms));
    if d.sender.retx > MAX_RETX_ATTEMPTS then
      Break(d.(out := d.out + [Reset(d)]))
    else
      TryCleanClose(SendSegments(d.(waited := d.waited + ms)))
  }

  function ReadInbound(c: Connection, len: nat): Connection
    requires c.Inbound().Valid()
  {
    c.(receiver := Read(c.receiver, len))
  }
}
