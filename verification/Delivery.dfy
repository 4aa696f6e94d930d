/** The protocol on top of the wire format. */
module Delivery {
  import opened Bytes
  import opened Segments
  import opened SegmentFormat
  import opened Parsing
  import opened Receivers
  import opened Connections
  import opened Flow
  import opened Network

  /** The endpoint does not look at the checksum field. */
  lemma ChecksumIgnored(c: Connection, seg: Segment, k: uint16)
    requires c.Valid()
    ensures SegmentReceived(c, seg.(header := seg.header.(cksum := k))) == SegmentReceived(c, seg)
  {
    var other := seg.(header := seg.header.(cksum := k));
    ReceiveIgnores(c.receiver, seg, other);
    AnswerIgnores(c.(waited := 0, receiver := Receive(c.receiver, seg)), seg, other);
  }

  lemma ReceiveIgnores(r: Receiver, seg: Segment, other: Segment)
    requires r.Loose() && other == seg.(header := seg.header.(cksum := other.header.cksum))
    ensures Receive(r, other) == Receive(r, seg)
  {
    var t := Learn(r, seg.header);
    assert Learn(r, other.header) == t;
    var a := PayloadNumber(t, seg.header);
    assert PayloadNumber(t, other.header) == a;
    AcceptIgnores(t, seg, other, a);
  }

  lemma AcceptIgnores(r: Receiver, seg: Segment, other: Segment, a: nat)
    requires r.Loose() && other.payload == seg.payload && other.header.fin == seg.header.fin
    ensures Accept(r, other, a) == Accept(r, seg, a)
  {
  }

  lemma AnswerIgnores(c: Connection, seg: Segment, other: Segment)
    requires c.Valid() && other == seg.(header := seg.header.(cksum := other.header.cksum))
    ensures Answer(c, other) == Answer(c, seg)
  {
    assert Respond(c.sender, other) == Respond(c.sender, seg);
  }

  /** What is parsed of the bytes of `seg` has the same effect on `c` as `seg`. */
  ghost predicate Carried(c: Connection, seg: Segment, pseudo: uint32, into: Segment)
    requires c.Valid()
  {
    && SerializeSegment(seg, pseudo).Some?
    && var parsed := ParseSegment(into, SerializeSegment(seg, pseudo).value, pseudo);
    parsed.0 == NoError && SegmentReceived(c, parsed.1) == SegmentReceived(c, seg)
  }

  /** A segment that is serialized, carried as bytes and parsed at the other end has the same effect
      there as the segment itself. */
  lemma ThroughTheWire(c: Connection, seg: Segment, pseudo: uint32, into: Segment)
    requires c.Valid() && 5 <= seg.header.doff <= 15
    ensures Carried(c, seg, pseudo, into)
  {
    RoundTrip(seg, pseudo, into);
    ChecksumIgnored(c, seg, Seal(seg, pseudo).cksum);
  }

  /** In every run, every packet on either channel could have been carried as bytes: what its
      destination parses does there what the packet does. */
  lemma {:induction false} PacketsThroughTheWire(n: Net, moves: seq<Move>, atX: bool, p: Packet,
        pseudo: uint32, into: Segment)
    requires Start(n) && IsRun(n, moves)
    requires var m := Run(n, moves); p in if atX then m.yx else m.xy
    ensures var m := Run(n, moves); Carried(if atX then m.x else m.y, p.seg, pseudo, into)
  {
    var m := Run(n, moves);
    StartSafe(n);
    RunSafe(n, moves);
    if atX { PacketPlain(m.Flip(), p); } else { PacketPlain(m, p); }
    ThroughTheWire(if atX then m.x else m.y, p.seg, pseudo, into);
  }

  lemma PacketPlain(n: Net, p: Packet)
    requires Half(n) && p in n.xy
    ensures p.seg.header.doff == 5
  {
    assert SentAt(n.x.sender, p.seg, p.seqAt);
  }
}
