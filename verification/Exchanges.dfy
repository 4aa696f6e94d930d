/** A whole exchange between two endpoints, from the first SYN to the clean close of both: what the theorems
    about runs say about closing is not said about nothing. */
module Exchanges {
  import opened Bytes
  import B = ByteStreams
  import opened Segments
  import opened WrappingIntegers
  import opened Reassembly
  import opened Senders
  import opened Receivers
  import opened Network

  /** Two endpoints of almost any configuration, and the bytes the first one has for the second. */
  datatype Setup = Setup(
    sx: nat, rx: nat, tx: uint16, ix: uint32, sy: nat, ry: nat, ty: uint16, iy: uint32, xs: seq<byte>)
  {
    /** The bytes go into one segment, which the window of the second endpoint lets pass. */
    predicate Fits() { |xs| <= sx && |xs| <= 1000 && |xs| < Max(1, ry % TWO16) && rx > 0 && ry > 0 && tx > 0 }
  }

  function On(timeout: uint16): Timer { Timer(true, false, timeout, timeout, 0) }

  function Off(timeout: uint16): Timer { Timer(false, false, timeout, timeout, 0) }

  function Syn(isn: uint32): Segment { Segment(PLAIN.(seqno := Wrap(0, isn), syn := true), []) }

  /** A receiver that has got `log`, and FIN behind it if `ended`. */
  function Got(capacity: nat, isn: uint32, log: seq<byte>, ended: bool): Receiver
  {
    Receiver(Reassembler(B.Stream(log, 0, capacity, ended, false), capacity, capacity, Nil), capacity, isn, true)
  }

  // --- The first endpoint ---

  function X0(g: Setup): Connection { C.NewConnection(g.sx, g.rx, g.tx, g.ix) }

  /** SYN sent, and the bytes written. */
  function X1(g: Setup, ended: bool): Connection
  {
    X0(g).(sender := Sender(g.ix, [], B.Stream(g.xs, 0, g.sx, ended, false), 1, 1, 0,
                            1, false, [Syn(g.ix)], On(g.tx), 0))
  }

  function Data(g: Setup): Segment { Segment(PLAIN.(seqno := Wrap(1, g.ix), fin := true), g.xs) }

  /** SYN acknowledged; bytes and FIN sent. */
  function X2(g: Setup): Connection
  {
    X0(g).(receiver := Got(g.rx, g.iy, [], false),
           sender := Sender(g.ix, [], B.Stream(g.xs, |g.xs|, g.sx, true, false), |g.xs| + 2, g.ry % TWO16, 1,
                            |g.xs| + 1, true, [Data(g)], On(g.tx), 0))
  }

  /** All acknowledged, and the peer's FIN received: it remains to linger. */
  function X3(g: Setup): Connection
  {
    X0(g).(receiver := Got(g.rx, g.iy, [], true),
           sender := Sender(g.ix, [], B.Stream(g.xs, |g.xs|, g.sx, true, false), |g.xs| + 2, (g.ry - |g.xs|) % TWO16,
                            |g.xs| + 2, 0, true, [], Off(g.tx), 0))
  }

  // --- The second endpoint ---

  function Y0(g: Setup): Connection { C.NewConnection(g.sy, g.ry, g.ty, g.iy) }

  /** SYN received and answered. */
  function Y1(g: Setup): Connection
  {
    Y0(g).(receiver := Got(g.ry, g.ix, [], false),
           sender := Sender(g.iy, [], B.Fresh(g.sy), 1, 1, 0, 1, false, [Syn(g.iy)], On(g.ty), 0))
  }

  /** Bytes and FIN received. */
  function Y2(g: Setup): Connection
  {
    Y0(g).(receiver := Got(g.ry, g.ix, g.xs, true), linger := false,
           sender := Sender(g.iy, [], B.Fresh(g.sy), 1, g.rx % TWO16, 1, 0, false, [], Off(g.ty), 0))
  }

  function Fin(g: Setup): Segment { Segment(PLAIN.(seqno := Wrap(1, g.iy), fin := true), []) }

  /** FIN sent. */
  function Y3(g: Setup): Connection
  {
    Y2(g).(sender := Sender(g.iy, [], B.Fresh(g.sy).EndInput(), 2, g.rx % TWO16, 1, 1, true, [Fin(g)], On(g.ty), 0))
  }

  /** FIN acknowledged, and so closed. */
  function Y4(g: Setup): Connection
  {
    Y2(g).(active := false,
           sender := Sender(g.iy, [], B.Fresh(g.sy).EndInput(), 2, g.rx % TWO16, 2, 0, true, [], Off(g.ty), 0))
  }

  // --- What the calls come to ---

  lemma {:induction false} StampOne(r: Receiver, seg: Segment)
    ensures C.StampAll(r, [seg]) == [C.Stamp(r, seg)]
  {
  }

  /** A fill that sends one segment. */
  lemma FillOne(s: Sender, room: nat, t: Sender)
    requires s.stream.Valid() && !s.fin && s.Limit() == s.next + room && room > 0 && NextSegment(s, room).Length() > 0
    requires t == Send(s, room) && (t.fin || NextSegment(s, room).Length() == room)
    ensures FillWindow(s) == t
  {
    assert FillLoop(t, room - NextSegment(s, room).Length()) == t;
  }

  /** An acknowledgment of the only outstanding segment. */
  lemma AckOne(s: Sender, seg: Segment, window: uint16)
    requires s.wait == [seg] && s.flight == seg.Length() <= s.next < TWO31 && seg.Length() > 0
    requires seg.header.seqno == Wrap(s.next - seg.Length(), s.isn) && s.timer == On(s.timer.init)
    ensures s.flight == Total(s.wait)
    ensures AckReceived(s, Wrap(s.next, s.isn), window)
            == s.(ackno := s.next, window := window, wait := [], flight := 0, retx := 0, timer := Off(s.timer.init))
  {
    UnwrapWrap(s.next, s.isn, s.next);
    UnwrapWrap(s.next - seg.Length(), s.isn, s.next);
    assert [seg][1..] == [] && s.wait[..1] == [seg];
    assert AckedCount([], s.next, s.isn, s.next) == 0;
    assert AckedCount(s.wait, s.next, s.isn, s.next) == 1;
  }

  // --- The calls ---

  lemma WriteX(g: Setup)
    requires g.Fits()
    ensures C.Write(X0(g), g.xs) == X1(g, false).(out := [Syn(g.ix)])
  {
    var s := X0(g).sender.(stream := B.Fresh(g.sx).Write(g.xs));
    assert s.stream.log == g.xs;
    FillOne(s, 1, X1(g, false).sender.(out := [Syn(g.ix)]));
    StampOne(X0(g).receiver, Syn(g.ix));
  }

  lemma EndX(g: Setup)
    requires g.Fits()
    ensures X1(g, false).Valid() && C.EndInputStream(X1(g, false)) == X1(g, true)
  {
    assert [Syn(g.ix)][1..] == [];
  }

  lemma WrapSmall(isn: uint32)
    ensures Wrap(0, isn) == isn && Plus(isn, 1) == Wrap(1, isn)
  {
  }

  /** A SYN arrives first. */
  lemma TakesSyn(capacity: nat, seg: Segment)
    requires seg.header.syn && !seg.header.fin && seg.payload == []
    ensures Receive(NewReceiver(capacity), seg) == Got(capacity, seg.header.seqno, [], false)
  {
    WrapSmall(seg.header.seqno);
    UnwrapWrap(1, seg.header.seqno, 0);
  }

  /** Bytes and FIN arrive next. */
  lemma TakesFin(capacity: nat, isn: uint32, seg: Segment)
    requires 0 < capacity && |seg.payload| <= capacity
    requires !seg.header.syn && seg.header.fin && seg.header.seqno == Wrap(1, isn)
    ensures Receive(Got(capacity, isn, [], false), seg) == Got(capacity, isn, seg.payload, true)
  {
    UnwrapWrap(1, isn, 0);
    assert [] + seg.payload == seg.payload;
  }

  function SynAck(g: Setup): Segment { C.Stamp(Y1(g).receiver, Syn(g.iy)) }

  lemma DeliverSyn(g: Setup)
    requires g.Fits()
    ensures C.SegmentReceived(Y0(g), Syn(g.ix)) == Y1(g).(out := [SynAck(g)])
  {
    WrapSmall(g.ix);
    TakesSyn(g.ry, Syn(g.ix));
    FillOne(Y0(g).sender, 1, Y1(g).sender.(out := [Syn(g.iy)]));
    StampOne(Y1(g).receiver, Syn(g.iy));
  }

  function DataAck(g: Setup): Segment { C.Stamp(X2(g).receiver, Data(g)) }

  lemma DeliverSynAck(g: Setup)
    requires g.Fits()
    ensures X1(g, true).Valid()
    ensures C.SegmentReceived(X1(g, true), SynAck(g)) == X2(g).(out := [DataAck(g)])
  {
    WrapSmall(g.ix);
    WrapSmall(g.iy);
    TakesSyn(g.rx, SynAck(g));
    var s, w := X1(g, true).sender, g.ry % TWO16;
    AckOne(s, Syn(g.ix), w);
    var t := s.(ackno := 1, window := w, wait := [], flight := 0, timer := Off(g.tx));
    assert g.xs[0..] == g.xs && g.xs[..|g.xs|] == g.xs;
    FillOne(t, Max(1, w), X2(g).sender.(out := [Data(g)]));
    StampOne(X2(g).receiver, Data(g));
  }

  lemma DeliverData(g: Setup)
    requires g.Fits()
    ensures Y1(g).Valid()
    ensures var d := C.SegmentReceived(Y1(g), DataAck(g)); d == Y2(g).(out := d.out)
  {
    WrapSmall(g.iy);
    var s, w := Y1(g).sender, g.rx % TWO16;
    TakesFin(g.ry, g.ix, DataAck(g));
    AckOne(s, Syn(g.iy), w);
    var t := s.(ackno := 1, window := w, wait := [], flight := 0, timer := Off(g.ty));
    assert FillWindow(t) == t;
  }

  function FinAck(g: Setup): Segment { C.Stamp(Y3(g).receiver, Fin(g)) }

  lemma EndY(g: Setup)
    requires g.Fits()
    ensures Y2(g).Valid() && C.EndInputStream(Y2(g)) == Y3(g).(out := [FinAck(g)])
  {
    var s := Y2(g).sender.(stream := B.Fresh(g.sy).EndInput());
    FillOne(s, Max(1, s.window), Y3(g).sender.(out := [Fin(g)]));
    StampOne(Y2(g).receiver, Fin(g));
  }

  function Last(g: Setup): Segment { Segment(PLAIN.(seqno := Wrap(|g.xs| + 2, g.ix)), []) }

  function LastAck(g: Setup): Segment { C.Stamp(X3(g).receiver, Last(g)) }

  lemma RespondFin(g: Setup, seg: Segment)
    requires g.Fits() && seg == FinAck(g)
    ensures X2(g).Valid() && C.Respond(X2(g).sender, seg) == X3(g).sender.(out := [Last(g)])
  {
    AckOne(X2(g).sender, Data(g), (g.ry - |g.xs|) % TWO16);
  }

  lemma DeliverFin(g: Setup)
    requires g.Fits()
    ensures X2(g).Valid()
    ensures C.SegmentReceived(X2(g), FinAck(g)) == X3(g).(out := [LastAck(g)])
  {
    TakesFin(g.rx, g.iy, FinAck(g));
    RespondFin(g, FinAck(g));
    StampOne(X3(g).receiver, Last(g));
  }

  /** An empty segment behind the FIN changes nothing at the receiver. */
  lemma TakesLast(g: Setup, seg: Segment)
    requires g.Fits() && seg == LastAck(g)
    ensures Receive(Y3(g).receiver, seg) == Y3(g).receiver
  {
    UnwrapWrap(|g.xs| + 2, g.ix, |g.xs|);
  }

  lemma RespondLast(g: Setup, seg: Segment)
    requires g.Fits() && seg == LastAck(g)
    ensures Y3(g).Valid() && C.Respond(Y3(g).sender, seg) == Y4(g).sender
  {
    AckOne(Y3(g).sender, Fin(g), g.rx % TWO16);
  }

  lemma DeliverLast(g: Setup)
    requires g.Fits()
    ensures Y3(g).Valid() && C.SegmentReceived(Y3(g), LastAck(g)) == Y4(g)
  {
    TakesLast(g, LastAck(g));
    RespondLast(g, LastAck(g));
  }

  lemma TickX(g: Setup)
    requires g.Fits()
    ensures X3(g).Valid() && C.Tick(X3(g), 10 * g.tx) == X3(g).(active := false, waited := 10 * g.tx)
  {
  }

  // --- The run ---

  /** The packet a queued segment goes out as. */
  function PacketOf(c: Connection, seg: Segment): Packet
  {
    Packet(seg, Unwrap(seg.header.seqno, c.sender.isn, c.sender.next), c.receiver.AbsAckno())
  }

  /** One more move in front of a run. */
  lemma {:induction false} Before(n: Net, m: Move, rest: seq<Move>)
    requires n.Valid() && CanMove(n, m) && IsRun(Next(n, m), rest)
    ensures IsRun(n, [m] + rest) && Run(n, [m] + rest) == Run(Next(n, m), rest)
  {
    assert ([m] + rest)[0] == m && ([m] + rest)[1..] == rest;
  }

  /** Both endpoints closed without error, each with all of the other's bytes and the end. */
  ghost predicate Over(n: Net, g: Setup)
  {
    && !n.x.active && !n.x.Outbound().error && !n.x.Inbound().error
    && !n.y.active && !n.y.Outbound().error && !n.y.Inbound().error
    && n.y.Inbound().ended && n.y.Inbound().log == g.xs && n.x.Inbound().ended && n.x.Inbound().log == []
  }

  ghost predicate Completes(n: Net, g: Setup, moves: seq<Move>)
  {
    n.Valid() && IsRun(n, moves) && Over(Run(n, moves), g)
  }

  lemma {:induction false} Lingered(g: Setup, n: Net) returns (moves: seq<Move>)
    requires g.Fits() && n.x == X3(g) && n.y == Y4(g)
    ensures Completes(n, g, moves)
  {
    TickX(g);
    DeliverLast(g);
    var m := Move(true, Tick(10 * g.tx));
    moves := [m] + [];
    Before(n, m, []);
  }

  lemma {:induction false} LastArrives(g: Setup, n: Net) returns (moves: seq<Move>)
    requires g.Fits() && n.x == X3(g) && n.y == Y3(g) && PacketOf(X3(g), LastAck(g)) in n.xy
    ensures Completes(n, g, moves)
  {
    TickX(g);
    DeliverLast(g);
    UnwrapWrap(|g.xs| + 2, g.ix, |g.xs| + 2);
    var m := Move(false, Deliver(PacketOf(X3(g), LastAck(g))));
    var rest := Lingered(g, Next(n, m));
    moves := [m] + rest;
    Before(n, m, rest);
  }

  lemma {:induction false} FinArrives(g: Setup, n: Net) returns (moves: seq<Move>)
    requires g.Fits() && n.x == X2(g) && n.y == Y3(g) && PacketOf(Y3(g), FinAck(g)) in n.yx
    ensures Completes(n, g, moves)
  {
    DeliverFin(g);
    DeliverLast(g);
    UnwrapWrap(1, g.iy, 2);
    var m := Move(true, Deliver(PacketOf(Y3(g), FinAck(g))));
    var rest := LastArrives(g, Next(n, m));
    moves := [m] + rest;
    Before(n, m, rest);
  }

  lemma {:induction false} SecondEnds(g: Setup, n: Net) returns (moves: seq<Move>)
    requires g.Fits() && n.x == X2(g) && n.y == Y2(g)
    ensures Completes(n, g, moves)
  {
    DeliverFin(g);
    EndY(g);
    var m := Move(false, End);
    var rest := FinArrives(g, Next(n, m));
    moves := [m] + rest;
    Before(n, m, rest);
  }

  lemma {:induction false} DataArrives(g: Setup, n: Net) returns (moves: seq<Move>)
    requires g.Fits() && n.x == X2(g) && n.y == Y1(g) && PacketOf(X2(g), DataAck(g)) in n.xy
    ensures Completes(n, g, moves)
  {
    DeliverFin(g);
    DeliverData(g);
    UnwrapWrap(1, g.ix, |g.xs| + 2);
    var m := Move(false, Deliver(PacketOf(X2(g), DataAck(g))));
    var rest := SecondEnds(g, Next(n, m));
    moves := [m] + rest;
    Before(n, m, rest);
  }

  lemma {:induction false} SynAckArrives(g: Setup, n: Net) returns (moves: seq<Move>)
    requires g.Fits() && n.x == X1(g, true) && n.y == Y1(g) && PacketOf(Y1(g), SynAck(g)) in n.yx
    ensures Completes(n, g, moves)
  {
    DeliverSynAck(g);
    DeliverData(g);
    UnwrapWrap(0, g.iy, 1);
    var m := Move(true, Deliver(PacketOf(Y1(g), SynAck(g))));
    var rest := DataArrives(g, Next(n, m));
    moves := [m] + rest;
    Before(n, m, rest);
  }

  lemma {:induction false} SynArrives(g: Setup, n: Net) returns (moves: seq<Move>)
    requires g.Fits() && n.x == X1(g, true) && n.y == Y0(g) && PacketOf(X1(g, true), Syn(g.ix)) in n.xy
    ensures Completes(n, g, moves)
  {
    DeliverSynAck(g);
    DeliverSyn(g);
    UnwrapWrap(0, g.ix, 1);
    var m := Move(false, Deliver(PacketOf(X1(g, true), Syn(g.ix))));
    var rest := SynAckArrives(g, Next(n, m));
    moves := [m] + rest;
    Before(n, m, rest);
  }

  lemma {:induction false} FirstEnds(g: Setup, n: Net) returns (moves: seq<Move>)
    requires g.Fits() && n.x == X1(g, false) && n.y == Y0(g) && PacketOf(X1(g, true), Syn(g.ix)) in n.xy
    ensures Completes(n, g, moves)
  {
    EndX(g);
    var m := Move(true, End);
    var rest := SynArrives(g, Next(n, m));
    moves := [m] + rest;
    Before(n, m, rest);
  }

  lemma {:induction false} FirstWrites(g: Setup, n: Net) returns (moves: seq<Move>)
    requires g.Fits() && n.x == X0(g) && n.y == Y0(g)
    ensures Completes(n, g, moves)
  {
    WriteX(g);
    var m := Move(true, Write(g.xs));
    var rest := FirstEnds(g, Next(n, m));
    moves := [m] + rest;
    Before(n, m, rest);
  }

  /** From the start of two endpoints there is a run after which both are closed without an error, the second
      one with all that was written at the first. */
  lemma {:induction false} BothClose(g: Setup)
    requires g.Fits()
    ensures var n := Net(X0(g), Y0(g), {}, {}); Start(n) && exists moves :: Completes(n, g, moves)
  {
    var n := Net(X0(g), Y0(g), {}, {});
    assert Opening(n.x) && Opening(n.y);
    var moves := FirstWrites(g, n);
  }
}
