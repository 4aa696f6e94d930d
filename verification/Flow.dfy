/** One direction of a connection: a sender at one end, a receiver at the other. What holds between
    them is stated once and kept by every step of either. */
module Flow {
  import opened Bytes
  import opened Segments
  import opened WrappingIntegers
  import opened Reassembly
  import opened ReassemblySafety
  import opened Senders
  import opened SenderSafety
  import opened Receivers

  /** Everything the sender may still send is room the receiver has promised, or the receiver has
      already reached the end of the stream. Before the first acknowledgment only SYN may go out. */
  ghost predicate Promised(s: Sender, r: Receiver)
  {
    (s.ackno == 0 && s.window == 1) || Promise(s.ackno, s.window, r)
  }

  ghost predicate Promise(ack: nat, window: uint16, r: Receiver)
  {
    r.known && 1 <= ack <= r.AbsAckno() && (ack - 1 + Max(1, window) <= r.re.Edge() || r.re.out.ended)
  }

  /** What the sender counts as acknowledged the receiver has. */
  ghost predicate Acknowledged(s: Sender, r: Receiver) { s.Base() == 0 || (r.known && s.Base() <= r.AbsAckno()) }

  ghost predicate Intact(s: Sender, r: Receiver)
  {
    && Inv(s) && InWindow(s) && |s.stream.log| < MAX_STREAM
    && r.Valid() && Within(r.re, r.re.Edge())
    && Agrees(r.re, s.Sent(), s.fin) && |s.Sent()| <= r.re.Edge()
    && (r.known ==> r.isn == s.isn && s.next >= 1)
    && Promised(s, r) && Acknowledged(s, r)
  }

  /** `seg` is what the sender sends, or has sent, at absolute sequence number `a`. */
  ghost predicate SentAt(s: Sender, seg: Segment, a: nat)
  {
    && s.stream.Valid() && seg.header.seqno == Wrap(a, s.isn)
    && Carries(seg, a, s.Sent(), s.fin) && a + seg.Length() <= s.next
  }

  /** `seg` acknowledges what the receiver had reached when it advertised absolute number `k`. */
  ghost predicate AcksAt(s: Sender, r: Receiver, seg: Segment, k: nat)
  {
    seg.header.ack ==> seg.header.ackno == Wrap(k, s.isn) && Promise(k, seg.header.win, r)
  }

  /** The receiver has not run ahead of the sender. */
  lemma AcknoReached(s: Sender, r: Receiver)
    requires Intact(s, r) && r.known
    ensures r.AbsAckno() <= s.next < TWO64
  {
  }

  // --- Steps of the sender ---

  lemma AgreesGrow(r: Reassembler, sent: seq<byte>, fin: bool, sent': seq<byte>, fin': bool)
    requires Agrees(r, sent, fin) && Grows(sent, fin, sent', fin')
    ensures Agrees(r, sent', fin')
  {
    forall b | In(b, r.list) ensures Fits(b, sent', fin') { assert Fits(b, sent, fin); }
  }

  /** What the sender does from one state to the next never invalidates what was sent. */
  ghost predicate Follows(s: Sender, t: Sender)
  {
    && s.stream.Valid() && t.stream.Valid() && t.isn == s.isn && s.next <= t.next
    && Grows(s.Sent(), s.fin, t.Sent(), t.fin)
  }

  lemma SentStays(s: Sender, t: Sender, seg: Segment, a: nat)
    requires SentAt(s, seg, a) && Follows(s, t)
    ensures SentAt(t, seg, a)
  {
    CarriesGrow(seg, a, s.Sent(), s.fin, t.Sent(), t.fin);
  }

  lemma FillIntact(s: Sender, r: Receiver)
    requires Intact(s, r)
    ensures Intact(FillWindow(s), r) && Follows(s, FillWindow(s))
  {
    var t := FillWindow(s);
    FillKeeps(s);
    FillInWindow(s);
    FillFollows(s);
    AgreesGrow(r.re, s.Sent(), s.fin, t.Sent(), t.fin);
    FillBase(s);
  }

  lemma FillFollows(s: Sender)
    requires Inv(s)
    ensures var t := FillWindow(s); Follows(s, t) && Untouched(s, t) && t.next <= Max(s.next, s.Limit())
  {
    FillFrame(s);
    var added := FillQueues(s);
  }

  lemma AckIntact(s: Sender, r: Receiver, seg: Segment, k: nat)
    requires Intact(s, r) && seg.header.ack && AcksAt(s, r, seg, k) && Near(k, s.next)
    ensures AbsAck(s, seg.header.ackno) == k
    ensures var t := AckReceived(s, seg.header.ackno, seg.header.win); Intact(t, r) && Follows(s, t)
  {
    AcknoReached(s, r);
    UnwrapWrap(k, s.isn, s.next);
    AckKeeps(s, seg.header.ackno, seg.header.win);
    AckInWindow(s, seg.header.ackno, seg.header.win);
    FlightBound(s);
    AckExact(s, seg.header.ackno, seg.header.win);
  }

  lemma TickIntact(s: Sender, r: Receiver, ms: nat)
    requires Intact(s, r)
    ensures Intact(TickSender(s, ms), r) && Follows(s, TickSender(s, ms))
  {
    TickKeeps(s, ms);
  }

  lemma FeedIntact(s: Sender, r: Receiver, data: seq<byte>)
    requires Intact(s, r) && MayFeed(s, data)
    ensures Intact(Feed(s, data), r) && Follows(s, Feed(s, data))
  {
    FeedKeeps(s, data);
    assert Feed(s, data).Sent() == s.Sent();
  }

  lemma FinishIntact(s: Sender, r: Receiver)
    requires Intact(s, r)
    ensures Intact(Finish(s), r) && Follows(s, Finish(s))
  {
    FinishKeeps(s);
    assert Finish(s).Sent() == s.Sent();
  }

  // --- Steps of the receiver ---

  /** What the receiver does from one state to the next never takes back a promise. */
  ghost predicate Upholds(r: Receiver, t: Receiver)
  {
    && r.AbsAckno() <= t.AbsAckno() && r.re.Edge() <= t.re.Edge()
    && (r.known ==> t.known && t.isn == r.isn) && (r.re.out.ended ==> t.re.out.ended)
  }

  lemma AcksStay(s: Sender, r: Receiver, t: Receiver, seg: Segment, k: nat)
    requires AcksAt(s, r, seg, k) && Upholds(r, t)
    ensures AcksAt(s, t, seg, k)
  {
  }

  lemma WrapNext(isn: uint32)
    ensures Wrap(0, isn) == isn && Plus(Wrap(0, isn), 1) == Wrap(1, isn)
  {
  }

  lemma LearnIntact(s: Sender, r: Receiver, seg: Segment, a: nat)
    requires Intact(s, r) && SentAt(s, seg, a)
    ensures Intact(s, Learn(r, seg.header)) && Upholds(r, Learn(r, seg.header))
  {
    WrapNext(s.isn);
  }

  /** Where the payload of a segment sent at `a` begins. */
  function PayloadAt(seg: Segment, a: nat): nat { a + if seg.header.syn then 1 else 0 }

  lemma NumberRecovered(s: Sender, r: Receiver, seg: Segment, a: nat)
    requires Intact(s, r) && r.known && SentAt(s, seg, a) && Near(PayloadAt(seg, a), r.re.Written())
    ensures PayloadNumber(r, seg.header) == PayloadAt(seg, a)
  {
    AcknoReached(s, r);
    WrapNext(s.isn);
    UnwrapWrap(PayloadAt(seg, a), s.isn, r.re.Written());
  }

  lemma CarriesMatches(s: Sender, seg: Segment, a: nat)
    requires SentAt(s, seg, a) && PayloadAt(seg, a) >= 1
    ensures Matches(seg.payload, PayloadAt(seg, a) - 1, seg.header.fin, s.Sent(), s.fin)
    ensures seg.payload != [] ==> PayloadAt(seg, a) - 1 + |seg.payload| <= |s.Sent()|
  {
  }

  lemma OnwardIntact(s: Sender, r: Receiver, re: Reassembler)
    requires Intact(s, r) && re.Valid() && Within(re, re.Edge()) && Agrees(re, s.Sent(), s.fin) && Onward(r.re, re)
    ensures Intact(s, r.(re := re)) && Upholds(r, r.(re := re))
  {
  }

  lemma AcceptIntact(s: Sender, r: Receiver, seg: Segment, a: nat, t: Receiver)
    requires Intact(s, r) && SentAt(s, seg, a) && t == Accept(r, seg, PayloadAt(seg, a))
    ensures Intact(s, t) && Upholds(r, t)
  {
    if t != r {
      var i := PayloadAt(seg, a) - 1;
      CarriesMatches(s, seg, a);
      PushOnward(r.re, seg.payload, i, seg.header.fin);
      PushWithin(r.re, seg.payload, i, seg.header.fin);
      PushAgrees(r.re, seg.payload, i, seg.header.fin, s.Sent(), s.fin);
      OnwardIntact(s, r, t.re);
    }
  }

  /** A segment the sender has sent, arriving within half the sequence space of what the receiver
      expects, keeps everything intact: the partial drain is never reached. */
  lemma ReceiveIntact(s: Sender, r: Receiver, seg: Segment, a: nat)
    requires Intact(s, r) && SentAt(s, seg, a) && Near(PayloadAt(seg, a), r.re.Written())
    ensures Intact(s, Receive(r, seg)) && Upholds(r, Receive(r, seg))
  {
    LearnIntact(s, r, seg, a);
    var t := Learn(r, seg.header);
    if t.known {
      NumberRecovered(s, t, seg, a);
      AcceptIntact(s, t, seg, a, Receive(r, seg));
    }
  }

  lemma ReadIntact(s: Sender, r: Receiver, len: nat)
    requires Intact(s, r)
    ensures Intact(s, Read(r, len)) && Upholds(r, Read(r, len))
  {
    TakeSafe(r.re, len, s.Sent(), s.fin);
  }

  // --- What the receiver advertises ---

  /** The window on the wire is a promise the receiver can keep, even where the 16-bit field cuts it. */
  lemma PromiseMade(s: Sender, r: Receiver)
    requires Intact(s, r) && r.known
    ensures r.Ackno() == Some(Wrap(r.AbsAckno(), s.isn)) && Promise(r.AbsAckno(), r.WindowSize() % TWO16, r)
  {
  }

  // --- Segments on their way out ---

  /** `seg` was made for a number at most `slack` behind the next one. */
  ghost predicate Recent(s: Sender, seg: Segment, slack: nat)
  {
    !seg.header.ack && exists a: nat :: SentAt(s, seg, a) && s.next - a <= slack
  }

  ghost predicate OutRecent(s: Sender, slack: nat) { forall seg | seg in s.out :: Recent(s, seg, slack) }

  lemma RecentStays(s: Sender, t: Sender, slack: nat, slack': nat)
    requires OutRecent(s, slack) && Follows(s, t) && t.out == s.out && t.next - s.next + slack <= slack'
    ensures OutRecent(t, slack')
  {
    forall seg | seg in t.out ensures Recent(t, seg, slack') {
      assert Recent(s, seg, slack);
      var a :| SentAt(s, seg, a) && s.next - a <= slack;
      SentStays(s, t, seg, a);
    }
  }

  /** Each of a tiling's segments has its place in it. */
  lemma {:induction false} TiledMember(segs: seq<Segment>, a: nat, isn: uint32, sent: seq<byte>, fin: bool,
        seg: Segment)
    returns (b: nat)
    requires Tiled(segs, a, isn, sent, fin) && seg in segs
    ensures Made(seg, b, isn, sent, fin) && a <= b && b + seg.Length() <= a + Total(segs)
    decreases |segs|
  {
    if seg == segs[0] { b := a; } else { b := TiledMember(segs[1..], a + segs[0].Length(), isn, sent, fin, seg); }
  }

  lemma FillRecent(s: Sender, slack: nat)
    requires Inv(s) && InWindow(s) && OutRecent(s, slack)
    ensures OutRecent(FillWindow(s), slack + 65535)
  {
    var t := FillWindow(s);
    var added := FillQueues(s);
    FillFrame(s);
    forall seg | seg in t.out ensures Recent(t, seg, slack + 65535) {
      if seg in s.out {
        assert Recent(s, seg, slack);
        var a :| SentAt(s, seg, a) && s.next - a <= slack;
        SentStays(s, t, seg, a);
      } else {
        assert seg in added;
        var a := TiledMember(added, s.next, t.isn, t.Sent(), t.fin, seg);
        assert SentAt(t, seg, a);
      }
    }
  }

  /** The number a segment was made for can be read off its header as it leaves. */
  lemma RecentRecovered(s: Sender, seg: Segment, slack: nat)
    requires Recent(s, seg, slack) && slack < TWO31 && s.next < TWO64
    ensures SentAt(s, seg, Unwrap(seg.header.seqno, s.isn, s.next))
  {
    var a: nat :| SentAt(s, seg, a) && s.next - a <= slack;
    UnwrapWrap(a, s.isn, s.next);
  }
}
