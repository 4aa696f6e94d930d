/** What an arriving segment does to a receiver. */
module Arrivals {
  import opened Bytes
  import opened Segments
  import opened WrappingIntegers
  import opened Reassembly
  import opened ReassemblySafety
  import opened StreamEnds
  import opened Senders
  import opened Receivers
  import opened Flow

  /** The receiver knows the initial number after a SYN, which sets it, and then acknowledges from there.
      Before any SYN it takes no notice. */
  lemma SynLearned(r: Receiver, seg: Segment)
    requires r.Loose()
    ensures var t := Receive(r, seg);
            if seg.header.syn || r.known
            then t.Ackno() == Some(Wrap(t.AbsAckno(), if seg.header.syn then seg.header.seqno else r.isn))
            else t == r
  {
  }

  /** The first byte of the payload has absolute sequence number `v`, near enough to be recovered. That
      behind a SYN is number one. */
  predicate Placed(r: Receiver, seg: Segment, v: nat)
  {
    && v < TWO64 && r.re.Written() < TWO64 && Near(v, r.re.Written())
    && if seg.header.syn then v == 1 else r.known && seg.header.seqno == Wrap(v, r.isn)
  }

  /** The number is that of the SYN, or further ahead than the whole capacity. */
  predicate Refused(r: Receiver, v: nat) { v == 0 || v > r.re.Written() + r.capacity }

  lemma PlaceRecovered(r: Receiver, seg: Segment, v: nat)
    requires Placed(r, seg, v)
    ensures PayloadNumber(Learn(r, seg.header), seg.header) == v
  {
    var isn := Learn(r, seg.header).isn;
    UnwrapWrap(v, isn, r.re.Written());
    WrapNext(isn);
  }

  lemma Accepted(r: Receiver, seg: Segment, v: nat)
    requires r.Loose() && Placed(r, seg, v)
    ensures Receive(r, seg).re == Accept(r, seg, v).re
  {
    PlaceRecovered(r, seg, v);
  }

  /** What becomes of a segment whose payload is at `v`: exactly when the end of the stream is known
      afterwards, and, unless the push leads to the partial drain, exactly which bytes are held. What is
      held is handed on: the output is full or its next byte is missing. */
  ghost predicate Lands(r: Receiver, seg: Segment, v: nat, t: Reassembler)
    requires r.Valid()
  {
    if Refused(r, v) || Stale(r.re, seg.payload, v - 1) then t == r.re
    else
      && (Known(t) <==> Learns(r.re, seg.payload, v - 1, seg.header.fin))
      && (!Breaks(r.re, seg.payload, v - 1) ==>
            && t.Valid() && (t.out.Remaining() == 0 || !t.Holds(t.Written()))
            && forall i: nat :: t.Holds(i) <==> r.re.Holds(i) || v - 1 <= i < PushEnd(r.re, seg.payload, v - 1))
  }

  lemma AcceptLands(r: Receiver, seg: Segment, v: nat)
    requires r.Valid()
    ensures Lands(r, seg, v, Accept(r, seg, v).re)
  {
    if !Refused(r, v) { PushLands(r, seg, v, Push(r.re, seg.payload, v - 1, seg.header.fin)); }
  }

  lemma PushLands(r: Receiver, seg: Segment, v: nat, t: Reassembler)
    requires r.Valid() && !Refused(r, v) && t == Push(r.re, seg.payload, v - 1, seg.header.fin)
    ensures Lands(r, seg, v, t)
  {
    var data, index, fin := seg.payload, v - 1, seg.header.fin;
    PushKnows(r.re, data, index, fin);
    if !Stale(r.re, data, index) && !Breaks(r.re, data, index) {
      PushMaximal(r.re, data, index, fin);
      forall i: nat ensures t.Holds(i) <==> r.re.Holds(i) || index <= i < PushEnd(r.re, data, index) {
        PushHolds(r.re, data, index, fin, i);
      }
    }
  }

  lemma ReceiveLands(r: Receiver, seg: Segment, v: nat)
    requires r.Valid() && Placed(r, seg, v)
    ensures Lands(r, seg, v, Receive(r, seg).re)
  {
    Accepted(r, seg, v);
    AcceptLands(r, seg, v);
  }

  /** Every byte inside the window is held afterwards, if it joins on to what has been written or the
      payload fits into the capacity left. */
  lemma ReceiveStores(r: Receiver, seg: Segment, v: nat, i: nat)
    requires r.Valid() && Placed(r, seg, v) && v >= 1 && !Breaks(r.re, seg.payload, v - 1)
    requires v - 1 <= i < v - 1 + |seg.payload| && i < r.re.out.Edge()
    requires v - 1 <= r.re.Written() || |seg.payload| <= r.re.rem
    ensures Receive(r, seg).re.Holds(i)
  {
    ReceiveLands(r, seg, v);
    if !Stale(r.re, seg.payload, v - 1) && v - 1 > r.re.Written() { PushWhole(r.re, seg.payload, v - 1); }
  }

  lemma PushEnds(r: Reassembler, data: seq<byte>, index: nat)
    requires r.Loose() && index <= r.Written() <= index + |data| <= r.out.Edge()
    ensures var t := Push(r, data, index, true); t.out.ended && t.Written() >= index + |data|
  {
    DrainOnward(Stage(r, data, index, true));
  }

  /** A FIN that joins on to what has been written, with a payload that fits the window, ends the stream. */
  lemma ReceiveEnds(r: Receiver, seg: Segment, v: nat)
    requires r.Valid() && r.capacity > 0 && Placed(r, seg, v) && seg.header.fin
    requires v >= 1 && v - 1 <= r.re.Written() <= v - 1 + |seg.payload| <= r.re.out.Edge()
    ensures var t := Receive(r, seg); t.re.out.ended && t.AbsAckno() >= v + |seg.payload| + 1
  {
    Accepted(r, seg, v);
    PushEnds(r.re, seg.payload, v - 1);
  }

  // --- Segments of the peer ---

  /** Index `i` is held, and the byte there is `b`. */
  ghost predicate Has(r: Reassembler, i: nat, b: byte)
  {
    if i < r.Written() then r.out.log[i] == b else At(r.list, i) == Some(b)
  }

  lemma HeldAgrees(r: Reassembler, s: seq<byte>, final: bool, i: nat)
    requires Agrees(r, s, final) && r.Holds(i)
    ensures i < |s| && Has(r, i, s[i])
  {
    if i >= r.Written() {
      var b := AtIn(r.list, i);
      assert Fits(b, s, final);
    }
  }

  /** The place of the segment is recovered, because the payload is near what has been written. */
  ghost predicate Arrives(s: Sender, r: Receiver, seg: Segment, a: nat)
  {
    Intact(s, r) && SentAt(s, seg, a) && Near(PayloadAt(seg, a), r.re.Written()) && (r.known || seg.header.syn)
  }

  /** A segment the peer has sent at `a` is where the receiver looks for it. */
  lemma SentPlaced(s: Sender, r: Receiver, seg: Segment, a: nat)
    requires Arrives(s, r, seg, a)
    ensures Placed(r, seg, PayloadAt(seg, a))
  {
    NextReached(s, r);
  }

  lemma SentWithin(s: Sender, r: Receiver, seg: Segment, a: nat)
    requires Intact(s, r) && SentAt(s, seg, a) && PayloadAt(seg, a) >= 1
    ensures seg.payload != [] ==> PayloadAt(seg, a) - 1 + |seg.payload| <= r.re.Edge()
  {
    CarriesMatches(s, seg, a);
  }

  /** It does not lead to the partial drain. */
  lemma SentHarmless(s: Sender, r: Receiver, seg: Segment, a: nat)
    requires Intact(s, r) && SentAt(s, seg, a) && PayloadAt(seg, a) >= 1
    ensures !Breaks(r.re, seg.payload, PayloadAt(seg, a) - 1)
  {
    SentWithin(s, r, seg, a);
    WithinHarmless(r.re, seg.payload, PayloadAt(seg, a) - 1);
  }

  lemma NextReached(s: Sender, r: Receiver)
    requires Intact(s, r)
    ensures r.re.Written() <= s.next < TWO64
  {
  }

  lemma ValueHeld(s: Sender, t: Receiver, seg: Segment, a: nat, k: nat, i: nat)
    requires Intact(s, t) && SentAt(s, seg, a) && k < |seg.payload| && i == PayloadAt(seg, a) - 1 + k && t.re.Holds(i)
    ensures Has(t.re, i, seg.payload[k])
  {
    HeldAgrees(t.re, s.Sent(), s.fin, i);
  }

  lemma EndNumber(s: Sender, t: Receiver, seg: Segment, a: nat)
    requires Intact(s, t) && SentAt(s, seg, a) && seg.header.fin && t.known && t.re.out.ended
    ensures t.AbsAckno() == a + seg.Length() && t.Ackno() == Some(Wrap(a + seg.Length(), s.isn))
  {
    PromiseMade(s, t);
  }

  lemma SentHeld(s: Sender, r: Receiver, seg: Segment, a: nat, i: nat)
    requires Arrives(s, r, seg, a)
    requires PayloadAt(seg, a) - 1 <= i < PayloadAt(seg, a) - 1 + |seg.payload| && i < r.re.out.Edge()
    requires PayloadAt(seg, a) - 1 <= r.re.Written() || |seg.payload| <= r.re.rem
    ensures Receive(r, seg).re.Holds(i)
  {
    SentPlaced(s, r, seg, a);
    SentHarmless(s, r, seg, a);
    ReceiveStores(r, seg, PayloadAt(seg, a), i);
  }

  /** Every byte of a segment the peer has sent that lies inside the window is held afterwards, with its
      value, if it joins on to what has been written or the payload fits into the capacity left. */
  lemma SentStored(s: Sender, r: Receiver, seg: Segment, a: nat, k: nat, i: nat)
    requires Arrives(s, r, seg, a) && k < |seg.payload| && i == PayloadAt(seg, a) - 1 + k < r.re.out.Edge()
    requires PayloadAt(seg, a) - 1 <= r.re.Written() || |seg.payload| <= r.re.rem
    ensures Has(Receive(r, seg).re, i, seg.payload[k])
  {
    SentHeld(s, r, seg, a, i);
    ReceiveIntact(s, r, seg, a);
    ValueHeld(s, Receive(r, seg), seg, a, k, i);
  }

  /** A FIN the peer has sent, when everything before it has been written and its payload fits the window,
      ends the stream, and the number acknowledged is the one behind the FIN. */
  lemma SentEnds(s: Sender, r: Receiver, seg: Segment, a: nat)
    requires Arrives(s, r, seg, a) && seg.header.fin && r.capacity > 0
    requires PayloadAt(seg, a) - 1 <= r.re.Written() && PayloadAt(seg, a) - 1 + |seg.payload| <= r.re.out.Edge()
    ensures var t := Receive(r, seg);
            t.re.out.ended && t.AbsAckno() == a + seg.Length() && t.Ackno() == Some(Wrap(a + seg.Length(), s.isn))
  {
    SentPlaced(s, r, seg, a);
    FinWhole(s, r, seg, a);
    ReceiveEnds(r, seg, PayloadAt(seg, a));
    ReceiveIntact(s, r, seg, a);
    SynLearned(r, seg);
    EndNumber(s, Receive(r, seg), seg, a);
  }

  lemma FinWhole(s: Sender, r: Receiver, seg: Segment, a: nat)
    requires Intact(s, r) && SentAt(s, seg, a) && seg.header.fin
    ensures PayloadAt(seg, a) >= 1 && r.re.Written() <= PayloadAt(seg, a) - 1 + |seg.payload|
  {
  }
}
