/** When the reassembler knows where its stream ends, and when it forgets. */
module StreamEnds {
  import opened Bytes
  import opened ByteStreams
  import opened Reassembly
  import opened Insertion
  import opened ReassemblySafety

  /** The input has ended, or a stored block carries the mark. */
  predicate Known(r: Reassembler) { r.out.ended || Marked(r.list, 0) }

  // --- The drain ---

  /** A drain that runs at all drops every mark that lies in what has been written. */
  predicate Lasts(r: Reassembler)
    requires r.out.Valid()
  {
    r.out.ended || Marked(r.list, if r.out.Remaining() == 0 then 0 else r.Written())
  }

  lemma {:induction l} MarkedAbove(l: List, w: int)
    requires Sorted(l) && (l.Cons? ==> w <= l.head.start)
    ensures Marked(l, w) <==> Marked(l, 0)
  {
  }

  lemma {:induction false} DrainKnows(r: Reassembler)
    requires r.Valid()
    ensures Known(Drain(r)) <==> Lasts(r)
    decreases r.list
  {
    if r.list.Nil? || r.out.Remaining() == 0 {
    } else if r.list.head.start > r.Written() {
      MarkedAbove(r.list, r.Written());
    } else if r.list.head.end < r.Written() {
      DrainKnows(DropHead(r));
    } else if Overflows(r) {
      MarkedAbove(r.list.tail, r.Written());
    } else {
      WriteLasts(r);
      DrainKnows(WriteHead(r));
    }
  }

  lemma WriteLasts(r: Reassembler)
    requires r.Valid() && Drains(r) && !Overflows(r)
    ensures Lasts(WriteHead(r)) <==> Lasts(r)
  {
    MarkedAbove(r.list.tail, r.Written());
    MarkedAbove(r.list.tail, r.list.head.end + 1);
  }

  // --- A push ---

  /** Whether the end is known after a push, by what is known before it. */
  predicate Learns(r: Reassembler, data: seq<byte>, index: nat, eof: bool)
    requires r.Valid() && !Stale(r, data, index)
  {
    var edge, stop := r.out.Edge(), PushEnd(r, data, index);
    || r.out.ended
    || (if index > r.Written() then
          || Marked(r.list, if r.Written() < edge then r.Written() else 0)
          || Closes(r.list, eof, index + |data|, index, stop)
        else if index + |data| <= edge then
          eof || Marked(r.list, if index + |data| < edge then index + |data| else 0)
        else
          Marked(r.list, 0) || Closes(r.list, eof, index + |data|, edge, stop))
  }

  lemma StageLasts(r: Reassembler, data: seq<byte>, index: nat, eof: bool)
    requires r.Valid() && !Stale(r, data, index)
    ensures Lasts(Stage(r, data, index, eof)) <==> Learns(r, data, index, eof)
  {
    var edge := r.out.Edge();
    if index > r.Written() {
      InsertLasts(r, data, index, eof);
    } else if index + |data| > edge {
      SplitLasts(r, Skip(data, r.Written() - index), eof);
    }
  }

  lemma InsertLasts(r: Reassembler, data: seq<byte>, index: nat, eof: bool)
    requires r.Valid() && index > r.Written()
    ensures Lasts(StageInsert(r, data, index, eof)) <==> Learns(r, data, index, eof)
  {
    InsertMarks(r.list, Offer(data, index, eof), r.rem, if r.out.Remaining() == 0 then 0 else r.Written());
  }

  lemma SplitLasts(r: Reassembler, tail: seq<byte>, eof: bool)
    requires r.Valid() && |tail| > r.out.Remaining()
    ensures var edge, end := r.out.Edge(), r.Written() + |tail|;
            Lasts(StageSplit(r, tail, eof)) <==>
            || r.out.ended || Marked(r.list, 0)
            || Closes(r.list, eof, end, edge, Walk(r.list, edge, end, edge, r.rem).stop)
  {
    InsertMarks(r.list, Offer(Skip(tail, r.out.Remaining()), r.out.Edge(), eof), r.rem, 0);
  }

  /** Exactly when the end of the stream is known after a push. */
  lemma PushKnows(r: Reassembler, data: seq<byte>, index: nat, eof: bool)
    requires r.Valid()
    ensures Known(Push(r, data, index, eof)) <==>
            if Stale(r, data, index) then Known(r) else Learns(r, data, index, eof)
  {
    if !Stale(r, data, index) {
      StageValid(r, data, index, eof);
      StageLasts(r, data, index, eof);
      DrainKnows(Stage(r, data, index, eof));
    }
  }

  /** An empty substring ahead of missing bytes leaves no trace, final or not. */
  lemma {:induction false} ForgottenFin(r: Reassembler, index: nat, eof: bool)
    requires r.Loose() && index > r.Written()
    ensures Push(r, [], index, eof) == Drain(r)
  {
  }

  // --- Runs ---

  /** A push that forgets a known end: it leaves all of the stream written and room in the output,
      and does not end it. */
  predicate Forgets(r: Reassembler, e: Event, s: seq<byte>)
  {
    && e.Submit? && !r.out.ended && |s| < r.out.Edge()
    && if e.index <= r.Written() then !e.eof && e.index + |e.data| == |s| else r.Written() == |s|
  }

  lemma LearnsUnless(r: Reassembler, data: seq<byte>, index: nat, eof: bool, s: seq<byte>)
    requires r.Valid() && !Stale(r, data, index) && !r.out.ended && r.Written() <= |s| && |s| > 0
    requires data != [] || eof ==> index + |data| <= |s|
    requires forall w: int :: Marked(r.list, w) <==> w < |s|
    ensures Learns(r, data, index, eof) <==> !Forgets(r, Submit(data, index, eof), s)
  {
  }

  lemma {:induction false} MarkedAtEnd(l: List, w: int, s: seq<byte>)
    requires Sorted(l) && Marked(l, 0) && forall b | In(b, l) :: Fits(b, s, true)
    ensures Marked(l, w) <==> w < |s|
    decreases l
  {
    assert Fits(l.head, s, true);
    if l.tail.Cons? && Marked(l.tail, 0) {
      MarkedAtEnd(l.tail, w, s);
    } else {
      MarkedLess(l.tail, w);
    }
  }

  lemma {:induction l} MarkedLess(l: List, w: int)
    requires Sorted(l) && !Marked(l, 0)
    ensures !Marked(l, w)
  {
  }

  /** A step of a run makes the reassembler forget exactly if it is a forgetful push. */
  lemma StepKnows(r: Reassembler, e: Event, s: seq<byte>)
    requires r.Valid() && Agrees(r, s, true) && Known(r)
    requires e.Submit? ==> Matches(e.data, e.index, e.eof, s, true)
    ensures Known(Step(r, e)) <==> !Forgets(r, e, s)
  {
    if e.Submit? {
      PushKnows(r, e.data, e.index, e.eof);
      if !Stale(r, e.data, e.index) && !r.out.ended {
        forall w: int ensures Marked(r.list, w) <==> w < |s| { MarkedAtEnd(r.list, w, s); }
        LearnsUnless(r, e.data, e.index, e.eof, s);
      }
    }
  }

  ghost predicate AlwaysKnown(r: Reassembler, events: seq<Event>)
    requires r.Loose()
    decreases |events|
  {
    Known(r) && (events != [] ==> AlwaysKnown(Step(r, events[0]), events[1..]))
  }

  ghost predicate NeverForgets(r: Reassembler, events: seq<Event>, s: seq<byte>)
    requires r.Loose()
    decreases |events|
  {
    events != [] ==> !Forgets(r, events[0], s) && NeverForgets(Step(r, events[0]), events[1..], s)
  }

  /** Along a run inside the window, a known end stays known exactly as long as no push forgets it. */
  lemma {:induction false} RunKnows(r: Reassembler, events: seq<Event>, s: seq<byte>)
    requires r.Valid() && Within(r, r.Edge()) && Agrees(r, s, true) && Known(r) && RunFits(r, events, s, true)
    ensures AlwaysKnown(r, events) <==> NeverForgets(r, events, s)
    decreases |events|
  {
    if events != [] {
      StepKnows(r, events[0], s);
      StepSafe(r, events[0], s, true);
      if !Forgets(r, events[0], s) { RunKnows(Step(r, events[0]), events[1..], s); }
    }
  }

  /** A run that delivers every byte and loses the end: with the output full, the final bytes are
      stored with their mark; they come again without it as soon as there is room, and once they have
      been read the stored copy is dropped unread. */
  lemma LostEnd(a: seq<byte>, d: seq<byte>)
    requires |a| == |d| >= 1
    ensures var n := |a|;
            var stored := Step(Step(Empty(n), Submit(a, 0, false)), Submit(d, n, true));
            var again := Step(Step(stored, Take(n)), Submit(d, n, false));
            && Known(stored)
            && Step(Step(again, Take(n)), Submit([], 2 * n, false))
               == Reassembler(Stream(a + d, 2 * n, n, false, false), n, n, Nil)
  {
    var n, b := |a|, Block(d, |a|, 2 * |a| - 1, true);
    LostFirst(a);
    LostSecond(d, Push(Empty(n), a, 0, false), b);
    var stored := Reassembler(Stream(a, 0, n, false, false), n, 0, Cons(b, Nil));
    LostAgain(a, d, stored, b);
    LostDropped(a, d, stored.(out := Stream(a + d, n, n, false, false)), b);
  }

  lemma LostAgain(a: seq<byte>, d: seq<byte>, r: Reassembler, b: Block)
    requires |a| == |d| >= 1 && r == Reassembler(Stream(a, 0, |a|, false, false), |a|, 0, Cons(b, Nil)) && b.Valid()
    ensures Step(Step(r, Take(|a|)), Submit(d, |a|, false)) == r.(out := Stream(a + d, |a|, |a|, false, false))
  {
    var m := Step(r, Take(|a|));
    assert m == r.(out := Stream(a, |a|, |a|, false, false));
    LostThird(d, m, b);
  }

  lemma LostDropped(a: seq<byte>, d: seq<byte>, r: Reassembler, b: Block)
    requires |a| == |d| >= 1 && r == Reassembler(Stream(a + d, |a|, |a|, false, false), |a|, 0, Cons(b, Nil))
    requires b.Valid() && b.end + 1 == 2 * |a| && |b.data| == |a|
    ensures Step(Step(r, Take(|a|)), Submit([], 2 * |a|, false))
            == Reassembler(Stream(a + d, 2 * |a|, |a|, false, false), |a|, |a|, Nil)
  {
    var m := Step(r, Take(|a|));
    assert m == r.(out := Stream(a + d, 2 * |a|, |a|, false, false));
    LostLast(m, b);
  }

  lemma LostFirst(a: seq<byte>)
    ensures Push(Empty(|a|), a, 0, false) == Reassembler(Stream(a, 0, |a|, false, false), |a|, |a|, Nil)
  {
    assert a[0..] == a && [] + a == a;
    assert Empty(|a|).out.Write(a) == Stream(a, 0, |a|, false, false);
    assert Stage(Empty(|a|), a, 0, false) == StageWrite(Empty(|a|), a, false);
  }

  lemma LostSecond(d: seq<byte>, r: Reassembler, b: Block)
    requires r.Loose() && r.list == Nil && r.rem == r.capacity == |d| == r.Written() >= 1 && r.out.Remaining() == 0
    requires b == Block(d, |d|, 2 * |d| - 1, true)
    ensures Push(r, d, |d|, true) == r.(rem := 0, list := Cons(b, Nil))
  {
    var n := |d|;
    assert d[..0] == [] && d[0..n] == d;
    var o := Offer(d, n, true);
    assert o.Piece(n, 2 * n, true) == b;
    assert Insert(Nil, o, n) == Shelf(Cons(b, Nil), 0);
    assert r.out.Write([]) == r.out;
    assert Stage(r, d, n, true) == StageSplit(r, d, true);
  }

  lemma LostThird(d: seq<byte>, r: Reassembler, b: Block)
    requires r.Loose() && r.list == Cons(b, Nil) && r.Written() == |d| == r.out.Remaining() >= 1
    ensures Push(r, d, |d|, false) == r.(out := r.out.(log := r.out.log + d))
  {
    assert d[0..] == d;
  }

  lemma WriteNothing(s: Stream, none: seq<byte>)
    requires s.Valid() && none == []
    ensures s.Write(none) == s
  {
    assert s.log + none == s.log;
  }

  lemma StageNothing(r: Reassembler)
    requires r.Loose()
    ensures Stage(r, [], r.Written(), false) == r
  {
    var none: seq<byte> := [][r.Written() - r.Written()..];
    WriteNothing(r.out, none);
  }

  lemma LostLast(r: Reassembler, b: Block)
    requires r.Loose() && r.list == Cons(b, Nil) && b.start <= b.end + 1 == r.Written() && r.out.Remaining() > 0
    ensures Push(r, [], r.Written(), false) == r.(rem := r.rem + |b.data|, list := Nil)
  {
    var d := DropHead(r);
    assert Drain(d) == d;
    assert Drain(r) == d;
    StageNothing(r);
  }
}
