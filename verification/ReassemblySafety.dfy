/** What a run of pushes and reads keeps, and exactly when a push breaks the list. */
module ReassemblySafety {
  import opened Bytes
  import opened ByteStreams
  import opened Reassembly
  import opened Insertion

  // --- Agreement with a logical stream ---

  /** `b` holds the bytes of `s` at its place; its eof mark is at the end of a finished stream. */
  ghost predicate Fits(b: Block, s: seq<byte>, final: bool)
  {
    && b.start < |s| && b.start + |b.data| <= |s| && (forall k | 0 <= k < |b.data| :: b.data[k] == s[b.start + k])
    && (b.eof ==> final && b.start + |b.data| == |s|)
  }

  /** The output is a prefix of `s`, it has ended only at the end of `s`, and every stored block fits. */
  ghost predicate Agrees(r: Reassembler, s: seq<byte>, final: bool)
  {
    && r.out.log <= s && (r.out.ended ==> final && |r.out.log| == |s|)
    && (forall b | In(b, r.list) :: Fits(b, s, final))
  }

  /** A substring of `s` offered at its place. An empty one without eof may be placed anywhere. */
  ghost predicate Matches(data: seq<byte>, index: nat, eof: bool, s: seq<byte>, final: bool)
  {
    data != [] || eof ==>
      && index + |data| <= |s| && (forall k | 0 <= k < |data| :: data[k] == s[index + k])
      && (eof ==> final && index + |data| == |s|)
  }

  /** No stored byte at or past `edge`. */
  ghost predicate Within(r: Reassembler, edge: nat)
  {
    forall b | In(b, r.list) :: b.start + |b.data| <= edge
  }

  // --- The partial drain ---

  /** There is room in the output, everything from the first unwritten byte up to the edge of the
      window is stored, and a block lies across the edge: the drain will reach it with too little room. */
  ghost predicate Straddles(r: Reassembler)
    requires r.out.Valid()
  {
    && r.out.Remaining() > 0 && Spans(r.list, r.out.Edge())
    && forall i | r.Written() <= i < r.out.Edge() :: At(r.list, i).Some?
  }

  lemma {:induction false} InBounds(l: List, b: Block)
    requires Sorted(l) && In(b, l)
    ensures b.Valid() && (b != l.head ==> l.head.end < b.start)
    decreases l
  {
    if b != l.head { InBounds(l.tail, b); }
  }

  lemma {:induction false} AtIn(l: List, i: int) returns (b: Block)
    requires At(l, i).Some?
    ensures In(b, l) && b.Has(i) && At(l, i).value == b.data[i - b.start]
    decreases l
  {
    if l.head.Has(i) { b := l.head; } else { b := AtIn(l.tail, i); }
  }

  /** While the first block can be dropped or written whole, straddling is decided by the rest. */
  lemma StraddlesDrop(r: Reassembler)
    requires r.Valid() && r.list.Cons? && r.out.Remaining() > 0 && r.list.head.end < r.Written()
    ensures Straddles(r) <==> Straddles(DropHead(r))
  {
    assert forall i | r.Written() <= i :: At(r.list, i) == At(r.list.tail, i);
  }

  lemma StraddlesWrite(r: Reassembler)
    requires r.Valid() && Drains(r) && !Overflows(r)
    ensures Straddles(r) <==> Straddles(WriteHead(r))
  {
    var w, h := WriteHead(r), r.list.head;
    assert w.Written() == h.end + 1 && w.out.Edge() == r.out.Edge();
    assert forall i | r.Written() <= i <= h.end :: At(r.list, i).Some?;
    assert forall i | h.end < i :: At(r.list, i) == At(w.list, i);
    if w.out.Remaining() == 0 { SpansPast(w.list, h, r.out.Edge()); }
  }

  /** A block that ends at the edge leaves none across it. */
  lemma {:induction false} SpansPast(l: List, h: Block, e: int)
    requires Sorted(Cons(h, l)) && h.end + 1 == e
    ensures !Spans(l, e) && !Spans(Cons(h, l), e)
  {
    SpansAbove(l, e);
  }

  lemma {:induction l} SpansAbove(l: List, e: int)
    requires Sorted(l) && (l.Cons? ==> e <= l.head.start)
    ensures !Spans(l, e)
  {
  }

  /** The drain leaves a well-formed list exactly when nothing straddles the window edge. */
  lemma {:induction false} DrainValid(r: Reassembler)
    requires r.Valid()
    ensures Drain(r).Valid() <==> !Straddles(r)
    decreases r.list
  {
    if r.list.Nil? || r.out.Remaining() == 0 {
    } else if r.list.head.start > r.Written() {
      AtBelow(r.list, r.Written());
    } else if r.list.head.end < r.Written() {
      StraddlesDrop(r);
      DrainValid(DropHead(r));
    } else if Overflows(r) {
      assert !SplitHead(r).list.head.Valid();
    } else {
      StraddlesWrite(r);
      DrainValid(WriteHead(r));
    }
  }

  /** How far a push gets: the end of what it writes directly, or of what it stores. */
  function PushEnd(r: Reassembler, data: seq<byte>, index: nat): nat
    requires r.out.Valid() && !Stale(r, data, index)
  {
    if index > r.Written() then Walk(r.list, index, index + |data|, index, r.rem).stop
    else if index + |data| <= r.out.Edge() then index + |data|
    else Walk(r.list, r.out.Edge(), index + |data|, r.out.Edge(), r.rem).stop
  }

  /** A push after which a block lies across the edge of the window, with everything from the output
      up to it stored. A direct write adds nothing to the list and one that fills the output stops
      the drain; an insertion adds what it gets to. */
  ghost predicate Breaks(r: Reassembler, data: seq<byte>, index: nat)
    requires r.out.Valid()
  {
    && !Stale(r, data, index)
    && var edge := r.out.Edge();
    if index <= r.Written() then
      index + |data| < edge && Spans(r.list, edge) && forall i | index + |data| <= i < edge :: At(r.list, i).Some?
    else
      var stop := PushEnd(r, data, index);
      && r.Written() < edge && (Spans(r.list, edge) || Bridges(r.list, index, stop, edge))
      && forall i | r.Written() <= i < edge :: At(r.list, i).Some? || index <= i < stop
  }

  lemma StageStraddles(r: Reassembler, data: seq<byte>, index: nat, eof: bool)
    requires r.Valid() && !Stale(r, data, index)
    ensures Straddles(Stage(r, data, index, eof)) <==> Breaks(r, data, index)
  {
    if index > r.Written() {
      var o, edge, stop := Offer(data, index, eof), r.out.Edge(), PushEnd(r, data, index);
      var g := Stage(r, data, index, eof);
      InsertSpans(r.list, o, r.rem, edge);
      forall i ensures At(g.list, i).Some? <==> At(r.list, i).Some? || index <= i < stop {
        InsertWalks(r.list, o, r.rem, i);
      }
    }
  }

  /** A push keeps the reassembler well formed exactly when it does not break it. */
  lemma PushValid(r: Reassembler, data: seq<byte>, index: nat, eof: bool)
    requires r.Valid()
    ensures Push(r, data, index, eof).Valid() <==> !Breaks(r, data, index)
  {
    if !Stale(r, data, index) {
      StageValid(r, data, index, eof);
      StageStraddles(r, data, index, eof);
      DrainValid(Stage(r, data, index, eof));
    }
  }

  /** The promise "bytes that would exceed the capacity are silently discarded" is false: with room
      for two bytes, a block reaching two past the window is stored, and filling the hole in front
      of it leaves a block that still holds the byte just written. */
  lemma PartialDrainExample(a: byte, b: byte, c: byte)
    ensures var r := Push(Empty(2), [b, c], 1, false);
            && r.Valid()
            && !Push(r, [a], 0, false).Valid()
            && Push(r, [a], 0, false).list.head.data == [b, c]
            && Push(r, [a], 0, false).list.head.start == 2
  {
    StoredAhead(b, c);
    HoleFilled(a, b, c, Push(Empty(2), [b, c], 1, false));
  }

  lemma StoredAhead(b: byte, c: byte)
    ensures Push(Empty(2), [b, c], 1, false) == Reassembler(Fresh(2), 2, 0, Cons(Block([b, c], 1, 2, false), Nil))
  {
    var o := Offer([b, c], 1, false);
    assert o.data[0..2] == [b, c];
    assert Insert(Nil, o, 2) == Shelf(Cons(o.Piece(1, 3, true), Nil), 0);
  }

  lemma HoleFilled(a: byte, b: byte, c: byte, r: Reassembler)
    requires r == Reassembler(Fresh(2), 2, 0, Cons(Block([b, c], 1, 2, false), Nil))
    ensures r.Valid() && var t := Push(r, [a], 0, false); !t.Valid() && t.list.head == Block([b, c], 2, 2, false)
  {
    assert Size(Nil) == 0 && Size(r.list) == 2;
    assert r.out.Write([a]).log == [a];
    var g := r.(out := r.out.Write([a]));
    assert Stage(r, [a], 0, false) == g;
    assert Drain(g) == SplitHead(g);
  }

  // --- Inside the window nothing straddles ---

  lemma WithinNoStraddle(r: Reassembler)
    requires r.out.Valid() && Within(r, r.Edge())
    ensures !Straddles(r)
  {
    if Spans(r.list, r.out.Edge()) { var b := SpansIn(r.list, r.out.Edge()); }
  }

  lemma {:induction false} SpansIn(l: List, e: int) returns (b: Block)
    requires Spans(l, e)
    ensures In(b, l) && b.Has(e)
    decreases l
  {
    if l.head.Has(e - 1) && l.head.Has(e) { b := l.head; } else { b := SpansIn(l.tail, e); }
  }

  lemma InsertWithin(r: Reassembler, data: seq<byte>, index: nat, eof: bool, edge: nat)
    requires r.Valid() && (index == 0 ==> r.capacity == 0) && Within(r, edge)
    requires data != [] ==> index + |data| <= edge
    ensures Within(StageInsert(r, data, index, eof), edge)
  {
    if data != [] {
      forall b | In(b, StageInsert(r, data, index, eof).list) ensures b.start + |b.data| <= edge {
        InsertIn(r.list, Offer(data, index, eof), r.rem, b);
      }
    }
  }

  lemma StageWithin(r: Reassembler, data: seq<byte>, index: nat, eof: bool)
    requires r.Valid() && !Stale(r, data, index) && Within(r, r.Edge())
    requires data != [] ==> index + |data| <= r.Edge()
    ensures Within(Stage(r, data, index, eof), r.Edge())
  {
    if index > r.Written() {
      InsertWithin(r, data, index, eof, r.Edge());
    } else {
      DirectWithin(r, Skip(data, r.Written() - index), eof);
    }
  }

  lemma DirectWithin(r: Reassembler, tail: seq<byte>, eof: bool)
    requires r.Valid() && Within(r, r.Edge()) && (tail != [] ==> r.Written() + |tail| <= r.Edge())
    ensures Within(StageWrite(r, tail, eof), r.Edge())
    ensures |tail| > r.out.Remaining() ==> Within(StageSplit(r, tail, eof), r.Edge())
  {
    if |tail| > r.out.Remaining() { SplitWithin(r, tail, eof); }
  }

  lemma SplitWithin(r: Reassembler, tail: seq<byte>, eof: bool)
    requires r.Valid() && Within(r, r.Edge()) && r.out.Remaining() < |tail| && r.Written() + |tail| <= r.Edge()
    ensures Within(StageSplit(r, tail, eof), r.Edge())
  {
    var n := r.out.Remaining();
    InsertWithin(StageWrite(r, tail[..n], false), Skip(tail, n), r.Written() + n, eof, r.Edge());
  }

  lemma {:induction false} DrainWithin(r: Reassembler, edge: nat)
    requires r.Valid() && !Straddles(r) && Within(r, edge)
    ensures Within(Drain(r), edge)
    decreases r.list
  {
    if r.list.Nil? || r.out.Remaining() == 0 || r.list.head.start > r.Written() {
    } else if r.list.head.end < r.Written() {
      StraddlesDrop(r);
      DrainWithin(DropHead(r), edge);
    } else if Overflows(r) {
      assert false;
    } else {
      StraddlesWrite(r);
      DrainWithin(WriteHead(r), edge);
    }
  }

  /** What no push takes back or touches: written bytes, the read position, the capacity, the error
      flag, and the end of input once it is known. */
  ghost predicate Onward(r: Reassembler, t: Reassembler)
  {
    && r.out.log <= t.out.log && t.out.Valid()
    && t.out.read == r.out.read && t.out.max == r.out.max && t.capacity == r.capacity
    && t.out.error == r.out.error && (r.out.ended ==> t.out.ended)
  }

  lemma {:induction false} DrainOnward(r: Reassembler)
    requires r.Loose()
    ensures Onward(r, Drain(r))
    decreases r.list
  {
    if r.list.Nil? || r.out.Remaining() == 0 || r.list.head.start > r.Written() {
    } else if r.list.head.end < r.Written() {
      DrainOnward(DropHead(r));
    } else if !Overflows(r) {
      DrainOnward(WriteHead(r));
    }
  }

  lemma PushOnward(r: Reassembler, data: seq<byte>, index: nat, eof: bool)
    requires r.Loose()
    ensures Onward(r, Push(r, data, index, eof))
  {
    if !Stale(r, data, index) { DrainOnward(Stage(r, data, index, eof)); }
  }

  /** Pushes inside the window keep the reassembler well formed and inside its window. */
  lemma PushWithin(r: Reassembler, data: seq<byte>, index: nat, eof: bool)
    requires r.Valid() && Within(r, r.Edge())
    requires data != [] ==> index + |data| <= r.Edge()
    ensures !Breaks(r, data, index)
    ensures var t := Push(r, data, index, eof); t.Valid() && Within(t, t.Edge())
  {
    PushOnward(r, data, index, eof);
    if !Stale(r, data, index) {
      var g := Stage(r, data, index, eof);
      StageValid(r, data, index, eof);
      StageWithin(r, data, index, eof);
      WithinNoStraddle(g);
      StageStraddles(r, data, index, eof);
      DrainValid(g);
      DrainWithin(g, r.Edge());
    }
  }

  lemma WithinHarmless(r: Reassembler, data: seq<byte>, index: nat)
    requires r.Valid() && Within(r, r.Edge()) && (data != [] ==> index + |data| <= r.Edge())
    ensures !Breaks(r, data, index)
  {
    PushWithin(r, data, index, false);
  }

  // --- Agreement is kept ---

  lemma InsertAgrees(r: Reassembler, data: seq<byte>, index: nat, eof: bool, s: seq<byte>, final: bool)
    requires r.Valid() && (index == 0 ==> r.capacity == 0)
    requires Agrees(r, s, final) && Matches(data, index, eof, s, final)
    ensures Agrees(StageInsert(r, data, index, eof), s, final)
  {
    if data != [] {
      forall b | In(b, StageInsert(r, data, index, eof).list) ensures Fits(b, s, final) {
        InsertIn(r.list, Offer(data, index, eof), r.rem, b);
        if !In(b, r.list) { PieceFits(b, data, index, eof, s, final); }
      }
    }
  }

  lemma PieceFits(b: Block, data: seq<byte>, index: nat, eof: bool, s: seq<byte>, final: bool)
    requires data != [] && PieceOf(b, Offer(data, index, eof)) && Matches(data, index, eof, s, final)
    ensures Fits(b, s, final)
  {
    forall k | 0 <= k < |b.data| ensures b.data[k] == s[b.start + k] {
      assert b.data[k] == data[b.start - index + k];
    }
  }

  lemma WriteAgrees(r: Reassembler, tail: seq<byte>, eof: bool, s: seq<byte>, final: bool)
    requires r.Valid() && |tail| <= r.out.Remaining() && Agrees(r, s, final)
    requires Matches(tail, r.Written(), eof, s, final)
    ensures Agrees(StageWrite(r, tail, eof), s, final)
  {
    var t := StageWrite(r, tail, eof);
    assert t.list == r.list;
    if tail == [] { assert t.out.log == r.out.log; }
  }

  lemma MatchesTail(data: seq<byte>, index: nat, eof: bool, s: seq<byte>, final: bool, skip: nat)
    requires Matches(data, index, eof, s, final) && skip <= |data|
    ensures Matches(Skip(data, skip), index + skip, eof, s, final)
    ensures Matches(data[..skip], index, false, s, final)
  {
  }

  lemma SplitAgrees(r: Reassembler, tail: seq<byte>, eof: bool, s: seq<byte>, final: bool)
    requires r.Valid() && |tail| > r.out.Remaining() && Agrees(r, s, final)
    requires var n := r.out.Remaining();
             Matches(tail[..n], r.Written(), false, s, final) && Matches(Skip(tail, n), r.Written() + n, eof, s, final)
    ensures Agrees(StageSplit(r, tail, eof), s, final)
  {
    var n := r.out.Remaining();
    WriteThenInsertAgrees(r, tail[..n], Skip(tail, n), eof, s, final);
  }

  lemma WriteThenInsertAgrees(r: Reassembler, first: seq<byte>, second: seq<byte>, eof: bool, s: seq<byte>, final: bool)
    requires r.Valid() && |first| == r.out.Remaining() && Agrees(r, s, final)
    requires Matches(first, r.Written(), false, s, final) && Matches(second, r.Written() + |first|, eof, s, final)
    ensures Agrees(StageInsert(r.(out := r.out.Write(first)), second, r.Written() + |first|, eof), s, final)
  {
    WriteAgrees(r, first, false, s, final);
    InsertAgrees(StageWrite(r, first, false), second, r.Written() + |first|, eof, s, final);
  }

  lemma StageAgrees(r: Reassembler, data: seq<byte>, index: nat, eof: bool, s: seq<byte>, final: bool)
    requires r.Valid() && !Stale(r, data, index) && Agrees(r, s, final) && Matches(data, index, eof, s, final)
    ensures Agrees(Stage(r, data, index, eof), s, final)
  {
    if index <= r.Written() {
      MatchesTail(data, index, eof, s, final, r.Written() - index);
      DirectAgrees(r, Skip(data, r.Written() - index), eof, s, final);
    } else {
      InsertAgrees(r, data, index, eof, s, final);
    }
  }

  lemma DirectAgrees(r: Reassembler, tail: seq<byte>, eof: bool, s: seq<byte>, final: bool)
    requires r.Valid() && Agrees(r, s, final) && Matches(tail, r.Written(), eof, s, final)
    ensures |tail| <= r.out.Remaining() ==> Agrees(StageWrite(r, tail, eof), s, final)
    ensures |tail| > r.out.Remaining() ==> Agrees(StageSplit(r, tail, eof), s, final)
  {
    if |tail| <= r.out.Remaining() {
      WriteAgrees(r, tail, eof, s, final);
    } else {
      MatchesTail(tail, r.Written(), eof, s, final, r.out.Remaining());
      SplitAgrees(r, tail, eof, s, final);
    }
  }

  lemma {:induction false} DrainAgrees(r: Reassembler, s: seq<byte>, final: bool)
    requires r.Valid() && !Straddles(r) && Agrees(r, s, final)
    ensures Agrees(Drain(r), s, final)
    decreases r.list
  {
    if r.list.Nil? || r.out.Remaining() == 0 || r.list.head.start > r.Written() {
    } else if r.list.head.end < r.Written() {
      StraddlesDrop(r);
      DrainAgrees(DropHead(r), s, final);
    } else if Overflows(r) {
      assert false;
    } else {
      StraddlesWrite(r);
      WriteHeadAgrees(r, s, final);
      DrainAgrees(WriteHead(r), s, final);
    }
  }

  lemma WriteHeadAgrees(r: Reassembler, s: seq<byte>, final: bool)
    requires r.Valid() && Drains(r) && !Overflows(r) && Agrees(r, s, final)
    ensures Agrees(WriteHead(r), s, final)
  {
    var b := r.list.head;
    assert In(b, r.list) && Fits(b, s, final);
    var w := r.Written();
    var tail := Skip(b.data, w - b.start);
    assert tail == s[w..b.start + |b.data|];
    assert r.out.log + tail == s[..b.start + |b.data|];
    assert forall c | In(c, r.list.tail) :: In(c, r.list);
  }

  lemma PushAgrees(r: Reassembler, data: seq<byte>, index: nat, eof: bool, s: seq<byte>, final: bool)
    requires r.Valid() && Agrees(r, s, final) && Matches(data, index, eof, s, final)
    requires !Breaks(r, data, index)
    ensures Agrees(Push(r, data, index, eof), s, final)
  {
    if !Stale(r, data, index) {
      StageValid(r, data, index, eof);
      StageStraddles(r, data, index, eof);
      StageAgrees(r, data, index, eof, s, final);
      DrainAgrees(Stage(r, data, index, eof), s, final);
    }
  }

  // --- Exactly which indices are held ---

  lemma {:induction false} DrainHolds(r: Reassembler, i: int)
    requires r.Valid() && !Straddles(r) && i >= 0
    ensures Drain(r).Holds(i) <==> r.Holds(i)
    decreases r.list
  {
    if r.list.Nil? || r.out.Remaining() == 0 || r.list.head.start > r.Written() {
    } else if r.list.head.end < r.Written() {
      StraddlesDrop(r);
      DrainHolds(DropHead(r), i);
    } else if Overflows(r) {
      assert false;
    } else {
      StraddlesWrite(r);
      assert WriteHead(r).Holds(i) <==> r.Holds(i);
      DrainHolds(WriteHead(r), i);
    }
  }

  lemma StageHolds(r: Reassembler, data: seq<byte>, index: nat, eof: bool, i: nat)
    requires r.Valid() && !Stale(r, data, index)
    ensures Stage(r, data, index, eof).Holds(i) <==> r.Holds(i) || index <= i < PushEnd(r, data, index)
  {
    if index > r.Written() {
      InsertHolds(r, data, index, eof, i);
    } else if index + |data| > r.out.Edge() {
      SplitHolds(r, Skip(data, r.Written() - index), eof, i);
    }
  }

  lemma InsertHolds(r: Reassembler, data: seq<byte>, index: nat, eof: bool, i: nat)
    requires r.Valid() && index > r.Written()
    ensures StageInsert(r, data, index, eof).Holds(i) <==> r.Holds(i) || index <= i < PushEnd(r, data, index)
  {
    InsertWalks(r.list, Offer(data, index, eof), r.rem, i);
  }

  lemma {:induction false} SplitHolds(r: Reassembler, tail: seq<byte>, eof: bool, i: nat)
    requires r.Valid() && |tail| > r.out.Remaining()
    ensures var edge := r.out.Edge();
            StageSplit(r, tail, eof).Holds(i) <==>
            r.Holds(i) || r.Written() <= i < Walk(r.list, edge, r.Written() + |tail|, edge, r.rem).stop
  {
    var o := Offer(Skip(tail, r.out.Remaining()), r.out.Edge(), eof);
    assert o.End() == r.Written() + |tail|;
    InsertWalks(r.list, o, r.rem, i);
    assert StageSplit(r, tail, eof).list == Insert(r.list, o, r.rem).list;
    assert StageSplit(r, tail, eof).Written() == r.out.Edge();
  }

  /** A push adds to the held indices exactly those of the substring it gets to; nothing held is lost. */
  lemma PushHolds(r: Reassembler, data: seq<byte>, index: nat, eof: bool, i: nat)
    requires r.Valid() && !Breaks(r, data, index)
    ensures Push(r, data, index, eof).Holds(i) <==>
            r.Holds(i) || (!Stale(r, data, index) && index <= i < PushEnd(r, data, index))
  {
    if !Stale(r, data, index) {
      StageValid(r, data, index, eof);
      StageStraddles(r, data, index, eof);
      StageHolds(r, data, index, eof, i);
      DrainHolds(Stage(r, data, index, eof), i);
    }
  }

  /** A substring no longer than the capacity left gets to its end. */
  lemma PushWhole(r: Reassembler, data: seq<byte>, index: nat)
    requires r.Valid() && !Stale(r, data, index) && |data| <= r.rem
    ensures PushEnd(r, data, index) == index + |data|
  {
    if index > r.Written() {
      WalkWhole(r.list, index, index + |data|, index, r.rem);
    } else if index + |data| > r.out.Edge() {
      WalkWhole(r.list, r.out.Edge(), index + |data|, r.out.Edge(), r.rem);
    }
  }

  lemma {:induction false} DrainMaximal(r: Reassembler)
    requires r.Loose()
    ensures var d := Drain(r);
            d.out.Valid() && (d.out.Remaining() == 0 || d.list.Nil? || d.list.head.start > d.Written())
    decreases r.list
  {
    if r.list.Nil? || r.out.Remaining() == 0 || r.list.head.start > r.Written() {
    } else if r.list.head.end < r.Written() {
      DrainMaximal(DropHead(r));
    } else if !Overflows(r) {
      DrainMaximal(WriteHead(r));
    }
  }

  /** After every push that is not ignored, the output has stopped only because it is full or
      because the next byte is missing. */
  lemma PushMaximal(r: Reassembler, data: seq<byte>, index: nat, eof: bool)
    requires r.Valid() && !Stale(r, data, index) && !Breaks(r, data, index)
    ensures var t := Push(r, data, index, eof); t.Valid() && (t.out.Remaining() == 0 || !t.Holds(t.Written()))
  {
    var g := Stage(r, data, index, eof);
    StageValid(r, data, index, eof);
    StageStraddles(r, data, index, eof);
    DrainValid(g);
    DrainMaximal(g);
    var t := Drain(g);
    if t.list.Cons? && t.list.head.start > t.Written() { AtBelow(t.list, t.Written()); }
  }

  // --- Exact accounting ---

  function Indices(lo: nat, n: nat): (s: set<nat>)
    ensures |s| == n
    ensures forall i :: i in s <==> lo <= i < lo + n
  {
    if n == 0 then {} else Indices(lo, n - 1) + {lo + n - 1}
  }

  /** The set of stored indices. */
  function Keys(l: List): set<nat> { if l.Nil? then {} else Indices(l.head.start, |l.head.data|) + Keys(l.tail) }

  lemma {:induction false} KeysAt(l: List, i: nat)
    ensures i in Keys(l) <==> At(l, i).Some?
    decreases l
  {
    if l.Cons? { KeysAt(l.tail, i); }
  }

  /** Each stored index is counted once, however often it was pushed. */
  lemma {:induction false} SizeCountsKeys(l: List)
    requires Sorted(l)
    ensures |Keys(l)| == Size(l)
    decreases l
  {
    if l.Cons? {
      SizeCountsKeys(l.tail);
      var mine := Indices(l.head.start, |l.head.data|);
      forall i | i in Keys(l.tail) ensures i !in mine {
        KeysAt(l.tail, i);
        var b := AtIn(l.tail, i);
        InBounds(l, b);
        if b == l.head { InBounds(l.tail, b); }
      }
      assert mine !! Keys(l.tail);
    }
  }

  /** `unassembled_bytes` counts the stored indices; it is the number of indices still to be
      assembled exactly when no block keeps bytes that are already in the output. */
  lemma UnassembledExact(r: Reassembler)
    requires r.Valid()
    ensures r.capacity - r.rem == |Keys(r.list)|
    ensures r.capacity - r.rem == |set i | i in Keys(r.list) && i >= r.Written()|
            <==> !Lags(r)
  {
    SizeCountsKeys(r.list);
    SubsetCount(Keys(r.list), r.Written());
    forall i: nat ensures i in Keys(r.list) <==> At(r.list, i).Some? { KeysAt(r.list, i); }
  }

  lemma SubsetCount(keys: set<nat>, w: nat)
    ensures |keys| == |set i | i in keys && i >= w| <==> forall i | i in keys :: i >= w
  {
    var beyond := set i | i in keys && i >= w;
    var below := set i | i in keys && i < w;
    assert keys == beyond + below && beyond !! below;
    assert |keys| == |beyond| + |below|;
    if k :| k in keys && k < w { assert k in below; }
  }

  /** After a push that is not ignored and leaves room in the output, the count is exact. */
  lemma PushUnassembled(r: Reassembler, data: seq<byte>, index: nat, eof: bool)
    requires r.Valid() && !Stale(r, data, index) && !Breaks(r, data, index)
    ensures var t := Push(r, data, index, eof);
            t.Valid() && (t.out.Remaining() > 0 ==>
              t.capacity - t.rem == |Keys(t.list)| && forall i | i in Keys(t.list) :: i > t.Written())
  {
    var g := Stage(r, data, index, eof);
    StageValid(r, data, index, eof);
    StageStraddles(r, data, index, eof);
    DrainValid(g);
    DrainMaximal(g);
    var t := Drain(g);
    SizeCountsKeys(t.list);
    if t.out.Remaining() > 0 {
      forall i | i in Keys(t.list) ensures i > t.Written() {
        KeysAt(t.list, i);
        if i <= t.Written() { AtBelow(t.list, i); }
      }
    }
  }

  /** Some byte below `w` is stored. */
  ghost predicate StoredBelow(l: List, w: nat) { exists i: nat :: i < w && At(l, i).Some? }

  /** Some stored byte is already in the output. */
  ghost predicate Lags(r: Reassembler) { StoredBelow(r.list, r.Written()) }

  lemma StageBelow(r: Reassembler, data: seq<byte>, index: nat, eof: bool)
    requires r.Valid() && !Stale(r, data, index)
    ensures var g := Stage(r, data, index, eof); StoredBelow(g.list, g.Written()) <==> StoredBelow(r.list, g.Written())
  {
    var g, w := Stage(r, data, index, eof), r.Written();
    if index > w {
      InsertBelow(r.list, Offer(data, index, eof), r.rem, w);
    } else if index + |data| > r.out.Edge() {
      var tail, n := Skip(data, w - index), r.out.Remaining();
      InsertBelow(r.list, Offer(Skip(tail, n), w + n, eof), r.rem, w + n);
    }
  }

  lemma {:induction false} InsertBelow(l: List, o: Offer, rem: nat, w: nat)
    requires Insertable(l, o, rem) && Sorted(l) && w <= o.base
    ensures StoredBelow(Insert(l, o, rem).list, w) <==> StoredBelow(l, w)
  {
    var m := Insert(l, o, rem).list;
    forall i: nat | i < w ensures At(m, i).Some? <==> At(l, i).Some? { InsertWalks(l, o, rem, i); }
  }

  /** Which push leaves stored bytes stale: one that fills the output directly, over bytes stored in
      front of the edge of the window, since the full output keeps the drain from dropping them; or
      one that does not get to drain, if some were stale before. */
  lemma PushLags(r: Reassembler, data: seq<byte>, index: nat, eof: bool)
    requires r.Valid() && !Breaks(r, data, index)
    ensures Lags(Push(r, data, index, eof)) <==>
            if Stale(r, data, index) then Lags(r)
            else if index <= r.Written() then r.out.Edge() <= index + |data| && StoredBelow(r.list, r.out.Edge())
            else r.out.Remaining() == 0 && Lags(r)
  {
    if !Stale(r, data, index) {
      var g := Stage(r, data, index, eof);
      StageValid(r, data, index, eof);
      StageStraddles(r, data, index, eof);
      StageBelow(r, data, index, eof);
      if g.out.Remaining() > 0 { DrainLags(g); }
    }
  }

  /** With room in the output, a drain leaves nothing behind that it has written. */
  lemma {:induction false} DrainLags(r: Reassembler)
    requires r.Valid() && !Straddles(r) && r.out.Remaining() > 0
    ensures !Lags(Drain(r))
    decreases r.list
  {
    if r.list.Nil? {
    } else if r.list.head.start > r.Written() {
      StoredAbove(r.list, r.Written());
    } else if r.list.head.end < r.Written() {
      StraddlesDrop(r);
      DrainLags(DropHead(r));
    } else if Overflows(r) {
      assert false;
    } else {
      StraddlesWrite(r);
      StoredAbove(r.list.tail, r.list.head.end + 1);
      if WriteHead(r).out.Remaining() > 0 { DrainLags(WriteHead(r)); }
    }
  }

  lemma {:induction false} StoredAbove(l: List, w: nat)
    requires Sorted(l) && (l.Cons? ==> w <= l.head.start)
    ensures !StoredBelow(l, w)
  {
    forall i: nat | i < w ensures At(l, i).None? { if l.Cons? { AtBelow(l, i); } }
  }

  /** With the output full, a block already assembled stays stored and is still counted: `full` is
      reached by writing two bytes and pushing the next two, and nothing is left to assemble after
      the reader has made room and the same two have been pushed again. */
  lemma StaleBlockExample(a: byte, b: byte)
    ensures var full := Reassembler(Stream([a, b], 0, 2, false, false), 2, 0, Cons(Block([a, b], 2, 3, false), Nil));
            && Push(Push(Empty(2), [a, b], 0, false), [a, b], 2, false) == full
            && var after := Push(full.(out := full.out.Pop(2)), [a, b], 2, false);
            after.Valid() && after.Written() == 4 && after.capacity - after.rem == 2
  {
    var one := Reassembler(Stream([a, b], 0, 2, false, false), 2, 2, Nil);
    StaleBlockFirst(a, b);
    StaleBlockSecond(a, b, one);
    var full := Reassembler(one.out, 2, 0, Cons(Block([a, b], 2, 3, false), Nil));
    StaleBlockThird(a, b, full.(out := full.out.Pop(2)));
  }

  lemma StaleBlockFirst(a: byte, b: byte)
    ensures Push(Empty(2), [a, b], 0, false) == Reassembler(Stream([a, b], 0, 2, false, false), 2, 2, Nil)
  {
    assert [a, b][0..] == [a, b];
  }

  lemma StaleBlockSecond(a: byte, b: byte, one: Reassembler)
    requires one == Reassembler(Stream([a, b], 0, 2, false, false), 2, 2, Nil)
    ensures Push(one, [a, b], 2, false) == one.(rem := 0, list := Cons(Block([a, b], 2, 3, false), Nil))
  {
    var tail := [a, b];
    assert tail[..0] == [];
    var o := Offer(tail, 2, false);
    assert o.Piece(2, 4, true) == Block([a, b], 2, 3, false);
    assert Insert(Nil, o, 2) == Shelf(Cons(o.Piece(2, 4, true), Nil), 0);
    assert Stage(one, [a, b], 2, false) == StageSplit(one, tail, false);
    assert one.out.Write([]) == one.out;
  }

  lemma StaleBlockThird(a: byte, b: byte, r: Reassembler)
    requires r == Reassembler(Stream([a, b], 2, 2, false, false), 2, 0, Cons(Block([a, b], 2, 3, false), Nil))
    ensures r.Valid() && Push(r, [a, b], 2, false) == r.(out := r.out.(log := [a, b, a, b]))
  {
    assert Size(Nil) == 0 && Size(r.list) == 2;
    assert [a, b][0..] == [a, b];
    assert r.out.Write([a, b]).log == [a, b, a, b];
  }

  // --- Runs ---

  datatype Event = Submit(data: seq<byte>, index: nat, eof: bool) | Take(len: nat)

  function Step(r: Reassembler, e: Event): (t: Reassembler)
    requires r.Loose()
    ensures t.Loose()
  {
    match e
    case Submit(data, index, eof) => Push(r, data, index, eof)
    case Take(len) => r.(out := r.out.Pop(len))
  }

  /** Every substring submitted along the run is a piece of `s` inside the window of that moment. */
  ghost predicate RunFits(r: Reassembler, events: seq<Event>, s: seq<byte>, final: bool)
    requires r.Loose()
    decreases |events|
  {
    events == [] ||
    (&& (events[0].Submit? ==>
           && Matches(events[0].data, events[0].index, events[0].eof, s, final)
           && (events[0].data != [] ==> events[0].index + |events[0].data| <= r.Edge()))
     && RunFits(Step(r, events[0]), events[1..], s, final))
  }

  function RunOf(r: Reassembler, events: seq<Event>): Reassembler
    requires r.Loose()
    decreases |events|
  {
    if events == [] then r else RunOf(Step(r, events[0]), events[1..])
  }

  /** Over every run of reads and in-window pushes of pieces of `s`: the list stays well formed (so
      the partial drain is never reached), the output is a prefix of `s`, every block holds its
      piece of `s`, and the input has ended only at the end of `s`. */
  lemma {:induction false} RunSafe(r: Reassembler, events: seq<Event>, s: seq<byte>, final: bool)
    requires r.Valid() && Within(r, r.Edge()) && Agrees(r, s, final) && RunFits(r, events, s, final)
    ensures var t := RunOf(r, events); t.Valid() && Within(t, t.Edge()) && Agrees(t, s, final)
    decreases |events|
  {
    if events != [] {
      StepSafe(r, events[0], s, final);
      RunSafe(Step(r, events[0]), events[1..], s, final);
    }
  }

  lemma StepSafe(r: Reassembler, e: Event, s: seq<byte>, final: bool)
    requires r.Valid() && Within(r, r.Edge()) && Agrees(r, s, final)
    requires e.Submit? ==> Matches(e.data, e.index, e.eof, s, final)
    requires e.Submit? && e.data != [] ==> e.index + |e.data| <= r.Edge()
    ensures var t := Step(r, e); t.Valid() && Within(t, t.Edge()) && Agrees(t, s, final)
  {
    match e
    case Submit(data, index, eof) =>
      PushWithin(r, data, index, eof);
      PushAgrees(r, data, index, eof, s, final);
    case Take(len) =>
      TakeSafe(r, len, s, final);
  }

  lemma TakeSafe(r: Reassembler, len: nat, s: seq<byte>, final: bool)
    requires r.Valid() && Within(r, r.Edge()) && Agrees(r, s, final)
    ensures var t := r.(out := r.out.Pop(len)); t.Valid() && Within(t, t.Edge()) && Agrees(t, s, final)
  {
  }
}
