/** Exactly what the insertion stores, by a walk over the offered indices one at a time. */
module Insertion {
  import opened Bytes
  import opened Reassembly

  /** Where a walk ends and how much capacity it leaves. */
  datatype Reach = Reach(stop: nat, left: nat)

  /** The insertion byte by byte: `i` is the next index, `from` the one behind the last byte put in.
      Every missing byte is put in. The walk ends with the offer, or once it has met as many stored
      bytes in a row as there is capacity left. */
  function Walk(l: List, i: nat, end: nat, from: nat, left: nat): (r: Reach)
    requires from <= i
    ensures i <= r.stop <= Max(i, end) && r.left <= left
    decreases end - i
  {
    if i >= end || i >= from + left then Reach(i, left)
    else if At(l, i).Some? then Walk(l, i + 1, end, from, left)
    else Walk(l, i + 1, end, i + 1, left - 1)
  }

  /** How far an offer gets. */
  function Extent(l: List, o: Offer, rem: nat): Reach { Walk(l, o.base, o.End(), o.base, rem) }

  // --- Steps of a walk ---

  lemma {:induction false} WalkHead(l: List, i: nat, j: nat, end: nat, from: nat, left: nat)
    requires l.Cons? && l.head.Valid() && l.head.start <= i <= j <= l.head.end + 1
    requires from <= i && j <= end && j <= from + left
    ensures Walk(l, i, end, from, left) == Walk(l, j, end, from, left)
    decreases j - i
  {
    if i < j { WalkHead(l, i + 1, j, end, from, left); }
  }

  lemma {:induction false} WalkTail(l: List, i: nat, end: nat, from: nat, left: nat)
    requires l.Cons? && l.head.Valid() && l.head.end < i && from <= i
    ensures Walk(l, i, end, from, left) == Walk(l.tail, i, end, from, left)
    decreases end - i
  {
    if i < end && i < from + left {
      if At(l, i).Some? { WalkTail(l, i + 1, end, from, left); } else { WalkTail(l, i + 1, end, i + 1, left - 1); }
    }
  }

  lemma {:induction false} WalkGap(l: List, i: nat, j: nat, end: nat, from: nat, left: nat)
    requires Sorted(l) && (l.Cons? ==> j <= l.head.start)
    requires from <= i < j <= end && i < from + left && j - i <= left
    ensures Walk(l, i, end, from, left) == Walk(l, j, end, j, left - (j - i))
    decreases j - i
  {
    if l.Cons? { AtBelow(l, i); }
    if i + 1 < j { WalkGap(l, i + 1, j, end, i + 1, left - 1); }
  }

  // --- The insertion is the walk ---

  /** `r` has the capacity left of `w`, and index `i` if it was there or lies on the walk from `lo`. */
  ghost predicate Reached(l: List, r: Shelf, w: Reach, lo: nat, i: int)
  {
    r.rem == w.left && (At(r.list, i).Some? <==> At(l, i).Some? || lo <= i < w.stop)
  }

  /** The scan may start at a block behind `at`, if everything from `at` up to it is stored. */
  predicate Joined(l: List, o: Offer, at: nat, rem: nat)
  {
    Ready(l, o, at) && Sorted(l) && (l.head.start <= at || l.head.start < at + Left(o, at, rem))
  }

  lemma {:induction false} ScanWalks(l: List, o: Offer, at: nat, rem: nat, i: int)
    requires Joined(l, o, at, rem)
    ensures var lo := Max(at, l.head.start); Reached(l, Scan(l, o, at, rem), Walk(l, lo, o.End(), at, rem), lo, i)
    decreases l, 1
  {
    var lo, size := Max(at, l.head.start), Left(o, at, rem);
    if Stops(l, o, at, rem) {
      PlaceWalks(l, o, at, rem, i);
    } else if size > 0 && at + size - 1 <= l.head.end {
      WalkHead(l, lo, at + size, o.End(), at, rem);
    } else if size > 0 {
      SkipWalk(l, o, at, rem);
      ScanWalks(l.tail, o, at, rem, i);
    }
  }

  /** The scan moves on from the first block, which does not cover all there is to place. */
  predicate Moves(l: List, o: Offer, at: nat, rem: nat)
  {
    Joined(l, o, at, rem) && Left(o, at, rem) > 0 && l.head.end < at + Left(o, at, rem) - 1 && Skips(l, at)
  }

  /** The part of the walk that passes the first block. */
  lemma {:induction false} SkipWalk(l: List, o: Offer, at: nat, rem: nat)
    requires Moves(l, o, at, rem)
    ensures Walk(l, Max(at, l.head.start), o.End(), at, rem)
            == Walk(l.tail, Max(at, l.tail.head.start), o.End(), at, rem)
  {
    var lo, next := Max(at, l.head.start), Max(at, l.tail.head.start);
    if lo < next { WalkHead(l, lo, next, o.End(), at, rem); }
    WalkTail(l, next, o.End(), at, rem);
  }

  lemma {:induction false} PlaceWalks(l: List, o: Offer, at: nat, rem: nat, i: int)
    requires Joined(l, o, at, rem) && Stops(l, o, at, rem)
    ensures var lo := Max(at, l.head.start); Reached(l, Place(l, o, at, rem), Walk(l, lo, o.End(), at, rem), lo, i)
    decreases l, 0
  {
    var lo, hi := GapLo(l, at), GapHi(l, o, at, rem);
    GapWalk(l, o, at, rem, lo, hi);
    GapFills(l, o, at, rem, lo, hi);
    var w := Walk(l.tail, hi, o.End(), hi, rem - (hi - lo));
    if l.tail.Nil? {
      GapReached(l, o, Max(at, l.head.start), lo, hi, true, w, Shelf(Nil, rem - (hi - lo)), i);
    } else {
      RestWalks(l.tail, o, hi, rem - (hi - lo), i);
      GapReached(l, o, Max(at, l.head.start), lo, hi, false, w, Scan(l.tail, o, hi, rem - (hi - lo)), i);
    }
  }

  lemma {:induction false} GapReached(l: List, o: Offer, first: nat, lo: nat, hi: nat, mark: bool,
      w: Reach, rest: Shelf, i: int)
    requires Fills(l, o, first, lo, hi, w.stop) && Reached(l.tail, rest, w, hi, i)
    ensures Reached(l, Shelf(Cons(l.head, Cons(o.Piece(lo, hi, mark), rest.list)), rest.rem), w, first, i)
  {
    AtPair(l.head, o.Piece(lo, hi, mark), rest.list, i);
  }

  /** The scan behind a filled gap, which ends at the next block or at the end of the walk. */
  lemma {:induction false} RestWalks(l: List, o: Offer, at: nat, rem: nat, i: int)
    requires Ready(l, o, at) && Sorted(l) && (l.head.start <= at || Left(o, at, rem) == 0)
    ensures Reached(l, Scan(l, o, at, rem), Walk(l, at, o.End(), at, rem), at, i)
    decreases l, 2
  {
    if Left(o, at, rem) > 0 { ScanWalks(l, o, at, rem, i); }
  }

  /** The part of the walk that fills one gap. */
  lemma GapWalk(l: List, o: Offer, at: nat, rem: nat, lo: nat, hi: nat)
    requires Joined(l, o, at, rem) && Stops(l, o, at, rem) && lo == GapLo(l, at) && hi == GapHi(l, o, at, rem)
    ensures Walk(l, Max(at, l.head.start), o.End(), at, rem) == Walk(l.tail, hi, o.End(), hi, rem - (hi - lo))
  {
    var first := Max(at, l.head.start);
    if first < lo { WalkHead(l, first, lo, o.End(), at, rem); }
    WalkTail(l, lo, o.End(), at, rem);
    if lo < hi { WalkGap(l.tail, lo, hi, o.End(), at, rem); }
  }

  /** What filling the gap behind the first block means for a walk from `first` to `stop`. */
  predicate Fills(l: List, o: Offer, first: nat, lo: nat, hi: nat, stop: nat)
  {
    && Sorted(l) && l.Cons? && l.head.end < lo
    && first <= lo && (first < lo ==> l.head.start <= first && lo == l.head.end + 1)
    && o.base <= lo <= hi <= o.End() && lo < o.End() && hi <= stop
    && if l.tail.Nil? then lo < hi == stop else hi <= l.tail.head.start && (hi < l.tail.head.start ==> stop == hi)
  }

  lemma {:induction false} GapFills(l: List, o: Offer, at: nat, rem: nat, lo: nat, hi: nat)
    requires Joined(l, o, at, rem) && Stops(l, o, at, rem) && lo == GapLo(l, at) && hi == GapHi(l, o, at, rem)
    ensures Fills(l, o, Max(at, l.head.start), lo, hi, Walk(l.tail, hi, o.End(), hi, rem - (hi - lo)).stop)
  {
  }

  lemma {:induction false} BeforeWalks(l: List, o: Offer, rem: nat, hi: nat, left: nat, i: int)
    requires Insertable(l, o, rem) && Sorted(l) && l.Cons? && o.base < l.head.start && Left(o, o.base, rem) > 0
    requires hi == Min(o.base + Left(o, o.base, rem), l.head.start) && left == rem - (hi - o.base)
    ensures Reached(l, Shelf(Cons(o.Piece(o.base, hi, false), Scan(l, o, hi, left).list), Scan(l, o, hi, left).rem),
                    Extent(l, o, rem), o.base, i)
  {
    WalkGap(l, o.base, hi, o.End(), o.base, rem);
    if i < hi { AtBelow(l, i); }
    RestWalks(l, o, hi, left, i);
  }

  lemma {:induction false} InsertWalks(l: List, o: Offer, rem: nat, i: int)
    requires Insertable(l, o, rem) && Sorted(l)
    ensures Reached(l, Insert(l, o, rem), Extent(l, o, rem), o.base, i)
  {
    var size := Left(o, o.base, rem);
    if size > 0 {
      if l.Nil? {
        WalkGap(l, o.base, o.base + size, o.End(), o.base, rem);
      } else if o.base < l.head.start {
        var hi := Min(o.base + size, l.head.start);
        BeforeWalks(l, o, rem, hi, rem - (hi - o.base), i);
      } else {
        ScanWalks(l, o, o.base, rem, i);
      }
    }
  }

  /** Insertion refines map union, exactly: stored bytes are untouched, and the bytes added are those
      of the offer that were missing, up to where the walk ends. */
  lemma {:induction false} InsertIsUnion(l: List, o: Offer, rem: nat, i: int)
    requires Insertable(l, o, rem) && Sorted(l)
    ensures At(Insert(l, o, rem).list, i) ==
            if At(l, i).Some? then At(l, i) else if i < Extent(l, o, rem).stop then o.At(i) else None
    ensures Insert(l, o, rem).rem == Extent(l, o, rem).left
  {
    InsertKeeps(l, o, rem, i);
    InsertWalks(l, o, rem, i);
  }

  // --- How far an offer gets ---

  /** How many of the indices in `[lo, hi)` are missing. */
  function Gaps(l: List, lo: nat, hi: nat): nat
    decreases hi - lo
  {
    if lo >= hi then 0 else (if At(l, lo).None? then 1 else 0) + Gaps(l, lo + 1, hi)
  }

  lemma {:induction false} GapsSnoc(l: List, lo: nat, hi: nat)
    requires lo <= hi
    ensures Gaps(l, lo, hi + 1) == Gaps(l, lo, hi) + if At(l, hi).None? then 1 else 0
    decreases hi - lo
  {
    if lo < hi { GapsSnoc(l, lo + 1, hi); }
  }

  /** Each byte put in costs one unit of capacity and nothing else does. */
  lemma {:induction false} WalkSpends(l: List, i: nat, end: nat, from: nat, left: nat)
    requires from <= i
    ensures var w := Walk(l, i, end, from, left); w.left + Gaps(l, i, w.stop) == left
    decreases end - i
  {
    if i < end && i < from + left {
      if At(l, i).Some? { WalkSpends(l, i + 1, end, from, left); } else { WalkSpends(l, i + 1, end, i + 1, left - 1); }
    }
  }

  /** An offer no longer than the capacity gets to its end. */
  lemma {:induction false} WalkWhole(l: List, i: nat, end: nat, from: nat, left: nat)
    requires from <= i <= end <= from + left
    ensures Walk(l, i, end, from, left).stop == end
    decreases end - i
  {
    if i < end {
      if At(l, i).Some? { WalkWhole(l, i + 1, end, from, left); } else { WalkWhole(l, i + 1, end, i + 1, left - 1); }
    }
  }

  /** The offer is stopped at `at`, its first byte or one behind a missing one: with `m` bytes put in
      before, as many stored bytes follow as there is capacity left, and a missing one behind them. */
  ghost predicate Blocked(l: List, o: Offer, rem: nat, at: nat)
  {
    && o.base <= at && (at == o.base || At(l, at - 1).None?)
    && var m := Gaps(l, o.base, at);
    && m < rem && (forall i | at <= i < at + rem - m :: At(l, i).Some?)
    && exists j :: at + rem - m <= j < o.End() && At(l, j).None?
  }

  ghost predicate Hindered(l: List, o: Offer, rem: nat) { exists at :: Blocked(l, o, rem, at) }

  /** All of the offer is stored, or there is no capacity left. */
  ghost predicate Finished(o: Offer, r: Shelf) { r.rem == 0 || forall i | o.base <= i < o.End() :: At(r.list, i).Some? }

  /** A walk in progress at index `i`. */
  ghost predicate Under(l: List, o: Offer, rem: nat, i: nat, from: nat, left: nat)
  {
    && o.base <= from <= i && (from == o.base || At(l, from - 1).None?)
    && (forall k | from <= k < i :: At(l, k).Some?)
    && Gaps(l, o.base, from) + left == rem && Gaps(l, o.base, i) + left == rem
  }

  lemma {:induction false} WalkBlocked(l: List, o: Offer, rem: nat, i: nat, from: nat, left: nat, j: nat)
    returns (at: nat)
    requires Under(l, o, rem, i, from, left)
    requires var w := Walk(l, i, o.End(), from, left); w.left > 0 && w.stop <= j < o.End() && At(l, j).None?
    ensures Blocked(l, o, rem, at)
    decreases o.End() - i
  {
    if i >= from + left {
      at := from;
    } else {
      GapsSnoc(l, o.base, i);
      if At(l, i).Some? {
        at := WalkBlocked(l, o, rem, i + 1, from, left, j);
      } else {
        at := WalkBlocked(l, o, rem, i + 1, i + 1, left - 1, j);
      }
    }
  }

  lemma {:induction false} BlockedWalk(l: List, o: Offer, rem: nat, i: nat, from: nat, left: nat, at: nat)
    returns (j: nat)
    requires Under(l, o, rem, i, from, left) && Blocked(l, o, rem, at) && from <= at
    ensures var w := Walk(l, i, o.End(), from, left); w.left > 0 && w.stop <= j < o.End() && At(l, j).None?
    decreases o.End() - i
  {
    if i < o.End() && i < from + left {
      GapsSnoc(l, o.base, i);
      if At(l, i).Some? {
        j := BlockedWalk(l, o, rem, i + 1, from, left, at);
      } else {
        j := BlockedWalk(l, o, rem, i + 1, i + 1, left - 1, at);
      }
    } else if at == from {
      j :| at + left <= j < o.End() && At(l, j).None?;
    } else {
      j := at - 1;
      GapsMore(l, o.base, i, at);
    }
  }

  lemma {:induction false} GapsMore(l: List, lo: nat, mid: nat, hi: nat)
    requires lo <= mid < hi && At(l, hi - 1).None?
    ensures Gaps(l, lo, mid) < Gaps(l, lo, hi)
    decreases hi - lo
  {
    if lo < mid { GapsMore(l, lo + 1, mid, hi); } else if lo + 1 < hi { GapsMore(l, lo + 1, lo + 1, hi); }
  }

  /** The insertion stores all of the offer or uses up the capacity, unless the offer is hindered. */
  lemma {:induction false} InsertReaches(l: List, o: Offer, rem: nat)
    requires Insertable(l, o, rem) && Sorted(l)
    ensures Finished(o, Insert(l, o, rem)) <==> !Hindered(l, o, rem)
  {
    var r, w := Insert(l, o, rem), Extent(l, o, rem);
    forall i ensures Reached(l, r, w, o.base, i) { InsertWalks(l, o, rem, i); }
    assert r.rem == w.left by { assert Reached(l, r, w, o.base, 0); }
    if Hindered(l, o, rem) {
      var at :| Blocked(l, o, rem, at);
      var j := BlockedWalk(l, o, rem, o.base, o.base, rem, at);
      assert Reached(l, r, w, o.base, j) && At(r.list, j).None?;
    } else if r.rem > 0 {
      forall j | o.base <= j < o.End() ensures At(r.list, j).Some? {
        assert Reached(l, r, w, o.base, j);
        if At(r.list, j).None? { var at := WalkBlocked(l, o, rem, o.base, o.base, rem, j); }
      }
    }
  }

  /** Capacity goes to the lowest missing bytes: nothing offered is passed over for a byte behind it. */
  lemma {:induction false} InsertLowest(l: List, o: Offer, rem: nat, i: nat, j: nat)
    requires Insertable(l, o, rem) && Sorted(l) && o.base <= i < j
    requires At(l, j).None? && At(Insert(l, o, rem).list, j).Some?
    ensures At(Insert(l, o, rem).list, i).Some?
  {
    InsertWalks(l, o, rem, i);
    InsertWalks(l, o, rem, j);
  }

  /** Bytes already stored use up the reach of an offer: one that would still fit can be left out. */
  lemma ReachExample(a: byte, b: byte)
    ensures var l := Cons(Block([a], 1, 1, false), Nil); Insert(l, Offer([a, b], 1, false), 1) == Shelf(l, 1)
  {
  }

  // --- What becomes of the end-of-stream mark ---

  /** Some block that ends at or past `w` carries the eof mark. */
  predicate Marked(l: List, w: int) { l.Cons? && ((l.head.eof && l.head.end >= w) || Marked(l.tail, w)) }

  /** Some block starts at or past `end`. */
  predicate Behind(l: List, end: nat) { l.Cons? && (l.head.start >= end || Behind(l.tail, end)) }

  /** A walk that starts at `lo` and ends at `stop` puts in the last byte of a final offer, which ends
      at `end`, with no block behind it. */
  predicate Closes(l: List, eof: bool, end: nat, lo: nat, stop: nat)
  {
    eof && lo < end == stop && At(l, end - 1).None? && !Behind(l, end)
  }

  lemma {:induction false} MarkedPair(h: Block, t: Block, rest: List, w: int)
    ensures Marked(Cons(h, Cons(t, rest)), w) <==> (h.eof && h.end >= w) || (t.eof && t.end >= w) || Marked(rest, w)
  {
    assert Marked(Cons(t, rest), w) <==> (t.eof && t.end >= w) || Marked(rest, w);
  }

  lemma {:induction false} ScanMarks(l: List, o: Offer, at: nat, rem: nat, w: int)
    requires w < o.End() && Joined(l, o, at, rem)
    ensures var lo := Max(at, l.head.start);
            Marked(Scan(l, o, at, rem).list, w) <==>
            Marked(l, w) || Closes(l, o.eof, o.End(), lo, Walk(l, lo, o.End(), at, rem).stop)
    decreases l, 1
  {
    var lo, size := Max(at, l.head.start), Left(o, at, rem);
    if Stops(l, o, at, rem) {
      PlaceMarks(l, o, at, rem, w);
    } else if size > 0 && at + size - 1 <= l.head.end {
      WalkHead(l, lo, at + size, o.End(), at, rem);
    } else if size > 0 {
      ScanMarks(l.tail, o, at, rem, w);
      SkipWalk(l, o, at, rem);
      SkipMarks(l, o, at, rem, Scan(l.tail, o, at, rem).list, w);
    }
  }

  lemma {:induction false} SkipMarks(l: List, o: Offer, at: nat, rem: nat, rest: List, w: int)
    requires Moves(l, o, at, rem)
    requires var lo := Max(at, l.tail.head.start);
             Marked(rest, w) <==>
             Marked(l.tail, w) || Closes(l.tail, o.eof, o.End(), lo, Walk(l.tail, lo, o.End(), at, rem).stop)
    ensures var lo := Max(at, l.head.start);
            Marked(Cons(l.head, rest), w) <==>
            || Marked(l, w)
            || Closes(l, o.eof, o.End(), lo, Walk(l.tail, Max(at, l.tail.head.start), o.End(), at, rem).stop)
  {
  }

  lemma {:induction false} PlaceMarks(l: List, o: Offer, at: nat, rem: nat, w: int)
    requires w < o.End() && Joined(l, o, at, rem) && Stops(l, o, at, rem)
    ensures var lo := Max(at, l.head.start);
            Marked(Place(l, o, at, rem).list, w) <==>
            Marked(l, w) || Closes(l, o.eof, o.End(), lo, Walk(l, lo, o.End(), at, rem).stop)
    decreases l, 0
  {
    var first, lo, hi := Max(at, l.head.start), GapLo(l, at), GapHi(l, o, at, rem);
    var left := rem - (hi - lo);
    var stop := Walk(l, first, o.End(), at, rem).stop;
    assert stop == Walk(l.tail, hi, o.End(), hi, left).stop by { GapWalk(l, o, at, rem, lo, hi); }
    GapFills(l, o, at, rem, lo, hi);
    if l.tail.Nil? {
      LastMarks(l, o, first, lo, hi, w);
    } else {
      RestMarks(l.tail, o, hi, left, w);
      GapMarks(l, o, first, lo, hi, stop, Scan(l.tail, o, hi, left).list, w);
    }
  }

  lemma {:induction false} LastMarks(l: List, o: Offer, first: nat, lo: nat, hi: nat, w: int)
    requires Fills(l, o, first, lo, hi, hi) && l.tail.Nil? && w < o.End()
    ensures Marked(Cons(l.head, Cons(o.Piece(lo, hi, true), Nil)), w) <==>
            Marked(l, w) || Closes(l, o.eof, o.End(), first, hi)
  {
    MarkedPair(l.head, o.Piece(lo, hi, true), Nil, w);
    assert At(Nil, o.End() - 1).None? && !Behind(Nil, o.End());
  }

  lemma {:induction false} GapMarks(l: List, o: Offer, first: nat, lo: nat, hi: nat, stop: nat, rest: List, w: int)
    requires Fills(l, o, first, lo, hi, stop) && l.tail.Cons?
    requires Marked(rest, w) <==> Marked(l.tail, w) || Closes(l.tail, o.eof, o.End(), hi, stop)
    ensures Marked(Cons(l.head, Cons(o.Piece(lo, hi, false), rest)), w) <==>
            Marked(l, w) || Closes(l, o.eof, o.End(), first, stop)
  {
    MarkedPair(l.head, o.Piece(lo, hi, false), rest, w);
    assert hi == o.End() ==> Behind(l.tail, o.End());
    assert At(l, o.End() - 1) == At(l.tail, o.End() - 1);
  }

  lemma {:induction false} RestMarks(l: List, o: Offer, at: nat, rem: nat, w: int)
    requires w < o.End() && Ready(l, o, at) && Sorted(l)
    requires l.head.start <= at || (Left(o, at, rem) == 0 && at <= l.head.start)
    ensures Marked(Scan(l, o, at, rem).list, w) <==>
            Marked(l, w) || Closes(l, o.eof, o.End(), at, Walk(l, at, o.End(), at, rem).stop)
    decreases l, 2
  {
    if Left(o, at, rem) > 0 { ScanMarks(l, o, at, rem, w); }
  }

  lemma BeforeMarks(l: List, o: Offer, rem: nat, hi: nat, w: int)
    requires w < o.End() && Insertable(l, o, rem) && Sorted(l)
    requires l.Cons? && o.base < l.head.start && Left(o, o.base, rem) > 0
    requires hi == Min(o.base + Left(o, o.base, rem), l.head.start)
    ensures Marked(Scan(l, o, hi, rem - (hi - o.base)).list, w) <==>
            Marked(l, w) || Closes(l, o.eof, o.End(), o.base, Extent(l, o, rem).stop)
  {
    WalkGap(l, o.base, hi, o.End(), o.base, rem);
    RestMarks(l, o, hi, rem - (hi - o.base), w);
  }

  /** The insertion remembers the end of the stream exactly when it puts in the last byte of a final
      offer: a mark on a duplicate, on nothing, on bytes it does not get to, or in front of stored
      bytes is forgotten. */
  lemma {:induction false} InsertMarks(l: List, o: Offer, rem: nat, w: int)
    requires Insertable(l, o, rem) && Sorted(l) && (o.data != [] ==> w < o.End())
    ensures Marked(Insert(l, o, rem).list, w) <==>
            Marked(l, w) || Closes(l, o.eof, o.End(), o.base, Extent(l, o, rem).stop)
  {
    var size := Left(o, o.base, rem);
    if size > 0 {
      if l.Nil? {
        WalkGap(l, o.base, o.base + size, o.End(), o.base, rem);
        assert Marked(Cons(o.Piece(o.base, o.base + size, true), Nil), w) <==> o.base + size == o.End() && o.eof;
      } else if o.base < l.head.start {
        BeforeMarks(l, o, rem, Min(o.base + size, l.head.start), w);
      } else {
        ScanMarks(l, o, o.base, rem, w);
      }
    }
  }

  // --- Blocks across an index ---

  /** Some block holds both `e - 1` and `e`. */
  predicate Spans(l: List, e: int) { l.Cons? && ((l.head.Has(e - 1) && l.head.Has(e)) || Spans(l.tail, e)) }

  /** Some block, maybe an empty one, starts at `e`. */
  predicate StartsAt(l: List, e: int) { l.Cons? && (l.head.start == e || StartsAt(l.tail, e)) }

  /** A walk from `lo` to `stop` puts in both bytes at once. */
  predicate Bridges(l: List, lo: nat, stop: nat, e: int)
  {
    lo < e < stop && At(l, e - 1).None? && At(l, e).None? && !StartsAt(l, e)
  }

  lemma SpansPair(h: Block, t: Block, rest: List, e: int)
    ensures Spans(Cons(h, Cons(t, rest)), e) <==>
            (h.Has(e - 1) && h.Has(e)) || (t.Has(e - 1) && t.Has(e)) || Spans(rest, e)
  {
    assert Spans(Cons(t, rest), e) <==> (t.Has(e - 1) && t.Has(e)) || Spans(rest, e);
  }

  lemma {:induction l} NothingBelow(l: List, e: int)
    requires Sorted(l) && (l.Cons? ==> e < l.head.start)
    ensures !StartsAt(l, e) && !Spans(l, e) && At(l, e).None? && At(l, e - 1).None?
  {
  }

  lemma {:induction false} ScanSpans(l: List, o: Offer, at: nat, rem: nat, e: int)
    requires Joined(l, o, at, rem)
    ensures var lo := Max(at, l.head.start);
            Spans(Scan(l, o, at, rem).list, e) <==> Spans(l, e) || Bridges(l, lo, Walk(l, lo, o.End(), at, rem).stop, e)
    decreases l, 1
  {
    var lo, size := Max(at, l.head.start), Left(o, at, rem);
    if Stops(l, o, at, rem) {
      PlaceSpans(l, o, at, rem, e);
    } else if size > 0 && at + size - 1 <= l.head.end {
      WalkHead(l, lo, at + size, o.End(), at, rem);
    } else if size > 0 {
      SkipWalk(l, o, at, rem);
      ScanSpans(l.tail, o, at, rem, e);
    }
  }

  lemma {:induction false} PlaceSpans(l: List, o: Offer, at: nat, rem: nat, e: int)
    requires Joined(l, o, at, rem) && Stops(l, o, at, rem)
    ensures var lo := Max(at, l.head.start);
            Spans(Place(l, o, at, rem).list, e) <==>
            Spans(l, e) || Bridges(l, lo, Walk(l, lo, o.End(), at, rem).stop, e)
    decreases l, 0
  {
    var lo, hi := GapLo(l, at), GapHi(l, o, at, rem);
    GapWalk(l, o, at, rem, lo, hi);
    GapFills(l, o, at, rem, lo, hi);
    var stop := Walk(l.tail, hi, o.End(), hi, rem - (hi - lo)).stop;
    if l.tail.Nil? {
      LastSpans(l, o, Max(at, l.head.start), lo, hi, e);
    } else {
      RestSpans(l.tail, o, hi, rem - (hi - lo), e);
      GapSpans(l, o, Max(at, l.head.start), lo, hi, stop, Scan(l.tail, o, hi, rem - (hi - lo)).list, e);
    }
  }

  lemma {:induction false} LastSpans(l: List, o: Offer, first: nat, lo: nat, hi: nat, e: int)
    requires Fills(l, o, first, lo, hi, hi) && l.tail.Nil?
    ensures Spans(Cons(l.head, Cons(o.Piece(lo, hi, true), Nil)), e) <==> Spans(l, e) || Bridges(l, first, hi, e)
  {
    NothingBelow(Nil, e);
    SpansPair(l.head, o.Piece(lo, hi, true), Nil, e);
  }

  lemma {:induction false} GapSpans(l: List, o: Offer, first: nat, lo: nat, hi: nat, stop: nat, rest: List, e: int)
    requires Fills(l, o, first, lo, hi, stop) && l.tail.Cons?
    requires Spans(rest, e) <==> Spans(l.tail, e) || Bridges(l.tail, hi, stop, e)
    ensures Spans(Cons(l.head, Cons(o.Piece(lo, hi, false), rest)), e) <==> Spans(l, e) || Bridges(l, first, stop, e)
  {
    SpansPair(l.head, o.Piece(lo, hi, false), rest, e);
    if e < hi { NothingBelow(l.tail, e); }
    assert e == hi == l.tail.head.start ==> StartsAt(l.tail, e);
    assert hi < e ==> At(l, e - 1) == At(l.tail, e - 1) && At(l, e) == At(l.tail, e);
  }

  lemma {:induction false} RestSpans(l: List, o: Offer, at: nat, rem: nat, e: int)
    requires Ready(l, o, at) && Sorted(l) && (l.head.start <= at || (Left(o, at, rem) == 0 && at <= l.head.start))
    ensures Spans(Scan(l, o, at, rem).list, e) <==> Spans(l, e) || Bridges(l, at, Walk(l, at, o.End(), at, rem).stop, e)
    decreases l, 2
  {
    if Left(o, at, rem) > 0 { ScanSpans(l, o, at, rem, e); }
  }

  lemma {:induction false} BeforeSpans(l: List, o: Offer, rem: nat, hi: nat, left: nat, e: int)
    requires Insertable(l, o, rem) && Sorted(l) && l.Cons? && o.base < l.head.start && Left(o, o.base, rem) > 0
    requires hi == Min(o.base + Left(o, o.base, rem), l.head.start) && left == rem - (hi - o.base)
    ensures Spans(Cons(o.Piece(o.base, hi, false), Scan(l, o, hi, left).list), e) <==>
            Spans(l, e) || Bridges(l, o.base, Extent(l, o, rem).stop, e)
  {
    WalkGap(l, o.base, hi, o.End(), o.base, rem);
    if e < hi { NothingBelow(l, e); }
    RestSpans(l, o, hi, left, e);
  }

  /** After an insertion some block lies across `e` exactly when one did before, or both bytes are
      put in and no stored block starts between them. */
  lemma {:induction false} InsertSpans(l: List, o: Offer, rem: nat, e: int)
    requires Insertable(l, o, rem) && Sorted(l)
    ensures Spans(Insert(l, o, rem).list, e) <==> Spans(l, e) || Bridges(l, o.base, Extent(l, o, rem).stop, e)
  {
    var size := Left(o, o.base, rem);
    if size > 0 {
      if l.Nil? {
        WalkGap(l, o.base, o.base + size, o.End(), o.base, rem);
        SpansPair(o.Piece(o.base, o.base + size, true), Block([], 1, 0, false), Nil, e);
      } else if o.base < l.head.start {
        BeforeSpans(l, o, rem, Min(o.base + size, l.head.start), rem - (Min(o.base + size, l.head.start) - o.base), e);
      } else {
        ScanSpans(l, o, o.base, rem, e);
      }
    }
  }
}
