/** The stream reassembler as a value: the output stream, the capacity left for out-of-order bytes
    and the sorted list of stored blocks. `Push`, `Insert` and `Drain` follow the code branch by
    branch; the class in `StreamReassemblers` is proved equal to them. */
module Reassembly {
  import opened Bytes
  import opened ByteStreams

  /** One list node. `end` is the inclusive last index, `start - 1` for an empty node. */
  datatype Block = Block(data: seq<byte>, start: nat, end: int, eof: bool)
  {
    predicate Valid() { start >= 1 && end == start + |data| - 1 && (eof ==> data != []) }

    /** What is left of `Valid` after a partial drain: the data covers `start..end`, and maybe more. */
    predicate Loose() { start >= 1 && end >= 0 && |data| >= end - start + 1 }

    predicate Has(i: int) { start <= i < start + |data| }
  }

  function NewBlock(data: seq<byte>, start: nat, eof: bool): Block
  {
    Block(data, start, start + |data| - 1, eof)
  }

  datatype List = Nil | Cons(head: Block, tail: List)

  /** No order, but blocks that can be read from `start` to `end`. */
  predicate AllLoose(l: List) { l.Cons? ==> l.head.Loose() && AllLoose(l.tail) }

  /** Well-formed blocks in increasing order, without overlap (empty blocks are allowed). */
  predicate Sorted(l: List): (s: bool)
    ensures s ==> AllLoose(l)
  {
    l.Cons? ==> l.head.Valid() && (l.tail.Cons? ==> l.head.end < l.tail.head.start) && Sorted(l.tail)
  }

  /** The list read as a partial map from stream index to byte. */
  function At(l: List, i: int): Option<byte>
  {
    match l
    case Nil => None
    case Cons(b, rest) => if b.Has(i) then Some(b.data[i - b.start]) else At(rest, i)
  }

  function Size(l: List): nat { if l.Nil? then 0 else |l.head.data| + Size(l.tail) }

  predicate In(b: Block, l: List) { l.Cons? && (b == l.head || In(b, l.tail)) }

  /** A list together with the capacity left for it. */
  datatype Shelf = Shelf(list: List, rem: nat)

  /** A substring on offer: its bytes, the index of the first one, and whether it ends the stream. */
  datatype Offer = Offer(data: seq<byte>, base: nat, eof: bool)
  {
    function End(): nat { base + |data| }

    /** The block made of the bytes with index in `[lo, hi)`; the last piece inherits the eof mark. */
    function Piece(lo: nat, hi: nat, mark: bool): Block
      requires base <= lo <= hi <= End()
    {
      Block(data[lo - base..hi - base], lo, hi - 1, mark && hi == End() && eof)
    }

    function At(i: int): Option<byte> { if base <= i < End() then Some(data[i - base]) else None }
  }

  /** The scan moves on to the next block: it touches the first one, or starts before `at`. */
  predicate Skips(l: List, at: nat)
    requires l.Cons?
  {
    l.tail.Cons? && (l.tail.head.start == l.head.end + 1 || at > l.tail.head.start)
  }

  predicate Ready(l: List, o: Offer, at: nat) { l.Cons? && AllLoose(l) && 1 <= at && o.base <= at <= o.End() }

  /** How many bytes are left to place from `at` on, as far as the capacity goes. */
  function Left(o: Offer, at: nat, rem: nat): nat
    requires at <= o.End()
  {
    Min(o.End() - at, rem)
  }

  /** The scan has stopped at the first block of `l`, with bytes left over behind it. */
  predicate Stops(l: List, o: Offer, at: nat, rem: nat)
  {
    Ready(l, o, at) && Left(o, at, rem) > 0 && l.head.end < at + Left(o, at, rem) - 1 && !Skips(l, at)
  }

  /** The scan loop of the insertion and everything after it, started at the first block of `l`,
      for the bytes of the offer from index `at` on. */
  function Scan(l: List, o: Offer, at: nat, rem: nat): (r: Shelf)
    requires Ready(l, o, at)
    ensures AllLoose(r.list) && r.rem <= rem
    decreases l, 1
  {
    if Left(o, at, rem) == 0 || at + Left(o, at, rem) - 1 <= l.head.end then Shelf(l, rem)
    else if Skips(l, at) then
      var r := Scan(l.tail, o, at, rem);
      Shelf(Cons(l.head, r.list), r.rem)
    else
      Place(l, o, at, rem)
  }

  /** The indices stored behind the first block: from `lo` up to `hi`. */
  function GapLo(l: List, at: nat): nat
    requires l.Cons?
  {
    Max(at, l.head.end + 1)
  }

  /** Up to the next block; if that starts before `lo`, the code's unsigned difference wraps around
      and is no bound. */
  function GapHi(l: List, o: Offer, at: nat, rem: nat): (hi: nat)
    requires Stops(l, o, at, rem)
    ensures GapLo(l, at) <= hi <= o.End() && hi - GapLo(l, at) <= rem
    ensures l.tail.Cons? && Sorted(l) ==> hi <= l.tail.head.start
  {
    var lo := GapLo(l, at);
    var hi := Min(lo + Left(o, at, rem), o.End());
    if l.tail.Cons? && lo <= l.tail.head.start then Min(hi, l.tail.head.start) else hi
  }

  /** What the insertion does where the scan stopped; behind a filled gap it starts over. */
  function Place(l: List, o: Offer, at: nat, rem: nat): (r: Shelf)
    requires Stops(l, o, at, rem)
    ensures AllLoose(r.list) && r.rem <= rem
    decreases l, 0
  {
    var lo, hi := GapLo(l, at), GapHi(l, o, at, rem);
    if l.tail.Nil? then
      Shelf(Cons(l.head, Cons(o.Piece(lo, hi, true), Nil)), rem - (hi - lo))
    else
      var r := Scan(l.tail, o, hi, rem - (hi - lo));
      Shelf(Cons(l.head, Cons(o.Piece(lo, hi, false), r.list)), r.rem)
  }

  predicate Insertable(l: List, o: Offer, rem: nat) { AllLoose(l) && (o.data != [] && rem > 0 ==> o.base >= 1) }

  function Insert(l: List, o: Offer, rem: nat): (r: Shelf)
    requires Insertable(l, o, rem)
    ensures AllLoose(r.list) && r.rem <= rem
  {
    var size := Left(o, o.base, rem);
    if size == 0 then Shelf(l, rem)
    else if l.Nil? then Shelf(Cons(o.Piece(o.base, o.base + size, true), Nil), rem - size)
    else if o.base < l.head.start then
      var hi := Min(o.base + size, l.head.start);
      var r := Scan(l, o, hi, rem - (hi - o.base));
      Shelf(Cons(o.Piece(o.base, hi, false), r.list), r.rem)
    else
      Scan(l, o, o.base, rem)
  }

  // --- The list stays sorted and the account of capacity exact ---

  /** Sorted, still led by the same block, and every byte stored has been paid for. */
  predicate Shaped(l: List, rem: nat, r: Shelf)
    requires l.Cons?
  {
    r.list.Cons? && r.list.head == l.head && Sorted(r.list) && r.rem <= rem && Size(r.list) + r.rem == Size(l) + rem
  }

  lemma {:induction false} ScanShape(l: List, o: Offer, at: nat, rem: nat)
    requires Ready(l, o, at) && Sorted(l)
    ensures Shaped(l, rem, Scan(l, o, at, rem))
    decreases l, 1
  {
    if Stops(l, o, at, rem) {
      PlaceShape(l, o, at, rem);
    } else if Skips(l, at) {
      ScanShape(l.tail, o, at, rem);
    }
  }

  lemma {:induction false} PlaceShape(l: List, o: Offer, at: nat, rem: nat)
    requires Stops(l, o, at, rem) && Sorted(l)
    ensures Shaped(l, rem, Place(l, o, at, rem))
    decreases l, 0
  {
    if l.tail.Cons? {
      var lo, hi := GapLo(l, at), GapHi(l, o, at, rem);
      ScanShape(l.tail, o, hi, rem - (hi - lo));
    }
  }

  lemma {:induction false} InsertShape(l: List, o: Offer, rem: nat)
    requires Insertable(l, o, rem) && Sorted(l)
    ensures var r := Insert(l, o, rem);
            Sorted(r.list) && r.rem <= rem && Size(r.list) + r.rem == Size(l) + rem
  {
    var size := Left(o, o.base, rem);
    if size > 0 && l.Cons? {
      var hi := if o.base < l.head.start then Min(o.base + size, l.head.start) else o.base;
      ScanShape(l, o, hi, rem - (hi - o.base));
    }
  }

  // --- The list as a map from index to byte ---

  /** A byte that was there stays, and one that was not can only be the one offered. */
  ghost predicate Kept(before: Option<byte>, now: Option<byte>, offered: Option<byte>)
  {
    if before.Some? then now == before else now.None? || now == offered
  }

  lemma {:induction l} AtBelow(l: List, i: int)
    requires Sorted(l) && l.Cons? && i < l.head.start
    ensures At(l, i) == None
  {
  }

  lemma {:induction false} ScanAt(l: List, o: Offer, at: nat, rem: nat, i: int)
    requires Ready(l, o, at) && Sorted(l)
    ensures Kept(At(l, i), At(Scan(l, o, at, rem).list, i), o.At(i))
    decreases l, 1
  {
    if Stops(l, o, at, rem) {
      PlaceAt(l, o, at, rem, i);
    } else if Skips(l, at) {
      ScanAt(l.tail, o, at, rem, i);
    }
  }

  lemma {:induction false} PlaceAt(l: List, o: Offer, at: nat, rem: nat, i: int)
    requires Stops(l, o, at, rem) && Sorted(l)
    ensures Kept(At(l, i), At(Place(l, o, at, rem).list, i), o.At(i))
    decreases l, 0
  {
    var lo, hi := GapLo(l, at), GapHi(l, o, at, rem);
    if l.tail.Nil? {
      AtPair(l.head, o.Piece(lo, hi, true), Nil, i);
    } else {
      AtPair(l.head, o.Piece(lo, hi, false), Scan(l.tail, o, hi, rem - (hi - lo)).list, i);
      ScanAt(l.tail, o, hi, rem - (hi - lo), i);
      if i < hi { AtBelow(l.tail, i); }
    }
  }

  lemma {:induction false} AtPair(h: Block, t: Block, rest: List, i: int)
    ensures At(Cons(h, Cons(t, rest)), i) ==
            if h.Has(i) then Some(h.data[i - h.start])
            else if t.Has(i) then Some(t.data[i - t.start]) else At(rest, i)
  {
    assert At(Cons(t, rest), i) == if t.Has(i) then Some(t.data[i - t.start]) else At(rest, i);
  }

  lemma {:induction false} InsertKeeps(l: List, o: Offer, rem: nat, i: int)
    requires Insertable(l, o, rem) && Sorted(l)
    ensures Kept(At(l, i), At(Insert(l, o, rem).list, i), o.At(i))
  {
    var size := Left(o, o.base, rem);
    if size > 0 && l.Cons? {
      if i < l.head.start { AtBelow(l, i); }
      var hi := if o.base < l.head.start then Min(o.base + size, l.head.start) else o.base;
      ScanAt(l, o, hi, rem - (hi - o.base), i);
    }
  }

  // --- Every block is an old one or a piece of the offer ---

  ghost predicate PieceOf(b: Block, o: Offer)
  {
    && o.base <= b.start < o.End() && b.start + |b.data| <= o.End()
    && b.data == o.data[b.start - o.base..b.start + |b.data| - o.base]
    && (b.eof ==> o.eof && b.start + |b.data| == o.End())
  }

  lemma {:induction false} ScanIn(l: List, o: Offer, at: nat, rem: nat, b: Block)
    requires Ready(l, o, at)
    ensures In(b, Scan(l, o, at, rem).list) ==> In(b, l) || PieceOf(b, o)
    decreases l, 1
  {
    if Stops(l, o, at, rem) {
      PlaceIn(l, o, at, rem, b);
    } else if Skips(l, at) {
      ScanIn(l.tail, o, at, rem, b);
    }
  }

  lemma {:induction false} InPair(b: Block, h: Block, t: Block, rest: List)
    ensures In(b, Cons(h, Cons(t, rest))) <==> b == h || b == t || In(b, rest)
  {
    assert In(b, Cons(t, rest)) <==> b == t || In(b, rest);
  }

  lemma {:induction false} PlaceIn(l: List, o: Offer, at: nat, rem: nat, b: Block)
    requires Stops(l, o, at, rem)
    ensures In(b, Place(l, o, at, rem).list) ==> In(b, l) || PieceOf(b, o)
    decreases l, 0
  {
    var lo, hi := GapLo(l, at), GapHi(l, o, at, rem);
    if l.tail.Nil? {
      InPair(b, l.head, o.Piece(lo, hi, true), Nil);
    } else {
      ScanIn(l.tail, o, hi, rem - (hi - lo), b);
      InPair(b, l.head, o.Piece(lo, hi, false), Scan(l.tail, o, hi, rem - (hi - lo)).list);
    }
  }

  lemma {:induction false} InsertIn(l: List, o: Offer, rem: nat, b: Block)
    requires Insertable(l, o, rem)
    ensures In(b, Insert(l, o, rem).list) ==> In(b, l) || PieceOf(b, o)
  {
    var size := Left(o, o.base, rem);
    if size > 0 && l.Cons? {
      var hi := if o.base < l.head.start then Min(o.base + size, l.head.start) else o.base;
      ScanIn(l, o, hi, rem - (hi - o.base), b);
    }
  }

  // --- The reassembler ---

  datatype Reassembler = Reassembler(out: Stream, capacity: nat, rem: nat, list: List)
  {
    predicate Valid()
    {
      && out.Valid() && out.max == capacity
      && Sorted(list)
      && rem + Size(list) == capacity
    }

    /** What every push keeps, a partial drain included. */
    predicate Loose() { out.Valid() && out.max == capacity && AllLoose(list) && (capacity == 0 ==> rem == 0) }

    function Written(): nat { |out.log| }

    /** One past the last index a push may reach: the window, or one probe byte when it is shut. */
    function Edge(): nat { Max(out.Edge(), |out.log| + 1) }

    predicate Holds(i: int) { 0 <= i < |out.log| || At(list, i).Some? }
  }

  function Empty(capacity: nat): Reassembler { Reassembler(Fresh(capacity), capacity, capacity, Nil) }

  /** Drops the first block, which lies below what has been written. */
  function DropHead(r: Reassembler): Reassembler
    requires r.list.Cons?
  {
    r.(rem := r.rem + |r.list.head.data|, list := r.list.tail)
  }

  /** Writes what is new in the first block and drops it. */
  function WriteHead(r: Reassembler): Reassembler
    requires Drains(r)
  {
    var b := r.list.head;
    var out := r.out.Write(Skip(b.data, r.Written() - b.start));
    r.(out := if b.eof then out.EndInput() else out, rem := r.rem + |b.data|, list := r.list.tail)
  }

  /** The partial drain: fills the output, moves the start of the block, and keeps in the block
      the very bytes it has just written. */
  function SplitHead(r: Reassembler): Reassembler
    requires Drains(r) && Overflows(r)
  {
    var b := r.list.head;
    var n := r.out.Remaining();
    var offset := r.Written() - b.start;
    var tail := Skip(b.data, offset);
    r.(out := r.out.Write(tail[..n]), rem := r.rem + offset + n,
       list := Cons(b.(data := tail, start := b.start + offset + n), r.list.tail))
  }

  /** The first block holds the next byte of the stream and there is room for it. */
  predicate Drains(r: Reassembler)
  {
    && r.out.Valid() && r.out.Remaining() > 0
    && r.list.Cons? && r.list.head.Loose() && r.list.head.start <= r.Written() <= r.list.head.end
  }

  /** What is new in the first block is more than the output has room for. */
  predicate Overflows(r: Reassembler)
    requires Drains(r)
  {
    |r.list.head.data| - (r.Written() - r.list.head.start) > r.out.Remaining()
  }

  function Drain(r: Reassembler): (r': Reassembler)
    requires r.Loose()
    ensures r'.Loose() && r'.capacity == r.capacity
    decreases r.list
  {
    if r.list.Nil? || r.out.Remaining() == 0 || r.list.head.start > r.Written() then r
    else if r.list.head.end < r.Written() then Drain(DropHead(r))
    else if Overflows(r) then SplitHead(r)
    else Drain(WriteHead(r))
  }

  /** The substring lies entirely below what has been written: a push ignores it. */
  predicate Stale(r: Reassembler, data: seq<byte>, index: nat) { index + |data| < r.Written() }

  /** A push up to, but not including, the drain. */
  function Stage(r: Reassembler, data: seq<byte>, index: nat, eof: bool): (r': Reassembler)
    requires r.Loose() && !Stale(r, data, index)
    ensures r'.Loose() && r'.capacity == r.capacity && r'.out.Edge() == r.out.Edge() && r.Written() <= r'.Written()
  {
    if index <= r.Written() then
      var tail := Skip(data, r.Written() - index);
      if |tail| <= r.out.Remaining() then StageWrite(r, tail, eof) else StageSplit(r, tail, eof)
    else
      StageInsert(r, data, index, eof)
  }

  function StageWrite(r: Reassembler, tail: seq<byte>, eof: bool): (r': Reassembler)
    requires r.Loose()
    ensures r'.Loose() && r'.capacity == r.capacity && r'.out.Edge() == r.out.Edge() && r.Written() <= r'.Written()
  {
    var out := r.out.Write(tail);
    r.(out := if eof then out.EndInput() else out)
  }

  function StageSplit(r: Reassembler, tail: seq<byte>, eof: bool): (r': Reassembler)
    requires r.Loose() && |tail| > r.out.Remaining()
    ensures r'.Loose() && r'.capacity == r.capacity && r'.out.Edge() == r.out.Edge() && r.Written() <= r'.Written()
  {
    var n := r.out.Remaining();
    StageInsert(r.(out := r.out.Write(tail[..n])), Skip(tail, n), r.Written() + n, eof)
  }

  function StageInsert(r: Reassembler, data: seq<byte>, index: nat, eof: bool): (r': Reassembler)
    requires r.Loose() && (index == 0 ==> r.capacity == 0)
    ensures r'.Loose() && r'.capacity == r.capacity && r'.out.Edge() == r.out.Edge() && r.Written() <= r'.Written()
  {
    var s := Insert(r.list, Offer(data, index, eof), r.rem);
    r.(list := s.list, rem := s.rem)
  }

  lemma StageValid(r: Reassembler, data: seq<byte>, index: nat, eof: bool)
    requires r.Valid() && !Stale(r, data, index)
    ensures Stage(r, data, index, eof).Valid()
  {
    if index <= r.Written() {
      var tail := Skip(data, r.Written() - index);
      var n := r.out.Remaining();
      if |tail| > n { InsertShape(r.list, Offer(Skip(tail, n), r.Written() + n, eof), r.rem); }
    } else {
      InsertShape(r.list, Offer(data, index, eof), r.rem);
    }
  }

  function Push(r: Reassembler, data: seq<byte>, index: nat, eof: bool): (r': Reassembler)
    requires r.Loose()
    ensures r'.Loose() && r'.capacity == r.capacity
  {
    if Stale(r, data, index) then r else Drain(Stage(r, data, index, eof))
  }
}
