/** The reassembler with its linked list of nodes, spliced in place. */
module StreamReassemblers {
  import opened Bytes
  import opened ByteStreams
  import opened Reassembly
  import opened ReassemblySafety

  // --- Sequences of blocks as lists ---

  /** The list that starts with the blocks of `bs` and goes on with `l`. */
  function Graft(bs: seq<Block>, l: List): List { if bs == [] then l else Cons(bs[0], Graft(bs[1..], l)) }

  lemma {:induction false} GraftSplit(a: seq<Block>, b: seq<Block>, l: List)
    ensures Graft(a + b, l) == Graft(a, Graft(b, l))
    decreases |a|
  {
    if a == [] {
      assert a + b == b;
    } else {
      assert (a + b)[0] == a[0] && (a + b)[1..] == a[1..] + b;
      GraftSplit(a[1..], b, l);
    }
  }

  lemma {:induction false} GraftLoose(a: seq<Block>, l: List)
    ensures AllLoose(Graft(a, l)) <==> AllLoose(l) && forall b | b in a :: b.Loose()
    decreases |a|
  {
    if a != [] {
      GraftLoose(a[1..], l);
      assert forall b | b in a :: b == a[0] || b in a[1..];
    }
  }

  /** `o'` offers what `o` offers from index `o'.base` on. */
  predicate Rebased(o: Offer, o': Offer)
  {
    o.base <= o'.base <= o.End() && o'.data == o.data[o'.base - o.base..] && o'.eof == o.eof
  }

  lemma PieceRebase(o: Offer, o': Offer, lo: nat, hi: nat, mark: bool)
    requires Rebased(o, o') && o'.base <= lo <= hi <= o.End()
    ensures o'.End() == o.End() && o'.Piece(lo, hi, mark) == o.Piece(lo, hi, mark)
  {
    assert o'.data[lo - o'.base..hi - o'.base] == o.data[lo - o.base..hi - o.base];
  }

  /** Dropping bytes already dealt with from the front of an offer does not change the scan. */
  lemma {:induction false} ScanRebase(l: List, o: Offer, o': Offer, at: nat, rem: nat)
    requires Rebased(o, o') && Ready(l, o, at) && o'.base <= at
    ensures Scan(l, o', at, rem) == Scan(l, o, at, rem)
    decreases l, 1
  {
    if Stops(l, o, at, rem) {
      PlaceRebase(l, o, o', at, rem);
    } else if Skips(l, at) {
      ScanRebase(l.tail, o, o', at, rem);
    }
  }

  lemma {:induction false} PlaceRebase(l: List, o: Offer, o': Offer, at: nat, rem: nat)
    requires Rebased(o, o') && Stops(l, o, at, rem) && o'.base <= at
    ensures Place(l, o', at, rem) == Place(l, o, at, rem)
    decreases l, 0
  {
    var lo, hi := GapLo(l, at), GapHi(l, o, at, rem);
    HiRebase(l, o, o', at, rem);
    PieceRebase(o, o', lo, hi, l.tail.Nil?);
    if l.tail.Cons? { ScanRebase(l.tail, o, o', hi, rem - (hi - lo)); }
  }

  lemma HiRebase(l: List, o: Offer, o': Offer, at: nat, rem: nat)
    requires Rebased(o, o') && Stops(l, o, at, rem) && o'.base <= at
    ensures Stops(l, o', at, rem) && GapHi(l, o', at, rem) == GapHi(l, o, at, rem)
  {
    assert o'.End() == o.End() && Left(o', at, rem) == Left(o, at, rem);
  }

  /** The list of `bs` from position `j` on. */
  function From(bs: seq<Block>, j: nat): List
    requires j <= |bs|
  {
    Graft(bs[j..], Nil)
  }

  lemma {:induction false} FromAt(bs: seq<Block>, j: nat)
    requires j < |bs|
    ensures From(bs, j) == Cons(bs[j], From(bs, j + 1))
    ensures Graft(bs, Nil) == Graft(bs[..j], From(bs, j))
  {
    assert bs[j..][1..] == bs[j + 1..];
    assert bs == bs[..j] + bs[j..];
    GraftSplit(bs[..j], bs[j..], Nil);
  }

  lemma {:induction false} FromLoose(bs: seq<Block>, j: nat)
    requires j < |bs| && AllLoose(Graft(bs, Nil))
    ensures AllLoose(From(bs, j))
  {
    FromAt(bs, j);
    GraftLoose(bs[..j], From(bs, j));
  }

  /** The scan of the list of `bs`, started at position `j`, with the blocks before it. */
  function ScanFrom(bs: seq<Block>, j: nat, o: Offer, rem: nat): Shelf
    requires j < |bs| && Ready(From(bs, j), o, o.base)
  {
    var r := Scan(From(bs, j), o, o.base, rem);
    Shelf(Graft(bs[..j], r.list), r.rem)
  }

  lemma ScanFromSkip(bs: seq<Block>, j: nat, o: Offer, rem: nat)
    requires j < |bs| && Ready(From(bs, j), o, o.base) && Skips(From(bs, j), o.base)
    requires bs[j].end < o.base + Left(o, o.base, rem) - 1
    ensures j + 1 < |bs| && Ready(From(bs, j + 1), o, o.base)
    ensures ScanFrom(bs, j, o, rem) == ScanFrom(bs, j + 1, o, rem)
  {
    FromAt(bs, j);
    assert bs[..j + 1] == bs[..j] + [bs[j]];
    var r := Scan(From(bs, j + 1), o, o.base, rem);
    GraftSplit(bs[..j], [bs[j]], r.list);
    assert [bs[j]][1..] == [];
  }

  lemma {:induction false} ScanFromDone(bs: seq<Block>, j: nat, o: Offer, rem: nat)
    requires j < |bs| && Ready(From(bs, j), o, o.base)
    requires bs[j].end >= o.base + Left(o, o.base, rem) - 1
    ensures ScanFrom(bs, j, o, rem) == Shelf(Graft(bs, Nil), rem)
  {
    FromAt(bs, j);
  }

  /** The insertion into the list of `bs`, entered with the scan starting at position `k`. */
  function InsertFrom(bs: seq<Block>, k: nat, o: Offer, rem: nat): Shelf
    requires k <= |bs| && Insertable(Graft(bs, Nil), o, rem)
    requires k > 0 ==> k < |bs| && Ready(From(bs, k), o, o.base)
  {
    if k == 0 then Insert(Graft(bs, Nil), o, rem) else ScanFrom(bs, k, o, rem)
  }

  lemma {:induction false} InsertFromScan(bs: seq<Block>, k: nat, o: Offer, rem: nat)
    requires k < |bs| && AllLoose(Graft(bs, Nil)) && o.base >= 1
    requires k == 0 ==> bs[0].start <= o.base
    ensures Ready(From(bs, k), o, o.base)
    ensures InsertFrom(bs, k, o, rem) == ScanFrom(bs, k, o, rem)
  {
    FromLoose(bs, k);
    FromAt(bs, k);
    if k == 0 { assert bs[0..] == bs && bs[..0] == []; }
  }

  /** `s` with `x` put in behind position `j`. */
  ghost function Spliced<T>(s: seq<T>, j: nat, x: T): (r: seq<T>)
    requires j < |s|
    ensures |r| == |s| + 1
    ensures forall i: nat | i < |r| :: r[i] == if i <= j then s[i] else if i == j + 1 then x else s[i - 1]
  {
    s[..j + 1] + [x] + s[j + 1..]
  }

  lemma SplicedMembers<T>(s: seq<T>, j: nat, x: T)
    requires j < |s|
    ensures forall n | n in Spliced(s, j, x) :: n in s || n == x
  {
    var r := Spliced(s, j, x);
    forall n | n in r ensures n in s || n == x {
      var i :| 0 <= i < |r| && r[i] == n;
      assert r[i] == if i <= j then s[i] else if i == j + 1 then x else s[i - 1];
    }
  }

  /** Splicing a block in keeps every block loose. */
  lemma {:induction false} SpliceLoose(bs: seq<Block>, j: nat, b: Block)
    requires j < |bs| && AllLoose(Graft(bs, Nil)) && b.Loose()
    ensures AllLoose(Graft(Spliced(bs, j, b), Nil))
  {
    GraftLoose(bs, Nil);
    GraftLoose(Spliced(bs, j, b), Nil);
    SplicedMembers(bs, j, b);
  }

  lemma {:induction false} SplicedGraft(bs: seq<Block>, j: nat, b: Block)
    requires j < |bs|
    ensures Graft(Spliced(bs, j, b), Nil) == Graft(bs[..j], Cons(bs[j], Cons(b, From(bs, j + 1))))
  {
    var mid := [bs[j], b];
    assert Spliced(bs, j, b) == bs[..j] + (mid + bs[j + 1..]);
    GraftSplit(bs[..j], mid + bs[j + 1..], Nil);
    GraftSplit(mid, bs[j + 1..], Nil);
    assert mid[1..] == [b] && [b][1..] == [];
    assert Graft(mid[1..], From(bs, j + 1)) == Cons(b, From(bs, j + 1));
  }

  lemma {:induction false} GraftTwo(a: Block, b: Block, l: List)
    ensures Graft([a, b], l) == Cons(a, Cons(b, l))
  {
    assert [a, b][1..] == [b] && [b][1..] == [];
    assert Graft([b], l) == Cons(b, l);
  }

  lemma SplicedFrom(bs: seq<Block>, j: nat, b: Block)
    requires j < |bs|
    ensures var t := Spliced(bs, j, b);
            t[..j + 2] == bs[..j] + [bs[j], b] && From(t, j + 2) == From(bs, j + 1)
  {
    assert Spliced(bs, j, b)[j + 2..] == bs[j + 1..];
  }

  lemma {:induction false} GraftSpliced(bs: seq<Block>, j: nat, b: Block, x: List)
    requires j < |bs|
    ensures Graft(Spliced(bs, j, b)[..j + 2], x) == Graft(bs[..j], Cons(bs[j], Cons(b, x)))
  {
    SplicedFrom(bs, j, b);
    GraftSplit(bs[..j], [bs[j], b], x);
    GraftTwo(bs[j], b, x);
  }

  /** One round of filling a gap, on lists. */
  lemma ScanFills(l: List, o: Offer, at: nat, rem: nat, lo: nat, hi: nat, o': Offer)
    requires Stops(l, o, at, rem) && l.tail.Cons? && lo == GapLo(l, at) && hi == GapHi(l, o, at, rem)
    requires o' == Offer(o.data[hi - o.base..], hi, o.eof)
    ensures Ready(l.tail, o', hi)
    ensures var r := Scan(l.tail, o', hi, rem - (hi - lo));
            Scan(l, o, at, rem) == Shelf(Cons(l.head, Cons(o.Piece(lo, hi, false), r.list)), r.rem)
  {
    ScanRebase(l.tail, o, o', hi, rem - (hi - lo));
    assert Scan(l, o, at, rem) == Place(l, o, at, rem);
  }

  /** Filling the gap behind position `j` and inserting the rest behind the new block is what the
      scan does from `j` on. */
  lemma {:induction false} FillResult(bs: seq<Block>, j: nat, o: Offer, rem: nat, lo: nat, hi: nat, b: Block, o': Offer)
    requires j + 1 < |bs| && AllLoose(Graft(bs, Nil)) && Stops(From(bs, j), o, o.base, rem)
    requires lo == GapLo(From(bs, j), o.base) && hi == GapHi(From(bs, j), o, o.base, rem)
    requires b == o.Piece(lo, hi, false) && o' == Offer(o.data[hi - o.base..], hi, o.eof)
    ensures Ready(From(Spliced(bs, j, b), j + 2), o', hi)
    ensures ScanFrom(Spliced(bs, j, b), j + 2, o', rem - (hi - lo)) == ScanFrom(bs, j, o, rem)
  {
    FromAt(bs, j);
    FromAt(bs, j + 1);
    SplicedFrom(bs, j, b);
    ScanFills(From(bs, j), o, o.base, rem, lo, hi, o');
    GraftSpliced(bs, j, b, Scan(From(bs, j + 1), o', hi, rem - (hi - lo)).list);
  }

  lemma {:induction false} ScanAppends(l: List, o: Offer, at: nat, rem: nat, lo: nat, hi: nat)
    requires Stops(l, o, at, rem) && l.tail.Nil? && lo == GapLo(l, at) && hi == GapHi(l, o, at, rem)
    ensures Scan(l, o, at, rem) == Shelf(Cons(l.head, Cons(o.Piece(lo, hi, true), Nil)), rem - (hi - lo))
  {
    assert Scan(l, o, at, rem) == Place(l, o, at, rem);
  }

  /** Appending behind the last position is what the scan does there. */
  lemma {:induction false} AppendResult(bs: seq<Block>, j: nat, o: Offer, rem: nat, lo: nat, hi: nat, b: Block)
    requires j + 1 == |bs| && AllLoose(Graft(bs, Nil)) && Stops(From(bs, j), o, o.base, rem)
    requires lo == GapLo(From(bs, j), o.base) && hi == GapHi(From(bs, j), o, o.base, rem) && b == o.Piece(lo, hi, true)
    ensures ScanFrom(bs, j, o, rem) == Shelf(Graft(Spliced(bs, j, b), Nil), rem - (hi - lo))
  {
    FromAt(bs, j);
    assert bs[j + 1..] == [];
    ScanAppends(From(bs, j), o, o.base, rem, lo, hi);
    SplicedGraft(bs, j, b);
  }

  lemma GapBlock(bs: seq<Block>, j: nat, o: Offer, rem: nat, lo: nat, hi: nat, b: Block, mark: bool)
    requires j < |bs| && Stops(From(bs, j), o, o.base, rem)
    requires lo == GapLo(From(bs, j), o.base) && hi == GapHi(From(bs, j), o, o.base, rem) && b == o.Piece(lo, hi, mark)
    ensures b.Loose() && |b.data| == hi - lo <= rem
  {
  }

  /** Everything the code that fills a gap relies on. */
  lemma {:induction false} FillPlan(bs: seq<Block>, j: nat, o: Offer, rem: nat, lo: nat, hi: nat, b: Block,
        o': Offer, t: seq<Block>)
    requires j + 1 < |bs| && AllLoose(Graft(bs, Nil)) && Stops(From(bs, j), o, o.base, rem)
    requires lo == GapLo(From(bs, j), o.base) && hi == GapHi(From(bs, j), o, o.base, rem)
    requires b == NewBlock(o.data[lo - o.base..hi - o.base], lo, false)
    requires o' == Offer(o.data[hi - o.base..], hi, o.eof) && t == Spliced(bs, j, b)
    ensures |b.data| == hi - lo <= rem && b.end + 1 == hi && t[0] == bs[0]
    ensures Insertable(Graft(t, Nil), o', rem - (hi - lo)) && Ready(From(t, j + 2), o', hi)
    ensures InsertFrom(t, j + 2, o', rem - (hi - lo)) == ScanFrom(bs, j, o, rem)
  {
    PieceBlock(o, lo, hi, false);
    FillResult(bs, j, o, rem, lo, hi, b, o');
    GapBlock(bs, j, o, rem, lo, hi, b, false);
    SpliceLoose(bs, j, b);
  }

  lemma PieceBlock(o: Offer, lo: nat, hi: nat, mark: bool)
    requires o.base <= lo <= hi <= o.End()
    ensures o.Piece(lo, hi, mark) == NewBlock(o.data[lo - o.base..hi - o.base], lo, mark && hi == o.End() && o.eof)
  {
  }

  /** Everything the code that appends a node relies on. */
  lemma {:induction false} AppendPlan(bs: seq<Block>, j: nat, o: Offer, rem: nat, lo: nat, hi: nat, b: Block,
        t: seq<Block>)
    requires j + 1 == |bs| && AllLoose(Graft(bs, Nil)) && Stops(From(bs, j), o, o.base, rem)
    requires lo == GapLo(From(bs, j), o.base) && hi == GapHi(From(bs, j), o, o.base, rem)
    requires b == NewBlock(o.data[lo - o.base..hi - o.base], lo, hi == o.End() && o.eof) && t == Spliced(bs, j, b)
    ensures |b.data| == hi - lo <= rem
    ensures ScanFrom(bs, j, o, rem) == Shelf(Graft(t, Nil), rem - (hi - lo))
  {
    PieceBlock(o, lo, hi, true);
    AppendResult(bs, j, o, rem, lo, hi, b);
    GapBlock(bs, j, o, rem, lo, hi, b, true);
  }

  /** A new head and the rest inserted behind it is what the insertion does before the head. */
  lemma {:induction false} BeforeResult(bs: seq<Block>, o: Offer, rem: nat, hi: nat, b: Block, o': Offer)
    requires bs != [] && Insertable(Graft(bs, Nil), o, rem) && o.base < bs[0].start && Left(o, o.base, rem) > 0
    requires hi == Min(o.base + Left(o, o.base, rem), bs[0].start) && b == o.Piece(o.base, hi, false)
    requires o' == Offer(o.data[hi - o.base..], hi, o.eof)
    ensures Graft([b] + bs, Nil) == Cons(b, Graft(bs, Nil)) && AllLoose(Graft([b] + bs, Nil))
    ensures Ready(From([b] + bs, 1), o', hi)
    ensures ScanFrom([b] + bs, 1, o', rem - (hi - o.base)) == Insert(Graft(bs, Nil), o, rem)
  {
    var l, left := Graft(bs, Nil), rem - (hi - o.base);
    var t := [b] + bs;
    assert t[1..] == bs && t[..1] == [b] && [b][1..] == [];
    ScanRebase(l, o, o', hi, left);
    assert Graft([b], Scan(l, o, hi, left).list) == Cons(b, Scan(l, o, hi, left).list);
  }

  /** Everything the code that puts in a new head relies on. */
  lemma {:induction false} BeforePlan(bs: seq<Block>, o: Offer, rem: nat, hi: nat, b: Block, o': Offer)
    requires bs != [] && Insertable(Graft(bs, Nil), o, rem) && o.base < bs[0].start && Left(o, o.base, rem) > 0
    requires hi == Min(o.base + Left(o, o.base, rem), bs[0].start) && b == o.Piece(o.base, hi, false)
    requires o' == Offer(o.data[hi - o.base..], hi, o.eof)
    ensures var t, left := [b] + bs, rem - (hi - o.base);
            && b == NewBlock(o.data[..hi - o.base], o.base, false) && |b.data| == hi - o.base <= rem
            && Insertable(Graft(t, Nil), o', left) && Ready(From(t, 1), o', hi) && 1 <= t[0].start <= hi
            && InsertFrom(t, 1, o', left) == Insert(Graft(bs, Nil), o, rem)
  {
    BeforeResult(bs, o, rem, hi, b, o');
  }

  class Node {
    var data: seq<byte>
    var start: nat
    var end: int
    var eof: bool
    var next: Node?

    constructor (data: seq<byte>, start: nat, eof: bool)
      ensures Is(NewBlock(data, start, eof)) && next == null
    {
      this.data := data;
      this.start, this.end, this.eof, next := start, start + |data| - 1, eof, null;
    }

    ghost predicate Is(b: Block)
      reads this
    {
      data == b.data && start == b.start && end == b.end && eof == b.eof
    }
  }

  /** The node behind position `i`, null behind the last one. */
  ghost function After(nodes: seq<Node>, i: nat): Node? { if i + 1 < |nodes| then nodes[i + 1] else null }

  ghost predicate Distinct(nodes: seq<Node>) { forall i, j | 0 <= i < j < |nodes| :: nodes[i] != nodes[j] }

  lemma DistinctSpliced(nodes: seq<Node>, j: nat, x: Node)
    requires j < |nodes| && Distinct(nodes) && x !in nodes
    ensures Distinct(Spliced(nodes, j, x))
  {
    var r := Spliced(nodes, j, x);
    forall a, c | 0 <= a < c < |r| ensures r[a] != r[c] {
      var a', c' := if a <= j then a else a - 1, if c <= j then c else c - 1;
      assert nodes[a'] in nodes && nodes[c'] in nodes;
    }
  }

  ghost predicate Hold(nodes: seq<Node>, blocks: seq<Block>)
    reads nodes
  {
    |nodes| == |blocks| && forall i: nat | i < |nodes| :: nodes[i].Is(blocks[i])
  }

  ghost predicate Linked(nodes: seq<Node>)
    reads nodes
  {
    forall i: nat {:trigger nodes[i].next} {:trigger After(nodes, i)} | i < |nodes| :: nodes[i].next == After(nodes, i)
  }

  lemma HoldSpliced(nodes: seq<Node>, blocks: seq<Block>, j: nat, x: Node, b: Block)
    requires j < |nodes| && Hold(nodes, blocks) && x.Is(b)
    ensures Hold(Spliced(nodes, j, x), Spliced(blocks, j, b))
  {
  }

  lemma LinkedSpliced(nodes: seq<Node>, j: nat, x: Node)
    requires j < |nodes| && nodes[j].next == x && x.next == After(nodes, j)
    requires forall i: nat {:trigger nodes[i].next} | i < |nodes| && i != j :: nodes[i].next == After(nodes, i)
    ensures Linked(Spliced(nodes, j, x))
  {
    var r := Spliced(nodes, j, x);
    forall i: nat | i < |r| ensures r[i].next == After(r, i) {
      assert r[i] == if i <= j then nodes[i] else if i == j + 1 then x else nodes[i - 1];
    }
  }

  lemma ChainFront(nodes: seq<Node>, blocks: seq<Block>, x: Node, b: Block)
    requires Hold(nodes, blocks) && Linked(nodes) && Distinct(nodes) && x !in nodes && x.Is(b)
    requires x.next == (if nodes == [] then null else nodes[0])
    ensures Hold([x] + nodes, [b] + blocks) && Linked([x] + nodes) && Distinct([x] + nodes)
  {
    var ns := [x] + nodes;
    forall i: nat | i < |ns| ensures ns[i].next == After(ns, i) {
      if i > 0 { assert ns[i] == nodes[i - 1] && After(ns, i) == After(nodes, i - 1); }
    }
  }

  /** Subtraction of `size_t` values. */
  function Difference(a: nat, b: nat): (d: uint64)
    ensures 0 <= a - b < TWO64 ==> d == a - b
  {
    (a - b) % TWO64
  }

  class StreamReassembler {
    const output: ByteStream
    const capacity: nat
    var remainCapacity: nat
    var head: Node?
    ghost var nodes: seq<Node>
    ghost var blocks: seq<Block>

    /** `nodes` is the chain hanging off `head`, and `blocks` is what the nodes hold. */
    ghost predicate Chained()
      reads this, nodes
    {
      && head == (if nodes == [] then null else nodes[0])
      && Hold(nodes, blocks) && Linked(nodes) && Distinct(nodes)
    }

    ghost function ListOf(): List
      reads this
    {
      Graft(blocks, Nil)
    }

    /** What every method keeps. */
    ghost predicate Sound()
      reads this, output, nodes
    {
      Chained() && output.Valid() && View().Loose()
    }

    /** What holds besides until a partial drain. */
    ghost predicate Valid()
      reads this, output, nodes
    {
      Sound() && View().Valid()
    }

    ghost function View(): Reassembler
      reads this, output
      requires output.Valid()
    {
      Reassembler(output.View(), capacity, remainCapacity, ListOf())
    }

    constructor (capacity: nat)
      ensures Valid() && View() == Empty(capacity) && fresh(output) && nodes == []
    {
      output := new ByteStream(capacity);
      this.capacity, remainCapacity := capacity, capacity;
      head, nodes, blocks := null, [], [];
    }

    /** Stores a new node at the head of the chain and pays for its bytes. */
    method StoreFront(data: seq<byte>, start: nat, eof: bool, ghost b: Block)
      requires Chained() && b == NewBlock(data, start, eof) && |data| <= remainCapacity
      modifies this
      ensures Chained() && blocks == [b] + old(blocks) && remainCapacity == old(remainCapacity) - |data|
      ensures nodes != [] && nodes[1..] == old(nodes) && fresh(nodes[0])
    {
      var temp := new Node(data, start, eof);
      temp.next := head;
      ChainFront(nodes, blocks, temp, b);
      head := temp;
      nodes := [temp] + nodes;
      blocks := [b] + blocks;
      remainCapacity := remainCapacity - |data|;
    }

    /** Hangs `temp` behind `p`, the node at position `j`. */
    method LinkAfter(p: Node, temp: Node, ghost j: nat, ghost b: Block)
      requires Chained() && j < |nodes| && nodes[j] == p && temp !in nodes && temp.Is(b)
      modifies this`nodes, this`blocks, p, temp
      ensures Chained() && temp.Is(b) && temp.next == After(nodes, j + 1)
      ensures nodes == Spliced(old(nodes), j, temp) && blocks == Spliced(old(blocks), j, b)
    {
      temp.next := p.next;
      p.next := temp;
      assert forall i: nat | i < |nodes| && i != j :: nodes[i] != p && nodes[i] != temp;
      HoldSpliced(nodes, blocks, j, temp, b);
      LinkedSpliced(nodes, j, temp);
      DistinctSpliced(nodes, j, temp);
      nodes, blocks := Spliced(nodes, j, temp), Spliced(blocks, j, b);
    }

    /** Stores a new node behind `p`, the node at position `j`, and pays for its bytes. */
    method StoreAfter(p: Node, data: seq<byte>, start: nat, eof: bool, ghost j: nat, ghost b: Block)
      returns (temp: Node)
      requires Chained() && j < |nodes| && nodes[j] == p && b == NewBlock(data, start, eof) && |data| <= remainCapacity
      modifies this, nodes
      ensures Chained() && fresh(temp) && temp.Is(b) && temp.next == After(nodes, j + 1)
      ensures nodes == Spliced(old(nodes), j, temp) && blocks == Spliced(old(blocks), j, b)
      ensures remainCapacity == old(remainCapacity) - |data|
      ensures forall n | n in nodes :: n in old(nodes) || n == temp
    {
      remainCapacity := remainCapacity - |data|;
      temp := new Node(data, start, eof);
      LinkAfter(p, temp, j, b);
      SplicedMembers(old(nodes), j, temp);
    }

    /** The scan loop, from node `at` at position `k`: stops at the node behind which bytes are
        missing, or reports that all of them are already stored. */
    method ScanLoop(index: nat, size: nat, at: Node, ghost k: nat, ghost o: Offer)
      returns (p: Node, covered: bool, ghost j: nat)
      requires Chained() && AllLoose(ListOf()) && k < |nodes| && at == nodes[k]
      requires o.base == index && Ready(From(blocks, k), o, index)
      requires 0 < size == Left(o, index, remainCapacity)
      ensures k <= j < |nodes| && p == nodes[j] && Ready(From(blocks, j), o, index)
      ensures ScanFrom(blocks, k, o, remainCapacity) == ScanFrom(blocks, j, o, remainCapacity)
      ensures covered ==> ScanFrom(blocks, k, o, remainCapacity) == Shelf(ListOf(), remainCapacity)
      ensures !covered ==> Stops(From(blocks, j), o, index, remainCapacity)
    {
      p, j := at, k;
      while true
        invariant k <= j < |nodes| && p == nodes[j] && Ready(From(blocks, j), o, index)
        invariant ScanFrom(blocks, k, o, remainCapacity) == ScanFrom(blocks, j, o, remainCapacity)
        decreases |nodes| - j
      {
        FromAt(blocks, j);
        assert p.Is(blocks[j]) && p.next == After(nodes, j);
        if p.next != null {
          FromAt(blocks, j + 1);
          assert p.next.Is(blocks[j + 1]);
        } else {
          assert blocks[j + 1..] == [];
        }
        if index + size - 1 > p.end {
          if p.next != null && (p.next.start == p.end + 1 || index > p.next.start) {
            ScanFromSkip(blocks, j, o, remainCapacity);
            p := p.next;
            j := j + 1;
          } else {
            return p, false, j;
          }
        } else {
          ScanFromDone(blocks, j, o, remainCapacity);
          return p, true, j;
        }
      }
    }

    /** `insert_to_linklist`, entered at node `at`, which is at position `k`. */
    method InsertToLinklist(data: seq<byte>, index: nat, at: Node?, eof: bool, ghost k: nat, ghost goal: Shelf)
      requires Chained() && Insertable(ListOf(), Offer(data, index, eof), remainCapacity)
      requires if nodes == [] then k == 0 else k < |nodes| && at == nodes[k]
      requires k > 0 ==> 1 <= blocks[0].start <= index && Ready(From(blocks, k), Offer(data, index, eof), index)
      requires goal == InsertFrom(blocks, k, Offer(data, index, eof), remainCapacity)
      modifies this, nodes
      ensures Chained()
      ensures Shelf(ListOf(), remainCapacity) == goal
      ensures forall n | n in nodes :: n in old(nodes) || fresh(n)
      decreases if head != null && index < head.start then 1 else 0, |nodes| - k, 2
    {
      if data == [] || remainCapacity == 0 {
        assert k > 0 ==> From(blocks, k).Cons?;
        if k > 0 { FromAt(blocks, k); }
        return;
      }
      ghost var o := Offer(data, index, eof);
      var size := Min(|data|, remainCapacity);
      if head == null {
        assert blocks == [];
        StoreFront(data[..size], index, size == |data| && eof, o.Piece(index, index + size, true));
        assert [o.Piece(index, index + size, true)][1..] == [];
      } else if index < head.start {
        InsertBefore(data, index, size, eof, goal);
      } else {
        InsertFromScan(blocks, k, o, remainCapacity);
        var p, covered;
        ghost var j;
        p, covered, j := ScanLoop(index, size, at, k, o);
        if covered { return; }
        PlaceBehind(data, index, size, p, eof, j, goal);
      }
    }

    /** The data starts before the head: it gets a new head and the rest is inserted behind it. */
    method InsertBefore(data: seq<byte>, index: nat, size: nat, eof: bool, ghost goal: Shelf)
      requires Chained() && Insertable(ListOf(), Offer(data, index, eof), remainCapacity)
      requires head != null && index < head.start && 0 < size == Min(|data|, remainCapacity)
      requires goal == Insert(ListOf(), Offer(data, index, eof), remainCapacity)
      modifies this, nodes
      ensures Chained()
      ensures Shelf(ListOf(), remainCapacity) == goal
      ensures forall n | n in nodes :: n in old(nodes) || fresh(n)
      decreases 1, |nodes|, 0
    {
      ghost var o := Offer(data, index, eof);
      assert head.Is(blocks[0]);
      var fit := Min(size, head.start - index);
      ghost var b := o.Piece(index, index + fit, false);
      var rest := data[fit..];
      BeforePlan(blocks, o, remainCapacity, index + fit, b, Offer(rest, index + fit, eof));
      StoreFront(data[..fit], index, false, b);
      assert head.Is(blocks[0]) && head.next == After(nodes, 0);
      InsertToLinklist(rest, index + fit, head.next, eof, 1, goal);
    }

    /** The scan has stopped at `p`, at position `j`: the gap behind it is filled. */
    method PlaceBehind(data: seq<byte>, index: nat, size: nat, p: Node, eof: bool, ghost j: nat, ghost goal: Shelf)
      requires Chained() && AllLoose(ListOf()) && j < |nodes| && p == nodes[j] && blocks[0].start <= index
      requires 0 < size == Min(|data|, remainCapacity)
      requires Stops(From(blocks, j), Offer(data, index, eof), index, remainCapacity)
      requires goal == ScanFrom(blocks, j, Offer(data, index, eof), remainCapacity)
      modifies this, nodes
      ensures Chained()
      ensures Shelf(ListOf(), remainCapacity) == goal
      ensures forall n | n in nodes :: n in old(nodes) || fresh(n)
      decreases 0, |nodes| - j, 1
    {
      ghost var o := Offer(data, index, eof);
      FromAt(blocks, j);
      assert p.Is(blocks[j]) && p.next == After(nodes, j);
      var offset := if index > p.end then 0 else p.end + 1 - index;
      if p.next != null {
        FromAt(blocks, j + 1);
        assert p.next.Is(blocks[j + 1]);
        var fit := Min(size, |data| - offset);
        // The unsigned difference `start - max(index - 1, end) - 1` wraps around where this is false.
        if p.next.start > Max(index - 1, p.end) { fit := Min(fit, p.next.start - Max(index - 1, p.end) - 1); }
        FillGap(data, index, fit, offset, p, eof, j, o, goal);
      } else {
        var fit := Min(size, |data| - offset);
        AppendLast(data, index, fit, offset, p, eof, j, o, goal);
      }
    }

    method AppendLast(data: seq<byte>, index: nat, fit: nat, offset: nat, p: Node, eof: bool, ghost j: nat,
          ghost o: Offer, ghost goal: Shelf)
      requires Chained() && AllLoose(ListOf()) && j + 1 == |nodes| && p == nodes[j] && o == Offer(data, index, eof)
      requires Stops(From(blocks, j), o, index, remainCapacity)
      requires goal == ScanFrom(blocks, j, o, remainCapacity)
      requires index + offset == GapLo(From(blocks, j), index)
      requires index + offset + fit == GapHi(From(blocks, j), o, index, remainCapacity)
      modifies this, nodes
      ensures Chained() && Shelf(ListOf(), remainCapacity) == goal
      ensures forall n | n in nodes :: n in old(nodes) || fresh(n)
    {
      var part, mark := data[offset..offset + fit], fit + offset == |data| && eof;
      ghost var b := NewBlock(part, index + offset, mark);
      AppendPlan(blocks, j, o, remainCapacity, index + offset, index + offset + fit, b, Spliced(blocks, j, b));
      var temp := StoreAfter(p, part, index + offset, mark, j, b);
    }

    method FillGap(data: seq<byte>, index: nat, fit: nat, offset: nat, p: Node, eof: bool, ghost j: nat,
          ghost o: Offer, ghost goal: Shelf)
      requires Chained() && AllLoose(ListOf()) && j + 1 < |nodes| && p == nodes[j]
      requires blocks[0].start <= index && o == Offer(data, index, eof)
      requires Stops(From(blocks, j), o, index, remainCapacity)
      requires goal == ScanFrom(blocks, j, o, remainCapacity)
      requires index + offset == GapLo(From(blocks, j), index)
      requires index + offset + fit == GapHi(From(blocks, j), o, index, remainCapacity)
      modifies this, nodes
      ensures Chained()
      ensures Shelf(ListOf(), remainCapacity) == goal
      ensures forall n | n in nodes :: n in old(nodes) || fresh(n)
      decreases 0, |nodes| - j, 0
    {
      ghost var hi := index + offset + fit;
      var part, rest := data[offset..offset + fit], data[offset + fit..];
      ghost var b := NewBlock(part, index + offset, false);
      FillPlan(blocks, j, o, remainCapacity, index + offset, hi, b, Offer(rest, hi, eof), Spliced(blocks, j, b));
      var temp := StoreAfter(p, part, index + offset, false, j, b);
      assert head.Is(blocks[0]);
      InsertToLinklist(rest, temp.end + 1, temp.next, eof, j + 2, goal);
    }

    /** Takes the head off the chain and gives its bytes back to the capacity. */
    method PopHead()
      requires Chained() && head != null
      modifies this
      ensures Chained() && nodes == old(nodes)[1..] && blocks == old(blocks)[1..]
      ensures remainCapacity == old(remainCapacity) + |old(blocks)[0].data|
      ensures old(ListOf()) == Cons(old(blocks)[0], ListOf())
    {
      assert head.Is(blocks[0]) && head.next == After(nodes, 0);
      remainCapacity := remainCapacity + |head.data|;
      head := head.next;
      ghost var was := nodes;
      nodes, blocks := nodes[1..], blocks[1..];
      forall i: nat | i < |nodes| ensures nodes[i].next == After(nodes, i) {
        assert was[i + 1].next == After(was, i + 1);
      }
    }

    /** Writes what is new in the head, which fits, and takes the head off the chain. */
    method WriteFront()
      requires Chained() && output.Valid() && head != null && Drains(View()) && !Overflows(View())
      modifies this, output
      ensures Chained() && output.Valid() && nodes == old(nodes)[1..]
      ensures View() == WriteHead(old(View()))
    {
      assert head.Is(blocks[0]);
      var n := output.Write(Skip(head.data, output.writtenSize - head.start));
      if head.eof { output.EndInput(); }
      PopHead();
    }

    /** The partial drain of the head. */
    method SplitFront()
      requires Chained() && output.Valid() && head != null && Drains(View()) && Overflows(View())
      modifies this, output, head
      ensures Chained() && output.Valid() && nodes == old(nodes)
      ensures View() == SplitHead(old(View()))
    {
      assert head.Is(blocks[0]);
      ghost var v := View();
      var offset := output.writtenSize - head.start;
      var data := Skip(head.data, offset);
      var part := data[..output.capacity];
      var n := output.Write(part);
      data := data[output.capacity..];
      assert data == Skip(v.list.head.data, offset);
      assert output.View() == v.out.Write(part);
      RewriteFront(data, offset + |part|);
    }

    /** Gives the head new data, moves its start on, and books the distance as capacity. */
    method RewriteFront(data: seq<byte>, distance: nat)
      requires Chained() && head != null
      modifies this, head
      ensures Chained() && nodes == old(nodes) && remainCapacity == old(remainCapacity) + distance
      ensures ListOf() == var l := old(ListOf()); Cons(l.head.(data := data, start := l.head.start + distance), l.tail)
    {
      assert head.Is(blocks[0]);
      head.data := data;
      head.start := head.start + distance;
      remainCapacity := remainCapacity + distance;
      blocks := [blocks[0].(data := data, start := blocks[0].start + distance)] + blocks[1..];
      assert blocks[1..] == old(blocks)[1..];
    }

    method FetchValidData()
      requires Sound()
      modifies this, output, nodes
      ensures Sound() && View() == Drain(old(View()))
      ensures forall n | n in nodes :: n in old(nodes)
    {
      while head != null && output.capacity > 0
        invariant Sound()
        invariant Drain(View()) == old(Drain(View()))
        invariant forall n | n in nodes :: n in old(nodes)
        decreases |nodes|
      {
        assert head.Is(blocks[0]) && nodes[0] in nodes;
        if head.start > output.writtenSize {
          return;
        } else if head.end < output.writtenSize {
          PopHead();
        } else if |Skip(head.data, output.writtenSize - head.start)| > output.capacity {
          SplitFront();
          return;
        } else {
          WriteFront();
        }
      }
    }

    method PushSubstring(data: seq<byte>, index: nat, eof: bool)
      requires Sound()
      modifies this, output, nodes
      ensures Sound() && View() == Push(old(View()), data, index, eof)
      ensures forall n | n in nodes :: n in old(nodes) || fresh(n)
    {
      if index <= output.writtenSize && index + |data| < output.writtenSize { return; }
      StageIn(data, index, eof);
      assert forall i | 0 <= i < |nodes| :: nodes[i] in old(nodes) || fresh(nodes[i]);
      FetchValidData();
    }

    method InsertData(data: seq<byte>, index: nat, eof: bool)
      requires Sound() && (index == 0 ==> capacity == 0)
      modifies this, nodes
      ensures Sound() && View() == StageInsert(old(View()), data, index, eof)
      ensures forall n | n in nodes :: n in old(nodes) || fresh(n)
    {
      ghost var o := Offer(data, index, eof);
      InsertToLinklist(data, index, head, eof, 0, Insert(ListOf(), o, remainCapacity));
    }

    /** The first half of a push: writes what is next in order, stores the rest. */
    method StageIn(data: seq<byte>, index: nat, eof: bool)
      requires Sound() && !Stale(View(), data, index)
      modifies this, output, nodes
      ensures Sound() && View() == Stage(old(View()), data, index, eof)
      ensures forall n | n in nodes :: n in old(nodes) || fresh(n)
    {
      if index <= output.writtenSize {
        var tail := Skip(data, output.writtenSize - index);
        if Min(|tail|, output.capacity) >= |tail| {
          var n := output.Write(tail);
          if eof { output.EndInput(); }
        } else {
          StageRest(tail, eof);
        }
      } else {
        InsertData(data, index, eof);
      }
    }

    method StageRest(tail: seq<byte>, eof: bool)
      requires Sound() && |tail| > View().out.Remaining()
      modifies this, output, nodes
      ensures Sound() && View() == StageSplit(old(View()), tail, eof)
      ensures forall n | n in nodes :: n in old(nodes) || fresh(n)
    {
      var size := output.capacity;
      ghost var v := View();
      var n := output.Write(tail[..size]);
      assert View() == v.(out := v.out.Write(tail[..size]));
      InsertData(Skip(tail, size), output.writtenSize, eof);
    }

    /** 64 bits wide: past a partial drain there can be more capacity left than there was. */
    method UnassembledBytes() returns (n: uint64)
      requires Sound()
      ensures n == Difference(capacity, remainCapacity)
      ensures Valid() && capacity < TWO64 ==> n == |Keys(ListOf())|
    {
      n := Difference(capacity, remainCapacity);
      if View().Valid() { UnassembledExact(View()); }
    }
  }
}
