/** The flow-controlled in-memory byte stream. */
module ByteStreams {
  import opened Bytes

  /** A byte stream as a value: everything ever written, how much of it has been read, the fixed
      capacity and the two flags. What is buffered is derived. */
  datatype Stream = Stream(log: seq<byte>, read: nat, max: nat, ended: bool, error: bool)
  {
    predicate Valid() { read <= |log| <= read + max }

    function Buffered(): seq<byte>
      requires Valid()
    {
      log[read..]
    }

    function Remaining(): nat
      requires Valid()
    {
      max - (|log| - read)
    }

    /** Index one past the last byte the stream can hold right now. */
    function Edge(): nat { read + max }

    predicate Eof() { ended && read == |log| }

    function Write(data: seq<byte>): (s: Stream)
      requires Valid()
      ensures s.Valid() && log <= s.log && s.read == read && s.max == max
    {
      this.(log := log + data[..Min(Remaining(), |data|)])
    }

    function Peek(len: nat): (d: seq<byte>)
      requires Valid()
      ensures |d| == Min(len, |log| - read) && d == log[read..read + |d|]
    {
      Buffered()[..Min(len, |Buffered()|)]
    }

    function Pop(len: nat): (s: Stream)
      requires Valid()
      ensures s.Valid() && s.log == log && s.max == max && read <= s.read
    {
      this.(read := read + Min(len, |log| - read))
    }

    function EndInput(): Stream { this.(ended := true) }

    function SetError(): Stream { this.(error := true) }
  }

  function Fresh(capacity: nat): Stream { Stream([], 0, capacity, false, false) }

  /** What an application can do to a stream. */
  datatype StreamOp = Put(data: seq<byte>) | Get(len: nat) | Close | Fail

  function Apply(s: Stream, op: StreamOp): (t: Stream)
    requires s.Valid()
    ensures t.Valid()
  {
    match op
    case Put(data) => s.Write(data)
    case Get(len) => s.Pop(len)
    case Close => s.EndInput()
    case Fail => s.SetError()
  }

  function Run(s: Stream, ops: seq<StreamOp>): (t: Stream)
    requires s.Valid()
    ensures t.Valid()
    decreases |ops|
  {
    if ops == [] then s else Run(Apply(s, ops[0]), ops[1..])
  }

  /** The bytes one operation hands to the reader. */
  function Given(s: Stream, op: StreamOp): seq<byte>
    requires s.Valid()
  {
    if op.Get? then s.Peek(op.len) else []
  }

  /** The bytes one operation accepts from the writer. */
  function Taken(s: Stream, op: StreamOp): seq<byte>
    requires s.Valid()
  {
    if op.Put? then op.data[..Min(s.Remaining(), |op.data|)] else []
  }

  function Delivered(s: Stream, ops: seq<StreamOp>): seq<byte>
    requires s.Valid()
    decreases |ops|
  {
    if ops == [] then [] else Given(s, ops[0]) + Delivered(Apply(s, ops[0]), ops[1..])
  }

  function Accepted(s: Stream, ops: seq<StreamOp>): seq<byte>
    requires s.Valid()
    decreases |ops|
  {
    if ops == [] then [] else Taken(s, ops[0]) + Accepted(Apply(s, ops[0]), ops[1..])
  }

  lemma FifoStep(s: Stream, op: StreamOp)
    requires s.Valid()
    ensures s.Buffered() + Taken(s, op) == Given(s, op) + Apply(s, op).Buffered()
  {
  }

  lemma FifoChain(b: seq<byte>, a1: seq<byte>, d1: seq<byte>, m: seq<byte>, a2: seq<byte>, d2: seq<byte>, e: seq<byte>)
    requires b + a1 == d1 + m && m + a2 == d2 + e
    ensures b + (a1 + a2) == (d1 + d2) + e
  {
    calc {
      b + (a1 + a2);
      (b + a1) + a2;
      d1 + (m + a2);
      (d1 + d2) + e;
    }
  }

  /** First in, first out, nothing lost: over every run, what was buffered followed by what was
      accepted is what was delivered followed by what is still buffered. */
  lemma {:induction false} FirstInFirstOut(s: Stream, ops: seq<StreamOp>)
    requires s.Valid()
    ensures s.Buffered() + Accepted(s, ops) == Delivered(s, ops) + Run(s, ops).Buffered()
    ensures |Run(s, ops).Buffered()| <= s.max
    decreases |ops|
  {
    if ops != [] {
      var t := Apply(s, ops[0]);
      FifoStep(s, ops[0]);
      FirstInFirstOut(t, ops[1..]);
      FifoChain(s.Buffered(), Taken(s, ops[0]), Given(s, ops[0]), t.Buffered(),
                Accepted(t, ops[1..]), Delivered(t, ops[1..]), Run(s, ops).Buffered());
    }
  }

  class ByteStream {
    var que: seq<byte>
    var capacity: nat
    const maximum: nat
    var writtenSize: nat
    var readSize: nat
    var error: bool
    var end: bool
    ghost var log: seq<byte>

    ghost predicate Valid()
      reads this
    {
      && readSize <= |log| == writtenSize
      && que == log[readSize..]
      && capacity + |que| == maximum
    }

    ghost function View(): (s: Stream)
      reads this
      requires Valid()
      ensures s.Valid()
    {
      Stream(log, readSize, maximum, end, error)
    }

    constructor (capacity: nat)
      ensures Valid() && View() == Fresh(capacity)
    {
      que, log := [], [];
      this.capacity, maximum := capacity, capacity;
      writtenSize, readSize := 0, 0;
      error, end := false, false;
    }

    method Write(data: seq<byte>) returns (n: nat)
      requires Valid()
      modifies this
      ensures Valid() && View() == old(View()).Write(data)
      ensures n == Min(old(View()).Remaining(), |data|) == |log| - |old(log)|
    {
      n := Min(capacity, |data|);
      var i := 0;
      while i < n
        invariant 0 <= i <= n
        invariant que == old(que) + data[..i]
        invariant unchanged(`capacity) && unchanged(`writtenSize) && unchanged(`readSize)
        invariant unchanged(`error) && unchanged(`end) && unchanged(`log)
      {
        que := que + [data[i]];
        i := i + 1;
      }
      capacity := capacity - n;
      writtenSize := writtenSize + n;
      log := log + data[..n];
    }

    method PeekOutput(len: nat) returns (d: seq<byte>)
      requires Valid()
      ensures d == View().Peek(len)
    {
      d := que[..Min(len, |que|)];
    }

    method PopOutput(len: nat)
      requires Valid()
      modifies this
      ensures Valid() && View() == old(View()).Pop(len)
    {
      var n := Min(len, |que|);
      var i := 0;
      while i < n
        invariant 0 <= i <= n
        invariant que == old(que)[i..]
        invariant unchanged(`capacity) && unchanged(`writtenSize) && unchanged(`readSize)
        invariant unchanged(`error) && unchanged(`end) && unchanged(`log)
      {
        que := que[1..];
        i := i + 1;
      }
      capacity := capacity + n;
      readSize := readSize + n;
    }

    method Read(len: nat) returns (d: seq<byte>)
      requires Valid()
      modifies this
      ensures Valid() && View() == old(View()).Pop(len) && d == old(View()).Peek(len)
    {
      d := PeekOutput(len);
      PopOutput(len);
    }

    method EndInput()
      requires Valid()
      modifies this
      ensures Valid() && View() == old(View()).EndInput()
    {
      end := true;
    }

    method SetError()
      requires Valid()
      modifies this
      ensures Valid() && View() == old(View()).SetError()
    {
      error := true;
    }

    /** The three accessors the code derives from its counters agree with the abstract stream. */
    method Counters() returns (empty: bool, eof: bool, remaining: nat)
      requires Valid()
      ensures empty <==> View().Buffered() == []
      ensures eof <==> View().Eof()
      ensures remaining == View().Remaining()
    {
      empty := capacity == maximum;
      eof := end && readSize == writtenSize;
      remaining := capacity;
    }
  }
}
