/** Big-endian integers, and the parser with its sticky error. */
module Parsing {
  import opened Bytes

  datatype ParseResult =
    | NoError | BadChecksum | PacketTooShort | WrongIPVersion | HeaderTooShort | TruncatedPacket | Unsupported

  function BigEndian(data: seq<byte>): nat
  {
    if data == [] then 0 else BigEndian(data[..|data| - 1]) * 0x100 + data[|data| - 1]
  }

  function Digits(val: nat, len: nat): (d: seq<byte>)
    ensures |d| == len
  {
    if len == 0 then [] else Digits(val / 0x100, len - 1) + [val % 0x100]
  }

  function Pow256(n: nat): nat { if n == 0 then 1 else 0x100 * Pow256(n - 1) }

  /** Reading back what was written gives the number, for every number that fits. */
  lemma {:induction false} DigitsRead(val: nat, len: nat)
    requires val < Pow256(len)
    ensures BigEndian(Digits(val, len)) == val
  {
    if len > 0 {
      DigitsRead(val / 0x100, len - 1);
      var d := Digits(val, len);
      assert d[..|d| - 1] == Digits(val / 0x100, len - 1);
    }
  }

  /** Writing back what was read gives the bytes. */
  lemma {:induction false} DigitsWritten(data: seq<byte>)
    ensures BigEndian(data) < Pow256(|data|) && Digits(BigEndian(data), |data|) == data
    decreases |data|
  {
    if data != [] {
      var front := data[..|data| - 1];
      DigitsWritten(front);
      assert data == front + [data[|data| - 1]];
    }
  }

  /** A buffer, how far it has been consumed, and the error state, which sticks. */
  datatype Parser = Parser(data: seq<byte>, at: nat, error: ParseResult)
  {
    predicate Valid() { at <= |data| }

    function Rest(): seq<byte>
      requires Valid()
    {
      data[at..]
    }

    function CheckSize(n: nat): Parser
      requires Valid()
    {
      if n > |data| - at then this.(error := PacketTooShort) else this
    }

    /** The integer in the next `n` bytes, zero after an error. */
    function Int(n: nat): (v: nat)
      requires Valid()
      ensures v < Pow256(n)
    {
      PowPositive(n);
      if CheckSize(n).error == NoError then
        DigitsWritten(data[at..at + n]);
        BigEndian(data[at..at + n])
      else 0
    }

    function Skip(n: nat): (p: Parser)
      requires Valid()
      ensures p.Valid()
    {
      var p := CheckSize(n);
      if p.error == NoError then p.(at := at + n) else p
    }
  }

  class NetParser {
    const data: seq<byte>
    var at: nat
    var error: ParseResult

    ghost predicate Valid()
      reads this
    {
      at <= |data|
    }

    ghost function View(): (p: Parser)
      reads this
      requires Valid()
      ensures p.Valid()
    {
      Parser(data, at, error)
    }

    constructor (data: seq<byte>)
      ensures Valid() && View() == Parser(data, 0, NoError)
    {
      this.data, at, error := data, 0, NoError;
    }

    method CheckSize(size: nat)
      requires Valid()
      modifies this
      ensures Valid() && View() == old(View()).CheckSize(size)
    {
      if size > |data| - at { error := PacketTooShort; }
    }

    /** Used for widths 1, 2 and 4, where the shifted accumulator fits its type. */
    method ParseInt(len: nat) returns (ret: nat)
      requires Valid()
      modifies this
      ensures Valid() && View() == old(View()).Skip(len) && ret == old(View()).Int(len) < Pow256(len)
    {
      CheckSize(len);
      ret := 0;
      if error != NoError {
        PowPositive(len);
        return;
      }
      ret := Accumulate(data[at..at + len]);
      at := at + len;
    }

    static method Accumulate(digits: seq<byte>) returns (ret: nat)
      ensures ret == BigEndian(digits) < Pow256(|digits|)
    {
      ret := 0;
      var i := 0;
      while i < |digits|
        invariant 0 <= i <= |digits| && ret == BigEndian(digits[..i])
      {
        assert digits[..i + 1][..i] == digits[..i];
        ret := ret * 0x100;
        ret := ret + digits[i];
        i := i + 1;
      }
      assert digits[..i] == digits;
      DigitsWritten(digits);
    }

    method RemovePrefix(n: nat)
      requires Valid()
      modifies this
      ensures Valid() && View() == old(View()).Skip(n)
    {
      CheckSize(n);
      if error == NoError { at := at + n; }
    }
  }

  lemma PowPositive(n: nat)
    ensures Pow256(n) >= 1
  {
  }

  /** `_unparse_int`: appends the bytes of `val`, most significant first. */
  method UnparseInt(s: seq<byte>, val: nat, len: nat) returns (r: seq<byte>)
    requires val < Pow256(len)
    ensures r == s + Digits(val, len)
  {
    r := s;
    var i := 0;
    while i < len
      invariant 0 <= i <= len
      invariant r == s + Digits(val, len)[..i]
    {
      DigitAt(val, len, i);
      r := r + [val / Pow256(len - i - 1) % 0x100];
      assert Digits(val, len)[..i + 1] == Digits(val, len)[..i] + [Digits(val, len)[i]];
      i := i + 1;
    }
  }

  /** The shift-and-mask form of a digit. */
  lemma {:induction false} DigitAt(val: nat, len: nat, i: nat)
    requires i < len
    ensures Pow256(len - i - 1) >= 1 && Digits(val, len)[i] == val / Pow256(len - i - 1) % 0x100
    decreases len
  {
    PowPositive(len - i - 1);
    if i < len - 1 {
      PowPositive(len - i - 2);
      DigitAt(val / 0x100, len - 1, i);
      DivTwice(val, Pow256(len - i - 2));
    }
  }

  lemma DivTwice(val: nat, p: nat)
    requires p >= 1
    ensures val / 0x100 / p == val / (0x100 * p)
  {
    var q := val / 0x100;
    var a, r := q / p, q % p;
    assert q == p * a + r;
    assert val == 0x100 * q + val % 0x100;
    assert val == (0x100 * p) * a + (0x100 * r + val % 0x100);
    DivUnique(val, 0x100 * p, a, 0x100 * r + val % 0x100);
  }

  lemma DivUnique(x: nat, d: nat, q: nat, r: nat)
    requires x == d * q + r && r < d
    ensures x / d == q
  {
    assert x == d * (x / d) + x % d;
    MulMono(d, x / d, q);
    MulMono(d, q, x / d);
  }

  lemma {:induction false} MulMono(d: nat, a: nat, b: nat)
    ensures a > b ==> d * a >= d * b + d
    decreases a
  {
    if a > b {
      assert d * a == d * (a - 1) + d;
      MulMono(d, a - 1, b);
    }
  }
}
