/** The Internet checksum of RFC 1071: one's-complement addition of 16-bit words. */
module Checksums {
  import opened Bytes

  /** What a byte adds: the high half of a word at even positions, the low half at odd ones. */
  function Weight(odd: bool, b: byte): nat { if odd then b else 0x100 * b }

  function Sum(data: seq<byte>, odd: bool): nat
  {
    if data == [] then 0 else Weight(odd, data[0]) + Sum(data[1..], !odd)
  }

  predicate OddLength(data: seq<byte>) { |data| % 2 == 1 }

  /** Adding in chunks, of odd length too, is adding at once. */
  lemma {:induction false} SumChunks(a: seq<byte>, b: seq<byte>, odd: bool)
    ensures Sum(a + b, odd) == Sum(a, odd) + Sum(b, odd != OddLength(a))
    decreases |a|
  {
    if a == [] {
      assert a + b == b;
    } else {
      assert (a + b)[0] == a[0] && (a + b)[1..] == a[1..] + b;
      SumChunks(a[1..], b, !odd);
    }
  }

  /** Folds the carries back in until 16 bits are left. */
  function Fold(sum: nat): nat
  {
    if sum <= 0xffff then sum else Fold(sum / TWO16 + sum % TWO16)
  }

  /** Folding is reduction modulo 65535, except that it keeps zero apart from 65535. */
  lemma {:induction false} FoldReduces(sum: nat)
    ensures Fold(sum) <= 0xffff && Fold(sum) % 0xffff == sum % 0xffff && (Fold(sum) == 0 <==> sum == 0)
  {
    if sum > 0xffff {
      var q, r := sum / TWO16, sum % TWO16;
      assert sum == 0xffff * q + (q + r);
      Shift(q + r, q);
      FoldReduces(q + r);
    }
  }

  lemma {:induction false} Shift(a: nat, q: nat)
    ensures (0xffff * q + a) % 0xffff == a % 0xffff
  {
    if q > 0 { Shift(a, q - 1); }
  }

  function Checksum(sum: nat): uint16 { FoldReduces(sum); 0xffff - Fold(sum) }

  /** A sum is accepted (checksum zero) exactly when it is a positive multiple of 65535. */
  lemma AcceptedSum(sum: nat)
    ensures Checksum(sum) == 0 <==> sum > 0 && sum % 0xffff == 0
  {
    FoldReduces(sum);
  }

  /** Putting the checksum of everything else into its place makes the whole sum acceptable. */
  lemma ChecksumCompletes(rest: nat)
    ensures Checksum(rest + Checksum(rest)) == 0
  {
    FoldReduces(rest);
    var f := Fold(rest);
    AcceptedSum(rest + (0xffff - f));
    assert rest == 0xffff * (rest / 0xffff) + rest % 0xffff;
    if f == 0xffff {
      assert rest % 0xffff == 0;
    } else {
      assert f % 0xffff == f == rest % 0xffff;
      Shift(0xffff, rest / 0xffff);
      assert rest + (0xffff - f) == 0xffff * (rest / 0xffff) + 0xffff;
    }
  }

  /** And it never overflows 32 bits: 2^32 - 1 is itself a multiple of 65535. */
  lemma ChecksumFits(rest: uint32)
    ensures rest + Checksum(rest) < TWO32
  {
    FoldReduces(rest);
    ChecksumCompletes(rest);
    AcceptedSum(rest + Checksum(rest));
    var k := (rest + Checksum(rest)) / 0xffff;
    assert rest + Checksum(rest) == 0xffff * k;
    assert 0xffff * 65537 == TWO32 - 1;
  }

  /** Changing one byte changes the sum by the difference of the weights. */
  lemma ByteChange(data: seq<byte>, i: nat, b: byte)
    requires i < |data|
    ensures var odd := OddLength(data[..i]);
            Sum(data[i := b], false) - Sum(data, false) == Weight(odd, b) - Weight(odd, data[i])
  {
    assert data == data[..i] + ([data[i]] + data[i + 1..]);
    assert data[i := b] == data[..i] + ([b] + data[i + 1..]);
    SumChunks(data[..i], [data[i]] + data[i + 1..], false);
    SumChunks(data[..i], [b] + data[i + 1..], false);
    assert ([data[i]] + data[i + 1..])[1..] == data[i + 1..] && ([b] + data[i + 1..])[1..] == data[i + 1..];
  }

  /** Changing any one byte of an accepted message makes it unacceptable, even where the change makes
      the 32-bit sum wrap around. */
  lemma OneByteDetected(data: seq<byte>, i: nat, b: byte, initial: uint32)
    requires i < |data| && b != data[i] && Checksum((initial + Sum(data, false)) % TWO32) == 0
    ensures Checksum((initial + Sum(data[i := b], false)) % TWO32) != 0
  {
    ByteChange(data, i, b);
    ChangeDetected(initial + Sum(data, false), initial + Sum(data[i := b], false));
  }

  lemma ChangeDetected(x: nat, y: nat)
    requires x != y && Abs(y - x) < 0xfffe && Checksum(x % TWO32) == 0
    ensures Checksum(y % TWO32) != 0
  {
    var u, v, d := x % TWO32, y % TWO32, y - x;
    AcceptedSum(u);
    AcceptedSum(v);
    WrapsNear(x, y);
    assert u == 0xffff * (u / 0xffff) && v == 0xffff * (v / 0xffff) + v % 0xffff;
    assert TWO32 == 0xffff * 65537 + 1;
    if v % 0xffff == 0 && v > 0 {
      var k := v / 0xffff - u / 0xffff;
      assert v - u == 0xffff * k;
      assert v - u == d || v - u == d - TWO32 || v - u == d + TWO32;
      if v - u == d {
        NotWhole(d, k);
      } else if v - u == d - TWO32 {
        NotWhole(d - 1, k + 65537);
      } else {
        NotWhole(d + 1, k - 65537);
      }
    }
  }

  /** Close numbers differ by as much in their low halves, up to one turn. */
  lemma WrapsNear(x: nat, y: nat)
    requires Abs(y - x) < TWO32
    ensures var e := y % TWO32 - x % TWO32; e == y - x || e == y - x - TWO32 || e == y - x + TWO32
  {
    assert x == TWO32 * (x / TWO32) + x % TWO32 && y == TWO32 * (y / TWO32) + y % TWO32;
  }

  lemma NotWhole(d: int, k: int)
    requires d == 0xffff * k && -0xffff < d < 0xffff
    ensures d == 0 && k == 0
  {
  }

  class InternetChecksum {
    var sum: uint32
    var parity: bool
    /** The initial sum and every byte added so far. */
    ghost const initial: uint32
    ghost var fed: seq<byte>

    ghost predicate Valid()
      reads this
    {
      sum == (initial + Sum(fed, false)) % TWO32 && parity == OddLength(fed)
    }

    constructor (initialSum: uint32)
      ensures Valid() && initial == initialSum && fed == []
    {
      sum, parity := initialSum, false;
      initial, fed := initialSum, [];
    }

    method Add(data: seq<byte>)
      requires Valid()
      modifies this
      ensures Valid() && fed == old(fed) + data
    {
      var i := 0;
      assert fed == old(fed) + data[..0];
      while i < |data|
        invariant 0 <= i <= |data| && Valid() && fed == old(fed) + data[..i]
      {
        SumChunks(fed, [data[i]], false);
        assert [data[i]][1..] == [];
        var val: int := data[i];
        if !parity { val := val * 0x100; }
        SumWraps(initial + Sum(fed, false), val);
        sum := (sum + val) % TWO32;
        parity := !parity;
        fed := fed + [data[i]];
        assert old(fed) + data[..i + 1] == old(fed) + data[..i] + [data[i]];
        i := i + 1;
      }
      assert data[..|data|] == data;
    }

    method Value() returns (v: uint16)
      requires Valid()
      ensures v == Checksum((initial + Sum(fed, false)) % TWO32)
    {
      var ret: nat := sum;
      while ret > 0xffff
        invariant Fold(ret) == Fold(sum)
        decreases ret
      {
        ret := ret / TWO16 + ret % TWO16;
      }
      v := 0xffff - ret;
    }
  }

  lemma SumWraps(a: nat, b: nat)
    ensures (a % TWO32 + b) % TWO32 == (a + b) % TWO32
  {
    assert a == TWO32 * (a / TWO32) + a % TWO32;
    WrapShift(a % TWO32 + b, a / TWO32);
  }

  lemma {:induction false} WrapShift(a: nat, q: nat)
    ensures (TWO32 * q + a) % TWO32 == a % TWO32
  {
    if q > 0 { WrapShift(a, q - 1); }
  }
}
