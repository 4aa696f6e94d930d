/** Conversion between 64-bit absolute sequence numbers and the 32-bit numbers on the wire.

    All arithmetic is written with its width: `% TWO32` for `uint32_t`, `% TWO64` for `uint64_t`
    (Dafny's `%` is never negative, which is what unsigned subtraction needs). */
module WrappingIntegers {
  import opened Bytes

  /** The point `b` steps past `a`. */
  function Plus(a: uint32, b: uint32): uint32 { (a + b) % TWO32 }

  /** The `uint32_t` cast of the signed offset of `a` relative to `b`. */
  function Offset(a: uint32, b: uint32): uint32 { (a - b) % TWO32 }

  function Wrap(n: nat, isn: uint32): uint32 { Plus(isn, n % TWO32) }

  /** Wrapped numbers count up from the initial one, and start over behind the last. */
  lemma WrapCounts(v: nat, isn: uint32)
    ensures Wrap(0, isn) == isn
    ensures Wrap(v + 1, isn) == if Wrap(v, isn) == TWO32 - 1 then 0 else Wrap(v, isn) + 1
  {
    Reduce(isn + v % TWO32);
    Reduce(isn + (v + 1) % TWO32);
  }

  function Unwrap(n: uint32, isn: uint32, checkpoint: nat): nat
  {
    var distance := Offset(n, Wrap(checkpoint, isn));
    if distance < TWO31 then
      (checkpoint + distance) % TWO64
    else
      var behind := (checkpoint - (TWO32 - distance)) % TWO64;
      if behind > checkpoint then (checkpoint + distance) % TWO64 else behind
  }

  /** The one way `Unwrap` can miss: the nearest candidate above the checkpoint is past 2^64. */
  predicate PastTop(n: uint32, isn: uint32, checkpoint: nat)
  {
    var distance := Offset(n, Wrap(checkpoint, isn));
    distance < TWO31 && checkpoint + distance >= TWO64
  }

  /** `a` is at least as close to the checkpoint as every 64-bit number that wraps to `n`. */
  ghost predicate Closest(a: nat, n: uint32, isn: uint32, checkpoint: nat)
  {
    forall v: uint64 :: Wrap(v, isn) == n ==> Abs(a - checkpoint) <= Abs(v - checkpoint)
  }

  /** A number wraps to `n` exactly when its low 32 bits are the offset of `n` from the ISN. */
  lemma WrapLow(v: nat, n: uint32, isn: uint32)
    ensures Wrap(v, isn) == n <==> v % TWO32 == Offset(n, isn)
  {
  }

  /** The distance `Unwrap` computes is the distance between low halves, going up. */
  lemma DistanceLow(n: uint32, isn: uint32, c: nat)
    ensures var t, low := Offset(n, isn), c % TWO32;
            Offset(n, Wrap(c, isn)) == if t >= low then t - low else t - low + TWO32
  {
    Reduce(isn + c % TWO32);
    Reduce(n - Wrap(c, isn));
    Reduce(n - isn);
  }

  lemma Reduce(x: int)
    requires 0 - TWO32 <= x < 2 * TWO32
    ensures x % TWO32 == if x < 0 then x + TWO32 else if x < TWO32 then x else x - TWO32
  {
  }

  /** A shift by whole turns keeps the low half. */
  lemma WholeTurns(v: int, k: int)
    ensures (v + TWO32 * k) % TWO32 == v % TWO32
  {
  }

  lemma SameLow(u: nat, v: nat)
    requires u % TWO32 == v % TWO32
    ensures u == v || u >= v + TWO32 || v >= u + TWO32
  {
    assert u == TWO32 * (u / TWO32) + u % TWO32;
    assert v == TWO32 * (v / TWO32) + v % TWO32;
  }

  /** The candidates next to the checkpoint, one on each side. */
  lemma Candidates(n: uint32, isn: uint32, c: nat)
    ensures var d := Offset(n, Wrap(c, isn)); Wrap(c + d, isn) == n
    ensures var d := Offset(n, Wrap(c, isn)); c + d >= TWO32 ==> Wrap(c + d - TWO32, isn) == n
  {
    var d, low := Offset(n, Wrap(c, isn)), c % TWO32;
    DistanceLow(n, isn, c);
    var q := c / TWO32;
    assert c == TWO32 * q + low;
    assert Wrap(c + d, isn) == n by {
      WholeTurns(low + d, q);
      WrapLow(c + d, n, isn);
    }
    if c + d >= TWO32 {
      WholeTurns(c + d, -1);
      WrapLow(c + d, n, isn);
      WrapLow(c + d - TWO32, n, isn);
    }
  }

  /** Nothing that wraps to `n` lies between the two candidates. */
  lemma NothingBetween(n: uint32, isn: uint32, c: nat, v: nat)
    requires Wrap(v, isn) == n
    ensures var d := Offset(n, Wrap(c, isn)); v <= c + d - TWO32 || v >= c + d
  {
    var d := Offset(n, Wrap(c, isn));
    Candidates(n, isn, c);
    WrapLow(v, n, isn);
    WrapLow(c + d, n, isn);
    SameLow(v, c + d);
  }

  /** `Unwrap` in terms of the two candidates. */
  lemma UnwrapCases(n: uint32, isn: uint32, c: uint64)
    ensures var d := Offset(n, Wrap(c, isn));
            Unwrap(n, isn, c) ==
            if d < TWO31 then (if c + d < TWO64 then c + d else c + d - TWO64)
            else if c + d >= TWO32 then c + d - TWO32 else c + d
  {
  }

  /** `Unwrap` always answers with a 64-bit number that wraps to `n`. */
  lemma UnwrapWraps(n: uint32, isn: uint32, checkpoint: uint64)
    ensures Unwrap(n, isn, checkpoint) < TWO64
    ensures Wrap(Unwrap(n, isn, checkpoint), isn) == n
  {
    var d := Offset(n, Wrap(checkpoint, isn));
    UnwrapCases(n, isn, checkpoint);
    Candidates(n, isn, checkpoint);
    if PastTop(n, isn, checkpoint) {
      WholeTurns(checkpoint + d, 0 - TWO32);
      WrapLow(checkpoint + d, n, isn);
      WrapLow(checkpoint + d - TWO64, n, isn);
    }
  }

  /** The documented promise ("closest to the checkpoint") holds exactly when the nearest
      candidate above the checkpoint is still a 64-bit number. */
  lemma UnwrapClosest(n: uint32, isn: uint32, checkpoint: uint64)
    ensures Closest(Unwrap(n, isn, checkpoint), n, isn, checkpoint) <==> !PastTop(n, isn, checkpoint)
  {
    var d := Offset(n, Wrap(checkpoint, isn));
    var r := Unwrap(n, isn, checkpoint);
    UnwrapCases(n, isn, checkpoint);
    if PastTop(n, isn, checkpoint) {
      var v: uint64 := checkpoint + d - TWO32;
      Candidates(n, isn, checkpoint);
      assert Wrap(v, isn) == n && Abs(r - checkpoint) > Abs(v - checkpoint);
    } else {
      forall v: uint64 | Wrap(v, isn) == n
        ensures Abs(r - checkpoint) <= Abs(v - checkpoint)
      {
        NothingBetween(n, isn, checkpoint, v);
      }
    }
  }

  /** The failing family is inhabited: next to 2^64 the answer is almost 2^64 away. */
  lemma UnwrapPastTopExample()
    ensures PastTop(0, 0, TWO64 - 1) && Unwrap(0, 0, TWO64 - 1) == 0
    ensures !Closest(0, 0, 0, TWO64 - 1)
  {
    assert (TWO64 - 1) % TWO32 == TWO32 - 1;
    assert Offset(0, Wrap(TWO64 - 1, 0)) == 1;
    UnwrapClosest(0, 0, TWO64 - 1);
  }

  /** `v` is less than 2^31 above the checkpoint and at most 2^31 below it; in the first turn, where
      nothing lies below zero, up to 2^32 above will do. */
  predicate Near(v: nat, checkpoint: nat)
  {
    (checkpoint <= v + TWO31 && v < checkpoint + TWO31) || (checkpoint <= v < checkpoint + TWO32 && v < TWO32)
  }

  lemma NearCases(v: uint64, c: uint64, d: uint32, r: int)
    requires r == if d < TWO31 then (if c + d < TWO64 then c + d else c + d - TWO64)
                  else if c + d >= TWO32 then c + d - TWO32 else c + d
    requires v == c + d || v >= c + d + TWO32 || v == c + d - TWO32 || v <= c + d - 2 * TWO32
    requires c + d + TWO32 >= TWO64 ==> var u := c + d + TWO32 - TWO64; v >= u || v == u - TWO32
    ensures r == v <==> Near(v, c) || v + TWO64 < c + TWO31
  {
  }

  lemma TurnsApart(n: uint32, isn: uint32, c: uint64, v: nat)
    requires Wrap(v, isn) == n
    ensures var d := Offset(n, Wrap(c, isn));
            && (v == c + d || v >= c + d + TWO32 || v == c + d - TWO32 || v <= c + d - 2 * TWO32)
            && (c + d + TWO32 >= TWO64 ==> var u := c + d + TWO32 - TWO64; v >= u || v == u - TWO32)
  {
    var d := Offset(n, Wrap(c, isn));
    Candidates(n, isn, c);
    WrapLow(v, n, isn);
    WrapLow(c + d, n, isn);
    SameLow(v, c + d);
    if v <= c + d - TWO32 {
      WrapLow(c + d - TWO32, n, isn);
      SameLow(v, c + d - TWO32);
    }
    if c + d + TWO32 >= TWO64 {
      WholeTurns(c + d, 1 - TWO32);
      SameLow(v, c + d + TWO32 - TWO64);
      if c + d >= TWO64 {
        WholeTurns(c + d, 0 - TWO32);
        SameLow(v, c + d - TWO64);
      }
    }
  }

  /** An absolute number survives the wire exactly when it is near the checkpoint, where the two ends
      of the 64-bit range count as neighbours. */
  lemma UnwrapWrap(v: uint64, isn: uint32, checkpoint: uint64)
    ensures Unwrap(Wrap(v, isn), isn, checkpoint) == v <==> Near(v, checkpoint) || v + TWO64 < checkpoint + TWO31
  {
    var n := Wrap(v, isn);
    UnwrapCases(n, isn, checkpoint);
    TurnsApart(n, isn, checkpoint, v);
    NearCases(v, checkpoint, Offset(n, Wrap(checkpoint, isn)), Unwrap(n, isn, checkpoint));
  }
}
