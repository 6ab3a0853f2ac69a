// The table of answered sequence numbers: 65536 bits packed into 64-bit words (ping.h).
module Received {
  import opened Words

  const WORDS := 1024

  function Twice(x: bv64): bv64 { x << 1 }

  /** x << k, one place at a time. */
  function Shl(x: bv64, k: nat): bv64 {
    if k == 0 then x else Twice(Shl(x, k - 1))
  }

  /** Macro B: the mask of a bit within its word. */
  function Mask(bit: nat): bv64
    requires bit < 64
  {
    Shl(1, bit)
  }

  // The word operations of rcvd_test, rcvd_set and rcvd_clear.
  function And(w: bv64, m: bv64): bv64 { w & m }
  function Or(w: bv64, m: bv64): bv64 { w | m }
  function AndNot(w: bv64, m: bv64): bv64 { w & !m }

  lemma {:induction false} ShlAdd(x: bv64, j: nat, k: nat)
    ensures Shl(Shl(x, j), k) == Shl(x, j + k)
  {
    if k > 0 {
      ShlAdd(x, j, k - 1);
    }
  }

  lemma {:induction false} ShlZero(k: nat)
    ensures Shl(0, k) == 0
  {
    if k > 0 {
      ShlZero(k - 1);
    }
  }

  lemma SevenPlaces(x: bv64)
    ensures Shl(x, 7) == Twice(Twice(Twice(Twice(Twice(Twice(Twice(x)))))))
  {
    assert Shl(x, 1) == Twice(Shl(x, 0)) && Shl(x, 2) == Twice(Shl(x, 1)) && Shl(x, 3) == Twice(Shl(x, 2));
    assert Shl(x, 4) == Twice(Shl(x, 3)) && Shl(x, 5) == Twice(Shl(x, 4)) && Shl(x, 6) == Twice(Shl(x, 5));
  }

  /** The highest bit is still in the word. */
  lemma HighestBit()
    ensures Shl(1, 63) == 0x8000_0000_0000_0000
  {
    hide Shl;
    SevenPlaces(1);
    ShlAdd(1, 7, 7);
    SevenPlaces(0x80);
    ShlAdd(1, 14, 7);
    SevenPlaces(0x4000);
    ShlAdd(1, 21, 7);
    SevenPlaces(0x20_0000);
    ShlAdd(1, 28, 7);
    SevenPlaces(0x1000_0000);
    ShlAdd(1, 35, 7);
    SevenPlaces(0x8_0000_0000);
    ShlAdd(1, 42, 7);
    SevenPlaces(0x400_0000_0000);
    ShlAdd(1, 49, 7);
    SevenPlaces(0x2_0000_0000_0000);
    ShlAdd(1, 56, 7);
    SevenPlaces(0x100_0000_0000_0000);
  }

  lemma {:induction false} DisjointBits(i: nat, j: nat)
    requires i < j
    ensures Shl(1, i) & Shl(1, j) == 0
  {
    if i == 0 {
      OddEven(Shl(1, j - 1));
    } else {
      DisjointBits(i - 1, j - 1);
      BothShifted(Shl(1, i - 1), Shl(1, j - 1));
    }
  }

  lemma OddEven(y: bv64)
    ensures 1 & Twice(y) == 0
  {
  }

  lemma BothShifted(x: bv64, y: bv64)
    requires x & y == 0
    ensures Twice(x) & Twice(y) == 0
  {
  }

  /** Masks are nonempty and those of different bits are disjoint. */
  lemma Masks(i: nat, j: nat)
    requires i < 64 && j < 64
    ensures Mask(i) != 0 && (i != j ==> Mask(i) & Mask(j) == 0)
  {
    hide Shl;
    HighestBit();
    ShlAdd(1, i, 63 - i);
    ShlZero(63 - i);
    if i < j {
      DisjointBits(i, j);
    } else if j < i {
      DisjointBits(j, i);
      Commutes(Shl(1, i), Shl(1, j));
    }
  }

  lemma Commutes(x: bv64, y: bv64)
    ensures x & y == y & x
  {
  }

  lemma OrDistributes(w: bv64, m: bv64, n: bv64)
    ensures (w | m) & n == (w & n) | (m & n)
  {
  }

  lemma AndNotDistributes(w: bv64, m: bv64, n: bv64)
    ensures (w & !m) & n == (w & n) & !(m & n)
  {
  }

  lemma OrOwn(w: bv64, m: bv64)
    ensures (w | m) & m == m
  {
  }

  lemma OrOther(w: bv64, m: bv64, n: bv64)
    requires m & n == 0
    ensures (w | m) & n == w & n
  {
    OrDistributes(w, m, n);
  }

  lemma AndNotOther(w: bv64, m: bv64, n: bv64)
    requires m & n == 0
    ensures (w & !m) & n == w & n
  {
    AndNotDistributes(w, m, n);
  }

  lemma AndIs(m: bv64, n: bv64)
    ensures And(m, n) == m & n
  {
  }

  lemma OwnMask(w: bv64, m: bv64)
    ensures And(Or(w, m), m) == m && And(AndNot(w, m), m) == 0
  {
    OrOwn(w, m);
  }

  lemma OrOtherMask(w: bv64, m: bv64, n: bv64)
    requires And(m, n) == 0
    ensures And(Or(w, m), n) == And(w, n)
  {
    OrOther(w, m, n);
  }

  lemma AndNotOtherMask(w: bv64, m: bv64, n: bv64)
    requires And(m, n) == 0
    ensures And(AndNot(w, m), n) == And(w, n)
  {
    AndNotOther(w, m, n);
  }

  /** Setting or clearing a bit changes the answer for that bit only. */
  lemma OneBit(w: bv64, i: nat, j: nat)
    requires i < 64 && j < 64
    ensures And(Or(w, Mask(i)), Mask(j)) != 0 <==> i == j || And(w, Mask(j)) != 0
    ensures And(AndNot(w, Mask(i)), Mask(j)) != 0 <==> i != j && And(w, Mask(j)) != 0
  {
    hide *;
    Masks(i, j);
    if i == j {
      OwnMask(w, Mask(i));
    } else {
      assert And(Mask(i), Mask(j)) == 0 by { AndIs(Mask(i), Mask(j)); }
      OrOtherMask(w, Mask(i), Mask(j));
      AndNotOtherMask(w, Mask(i), Mask(j));
    }
  }

  lemma NoBits(i: nat)
    requires i < 64
    ensures And(0, Mask(i)) == 0
  {
  }

  class RcvdTable {
    const bitmap: array<bv64>

    ghost predicate Valid() {
      bitmap.Length == WORDS
    }

    constructor ()
      ensures Valid() && Members() == {} && fresh(bitmap)
    {
      bitmap := new bv64[WORDS](_ => 0);
      new;
      forall s: uint16 ensures !Test(s) { NoBits(s % 64); }
    }

    /** rcvd_test: is the bit of a sequence number set? */
    predicate Test(seqno: uint16)
      requires Valid()
      reads bitmap
    {
      And(bitmap[seqno / 64], Mask(seqno % 64)) != 0
    }

    /** The set the packed words stand for. */
    ghost function Members(): set<uint16>
      requires Valid()
      reads bitmap
    {
      set s: uint16 | Test(s)
    }

    /** rcvd_set. */
    method Set(seqno: uint16)
      requires Valid()
      modifies bitmap
      ensures Members() == old(Members()) + {seqno}
    {
      hide Mask, And, Or, AndNot;
      var i := seqno / 64;
      ghost var w := bitmap[i];
      bitmap[i] := Or(bitmap[i], Mask(seqno % 64));
      forall t: uint16
        ensures Test(t) == (t == seqno || old(Test(t)))
      {
        if t / 64 == i { OneBit(w, seqno % 64, t % 64); }
      }
    }

    /** rcvd_clear. */
    method Clear(seqno: uint16)
      requires Valid()
      modifies bitmap
      ensures Members() == old(Members()) - {seqno}
    {
      hide Mask, And, Or, AndNot;
      var i := seqno / 64;
      ghost var w := bitmap[i];
      bitmap[i] := AndNot(bitmap[i], Mask(seqno % 64));
      forall t: uint16
        ensures Test(t) == (t != seqno && old(Test(t)))
      {
        if t / 64 == i { OneBit(w, seqno % 64, t % 64); }
      }
    }
  }
}
