/** Bits of bytes, without bit vectors: bit i of a natural number and the
    effect of writing one bit. */
module Bits {
  type byte = n: nat | n < 256

  function Pow2(n: nat): (p: nat)
    ensures p > 0
  {
    if n == 0 then 1 else 2 * Pow2(n - 1)
  }

  function BoolToNat(v: bool): nat {
    if v then 1 else 0
  }

  /** `b & (1 << i)` is non-zero. */
  predicate Bit(b: nat, i: nat)
    decreases i
  {
    if i == 0 then b % 2 == 1 else Bit(b / 2, i - 1)
  }

  /** `b` with bit `i` set to `v`. */
  function PutBit(b: nat, i: nat, v: bool): nat
    decreases i
  {
    if i == 0 then b - b % 2 + BoolToNat(v) else b % 2 + 2 * PutBit(b / 2, i - 1, v)
  }

  /** `b | (v << i)`. */
  function OrBit(b: nat, i: nat, v: bool): nat {
    if v then PutBit(b, i, true) else b
  }

  lemma {:induction false} PutBitAt(b: nat, i: nat, v: bool, j: nat)
    ensures Bit(PutBit(b, i, v), j) == (if i == j then v else Bit(b, j))
    decreases i
  {
    if i > 0 && j > 0 {
      PutBitAt(b / 2, i - 1, v, j - 1);
      assert PutBit(b, i, v) / 2 == PutBit(b / 2, i - 1, v);
    } else if i == 0 && j > 0 {
      assert PutBit(b, i, v) / 2 == b / 2;
    }
  }

  lemma {:induction false} PutBitBound(b: nat, i: nat, v: bool, n: nat)
    requires b < Pow2(n) && i < n
    ensures PutBit(b, i, v) < Pow2(n)
    decreases i
  {
    if i > 0 {
      PutBitBound(b / 2, i - 1, v, n - 1);
    }
  }

  lemma {:induction false} ZeroBit(i: nat)
    ensures !Bit(0, i)
    decreases i
  {
    if i > 0 {
      ZeroBit(i - 1);
    }
  }

  lemma Pow2Of8()
    ensures Pow2(8) == 256
  {
    assert Pow2(4) == 16;
  }

  lemma OrBitByte(b: byte, i: nat, v: bool)
    requires i < 8
    ensures OrBit(b, i, v) < 256
    ensures forall j: nat :: Bit(OrBit(b, i, v), j) == ((i == j && v) || Bit(b, j))
  {
    Pow2Of8();
    PutBitBound(b, i, true, 8);
    forall j: nat
      ensures Bit(OrBit(b, i, v), j) == ((i == j && v) || Bit(b, j))
    {
      PutBitAt(b, i, true, j);
    }
  }

  /** Two numbers below 2^n with the same n low bits are equal. */
  lemma {:induction false} BitsDetermine(a: nat, b: nat, n: nat)
    requires a < Pow2(n) && b < Pow2(n)
    requires forall i: nat :: i < n ==> Bit(a, i) == Bit(b, i)
    ensures a == b
    decreases n
  {
    if n > 0 {
      assert Bit(a, 0) == Bit(b, 0);
      forall i: nat | i < n - 1
        ensures Bit(a / 2, i) == Bit(b / 2, i)
      {
        assert Bit(a, i + 1) == Bit(b, i + 1);
      }
      BitsDetermine(a / 2, b / 2, n - 1);
    }
  }
}
