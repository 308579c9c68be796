/** XSDRINC on the wire: shift_data skips the padding at the left of a buffer,
    the loops that count and scatter do not (svfload/libxsvf/xsvf.c:179-201 and
    343-361). */
module XsvfPadding {
  import opened Bits
  import opened XsvfIncrement
  import opened XsvfModel

  /** The bits of a buffer for `size` bits that are shifted. */
  predicate IsShifted(size: nat, i: nat) {
    LeftPadding(size) <= i < LeftPadding(size) + size
  }

  /** No shifted bit that the loops leave out is masked. */
  ghost predicate NoneBeyond(mask: seq<byte>, size: nat)
    requires |mask| == Bits2Bytes(size)
  {
    forall i: nat :: size <= i < 8 * |mask| && IsShifted(size, i) ==> !GetBit(mask, i)
  }

  lemma ShiftedBits(size: nat)
    ensures LeftPadding(size) + size == 8 * Bits2Bytes(size)
  {
  }

  // ---------------------------------------------------------------------
  // The address
  // ---------------------------------------------------------------------

  /** Unmasked bits at the end do not matter. */
  lemma {:induction false} NothingBetween(mask: seq<byte>, data: seq<byte>, lo: nat, k: nat, n: nat)
    requires k <= n <= 8 * |mask| && |mask| == |data|
    requires forall i :: k <= i < n && lo <= i ==> !GetBit(mask, i)
    ensures FieldFrom(mask, data, lo, n) == FieldFrom(mask, data, lo, k) && Between(mask, lo, n) == Between(mask, lo, k)
    decreases n
  {
    if k < n {
      NothingBetween(mask, data, lo, k, n - 1);
    }
  }

  /** A field that ends in a masked bit has that bit's parity. */
  lemma LastParity(mask: seq<byte>, data: seq<byte>, lo: nat, n: nat)
    requires lo < n <= 8 * |mask| && |mask| == |data| && GetBit(mask, n - 1)
    ensures FieldFrom(mask, data, lo, n) % 2 == BoolToNat(GetBit(data, n - 1)) && Between(mask, lo, n) > 0
  {
    hide GetBit;
    var v := FieldFrom(mask, data, lo, n - 1);
    assert FieldFrom(mask, data, lo, n) == 2 * v + BoolToNat(GetBit(data, n - 1));
  }

  lemma LastUnmasked(mask: seq<byte>, data: seq<byte>, lo: nat, n: nat)
    requires lo < n <= 8 * |mask| && |mask| == |data| && !GetBit(mask, n - 1)
    ensures FieldFrom(mask, data, lo, n) == FieldFrom(mask, data, lo, n - 1)
    ensures Between(mask, lo, n) == Between(mask, lo, n - 1)
  {
    hide GetBit;
  }

  /** The field's parity is that of its last bit. */
  lemma {:induction false} SameParity(mask: seq<byte>, a: seq<byte>, b: seq<byte>, lo: nat, k: nat, m: nat, n: nat)
    requires n <= 8 * |mask| && |a| == |b| == |mask|
    requires lo <= m && k <= m < n && GetBit(mask, m)
    requires forall i :: k <= i < n ==> GetBit(a, i) == GetBit(b, i)
    ensures FieldFrom(mask, a, lo, n) % 2 == FieldFrom(mask, b, lo, n) % 2 && Between(mask, lo, n) > 0
    decreases n
  {
    hide GetBit, FieldFrom, Between, BoolToNat;
    if GetBit(mask, n - 1) {
      LastParity(mask, a, lo, n);
      LastParity(mask, b, lo, n);
    } else {
      LastUnmasked(mask, a, lo, n);
      LastUnmasked(mask, b, lo, n);
      SameParity(mask, a, b, lo, k, m, n - 1);
    }
  }

  lemma Divide(u: nat, d: nat) returns (q: nat, r: nat)
    requires d > 0
    ensures r == u % d && u == q * d + r
  {
    q, r := u / d, u % d;
  }

  lemma EvenModulus(u: nat, p: nat)
    requires p > 0
    ensures u % (2 * p) % 2 == u % 2
  {
    var q, r := Divide(u, 2 * p);
    TwiceProduct(q, p);
    EvenDifference(u, r, q * p);
  }

  lemma EvenDifference(u: nat, r: nat, n: nat)
    requires u == 2 * n + r
    ensures r % 2 == u % 2
  {
  }

  lemma TwiceProduct(q: nat, p: nat)
    ensures q * (2 * p) == 2 * (q * p)
  {
  }

  lemma ParityChanges(v: nat, w: nat)
    requires w > 0
    ensures (v + 1) % Pow2(w) % 2 != v % 2
  {
    var p := Pow2(w - 1);
    assert Pow2(w) == 2 * p;
    hide Pow2;
    EvenModulus(v + 1, p);
  }

  /** The address that the target gets counts up by one, modulo its size, if and
      only if no shifted bit from index `size` on belongs to it: whatever the vector. */
  lemma AddressOnTheWire(addr: seq<byte>, tdi: seq<byte>, size: nat)
    requires |addr| == |tdi| == Bits2Bytes(size)
    ensures var lo, all := LeftPadding(size), 8 * |addr|;
            FieldFrom(addr, Increment(addr, tdi, size, true), lo, all)
              == (FieldFrom(addr, tdi, lo, all) + 1) % Pow2(Between(addr, lo, all))
            <==> NoneBeyond(addr, size)
  {
    hide Increment, GetBit, FieldFrom, Between, Pow2;
    var lo, all, next := LeftPadding(size), 8 * |addr|, Increment(addr, tdi, size, true);
    ShiftedBits(size);
    if NoneBeyond(addr, size) {
      NothingBetween(addr, next, lo, size, all);
      NothingBetween(addr, tdi, lo, size, all);
      IncrementAddsFrom(addr, tdi, lo, size, true);
    } else {
      var m: nat :| size <= m < all && IsShifted(size, m) && GetBit(addr, m);
      forall i: nat | size <= i < all
        ensures GetBit(next, i) == GetBit(tdi, i)
      {
        IncrementKeeps(addr, tdi, size, true, i);
      }
      SameParity(addr, next, tdi, lo, size, m, all);
      ParityChanges(FieldFrom(addr, tdi, lo, all), Between(addr, lo, all));
    }
  }

  // ---------------------------------------------------------------------
  // The data
  // ---------------------------------------------------------------------

  /** Every shifted data bit of the vector after `tdi` is the input's bit of its
      rank in the mask. */
  ghost predicate DataShifted(input: string, x: Xs, tdi: seq<byte>)
    requires XsWf(x) && |tdi| == |x.tdi|
  {
    var s := NextVector(input, x.(tdi := tdi));
    && s.Scattered?
    && forall m: nat :: m < 8 * |tdi| && IsShifted(x.drSize, m) && GetBit(x.data, m) ==>
         x.pos + Weight(x.data, m) / 8 < |input| && GetBit(s.tdi, m) == DataBit(input, x.pos, Weight(x.data, m))
  }

  /** A masked bit that the loop does not reach keeps its level. */
  lemma BeyondStays(input: string, x: Xs, m: nat)
    requires XsWf(x) && MasksCurrent(x) && x.pos <= |input| && x.drSize <= m < 8 * |x.tdi|
    ensures var s := NextVector(input, x); s.Scattered? ==> GetBit(s.tdi, m) == GetBit(x.tdi, m)
  {
    hide NextVector, Increment, GetBit;
    NextVectorBit(input, x, m);
    IncrementKeeps(x.addr, x.tdi, x.drSize, true, m);
  }

  lemma EnoughInput(input: string, x: Xs)
    requires XsWf(x) && MasksCurrent(x) && x.pos + Bits2Bytes(x.dataSize) <= |input|
    ensures NextVector(input, x).Scattered? && |NextVector(input, x).tdi| == |x.tdi|
  {
    hide Scatter, Increment;
    assert Weight(x.data, 0) == 0;
    var inc := Increment(x.addr, x.tdi, x.drSize, true);
    var _ := ScatterReads(input, x.pos, x.pos, 0, x.data, inc, 0, 0, x.drSize, x.dataSize);
  }

  /** The target gets all data bits of the input, whatever the vector before, if
      and only if no shifted bit from index `drSize` on is masked. */
  lemma DataOnTheWire(input: string, x: Xs)
    requires XsWf(x) && MasksCurrent(x) && x.pos + Bits2Bytes(x.dataSize) <= |input|
    ensures (forall t: seq<byte> :: |t| == |x.tdi| ==> DataShifted(input, x, t)) <==> NoneBeyond(x.data, x.drSize)
  {
    if NoneBeyond(x.data, x.drSize) {
      forall t: seq<byte> | |t| == |x.tdi|
        ensures DataShifted(input, x, t)
      {
        DataReaches(input, x, t);
      }
    } else {
      var m: nat :| x.drSize <= m < 8 * |x.data| && IsShifted(x.drSize, m) && GetBit(x.data, m);
      var t := DataMisses(input, x, m);
    }
  }

  lemma DataReaches(input: string, x: Xs, t: seq<byte>)
    requires XsWf(x) && MasksCurrent(x) && x.pos + Bits2Bytes(x.dataSize) <= |input|
    requires |t| == |x.tdi| && NoneBeyond(x.data, x.drSize)
    ensures DataShifted(input, x, t)
  {
    hide NextVector, GetBit, Weight, LeftPadding;
    var y := x.(tdi := t);
    EnoughInput(input, y);
    forall m: nat | m < 8 * |t| && IsShifted(x.drSize, m) && GetBit(x.data, m)
      ensures x.pos + Weight(x.data, m) / 8 < |input|
      ensures GetBit(NextVector(input, y).tdi, m) == DataBit(input, x.pos, Weight(x.data, m))
    {
      NextVectorBit(input, y, m);
    }
  }

  lemma DataMisses(input: string, x: Xs, m: nat) returns (t: seq<byte>)
    requires XsWf(x) && MasksCurrent(x) && x.pos + Bits2Bytes(x.dataSize) <= |input|
    requires x.drSize <= m < 8 * |x.data| && IsShifted(x.drSize, m) && GetBit(x.data, m)
    ensures |t| == |x.tdi| && !DataShifted(input, x, t)
  {
    hide NextVector, GetBit, SetBit, Weight, LeftPadding;
    var known := x.pos + Weight(x.data, m) / 8 < |input|;
    var v := known && !DataBit(input, x.pos, Weight(x.data, m));
    t := SetBit(x.tdi, m, v);
    SetBitGet(x.tdi, m, v, m);
    BeyondStays(input, x.(tdi := t), m);
  }

  // ---------------------------------------------------------------------
  // Overlapping masks
  // ---------------------------------------------------------------------

  /** The vector after `t` has the address field of `t` plus one. */
  predicate FieldCounts(input: string, x: Xs, t: seq<byte>)
    requires XsWf(x) && |t| == |x.tdi|
  {
    var s := NextVector(input, x.(tdi := t));
    && s.Scattered? && |s.tdi| == |t|
    && FieldValue(x.addr, s.tdi, x.drSize)
       == (FieldValue(x.addr, t, x.drSize) + 1) % Pow2(Weight(x.addr, x.drSize))
  }

  /** A masked bit that differs makes the fields differ. */
  lemma {:induction false} FieldDiffers(mask: seq<byte>, a: seq<byte>, b: seq<byte>, n: nat, m: nat)
    requires m < n <= 8 * |mask| && |a| == |b| == |mask| && GetBit(mask, m) && GetBit(a, m) != GetBit(b, m)
    ensures FieldValue(mask, a, n) != FieldValue(mask, b, n)
    decreases n
  {
    hide GetBit;
    if m < n - 1 {
      FieldDiffers(mask, a, b, n - 1, m);
    }
  }

  /** Of two vectors that differ at `m`, and not behind it, the increments differ there. */
  lemma {:induction false} IncrementsDiffer(addr: seq<byte>, a: seq<byte>, b: seq<byte>, n: nat, carry: bool, m: nat)
    requires m < n <= 8 * |addr| && |a| == |b| == |addr| && GetBit(addr, m)
    requires GetBit(a, m) != GetBit(b, m) && forall k: nat :: m < k < n ==> GetBit(a, k) == GetBit(b, k)
    ensures GetBit(Increment(addr, a, n, carry), m) != GetBit(Increment(addr, b, n, carry), m)
    decreases n
  {
    hide GetBit, SetBit;
    var i: nat := n - 1;
    if !GetBit(addr, i) {
      IncrementsDiffer(addr, a, b, i, carry, m);
    } else {
      var x, y := GetBit(a, i), GetBit(b, i);
      var a', b' := SetBit(a, i, x != carry), SetBit(b, i, y != carry);
      DigitPut(addr, a, n, i, carry);
      DigitPut(addr, b, n, i, carry);
      forall k: nat | m <= k < n
        ensures GetBit(a', k) == (if k == i then x != carry else GetBit(a, k))
        ensures GetBit(b', k) == (if k == i then y != carry else GetBit(b, k))
      {
        SetBitGet(a, i, x != carry, k);
        SetBitGet(b, i, y != carry, k);
      }
      if i == m {
        IncrementKeeps(addr, a', i, x && carry, m);
        IncrementKeeps(addr, b', i, y && carry, m);
      } else {
        IncrementsDiffer(addr, a', b', i, x && carry, m);
      }
    }
  }

  lemma DigitPut(addr: seq<byte>, t: seq<byte>, n: nat, i: nat, carry: bool)
    requires n == i + 1 <= 8 * |addr| && |t| == |addr| && GetBit(addr, i)
    ensures Increment(addr, t, n, carry)
            == Increment(addr, SetBit(t, i, GetBit(t, i) != carry), i, GetBit(t, i) && carry)
  {
    hide GetBit, SetBit;
  }

  /** A vector whose address field does not count where the input's data bit ends up. */
  lemma OverlapMisses(input: string, x: Xs, m: nat) returns (t: seq<byte>)
    requires XsWf(x) && MasksCurrent(x) && x.pos + Bits2Bytes(x.dataSize) <= |input|
    requires m < x.drSize && GetBit(x.addr, m) && GetBit(x.data, m)
    ensures |t| == |x.tdi| && !FieldCounts(input, x, t)
  {
    hide NextVector, Increment, GetBit, SetBit, Weight, FieldValue, Pow2;
    var n := x.drSize;
    EnoughInput(input, x);
    NextVectorBit(input, x, m);
    var d := DataBit(input, x.pos, Weight(x.data, m));
    t := x.tdi;
    if GetBit(Increment(x.addr, t, n, true), m) == d {
      var flipped := SetBit(t, m, !GetBit(t, m));
      forall k: nat | m <= k < n
        ensures GetBit(flipped, k) == (if k == m then !GetBit(t, m) else GetBit(t, k))
      {
        SetBitGet(t, m, !GetBit(t, m), k);
      }
      IncrementsDiffer(x.addr, t, flipped, n, true, m);
      t := flipped;
    }
    var y := x.(tdi := t);
    EnoughInput(input, y);
    NextVectorBit(input, y, m);
    IncrementAdds(x.addr, t, n, true);
    FieldDiffers(x.addr, NextVector(input, y).tdi, Increment(x.addr, t, n, true), n, m);
  }

  /** The address counts up whatever the vector before, if and only if no bit belongs
      to both masks: a data bit replaces the address bit that it meets. */
  lemma CountsIffDisjoint(input: string, x: Xs)
    requires XsWf(x) && MasksCurrent(x) && x.pos + Bits2Bytes(x.dataSize) <= |input|
    ensures (forall t: seq<byte> :: |t| == |x.tdi| ==> FieldCounts(input, x, t)) <==> Disjoint(x)
  {
    if Disjoint(x) {
      forall t: seq<byte> | |t| == |x.tdi|
        ensures FieldCounts(input, x, t)
      {
        SameMasks(x, x.(tdi := t));
        EnoughInput(input, x.(tdi := t));
        NextVectorIs(input, x.(tdi := t));
      }
    } else {
      var m: nat :| m < x.drSize && GetBit(x.addr, m) && GetBit(x.data, m);
      var t := OverlapMisses(input, x, m);
    }
  }

  // ---------------------------------------------------------------------
  // Nine bits
  // ---------------------------------------------------------------------

  lemma {:induction false} NothingToCount(addr: seq<byte>, tdi: seq<byte>, n: nat, carry: bool)
    requires n <= 8 * |addr| && |tdi| == |addr| && forall i :: 0 <= i < n ==> !GetBit(addr, i)
    ensures Increment(addr, tdi, n, carry) == tdi
    decreases n
  {
    if n > 0 {
      NothingToCount(addr, tdi, n - 1, carry);
    }
  }

  /** With nine bits, a one-bit address at the end of the buffer never counts. */
  lemma NineBits(addr: seq<byte>, tdi: seq<byte>)
    requires addr == [0, 1] && |tdi| == 2
    ensures IsShifted(9, 15) && !NoneBeyond(addr, 9) && Increment(addr, tdi, 9, true) == tdi
  {
    assert Pow2(0) == 1;
    assert GetBit(addr, 15);
    forall i: nat | i < 9
      ensures !GetBit(addr, i)
    {
      HighBits(addr, i);
    }
    NothingToCount(addr, tdi, 9, true);
  }

  lemma LastBit(mask: seq<byte>)
    requires mask == [0, 1]
    ensures GetBit(mask, 15) && IsShifted(9, 15)
  {
    assert Pow2(0) == 1;
  }

  /** Nor does a data bit there get its level from the input, whatever the input. */
  lemma NineDataBits(input: string, x: Xs)
    requires XsWf(x) && MasksCurrent(x) && x.drSize == 9 && x.data == [0, 1]
    requires x.pos + Bits2Bytes(x.dataSize) <= |input|
    ensures exists t: seq<byte> :: |t| == |x.tdi| && !DataShifted(input, x, t)
  {
    hide GetBit, IsShifted, Weight, DataShifted, MasksCurrent, XsWf;
    LastBit(x.data);
    DataOnTheWire(input, x);
  }

  lemma HighBits(addr: seq<byte>, i: nat)
    requires addr == [0, 1] && i < 9
    ensures !GetBit(addr, i)
  {
    if i < 8 {
      ZeroBit(7 - i);
    } else {
      Pow2Of8();
    }
  }
}
