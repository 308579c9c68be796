/** XSDRINC as masked arithmetic (svfload/libxsvf/xsvf.c). */
module XsvfIncrement {
  import opened Arithmetic
  import opened Bits
  import opened HostApi
  import opened XsvfModel

  /** The number in the masked bits below `n`; the first one is the most
      significant. */
  function FieldValue(mask: seq<byte>, data: seq<byte>, n: nat): (v: nat)
    requires n <= 8 * |mask| && |mask| == |data|
  {
    if n == 0 then 0
    else
      var v := FieldValue(mask, data, n - 1);
      if GetBit(mask, n - 1) then 2 * v + BoolToNat(GetBit(data, n - 1)) else v
  }

  /** Only the masked bits below `n` matter. */
  lemma {:induction false} FieldValueSame(mask: seq<byte>, a: seq<byte>, b: seq<byte>, n: nat)
    requires n <= 8 * |mask| && |a| == |b| == |mask|
    requires forall i :: 0 <= i < n && GetBit(mask, i) ==> GetBit(a, i) == GetBit(b, i)
    ensures FieldValue(mask, a, n) == FieldValue(mask, b, n)
    decreases n
  {
    if n > 0 {
      FieldValueSame(mask, a, b, n - 1);
    }
  }

  /** The number in the masked bits from `lo` to `n - 1`. */
  function FieldFrom(mask: seq<byte>, data: seq<byte>, lo: nat, n: nat): (v: nat)
    requires n <= 8 * |mask| && |mask| == |data|
    decreases n
  {
    if n <= lo then 0
    else
      var v := FieldFrom(mask, data, lo, n - 1);
      if GetBit(mask, n - 1) then 2 * v + BoolToNat(GetBit(data, n - 1)) else v
  }

  /** How many masked bits these are. */
  function Between(mask: seq<byte>, lo: nat, n: nat): nat
    requires n <= 8 * |mask|
    decreases n
  {
    if n <= lo then 0 else Between(mask, lo, n - 1) + BoolToNat(GetBit(mask, n - 1))
  }

  /** The whole field is what the loop counts. */
  lemma {:induction false} FieldFromStart(mask: seq<byte>, data: seq<byte>, n: nat)
    requires n <= 8 * |mask| && |mask| == |data|
    ensures FieldFrom(mask, data, 0, n) == FieldValue(mask, data, n) && Between(mask, 0, n) == Weight(mask, n)
    decreases n
  {
    if n > 0 {
      FieldFromStart(mask, data, n - 1);
    }
  }

  // ---------------------------------------------------------------------
  // The increment loop
  // ---------------------------------------------------------------------

  /** Bits outside the mask or above `n` stay. */
  lemma {:induction false} IncrementKeeps(addr: seq<byte>, tdi: seq<byte>, n: nat, carry: bool, m: nat)
    requires n <= 8 * |addr| && |tdi| == |addr| && m < 8 * |tdi|
    requires m >= n || !GetBit(addr, m)
    ensures GetBit(Increment(addr, tdi, n, carry), m) == GetBit(tdi, m)
    decreases n
  {
    if n > 0 {
      var i := n - 1;
      if !GetBit(addr, i) {
        IncrementKeeps(addr, tdi, i, carry, m);
      } else if GetBit(tdi, i) {
        SetBitGet(tdi, i, !carry, m);
        IncrementKeeps(addr, SetBit(tdi, i, !carry), i, carry, m);
      } else {
        SetBitGet(tdi, i, carry, m);
        IncrementKeeps(addr, SetBit(tdi, i, carry), i, false, m);
      }
    }
  }

  /** One digit of a binary addition with carry, for a field of size `p`. */
  lemma CarryStep(v: nat, b: bool, carry: bool, p: nat, high: nat)
    requires p > 0 && high == (v + BoolToNat(carry && b)) % p
    ensures 2 * high + BoolToNat(b != carry) == (2 * v + BoolToNat(b) + BoolToNat(carry)) % (2 * p)
  {
    var u := v + BoolToNat(carry && b);
    var q, r := u / p, 2 * high + BoolToNat(b != carry);
    assert u == q * p + high;
    assert q * (2 * p) == 2 * (q * p);
    ModUnique(q, 2 * p, r);
    assert 2 * v + BoolToNat(b) + BoolToNat(carry) == 2 * u + BoolToNat(b != carry);
  }

  lemma {:induction false} FieldFromSame(mask: seq<byte>, a: seq<byte>, b: seq<byte>, lo: nat, n: nat)
    requires n <= 8 * |mask| && |a| == |b| == |mask|
    requires forall i :: lo <= i < n && GetBit(mask, i) ==> GetBit(a, i) == GetBit(b, i)
    ensures FieldFrom(mask, a, lo, n) == FieldFrom(mask, b, lo, n)
    decreases n
  {
    if n > lo {
      FieldFromSame(mask, a, b, lo, n - 1);
    }
  }

  lemma SetBitFrom(mask: seq<byte>, data: seq<byte>, lo: nat, i: nat, v: bool)
    requires i < 8 * |mask| && |mask| == |data|
    ensures FieldFrom(mask, SetBit(data, i, v), lo, i) == FieldFrom(mask, data, lo, i)
  {
    forall k: nat | k < i
      ensures GetBit(SetBit(data, i, v), k) == GetBit(data, k)
    {
      SetBitGet(data, i, v, k);
    }
    FieldFromSame(mask, SetBit(data, i, v), data, lo, i);
  }

  /** The loop adds its carry to the low-order part of the field, too. */
  lemma {:induction false} IncrementAddsFrom(addr: seq<byte>, tdi: seq<byte>, lo: nat, n: nat, carry: bool)
    requires n <= 8 * |addr| && |tdi| == |addr|
    ensures FieldFrom(addr, Increment(addr, tdi, n, carry), lo, n)
            == (FieldFrom(addr, tdi, lo, n) + BoolToNat(carry)) % Pow2(Between(addr, lo, n))
    decreases n
  {
    hide GetBit, SetBit;
    if n > lo {
      var i := n - 1;
      if !GetBit(addr, i) {
        IncrementAddsFrom(addr, tdi, lo, i, carry);
      } else {
        IncrementDigitFrom(addr, tdi, lo, n, carry);
      }
    }
  }

  lemma {:induction false} IncrementDigitFrom(addr: seq<byte>, tdi: seq<byte>, lo: nat, n: nat, carry: bool)
    requires lo < n <= 8 * |addr| && |tdi| == |addr| && GetBit(addr, n - 1)
    ensures FieldFrom(addr, Increment(addr, tdi, n, carry), lo, n)
            == (FieldFrom(addr, tdi, lo, n) + BoolToNat(carry)) % Pow2(Between(addr, lo, n))
    decreases n, 0
  {
    hide GetBit, SetBit;
    var i := n - 1;
    var b := GetBit(tdi, i);
    var put := SetBit(tdi, i, b != carry);
    var r := Increment(addr, put, i, carry && b);
    assert r == Increment(addr, tdi, n, carry);
    SetBitGet(tdi, i, b != carry, i);
    SetBitFrom(addr, tdi, lo, i, b != carry);
    IncrementKeeps(addr, put, i, carry && b, i);
    IncrementAddsFrom(addr, put, lo, i, carry && b);
    CarryStep(FieldFrom(addr, tdi, lo, i), b, carry, Pow2(Between(addr, lo, i)), FieldFrom(addr, r, lo, i));
  }

  /** The loop adds its carry to the masked field, modulo the field's size. */
  lemma IncrementAdds(addr: seq<byte>, tdi: seq<byte>, n: nat, carry: bool)
    requires n <= 8 * |addr| && |tdi| == |addr|
    ensures FieldValue(addr, Increment(addr, tdi, n, carry), n)
            == (FieldValue(addr, tdi, n) + BoolToNat(carry)) % Pow2(Weight(addr, n))
  {
    hide Increment, GetBit, Between, BoolToNat, FieldFrom, FieldValue, Pow2, Weight;
    FieldFromStart(addr, tdi, n);
    FieldFromStart(addr, Increment(addr, tdi, n, carry), n);
    IncrementAddsFrom(addr, tdi, 0, n, carry);
  }

  // ---------------------------------------------------------------------
  // The scatter loop
  // ---------------------------------------------------------------------

  lemma {:induction false} WeightGap(mask: seq<byte>, j: nat, k: nat)
    requires j <= k <= 8 * |mask|
    requires forall i :: j <= i < k ==> !GetBit(mask, i)
    ensures Weight(mask, k) == Weight(mask, j)
    decreases k
  {
    if j < k {
      WeightGap(mask, j, k - 1);
    }
  }

  lemma {:induction false} WeightMono(mask: seq<byte>, a: nat, b: nat)
    requires a <= b <= 8 * |mask|
    ensures Weight(mask, a) <= Weight(mask, b)
    ensures Weight(mask, a) == Weight(mask, b) ==> forall i :: a <= i < b ==> !GetBit(mask, i)
    decreases b
  {
    if a < b {
      WeightMono(mask, a, b - 1);
    }
  }

  /** The `r`-th data bit from position `pos` of the input. */
  predicate DataBit(input: string, pos: nat, r: nat)
    requires pos + r / 8 < |input|
  {
    Bit(ByteAt(input, pos + r / 8), 7 - r % 8)
  }

  /** What the scatter loop has read before data bit `i`. */
  ghost predicate ReadSoFar(input: string, start: nat, pos: nat, b: byte, i: nat) {
    && pos == start + Bits2Bytes(i)
    && (i % 8 != 0 ==> start + i / 8 < |input| && b == ByteAt(input, start + i / 8))
  }

  lemma ReadNext(input: string, start: nat, pos: nat, b: byte, i: nat, c: byte, next: nat, bit: bool, i': nat)
    requires ReadSoFar(input, start, pos, b, i) && pos <= |input| && (i % 8 == 0 ==> pos < |input|)
    requires c == (if i % 8 == 0 then ByteAt(input, pos) else b) && next == (if i % 8 == 0 then pos + 1 else pos)
    requires bit == Bit(c, 7 - i % 8) && i' == i + 1
    ensures ReadSoFar(input, start, next, c, i') && next <= |input|
    ensures start + i / 8 < |input| && bit == DataBit(input, start, i)
  {
  }

  /** There is a set bit below `n` while the weight has not been reached. */
  lemma NextBelow(mask: seq<byte>, j: nat, n: nat) returns (k: nat)
    requires j <= n <= 8 * |mask| && Weight(mask, j) < Weight(mask, n)
    ensures k == NextSet(mask, j) < n && GetBit(mask, k)
    ensures Weight(mask, k) == Weight(mask, j) && Weight(mask, k + 1) == Weight(mask, j) + 1
  {
    k := NextSet(mask, j);
    if k >= n {
      WeightGap(mask, j, n);
    }
    WeightGap(mask, j, k);
  }

  /** One turn of the scatter loop. */
  lemma ScatterUnfold(input: string, pos: nat, b: byte, mask: seq<byte>, tdi: seq<byte>, i: nat, j: nat, size: nat)
      returns (c: byte, next: nat, bit: bool, put: seq<byte>, i': nat, j': nat)
    requires |tdi| == |mask| && i < size && j <= 8 * |mask| && (i % 8 != 0 || pos < |input|)
    requires NextSet(mask, j) < 8 * |mask|
    ensures c == (if i % 8 == 0 then ByteAt(input, pos) else b) && next == (if i % 8 == 0 then pos + 1 else pos)
    ensures bit == Bit(c, 7 - i % 8) && i' == i + 1
    ensures j' == NextSet(mask, j) + 1 && put == SetBit(tdi, NextSet(mask, j), bit)
    ensures Scatter(input, pos, b, mask, tdi, i, j, size) == Scatter(input, next, c, mask, put, i', j', size)
  {
    hide SetBit, NextSet, Bit, ByteAt;
    c := if i % 8 == 0 then ByteAt(input, pos) else b;
    next := if i % 8 == 0 then pos + 1 else pos;
    bit := Bit(c, 7 - i % 8);
    var k := NextSet(mask, j);
    i', j', put := i + 1, k + 1, SetBit(tdi, k, bit);
  }

  /** All `size` bits were found, in whole bytes, or the input ended before. */
  ghost predicate Fetched(input: string, start: nat, size: nat, s: Scattering) {
    if start + Bits2Bytes(size) <= |input| then s.Scattered? && s.pos == start + Bits2Bytes(size) else s == ScatterEof
  }

  lemma ScatterEnds(input: string, start: nat, pos: nat, b: byte, mask: seq<byte>, tdi: seq<byte>, i: nat, j: nat,
                    size: nat)
      returns (s: Scattering)
    requires |tdi| == |mask| && i <= size && j <= 8 * |mask|
    requires ReadSoFar(input, start, pos, b, i) && pos <= |input|
    requires i == size || (i % 8 == 0 && pos >= |input|)
    ensures s == Scatter(input, pos, b, mask, tdi, i, j, size) && Fetched(input, start, size, s)
  {
    s := Scatter(input, pos, b, mask, tdi, i, j, size);
  }

  /** With as many data bits as mask bits below `n`, the loop never leaves the
      buffer, reads whole bytes for its bits, and fails only if they are missing. */
  lemma {:induction false} ScatterReads(input: string, start: nat, pos: nat, b: byte, mask: seq<byte>, tdi: seq<byte>,
                                        i: nat, j: nat, n: nat, size: nat) returns (s: Scattering)
    requires |tdi| == |mask| && j <= n <= 8 * |mask| && i == Weight(mask, j) <= size == Weight(mask, n)
    requires ReadSoFar(input, start, pos, b, i) && pos <= |input|
    ensures s == Scatter(input, pos, b, mask, tdi, i, j, size) && Fetched(input, start, size, s)
    decreases n - j
  {
    hide Scatter, SetBit, ReadSoFar, NextSet, Fetched, DataBit;
    if i == size || (i % 8 == 0 && pos >= |input|) {
      s := ScatterEnds(input, start, pos, b, mask, tdi, i, j, size);
    } else {
      var c, next, put, k, i', j' := ScatterTurn(input, start, pos, b, mask, tdi, i, j, n, size);
      s := ScatterReads(input, start, next, c, mask, put, i', j', n, size);
    }
  }

  lemma ScatterTurn(input: string, start: nat, pos: nat, b: byte, mask: seq<byte>, tdi: seq<byte>,
                    i: nat, j: nat, n: nat, size: nat)
      returns (c: byte, next: nat, put: seq<byte>, k: nat, i': nat, j': nat)
    requires |tdi| == |mask| && j <= n <= 8 * |mask| && i == Weight(mask, j) < size == Weight(mask, n)
    requires ReadSoFar(input, start, pos, b, i) && pos <= |input|
    requires i % 8 != 0 || pos < |input|
    ensures j <= k < n && k == NextSet(mask, j) && Weight(mask, k) == i && j' == k + 1 && i' == Weight(mask, j')
    ensures ReadSoFar(input, start, next, c, i') && next <= |input| && |put| == |mask|
    ensures start + i / 8 < |input| && put == SetBit(tdi, k, DataBit(input, start, i))
    ensures Scatter(input, pos, b, mask, tdi, i, j, size) == Scatter(input, next, c, mask, put, i', j', size)
  {
    hide Bit, ByteAt, DataBit, GetBit, NextSet, ReadSoFar, Scatter, SetBit, Weight;
    k := NextBelow(mask, j, n);
    var bit;
    c, next, bit, put, i', j' := ScatterUnfold(input, pos, b, mask, tdi, i, j, size);
    ReadNext(input, start, pos, b, i, c, next, bit, i');
  }

  /** Bit `m` of what scattering made of `tdi`. */
  ghost predicate Delivered(input: string, start: nat, mask: seq<byte>, tdi: seq<byte>, j: nat, n: nat, s: Scattering,
                            m: nat)
    requires n <= 8 * |mask| == 8 * |tdi| && m < 8 * |mask| && (s.Scattered? ==> |s.tdi| == |tdi|)
  {
    s.Scattered? ==>
      if j <= m < n && GetBit(mask, m)
      then start + Weight(mask, m) / 8 < |input| && GetBit(s.tdi, m) == DataBit(input, start, Weight(mask, m))
      else GetBit(s.tdi, m) == GetBit(tdi, m)
  }

  lemma DeliverNext(input: string, start: nat, mask: seq<byte>, tdi: seq<byte>, j: nat, k: nat, n: nat, s: Scattering,
                    m: nat)
    requires |tdi| == |mask| && j <= n <= 8 * |mask| && k == NextSet(mask, j) < n && m < 8 * |mask|
    requires var i := Weight(mask, j);
             && Weight(mask, k) == i && start + i / 8 < |input|
             && (s.Scattered? ==> |s.tdi| == |tdi|)
             && Delivered(input, start, mask, SetBit(tdi, k, DataBit(input, start, i)), k + 1, n, s, m)
    ensures Delivered(input, start, mask, tdi, j, n, s, m)
  {
    SetBitGet(tdi, k, DataBit(input, start, Weight(mask, j)), m);
  }

  /** A masked bit receives the data bit of its rank among the masked bits; every
      other bit stays. */
  lemma {:induction false} ScatterWrites(input: string, start: nat, pos: nat, b: byte, mask: seq<byte>, tdi: seq<byte>,
                                         i: nat, j: nat, n: nat, size: nat, m: nat) returns (s: Scattering)
    requires |tdi| == |mask| && j <= n <= 8 * |mask| && i == Weight(mask, j) <= size == Weight(mask, n)
    requires ReadSoFar(input, start, pos, b, i) && pos <= |input| && m < 8 * |mask|
    ensures s == Scatter(input, pos, b, mask, tdi, i, j, size)
    ensures Delivered(input, start, mask, tdi, j, n, s, m)
    decreases n - j
  {
    hide GetBit, ReadSoFar, NextSet, DataBit, SetBit;
    if i == size || (i % 8 == 0 && pos >= |input|) {
      WeightMono(mask, j, n);
      s := Scatter(input, pos, b, mask, tdi, i, j, size);
    } else {
      var c, next, put, k, i', j' := ScatterTurn(input, start, pos, b, mask, tdi, i, j, n, size);
      s := ScatterWrites(input, start, next, c, mask, put, i', j', n, size, m);
      DeliverNext(input, start, mask, tdi, j, k, n, s, m);
    }
  }

  /** With enough input, whatever the masks were set for: the loop leaves the buffer
      exactly if it has more bits to place than there are masked bits left. */
  lemma {:induction false} ScatterStays(input: string, start: nat, pos: nat, b: byte, mask: seq<byte>, tdi: seq<byte>,
                                        i: nat, j: nat, size: nat, all: nat) returns (s: Scattering)
    requires |tdi| == |mask| && i <= size && j <= all == 8 * |mask|
    requires ReadSoFar(input, start, pos, b, i) && start + Bits2Bytes(size) <= |input|
    ensures s == Scatter(input, pos, b, mask, tdi, i, j, size)
    ensures if size - i <= Weight(mask, all) - Weight(mask, j) then s.Scattered? else s == Overrun
    decreases size - i
  {
    hide GetBit, SetBit, Bit, ByteAt, DataBit;
    var k := NextSet(mask, j);
    WeightGap(mask, j, k);
    WeightMono(mask, j, all);
    if i < size && k < all {
      var c, next, bit, put, i', j' := ScatterUnfold(input, pos, b, mask, tdi, i, j, size);
      ReadNext(input, start, pos, b, i, c, next, bit, i');
      WeightNext(mask, k, j');
      s := ScatterStays(input, start, next, c, mask, put, i', j', size, all);
    } else {
      s := Scatter(input, pos, b, mask, tdi, i, j, size);
    }
  }

  lemma WeightNext(mask: seq<byte>, k: nat, j: nat)
    requires j == k + 1 <= 8 * |mask| && GetBit(mask, k)
    ensures Weight(mask, j) == Weight(mask, k) + 1
  {
  }

  // ---------------------------------------------------------------------
  // Whole XSDRINC commands
  // ---------------------------------------------------------------------

  /** The masks were set for the present size. */
  predicate MasksCurrent(x: Xs)
    requires XsWf(x)
  {
    x.dataSize == Weight(x.data, x.drSize)
  }

  /** One update is defined exactly if no more data bits were counted than are masked
      now, as they are when the masks are current. */
  lemma UpdateDefined(input: string, x: Xs)
    requires XsWf(x) && x.pos + Bits2Bytes(x.dataSize) <= |input|
    ensures NextVector(input, x) == Overrun <==> x.dataSize > Weight(x.data, 8 * |x.data|)
    ensures MasksCurrent(x) ==> NextVector(input, x) != Overrun
  {
    hide Scatter, Increment;
    assert Weight(x.data, 0) == 0;
    var inc := Increment(x.addr, x.tdi, x.drSize, true);
    var _ := ScatterStays(input, x.pos, x.pos, 0, x.data, inc, 0, 0, x.dataSize, 8 * |x.data|);
    WeightMono(x.data, x.drSize, 8 * |x.data|);
  }

  /** Only a new size can make the masks stale, and setting them makes them current. */
  lemma MasksStay(input: string, x: Xs, last: byte, st: Player, env: Env)
    requires XsWf(x) && x.cmd != XSDRSIZE
    ensures var t := Execute(input, x, last, st, env);
            MasksCurrent(x) || (x.cmd == XSETSDRMASKS && t.flow == Go) ==> MasksCurrent(t.x)
  {
    hide XsWf, IrCommand, IncCommand;
    if !MasksCurrent(x) {
    } else if x.cmd == XSDRINC {
      var _ := IncCommandMasks(input, x, st, env);
    } else if x.cmd in {XSIR, XSIR2} {
      IrCommandMasks(input, x, if x.cmd == XSIR then 1 else 2, st, env);
    }
  }

  lemma IrCommandMasks(input: string, x: Xs, width: nat, st: Player, env: Env)
    requires XsWf(x) && MasksCurrent(x) && 1 <= width <= 2
    ensures MasksCurrent(IrCommand(input, x, width, st, env).x)
  {
  }

  lemma IncCommandMasks(input: string, x: Xs, st: Player, env: Env) returns (end: Turned)
    requires XsWf(x)
    ensures end == IncCommand(input, x, st, env) && end.x == x.(tdi := end.x.tdi, pos := end.x.pos)
  {
    hide IncEnd, Slice, IncScan, ByteAt, Bits2Bytes;
    var n := Bits2Bytes(x.drSize);
    end := Stop(x, st);
    if Has(input, x, n + 1) {
      var y := x.(tdi := Slice(input, x.pos, n), pos := x.pos + n + 1);
      end := IncMasks(input, x, y, ByteAt(input, x.pos + n), st, IncScan(y, env));
    }
  }

  /** XSDRINC changes the vector alone. */
  lemma {:induction false} IncMasks(input: string, x: Xs, y: Xs, num: nat, st: Player, scan: VectorScan)
      returns (end: Turned)
    requires XsWf(x) && XsWf(y) && y == x.(tdi := y.tdi, pos := y.pos)
    ensures end == IncEnd(input, y, num, st, scan)
    ensures end.x == x.(tdi := end.x.tdi, pos := end.x.pos)
    decreases num
  {
    var (st', ok) := scan(y.tdi, st);
    var s := NextVector(input, y);
    if ok && num > 0 && s.Scattered? {
      end := IncMasks(input, x, y.(tdi := s.tdi, pos := s.pos), num - 1, st', scan);
    } else {
      end := IncEnd(input, y, num, st, scan);
    }
  }

  ghost predicate Disjoint(x: Xs)
    requires XsWf(x)
  {
    forall i :: 0 <= i < x.drSize ==> !(GetBit(x.addr, i) && GetBit(x.data, i))
  }

  /** Bit `m` of the vector after `tdi`, whose data bytes start at `pos`. */
  lemma NextVectorBit(input: string, x: Xs, m: nat)
    requires XsWf(x) && MasksCurrent(x) && x.pos <= |input| && m < 8 * |x.tdi|
    ensures var s := NextVector(input, x);
            s.Scattered? ==>
              if m < x.drSize && GetBit(x.data, m)
              then x.pos + Weight(x.data, m) / 8 < |input|
                   && GetBit(s.tdi, m) == DataBit(input, x.pos, Weight(x.data, m))
              else GetBit(s.tdi, m) == GetBit(Increment(x.addr, x.tdi, x.drSize, true), m)
  {
    assert Weight(x.data, 0) == 0;
    var inc := Increment(x.addr, x.tdi, x.drSize, true);
    var _ := ScatterWrites(input, x.pos, x.pos, 0, x.data, inc, 0, 0, x.drSize, x.dataSize, m);
  }

  /** One update: the address counts up, data bits come from the input, all other
      bits stay. */
  lemma NextVectorIs(input: string, x: Xs)
    requires XsWf(x) && MasksCurrent(x) && Disjoint(x) && x.pos <= |input|
    ensures var s := NextVector(input, x);
            if x.pos + Bits2Bytes(x.dataSize) > |input| then s == ScatterEof
            else
              && s.Scattered? && s.pos == x.pos + Bits2Bytes(x.dataSize)
              && FieldValue(x.addr, s.tdi, x.drSize)
                 == (FieldValue(x.addr, x.tdi, x.drSize) + 1) % Pow2(Weight(x.addr, x.drSize))
  {
    hide Scatter, Weight, GetBit, FieldValue, Pow2, DataBit, Increment;
    assert Weight(x.data, 0) == 0;
    var inc := Increment(x.addr, x.tdi, x.drSize, true);
    var _ := ScatterReads(input, x.pos, x.pos, 0, x.data, inc, 0, 0, x.drSize, x.dataSize);
    var s := NextVector(input, x);
    if s.Scattered? {
      forall m: nat | m < x.drSize && GetBit(x.addr, m)
        ensures GetBit(s.tdi, m) == GetBit(inc, m)
      {
        NextVectorBit(input, x, m);
      }
      FieldValueSame(x.addr, s.tdi, inc, x.drSize);
      IncrementAdds(x.addr, x.tdi, x.drSize, true);
    }
  }

  /** Bit `m` of the `k`-th vector after `x.tdi`, for the bits that do not count:
      data bits come from the `k`-th group of input bytes, others stay. */
  ghost predicate VectorBit(input: string, x: Xs, v: seq<byte>, k: nat, m: nat)
    requires XsWf(x) && |v| == |x.tdi| && m < 8 * |v|
  {
    if m < x.drSize && GetBit(x.addr, m) then true
    else if k > 0 && m < x.drSize && GetBit(x.data, m) then
      var at := x.pos + (k - 1) * Bits2Bytes(x.dataSize);
      at + Weight(x.data, m) / 8 < |input| && GetBit(v, m) == DataBit(input, at, Weight(x.data, m))
    else GetBit(v, m) == GetBit(x.tdi, m)
  }

  ghost predicate VectorBits(input: string, x: Xs, v: seq<byte>, k: nat)
    requires XsWf(x) && |v| == |x.tdi|
  {
    forall m: nat :: m < 8 * |v| ==> VectorBit(input, x, v, k, m)
  }

  /** The address field has counted `k` up. */
  predicate VectorField(x: Xs, v: seq<byte>, k: nat)
    requires XsWf(x) && |v| == |x.tdi|
  {
    FieldValue(x.addr, v, x.drSize) == (FieldValue(x.addr, x.tdi, x.drSize) + k) % Pow2(Weight(x.addr, x.drSize))
  }

  /** The `k`-th vector after `x.tdi`. */
  ghost predicate VectorIs(input: string, x: Xs, v: seq<byte>, k: nat)
    requires XsWf(x)
  {
    |v| == |x.tdi| && VectorField(x, v, k) && VectorBits(input, x, v, k)
  }

  lemma {:induction false} FieldValueBound(mask: seq<byte>, data: seq<byte>, n: nat)
    requires n <= 8 * |mask| && |mask| == |data|
    ensures FieldValue(mask, data, n) < Pow2(Weight(mask, n))
    decreases n
  {
    if n > 0 {
      FieldValueBound(mask, data, n - 1);
    }
  }

  lemma FirstVector(input: string, x: Xs)
    requires XsWf(x)
    ensures VectorIs(input, x, x.tdi, 0)
  {
    FieldValueBound(x.addr, x.tdi, x.drSize);
    ModUnique(0, Pow2(Weight(x.addr, x.drSize)), FieldValue(x.addr, x.tdi, x.drSize));
  }

  /** Counting one and then `k` is counting `k + 1`, modulo p. */
  lemma ModShift(f: nat, g: nat, h: nat, k: nat, k': nat, p: nat)
    requires p > 0 && g == (f + 1) % p && h == (g + k) % p && k' == k + 1
    ensures h == (f + k') % p
  {
    var q := (f + 1) / p;
    assert f + 1 == q * p + g;
    ModAdd(q, p, g + k);
    assert f + k' == q * p + (g + k);
  }

  lemma ModAdd(q: nat, p: nat, u: nat)
    requires p > 0
    ensures (q * p + u) % p == u % p
  {
    var v, w := u / p, u % p;
    assert u == v * p + w;
    assert q * p + u == (q + v) * p + w by {
      assert (q + v) * p == q * p + v * p;
    }
    ModUnique(q + v, p, w);
  }

  /** `y` is `x` after one update. */
  ghost predicate Updated(input: string, x: Xs, y: Xs)
    requires XsWf(x)
  {
    && MasksCurrent(x) && Disjoint(x) && x.pos <= |input|
    && var s := NextVector(input, x); s.Scattered? && y == x.(tdi := s.tdi, pos := s.pos)
  }

  lemma SameLength(input: string, x: Xs, y: Xs)
    requires XsWf(x) && Updated(input, x, y)
    ensures |y.tdi| == |x.tdi|
  {
    hide Increment, Scatter, Disjoint, MasksCurrent;
  }

  lemma LaterBit(input: string, x: Xs, y: Xs, v: seq<byte>, k: nat, k': nat, m: nat)
    requires XsWf(x) && Updated(input, x, y) && k' == k + 1
    requires y.pos == x.pos + Bits2Bytes(x.dataSize)
    requires |v| == |y.tdi| && m < 8 * |v| && VectorBit(input, y, v, k, m)
    ensures VectorBit(input, x, v, k', m)
  {
    hide Weight, Increment, GetBit, MasksCurrent, DataBit, NextVector;
    SameLength(input, x, y);
    NextVectorBit(input, x, m);
    if m >= x.drSize || !GetBit(x.addr, m) {
      IncrementKeeps(x.addr, x.tdi, x.drSize, true, m);
    }
    NextGroup(x.pos, k, Bits2Bytes(x.dataSize));
  }

  lemma NextGroup(pos: nat, k: nat, g: nat)
    ensures pos + g + (k - 1) * g == pos + k * g
  {
    assert k * g == (k - 1) * g + g;
  }

  lemma LaterBits(input: string, x: Xs, y: Xs, v: seq<byte>, k: nat, k': nat)
    requires XsWf(x) && Updated(input, x, y) && k' == k + 1
    requires y.pos == x.pos + Bits2Bytes(x.dataSize)
    requires |v| == |y.tdi| && VectorBits(input, y, v, k)
    ensures VectorBits(input, x, v, k')
  {
    forall m: nat {:trigger VectorBit(input, x, v, k', m)} | m < 8 * |v|
      ensures VectorBit(input, x, v, k', m)
    {
      LaterBit(input, x, y, v, k, k', m);
    }
  }

  lemma LaterField(input: string, x: Xs, y: Xs, v: seq<byte>, k: nat, k': nat)
    requires XsWf(x) && Updated(input, x, y) && k' == k + 1
    requires |v| == |x.tdi| && VectorField(y, v, k)
    ensures VectorField(x, v, k') && y.pos == x.pos + Bits2Bytes(x.dataSize)
  {
    hide Weight, FieldValue, Disjoint, Pow2, MasksCurrent;
    var p := Pow2(Weight(x.addr, x.drSize));
    var f, g := FieldValue(x.addr, x.tdi, x.drSize), FieldValue(x.addr, y.tdi, x.drSize);
    var h := FieldValue(x.addr, v, x.drSize);
    NextVectorIs(input, x);
    ModShift(f, g, h, k, k', p);
  }

  lemma LaterVector(input: string, x: Xs, y: Xs, v: seq<byte>, k: nat, k': nat)
    requires XsWf(x) && Updated(input, x, y) && k' == k + 1
    requires VectorIs(input, y, v, k)
    ensures VectorIs(input, x, v, k')
  {
    LaterField(input, x, y, v, k, k');
    LaterBits(input, x, y, v, k, k');
  }

  /** The scans of the given vectors, until one fails. */
  function ShiftAll(scan: VectorScan, vs: seq<seq<byte>>, st: Player): (Player, bool)
    decreases |vs|
  {
    if vs == [] then (st, true)
    else
      var (st', ok) := scan(vs[0], st);
      if !ok then (st', false) else ShiftAll(scan, vs[1..], st')
  }

  ghost predicate Counts(input: string, x: Xs, vs: seq<seq<byte>>)
    requires XsWf(x)
  {
    forall k :: 0 <= k < |vs| ==> VectorIs(input, x, vs[k], k)
  }

  /** How an XSDRINC goes: its vectors count up, `num + 1` of them unless a scan
      fails or input is missing, and each update takes ceil(data_size / 8) bytes. */
  ghost predicate IncOk(input: string, x: Xs, num: nat, r: Inc)
    requires XsWf(x)
  {
    && Counts(input, x, r.scans)
    && r.end.flow in {Go, Fail}
    && (r.end.flow == Go ==> |r.scans| == num + 1 && r.end.x.pos == x.pos + num * Bits2Bytes(x.dataSize))
  }

  /** One turn of the loop: `more` tells if there is another. */
  lemma IncUnfold(input: string, x: Xs, num: nat, st: Player, scan: VectorScan) returns (mid: Player, more: bool, y: Xs)
    requires XsWf(x) && MasksCurrent(x) && Disjoint(x) && x.pos <= |input|
    ensures XsWf(y) && mid == scan(x.tdi, st).0
    ensures !more ==>
              var r := IncLoop(input, x, num, st, scan);
              && r.end.st == mid && (num == 0 && scan(x.tdi, st).1 ==> r.end.flow == Go)
              && r.scans == [x.tdi] && r.end.x == x
              && (r.end.flow == Fail || (r.end.flow == Go && num == 0 && scan(x.tdi, st).1))
    ensures more ==>
              num > 0 && scan(x.tdi, st).1 &&
              var s, rest := NextVector(input, x), IncLoop(input, y, num - 1, mid, scan);
              && s.Scattered? && y == x.(tdi := s.tdi, pos := s.pos)
              && y.pos <= |input| && MasksCurrent(y) && Disjoint(y)
              && IncLoop(input, x, num, st, scan) == Inc(rest.end, [x.tdi] + rest.scans)
  {
    var s := NextVector(input, x);
    NextVectorIs(input, x);
    mid, y := scan(x.tdi, st).0, x;
    more := scan(x.tdi, st).1 && num > 0 && s.Scattered?;
    if more {
      y := x.(tdi := s.tdi, pos := s.pos);
      SameMasks(x, y);
    }
  }

  lemma SameMasks(x: Xs, y: Xs)
    requires XsWf(x) && MasksCurrent(x) && Disjoint(x) && XsWf(y) && y == x.(tdi := y.tdi, pos := y.pos)
    ensures MasksCurrent(y) && Disjoint(y)
  {
  }

  lemma OneVector(input: string, x: Xs, num: nat, r: Inc)
    requires XsWf(x) && r.scans == [x.tdi] && r.end.x == x
    requires r.end.flow == Fail || (r.end.flow == Go && num == 0)
    ensures IncOk(input, x, num, r)
  {
    FirstVector(input, x);
  }

  lemma MoreVectors(input: string, x: Xs, y: Xs, num: nat, rest: Inc)
    requires XsWf(x) && MasksCurrent(x) && Disjoint(x) && x.pos <= |input| && num > 0
    requires var s := NextVector(input, x); s.Scattered? && y == x.(tdi := s.tdi, pos := s.pos)
    ensures IncOk(input, y, num - 1, rest) ==> IncOk(input, x, num, Inc(rest.end, [x.tdi] + rest.scans))
  {
    if IncOk(input, y, num - 1, rest) {
      NextVectorIs(input, x);
      LaterVectors(input, x, y, rest.scans);
      var g := Bits2Bytes(x.dataSize);
      assert y.pos + (num - 1) * g == x.pos + num * g;
    }
  }

  /** XSDRINC with masks that are current and disjoint. */
  lemma {:induction false} IncVectors(input: string, x: Xs, num: nat, st: Player, scan: VectorScan) returns (r: Inc)
    requires XsWf(x) && MasksCurrent(x) && Disjoint(x) && x.pos <= |input|
    ensures r == IncLoop(input, x, num, st, scan) && IncOk(input, x, num, r)
    decreases num
  {
    hide Disjoint, IncLoop, IncOk, MasksCurrent, NextVector, XsWf;
    var mid, more, y := IncUnfold(input, x, num, st, scan);
    if more {
      var rest := IncVectors(input, y, num - 1, mid, scan);
      MoreVectors(input, x, y, num, rest);
      r := Inc(rest.end, [x.tdi] + rest.scans);
    } else {
      r := IncLoop(input, x, num, st, scan);
      OneVector(input, x, num, r);
    }
  }

  lemma LaterVectors(input: string, x: Xs, y: Xs, vs: seq<seq<byte>>)
    requires XsWf(x) && MasksCurrent(x) && Disjoint(x) && x.pos <= |input|
    requires var s := NextVector(input, x); s.Scattered? && y == x.(tdi := s.tdi, pos := s.pos)
    requires Counts(input, y, vs)
    ensures Counts(input, x, [x.tdi] + vs)
  {
    FirstVector(input, x);
    forall k | 0 <= k < |vs| + 1
      ensures VectorIs(input, x, ([x.tdi] + vs)[k], k)
    {
      if k > 0 {
        LaterVector(input, x, y, vs[k - 1], k - 1, k);
      }
    }
  }

  /** The host sees the scans of those vectors and nothing else. */
  ghost predicate Shows(num: nat, st: Player, scan: VectorScan, r: Inc) {
    && r.end.st == ShiftAll(scan, r.scans, st).0
    && (r.end.flow == Go <==> |r.scans| == num + 1 && ShiftAll(scan, r.scans, st).1)
  }

  lemma ShiftAllCons(scan: VectorScan, v: seq<byte>, vs: seq<seq<byte>>, st: Player)
    ensures var (st', ok) := scan(v, st);
            ShiftAll(scan, [v] + vs, st) == if ok then ShiftAll(scan, vs, st') else (st', false)
  {
    assert ([v] + vs)[1..] == vs;
  }

  lemma {:induction false} IncShifts(input: string, x: Xs, num: nat, st: Player, scan: VectorScan) returns (r: Inc)
    requires XsWf(x) && MasksCurrent(x) && Disjoint(x) && x.pos <= |input|
    ensures r == IncLoop(input, x, num, st, scan) && Shows(num, st, scan, r)
    decreases num
  {
    hide NextVector, XsWf, IncLoop, MasksCurrent, Disjoint;
    var mid, more, y := IncUnfold(input, x, num, st, scan);
    if more {
      var rest := IncShifts(input, y, num - 1, mid, scan);
      ShiftAllCons(scan, x.tdi, rest.scans, st);
      r := Inc(rest.end, [x.tdi] + rest.scans);
    } else {
      r := IncLoop(input, x, num, st, scan);
      ShiftAllCons(scan, x.tdi, [], st);
      assert [x.tdi] + [] == [x.tdi];
    }
  }

  /** XSDRINC with current, disjoint masks is masked binary arithmetic: the host
      sees the scans of vectors whose address field counts up from the first one's
      modulo the field's size, whose data bits are the successive groups of input
      bits, and whose other bits never change. */
  lemma XsdrincCounts(input: string, x: Xs, num: nat, st: Player, env: Env) returns (r: Inc)
    requires XsWf(x) && MasksCurrent(x) && Disjoint(x) && x.pos <= |input|
    ensures r == IncLoop(input, x, num, st, IncScan(x, env))
    ensures IncOk(input, x, num, r) && Shows(num, st, IncScan(x, env), r)
  {
    r := IncVectors(input, x, num, st, IncScan(x, env));
    var _ := IncShifts(input, x, num, st, IncScan(x, env));
  }
}
