/** What shift_data puts on the wire, in terms of the numbers that its buffers denote
    (svfload/libxsvf/xsvf.c:177-233). */
module XsvfWire {
  import opened Bits
  import opened HostApi
  import opened SvfTracking
  import opened TapWalk
  import opened XsvfIncrement
  import opened XsvfModel
  import opened XsvfPadding

  // ---------------------------------------------------------------------
  // Numbers
  // ---------------------------------------------------------------------

  /** The number that bytes denote, the first one most significant. */
  function Number(bytes: seq<byte>): nat {
    if bytes == [] then 0 else 256 * Number(bytes[..|bytes| - 1]) + bytes[|bytes| - 1]
  }

  lemma {:induction false} BitAbove(a: nat, b: nat, p: nat, n: nat, i: nat)
    requires p == Pow2(n) && b < p
    ensures Bit(p * a + b, i) == if i < n then Bit(b, i) else Bit(a, i - n)
    decreases n
  {
    if n == 0 {
    } else {
      var q := Pow2(n - 1);
      Halves(a, b, q);
      if i > 0 {
        BitAbove(a, b / 2, q, n - 1, i - 1);
      }
    }
  }

  lemma Halves(a: nat, b: nat, q: nat)
    ensures (2 * q * a + b) / 2 == q * a + b / 2 && (2 * q * a + b) % 2 == b % 2
  {
    var m := q * a;
    assert 2 * q * a == 2 * m;
  }

  /** Bit `k` of the number is the bit that getbit reads `k` before the last one. */
  lemma {:induction false} NumberBit(bytes: seq<byte>, k: nat)
    requires k < 8 * |bytes|
    ensures Bit(Number(bytes), k) == GetBit(bytes, 8 * |bytes| - 1 - k)
    decreases |bytes|
  {
    var n := |bytes| - 1;
    var i := 8 * |bytes| - 1 - k;
    Pow2Of8();
    BitAbove(Number(bytes[..n]), bytes[n], 256, 8, k);
    if k >= 8 {
      NumberBit(bytes[..n], k - 8);
      assert i == 8 * n - 1 - (k - 8) && i / 8 < n;
    } else {
      assert i / 8 == n && 7 - i % 8 == k;
    }
  }

  // ---------------------------------------------------------------------
  // One attempt
  // ---------------------------------------------------------------------

  /** Bit `k` of a number, where there is one. */
  predicate BitOf(bytes: Option<seq<byte>>, k: nat) {
    bytes.Some? && Bit(Number(bytes.value), k)
  }

  /** The `k`-th cycle of a shift: bit `k` of the vector on TDI, TDO checked where the
      mask has a bit, against the bit expected, and TMS high on the last one to leave. */
  function WireBit(j: Shift, retry: bool, k: nat): Act {
    var last := k + 1 == j.len;
    Pulse(last && j.state != j.estate, Some(BitOf(Some(j.inp), k)),
          if BitOf(j.maskp, k) then Some(BitOf(j.outp, k)) else None, false, retry && last)
  }

  function WireBits(j: Shift, retry: bool): (acts: seq<Act>)
    ensures |acts| == j.len
    ensures forall k :: 0 <= k < j.len ==> acts[k] == WireBit(j, retry, k)
  {
    seq(j.len, k requires 0 <= k => WireBit(j, retry, k))
  }

  lemma WireBitIs(j: Shift, retry: bool, k: nat, i: nat)
    requires ShiftWf(j) && k < j.len && i == LeftPadding(j.len) + j.len - 1 - k
    ensures PulseOf(j, retry, i) == WireBit(j, retry, k)
  {
    ShiftedBits(j.len);
    NumberBit(j.inp, k);
    if j.outp.Some? {
      NumberBit(j.outp.value, k);
    }
    if j.maskp.Some? {
      NumberBit(j.maskp.value, k);
    }
  }

  lemma PulsesAreBits(j: Shift, retry: bool)
    requires ShiftWf(j)
    ensures ShiftPulses(j, retry, j.len) == WireBits(j, retry)
  {
    var acts := ShiftPulses(j, retry, j.len);
    forall k: nat | k < j.len
      ensures acts[k] == WireBit(j, retry, k)
    {
      WireBitIs(j, retry, k, LeftPadding(j.len) + j.len - 1 - k);
    }
  }

  function WayIn(j: Shift, tap: int): seq<Act> {
    Transitions(Walk(tap, j.state).tms)
  }

  /** The way to the end state, or to Run-Test/Idle and a wait there. */
  function WayOut(j: Shift): seq<Act> {
    var tap := if j.len > 0 && j.state != j.estate then j.state + 1 else j.state;
    if j.delay == 0 then Transitions(Walk(tap, j.estate).tms)
    else Transitions(Walk(tap, IDLE).tms) + [Delay(j.delay, false, j.delay)]
  }

  /** Where a shift ends: with a wait in Run-Test/Idle, whatever the end state is. */
  function EndTap(j: Shift): int {
    if j.delay == 0 then j.estate else IDLE
  }

  lemma AttemptIs(j: Shift, retry: bool, st: Player, env: Env)
    requires ShiftWf(j) && Legal(st.tap)
    ensures Attempt(j, retry, st, env)
            == (Player(EndTap(j), st.log + WayIn(j, st.tap) + WireBits(j, retry) + WayOut(j)),
                if AnyNegative(st.log + WayIn(j, st.tap), WireBits(j, retry), env) then Mismatched else Matched)
  {
    WalkStepsTrack(st.tap, j.state);
    var tap := ShiftTap(j);
    WalkStepsTrack(tap, IDLE);
    WalkStepsTrack(tap, j.estate);
    PulsesAreBits(j, retry);
    hide Transitions, Walk, WireBits, ShiftPulses, AnyNegative;
    var log := st.log + WayIn(j, st.tap) + WireBits(j, retry);
    if j.delay != 0 {
      assert log + Transitions(Walk(tap, IDLE).tms) + [Delay(j.delay, false, j.delay)] == log + WayOut(j);
    }
  }

  // ---------------------------------------------------------------------
  // All attempts
  // ---------------------------------------------------------------------

  /** Where attempt `n` starts. */
  function TapAt(j: Shift, tap: int, n: nat): int {
    if n == 0 then tap else EndTap(j)
  }

  /** The requests of the first `n` attempts. */
  function Tries(j: Shift, retry: bool, tap: int, n: nat): seq<Act> {
    if n == 0 then []
    else Tries(j, retry, tap, n - 1) + (WayIn(j, TapAt(j, tap, n - 1)) + WireBits(j, retry) + WayOut(j))
  }

  /** Attempt `n` sees a wrong TDO level. */
  predicate Wrong(j: Shift, retry: bool, log: seq<Act>, tap: int, n: nat, env: Env) {
    AnyNegative(log + Tries(j, retry, tap, n) + WayIn(j, TapAt(j, tap, n)), WireBits(j, retry), env)
  }

  lemma OneTry(j: Shift, retry: bool, log: seq<Act>, tap: int, n: nat, next: nat, env: Env)
    requires ShiftWf(j) && Legal(TapAt(j, tap, n)) && next == n + 1
    ensures Attempt(j, retry, Player(TapAt(j, tap, n), log + Tries(j, retry, tap, n)), env)
            == (Player(TapAt(j, tap, next), log + Tries(j, retry, tap, next)),
                if Wrong(j, retry, log, tap, n, env) then Mismatched else Matched)
    ensures Legal(TapAt(j, tap, next))
  {
    hide WireBits, WayIn, WayOut, Attempt, AnyNegative, ShiftWf, Legal, Wrong;
    var now, done := TapAt(j, tap, n), Tries(j, retry, tap, n);
    AttemptIs(j, retry, Player(now, log + done), env);
    WrongIs(j, retry, log, tap, n, env);
    EndsLegal(j);
    TriesNext(j, retry, tap, n, next);
    JoinTry(log, done, WayIn(j, now), WireBits(j, retry), WayOut(j));
  }

  lemma WrongIs(j: Shift, retry: bool, log: seq<Act>, tap: int, n: nat, env: Env)
    ensures Wrong(j, retry, log, tap, n, env)
            == AnyNegative(log + Tries(j, retry, tap, n) + WayIn(j, TapAt(j, tap, n)), WireBits(j, retry), env)
  {
  }

  lemma EndsLegal(j: Shift)
    requires ShiftWf(j)
    ensures Legal(EndTap(j))
  {
  }

  lemma TriesNext(j: Shift, retry: bool, tap: int, n: nat, next: nat)
    requires next == n + 1
    ensures Tries(j, retry, tap, next)
            == Tries(j, retry, tap, n) + (WayIn(j, TapAt(j, tap, n)) + WireBits(j, retry) + WayOut(j))
  {
    hide WayIn, WireBits, WayOut;
  }

  lemma JoinTry(log: seq<Act>, done: seq<Act>, a: seq<Act>, b: seq<Act>, c: seq<Act>)
    ensures log + done + a + b + c == log + (done + (a + b + c))
  {
  }

  /** The attempts from number `n` on: up to the first one that is not wrong. */
  lemma {:induction false} TriesGo(j: Shift, retry: bool, log: seq<Act>, tap: int, n: nat, left: nat, env: Env)
      returns (last: nat)
    requires ShiftWf(j) && Legal(TapAt(j, tap, n))
    ensures n <= last <= n + left
    ensures forall m :: n <= m < last ==> Wrong(j, retry, log, tap, m, env)
    ensures Wrong(j, retry, log, tap, last, env) ==> last == n + left
    ensures Attempts(j, retry, left, Player(TapAt(j, tap, n), log + Tries(j, retry, tap, n)), env)
            == (Player(EndTap(j), log + Tries(j, retry, tap, last + 1)), !Wrong(j, retry, log, tap, last, env))
    decreases left
  {
    hide Wrong, Tries, Attempt, ShiftWf, Legal;
    OneTry(j, retry, log, tap, n, n + 1, env);
    if Wrong(j, retry, log, tap, n, env) && left > 0 {
      last := TriesGo(j, retry, log, tap, n + 1, left - 1, env);
    } else {
      last := n;
    }
  }

  /** shift_data clocks the vector's bits, in at most `retries + 1` attempts, until none
      of an attempt's answers is negative; it succeeds exactly if that happens, and if
      the sync that a shift with retries starts with goes well. No walk of it fails. */
  lemma ShiftDataIs(j: Shift, retries: nat, retry: bool, st: Player, env: Env) returns (last: nat, log: seq<Act>)
    requires ShiftWf(j) && Legal(st.tap) && retry == (retries > 0)
    ensures log == if retry then st.log + [Sync] else st.log
    ensures last <= retries && forall m :: 0 <= m < last ==> Wrong(j, retry, log, st.tap, m, env)
    ensures Wrong(j, retry, log, st.tap, last, env) ==> last == retries
    ensures ShiftData(j, retries, st, env)
            == if retry && env(log) < 0 then (Player(st.tap, log), false)
               else (Player(EndTap(j), log + Tries(j, retry, st.tap, last + 1)),
                     !Wrong(j, retry, log, st.tap, last, env))
  {
    log := if retry then st.log + [Sync] else st.log;
    hide Wrong, Attempts, ShiftWf, Legal;
    assert log + Tries(j, retry, st.tap, 0) == log;
    last := TriesGo(j, retry, log, st.tap, 0, retries, env);
  }

  // ---------------------------------------------------------------------
  // XSDRINC
  // ---------------------------------------------------------------------

  /** The number that TDI carries in the cycles from `k` on that a mask selects, the
      first of them least significant. */
  function Carried(mask: nat, acts: seq<Act>, k: nat): nat
    decreases if k < |acts| then |acts| - k else 0
  {
    if k >= |acts| then 0
    else
      var v := Carried(mask, acts, k + 1);
      if Bit(mask, k) then 2 * v + BoolToNat(acts[k].Pulse? && acts[k].tdi == Some(true)) else v
  }

  /** How many cycles those are, of `n`. */
  function Masked(mask: nat, n: nat, k: nat): nat
    decreases if k < n then n - k else 0
  {
    if k >= n then 0 else Masked(mask, n, k + 1) + BoolToNat(Bit(mask, k))
  }

  lemma FieldStep(mask: seq<byte>, data: seq<byte>, lo: nat, n: nat, m: nat)
    requires lo < n <= 8 * |mask| && |mask| == |data| && m == n - 1
    ensures FieldFrom(mask, data, lo, n)
            == if GetBit(mask, m) then 2 * FieldFrom(mask, data, lo, m) + BoolToNat(GetBit(data, m))
               else FieldFrom(mask, data, lo, m)
    ensures Between(mask, lo, n) == Between(mask, lo, m) + BoolToNat(GetBit(mask, m))
  {
    hide GetBit;
  }

  /** The masked cycles of a scan carry the masked field of its vector. */
  lemma {:induction false} CarriedIs(mask: seq<byte>, j: Shift, retry: bool, k: nat, n: nat)
    requires ShiftWf(j) && |mask| == |j.inp| && k <= j.len && n == 8 * |mask| - k
    ensures Carried(Number(mask), WireBits(j, retry), k) == FieldFrom(mask, j.inp, LeftPadding(j.len), n)
    ensures Masked(Number(mask), j.len, k) == Between(mask, LeftPadding(j.len), n)
    decreases j.len - k
  {
    hide GetBit, Number, FieldFrom, Between, WireBits, Bit;
    ShiftedBits(j.len);
    if k == j.len {
      NoField(mask, j.inp, LeftPadding(j.len));
    } else {
      var m: nat := n - 1;
      NumberBit(mask, k);
      NumberBit(j.inp, k);
      assert WireBits(j, retry)[k] == WireBit(j, retry, k);
      FieldStep(mask, j.inp, LeftPadding(j.len), n, m);
      CarriedIs(mask, j, retry, k + 1, m);
    }
  }

  lemma NoField(mask: seq<byte>, data: seq<byte>, lo: nat)
    requires lo <= 8 * |mask| && |mask| == |data|
    ensures FieldFrom(mask, data, lo, lo) == 0 && Between(mask, lo, lo) == 0
  {
  }

  /** The scan of a vector within an XSDRINC. */
  function IncJob(x: Xs, v: seq<byte>): (j: Shift)
    requires XsWf(x) && |v| == |x.tdi|
    ensures ShiftWf(j) && j.inp == v && j.len == x.drSize
  {
    DrShiftJob(x.(tdi := v), XSDRINC)
  }

  /** What the address cycles of the scan of `v` carry. */
  function AddressCarried(x: Xs, v: seq<byte>, retry: bool): nat
    requires XsWf(x) && |v| == |x.tdi|
  {
    Carried(Number(x.addr), WireBits(IncJob(x, v), retry), 0)
  }

  lemma AddressIs(x: Xs, v: seq<byte>, retry: bool)
    requires XsWf(x) && |v| == |x.tdi|
    ensures AddressCarried(x, v, retry) == FieldFrom(x.addr, v, LeftPadding(x.drSize), 8 * |x.addr|)
    ensures Masked(Number(x.addr), x.drSize, 0) == Between(x.addr, LeftPadding(x.drSize), 8 * |x.addr|)
  {
    hide FieldFrom, Between, Number, WireBits;
    CarriedIs(x.addr, IncJob(x, v), retry, 0, 8 * |x.addr|);
  }

  /** The next vector has the incremented one's address bits, where the masks do not
      overlap. */
  lemma NextAddress(input: string, x: Xs)
    requires XsWf(x) && MasksCurrent(x) && Disjoint(x) && x.pos + Bits2Bytes(x.dataSize) <= |input|
    ensures var s := NextVector(input, x);
            && s.Scattered? && |s.tdi| == |x.tdi|
            && FieldFrom(x.addr, s.tdi, LeftPadding(x.drSize), 8 * |x.addr|)
               == FieldFrom(x.addr, Increment(x.addr, x.tdi, x.drSize, true), LeftPadding(x.drSize), 8 * |x.addr|)
  {
    EnoughInput(input, x);
    hide NextVector, Increment, GetBit, FieldFrom;
    var s, inc := NextVector(input, x), Increment(x.addr, x.tdi, x.drSize, true);
    forall m: nat | m < 8 * |x.addr| && GetBit(x.addr, m)
      ensures GetBit(s.tdi, m) == GetBit(inc, m)
    {
      NextVectorBit(input, x, m);
    }
    FieldFromSame(x.addr, s.tdi, inc, LeftPadding(x.drSize), 8 * |x.addr|);
  }

  /** The address that the target gets on TDI counts up by one from a scan to the next,
      modulo its size, if and only if no shifted bit from index `drSize` on belongs to
      it. */
  lemma AddressCountsOnTdi(input: string, x: Xs, retry: bool)
    requires XsWf(x) && MasksCurrent(x) && Disjoint(x) && x.pos + Bits2Bytes(x.dataSize) <= |input|
    ensures var s := NextVector(input, x);
            && s.Scattered? && |s.tdi| == |x.tdi|
            && (AddressCarried(x, s.tdi, retry)
                  == (AddressCarried(x, x.tdi, retry) + 1) % Pow2(Masked(Number(x.addr), x.drSize, 0))
                <==> NoneBeyond(x.addr, x.drSize))
  {
    hide NextVector, Increment, FieldFrom, Between, Number, AddressCarried, Masked, Pow2, NoneBeyond;
    NextAddress(input, x);
    AddressIs(x, NextVector(input, x).tdi, retry);
    AddressIs(x, x.tdi, retry);
    AddressOnTheWire(x.addr, x.tdi, x.drSize);
  }

  /** In the scan after that of `t`, every cycle that the data mask selects carries the
      input's bit of its rank. */
  ghost predicate DataCarried(input: string, x: Xs, t: seq<byte>, retry: bool)
    requires XsWf(x) && |t| == |x.tdi|
  {
    var s := NextVector(input, x.(tdi := t));
    && s.Scattered? && |s.tdi| == |t|
    && forall k: nat :: k < x.drSize && Bit(Number(x.data), k) ==> CycleCarries(input, x, s.tdi, retry, k)
  }

  predicate CycleCarries(input: string, x: Xs, v: seq<byte>, retry: bool, k: nat)
    requires XsWf(x) && |v| == |x.tdi| && k < x.drSize
  {
    var rank := Weight(x.data, 8 * |x.data| - 1 - k);
    x.pos + rank / 8 < |input|
    && WireBits(IncJob(x, v), retry)[k].tdi == Some(DataBit(input, x.pos, rank))
  }

  lemma CycleIs(input: string, x: Xs, v: seq<byte>, retry: bool, k: nat, m: nat)
    requires XsWf(x) && |v| == |x.tdi| && k < x.drSize && m == 8 * |v| - 1 - k
    ensures Bit(Number(x.data), k) == GetBit(x.data, m)
    ensures CycleCarries(input, x, v, retry, k)
            <==> x.pos + Weight(x.data, m) / 8 < |input| && GetBit(v, m) == DataBit(input, x.pos, Weight(x.data, m))
  {
    hide GetBit, Number, Bit, Weight, DataBit;
    NumberBit(x.data, k);
    NumberBit(v, k);
    assert WireBits(IncJob(x, v), retry)[k] == WireBit(IncJob(x, v), retry, k);
  }

  lemma DataIs(input: string, x: Xs, t: seq<byte>, retry: bool)
    requires XsWf(x) && |t| == |x.tdi|
    ensures DataCarried(input, x, t, retry) <==> DataShifted(input, x, t)
  {
    hide GetBit, Number, Bit, Weight, DataBit, CycleCarries, WireBits, NextVector, Scatter;
    var s := NextVector(input, x.(tdi := t));
    NextLength(input, x.(tdi := t));
    ShiftedBits(x.drSize);
    if s.Scattered? {
      if DataCarried(input, x, t, retry) {
        forall m: nat | m < 8 * |t| && IsShifted(x.drSize, m) && GetBit(x.data, m)
          ensures x.pos + Weight(x.data, m) / 8 < |input|
          ensures GetBit(s.tdi, m) == DataBit(input, x.pos, Weight(x.data, m))
        {
          CycleIs(input, x, s.tdi, retry, 8 * |t| - 1 - m, m);
        }
      }
      if DataShifted(input, x, t) {
        forall k: nat | k < x.drSize && Bit(Number(x.data), k)
          ensures CycleCarries(input, x, s.tdi, retry, k)
        {
          CycleIs(input, x, s.tdi, retry, k, 8 * |t| - 1 - k);
        }
      }
    }
  }

  lemma NextLength(input: string, x: Xs)
    requires XsWf(x)
    ensures NextVector(input, x).Scattered? ==> |NextVector(input, x).tdi| == |x.tdi|
  {
    hide Increment, Scatter;
  }

  /** The target gets all data bits on TDI, whatever the vector before, if and only if no
      shifted bit from index `drSize` on is masked. */
  lemma DataArrivesOnTdi(input: string, x: Xs, retry: bool)
    requires XsWf(x) && MasksCurrent(x) && x.pos + Bits2Bytes(x.dataSize) <= |input|
    ensures NoneBeyond(x.data, x.drSize)
            <==> forall t: seq<byte> :: |t| == |x.tdi| ==> DataCarried(input, x, t, retry)
  {
    hide DataCarried, DataShifted, NoneBeyond, MasksCurrent;
    forall t: seq<byte> | |t| == |x.tdi|
      ensures DataCarried(input, x, t, retry) <==> DataShifted(input, x, t)
    {
      DataIs(input, x, t, retry);
    }
    DataOnTheWire(input, x);
  }
}
