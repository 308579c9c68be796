/** The JTAG layer of papilio-prog that buffers TMS bits (papilio-prog/iobase.cpp):
    the tracked state runs ahead of the wire. */
module LazyTms {
  import opened Bits
  import opened HostApi
  import opened Mpsse
  import opened TapController
  import Tx = TxTms
  import opened TxTms

  // ---------------------------------------------------------------------
  // The walk
  // ---------------------------------------------------------------------

  /** setTapState's table: the TMS bit and the state it records on the way from
      `s` to `t`. */
  function Toward(s: Tap, t: Tap): (bool, Tap) {
    match s
    case Reset => (false, Idle)
    case Idle => (true, DrSelect)
    case DrSelect =>
      if t in {DrCapture, DrShift, DrExit1, DrPause, DrExit2, DrUpdate} then (false, DrCapture) else (true, IrSelect)
    case DrCapture => if t == DrShift then (false, DrShift) else (true, DrExit1)
    case DrShift => (true, DrExit1)
    case DrExit1 => if t in {DrPause, DrExit2, DrShift, DrExit1} then (false, DrPause) else (true, DrUpdate)
    case DrPause => (true, DrExit2)
    case DrExit2 => if t in {DrShift, DrExit1, DrPause} then (false, DrShift) else (true, DrUpdate)
    case DrUpdate => if t == Idle then (false, Idle) else (true, DrSelect)
    case IrSelect =>
      if t in {IrCapture, IrShift, IrExit1, IrPause, IrExit2, IrUpdate} then (false, IrCapture) else (true, Reset)
    case IrCapture => if t == IrShift then (false, IrShift) else (true, IrExit1)
    case IrShift => (true, IrExit1)
    case IrExit1 => if t in {IrPause, IrExit2, IrShift, IrExit1} then (false, IrPause) else (true, IrUpdate)
    case IrPause => (true, IrExit2)
    case IrExit2 => if t in {IrShift, IrExit1, IrPause} then (false, IrShift) else (true, IrUpdate)
    case IrUpdate => if t == Idle then (false, Idle) else (true, DrSelect)
  }

  function FromDrSelect(t: Tap): (n: nat)
    ensures n <= 5
  {
    match t
    case DrSelect => 0
    case DrCapture | IrSelect => 1
    case DrShift | DrExit1 | Reset | IrCapture => 2
    case DrPause | DrUpdate | IrShift | IrExit1 | Idle => 3
    case DrExit2 | IrPause | IrUpdate => 4
    case IrExit2 => 5
  }

  function FromUpdate(t: Tap): (n: nat)
    ensures n <= 6
  {
    if t == Idle then 1 else 1 + FromDrSelect(t)
  }

  function FromExit2(t: Tap, shift: Tap, exit1: Tap, pause: Tap, exit2: Tap, update: Tap): (n: nat)
    ensures n <= 7
  {
    if t == exit2 then 0 else if t == shift || t == update then 1
    else if t == exit1 then 2 else if t == pause then 3 else 1 + FromUpdate(t)
  }

  function FromExit1(t: Tap, shift: Tap, exit1: Tap, pause: Tap, exit2: Tap, update: Tap): (n: nat)
    ensures n <= 7
  {
    if t == exit1 then 0 else if t == pause || t == update then 1
    else if t == exit2 then 2 else if t == shift then 3 else 1 + FromUpdate(t)
  }

  function FromIdle(t: Tap): (n: nat)
    ensures n <= 6
  {
    if t == Idle then 0 else 1 + FromDrSelect(t)
  }

  function FromReset(t: Tap): (n: nat)
    ensures n <= 7
  {
    if t == Reset then 0 else 1 + FromIdle(t)
  }

  /** The number of turns from `s` to `t`. */
  function Turns(s: Tap, t: Tap): (n: nat)
    ensures n <= 8
  {
    if s == t then 0
    else
      match s
      case Reset => FromReset(t)
      case Idle => FromIdle(t)
      case DrSelect => FromDrSelect(t)
      case DrCapture => if t == DrShift then 1 else 1 + FromExit1(t, DrShift, DrExit1, DrPause, DrExit2, DrUpdate)
      case DrShift => 1 + FromExit1(t, DrShift, DrExit1, DrPause, DrExit2, DrUpdate)
      case DrExit1 => FromExit1(t, DrShift, DrExit1, DrPause, DrExit2, DrUpdate)
      case DrPause => 1 + FromExit2(t, DrShift, DrExit1, DrPause, DrExit2, DrUpdate)
      case DrExit2 => FromExit2(t, DrShift, DrExit1, DrPause, DrExit2, DrUpdate)
      case DrUpdate => FromUpdate(t)
      case IrSelect => if t in {IrCapture, IrShift, IrExit1, IrPause, IrExit2, IrUpdate}
                       then FromDrSelect(t) - 1 else 1 + FromReset(t)
      case IrCapture => if t == IrShift then 1 else 1 + FromExit1(t, IrShift, IrExit1, IrPause, IrExit2, IrUpdate)
      case IrShift => 1 + FromExit1(t, IrShift, IrExit1, IrPause, IrExit2, IrUpdate)
      case IrExit1 => FromExit1(t, IrShift, IrExit1, IrPause, IrExit2, IrUpdate)
      case IrPause => 1 + FromExit2(t, IrShift, IrExit1, IrPause, IrExit2, IrUpdate)
      case IrExit2 => FromExit2(t, IrShift, IrExit1, IrPause, IrExit2, IrUpdate)
      case IrUpdate => FromUpdate(t)
  }

  lemma TowardFollows(s: Tap, t: Tap)
    requires s != t
    ensures var (tms, u) := Toward(s, t); u == Next(s, tms)
  {
  }

  lemma EntryApproaches(s: Tap, t: Tap)
    requires s != t && s in {DrCapture, DrShift, DrPause, IrCapture, IrShift, IrPause}
    ensures Turns(Toward(s, t).1, t) < Turns(s, t)
  {
    hide FromDrSelect, FromUpdate, FromIdle, FromReset, FromExit1, FromExit2;
  }

  lemma Exit1Approaches(s: Tap, t: Tap)
    requires s != t && s in {DrExit1, IrExit1}
    ensures Turns(Toward(s, t).1, t) < Turns(s, t)
  {
    hide FromDrSelect, FromUpdate, FromIdle, FromReset;
  }

  lemma Exit2Approaches(s: Tap, t: Tap)
    requires s != t && s in {DrExit2, IrExit2}
    ensures Turns(Toward(s, t).1, t) < Turns(s, t)
  {
    hide FromDrSelect, FromUpdate, FromIdle, FromReset;
  }

  lemma SelectApproaches(s: Tap, t: Tap)
    requires s != t && s in {DrSelect, IrSelect}
    ensures Turns(Toward(s, t).1, t) < Turns(s, t)
  {
    hide FromExit2;
  }

  lemma OuterApproaches(s: Tap, t: Tap)
    requires s != t && s in {Reset, Idle, DrUpdate, IrUpdate}
    ensures Turns(Toward(s, t).1, t) < Turns(s, t)
  {
    hide FromDrSelect, FromExit1, FromExit2;
  }

  /** The table follows the controller and gets nearer to every target. */
  lemma TowardApproaches(s: Tap, t: Tap)
    requires s != t
    ensures var (tms, u) := Toward(s, t); u == Next(s, tms) && Turns(u, t) < Turns(s, t)
  {
    TowardFollows(s, t);
    if s in {DrCapture, DrShift, DrPause, IrCapture, IrShift, IrPause} {
      EntryApproaches(s, t);
    } else if s in {DrExit1, IrExit1} {
      Exit1Approaches(s, t);
    } else if s in {DrExit2, IrExit2} {
      Exit2Approaches(s, t);
    } else if s in {DrSelect, IrSelect} {
      SelectApproaches(s, t);
    } else {
      OuterApproaches(s, t);
    }
  }

  /** The TMS bits that lead from `s` to `t`. */
  function PathTo(s: Tap, t: Tap): (bits: seq<bool>)
    ensures |bits| <= Turns(s, t)
    decreases Turns(s, t)
  {
    if s == t then []
    else
      TowardApproaches(s, t);
      var (tms, u) := Toward(s, t);
      [tms] + PathTo(u, t)
  }

  lemma {:induction false} PathArrives(s: Tap, t: Tap)
    ensures Run(s, PathTo(s, t)) == t
    decreases Turns(s, t)
  {
    if s != t {
      TowardApproaches(s, t);
      var (tms, u) := Toward(s, t);
      PathArrives(u, t);
      RunConcat(s, [tms], PathTo(u, t));
      RunOne(s, tms);
    }
  }

  // ---------------------------------------------------------------------
  // What the operations mean
  // ---------------------------------------------------------------------

  /** The tracked state (None while unknown) and every TCK cycle asked for: those
      on the wire, then those still buffered. */
  datatype Bus = Bus(state: Option<Tap>, line: seq<Wire>)

  function WithTms(b: Bus, bits: seq<bool>): Bus {
    b.(line := b.line + HighTdi(bits))
  }

  function ResetBus(b: Bus): Bus {
    WithTms(b, Repeat(true, 5)).(state := Some(Reset))
  }

  /** Where setTapState's loop starts walking. */
  function Known(b: Bus): (k: Bus)
    ensures k.state.Some?
  {
    if b.state.None? then WithTms(ResetBus(b), [true]) else b
  }

  function WalkBus(b: Bus, t: Tap): Bus {
    var k := Known(b);
    WithTms(k, PathTo(k.state.value, t)).(state := Some(t))
  }

  function SetStateBus(b: Bus, t: Tap, pre: nat): Bus {
    WithTms(WalkBus(b, t), Repeat(false, pre))
  }

  predicate InShift(s: Option<Tap>) {
    s == Some(DrShift) || s == Some(IrShift)
  }

  function NextBus(b: Bus, tms: bool): Bus {
    if !InShift(b.state) then ResetBus(b)
    else if tms then b.(state := Some(Next(b.state.value, true)))
    else b
  }

  function ShiftBits(n: nat, last: bool): seq<bool>
    requires n > 0
  {
    Repeat(false, n - 1) + [last]
  }

  /** shift: the TDI argument does not reach the wire. */
  function ShiftBus(b: Bus, n: nat, last: bool): Bus {
    if n == 0 then b else NextBus(WithTms(b, ShiftBits(n, last)), last)
  }

  /** Data on TDI, TMS raised on the last bit if `last`. */
  function DataWires(data: seq<bool>, last: bool): (r: seq<Wire>)
    ensures |r| == |data|
    ensures forall k :: 0 <= k < |data| ==> r[k] == Wire(last && k == |data| - 1, data[k])
  {
    seq(|data|, k requires 0 <= k < |data| => Wire(last && k == |data| - 1, data[k]))
  }

  function ShiftDataBus(b: Bus, data: seq<bool>, last: bool): Bus {
    if data == [] then b else NextBus(b.(line := b.line + DataWires(data, last)), last)
  }

  /** What TDO shows while data goes out after the line `line`. */
  function DataTdo(dev: Device, line: seq<Wire>, data: seq<bool>, last: bool): (tdo: seq<bool>)
    ensures |tdo| == |data|
    ensures forall k :: 0 <= k < |data| ==> tdo[k] == TdoAt(dev, line + DataWires(data, last), |line| + k)
  {
    var all := line + DataWires(data, last);
    seq(|data|, k requires 0 <= k < |data| => TdoAt(dev, all, |line| + k))
  }

  const CHUNK_BITS := 128 * 8

  class IOBase {
    const dev: Device
    var currentState: Option<Tap>
    const tmsBuf: array<byte>
    var tmsLen: nat
    var wire: seq<Wire>

    /** Bits of the buffer that are not in use are zero. */
    ghost predicate Valid()
      reads this, tmsBuf
    {
      && tmsBuf.Length == 128 && tmsLen <= CHUNK_BITS
      && forall i: nat :: tmsLen <= i < CHUNK_BITS ==> !PatBit(tmsBuf[..], i)
    }

    ghost function Pending(): seq<bool>
      requires Valid()
      reads this, tmsBuf
    {
      PatBits(tmsBuf[..], tmsLen)
    }

    ghost function Value(): Bus
      requires Valid()
      reads this, tmsBuf
    {
      Bus(currentState, wire + HighTdi(Pending()))
    }

    constructor (dev: Device)
      ensures Valid() && fresh(tmsBuf) && this.dev == dev
      ensures Value() == Bus(None, []) && tmsLen == 0
    {
      this.dev := dev;
      currentState := None;
      tmsBuf := new byte[128](_ => 0);
      tmsLen, wire := 0, [];
      new;
      ZeroBuffer(tmsBuf[..]);
    }

    method FlushTms()
      requires Valid()
      modifies `tmsLen, `wire, tmsBuf
      ensures Valid() && tmsLen == 0
      ensures Value() == old(Value())
      ensures wire == old(Value().line)
    {
      if tmsLen != 0 {
        var code := Tx.Send(tmsBuf, tmsLen);
        var cycles := TmsCycles(code);
        wire := wire + cycles.value;
      }
      forall i | 0 <= i < tmsBuf.Length {
        tmsBuf[i] := 0;
      }
      tmsLen := 0;
      ZeroBuffer(tmsBuf[..]);
    }

    /** One bit into the buffer. */
    method PutTms(tms: bool)
      requires Valid() && tmsLen < CHUNK_BITS
      modifies `tmsLen, tmsBuf
      ensures Valid() && tmsLen == old(tmsLen) + 1
      ensures Value() == WithTms(old(Value()), [tms])
    {
      hide HighTdi, Bit, OrBit, PatBit, PatBits;
      ghost var was := tmsBuf[..];
      var b := tmsBuf[tmsLen / 8];
      OrBitByte(b, tmsLen % 8, tms);
      tmsBuf[tmsLen / 8] := OrBit(b, tmsLen % 8, tms);
      tmsLen := tmsLen + 1;
      PutPattern(was, tmsBuf[..], tmsLen - 1, tms);
      assert wire + HighTdi(PatBits(was, tmsLen - 1)) + HighTdi([tms]) == wire + HighTdi(Pending());
    }

    /** Bits that are zero already: only the count grows. */
    method SkipTms(n: nat)
      requires Valid() && tmsLen + n <= CHUNK_BITS
      modifies `tmsLen
      ensures Valid() && tmsLen == old(tmsLen) + n
      ensures Value() == WithTms(old(Value()), Repeat(false, n))
    {
      ghost var len := tmsLen;
      tmsLen := tmsLen + n;
      assert PatBits(tmsBuf[..], len + n) == PatBits(tmsBuf[..], len) + Repeat(false, n);
      HighTdiConcat(PatBits(tmsBuf[..], len), Repeat(false, n));
      assert wire + (HighTdi(PatBits(tmsBuf[..], len)) + HighTdi(Repeat(false, n)))
          == wire + HighTdi(PatBits(tmsBuf[..], len)) + HighTdi(Repeat(false, n));
    }

    /** Five ones; the source does not check that they fit. */
    method TapTestLogicReset()
      requires Valid() && tmsLen + 5 <= CHUNK_BITS
      modifies `currentState, `tmsLen, tmsBuf
      ensures Valid() && tmsLen == old(tmsLen) + 5
      ensures Value() == ResetBus(old(Value()))
    {
      ghost var b := Value();
      var i := 0;
      assert b.line + HighTdi(Repeat(true, 0)) == b.line;
      while i < 5
        invariant 0 <= i <= 5 && Valid() && tmsLen == old(tmsLen) + i
        invariant currentState == old(currentState) && Value() == WithTms(b, Repeat(true, i))
      {
        PutTms(true);
        WithTmsMore(b, Repeat(true, i), [true]);
        assert Repeat(true, i) + [true] == Repeat(true, i + 1);
        i := i + 1;
      }
      currentState := Some(Reset);
    }

    /** After the last bit of a shift. */
    method NextTapState(tms: bool)
      requires Valid() && (!InShift(currentState) ==> tmsLen + 5 <= CHUNK_BITS)
      modifies `currentState, `tmsLen, tmsBuf
      ensures Valid() && tmsLen == old(tmsLen) + (if InShift(old(currentState)) then 0 else 5)
      ensures Value() == NextBus(old(Value()), tms)
    {
      if currentState == Some(DrShift) {
        if tms {
          currentState := Some(DrExit1);
        }
      } else if currentState == Some(IrShift) {
        if tms {
          currentState := Some(IrExit1);
        }
      } else {
        TapTestLogicReset();
      }
    }

    /** Where the next bits of a shift go. */
    ghost function Start(): nat
      reads this
    {
      if tmsLen >= CHUNK_BITS then 0 else tmsLen
    }

    /** The bits must fit the buffer; TDI is high whatever is asked for. */
    method Shift(tdi: bool, length: nat, last: bool)
      requires Valid()
      requires Start() + length + (if length > 0 && !InShift(currentState) then 5 else 0) <= CHUNK_BITS
      modifies this, tmsBuf
      ensures Valid() && tmsLen <= old(tmsLen) + |Value().line| - |old(Value().line)|
      ensures Value() == ShiftBus(old(Value()), length, last)
    {
      hide InShift, WithTms, NextBus, Repeat;
      if length == 0 {
        return;
      }
      if tmsLen >= CHUNK_BITS {
        FlushTms();
      }
      ghost var b := Value();
      SkipTms(length - 1);
      PutTms(last);
      WithTmsMore(b, Repeat(false, length - 1), [last]);
      NextTapState(last);
    }

    /** txrx_block: bits on TDI, TMS with the last one if asked for; and what TDO
        shows in each cycle. */
    method TxrxBlock(tdi: seq<bool>, last: bool) returns (tdo: seq<bool>)
      requires Valid() && tmsLen == 0
      modifies `wire
      ensures Value() == old(Value()).(line := old(Value().line) + DataWires(tdi, last))
      ensures tdo == DataTdo(dev, old(Value().line), tdi, last)
    {
      tdo := DataTdo(dev, wire, tdi, last);
      assert wire + HighTdi(Pending()) == wire;
      wire := wire + DataWires(tdi, last);
      assert HighTdi(Pending()) == [];
    }

    method ShiftTDITDO(tdi: seq<bool>, last: bool) returns (tdo: seq<bool>)
      requires Valid()
      modifies this, tmsBuf
      ensures Valid() && (tdi == [] ==> tmsLen == old(tmsLen))
      ensures tdi != [] ==> tmsLen == if InShift(old(currentState)) then 0 else 5
      ensures Value() == ShiftDataBus(old(Value()), tdi, last)
      ensures tdo == DataTdo(dev, old(Value().line), tdi, last)
    {
      if tdi == [] {
        return [];
      }
      FlushTms();
      tdo := TxrxBlock(tdi, last);
      NextTapState(last);
    }

    /** One turn of the walk's loop. */
    method StepToward(t: Tap)
      requires Valid() && currentState != Some(t)
      requires currentState.None? ==> tmsLen + 5 <= CHUNK_BITS
      modifies this, tmsBuf
      ensures Valid() && currentState.Some?
      ensures tmsLen <= old(tmsLen) + |Value().line| - |old(Value().line)|
      ensures var b := old(Value());
              Value() == if b.state.None? then Known(b)
                         else WithTms(b, [Toward(b.state.value, t).0]).(state := Some(Toward(b.state.value, t).1))
    {
      var tms := true;
      if currentState.None? {
        TapTestLogicReset();
      } else {
        tms := Toward(currentState.value, t).0;
        currentState := Some(Toward(currentState.value, t).1);
      }
      if tmsLen >= CHUNK_BITS {
        FlushTms();
      }
      PutTms(tms);
    }

    /** setTapState, with `pre` more cycles in the state it reaches. */
    method SetTapState(t: Tap, pre: nat)
      requires Valid() && pre <= CHUNK_BITS
      requires currentState.None? ==> tmsLen + 5 <= CHUNK_BITS
      modifies this, tmsBuf
      ensures Valid() && tmsLen <= old(tmsLen) + |Value().line| - |old(Value().line)|
      ensures Value() == SetStateBus(old(Value()), t, pre)
    {
      hide WithTms, WalkBus, Known, Turns, Repeat, Toward;
      ghost var b := Value();
      while currentState != Some(t)
        invariant Valid()
        invariant tmsLen <= old(tmsLen) + |Value().line| - |b.line|
        invariant currentState.None? ==> Value() == b && tmsLen == old(tmsLen)
        invariant WalkBus(Value(), t) == WalkBus(b, t)
        decreases if currentState.None? then 100 else Turns(currentState.value, t)
      {
        WalkStep(Value(), t);
        StepToward(t);
      }
      WalkDone(Value(), t);
      if pre != 0 {
        if tmsLen + pre >= CHUNK_BITS {
          FlushTms();
        }
        SkipTms(pre);
      } else {
        WithNone(Value());
      }
    }
  }

  lemma HighTdiConcat(a: seq<bool>, b: seq<bool>)
    ensures HighTdi(a + b) == HighTdi(a) + HighTdi(b)
  {
  }

  lemma WithTmsMore(b: Bus, x: seq<bool>, y: seq<bool>)
    ensures WithTms(WithTms(b, x), y) == WithTms(b, x + y)
  {
    HighTdiConcat(x, y);
    assert b.line + HighTdi(x) + HighTdi(y) == b.line + (HighTdi(x) + HighTdi(y));
  }

  lemma WithNone(b: Bus)
    ensures WithTms(b, Repeat(false, 0)) == b
  {
    assert b.line + HighTdi(Repeat(false, 0)) == b.line;
  }

  lemma PathStep(s: Tap, t: Tap) returns (tms: bool, u: Tap)
    requires s != t
    ensures (tms, u) == Toward(s, t) && PathTo(s, t) == [tms] + PathTo(u, t) && Turns(u, t) < Turns(s, t)
  {
    hide Turns, Next, Toward;
    TowardApproaches(s, t);
    tms, u := Toward(s, t).0, Toward(s, t).1;
  }

  /** A turn of the loop leaves the rest of the walk. */
  lemma WalkStep(b: Bus, t: Tap)
    requires b.state != Some(t)
    ensures b.state.None? ==> WalkBus(Known(b), t) == WalkBus(b, t) && Turns(Reset, t) < 100
    ensures b.state.Some? ==>
              var (tms, u) := Toward(b.state.value, t);
              && WalkBus(WithTms(b, [tms]).(state := Some(u)), t) == WalkBus(b, t)
              && Turns(u, t) < Turns(b.state.value, t)
  {
    if b.state.Some? {
      var tms, u := PathStep(b.state.value, t);
      WithTmsMore(b, [tms], PathTo(u, t));
    }
  }

  lemma WalkDone(b: Bus, t: Tap)
    requires b.state == Some(t)
    ensures WalkBus(b, t) == b
  {
    assert b.line + HighTdi([]) == b.line;
  }

  lemma ZeroBuffer(pat: seq<byte>)
    requires forall i :: 0 <= i < |pat| ==> pat[i] == 0
    ensures forall i: nat :: i < 8 * |pat| ==> !PatBit(pat, i)
  {
    forall i: nat | i < 8 * |pat|
      ensures !PatBit(pat, i)
    {
      ZeroBit(i % 8);
    }
  }

  lemma PutPattern(was: seq<byte>, now: seq<byte>, n: nat, v: bool)
    requires n < 8 * |was| && |now| == |was| && now == was[n / 8 := now[n / 8]]
    requires forall j: nat :: Bit(now[n / 8], j) == ((n % 8 == j && v) || Bit(was[n / 8], j))
    requires !PatBit(was, n)
    ensures PatBits(now, n + 1) == PatBits(was, n) + [v]
    ensures forall i: nat :: n < i < 8 * |was| ==> PatBit(now, i) == PatBit(was, i)
  {
    forall i: nat | i < 8 * |was|
      ensures PatBit(now, i) == if i == n then v else PatBit(was, i)
    {
    }
  }
}
