/** The tracked state of papilio-prog/iobase.cpp against the controller that gets
    every bit sent followed by every bit still buffered. */
module LazyTracking {
  import opened HostApi
  import opened LazyTms
  import opened Mpsse
  import opened TapController
  import opened TxTms

  function TmsLevels(ws: seq<Wire>): (r: seq<bool>)
    ensures |r| == |ws|
    ensures forall i :: 0 <= i < |ws| ==> r[i] == ws[i].tms
  {
    seq(|ws|, i requires 0 <= i < |ws| => ws[i].tms)
  }

  /** Where a line takes the controller. */
  function Hardware(hw: Tap, line: seq<Wire>): Tap {
    Run(hw, TmsLevels(line))
  }

  lemma HardwareConcat(hw: Tap, a: seq<Wire>, b: seq<Wire>)
    ensures Hardware(hw, a + b) == Hardware(Hardware(hw, a), b)
  {
    assert TmsLevels(a + b) == TmsLevels(a) + TmsLevels(b);
    RunConcat(hw, TmsLevels(a), TmsLevels(b));
  }

  lemma HardwareHigh(hw: Tap, bits: seq<bool>)
    ensures Hardware(hw, HighTdi(bits)) == Run(hw, bits)
  {
    assert TmsLevels(HighTdi(bits)) == bits;
  }

  /** A known state is the controller's, wherever that started. */
  ghost predicate InStep(b: Bus) {
    b.state.Some? ==> forall hw: Tap :: Hardware(hw, b.line) == b.state.value
  }

  lemma MoreBits(b: Bus, bits: seq<bool>, s: Option<Tap>)
    requires s.Some? ==> if b.state.Some? && InStep(b) then Run(b.state.value, bits) == s.value
                         else forall hw: Tap :: Run(hw, bits) == s.value
    ensures InStep(WithTms(b, bits).(state := s))
  {
    forall hw: Tap
      ensures s.Some? ==> Hardware(hw, WithTms(b, bits).line) == s.value
    {
      HardwareConcat(hw, b.line, HighTdi(bits));
      HardwareHigh(Hardware(hw, b.line), bits);
    }
  }

  lemma ResetInStep(b: Bus)
    ensures InStep(ResetBus(b))
  {
    forall hw: Tap
      ensures Run(hw, Repeat(true, 5)) == Reset
    {
      OnesReset(hw, 5);
    }
    MoreBits(b, Repeat(true, 5), Some(Reset));
  }

  lemma WalkInStep(b: Bus, t: Tap)
    requires InStep(b)
    ensures InStep(WalkBus(b, t))
  {
    var k := Known(b);
    if b.state.None? {
      ResetInStep(b);
      RunOne(Reset, true);
      MoreBits(ResetBus(b), [true], Some(Reset));
    }
    PathArrives(k.state.value, t);
    MoreBits(k, PathTo(k.state.value, t), Some(t));
  }

  /** Extra cycles keep the state right exactly in the states they do not leave. */
  lemma SetStateInStep(b: Bus, t: Tap, pre: nat)
    requires InStep(b)
    ensures InStep(SetStateBus(b, t, pre)) <==> pre == 0 || Holds(t)
  {
    var w := WalkBus(b, t);
    WalkInStep(b, t);
    if pre == 0 {
      WithNone(w);
    } else {
      ZerosKeep(t, pre);
      HardwareConcat(Reset, w.line, HighTdi(Repeat(false, pre)));
      HardwareHigh(t, Repeat(false, pre));
      if Holds(t) {
        MoreBits(w, Repeat(false, pre), Some(t));
      }
    }
  }

  /** One extra cycle in Test-Logic-Reset makes the recorded state wrong. */
  lemma ResetPadded()
    ensures InStep(Bus(None, [])) && !InStep(SetStateBus(Bus(None, []), Reset, 1))
  {
    SetStateInStep(Bus(None, []), Reset, 1);
  }

  /** The end of a shift that raised TMS with its last bit alone. */
  lemma NextInStep(b: Bus, ws: seq<Wire>, last: bool)
    requires InStep(b) && ws != []
    requires forall k :: 0 <= k < |ws| ==> ws[k].tms == (last && k == |ws| - 1)
    ensures InStep(NextBus(b.(line := b.line + ws), last))
  {
    var c := b.(line := b.line + ws);
    if !InShift(b.state) {
      ResetInStep(c);
    } else {
      var s, bits, n := b.state.value, TmsLevels(ws), |ws| - 1;
      ShiftRun(s, bits[..n]);
      forall hw: Tap
        ensures Hardware(hw, c.line) == Next(s, last)
      {
        HardwareConcat(hw, b.line, ws);
      }
    }
  }

  lemma ShiftInStep(b: Bus, n: nat, last: bool)
    requires InStep(b)
    ensures InStep(ShiftBus(b, n, last))
  {
    if n > 0 {
      NextInStep(b, HighTdi(ShiftBits(n, last)), last);
    }
  }

  lemma ShiftDataInStep(b: Bus, data: seq<bool>, last: bool)
    requires InStep(b)
    ensures InStep(ShiftDataBus(b, data, last))
  {
    if data != [] {
      NextInStep(b, DataWires(data, last), last);
    }
  }

  datatype Op =
    | SetTapState(t: Tap, pre: nat)
    | Shift(n: nat, last: bool)
    | ShiftTDITDO(data: seq<bool>, last: bool)
    | TapTestLogicReset
    | FlushTms

  function Apply(b: Bus, op: Op): Bus {
    match op
    case SetTapState(t, pre) => SetStateBus(b, t, pre)
    case Shift(n, last) => ShiftBus(b, n, last)
    case ShiftTDITDO(data, last) => ShiftDataBus(b, data, last)
    case TapTestLogicReset => ResetBus(b)
    case FlushTms => b
  }

  function ApplyAll(b: Bus, ops: seq<Op>): Bus {
    if ops == [] then b else Apply(ApplyAll(b, ops[..|ops| - 1]), ops[|ops| - 1])
  }

  predicate Padded(op: Op) {
    op.SetTapState? ==> op.pre == 0 || Holds(op.t)
  }

  /** From an unknown power-up state, after any operations in any order: the
      tracked state is that of all bits sent followed by all bits pending. */
  lemma {:induction false} AlwaysInStep(ops: seq<Op>)
    requires forall i :: 0 <= i < |ops| ==> Padded(ops[i])
    ensures InStep(ApplyAll(Bus(None, []), ops))
    decreases |ops|
  {
    if ops != [] {
      var b, op := ApplyAll(Bus(None, []), ops[..|ops| - 1]), ops[|ops| - 1];
      AlwaysInStep(ops[..|ops| - 1]);
      match op
      case SetTapState(t, pre) => SetStateInStep(b, t, pre);
      case Shift(n, last) => ShiftInStep(b, n, last);
      case ShiftTDITDO(data, last) => ShiftDataInStep(b, data, last);
      case TapTestLogicReset => ResetInStep(b);
      case FlushTms =>
    }
  }
}
