/** The pins of both hosts in terms of the requests: every level that a request asks
    for is on the wire, at its cycle. */
module WireLog {
  import opened FtdiCorrect
  import opened FtdiLog
  import opened FtdiModel
  import opened GpioModel
  import opened HostApi
  import opened Mpsse
  import opened Playing
  import opened TapController

  /** The TMS levels of a wire. */
  function Levels(wire: seq<Wire>): (r: seq<bool>)
    ensures |r| == |wire|
  {
    seq(|wire|, i requires 0 <= i < |wire| => wire[i].tms)
  }

  lemma OneTms(a: Act)
    ensures |ActCells(a)| == |ActTms(a)| && forall i :: 0 <= i < |ActTms(a)| ==> ActCells(a)[i].tms == ActTms(a)[i]
  {
  }

  /** A log asks for one pulse in every clock cycle. */
  lemma {:induction false} CellsTms(log: seq<Act>)
    ensures |CellsOf(log)| == Clocks(log)
    ensures forall i :: 0 <= i < Clocks(log) ==> CellsOf(log)[i].tms == TmsOf(log)[i]
    decreases |log|
  {
    hide ActCells, ActTms;
    if log != [] {
      CellsTms(log[..|log| - 1]);
      OneTms(log[|log| - 1]);
    }
  }

  lemma {:induction false} CellsPrefix(log: seq<Act>, k: nat)
    requires k <= |log|
    ensures Clocks(log[..k]) <= |CellsOf(log)| && CellsOf(log)[..Clocks(log[..k])] == CellsOf(log[..k])
    decreases |log|
  {
    hide ActCells;
    CellsTms(log[..k]);
    if k < |log| {
      var n := |log| - 1;
      CellsPrefix(log[..n], k);
      assert log[..n][..k] == log[..k];
    } else {
      assert log[..k] == log;
    }
  }

  /** The cell of request `k`, a pulse. */
  lemma PulseCell(log: seq<Act>, k: nat) returns (n: nat)
    requires k < |log| && log[k].Pulse?
    ensures n == Clocks(log[..k]) < |CellsOf(log)|
    ensures var a, d := log[k], CellsOf(log)[n];
            && d.tms == a.tms && d.rmask == a.rmask
            && d.tdiEnable == a.tdi.Some? && (a.tdi.Some? ==> d.tdi == a.tdi.value)
            && d.tdoEnable == a.tdo.Some? && (a.tdo.Some? ==> d.tdo == a.tdo.value)
  {
    n := Clocks(log[..k]);
    CellsTms(log[..k]);
    CellsPrefix(log, k + 1);
    assert log[..k + 1][..k] == log[..k];
    assert CellsOf(log[..k + 1]) == CellsOf(log[..k]) + ActCells(log[k]);
  }

  /** Every TMS level of a log is on the wire, and every TDI level that it drives. */
  ghost predicate OnWire(wire: seq<Wire>, log: seq<Act>) {
    Levels(wire) == TmsOf(log) && forall k: nat :: k < |log| ==> TdiOnWire(wire, log, k)
  }

  predicate TdiOnWire(wire: seq<Wire>, log: seq<Act>, k: nat)
    requires k < |log|
  {
    log[k].Pulse? && log[k].tdi.Some? ==>
      Clocks(log[..k]) < |wire| && wire[Clocks(log[..k])].tdi == log[k].tdi.value
  }

  lemma ShownIsOnWire(wire: seq<Wire>, log: seq<Act>)
    requires Shows(wire, CellsOf(log))
    ensures OnWire(wire, log)
  {
    CellsTms(log);
    hide CellsOf, TmsOf;
    assert Levels(wire) == TmsOf(log);
    forall k: nat | k < |log|
      ensures TdiOnWire(wire, log, k)
    {
      if log[k].Pulse? {
        var n := PulseCell(log, k);
      }
    }
  }

  /** On the GPIO host after any log. */
  lemma GpioOnWire(dev: Device, gs: Gpio, log: seq<Act>)
    requires GpioSetUp(gs)
    ensures OnWire(GpioAfter(dev, gs, log).wire, log)
  {
    GpioMeaning(dev, gs, log);
    hide GpioAfter, OnWire, CellsOf, Shows;
    ShownIsOnWire(GpioAfter(dev, gs, log).wire, log);
  }

  /** And on the FTDI host, once it has answered a sync. */
  lemma FtdiOnWire(dev: Device, size: nat, fs: Ftdi, log: seq<Act>)
    requires SetUp(fs) && 0 < size <= BUFFER_SIZE
    ensures OnWire(FtdiAfter(dev, size, fs, log + [Sync]).chip.wire, log + [Sync])
  {
    hide FtdiAfter, OnWire, CellsOf, Shows, SetUp, FtdiEnv;
    var t, sent := FtdiAnswers(dev, size, fs, log, Sync);
    assert sent + [] == sent;
    ShownIsOnWire(t.chip.wire, log + [Sync]);
  }

  /** A request that checks TDO is wrong exactly if the line shows the other level in
      its cycle. */
  lemma WrongIs(dev: Device, wire: seq<Wire>, log: seq<Act>, k: nat)
    requires |wire| == |CellsOf(log)| && k < |log| && log[k].Pulse?
    ensures var n := Clocks(log[..k]);
            && n < |wire|
            && Wrong(dev, wire, CellsOf(log), n) == (log[k].tdo.Some? && TdoAt(dev, wire, n) != log[k].tdo.value)
  {
    var n := PulseCell(log, k);
  }

  /** A whole run leads the hardware to Test-Logic-Reset by the levels on the pins,
      from any state, on both hosts. */
  lemma PinsEndInReset(dev: Device, size: nat, fs: Ftdi, gs: Gpio, mode: Mode, input: string, board: Board, hw: Tap)
    requires SetUp(fs) && GpioSetUp(gs) && 0 < size <= BUFFER_SIZE && board.setup >= 0 && Steady(mode, input, 0)
    ensures var g := Play(mode, input, 0, [], board, GpioEnv(dev, gs));
            !g.undefined ==> Run(hw, Levels(GpioAfter(dev, gs, g.st.log).wire)) == Reset
    ensures var f := Play(mode, input, 0, [], board, FtdiEnv(dev, size, fs));
            !f.undefined ==> Run(hw, Levels(FtdiAfter(dev, size, fs, f.st.log).chip.wire)) == Reset
  {
    hide GpioEnv, FtdiEnv, GpioAfter, FtdiAfter, Steady, RunMode, GpioSetUp;
    PlayEndsInReset(mode, input, 0, [], board, hw, GpioEnv(dev, gs));
    PlayEndsInReset(mode, input, 0, [], board, hw, FtdiEnv(dev, size, fs));
    var g := Play(mode, input, 0, [], board, GpioEnv(dev, gs));
    var f := Play(mode, input, 0, [], board, FtdiEnv(dev, size, fs));
    GpioOnWire(dev, gs, g.st.log);
    if !f.undefined {
      var log := f.st.log[..|f.st.log| - 1];
      assert f.st.log == log + [Sync];
      FtdiOnWire(dev, size, fs, log);
    }
  }
}
