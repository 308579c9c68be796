/** `libxsvf_scan` on the two hosts: both read a chain's IDCODEs, although the FTDI
    host sees TDO only in its reply bytes. */
module ScanOnHosts {
  import opened Bits
  import C = ChainScan
  import opened FtdiCorrect
  import opened FtdiLevel
  import opened FtdiLog
  import opened FtdiModel
  import opened GpioModel
  import opened HostApi
  import opened Mpsse
  import P = Playing
  import opened TapController
  import opened TapWalk
  import opened XsvfModel

  /** From an unknown state through Test-Logic-Reset to Shift-DR. */
  const TO_SHIFT: seq<bool> := Repeat(true, 6) + [false, true, false, false]

  /** A history that walks to Shift-DR and shifts in at least one one. */
  predicate Scanned(wire: seq<Wire>) {
    && |wire| > |TO_SHIFT|
    && (forall i :: 0 <= i < |TO_SHIFT| ==> wire[i].tms == TO_SHIFT[i])
    && forall i :: |TO_SHIFT| <= i < |wire| ==> wire[i] == Wire(false, true)
  }

  /** A target whose TDO shows the bits of a chain and then the ones shifted in. */
  ghost predicate ShowsChain(dev: Device, ds: seq<C.Device>) {
    forall wire: seq<Wire> :: Scanned(wire) ==> dev(wire) == C.LineAt(C.ChainBits(ds), |wire| - |TO_SHIFT| - 1)
  }

  function ScanLog(n: nat): seq<Act> {
    Transitions(TO_SHIFT) + C.Ones(n)
  }

  // ---------------------------------------------------------------------
  // The requests of a scan
  // ---------------------------------------------------------------------

  lemma AnotherTurn(t: int, s: int, n: nat, m: nat, done: seq<bool>, u: int)
    requires INIT <= t <= IRUPDATE && AfterTurns(t, s, n) == (done, u) && m == n + 1
    ensures AfterTurns(t, s, m) == (done + Turn(u, s).0, Turn(u, s).1)
  {
  }

  lemma ResetToShift()
    ensures Walk(RESET, DRSHIFT) == WalkResult([false, true, false, false], DRSHIFT, true)
  {
    AnotherTurn(RESET, DRSHIFT, 0, 1, [], RESET);
    assert [] + [false] == [false];
    AnotherTurn(RESET, DRSHIFT, 1, 2, [false], IDLE);
    assert [false] + [true] == [false, true];
    AnotherTurn(RESET, DRSHIFT, 2, 3, [false, true], DRSELECT);
    assert [false, true] + [false] == [false, true, false];
    AnotherTurn(RESET, DRSHIFT, 3, 4, [false, true, false], DRCAPTURE);
    assert [false, true, false] + [false] == [false, true, false, false];
  }

  lemma WalksToShift()
    ensures Walked(Walked(POWER_UP, RESET).0, DRSHIFT).0.log == ScanLog(0)
  {
    P.InitToReset();
    ResetToShift();
    assert Transitions(Repeat(true, 6)) + Transitions([false, true, false, false]) == Transitions(TO_SHIFT);
    assert [] + Transitions(Repeat(true, 6)) == Transitions(Repeat(true, 6));
    assert Transitions(TO_SHIFT) + C.Ones(0) == Transitions(TO_SHIFT);
  }

  /** The pulses of a scan check no TDO, and any host that shows them has scanned. */
  lemma ScanCells(n: nat)
    ensures var ds := CellsOf(ScanLog(n));
            && |ds| == |TO_SHIFT| + n
            && (forall i :: 0 <= i < |ds| ==> !ds[i].tdoEnable)
            && (forall i :: 0 <= i < |TO_SHIFT| ==> ds[i].tms == TO_SHIFT[i])
            && (forall i :: |TO_SHIFT| <= i < |ds| ==> !ds[i].tms)
            && forall wire :: n > 0 && Shows(wire, ds) ==> Scanned(wire)
  {
    PulseCells(ScanLog(n));
  }

  lemma OnesAfter(n: nat)
    ensures ScanLog(0) + C.Ones(n) == ScanLog(n)
  {
    assert C.Ones(0) + C.Ones(n) == C.Ones(n);
  }

  lemma ScanSnoc(n: nat, m: nat)
    requires m == n + 1
    ensures ScanLog(m) == ScanLog(n) + [C.ONE_IN]
  {
  }

  /** A host whose answers are the chain's bits makes the scan report the chain. */
  lemma ScanReports(ds: seq<C.Device>, env: Env)
    requires C.Answers(env, ScanLog(0), C.ChainBits(ds)) && forall i :: 0 <= i < |ds| ==> C.Legitimate(ds[i])
    ensures var f := C.PlayScan(POWER_UP, env);
            f.rc == 0 && f.devices == C.FirstOf(C.ReportedAll(ds), C.MAX_DEVICES)
  {
    hide ScanLog, Walked, C.PlayScan, C.Answers, C.ChainBits;
    WalksToShift();
    C.PlayScanReports(POWER_UP, Reset, ds, env);
  }

  // ---------------------------------------------------------------------
  // The GPIO host
  // ---------------------------------------------------------------------

  lemma GpioShowsBit(dev: Device, ds: seq<C.Device>, start: Gpio, k: nat, n: nat)
    requires GpioSetUp(start) && ShowsChain(dev, ds) && n == k + 1
    ensures GpioEnv(dev, start)(ScanLog(n)) == BoolToNat(C.LineAt(C.ChainBits(ds), k))
  {
    ScanSnoc(k, n);
    GpioSnoc(dev, start, ScanLog(k), C.ONE_IN);
    GpioMeaning(dev, start, ScanLog(n));
    ScanCells(n);
    var wire := GpioAfter(dev, start, ScanLog(n)).wire;
    assert Scanned(wire);
  }

  lemma GpioAnswers(dev: Device, ds: seq<C.Device>, start: Gpio)
    requires GpioSetUp(start) && ShowsChain(dev, ds)
    ensures C.Answers(GpioEnv(dev, start), ScanLog(0), C.ChainBits(ds))
  {
    forall k: nat
      ensures GpioEnv(dev, start)(ScanLog(0) + C.Ones(k + 1)) == BoolToNat(C.LineAt(C.ChainBits(ds), k))
    {
      var n := k + 1;
      OnesAfter(n);
      GpioShowsBit(dev, ds, start, k, n);
    }
  }

  /** The scan reports the chain on the GPIO host. */
  lemma GpioScan(dev: Device, ds: seq<C.Device>, start: Gpio)
    requires GpioSetUp(start) && ShowsChain(dev, ds)
    requires forall i :: 0 <= i < |ds| ==> C.Legitimate(ds[i])
    ensures var f := C.PlayScan(POWER_UP, GpioEnv(dev, start));
            f.rc == 0 && f.devices == C.FirstOf(C.ReportedAll(ds), C.MAX_DEVICES)
  {
    GpioAnswers(dev, ds, start);
    ScanReports(ds, GpioEnv(dev, start));
  }

  // ---------------------------------------------------------------------
  // The FTDI host
  // ---------------------------------------------------------------------

  /** What is pending before a pulse of the scan is the end of the walk, or, once
      a synchronous pulse has been answered, nothing. */
  lemma ShortPending(dev: Device, size: nat, start: Ftdi, k: nat)
    requires SetUp(start) && 0 < size <= BUFFER_SIZE
    requires k > 0 ==> FtdiAfter(dev, size, start, ScanLog(k)).pend == []
    ensures var u := WithPulse(dev, size, start, ScanLog(k), C.ONE_IN); !EndsInBytes(u.lastTms, u.pend)
  {
    hide ScanLog, FtdiAfter, CellsOf, Shows, Base, Scanned, EndsInBytes, TrailingRun, Tells;
    var u := WithPulse(dev, size, start, ScanLog(k), C.ONE_IN);
    var n := |u.pend|;
    if n < 8 {
      var r := SomeRun(u.pend);
      ShortRunIsRead(u.lastTms, u.pend, r);
    } else {
      var pend := FtdiAfter(dev, size, start, ScanLog(k)).pend;
      var sent := FtdiMeaning(dev, size, start, ScanLog(k));
      ScanCells(k);
      assert CellsOf(ScanLog(k))[|sent| + (n - 4)] == pend[n - 4];
      ChangeIsRead(u.lastTms, u.pend, n - 4);
    }
  }

  lemma FtdiShowsBit(dev: Device, ds: seq<C.Device>, size: nat, start: Ftdi, k: nat, n: nat)
    requires SetUp(start) && 0 < size <= BUFFER_SIZE && ShowsChain(dev, ds) && n == k + 1
    requires k > 0 ==> FtdiAfter(dev, size, start, ScanLog(k)).pend == []
    ensures FtdiAfter(dev, size, start, ScanLog(n)).pend == []
    ensures FtdiEnv(dev, size, start)(ScanLog(n)) == BoolToNat(C.LineAt(C.ChainBits(ds), k))
  {
    ScanSnoc(k, n);
    ShortPending(dev, size, start, k);
    SyncReadsItsLevel(dev, size, start, ScanLog(k), C.ONE_IN);
    FtdiWire(dev, size, start, k, n);
    LevelIsBit(dev, ds, FtdiAfter(dev, size, start, ScanLog(n)).chip.wire, k, n, FtdiEnv(dev, size, start)(ScanLog(n)));
  }

  /** Nothing is checked, so no answer is negative, and the wire shows it all. */
  lemma FtdiWire(dev: Device, size: nat, start: Ftdi, k: nat, n: nat)
    requires SetUp(start) && 0 < size <= BUFFER_SIZE && n == k + 1
    ensures FtdiEnv(dev, size, start)(ScanLog(n)) >= 0
    ensures Shows(FtdiAfter(dev, size, start, ScanLog(n)).chip.wire, CellsOf(ScanLog(n)))
  {
    ScanSnoc(k, n);
    var t, sent := FtdiAnswers(dev, size, start, ScanLog(k), C.ONE_IN);
    assert sent + [] == sent;
    ScanCells(n);
    NothingWrong(dev, t.chip.wire, sent, Base(ScanLog(k)));
  }

  lemma LevelIsBit(dev: Device, ds: seq<C.Device>, wire: seq<Wire>, k: nat, n: nat, answer: int)
    requires ShowsChain(dev, ds) && n == k + 1 && Shows(wire, CellsOf(ScanLog(n))) && LastLevel(dev, wire, answer)
    ensures answer == BoolToNat(C.LineAt(C.ChainBits(ds), k))
  {
    ScanCells(n);
    assert Scanned(wire);
    LastTdo(dev, wire);
  }

  lemma {:induction false} FtdiShowsBits(dev: Device, ds: seq<C.Device>, size: nat, start: Ftdi, k: nat)
    requires SetUp(start) && 0 < size <= BUFFER_SIZE && ShowsChain(dev, ds)
    ensures FtdiAfter(dev, size, start, ScanLog(k + 1)).pend == []
    ensures FtdiEnv(dev, size, start)(ScanLog(k + 1)) == BoolToNat(C.LineAt(C.ChainBits(ds), k))
    decreases k
  {
    var n := k + 1;
    if k > 0 {
      var m := k - 1;
      FtdiShowsBits(dev, ds, size, start, m);
    }
    FtdiShowsBit(dev, ds, size, start, k, n);
  }

  lemma FtdiAnswersScan(dev: Device, ds: seq<C.Device>, size: nat, start: Ftdi)
    requires SetUp(start) && 0 < size <= BUFFER_SIZE && ShowsChain(dev, ds)
    ensures C.Answers(FtdiEnv(dev, size, start), ScanLog(0), C.ChainBits(ds))
  {
    forall k: nat
      ensures FtdiEnv(dev, size, start)(ScanLog(0) + C.Ones(k + 1)) == BoolToNat(C.LineAt(C.ChainBits(ds), k))
    {
      var n := k + 1;
      OnesAfter(n);
      FtdiShowsBits(dev, ds, size, start, k);
    }
  }

  /** And on the FTDI host: each pulse of the scan gets the level of its own cycle. */
  lemma FtdiScan(dev: Device, ds: seq<C.Device>, size: nat, start: Ftdi)
    requires SetUp(start) && 0 < size <= BUFFER_SIZE && ShowsChain(dev, ds)
    requires forall i :: 0 <= i < |ds| ==> C.Legitimate(ds[i])
    ensures var f := C.PlayScan(POWER_UP, FtdiEnv(dev, size, start));
            f.rc == 0 && f.devices == C.FirstOf(C.ReportedAll(ds), C.MAX_DEVICES)
  {
    hide ShowsChain, FtdiEnv, ScanLog;
    FtdiAnswersScan(dev, ds, size, start);
    ScanReports(ds, FtdiEnv(dev, size, start));
  }
}
