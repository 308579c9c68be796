/** The pulse-at-a-time host of svfload/libxsvf/xsvftool-gpio.c. */
module GpioModel {
  import opened Bits
  import opened HostApi
  import opened Mpsse
  import opened FtdiPlan
  import opened FtdiCorrect
  import opened FtdiLog

  /** The pins' history, the level held on TDI, retval[..retval_i]. */
  datatype Gpio = Gpio(wire: seq<Wire>, tdi: bool, retval: seq<bool>)

  /** io_tms, io_tdi and the two edges of TCK. */
  function Tick(s: Gpio, tms: bool, tdi: Option<bool>): Gpio {
    var level := if tdi.Some? then tdi.value else s.tdi;
    Gpio(s.wire + [Wire(tms, level)], level, s.retval)
  }

  function Ticks(s: Gpio, tms: bool, n: nat): Gpio {
    if n == 0 then s else Tick(Ticks(s, tms, n - 1), tms, None)
  }

  function GpioStep(dev: Device, s: Gpio, a: Act): Gpio {
    match a
    case Pulse(tms, tdi, _, rmask, _) =>
      var t := Tick(s, tms, tdi);
      if rmask && |t.retval| < RETVAL_MAX then t.(retval := t.retval + [dev(t.wire)]) else t
    case Delay(_, tms, n) => if n > 0 then Ticks(s, tms, n) else s
    case _ => s
  }

  function GpioAnswer(dev: Device, s: Gpio, a: Act): int {
    match a
    case Pulse(tms, tdi, tdo, _, _) =>
      var line := dev(Tick(s, tms, tdi).wire);
      if tdo.Some? && tdo.value != line then -1 else BoolToNat(line)
    case _ => 0
  }

  function GpioAfter(dev: Device, start: Gpio, log: seq<Act>): Gpio {
    if log == [] then start
    else GpioStep(dev, GpioAfter(dev, start, log[..|log| - 1]), log[|log| - 1])
  }

  function GpioEnv(dev: Device, start: Gpio): Env {
    (log: seq<Act>) =>
      if log == [] then 0
      else GpioAnswer(dev, GpioAfter(dev, start, log[..|log| - 1]), log[|log| - 1])
  }

  ghost predicate GpioSetUp(s: Gpio) {
    s.wire == [] && s.retval == []
  }

  ghost predicate GpioTells(dev: Device, s: Gpio, ds: seq<Cell>) {
    && Shows(s.wire, ds)
    && s.retval == Cut(Captured(ds, Lines(dev, s.wire, 0, |ds|)))
  }

  lemma TickTells(dev: Device, s: Gpio, ds: seq<Cell>, a: Act)
    requires GpioTells(dev, s, ds) && a.Pulse?
    ensures GpioTells(dev, GpioStep(dev, s, a), ds + ActCells(a))
  {
    var d := CellOf(a.tms, a.tdi, a.tdo, a.rmask);
    var t := Tick(s, a.tms, a.tdi);
    var w := [t.wire[|s.wire|]];
    ShowsConcat(s.wire, ds, w, [d]);
    CapturesExtend(dev, s.wire, ds, w, [d]);
    var lines := Lines(dev, t.wire, |s.wire|, 1);
    assert lines == [dev(t.wire)] by {
      assert t.wire[..|s.wire| + 1] == t.wire;
    }
    assert Captured([d], lines) == (if d.rmask then lines else []) by {
      assert [d][..0] == [] && lines[..0] == [];
    }
  }

  lemma {:induction false} TicksTell(dev: Device, s: Gpio, ds: seq<Cell>, tms: bool, n: nat)
    requires GpioTells(dev, s, ds)
    ensures GpioTells(dev, Ticks(s, tms, n), ds + IdleCells(tms, n))
    decreases n
  {
    hide GpioTells, CellOf;
    if n == 0 {
      assert ds + [] == ds;
    } else {
      TicksTell(dev, s, ds, tms, n - 1);
      TickTells(dev, Ticks(s, tms, n - 1), ds + IdleCells(tms, n - 1), Pulse(tms, None, None, false, false));
      assert ds + IdleCells(tms, n) == ds + IdleCells(tms, n - 1) + [CellOf(tms, None, None, false)];
    }
  }

  /** After any log the pins have shown every pulse asked for, and retval holds
      the first 256 RMASK bits. */
  lemma {:induction false} GpioMeaning(dev: Device, start: Gpio, log: seq<Act>)
    requires GpioSetUp(start)
    ensures GpioTells(dev, GpioAfter(dev, start, log), CellsOf(log))
    decreases |log|
  {
    if log == [] {
      assert Captured([], Lines(dev, start.wire, 0, 0)) == [];
    } else {
      var n := |log| - 1;
      var s, ds, a := GpioAfter(dev, start, log[..n]), CellsOf(log[..n]), log[n];
      GpioMeaning(dev, start, log[..n]);
      match a
      case Pulse(_, _, _, _, _) => TickTells(dev, s, ds, a);
      case Delay(_, tms, k) =>
        if k > 0 {
          TicksTell(dev, s, ds, tms, k);
        }
      case _ =>
        assert ds + [] == ds;
    }
  }

  lemma GpioSnoc(dev: Device, start: Gpio, log: seq<Act>, a: Act)
    ensures GpioAfter(dev, start, log + [a]) == GpioStep(dev, GpioAfter(dev, start, log), a)
    ensures GpioEnv(dev, start)(log + [a]) == GpioAnswer(dev, GpioAfter(dev, start, log), a)
  {
    assert (log + [a])[..|log|] == log;
  }

  /** The wire only grows. */
  lemma {:induction false} GpioGrows(dev: Device, start: Gpio, log: seq<Act>, more: seq<Act>)
    ensures GpioAfter(dev, start, log).wire <= GpioAfter(dev, start, log + more).wire
    decreases |more|
  {
    if more == [] {
      assert log + more == log;
    } else {
      var n := |more| - 1;
      GpioGrows(dev, start, log, more[..n]);
      assert log + more == log + more[..n] + [more[n]];
      var s, a := GpioAfter(dev, start, log + more[..n]), more[n];
      GpioSnoc(dev, start, log + more[..n], a);
      if a.Delay? && a.numTck > 0 {
        TicksGrow(s, a.tms, a.numTck);
      }
    }
  }

  lemma {:induction false} TicksGrow(s: Gpio, tms: bool, n: nat)
    ensures s.wire <= Ticks(s, tms, n).wire
    decreases n
  {
    if n > 0 {
      TicksGrow(s, tms, n - 1);
    }
  }
}
