/** `h_pulse_tck` and `h_udelay` of svfload/libxsvf/xsvftool-gpio.c over pins. */
module GpioHost {
  import opened Bits
  import opened FtdiPlan
  import opened GpioModel
  import opened HostApi
  import opened Mpsse

  class Udata {
    const dev: Device
    var tms: bool
    var tdi: bool
    var tck: bool
    var wire: seq<Wire>
    const retval: array<bool>
    var retvalI: nat
    var clockcount: nat
    var bitcountTdi: nat
    var bitcountTdo: nat

    ghost predicate Valid()
      reads this
    {
      retval.Length == RETVAL_MAX && retvalI <= RETVAL_MAX && tck
    }

    ghost function Contents(): Gpio
      requires Valid()
      reads this, retval
    {
      Gpio(wire, tdi, retval[..retvalI])
    }

    constructor (dev: Device)
      ensures Valid() && fresh(retval) && this.dev == dev
      ensures GpioSetUp(Contents()) && clockcount == 0
    {
      this.dev := dev;
      tms, tdi, tck, wire := false, false, true, [];
      retval := new bool[RETVAL_MAX];
      retvalI := 0;
      clockcount, bitcountTdi, bitcountTdo := 0, 0, 0;
    }

    /** The target samples TMS and TDI on a rising edge. */
    method IoTck(v: bool)
      modifies `tck, `wire
      ensures tck == v
      ensures wire == old(wire) + (if v && !old(tck) then [Wire(tms, tdi)] else [])
    {
      if v && !tck {
        wire := wire + [Wire(tms, tdi)];
      }
      tck := v;
    }

    /** The pins of one pulse. */
    method Cycle(tms: bool, tdi: Option<bool>)
      requires Valid()
      modifies `tms, `tdi, `tck, `wire, `bitcountTdi
      ensures Valid() && Contents() == Tick(old(Contents()), tms, tdi)
    {
      this.tms := tms;
      if tdi.Some? {
        bitcountTdi := bitcountTdi + 1;
        this.tdi := tdi.value;
      }
      IoTck(false);
      IoTck(true);
    }

    method Keep(line: bool)
      requires Valid() && retvalI < RETVAL_MAX
      modifies `retvalI, retval
      ensures Valid() && Contents() == old(Contents()).(retval := old(Contents().retval) + [line])
    {
      retval[retvalI] := line;
      retvalI := retvalI + 1;
    }

    method HPulseTck(tms: bool, tdi: Option<bool>, tdo: Option<bool>, rmask: bool, sync: bool) returns (rc: int)
      requires Valid()
      modifies this, retval
      ensures Valid()
      ensures Contents() == GpioStep(dev, old(Contents()), Pulse(tms, tdi, tdo, rmask, sync))
      ensures rc == GpioAnswer(dev, old(Contents()), Pulse(tms, tdi, tdo, rmask, sync))
      ensures clockcount == old(clockcount) + 1
    {
      ghost var t := Tick(Contents(), tms, tdi);
      Cycle(tms, tdi);
      var line := dev(wire);
      rc := BoolToNat(line);
      if rmask && retvalI < RETVAL_MAX {
        Keep(line);
      }
      if tdo.Some? {
        bitcountTdo := bitcountTdo + 1;
        if tdo.value != line {
          rc := -1;
        }
      }
      clockcount := clockcount + 1;
    }

    /** The wait that may follow the clocks is left out. */
    method HUdelay(usecs: int, tms: bool, numTck: int)
      requires Valid()
      modifies this
      ensures Valid()
      ensures Contents() == GpioStep(dev, old(Contents()), Delay(usecs, tms, numTck))
    {
      if numTck > 0 {
        this.tms := tms;
        var left := numTck;
        while left > 0
          invariant 0 <= left <= numTck
          invariant Valid() && retvalI == old(retvalI) && this.tms == tms
          invariant Contents() == Ticks(old(Contents()), tms, numTck - left)
        {
          IoTck(false);
          IoTck(true);
          left := left - 1;
        }
      }
    }
  }
}
