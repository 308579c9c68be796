/** The FTDI MPSSE engine as far as xsvftool-ft232h uses it (FTDI AN_108,
    sections 3.4 and 3.5), one TCK cycle at a time: an interpreter of the byte
    code, the specification that the host's encoder is proved against. */
module Mpsse {
  import opened Bits
  import opened HostApi

  /** The levels on TMS and TDI during one TCK cycle. */
  datatype Wire = Wire(tms: bool, tdi: bool)

  /** What is on TDO in the last cycle of a history. */
  type Device = seq<Wire> -> bool

  /** The pins' history, the TMS pin, the read shift register and the bytes
      that wait to be read. `ahead`: whether the TMS pin is left at the bit
      after the last one clocked instead of at the last one. */
  datatype Chip = Chip(wire: seq<Wire>, tms: bool, sr: byte, reply: seq<byte>, ahead: bool)

  /** One cycle; TDO enters the shift register at the top. */
  function Clock(dev: Device, c: Chip, w: Wire): Chip {
    var wire := c.wire + [w];
    c.(wire := wire, tms := w.tms, sr := c.sr / 2 + (if dev(wire) then 128 else 0))
  }

  function ClockAll(dev: Device, c: Chip, ws: seq<Wire>): Chip {
    if ws == [] then c else Clock(dev, ClockAll(dev, c, ws[..|ws| - 1]), ws[|ws| - 1])
  }

  /** `n` cycles with the bits of `v` on TDI, least significant first. */
  function TdiWires(tms: bool, v: byte, n: nat): seq<Wire> {
    seq(n, i requires 0 <= i < n => Wire(tms, Bit(v, i)))
  }

  /** `n` cycles with the bits of `v` on TMS and TDI held. */
  function TmsWires(tdi: bool, v: byte, n: nat): seq<Wire> {
    seq(n, i requires 0 <= i < n => Wire(Bit(v, i), tdi))
  }

  function SendReply(c: Chip): Chip {
    c.(reply := c.reply + [c.sr])
  }

  function ClockBytes(dev: Device, c: Chip, data: seq<byte>): Chip {
    if data == [] then c
    else
      var c' := ClockBytes(dev, c, data[..|data| - 1]);
      SendReply(ClockAll(dev, c', TdiWires(c'.tms, data[|data| - 1], 8)))
  }

  /** 0x6e: length, data with TDI in bit 7. */
  function TmsCommand(dev: Device, c: Chip, n: nat, v: byte): Chip {
    var c' := SendReply(ClockAll(dev, c, TmsWires(Bit(v, 7), v, n)));
    if c.ahead then c'.(tms := Bit(v, n)) else c'
  }

  /** 0x3b: length, data. */
  function TdiCommand(dev: Device, c: Chip, n: nat, v: byte): Chip {
    SendReply(ClockAll(dev, c, TdiWires(c.tms, v, n)))
  }

  /** The chip after a byte string; None for anything but whole commands of the
      kinds used: 0x86 (clock divisor), 0x87 (send at once), 0x6e, 0x3b, 0x39. */
  function Interpret(dev: Device, c: Chip, code: seq<byte>): Option<Chip>
    decreases |code|
  {
    if code == [] then Some(c)
    else if code[0] == 0x87 then Interpret(dev, c, code[1..])
    else if |code| < 3 then None
    else if code[0] == 0x86 then Interpret(dev, c, code[3..])
    else if code[0] == 0x6e && code[1] <= 6 then
      Interpret(dev, TmsCommand(dev, c, code[1] + 1, code[2]), code[3..])
    else if code[0] == 0x3b && code[1] <= 7 then
      Interpret(dev, TdiCommand(dev, c, code[1] + 1, code[2]), code[3..])
    else if code[0] == 0x39 then
      var lo: int, hi: int := code[1], code[2];
      var n: nat := lo + 256 * hi + 1;
      if |code| < 3 + n then None
      else Interpret(dev, ClockBytes(dev, c, code[3..3 + n]), code[3 + n..])
    else None
  }

  // ---------------------------------------------------------------------
  // What clocking does
  // ---------------------------------------------------------------------

  lemma {:induction false} ClockAllConcat(dev: Device, c: Chip, a: seq<Wire>, b: seq<Wire>)
    ensures ClockAll(dev, c, a + b) == ClockAll(dev, ClockAll(dev, c, a), b)
    decreases |b|
  {
    if b == [] {
      assert a + b == a;
    } else {
      assert (a + b)[..|a + b| - 1] == a + b[..|b| - 1];
      ClockAllConcat(dev, c, a, b[..|b| - 1]);
    }
  }

  lemma {:induction false} ClockAllWire(dev: Device, c: Chip, ws: seq<Wire>)
    ensures var d := ClockAll(dev, c, ws);
            && d.wire == c.wire + ws && d.reply == c.reply && d.ahead == c.ahead
            && d.tms == (if ws == [] then c.tms else ws[|ws| - 1].tms)
    decreases |ws|
  {
    if ws != [] {
      ClockAllWire(dev, c, ws[..|ws| - 1]);
      assert c.wire + ws[..|ws| - 1] + [ws[|ws| - 1]] == c.wire + ws;
    }
  }

  /** TDO during cycle `i` of a history. */
  predicate TdoAt(dev: Device, wire: seq<Wire>, i: nat)
    requires i < |wire|
  {
    dev(wire[..i + 1])
  }

  lemma HalfBit(b: byte, v: bool, i: nat, j: nat)
    requires i < 8 && j == i + 1
    ensures Bit(b / 2 + (if v then 128 else 0), i) == (if i == 7 then v else Bit(b, j))
  {
    var q, t := b / 2, if v then 128 else 0;
    var s := q + t;
    assert q < 128;
    TopBit(q, v, 7, i);
  }

  lemma {:induction false} TopBit(q: nat, v: bool, n: nat, i: nat)
    requires q < Pow2(n) && i <= n
    ensures Bit(q + (if v then Pow2(n) else 0), i) == (if i == n then v else Bit(q, i))
    ensures n == 7 ==> Pow2(n) == 128
    decreases n
  {
    assert Pow2(3) == 8;
    if n > 0 {
      if i > 0 {
        TopBit(q / 2, v, n - 1, i - 1);
        assert (q + (if v then Pow2(n) else 0)) / 2 == q / 2 + (if v then Pow2(n - 1) else 0);
      }
    }
  }

  /** After n cycles the top n bits of the shift register are the TDO bits of
      those cycles, the oldest lowest. */
  lemma {:induction false} ShiftRegister(dev: Device, c: Chip, ws: seq<Wire>, i: nat, k: nat)
    requires i < |ws| <= 8 && k == 8 - |ws| + i
    ensures Bit(ClockAll(dev, c, ws).sr, k) == TdoAt(dev, c.wire + ws, |c.wire| + i)
    decreases |ws|
  {
    hide Bit;
    var n := |ws| - 1;
    var c' := ClockAll(dev, c, ws[..n]);
    ClockAllWire(dev, c, ws[..n]);
    var wire := c.wire + ws;
    assert c'.wire + [ws[n]] == wire;
    HalfBit(c'.sr, dev(wire), k, k + 1);
    if i == n {
      assert wire[..|c.wire| + i + 1] == wire;
    } else {
      ShiftRegister(dev, c, ws[..n], i, k + 1);
      assert wire[..|c.wire| + i + 1] == (c.wire + ws[..n])[..|c.wire| + i + 1];
    }
  }
}
