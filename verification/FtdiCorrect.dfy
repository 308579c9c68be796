/** The FTDI encoder preserves meaning and its reply decoder is exact. */
module FtdiCorrect {
  import opened Bits
  import opened Mpsse
  import opened FtdiPlan

  /** The pins show each pulse's TMS, and its TDI where it drives TDI. */
  ghost predicate Shows(ws: seq<Wire>, ds: seq<Cell>) {
    && |ws| == |ds|
    && forall i :: 0 <= i < |ds| ==>
         ws[i].tms == ds[i].tms && (ds[i].tdiEnable ==> ws[i].tdi == ds[i].tdi)
  }

  lemma ShowsConcat(wa: seq<Wire>, a: seq<Cell>, wb: seq<Wire>, b: seq<Cell>)
    requires Shows(wa, a) && Shows(wb, b)
    ensures Shows(wa + wb, a + b)
  {
  }

  /** TDO during `n` cycles of a history, from cycle `from` on. */
  function Lines(dev: Device, wire: seq<Wire>, from: nat, n: nat): (r: seq<bool>)
    requires from + n <= |wire|
    ensures |r| == n
    ensures forall i: nat :: i < n ==> r[i] == TdoAt(dev, wire, from + i)
  {
    seq(n, i requires 0 <= i < n => TdoAt(dev, wire, from + i))
  }

  lemma LinesExtend(dev: Device, wire: seq<Wire>, more: seq<Wire>, from: nat, n: nat)
    requires from + n <= |wire|
    ensures Lines(dev, wire + more, from, n) == Lines(dev, wire, from, n)
  {
    var a, b := Lines(dev, wire + more, from, n), Lines(dev, wire, from, n);
    forall i | 0 <= i < n
      ensures a[i] == b[i]
    {
      assert (wire + more)[..from + i + 1] == wire[..from + i + 1];
    }
  }

  lemma LinesSplit(dev: Device, wire: seq<Wire>, from: nat, a: nat, b: nat)
    requires from + a + b <= |wire|
    ensures Lines(dev, wire, from, a + b) == Lines(dev, wire, from, a) + Lines(dev, wire, from + a, b)
  {
  }

  /** A reply byte holds the lines of at most eight pulses in its top bits. */
  ghost predicate ByteHolds(b: byte, lines: seq<bool>) {
    && |lines| <= 8
    && forall i: nat :: i < |lines| ==> Bit(b, 8 - |lines| + i) == lines[i]
  }

  /** Reply bytes hold eight lines each, from bit 0 upwards. */
  ghost predicate BytesHold(data: seq<byte>, lines: seq<bool>) {
    && |lines| == 8 * |data|
    && forall i: nat :: i < |lines| ==> Bit(data[i / 8], i % 8) == lines[i]
  }

  lemma BytesHoldSnoc(data: seq<byte>, lines: seq<bool>, b: byte, more: seq<bool>)
    requires BytesHold(data, lines) && ByteHolds(b, more) && |more| == 8
    ensures BytesHold(data + [b], lines + more)
  {
    var d, l := data + [b], lines + more;
    forall i: nat | i < |l|
      ensures Bit(d[i / 8], i % 8) == l[i]
    {
      if i >= |lines| {
        assert i / 8 == |data| && i % 8 == i - |lines|;
        assert Bit(b, 8 - |more| + (i - |lines|)) == more[i - |lines|];
      }
    }
  }

  // ---------------------------------------------------------------------
  // One job
  // ---------------------------------------------------------------------

  /** What a job asks the pins to show. */
  function JobWires(j: Job): (ws: seq<Wire>)
    ensures |ws| == |j.cells|
  {
    seq(|j.cells|, i requires 0 <= i < |j.cells| =>
      Wire(j.cells[i].tms, if j.TmsJob? then j.tdi else j.cells[i].tdi))
  }

  lemma JobShows(j: Job)
    requires JobOk(j)
    ensures Shows(JobWires(j), j.cells)
  {
  }

  function WholeChip(dev: Device, c: Chip, ds: seq<Cell>): Chip {
    if |ds| / 8 > 0 then ClockBytes(dev, c, DataBytes(Whole(ds))) else c
  }

  function TdiChip(dev: Device, c: Chip, ds: seq<Cell>): Chip {
    var c' := WholeChip(dev, c, ds);
    if |ds| % 8 > 0 then TdiCommand(dev, c', |ds| % 8, PackByte(TdiBits(Partial(ds)))) else c'
  }

  function JobChip(dev: Device, c: Chip, j: Job): Chip
    requires JobOk(j)
  {
    if j.TmsJob? then TmsCommand(dev, c, |j.cells|, PackByte(TmsData(j.cells, j.tdi)))
    else TdiChip(dev, c, j.cells)
  }

  lemma TmsCodeRuns(dev: Device, c: Chip, j: Job, rest: seq<byte>)
    requires JobOk(j) && j.TmsJob?
    ensures Interpret(dev, c, JobCode(j) + rest) == Interpret(dev, JobChip(dev, c, j), rest)
  {
    var code := JobCode(j) + rest;
    assert code[3..][1..] == rest;
  }

  lemma ByteCount(n: nat)
    requires 0 < n <= 65536
    ensures 0 <= (n - 1) % 256 < 256 && 0 <= (n - 1) / 256 < 256
    ensures (n - 1) % 256 + 256 * ((n - 1) / 256) + 1 == n
  {
  }

  lemma BytesCommand(dev: Device, c: Chip, lo: byte, hi: byte, data: seq<byte>, rest: seq<byte>)
    requires |data| == lo + 256 * hi + 1
    ensures Interpret(dev, c, [0x39, lo, hi] + data + rest) == Interpret(dev, ClockBytes(dev, c, data), rest)
  {
    hide ClockBytes;
    var code, n := [0x39, lo, hi] + data + rest, |data|;
    assert code[3..3 + n] == data && code[3 + n..] == rest;
  }

  lemma WholeCodeRuns(dev: Device, c: Chip, ds: seq<Cell>, rest: seq<byte>)
    requires |ds| < MAX_PULSES && |ds| / 8 > 0
    ensures var n := |ds| / 8;
            Interpret(dev, c, [0x39, (n - 1) % 256, (n - 1) / 256] + DataBytes(Whole(ds)) + rest)
            == Interpret(dev, WholeChip(dev, c, ds), rest)
  {
    hide Interpret, ClockBytes;
    var n := |ds| / 8;
    ByteCount(n);
    var data := DataBytes(Whole(ds));
    assert |data| == n;
    hide DataBytes, Whole;
    BytesCommand(dev, c, (n - 1) % 256, (n - 1) / 256, data, rest);
  }

  lemma PartialCodeRuns(dev: Device, c: Chip, ds: seq<Cell>, rest: seq<byte>)
    requires |ds| % 8 > 0
    ensures var n := |ds| % 8;
            Interpret(dev, c, [0x3b, n - 1, PackByte(TdiBits(Partial(ds)))] + rest)
            == Interpret(dev, TdiCommand(dev, c, n, PackByte(TdiBits(Partial(ds)))), rest)
  {
    hide Partial, PackByte, TdiCommand, TdiBits;
    var code := [0x3b, |ds| % 8 - 1, PackByte(TdiBits(Partial(ds)))] + rest;
    assert code[3..] == rest;
  }

  function WholeCode(ds: seq<Cell>): seq<byte>
    requires |ds| < MAX_PULSES
  {
    var n := |ds| / 8;
    if n > 0 then [0x39, (n - 1) % 256, (n - 1) / 256] + DataBytes(Whole(ds)) else []
  }

  function PartialCode(ds: seq<Cell>): seq<byte> {
    var n := |ds| % 8;
    if n > 0 then [0x3b, n - 1, PackByte(TdiBits(Partial(ds)))] else []
  }

  lemma TdiCodeAndMore(ds: seq<Cell>, rest: seq<byte>)
    requires |ds| < MAX_PULSES
    ensures TdiCode(ds) + rest == WholeCode(ds) + (PartialCode(ds) + ([0x87] + rest))
  {
    assert TdiCode(ds) == WholeCode(ds) + PartialCode(ds) + [0x87];
  }

  lemma WholeRuns(dev: Device, c: Chip, ds: seq<Cell>, rest: seq<byte>)
    requires |ds| < MAX_PULSES
    ensures Interpret(dev, c, WholeCode(ds) + rest) == Interpret(dev, WholeChip(dev, c, ds), rest)
  {
    hide Interpret, DataBytes, ClockBytes;
    if |ds| / 8 > 0 {
      WholeCodeRuns(dev, c, ds, rest);
    } else {
      assert WholeCode(ds) + rest == rest;
    }
  }

  lemma PartialRuns(dev: Device, c: Chip, ds: seq<Cell>, rest: seq<byte>)
    ensures Interpret(dev, WholeChip(dev, c, ds), PartialCode(ds) + rest) == Interpret(dev, TdiChip(dev, c, ds), rest)
  {
    hide Interpret, WholeChip, TdiCommand, PackByte, TdiBits, Partial;
    if |ds| % 8 > 0 {
      PartialCodeRuns(dev, WholeChip(dev, c, ds), ds, rest);
    } else {
      assert PartialCode(ds) + rest == rest;
    }
  }

  /** The last byte, which sends the reply at once, clocks nothing. */
  lemma EndRuns(dev: Device, c: Chip, rest: seq<byte>)
    ensures Interpret(dev, c, [0x87] + rest) == Interpret(dev, c, rest)
  {
    assert ([0x87] + rest)[1..] == rest;
  }

  lemma TdiCodeRuns(dev: Device, c: Chip, j: Job, rest: seq<byte>)
    requires JobOk(j) && j.TdiJob?
    ensures Interpret(dev, c, JobCode(j) + rest) == Interpret(dev, JobChip(dev, c, j), rest)
  {
    hide Interpret, TdiCode, WholeCode, PartialCode, WholeChip, TdiChip;
    var ds := j.cells;
    TdiCodeAndMore(ds, rest);
    WholeRuns(dev, c, ds, PartialCode(ds) + ([0x87] + rest));
    PartialRuns(dev, c, ds, [0x87] + rest);
    EndRuns(dev, TdiChip(dev, c, ds), rest);
  }

  /** The byte code of a job does what the job says. */
  lemma JobCodeRuns(dev: Device, c: Chip, j: Job, rest: seq<byte>)
    requires JobOk(j)
    ensures Interpret(dev, c, JobCode(j) + rest) == Interpret(dev, JobChip(dev, c, j), rest)
  {
    if j.TmsJob? {
      TmsCodeRuns(dev, c, j, rest);
    } else {
      TdiCodeRuns(dev, c, j, rest);
    }
  }

  ghost predicate KeepsTms(ds: seq<Cell>, tms: bool) {
    forall i :: 0 <= i < |ds| ==> ds[i].tms == tms
  }

  function CellWires(ds: seq<Cell>): (ws: seq<Wire>)
    ensures |ws| == |ds|
  {
    seq(|ds|, i requires 0 <= i < |ds| => Wire(ds[i].tms, ds[i].tdi))
  }

  lemma PackedWires(ds: seq<Cell>, tms: bool)
    requires |ds| <= 8 && KeepsTms(ds, tms)
    ensures TdiWires(tms, PackByte(TdiBits(ds)), |ds|) == CellWires(ds)
  {
    forall i: nat | i < |ds|
      ensures Bit(PackByte(TdiBits(ds)), i) == ds[i].tdi
    {
      PackBit(TdiBits(ds), i);
    }
  }

  lemma RegisterBit(dev: Device, c: Chip, ws: seq<Wire>, lines: seq<bool>, i: nat, k: nat)
    requires i < |ws| <= 8 && k == 8 - |ws| + i && lines == Lines(dev, c.wire + ws, |c.wire|, |ws|)
    ensures Bit(ClockAll(dev, c, ws).sr, k) == lines[i]
  {
    hide Bit, ClockAll, Lines;
    var at := |c.wire| + i;
    assert lines[i] == TdoAt(dev, c.wire + ws, at);
    ShiftRegister(dev, c, ws, i, k);
  }

  lemma RegisterHolds(dev: Device, c: Chip, ws: seq<Wire>, lines: seq<bool>, sr: byte)
    requires |ws| <= 8 && lines == Lines(dev, c.wire + ws, |c.wire|, |ws|) && sr == ClockAll(dev, c, ws).sr
    ensures ByteHolds(sr, lines)
  {
    hide Bit, ClockAll, TdoAt, Lines;
    forall i: nat | i < |lines|
      ensures Bit(sr, 8 - |lines| + i) == lines[i]
    {
      var k: nat := 8 - |lines| + i;
      RegisterBit(dev, c, ws, lines, i, k);
    }
  }

  /** `d` is `c` after the cycles `ws` and the reply bytes `data`. */
  ghost predicate Advanced(c: Chip, d: Chip, ws: seq<Wire>, data: seq<byte>) {
    d.wire == c.wire + ws && d.reply == c.reply + data && d.ahead == c.ahead
  }

  /** Up to eight pulses sent as one data byte and read back as one. */
  lemma OneByte(dev: Device, c: Chip, ds: seq<Cell>) returns (b: byte)
    requires 0 < |ds| <= 8 && KeepsTms(ds, c.tms)
    ensures var d := SendReply(ClockAll(dev, c, TdiWires(c.tms, PackByte(TdiBits(ds)), |ds|)));
            && Advanced(c, d, CellWires(ds), [b]) && d.tms == c.tms
            && ByteHolds(b, Lines(dev, d.wire, |c.wire|, |ds|))
  {
    PackedWires(ds, c.tms);
    ClockAllWire(dev, c, CellWires(ds));
    var ws := CellWires(ds);
    b := ClockAll(dev, c, ws).sr;
    RegisterHolds(dev, c, ws, Lines(dev, c.wire + ws, |c.wire|, |ws|), b);
  }

  lemma ClockBytesLast(dev: Device, c: Chip, ds: seq<Cell>)
    requires |ds| % 8 == 0 && ds != []
    ensures var c' := ClockBytes(dev, c, DataBytes(ds[..|ds| - 8]));
            ClockBytes(dev, c, DataBytes(ds))
            == SendReply(ClockAll(dev, c', TdiWires(c'.tms, PackByte(TdiBits(ds[|ds| - 8..])), 8)))
  {
    var data := DataBytes(ds);
    assert data[..|data| - 1] == DataBytes(ds[..|ds| - 8]);
  }

  lemma AdvancedTwice(c: Chip, c': Chip, d: Chip, a: seq<Cell>, b: seq<Cell>, r: seq<byte>, t: seq<byte>)
    requires Advanced(c, c', CellWires(a), r) && Advanced(c', d, CellWires(b), t)
    ensures Advanced(c, d, CellWires(a + b), r + t)
  {
    assert CellWires(a + b) == CellWires(a) + CellWires(b);
    assert c.wire + (CellWires(a) + CellWires(b)) == c.wire + CellWires(a) + CellWires(b);
    assert c.reply + (r + t) == c.reply + r + t;
  }

  lemma MoreBytesHold(dev: Device, c: Chip, c': Chip, d: Chip, init: seq<Cell>, last: seq<Cell>, r: seq<byte>, b: byte)
    requires |last| == 8 && c'.wire == c.wire + CellWires(init) && d.wire == c'.wire + CellWires(last)
    requires BytesHold(r, Lines(dev, c'.wire, |c.wire|, |init|)) && ByteHolds(b, Lines(dev, d.wire, |c'.wire|, 8))
    ensures BytesHold(r + [b], Lines(dev, d.wire, |c.wire|, |init + last|))
  {
    var n := |init|;
    LinesExtend(dev, c'.wire, CellWires(last), |c.wire|, n);
    LinesSplit(dev, d.wire, |c.wire|, n, 8);
    BytesHoldSnoc(r, Lines(dev, d.wire, |c.wire|, n), b, Lines(dev, d.wire, |c'.wire|, 8));
  }

  /** Whole bytes: line i of the pulses comes back as bit i%8 of byte i/8. */
  lemma {:induction false} WholeBytes(dev: Device, c: Chip, ds: seq<Cell>) returns (r: seq<byte>, d: Chip)
    requires |ds| % 8 == 0 && KeepsTms(ds, c.tms)
    ensures d == ClockBytes(dev, c, DataBytes(ds))
    ensures Advanced(c, d, CellWires(ds), r) && d.tms == c.tms
    ensures BytesHold(r, Lines(dev, d.wire, |c.wire|, |ds|))
    decreases |ds|
  {
    hide PackByte, DataBytes, ClockAll, TdiBits, CellWires, TdiWires, Lines, ByteHolds, SendReply;
    if ds == [] {
      r, d := [], c;
    } else {
      var n := |ds| - 8;
      var init, last := ds[..n], ds[n..];
      var r', c' := WholeBytes(dev, c, init);
      ClockBytesLast(dev, c, ds);
      var b := OneByte(dev, c', last);
      r := r' + [b];
      d := ClockBytes(dev, c, DataBytes(ds));
      AdvancedTwice(c, c', d, init, last, r', [b]);
      assert init + last == ds;
      MoreBytesHold(dev, c, c', d, init, last, r', b);
    }
  }

  /** What a job leaves behind: its pulses on the pins, TMS at its last level, and
      reply bytes from which its handler reads each pulse's own TDO bit. */
  ghost predicate JobDone(dev: Device, c: Chip, j: Job, d: Chip, data: seq<byte>) {
    && JobOk(j)
    && Advanced(c, d, JobWires(j), data)
    && d.tms == j.cells[|j.cells| - 1].tms
    && |data| == ReplyLen(j)
    && LineBits(j, data) == Lines(dev, d.wire, |c.wire|, |j.cells|)
  }

  lemma TmsDataBits(ds: seq<Cell>, tdi: bool, i: nat)
    requires 0 < |ds| <= 6 && i < 8
    ensures Bit(PackByte(TmsData(ds, tdi)), i) == TmsData(ds, tdi)[i]
  {
    PackBit(TmsData(ds, tdi), i);
  }

  lemma TmsJobDone(dev: Device, c: Chip, j: Job) returns (data: seq<byte>)
    requires JobOk(j) && j.TmsJob?
    ensures JobDone(dev, c, j, JobChip(dev, c, j), data)
  {
    hide PackByte, Lines, Bit, ClockAll;
    var n := |j.cells|;
    var v := PackByte(TmsData(j.cells, j.tdi));
    var ws := TmsWires(Bit(v, 7), v, n);
    TmsDataBits(j.cells, j.tdi, 7);
    TmsDataBits(j.cells, j.tdi, n);
    forall i: nat | i < n
      ensures ws[i] == JobWires(j)[i]
    {
      TmsDataBits(j.cells, j.tdi, i);
    }
    assert ws == JobWires(j);
    ClockAllWire(dev, c, ws);
    RegisterHolds(dev, c, ws, Lines(dev, c.wire + ws, |c.wire|, |ws|), ClockAll(dev, c, ws).sr);
    data := [ClockAll(dev, c, ws).sr];
    var bits, lines := LineBits(j, data), Lines(dev, c.wire + ws, |c.wire|, n);
    forall i: nat | i < n
      ensures bits[i] == lines[i]
    {
      assert Bit(data[0], 8 - |lines| + i) == lines[i];
    }
  }

  lemma TdiParts(dev: Device, c: Chip, ds: seq<Cell>) returns (r: seq<byte>, t: seq<byte>)
    requires KeepsTms(ds, c.tms)
    ensures var d := TdiChip(dev, c, ds);
            && Advanced(c, d, CellWires(ds), r + t) && d.tms == c.tms
            && BytesHold(r, Lines(dev, d.wire, |c.wire|, |Whole(ds)|))
            && |t| == (if |Partial(ds)| > 0 then 1 else 0)
            && (|t| > 0 ==> ByteHolds(t[0], Lines(dev, d.wire, |c.wire| + |Whole(ds)|, |Partial(ds)|)))
  {
    hide ClockBytes, DataBytes, PackByte, ClockAll, ByteHolds, TdiWires, SendReply, Lines, TdiBits;
    var whole, part := Whole(ds), Partial(ds);
    var c' := WholeChip(dev, c, ds);
    var e;
    r, e := WholeBytes(dev, c, whole);
    assert Advanced(c, c', CellWires(whole), r);
    t := [];
    var d := TdiChip(dev, c, ds);
    if |part| > 0 {
      var b := OneByte(dev, c', part);
      t := [b];
    }
    assert Advanced(c', d, CellWires(part), t);
    AdvancedTwice(c, c', d, whole, part, r, t);
    assert whole + part == ds;
    LinesExtend(dev, c'.wire, CellWires(part), |c.wire|, |whole|);
  }

  lemma TdiJobDone(dev: Device, c: Chip, j: Job) returns (data: seq<byte>)
    requires JobOk(j) && j.TdiJob? && KeepsTms(j.cells, c.tms)
    ensures JobDone(dev, c, j, JobChip(dev, c, j), data)
  {
    var r, t := TdiParts(dev, c, j.cells);
    data := r + t;
    assert JobWires(j) == CellWires(j.cells);
    TdiLines(dev, c, j, JobChip(dev, c, j).wire, r, t, data);
  }

  lemma TdiLines(dev: Device, c: Chip, j: Job, wire: seq<Wire>, r: seq<byte>, t: seq<byte>, data: seq<byte>)
    requires j.TdiJob? && |wire| == |c.wire| + |j.cells|
    requires BytesHold(r, Lines(dev, wire, |c.wire|, |Whole(j.cells)|))
    requires |t| == (if |Partial(j.cells)| > 0 then 1 else 0)
    requires |t| > 0 ==> ByteHolds(t[0], Lines(dev, wire, |c.wire| + |Whole(j.cells)|, |Partial(j.cells)|))
    requires data == r + t
    ensures |data| == ReplyLen(j)
    ensures LineBits(j, data) == Lines(dev, wire, |c.wire|, |j.cells|)
  {
    var n, k, from := |j.cells|, |Whole(j.cells)|, |c.wire|;
    var bits, lines := LineBits(j, data), Lines(dev, wire, from, n);
    forall i: nat | i < n
      ensures bits[i] == lines[i]
    {
      if i < k {
        assert Lines(dev, wire, from, k)[i] == lines[i];
        assert data[i / 8] == r[i / 8];
      } else {
        var part := Lines(dev, wire, from + k, n - k);
        assert part[i - k] == lines[i];
        assert Bit(t[0], 8 - |part| + (i - k)) == part[i - k];
        assert data[n / 8] == t[0];
      }
    }
  }

  lemma JobIsDone(dev: Device, c: Chip, j: Job) returns (data: seq<byte>)
    requires JobOk(j) && (j.TdiJob? ==> KeepsTms(j.cells, c.tms))
    ensures JobDone(dev, c, j, JobChip(dev, c, j), data)
  {
    if j.TmsJob? {
      data := TmsJobDone(dev, c, j);
    } else {
      data := TdiJobDone(dev, c, j);
    }
  }
}
