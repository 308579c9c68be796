/** What shiftIR and shiftDR of papilio-prog/jtag.cpp do to a chain. */
module JtagMeaning {
  import opened Bits
  import C = ChainScan
  import F = FtdiPlan
  import opened HostApi
  import opened JtagChain
  import opened LazyTms
  import opened LazyTracking
  import opened Mpsse
  import opened ScanPath
  import opened TapController
  import opened TxTms

  lemma {:induction false} IrBitsSplit(devices: seq<ChainParam>, lo: nat, mid: nat, hi: nat)
    requires lo <= mid <= hi <= |devices|
    ensures IrBits(devices, lo, hi) == IrBits(devices, lo, mid) + IrBits(devices, mid, hi)
    decreases hi
  {
    if mid < hi {
      IrBitsSplit(devices, lo, mid, hi - 1);
    }
  }

  /** Bit `i` from TDI of a register row that holds `data` behind `post` others,
      the first bit of `data` nearest TDO, and ones elsewhere. */
  predicate Placed(data: seq<bool>, post: nat, i: nat) {
    post <= i < post + |data| ==> FromEnd(data, i - post)
  }

  lemma StreamAt(pre: nat, data: seq<bool>, post: nat, i: nat)
    requires i < pre + |data| + post
    ensures FromEnd(Ones(pre) + data + Ones(post), i) == Placed(data, post, i)
  {
  }

  lemma ChainBits(devices: seq<ChainParam>, n: nat, sel: nat)
    requires sel < n <= |devices|
    ensures IrBits(devices, 0, n) == IrBits(devices, 0, sel) + devices[sel].irlen + IrBits(devices, sel + 1, n)
  {
    IrBitsSplit(devices, 0, sel, n);
    IrBitsSplit(devices, sel, sel + 1, n);
    assert IrBits(devices, sel, sel) == 0;
  }

  /** After a shiftIR, from any state and whatever was captured, the selected
      device's instruction is `tdi`, its first bit nearest TDO, and every other
      instruction register holds ones: wherever it goes on to, but for the four
      states before Update-IR, where nothing is latched yet. */
  lemma ShiftIrSelects(b: Bus, devices: seq<ChainParam>, n: nat, sel: nat, tdi: seq<bool>, t: Tap,
                       load: Capture, p: Path)
    requires InStep(b) && sel < n <= |devices| && 0 < devices[sel].irlen == |tdi|
    requires |p.reg| == IrBits(devices, 0, n)
    ensures var latched := RunPath(Ir, load, [], p, ScanBus(b, Ir, IrStream(devices, n, sel, tdi), t).line).latched;
            if Inner(Ir, t) then latched == RunPath(Ir, load, [], p, WalkBus(b, IrShift).line).latched
            else |latched| == |p.reg|
                 && forall i :: 0 <= i < |latched| ==> latched[i] == Placed(tdi, IrBits(devices, 0, sel), i)
  {
    hide ScanBus, RunPath, FromEnd, InStep, Placed, Ones, IrBits, WalkBus;
    var pre, post := IrBits(devices, sel + 1, n), IrBits(devices, 0, sel);
    var stream := Ones(pre) + tdi + Ones(post);
    ChainBits(devices, n, sel);
    ScanLatches(b, Ir, load, p, stream, t);
    forall i | 0 <= i < |stream|
      ensures FromEnd(stream, i) == Placed(tdi, post, i)
    {
      StreamAt(pre, tdi, post, i);
    }
  }

  lemma PreIsData(b: Bus, pre: nat)
    requires b.state == Some(DrShift)
    ensures WithTms(b, Repeat(false, pre)) == ShiftDataBus(b, Ones(pre), false)
  {
    if pre > 0 {
      assert HighTdi(Repeat(false, pre)) == DataWires(Ones(pre), false);
    } else {
      WithNone(b);
    }
  }

  /** A complete shiftDR is one stream. */
  lemma DrIsScan(b: Bus, pre: nat, data: seq<bool>, post: nat, t: Tap)
    requires data != []
    ensures DrBus(b, false, pre, data, post, true, t) == ScanBus(b, Dr, Ones(pre) + data + Ones(post), t)
  {
    var w := WalkBus(b, DrShift);
    PreIsData(w, pre);
    ShiftIsData(w, pre, false);
    ShiftsCombine(w, pre, data, post);
  }

  /** After a complete shiftDR with `post` bypassed devices in front of the selected
      one, the data is what was shifted into it last, whatever the padding before:
      a register of its length holds exactly the data, first bit nearest TDO. In the
      four states before Update-DR nothing is latched yet. */
  lemma ShiftDrDelivers(b: Bus, pre: nat, data: seq<bool>, post: nat, t: Tap, load: Capture, p: Path)
    requires InStep(b) && data != []
    ensures var latched := RunPath(Dr, load, [], p, DrBus(b, false, pre, data, post, true, t).line).latched;
            if Inner(Dr, t) then latched == RunPath(Dr, load, [], p, WalkBus(b, DrShift).line).latched
            else |latched| == |p.reg|
                 && forall i :: 0 <= i < |latched| && i < post + |data| ==> latched[i] == Placed(data, post, i)
  {
    hide ScanBus, RunPath, FromEnd, InStep, Placed, Ones, DrBus, WalkBus;
    var stream := Ones(pre) + data + Ones(post);
    DrIsScan(b, pre, data, post, t);
    ScanLatches(b, Dr, load, p, stream, t);
    forall i | 0 <= i < |stream|
      ensures FromEnd(stream, i) == Placed(data, post, i)
    {
      StreamAt(pre, data, post, i);
    }
  }

  /** A shift in two parts is the shift of the whole. */
  lemma ShiftDrInParts(b: Bus, pre: nat, a: seq<bool>, c: seq<bool>, post: nat, t: Tap)
    requires a != [] && c != []
    ensures var half := DrBus(b, false, pre, a, post, false, t);
            half.state == Some(DrShift)
            && DrBus(half, true, pre, c, post, true, t) == DrBus(b, false, pre, a + c, post, true, t)
  {
    DataCombine(SetStateBus(b, DrShift, pre), a, c, post == 0);
  }

  // ---------------------------------------------------------------------
  // Reading
  // ---------------------------------------------------------------------

  /** TDO shows the register's last bit while the column shifts. */
  ghost predicate DrivenBy(dev: Device, col: Column, load: Capture, p: Path) {
    forall hist: seq<Wire>, w: Wire ::
      var q := RunPath(col, load, [], p, hist);
      q.tap == ShiftOf(col) && q.reg != [] ==> dev(hist + [w]) == q.reg[|q.reg| - 1]
  }

  lemma {:induction false} DataStays(col: Column, load: Capture, hist: seq<Wire>, p: Path, data: seq<bool>,
                                     last: bool, k: nat)
    requires p.tap == ShiftOf(col) && k <= |data| && (last ==> k < |data|)
    ensures var q := RunPath(col, load, hist, p, DataWires(data, last)[..k]);
            q.tap == ShiftOf(col) && q.reg == ShiftedIn(p.reg, data[..k])
    decreases k
  {
    hide Step, DataWires, ShiftedIn, ShiftIn, Exit1Of, ShiftOf;
    var ws := DataWires(data, last);
    if k == 0 {
      assert ws[..0] == [];
      assert ShiftedIn(p.reg, data[..0]) == p.reg;
    } else {
      var m := k - 1;
      DataStays(col, load, hist, p, data, last, m);
      RunSnoc(col, load, hist, p, ws, m);
      ShiftStep(col, load, hist + ws[..m], RunPath(col, load, hist, p, ws[..m]), ws[m]);
      ShiftedInSnoc(p.reg, data[..m], data[m]);
      assert data[..m] + [data[m]] == data[..k];
    }
  }

  lemma DrivenAt(dev: Device, col: Column, load: Capture, p: Path, hist: seq<Wire>, w: Wire, q: Path)
    requires DrivenBy(dev, col, load, p) && q == RunPath(col, load, [], p, hist)
    requires q.tap == ShiftOf(col) && q.reg != []
    ensures dev(hist + [w]) == FromEnd(q.reg, 0)
  {
  }

  lemma PathDuring(col: Column, load: Capture, p: Path, line: seq<Wire>, q: Path, data: seq<bool>, last: bool, k: nat)
      returns (r: Path)
    requires q == RunPath(col, load, [], p, line) && q.tap == ShiftOf(col) && k < |data|
    ensures r == RunPath(col, load, [], p, line + DataWires(data, last)[..k])
    ensures r.tap == ShiftOf(col) && r.reg == ShiftedIn(q.reg, data[..k])
  {
    DataStays(col, load, [] + line, q, data, last, k);
    RunPathConcat(col, load, [], p, line, DataWires(data, last)[..k]);
    r := RunPath(col, load, [], p, line + DataWires(data, last)[..k]);
  }

  lemma DataTdoAt(dev: Device, line: seq<Wire>, data: seq<bool>, last: bool, k: nat) returns (hist: seq<Wire>, w: Wire)
    requires k < |data|
    ensures hist == line + DataWires(data, last)[..k] && DataTdo(dev, line, data, last)[k] == dev(hist + [w])
  {
    var ws := DataWires(data, last);
    hist, w := line + ws[..k], ws[k];
    assert (line + ws)[..|line| + k + 1] == hist + [w];
  }

  /** The padding of a shiftDR, in the Shift state. */
  lemma PaddingShifts(b: Bus, pre: nat, load: Capture, p: Path) returns (q: Path, s: Path)
    requires InStep(b)
    ensures q == RunPath(Dr, load, [], p, WalkBus(b, DrShift).line) && q.tap == DrShift
    ensures s == RunPath(Dr, load, [], p, SetStateBus(b, DrShift, pre).line) && s.tap == DrShift
    ensures s.reg == ShiftedIn(q.reg, Ones(pre))
  {
    hide RunPath, Ones, WithTms, InStep, DataWires, Hardware, Repeat, ShiftedIn;
    var w := WalkBus(b, DrShift);
    WalkInStep(b, DrShift);
    PreIsData(w, pre);
    RunPathTap(Dr, load, [], p, w.line);
    q := RunPath(Dr, load, [], p, w.line);
    var ws := DataWires(Ones(pre), false);
    RunPathConcat(Dr, load, [], p, w.line, ws);
    DataStays(Dr, load, [] + w.line, q, Ones(pre), false, pre);
    assert ws[..pre] == ws && Ones(pre)[..pre] == Ones(pre);
    s := RunPath(Dr, load, [], p, w.line + ws);
    assert pre == 0 ==> w.line + ws == w.line;
  }

  /** Bit `m` that leaves a register at TDO while `stream` is shifted in: first the
      register itself, then the stream. */
  predicate Leaving(reg: seq<bool>, stream: seq<bool>, m: nat)
    requires m < |reg| + |stream|
  {
    if m < |reg| then FromEnd(reg, m) else stream[m - |reg|]
  }

  lemma ShiftedTwice(reg: seq<bool>, a: seq<bool>, c: seq<bool>, k: nat)
    requires reg != [] && k <= |c|
    ensures FromEnd(ShiftedIn(ShiftedIn(reg, a), c[..k]), 0) == Leaving(reg, a + c, |a| + k)
  {
  }

  /** The bits read by a shiftDR are those of the scan path as it was on arrival in
      Shift-DR, the bit nearest TDO first, less the `pre` bits that the padding has
      shifted out; and once the path is through, what was shifted in. */
  lemma ShiftDrReads(dev: Device, b: Bus, data: seq<bool>, pre: nat, last: bool,
                     load: Capture, p: Path, line: seq<Wire>, arrived: Path, k: nat)
    requires InStep(b) && p.reg != [] && k < |data|
    requires DrivenBy(dev, Dr, load, p) && line == DrEntered(b, false, pre).line
    requires arrived == RunPath(Dr, load, [], p, WalkBus(b, DrShift).line)
    ensures |arrived.reg| == |p.reg|
    ensures DataTdo(dev, line, data, last)[k] == Leaving(arrived.reg, Ones(pre) + data, pre + k)
  {
    hide RunPath, ShiftedIn, FromEnd, Leaving, Ones, InStep, DrivenBy, DataWires;
    var q, s := PaddingShifts(b, pre, load, p);
    var r := PathDuring(Dr, load, p, line, s, data, last, k);
    var hist, w := DataTdoAt(dev, line, data, last, k);
    DrivenAt(dev, Dr, load, p, hist, w, r);
    ShiftedTwice(q.reg, Ones(pre), data, k);
  }

  /** Bit `k` of the selected device's register, with `follow` one-bit bypass registers
      between it and TDO and `post` between TDI and it. */
  predicate Captured(reg: seq<bool>, follow: nat, len: nat, post: nat, k: nat)
    requires |reg| == post + len + follow && k < len
  {
    FromEnd(reg, follow + k)
  }

  /** So bit `j` of the selected device's register is read as bit `k` with
      `pre + k == follow + j`: as bit `j` itself without an alignment, where the padding
      is as long as the bypass registers, else early or late by the difference. */
  lemma ShiftDrReadsRegister(dev: Device, b: Bus, data: seq<bool>, post: nat, follow: nat, len: nat, pre: nat,
                             last: bool, load: Capture, p: Path, line: seq<Wire>, arrived: Path, k: nat, j: nat)
    requires InStep(b) && |p.reg| == post + len + follow && k < |data|
    requires DrivenBy(dev, Dr, load, p) && line == DrEntered(b, false, pre).line
    requires arrived == RunPath(Dr, load, [], p, WalkBus(b, DrShift).line)
    requires j < len && pre + k == follow + j
    ensures |arrived.reg| == |p.reg|
    ensures DataTdo(dev, line, data, last)[k] == Captured(arrived.reg, follow, len, post, j)
  {
    hide RunPath, FromEnd, Ones, InStep, DrivenBy, DataWires;
    ShiftDrReads(dev, b, data, pre, last, load, p, line, arrived, k);
  }

  // ---------------------------------------------------------------------
  // The order of a chain
  // ---------------------------------------------------------------------

  /** TDO shows `bits` and then zeros while zeros are shifted in after `line`. */
  ghost predicate Follows(dev: Device, line: seq<Wire>, bits: seq<bool>) {
    forall k: nat :: dev(line + DataWires(Zeros(k + 1), false)) == BitAt(bits, k)
  }

  predicate BitAt(bits: seq<bool>, k: nat) {
    k < |bits| && bits[k]
  }

  lemma ZerosMore(line: seq<Wire>, n: nat, m: nat)
    ensures line + DataWires(Zeros(n), false) + DataWires(Zeros(m), false) == line + DataWires(Zeros(n + m), false)
  {
  }

  lemma FollowsLater(dev: Device, line: seq<Wire>, bits: seq<bool>, n: nat)
    requires Follows(dev, line, bits)
    ensures Follows(dev, line + DataWires(Zeros(n), false), C.Rest(bits, n))
  {
    forall k: nat
      ensures dev(line + DataWires(Zeros(n), false) + DataWires(Zeros(k + 1), false)) == BitAt(C.Rest(bits, n), k)
    {
      ZerosMore(line, n, k + 1);
      assert BitAt(bits, n + k) == BitAt(C.Rest(bits, n), k);
      assert dev(line + DataWires(Zeros(n + k + 1), false)) == BitAt(bits, n + k);
    }
  }

  lemma WordBits(dev: Device, b: Bus, bits: seq<bool>, n: nat, c: nat)
    requires Follows(dev, b.line, bits) && n == ID_BITS && c < Pow2(n)
    requires forall k: nat :: k < n ==> BitAt(bits, k) == Bit(c, k)
    ensures ReadWord(dev, b) == c
  {
    hide Pow2, DataWires, Bit, DataTdo, BitAt, Zeros;
    var tdo := DataTdo(dev, b.line, Zeros(n), false);
    forall k | 0 <= k < n
      ensures tdo[k] == C.CodeBits(c, n)[k]
    {
      var all := b.line + DataWires(Zeros(n), false);
      assert all[..|b.line| + k + 1] == b.line + DataWires(Zeros(k + 1), false);
      assert dev(b.line + DataWires(Zeros(k + 1), false)) == BitAt(bits, k);
    }
    assert tdo == C.CodeBits(c, n);
    C.PackCode(c, n);
  }

  // ---------------------------------------------------------------------
  // Which chains are read
  // ---------------------------------------------------------------------

  function Codes(ds: seq<C.Device>): seq<nat> {
    if ds == [] then [] else (if ds[0].Coded? then [ds[0].idcode] else []) + Codes(ds[1..])
  }

  /** No device with an IDCODE follows one without, seen from TDO. */
  predicate CodedFirst(ds: seq<C.Device>) {
    ds == [] || if ds[0].Coded? then CodedFirst(ds[1..]) else Codes(ds) == []
  }

  ghost predicate AllLegitimate(ds: seq<C.Device>) {
    forall i :: 0 <= i < |ds| ==> C.Legitimate(ds[i])
  }

  lemma {:induction false} NoCodes(ds: seq<C.Device>, k: nat)
    requires Codes(ds) == []
    ensures !BitAt(C.ChainBits(ds), k)
    decreases |ds|
  {
    if ds != [] {
      assert C.ChainBits(ds) == C.DeviceBits(ds[0]) + C.ChainBits(ds[1..]);
      if k > 0 {
        NoCodes(ds[1..], k - 1);
      }
    }
  }

  lemma {:induction false} FirstCode(ds: seq<C.Device>)
    requires AllLegitimate(ds) && Codes(ds) != []
    ensures Codes(ds)[0] % 2 == 1
    decreases |ds|
  {
    if !ds[0].Coded? {
      FirstCode(ds[1..]);
    } else {
      assert C.Legitimate(ds[0]);
    }
  }

  /** Where the first bit on TDO is low, the word read is even. */
  lemma EvenWord(dev: Device, b: Bus, bits: seq<bool>)
    requires Follows(dev, b.line, bits) && !BitAt(bits, 0)
    ensures ReadWord(dev, b) % 2 == 0
  {
    var tdo := DataTdo(dev, b.line, Zeros(ID_BITS), false);
    var all := b.line + DataWires(Zeros(ID_BITS), false);
    assert all[..|b.line| + 1] == b.line + DataWires(Zeros(1), false);
    assert dev(b.line + DataWires(Zeros(0 + 1), false)) == BitAt(bits, 0);
    F.PackBit(tdo, 0);
    assert Bit(F.Pack(tdo), 0) == tdo[0];
  }

  lemma ReadZero(dev: Device, b: Bus, bits: seq<bool>, n: nat, width: nat)
    requires n > 0 && width == ID_BITS && Follows(dev, b.line, bits) && forall k: nat :: !BitAt(bits, k)
    ensures ReadChain(dev, b, n).0 == []
  {
    forall k: nat | k < width
      ensures BitAt(bits, k) == Bit(0, k)
    {
      ZeroBit(k);
    }
    WordBits(dev, b, bits, width, 0);
  }

  /** A device with an IDCODE is read, and what follows it is read next. */
  lemma ReadCoded(dev: Device, b: Bus, ds: seq<C.Device>, n: nat, m: nat, width: nat)
    requires ds != [] && ds[0].Coded? && C.Legitimate(ds[0]) && n == m + 1 && width == ID_BITS
    requires b.state == Some(DrShift) && Follows(dev, b.line, C.ChainBits(ds))
    ensures AfterWord(b).state == Some(DrShift) && Follows(dev, AfterWord(b).line, C.ChainBits(ds[1..]))
    ensures ReadChain(dev, b, n).0 == [ds[0].idcode] + ReadChain(dev, AfterWord(b), m).0
  {
    hide Pow2, DataWires, Zeros, Follows, Bit;
    var d, line := ds[0], C.ChainBits(ds);
    var bits := C.DeviceBits(d);
    assert line == bits + C.ChainBits(ds[1..]);
    forall k: nat | k < width
      ensures BitAt(line, k) == Bit(d.idcode, k)
    {
      assert line[k] == bits[k];
    }
    C.Pow2Of32();
    WordBits(dev, b, line, width, d.idcode);
    FollowsLater(dev, b.line, line, width);
    assert C.Rest(line, width) == C.ChainBits(ds[1..]);
  }

  /** getChain reads exactly the IDCODEs of a chain, the device nearest TDO first,
      if and only if no device with an IDCODE follows one without: the one-bit
      register shifts all words behind it. */
  lemma {:induction false} ChainIsRead(dev: Device, b: Bus, ds: seq<C.Device>, n: nat)
    requires b.state == Some(DrShift) && Follows(dev, b.line, C.ChainBits(ds))
    requires AllLegitimate(ds) && |Codes(ds)| <= n
    ensures ReadChain(dev, b, n).0 == Codes(ds) <==> CodedFirst(ds)
    decreases n
  {
    var width: nat := ID_BITS;
    if n == 0 {
    } else if Codes(ds) == [] {
      forall k: nat
        ensures !BitAt(C.ChainBits(ds), k)
      {
        NoCodes(ds, k);
      }
      ReadZero(dev, b, C.ChainBits(ds), n, width);
    } else if ds[0].Coded? {
      var m := n - 1;
      ReadCoded(dev, b, ds, n, m, width);
      ChainIsRead(dev, AfterWord(b), ds[1..], m);
      SameHead(ds[0].idcode, ReadChain(dev, AfterWord(b), m).0, Codes(ds[1..]));
    } else {
      assert !BitAt(C.ChainBits(ds), 0);
      EvenWord(dev, b, C.ChainBits(ds));
      FirstCode(ds);
    }
  }

  lemma SameHead(x: nat, a: seq<nat>, b: seq<nat>)
    ensures [x] + a == [x] + b <==> a == b
  {
    assert a == ([x] + a)[1..] && b == ([x] + b)[1..];
  }

  /** A target that shows `bits` after `line`. */
  function Shows(line: seq<Wire>, bits: seq<bool>): Device {
    (hist: seq<Wire>) => |hist| > |line| && BitAt(bits, |hist| - |line| - 1)
  }

  lemma ShowsFollows(line: seq<Wire>, bits: seq<bool>)
    ensures Follows(Shows(line, bits), line, bits)
  {
    forall k: nat
      ensures Shows(line, bits)(line + DataWires(Zeros(k + 1), false)) == BitAt(bits, k)
    {
      assert |DataWires(Zeros(k + 1), false)| == k + 1;
    }
  }

  lemma OneBehind(ds: seq<C.Device>, idcode: nat)
    requires ds == [C.Bypass, C.Coded(idcode)]
    ensures Codes(ds) == [idcode] && !CodedFirst(ds)
  {
    assert ds[1..] == [C.Coded(idcode)] && ds[1..][1..] == [];
    assert Codes(ds[1..][1..]) == [];
  }

  /** With a device without IDCODE nearest TDO, the one behind it is not found. */
  lemma BypassHides(b: Bus, ds: seq<C.Device>, idcode: nat)
    requires b.state == Some(DrShift) && ds == [C.Bypass, C.Coded(idcode)] && C.Legitimate(ds[1])
    ensures ReadChain(Shows(b.line, C.ChainBits(ds)), b, MAX_DEVICES).0 != [idcode]
  {
    hide ReadChain, Follows, Shows;
    ShowsFollows(b.line, C.ChainBits(ds));
    OneBehind(ds, idcode);
    assert AllLegitimate(ds);
    ChainIsRead(Shows(b.line, C.ChainBits(ds)), b, ds, MAX_DEVICES);
  }

  // ---------------------------------------------------------------------
  // Selecting a device that was read
  // ---------------------------------------------------------------------

  function Sum(lens: seq<nat>): nat {
    if lens == [] then 0 else lens[0] + Sum(lens[1..])
  }

  /** The list that getChain makes of these IDCODEs, once every device has the length of
      its instruction register: both are in the order from TDO. */
  ghost predicate Describes(devices: seq<ChainParam>, ids: seq<nat>, lens: seq<nat>) {
    && |ids| == |lens| <= |devices|
    && (forall i, j :: 0 <= i < j < |ids| ==> ids[i] != ids[j])
    && (forall k :: 0 <= k < |ids| ==> devices[k].idcode == Chained(ids)[k].idcode)
    && (forall k, j :: 0 <= k < |ids| && 0 <= j < |ids| && devices[k].idcode == ids[j] ==> devices[k].irlen == lens[j])
  }

  lemma LengthOf(devices: seq<ChainParam>, ids: seq<nat>, lens: seq<nat>, k: nat)
    requires Describes(devices, ids, lens) && k < |ids|
    ensures devices[k].irlen == lens[|lens| - 1 - k]
  {
    assert devices[k].idcode == Chained(ids)[k].idcode == ids[|ids| - 1 - k];
  }

  lemma {:induction false} BitsFromTdi(devices: seq<ChainParam>, ids: seq<nat>, lens: seq<nat>, k: nat)
    requires Describes(devices, ids, lens) && k <= |ids|
    ensures IrBits(devices, 0, k) == Sum(lens[|lens| - k..])
    decreases k
  {
    hide Describes;
    var n := |ids|;
    assert n == |lens| && n <= |devices| by {
      Sizes(devices, ids, lens);
    }
    if k > 0 {
      BitsFromTdi(devices, ids, lens, k - 1);
      LengthOf(devices, ids, lens, k - 1);
      assert lens[n - k..][1..] == lens[n - k + 1..];
    }
  }

  lemma Sizes(devices: seq<ChainParam>, ids: seq<nat>, lens: seq<nat>)
    requires Describes(devices, ids, lens)
    ensures |ids| == |lens| <= |devices|
  {
  }

  lemma PlaceOf(devices: seq<ChainParam>, ids: seq<nat>, lens: seq<nat>, m: nat, sel: nat)
    requires Describes(devices, ids, lens) && m < |ids| && sel < |ids| && devices[sel].idcode == ids[m]
    ensures sel == |ids| - 1 - m
  {
    assert devices[sel].idcode == Chained(ids)[sel].idcode == ids[|ids| - 1 - sel];
  }

  /** A device that is selected by the IDCODE that was read from it gets the instruction:
      the `m`-th device from TDO latches it, and the other ones hold ones. */
  lemma IdcodeSelects(b: Bus, devices: seq<ChainParam>, ids: seq<nat>, lens: seq<nat>, m: nat, sel: nat,
                      tdi: seq<bool>, t: Tap, load: Capture, p: Path)
    requires InStep(b) && Describes(devices, ids, lens) && m < |ids| && sel < |ids| && devices[sel].idcode == ids[m]
    requires 0 < lens[m] == |tdi| && |p.reg| == Sum(lens) && !Inner(Ir, t)
    ensures var latched := RunPath(Ir, load, [], p, ScanBus(b, Ir, IrStream(devices, |ids|, sel, tdi), t).line).latched;
            && |latched| == Sum(lens)
            && forall i :: 0 <= i < |latched| ==> latched[i] == Placed(tdi, Sum(lens[m + 1..]), i)
  {
    hide ScanBus, RunPath, FromEnd, InStep, Placed, IrStream, IrBits, Describes, Inner;
    Sizes(devices, ids, lens);
    PlaceOf(devices, ids, lens, m, sel);
    LengthOf(devices, ids, lens, sel);
    BitsFromTdi(devices, ids, lens, sel);
    BitsFromTdi(devices, ids, lens, |ids|);
    assert lens[0..] == lens;
    ShiftIrSelects(b, devices, |ids|, sel, tdi, t, load, p);
  }
}
