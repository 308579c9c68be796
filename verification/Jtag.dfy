/** `class Jtag` (papilio-prog/jtag.cpp): addressing one device of a chain. */
module JtagChain {
  import opened Arithmetic
  import opened FtdiPlan
  import opened HostApi
  import opened LazyTms
  import opened Mpsse
  import P = ScanPath
  import opened TapController
  import opened TxTms

  /** chainParam_t. */
  datatype ChainParam = ChainParam(idcode: nat, irlen: nat)

  /** Instruction register bits of the devices `lo` to `hi - 1`. */
  function IrBits(devices: seq<ChainParam>, lo: nat, hi: nat): nat
    requires lo <= hi <= |devices|
    decreases hi - lo
  {
    if lo == hi then 0 else IrBits(devices, lo, hi - 1) + devices[hi - 1].irlen
  }

  function Ones(n: nat): (r: seq<bool>)
    ensures r == Repeat(true, n) && |r| == n
  {
    Repeat(true, n)
  }

  /** What shiftIR sends: ones for the devices behind the selected one, its
      instruction, ones for those in front of it. */
  function IrStream(devices: seq<ChainParam>, n: nat, sel: nat, tdi: seq<bool>): seq<bool>
    requires sel < n <= |devices|
  {
    Ones(IrBits(devices, sel + 1, n)) + tdi + Ones(IrBits(devices, 0, sel))
  }

  /** In Shift-IR, the ones in front of the instruction sent. */
  function IrEntered(b: Bus, pre: nat): Bus {
    ShiftDataBus(WalkBus(b, IrShift), Ones(pre), false)
  }

  /** In Shift-DR, the bits in front of the data sent. */
  function DrEntered(b: Bus, incomplete: bool, pre: nat): Bus {
    if incomplete then b else SetStateBus(b, DrShift, pre)
  }

  /** shiftDR, a complete one or a part of one. */
  function DrBus(b: Bus, incomplete: bool, pre: nat, data: seq<bool>, post: nat, exit: bool, t: Tap): Bus {
    var b2 := ShiftDataBus(DrEntered(b, incomplete, pre), data, post == 0 && exit);
    if exit then SetStateBus(ShiftBus(b2, post, true), t, 0) else b2
  }

  /** The bits in front of the data: one for each bypassed device, or as many as
      make `pre + post` a multiple of `align`. */
  function PreBits(n: nat, sel: nat, align: nat): (pre: nat)
    requires sel < n
  {
    if align == 0 then n - sel - 1 else align - sel % align
  }

  predicate Aligned(k: nat, sel: nat, align: nat)
    requires align > 0
  {
    (k + sel) % align == 0
  }

  lemma AlignedAt(k: nat, sel: nat, align: nat)
    requires 0 < k <= align
    ensures Aligned(k, sel, align) <==> k == align - sel % align
  {
    var q, r := sel / align, sel % align;
    assert sel == q * align + r;
    if r + k < align {
      assert k + sel == q * align + (r + k);
      ModUnique(q, align, r + k);
    } else {
      assert k + sel == (q + 1) * align + (r + k - align) by {
        assert (q + 1) * align == q * align + align;
      }
      ModUnique(q + 1, align, r + k - align);
    }
  }

  /** With an alignment: the least positive number that completes a multiple. */
  lemma PreBitsAlign(n: nat, sel: nat, align: nat)
    requires sel < n && align > 0
    ensures var pre := PreBits(n, sel, align); 0 < pre <= align && Aligned(pre, sel, align)
    ensures forall k: nat :: 0 < k < PreBits(n, sel, align) ==> !Aligned(k, sel, align)
  {
    AlignedAt(PreBits(n, sel, align), sel, align);
    forall k: nat | 0 < k < PreBits(n, sel, align)
      ensures !Aligned(k, sel, align)
    {
      AlignedAt(k, sel, align);
    }
  }

  /** The first bits of a longer buffer. */
  function FirstBits(tdi: seq<bool>, n: nat): seq<bool>
    requires n <= |tdi|
  {
    tdi[..n]
  }

  /** The data bits a call of shiftDR puts on TDI. */
  function DataOf(tdi: Option<seq<bool>>, length: nat): (r: seq<bool>)
    requires tdi.Some? ==> length <= |tdi.value|
    ensures |r| == length
  {
    if tdi.Some? then FirstBits(tdi.value, length) else Ones(length)
  }

  const ID_BITS := 32
  const MAX_DEVICES := 1000
  const ALL_ONES := 0xFFFF_FFFF

  function Zeros(n: nat): (r: seq<bool>)
    ensures r == Repeat(false, n) && |r| == n
  {
    Repeat(false, n)
  }

  /** One 32-bit word read from the chain while zeros are shifted in. */
  function ReadWord(dev: Device, b: Bus): nat {
    Pack(DataTdo(dev, b.line, Zeros(ID_BITS), false))
  }

  function AfterWord(b: Bus): Bus {
    ShiftDataBus(b, Zeros(ID_BITS), false)
  }

  /** The IDCODEs getChain reads, at most `n`, and the bus after them. */
  function ReadChain(dev: Device, b: Bus, n: nat): (r: (seq<nat>, Bus))
    decreases n, b
  {
    if n == 0 then ([], b)
    else
      var id := ReadWord(dev, b);
      if id == 0 || id == ALL_ONES then ([], AfterWord(b))
      else
        var (ids, bus) := ReadChain(dev, AfterWord(b), n - 1);
        ([id] + ids, bus)
  }

  /** The first one read, nearest TDO, comes last; lengths are not known yet. */
  function Chained(ids: seq<nat>): (r: seq<ChainParam>)
    ensures |r| == |ids|
    ensures forall i :: 0 <= i < |ids| ==> r[i] == ChainParam(ids[|ids| - 1 - i], 0)
  {
    seq(|ids|, i requires 0 <= i < |ids| => ChainParam(ids[|ids| - 1 - i], 0))
  }

  class Jtag {
    const io: IOBase
    var devices: seq<ChainParam>
    var numDevices: nat
    var postDRState: Tap
    var postIRState: Tap
    var deviceIndex: int
    var shiftDRincomplete: bool

    ghost predicate Valid()
      reads this, io, io.tmsBuf
    {
      io.Valid() && numDevices <= |devices|
    }

    /** The selected device, if any, is one of those read last. */
    ghost predicate Selected()
      reads this
    {
      deviceIndex < numDevices <= |devices|
    }

    constructor (io: IOBase)
      requires io.Valid()
      ensures Valid() && Selected() && this.io == io && devices == [] && numDevices == 0 && deviceIndex == -1
      ensures postDRState == Idle && postIRState == Idle && !shiftDRincomplete
    {
      this.io := io;
      postDRState, postIRState := Idle, Idle;
      devices, numDevices, deviceIndex, shiftDRincomplete := [], 0, -1, false;
    }

    method ReadId() returns (id: nat)
      requires Valid() && io.currentState == Some(DrShift)
      modifies io, io.tmsBuf
      ensures Valid() && io.currentState == Some(DrShift)
      ensures id == ReadWord(io.dev, old(io.Value())) && io.Value() == AfterWord(old(io.Value()))
    {
      var idx := io.ShiftTDITDO(Zeros(ID_BITS), false);
      id := Pack(idx);
    }

    /** The loop over the words of the chain. */
    method ReadIds()
      requires Valid() && numDevices == 0 && io.currentState == Some(DrShift)
      modifies `devices, `numDevices, io, io.tmsBuf
      ensures Valid() && io.currentState == Some(DrShift)
      ensures var (ids, bus) := ReadChain(io.dev, old(io.Value()), MAX_DEVICES);
              devices == Chained(ids) + old(devices) && numDevices == |ids| && io.Value() == bus
    {
      hide ReadWord, Chained, AfterWord;
      ghost var all, start := ReadChain(io.dev, io.Value(), MAX_DEVICES), devices;
      ghost var got: seq<nat>, left: nat := [], MAX_DEVICES;
      assert [] + all.0 == all.0 && Chained([]) + devices == devices;
      while numDevices < MAX_DEVICES
        invariant Valid() && numDevices == |got| && numDevices + left == MAX_DEVICES
        invariant io.currentState == Some(DrShift)
        invariant devices == Chained(got) + start
        invariant ToRead(io.dev, io.Value(), left, got, all)
      {
        ghost var rest: nat := left - 1;
        ReadMore(io.dev, io.Value(), left, rest, got, all);
        var id := ReadId();
        if id == 0 || id == ALL_ONES {
          return;
        }
        numDevices := numDevices + 1;
        devices := [ChainParam(id, 0)] + devices;
        GotMore(got, id, start);
        got, left := got + [id], rest;
      }
      assert got + [] == got;
    }

    /** getChain. A device selected before may be none of the new ones. */
    method GetChain() returns (n: nat)
      requires Valid() && io.tmsLen + 5 + LONGEST <= CHUNK_BITS
      modifies `devices, `numDevices, io, io.tmsBuf
      ensures Valid() && n == numDevices
      ensures var (ids, bus) := ReadChain(io.dev, WalkBus(ResetBus(old(io.Value())), DrShift), MAX_DEVICES);
              && devices == Chained(ids) + old(devices) && numDevices == |ids|
              && io.Value() == WalkBus(bus, Reset)
    {
      hide ResetBus, WithTms, ReadChain, Chained, Repeat;
      io.TapTestLogicReset();
      WithNone(WalkBus(io.Value(), DrShift));
      io.SetTapState(DrShift, 0);
      numDevices := 0;
      ReadIds();
      WithNone(WalkBus(io.Value(), Reset));
      io.SetTapState(Reset, 0);
      n := numDevices;
    }

    method SelectDevice(dev: int) returns (r: int)
      requires Valid()
      modifies `deviceIndex
      ensures Valid() && Selected() && r == deviceIndex == if dev >= numDevices then -1 else dev
    {
      deviceIndex := if dev >= numDevices then -1 else dev;
      r := deviceIndex;
    }

    method SetDeviceIRLength(dev: int, len: nat) returns (r: int)
      requires Valid()
      modifies `devices
      ensures Valid() && r == if 0 <= dev < numDevices then dev else -1
      ensures devices == if r < 0 then old(devices) else old(devices)[dev := old(devices)[dev].(irlen := len)]
    {
      if dev >= numDevices || dev < 0 {
        return -1;
      }
      devices := devices[dev := devices[dev].(irlen := len)];
      r := dev;
    }

    method SumIr(lo: nat, hi: nat) returns (sum: nat)
      requires lo <= hi <= |devices|
      ensures sum == IrBits(devices, lo, hi)
    {
      sum := 0;
      var dev := lo;
      while dev < hi
        invariant lo <= dev <= hi && sum == IrBits(devices, lo, dev)
      {
        sum := sum + devices[dev].irlen;
        dev := dev + 1;
      }
    }

    /** There is room in the buffer for a walk and `n` more bits. */
    ghost predicate Room(n: nat)
      reads io
    {
      io.tmsLen + LONGEST + n <= CHUNK_BITS
    }

    /** Padding, data and padding from the Shift state. */
    method ShiftPadded(pre: nat, data: seq<bool>, post: nat) returns (tdo: seq<bool>)
      requires Valid() && data != [] && InShift(io.currentState)
      requires io.tmsLen + pre <= CHUNK_BITS && post <= CHUNK_BITS
      modifies io, io.tmsBuf
      ensures Valid()
      ensures io.Value() == ShiftDataBus(old(io.Value()), Ones(pre) + data + Ones(post), true)
      ensures io.currentState.Some?
      ensures tdo == DataTdo(io.dev, ShiftDataBus(old(io.Value()), Ones(pre), false).line, data, post == 0)
    {
      ghost var b := io.Value();
      io.Shift(true, pre, false);
      ShiftIsData(b, pre, false);
      tdo := io.ShiftTDITDO(data, post == 0);
      io.Shift(true, post, true);
      ShiftsCombine(b, pre, data, post);
    }

    method EnterIrShift()
      requires Valid() && Room(0)
      modifies io, io.tmsBuf
      ensures Valid() && io.tmsLen <= old(io.tmsLen) + LONGEST
      ensures io.Value() == WalkBus(old(io.Value()), IrShift) && InShift(io.currentState)
    {
      ghost var b := io.Value();
      WalkLength(b, IrShift);
      io.SetTapState(IrShift, 0);
      WithNone(WalkBus(b, IrShift));
    }

    /** Every device but the selected one gets ones; the padding must fit. */
    method ShiftIR(tdi: seq<bool>) returns (tdo: seq<bool>)
      requires Valid() && Selected()
      requires deviceIndex >= 0 ==>
                 && 0 < devices[deviceIndex].irlen <= |tdi|
                 && Room(IrBits(devices, deviceIndex + 1, numDevices))
                 && IrBits(devices, 0, deviceIndex) <= CHUNK_BITS
      modifies io, io.tmsBuf
      ensures Valid()
      ensures io.Value() ==
              if deviceIndex < 0 then old(io.Value())
              else P.ScanBus(old(io.Value()), P.Ir,
                             IrStream(devices, numDevices, deviceIndex, FirstBits(tdi, devices[deviceIndex].irlen)),
                             postIRState)
      ensures deviceIndex >= 0 ==>
                tdo == DataTdo(io.dev, IrEntered(old(io.Value()), IrBits(devices, deviceIndex + 1, numDevices)).line,
                               FirstBits(tdi, devices[deviceIndex].irlen), IrBits(devices, 0, deviceIndex) == 0)
    {
      tdo := [];
      if deviceIndex < 0 {
        return;
      }
      var pre := SumIr(deviceIndex + 1, numDevices);
      var post := SumIr(0, deviceIndex);
      tdo := SendIr(FirstBits(tdi, devices[deviceIndex].irlen), pre, post);
    }

    /** The bits of shiftIR, from the walk in to the walk out. */
    method SendIr(data: seq<bool>, pre: nat, post: nat) returns (tdo: seq<bool>)
      requires Valid() && data != [] && Room(pre) && post <= CHUNK_BITS
      modifies io, io.tmsBuf
      ensures Valid()
      ensures io.Value() == P.ScanBus(old(io.Value()), P.Ir, Ones(pre) + data + Ones(post), postIRState)
      ensures tdo == DataTdo(io.dev, IrEntered(old(io.Value()), pre).line, data, post == 0)
    {
      hide WalkBus, ShiftDataBus, DataTdo, Ones, InShift;
      EnterIrShift();
      tdo := ShiftPadded(pre, data, post);
      io.SetTapState(postIRState, 0);
    }

    method Padding(align: nat) returns (pre: nat)
      requires 0 <= deviceIndex < numDevices
      ensures pre == PreBits(numDevices, deviceIndex, align)
    {
      var post := deviceIndex;
      var p: int := numDevices - deviceIndex - 1;
      if align != 0 {
        p := -post;
        ghost var k: nat := 0;
        while p <= 0
          invariant p == k * align - post && p <= align
          invariant k > 0 ==> (k - 1) * align <= post
          decreases align - p
        {
          assert (k + 1) * align == k * align + align;
          p := p + align;
          k := k + 1;
        }
        LeastAbove(k, align, post);
      }
      pre := p;
    }

    /** To Shift-DR with the bits in front of the data, unless a part went before. */
    method EnterDrShift(align: nat)
      requires Valid() && 0 <= deviceIndex < numDevices
      requires shiftDRincomplete ==> io.currentState == Some(DrShift)
      requires Room(PreBits(numDevices, deviceIndex, align))
      modifies io, io.tmsBuf
      ensures Valid() && io.currentState == Some(DrShift)
      ensures io.tmsLen <= old(io.tmsLen) + LONGEST + PreBits(numDevices, deviceIndex, align)
      ensures io.Value() == DrEntered(old(io.Value()), shiftDRincomplete, PreBits(numDevices, deviceIndex, align))
    {
      hide PreBits;
      if !shiftDRincomplete {
        var pre := Padding(align);
        WalkLength(io.Value(), DrShift);
        io.SetTapState(DrShift, pre);
      }
    }

    /** The data bits of shiftDR. */
    method ShiftData(tdi: Option<seq<bool>>, length: nat, last: bool) returns (tdo: seq<bool>)
      requires Valid() && (tdi.Some? ==> length <= |tdi.value|)
      requires InShift(io.currentState) && (tdi.None? ==> io.tmsLen + length <= CHUNK_BITS)
      modifies io, io.tmsBuf
      ensures Valid() && io.tmsLen <= old(io.tmsLen) + (if tdi.None? then length else 0)
      ensures io.Value() == ShiftDataBus(old(io.Value()), DataOf(tdi, length), last)
      ensures tdi.Some? ==> tdo == DataTdo(io.dev, old(io.Value().line), FirstBits(tdi.value, length), last)
    {
      tdo := [];
      if tdi.Some? {
        tdo := io.ShiftTDITDO(FirstBits(tdi.value, length), last);
      } else {
        ShiftIsData(io.Value(), length, last);
        io.Shift(false, length, last);
      }
    }

    /** The bits behind the data, and on to the next state. */
    method LeaveDR(post: nat)
      requires Valid() && io.tmsLen + post <= CHUNK_BITS
      requires InShift(io.currentState) || (post == 0 && io.currentState.Some?)
      modifies io, io.tmsBuf
      ensures Valid()
      ensures io.Value() == SetStateBus(ShiftBus(old(io.Value()), post, true), postDRState, 0)
    {
      io.Shift(false, post, true);
      io.SetTapState(postDRState, 0);
    }

    /** shiftDR with data for TDI, or (`tdi` absent) `length` bits of no interest. */
    method ShiftDR(tdi: Option<seq<bool>>, length: nat, align: nat, exit: bool) returns (tdo: seq<bool>)
      requires Valid() && Selected() && (tdi.Some? ==> length <= |tdi.value|)
      requires deviceIndex >= 0 ==>
                 && (shiftDRincomplete ==> io.currentState == Some(DrShift))
                 && Room(deviceIndex + PreBits(numDevices, deviceIndex, align) + (if tdi.None? then length else 0))
      modifies this`shiftDRincomplete, io, io.tmsBuf
      ensures Valid() && (deviceIndex >= 0 ==> shiftDRincomplete == !exit)
      ensures io.Value() ==
              if deviceIndex < 0 then old(io.Value())
              else DrBus(old(io.Value()), old(shiftDRincomplete), PreBits(numDevices, deviceIndex, align),
                         DataOf(tdi, length), deviceIndex, exit, postDRState)
      ensures deviceIndex >= 0 && tdi.Some? ==>
                tdo == DataTdo(io.dev,
                               DrEntered(old(io.Value()), old(shiftDRincomplete),
                                         PreBits(numDevices, deviceIndex, align)).line,
                               FirstBits(tdi.value, length), deviceIndex == 0 && exit)
    {
      hide SetStateBus, DrEntered, PreBits, ShiftBus, DataTdo, FirstBits, DataOf;
      tdo := [];
      if deviceIndex < 0 {
        return;
      }
      var post: nat := deviceIndex;
      EnterDrShift(align);
      tdo := ShiftData(tdi, length, post == 0 && exit);
      if exit {
        LeaveDR(post);
      }
      shiftDRincomplete := !exit;
    }
  }

  lemma LeastAbove(k: nat, align: nat, post: nat)
    requires align > 0 && k > 0 && 0 < k * align - post <= align
    ensures k * align - post == align - post % align
  {
    var q, r := post / align, post % align;
    assert post == q * align + r;
    assert k * align - post == (k - q) * align - r by {
      assert (k - q) * align == k * align - q * align;
    }
    assert (q + 2) * align == q * align + 2 * align;
    if k <= q {
      MulMono(k, q, align);
    } else if k >= q + 2 {
      MulMono(q + 2, k, align);
    }
  }

  lemma GotMore(got: seq<nat>, id: nat, start: seq<ChainParam>)
    ensures [ChainParam(id, 0)] + (Chained(got) + start) == Chained(got + [id]) + start
  {
  }

  /** `got` is read; `n` more words at most complete `all`. */
  ghost predicate ToRead(dev: Device, b: Bus, n: nat, got: seq<nat>, all: (seq<nat>, Bus)) {
    var (ids, bus) := ReadChain(dev, b, n);
    all == (got + ids, bus)
  }

  lemma ReadMore(dev: Device, b: Bus, n: nat, rest: nat, got: seq<nat>, all: (seq<nat>, Bus))
    requires n > 0 && rest == n - 1 && ToRead(dev, b, n, got, all)
    ensures var id := ReadWord(dev, b);
            if id == 0 || id == ALL_ONES then all == (got, AfterWord(b))
            else ToRead(dev, AfterWord(b), rest, got + [id], all)
  {
    var id, more := ReadWord(dev, b), ReadChain(dev, AfterWord(b), rest).0;
    assert got + [] == got && got + ([id] + more) == got + [id] + more;
  }

  const LONGEST := 20

  lemma WalkLength(b: Bus, t: Tap)
    ensures |WalkBus(b, t).line| <= |b.line| + LONGEST
  {
    assert |PathTo(Known(b).state.value, t)| <= 8;
  }

  /** Padding, data and padding shift as one stream. */
  lemma ShiftsCombine(b: Bus, pre: nat, data: seq<bool>, post: nat)
    requires InShift(b.state) && data != []
    ensures var b1 := ShiftBus(b, pre, false);
            ShiftBus(ShiftDataBus(b1, data, post == 0), post, true)
            == ShiftDataBus(b, Ones(pre) + data + Ones(post), true)
  {
    ShiftIsData(b, pre, false);
    DataCombine(b, Ones(pre), data, post == 0);
    ShiftIsData(ShiftDataBus(b, Ones(pre) + data, false), post, true);
    if post > 0 {
      DataCombine(b, Ones(pre) + data, Ones(post), true);
    } else {
      assert Ones(pre) + data + Ones(post) == Ones(pre) + data;
    }
  }

  lemma ShiftIsData(b: Bus, n: nat, last: bool)
    ensures ShiftBus(b, n, last) == ShiftDataBus(b, Ones(n), last)
  {
    if n > 0 {
      assert HighTdi(ShiftBits(n, last)) == DataWires(Ones(n), last);
    }
  }

  lemma DataCombine(b: Bus, x: seq<bool>, y: seq<bool>, last: bool)
    requires InShift(b.state) && y != []
    ensures ShiftDataBus(ShiftDataBus(b, x, false), y, last) == ShiftDataBus(b, x + y, last)
  {
    if x == [] {
      assert x + y == y;
    } else {
      assert b.line + DataWires(x, false) + DataWires(y, last) == b.line + DataWires(x + y, last);
    }
  }
}
