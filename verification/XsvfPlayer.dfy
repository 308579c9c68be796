/** `shift_data` and `libxsvf_xsvf` (svfload/libxsvf/xsvf.c): their loops over
    byte buffers against XsvfModel. */
module XsvfPlayer {
  import opened Bits
  import opened HostApi
  import opened Hosts
  import opened SvfScript
  import opened TapWalk
  import opened XsvfModel

  // ---------------------------------------------------------------------
  // Input
  // ---------------------------------------------------------------------

  method ReadByte(h: Host) returns (ok: bool, b: byte)
    modifies h`pos
    ensures ok == (old(h.pos) < |h.input|)
    ensures if ok then b == ByteAt(h.input, old(h.pos)) && h.pos == old(h.pos) + 1 else h.pos == old(h.pos)
  {
    var ch := h.GetByte();
    ok := ch >= 0;
    b := if ok then ch % 256 else 0;
  }

  /** READ_LONG. */
  method ReadLong(h: Host) returns (ok: bool, n: nat)
    modifies h`pos
    ensures ok == (old(h.pos) + 4 <= |h.input|)
    ensures ok ==> n == LongAt(h.input, old(h.pos)) && h.pos == old(h.pos) + 4
  {
    n := 0;
    var b;
    ghost var p := h.pos;
    ok, b := ReadByte(h);
    if !ok { return; }
    n := b;
    ok, b := ReadByte(h);
    if !ok { return; }
    n := n * 256 + b;
    ok, b := ReadByte(h);
    if !ok { return; }
    n := n * 256 + b;
    ok, b := ReadByte(h);
    if !ok { return; }
    n := n * 256 + b;
  }

  /** READ_BITS. */
  method ReadBits(h: Host, buf: array<byte>, len: nat) returns (ok: bool)
    requires buf.Length == Bits2Bytes(len) && h.pos <= |h.input|
    modifies h`pos, buf
    ensures ok == (old(h.pos) + Bits2Bytes(len) <= |h.input|)
    ensures ok ==> buf[..] == Slice(h.input, old(h.pos), Bits2Bytes(len)) && h.pos == old(h.pos) + Bits2Bytes(len)
  {
    var i, p := 0, 0;
    while i < len
      invariant i == 8 * p && p <= Bits2Bytes(len)
      invariant h.pos == old(h.pos) + p <= |h.input|
      invariant forall k :: 0 <= k < p ==> old(h.pos) + k < |h.input| && buf[k] == ByteAt(h.input, old(h.pos) + k)
    {
      var b;
      ok, b := ReadByte(h);
      if !ok {
        return;
      }
      buf[p] := b;
      i, p := i + 8, p + 1;
    }
    ok := true;
  }

  // ---------------------------------------------------------------------
  // shift_data
  // ---------------------------------------------------------------------

  function Contents(buf: array?<byte>): Option<seq<byte>>
    reads buf
  {
    if buf == null then None else Some(buf[..])
  }

  function Job(inp: array<byte>, outp: array?<byte>, maskp: array?<byte>, len: nat, state: int, estate: int,
               delay: int): Shift
    reads inp, outp, maskp
  {
    Shift(inp[..], Contents(outp), Contents(maskp), len, state, estate, delay)
  }

  lemma WalkEnds(t: int, s: int)
    ensures TapWalk.Walk(t, s).ok ==> TapWalk.Walk(t, s).tap == s
  {
    if s != t && INIT <= t <= IRUPDATE && Reachable(t, s) {
      var n := Distance(t, s);
      AfterApproaches(t, s, n);
      DistanceZero(AfterTurns(t, s, n).1, s);
    }
  }

  method Walk(h: Host, s: int) returns (ok: bool)
    modifies h`log, h`tapState
    ensures (State(h), ok) == Walked(old(State(h)), s)
    ensures ok ==> h.tapState == s
  {
    WalkEnds(h.tapState, s);
    var rc := LibxsvfTapWalk(h, s);
    ok := rc >= 0;
  }

  method Udelay(h: Host, usecs: int, numTck: int)
    modifies h`log
    ensures State(h) == Waited(old(State(h)), usecs, numTck)
  {
    var _ := h.Request(Delay(usecs, false, numTck));
  }

  method GetBitOf(data: array<byte>, n: nat) returns (v: bool)
    requires n < 8 * data.Length
    ensures v == GetBit(data[..], n)
  {
    v := Bit(data[n / 8], 7 - n % 8);
  }

  /** The pulse for buffer bit `i`. */
  method PulseBit(h: Host, inp: array<byte>, outp: array?<byte>, maskp: array?<byte>, i: nat, tms: bool, sync: bool,
                  ghost j: Shift, ghost retry: bool) returns (rc: int)
    requires j == Job(inp, outp, maskp, j.len, j.state, j.estate, j.delay) && ShiftWf(j)
    requires LeftPadding(j.len) <= i < LeftPadding(j.len) + j.len
    requires tms == (i == LeftPadding(j.len) && j.state != j.estate)
    requires sync == (retry && i == LeftPadding(j.len))
    modifies h`log
    ensures h.log == old(h.log) + [PulseOf(j, retry, i)] && rc == h.env(h.log)
  {
    var tdi := GetBitOf(inp, i);
    var tdo: Option<bool> := None;
    if maskp != null {
      var cares := GetBitOf(maskp, i);
      if cares {
        tdo := Some(false);
        if outp != null {
          var v := GetBitOf(outp, i);
          tdo := Some(v);
        }
      }
    }
    rc := h.PulseTck(tms, Some(tdi), tdo, false, sync);
  }

  lemma PulsesSnoc(log: seq<Act>, j: Shift, retry: bool, k: nat, i: nat, env: Env)
    requires ShiftWf(j) && k < j.len && i == LeftPadding(j.len) + j.len - 1 - k
    ensures var more := log + ShiftPulses(j, retry, k + 1);
            && more == log + ShiftPulses(j, retry, k) + [PulseOf(j, retry, i)]
            && (AnyNegative(log, ShiftPulses(j, retry, k + 1), env)
                <==> AnyNegative(log, ShiftPulses(j, retry, k), env) || env(more) < 0)
  {
    var a := PulseOf(j, retry, i);
    assert ShiftPulses(j, retry, k + 1) == ShiftPulses(j, retry, k) + [a];
    AnyNegativeSnoc(log, ShiftPulses(j, retry, k), a, env);
  }

  /** All bits of one attempt. */
  method PulseBits(h: Host, inp: array<byte>, outp: array?<byte>, maskp: array?<byte>, len: nat, estate: int,
                   retry: bool, ghost j: Shift) returns (tdoError: bool)
    requires j == Job(inp, outp, maskp, len, h.tapState, estate, j.delay) && ShiftWf(j)
    modifies h`log, h`tapState
    ensures State(h) == Pulsed(j, retry, old(State(h)))
    ensures tdoError == AnyNegative(old(h.log), ShiftPulses(j, retry, len), h.env)
  {
    hide PulseOf, ShiftPulses, ShiftWf;
    tdoError := false;
    var tms := false;
    var leftPadding := (8 - len % 8) % 8;
    var i := len + leftPadding - 1;
    ghost var k: nat := 0;
    ghost var log := h.log;
    assert log == log + ShiftPulses(j, retry, 0);
    while i >= leftPadding
      invariant k <= len && i == len + leftPadding - 1 - k
      invariant h.log == log + ShiftPulses(j, retry, k)
      invariant h.tapState == if k == len then ShiftTap(j) else j.state
      invariant tdoError == AnyNegative(log, ShiftPulses(j, retry, k), h.env)
      invariant k < len ==> !tms
    {
      if i == leftPadding && h.tapState != estate {
        h.tapState := h.tapState + 1;
        tms := true;
      }
      var rc := PulseBit(h, inp, outp, maskp, i, tms, retry && i == leftPadding, j, retry);
      PulsesSnoc(log, j, retry, k, i, h.env);
      if rc < 0 {
        tdoError := true;
      }
      i, k := i - 1, k + 1;
    }
  }

  /** The walk that ends an attempt, over Run-Test/Idle if there is a wait. */
  method LeaveShift(h: Host, estate: int, edelay: int, ghost j: Shift) returns (ok: bool)
    requires j.estate == estate && j.delay == edelay
    modifies h`log, h`tapState
    ensures (State(h), ok) == Leave(j, old(State(h)))
  {
    hide Walked;
    if edelay != 0 {
      ok := Walk(h, IDLE);
      if ok {
        Udelay(h, edelay, edelay);
      }
    } else {
      ok := Walk(h, estate);
    }
  }

  /** One turn of the retry loop. */
  method TryShift(h: Host, inp: array<byte>, outp: array?<byte>, maskp: array?<byte>, len: nat,
                  state: int, estate: int, edelay: int, retry: bool) returns (ok: bool, tdoError: bool)
    requires ShiftWf(Job(inp, outp, maskp, len, state, estate, edelay))
    modifies h`log, h`tapState
    ensures var (st, t) := Attempt(Job(inp, outp, maskp, len, state, estate, edelay), retry, old(State(h)), h.env);
            State(h) == st && ok == (t != Stuck) && (ok ==> tdoError == (t == Mismatched))
  {
    hide Walked, Pulsed, Leave, AnyNegative, ShiftPulses, ShiftWf;
    tdoError := false;
    ghost var j := Job(inp, outp, maskp, len, state, estate, edelay);
    ok := Walk(h, state);
    if !ok {
      return;
    }
    tdoError := PulseBits(h, inp, outp, maskp, len, estate, retry, j);
    ok := LeaveShift(h, estate, edelay, j);
  }

  method ShiftDataM(h: Host, inp: array<byte>, outp: array?<byte>, maskp: array?<byte>, len: nat,
                    state: int, estate: int, edelay: int, retries: nat) returns (rc: int)
    requires ShiftWf(Job(inp, outp, maskp, len, state, estate, edelay))
    modifies h`log, h`tapState
    ensures (State(h), rc == 0)
            == ShiftData(Job(inp, outp, maskp, len, state, estate, edelay), retries, old(State(h)), h.env)
  {
    hide Attempt, ShiftWf, Job;
    var withRetries := retries > 0;
    ghost var j := Job(inp, outp, maskp, len, state, estate, edelay);
    if withRetries {
      var s := h.Request(Sync);
      if s < 0 {
        return -1;
      }
    }
    ghost var st := State(h);
    var left := retries;
    while true
      invariant Attempts(j, withRetries, left, State(h), h.env) == Attempts(j, withRetries, retries, st, h.env)
      decreases left
    {
      var ok, tdoError := TryShift(h, inp, outp, maskp, len, state, estate, edelay, withRetries);
      if !ok {
        return -1;
      }
      if !tdoError {
        return 0;
      }
      if left <= 0 {
        return -1;
      }
      left := left - 1;
    }
  }

  // ---------------------------------------------------------------------
  // libxsvf_xsvf
  // ---------------------------------------------------------------------

  method SetBitOf(data: array<byte>, n: nat, v: bool)
    requires n < 8 * data.Length
    modifies data
    ensures data[..] == SetBit(old(data[..]), n, v)
  {
    data[n / 8] := PutByteBit(data[n / 8], 7 - n % 8, v);
  }

  /** The local variables of libxsvf_xsvf. */
  class XsvfVars {
    var tdi: array<byte>
    var tdo: array<byte>
    var mask: array<byte>
    var addr: array<byte>
    var data: array<byte>
    var drSize: nat
    var dataSize: nat
    var runtest: nat
    var xendir: byte
    var xenddr: byte
    var retries: byte
    var cmd: byte

    ghost function Buffers(): set<object>
      reads this
    {
      {tdi, tdo, mask, addr, data}
    }

    function Value(pos: nat): Xs
      reads this, tdi, tdo, mask, addr, data
    {
      Xs(pos, cmd, drSize, dataSize, runtest, xendir, xenddr, retries, tdi[..], tdo[..], mask[..], addr[..], data[..])
    }

    ghost predicate Valid()
      reads this, tdi, tdo, mask, addr, data
    {
      && tdi !in {tdo, mask, addr, data} && tdo !in {mask, addr, data} && mask !in {addr, data} && addr != data
      && XsWf(Value(0))
    }

    constructor ()
      ensures Valid() && fresh(Buffers())
      ensures forall pos: nat :: Value(pos) == XSTART.(pos := pos)
    {
      tdi := new byte[0];
      tdo := new byte[0];
      mask := new byte[0];
      addr := new byte[0];
      data := new byte[0];
      drSize, dataSize, runtest, xendir, xenddr, retries, cmd := 0, 0, 0, 0, 0, 0, 0;
    }
  }

  /** A command ended as `t` says: the state and log always, the variables and
      the position in the input if the run goes on. */
  ghost predicate Did(h: Host, v: XsvfVars, t: Turned, flow: Flow)
    reads h, v, v.Buffers()
  {
    flow == t.flow && State(h) == t.st && (flow == Go ==> v.Valid() && v.Value(h.pos) == t.x && h.pos <= |h.input|)
  }

  ghost predicate Ready(h: Host, v: XsvfVars)
    reads h, v, v.Buffers()
  {
    v.Valid() && h.pos <= |h.input|
  }

  /** The scan of one data vector, whichever command asks for it. */
  method ScanDr(h: Host, v: XsvfVars) returns (flow: Flow)
    requires Ready(h, v)
    modifies h`log, h`tapState
    ensures Did(h, v, DrScanned(v.Value(h.pos), v.cmd, old(State(h)), h.env), flow)
  {
    ghost var x := v.Value(h.pos);
    var checked := Checked(v.cmd);
    var outp: array?<byte> := if v.cmd in {XSDRB, XSDRC, XSDRE} then null else v.tdo;
    var maskp: array?<byte> := if checked then v.mask else null;
    var estate := if Stays(v.cmd) then DRSHIFT else if v.xenddr != 0 then DRPAUSE else IDLE;
    var delay := if checked then ToInt(v.runtest) else 0;
    ghost var j := DrShiftJob(x, v.cmd);
    assert Job(v.tdi, outp, maskp, v.drSize, DRSHIFT, estate, delay) == j;
    var rc := ShiftDataM(h, v.tdi, outp, maskp, v.drSize, DRSHIFT, estate, delay, if checked then v.retries else 0);
    flow := if rc == 0 then Go else Fail;
  }

  method LoadDr(h: Host, v: XsvfVars) returns (ok: bool)
    requires Ready(h, v)
    modifies h`pos, v.tdi, v.tdo
    ensures ok == Has(h.input, old(v.Value(h.pos)), DrLength(old(v.Value(h.pos))))
    ensures ok ==> Ready(h, v) && v.Value(h.pos) == DrLoaded(h.input, old(v.Value(h.pos)))
  {
    ok := ReadBits(h, v.tdi, v.drSize);
    if ok && LoadsTdo(v.cmd) {
      ok := ReadBits(h, v.tdo, v.drSize);
    }
  }

  method DoDr(h: Host, v: XsvfVars) returns (flow: Flow)
    requires Ready(h, v)
    modifies h`pos, h`log, h`tapState, v.tdi, v.tdo
    ensures Did(h, v, DrCommand(h.input, old(v.Value(h.pos)), old(State(h)), h.env), flow)
  {
    ghost var x, st := v.Value(h.pos), State(h);
    var ok := LoadDr(h, v);
    if !ok {
      return Fail;
    }
    assert DrCommand(h.input, x, st, h.env) == DrScanned(v.Value(h.pos), v.cmd, State(h), h.env);
    flow := ScanDr(h, v);
  }

  method ScanIr(h: Host, v: XsvfVars, len: nat) returns (flow: Flow)
    requires Ready(h, v)
    modifies h`pos, h`log, h`tapState
    ensures Did(h, v, IrScanned(h.input, old(v.Value(h.pos)), len, old(State(h)), h.env), flow)
  {
    hide ShiftData, ToInt, Slice, ShiftWf, Bits2Bytes;
    ghost var x := v.Value(h.pos);
    var buf := new byte[Bits2Bytes(len)];
    var ok := ReadBits(h, buf, len);
    if !ok {
      return Fail;
    }
    var estate := if v.xendir != 0 then IRPAUSE else IDLE;
    assert Job(buf, null, null, len, IRSHIFT, estate, ToInt(v.runtest))
        == IrShiftJob(x, Slice(h.input, x.pos, Bits2Bytes(len)), len);
    var rc := ShiftDataM(h, buf, null, null, len, IRSHIFT, estate, ToInt(v.runtest), v.retries);
    flow := if rc == 0 then Go else Fail;
  }

  method ReadLength(h: Host, width: nat) returns (ok: bool, len: nat)
    requires 1 <= width <= 2
    modifies h`pos
    ensures ok == (old(h.pos) + width <= |h.input|)
    ensures ok ==> h.pos == old(h.pos) + width && len == LengthAt(h.input, old(h.pos), width)
  {
    var b;
    ok, b := ReadByte(h);
    len := b;
    if ok && width == 2 {
      ok, b := ReadByte(h);
      len := len * 256 + b;
    }
  }

  lemma IrCommandIs(input: string, x: Xs, width: nat, y: Xs, len: nat, st: Player, env: Env) returns (t: Turned)
    requires XsWf(x) && 1 <= width <= 2 && Has(input, x, width)
    requires y == x.(pos := x.pos + width) && len == LengthAt(input, x.pos, width)
    ensures t == IrCommand(input, x, width, st, env) && t == IrScanned(input, y, len, st, env)
  {
    hide IrScanned, Has, XsWf, LengthAt;
    t := IrCommand(input, x, width, st, env);
  }

  method DoIr(h: Host, v: XsvfVars, width: nat) returns (flow: Flow)
    requires Ready(h, v) && 1 <= width <= 2
    modifies h`pos, h`log, h`tapState
    ensures Did(h, v, IrCommand(h.input, old(v.Value(h.pos)), width, old(State(h)), h.env), flow)
  {
    ghost var x, st := v.Value(h.pos), State(h);
    var ok, len := ReadLength(h, width);
    if !ok {
      return Fail;
    }
    ghost var y := x.(pos := x.pos + width);
    assert v.Value(h.pos) == y && State(h) == st;
    ghost var t := IrCommandIs(h.input, x, width, y, len, st, h.env);
    flow := ScanIr(h, v, len);
    assert Did(h, v, t, flow);
  }

  method CountBits(data: array<byte>, n: nat) returns (w: nat)
    requires n <= 8 * data.Length
    ensures w == Weight(data[..], n)
  {
    w := 0;
    var i := 0;
    while i < n
      invariant 0 <= i <= n && w == Weight(data[..], i)
    {
      var v := GetBitOf(data, i);
      w := w + BoolToNat(v);
      i := i + 1;
    }
  }

  method DoMasks(h: Host, v: XsvfVars) returns (flow: Flow)
    requires Ready(h, v)
    modifies h`pos, v`dataSize, v.addr, v.data
    ensures Did(h, v, MaskCommand(h.input, old(v.Value(h.pos)), old(State(h))), flow)
  {
    hide Weight, Slice;
    var ok := ReadBits(h, v.addr, v.drSize);
    if !ok {
      return Fail;
    }
    ok := ReadBits(h, v.data, v.drSize);
    if !ok {
      return Fail;
    }
    v.dataSize := CountBits(v.data, v.drSize);
    return Go;
  }

  /** One buffer of the new size, which keeps what fits of the old one. */
  method Realloc(buf: array<byte>, n: nat) returns (r: array<byte>)
    ensures fresh(r) && r[..] == Resized(buf[..], n)
  {
    r := new byte[n];
    forall i | 0 <= i < n {
      r[i] := if i < buf.Length then buf[i] else 0;
    }
  }

  /** All five buffers. */
  method ReallocAll(v: XsvfVars, n: nat)
      returns (tdi: array<byte>, tdo: array<byte>, mask: array<byte>, addr: array<byte>, data: array<byte>)
    ensures fresh({tdi, tdo, mask, addr, data})
    ensures tdi !in {tdo, mask, addr, data} && tdo !in {mask, addr, data} && mask !in {addr, data} && addr != data
    ensures tdi[..] == Resized(v.tdi[..], n) && tdo[..] == Resized(v.tdo[..], n) && mask[..] == Resized(v.mask[..], n)
    ensures addr[..] == Resized(v.addr[..], n) && data[..] == Resized(v.data[..], n)
  {
    tdi := Realloc(v.tdi, n);
    tdo := Realloc(v.tdo, n);
    mask := Realloc(v.mask, n);
    addr := Realloc(v.addr, n);
    data := Realloc(v.data, n);
  }

  method SetBuffers(v: XsvfVars, size: nat)
    requires v.Valid() && size <= MAX_BITS
    modifies v
    ensures v.Valid() && fresh(v.Buffers())
    ensures v.Value(0) == SetSize(old(v.Value(0)), size)
  {
    var tdi, tdo, mask, addr, data := ReallocAll(v, Bits2Bytes(size));
    v.drSize := size;
    v.tdi, v.tdo, v.mask, v.addr, v.data := tdi, tdo, mask, addr, data;
  }

  /** XSDRSIZE; what the memory manager cannot serve ends the run. */
  method DoSize(h: Host, v: XsvfVars) returns (flow: Flow)
    requires Ready(h, v)
    modifies h`pos, v
    ensures flow == Go ==> fresh(v.Buffers())
    ensures Did(h, v, SizeCommand(h.input, old(v.Value(h.pos)), old(State(h))), flow)
  {
    var ok, size := ReadLong(h);
    if !ok || size > MAX_BITS {
      return Fail;
    }
    SetBuffers(v, size);
    return Go;
  }

  method DoTdoMask(h: Host, v: XsvfVars) returns (flow: Flow)
    requires Ready(h, v)
    modifies h`pos, v.mask
    ensures Did(h, v, TdoMaskCommand(h.input, old(v.Value(h.pos)), old(State(h))), flow)
  {
    var ok := ReadBits(h, v.mask, v.drSize);
    flow := if ok then Go else Fail;
  }

  method DoRuntest(h: Host, v: XsvfVars) returns (flow: Flow)
    requires Ready(h, v)
    modifies h`pos, v`runtest
    ensures Did(h, v, XRuntestCommand(h.input, old(v.Value(h.pos)), old(State(h))), flow)
  {
    var ok, n := ReadLong(h);
    if !ok {
      return Fail;
    }
    v.runtest := n;
    return Go;
  }

  method DoByte(h: Host, v: XsvfVars) returns (flow: Flow)
    requires Ready(h, v)
    modifies h`pos, v`retries, v`xendir, v`xenddr
    ensures Did(h, v, ByteCommand(h.input, old(v.Value(h.pos)), old(State(h))), flow)
  {
    var ok, b := ReadByte(h);
    if !ok {
      return Fail;
    }
    if v.cmd == XREPEAT {
      v.retries := b;
    } else if v.cmd == XENDIR {
      v.xendir := b;
    } else if v.cmd == XENDDR {
      v.xenddr := b;
    }
    return Go;
  }

  method DoComment(h: Host, v: XsvfVars) returns (flow: Flow)
    requires Ready(h, v)
    modifies h`pos
    ensures Did(h, v, CommentCommand(h.input, old(v.Value(h.pos)), old(State(h))), flow)
  {
    ghost var p := h.pos;
    var b: byte := 1;
    while b != 0
      invariant p <= h.pos <= |h.input|
      invariant if b == 0 then CommentEnd(h.input, p) == Some(h.pos)
                else CommentEnd(h.input, p) == CommentEnd(h.input, h.pos)
      decreases |h.input| - h.pos
    {
      var ok;
      ok, b := ReadByte(h);
      if !ok {
        return Fail;
      }
    }
    return Go;
  }

  method DoState(h: Host, v: XsvfVars, last: byte) returns (flow: Flow)
    requires Ready(h, v)
    modifies h`pos, h`log, h`tapState
    ensures Did(h, v, XStateCommand(h.input, old(v.Value(h.pos)), last, old(State(h))), flow)
  {
    if v.runtest != 0 && last == XRUNTEST {
      var ok := Walk(h, IDLE);
      if !ok {
        return Fail;
      }
      Udelay(h, v.runtest, v.runtest);
    }
    var ok, state := ReadByte(h);
    if !ok {
      return Fail;
    }
    ok := Walk(h, XilinxTap(state));
    flow := if ok then Go else Fail;
  }

  method WalkWaitWalk(h: Host, a: WaitArgs) returns (ok: bool)
    modifies h`log, h`tapState
    ensures (State(h), ok) == WaitWalks(a, old(State(h)))
  {
    ok := Walk(h, a.from);
    if ok {
      Udelay(h, a.usecs, 0);
      ok := Walk(h, a.to);
    }
  }

  method ReadWait(h: Host) returns (ok: bool, a: WaitArgs)
    requires h.pos <= |h.input|
    modifies h`pos
    ensures ok == (old(h.pos) + 6 <= |h.input|)
    ensures ok ==> h.pos == old(h.pos) + 6 && a == WaitArgsAt(h.input, old(h.pos))
  {
    a := WaitArgs(-1, -1, 0);
    var s1, s2, usecs;
    ok, s1 := ReadByte(h);
    if ok {
      ok, s2 := ReadByte(h);
      if ok {
        ok, usecs := ReadLong(h);
        if ok {
          a := WaitArgs(XilinxTap(s1), XilinxTap(s2), usecs);
        }
      }
    }
  }

  method RunWait(h: Host, v: XsvfVars, a: WaitArgs) returns (flow: Flow)
    requires Ready(h, v)
    modifies h`pos, h`log, h`tapState
    ensures Did(h, v, WaitRun(h.input, old(v.Value(h.pos)), a, old(State(h))), flow)
  {
    var ok := WalkWaitWalk(h, a);
    if ok && v.cmd == XWAITSTATE {
      var ignored;
      ok, ignored := ReadLong(h);
    }
    flow := if ok then Go else Fail;
  }

  lemma WaitCommandIs(input: string, x: Xs, y: Xs, st: Player, a: WaitArgs) returns (t: Turned)
    requires XsWf(x) && Has(input, x, 6) && y == x.(pos := x.pos + 6) && a == WaitArgsAt(input, x.pos)
    ensures t == WaitCommand(input, x, st) && t == WaitRun(input, y, a, st)
  {
    t := WaitCommand(input, x, st);
  }

  method DoWait(h: Host, v: XsvfVars) returns (flow: Flow)
    requires Ready(h, v)
    modifies h`pos, h`log, h`tapState
    ensures Did(h, v, WaitCommand(h.input, old(v.Value(h.pos)), old(State(h))), flow)
  {
    ghost var x, st := v.Value(h.pos), State(h);
    var ok, a := ReadWait(h);
    if !ok {
      return Fail;
    }
    ghost var t := WaitCommandIs(h.input, x, v.Value(h.pos), st, a);
    flow := RunWait(h, v, a);
    assert Did(h, v, t, flow);
  }

  // ---------------------------------------------------------------------
  // XSDRINC
  // ---------------------------------------------------------------------

  /** The loop that counts the address field up, from the last bit down. */
  method IncrementBuffer(addr: array<byte>, tdi: array<byte>, n: nat)
    requires addr != tdi && n <= 8 * addr.Length && tdi.Length == addr.Length
    modifies tdi
    ensures tdi[..] == Increment(addr[..], old(tdi[..]), n, true)
  {
    var carry := true;
    var i: int := n - 1;
    while i >= 0
      invariant -1 <= i < n
      invariant Increment(addr[..], tdi[..], i + 1, carry) == Increment(addr[..], old(tdi[..]), n, true)
    {
      var counts := GetBitOf(addr, i);
      if counts {
        var v := GetBitOf(tdi, i);
        if v {
          SetBitOf(tdi, i, !carry);
        } else {
          SetBitOf(tdi, i, carry);
          carry := false;
        }
      }
      i := i - 1;
    }
  }

  /** The search for the next data bit; it runs off a buffer without one. */
  method FindSet(mask: array<byte>, from: nat) returns (k: nat)
    requires from <= 8 * mask.Length
    ensures k == NextSet(mask[..], from)
  {
    k := from;
    while k < 8 * mask.Length
      invariant from <= k <= 8 * mask.Length && NextSet(mask[..], k) == NextSet(mask[..], from)
    {
      var v := GetBitOf(mask, k);
      if v {
        return;
      }
      k := k + 1;
    }
  }

  /** One turn of the scatter loop. */
  method ScatterBit(h: Host, mask: array<byte>, tdi: array<byte>, i: nat, j: nat, b: byte, ghost size: nat)
      returns (flow: Flow, j': nat, b': byte)
    requires mask != tdi && tdi.Length == mask.Length && i < size && j <= 8 * mask.Length && h.pos <= |h.input|
    modifies h`pos, tdi
    ensures old(h.pos) <= h.pos <= |h.input|
    ensures var s := Scatter(h.input, old(h.pos), b, mask[..], old(tdi[..]), i, j, size);
            match flow
            case Go => j' <= 8 * mask.Length && s == Scatter(h.input, h.pos, b', mask[..], tdi[..], i + 1, j', size)
            case Fail => s == ScatterEof
            case Undef => s == Overrun
            case Complete => false
  {
    hide NextSet, Bit, SetBit, ByteAt;
    j', b' := j, b;
    if i % 8 == 0 {
      var ok;
      ok, b' := ReadByte(h);
      if !ok {
        return Fail, j', b';
      }
    }
    var k := FindSet(mask, j);
    if k == 8 * mask.Length {
      return Undef, j', b';
    }
    SetBitOf(tdi, k, Bit(b', 7 - i % 8));
    return Go, k + 1, b';
  }

  method ScatterBits(h: Host, mask: array<byte>, tdi: array<byte>, size: nat) returns (flow: Flow)
    requires mask != tdi && tdi.Length == mask.Length && h.pos <= |h.input|
    modifies h`pos, tdi
    ensures h.pos <= |h.input|
    ensures var s := Scatter(h.input, old(h.pos), 0, mask[..], old(tdi[..]), 0, 0, size);
            match flow
            case Go => s == Scattered(tdi[..], h.pos)
            case Fail => s == ScatterEof
            case Undef => s == Overrun
            case Complete => false
  {
    var i, j: nat, b: byte := 0, 0, 0;
    while i < size
      invariant 0 <= i <= size && j <= 8 * mask.Length && h.pos <= |h.input|
      invariant Scatter(h.input, h.pos, b, mask[..], tdi[..], i, j, size)
             == Scatter(h.input, old(h.pos), 0, mask[..], old(tdi[..]), 0, 0, size)
    {
      flow, j, b := ScatterBit(h, mask, tdi, i, j, b, size);
      if flow != Go {
        return;
      }
      i := i + 1;
    }
    return Go;
  }

  method UpdateVector(h: Host, v: XsvfVars) returns (flow: Flow)
    requires Ready(h, v)
    modifies h`pos, v.tdi
    ensures var x := old(v.Value(h.pos));
            match NextVector(h.input, x)
            case Scattered(tdi, pos) => flow == Go && Ready(h, v) && v.Value(h.pos) == x.(tdi := tdi, pos := pos)
            case ScatterEof => flow == Fail
            case Overrun => flow == Undef
  {
    IncrementBuffer(v.addr, v.tdi, v.drSize);
    flow := ScatterBits(h, v.data, v.tdi, v.dataSize);
  }

  method DoInc(h: Host, v: XsvfVars) returns (flow: Flow)
    requires Ready(h, v) && v.cmd == XSDRINC
    modifies h`pos, h`log, h`tapState, v.tdi
    ensures Did(h, v, IncCommand(h.input, old(v.Value(h.pos)), old(State(h)), h.env), flow)
  {
    hide IncScan, IncEnd, Bits2Bytes, Slice, ByteAt;
    ghost var x, n := v.Value(h.pos), Bits2Bytes(v.drSize);
    var ok := ReadBits(h, v.tdi, v.drSize);
    if !ok {
      return Fail;
    }
    var count;
    ok, count := ReadByte(h);
    if !ok {
      return Fail;
    }
    ghost var y := x.(tdi := Slice(h.input, x.pos, n), pos := x.pos + n + 1);
    assert v.Value(h.pos) == y;
    flow := IncScans(h, v, count, IncScan(y, h.env), y);
  }

  method IncScans(h: Host, v: XsvfVars, count: nat, ghost scan: VectorScan, ghost x: Xs) returns (flow: Flow)
    requires Ready(h, v) && v.cmd == XSDRINC && v.Value(h.pos) == x && scan == IncScan(x, h.env)
    modifies h`pos, h`log, h`tapState, v.tdi
    ensures Did(h, v, IncEnd(h.input, x, count, old(State(h)), scan), flow)
  {
    ghost var end := IncEnd(h.input, x, count, State(h), scan);
    var num: nat := count;
    while true
      invariant Ready(h, v) && v.Value(h.pos) == x.(tdi := v.tdi[..], pos := h.pos)
      invariant IncEnd(h.input, v.Value(h.pos), num, State(h), scan) == end
      decreases num
    {
      var more;
      flow, more, num := IncTurn(h, v, num, scan, x, end);
      if !more {
        return;
      }
    }
  }

  lemma IncLoopIs(input: string, x: Xs, num: nat, left: nat, st: Player, scan: VectorScan) returns (end: Turned)
    requires XsWf(x) && (num > 0 ==> left == num - 1)
    ensures end == IncEnd(input, x, num, st, scan)
    ensures var (st', ok) := scan(x.tdi, st);
            if !ok || num == 0 then end == Turned(x, st', if ok then Go else Fail)
            else match NextVector(input, x)
                 case ScatterEof => end == Turned(x, st', Fail)
                 case Overrun => end == Turned(x, st', Undef)
                 case Scattered(tdi, pos) => end == IncEnd(input, x.(tdi := tdi, pos := pos), left, st', scan)
  {
    end := IncEnd(input, x, num, st, scan);
  }

  method IncTurn(h: Host, v: XsvfVars, num: nat, ghost scan: VectorScan, ghost x: Xs, ghost end: Turned)
      returns (flow: Flow, more: bool, left: nat)
    requires Ready(h, v) && v.cmd == XSDRINC && XsWf(x) && v.Value(h.pos) == x.(tdi := v.tdi[..], pos := h.pos)
    requires scan == IncScan(x, h.env) && IncEnd(h.input, v.Value(h.pos), num, State(h), scan) == end
    modifies h`pos, h`log, h`tapState, v.tdi
    ensures !more ==> Did(h, v, end, flow)
    ensures more ==>
              && left < num && Ready(h, v) && v.Value(h.pos) == x.(tdi := v.tdi[..], pos := h.pos)
              && IncEnd(h.input, v.Value(h.pos), left, State(h), scan) == end
  {
    hide IncScan, IncEnd, NextVector;
    more, left := false, if num > 0 then num - 1 else 0;
    ghost var e := IncLoopIs(h.input, v.Value(h.pos), num, left, State(h), scan);
    flow := ScanVector(h, v, scan, x);
    if flow == Go && num > 0 {
      flow := UpdateVector(h, v);
      more := flow == Go;
    }
  }

  method ScanVector(h: Host, v: XsvfVars, ghost scan: VectorScan, ghost x: Xs) returns (flow: Flow)
    requires Ready(h, v) && v.cmd == XSDRINC && XsWf(x) && v.Value(h.pos) == x.(tdi := v.tdi[..], pos := h.pos)
    requires scan == IncScan(x, h.env)
    modifies h`log, h`tapState
    ensures var (st, ok) := scan(v.tdi[..], old(State(h)));
            State(h) == st && flow == if ok then Go else Fail
  {
    assert DrShiftJob(v.Value(h.pos), XSDRINC) == DrShiftJob(x.(tdi := v.tdi[..]), XSDRINC);
    flow := ScanDr(h, v);
  }

  // ---------------------------------------------------------------------
  // The main loop
  // ---------------------------------------------------------------------

  /** The switch over the command. */
  method DoCommand(h: Host, v: XsvfVars, last: byte) returns (flow: Flow)
    requires Ready(h, v)
    modifies h`pos, h`log, h`tapState, v, v.Buffers()
    ensures flow == Go ==> fresh(v.Buffers() - old(v.Buffers()))
    ensures Did(h, v, Execute(h.input, old(v.Value(h.pos)), last, old(State(h)), h.env), flow)
  {
    hide SizeCommand, IncCommand, DrCommand, WaitCommand, XRuntestCommand, ByteCommand, State, MaskCommand,
      TdoMaskCommand, IsDrScan, IrCommand, XStateCommand, Command, RuntestSteps, CommentCommand;
    ghost var t := Execute(h.input, v.Value(h.pos), last, State(h), h.env);
    if v.cmd == XCOMPLETE {
      return Complete;
    } else if v.cmd == XTDOMASK {
      flow := DoTdoMask(h, v);
    } else if v.cmd == XSIR {
      flow := DoIr(h, v, 1);
    } else if v.cmd == XSIR2 {
      flow := DoIr(h, v, 2);
    } else if v.cmd == XRUNTEST {
      flow := DoRuntest(h, v);
    } else if v.cmd == XSDRSIZE {
      flow := DoSize(h, v);
    } else if v.cmd == XSETSDRMASKS {
      flow := DoMasks(h, v);
    } else if v.cmd == XSDRINC {
      flow := DoInc(h, v);
    } else if IsDrScan(v.cmd) {
      flow := DoDr(h, v);
    } else if v.cmd == XSTATE {
      flow := DoState(h, v, last);
    } else if v.cmd in {XREPEAT, XENDIR, XENDDR, XTRST} {
      flow := DoByte(h, v);
    } else if v.cmd == XCOMMENT {
      flow := DoComment(h, v);
    } else if v.cmd in {XWAIT, XWAITSTATE} {
      flow := DoWait(h, v);
    } else {
      return Fail;
    }
    assert Did(h, v, t, flow);
  }

  /** One turn of the main loop: `x` with the next command's code read. */
  lemma LoopIs(input: string, x: Xs, y: Xs, st: Player, run: CommandFn) returns (end: Turned)
    requires XsWf(x) && Advances(run) && x.pos < |input|
    requires y == x.(cmd := ByteAt(input, x.pos), pos := x.pos + 1)
    ensures end == Loop(input, x, st, run)
    ensures var t := run(y, x.cmd, st);
            XsWf(t.x) && end == if t.flow == Go then Loop(input, t.x, t.st, run) else t
  {
    end := Loop(input, x, st, run);
  }

  lemma NextCommand(input: string, x: Xs, y: Xs, st: Player, env: Env, run: CommandFn, end: Turned) returns (t: Turned)
    requires XsWf(x) && Advances(run) && x.pos < |input| && run == Interpreter(input, env)
    requires y == x.(cmd := ByteAt(input, x.pos), pos := x.pos + 1)
    requires end == Loop(input, x, st, run)
    ensures t == Execute(input, y, x.cmd, st, env) && XsWf(t.x)
    ensures end == if t.flow == Go then Loop(input, t.x, t.st, run) else t
  {
    t := run(y, x.cmd, st);
    var e := LoopIs(input, x, y, st, run);
  }

  /** The code of the next command. */
  method ReadCode(h: Host, v: XsvfVars) returns (ok: bool)
    requires Ready(h, v)
    modifies h`pos, v`cmd
    ensures ok == (old(h.pos) < |h.input|) && (!ok ==> h.pos == old(h.pos))
    ensures ok ==> && Ready(h, v) && h.pos == old(h.pos) + 1
                   && v.Value(h.pos) == old(v.Value(h.pos)).(cmd := ByteAt(h.input, old(h.pos)), pos := h.pos)
  {
    hide ByteAt;
    var code;
    ok, code := ReadByte(h);
    if ok {
      v.cmd := code;
    }
  }

  method RunTurn(h: Host, v: XsvfVars, ghost run: CommandFn, ghost end: Turned) returns (flow: Flow)
    requires Ready(h, v) && run == Interpreter(h.input, h.env) && Advances(run)
    requires end == Loop(h.input, v.Value(h.pos), State(h), run)
    modifies h`pos, h`log, h`tapState, v, v.Buffers()
    ensures flow == Go ==> fresh(v.Buffers() - old(v.Buffers())) && h.pos > old(h.pos)
    ensures if flow == Go then Ready(h, v) && end == Loop(h.input, v.Value(h.pos), State(h), run)
            else flow == end.flow && State(h) == end.st
  {
    hide Interpreter, Advances, Command, Execute, ByteAt;
    var last := v.cmd;
    ghost var x := v.Value(h.pos);
    var ok := ReadCode(h, v);
    if !ok {
      return Fail;
    }
    ghost var t := NextCommand(h.input, x, v.Value(h.pos), State(h), h.env, run, end);
    flow := DoCommand(h, v, last);
    assert Did(h, v, t, flow);
  }

  /** The main loop. */
  method Interpret(h: Host, v: XsvfVars, ghost run: CommandFn, ghost end: Turned) returns (flow: Flow)
    requires Ready(h, v) && run == Interpreter(h.input, h.env) && Advances(run)
    requires end == Loop(h.input, v.Value(h.pos), State(h), run)
    modifies h`pos, h`log, h`tapState, v, v.Buffers()
    ensures flow == end.flow && State(h) == end.st
  {
    hide Interpreter, Loop, State, Advances;
    flow := Go;
    while flow == Go
      invariant flow == Go ==> fresh(v.Buffers() - old(v.Buffers()))
      invariant flow == Go ==> Ready(h, v) && end == Loop(h.input, v.Value(h.pos), State(h), run)
      invariant flow != Go ==> flow == end.flow && State(h) == end.st
      decreases flow == Go, |h.input| - h.pos
    {
      flow := RunTurn(h, v, run, end);
    }
  }

  /** libxsvf_xsvf. */
  method LibxsvfXsvf(h: Host) returns (rc: int, undefined: bool)
    requires h.pos <= |h.input|
    modifies h`pos, h`log, h`tapState
    ensures Played(rc, State(h), undefined) == PlayXsvf(h.input, old(h.pos), old(State(h)), h.env)
  {
    InterpreterAdvances(h.input, h.env);
    var v := new XsvfVars();
    ghost var run := Interpreter(h.input, h.env);
    ghost var end := Loop(h.input, XSTART.(pos := h.pos), State(h), run);
    var flow := Interpret(h, v, run, end);
    undefined := flow == Undef;
    rc := if flow == Complete then 0 else -1;
    if !undefined {
      var s := h.Request(Sync);
      if s != 0 && rc >= 0 {
        rc := -1;
      }
    }
  }
}
