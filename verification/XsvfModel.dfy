/** The XSVF byte-code interpreter of svfload/libxsvf/xsvf.c: what `libxsvf_xsvf`
    does for every input and every host. */
module XsvfModel {
  import opened Bits
  import opened HostApi
  import opened SvfScript
  import opened TapWalk

  // Command codes of Xilinx XAPP503, and three extensions.
  const XCOMPLETE := 0x00
  const XTDOMASK := 0x01
  const XSIR := 0x02
  const XSDR := 0x03
  const XRUNTEST := 0x04
  const XREPEAT := 0x07
  const XSDRSIZE := 0x08
  const XSDRTDO := 0x09
  const XSETSDRMASKS := 0x0A
  const XSDRINC := 0x0B
  const XSDRB := 0x0C
  const XSDRC := 0x0D
  const XSDRE := 0x0E
  const XSDRTDOB := 0x0F
  const XSDRTDOC := 0x10
  const XSDRTDOE := 0x11
  const XSTATE := 0x12
  const XENDIR := 0x13
  const XENDDR := 0x14
  const XSIR2 := 0x15
  const XCOMMENT := 0x16
  const XWAIT := 0x17
  const XWAITSTATE := 0x18
  const XTRST := 0x1C

  // ---------------------------------------------------------------------
  // Bits of byte buffers, most significant bit first
  // ---------------------------------------------------------------------

  function Bits2Bytes(bits: nat): nat {
    (bits + 7) / 8
  }

  predicate GetBit(data: seq<byte>, n: nat)
    requires n < 8 * |data|
  {
    Bit(data[n / 8], 7 - n % 8)
  }

  function PutByteBit(b: byte, i: nat, v: bool): byte
    requires i < 8
  {
    Pow2Of8();
    PutBitBound(b, i, v, 8);
    PutBit(b, i, v)
  }

  function SetBit(data: seq<byte>, n: nat, v: bool): (r: seq<byte>)
    requires n < 8 * |data|
    ensures |r| == |data|
  {
    data[n / 8 := PutByteBit(data[n / 8], 7 - n % 8, v)]
  }

  /** setbit changes the bit getbit reads, and no other. */
  lemma SetBitGet(data: seq<byte>, n: nat, v: bool, m: nat)
    requires n < 8 * |data| && m < 8 * |data|
    ensures GetBit(SetBit(data, n, v), m) == (if m == n then v else GetBit(data, m))
  {
    if m / 8 == n / 8 {
      PutBitAt(data[n / 8], 7 - n % 8, v, 7 - m % 8);
    }
  }

  // ---------------------------------------------------------------------
  // Input
  // ---------------------------------------------------------------------

  function ByteAt(input: string, pos: nat): byte
    requires pos < |input|
  {
    input[pos] as int % 256
  }

  function Slice(input: string, pos: nat, n: nat): (r: seq<byte>)
    requires pos + n <= |input|
    ensures |r| == n
    ensures forall i :: 0 <= i < n ==> r[i] == ByteAt(input, pos + i)
  {
    seq<byte>(n, i requires 0 <= i < n => ByteAt(input, pos + i))
  }

  /** READ_LONG: four bytes, most significant first. */
  function LongAt(input: string, pos: nat): (n: nat)
    requires pos + 4 <= |input|
    ensures n < 0x1_0000_0000
  {
    ((ByteAt(input, pos) * 256 + ByteAt(input, pos + 1)) * 256 + ByteAt(input, pos + 2)) * 256 + ByteAt(input, pos + 3)
  }

  /** The conversion of such a long to a 32-bit int. */
  function ToInt(n: nat): int
    requires n < 0x1_0000_0000
  {
    if n >= 0x8000_0000 then n - 0x1_0000_0000 else n
  }

  /** xilinx_tap. */
  function XilinxTap(state: byte): int {
    if state < 16 then RESET + state else -1
  }

  // ---------------------------------------------------------------------
  // shift_data
  // ---------------------------------------------------------------------

  datatype Shift = Shift(inp: seq<byte>, outp: Option<seq<byte>>, maskp: Option<seq<byte>>, len: nat,
                         state: int, estate: int, delay: int)

  predicate ShiftWf(j: Shift) {
    && |j.inp| == Bits2Bytes(j.len)
    && (j.outp.Some? ==> |j.outp.value| == Bits2Bytes(j.len))
    && (j.maskp.Some? ==> |j.maskp.value| == Bits2Bytes(j.len))
    && j.state in {DRSHIFT, IRSHIFT}
    && Reachable(IDLE, j.estate)
  }

  function LeftPadding(len: nat): nat {
    (8 - len % 8) % 8
  }

  /** The pulse for buffer bit `i`; bit `LeftPadding` is the last one. */
  function PulseOf(j: Shift, retry: bool, i: nat): Act
    requires ShiftWf(j) && LeftPadding(j.len) <= i < LeftPadding(j.len) + j.len
  {
    var last := i == LeftPadding(j.len);
    Pulse(last && j.state != j.estate,
          Some(GetBit(j.inp, i)),
          if j.maskp.Some? && GetBit(j.maskp.value, i) then Some(j.outp.Some? && GetBit(j.outp.value, i)) else None,
          false,
          retry && last)
  }

  /** The pulses for the last `n` buffer bits, the last bit first. */
  function ShiftPulses(j: Shift, retry: bool, n: nat): (acts: seq<Act>)
    requires ShiftWf(j) && n <= j.len
    ensures |acts| == n
    ensures forall k :: 0 <= k < n ==> acts[k] == PulseOf(j, retry, LeftPadding(j.len) + j.len - 1 - k)
  {
    seq(n, k requires 0 <= k < n => PulseOf(j, retry, LeftPadding(j.len) + j.len - 1 - k))
  }

  function ShiftTap(j: Shift): int {
    if j.len > 0 && j.state != j.estate then j.state + 1 else j.state
  }

  datatype Try = Matched | Mismatched | Stuck

  function Walked(st: Player, s: int): (Player, bool) {
    var w := Walk(st.tap, s);
    (Player(w.tap, st.log + Transitions(w.tms)), w.ok)
  }

  function Waited(st: Player, usecs: int, numTck: int): Player {
    Player(st.tap, st.log + [Delay(usecs, false, numTck)])
  }

  function Pulsed(j: Shift, retry: bool, st: Player): Player
    requires ShiftWf(j)
  {
    Player(ShiftTap(j), st.log + ShiftPulses(j, retry, j.len))
  }

  /** The way out: straight, or through Run-Test/Idle with a wait there. */
  function Leave(j: Shift, st: Player): (Player, bool) {
    if j.delay == 0 then Walked(st, j.estate)
    else
      var (st', ok) := Walked(st, IDLE);
      if !ok then (st', false) else (Waited(st', j.delay, j.delay), true)
  }

  function Attempt(j: Shift, retry: bool, st: Player, env: Env): (Player, Try)
    requires ShiftWf(j)
  {
    var (st1, ok1) := Walked(st, j.state);
    if !ok1 then (st1, Stuck)
    else
      var bad := AnyNegative(st1.log, ShiftPulses(j, retry, j.len), env);
      var (st2, ok2) := Leave(j, Pulsed(j, retry, st1));
      (st2, if !ok2 then Stuck else if bad then Mismatched else Matched)
  }

  function Attempts(j: Shift, retry: bool, retries: nat, st: Player, env: Env): (Player, bool)
    requires ShiftWf(j)
    decreases retries
  {
    var (st', t) := Attempt(j, retry, st, env);
    if t == Mismatched && retries > 0 then Attempts(j, retry, retries - 1, st', env)
    else (st', t == Matched)
  }

  function ShiftData(j: Shift, retries: nat, st: Player, env: Env): (Player, bool)
    requires ShiftWf(j)
  {
    if retries > 0 then
      var st' := Player(st.tap, st.log + [Sync]);
      if env(st'.log) < 0 then (st', false) else Attempts(j, true, retries, st', env)
    else Attempts(j, false, 0, st, env)
  }

  // ---------------------------------------------------------------------
  // The interpreter's variables
  // ---------------------------------------------------------------------

  datatype Xs = Xs(pos: nat, cmd: byte, drSize: nat, dataSize: nat, runtest: nat,
                   xendir: byte, xenddr: byte, retries: byte,
                   tdi: seq<byte>, tdo: seq<byte>, mask: seq<byte>, addr: seq<byte>, data: seq<byte>)

  const XSTART := Xs(0, 0, 0, 0, 0, 0, 0, 0, [], [], [], [], [])

  /** The largest size whose byte count fits an int. */
  const MAX_BITS := 0x7FFF_FFF8

  predicate XsWf(x: Xs) {
    var n := Bits2Bytes(x.drSize);
    && x.drSize <= MAX_BITS && x.runtest < 0x1_0000_0000
    && |x.tdi| == |x.tdo| == |x.mask| == |x.addr| == |x.data| == n
  }

  datatype Flow = Go | Complete | Fail | Undef

  /** The variables, the tracked state and log, and how to go on. */
  datatype Turned = Turned(x: Xs, st: Player, flow: Flow)

  function EndIr(x: Xs): int {
    if x.xendir != 0 then IRPAUSE else IDLE
  }

  function EndDr(x: Xs): int {
    if x.xenddr != 0 then DRPAUSE else IDLE
  }

  /** Which data scans check TDO, wait and retry, and which stay in Shift-DR. */
  predicate Checked(cmd: byte) {
    cmd in {XSDR, XSDRTDO, XSDRINC}
  }

  predicate Stays(cmd: byte) {
    cmd in {XSDRB, XSDRC, XSDRTDOB, XSDRTDOC}
  }

  predicate LoadsTdo(cmd: byte) {
    cmd in {XSDRTDO, XSDRTDOB, XSDRTDOC, XSDRTDOE}
  }

  predicate IsDrScan(cmd: byte) {
    Checked(cmd) || Stays(cmd) || cmd == XSDRE || cmd == XSDRTDOE
  }

  function DrShiftJob(x: Xs, cmd: byte): (j: Shift)
    requires XsWf(x)
    ensures ShiftWf(j)
  {
    Shift(x.tdi,
          if cmd in {XSDRB, XSDRC, XSDRE} then None else Some(x.tdo),
          if Checked(cmd) then Some(x.mask) else None,
          x.drSize, DRSHIFT,
          if Stays(cmd) then DRSHIFT else EndDr(x),
          if Checked(cmd) then ToInt(x.runtest) else 0)
  }

  function DrScanned(x: Xs, cmd: byte, st: Player, env: Env): Turned
    requires XsWf(x)
  {
    var (st', ok) := ShiftData(DrShiftJob(x, cmd), if Checked(cmd) then x.retries else 0, st, env);
    Turned(x, st', if ok then Go else Fail)
  }

  function IrShiftJob(x: Xs, buf: seq<byte>, len: nat): (j: Shift)
    requires XsWf(x) && |buf| == Bits2Bytes(len)
    ensures ShiftWf(j)
  {
    Shift(buf, None, None, len, IRSHIFT, EndIr(x), ToInt(x.runtest))
  }

  // ---------------------------------------------------------------------
  // XSDRINC
  // ---------------------------------------------------------------------

  /** The increment loop over buffer bits below `n`, from `n - 1` down. */
  function Increment(addr: seq<byte>, tdi: seq<byte>, n: nat, carry: bool): (r: seq<byte>)
    requires n <= 8 * |addr| && |tdi| == |addr|
    ensures |r| == |tdi|
    decreases n
  {
    if n == 0 then tdi
    else
      var i := n - 1;
      if !GetBit(addr, i) then Increment(addr, tdi, i, carry)
      else if GetBit(tdi, i) then Increment(addr, SetBit(tdi, i, !carry), i, carry)
      else Increment(addr, SetBit(tdi, i, carry), i, false)
  }

  /** The number of set mask bits below `n`. */
  function Weight(mask: seq<byte>, n: nat): (w: nat)
    requires n <= 8 * |mask|
    ensures w <= n
  {
    if n == 0 then 0 else Weight(mask, n - 1) + BoolToNat(GetBit(mask, n - 1))
  }

  /** The first set bit from `j` on, or the end of the buffer. */
  function NextSet(mask: seq<byte>, j: nat): (k: nat)
    requires j <= 8 * |mask|
    ensures j <= k <= 8 * |mask|
    ensures forall i :: j <= i < k ==> !GetBit(mask, i)
    ensures k < 8 * |mask| ==> GetBit(mask, k)
    decreases 8 * |mask| - j
  {
    if j == 8 * |mask| || GetBit(mask, j) then j else NextSet(mask, j + 1)
  }

  datatype Scattering = Scattered(tdi: seq<byte>, pos: nat) | ScatterEof | Overrun

  /** The scatter loop from data bit `i` and buffer bit `j` on; `b` is the byte
      that holds bit `i` unless `i` starts a byte. */
  function Scatter(input: string, pos: nat, b: byte, mask: seq<byte>, tdi: seq<byte>, i: nat, j: nat,
                   size: nat): (r: Scattering)
    requires |tdi| == |mask| && i <= size && j <= 8 * |mask|
    ensures r.Scattered? ==> |r.tdi| == |tdi| && r.pos >= pos
    decreases size - i
  {
    if i == size then Scattered(tdi, pos)
    else if i % 8 == 0 && pos >= |input| then ScatterEof
    else
      var c := if i % 8 == 0 then ByteAt(input, pos) else b;
      var next := if i % 8 == 0 then pos + 1 else pos;
      var k := NextSet(mask, j);
      if k == 8 * |mask| then Overrun
      else Scatter(input, next, c, mask, SetBit(tdi, k, Bit(c, 7 - i % 8)), i + 1, k + 1, size)
  }

  function NextVector(input: string, x: Xs): Scattering
    requires XsWf(x)
  {
    Scatter(input, x.pos, 0, x.data, Increment(x.addr, x.tdi, x.drSize, true), 0, 0, x.dataSize)
  }

  /** A scan of a vector: the state it leaves and whether it succeeded. */
  type VectorScan = (seq<byte>, Player) -> (Player, bool)

  function IncScan(x: Xs, env: Env): VectorScan
    requires XsWf(x)
  {
    (v: seq<byte>, st: Player) =>
      if |v| == |x.tdi| then ShiftData(DrShiftJob(x.(tdi := v), XSDRINC), x.retries, st, env) else (st, false)
  }

  /** How the scans of an XSDRINC come out, and the vectors they shifted. */
  datatype Inc = Inc(end: Turned, scans: seq<seq<byte>>)

  function IncLoop(input: string, x: Xs, num: nat, st: Player, scan: VectorScan): (r: Inc)
    requires XsWf(x)
    ensures XsWf(r.end.x) && r.end.x.pos >= x.pos
    decreases num
  {
    var (st', ok) := scan(x.tdi, st);
    if !ok || num == 0 then Inc(Turned(x, st', if ok then Go else Fail), [x.tdi])
    else
      match NextVector(input, x)
      case ScatterEof => Inc(Turned(x, st', Fail), [x.tdi])
      case Overrun => Inc(Turned(x, st', Undef), [x.tdi])
      case Scattered(tdi, pos) =>
        var rest := IncLoop(input, x.(tdi := tdi, pos := pos), num - 1, st', scan);
        Inc(rest.end, [x.tdi] + rest.scans)
  }

  /** How an XSDRINC ends that has `num` updates to go. */
  function IncEnd(input: string, x: Xs, num: nat, st: Player, scan: VectorScan): (t: Turned)
    requires XsWf(x)
    ensures XsWf(t.x) && t.x.pos >= x.pos
  {
    IncLoop(input, x, num, st, scan).end
  }

  // ---------------------------------------------------------------------
  // Commands
  // ---------------------------------------------------------------------

  function Stop(x: Xs, st: Player): Turned {
    Turned(x, st, Fail)
  }

  /** The buffers after a realloc: what they held, then zeros. */
  function Resized(buf: seq<byte>, n: nat): (r: seq<byte>)
    ensures |r| == n
    ensures forall i :: 0 <= i < n ==> r[i] == if i < |buf| then buf[i] else 0
  {
    seq(n, i requires 0 <= i < n => if i < |buf| then buf[i] else 0)
  }

  function SetSize(x: Xs, size: nat): Xs {
    var n := Bits2Bytes(size);
    x.(drSize := size, tdi := Resized(x.tdi, n), tdo := Resized(x.tdo, n), mask := Resized(x.mask, n),
       addr := Resized(x.addr, n), data := Resized(x.data, n))
  }

  predicate Has(input: string, x: Xs, n: nat) {
    x.pos + n <= |input|
  }

  function SizeCommand(input: string, x: Xs, st: Player): (t: Turned)
    requires XsWf(x)
    ensures t.x.pos >= x.pos && XsWf(t.x)
  {
    if Has(input, x, 4) && LongAt(input, x.pos) <= MAX_BITS
    then Turned(SetSize(x, LongAt(input, x.pos)).(pos := x.pos + 4), st, Go) else Stop(x, st)
  }

  function DrLength(x: Xs): nat {
    if LoadsTdo(x.cmd) then 2 * Bits2Bytes(x.drSize) else Bits2Bytes(x.drSize)
  }

  function DrLoaded(input: string, x: Xs): (y: Xs)
    requires XsWf(x) && Has(input, x, DrLength(x))
    ensures XsWf(y) && y.pos >= x.pos
  {
    var n := Bits2Bytes(x.drSize);
    var y := x.(tdi := Slice(input, x.pos, n), pos := x.pos + n);
    if LoadsTdo(x.cmd) then y.(tdo := Slice(input, y.pos, n), pos := y.pos + n) else y
  }

  /** The data scans other than XSDRINC. */
  function DrCommand(input: string, x: Xs, st: Player, env: Env): (t: Turned)
    requires XsWf(x)
    ensures t.x.pos >= x.pos && XsWf(t.x)
  {
    if !Has(input, x, DrLength(x)) then Stop(x, st) else DrScanned(DrLoaded(input, x), x.cmd, st, env)
  }

  function IncCommand(input: string, x: Xs, st: Player, env: Env): (t: Turned)
    requires XsWf(x)
    ensures t.x.pos >= x.pos && XsWf(t.x)
  {
    var n := Bits2Bytes(x.drSize);
    if !Has(input, x, n + 1) then Stop(x, st)
    else
      var y := x.(tdi := Slice(input, x.pos, n), pos := x.pos + n + 1);
      IncEnd(input, y, ByteAt(input, x.pos + n), st, IncScan(y, env))
  }

  /** The rest of XSIR and XSIR2 once their length is read. */
  function IrScanned(input: string, x: Xs, len: nat, st: Player, env: Env): (t: Turned)
    requires XsWf(x)
    ensures t.x.pos >= x.pos && XsWf(t.x)
  {
    var n := Bits2Bytes(len);
    if !Has(input, x, n) then Stop(x, st)
    else
      var (st', ok) := ShiftData(IrShiftJob(x, Slice(input, x.pos, n), len), x.retries, st, env);
      Turned(x.(pos := x.pos + n), st', if ok then Go else Fail)
  }

  function LengthAt(input: string, pos: nat, width: nat): nat
    requires 1 <= width <= 2 && pos + width <= |input|
  {
    if width == 1 then ByteAt(input, pos) else ByteAt(input, pos) * 256 + ByteAt(input, pos + 1)
  }

  /** XSIR and XSIR2, whose length takes `width` bytes. */
  function IrCommand(input: string, x: Xs, width: nat, st: Player, env: Env): (t: Turned)
    requires XsWf(x) && 1 <= width <= 2
    ensures t.x.pos >= x.pos && XsWf(t.x)
  {
    if !Has(input, x, width) then Stop(x, st)
    else IrScanned(input, x.(pos := x.pos + width), LengthAt(input, x.pos, width), st, env)
  }

  function MaskCommand(input: string, x: Xs, st: Player): (t: Turned)
    requires XsWf(x)
    ensures t.x.pos >= x.pos && XsWf(t.x)
  {
    var n := Bits2Bytes(x.drSize);
    if !Has(input, x, 2 * n) then Stop(x, st)
    else
      var data := Slice(input, x.pos + n, n);
      Turned(x.(addr := Slice(input, x.pos, n), data := data, dataSize := Weight(data, x.drSize), pos := x.pos + 2 * n),
             st, Go)
  }

  /** XSTATE; right after an XRUNTEST it first waits in Run-Test/Idle. */
  function XStateCommand(input: string, x: Xs, last: byte, st: Player): (t: Turned)
    requires XsWf(x)
    ensures t.x.pos >= x.pos && XsWf(t.x)
  {
    var waits := x.runtest != 0 && last == XRUNTEST;
    var (idle, ok) := if waits then Walked(st, IDLE) else (st, true);
    if !ok then Stop(x, idle)
    else
      var st1 := if waits then Waited(idle, x.runtest, x.runtest) else idle;
      if !Has(input, x, 1) then Stop(x, st1)
      else
        var (st2, ok2) := Walked(st1, XilinxTap(ByteAt(input, x.pos)));
        Turned(x.(pos := x.pos + 1), st2, if ok2 then Go else Fail)
  }

  /** Two states and a time. */
  datatype WaitArgs = WaitArgs(from: int, to: int, usecs: nat)

  function WaitArgsAt(input: string, pos: nat): WaitArgs
    requires pos + 6 <= |input|
  {
    WaitArgs(XilinxTap(ByteAt(input, pos)), XilinxTap(ByteAt(input, pos + 1)), LongAt(input, pos + 2))
  }

  /** Walk, wait without clocking, walk. */
  function WaitWalks(a: WaitArgs, st: Player): (Player, bool) {
    var (st1, ok1) := Walked(st, a.from);
    if !ok1 then (st1, false) else Walked(Waited(st1, a.usecs, 0), a.to)
  }

  /** The rest of XWAIT and XWAITSTATE; the latter has one more argument, which
      is ignored. */
  function WaitRun(input: string, x: Xs, a: WaitArgs, st: Player): (t: Turned)
    requires XsWf(x)
    ensures t.x.pos >= x.pos && XsWf(t.x)
  {
    var (st', ok) := WaitWalks(a, st);
    if !ok then Stop(x, st')
    else if x.cmd != XWAITSTATE then Turned(x, st', Go)
    else if Has(input, x, 4) then Turned(x.(pos := x.pos + 4), st', Go)
    else Stop(x, st')
  }

  function WaitCommand(input: string, x: Xs, st: Player): (t: Turned)
    requires XsWf(x)
    ensures t.x.pos >= x.pos && XsWf(t.x)
  {
    if !Has(input, x, 6) then Stop(x, st) else WaitRun(input, x.(pos := x.pos + 6), WaitArgsAt(input, x.pos), st)
  }

  /** Where the comment from `pos` on ends: behind its zero byte. */
  function CommentEnd(input: string, pos: nat): (r: Option<nat>)
    ensures r.Some? ==> r.value > pos
    decreases if pos < |input| then |input| - pos else 0
  {
    if pos >= |input| then None
    else if ByteAt(input, pos) == 0 then Some(pos + 1)
    else CommentEnd(input, pos + 1)
  }

  function CommentCommand(input: string, x: Xs, st: Player): (t: Turned)
    requires XsWf(x)
    ensures t.x.pos >= x.pos && XsWf(t.x)
  {
    var e := CommentEnd(input, x.pos);
    if e.Some? then Turned(x.(pos := e.value), st, Go) else Stop(x, st)
  }

  function TdoMaskCommand(input: string, x: Xs, st: Player): (t: Turned)
    requires XsWf(x)
    ensures t.x.pos >= x.pos && XsWf(t.x)
  {
    var n := Bits2Bytes(x.drSize);
    if Has(input, x, n) then Turned(x.(mask := Slice(input, x.pos, n), pos := x.pos + n), st, Go) else Stop(x, st)
  }

  function XRuntestCommand(input: string, x: Xs, st: Player): (t: Turned)
    requires XsWf(x)
    ensures t.x.pos >= x.pos && XsWf(t.x)
  {
    if Has(input, x, 4) then Turned(x.(runtest := LongAt(input, x.pos), pos := x.pos + 4), st, Go) else Stop(x, st)
  }

  /** One byte that is stored in a variable. */
  function ByteCommand(input: string, x: Xs, st: Player): (t: Turned)
    requires XsWf(x)
    ensures t.x.pos >= x.pos && XsWf(t.x)
  {
    if !Has(input, x, 1) then Stop(x, st)
    else
      var v, y := ByteAt(input, x.pos), x.(pos := x.pos + 1);
      Turned(if x.cmd == XREPEAT then y.(retries := v)
             else if x.cmd == XENDIR then y.(xendir := v)
             else if x.cmd == XENDDR then y.(xenddr := v)
             else y,
             st, Go)
  }

  /** The command `x.cmd`, whose code is already read; `last` is the one before. */
  function Execute(input: string, x: Xs, last: byte, st: Player, env: Env): (t: Turned)
    requires XsWf(x)
    ensures t.x.pos >= x.pos && XsWf(t.x)
  {
    if x.cmd == XCOMPLETE then Turned(x, st, Complete)
    else if x.cmd == XTDOMASK then TdoMaskCommand(input, x, st)
    else if x.cmd == XSIR then IrCommand(input, x, 1, st, env)
    else if x.cmd == XSIR2 then IrCommand(input, x, 2, st, env)
    else if x.cmd == XRUNTEST then XRuntestCommand(input, x, st)
    else if x.cmd == XSDRSIZE then SizeCommand(input, x, st)
    else if x.cmd == XSETSDRMASKS then MaskCommand(input, x, st)
    else if x.cmd == XSDRINC then IncCommand(input, x, st, env)
    else if IsDrScan(x.cmd) then DrCommand(input, x, st, env)
    else if x.cmd == XSTATE then XStateCommand(input, x, last, st)
    else if x.cmd in {XREPEAT, XENDIR, XENDDR, XTRST} then ByteCommand(input, x, st)
    else if x.cmd == XCOMMENT then CommentCommand(input, x, st)
    else if x.cmd in {XWAIT, XWAITSTATE} then WaitCommand(input, x, st)
    else Stop(x, st)
  }

  /** What a command does; the byte is the command before it. */
  type CommandFn = (Xs, byte, Player) -> Turned

  function Interpreter(input: string, env: Env): CommandFn {
    (x: Xs, last: byte, st: Player) => if XsWf(x) then Execute(input, x, last, st, env) else Stop(x, st)
  }

  ghost predicate Advances(run: CommandFn) {
    forall x, last, st :: XsWf(x) ==> var t := run(x, last, st); XsWf(t.x) && t.x.pos >= x.pos
  }

  lemma InterpreterAdvances(input: string, env: Env)
    ensures Advances(Interpreter(input, env))
  {
  }

  /** The main loop. At the end of the input the command reads as 255, which is
      not a command. */
  function Loop(input: string, x: Xs, st: Player, run: CommandFn): (t: Turned)
    requires XsWf(x) && Advances(run)
    decreases if x.pos < |input| then |input| - x.pos else 0
  {
    if x.pos >= |input| then Stop(x, st)
    else
      var t := run(x.(cmd := ByteAt(input, x.pos), pos := x.pos + 1), x.cmd, st);
      if t.flow == Go then Loop(input, t.x, t.st, run) else t
  }

  /** libxsvf_xsvf. */
  function PlayXsvf(input: string, pos: nat, st: Player, env: Env): Played {
    InterpreterAdvances(input, env);
    var t := Loop(input, XSTART.(pos := pos), st, Interpreter(input, env));
    if t.flow == Undef then Played(-1, t.st, true)
    else WithSync(if t.flow == Complete then 0 else -1, t.st, env)
  }
}
