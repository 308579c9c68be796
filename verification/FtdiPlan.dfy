/** How the FTDI host of svfload/libxsvf/xsvftool-ft232h.c turns buffered pulses
    into read jobs and MPSSE byte code, and reply bytes back into TDO bits. */
module FtdiPlan {
  import opened Bits
  import opened HostApi

  /** struct buffer_s. */
  datatype Cell = Cell(tms: bool, tdi: bool, tdiEnable: bool, tdo: bool, tdoEnable: bool, rmask: bool)

  function BitOf(v: Option<bool>): bool {
    if v.Some? then v.value else true
  }

  /** buffer_add: one-bit fields keep the lowest bit of -1, which is 1. */
  function CellOf(tms: bool, tdi: Option<bool>, tdo: Option<bool>, rmask: bool): Cell {
    Cell(tms, BitOf(tdi), tdi.Some?, BitOf(tdo), tdo.Some?, rmask)
  }

  /** struct read_job_s: the pulses of one transfer and its handler. */
  datatype Job =
    | TmsJob(cells: seq<Cell>, tdi: bool)
    | TdiJob(cells: seq<Cell>)

  // ---------------------------------------------------------------------
  // Cutting the buffer into jobs
  // ---------------------------------------------------------------------

  /** How many pulses fit into a TMS transfer, at most `limit`, and the TDI level
      they agree on: -1 while none of them cares. */
  function TmsSpan(ds: seq<Cell>, i: nat, limit: nat, tdi: int): (r: (nat, int))
    requires i <= limit <= |ds| && -1 <= tdi <= 1
    ensures i <= r.0 <= limit && -1 <= r.1 <= 1
    ensures tdi < 0 && i < limit ==> r.0 > i
    decreases limit - i
  {
    if i == limit then (limit, tdi)
    else if !ds[i].tdiEnable then TmsSpan(ds, i + 1, limit, tdi)
    else if tdi < 0 then TmsSpan(ds, i + 1, limit, BoolToNat(ds[i].tdi))
    else if tdi != BoolToNat(ds[i].tdi) then (i, tdi)
    else TmsSpan(ds, i + 1, limit, tdi)
  }

  function Min(a: nat, b: nat): nat {
    if a < b then a else b
  }

  /** The next TMS transfer; with no TDI level asked for, TDI is high. */
  function TmsChunk(ds: seq<Cell>): (r: (nat, bool))
    requires ds != []
    ensures 0 < r.0 <= Min(|ds|, 6)
  {
    var (n, tdi) := TmsSpan(ds, 0, Min(|ds|, 6), -1);
    (n, tdi != 0)
  }

  /** How many pulses keep TMS at `tms`. */
  function TdiSpan(ds: seq<Cell>, tms: bool): (n: nat)
    ensures n <= |ds|
    ensures forall i :: 0 <= i < n ==> ds[i].tms == tms
    ensures n < |ds| ==> ds[n].tms != tms
  {
    if ds == [] || ds[0].tms != tms then 0 else 1 + TdiSpan(ds[1..], tms)
  }

  predicate SameLevel(last: int, tms: bool) {
    last == BoolToNat(tms)
  }

  /** The jobs of a flush; `last` is the TMS level, -1 before the first pulse. */
  function Plan(last: int, ds: seq<Cell>): seq<Job>
    decreases |ds|
  {
    if ds == [] then []
    else if SameLevel(last, ds[0].tms) then
      var n := TdiSpan(ds, ds[0].tms);
      [TdiJob(ds[..n])] + Plan(last, ds[n..])
    else
      var (n, tdi) := TmsChunk(ds);
      [TmsJob(ds[..n], tdi)] + Plan(BoolToNat(ds[n - 1].tms), ds[n..])
  }

  function LastTms(last: int, ds: seq<Cell>): int {
    if ds == [] then last else BoolToNat(ds[|ds| - 1].tms)
  }

  // ---------------------------------------------------------------------
  // Byte code
  // ---------------------------------------------------------------------

  /** `n` bits packed from bit 0 upwards. */
  function Pack(bits: seq<bool>): (b: nat)
    ensures b < Pow2(|bits|)
  {
    if bits == [] then 0 else BoolToNat(bits[0]) + 2 * Pack(bits[1..])
  }

  lemma {:induction false} PackBit(bits: seq<bool>, i: nat)
    ensures Bit(Pack(bits), i) == (i < |bits| && bits[i])
    decreases |bits|
  {
    if bits == [] {
      ZeroBit(i);
    } else if i > 0 {
      assert Pack(bits) / 2 == Pack(bits[1..]);
      PackBit(bits[1..], i - 1);
    }
  }

  function TmsBits(ds: seq<Cell>): (r: seq<bool>)
    ensures |r| == |ds|
  {
    seq(|ds|, i requires 0 <= i < |ds| => ds[i].tms)
  }

  function TdiBits(ds: seq<Cell>): (r: seq<bool>)
    ensures |r| == |ds|
  {
    seq(|ds|, i requires 0 <= i < |ds| => ds[i].tdi)
  }

  function PackByte(bits: seq<bool>): byte
    requires |bits| <= 8
  {
    PackBound(bits);
    Pack(bits)
  }

  lemma PackBound(bits: seq<bool>)
    requires |bits| <= 8
    ensures Pack(bits) < 256
  {
    Pow2Of8();
    Pow2Mono(|bits|, 8);
  }

  lemma {:induction false} Pow2Mono(a: nat, b: nat)
    requires a <= b
    ensures Pow2(a) <= Pow2(b)
    decreases b
  {
    if a < b {
      Pow2Mono(a, b - 1);
    }
  }

  /** The data byte of a TMS transfer: the TMS bits, the last one repeated after
      them, TDI in bit 7. */
  function TmsData(ds: seq<Cell>, tdi: bool): seq<bool>
    requires 0 < |ds| <= 6
  {
    TmsBits(ds) + [ds[|ds| - 1].tms] + seq(6 - |ds|, _ => false) + [tdi]
  }

  function TmsCode(ds: seq<Cell>, tdi: bool): seq<byte>
    requires 0 < |ds| <= 6
  {
    [0x6e, |ds| - 1, PackByte(TmsData(ds, tdi)), 0x87]
  }

  function DataBytes(ds: seq<Cell>): (r: seq<byte>)
    requires |ds| % 8 == 0
    ensures |r| == |ds| / 8
  {
    if ds == [] then [] else DataBytes(ds[..|ds| - 8]) + [PackByte(TdiBits(ds[|ds| - 8..]))]
  }

  /** The pulses that fill whole bytes. */
  function Whole(ds: seq<Cell>): (r: seq<Cell>)
    ensures |r| == |ds| / 8 * 8 <= |ds|
  {
    ds[..|ds| / 8 * 8]
  }

  function Partial(ds: seq<Cell>): (r: seq<Cell>)
    ensures |r| == |ds| % 8
  {
    ds[|ds| / 8 * 8..]
  }

  /** The 16-bit byte count holds at most 65536 bytes. */
  const MAX_PULSES := 8 * 65536

  function TdiCode(ds: seq<Cell>): seq<byte>
    requires |ds| < MAX_PULSES
  {
    var bytes, bits := |ds| / 8, |ds| % 8;
    (if bytes > 0
     then [0x39, (bytes - 1) % 256, (bytes - 1) / 256] + DataBytes(Whole(ds))
     else [])
    + (if bits > 0 then [0x3b, bits - 1, PackByte(TdiBits(Partial(ds)))] else [])
    + [0x87]
  }

  ghost predicate JobOk(j: Job) {
    && 0 < |j.cells| < MAX_PULSES
    && (j.TmsJob? ==>
          && |j.cells| <= 6
          && forall i :: 0 <= i < |j.cells| && j.cells[i].tdiEnable ==> j.cells[i].tdi == j.tdi)
  }

  ghost predicate JobsOk(js: seq<Job>) {
    forall i :: 0 <= i < |js| ==> JobOk(js[i])
  }

  function JobCode(j: Job): seq<byte>
    requires JobOk(j)
  {
    if j.TmsJob? then TmsCode(j.cells, j.tdi) else TdiCode(j.cells)
  }

  function Code(js: seq<Job>): seq<byte>
    requires JobsOk(js)
  {
    if js == [] then [] else JobCode(js[0]) + Code(js[1..])
  }

  /** data_len: the reply bytes the job waits for. */
  function ReplyLen(j: Job): nat {
    if j.TmsJob? then 1 else (|j.cells| + 7) / 8
  }

  // ---------------------------------------------------------------------
  // Replies
  // ---------------------------------------------------------------------

  /** The TDO bit a handler reads for pulse `i`: whole bytes from bit 0, a partial
      byte from its top end. */
  predicate LineBit(j: Job, data: seq<byte>, i: nat)
    requires |data| == ReplyLen(j) && i < |j.cells|
    requires j.TmsJob? ==> |j.cells| <= 8
  {
    var n := |j.cells|;
    if j.TmsJob? then Bit(data[0], i + (8 - n))
    else if i < n / 8 * 8 then Bit(data[i / 8], i % 8)
    else Bit(data[n / 8], i - n / 8 * 8 + (8 - n % 8))
  }

  function LineBits(j: Job, data: seq<byte>): (r: seq<bool>)
    requires |data| == ReplyLen(j)
    requires j.TmsJob? ==> |j.cells| <= 8
    ensures |r| == |j.cells|
  {
    seq(|j.cells|, i requires 0 <= i < |j.cells| => LineBit(j, data, i))
  }

  // ---------------------------------------------------------------------
  // What a host learns from its pulses
  // ---------------------------------------------------------------------

  /** error_rc and retval[..retval_i]. */
  datatype Findings = Findings(error: bool, retval: seq<bool>)

  const RETVAL_MAX := 256

  function Note(f: Findings, d: Cell, line: bool): Findings {
    Findings(
      f.error || (d.tdoEnable && d.tdo != line),
      if d.rmask && |f.retval| < RETVAL_MAX then f.retval + [line] else f.retval)
  }

  /** The effect of pulses `ds` whose cycles showed `lines` on TDO. */
  function NoteAll(f: Findings, ds: seq<Cell>, lines: seq<bool>): Findings
    requires |ds| == |lines|
  {
    if ds == [] then f
    else
      var n := |ds| - 1;
      Note(NoteAll(f, ds[..n], lines[..n]), ds[n], lines[n])
  }

  lemma {:induction false} NoteAllConcat(f: Findings, a: seq<Cell>, la: seq<bool>, b: seq<Cell>, lb: seq<bool>)
    requires |a| == |la| && |b| == |lb|
    ensures NoteAll(f, a + b, la + lb) == NoteAll(NoteAll(f, a, la), b, lb)
    decreases |b|
  {
    if b == [] {
      assert a + b == a && la + lb == la;
    } else {
      var n := |b| - 1;
      assert (a + b)[..|a + b| - 1] == a + b[..n] && (la + lb)[..|a + b| - 1] == la + lb[..n];
      NoteAllConcat(f, a, la, b[..n], lb[..n]);
    }
  }

  /** Some pulse that asks for TDO saw another level. */
  ghost predicate Mismatch(ds: seq<Cell>, lines: seq<bool>)
    requires |ds| == |lines|
  {
    exists i :: 0 <= i < |ds| && ds[i].tdoEnable && ds[i].tdo != lines[i]
  }

  /** The levels seen by the pulses that ask for a capture, in order. */
  function Captured(ds: seq<Cell>, lines: seq<bool>): seq<bool>
    requires |ds| == |lines|
  {
    if ds == [] then []
    else
      var n := |ds| - 1;
      Captured(ds[..n], lines[..n]) + (if ds[n].rmask then [lines[n]] else [])
  }

  function Cut(s: seq<bool>): seq<bool> {
    if |s| <= RETVAL_MAX then s else s[..RETVAL_MAX]
  }

  lemma MismatchSnoc(ds: seq<Cell>, lines: seq<bool>, n: nat)
    requires |ds| == |lines| == n + 1
    ensures Mismatch(ds, lines) <==> Mismatch(ds[..n], lines[..n]) || (ds[n].tdoEnable && ds[n].tdo != lines[n])
  {
    if Mismatch(ds[..n], lines[..n]) {
      var i :| 0 <= i < n && ds[..n][i].tdoEnable && ds[..n][i].tdo != lines[..n][i];
      assert ds[i].tdoEnable && ds[i].tdo != lines[i];
    }
    forall i | 0 <= i < n
      ensures ds[..n][i] == ds[i] && lines[..n][i] == lines[i]
    {
    }
  }

  lemma CutSnoc(s: seq<bool>, line: bool)
    ensures Cut(s + [line]) == if |s| < RETVAL_MAX then s + [line] else Cut(s)
  {
  }

  /** The error flag is set by exactly the mismatches, and the captures are the
      first 256 RMASK bits in pulse order. */
  lemma {:induction false} NoteAllMeaning(f: Findings, ds: seq<Cell>, lines: seq<bool>)
    requires |ds| == |lines|
    ensures var g := NoteAll(f, ds, lines);
            && (g.error <==> f.error || Mismatch(ds, lines))
            && (|f.retval| <= RETVAL_MAX ==> g.retval == Cut(f.retval + Captured(ds, lines)))
    decreases |ds|
  {
    if ds == [] {
      assert f.retval + [] == f.retval;
    } else {
      hide Mismatch;
      var n := |ds| - 1;
      NoteAllMeaning(f, ds[..n], lines[..n]);
      MismatchSnoc(ds, lines, n);
      var cap := Captured(ds[..n], lines[..n]);
      assert f.retval + (cap + [lines[n]]) == f.retval + cap + [lines[n]];
      assert f.retval + (cap + []) == f.retval + cap;
      CutSnoc(f.retval + cap, lines[n]);
    }
  }
}
