/** The FTDI host as a function of the requests made to it, and what that
    function means: pulses on the wire, mismatches, captures. */
module FtdiModel {
  import opened Bits
  import opened HostApi
  import opened Mpsse
  import opened FtdiPlan
  import opened FtdiCorrect

  // ---------------------------------------------------------------------
  // Flushing
  // ---------------------------------------------------------------------

  /** last_tdo after a job: not touched by whole bytes. */
  function LastTdoAfter(last: int, j: Job, lines: seq<bool>): int
    requires |lines| == |j.cells|
  {
    if |lines| == 0 || (j.TdiJob? && |lines| % 8 == 0) then last
    else BoolToNat(lines[|lines| - 1])
  }

  datatype Drained = Drained(found: Findings, lastTdo: int, rest: seq<byte>)

  /** process_next_read_job: a reply that is too short is an I/O error. */
  function DrainJob(j: Job, d: Drained): Drained
    requires JobOk(j)
  {
    var n := ReplyLen(j);
    if |d.rest| < n then Drained(d.found.(error := true), d.lastTdo, [])
    else
      var lines := LineBits(j, d.rest[..n]);
      Drained(NoteAll(d.found, j.cells, lines), LastTdoAfter(d.lastTdo, j, lines), d.rest[n..])
  }

  function Drain(js: seq<Job>, d: Drained): Drained
    requires JobsOk(js)
  {
    if js == [] then d else Drain(js[1..], DrainJob(js[0], d))
  }

  function JobsCells(js: seq<Job>): seq<Cell> {
    if js == [] then [] else js[0].cells + JobsCells(js[1..])
  }

  /** Each TDI transfer keeps the TMS level it starts from. */
  ghost predicate Level(tms: bool, js: seq<Job>)
    decreases |js|
  {
    js == []
    || (JobOk(js[0]) && (js[0].TdiJob? ==> KeepsTms(js[0].cells, tms))
        && Level(js[0].cells[|js[0].cells| - 1].tms, js[1..]))
  }

  lemma {:induction false} TmsSpanAgrees(ds: seq<Cell>, i: nat, limit: nat, tdi: int)
    requires i <= limit <= |ds| && -1 <= tdi <= 1
    requires forall k :: 0 <= k < i && ds[k].tdiEnable ==> BoolToNat(ds[k].tdi) == tdi
    ensures var (n, t) := TmsSpan(ds, i, limit, tdi);
            forall k :: 0 <= k < n && ds[k].tdiEnable ==> BoolToNat(ds[k].tdi) == t
    decreases limit - i
  {
    if i < limit {
      if !ds[i].tdiEnable {
        TmsSpanAgrees(ds, i + 1, limit, tdi);
      } else if tdi < 0 {
        TmsSpanAgrees(ds, i + 1, limit, BoolToNat(ds[i].tdi));
      } else if tdi == BoolToNat(ds[i].tdi) {
        TmsSpanAgrees(ds, i + 1, limit, tdi);
      }
    }
  }

  lemma TmsChunkOk(ds: seq<Cell>)
    requires ds != []
    ensures var (n, tdi) := TmsChunk(ds); JobOk(TmsJob(ds[..n], tdi))
  {
    var (n, t) := TmsSpan(ds, 0, Min(|ds|, 6), -1);
    TmsSpanAgrees(ds, 0, Min(|ds|, 6), -1);
  }

  ghost predicate Covers(js: seq<Job>, ds: seq<Cell>, pin: bool) {
    JobsOk(js) && Level(pin, js) && JobsCells(js) == ds
  }

  lemma CoversCons(j: Job, js: seq<Job>, ds: seq<Cell>, n: nat, pin: bool)
    requires 0 < n <= |ds| && JobOk(j) && j.cells == ds[..n]
    requires j.TdiJob? ==> KeepsTms(j.cells, pin)
    requires Covers(js, ds[n..], ds[n - 1].tms)
    ensures Covers([j] + js, ds, pin)
  {
    var all := [j] + js;
    assert all[1..] == js && ds[..n] + ds[n..] == ds;
    forall i | 0 <= i < |all|
      ensures JobOk(all[i])
    {
      assert i > 0 ==> all[i] == js[i - 1];
    }
  }

  /** A flush covers the buffered pulses in order, in non-empty transfers: TMS
      transfers of at most six pulses that agree on TDI, TDI transfers at one TMS
      level, whose byte count fits its 16 bits. */
  lemma {:induction false} PlanCovers(last: int, ds: seq<Cell>, pin: bool)
    requires last == -1 || SameLevel(last, pin)
    requires |ds| < MAX_PULSES
    ensures Covers(Plan(last, ds), ds, pin)
    decreases |ds|
  {
    if ds != [] {
      if SameLevel(last, ds[0].tms) {
        var n := TdiSpan(ds, ds[0].tms);
        PlanCovers(last, ds[n..], ds[n - 1].tms);
        CoversCons(TdiJob(ds[..n]), Plan(last, ds[n..]), ds, n, pin);
      } else {
        var (n, tdi) := TmsChunk(ds);
        var next := BoolToNat(ds[n - 1].tms);
        TmsChunkOk(ds);
        PlanCovers(next, ds[n..], ds[n - 1].tms);
        CoversCons(TmsJob(ds[..n], tdi), Plan(next, ds[n..]), ds, n, pin);
      }
    }
  }

  /** The level TMS is left at. */
  function PinAfter(tms: bool, ds: seq<Cell>): bool {
    if ds == [] then tms else ds[|ds| - 1].tms
  }

  lemma PinAfterConcat(tms: bool, a: seq<Cell>, b: seq<Cell>)
    ensures PinAfter(tms, a + b) == PinAfter(PinAfter(tms, a), b)
  {
    if b == [] {
      assert a + b == a;
    }
  }

  /** A job's byte code, run from `c`, leaves the chip in `c'`. */
  lemma JobStep(dev: Device, c: Chip, js: seq<Job>) returns (c': Chip, data: seq<byte>)
    requires JobsOk(js) && js != [] && Level(c.tms, js)
    ensures Interpret(dev, c, Code(js)) == Interpret(dev, c', Code(js[1..]))
    ensures Advanced(c, c', JobWires(js[0]), data) && Shows(JobWires(js[0]), js[0].cells)
    ensures c'.tms == js[0].cells[|js[0].cells| - 1].tms
    ensures |data| == ReplyLen(js[0])
    ensures LineBits(js[0], data) == Lines(dev, c'.wire, |c.wire|, |js[0].cells|)
  {
    JobCodeRuns(dev, c, js[0], Code(js[1..]));
    data := JobIsDone(dev, c, js[0]);
    c' := JobChip(dev, c, js[0]);
    JobShows(js[0]);
  }

  /** The jobs' byte code shows their pulses on the wire. */
  lemma {:induction false} JobsShown(dev: Device, c: Chip, js: seq<Job>)
      returns (d: Chip, ws: seq<Wire>, data: seq<byte>)
    requires JobsOk(js) && Level(c.tms, js)
    ensures Interpret(dev, c, Code(js)) == Some(d)
    ensures Advanced(c, d, ws, data) && Shows(ws, JobsCells(js))
    ensures d.tms == PinAfter(c.tms, JobsCells(js))
    ensures Readable(js, data, Lines(dev, d.wire, |c.wire|, |ws|))
    decreases |js|
  {
    hide JobWires, LineBits, Lines, ReplyLen;
    if js == [] {
      d, ws, data := c, [], [];
    } else {
      var j, rest := js[0], js[1..];
      var c', data1 := JobStep(dev, c, js);
      var ws2, data2;
      d, ws2, data2 := JobsShown(dev, c', rest);
      ws, data := JobWires(j) + ws2, data1 + data2;
      ShowsConcat(JobWires(j), j.cells, ws2, JobsCells(rest));
      PinAfterConcat(c.tms, j.cells, JobsCells(rest));
      AdvancedJoin(c, c', d, JobWires(j), data1, ws2, data2);
      LinesJoin(dev, c.wire, c'.wire, d.wire, JobWires(j), ws2);
      ReadableCons(js, data1, data2, Lines(dev, c'.wire, |c.wire|, |j.cells|), Lines(dev, d.wire, |c'.wire|, |ws2|));
    }
  }

  lemma LinesJoin(dev: Device, w0: seq<Wire>, w1: seq<Wire>, w2: seq<Wire>, a: seq<Wire>, b: seq<Wire>)
    requires w1 == w0 + a && w2 == w1 + b
    ensures Lines(dev, w2, |w0|, |a + b|) == Lines(dev, w1, |w0|, |a|) + Lines(dev, w2, |w1|, |b|)
  {
    LinesExtend(dev, w1, b, |w0|, |a|);
    LinesSplit(dev, w2, |w0|, |a|, |b|);
  }

  lemma AdvancedJoin(c: Chip, c': Chip, d: Chip, wa: seq<Wire>, da: seq<byte>, wb: seq<Wire>, db: seq<byte>)
    requires Advanced(c, c', wa, da) && Advanced(c', d, wb, db)
    ensures Advanced(c, d, wa + wb, da + db)
  {
    assert c.wire + (wa + wb) == c.wire + wa + wb;
    assert c.reply + (da + db) == c.reply + da + db;
  }

  /** The handlers of `js` read `lines` from `data`, and use it up. */
  ghost predicate Readable(js: seq<Job>, data: seq<byte>, lines: seq<bool>)
    requires JobsOk(js)
    decreases |js|
  {
    if js == [] then data == [] && lines == []
    else
      var j, n := js[0], |js[0].cells|;
      && n <= |lines| && ReplyLen(j) <= |data|
      && LineBits(j, data[..ReplyLen(j)]) == lines[..n]
      && Readable(js[1..], data[ReplyLen(j)..], lines[n..])
  }

  lemma ReadableCons(js: seq<Job>, data1: seq<byte>, data2: seq<byte>, l1: seq<bool>, l2: seq<bool>)
    requires JobsOk(js) && js != [] && |data1| == ReplyLen(js[0])
    requires LineBits(js[0], data1) == l1 && Readable(js[1..], data2, l2)
    ensures Readable(js, data1 + data2, l1 + l2)
  {
    var data, lines := data1 + data2, l1 + l2;
    assert data[..|data1|] == data1 && data[|data1|..] == data2;
    assert lines[..|l1|] == l1 && lines[|l1|..] == l2;
  }

  /** So draining the jobs notes exactly those lines. */
  lemma {:induction false} DrainNotes(js: seq<Job>, d: Drained, lines: seq<bool>)
    requires JobsOk(js) && Readable(js, d.rest, lines)
    ensures |lines| == |JobsCells(js)|
    ensures Drain(js, d).rest == [] && Drain(js, d).found == NoteAll(d.found, JobsCells(js), lines)
    decreases |js|
  {
    if js != [] {
      var j, n, rest := js[0], |js[0].cells|, JobsCells(js[1..]);
      var d' := DrainJob(j, d);
      assert d'.rest == d.rest[ReplyLen(j)..] && d'.found == NoteAll(d.found, j.cells, lines[..n]);
      DrainNotes(js[1..], d', lines[n..]);
      NoteJoin(d.found, j.cells, rest, lines);
    }
  }

  /** Once some pulse has been read back last_tdo is a level; the first transfer
      ever is a TMS transfer, which always sets it. */
  lemma {:induction false} DrainLevel(js: seq<Job>, d: Drained, lines: seq<bool>)
    requires JobsOk(js) && Readable(js, d.rest, lines)
    requires d.lastTdo >= 0 || js == [] || js[0].TmsJob?
    ensures js != [] || d.lastTdo >= 0 ==> Drain(js, d).lastTdo >= 0
    decreases |js|
  {
    if js != [] {
      assert JobOk(js[0]);
      DrainLevel(js[1..], DrainJob(js[0], d), lines[|js[0].cells|..]);
    }
  }

  lemma NoteJoin(f: Findings, a: seq<Cell>, b: seq<Cell>, lines: seq<bool>)
    requires |lines| == |a| + |b|
    ensures NoteAll(f, a + b, lines) == NoteAll(NoteAll(f, a, lines[..|a|]), b, lines[|a|..])
  {
    NoteAllConcat(f, a, lines[..|a|], b, lines[|a|..]);
    assert lines[..|a|] + lines[|a|..] == lines;
  }

  // ---------------------------------------------------------------------
  // The host's state
  // ---------------------------------------------------------------------

  const BUFFER_SIZE := 16384

  /** struct udata_s, the chip included. */
  datatype Ftdi = Ftdi(chip: Chip, lastTms: int, lastTdo: int, pend: seq<Cell>, found: Findings)

  ghost predicate Ready(s: Ftdi) {
    && (s.lastTms == -1 || SameLevel(s.lastTms, s.chip.tms))
    && |s.pend| <= BUFFER_SIZE
    && s.chip.reply == []
    && (s.lastTms == -1 || s.lastTdo >= 0)
  }

  /** buffer_flush: write every transfer, then process every job. */
  function Flush(dev: Device, s: Ftdi): Ftdi
    requires Ready(s)
  {
    PlanCovers(s.lastTms, s.pend, s.chip.tms);
    var js := Plan(s.lastTms, s.pend);
    var c := Interpret(dev, s.chip, Code(js));
    if c.None? then s
    else
      var r := Drain(js, Drained(s.found, s.lastTdo, c.value.reply));
      Ftdi(c.value.(reply := r.rest), LastTms(s.lastTms, s.pend), r.lastTdo, [], r.found)
  }

  lemma FlushMeaning(dev: Device, s: Ftdi) returns (ws: seq<Wire>)
    requires Ready(s)
    ensures var t := Flush(dev, s);
            && Ready(t) && t.pend == []
            && Shows(ws, s.pend) && t.chip.wire == s.chip.wire + ws
            && t.found == NoteAll(s.found, s.pend, Lines(dev, t.chip.wire, |s.chip.wire|, |ws|))
  {
    hide Shows, Level, JobsCells, Readable, Lines, JobsOk, Drain, NoteAll, Code, Covers;
    PlanCovers(s.lastTms, s.pend, s.chip.tms);
    var js := Plan(s.lastTms, s.pend);
    var c, data;
    c, ws, data := JobsShown(dev, s.chip, js);
    assert s.chip.reply + data == data;
    DrainLevel(js, Drained(s.found, s.lastTdo, data), Lines(dev, c.wire, |s.chip.wire|, |ws|));
    DrainNotes(js, Drained(s.found, s.lastTdo, data), Lines(dev, c.wire, |s.chip.wire|, |ws|));
  }

  /** buffer_add. */
  function Add(dev: Device, size: nat, s: Ftdi, d: Cell): Ftdi
    requires Ready(s) && |s.pend| < size <= BUFFER_SIZE
  {
    var t := s.(pend := s.pend + [d]);
    if |t.pend| >= size then Flush(dev, t) else t
  }

  function AddIdle(dev: Device, size: nat, s: Ftdi, tms: bool, n: nat): (t: Ftdi)
    requires Ready(s) && |s.pend| < size <= BUFFER_SIZE
    ensures Ready(t) && |t.pend| < size
    decreases n
  {
    if n == 0 then s
    else
      var t := AddIdle(dev, size, s, tms, n - 1);
      AddKeeps(dev, size, t, CellOf(tms, None, None, false));
      Add(dev, size, t, CellOf(tms, None, None, false))
  }

  lemma AddKeeps(dev: Device, size: nat, s: Ftdi, d: Cell)
    requires Ready(s) && |s.pend| < size <= BUFFER_SIZE
    ensures var t := Add(dev, size, s, d); Ready(t) && |t.pend| < size
  {
    var t := s.(pend := s.pend + [d]);
    if |t.pend| >= size {
      var _ := FlushMeaning(dev, t);
    }
  }

  lemma FlushKeeps(dev: Device, s: Ftdi)
    requires Ready(s)
    ensures var t := Flush(dev, s); Ready(t) && t.pend == []
  {
    var _ := FlushMeaning(dev, s);
  }

  /** The state in which a request is answered. */
  function Serve(dev: Device, size: nat, s: Ftdi, a: Act): (t: Ftdi)
    requires Ready(s) && |s.pend| < size <= BUFFER_SIZE
    ensures Ready(t) && |t.pend| < size
  {
    match a
    case Pulse(tms, tdi, tdo, rmask, sync) =>
      AddKeeps(dev, size, s, CellOf(tms, tdi, tdo, rmask));
      var t := Add(dev, size, s, CellOf(tms, tdi, tdo, rmask));
      FlushKeeps(dev, t);
      if sync then Flush(dev, t) else t
    case Delay(_, tms, n) =>
      FlushKeeps(dev, s);
      var t := Flush(dev, s);
      if n > 0 then
        var u := AddIdle(dev, size, t, tms, n);
        FlushKeeps(dev, u);
        Flush(dev, u)
      else t
    case Sync => FlushKeeps(dev, s); Flush(dev, s)
    case _ => s
  }

  /** Requests that clear error_rc once they are answered. */
  predicate Clears(a: Act) {
    a.Sync? || (a.Pulse? && a.sync)
  }

  function Answered(s: Ftdi, a: Act): Ftdi {
    if Clears(a) then s.(found := s.found.(error := false)) else s
  }

  /** The value returned for `a` in the state that serves it. */
  function Reply(s: Ftdi, a: Act): int {
    match a
    case Pulse(_, _, _, _, sync) => if s.found.error then -1 else if sync then s.lastTdo else 1
    case Sync => if s.found.error then -1 else 0
    case _ => 0
  }

  function FtdiAfter(dev: Device, size: nat, start: Ftdi, log: seq<Act>): (s: Ftdi)
    requires Ready(start) && start.pend == [] && 0 < size <= BUFFER_SIZE
    ensures Ready(s) && |s.pend| < size
  {
    if log == [] then start
    else
      var n := |log| - 1;
      Answered(Serve(dev, size, FtdiAfter(dev, size, start, log[..n]), log[n]), log[n])
  }

  /** The host as the player sees it. */
  function FtdiEnv(dev: Device, size: nat, start: Ftdi): Env
    requires Ready(start) && start.pend == [] && 0 < size <= BUFFER_SIZE
  {
    (log: seq<Act>) =>
      if log == [] then 0
      else
        var n := |log| - 1;
        Reply(Serve(dev, size, FtdiAfter(dev, size, start, log[..n]), log[n]), log[n])
  }
}
