/** The level that a synchronous pulse returns on the FTDI host: its own only if
    the transfer that carried it is not made of whole bytes. */
module FtdiLevel {
  import opened Bits
  import opened HostApi
  import opened Mpsse
  import opened FtdiPlan
  import opened FtdiCorrect
  import opened FtdiModel
  import opened FtdiLog

  /** The job's handler ends by setting last_tdo. */
  predicate SetsLevel(j: Job) {
    j.TmsJob? || |j.cells| % 8 > 0
  }

  /** Which pulse of the jobs last_tdo is left from, if any of them sets it. */
  function LastRead(js: seq<Job>): Option<nat>
    requires JobsOk(js)
  {
    if js == [] then None
    else
      var later := LastRead(js[1..]);
      if later.Some? then Some(|js[0].cells| + later.value)
      else if SetsLevel(js[0]) then Some(|js[0].cells| - 1)
      else None
  }

  predicate LevelIs(now: int, was: int, read: Option<nat>, lines: seq<bool>) {
    if read.None? then now == was else read.value < |lines| && now == BoolToNat(lines[read.value])
  }

  lemma {:induction false} DrainReads(js: seq<Job>, d: Drained, lines: seq<bool>)
    requires JobsOk(js) && Readable(js, d.rest, lines)
    ensures LevelIs(Drain(js, d).lastTdo, d.lastTdo, LastRead(js), lines)
    decreases |js|
  {
    hide JobOk;
    if js != [] {
      var j, rest, later := js[0], js[1..], lines[|js[0].cells|..];
      assert JobOk(j) && JobsOk(rest);
      var d' := DrainJob(j, d);
      assert Readable(rest, d'.rest, later);
      DrainReads(rest, d', later);
    }
  }

  /** last_tdo after a flush, exactly: the level of the last pulse whose transfer
      was not made of whole bytes, or what it was before. */
  lemma FlushLevel(dev: Device, s: Ftdi) returns (lines: seq<bool>)
    requires Ready(s)
    ensures JobsOk(Plan(s.lastTms, s.pend)) && |Flush(dev, s).chip.wire| == |s.chip.wire| + |s.pend|
    ensures lines == Lines(dev, Flush(dev, s).chip.wire, |s.chip.wire|, |s.pend|)
    ensures LevelIs(Flush(dev, s).lastTdo, s.lastTdo, LastRead(Plan(s.lastTms, s.pend)), lines)
  {
    var c;
    c, lines := FlushShows(dev, s);
    FlushIs(dev, s, c);
    DrainReads(Plan(s.lastTms, s.pend), Drained(s.found, s.lastTdo, c.reply), lines);
  }

  lemma FlushIs(dev: Device, s: Ftdi, c: Chip)
    requires Ready(s) && JobsOk(Plan(s.lastTms, s.pend))
    requires Interpret(dev, s.chip, Code(Plan(s.lastTms, s.pend))) == Some(c)
    ensures Flush(dev, s).chip.wire == c.wire
    ensures Flush(dev, s).lastTdo == Drain(Plan(s.lastTms, s.pend), Drained(s.found, s.lastTdo, c.reply)).lastTdo
  {
  }

  /** The chip after a flush, and what its reply says. */
  lemma FlushShows(dev: Device, s: Ftdi) returns (c: Chip, lines: seq<bool>)
    requires Ready(s)
    ensures var js := Plan(s.lastTms, s.pend);
            JobsOk(js) && Interpret(dev, s.chip, Code(js)) == Some(c) && Readable(js, c.reply, lines)
    ensures |s.chip.wire| + |lines| == |c.wire| && |lines| == |s.pend|
    ensures lines == Lines(dev, c.wire, |s.chip.wire|, |lines|)
  {
    hide Interpret, Plan, Code, JobsCells, Readable, PinAfter, Lines, Covers, Level, SameLevel, JobsOk;
    PlanCovers(s.lastTms, s.pend, s.chip.tms);
    var ws, data;
    c, ws, data := JobsShown(dev, s.chip, Plan(s.lastTms, s.pend));
    assert c.reply == data;
    lines := Lines(dev, c.wire, |s.chip.wire|, |ws|);
  }

  // ---------------------------------------------------------------------
  // Which pulses are sent in whole bytes
  // ---------------------------------------------------------------------

  /** How many pulses a TDI transfer carries at the end of a flush, if one does. */
  function TdiTail(last: int, ds: seq<Cell>): (n: nat)
    ensures n <= |ds|
    decreases |ds|
  {
    if ds == [] then 0
    else if SameLevel(last, ds[0].tms) then
      var n := TdiSpan(ds, ds[0].tms);
      if n == |ds| then n else TdiTail(last, ds[n..])
    else
      var n := TmsChunk(ds).0;
      TdiTail(BoolToNat(ds[n - 1].tms), ds[n..])
  }

  /** The flush ends with a TDI transfer of whole bytes. */
  predicate EndsInBytes(last: int, ds: seq<Cell>) {
    TdiTail(last, ds) > 0 && TdiTail(last, ds) % 8 == 0
  }

  /** The last `r` pulses, and no more, have one TMS level. */
  predicate TrailingRun(ds: seq<Cell>, r: nat) {
    && 0 < r <= |ds|
    && (forall i :: |ds| - r <= i < |ds| ==> ds[i].tms == ds[|ds| - 1].tms)
    && (r < |ds| ==> ds[|ds| - r - 1].tms != ds[|ds| - 1].tms)
  }

  /** The first transfer of a flush. */
  lemma PlanHead(last: int, ds: seq<Cell>) returns (j: Job, n: nat, next: int)
    requires ds != []
    ensures 0 < n <= |ds| && j.cells == ds[..n]
    ensures Plan(last, ds) == [j] + Plan(next, ds[n..])
    ensures j.TdiJob? <==> SameLevel(last, ds[0].tms)
    ensures j.TdiJob? ==> (forall i :: 0 <= i < n ==> ds[i].tms == ds[0].tms) && (n < |ds| ==> ds[n].tms != ds[0].tms)
    ensures j.TmsJob? ==> n <= 6
    ensures next == BoolToNat(ds[n - 1].tms)
    ensures TdiTail(last, ds) == if n == |ds| && j.TdiJob? then n else TdiTail(next, ds[n..])
  {
    hide TmsChunk, BoolToNat, TdiSpan;
    if SameLevel(last, ds[0].tms) {
      n, next := TdiSpan(ds, ds[0].tms), last;
      j := TdiJob(ds[..n]);
    } else {
      var c := TmsChunk(ds);
      n, next := c.0, BoolToNat(ds[c.0 - 1].tms);
      j := TmsJob(ds[..n], c.1);
    }
  }

  lemma RunLater(ds: seq<Cell>, n: nat, r: nat) returns (q: nat)
    requires TrailingRun(ds, r) && n < |ds|
    ensures TrailingRun(ds[n..], q) && q == if r < |ds| - n then r else |ds| - n
  {
    q := if r < |ds| - n then r else |ds| - n;
    var rest := ds[n..];
    assert rest[|rest| - 1] == ds[|ds| - 1];
    if q < |rest| {
      assert rest[|rest| - q - 1] == ds[|ds| - r - 1];
    }
    forall i | |rest| - q <= i < |rest|
      ensures rest[i].tms == rest[|rest| - 1].tms
    {
      assert rest[i] == ds[n + i];
    }
  }

  /** The trailing run at one TMS level is sent by a TDI transfer, but for at most
      six pulses that a TMS transfer takes. */
  lemma {:induction false} TailOfRun(last: int, ds: seq<Cell>, r: nat)
    requires TrailingRun(ds, r)
    ensures TdiTail(last, ds) <= r <= TdiTail(last, ds) + 6
    ensures r == |ds| && SameLevel(last, ds[0].tms) ==> TdiTail(last, ds) == r
    decreases |ds|
  {
    var j, n, next := PlanHead(last, ds);
    if n < |ds| {
      var rest := ds[n..];
      var q := RunLater(ds, n, r);
      TailOfRun(next, rest, q);
      RunBreak(ds, n, r, q);
    } else {
      assert ds[n..] == [];
    }
  }

  /** A run that goes on before `n` has the level of the pulse before `n`. */
  lemma RunBreak(ds: seq<Cell>, n: nat, r: nat, q: nat)
    requires TrailingRun(ds, r) && 0 < n < |ds| && q == if r < |ds| - n then r else |ds| - n
    ensures r == q || (r > |ds| - n == q && ds[n - 1].tms == ds[n].tms)
    ensures r <= q + n
  {
    if r > |ds| - n {
      assert ds[n - 1].tms == ds[|ds| - 1].tms && ds[n].tms == ds[|ds| - 1].tms;
    }
  }

  lemma LastReadCons(j: Job, js: seq<Job>)
    requires JobOk(j) && JobsOk([j] + js)
    ensures JobsOk(js)
    ensures LastRead([j] + js) ==
            if LastRead(js).Some? then Some(|j.cells| + LastRead(js).value)
            else if SetsLevel(j) then Some(|j.cells| - 1)
            else None
  {
    var all := [j] + js;
    assert all[1..] == js;
    forall i | 0 <= i < |js|
      ensures JobOk(js[i])
    {
      assert js[i] == all[i + 1];
    }
  }

  /** last_tdo is left from the last pulse unless the flush ends in whole bytes. */
  lemma {:induction false} LastReadIsLast(last: int, ds: seq<Cell>)
    requires ds != [] && JobsOk(Plan(last, ds))
    ensures LastRead(Plan(last, ds)) == Some(|ds| - 1) <==> !EndsInBytes(last, ds)
    decreases |ds|
  {
    hide Plan, TdiTail, LastRead, JobOk;
    var j, n, next := PlanHead(last, ds);
    assert Plan(last, ds)[0] == j;
    LastReadCons(j, Plan(next, ds[n..]));
    if n < |ds| {
      LastReadIsLast(next, ds[n..]);
    } else {
      assert ds[n..] == [] && ds[..n] == ds;
      NothingPlanned(next);
    }
  }

  lemma NothingPlanned(last: int)
    ensures Plan(last, []) == [] && TdiTail(last, []) == 0 && LastRead([]) == None
  {
  }

  // ---------------------------------------------------------------------
  // When a flush leaves the level of its last cycle
  // ---------------------------------------------------------------------

  predicate LastLevel(dev: Device, wire: seq<Wire>, level: int) {
    wire != [] && level == BoolToNat(TdoAt(dev, wire, |wire| - 1))
  }

  lemma LastLine(dev: Device, wire: seq<Wire>, from: nat, lines: seq<bool>) returns (level: bool)
    requires lines != [] && from + |lines| == |wire| && lines == Lines(dev, wire, from, |lines|)
    ensures level == lines[|lines| - 1] && LastLevel(dev, wire, BoolToNat(level))
  {
    var n := |lines| - 1;
    level := Lines(dev, wire, from, |lines|)[n];
    assert from + n == |wire| - 1;
  }

  lemma NothingToFlush(dev: Device, s: Ftdi)
    requires Ready(s) && s.pend == []
    ensures Flush(dev, s).lastTdo == s.lastTdo && Flush(dev, s).chip.wire == s.chip.wire
  {
    var lines := FlushLevel(dev, s);
    var ws := FlushMeaning(dev, s);
    assert s.chip.wire + [] == s.chip.wire;
  }

  /** For every device last_tdo is the level of the last cycle if and only if it was
      left from the last pulse: if and only if the flush does not end in whole bytes. */
  lemma FlushLevelExact(s: Ftdi)
    requires Ready(s) && s.pend != []
    ensures JobsOk(Plan(s.lastTms, s.pend))
    ensures (forall dev: Device :: LastLevel(dev, Flush(dev, s).chip.wire, Flush(dev, s).lastTdo))
            <==> LastRead(Plan(s.lastTms, s.pend)) == Some(|s.pend| - 1)
    ensures LastRead(Plan(s.lastTms, s.pend)) == Some(|s.pend| - 1) <==> !EndsInBytes(s.lastTms, s.pend)
  {
    hide Flush, Plan, TdiTail, LastRead, LastLevel;
    PlanCovers(s.lastTms, s.pend, s.chip.tms);
    LastReadIsLast(s.lastTms, s.pend);
    if EndsInBytes(s.lastTms, s.pend) {
      var dev := BytesMislead(s);
    } else {
      forall dev: Device
        ensures LastLevel(dev, Flush(dev, s).chip.wire, Flush(dev, s).lastTdo)
      {
        FlushReadsLast(dev, s);
      }
    }
  }

  lemma FlushReadsLast(dev: Device, s: Ftdi)
    requires Ready(s) && s.pend != [] && !EndsInBytes(s.lastTms, s.pend)
    ensures LastLevel(dev, Flush(dev, s).chip.wire, Flush(dev, s).lastTdo)
  {
    hide Flush, Plan, TdiTail, LastRead;
    var lines := FlushLevel(dev, s);
    LastReadIsLast(s.lastTms, s.pend);
    var level := LastLine(dev, Flush(dev, s).chip.wire, |s.chip.wire|, lines);
  }

  /** TDO is high in one cycle only, counted from power-up; or never. */
  function OnlyAt(n: nat): Device {
    wire => |wire| == n
  }

  function Always(level: bool): Device {
    wire => level
  }

  /** After whole bytes some device shows another level than the one left. */
  lemma BytesMislead(s: Ftdi) returns (dev: Device)
    requires Ready(s) && s.pend != [] && EndsInBytes(s.lastTms, s.pend)
    ensures !LastLevel(dev, Flush(dev, s).chip.wire, Flush(dev, s).lastTdo)
  {
    hide Flush, Plan, TdiTail, LastRead, Interpret;
    PlanCovers(s.lastTms, s.pend, s.chip.tms);
    LastReadIsLast(s.lastTms, s.pend);
    var read := LastRead(Plan(s.lastTms, s.pend));
    dev := if read.None? then Always(s.lastTdo != 1) else OnlyAt(|s.chip.wire| + read.value + 1);
    var lines := FlushLevel(dev, s);
    var wire := Flush(dev, s).chip.wire;
    LastTdo(dev, wire);
    if read.Some? {
      assert lines[read.value] == TdoAt(dev, wire, |s.chip.wire| + read.value);
    }
  }

  lemma LastTdo(dev: Device, wire: seq<Wire>)
    requires wire != []
    ensures TdoAt(dev, wire, |wire| - 1) == dev(wire)
  {
    assert wire[..|wire|] == wire;
  }

  // ---------------------------------------------------------------------
  // Answers
  // ---------------------------------------------------------------------

  /** What is pending when a pulse has been added, before any flush. */
  function WithPulse(dev: Device, size: nat, start: Ftdi, log: seq<Act>, a: Act): Ftdi
    requires Ready(start) && start.pend == [] && 0 < size <= BUFFER_SIZE
  {
    var s := FtdiAfter(dev, size, start, log);
    s.(pend := s.pend + ActCells(a))
  }

  /** The answer to a synchronous pulse is last_tdo, unless a pulse was wrong. */
  lemma SyncAnswers(dev: Device, size: nat, start: Ftdi, log: seq<Act>, a: Act) returns (u: Ftdi)
    requires SetUp(start) && 0 < size <= BUFFER_SIZE && a.Pulse? && a.sync
    ensures u == WithPulse(dev, size, start, log, a) && Ready(u)
    ensures FtdiAfter(dev, size, start, log + [a]).pend == []
    ensures FtdiAfter(dev, size, start, log + [a]).chip.wire == Flush(dev, u).chip.wire
    ensures var answer := FtdiEnv(dev, size, start)(log + [a]); answer >= 0 ==> answer == Flush(dev, u).lastTdo
  {
    var s := FtdiAfter(dev, size, start, log);
    u := s.(pend := s.pend + ActCells(a));
    AfterSnoc(dev, size, start, log, a);
    FlushKeeps(dev, u);
    NothingToFlush(dev, Flush(dev, u));
    FlushKeeps(dev, Flush(dev, u));
  }

  /** It is the level read during that pulse, unless the flush ends in whole bytes. */
  lemma SyncReadsItsLevel(dev: Device, size: nat, start: Ftdi, log: seq<Act>, a: Act)
    requires SetUp(start) && 0 < size <= BUFFER_SIZE && a.Pulse? && a.sync
    requires var u := WithPulse(dev, size, start, log, a); !EndsInBytes(u.lastTms, u.pend)
    ensures FtdiAfter(dev, size, start, log + [a]).pend == []
    ensures var answer := FtdiEnv(dev, size, start)(log + [a]);
            answer >= 0 ==> LastLevel(dev, FtdiAfter(dev, size, start, log + [a]).chip.wire, answer)
  {
    var u := SyncAnswers(dev, size, start, log, a);
    FlushReadsLast(dev, u);
  }

  /** Fewer than eight pulses at one TMS level are never sent in whole bytes. */
  lemma ShortRunIsRead(last: int, ds: seq<Cell>, r: nat)
    requires TrailingRun(ds, r) && r < 8
    ensures !EndsInBytes(last, ds)
  {
    TailOfRun(last, ds, r);
  }

  lemma SomeRun(ds: seq<Cell>) returns (r: nat)
    requires ds != []
    ensures TrailingRun(ds, r)
  {
    r := 1;
    while r < |ds| && ds[|ds| - r - 1].tms == ds[|ds| - 1].tms
      invariant 0 < r <= |ds|
      invariant forall i :: |ds| - r <= i < |ds| ==> ds[i].tms == ds[|ds| - 1].tms
    {
      r := r + 1;
    }
  }

  /** Nor are pulses among whose last eight TMS changes. */
  lemma ChangeIsRead(last: int, ds: seq<Cell>, i: nat)
    requires |ds| - 8 <= i < |ds| && ds[i].tms != ds[|ds| - 1].tms
    ensures !EndsInBytes(last, ds)
  {
    var r := SomeRun(ds);
    ShortRunIsRead(last, ds, r);
  }

  /** Whole bytes at the TMS level already on the pin leave last_tdo alone. */
  lemma WholeBytesKeepLevel(dev: Device, s: Ftdi)
    requires Ready(s) && s.pend != [] && |s.pend| % 8 == 0 && s.lastTms == BoolToNat(s.pend[0].tms)
    requires forall i :: 0 <= i < |s.pend| ==> s.pend[i].tms == s.pend[0].tms
    ensures Flush(dev, s).lastTdo == s.lastTdo
  {
    hide Flush, Ready, BoolToNat, LevelIs, TdiSpan, JobsOk, JobOk, Lines;
    var n := TdiSpan(s.pend, s.pend[0].tms);
    assert s.pend[..n] == s.pend && s.pend[n..] == [];
    var _ := FlushLevel(dev, s);
    LastReadCons(TdiJob(s.pend), []);
  }

  // ---------------------------------------------------------------------
  // A level that is eight pulses old
  // ---------------------------------------------------------------------

  const LOW := Pulse(false, None, None, false, false)
  const LOW_SYNC := Pulse(false, None, None, false, true)

  function Lows(n: nat): (r: seq<Act>)
    ensures |r| == n && forall i :: 0 <= i < n ==> r[i] == LOW
  {
    seq(n, _ => LOW)
  }

  /** Pulses that fit are only buffered. */
  lemma {:induction false} LowsPend(dev: Device, size: nat, start: Ftdi, log: seq<Act>, n: nat)
    requires Ready(start) && start.pend == [] && 0 < size <= BUFFER_SIZE
    requires FtdiAfter(dev, size, start, log).pend == [] && n < size
    ensures FtdiAfter(dev, size, start, log + Lows(n)) ==
            FtdiAfter(dev, size, start, log).(pend := IdleCells(false, n))
    decreases n
  {
    hide Flush, FtdiAfter, Plan, FtdiEnv, Ready, Lows, CellOf, Reply;
    if n == 0 {
      assert log + Lows(0) == log;
      assert IdleCells(false, 0) == [];
    } else {
      var m := n - 1;
      LowsPend(dev, size, start, log, m);
      assert log + Lows(n) == log + Lows(m) + [LOW];
      AfterSnoc(dev, size, start, log + Lows(m), LOW);
      assert IdleCells(false, n) == IdleCells(false, m) + [CellOf(false, None, None, false)];
    }
  }

  /** One synchronous pulse after set-up: its level is read, and TMS is left low. */
  lemma FirstLow(dev: Device, size: nat, start: Ftdi) returns (s: Ftdi)
    requires SetUp(start) && 0 < size <= BUFFER_SIZE
    ensures s == FtdiAfter(dev, size, start, [LOW_SYNC]) && s.pend == []
    ensures |s.chip.wire| == 1 && s.lastTms == 0 && LastLevel(dev, s.chip.wire, s.lastTdo)
  {
    hide EndsInBytes, FtdiEnv, Ready, LastLevel, TrailingRun, Lines, JobsOk, Reply, LastRead, LevelIs;
    var u := SyncAnswers(dev, size, start, [], LOW_SYNC);
    assert [] + [LOW_SYNC] == [LOW_SYNC];
    AfterSnoc(dev, size, start, [], LOW_SYNC);
    assert u.pend == IdleCells(false, 1);
    s := FtdiAfter(dev, size, start, [LOW_SYNC]);
    ShortRunIsRead(-1, u.pend, 1);
    FlushReadsLast(dev, u);
    var lines := FlushLevel(dev, u);
    NothingToFlush(dev, Flush(dev, u));
  }

  /** Requests that check no TDO are never answered with an error. */
  lemma NeverNegative(dev: Device, size: nat, start: Ftdi, log: seq<Act>, a: Act)
    requires SetUp(start) && 0 < size <= BUFFER_SIZE && a.Pulse? && a.sync
    requires forall i :: 0 <= i < |CellsOf(log + [a])| ==> !CellsOf(log + [a])[i].tdoEnable
    ensures FtdiEnv(dev, size, start)(log + [a]) >= 0
  {
    hide FtdiEnv, FtdiAfter, CellsOf;
    var t, sent := FtdiAnswers(dev, size, start, log, a);
    assert sent + [] == sent;
    NothingWrong(dev, t.chip.wire, sent, Base(log));
  }

  lemma NothingWrong(dev: Device, wire: seq<Wire>, sent: seq<Cell>, base: nat)
    requires |sent| == |wire| && forall i :: 0 <= i < |sent| ==> !sent[i].tdoEnable
    ensures !WrongSince(dev, wire, sent, base)
  {
  }

  lemma {:induction false} PulseCells(log: seq<Act>)
    requires forall i :: 0 <= i < |log| ==> log[i].Pulse?
    ensures |CellsOf(log)| == |log|
    ensures forall i :: 0 <= i < |log| ==>
              CellsOf(log)[i] == CellOf(log[i].tms, log[i].tdi, log[i].tdo, log[i].rmask)
    decreases |log|
  {
    if log != [] {
      PulseCells(log[..|log| - 1]);
    }
  }

  const EIGHT_LATER := [LOW_SYNC] + Lows(7) + [LOW_SYNC]

  /** So the level returned can be an old one: TDO is low during the first cycle
      and high from then on, a synchronous pulse, seven others and another
      synchronous one keep TMS low, and the last one still returns low. */
  lemma StaleLevel(size: nat, start: Ftdi) returns (dev: Device)
    requires SetUp(start) && 8 <= size <= BUFFER_SIZE
    ensures var answer := FtdiEnv(dev, size, start)(EIGHT_LATER);
            answer >= 0 && !LastLevel(dev, FtdiAfter(dev, size, start, EIGHT_LATER).chip.wire, answer)
  {
    hide FtdiEnv, FtdiAfter, Flush, Plan, CellsOf;
    dev := (wire: seq<Wire>) => |wire| > 1;
    var log, n: nat := [LOW_SYNC] + Lows(7), 7;
    var s := FirstLow(dev, size, start);
    LowsPend(dev, size, start, [LOW_SYNC], n);
    var u := SyncAnswers(dev, size, start, log, LOW_SYNC);
    assert u.pend == IdleCells(false, 8);
    WholeBytesKeepLevel(dev, u);
    var lines := FlushLevel(dev, u);
    PulseCells(log + [LOW_SYNC]);
    NeverNegative(dev, size, start, log, LOW_SYNC);
    LastTdo(dev, s.chip.wire);
    LastTdo(dev, Flush(dev, u).chip.wire);
  }
}
