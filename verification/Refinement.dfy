/** Batching refines pulse-at-a-time: an SVF file played on the FTDI host and on
    the GPIO host. */
module Refinement {
  import opened HostApi
  import opened TapWalk
  import opened Mpsse
  import opened FtdiPlan
  import opened FtdiCorrect
  import opened FtdiModel
  import opened FtdiLog
  import opened GpioModel
  import opened SvfBitdata
  import opened SvfLexer
  import opened SvfText
  import S = SvfScript

  // ---------------------------------------------------------------------
  // What an SVF script asks for
  // ---------------------------------------------------------------------

  /** No synchronous pulses, no wait for fewer than no cycles, and TDO is asked
      for only where answers count. */
  predicate PlainAct(a: Act, checked: bool) {
    && !a.Sync?
    && (a.Delay? ==> a.numTck >= 0)
    && (a.Pulse? ==> !a.sync && (checked || a.tdo.None?))
  }

  predicate PlainActs(acts: seq<Act>, checked: bool) {
    forall k :: 0 <= k < |acts| ==> PlainAct(acts[k], checked)
  }

  predicate Plain(cs: seq<S.Chunk>) {
    forall i :: 0 <= i < |cs| ==> PlainActs(cs[i].acts, cs[i].checked)
  }

  lemma PlainConcat(a: seq<S.Chunk>, b: seq<S.Chunk>)
    requires Plain(a) && Plain(b)
    ensures Plain(a + b)
  {
  }

  lemma ScanPlain(hdr: Bitdata, data: Bitdata, tdr: Bitdata, tap: int, shift: int, estate: int)
    requires Wf(hdr) && Wf(data) && Wf(tdr)
    ensures Plain(S.Scan(hdr, data, tdr, tap, shift, estate).chunks)
  {
    var w := S.WalkSteps(tap, shift);
    assert Plain(w.chunks);
    if w.ok {
      var cs := S.ScanChunks(hdr, data, tdr, w.tap, shift, estate);
      PlayPlain(hdr, w.tap, if data.len + tdr.len > 0 then shift else estate);
      PlayPlain(data, cs[0].tap, if tdr.len > 0 then shift else estate);
      PlayPlain(tdr, cs[1].tap, estate);
      assert Plain(cs);
      var e := S.WalkSteps(cs[2].tap, estate);
      assert Plain(e.chunks);
      PlainConcat(w.chunks, cs);
      PlainConcat(w.chunks + cs, e.chunks);
    }
  }

  lemma PlayPlain(bd: Bitdata, tap: int, estate: int)
    requires Wf(bd)
    ensures var c := S.PlayChunk(bd, tap, estate); PlainActs(c.acts, c.checked)
  {
    var acts := PlayActs(bd, tap, estate);
    assert forall k :: 0 <= k < |acts| ==> acts[k] == PulseAt(bd, k, tap != estate);
  }

  lemma {:induction false} StatePlain(p: string, tap: int)
    ensures Plain(S.StateSteps(p, tap).0.chunks)
    decreases |p|
  {
    if p != "" && TokenState(p) >= 0 {
      var w := S.WalkSteps(tap, TokenState(p));
      assert Plain(w.chunks);
      if w.ok {
        StatePlain(SkipToken(p), w.tap);
        PlainConcat(w.chunks, S.StateSteps(SkipToken(p), w.tap).0.chunks);
      }
    }
  }

  lemma RuntestPlain(r: S.Runtest, tap: int)
    ensures Plain(S.RuntestSteps(r, tap).chunks)
  {
    var w := S.WalkSteps(tap, r.run);
    assert Plain(w.chunks);
    if w.ok {
      var cs := S.RuntestSteps(r, tap).chunks;
      var e := S.WalkSteps(w.tap, r.endRun).chunks;
      assert Plain(e);
      assert Plain([cs[1], cs[2]]) by {
        assert forall k :: 0 <= k < |cs[1].acts| ==> cs[1].acts[k] == Sck;
      }
      PlainConcat(w.chunks, [cs[1], cs[2]]);
      PlainConcat(w.chunks + [cs[1], cs[2]], e);
      assert cs == w.chunks + [cs[1], cs[2]] + e;
    }
  }

  lemma CommandPlain(config: S.Config, tap: int, c: string)
    requires S.ConfigWf(config)
    ensures Plain(S.Command(config, tap, c).chunks)
  {
    hide Wf, SkipToken, Token;
    var name, p := Token(c), SkipToken(c);
    if name in S.VECTOR_COMMANDS {
      S.VectorConfigWf(config, name, p);
      var d := S.VectorConfig(config, name, p).0;
      ScanPlain(d.hdr, d.sdr, d.tdr, tap, DRSHIFT, d.endDr);
      ScanPlain(d.hir, d.sir, d.tir, tap, IRSHIFT, d.endIr);
    } else if name == "RUNTEST" {
      var r := S.ParseRuntest(p, S.Runtest(-1, -1, -1, config.run, config.endRun));
      if r.Some? {
        RuntestPlain(r.value, tap);
      }
    } else if name == "STATE" {
      StatePlain(p, tap);
    }
  }

  lemma {:induction false} CompilePlain(input: string, pos: nat, config: S.Config, tap: int)
    requires S.ConfigWf(config)
    ensures Plain(S.Compile(input, pos, config, tap).chunks)
    decreases |input| - pos
  {
    var r := Lex(input, pos, "", 0);
    if r.LexCommand? {
      LexProgress(input, pos, "", 0);
      S.CommandWf(config, tap, r.command);
      CommandPlain(config, tap, r.command);
      var e := S.Command(config, tap, r.command);
      if e.outcome == S.Done {
        CompilePlain(input, r.next, e.config, e.tap);
        PlainConcat(e.chunks, S.Compile(input, r.next, e.config, e.tap).chunks);
      }
    }
  }

  // ---------------------------------------------------------------------
  // The device
  // ---------------------------------------------------------------------

  /** For the pulses `ds`, TDO depends on TMS and on the TDI bits that are driven. */
  ghost predicate CaresOnly(dev: Device, ds: seq<Cell>) {
    forall n: nat, w1: seq<Wire>, w2: seq<Wire> {:trigger Shows(w1, ds[..n]), Shows(w2, ds[..n])} ::
      0 < n <= |ds| && Shows(w1, ds[..n]) && Shows(w2, ds[..n]) ==> dev(w1) == dev(w2)
  }

  lemma ShowsPrefix(w: seq<Wire>, ds: seq<Cell>, n: nat)
    requires Shows(w, ds) && n <= |ds|
    ensures Shows(w[..n], ds[..n])
  {
  }

  lemma SameTdo(dev: Device, ds: seq<Cell>, w1: seq<Wire>, a: nat, w2: seq<Wire>, b: nat, i: nat)
    requires CaresOnly(dev, ds) && i < a <= |ds| && i < b <= |ds|
    requires Shows(w1, ds[..a]) && Shows(w2, ds[..b])
    ensures TdoAt(dev, w1, i) == TdoAt(dev, w2, i)
  {
    ShowsPrefix(w1, ds[..a], i + 1);
    ShowsPrefix(w2, ds[..b], i + 1);
    assert ds[..a][..i + 1] == ds[..i + 1] == ds[..b][..i + 1];
  }

  // ---------------------------------------------------------------------
  // The GPIO host
  // ---------------------------------------------------------------------

  /** Some pulse in a range of the script is wrong on the GPIO host's wire. */
  ghost predicate WrongIn(dev: Device, wire: seq<Wire>, ds: seq<Cell>, lo: nat, hi: nat)
    requires |ds| == |wire|
  {
    exists i :: lo <= i < hi && i < |ds| && Wrong(dev, wire, ds, i)
  }

  /** A script's full request list with what the GPIO host shows for it. */
  ghost predicate Full(dev: Device, gs: Gpio, all: seq<Act>, ds: seq<Cell>, wire: seq<Wire>) {
    GpioSetUp(gs) && ds == CellsOf(all) && wire == GpioAfter(dev, gs, all).wire && |ds| == |wire|
  }

  lemma CellsOne(log: seq<Act>, a: Act)
    ensures CellsOf(log + [a]) == CellsOf(log) + ActCells(a)
  {
    assert (log + [a])[..|log|] == log;
  }

  lemma WrongInSplit(dev: Device, wire: seq<Wire>, ds: seq<Cell>, lo: nat, mid: nat, hi: nat)
    requires |ds| == |wire| && lo <= mid <= hi
    ensures WrongIn(dev, wire, ds, lo, hi) <==>
              WrongIn(dev, wire, ds, lo, mid) || WrongIn(dev, wire, ds, mid, hi)
  {
  }

  /** Where the pulses of one request are in the script. */
  lemma Position(dev: Device, gs: Gpio, all: seq<Act>, ds: seq<Cell>, wire: seq<Wire>, log: seq<Act>, a: Act)
    requires Full(dev, gs, all, ds, wire) && log + [a] <= all
    ensures var lo, hi, w := |CellsOf(log)|, |CellsOf(log + [a])|, GpioAfter(dev, gs, log + [a]).wire;
            && lo <= hi <= |ds| && ds[lo..hi] == ActCells(a)
            && |w| == hi && wire[..hi] == w
  {
    hide ActCells, CellsOf, GpioSetUp, GpioAfter;
    var rest := all[|log| + 1..];
    assert all == log + [a] + rest;
    CellsOne(log, a);
    CellsOfConcat(log + [a], rest);
    GpioGrows(dev, gs, log + [a], rest);
    GpioMeaning(dev, gs, log + [a]);
  }

  lemma QuietAct(dev: Device, wire: seq<Wire>, ds: seq<Cell>, lo: nat, hi: nat, a: Act)
    requires |ds| == |wire| && lo <= hi <= |ds| && ds[lo..hi] == ActCells(a)
    requires a.Pulse? ==> a.tdo.None?
    ensures !WrongIn(dev, wire, ds, lo, hi)
  {
    forall i | lo <= i < hi
      ensures !ds[i].tdoEnable
    {
      assert ds[i] == ds[lo..hi][i - lo];
    }
  }

  lemma OneCell(dev: Device, wire: seq<Wire>, ds: seq<Cell>, lo: nat, hi: nat, d: Cell)
    requires |ds| == |wire| && lo <= hi <= |ds| && ds[lo..hi] == [d]
    ensures hi == lo + 1
    ensures WrongIn(dev, wire, ds, lo, hi) <==> d.tdoEnable && d.tdo != dev(wire[..hi])
  {
    assert |ds[lo..hi]| == 1;
    assert ds[lo] == ds[lo..hi][0] == d;
    assert Wrong(dev, wire, ds, lo) <==> d.tdoEnable && d.tdo != dev(wire[..hi]);
  }

  lemma PrefixSplit(log: seq<Act>, a: Act, all: seq<Act>)
    requires log + [a] <= all
    ensures all == log + [a] + all[|log| + 1..] && all[|log|] == a
  {
  }

  /** One more request: its answer is negative exactly for a wrong pulse. */
  lemma GpioOne(dev: Device, gs: Gpio, all: seq<Act>, ds: seq<Cell>, wire: seq<Wire>, log: seq<Act>, a: Act)
    requires Full(dev, gs, all, ds, wire) && log + [a] <= all
    ensures |CellsOf(log)| <= |CellsOf(log + [a])| <= |ds|
    ensures GpioEnv(dev, gs)(log + [a]) < 0 <==> WrongIn(dev, wire, ds, |CellsOf(log)|, |CellsOf(log + [a])|)
    ensures PlainAct(a, false) ==> !WrongIn(dev, wire, ds, |CellsOf(log)|, |CellsOf(log + [a])|)
  {
    Position(dev, gs, all, ds, wire, log, a);
    GpioSnoc(dev, gs, log, a);
    var lo, hi := |CellsOf(log)|, |CellsOf(log + [a])|;
    if a.Pulse? {
      OneCell(dev, wire, ds, lo, hi, CellOf(a.tms, a.tdi, a.tdo, a.rmask));
    } else {
      QuietAct(dev, wire, ds, lo, hi, a);
    }
  }

  lemma {:induction false} GpioChunk(dev: Device, gs: Gpio, all: seq<Act>, ds: seq<Cell>, wire: seq<Wire>,
                                     log: seq<Act>, acts: seq<Act>)
    requires Full(dev, gs, all, ds, wire) && log + acts <= all
    ensures |CellsOf(log)| <= |CellsOf(log + acts)| <= |ds|
    ensures AnyNegative(log, acts, GpioEnv(dev, gs)) <==>
              WrongIn(dev, wire, ds, |CellsOf(log)|, |CellsOf(log + acts)|)
    ensures PlainActs(acts, false) ==> !WrongIn(dev, wire, ds, |CellsOf(log)|, |CellsOf(log + acts)|)
    decreases |acts|
  {
    hide CellsOf, GpioEnv, PlainAct;
    if acts == [] {
      assert log + acts == log;
      var rest := all[|log|..];
      assert all == log + rest;
      CellsOfConcat(log, rest);
    } else {
      var init, a := acts[..|acts| - 1], acts[|acts| - 1];
      SplitLast(log, acts, all);
      GpioChunk(dev, gs, all, ds, wire, log, init);
      GpioOne(dev, gs, all, ds, wire, log + init, a);
      AnyNegativeSnoc(log, init, a, GpioEnv(dev, gs));
      WrongInSplit(dev, wire, ds, |CellsOf(log)|, |CellsOf(log + init)|, |CellsOf(log + acts)|);
    }
  }

  lemma SplitLast(log: seq<Act>, acts: seq<Act>, all: seq<Act>)
    requires acts != [] && log + acts <= all
    ensures var init, a := acts[..|acts| - 1], acts[|acts| - 1];
            log + acts == log + init + [a] && acts == init + [a] && log + init <= all
  {
    assert log + acts[..|acts| - 1] == (log + acts)[..|log + acts| - 1];
  }

  /** The run stops early exactly when some pulse of the script is wrong. */
  lemma {:induction false} GpioRun(dev: Device, gs: Gpio, all: seq<Act>, ds: seq<Cell>, wire: seq<Wire>,
                                   st: Player, cs: seq<S.Chunk>)
    requires Full(dev, gs, all, ds, wire) && st.log + S.ActsOf(cs) == all && Plain(cs)
    ensures |CellsOf(st.log)| <= |ds|
    ensures S.RunChunks(st, cs, GpioEnv(dev, gs)).1 <==> !WrongIn(dev, wire, ds, |CellsOf(st.log)|, |ds|)
    decreases |cs|
  {
    if cs == [] {
      assert st.log == all;
    } else {
      var c := cs[0];
      assert PlainActs(c.acts, c.checked);
      assert st.log + (c.acts + S.ActsOf(cs[1..])) == st.log + c.acts + S.ActsOf(cs[1..]);
      GpioChunk(dev, gs, all, ds, wire, st.log, c.acts);
      var next := S.Request(st, c);
      GpioRun(dev, gs, all, ds, wire, next, cs[1..]);
      var lo, mid := |CellsOf(st.log)|, |CellsOf(next.log)|;
      assert WrongIn(dev, wire, ds, lo, |ds|) <==>
               WrongIn(dev, wire, ds, lo, mid) || WrongIn(dev, wire, ds, mid, |ds|);
    }
  }

  // ---------------------------------------------------------------------
  // The FTDI host
  // ---------------------------------------------------------------------

  ghost predicate NoClears(log: seq<Act>) {
    forall k :: 0 <= k < |log| ==> !Clears(log[k])
  }

  lemma {:induction false} NoClearsBase(log: seq<Act>)
    requires NoClears(log)
    ensures Base(log) == 0
    decreases |log|
  {
    if log != [] {
      NoClearsBase(log[..|log| - 1]);
    }
  }

  lemma {:induction false} PlainNoClears(cs: seq<S.Chunk>)
    requires Plain(cs)
    ensures NoClears(S.ActsOf(cs))
    decreases |cs|
  {
    if cs != [] {
      assert PlainActs(cs[0].acts, cs[0].checked);
      PlainNoClears(cs[1..]);
    }
  }

  /** A wrong pulse among the first ones sent is wrong on either wire. */
  lemma WrongOnBoth(dev: Device, ds: seq<Cell>, wire: seq<Wire>, other: seq<Wire>, n: nat)
    requires CaresOnly(dev, ds) && Shows(wire, ds) && n <= |ds| && Shows(other, ds[..n])
    ensures WrongSince(dev, other, ds[..n], 0) <==> WrongIn(dev, wire, ds, 0, n)
  {
    assert ds[..|ds|] == ds;
    forall i: nat | i < n
      ensures Wrong(dev, other, ds[..n], i) == Wrong(dev, wire, ds, i)
    {
      SameTdo(dev, ds, wire, |ds|, other, n, i);
    }
    if WrongSince(dev, other, ds[..n], 0) {
      var i :| 0 <= i < |ds[..n]| && Wrong(dev, other, ds[..n], i);
      assert Wrong(dev, wire, ds, i);
    }
    if WrongIn(dev, wire, ds, 0, n) {
      var i: nat :| 0 <= i < n && i < |ds| && Wrong(dev, wire, ds, i);
      assert Wrong(dev, other, ds[..n], i);
    }
  }

  /** With no wrong pulse in the script no answer is negative. */
  lemma FtdiQuiet(dev: Device, size: nat, fs: Ftdi, all: seq<Act>, ds: seq<Cell>, wire: seq<Wire>, log: seq<Act>,
                  a: Act)
    requires SetUp(fs) && 0 < size <= BUFFER_SIZE
    requires ds == CellsOf(all) && NoClears(all) && CaresOnly(dev, ds) && Shows(wire, ds)
    requires log + [a] <= all && !WrongIn(dev, wire, ds, 0, |ds|)
    ensures FtdiEnv(dev, size, fs)(log + [a]) >= 0
  {
    var rest := all[|log| + 1..];
    PrefixSplit(log, a, all);
    assert NoClears(log);
    if a.Pulse? {
      CellsOfConcat(log + [a], rest);
      NoClearsBase(log);
      var t, sent := FtdiAnswers(dev, size, fs, log, a);
      SentIsPrefix(sent, t.pend, CellsOf(rest), ds);
      WrongOnBoth(dev, ds, wire, t.chip.wire, |sent|);
      WrongInSplit(dev, wire, ds, 0, |sent|, |ds|);
    } else {
      AfterSnoc(dev, size, fs, log, a);
    }
  }

  lemma SentIsPrefix(sent: seq<Cell>, pend: seq<Cell>, rest: seq<Cell>, ds: seq<Cell>)
    requires sent + pend + rest == ds
    ensures |sent| <= |ds| && sent == ds[..|sent|]
  {
  }

  lemma {:induction false} FtdiRun(dev: Device, size: nat, fs: Ftdi, all: seq<Act>, ds: seq<Cell>, wire: seq<Wire>,
                                   st: Player, cs: seq<S.Chunk>)
    requires SetUp(fs) && 0 < size <= BUFFER_SIZE
    requires ds == CellsOf(all) && NoClears(all) && CaresOnly(dev, ds) && Shows(wire, ds)
    requires st.log + S.ActsOf(cs) == all && !WrongIn(dev, wire, ds, 0, |ds|)
    ensures S.RunChunks(st, cs, FtdiEnv(dev, size, fs)).1
    decreases |cs|
  {
    hide CellsOf, FtdiEnv, WrongIn, Shows, NoClears, CaresOnly;
    if cs != [] {
      var acts := cs[0].acts;
      assert st.log + (acts + S.ActsOf(cs[1..])) == st.log + acts + S.ActsOf(cs[1..]);
      forall k | 0 <= k < |acts|
        ensures Answer(st.log, acts, k, FtdiEnv(dev, size, fs)) >= 0
      {
        assert st.log + acts[..k + 1] == st.log + acts[..k] + [acts[k]];
        FtdiQuiet(dev, size, fs, all, ds, wire, st.log + acts[..k], acts[k]);
      }
      FtdiRun(dev, size, fs, all, ds, wire, S.Request(st, cs[0]), cs[1..]);
    }
  }

  /** The final sync answers zero exactly when no pulse was wrong. */
  lemma FtdiSync(dev: Device, size: nat, fs: Ftdi, all: seq<Act>, ds: seq<Cell>, wire: seq<Wire>)
    requires SetUp(fs) && 0 < size <= BUFFER_SIZE
    requires ds == CellsOf(all) && NoClears(all) && CaresOnly(dev, ds) && Shows(wire, ds)
    ensures FtdiEnv(dev, size, fs)(all + [Sync]) == (if WrongIn(dev, wire, ds, 0, |ds|) then -1 else 0)
    ensures var s := FtdiAfter(dev, size, fs, all + [Sync]);
            && Shows(s.chip.wire, ds)
            && s.found.retval == Cut(Captured(ds, Lines(dev, wire, 0, |ds|)))
  {
    hide Serve, CellsOf, WrongSince, Lines, Ready, NoClears, Captured, Cut, Tells, CaresOnly, FtdiAfter,
      Answered, WrongIn, Shows;
    NoClearsBase(all);
    CellsOne(all, Sync);
    assert CellsOf(all) + [] == CellsOf(all);
    var t, sent := FtdiAnswers(dev, size, fs, all, Sync);
    assert sent + [] == sent == ds && ds[..|ds|] == ds;
    WrongOnBoth(dev, ds, wire, t.chip.wire, |ds|);
    AfterSnoc(dev, size, fs, all, Sync);
    var sent' := FtdiMeaning(dev, size, fs, all + [Sync]);
    assert sent' + [] == sent';
    SameLines(dev, ds, wire, t.chip.wire);
  }

  lemma SameLines(dev: Device, ds: seq<Cell>, w1: seq<Wire>, w2: seq<Wire>)
    requires CaresOnly(dev, ds) && Shows(w1, ds) && Shows(w2, ds)
    ensures Lines(dev, w1, 0, |ds|) == Lines(dev, w2, 0, |ds|)
  {
    var a, b := Lines(dev, w1, 0, |ds|), Lines(dev, w2, 0, |ds|);
    assert ds[..|ds|] == ds;
    forall i | 0 <= i < |ds|
      ensures a[i] == b[i]
    {
      SameTdo(dev, ds, w1, |ds|, w2, |ds|, i);
    }
  }

  // ---------------------------------------------------------------------
  // The theorem
  // ---------------------------------------------------------------------

  /** The files to which the comparison applies. */
  ghost predicate Comparable(input: string, dev: Device) {
    var s := S.Compile(input, 0, S.START, INIT);
    s.end != S.Undefined && CaresOnly(dev, CellsOf(S.ActsOf(s.chunks)))
  }

  lemma GpioOutcome(dev: Device, gs: Gpio, s: S.Script)
    requires GpioSetUp(gs) && Plain(s.chunks) && s.end != S.Undefined
    ensures var all := S.ActsOf(s.chunks);
            var ds, wire, g := CellsOf(all), GpioAfter(dev, gs, all).wire, S.RunScript(s, POWER_UP, GpioEnv(dev, gs));
            && Shows(wire, ds) && !g.undefined
            && (g.rc >= 0 <==> s.end == S.Done && !WrongIn(dev, wire, ds, 0, |ds|))
            && (g.rc >= 0 ==> g.st.log == all + [Sync])
    ensures GpioAfter(dev, gs, S.ActsOf(s.chunks) + [Sync]) == GpioAfter(dev, gs, S.ActsOf(s.chunks))
  {
    hide GpioAfter, GpioEnv, WrongIn, GpioSetUp, Plain, Full;
    var all := S.ActsOf(s.chunks);
    var ds, wire := CellsOf(all), GpioAfter(dev, gs, all).wire;
    GpioMeaning(dev, gs, all);
    assert [] + all == all && CellsOf([]) == [];
    GpioRun(dev, gs, all, ds, wire, POWER_UP, s.chunks);
    S.RunsThrough(POWER_UP, s.chunks, GpioEnv(dev, gs));
    var st := S.RunChunks(POWER_UP, s.chunks, GpioEnv(dev, gs)).0;
    GpioSnoc(dev, gs, st.log, Sync);
    GpioSnoc(dev, gs, all, Sync);
  }

  lemma FtdiOutcome(dev: Device, size: nat, fs: Ftdi, s: S.Script, wire: seq<Wire>)
    requires SetUp(fs) && 0 < size <= BUFFER_SIZE && Plain(s.chunks) && s.end != S.Undefined
    requires CaresOnly(dev, CellsOf(S.ActsOf(s.chunks))) && Shows(wire, CellsOf(S.ActsOf(s.chunks)))
    ensures var all := S.ActsOf(s.chunks);
            var ds, f := CellsOf(all), S.RunScript(s, POWER_UP, FtdiEnv(dev, size, fs));
            && !f.undefined
            && (f.rc >= 0 <==> s.end == S.Done && !WrongIn(dev, wire, ds, 0, |ds|))
            && (f.rc >= 0 ==> f.st.log == all + [Sync])
  {
    hide CaresOnly, CellsOf, FtdiEnv, Cut, Lines, WrongIn, FtdiAfter, NoClears, Plain, Captured;
    var all := S.ActsOf(s.chunks);
    var ds := CellsOf(all);
    assert [] + all == all;
    PlainNoClears(s.chunks);
    S.RunsThrough(POWER_UP, s.chunks, FtdiEnv(dev, size, fs));
    FtdiSync(dev, size, fs, all, ds, wire);
    if !WrongIn(dev, wire, ds, 0, |ds|) {
      FtdiRun(dev, size, fs, all, ds, wire, POWER_UP, s.chunks);
    }
  }

  /** Played from power-up on both hosts, a file fails on one exactly when it
      fails on the other, although the FTDI host notices mismatches late. When it
      succeeds, the requests are the same, both wires have shown every pulse's TMS
      and every TDI bit that was driven, and both hosts captured the same bits. */
  lemma BatchingRefinesPulses(input: string, dev: Device, size: nat, fs: Ftdi, gs: Gpio)
    requires SetUp(fs) && GpioSetUp(gs) && 0 < size <= BUFFER_SIZE && Comparable(input, dev)
    ensures var f := S.PlaySvf(input, 0, POWER_UP, FtdiEnv(dev, size, fs));
            var g := S.PlaySvf(input, 0, POWER_UP, GpioEnv(dev, gs));
            && !f.undefined && !g.undefined
            && (f.rc < 0 <==> g.rc < 0)
            && (g.rc >= 0 ==>
                  && f.st.log == g.st.log
                  && Shows(FtdiAfter(dev, size, fs, f.st.log).chip.wire, CellsOf(g.st.log))
                  && Shows(GpioAfter(dev, gs, g.st.log).wire, CellsOf(g.st.log))
                  && FtdiAfter(dev, size, fs, f.st.log).found.retval == GpioAfter(dev, gs, g.st.log).retval)
  {
    hide NoClears, GpioSetUp, GpioEnv, WrongIn, GpioAfter, FtdiEnv, SetUp, FtdiAfter, GpioTells, Plain, Cut,
      Lines, CellsOf, Captured, CaresOnly, Shows;
    var s := S.Compile(input, 0, S.START, INIT);
    var all := S.ActsOf(s.chunks);
    var ds, wire := CellsOf(all), GpioAfter(dev, gs, all).wire;
    CompilePlain(input, 0, S.START, INIT);
    GpioOutcome(dev, gs, s);
    FtdiOutcome(dev, size, fs, s, wire);
    PlainNoClears(s.chunks);
    FtdiSync(dev, size, fs, all, ds, wire);
    CellsOne(all, Sync);
    assert ds + [] == ds;
    GpioMeaning(dev, gs, all);
  }
}
