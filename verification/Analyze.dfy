/** The analyze and play passes of svfload/svfload.c and their TCK counts. */
module Analyze {
  import opened Bits
  import opened HostApi
  import opened Hosts
  import opened Playing
  import R = Refinement
  import opened SvfScript
  import opened SvfTracking
  import opened TapController
  import opened TapWalk

  /** What the analyze callbacks add to tck_total. */
  function Counted(a: Act): int {
    match a
    case Pulse(_, _, _, _, _) => 1
    case Delay(_, _, numTck) => numTck
    case _ => 0
  }

  function Tally(log: seq<Act>): int {
    if log == [] then 0 else Tally(log[..|log| - 1]) + Counted(log[|log| - 1])
  }

  /** The analyze pass answers every check with the level it asks for. */
  function AnalyzeAnswer(a: Act): int {
    if a.Pulse? && a.tdo.Some? then BoolToNat(a.tdo.value) else 0
  }

  function AnalyzeEnv(): Env {
    (log: seq<Act>) => if log == [] then 0 else AnalyzeAnswer(log[|log| - 1])
  }

  /** The play pass compares with the TDO line of the target. */
  function PlayAnswer(a: Act, line: bool): int {
    if !a.Pulse? then 0
    else if a.tdo.None? || a.tdo.value == line then BoolToNat(line)
    else -1
  }

  type Target = seq<Act> -> bool

  function PlayEnv(target: Target): Env {
    (log: seq<Act>) => if log == [] then 0 else PlayAnswer(log[|log| - 1], target(log))
  }

  const BLOCK := 100000

  /** struct ksvfplay_args: the counters, and the cycles asked of the kernel. */
  class KsvfArgs {
    var tckTotal: int
    var tckCount: int
    var clocked: seq<bool>

    method CbAnalyzeUdelay(usecs: int, tms: bool, numTck: int)
      modifies `tckTotal
      ensures tckTotal == old(tckTotal) + Counted(Delay(usecs, tms, numTck))
    {
      tckTotal := tckTotal + numTck;
    }

    method CbAnalyzePulseTck(tms: bool, tdi: Option<bool>, tdo: Option<bool>, rmask: bool, sync: bool) returns (rc: int)
      modifies `tckTotal
      ensures tckTotal == old(tckTotal) + Counted(Pulse(tms, tdi, tdo, rmask, sync))
      ensures rc == AnalyzeAnswer(Pulse(tms, tdi, tdo, rmask, sync)) >= 0
    {
      tckTotal := tckTotal + 1;
      rc := if tdo.None? then 0 else BoolToNat(tdo.value);
    }

    /** The wait in blocks, each one a request to the kernel. */
    method CbPlayUdelay(usecs: int, tms: bool, numTck: int)
      modifies `tckCount, `clocked
      ensures clocked == old(clocked) + ActTms(Delay(usecs, tms, numTck))
      ensures tckCount == old(tckCount) + |ActTms(Delay(usecs, tms, numTck))|
    {
      var remaining := numTck;
      ghost var done: nat := 0;
      while remaining > 0
        invariant done == if numTck > 0 then numTck - remaining else 0
        invariant numTck > 0 ==> remaining >= 0
        invariant clocked == old(clocked) + Repeat(tms, done)
        invariant tckCount == old(tckCount) + done
      {
        var block: nat := if remaining > BLOCK then BLOCK else remaining;
        clocked := clocked + Repeat(tms, block);
        remaining := remaining - block;
        tckCount := tckCount + block;
        assert Repeat(tms, done) + Repeat(tms, block) == Repeat(tms, done + block);
        done := done + block;
      }
    }

    method CbPlayPulseTck(tms: bool, tdi: Option<bool>, tdo: Option<bool>, rmask: bool, sync: bool, line: bool)
        returns (rc: int)
      modifies `tckCount, `clocked
      ensures clocked == old(clocked) + ActTms(Pulse(tms, tdi, tdo, rmask, sync))
      ensures tckCount == old(tckCount) + |ActTms(Pulse(tms, tdi, tdo, rmask, sync))|
      ensures rc == PlayAnswer(Pulse(tms, tdi, tdo, rmask, sync), line)
    {
      clocked := clocked + [tms];
      tckCount := tckCount + 1;
      rc := if tdo.None? || tdo.value == line then BoolToNat(line) else -1;
    }

    /** The analyze callbacks serve a request. */
    method Analyze(a: Act) returns (rc: int)
      modifies `tckTotal
      ensures tckTotal == old(tckTotal) + Counted(a) && rc == AnalyzeAnswer(a)
    {
      rc := 0;
      match a
      case Pulse(tms, tdi, tdo, rmask, sync) => rc := CbAnalyzePulseTck(tms, tdi, tdo, rmask, sync);
      case Delay(usecs, tms, numTck) => CbAnalyzeUdelay(usecs, tms, numTck);
      case _ =>
    }

    /** And the play callbacks. */
    method Play(a: Act, line: bool) returns (rc: int)
      modifies `tckCount, `clocked
      ensures clocked == old(clocked) + ActTms(a) && tckCount == old(tckCount) + |ActTms(a)|
      ensures rc == PlayAnswer(a, line)
    {
      rc := 0;
      match a
      case Pulse(tms, tdi, tdo, rmask, sync) => rc := CbPlayPulseTck(tms, tdi, tdo, rmask, sync, line);
      case Delay(usecs, tms, numTck) => CbPlayUdelay(usecs, tms, numTck);
      case _ =>
    }

    /** The callbacks serve a whole run, with the answers that the run got. */
    method AnalyzeRun(log: seq<Act>)
      modifies `tckTotal
      ensures tckTotal == Tally(log)
    {
      tckTotal := 0;
      for i := 0 to |log|
        invariant tckTotal == Tally(log[..i])
      {
        var rc := Analyze(log[i]);
        assert log[..i + 1][..i] == log[..i];
        assert rc == AnalyzeEnv()(log[..i + 1]);
      }
      assert log[..|log|] == log;
    }

    method PlayRun(log: seq<Act>, target: Target)
      modifies `tckCount, `clocked
      ensures clocked == TmsOf(log) && tckCount == Clocks(log)
    {
      tckCount, clocked := 0, [];
      for i := 0 to |log|
        invariant clocked == TmsOf(log[..i]) && tckCount == |clocked|
      {
        var rc := Play(log[i], target(log[..i + 1]));
        assert log[..i + 1][..i] == log[..i];
        assert rc == PlayEnv(target)(log[..i + 1]);
      }
      assert log[..|log|] == log;
    }
  }

  /** The mapped file, and whether char is signed. */
  datatype File = File(bytes: seq<byte>, signed: bool)

  /** What cb_get_byte delivers: a signed byte from 0x80 up is negative, which ends
      the input. */
  function Delivered(f: File): string
    decreases |f.bytes|
  {
    if f.bytes == [] || (f.signed && f.bytes[0] >= 0x80) then ""
    else [f.bytes[0] as char] + Delivered(f.(bytes := f.bytes[1..]))
  }

  /** An empty file is refused. */
  function AnalyzeBoard(f: File): Board {
    Board(if f.bytes == [] then -1 else 0, 0)
  }

  function AnalyzePass(f: File): Played {
    Playing.Play(SvfMode, Delivered(f), 0, [], AnalyzeBoard(f), AnalyzeEnv())
  }

  function PlayPass(f: File, board: Board, target: Target): Played {
    Playing.Play(SvfMode, Delivered(f), 0, [], board, PlayEnv(target))
  }

  /** main_play: analyze, then play if that went well. */
  method MainPlay(f: File, board: Board, target: Target) returns (rc: int, tckTotal: int, tckCount: int)
    ensures var a := AnalyzePass(f);
            tckTotal == Tally(a.st.log)
            && if a.rc != 0 then rc == a.rc && tckCount == 0
               else var p := PlayPass(f, board, target); rc == p.rc && tckCount == Clocks(p.st.log)
  {
    hide Play, AnalyzeEnv, PlayEnv, Delivered, Tally, AnalyzeBoard, Clocks;
    var args := new KsvfArgs;
    var h := new Host(AnalyzeEnv(), Delivered(f));
    var undefined;
    rc, undefined := LibxsvfPlay(h, SvfMode, AnalyzeBoard(f));
    args.AnalyzeRun(h.log);
    tckTotal, tckCount := args.tckTotal, 0;
    if rc != 0 {
      return;
    }
    h := new Host(PlayEnv(target), Delivered(f));
    rc, undefined := LibxsvfPlay(h, SvfMode, board);
    args.PlayRun(h.log, target);
    tckCount := args.tckCount;
  }

  // ---------------------------------------------------------------------
  // The prediction
  // ---------------------------------------------------------------------

  ghost predicate CountsUp(acts: seq<Act>) {
    forall k :: 0 <= k < |acts| && acts[k].Delay? ==> acts[k].numTck >= 0
  }

  /** Without negative waits the tally is the number of clock cycles. */
  lemma {:induction false} TallyClocks(log: seq<Act>)
    requires CountsUp(log)
    ensures Tally(log) == Clocks(log)
    decreases |log|
  {
    if log != [] {
      TallyClocks(log[..|log| - 1]);
    }
  }

  lemma {:induction false} ScriptCountsUp(cs: seq<Chunk>)
    requires R.Plain(cs)
    ensures CountsUp(ActsOf(cs))
    decreases |cs|
  {
    if cs != [] {
      assert R.PlainActs(cs[0].acts, cs[0].checked);
      assert forall i :: 0 <= i < |cs| - 1 ==> cs[1..][i] == cs[i + 1];
      ScriptCountsUp(cs[1..]);
    }
  }

  /** A run of an SVF file that succeeds has made all its requests. */
  lemma SuccessfulRun(s: Script, st: Player, env: Env)
    requires !RunScript(s, st, env).undefined && RunScript(s, st, env).rc == 0
    ensures RunScript(s, st, env).st.log == st.log + ActsOf(s.chunks) + [Sync] && s.end == Done
    ensures RunScript(s, st, env).st.tap == LastTap(st.tap, s.chunks)
  {
    RunsThrough(st, s.chunks, env);
    RunsToTap(st, s.chunks, env);
  }

  lemma {:induction false} RunsToTap(st: Player, cs: seq<Chunk>, env: Env)
    ensures RunChunks(st, cs, env).1 ==> RunChunks(st, cs, env).0.tap == LastTap(st.tap, cs)
    decreases |cs|
  {
    if cs != [] && !Stops(st, cs[0], env) {
      RunsToTap(Request(st, cs[0]), cs[1..], env);
      assert LastTap(cs[0].tap, cs[1..]) == LastTap(st.tap, cs);
    }
  }

  /** Nothing stops a run whose answers are never negative. */
  lemma {:induction false} NothingStops(st: Player, cs: seq<Chunk>, env: Env)
    requires forall log :: env(log) >= 0
    ensures RunChunks(st, cs, env).1
    decreases |cs|
  {
    if cs != [] {
      assert !Stops(st, cs[0], env) by {
        assert forall k :: 0 <= k < |cs[0].acts| ==> Answer(st.log, cs[0].acts, k, env) >= 0;
      }
      NothingStops(Request(st, cs[0]), cs[1..], env);
    }
  }

  /** If the play pass returns 0 then the analyze pass has returned 0 too, has made
      the same requests, and its total is the number of cycles played, the final
      reset included. */
  lemma AnalyzePredicts(f: File, board: Board, target: Target)
    requires f.bytes != []
    ensures var a, p := AnalyzePass(f), PlayPass(f, board, target);
            p.rc == 0 && !p.undefined ==>
              a.rc == 0 && !a.undefined && a.st == p.st && Tally(a.st.log) == Clocks(p.st.log)
  {
    hide Compile, RunScript, Complete, Clocks, AnalyzeEnv, Delivered, PlayEnv, CountsUp, Tally;
    var s := Compile(Delivered(f), 0, START, INIT);
    var p := PlayPass(f, board, target);
    if p.rc == 0 && !p.undefined {
      var r := RunScript(s, Player(INIT, []), PlayEnv(target));
      assert p == WindUp(r, board, PlayEnv(target));
      PassIs(s, Player(INIT, []), PlayEnv(target), board);
      AnalyzePassIs(s, Player(INIT, []), f);
      CompleteCountsUp(Delivered(f), s);
      TallyClocks(p.st.log);
    }
  }

  lemma CompleteCountsUp(input: string, s: Script)
    requires s == Compile(input, 0, START, INIT)
    ensures CountsUp(Complete(s, Player(INIT, [])).log)
  {
    hide Compile, ActsOf;
    R.CompilePlain(input, 0, START, INIT);
    ScriptCountsUp(s.chunks);
  }

  lemma AnalyzePassIs(s: Script, st: Player, f: File)
    requires s.end == Done && st.log == [] && f.bytes != []
    ensures var a := WindUp(RunScript(s, st, AnalyzeEnv()), AnalyzeBoard(f), AnalyzeEnv());
            !RunScript(s, st, AnalyzeEnv()).undefined && a.rc == 0 && a.st == Complete(s, st)
  {
    NothingStops(st, s.chunks, AnalyzeEnv());
    PassIs(s, st, AnalyzeEnv(), AnalyzeBoard(f));
  }

  /** Where a run ends that makes all its requests, final reset included. */
  function Complete(s: Script, st: Player): Player {
    var end := Walk(LastTap(st.tap, s.chunks), RESET);
    Player(end.tap, ActsOf(s.chunks) + [Sync] + Transitions(end.tms) + [Sync])
  }

  /** The whole log of a run that succeeds. */
  lemma PassIs(s: Script, st: Player, env: Env, board: Board)
    requires st.log == []
    requires !RunScript(s, st, env).undefined
    ensures var r := WindUp(RunScript(s, st, env), board, env);
            r.rc == 0 ==> s.end == Done && r.st == Complete(s, st)
  {
    var r := RunScript(s, st, env);
    if r.rc == 0 {
      SuccessfulRun(s, st, env);
      assert [] + ActsOf(s.chunks) == ActsOf(s.chunks);
    }
  }

  // ---------------------------------------------------------------------
  // What the passes return
  // ---------------------------------------------------------------------

  /** The target shows the level asked for whenever TDO is checked in `acts`, which come
      after `log`. */
  predicate ChecksPass(target: Target, log: seq<Act>, acts: seq<Act>) {
    forall k :: 0 <= k < |acts| ==> CheckPasses(target, log + acts[..k + 1], acts[k])
  }

  predicate CheckPasses(target: Target, log: seq<Act>, a: Act) {
    a.Pulse? && a.tdo.Some? ==> target(log) == a.tdo.value
  }

  lemma PassesConcat(target: Target, log: seq<Act>, a: seq<Act>, b: seq<Act>)
    ensures ChecksPass(target, log, a + b) <==> ChecksPass(target, log, a) && ChecksPass(target, log + a, b)
  {
    hide CheckPasses;
    var all := a + b;
    forall k: nat | k < |a|
      ensures all[..k + 1] == a[..k + 1] && all[k] == a[k]
    {
    }
    forall k: nat | k < |b|
      ensures all[|a| + k] == b[k] && log + all[..|a| + k + 1] == log + a + b[..k + 1]
    {
      assert all[..|a| + k + 1] == a + b[..k + 1];
    }
    if ChecksPass(target, log, all) {
      forall k: nat | k < |a|
        ensures CheckPasses(target, log + a[..k + 1], a[k])
      {
        assert CheckPasses(target, log + all[..k + 1], all[k]);
      }
      forall k: nat | k < |b|
        ensures CheckPasses(target, log + a + b[..k + 1], b[k])
      {
        var n := |a| + k;
        assert CheckPasses(target, log + all[..n + 1], all[n]);
      }
    } else {
      var k :| 0 <= k < |all| && !CheckPasses(target, log + all[..k + 1], all[k]);
      if k >= |a| {
        var n := k - |a|;
        assert !CheckPasses(target, log + a + b[..n + 1], b[n]);
      }
    }
  }

  /** A request fails exactly if it checks TDO and finds the other level. */
  lemma NegativeIs(target: Target, log: seq<Act>, a: Act)
    ensures PlayEnv(target)(log + [a]) < 0 <==> !CheckPasses(target, log + [a], a)
    ensures !a.Pulse? ==> PlayEnv(target)(log + [a]) == 0
  {
    var more := log + [a];
    assert more != [] && more[|more| - 1] == a;
    assert PlayEnv(target)(more) == PlayAnswer(a, target(more));
  }

  lemma StopsIs(st: Player, c: Chunk, target: Target)
    requires R.PlainActs(c.acts, c.checked)
    ensures Stops(st, c, PlayEnv(target)) <==> !ChecksPass(target, st.log, c.acts)
  {
    var env := PlayEnv(target);
    hide PlayEnv;
    forall k: nat | k < |c.acts|
      ensures Answer(st.log, c.acts, k, env) < 0 <==> !CheckPasses(target, st.log + c.acts[..k + 1], c.acts[k])
    {
      assert st.log + c.acts[..k + 1] == st.log + c.acts[..k] + [c.acts[k]];
      NegativeIs(target, st.log + c.acts[..k], c.acts[k]);
    }
    if !c.checked {
      assert forall k :: 0 <= k < |c.acts| ==> R.PlainAct(c.acts[k], c.checked);
    }
  }

  lemma {:induction false} RunPasses(st: Player, cs: seq<Chunk>, target: Target)
    requires R.Plain(cs)
    ensures RunChunks(st, cs, PlayEnv(target)).1 <==> ChecksPass(target, st.log, ActsOf(cs))
    decreases |cs|
  {
    hide PlayEnv, ChecksPass, Stops, R.PlainActs;
    if cs == [] {
      assert ChecksPass(target, st.log, []) by {
        NothingFails(target, st.log);
      }
    } else {
      assert R.PlainActs(cs[0].acts, cs[0].checked);
      assert forall i :: 0 <= i < |cs| - 1 ==> cs[1..][i] == cs[i + 1];
      StopsIs(st, cs[0], target);
      RunPasses(Request(st, cs[0]), cs[1..], target);
      PassesConcat(target, st.log, cs[0].acts, ActsOf(cs[1..]));
    }
  }

  lemma NothingFails(target: Target, log: seq<Act>)
    ensures ChecksPass(target, log, [])
  {
  }

  /** The play pass returns 0 if and only if the file is well-formed, the board comes up
      and down, and the target passes every check of the file. */
  lemma PlayReturns(f: File, board: Board, target: Target)
    ensures var s, p := Compile(Delivered(f), 0, START, INIT), PlayPass(f, board, target);
            p.rc == 0 && !p.undefined
            <==> board.setup >= 0 && board.shutdown >= 0 && s.end == Done && ChecksPass(target, [], ActsOf(s.chunks))
  {
    hide Compile, Delivered, ChecksPass, ActsOf, RunChunks;
    var s, st := Compile(Delivered(f), 0, START, INIT), Player(INIT, []);
    R.CompilePlain(Delivered(f), 0, START, INIT);
    RunPasses(st, s.chunks, target);
    var r := RunScript(s, st, PlayEnv(target));
    NegativeIs(target, RunChunks(st, s.chunks, PlayEnv(target)).0.log, Sync);
    NegativeIs(target, r.st.log + Transitions(Walk(r.st.tap, RESET).tms), Sync);
  }

  /** The analyze pass returns 0 if and only if the file is well-formed and not empty. */
  lemma AnalyzeReturns(f: File)
    ensures var s, a := Compile(Delivered(f), 0, START, INIT), AnalyzePass(f);
            a.rc == 0 && !a.undefined <==> f.bytes != [] && s.end == Done
  {
    hide Compile, Delivered, RunChunks;
    var s, st := Compile(Delivered(f), 0, START, INIT), Player(INIT, []);
    NothingStops(st, s.chunks, AnalyzeEnv());
  }
}
