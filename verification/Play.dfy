/** `libxsvf_play` (svfload/libxsvf/play.c): a run of any kind between set-up,
    the final reset and shutdown. */
module Playing {
  import opened ChainScan
  import opened HostApi
  import opened Hosts
  import S = SvfPlayer
  import opened SvfLexer
  import opened SvfScript
  import opened SvfTracking
  import opened TapController
  import opened TapWalk
  import X = XsvfPlayer
  import opened XsvfModel
  import opened XsvfTracking

  datatype Mode = SvfMode | XsvfMode | ScanMode

  /** What the host's set-up and shutdown callbacks return. */
  datatype Board = Board(setup: int, shutdown: int)

  function RunMode(mode: Mode, input: string, pos: nat, st: Player, env: Env): Played {
    match mode
    case SvfMode => PlaySvf(input, pos, st, env)
    case XsvfMode => PlayXsvf(input, pos, st, env)
    case ScanMode => var f := PlayScan(st, env); Played(f.rc, f.st, false)
  }

  /** The final walk, sync and shutdown. */
  function WindUp(r: Played, board: Board, env: Env): Played {
    var (st, _) := Walked(r.st, RESET);
    var s := WithSync(r.rc, st, env);
    Played(if board.shutdown < 0 && s.rc >= 0 then board.shutdown else s.rc, s.st, false)
  }

  /** libxsvf_play. */
  function Play(mode: Mode, input: string, pos: nat, log: seq<Act>, board: Board, env: Env): Played {
    if board.setup < 0 then Played(-1, Player(INIT, log), false)
    else
      var r := RunMode(mode, input, pos, Player(INIT, log), env);
      if r.undefined then r else WindUp(r, board, env)
  }

  method LibxsvfPlay(h: Host, mode: Mode, board: Board) returns (rc: int, undefined: bool)
    requires h.pos <= |h.input|
    modifies h
    ensures Played(rc, State(h), undefined) == Play(mode, h.input, old(h.pos), old(h.log), board, h.env)
  {
    hide PlayScan, Walk, Transitions;
    rc, undefined := -1, false;
    h.tapState := INIT;
    if board.setup < 0 {
      return;
    }
    match mode {
      case SvfMode => rc, undefined := S.LibxsvfSvf(h);
      case XsvfMode => rc, undefined := X.LibxsvfXsvf(h);
      case ScanMode =>
        var devices;
        rc, devices := LibxsvfScan(h);
    }
    if undefined {
      return;
    }
    var _ := LibxsvfTapWalk(h, RESET);
    var s := h.Request(Sync);
    if s != 0 && rc >= 0 {
      rc := -1;
    }
    if board.shutdown < 0 {
      rc := if rc < 0 then rc else board.shutdown;
    }
  }

  /** No RUNTEST of the file clocks TCK in a state that TMS low leaves. */
  ghost predicate Steady(mode: Mode, input: string, pos: nat) {
    mode == SvfMode ==> NoDrift(Compile(input, pos, START, INIT).chunks)
  }

  lemma RunModeTracks(mode: Mode, input: string, pos: nat, log: seq<Act>, hw: Tap, env: Env)
    requires Steady(mode, input, pos)
    ensures Tracks(RunMode(mode, input, pos, Player(INIT, log), env).st, hw)
  {
    hide PlayXsvf, Compile, PlayScan, PlaySvf, NoDrift;
    var st := Player(INIT, log);
    assert Tracks(st, hw);
    match mode
    case SvfMode => PlaySvfTracks(input, pos, st, hw, env);
    case XsvfMode => PlayXsvfTracks(input, pos, st, hw, env);
    case ScanMode => PlayScanTracks(st, hw, env);
  }

  lemma WindUpResets(r: Played, board: Board, hw: Tap, env: Env)
    requires Tracks(r.st, hw)
    ensures HwAfter(hw, WindUp(r, board, env).st.log) == Reset
  {
    WalkedTracks(r.st, RESET, hw);
    var st := Walked(r.st, RESET).0;
    SyncTracks(st, hw);
    CodeInjective(HwAfter(hw, WindUp(r, board, env).st.log), Reset);
  }

  /** Every run whose set-up succeeds leaves the target in Test-Logic-Reset, from
      any power-up state and with any host, whether it completes or fails. */
  lemma PlayEndsInReset(mode: Mode, input: string, pos: nat, log: seq<Act>, board: Board, hw: Tap, env: Env)
    requires board.setup >= 0 && Steady(mode, input, pos)
    ensures var r := Play(mode, input, pos, log, board, env);
            !r.undefined ==> HwAfter(hw, r.st.log) == Reset
  {
    hide RunMode, HwAfter, Steady, Tracks, WindUp;
    RunModeTracks(mode, input, pos, log, hw, env);
    var r := RunMode(mode, input, pos, Player(INIT, log), env);
    if !r.undefined {
      WindUpResets(r, board, hw, env);
    }
  }

  // ---------------------------------------------------------------------
  // A file that is not steady
  // ---------------------------------------------------------------------

  /** Upper-case words with single spaces between them. */
  predicate FlatAt(c: string, i: nat)
    requires i < |c|
  {
    && (c[i] == ' ' || '0' <= c[i] <= '9' || 'A' <= c[i] <= 'Z')
    && (c[i] == ' ' ==> i > 0 && c[i - 1] != ' ')
  }

  ghost predicate Flat(c: string) {
    forall i: nat :: i < |c| ==> FlatAt(c, i)
  }

  lemma FlatJoin(w: string, rest: string)
    requires Flat(w) && Flat(rest) && w != "" && w[|w| - 1] != ' '
    ensures Flat(w + " " + rest)
  {
    var c := w + " " + rest;
    forall i: nat | i < |c|
      ensures FlatAt(c, i)
    {
      if i < |w| {
        assert FlatAt(w, i);
      } else if i > |w| {
        assert FlatAt(rest, i - |w| - 1);
      }
    }
  }

  lemma {:induction false} FlatDepth(c: string, k: nat)
    requires k <= |c| && Flat(c)
    ensures Depth(c, k) == 0
    decreases k
  {
    if k > 0 {
      FlatDepth(c, k - 1);
      assert FlatAt(c, k - 1);
    }
  }

  lemma FlatNormal(c: string)
    requires Flat(c)
    ensures Normal(c)
  {
    forall k: nat | k < |c|
      ensures NormalAt(c, k)
    {
      FlatDepth(c, k);
      assert FlatAt(c, k);
    }
  }

  lemma DriftingNormal()
    ensures Normal(DRIFTING)
  {
    hide Normal;
    FlatJoin("ENDSTATE", "RESET");
    FlatJoin("TCK", TO_RESET);
    FlatJoin("1", TCK_TO_RESET);
    FlatJoin("RESET", ONE_TCK);
    FlatJoin("RUNTEST", RESET_ONE_TCK);
    FlatNormal(DRIFTING);
  }

  lemma DriftingScript()
    ensures Compile(DRIFTING + ";", 0, START, INIT) == Script(RuntestSteps(RESET_WAIT, INIT).chunks, Done)
  {
    hide WalkSteps, StepsTrack, Normal, Legal, Command;
    DriftingNormal();
    RelexFixpoint(DRIFTING, "");
    assert DRIFTING + ";" + "" == DRIFTING + ";";
    DriftingSteps(INIT);
    WalkStepsTrack(INIT, RESET);
    WalkStepsTrack(RESET, RESET);
    var n := |DRIFTING| + 1;
    assert Lex(DRIFTING + ";", n, "", 0) == AtEof("");
    CommandWf(START, INIT, DRIFTING);
    var e := Command(START, INIT, DRIFTING);
    assert Compile(DRIFTING + ";", n, e.config, e.tap) == Script([], Done);
    assert e.chunks + [] == e.chunks;
  }

  lemma {:induction false} UncheckedRun(st: Player, cs: seq<Chunk>, env: Env)
    requires forall i :: 0 <= i < |cs| ==> !cs[i].checked
    ensures RunChunks(st, cs, env) == (Player(LastTap(st.tap, cs), st.log + ActsOf(cs)), true)
    decreases |cs|
  {
    if cs == [] {
      assert st.log + [] == st.log;
    } else {
      UncheckedRun(Request(st, cs[0]), cs[1..], env);
      assert LastTap(cs[0].tap, cs[1..]) == LastTap(st.tap, cs);
      assert st.log + cs[0].acts + ActsOf(cs[1..]) == st.log + (cs[0].acts + ActsOf(cs[1..]));
    }
  }

  lemma DriftingActs() returns (cs: seq<Chunk>)
    ensures cs == RuntestSteps(RESET_WAIT, INIT).chunks && forall i :: 0 <= i < |cs| ==> !cs[i].checked
    ensures LastTap(INIT, cs) == RESET
    ensures ActsOf(cs) == Transitions(Repeat(true, 6)) + [Delay(0, false, 1)]
  {
    WalkStepsTrack(INIT, RESET);
    WalkStepsTrack(RESET, RESET);
    cs := RuntestSteps(RESET_WAIT, INIT).chunks;
    InitToReset();
    assert |cs| == 4 && cs[0].acts == Transitions(Repeat(true, 6)) && cs[1].acts == [] && cs[3].acts == [];
    assert cs[2].acts == [Delay(0, false, 1)];
    assert ActsOf(cs[3..]) == [] && ActsOf(cs[2..]) == cs[2].acts && ActsOf(cs[1..]) == cs[2].acts by {
      assert cs[3..][1..] == [] && cs[2..][1..] == cs[3..] && cs[1..][1..] == cs[2..];
      assert ActsOf([]) == [];
    }
  }

  lemma InitToReset()
    ensures Walk(INIT, RESET) == WalkResult(Repeat(true, 6), RESET, true)
  {
    var n: nat := Distance(INIT, RESET);
    assert n == 1;
    assert AfterTurns(INIT, RESET, n - 1) == ([], INIT);
    assert [] + Repeat(true, 6) == Repeat(true, 6);
  }

  /** The file "RUNTEST RESET 1 TCK ENDSTATE RESET;" leaves the target in
      Run-Test/Idle, with every host and from every state. */
  lemma DriftingPlay(board: Board, hw: Tap, env: Env)
    requires board.setup >= 0
    ensures var r := Play(SvfMode, DRIFTING + ";", 0, [], board, env);
            !r.undefined && HwAfter(hw, r.st.log) == Idle
  {
    hide Compile, Transitions, Repeat, TmsOf, ActsOf, RuntestSteps, RunChunks, LastTap;
    var cs := DriftingActs();
    DriftingScript();
    UncheckedRun(Player(INIT, []), cs, env);
    var acts := Transitions(Repeat(true, 6)) + [Delay(0, false, 1)];
    assert [] + acts == acts;
    DriftedHardware(hw, acts);
    var r := Play(SvfMode, DRIFTING + ";", 0, [], board, env);
    assert r.st.log == acts + [Sync] + Transitions([]) + [Sync];
    assert acts + [Sync] + Transitions([]) + [Sync] == acts + [Sync, Sync];
    assert TmsOf([Sync, Sync]) == [] by {
      QuietTms([Sync, Sync]);
    }
    TmsOfConcat(acts, [Sync, Sync]);
    assert TmsOf(acts) + [] == TmsOf(acts);
  }

  lemma DriftedHardware(hw: Tap, acts: seq<Act>)
    requires acts == Transitions(Repeat(true, 6)) + [Delay(0, false, 1)]
    ensures HwAfter(hw, acts) == Idle
  {
    TransitionsTms(Repeat(true, 6));
    TmsOfConcat(Transitions(Repeat(true, 6)), [Delay(0, false, 1)]);
    TmsOfOne(Delay(0, false, 1));
    assert Repeat(false, 1) == [false];
    RunConcat(hw, Repeat(true, 6), [false]);
    OnesReset(hw, 6);
    RunOne(Reset, false);
  }
}
