/** The tracked TAP state of an SVF run against the hardware. */
module SvfTracking {
  import opened HostApi
  import opened SvfBitdata
  import opened SvfLexer
  import opened SvfScript
  import opened SvfText
  import opened TapController
  import opened TapWalk

  predicate Legal(tap: int) {
    INIT <= tap <= IRUPDATE
  }

  /** A RUNTEST that clocks TCK in a state that TMS low leaves. */
  predicate Drifts(c: Chunk) {
    && |c.acts| == 1 && c.acts[0].Delay? && c.acts[0].numTck > 0
    && c.tap !in {IDLE, DRSHIFT, DRPAUSE, IRSHIFT, IRPAUSE}
  }

  function HwAfter(hw: Tap, acts: seq<Act>): Tap {
    Run(hw, TmsOf(acts))
  }

  /** A wait is a chunk of its own, with TMS low; and TMS is low in the first
      cycle, if any, of a chunk that starts in Test-Logic-Reset. */
  predicate Shaped(tap: int, c: Chunk) {
    && (forall k :: 0 <= k < |c.acts| && c.acts[k].Delay? ==> |c.acts| == 1 && !c.acts[k].tms && c.tap == tap)
    && (tap == RESET && TmsOf(c.acts) != [] ==> !TmsOf(c.acts)[0])
  }

  /** Tracking survives the chunk exactly when the chunk does not drift. */
  ghost predicate ChunkTracks(tap: int, c: Chunk) {
    && Legal(c.tap) && Shaped(tap, c)
    && forall hw: Tap :: Agrees(tap, hw) ==> (Agrees(c.tap, HwAfter(hw, c.acts)) <==> !Drifts(c))
  }

  ghost predicate AllTrack(tap: int, cs: seq<Chunk>)
    decreases |cs|
  {
    cs == [] || (ChunkTracks(tap, cs[0]) && AllTrack(cs[0].tap, cs[1..]))
  }

  function LastTap(tap: int, cs: seq<Chunk>): int {
    if cs == [] then tap else cs[|cs| - 1].tap
  }

  lemma {:induction false} AllTrackConcat(tap: int, a: seq<Chunk>, b: seq<Chunk>)
    requires AllTrack(tap, a) && AllTrack(LastTap(tap, a), b)
    ensures AllTrack(tap, a + b)
    ensures LastTap(tap, a + b) == LastTap(LastTap(tap, a), b)
    decreases |a|
  {
    if a == [] {
      assert a + b == b;
    } else {
      assert (a + b)[1..] == a[1..] + b;
      assert LastTap(a[0].tap, a[1..]) == LastTap(tap, a);
      AllTrackConcat(a[0].tap, a[1..], b);
    }
  }

  lemma AllTrackOne(tap: int, c: Chunk)
    requires ChunkTracks(tap, c)
    ensures AllTrack(tap, [c])
  {
    assert [c][1..] == [];
    assert AllTrack(c.tap, []);
  }

  ghost predicate StepsTrack(tap: int, s: Steps) {
    AllTrack(tap, s.chunks) && LastTap(tap, s.chunks) == s.tap && Legal(s.tap)
  }

  // ---------------------------------------------------------------------
  // Each kind of chunk
  // ---------------------------------------------------------------------

  lemma WalkStepsTrack(tap: int, s: int)
    requires Legal(tap)
    ensures StepsTrack(tap, WalkSteps(tap, s))
    ensures WalkSteps(tap, s).ok <==> Reachable(tap, s)
    ensures WalkSteps(tap, s).ok ==> WalkSteps(tap, s).tap == s
  {
    var w := Walk(tap, s);
    var c := WalkSteps(tap, s).chunks[0];
    forall hw: Tap | Agrees(tap, hw)
      ensures Legal(c.tap) && Agrees(c.tap, HwAfter(hw, c.acts))
    {
      WalkAgrees(tap, s, hw);
      TransitionsTms(w.tms);
    }
    SomeHardware(tap);
    var hw: Tap :| Agrees(tap, hw);
    WalkAgrees(tap, s, hw);
    WalkShaped(tap, s, c);
    AllTrackOne(tap, c);
  }

  lemma WalkShaped(tap: int, s: int, c: Chunk)
    requires c == WalkSteps(tap, s).chunks[0]
    ensures Shaped(tap, c)
  {
    var tms := Walk(tap, s).tms;
    TransitionsTms(tms);
    if tap == RESET && tms != [] {
      WalkFromReset(tap, s);
    }
  }

  lemma SomeHardware(tap: int)
    requires Legal(tap)
    ensures exists hw: Tap :: Agrees(tap, hw)
  {
    if tap != INIT {
      assert tap == Code(Decode(tap));
      assert Agrees(tap, Decode(tap));
    } else {
      assert Agrees(tap, Reset);
    }
  }

  function Decode(tap: int): (s: Tap)
    requires RESET <= tap <= IRUPDATE
    ensures Code(s) == tap
  {
    if tap == RESET then Reset else if tap == IDLE then Idle
    else if tap == DRSELECT then DrSelect else if tap == DRCAPTURE then DrCapture
    else if tap == DRSHIFT then DrShift else if tap == DREXIT1 then DrExit1
    else if tap == DRPAUSE then DrPause else if tap == DREXIT2 then DrExit2
    else if tap == DRUPDATE then DrUpdate else if tap == IRSELECT then IrSelect
    else if tap == IRCAPTURE then IrCapture else if tap == IRSHIFT then IrShift
    else if tap == IREXIT1 then IrExit1 else if tap == IRPAUSE then IrPause
    else if tap == IREXIT2 then IrExit2 else IrUpdate
  }

  lemma CodeInjective(a: Tap, b: Tap)
    requires Code(a) == Code(b)
    ensures a == b
  {
  }

  lemma QuietTms(acts: seq<Act>)
    requires forall k :: 0 <= k < |acts| ==> ActTms(acts[k]) == []
    ensures TmsOf(acts) == []
  {
    if acts != [] {
      QuietTms(acts[..|acts| - 1]);
    }
  }

  /** A chunk that clocks nothing and keeps the tracked state. */
  lemma QuietTracks(tap: int, c: Chunk)
    requires Legal(tap) && c.tap == tap
    requires forall k :: 0 <= k < |c.acts| ==> ActTms(c.acts[k]) == [] && !c.acts[k].Delay?
    ensures ChunkTracks(tap, c)
  {
    QuietTms(c.acts);
  }

  lemma IdleCycles(tap: int, n: nat, hw: Tap)
    requires RESET <= tap <= IRUPDATE && Agrees(tap, hw) && n > 0
    ensures Agrees(tap, Run(hw, Repeat(false, n))) <==> tap in {IDLE, DRSHIFT, DRPAUSE, IRSHIFT, IRPAUSE}
  {
    ZerosKeep(hw, n);
    var now := Run(hw, Repeat(false, n));
    if Code(now) == Code(hw) {
      CodeInjective(now, hw);
    }
  }

  lemma DelayTracks(tap: int, usecs: int, n: nat)
    requires RESET <= tap <= IRUPDATE
    ensures ChunkTracks(tap, Chunk([Delay(usecs, false, n)], false, tap))
  {
    var c := Chunk([Delay(usecs, false, n)], false, tap);
    TmsOfOne(c.acts[0]);
    forall hw: Tap | Agrees(tap, hw)
      ensures Agrees(c.tap, HwAfter(hw, c.acts)) <==> !Drifts(c)
    {
      if n > 0 {
        IdleCycles(tap, n, hw);
      }
    }
  }

  lemma PlayTracks(bd: Bitdata, tap: int, estate: int)
    requires Wf(bd) && Legal(tap)
    requires bd.len > 0 ==> tap in {DRSHIFT, IRSHIFT}
    ensures ChunkTracks(tap, PlayChunk(bd, tap, estate))
  {
    var c := PlayChunk(bd, tap, estate);
    if bd.len == 0 {
      QuietTracks(tap, c);
    } else {
      assert c.acts[0] == PulseAt(bd, 0, tap != estate);
      forall hw: Tap | Agrees(tap, hw)
        ensures Agrees(c.tap, HwAfter(hw, c.acts))
      {
        assert hw in {DrShift, IrShift};
        PlayAgrees(bd, hw, estate);
      }
    }
  }

  lemma ScanTracks(hdr: Bitdata, data: Bitdata, tdr: Bitdata, tap: int, shift: int, estate: int)
    requires Wf(hdr) && Wf(data) && Wf(tdr) && Legal(tap) && shift in {DRSHIFT, IRSHIFT}
    ensures StepsTrack(tap, Scan(hdr, data, tdr, tap, shift, estate))
  {
    hide WalkSteps, AllTrack, ChunkTracks;
    WalkStepsTrack(tap, shift);
    var w := WalkSteps(tap, shift);
    var cs := ScanChunks(hdr, data, tdr, shift, shift, estate);
    PlayTracks(hdr, shift, if data.len + tdr.len > 0 then shift else estate);
    PlayTracks(data, cs[0].tap, if tdr.len > 0 then shift else estate);
    PlayTracks(tdr, cs[1].tap, estate);
    AllTrackOne(shift, cs[0]);
    AllTrackOne(cs[0].tap, cs[1]);
    AllTrackOne(cs[1].tap, cs[2]);
    AllTrackConcat(shift, [cs[0]], [cs[1]]);
    AllTrackConcat(shift, [cs[0]] + [cs[1]], [cs[2]]);
    assert cs == [cs[0]] + [cs[1]] + [cs[2]];
    AllTrackConcat(tap, w.chunks, cs);
    WalkStepsTrack(cs[2].tap, estate);
    AllTrackConcat(tap, w.chunks + cs, WalkSteps(cs[2].tap, estate).chunks);
  }

  lemma RuntestTracks(r: Runtest, tap: int)
    requires Legal(tap) && RESET <= r.run <= IRUPDATE
    ensures StepsTrack(tap, RuntestSteps(r, tap))
  {
    WalkStepsTrack(tap, r.run);
    var w := WalkSteps(tap, r.run);
    if w.ok {
      var sck := Chunk(seq(AtLeastZero(r.sck), _ => Sck), false, w.tap);
      var delay := Delay(AtLeastZero(r.minTime), false, AtLeastZero(r.tck));
      var wait := if r.minTime >= 0 || r.tck >= 0 then [delay] else [];
      var c := Chunk(wait, false, w.tap);
      QuietTracks(w.tap, sck);
      if wait == [] {
        QuietTracks(w.tap, c);
      } else {
        DelayTracks(w.tap, delay.usecs, delay.numTck);
      }
      AllTrackOne(w.tap, sck);
      AllTrackOne(w.tap, c);
      AllTrackConcat(tap, w.chunks, [sck]);
      AllTrackConcat(tap, w.chunks + [sck], [c]);
      assert w.chunks + [sck] + [c] == w.chunks + [sck, c];
      WalkStepsTrack(w.tap, r.endRun);
      AllTrackConcat(tap, w.chunks + [sck, c], WalkSteps(w.tap, r.endRun).chunks);
    }
  }

  /** Which RUNTEST commands drift. */
  lemma RuntestDrift(r: Runtest, tap: int)
    requires Legal(tap) && RESET <= r.run <= IRUPDATE
    ensures NoDrift(RuntestSteps(r, tap).chunks) <==>
              !(r.tck > 0 && Reachable(tap, r.run) && r.run !in {IDLE, DRSHIFT, DRPAUSE, IRSHIFT, IRPAUSE})
  {
    hide StepsTrack, Legal, Reachable;
    WalkStepsTrack(tap, r.run);
    var w, cs := WalkSteps(tap, r.run), RuntestSteps(r, tap).chunks;
    assert !Drifts(w.chunks[0]) by {
      assert forall k :: 0 <= k < |w.chunks[0].acts| ==> w.chunks[0].acts[k].Pulse?;
    }
    if w.ok {
      var e := WalkSteps(w.tap, r.endRun).chunks[0];
      assert forall k :: 0 <= k < |e.acts| ==> e.acts[k].Pulse?;
      assert cs[0] == w.chunks[0] && cs[3] == e && |cs| == 4;
      assert forall k :: 0 <= k < |cs[1].acts| ==> cs[1].acts[k] == Sck;
      assert r.tck > 0 ==> cs[2].acts == [Delay(AtLeastZero(r.minTime), false, r.tck)];
      assert cs[2].tap == r.run;
      assert !Drifts(cs[0]) && !Drifts(cs[1]) && !Drifts(cs[3]);
      assert Drifts(cs[2]) <==> r.tck > 0 && r.run !in {IDLE, DRSHIFT, DRPAUSE, IRSHIFT, IRPAUSE};
    }
  }

  lemma {:induction false} StateTracks(p: string, tap: int)
    requires Legal(tap)
    ensures StepsTrack(tap, StateSteps(p, tap).0)
    decreases |p|
  {
    if p != "" && TokenState(p) >= 0 {
      WalkStepsTrack(tap, TokenState(p));
      var w := WalkSteps(tap, TokenState(p));
      if w.ok {
        StateTracks(SkipToken(p), w.tap);
        AllTrackConcat(tap, w.chunks, StateSteps(SkipToken(p), w.tap).0.chunks);
      }
    }
  }

  lemma OneQuiet(tap: int, a: Act, checked: bool)
    requires Legal(tap) && ActTms(a) == [] && !a.Delay?
    ensures StepsTrack(tap, Steps([Chunk([a], checked, tap)], tap, true))
  {
    QuietTracks(tap, Chunk([a], checked, tap));
    AllTrackOne(tap, Chunk([a], checked, tap));
  }

  lemma CommandTracks(config: Config, tap: int, c: string)
    requires ConfigWf(config) && Legal(tap)
    ensures var e := Command(config, tap, c);
            AllTrack(tap, e.chunks) && LastTap(tap, e.chunks) == e.tap && Legal(e.tap)
  {
    hide ParseRuntest, VectorCommand, StepsTrack, Token, StateSteps, RuntestSteps, TrstValue, SkipToken,
      StartsWithDigit, Legal;
    var name, p := Token(c), SkipToken(c);
    if name == "FREQUENCY" {
      if StartsWithDigit(p) {
        var a := FrequencyCommand(config, tap, p).chunks[0].acts[0];
        OneQuiet(tap, a, true);
      }
    } else if name in VECTOR_COMMANDS {
      VectorTracks(config, tap, name, p);
    } else if name == "RUNTEST" {
      var r := Runtest(-1, -1, -1, config.run, config.endRun);
      ParseRuntestWf(p, r);
      if ParseRuntest(p, r).Some? {
        RuntestTracks(ParseRuntest(p, r).value, tap);
      }
    } else if name == "STATE" {
      StateTracks(p, tap);
    } else if name == "TRST" && TrstValue(p).Some? {
      OneQuiet(tap, Trst(TrstValue(p).value), false);
    }
  }

  lemma VectorTracks(config: Config, tap: int, name: string, p: string)
    requires ConfigWf(config) && Legal(tap)
    ensures var e := VectorCommand(config, tap, name, p);
            AllTrack(tap, e.chunks) && LastTap(tap, e.chunks) == e.tap && Legal(e.tap)
  {
    hide VectorConfig, Scan, Wf;
    VectorConfigWf(config, name, p);
    var c := VectorConfig(config, name, p).0;
    ScanTracks(c.hdr, c.sdr, c.tdr, tap, DRSHIFT, c.endDr);
    ScanTracks(c.hir, c.sir, c.tir, tap, IRSHIFT, c.endIr);
  }

  lemma {:induction false} CompileTracks(input: string, pos: nat, config: Config, tap: int)
    requires ConfigWf(config) && Legal(tap)
    ensures AllTrack(tap, Compile(input, pos, config, tap).chunks)
    decreases |input| - pos
  {
    var r := Lex(input, pos, "", 0);
    if r.LexCommand? {
      LexProgress(input, pos, "", 0);
      CommandWf(config, tap, r.command);
      CommandTracks(config, tap, r.command);
      var e := Command(config, tap, r.command);
      if e.outcome == Done {
        CompileTracks(input, r.next, e.config, e.tap);
        AllTrackConcat(tap, e.chunks, Compile(input, r.next, e.config, e.tap).chunks);
      }
    }
  }

  // ---------------------------------------------------------------------
  // Whole runs
  // ---------------------------------------------------------------------

  ghost predicate NoDrift(cs: seq<Chunk>) {
    forall i :: 0 <= i < |cs| ==> !Drifts(cs[i])
  }

  /** The tracked state is right after every chunk. */
  predicate InStep(hw: Tap, cs: seq<Chunk>)
    decreases |cs|
  {
    cs == [] || (var hw' := HwAfter(hw, cs[0].acts); Agrees(cs[0].tap, hw') && InStep(hw', cs[1..]))
  }

  lemma {:induction false} InStepIffNoDrift(tap: int, hw: Tap, cs: seq<Chunk>)
    requires AllTrack(tap, cs) && Agrees(tap, hw)
    ensures InStep(hw, cs) <==> NoDrift(cs)
    decreases |cs|
  {
    if cs != [] {
      if !Drifts(cs[0]) {
        InStepIffNoDrift(cs[0].tap, HwAfter(hw, cs[0].acts), cs[1..]);
        assert NoDrift(cs) ==> NoDrift(cs[1..]);
        forall i | 0 <= i < |cs|
          ensures NoDrift(cs[1..]) ==> !Drifts(cs[i])
        {
          assert i > 0 ==> cs[i] == cs[1..][i - 1];
        }
      }
    }
  }

  /** From an unknown power-up state, over any input: the tracked state is the
      controller's after every walk, scan and wait of the file exactly when no
      RUNTEST clocks TCK in a state that TMS low leaves. */
  lemma SvfTrackingExact(input: string, hw: Tap)
    ensures var cs := Compile(input, 0, START, INIT).chunks; InStep(hw, cs) <==> NoDrift(cs)
  {
    CompileTracks(input, 0, START, INIT);
    InStepIffNoDrift(INIT, hw, Compile(input, 0, START, INIT).chunks);
  }

  /** The tracked state is the controller's after everything requested so far. */
  predicate Tracks(st: Player, hw: Tap) {
    Legal(st.tap) && Agrees(st.tap, HwAfter(hw, st.log))
  }

  /** The same for what any host gets to see: a run stops at the end of a chunk. */
  lemma {:induction false} RunChunksTrack(st: Player, hw: Tap, cs: seq<Chunk>, env: Env)
    requires AllTrack(st.tap, cs) && NoDrift(cs) && Tracks(st, hw)
    ensures Tracks(RunChunks(st, cs, env).0, hw)
    decreases |cs|
  {
    if cs != [] {
      assert !Drifts(cs[0]);
      TmsOfConcat(st.log, cs[0].acts);
      RunConcat(hw, TmsOf(st.log), TmsOf(cs[0].acts));
      assert Agrees(cs[0].tap, HwAfter(HwAfter(hw, st.log), cs[0].acts));
      if !Stops(st, cs[0], env) {
        RunChunksTrack(Request(st, cs[0]), hw, cs[1..], env);
      }
    }
  }

  lemma PlaySvfTracks(input: string, pos: nat, st: Player, hw: Tap, env: Env)
    requires Tracks(st, hw) && NoDrift(Compile(input, pos, START, st.tap).chunks)
    ensures Tracks(PlaySvf(input, pos, st, env).st, hw)
  {
    var s := Compile(input, pos, START, st.tap);
    CompileTracks(input, pos, START, st.tap);
    RunChunksTrack(st, hw, s.chunks, env);
    var st' := RunChunks(st, s.chunks, env).0;
    TmsOfConcat(st'.log, [Sync]);
    TmsOfOne(Sync);
    assert TmsOf(st'.log) + [] == TmsOf(st'.log);
  }

  // ---------------------------------------------------------------------
  // A command on which tracking fails
  // ---------------------------------------------------------------------

  const TO_RESET := "ENDSTATE" + " " + "RESET"
  const TCK_TO_RESET := "TCK" + " " + TO_RESET
  const ONE_TCK := "1" + " " + TCK_TO_RESET
  const RESET_ONE_TCK := "RESET" + " " + ONE_TCK
  const DRIFTING := "RUNTEST" + " " + RESET_ONE_TCK

  lemma EndstateArgument(r: Runtest)
    ensures RuntestArgument(TO_RESET, r) == Some((r.(endRun := RESET), ""))
  {
    hide SkipToken, Token;
    TokenSplit("ENDSTATE", "RESET");
    TokenSplit("RESET", "");
    assert After1("MAXIMUM", TO_RESET) == TO_RESET && After1("ENDSTATE", TO_RESET) == "RESET";
    assert TokenState("RESET") == RESET;
  }

  lemma ParseEndstate(r: Runtest)
    ensures ParseRuntest(TO_RESET, r) == Some(r.(endRun := RESET))
  {
    EndstateArgument(r);
    assert ParseRuntest("", r.(endRun := RESET)) == Some(r.(endRun := RESET));
  }

  lemma ReadOne()
    ensures StartsWithDigit(ONE_TCK) && ReadTime(ONE_TCK) == (1, 1000000, " " + TCK_TO_RESET)
    ensures SkipSpaces(" " + TCK_TO_RESET) == TCK_TO_RESET
  {
    var c, t := ONE_TCK, " " + TCK_TO_RESET;
    assert c[1..] == t && t[1..] == TCK_TO_RESET;
    assert DigitCount(t) == 0 && DigitCount(c) == 1;
    assert Decimal(t, 1) == 1 && Decimal(c, 0) == 1;
  }

  lemma OneTckArgument(r: Runtest)
    ensures RuntestArgument(ONE_TCK, r) == Some((r.(tck := 1), TO_RESET))
  {
    hide ReadTime, SkipToken, Token, SkipSpaces, StartsWithDigit;
    ReadOne();
    TokenSplit("1", TCK_TO_RESET);
    TokenSplit("TCK", TO_RESET);
    assert After1("MAXIMUM", ONE_TCK) == ONE_TCK && After1("ENDSTATE", ONE_TCK) == ONE_TCK;
    assert TokenState(ONE_TCK) < 0;
  }

  lemma ParseOneTck(r: Runtest)
    ensures ParseRuntest(ONE_TCK, r) == Some(r.(tck := 1, endRun := RESET))
  {
    OneTckArgument(r);
    ParseEndstate(r.(tck := 1));
  }

  lemma ResetArgument(r: Runtest)
    ensures RuntestArgument(RESET_ONE_TCK, r) == Some((r.(run := RESET), ONE_TCK))
  {
    TokenSplit("RESET", ONE_TCK);
    assert After1("MAXIMUM", RESET_ONE_TCK) == RESET_ONE_TCK && After1("ENDSTATE", RESET_ONE_TCK) == RESET_ONE_TCK;
    assert TokenState(RESET_ONE_TCK) == RESET;
  }

  lemma ParseResetOneTck(r: Runtest)
    ensures ParseRuntest(RESET_ONE_TCK, r) == Some(r.(run := RESET, tck := 1, endRun := RESET))
  {
    ResetArgument(r);
    ParseOneTck(r.(run := RESET));
  }

  const RESET_WAIT := Runtest(1, -1, -1, RESET, RESET)

  lemma RunsRuntest(config: Config, tap: int, c: string, p: string)
    requires ConfigWf(config) && Token(c) == "RUNTEST" && SkipToken(c) == p
    ensures Command(config, tap, c) == RuntestCommand(config, tap, p)
  {
    var name := "RUNTEST";
    assert name[0] == 'R';
    assert name !in VECTOR_COMMANDS && name != "ENDIR" && name != "ENDDR" && name != "FREQUENCY";
    assert name != "PIO" && name != "PIOMAP";
  }

  lemma DriftingSteps(tap: int)
    ensures Command(START, tap, DRIFTING).chunks == RuntestSteps(RESET_WAIT, tap).chunks
    ensures RuntestSteps(RESET_WAIT, tap).ok ==> Command(START, tap, DRIFTING).outcome == Done
  {
    TokenSplit("RUNTEST", RESET_ONE_TCK);
    ParseResetOneTck(Runtest(-1, -1, -1, IDLE, IDLE));
    RunsRuntest(START, tap, DRIFTING, RESET_ONE_TCK);
  }

  /** On this command tracking fails: its wait clocks the controller out of
      Test-Logic-Reset. */
  lemma DriftingCommand(tap: int)
    requires Legal(tap)
    ensures !NoDrift(Command(START, tap, DRIFTING).chunks)
  {
    DriftingSteps(tap);
    RuntestDrift(RESET_WAIT, tap);
  }
}
