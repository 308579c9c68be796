/** The tracked TAP state of an XSVF run against the hardware: right after every
    walk, scan and wait, for any bytes and any host. */
module XsvfTracking {
  import opened Bits
  import opened HostApi
  import opened SvfBitdata
  import opened SvfTracking
  import opened TapController
  import opened TapWalk
  import opened XsvfModel

  lemma MoreActs(st: Player, tap: int, acts: seq<Act>, hw: Tap)
    requires Tracks(st, hw) && Legal(tap) && Agrees(tap, Run(HwAfter(hw, st.log), TmsOf(acts)))
    ensures Tracks(Player(tap, st.log + acts), hw)
  {
    TmsOfConcat(st.log, acts);
    RunConcat(hw, TmsOf(st.log), TmsOf(acts));
  }

  lemma WalkedTracks(st: Player, s: int, hw: Tap)
    requires Tracks(st, hw)
    ensures var (st', ok) := Walked(st, s);
            Tracks(st', hw) && (ok <==> Reachable(st.tap, s)) && (ok ==> st'.tap == s)
  {
    var w := Walk(st.tap, s);
    WalkAgrees(st.tap, s, HwAfter(hw, st.log));
    TransitionsTms(w.tms);
    MoreActs(st, w.tap, Transitions(w.tms), hw);
  }

  /** A wait keeps Run-Test/Idle, and any state if it clocks nothing. */
  lemma WaitTracks(st: Player, usecs: int, n: int, hw: Tap)
    requires Tracks(st, hw) && (n <= 0 || st.tap == IDLE)
    ensures Tracks(Waited(st, usecs, n), hw)
  {
    TmsOfOne(Delay(usecs, false, n));
    if n > 0 {
      assert HwAfter(hw, st.log) == Idle;
      ZerosKeep(Idle, n);
    }
    MoreActs(st, st.tap, [Delay(usecs, false, n)], hw);
  }

  /** Bits shifted from the Shift state: TMS is low but on the last one, which
      leaves the state exactly if tap_state was advanced. */
  lemma PulsesTmsIs(j: Shift, retry: bool)
    requires ShiftWf(j)
    ensures var tms := TmsOf(ShiftPulses(j, retry, j.len));
            |tms| == j.len && forall k :: 0 <= k < j.len ==> tms[k] == (k == j.len - 1 && j.state != j.estate)
  {
    PulsesTms(ShiftPulses(j, retry, j.len));
  }

  lemma ExitCode(shift: Tap)
    requires shift in {DrShift, IrShift}
    ensures Code(Next(shift, true)) == Code(shift) + 1
  {
  }

  lemma PulsesRun(j: Shift, retry: bool, here: Tap)
    requires ShiftWf(j) && here in {DrShift, IrShift} && j.state == Code(here)
    ensures Code(Run(here, TmsOf(ShiftPulses(j, retry, j.len)))) == ShiftTap(j)
  {
    PulsesTmsIs(j, retry);
    var tms := TmsOf(ShiftPulses(j, retry, j.len));
    ShiftRun(here, tms);
    ExitCode(here);
  }

  lemma PulsedTracks(j: Shift, retry: bool, st: Player, hw: Tap)
    requires ShiftWf(j) && Tracks(st, hw) && st.tap == j.state
    ensures Tracks(Pulsed(j, retry, st), hw)
  {
    PulsesRun(j, retry, HwAfter(hw, st.log));
    MoreActs(st, ShiftTap(j), ShiftPulses(j, retry, j.len), hw);
  }

  lemma LeaveTracks(j: Shift, st: Player, hw: Tap)
    requires Tracks(st, hw)
    ensures Tracks(Leave(j, st).0, hw)
  {
    if j.delay == 0 {
      WalkedTracks(st, j.estate, hw);
    } else {
      WalkedTracks(st, IDLE, hw);
      var (st', ok) := Walked(st, IDLE);
      if ok {
        WaitTracks(st', j.delay, j.delay, hw);
      }
    }
  }

  lemma AttemptTracks(j: Shift, retry: bool, st: Player, hw: Tap, env: Env)
    requires ShiftWf(j) && Tracks(st, hw)
    ensures Tracks(Attempt(j, retry, st, env).0, hw)
  {
    WalkedTracks(st, j.state, hw);
    var (st1, ok) := Walked(st, j.state);
    if ok {
      PulsedTracks(j, retry, st1, hw);
      LeaveTracks(j, Pulsed(j, retry, st1), hw);
    }
  }

  lemma {:induction false} AttemptsTrack(j: Shift, retry: bool, retries: nat, st: Player, hw: Tap, env: Env)
    requires ShiftWf(j) && Tracks(st, hw)
    ensures Tracks(Attempts(j, retry, retries, st, env).0, hw)
    decreases retries
  {
    AttemptTracks(j, retry, st, hw, env);
    if retries > 0 {
      AttemptsTrack(j, retry, retries - 1, Attempt(j, retry, st, env).0, hw, env);
    }
  }

  lemma SyncTracks(st: Player, hw: Tap)
    requires Tracks(st, hw)
    ensures Tracks(Player(st.tap, st.log + [Sync]), hw)
  {
    TmsOfOne(Sync);
    MoreActs(st, st.tap, [Sync], hw);
  }

  /** shift_data, however many attempts it takes. */
  lemma ShiftDataTracks(j: Shift, retries: nat, st: Player, hw: Tap, env: Env)
    requires ShiftWf(j) && Tracks(st, hw)
    ensures Tracks(ShiftData(j, retries, st, env).0, hw)
  {
    if retries > 0 {
      SyncTracks(st, hw);
      AttemptsTrack(j, true, retries, Player(st.tap, st.log + [Sync]), hw, env);
    } else {
      AttemptsTrack(j, false, 0, st, hw, env);
    }
  }

  // ---------------------------------------------------------------------
  // Whatever walks, waits and scans keep, the interpreter keeps
  // ---------------------------------------------------------------------

  ghost predicate Kept(good: iset<Player>, env: Env) {
    && (forall st, s :: st in good ==> Walked(st, s).0 in good)
    && (forall st, usecs, n :: st in good && (n <= 0 || st.tap == IDLE) ==> Waited(st, usecs, n) in good)
    && (forall j, retries, st :: ShiftWf(j) && st in good ==> ShiftData(j, retries, st, env).0 in good)
    && (forall st, s :: st in good && Walked(st, s).1 ==> Walked(st, s).0.tap == s)
  }

  ghost predicate ScanKeeps(scan: VectorScan, good: iset<Player>) {
    forall v, st :: st in good ==> scan(v, st).0 in good
  }

  lemma {:induction false} IncKeeps(input: string, x: Xs, num: nat, st: Player, good: iset<Player>, scan: VectorScan)
    requires XsWf(x) && st in good && ScanKeeps(scan, good)
    ensures IncLoop(input, x, num, st, scan).end.st in good
    decreases num
  {
    var (st', ok) := scan(x.tdi, st);
    var v := NextVector(input, x);
    if ok && num > 0 && v.Scattered? {
      IncKeeps(input, x.(tdi := v.tdi, pos := v.pos), num - 1, st', good, scan);
    }
  }

  lemma IncCommandKeeps(input: string, x: Xs, st: Player, good: iset<Player>, env: Env)
    requires XsWf(x) && st in good && Kept(good, env)
    ensures IncCommand(input, x, st, env).st in good
  {
    var n := Bits2Bytes(x.drSize);
    if Has(input, x, n + 1) {
      var y := x.(tdi := Slice(input, x.pos, n), pos := x.pos + n + 1);
      assert ScanKeeps(IncScan(y, env), good);
      IncKeeps(input, y, ByteAt(input, x.pos + n), st, good, IncScan(y, env));
    }
  }

  lemma DrCommandKeeps(input: string, x: Xs, st: Player, good: iset<Player>, env: Env)
    requires XsWf(x) && st in good && Kept(good, env)
    ensures DrCommand(input, x, st, env).st in good
  {
  }

  lemma IrCommandKeeps(input: string, x: Xs, width: nat, st: Player, good: iset<Player>, env: Env)
    requires XsWf(x) && 1 <= width <= 2 && st in good && Kept(good, env)
    ensures IrCommand(input, x, width, st, env).st in good
  {
  }

  lemma WalkCommandsKeep(input: string, x: Xs, last: byte, st: Player, good: iset<Player>, env: Env)
    requires XsWf(x) && st in good && Kept(good, env)
    ensures XStateCommand(input, x, last, st).st in good && WaitCommand(input, x, st).st in good
  {
  }

  lemma ExecuteKeeps(input: string, x: Xs, last: byte, st: Player, good: iset<Player>, env: Env)
    requires XsWf(x) && st in good && Kept(good, env)
    ensures Execute(input, x, last, st, env).st in good
  {
    hide XStateCommand, IncCommand, XsWf, Kept, IrCommand, DrCommand, WaitCommand, IsDrScan;
    if x.cmd in {XSIR, XSIR2} {
      IrCommandKeeps(input, x, if x.cmd == XSIR then 1 else 2, st, good, env);
    } else if x.cmd == XSDRINC {
      IncCommandKeeps(input, x, st, good, env);
    } else if IsDrScan(x.cmd) {
      DrCommandKeeps(input, x, st, good, env);
    } else {
      WalkCommandsKeep(input, x, last, st, good, env);
    }
  }

  ghost predicate CommandKeeps(run: CommandFn, good: iset<Player>) {
    forall x, last, st :: XsWf(x) && st in good ==> run(x, last, st).st in good
  }

  lemma {:induction false} LoopKeeps(input: string, x: Xs, st: Player, good: iset<Player>, run: CommandFn)
    requires XsWf(x) && st in good && Advances(run) && CommandKeeps(run, good)
    ensures Loop(input, x, st, run).st in good
    decreases if x.pos < |input| then |input| - x.pos else 0
  {
    if x.pos < |input| {
      var t := run(x.(cmd := ByteAt(input, x.pos), pos := x.pos + 1), x.cmd, st);
      if t.flow == Go {
        LoopKeeps(input, t.x, t.st, good, run);
      }
    }
  }

  lemma InterpreterKeeps(input: string, good: iset<Player>, env: Env)
    requires Kept(good, env)
    ensures CommandKeeps(Interpreter(input, env), good)
  {
    forall x, last, st | XsWf(x) && st in good
      ensures Interpreter(input, env)(x, last, st).st in good
    {
      ExecuteKeeps(input, x, last, st, good, env);
    }
  }

  ghost function InTrack(hw: Tap): iset<Player> {
    iset st: Player | Tracks(st, hw)
  }

  lemma TracksIsKept(hw: Tap, env: Env)
    ensures Kept(InTrack(hw), env)
  {
    var good := InTrack(hw);
    forall st, s | st in good
      ensures Walked(st, s).0 in good && (Walked(st, s).1 ==> Walked(st, s).0.tap == s)
    {
      WalkedTracks(st, s, hw);
    }
    forall st, usecs, n | st in good && (n <= 0 || st.tap == IDLE)
      ensures Waited(st, usecs, n) in good
    {
      WaitTracks(st, usecs, n, hw);
    }
    forall j, retries, st | ShiftWf(j) && st in good
      ensures ShiftData(j, retries, st, env).0 in good
    {
      ShiftDataTracks(j, retries, st, hw, env);
    }
  }

  /** A whole XSVF run, from an unknown power-up state, for any bytes and any
      host. */
  lemma PlayXsvfTracks(input: string, pos: nat, st: Player, hw: Tap, env: Env)
    requires Tracks(st, hw)
    ensures Tracks(PlayXsvf(input, pos, st, env).st, hw)
  {
    hide Interpreter, Tracks, Kept, Loop, Advances, CommandKeeps;
    TracksIsKept(hw, env);
    InterpreterKeeps(input, InTrack(hw), env);
    InterpreterAdvances(input, env);
    LoopKeeps(input, XSTART.(pos := pos), st, InTrack(hw), Interpreter(input, env));
    SyncTracks(Loop(input, XSTART.(pos := pos), st, Interpreter(input, env)).st, hw);
  }
}
