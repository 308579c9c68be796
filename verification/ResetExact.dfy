/** When exactly `libxsvf_play` leaves the target in Test-Logic-Reset after an
    SVF file: for every file, and in simpler terms for one whose RUNTEST commands
    wait in states that SVF calls stable. */
module ResetExact {
  import opened HostApi
  import opened Playing
  import opened SvfScript
  import opened SvfTracking
  import opened TapController
  import opened TapWalk

  // ---------------------------------------------------------------------
  // The last walk
  // ---------------------------------------------------------------------

  /** How many cycles with TMS high reach Test-Logic-Reset. */
  function Away(hw: Tap): (n: nat)
    ensures n <= 5
  {
    Distance(Code(hw), RESET)
  }

  /** How many of them the walk from a recorded state to RESET clocks. */
  function WalkLength(tap: int): nat {
    if tap == INIT then 6 else Distance(tap, RESET)
  }

  lemma TurnToReset(t: int)
    requires RESET < t <= IRUPDATE
    ensures Turn(t, RESET).0 == [true]
  {
  }

  lemma ResetIsReachable(t: int)
    requires INIT <= t <= IRUPDATE
    ensures Reachable(t, RESET)
  {
  }

  lemma ResetIsHome(hw: Tap)
    ensures Away(hw) == 0 <==> hw == Reset
    ensures Next(Reset, true) == Reset && Code(Reset) == RESET
    ensures hw != Reset ==> Code(hw) > RESET
  {
    hide Distance, Reachable;
    ResetIsReachable(Code(hw));
    DistanceZero(Code(hw), RESET);
  }

  lemma OneNearer(hw: Tap)
    ensures Away(Next(hw, true)) == if Away(hw) > 0 then Away(hw) - 1 else 0
    ensures Away(hw) == 0 <==> hw == Reset
  {
    hide Code, Distance, Next, Turn, Reachable, Run;
    ResetIsHome(hw);
    if hw != Reset {
      TurnToReset(Code(hw));
      TurnAgrees(Code(hw), RESET, hw);
      RunOne(hw, true);
      ResetIsReachable(Code(hw));
      TurnApproaches(Code(hw), RESET);
    }
  }

  lemma {:induction false} OnesNearer(hw: Tap, n: nat)
    ensures Away(Run(hw, Repeat(true, n))) == if Away(hw) > n then Away(hw) - n else 0
    decreases n
  {
    if n > 0 {
      OneMore(hw, true, n, n - 1);
      OnesNearer(hw, n - 1);
      OneNearer(Run(hw, Repeat(true, n - 1)));
    } else {
      assert Repeat(true, n) == [];
    }
  }

  lemma OneTurnMore(t: int, n: nat, m: nat)
    requires INIT <= t <= IRUPDATE && n == m + 1
    ensures AfterTurns(t, RESET, n).0 == AfterTurns(t, RESET, m).0 + Turn(AfterTurns(t, RESET, m).1, RESET).0
  {
    hide Turn;
  }

  lemma OneMoreHigh(n: nat, m: nat)
    requires n == m + 1
    ensures Repeat(true, m) + [true] == Repeat(true, n)
  {
  }

  lemma {:induction false} TurnsToReset(t: int, n: nat)
    requires RESET <= t <= IRUPDATE && n <= Distance(t, RESET)
    ensures AfterTurns(t, RESET, n).0 == Repeat(true, n)
    decreases n
  {
    hide Distance, Repeat, Reachable;
    if n > 0 {
      hide AfterTurns, Distance, Reachable, Repeat, Turn;
      var m := n - 1;
      var u := AfterTurns(t, RESET, m).1;
      OneTurnMore(t, n, m);
      TurnsToReset(t, m);
      AfterApproaches(t, RESET, m);
      ResetIsReachable(t);
      DistanceZero(u, RESET);
      TurnToReset(u);
      OneMoreHigh(n, m);
    }
  }

  lemma WalkToReset(t: int)
    requires Legal(t)
    ensures Walk(t, RESET).tms == Repeat(true, WalkLength(t))
  {
    if t == INIT {
      InitToReset();
    } else {
      TurnsToReset(t, Distance(t, RESET));
    }
  }

  /** The walk to RESET has fewer cycles than the controller needs. */
  predicate FallsShort(st: Player, hw: Tap) {
    WalkLength(st.tap) < Away(HwAfter(hw, st.log))
  }

  /** libxsvf_play's last walk and sync. */
  lemma WindUpExact(r: Played, board: Board, hw: Tap, env: Env)
    requires Legal(r.st.tap)
    ensures HwAfter(hw, WindUp(r, board, env).st.log) == Reset <==> !FallsShort(r.st, hw)
  {
    var log, tms := r.st.log, Walk(r.st.tap, RESET).tms;
    WalkToReset(r.st.tap);
    TransitionsTms(tms);
    TmsOfConcat(log, Transitions(tms));
    RunConcat(hw, TmsOf(log), tms);
    OnesNearer(HwAfter(hw, log), WalkLength(r.st.tap));
    OneNearer(HwAfter(hw, log + Transitions(tms)));
    SyncStays(log + Transitions(tms), hw);
  }

  lemma SyncStays(log: seq<Act>, hw: Tap)
    ensures HwAfter(hw, log + [Sync]) == HwAfter(hw, log)
  {
    TmsOfConcat(log, [Sync]);
    TmsOfOne(Sync);
    assert TmsOf(log) + [] == TmsOf(log);
  }

  // ---------------------------------------------------------------------
  // Where a run can stop
  // ---------------------------------------------------------------------

  /** The tracked state and the requests of the first `i` chunks. */
  function PointOf(cs: seq<Chunk>, log: seq<Act>, i: nat): Player
    requires i <= |cs|
  {
    Player(LastTap(INIT, cs[..i]), log + ActsOf(cs[..i]))
  }

  /** After the first `i` chunks the last walk would be too short. */
  predicate PointFallsShort(cs: seq<Chunk>, i: nat)
    requires i <= |cs|
  {
    FallsShort(PointOf(cs, [], i), Reset)
  }

  /** A run can stop there: at the end, or where some host answers negatively. */
  predicate CanStop(s: Script, i: nat)
    requires i <= |s.chunks|
  {
    || (i == |s.chunks| && s.end != Undefined)
    || (i > 0 && s.chunks[i - 1].checked && s.chunks[i - 1].acts != [])
  }

  lemma ActsOfCons(cs: seq<Chunk>, i: nat, j: nat)
    requires i == j + 1 <= |cs|
    ensures ActsOf(cs[..i]) == cs[0].acts + ActsOf(cs[1..][..j])
    ensures LastTap(cs[0].tap, cs[1..][..j]) == LastTap(INIT, cs[..i])
  {
    assert cs[..i][1..] == cs[1..][..j] && cs[..i][0] == cs[0];
    if j > 0 {
      assert cs[..i][i - 1] == cs[1..][..j][j - 1];
    }
  }

  /** A run ends at a point where it can stop. */
  lemma {:induction false} RunEndsAt(st: Player, cs: seq<Chunk>, env: Env) returns (i: nat, ok: bool, end: Player)
    ensures RunChunks(st, cs, env) == (end, ok) && i <= |cs|
    ensures end.log == st.log + ActsOf(cs[..i]) && (i > 0 ==> end.tap == LastTap(INIT, cs[..i]))
    ensures if ok then i == |cs| && (i == 0 ==> end.tap == st.tap)
            else i > 0 && cs[i - 1].checked && cs[i - 1].acts != []
    decreases |cs|
  {
    if cs == [] {
      i, ok, end := 0, true, st;
      assert st.log + [] == st.log;
    } else if Stops(st, cs[0], env) {
      i, ok, end := 1, false, Request(st, cs[0]);
      ActsOfCons(cs, 1, 0);
      assert cs[0].acts + [] == cs[0].acts;
    } else {
      var j;
      j, ok, end := RunEndsAt(Request(st, cs[0]), cs[1..], env);
      i := j + 1;
      ActsOfCons(cs, i, j);
      assert st.log + cs[0].acts + ActsOf(cs[1..][..j]) == st.log + (cs[0].acts + ActsOf(cs[1..][..j]));
    }
  }

  /** A host that fails as soon as more than `n` requests have been made. */
  function FailsAfter(n: nat): Env {
    (log: seq<Act>) => if |log| > n then -1 else 0
  }

  lemma NotYet(st: Player, c: Chunk, n: nat)
    requires |st.log| + |c.acts| <= n
    ensures !Stops(st, c, FailsAfter(n))
  {
    forall k: nat | k < |c.acts|
      ensures Answer(st.log, c.acts, k, FailsAfter(n)) >= 0
    {
      assert |st.log + c.acts[..k + 1]| <= n;
    }
  }

  lemma Now(st: Player, c: Chunk, n: nat)
    requires c.checked && c.acts != [] && n == |st.log|
    ensures Stops(st, c, FailsAfter(n))
  {
    assert |st.log + c.acts[..0 + 1]| > n;
    assert Answer(st.log, c.acts, 0, FailsAfter(n)) < 0;
  }

  /** Such a host stops a run at any checked chunk that makes a request. */
  lemma {:induction false} StopsThere(st: Player, cs: seq<Chunk>, i: nat, n: nat)
    requires 0 < i <= |cs| && cs[i - 1].checked && cs[i - 1].acts != []
    requires n == |st.log| + |ActsOf(cs[..i - 1])|
    ensures RunChunks(st, cs, FailsAfter(n)) == (Player(LastTap(INIT, cs[..i]), st.log + ActsOf(cs[..i])), false)
    decreases i
  {
    var j := i - 1;
    ActsOfCons(cs, i, j);
    if j == 0 {
      Now(st, cs[0], n);
      assert cs[0].acts + [] == cs[0].acts;
    } else {
      ActsOfCons(cs, j, j - 1);
      NotYet(st, cs[0], n);
      StopsThere(Request(st, cs[0]), cs[1..], j, n);
      assert st.log + cs[0].acts + ActsOf(cs[1..][..j]) == st.log + (cs[0].acts + ActsOf(cs[1..][..j]));
    }
  }

  lemma {:induction false} AllTrackPrefix(tap: int, cs: seq<Chunk>, i: nat)
    requires AllTrack(tap, cs) && i <= |cs|
    ensures AllTrack(tap, cs[..i])
    decreases i
  {
    if i > 0 {
      assert cs[..i][1..] == cs[1..][..i - 1];
      AllTrackPrefix(cs[0].tap, cs[1..], i - 1);
    }
  }

  /** Once a state is recorded, the power-up state does not matter. */
  lemma {:induction false} Settles(tap: int, cs: seq<Chunk>, a: Tap, b: Tap)
    requires AllTrack(tap, cs) && (tap == INIT || a == b)
    ensures LastTap(tap, cs) == INIT || HwAfter(a, ActsOf(cs)) == HwAfter(b, ActsOf(cs))
    decreases |cs|
  {
    if cs != [] {
      var c := cs[0];
      var a', b' := HwAfter(a, c.acts), HwAfter(b, c.acts);
      if tap == INIT && c.tap != INIT {
        assert Agrees(c.tap, a') && Agrees(c.tap, b');
        CodeInjective(a', b');
      }
      Settles(c.tap, cs[1..], a', b');
      assert LastTap(c.tap, cs[1..]) == LastTap(tap, cs);
      HwAfterConcat(a, c.acts, ActsOf(cs[1..]));
      HwAfterConcat(b, c.acts, ActsOf(cs[1..]));
    }
  }

  lemma HwAfterConcat(hw: Tap, a: seq<Act>, b: seq<Act>)
    ensures HwAfter(hw, a + b) == HwAfter(HwAfter(hw, a), b)
  {
    TmsOfConcat(a, b);
    RunConcat(hw, TmsOf(a), TmsOf(b));
  }

  /** Neither do the requests made before the file. */
  lemma PointIs(cs: seq<Chunk>, log: seq<Act>, hw: Tap, i: nat)
    requires AllTrack(INIT, cs) && i <= |cs|
    ensures FallsShort(PointOf(cs, log, i), hw) == PointFallsShort(cs, i)
    ensures Legal(PointOf(cs, log, i).tap)
  {
    var acts := ActsOf(cs[..i]);
    AllTrackPrefix(INIT, cs, i);
    LastLegal(INIT, cs[..i]);
    HwAfterConcat(hw, log, acts);
    assert [] + acts == acts;
    Settles(INIT, cs[..i], HwAfter(hw, log), Reset);
  }

  lemma {:induction false} LastLegal(tap: int, cs: seq<Chunk>)
    requires Legal(tap) && AllTrack(tap, cs)
    ensures Legal(LastTap(tap, cs))
    decreases |cs|
  {
    if cs != [] {
      LastLegal(cs[0].tap, cs[1..]);
      assert LastTap(cs[0].tap, cs[1..]) == LastTap(tap, cs);
    }
  }

  lemma PlayedTo(input: string, pos: nat, st: Player, env: Env, end: Player, ok: bool)
    requires RunChunks(st, Compile(input, pos, START, st.tap).chunks, env) == (end, ok)
    ensures var s, r := Compile(input, pos, START, st.tap), PlaySvf(input, pos, st, env);
            && (r.undefined <==> ok && s.end == Undefined)
            && (!r.undefined ==> r.st == Player(end.tap, end.log + [Sync]))
  {
    hide Compile, RunChunks;
  }

  /** Where a run of a file stops, and whether the last walk is too short there. */
  lemma SvfStopsAt(input: string, pos: nat, log: seq<Act>, hw: Tap, env: Env) returns (i: nat)
    ensures var s, r := Compile(input, pos, START, INIT), PlaySvf(input, pos, Player(INIT, log), env);
            && i <= |s.chunks|
            && (!r.undefined ==>
                  CanStop(s, i) && Legal(r.st.tap) && (FallsShort(r.st, hw) <==> PointFallsShort(s.chunks, i)))
            && (RunChunks(Player(INIT, log), s.chunks, env).1 ==> i == |s.chunks|)
  {
    hide Compile, PointFallsShort, HwAfter, PlaySvf, RunChunks, ActsOf, AllTrack, Legal;
    var s := Compile(input, pos, START, INIT);
    CompileTracks(input, pos, START, INIT);
    hide Compile, RunChunks, PlaySvf, PointFallsShort, AllTrack, HwAfter, Legal;
    var ok, end;
    i, ok, end := RunEndsAt(Player(INIT, log), s.chunks, env);
    assert end == PointOf(s.chunks, log, i);
    PlayedTo(input, pos, Player(INIT, log), env, end, ok);
    PointIs(s.chunks, log, hw, i);
    SyncStays(end.log, hw);
  }

  /** libxsvf_play leaves the target in Test-Logic-Reset exactly if its last walk, as
      long as the recorded state asks for, is long enough for the controller: for
      every file, every host and every power-up state, whether the run completes or
      fails. */
  lemma PlayResetsExactly(input: string, pos: nat, log: seq<Act>, board: Board, hw: Tap, env: Env)
    requires board.setup >= 0
    ensures var r := Play(SvfMode, input, pos, log, board, env);
            !r.undefined ==>
              (HwAfter(hw, r.st.log) == Reset <==> !FallsShort(PlaySvf(input, pos, Player(INIT, log), env).st, hw))
  {
    hide FallsShort, HwAfter, Legal, WindUp, PlaySvf, Compile, RunChunks, PointFallsShort, CanStop;
    var i := SvfStopsAt(input, pos, log, hw, env);
    var p := PlaySvf(input, pos, Player(INIT, log), env);
    if !p.undefined {
      WindUpExact(p, board, hw, env);
    }
  }

  ghost predicate Resets(input: string, pos: nat, log: seq<Act>, board: Board, hw: Tap, env: Env) {
    var r := Play(SvfMode, input, pos, log, board, env);
    !r.undefined ==> HwAfter(hw, r.st.log) == Reset
  }

  lemma ResetsAt(input: string, pos: nat, log: seq<Act>, board: Board, hw: Tap, env: Env) returns (i: nat)
    requires board.setup >= 0
    ensures var s, r := Compile(input, pos, START, INIT), PlaySvf(input, pos, Player(INIT, log), env);
            && i <= |s.chunks|
            && (r.undefined ==> Resets(input, pos, log, board, hw, env))
            && (!r.undefined ==>
                  CanStop(s, i) && (Resets(input, pos, log, board, hw, env) <==> !PointFallsShort(s.chunks, i)))
            && (RunChunks(Player(INIT, log), s.chunks, env).1 ==> i == |s.chunks|)
  {
    hide Compile, RunChunks, PointFallsShort, FallsShort, CanStop, HwAfter, PlaySvf, Play;
    i := SvfStopsAt(input, pos, log, hw, env);
    PlayResetsExactly(input, pos, log, board, hw, env);
    UndefinedToo(input, pos, log, board, env);
  }

  lemma UndefinedToo(input: string, pos: nat, log: seq<Act>, board: Board, env: Env)
    requires board.setup >= 0
    ensures Play(SvfMode, input, pos, log, board, env).undefined
            <==> PlaySvf(input, pos, Player(INIT, log), env).undefined
  {
    hide PlaySvf;
  }

  /** A run that makes all of the file's requests ends in Test-Logic-Reset exactly if
      the last walk is long enough at the end of the file's script. */
  lemma CompleteRunResets(input: string, pos: nat, log: seq<Act>, board: Board, hw: Tap, env: Env)
    requires board.setup >= 0
    requires var s := Compile(input, pos, START, INIT);
             s.end != Undefined && RunChunks(Player(INIT, log), s.chunks, env).1
    ensures var cs := Compile(input, pos, START, INIT).chunks;
            Resets(input, pos, log, board, hw, env) <==> !PointFallsShort(cs, |cs|)
  {
    hide Compile, Resets, PointFallsShort;
    var i := ResetsAt(input, pos, log, board, hw, env);
  }

  /** Every host leaves the target in Test-Logic-Reset after the file if and only if
      the last walk is long enough at every point of the script where a run can stop. */
  lemma SvfResetsForEveryHost(input: string, pos: nat, log: seq<Act>, board: Board, hw: Tap)
    requires board.setup >= 0
    ensures var s := Compile(input, pos, START, INIT);
            (forall env: Env :: Resets(input, pos, log, board, hw, env))
            <==> (forall i: nat :: i <= |s.chunks| && CanStop(s, i) ==> !PointFallsShort(s.chunks, i))
  {
    var s := Compile(input, pos, START, INIT);
    hide Compile, Resets, PointFallsShort, CanStop;
    if forall i: nat :: i <= |s.chunks| && CanStop(s, i) ==> !PointFallsShort(s.chunks, i) {
      forall env: Env
        ensures Resets(input, pos, log, board, hw, env)
      {
        var i := ResetsAt(input, pos, log, board, hw, env);
      }
    } else {
      var i: nat :| i <= |s.chunks| && CanStop(s, i) && PointFallsShort(s.chunks, i);
      var env := HostFor(input, pos, log, board, hw, i);
    }
  }

  /** A host whose run stops at a given point. */
  lemma HostFor(input: string, pos: nat, log: seq<Act>, board: Board, hw: Tap, i: nat) returns (env: Env)
    requires board.setup >= 0
    requires var s := Compile(input, pos, START, INIT);
             i <= |s.chunks| && CanStop(s, i) && PointFallsShort(s.chunks, i)
    ensures !Resets(input, pos, log, board, hw, env)
  {
    var s, st := Compile(input, pos, START, INIT), Player(INIT, log);
    var cs := s.chunks;
    if i > 0 && cs[i - 1].checked && cs[i - 1].acts != [] {
      var n := |log| + |ActsOf(cs[..i - 1])|;
      env := FailsAfter(n);
      StopsThere(st, cs, i, n);
      StoppedShort(input, pos, log, board, hw, env, i);
    } else {
      env := (l: seq<Act>) => 0;
      NeverStops(st, cs, env);
      CompleteRunResets(input, pos, log, board, hw, env);
    }
  }

  lemma StoppedShort(input: string, pos: nat, log: seq<Act>, board: Board, hw: Tap, env: Env, i: nat)
    requires board.setup >= 0
    requires var cs := Compile(input, pos, START, INIT).chunks;
             && i <= |cs| && PointFallsShort(cs, i)
             && RunChunks(Player(INIT, log), cs, env) == (PointOf(cs, log, i), false)
    ensures !Resets(input, pos, log, board, hw, env)
  {
    var cs := Compile(input, pos, START, INIT).chunks;
    CompileTracks(input, pos, START, INIT);
    hide Compile, PointFallsShort, RunChunks, AllTrack, HwAfter;
    PlayResetsExactly(input, pos, log, board, hw, env);
    UndefinedToo(input, pos, log, board, env);
    PointIs(cs, log, hw, i);
    SyncStays(PointOf(cs, log, i).log, hw);
  }

  lemma {:induction false} NeverStops(st: Player, cs: seq<Chunk>, env: Env)
    requires forall l: seq<Act> :: env(l) >= 0
    ensures RunChunks(st, cs, env).1
    decreases |cs|
  {
    if cs != [] {
      NeverStops(Request(st, cs[0]), cs[1..], env);
    }
  }

  // ---------------------------------------------------------------------
  // Files that wait in stable states
  // ---------------------------------------------------------------------

  /** The last request that clocked TCK was a wait. */
  predicate LastIsWait(log: seq<Act>)
    decreases |log|
  {
    log != []
    && if ActTms(log[|log| - 1]) == [] then LastIsWait(log[..|log| - 1]) else log[|log| - 1].Delay?
  }

  /** Test-Logic-Reset is recorded, but TCK was last clocked by a RUNTEST there. */
  predicate Adrift(st: Player) {
    st.tap == RESET && LastIsWait(st.log)
  }

  /** The controller is in Run-Test/Idle if the run is adrift, else where the
      tracked state says. */
  predicate NearAt(tap: int, wait: bool, now: Tap) {
    Legal(tap) && if tap == RESET && wait then now == Idle else Agrees(tap, now)
  }

  predicate Near(st: Player, hw: Tap) {
    NearAt(st.tap, LastIsWait(st.log), HwAfter(hw, st.log))
  }

  /** Of the states that TMS low leaves, only Test-Logic-Reset is waited in. */
  ghost predicate StableWaits(cs: seq<Chunk>) {
    forall i :: 0 <= i < |cs| && Drifts(cs[i]) ==> cs[i].tap == RESET
  }

  lemma ClocksSnoc(acts: seq<Act>)
    requires acts != []
    ensures TmsOf(acts) == TmsOf(acts[..|acts| - 1]) + ActTms(acts[|acts| - 1])
  {
  }

  lemma {:induction false} WaitAfter(log: seq<Act>, acts: seq<Act>)
    ensures TmsOf(acts) == [] ==> LastIsWait(log + acts) == LastIsWait(log)
    ensures TmsOf(acts) != [] ==> LastIsWait(log + acts) == LastIsWait(acts)
    decreases |acts|
  {
    if acts == [] {
      assert log + acts == log;
    } else {
      var n := |acts| - 1;
      assert (log + acts)[..|log + acts| - 1] == log + acts[..n];
      ClocksSnoc(acts);
      WaitAfter(log, acts[..n]);
    }
  }

  lemma {:induction false} NoWait(acts: seq<Act>)
    requires forall k :: 0 <= k < |acts| ==> !acts[k].Delay?
    ensures !LastIsWait(acts)
    decreases |acts|
  {
    if acts != [] {
      NoWait(acts[..|acts| - 1]);
    }
  }

  lemma DriftClocks(c: Chunk)
    ensures Drifts(c) ==> TmsOf(c.acts) != []
  {
    if Drifts(c) {
      TmsOfOne(c.acts[0]);
      assert c.acts == [c.acts[0]];
    }
  }

  /** Nothing is clocked, and Test-Logic-Reset is recorded: so it was before. */
  lemma QuietReset(tap: int, c: Chunk)
    requires Legal(tap) && ChunkTracks(tap, c) && TmsOf(c.acts) == [] && c.tap == RESET
    ensures tap == RESET
  {
    DriftClocks(c);
    var hw := if tap == INIT then Idle else Decode(tap);
    assert Agrees(tap, hw);
  }

  lemma QuietNear(tap: int, wait: bool, now: Tap, c: Chunk)
    requires NearAt(tap, wait, now) && ChunkTracks(tap, c) && TmsOf(c.acts) == []
    ensures NearAt(c.tap, wait, now)
  {
    DriftClocks(c);
    if c.tap == RESET {
      QuietReset(tap, c);
    } else if tap == RESET && wait {
      assert Agrees(tap, Reset);
    }
  }

  /** A wait, from Run-Test/Idle or from where the tracked state says. */
  lemma WaitNear(tap: int, wait: bool, now: Tap, c: Chunk)
    requires NearAt(tap, wait, now) && ChunkTracks(tap, c) && (Drifts(c) ==> c.tap == RESET)
    requires c.acts != [] && c.acts[0].Delay? && c.acts[0].numTck > 0
    ensures TmsOf(c.acts) != [] && NearAt(c.tap, LastIsWait(c.acts), HwAfter(now, c.acts))
  {
    assert c.acts == [c.acts[0]];
    TmsOfOne(c.acts[0]);
    ZerosKeep(now, c.acts[0].numTck);
    if tap == RESET && !wait {
      CodeInjective(now, Reset);
    }
  }

  /** Out of Test-Logic-Reset with TMS low, it makes no difference to be in
      Run-Test/Idle already. */
  lemma FromIdleToo(tms: seq<bool>)
    requires tms != [] && !tms[0]
    ensures Run(Idle, tms) == Run(Reset, tms)
  {
    assert tms == [false] + tms[1..];
    RunConcat(Idle, [false], tms[1..]);
    RunConcat(Reset, [false], tms[1..]);
    RunOne(Idle, false);
    RunOne(Reset, false);
  }

  lemma OnlyPulses(tap: int, c: Chunk)
    requires TmsOf(c.acts) != [] && Shaped(tap, c) && !(c.acts[0].Delay? && c.acts[0].numTck > 0)
    ensures !LastIsWait(c.acts) && !Drifts(c)
  {
    if k :| 0 <= k < |c.acts| && c.acts[k].Delay? {
      assert c.acts == [c.acts[0]];
      TmsOfOne(c.acts[0]);
    } else {
      NoWait(c.acts);
    }
  }

  /** Pulses resynchronise, whatever they are. */
  lemma PulsesNear(tap: int, wait: bool, now: Tap, c: Chunk)
    requires NearAt(tap, wait, now) && ChunkTracks(tap, c)
    requires TmsOf(c.acts) != [] && !(c.acts[0].Delay? && c.acts[0].numTck > 0)
    ensures NearAt(c.tap, LastIsWait(c.acts), HwAfter(now, c.acts))
  {
    OnlyPulses(tap, c);
    if tap == RESET && wait {
      FromIdleToo(TmsOf(c.acts));
      assert Agrees(tap, Reset);
    }
  }

  lemma ChunkNear(st: Player, hw: Tap, c: Chunk)
    requires Near(st, hw) && ChunkTracks(st.tap, c) && (Drifts(c) ==> c.tap == RESET)
    ensures Near(Request(st, c), hw)
  {
    hide ChunkTracks, NearAt, LastIsWait, Drifts;
    var now, wait := HwAfter(hw, st.log), LastIsWait(st.log);
    TmsOfConcat(st.log, c.acts);
    RunConcat(hw, TmsOf(st.log), TmsOf(c.acts));
    WaitAfter(st.log, c.acts);
    if TmsOf(c.acts) == [] {
      QuietNear(st.tap, wait, now, c);
    } else if c.acts[0].Delay? && c.acts[0].numTck > 0 {
      WaitNear(st.tap, wait, now, c);
    } else {
      PulsesNear(st.tap, wait, now, c);
    }
  }

  lemma {:induction false} ChunksNear(st: Player, hw: Tap, cs: seq<Chunk>)
    requires Near(st, hw) && AllTrack(st.tap, cs) && StableWaits(cs)
    ensures Near(Player(LastTap(st.tap, cs), st.log + ActsOf(cs)), hw)
    decreases |cs|
  {
    hide Near, ChunkTracks, Drifts;
    if cs == [] {
      assert st.log + [] == st.log;
    } else {
      ChunkNear(st, hw, cs[0]);
      ChunksNear(Request(st, cs[0]), hw, cs[1..]);
      assert LastTap(cs[0].tap, cs[1..]) == LastTap(st.tap, cs);
      assert st.log + cs[0].acts + ActsOf(cs[1..]) == st.log + (cs[0].acts + ActsOf(cs[1..]));
    }
  }

  lemma NearFallsShort(st: Player, hw: Tap)
    requires Near(st, hw)
    ensures FallsShort(st, hw) <==> Adrift(st)
  {
  }

  /** For a file that waits in stable states, the last walk is too short exactly where
      a run is adrift. */
  lemma StableFallsShort(input: string, pos: nat, i: nat)
    requires var cs := Compile(input, pos, START, INIT).chunks; StableWaits(cs) && i <= |cs|
    ensures var cs := Compile(input, pos, START, INIT).chunks;
            PointFallsShort(cs, i) <==> Adrift(PointOf(cs, [], i))
  {
    hide Compile, AllTrack, LastTap, FallsShort, Adrift, ActsOf;
    var cs := Compile(input, pos, START, INIT).chunks;
    CompileTracks(input, pos, START, INIT);
    hide Compile, HwAfter, AllTrack, FallsShort, Adrift;
    AllTrackPrefix(INIT, cs, i);
    assert Near(POWER_UP, Reset);
    ChunksNear(POWER_UP, Reset, cs[..i]);
    NearFallsShort(PointOf(cs, [], i), Reset);
  }
}
