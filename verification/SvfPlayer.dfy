/** `libxsvf_svf` (svfload/libxsvf/svf.c): its loops and branches against the
    script of SvfScript. */
module SvfPlayer {
  import opened CommandReader
  import opened HostApi
  import opened Hosts
  import opened SvfBitdata
  import opened SvfLexer
  import opened SvfScan
  import opened SvfScript
  import opened SvfText
  import opened TapWalk

  /** The local variables of libxsvf_svf. */
  class SvfVars {
    const hdr: BitdataS
    const hir: BitdataS
    const tdr: BitdataS
    const tir: BitdataS
    const sdr: BitdataS
    const sir: BitdataS
    var endIr: int
    var endDr: int
    var run: int
    var endRun: int

    ghost const vectors: set<object> := {hdr, hir, tdr, tir, sdr, sir}

    function Config(): Config
      reads this, hdr, hir, tdr, tir, sdr, sir
    {
      SvfScript.Config(hdr.Value(), hir.Value(), tdr.Value(), tir.Value(), sdr.Value(), sir.Value(),
                       endIr, endDr, run, endRun)
    }

    ghost predicate Valid()
      reads this, hdr, hir, tdr, tir, sdr, sir
    {
      && hdr !in {hir, tdr, tir, sdr, sir} && hir !in {tdr, tir, sdr, sir}
      && tdr !in {tir, sdr, sir} && tir !in {sdr, sir} && sdr != sir
      && ConfigWf(Config())
    }

    constructor ()
      ensures Valid() && Config() == START && fresh(vectors)
    {
      hdr := new BitdataS();
      hir := new BitdataS();
      tdr := new BitdataS();
      tir := new BitdataS();
      sdr := new BitdataS();
      sir := new BitdataS();
      endIr, endDr, run, endRun := IDLE, IDLE, IDLE, IDLE;
    }
  }

  /** `h` is where the chunks lead from `st`, and `ok` tells if none stopped it. */
  ghost predicate Ran(st: Player, cs: seq<Chunk>, env: Env, now: Player, ok: bool) {
    RunChunks(st, cs, env) == (now, ok)
  }

  lemma RanNone(st: Player, env: Env)
    ensures Ran(st, [], env, st, true)
  {
  }

  lemma RanMore(st: Player, a: seq<Chunk>, mid: Player, b: seq<Chunk>, env: Env, now: Player, ok: bool)
    requires Ran(st, a, env, mid, true) && Ran(mid, b, env, now, ok)
    ensures Ran(st, a + b, env, now, ok)
  {
    RunChunksConcat(st, a, b, env);
  }

  lemma RanStopped(st: Player, a: seq<Chunk>, b: seq<Chunk>, env: Env, now: Player)
    requires Ran(st, a, env, now, false)
    ensures Ran(st, a + b, env, now, false)
  {
    RunChunksConcat(st, a, b, env);
  }

  lemma RanOne(st: Player, c: Chunk, env: Env)
    ensures Ran(st, [c], env, Request(st, c), !Stops(st, c, env))
  {
    assert [c][1..] == [];
    RanNone(Request(st, c), env);
  }

  // ---------------------------------------------------------------------
  // Walks and scans
  // ---------------------------------------------------------------------

  method WalkTo(h: Host, s: int) returns (ok: bool)
    modifies h`log, h`tapState
    ensures var w := WalkSteps(old(h.tapState), s);
            ok == w.ok && h.tapState == w.tap && Ran(old(State(h)), w.chunks, h.env, State(h), true)
  {
    ghost var st := State(h);
    var rc := LibxsvfTapWalk(h, s);
    ok := rc >= 0;
    RanOne(st, WalkSteps(st.tap, s).chunks[0], h.env);
  }

  method Play(h: Host, bd: BitdataS, estate: int) returns (ok: bool)
    requires Wf(bd.Value())
    modifies h`log, h`tapState
    ensures Ran(old(State(h)), [PlayChunk(bd.Value(), old(h.tapState), estate)], h.env, State(h), ok)
    ensures h.tapState == PlayTap(bd.Value(), old(h.tapState), estate)
  {
    ghost var st := State(h);
    var rc := BitdataPlay(h, bd, estate);
    ok := rc >= 0;
    RanOne(st, PlayChunk(bd.Value(), st.tap, estate), h.env);
  }

  /** The three parts of a scan. */
  method PlayParts(h: Host, hdr: BitdataS, data: BitdataS, tdr: BitdataS, shift: int, estate: int) returns (ok: bool)
    requires Wf(hdr.Value()) && Wf(data.Value()) && Wf(tdr.Value())
    modifies h`log, h`tapState
    ensures var cs := ScanChunks(hdr.Value(), data.Value(), tdr.Value(), old(h.tapState), shift, estate);
            Ran(old(State(h)), cs, h.env, State(h), ok) && (ok ==> h.tapState == cs[2].tap)
  {
    ghost var st0 := State(h);
    ghost var cs := ScanChunks(hdr.Value(), data.Value(), tdr.Value(), h.tapState, shift, estate);
    assert cs == [cs[0]] + [cs[1]] + [cs[2]] && cs == [cs[0]] + ([cs[1]] + [cs[2]]);
    ok := Play(h, hdr, if data.len + tdr.len > 0 then shift else estate);
    ghost var st1 := State(h);
    if !ok {
      RanStopped(st0, [cs[0]], [cs[1]] + [cs[2]], h.env, st1);
      return;
    }
    ok := Play(h, data, if tdr.len > 0 then shift else estate);
    ghost var st2 := State(h);
    RanMore(st0, [cs[0]], st1, [cs[1]], h.env, st2, ok);
    if !ok {
      RanStopped(st0, [cs[0]] + [cs[1]], [cs[2]], h.env, st2);
      return;
    }
    ok := Play(h, tdr, estate);
    RanMore(st0, [cs[0]] + [cs[1]], st2, [cs[2]], h.env, State(h), ok);
  }

  /** What a command's steps came to: stopped by an answer, or failed, or done. */
  ghost predicate StepsDone(st: Player, s: Steps, env: Env, now: Player, ok: bool) {
    exists ran: bool :: Ran(st, s.chunks, env, now, ran) && ok == (ran && s.ok) && (ran ==> now.tap == s.tap)
  }

  lemma StepsAre(st: Player, s: Steps, env: Env, now: Player, ran: bool)
    requires Ran(st, s.chunks, env, now, ran) && (ran ==> now.tap == s.tap)
    ensures StepsDone(st, s, env, now, ran && s.ok)
  {
  }

  /** SDR and SIR once their vector is parsed. */
  method DoScan(h: Host, hdr: BitdataS, data: BitdataS, tdr: BitdataS, shift: int, estate: int) returns (ok: bool)
    requires Wf(hdr.Value()) && Wf(data.Value()) && Wf(tdr.Value())
    modifies h`log, h`tapState
    ensures var s := Scan(hdr.Value(), data.Value(), tdr.Value(), old(h.tapState), shift, estate);
            StepsDone(old(State(h)), s, h.env, State(h), ok)
  {
    ghost var st0 := State(h);
    ghost var s := Scan(hdr.Value(), data.Value(), tdr.Value(), h.tapState, shift, estate);
    ok := WalkTo(h, shift);
    ghost var w, st1 := WalkSteps(st0.tap, shift), State(h);
    if !ok {
      StepsAre(st0, s, h.env, st1, true);
      return;
    }
    ghost var cs := ScanChunks(hdr.Value(), data.Value(), tdr.Value(), h.tapState, shift, estate);
    ok := PlayParts(h, hdr, data, tdr, shift, estate);
    ghost var st2 := State(h);
    RanMore(st0, w.chunks, st1, cs, h.env, st2, ok);
    ghost var e := WalkSteps(cs[2].tap, estate);
    if !ok {
      RanStopped(st0, w.chunks + cs, e.chunks, h.env, st2);
      StepsAre(st0, s, h.env, st2, false);
      return;
    }
    ok := WalkTo(h, estate);
    RanMore(st0, w.chunks + cs, st2, e.chunks, h.env, State(h), true);
    StepsAre(st0, s, h.env, State(h), true);
  }

  // ---------------------------------------------------------------------
  // RUNTEST
  // ---------------------------------------------------------------------

  method ScaleNumber(number: nat, exp: int) returns (r: nat)
    ensures r == Scale(number, exp)
  {
    r := number;
    var e := exp;
    while e < 0
      invariant exp <= e && (exp < 0 ==> e <= 0) && Scale(r, e) == Scale(number, exp)
    {
      r, e := r / 10, e + 1;
    }
    while e > 0
      invariant e >= 0 && Scale(r, e) == Scale(number, exp)
    {
      r, e := r * 10, e - 1;
    }
  }

  method EatTime(p: string) returns (number: nat, millionths: nat, q: string)
    requires StartsWithDigit(p)
    ensures (number, millionths, q) == ReadTime(p)
  {
    hide DigitCount, Scale, Decimal, StartsWithDigit;
    number, q := EatNumber(p);
    millionths := number * 1000000;
    if q != "" && (q[0] == 'E' || q[0] == 'e') {
      q := q[1..];
      var negative := q != "" && q[0] == '-';
      if negative {
        q := q[1..];
      }
      var n;
      n, q := EatNumber(q);
      var size: int := n;
      var exp := if negative then -size else size;
      millionths := ScaleNumber(number, exp + 6);
      number := ScaleNumber(number, exp);
    }
  }

  /** A number and its unit. */
  method EatQuantity(p: string, gotMaximum: bool, r0: Runtest) returns (ok: bool, r: Runtest, q: string)
    requires StartsWithDigit(p)
    ensures var t := SkipSpaces(ReadTime(p).2);
            if Token(t) == "SEC" then
              ok && q == SkipToken(t) && r == (if gotMaximum then r0 else r0.(minTime := ReadTime(p).1))
            else if Token(t) == "TCK" then ok && q == SkipToken(t) && r == r0.(tck := ReadTime(p).0)
            else if Token(t) == "SCK" then ok && q == SkipToken(t) && r == r0.(sck := ReadTime(p).0)
            else !ok
  {
    TokenSplit("SEC", "");
    TokenSplit("TCK", "");
    TokenSplit("SCK", "");
    r, q := r0, p;
    var number, millionths, t := EatTime(p);
    t := EatSpaces(t);
    ok, q := MatchKeyword("SEC", t);
    if ok {
      r := if gotMaximum then r else r.(minTime := millionths);
      return;
    }
    ok, q := MatchKeyword("TCK", t);
    if ok {
      r := r.(tck := number);
      return;
    }
    ok, q := MatchKeyword("SCK", t);
    if ok {
      r := r.(sck := number);
    }
  }

  method EatArgument(p: string, r0: Runtest) returns (ok: bool, r: Runtest, q: string)
    requires p != ""
    ensures RuntestArgument(p, r0) == if ok then Some((r, q)) else None
  {
    hide After1, TokenState, Token, SkipSpaces, ReadTime, IsDigit, SkipToken;
    TokenSplit("MAXIMUM", "");
    TokenSplit("ENDSTATE", "");
    r := r0;
    var gotMaximum, p1 := MatchKeyword("MAXIMUM", p);
    var gotEndState, p2 := MatchKeyword("ENDSTATE", p1);
    var st := TokenState(p2);
    if st >= 0 {
      r := if gotEndState then r.(endRun := st) else r.(run := st);
      var i := StrTokenSkip(p2);
      return true, r, p2[i..];
    }
    if p2 == "" || !IsDigit(p2[0]) {
      return false, r, p2;
    }
    ok, r, q := EatQuantity(p2, gotMaximum, r);
  }

  /** The loop over the arguments of RUNTEST. */
  method EatRuntest(text: string, r0: Runtest) returns (ok: bool, r: Runtest)
    ensures ParseRuntest(text, r0) == if ok then Some(r) else None
  {
    r := r0;
    var p := text;
    while p != ""
      invariant ParseRuntest(p, r) == ParseRuntest(text, r0)
      decreases |p|
    {
      ok, r, p := EatArgument(p, r);
      if !ok {
        return;
      }
    }
    ok := true;
  }

  lemma RanQuiet(st: Player, c: Chunk, env: Env)
    requires !c.checked
    ensures Ran(st, [c], env, Request(st, c), true)
  {
    RanOne(st, c, env);
  }

  method PulseScks(h: Host, n: nat)
    modifies h`log
    ensures h.log == old(h.log) + seq(n, _ => Sck)
  {
    var i := 0;
    while i < n
      invariant 0 <= i <= n && h.log == old(h.log) + seq(i, _ => Sck)
    {
      var _ := h.Request(Sck);
      assert seq(i + 1, _ => Sck) == seq(i, _ => Sck) + [Sck];
      i := i + 1;
    }
  }

  /** RUNTEST once its arguments are read. */
  method DoRuntest(h: Host, r: Runtest) returns (ok: bool)
    modifies h`log, h`tapState
    ensures StepsDone(old(State(h)), RuntestSteps(r, old(h.tapState)), h.env, State(h), ok)
  {
    ghost var st0, s := State(h), RuntestSteps(r, h.tapState);
    ok := WalkTo(h, r.run);
    ghost var w, st1 := WalkSteps(st0.tap, r.run), State(h);
    if !ok {
      StepsAre(st0, s, h.env, st1, true);
      return;
    }
    Wait(h, r);
    ghost var st2 := State(h);
    ghost var mid := WaitChunks(r, st1.tap);
    RanMore(st0, w.chunks, st1, mid, h.env, st2, true);
    ok := WalkTo(h, r.endRun);
    ghost var e := WalkSteps(st1.tap, r.endRun);
    RanMore(st0, w.chunks + mid, st2, e.chunks, h.env, State(h), true);
    StepsAre(st0, s, h.env, State(h), true);
  }

  function WaitChunks(r: Runtest, tap: int): seq<Chunk> {
    [Chunk(seq(AtLeastZero(r.sck), _ => Sck), false, tap),
     Chunk(if r.minTime >= 0 || r.tck >= 0
           then [Delay(AtLeastZero(r.minTime), false, AtLeastZero(r.tck))] else [], false, tap)]
  }

  method Wait(h: Host, r: Runtest)
    modifies h`log
    ensures Ran(old(State(h)), WaitChunks(r, h.tapState), h.env, State(h), true)
  {
    ghost var st0, cs := State(h), WaitChunks(r, h.tapState);
    if r.sck >= 0 {
      PulseScks(h, r.sck);
    }
    ghost var st1 := State(h);
    assert st1 == Request(st0, cs[0]) by {
      assert r.sck < 0 ==> seq(0, _ => Sck) == [];
    }
    RanQuiet(st0, cs[0], h.env);
    if r.minTime >= 0 || r.tck >= 0 {
      var _ := h.Request(Delay(if r.minTime >= 0 then r.minTime else 0, false, if r.tck >= 0 then r.tck else 0));
    }
    assert State(h) == Request(st1, cs[1]) by {
      assert st1.log + [] == st1.log;
    }
    RanQuiet(st1, cs[1], h.env);
    RanMore(st0, [cs[0]], st1, [cs[1]], h.env, State(h), true);
    assert cs == [cs[0]] + [cs[1]];
  }

  // ---------------------------------------------------------------------
  // Commands
  // ---------------------------------------------------------------------

  ghost predicate CommandDone(st: Player, e: Effect, env: Env, now: Player, status: Status) {
    exists ran: bool ::
      && Ran(st, e.chunks, env, now, ran) && (ran ==> now.tap == e.tap)
      && status == (if !ran || e.outcome == Failed then Error else if e.outcome == Done then Ok else SvfScan.Undefined)
  }

  lemma CommandIs(st: Player, e: Effect, env: Env, now: Player, ran: bool)
    requires Ran(st, e.chunks, env, now, ran) && (ran ==> now.tap == e.tap)
    ensures CommandDone(st, e, env, now,
              if !ran || e.outcome == Failed then Error else if e.outcome == Done then Ok else SvfScan.Undefined)
  {
  }

  /** eol_check. */
  method EolCheck(p: string) returns (status: Status)
    ensures status == if EndOfLine(p) == Done then Ok else Error
  {
    var q := EatSpaces(p);
    status := if q == "" then Ok else Error;
  }

  method EndState(h: Host, v: SvfVars, p: string, dr: bool) returns (status: Status)
    requires v.Valid()
    modifies v
    ensures var e := old(EndStateCommand(v.Config(), h.tapState, p, dr));
            CommandDone(old(State(h)), e, h.env, State(h), status) && v.Config() == e.config
    ensures v.Valid()
  {
    ghost var e := EndStateCommand(v.Config(), h.tapState, p, dr);
    RanNone(State(h), h.env);
    CommandIs(State(h), e, h.env, State(h), true);
    var st := TokenState(p);
    if dr {
      v.endDr := st;
    } else {
      v.endIr := st;
    }
    if v.endIr < 0 {
      return Error;
    }
    var i := StrTokenSkip(p);
    status := EolCheck(p[i..]);
  }

  method DoFrequency(h: Host, ghost config: Config, p: string) returns (status: Status)
    modifies h`log
    ensures CommandDone(old(State(h)), FrequencyCommand(config, h.tapState, p), h.env, State(h), status)
  {
    ghost var st0, e := State(h), FrequencyCommand(config, h.tapState, p);
    if p == "" || !IsDigit(p[0]) {
      RanNone(st0, h.env);
      CommandIs(st0, e, h.env, st0, true);
      return Error;
    }
    var number, q := EatNumber(p);
    if q != "" && (q[0] == 'E' || q[0] == 'e') {
      var exp;
      exp, q := EatNumber(q[1..]);
      number := ScaleNumber(number, exp);
    }
    q := EatSpaces(q);
    var i := StrTokenSkip(q);
    q := q[i..];
    ghost var c := e.chunks[0];
    assert c.acts == [Frequency(number)];
    var rc := h.Request(Frequency(number));
    RanOne(st0, c, h.env);
    OneAnswer(st0.log, c.acts[0], h.env);
    CommandIs(st0, e, h.env, State(h), rc >= 0);
    if rc < 0 {
      return Error;
    }
    status := EolCheck(q);
  }

  lemma OneAnswer(log: seq<Act>, a: Act, env: Env)
    ensures AnyNegative(log, [a], env) <==> env(log + [a]) < 0
  {
    AnyNegativeSnoc(log, [], a, env);
    assert [] + [a] == [a] && log + [] == log;
  }

  /** The walks `done` have been made, those for `p` are still to be made. */
  ghost predicate Halfway(st0: Player, done: seq<Chunk>, p: string, all: (Steps, Outcome), env: Env, now: Player) {
    && Ran(st0, done, env, now, true)
    && var (s, o) := StateSteps(p, now.tap);
       done + s.chunks == all.0.chunks && s.tap == all.0.tap && o == all.1
  }

  lemma HalfwayStart(st: Player, p: string, env: Env)
    ensures Halfway(st, [], p, StateSteps(p, st.tap), env, st)
  {
    RanNone(st, env);
    assert [] + StateSteps(p, st.tap).0.chunks == StateSteps(p, st.tap).0.chunks;
  }

  lemma HalfwayEnd(st0: Player, done: seq<Chunk>, p: string, all: (Steps, Outcome), env: Env, now: Player)
    requires Halfway(st0, done, p, all, env, now) && (p == "" || TokenState(p) < 0)
    ensures Ran(st0, all.0.chunks, env, now, true) && now.tap == all.0.tap
    ensures all.1 == Done <==> p == ""
  {
    assert done + [] == done;
  }

  lemma HalfwayStep(st0: Player, done: seq<Chunk>, p: string, all: (Steps, Outcome), env: Env, mid: Player, now: Player)
    requires Halfway(st0, done, p, all, env, mid) && p != "" && TokenState(p) >= 0
    requires var w := WalkSteps(mid.tap, TokenState(p)); Ran(mid, w.chunks, env, now, true) && now.tap == w.tap
    ensures var w := WalkSteps(mid.tap, TokenState(p));
            if w.ok then Halfway(st0, done + w.chunks, SkipToken(p), all, env, now)
            else Ran(st0, all.0.chunks, env, now, true) && now.tap == all.0.tap && all.1 == Failed
  {
    var w := WalkSteps(mid.tap, TokenState(p));
    RanMore(st0, done, mid, w.chunks, env, now, true);
    StateUnfold(p, mid.tap);
    if w.ok {
      ChunksAssoc(done, w.chunks, StateSteps(SkipToken(p), w.tap).0.chunks);
    }
  }

  lemma StateUnfold(p: string, tap: int)
    requires p != "" && TokenState(p) >= 0
    ensures var w := WalkSteps(tap, TokenState(p));
            if !w.ok then StateSteps(p, tap) == (w, Failed)
            else var (s, o) := StateSteps(SkipToken(p), w.tap);
                 StateSteps(p, tap) == (Steps(w.chunks + s.chunks, s.tap, s.ok), o)
  {
  }

  lemma ChunksAssoc(a: seq<Chunk>, b: seq<Chunk>, c: seq<Chunk>)
    ensures a + (b + c) == a + b + c
  {
  }

  /** STATE: a walk for each name. */
  method DoStates(h: Host, text: string) returns (status: Status)
    modifies h`log, h`tapState
    ensures var (s, o) := StateSteps(text, old(h.tapState));
            && Ran(old(State(h)), s.chunks, h.env, State(h), true) && h.tapState == s.tap
            && status == (if o == Done then Ok else Error)
  {
    var p := text;
    ghost var st0, all := State(h), StateSteps(text, h.tapState);
    ghost var done: seq<Chunk> := [];
    HalfwayStart(st0, text, h.env);
    while p != ""
      invariant Halfway(st0, done, p, all, h.env, State(h))
      decreases |p|
    {
      var st := TokenState(p);
      if st < 0 {
        HalfwayEnd(st0, done, p, all, h.env, State(h));
        return Error;
      }
      ghost var mid := State(h);
      var ok := WalkTo(h, st);
      HalfwayStep(st0, done, p, all, h.env, mid, State(h));
      if !ok {
        return Error;
      }
      done := done + WalkSteps(mid.tap, st).chunks;
      var i := StrTokenSkip(p);
      p := p[i..];
    }
    HalfwayEnd(st0, done, p, all, h.env, State(h));
    status := Ok;
  }

  method DoTrst(h: Host, ghost config: Config, p: string) returns (status: Status)
    modifies h`log
    ensures CommandDone(old(State(h)), TrstCommand(config, h.tapState, p), h.env, State(h), status)
  {
    ghost var st0, e := State(h), TrstCommand(config, h.tapState, p);
    var v := TrstValue(p);
    if v.None? {
      RanNone(st0, h.env);
      CommandIs(st0, e, h.env, st0, true);
      return Error;
    }
    var _ := h.Request(Trst(v.value));
    RanQuiet(st0, e.chunks[0], h.env);
    CommandIs(st0, e, h.env, State(h), true);
    var i := StrTokenSkip(p);
    status := EolCheck(p[i..]);
  }

  // ---------------------------------------------------------------------
  // The whole player
  // ---------------------------------------------------------------------

  /** Parses into the vector that the command names. */
  method ParseVector(v: SvfVars, name: string, p: string) returns (status: Status)
    requires v.Valid() && name in VECTOR_COMMANDS
    modifies v.vectors
    ensures var (c, o) := old(VectorConfig(v.Config(), name, p));
            && status == (if o == Done then Ok else if o == Failed then Error else SvfScan.Undefined)
            && (status == Ok ==> v.Config() == c && v.Valid())
    ensures unchanged(v)
  {
    hide ParseBits, Apply, ConfigWf, Fits;
    var bd := if name == "HDR" then v.hdr else if name == "HIR" then v.hir
              else if name == "TDR" then v.tdr else if name == "TIR" then v.tir
              else if name == "SDR" then v.sdr else v.sir;
    VectorConfigWf(v.Config(), name, p);
    status := BitdataParse(bd, p);
  }

  method DoVector(h: Host, v: SvfVars, name: string, p: string) returns (status: Status)
    requires v.Valid() && name in VECTOR_COMMANDS && h as object !in v.vectors && h as object != v
    modifies h`log, h`tapState, v.vectors
    ensures var e := old(VectorCommand(v.Config(), h.tapState, name, p));
            && CommandDone(old(State(h)), e, h.env, State(h), status)
            && (status == Ok ==> v.Config() == e.config && v.Valid())
  {
    hide Scan, VectorConfig, Ran, StepsDone, CommandDone, Wf;
    ghost var st0, e := State(h), VectorCommand(v.Config(), h.tapState, name, p);
    status := ParseVector(v, name, p);
    if status != Ok || (name != "SDR" && name != "SIR") {
      RanNone(st0, h.env);
      CommandIs(st0, e, h.env, st0, true);
      return;
    }
    ghost var c := v.Config();
    var ok;
    if name == "SDR" {
      ok := DoScan(h, v.hdr, v.sdr, v.tdr, DRSHIFT, v.endDr);
      StepsFinish(st0, c, DrScan(c, st0.tap), "", h.env, State(h), ok);
    } else {
      ok := DoScan(h, v.hir, v.sir, v.tir, IRSHIFT, v.endIr);
      StepsFinish(st0, c, IrScan(c, st0.tap), "", h.env, State(h), ok);
    }
    status := if ok then Ok else Error;
  }

  lemma StepsFinish(st: Player, c: Config, s: Steps, p: string, env: Env, now: Player, ok: bool)
    requires StepsDone(st, s, env, now, ok) && EndOfLine(p) == Done
    ensures CommandDone(st, Finish(c, s, p), env, now, if ok then Ok else Error)
  {
    var ran: bool :| Ran(st, s.chunks, env, now, ran) && ok == (ran && s.ok) && (ran ==> now.tap == s.tap);
    CommandIs(st, Finish(c, s, p), env, now, ran);
  }

  method RuntestLine(h: Host, v: SvfVars, p: string) returns (status: Status)
    requires v.Valid() && h as object != v
    modifies h`log, h`tapState, v
    ensures var e := old(RuntestCommand(v.Config(), h.tapState, p));
            && CommandDone(old(State(h)), e, h.env, State(h), status)
            && (status == Ok ==> v.Config() == e.config && v.Valid())
  {
    hide RuntestSteps, ParseRuntest, Ran, StepsDone, CommandDone;
    ghost var st0, e := State(h), RuntestCommand(v.Config(), h.tapState, p);
    var r0 := Runtest(-1, -1, -1, v.run, v.endRun);
    ParseRuntestWf(p, r0);
    var ok, r := EatRuntest(p, r0);
    if !ok {
      RanNone(st0, h.env);
      CommandIs(st0, e, h.env, st0, true);
      return Error;
    }
    v.run, v.endRun := r.run, r.endRun;
    ok := DoRuntest(h, r);
    StepsFinish(st0, e.config, RuntestSteps(r, st0.tap), "", h.env, State(h), ok);
    status := if ok then Ok else Error;
  }

  /** One command. */
  method DoCommand(h: Host, v: SvfVars, c: string) returns (status: Status)
    requires v.Valid() && h as object !in v.vectors && h as object != v
    modifies h`log, h`tapState, v, v.vectors
    ensures var e := old(Command(v.Config(), h.tapState, c));
            && CommandDone(old(State(h)), e, h.env, State(h), status)
            && (status == Ok ==> v.Config() == e.config && v.Valid())
  {
    hide VectorCommand, CommandDone, RuntestCommand, Ran, SkipToken, StateSteps, EndStateCommand, Token;
    ghost var st0, config := State(h), v.Config();
    var i := StrTokenSkip(c);
    var name, p := Token(c), c[i..];
    if name == "ENDIR" {
      status := EndState(h, v, p, false);
    } else if name == "ENDDR" {
      status := EndState(h, v, p, true);
    } else if name == "FREQUENCY" {
      status := DoFrequency(h, config, p);
    } else if name in VECTOR_COMMANDS {
      status := DoVector(h, v, name, p);
    } else if name == "PIO" || name == "PIOMAP" {
      RanNone(st0, h.env);
      CommandIs(st0, Give(config, st0.tap, Failed), h.env, st0, true);
      status := Error;
    } else if name == "RUNTEST" {
      status := RuntestLine(h, v, p);
    } else if name == "STATE" {
      status := DoStates(h, p);
      var (s, o) := StateSteps(p, st0.tap);
      CommandIs(st0, Effect(config, s.chunks, s.tap, o), h.env, State(h), true);
    } else if name == "TRST" {
      status := DoTrst(h, config, p);
    } else {
      status := EolCheck(c);
      RanNone(st0, h.env);
      CommandIs(st0, Finish(config, Stay(st0.tap), c), h.env, st0, true);
    }
  }

  /** What is left to be done after the command that ends at `pos`. */
  ghost predicate Remaining(input: string, pos0: nat, st0: Player, pos: nat, config: Config, st: Player, env: Env) {
    && ConfigWf(config)
    && PlaySvf(input, pos0, st0, env) == RunScript(Compile(input, pos, config, st.tap), st, env)
  }

  lemma RemainingStart(input: string, pos0: nat, config: Config, st0: Player, env: Env)
    requires config == START
    ensures ConfigWf(config) && Remaining(input, pos0, st0, pos0, config, st0, env)
  {
    hide RunScript, Compile;
  }

  lemma RemainingStep(input: string, pos0: nat, st0: Player, pos: nat, config: Config, st: Player, env: Env,
                      c: string, next: nat, now: Player, status: Status)
    requires Remaining(input, pos0, st0, pos, config, st, env) && Lex(input, pos, "", 0) == LexCommand(c, next)
    requires CommandDone(st, Command(config, st.tap, c), env, now, status)
    ensures var r, e := PlaySvf(input, pos0, st0, env), Command(config, st.tap, c);
            if status == Ok then Remaining(input, pos0, st0, next, e.config, now, env)
            else if status == Error then r == WithSync(-1, now, env)
            else r == Played(-1, now, true)
  {
    hide PlaySvf, Lex, Command, ConfigWf;
    var e := Command(config, st.tap, c);
    var ran: bool :| && Ran(st, e.chunks, env, now, ran) && (ran ==> now.tap == e.tap)
      && status == (if !ran || e.outcome == Failed then Error else if e.outcome == Done then Ok else SvfScan.Undefined);
    LexProgress(input, pos, "", 0);
    CommandWf(config, st.tap, c);
    if e.outcome == Done {
      RunChunksConcat(st, e.chunks, Compile(input, next, e.config, e.tap).chunks, env);
    }
  }

  lemma RemainingEnd(input: string, pos0: nat, st0: Player, pos: nat, config: Config, st: Player, env: Env)
    requires Remaining(input, pos0, st0, pos, config, st, env) && !Lex(input, pos, "", 0).LexCommand?
    ensures PlaySvf(input, pos0, st0, env) == WithSync(if Lex(input, pos, "", 0).LexEof? then 0 else -1, st, env)
  {
    hide PlaySvf, Lex, ConfigWf;
  }

  /** One turn of the main loop: the run goes on, or how it ends. */
  method PlayCommand(h: Host, v: SvfVars, buffer0: array<char>, ghost pos0: nat, ghost st0: Player)
      returns (more: bool, rc: int, undefined: bool, buffer: array<char>)
    requires h.pos <= |h.input| && v.Valid() && h as object !in v.vectors && h as object != v
    requires Remaining(h.input, pos0, st0, h.pos, v.Config(), State(h), h.env)
    modifies h, v, v.vectors, buffer0
    ensures (buffer == buffer0 || fresh(buffer)) && h.pos <= |h.input|
    ensures if more then h.pos > old(h.pos) && v.Valid()
                         && Remaining(h.input, pos0, st0, h.pos, v.Config(), State(h), h.env)
            else PlaySvf(h.input, pos0, st0, h.env)
                 == if undefined then Played(rc, State(h), true) else WithSync(rc, State(h), h.env)
  {
    hide PlaySvf, Remaining, Command, CommandDone, Lex, ConfigWf, WithSync;
    ghost var pos, config, st := h.pos, v.Config(), State(h);
    var p;
    more, undefined := false, false;
    rc, buffer, p := ReadCommand(h, buffer0);
    LexProgress(h.input, pos, "", 0);
    if rc <= 0 {
      RemainingEnd(h.input, pos0, st0, pos, config, st, h.env);
      return;
    }
    var c := buffer[..p];
    var status := DoCommand(h, v, c);
    RemainingStep(h.input, pos0, st0, pos, config, st, h.env, c, h.pos, State(h), status);
    more, undefined := status == Ok, status == SvfScan.Undefined;
    rc := if more then rc else -1;
  }

  /** libxsvf_svf, for any input and any host. A run that C leaves undefined is
      given up where it becomes so. */
  method LibxsvfSvf(h: Host) returns (rc: int, undefined: bool)
    requires h.pos <= |h.input|
    modifies h
    ensures var r := PlaySvf(h.input, old(h.pos), old(State(h)), h.env);
            rc == r.rc && undefined == r.undefined && State(h) == r.st
  {
    var v := new SvfVars();
    var buffer := new char[0];
    var more := true;
    ghost var st0, pos0 := State(h), h.pos;
    rc, undefined := 0, false;
    RemainingStart(h.input, pos0, v.Config(), st0, h.env);
    hide PlaySvf, Remaining, ConfigWf;
    while more
      invariant fresh(v) && fresh(v.vectors) && fresh(buffer) && h.pos <= |h.input|
      invariant if more then v.Valid() && Remaining(h.input, pos0, st0, h.pos, v.Config(), State(h), h.env)
                else PlaySvf(h.input, pos0, st0, h.env)
                     == if undefined then Played(rc, State(h), true) else WithSync(rc, State(h), h.env)
      decreases more, |h.input| - h.pos
    {
      more, rc, undefined, buffer := PlayCommand(h, v, buffer, pos0, st0);
    }
    if undefined {
      return;
    }
    var sync := h.Request(Sync);
    if sync != 0 && rc >= 0 {
      rc := -1;
    }
  }
}
