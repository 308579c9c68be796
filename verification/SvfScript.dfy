/** What `libxsvf_svf` (svfload/libxsvf/svf.c) asks of the host, as a script
    that depends on the input alone: chunks of requests, some of which end the
    run when an answer in them is negative. */
module SvfScript {
  import opened HostApi
  import opened SvfBitdata
  import opened SvfLexer
  import opened SvfText
  import opened TapWalk

  /** `tap` is the tracked state once the chunk has been requested. */
  datatype Chunk = Chunk(acts: seq<Act>, checked: bool, tap: int)

  /** How a command, or a file, ends. Undefined: a literal overran its buffer. */
  datatype Outcome = Done | Failed | Undefined

  /** The local variables of libxsvf_svf. */
  datatype Config = Config(
    hdr: Bitdata, hir: Bitdata, tdr: Bitdata, tir: Bitdata, sdr: Bitdata, sir: Bitdata,
    endIr: int, endDr: int, run: int, endRun: int)

  const START := Config(EMPTY, EMPTY, EMPTY, EMPTY, EMPTY, EMPTY, IDLE, IDLE, IDLE, IDLE)

  ghost predicate ConfigWf(c: Config) {
    && Wf(c.hdr) && Wf(c.hir) && Wf(c.tdr) && Wf(c.tir) && Wf(c.sdr) && Wf(c.sir)
    && RESET <= c.run <= IRUPDATE && RESET <= c.endRun <= IRUPDATE
  }

  datatype Effect = Effect(config: Config, chunks: seq<Chunk>, tap: int, outcome: Outcome)

  function EndOfLine(p: string): Outcome {
    if SkipSpaces(p) == "" then Done else Failed
  }

  // ---------------------------------------------------------------------
  // Walks and scans
  // ---------------------------------------------------------------------

  datatype Steps = Steps(chunks: seq<Chunk>, tap: int, ok: bool)

  function WalkSteps(tap: int, s: int): Steps {
    var w := Walk(tap, s);
    Steps([Chunk(Transitions(w.tms), false, w.tap)], w.tap, w.ok)
  }

  function PlayChunk(bd: Bitdata, tap: int, estate: int): Chunk
    requires Wf(bd)
  {
    Chunk(PlayActs(bd, tap, estate), true, PlayTap(bd, tap, estate))
  }

  /** Header, data and trailer, shifted in the Shift state `shift`. */
  function ScanChunks(hdr: Bitdata, data: Bitdata, tdr: Bitdata, tap: int, shift: int, estate: int): (cs: seq<Chunk>)
    requires Wf(hdr) && Wf(data) && Wf(tdr)
    ensures |cs| == 3
  {
    var c1 := PlayChunk(hdr, tap, if data.len + tdr.len > 0 then shift else estate);
    var c2 := PlayChunk(data, c1.tap, if tdr.len > 0 then shift else estate);
    var c3 := PlayChunk(tdr, c2.tap, estate);
    [c1, c2, c3]
  }

  function Scan(hdr: Bitdata, data: Bitdata, tdr: Bitdata, tap: int, shift: int, estate: int): Steps
    requires Wf(hdr) && Wf(data) && Wf(tdr)
  {
    var w := WalkSteps(tap, shift);
    if !w.ok then w
    else
      var cs := ScanChunks(hdr, data, tdr, w.tap, shift, estate);
      var e := WalkSteps(cs[2].tap, estate);
      Steps(w.chunks + cs + e.chunks, e.tap, e.ok)
  }

  // ---------------------------------------------------------------------
  // RUNTEST
  // ---------------------------------------------------------------------

  datatype Runtest = Runtest(tck: int, sck: int, minTime: int, run: int, endRun: int)

  /** Repeated division or multiplication by ten. */
  function Scale(number: nat, exp: int): nat
    decreases if exp < 0 then -exp else exp
  {
    if exp < 0 then Scale(number / 10, exp + 1)
    else if exp > 0 then Scale(number * 10, exp - 1)
    else number
  }

  predicate StartsExponent(p: string) {
    StartsWith(p, 'E') || StartsWith(p, 'e')
  }

  /** A number with an optional exponent: its value, its value in millionths,
      and the rest of the text. */
  function ReadTime(p: string): (r: (nat, nat, string))
    requires StartsWithDigit(p)
    ensures |r.2| < |p|
  {
    var number := Decimal(p, 0);
    var q := p[DigitCount(p)..];
    if StartsExponent(q) then
      var negative := StartsWith(q[1..], '-');
      var t := if negative then q[2..] else q[1..];
      var size: int := Decimal(t, 0);
      var exp := if negative then -size else size;
      (Scale(number, exp), Scale(number, exp + 6), t[DigitCount(t)..])
    else
      (number, number * 1000000, q)
  }

  /** One argument, and what follows it; MAXIMUM times are read and ignored. */
  function RuntestArgument(p: string, r: Runtest): (a: Option<(Runtest, string)>)
    requires p != ""
    ensures a.Some? ==> |a.value.1| < |p|
  {
    var p1 := After1("MAXIMUM", p);
    var p2 := After1("ENDSTATE", p1);
    var st := TokenState(p2);
    if st >= 0 then
      Some((if Token(p1) == "ENDSTATE" then r.(endRun := st) else r.(run := st), SkipToken(p2)))
    else if !StartsWithDigit(p2) then None
    else
      var (number, millionths, rest) := ReadTime(p2);
      var q := SkipSpaces(rest);
      if Token(q) == "SEC" then
        Some((if Token(p) == "MAXIMUM" then r else r.(minTime := millionths), SkipToken(q)))
      else if Token(q) == "TCK" then Some((r.(tck := number), SkipToken(q)))
      else if Token(q) == "SCK" then Some((r.(sck := number), SkipToken(q)))
      else None
  }

  /** The loop over the arguments. */
  function ParseRuntest(p: string, r: Runtest): Option<Runtest>
    decreases |p|
  {
    if p == "" then Some(r)
    else
      var a := RuntestArgument(p, r);
      if a.None? then None else ParseRuntest(a.value.1, a.value.0)
  }

  function AtLeastZero(n: int): nat {
    if n >= 0 then n else 0
  }

  function RuntestSteps(r: Runtest, tap: int): Steps {
    var w := WalkSteps(tap, r.run);
    if !w.ok then w
    else
      var sck := Chunk(seq(AtLeastZero(r.sck), _ => Sck), false, w.tap);
      var wait := if r.minTime >= 0 || r.tck >= 0
                  then [Delay(AtLeastZero(r.minTime), false, AtLeastZero(r.tck))] else [];
      var e := WalkSteps(w.tap, r.endRun);
      Steps(w.chunks + [sck, Chunk(wait, false, w.tap)] + e.chunks, e.tap, e.ok)
  }

  // ---------------------------------------------------------------------
  // Commands
  // ---------------------------------------------------------------------

  function Finish(config: Config, s: Steps, p: string): Effect {
    Effect(config, s.chunks, s.tap, if s.ok then EndOfLine(p) else Failed)
  }

  function Stay(tap: int): Steps {
    Steps([], tap, true)
  }

  function Give(config: Config, tap: int, outcome: Outcome): Effect {
    Effect(config, [], tap, outcome)
  }

  /** ENDDR checks the variable that ENDIR sets. */
  function EndStateCommand(config: Config, tap: int, p: string, dr: bool): Effect {
    var st := TokenState(p);
    var c := if dr then config.(endDr := st) else config.(endIr := st);
    if c.endIr < 0 then Give(c, tap, Failed) else Finish(c, Stay(tap), SkipToken(p))
  }

  /** A bit vector command: the vector it changes, or how it fails. */
  function Vector(bd: Bitdata, p: string): (r: (Bitdata, Outcome))
    ensures r.1 == Done ==> ParseBits(p).Parsed?
  {
    ParseBitsFits(p);
    match ParseBits(p)
    case Parsed(cmd) => (Apply(bd, cmd), Done)
    case Bad => (bd, Failed)
    case OverrunBits => (bd, Undefined)
  }

  function FrequencyCommand(config: Config, tap: int, p: string): Effect {
    if !StartsWithDigit(p) then Give(config, tap, Failed)
    else
      var q := p[DigitCount(p)..];
      var t := if StartsExponent(q) then q[1..] else q;
      var exp := if StartsExponent(q) then Decimal(t, 0) else 0;
      var rest := if StartsExponent(q) then t[DigitCount(t)..] else q;
      Finish(config, Steps([Chunk([Frequency(Scale(Decimal(p, 0), exp))], true, tap)], tap, true),
             SkipToken(SkipSpaces(rest)))
  }

  function StateSteps(p: string, tap: int): (r: (Steps, Outcome))
    ensures r.1 != Undefined
    decreases |p|
  {
    if p == "" then (Stay(tap), Done)
    else
      var st := TokenState(p);
      if st < 0 then (Stay(tap), Failed)
      else
        var w := WalkSteps(tap, st);
        if !w.ok then (w, Failed)
        else
          var (s, o) := StateSteps(SkipToken(p), w.tap);
          (Steps(w.chunks + s.chunks, s.tap, s.ok), o)
  }

  function TrstValue(p: string): Option<int> {
    var t := Token(p);
    if t == "ON" then Some(1) else if t == "OFF" then Some(0)
    else if t == "Z" then Some(-1) else if t == "ABSENT" then Some(-2) else None
  }

  function DrScan(config: Config, tap: int): Steps
    requires ConfigWf(config)
  {
    Scan(config.hdr, config.sdr, config.tdr, tap, DRSHIFT, config.endDr)
  }

  function IrScan(config: Config, tap: int): Steps
    requires ConfigWf(config)
  {
    Scan(config.hir, config.sir, config.tir, tap, IRSHIFT, config.endIr)
  }

  /** HDR, HIR, TDR, TIR, SDR and SIR: the configuration with the new vector. */
  function VectorConfig(config: Config, name: string, p: string): (Config, Outcome)
  {
    if name == "HDR" then var (bd, o) := Vector(config.hdr, p); (config.(hdr := bd), o)
    else if name == "HIR" then var (bd, o) := Vector(config.hir, p); (config.(hir := bd), o)
    else if name == "TDR" then var (bd, o) := Vector(config.tdr, p); (config.(tdr := bd), o)
    else if name == "TIR" then var (bd, o) := Vector(config.tir, p); (config.(tir := bd), o)
    else if name == "SDR" then var (bd, o) := Vector(config.sdr, p); (config.(sdr := bd), o)
    else var (bd, o) := Vector(config.sir, p); (config.(sir := bd), o)
  }

  lemma VectorConfigWf(config: Config, name: string, p: string)
    requires ConfigWf(config)
    ensures ConfigWf(VectorConfig(config, name, p).0)
  {
    hide Wf, ParseBits, Apply, Fits;
    var r := ParseBits(p);
    ParseBitsFits(p);
    if r.Parsed? {
      ApplyWf(config.hdr, r.cmd);
      ApplyWf(config.hir, r.cmd);
      ApplyWf(config.tdr, r.cmd);
      ApplyWf(config.tir, r.cmd);
      ApplyWf(config.sdr, r.cmd);
      ApplyWf(config.sir, r.cmd);
    }
  }

  function VectorCommand(config: Config, tap: int, name: string, p: string): Effect
    requires ConfigWf(config)
  {
    var (c, o) := VectorConfig(config, name, p);
    VectorConfigWf(config, name, p);
    if o != Done then Give(c, tap, o)
    else if name == "SDR" then Finish(c, DrScan(c, tap), "")
    else if name == "SIR" then Finish(c, IrScan(c, tap), "")
    else Give(c, tap, Done)
  }

  function RuntestCommand(config: Config, tap: int, p: string): Effect {
    var r := ParseRuntest(p, Runtest(-1, -1, -1, config.run, config.endRun));
    if r.None? then Give(config, tap, Failed)
    else Finish(config.(run := r.value.run, endRun := r.value.endRun), RuntestSteps(r.value, tap), "")
  }

  function TrstCommand(config: Config, tap: int, p: string): Effect {
    var v := TrstValue(p);
    if v.None? then Give(config, tap, Failed)
    else Finish(config, Steps([Chunk([Trst(v.value)], false, tap)], tap, true), SkipToken(p))
  }

  const VECTOR_COMMANDS: set<string> := {"HDR", "HIR", "TDR", "TIR", "SDR", "SIR"}

  /** One command. An unknown one is an error unless it is empty. */
  function Command(config: Config, tap: int, c: string): Effect
    requires ConfigWf(config)
  {
    var name, p := Token(c), SkipToken(c);
    if name == "ENDIR" then EndStateCommand(config, tap, p, false)
    else if name == "ENDDR" then EndStateCommand(config, tap, p, true)
    else if name == "FREQUENCY" then FrequencyCommand(config, tap, p)
    else if name in VECTOR_COMMANDS then VectorCommand(config, tap, name, p)
    else if name == "PIO" || name == "PIOMAP" then Give(config, tap, Failed)
    else if name == "RUNTEST" then RuntestCommand(config, tap, p)
    else if name == "STATE" then
      var (s, o) := StateSteps(p, tap);
      Effect(config, s.chunks, s.tap, o)
    else if name == "TRST" then TrstCommand(config, tap, p)
    else Finish(config, Stay(tap), c)
  }

  lemma {:induction false} ParseRuntestWf(p: string, r: Runtest)
    requires RESET <= r.run <= IRUPDATE && RESET <= r.endRun <= IRUPDATE
    ensures var t := ParseRuntest(p, r);
            t.Some? ==> RESET <= t.value.run <= IRUPDATE && RESET <= t.value.endRun <= IRUPDATE
    decreases |p|
  {
    if p != "" {
      var a := RuntestArgument(p, r);
      if a.Some? {
        ParseRuntestWf(a.value.1, a.value.0);
      }
    }
  }

  lemma CommandWf(config: Config, tap: int, c: string)
    requires ConfigWf(config)
    ensures ConfigWf(Command(config, tap, c).config)
  {
    var name, p := Token(c), SkipToken(c);
    if name in VECTOR_COMMANDS {
      VectorConfigWf(config, name, p);
    } else if name == "RUNTEST" {
      ParseRuntestWf(p, Runtest(-1, -1, -1, config.run, config.endRun));
    }
  }

  // ---------------------------------------------------------------------
  // Whole files
  // ---------------------------------------------------------------------

  datatype Script = Script(chunks: seq<Chunk>, end: Outcome)

  /** The script of the input from position `pos`. */
  function Compile(input: string, pos: nat, config: Config, tap: int): Script
    requires ConfigWf(config)
    decreases |input| - pos
  {
    match Lex(input, pos, "", 0)
    case LexEof => Script([], Done)
    case LexError => Script([], Failed)
    case LexCommand(c, next) =>
      LexProgress(input, pos, "", 0);
      CommandWf(config, tap, c);
      var e := Command(config, tap, c);
      if e.outcome != Done then Script(e.chunks, e.outcome)
      else
        var rest := Compile(input, next, e.config, e.tap);
        Script(e.chunks + rest.chunks, rest.end)
  }

  function Request(st: Player, c: Chunk): Player {
    Player(c.tap, st.log + c.acts)
  }

  predicate Stops(st: Player, c: Chunk, env: Env) {
    c.checked && AnyNegative(st.log, c.acts, env)
  }

  /** Requests the chunks in turn until one of them ends the run. */
  function RunChunks(st: Player, cs: seq<Chunk>, env: Env): (Player, bool)
    decreases |cs|
  {
    if cs == [] then (st, true)
    else if Stops(st, cs[0], env) then (Request(st, cs[0]), false)
    else RunChunks(Request(st, cs[0]), cs[1..], env)
  }

  datatype Played = Played(rc: int, st: Player, undefined: bool)

  function WithSync(rc: int, st: Player, env: Env): Played {
    var log := st.log + [Sync];
    Played(if env(log) != 0 && rc >= 0 then -1 else rc, Player(st.tap, log), false)
  }

  function RunScript(s: Script, st: Player, env: Env): Played {
    var (st', ok) := RunChunks(st, s.chunks, env);
    if ok && s.end == Undefined then Played(-1, st', true)
    else WithSync(if ok && s.end == Done then 0 else -1, st', env)
  }

  /** libxsvf_svf. */
  function PlaySvf(input: string, pos: nat, st: Player, env: Env): Played {
    RunScript(Compile(input, pos, START, st.tap), st, env)
  }

  lemma {:induction false} RunChunksConcat(st: Player, a: seq<Chunk>, b: seq<Chunk>, env: Env)
    ensures var (st', ok) := RunChunks(st, a, env);
            RunChunks(st, a + b, env) == if ok then RunChunks(st', b, env) else (st', false)
    decreases |a|
  {
    if a == [] {
      assert a + b == b;
    } else {
      assert (a + b)[1..] == a[1..] + b;
      RunChunksConcat(Request(st, a[0]), a[1..], b, env);
    }
  }

  function ActsOf(cs: seq<Chunk>): seq<Act> {
    if cs == [] then [] else cs[0].acts + ActsOf(cs[1..])
  }

  /** A run that no answer stops has made every request. */
  lemma {:induction false} RunsThrough(st: Player, cs: seq<Chunk>, env: Env)
    ensures var (st', ok) := RunChunks(st, cs, env); ok ==> st'.log == st.log + ActsOf(cs)
    decreases |cs|
  {
    if cs == [] {
      assert st.log + [] == st.log;
    } else if !Stops(st, cs[0], env) {
      RunsThrough(Request(st, cs[0]), cs[1..], env);
      assert st.log + cs[0].acts + ActsOf(cs[1..]) == st.log + (cs[0].acts + ActsOf(cs[1..]));
    }
  }
}
