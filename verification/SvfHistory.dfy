/** What SDR and SIR clock, in terms of the commands of the file so far
    (svfload/libxsvf/svf.c:346-567). */
module SvfHistory {
  import opened HostApi
  import opened SvfBitdata
  import opened SvfEndState
  import opened SvfLexer
  import opened SvfMeaning
  import opened SvfScript
  import opened SvfText
  import opened SvfTracking
  import opened TapWalk

  // ---------------------------------------------------------------------
  // The commands so far
  // ---------------------------------------------------------------------

  /** The bit vectors given to the commands called `name`. */
  function Given(es: seq<Execution>, name: string): seq<BitCommand> {
    if es == [] then []
    else
      var n := |es| - 1;
      var bits := ParseBits(SkipToken(es[n].command));
      Given(es[..n], name) + (if Token(es[n].command) == name && bits.Parsed? then [bits.cmd] else [])
  }

  /** The state that the latest command called `name` names, Run-Test/Idle before. */
  function EndGiven(es: seq<Execution>, name: string): int {
    if es == [] then IDLE
    else
      var n := |es| - 1;
      if Token(es[n].command) == name then TokenState(SkipToken(es[n].command)) else EndGiven(es[..n], name)
  }

  lemma {:induction false} GivenFits(es: seq<Execution>, name: string)
    ensures AllFit(Given(es, name))
    decreases |es|
  {
    if es != [] {
      var n := |es| - 1;
      GivenFits(es[..n], name);
      ParseBitsFits(SkipToken(es[n].command));
    }
  }

  lemma GivenSnoc(es: seq<Execution>, x: Execution, name: string)
    ensures var bits := ParseBits(SkipToken(x.command));
            Given(es + [x], name)
            == Given(es, name) + (if Token(x.command) == name && bits.Parsed? then [bits.cmd] else [])
    ensures EndGiven(es + [x], name)
            == if Token(x.command) == name then TokenState(SkipToken(x.command)) else EndGiven(es, name)
  {
    hide Token, SkipToken, ParseBits, TokenState;
    assert (es + [x])[..|es|] == es;
  }

  // ---------------------------------------------------------------------
  // The levels of one part of a scan
  // ---------------------------------------------------------------------

  function Length(cmds: seq<BitCommand>): nat {
    if cmds == [] then 0 else cmds[|cmds| - 1].len
  }

  /** The literal in force: the latest one for a field in the trailing commands of
      one length. */
  function Literal(cmds: seq<BitCommand>, f: Field): Option<string> {
    if cmds == [] then None else LastGiven(TrailingEntries(cmds), f)
  }

  /** A mask that was not given selects every bit. */
  predicate Chosen(cmds: seq<BitCommand>, mask: Field, k: nat) {
    Literal(cmds, mask).Some? ==> LiteralBit(Literal(cmds, mask).value, k)
  }

  /** Bit `k` on TDI, where it is driven. */
  function TdiLevel(cmds: seq<BitCommand>, k: nat): Option<bool> {
    var l := Literal(cmds, Tdi);
    if l.Some? && Chosen(cmds, Smask, k) then Some(LiteralBit(l.value, k)) else None
  }

  /** Bit `k` that TDO is to show, where it is checked: by a last command with TDO. */
  function TdoLevel(cmds: seq<BitCommand>, k: nat): Option<bool> {
    var l := Literal(cmds, Tdo);
    if cmds != [] && SawTdo(cmds[|cmds| - 1].entries) && l.Some? && Chosen(cmds, Mask, k)
    then Some(LiteralBit(l.value, k)) else None
  }

  /** Whether what TDO shows is kept. */
  predicate Keeps(cmds: seq<BitCommand>, k: nat) {
    var l := Literal(cmds, Rmask);
    l.Some? && LiteralBit(l.value, k)
  }

  function PartPulse(cmds: seq<BitCommand>, k: nat, tms: bool): Act {
    Pulse(tms, TdiLevel(cmds, k), TdoLevel(cmds, k), Keeps(cmds, k), false)
  }

  lemma InForceAfter(cmds: seq<BitCommand>, f: Field)
    requires AllFit(cmds)
    ensures AfterCommands(cmds).len == Length(cmds)
    ensures InForce(AfterCommands(cmds), f, Literal(cmds, f))
  {
    if cmds != [] {
      StickyParameters(cmds, f);
    }
  }

  lemma {:induction false} AfterWf(cmds: seq<BitCommand>)
    requires AllFit(cmds)
    ensures Wf(AfterCommands(cmds))
    decreases |cmds|
  {
    if cmds != [] {
      var n := |cmds| - 1;
      AfterWf(cmds[..n]);
      ApplyWf(AfterCommands(cmds[..n]), cmds[n]);
    }
  }

  lemma BitInForce(bd: Bitdata, f: Field, given: Option<string>, k: nat)
    requires Wf(bd) && k < bd.len && InForce(bd, f, given)
    ensures f in bd.field <==> given.Some?
    ensures given.Some? ==> VectorBit(bd, f, k) == LiteralBit(given.value, k)
  {
    if given.Some? {
      FillBit(Bytes(bd.len), given.value, k);
    }
  }

  lemma PartBits(cmds: seq<BitCommand>, f: Field, k: nat)
    requires AllFit(cmds) && k < Length(cmds)
    ensures var bd := AfterCommands(cmds);
            && bd.len == Length(cmds) && Wf(bd)
            && (f in bd.field <==> Literal(cmds, f).Some?)
            && (f in bd.field ==> VectorBit(bd, f, k) == LiteralBit(Literal(cmds, f).value, k))
  {
    hide AfterCommands, Literal, InForce, VectorBit, LiteralBit, Wf, AllFit;
    AfterWf(cmds);
    InForceAfter(cmds, f);
    BitInForce(AfterCommands(cmds), f, Literal(cmds, f), k);
  }

  /** A part's `k`-th pulse is the literals' bit `k`. */
  lemma PartPulseIs(cmds: seq<BitCommand>, k: nat, tms: bool)
    requires AllFit(cmds) && k < Length(cmds)
    ensures AfterCommands(cmds).len == Length(cmds) && Wf(AfterCommands(cmds))
    ensures WithTms(PulseAt(AfterCommands(cmds), k, false), tms) == PartPulse(cmds, k, tms)
  {
    TdoIsNotSticky(cmds);
    hide AfterCommands, Literal, LiteralBit, VectorBit, SawTdo, InForce, AllFit, LastGiven;
    PartBits(cmds, Tdi, k);
    PartBits(cmds, Tdo, k);
    PartBits(cmds, Smask, k);
    PartBits(cmds, Mask, k);
    PartBits(cmds, Rmask, k);
  }

  /** Bit `k` of a scan: header, data and trailer, TMS high on the last one if the
      Shift state is left. */
  function ScanPulse(hs: seq<BitCommand>, ds: seq<BitCommand>, ts: seq<BitCommand>, leaves: bool, k: nat): Act {
    var h, d, n := Length(hs), Length(hs) + Length(ds), Length(hs) + Length(ds) + Length(ts);
    var tms := leaves && k == n - 1;
    if k < h then PartPulse(hs, k, tms) else if k < d then PartPulse(ds, k - h, tms) else PartPulse(ts, k - d, tms)
  }

  function ScanPulses(hs: seq<BitCommand>, ds: seq<BitCommand>, ts: seq<BitCommand>, leaves: bool): (acts: seq<Act>)
    ensures |acts| == Length(hs) + Length(ds) + Length(ts)
    ensures forall k :: 0 <= k < |acts| ==> acts[k] == ScanPulse(hs, ds, ts, leaves, k)
  {
    seq(Length(hs) + Length(ds) + Length(ts), k requires 0 <= k => ScanPulse(hs, ds, ts, leaves, k))
  }

  lemma Vectors(cmds: seq<BitCommand>) returns (bd: Bitdata)
    requires AllFit(cmds)
    ensures bd == AfterCommands(cmds) && Wf(bd) && bd.len == Length(cmds)
  {
    bd := AfterCommands(cmds);
    AfterWf(cmds);
    InForceAfter(cmds, Tdi);
  }

  lemma ScanPulseIs(hs: seq<BitCommand>, ds: seq<BitCommand>, ts: seq<BitCommand>, h: Bitdata, d: Bitdata, t: Bitdata,
                    leaves: bool, k: nat)
    requires AllFit(hs) && AllFit(ds) && AllFit(ts)
    requires h == AfterCommands(hs) && d == AfterCommands(ds) && t == AfterCommands(ts)
    requires Wf(h) && Wf(d) && Wf(t) && h.len == Length(hs) && d.len == Length(ds) && t.len == Length(ts)
    requires k < Total(h, d, t)
    ensures WithTms(ScanBit(h, d, t, k), leaves && k == Total(h, d, t) - 1) == ScanPulse(hs, ds, ts, leaves, k)
  {
    hide AfterCommands, PartPulse, PulseAt, Wf, WithTms, AllFit, Length;
    var tms := leaves && k == Total(h, d, t) - 1;
    if k < h.len {
      PartPulseIs(hs, k, tms);
    } else if k < h.len + d.len {
      PartPulseIs(ds, k - h.len, tms);
    } else {
      PartPulseIs(ts, k - h.len - d.len, tms);
    }
  }

  lemma ScanActsAre(hs: seq<BitCommand>, ds: seq<BitCommand>, ts: seq<BitCommand>, shift: int, estate: int)
      returns (h: Bitdata, d: Bitdata, t: Bitdata)
    requires AllFit(hs) && AllFit(ds) && AllFit(ts)
    ensures h == AfterCommands(hs) && d == AfterCommands(ds) && t == AfterCommands(ts) && Wf(h) && Wf(d) && Wf(t)
    ensures var cs := ScanChunks(h, d, t, shift, shift, estate);
            && ScanActs(cs) == ScanPulses(hs, ds, ts, estate != shift)
            && cs[2].tap
               == if Length(hs) + Length(ds) + Length(ts) > 0 && estate != shift then shift + 1 else shift
  {
    hide AfterCommands, ScanChunks, ScanActs, ScanPulse, Wf, WithTms, AllFit, Length, VectorBit, Selected;
    h := Vectors(hs);
    d := Vectors(ds);
    t := Vectors(ts);
    ScanIsItsBits(h, d, t, shift, estate);
    var acts, n := ScanActs(ScanChunks(h, d, t, shift, shift, estate)), Total(h, d, t);
    forall k: nat | k < n
      ensures acts[k] == ScanPulse(hs, ds, ts, estate != shift, k)
    {
      ScanPulseIs(hs, ds, ts, h, d, t, estate != shift, k);
      assert acts[k] == WithTms(ScanBit(h, d, t, k), k == n - 1 && estate != shift);
    }
    assert acts == ScanPulses(hs, ds, ts, estate != shift);
  }

  // ---------------------------------------------------------------------
  // What the interpreter's variables hold
  // ---------------------------------------------------------------------

  function VectorOf(config: Config, name: string): Bitdata {
    if name == "HDR" then config.hdr else if name == "HIR" then config.hir
    else if name == "TDR" then config.tdr else if name == "TIR" then config.tir
    else if name == "SDR" then config.sdr else config.sir
  }

  function EndOf(config: Config, name: string): int {
    if name == "ENDDR" then config.endDr else config.endIr
  }

  /** The variables after the commands so far. */
  ghost predicate Recorded(es: seq<Execution>, config: Config) {
    && (forall name :: name in VECTOR_COMMANDS ==>
          AllFit(Given(es, name)) && VectorOf(config, name) == AfterCommands(Given(es, name)))
    && EndOf(config, "ENDDR") == EndGiven(es, "ENDDR") && EndOf(config, "ENDIR") == EndGiven(es, "ENDIR")
  }

  /** Only the named vector changes. */
  ghost predicate SameVectors(a: Config, b: Config) {
    a.hdr == b.hdr && a.hir == b.hir && a.tdr == b.tdr && a.tir == b.tir && a.sdr == b.sdr && a.sir == b.sir
  }

  function WithVector(config: Config, w: string, bd: Bitdata): Config {
    if w == "HDR" then config.(hdr := bd) else if w == "HIR" then config.(hir := bd)
    else if w == "TDR" then config.(tdr := bd) else if w == "TIR" then config.(tir := bd)
    else if w == "SDR" then config.(sdr := bd) else config.(sir := bd)
  }

  lemma VectorConfigIs(config: Config, w: string, p: string)
    ensures VectorConfig(config, w, p)
            == (WithVector(config, w, Vector(VectorOf(config, w), p).0), Vector(VectorOf(config, w), p).1)
  {
    hide Vector;
  }

  lemma OtherVector(config: Config, w: string, bd: Bitdata, name: string)
    requires w in VECTOR_COMMANDS && name in VECTOR_COMMANDS
    ensures VectorOf(WithVector(config, w, bd), name) == if name == w then bd else VectorOf(config, name)
    ensures WithVector(config, w, bd).endDr == config.endDr && WithVector(config, w, bd).endIr == config.endIr
  {
  }

  lemma IsVector(config: Config, tap: int, c: string)
    requires ConfigWf(config) && Token(c) in VECTOR_COMMANDS
    ensures Command(config, tap, c) == VectorCommand(config, tap, Token(c), SkipToken(c))
  {
    hide VectorCommand, EndStateCommand, ConfigWf;
    var w := Token(c);
    hide Token, SkipToken;
    assert w[0] in "HTS" && |w| == 3;
  }

  lemma ScansKeep(config: Config, tap: int, w: string, p: string)
    requires ConfigWf(config)
    ensures VectorCommand(config, tap, w, p).config == VectorConfig(config, w, p).0
    ensures VectorCommand(config, tap, w, p).outcome == Done ==> VectorConfig(config, w, p).1 == Done
  {
    hide VectorConfig, DrScan, IrScan, ConfigWf;
  }

  /** The other commands leave the vectors alone. */
  lemma OthersKeep(config: Config, tap: int, c: string)
    requires ConfigWf(config) && Token(c) !in VECTOR_COMMANDS
    ensures SameVectors(Command(config, tap, c).config, config)
    ensures Token(c) !in {"ENDDR", "ENDIR"} ==>
              var next := Command(config, tap, c).config; next.endDr == config.endDr && next.endIr == config.endIr
  {
    hide TokenState, ParseRuntest, StateSteps, TrstValue, VectorCommand, ConfigWf;
    var w, p := Token(c), SkipToken(c);
    hide Token, SkipToken;
  }

  lemma SameVectorOf(a: Config, b: Config, name: string)
    requires SameVectors(a, b)
    ensures VectorOf(a, name) == VectorOf(b, name)
  {
  }

  /** A vector command changes its own vector by what it gives, and no other. */
  lemma VectorChanges(config: Config, tap: int, c: string, name: string)
    requires ConfigWf(config) && name in VECTOR_COMMANDS && Command(config, tap, c).outcome == Done
    ensures var next, bits := Command(config, tap, c).config, ParseBits(SkipToken(c));
            if Token(c) == name then bits.Parsed? && Fits(bits.cmd.entries, bits.cmd.len)
                                     && VectorOf(next, name) == Apply(VectorOf(config, name), bits.cmd)
            else VectorOf(next, name) == VectorOf(config, name)
  {
    hide Command, VectorCommand, VectorConfig, ParseBits, Token, SkipToken, ConfigWf, Fits, Apply, VectorOf, WithVector;
    var w, p := Token(c), SkipToken(c);
    ParseBitsFits(p);
    if w in VECTOR_COMMANDS {
      IsVector(config, tap, c);
      ScansKeep(config, tap, w, p);
      VectorConfigIs(config, w, p);
      OtherVector(config, w, Vector(VectorOf(config, w), p).0, name);
    } else {
      OthersKeep(config, tap, c);
      SameVectorOf(Command(config, tap, c).config, config, name);
    }
  }

  lemma IsEnd(config: Config, tap: int, c: string)
    requires ConfigWf(config) && Token(c) in {"ENDDR", "ENDIR"}
    ensures Command(config, tap, c) == EndStateCommand(config, tap, SkipToken(c), Token(c) == "ENDDR")
  {
    hide EndStateCommand, ConfigWf;
    var w := Token(c);
    hide Token, SkipToken;
    assert "ENDDR"[3] != "ENDIR"[3];
  }

  /** ENDDR and ENDIR change their own variable. */
  lemma EndChanges(config: Config, tap: int, c: string, name: string)
    requires ConfigWf(config) && name in {"ENDDR", "ENDIR"} && Command(config, tap, c).outcome == Done
    ensures EndOf(Command(config, tap, c).config, name)
            == if Token(c) == name then TokenState(SkipToken(c)) else EndOf(config, name)
  {
    hide Command, VectorCommand, VectorConfig, Token, SkipToken, ConfigWf, TokenState;
    var w, p := Token(c), SkipToken(c);
    assert "ENDDR"[3] != "ENDIR"[3];
    if w in {"ENDDR", "ENDIR"} {
      IsEnd(config, tap, c);
    } else if w in VECTOR_COMMANDS {
      IsVector(config, tap, c);
      ScansKeep(config, tap, w, p);
      VectorConfigIs(config, w, p);
      OtherVector(config, w, Vector(VectorOf(config, w), p).0, "SDR");
    } else {
      OthersKeep(config, tap, c);
    }
  }

  lemma GivenApplied(es: seq<Execution>, x: Execution, name: string, bd: Bitdata, next: Bitdata)
    requires AllFit(Given(es, name)) && bd == AfterCommands(Given(es, name))
    requires var bits := ParseBits(SkipToken(x.command));
             if Token(x.command) == name then bits.Parsed? && Fits(bits.cmd.entries, bits.cmd.len)
                                              && next == Apply(bd, bits.cmd)
             else next == bd
    ensures AllFit(Given(es + [x], name)) && next == AfterCommands(Given(es + [x], name))
  {
    hide Token, SkipToken, ParseBits, Apply, Given, Fits;
    GivenSnoc(es, x, name);
    GivenFits(es + [x], name);
    var before := Given(es, name);
    if Token(x.command) == name {
      var cmd := ParseBits(SkipToken(x.command)).cmd;
      assert (before + [cmd])[..|before|] == before;
    } else {
      assert before + [] == before;
    }
  }

  lemma RecordedNext(es: seq<Execution>, x: Execution)
    requires ConfigWf(x.config) && Recorded(es, x.config)
    requires Command(x.config, x.tap, x.command).outcome == Done
    ensures Recorded(es + [x], Command(x.config, x.tap, x.command).config)
  {
    hide Command, Given, EndGiven, AfterCommands, VectorOf, EndOf, Token, SkipToken, ConfigWf, TokenState, ParseBits,
      Apply, AllFit;
    var next := Command(x.config, x.tap, x.command).config;
    forall name | name in VECTOR_COMMANDS
      ensures AllFit(Given(es + [x], name)) && VectorOf(next, name) == AfterCommands(Given(es + [x], name))
    {
      VectorChanges(x.config, x.tap, x.command, name);
      GivenApplied(es, x, name, VectorOf(x.config, name), VectorOf(next, name));
    }
    GivenSnoc(es, x, "ENDDR");
    GivenSnoc(es, x, "ENDIR");
    EndChanges(x.config, x.tap, x.command, "ENDDR");
    EndChanges(x.config, x.tap, x.command, "ENDIR");
  }

  // ---------------------------------------------------------------------
  // Whole runs
  // ---------------------------------------------------------------------

  /** Each command finds the variables that the one before it left. */
  lemma {:induction false} ExecutedNext(input: string, pos: nat, config: Config, tap: int, i: nat)
    requires ConfigWf(config)
    ensures var es := Executed(input, pos, config, tap);
            && (es != [] ==> es[0].config == config && es[0].tap == tap)
            && (i + 1 < |es| ==> var e := Command(es[i].config, es[i].tap, es[i].command);
                                 e.outcome == Done && es[i + 1].config == e.config && es[i + 1].tap == e.tap)
    decreases |input| - pos
  {
    hide Command, Lex, ConfigWf;
    var r := Lex(input, pos, "", 0);
    if r.LexCommand? {
      LexProgress(input, pos, "", 0);
      CommandWf(config, tap, r.command);
      var e := Command(config, tap, r.command);
      if e.outcome == Done {
        ExecutedNext(input, r.next, e.config, e.tap, if i > 0 then i - 1 else 0);
      }
    }
  }

  lemma NothingRecorded()
    ensures Recorded([], START)
  {
  }

  /** In a run the variables hold what the commands before have given. */
  lemma {:induction false} RecordedInRun(input: string, pos: nat, tap: int, i: nat)
    requires i < |Executed(input, pos, START, tap)|
    ensures var es := Executed(input, pos, START, tap); Recorded(es[..i], es[i].config)
    decreases i
  {
    hide Command, Recorded, Executed;
    var es := Executed(input, pos, START, tap);
    if i == 0 {
      ExecutedNext(input, pos, START, tap, 0);
      NothingRecorded();
      assert es[..0] == [];
    } else {
      var n := i - 1;
      RecordedInRun(input, pos, tap, n);
      ExecutedNext(input, pos, START, tap, n);
      RecordedNext(es[..n], es[n]);
      assert es[..n] + [es[n]] == es[..i];
    }
  }

  /** The names that belong to a scan. */
  datatype ScanNames = ScanNames(header: string, data: string, trailer: string, end: string, shift: int)

  const DR_SCAN := ScanNames("HDR", "SDR", "TDR", "ENDDR", DRSHIFT)
  const IR_SCAN := ScanNames("HIR", "SIR", "TIR", "ENDIR", IRSHIFT)

  /** What SDR or SIR requests after the commands `es`, `data` being the vectors given
      to it so far, its own included: the walk in, the literals' bits in the order
      header, data, trailer, and the walk to the end state. */
  function ScanRequests(es: seq<Execution>, data: seq<BitCommand>, n: ScanNames, tap: int): seq<Act> {
    var hs, ts, end := Given(es, n.header), Given(es, n.trailer), EndGiven(es, n.end);
    var left := Length(hs) + Length(data) + Length(ts) > 0 && end != n.shift;
    Transitions(Walk(tap, n.shift).tms) + ScanPulses(hs, data, ts, end != n.shift)
    + Transitions(Walk(if left then n.shift + 1 else n.shift, end).tms)
  }

  lemma ScanRequested(hs: seq<BitCommand>, ds: seq<BitCommand>, ts: seq<BitCommand>, tap: int, shift: int, estate: int)
      returns (h: Bitdata, d: Bitdata, t: Bitdata)
    requires AllFit(hs) && AllFit(ds) && AllFit(ts) && Walk(tap, shift).ok && Walk(tap, shift).tap == shift
    ensures h == AfterCommands(hs) && d == AfterCommands(ds) && t == AfterCommands(ts) && Wf(h) && Wf(d) && Wf(t)
    ensures var left := Length(hs) + Length(ds) + Length(ts) > 0 && estate != shift;
            ActsOf(Scan(h, d, t, tap, shift, estate).chunks)
            == Transitions(Walk(tap, shift).tms) + ScanPulses(hs, ds, ts, estate != shift)
               + Transitions(Walk(if left then shift + 1 else shift, estate).tms)
  {
    hide AfterCommands, ScanChunks, ScanActs, ScanPulses, Walk, Transitions, ActsOf, Scan, Length, Wf, AllFit;
    h, d, t := ScanActsAre(hs, ds, ts, shift, estate);
    var w, e, parts := ScanPieces(h, d, t, tap, shift, estate);
    FiveActs(w, parts, e);
  }

  lemma {:induction false} LegalInRun(input: string, pos: nat, tap: int, i: nat)
    requires Legal(tap) && i < |Executed(input, pos, START, tap)|
    ensures Legal(Executed(input, pos, START, tap)[i].tap)
    decreases i
  {
    hide Command, Executed, AllTrack, Legal;
    if i == 0 {
      ExecutedNext(input, pos, START, tap, 0);
    } else {
      var n := i - 1;
      LegalInRun(input, pos, tap, n);
      ExecutedNext(input, pos, START, tap, n);
      var x := Executed(input, pos, START, tap)[n];
      CommandTracks(x.config, x.tap, x.command);
    }
  }

  lemma DrScanIs(config: Config, tap: int, p: string)
    requires ConfigWf(config) && ParseBits(p).Parsed?
    ensures var e, bd := VectorCommand(config, tap, "SDR", p), Vector(config.sdr, p).0;
            Wf(bd) && e.chunks == Scan(config.hdr, bd, config.tdr, tap, DRSHIFT, config.endDr).chunks
  {
    VectorConfigWf(config, "SDR", p);
    hide ParseBits, Apply, Scan;
  }

  lemma IrScanIs(config: Config, tap: int, p: string)
    requires ConfigWf(config) && ParseBits(p).Parsed?
    ensures var e, bd := VectorCommand(config, tap, "SIR", p), Vector(config.sir, p).0;
            Wf(bd) && e.chunks == Scan(config.hir, bd, config.tir, tap, IRSHIFT, config.endIr).chunks
  {
    VectorConfigWf(config, "SIR", p);
    hide ParseBits, Apply, Scan;
  }

  /** Which scan a command makes. */
  function NamesOf(name: string): ScanNames {
    if name == "SDR" then DR_SCAN else IR_SCAN
  }

  lemma RecordedFields(es: seq<Execution>, c: Config)
    requires Recorded(es, c)
    ensures c.hdr == AfterCommands(Given(es, "HDR")) && c.hir == AfterCommands(Given(es, "HIR"))
    ensures c.sdr == AfterCommands(Given(es, "SDR")) && c.sir == AfterCommands(Given(es, "SIR"))
    ensures c.tdr == AfterCommands(Given(es, "TDR")) && c.tir == AfterCommands(Given(es, "TIR"))
    ensures c.endDr == EndGiven(es, "ENDDR") && c.endIr == EndGiven(es, "ENDIR")
  {
    hide Given, AfterCommands, EndGiven;
    assert VectorOf(c, "HDR") == c.hdr && VectorOf(c, "HIR") == c.hir && VectorOf(c, "SDR") == c.sdr;
    assert VectorOf(c, "SIR") == c.sir && VectorOf(c, "TDR") == c.tdr && VectorOf(c, "TIR") == c.tir;
    assert EndOf(c, "ENDDR") == c.endDr && EndOf(c, "ENDIR") == c.endIr;
  }

  /** The vector of the command itself. */
  lemma OwnVector(es: seq<Execution>, x: Execution, name: string, bd: Bitdata)
    requires Token(x.command) == name && ParseBits(SkipToken(x.command)).Parsed?
    requires AllFit(Given(es, name)) && bd == AfterCommands(Given(es, name))
    ensures AllFit(Given(es + [x], name))
    ensures Vector(bd, SkipToken(x.command)).0 == AfterCommands(Given(es + [x], name))
  {
    var p := SkipToken(x.command);
    ParseBitsFits(p);
    GivenApplied(es, x, name, bd, Vector(bd, p).0);
  }

  lemma SdrRecorded(es: seq<Execution>, x: Execution)
    requires ConfigWf(x.config) && Recorded(es, x.config) && Token(x.command) == "SDR"
    requires ParseBits(SkipToken(x.command)).Parsed?
    requires Walk(x.tap, DRSHIFT).ok && Walk(x.tap, DRSHIFT).tap == DRSHIFT
    ensures ActsOf(Command(x.config, x.tap, x.command).chunks)
            == ScanRequests(es, Given(es + [x], "SDR"), DR_SCAN, x.tap)
  {
    var p, c := SkipToken(x.command), x.config;
    IsVector(c, x.tap, x.command);
    DrScanIs(c, x.tap, p);
    hide Command, VectorCommand, Vector, Scan, Token, SkipToken, ParseBits, AfterCommands, Given, Walk, ActsOf,
      EndGiven, Transitions, ScanPulses, Length, ConfigWf, AllFit, Wf;
    RecordedFields(es, c);
    GivenFits(es, "HDR");
    GivenFits(es, "SDR");
    GivenFits(es, "TDR");
    OwnVector(es, x, "SDR", c.sdr);
    var h, d, t := ScanRequested(Given(es, "HDR"), Given(es + [x], "SDR"), Given(es, "TDR"), x.tap, DRSHIFT, c.endDr);
  }

  lemma SirRecorded(es: seq<Execution>, x: Execution)
    requires ConfigWf(x.config) && Recorded(es, x.config) && Token(x.command) == "SIR"
    requires ParseBits(SkipToken(x.command)).Parsed?
    requires Walk(x.tap, IRSHIFT).ok && Walk(x.tap, IRSHIFT).tap == IRSHIFT
    ensures ActsOf(Command(x.config, x.tap, x.command).chunks)
            == ScanRequests(es, Given(es + [x], "SIR"), IR_SCAN, x.tap)
  {
    var p, c := SkipToken(x.command), x.config;
    IsVector(c, x.tap, x.command);
    IrScanIs(c, x.tap, p);
    hide Command, VectorCommand, Vector, Scan, Token, SkipToken, ParseBits, AfterCommands, Given, Walk, ActsOf,
      EndGiven, Transitions, ScanPulses, Length, ConfigWf, AllFit, Wf;
    RecordedFields(es, c);
    GivenFits(es, "HIR");
    GivenFits(es, "SIR");
    GivenFits(es, "TIR");
    OwnVector(es, x, "SIR", c.sir);
    var h, d, t := ScanRequested(Given(es, "HIR"), Given(es + [x], "SIR"), Given(es, "TIR"), x.tap, IRSHIFT, c.endIr);
  }

  lemma ScanRecorded(es: seq<Execution>, x: Execution)
    requires ConfigWf(x.config) && Recorded(es, x.config) && Legal(x.tap) && Token(x.command) in {"SDR", "SIR"}
    requires ParseBits(SkipToken(x.command)).Parsed?
    ensures var n := NamesOf(Token(x.command));
            ActsOf(Command(x.config, x.tap, x.command).chunks) == ScanRequests(es, Given(es + [x], n.data), n, x.tap)
  {
    WalkStepsTrack(x.tap, DRSHIFT);
    WalkStepsTrack(x.tap, IRSHIFT);
    hide Command, Recorded, Given, ScanRequests, ActsOf, Token, SkipToken, ParseBits, ConfigWf, Walk;
    assert "SDR"[1] != "SIR"[1];
    if Token(x.command) == "SDR" {
      SdrRecorded(es, x);
    } else {
      SirRecorded(es, x);
    }
  }

  /** A data or instruction scan of a file, in a run from any state, clocks the bits of
      the literals in force after the file's commands up to it: those of the header
      commands, then its own, then those of the trailer commands, and ends in the
      state that the latest ENDDR or ENDIR names. */
  lemma ScanInRun(input: string, pos: nat, tap: int, i: nat)
    requires Legal(tap) && i < |Executed(input, pos, START, tap)|
    requires var x := Executed(input, pos, START, tap)[i];
             Token(x.command) in {"SDR", "SIR"} && ParseBits(SkipToken(x.command)).Parsed?
    ensures var es, x := Executed(input, pos, START, tap), Executed(input, pos, START, tap)[i];
            var n := NamesOf(Token(x.command));
            ActsOf(Command(x.config, x.tap, x.command).chunks)
            == ScanRequests(es[..i], Given(es[..i + 1], n.data), n, x.tap)
  {
    hide Command, Executed, Recorded, Given, ScanRequests, ActsOf, Token, SkipToken, ParseBits, NamesOf, Legal;
    var es := Executed(input, pos, START, tap);
    RecordedInRun(input, pos, tap, i);
    LegalInRun(input, pos, tap, i);
    assert es[..i] + [es[i]] == es[..i + 1];
    ScanRecorded(es[..i], es[i]);
  }
}
