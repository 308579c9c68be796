/** What RUNTEST, STATE, TRST and FREQUENCY ask of the host, in terms of their written
    arguments (svfload/libxsvf/svf.c:375-403, 425-531, 569-580 and 598-621). */
module SvfArguments {
  import opened HostApi
  import opened SvfBitdata
  import opened SvfScript
  import opened SvfSyntax
  import opened SvfText
  import opened SvfTracking
  import opened TapController
  import opened TapWalk

  // ---------------------------------------------------------------------
  // RUNTEST
  // ---------------------------------------------------------------------

  datatype Argument =
    | RunIn(s: Tap)
    | EndIn(s: Tap)
    | Tcks(n: Num)
    | Scks(n: Num)
    | AtLeast(n: Num)
    | AtMost(n: Num)

  ghost predicate ArgumentOk(a: Argument) {
    a.Tcks? || a.Scks? || a.AtLeast? || a.AtMost? ==> NumOk(a.n)
  }

  function QuantityText(n: Num, unit: string, rest: string): string {
    NumText(n) + (" " + (unit + " " + rest))
  }

  /** An argument as it is written, before `rest`. */
  function ArgumentText(a: Argument, rest: string): string {
    match a
    case RunIn(s) => NameOf(s) + " " + rest
    case EndIn(s) => "ENDSTATE" + " " + (NameOf(s) + " " + rest)
    case Tcks(n) => QuantityText(n, "TCK", rest)
    case Scks(n) => QuantityText(n, "SCK", rest)
    case AtLeast(n) => QuantityText(n, "SEC", rest)
    case AtMost(n) => "MAXIMUM" + " " + QuantityText(n, "SEC", rest)
  }

  /** What it says: counts are numbers, times are in microseconds, and a maximum time
      says nothing. */
  ghost function Said(r: Runtest, a: Argument): Runtest
    requires ArgumentOk(a)
  {
    match a
    case RunIn(s) => r.(run := Code(s))
    case EndIn(s) => r.(endRun := Code(s))
    case Tcks(n) => r.(tck := NumValue(n, 0))
    case Scks(n) => r.(sck := NumValue(n, 0))
    case AtLeast(n) => r.(minTime := NumValue(n, 6))
    case AtMost(_) => r
  }

  lemma OtherWord(p: string, w: string)
    requires p != "" && p[0] !in {'M', 'E', ' '} && w in {"MAXIMUM", "ENDSTATE"}
    ensures After1(w, p) == p && Token(p) != w
  {
    assert Token(p)[0] == p[0];
  }

  lemma NumStarts(n: Num, rest: string)
    requires NumOk(n)
    ensures NumText(n) != "" && IsDigit((NumText(n) + rest)[0]) && (NumText(n) + rest)[0] !in {'M', 'E', ' '}
    ensures TokenState(NumText(n) + rest) == -1
  {
    var p := NumText(n) + rest;
    assert p[0] == n.ds[0] && IsDigit(n.ds[0]);
    assert Token(p)[0] == p[0];
    var s := StateNamed(p);
    if s.Some? {
      NamesAreWords(s.value);
    }
  }

  lemma NameStarts(s: Tap, rest: string)
    requires rest == "" || rest[0] != ' '
    ensures var p := NameOf(s) + " " + rest;
            && p != "" && p[0] !in {'M', 'E', ' '} && SkipToken(p) == rest && TokenState(p) == Code(s)
  {
    NamesAreWords(s);
    TokenSplit(NameOf(s), rest);
    StateRead(NameOf(s) + " " + rest, s);
  }

  lemma RunInRead(r: Runtest, s: Tap, rest: string)
    requires rest == "" || rest[0] != ' '
    ensures RuntestArgument(NameOf(s) + " " + rest, r) == Some((r.(run := Code(s)), rest))
  {
    hide Token, SkipToken, TokenState, NameOf, Code, After1;
    var p := NameOf(s) + " " + rest;
    NameStarts(s, rest);
    OtherWord(p, "MAXIMUM");
    OtherWord(p, "ENDSTATE");
  }

  lemma EndInRead(r: Runtest, s: Tap, rest: string)
    requires rest == "" || rest[0] != ' '
    ensures RuntestArgument("ENDSTATE" + " " + (NameOf(s) + " " + rest), r) == Some((r.(endRun := Code(s)), rest))
  {
    var q := NameOf(s) + " " + rest;
    NameStarts(s, rest);
    TokenSplit("ENDSTATE", q);
    assert Token("ENDSTATE" + " " + q) != "MAXIMUM" by {
      assert "ENDSTATE"[0] != "MAXIMUM"[0];
    }
    hide Token, SkipToken, TokenState, NameOf, Code;
  }

  /** A number and its unit. */
  lemma QuantityRead(n: Num, unit: string, rest: string)
    requires NumOk(n) && unit in {"TCK", "SCK", "SEC"} && (rest == "" || rest[0] != ' ')
    ensures var p := QuantityText(n, unit, rest);
            && p != "" && p[0] !in {'M', 'E', ' '} && StartsWithDigit(p) && TokenState(p) == -1
            && var t := ReadTime(p);
               && t.0 == NumValue(n, 0) && t.1 == NumValue(n, 6)
               && Token(SkipSpaces(t.2)) == unit && SkipToken(SkipSpaces(t.2)) == rest
  {
    hide NumText, NumValue, ReadTime, TokenState;
    var q := unit + " " + rest;
    TokenSplit(unit, rest);
    hide Token, SkipToken;
    OneSpace(q);
    NumStarts(n, " " + q);
    TimeRead(n, " " + q);
  }

  lemma UnitsDiffer()
    ensures "TCK" != "SEC" && "SCK" != "SEC" && "SCK" != "TCK"
  {
    assert "TCK"[0] != "SEC"[0] && "SCK"[1] != "SEC"[1] && "SCK"[0] != "TCK"[0];
  }

  lemma PlainQuantity(r: Runtest, n: Num, unit: string, rest: string)
    requires NumOk(n) && unit in {"TCK", "SCK", "SEC"} && (rest == "" || rest[0] != ' ')
    ensures RuntestArgument(QuantityText(n, unit, rest), r)
            == Some((if unit == "SEC" then r.(minTime := NumValue(n, 6))
                     else if unit == "TCK" then r.(tck := NumValue(n, 0))
                     else r.(sck := NumValue(n, 0)), rest))
  {
    hide NumValue, ReadTime, TokenState, Token, SkipToken, SkipSpaces, After1, QuantityText, StartsWithDigit;
    var p := QuantityText(n, unit, rest);
    QuantityRead(n, unit, rest);
    OtherWord(p, "MAXIMUM");
    OtherWord(p, "ENDSTATE");
    UnitsDiffer();
  }

  lemma MaximumRead(r: Runtest, n: Num, rest: string)
    requires NumOk(n) && (rest == "" || rest[0] != ' ')
    ensures RuntestArgument("MAXIMUM" + " " + QuantityText(n, "SEC", rest), r) == Some((r, rest))
  {
    var p := QuantityText(n, "SEC", rest);
    hide QuantityText, NumValue, ReadTime, TokenState, StartsWithDigit;
    QuantityRead(n, "SEC", rest);
    TokenSplit("MAXIMUM", p);
    hide Token, SkipToken, SkipSpaces;
    OtherWord(p, "ENDSTATE");
  }

  /** Every argument is read back as what it says. */
  lemma ArgumentRead(r: Runtest, a: Argument, rest: string)
    requires ArgumentOk(a) && (rest == "" || rest[0] != ' ')
    ensures RuntestArgument(ArgumentText(a, rest), r) == Some((Said(r, a), rest))
  {
    hide RuntestArgument, QuantityText, NameOf, NumValue, Code;
    UnitsDiffer();
    match a
    case RunIn(s) => RunInRead(r, s, rest);
    case EndIn(s) => EndInRead(r, s, rest);
    case Tcks(n) => PlainQuantity(r, n, "TCK", rest);
    case Scks(n) => PlainQuantity(r, n, "SCK", rest);
    case AtLeast(n) => PlainQuantity(r, n, "SEC", rest);
    case AtMost(n) => MaximumRead(r, n, rest);
  }

  ghost predicate ArgumentsOk(args: seq<Argument>) {
    forall i :: 0 <= i < |args| ==> ArgumentOk(args[i])
  }

  function ArgumentsText(args: seq<Argument>): string {
    if args == [] then "" else ArgumentText(args[0], ArgumentsText(args[1..]))
  }

  ghost function SaidAll(r: Runtest, args: seq<Argument>): Runtest
    requires ArgumentsOk(args)
    decreases args
  {
    if args == [] then r else SaidAll(Said(r, args[0]), args[1..])
  }

  lemma ArgumentStarts(a: Argument, rest: string)
    requires ArgumentOk(a)
    ensures ArgumentText(a, rest) != "" && ArgumentText(a, rest)[0] != ' '
  {
    match a
    case RunIn(s) => NamesAreWords(s);
    case EndIn(_) =>
    case AtMost(_) =>
    case _ => NumStarts(a.n, ArgumentText(a, rest)[|NumText(a.n)|..]);
  }

  lemma {:induction false} ArgumentsRead(r: Runtest, args: seq<Argument>)
    requires ArgumentsOk(args)
    ensures ParseRuntest(ArgumentsText(args), r) == Some(SaidAll(r, args))
    decreases |args|
  {
    if args != [] {
      hide RuntestArgument, ArgumentText, Said;
      var rest := ArgumentsText(args[1..]);
      if |args| > 1 {
        ArgumentStarts(args[1], ArgumentsText(args[2..]));
        assert args[1..][0] == args[1] && args[1..][1..] == args[2..];
      }
      ArgumentStarts(args[0], rest);
      ArgumentRead(r, args[0], rest);
      ArgumentsRead(Said(r, args[0]), args[1..]);
    }
  }

  /** The waiting that a RUNTEST asks for. */
  function Waiting(r: Runtest): seq<Act> {
    seq(if r.sck > 0 then r.sck else 0, _ => Sck)
    + if r.minTime < 0 && r.tck < 0 then []
      else [Delay(if r.minTime >= 0 then r.minTime else 0, false, if r.tck >= 0 then r.tck else 0)]
  }

  lemma {:induction false} TwoChunks(a: Chunk, b: Chunk)
    ensures ActsOf([a, b]) == a.acts + b.acts
  {
    assert [a, b][1..] == [b] && [b][1..] == [];
    assert ActsOf([b]) == b.acts + [];
    assert b.acts + [] == b.acts;
  }

  lemma RuntestActs(r: Runtest, tap: int)
    requires Walk(tap, r.run).ok && Walk(tap, r.run).tap == r.run && Walk(r.run, r.endRun).ok
    ensures ActsOf(RuntestSteps(r, tap).chunks)
            == Transitions(Walk(tap, r.run).tms) + Waiting(r) + Transitions(Walk(r.run, r.endRun).tms)
    ensures RuntestSteps(r, tap).ok && RuntestSteps(r, tap).tap == Walk(r.run, r.endRun).tap
  {
    hide Transitions, Walk, ActsOf;
    var cs := RuntestSteps(r, tap).chunks;
    assert cs == [cs[0], cs[1], cs[2], cs[3]];
    FourChunks(cs[0], cs[1], cs[2], cs[3]);
  }

  lemma FourChunks(a: Chunk, b: Chunk, c: Chunk, d: Chunk)
    ensures ActsOf([a, b, c, d]) == a.acts + (b.acts + c.acts) + d.acts
  {
    assert [a, b, c, d][1..] == [b, c, d] && [b, c, d][1..] == [c, d];
    TwoChunks(c, d);
    assert a.acts + (b.acts + (c.acts + d.acts)) == a.acts + (b.acts + c.acts) + d.acts;
  }

  /** RUNTEST walks to the run state that its arguments or an earlier RUNTEST name,
      waits there as they say, walks on to the end state, and keeps both states. */
  lemma RuntestMeans(config: Config, tap: int, args: seq<Argument>)
    requires ConfigWf(config) && ArgumentsOk(args)
    requires var r := SaidAll(Runtest(-1, -1, -1, config.run, config.endRun), args);
             Walk(tap, r.run).ok && Walk(tap, r.run).tap == r.run && Walk(r.run, r.endRun).ok
    ensures var r := SaidAll(Runtest(-1, -1, -1, config.run, config.endRun), args);
            var e := Command(config, tap, "RUNTEST" + " " + ArgumentsText(args));
            && e.outcome == Done && e.config == config.(run := r.run, endRun := r.endRun)
            && ActsOf(e.chunks)
               == Transitions(Walk(tap, r.run).tms) + Waiting(r) + Transitions(Walk(r.run, r.endRun).tms)
  {
    hide Command, Token, SkipToken, ArgumentText, SaidAll, ParseRuntest, Walk, ActsOf, Transitions, Waiting,
      RuntestSteps;
    var text := ArgumentsText(args);
    if args != [] {
      ArgumentStarts(args[0], ArgumentsText(args[1..]));
    }
    TokenSplit("RUNTEST", text);
    RunsRuntest(config, tap, "RUNTEST" + " " + text, text);
    var start := Runtest(-1, -1, -1, config.run, config.endRun);
    ArgumentsRead(start, args);
    RuntestActs(SaidAll(start, args), tap);
  }

  // ---------------------------------------------------------------------
  // STATE
  // ---------------------------------------------------------------------

  function NamesText(states: seq<Tap>): string {
    if states == [] then "" else NameOf(states[0]) + " " + NamesText(states[1..])
  }

  /** Walks from state to state. */
  function WalkActs(tap: int, states: seq<Tap>): seq<Act>
    decreases |states|
  {
    if states == [] then []
    else Transitions(Walk(tap, Code(states[0])).tms) + WalkActs(Code(states[0]), states[1..])
  }

  ghost predicate WalksReach(tap: int, states: seq<Tap>)
    decreases |states|
  {
    states == []
    || (Walk(tap, Code(states[0])).ok && Walk(tap, Code(states[0])).tap == Code(states[0])
        && WalksReach(Code(states[0]), states[1..]))
  }

  function LastState(tap: int, states: seq<Tap>): int {
    if states == [] then tap else Code(states[|states| - 1])
  }

  lemma NamesStart(states: seq<Tap>)
    ensures NamesText(states) == "" || NamesText(states)[0] != ' '
    ensures states != [] ==> NamesText(states) != ""
  {
    if states != [] {
      NamesAreWords(states[0]);
    }
  }

  lemma {:induction false} ActsJoin(a: seq<Chunk>, b: seq<Chunk>)
    ensures ActsOf(a + b) == ActsOf(a) + ActsOf(b)
    decreases |a|
  {
    if a == [] {
      assert a + b == b;
    } else {
      assert (a + b)[1..] == a[1..] + b;
      ActsJoin(a[1..], b);
      assert a[0].acts + (ActsOf(a[1..]) + ActsOf(b)) == a[0].acts + ActsOf(a[1..]) + ActsOf(b);
    }
  }

  lemma OneChunk(c: Chunk)
    ensures ActsOf([c]) == c.acts
  {
    assert [c][1..] == [] && c.acts + [] == c.acts;
  }

  lemma OneState(p: string, tap: int, st: int)
    requires p != "" && TokenState(p) == st >= 0 && Walk(tap, st).ok && Walk(tap, st).tap == st
    ensures var more := StateSteps(SkipToken(p), st);
            && StateSteps(p, tap) == (Steps(WalkSteps(tap, st).chunks + more.0.chunks, more.0.tap, more.0.ok), more.1)
            && ActsOf(StateSteps(p, tap).0.chunks) == Transitions(Walk(tap, st).tms) + ActsOf(more.0.chunks)
  {
    hide Walk, Transitions, TokenState, SkipToken, ActsOf;
    var w, more := WalkSteps(tap, st), StateSteps(SkipToken(p), st);
    ActsJoin(w.chunks, more.0.chunks);
    OneChunk(w.chunks[0]);
  }

  lemma FirstName(states: seq<Tap>)
    requires states != []
    ensures var p := NamesText(states);
            p != "" && TokenState(p) == Code(states[0]) && SkipToken(p) == NamesText(states[1..])
  {
    hide NameOf, Code, TokenState, SkipToken;
    NamesStart(states);
    NamesStart(states[1..]);
    NameStarts(states[0], NamesText(states[1..]));
  }

  lemma {:induction false} StatesRead(tap: int, states: seq<Tap>)
    requires WalksReach(tap, states)
    ensures var (s, o) := StateSteps(NamesText(states), tap);
            o == Done && ActsOf(s.chunks) == WalkActs(tap, states) && s.tap == LastState(tap, states)
    decreases |states|
  {
    LastOf(tap, states);
    if states != [] {
      hide Walk, Transitions, Code, TokenState, SkipToken, ActsOf, StateSteps, NamesText, LastState;
      var n := Code(states[0]);
      FirstName(states);
      CodeIsPositive(states[0]);
      OneState(NamesText(states), tap, n);
      StatesRead(n, states[1..]);
    }
  }

  lemma LastOf(tap: int, states: seq<Tap>)
    ensures LastState(tap, states) == if states == [] then tap else LastState(Code(states[0]), states[1..])
  {
  }

  lemma CodeIsPositive(s: Tap)
    ensures Code(s) >= 0
  {
  }

  lemma IsState(config: Config, tap: int, c: string, p: string)
    requires ConfigWf(config) && Token(c) == "STATE" && SkipToken(c) == p
    ensures var (s, o) := StateSteps(p, tap); Command(config, tap, c) == Effect(config, s.chunks, s.tap, o)
  {
    var name := "STATE";
    assert name[1] == 'T' && |name| == 5;
    assert name != "ENDIR" && name != "ENDDR" && name !in VECTOR_COMMANDS && name != "PIO" && name != "RUNTEST";
  }

  /** STATE walks through the states that it names, in their order. */
  lemma StateMeans(config: Config, tap: int, states: seq<Tap>)
    requires ConfigWf(config) && WalksReach(tap, states)
    ensures var e := Command(config, tap, "STATE" + " " + NamesText(states));
            && e.outcome == Done && e.config == config && e.tap == LastState(tap, states)
            && ActsOf(e.chunks) == WalkActs(tap, states)
  {
    hide Command, Token, SkipToken, StateSteps, WalksReach, NamesText, WalkActs, ActsOf;
    NamesStart(states);
    TokenSplit("STATE", NamesText(states));
    IsState(config, tap, "STATE" + " " + NamesText(states), NamesText(states));
    StatesRead(tap, states);
  }

  // ---------------------------------------------------------------------
  // TRST and FREQUENCY
  // ---------------------------------------------------------------------

  datatype Trst = On | Off | HighZ | Absent

  function TrstName(t: Trst): string {
    match t
    case On => "ON"
    case Off => "OFF"
    case HighZ => "Z"
    case Absent => "ABSENT"
  }

  /** enum libxsvf_trst: asserted, released, not driven, not there. */
  function TrstLevel(t: Trst): int {
    match t
    case On => 1
    case Off => 0
    case HighZ => -1
    case Absent => -2
  }

  lemma TrstNamed(t: Trst)
    ensures ' ' !in TrstName(t) && TrstName(t) != "" && TrstName(t)[0] != ' '
    ensures TrstValue(TrstName(t)) == Some(TrstLevel(t)) && SkipToken(TrstName(t)) == ""
  {
    var w := TrstName(t);
    TokenSplit(w, "");
    hide Token, SkipToken;
    assert |w| == if t.On? then 2 else if t.Off? then 3 else if t.HighZ? then 1 else 6;
  }

  lemma IsTrst(config: Config, tap: int, c: string, p: string)
    requires ConfigWf(config) && Token(c) == "TRST" && SkipToken(c) == p
    ensures Command(config, tap, c) == TrstCommand(config, tap, p)
  {
    var name := "TRST";
    assert |name| == 4;
    assert name != "ENDIR" && name != "ENDDR" && name != "FREQUENCY" && name !in VECTOR_COMMANDS;
    assert name != "PIO" && name != "PIOMAP" && name != "RUNTEST" && name != "STATE";
  }

  /** TRST sets the level that its word stands for. */
  lemma TrstMeans(config: Config, tap: int, t: Trst)
    requires ConfigWf(config)
    ensures var e := Command(config, tap, "TRST" + " " + TrstName(t));
            && e.outcome == Done && e.config == config && e.tap == tap
            && ActsOf(e.chunks) == [HostApi.Trst(TrstLevel(t))]
  {
    hide Command, TrstName, TrstValue, Token, SkipToken;
    TrstNamed(t);
    TokenSplit("TRST", TrstName(t));
    IsTrst(config, tap, "TRST" + " " + TrstName(t), TrstName(t));
    OneChunk(Chunk([HostApi.Trst(TrstLevel(t))], false, tap));
  }

  lemma IsFrequency(config: Config, tap: int, c: string, p: string)
    requires ConfigWf(config) && Token(c) == "FREQUENCY" && SkipToken(c) == p
    ensures Command(config, tap, c) == FrequencyCommand(config, tap, p)
  {
    var name := "FREQUENCY";
    assert |name| == 9;
    assert name != "ENDIR" && name != "ENDDR";
  }

  /** What FREQUENCY makes of a number, an exponent and a unit. */
  lemma HertzRead(config: Config, tap: int, p: string, hz: nat)
    requires StartsWithDigit(p)
    requires var q := p[DigitCount(p)..];
             var t := if StartsExponent(q) then q[1..] else q;
             && hz == Scale(Decimal(p, 0), if StartsExponent(q) then Decimal(t, 0) else 0)
             && (if StartsExponent(q) then t[DigitCount(t)..] else q) == " HZ"
    ensures var e := FrequencyCommand(config, tap, p);
            && e.outcome == Done && e.config == config && e.tap == tap
            && e.chunks == [Chunk([Frequency(hz)], true, tap)]
  {
    OneSpace("HZ");
    TokenSplit("HZ", "");
    hide Scale, Decimal, DigitCount, Token, SkipToken, SkipSpaces, StartsExponent, StartsWithDigit;
  }

  lemma FrequencyRead(config: Config, tap: int, n: Num)
    requires NumOk(n) && !n.Down?
    ensures var e := FrequencyCommand(config, tap, NumText(n) + " HZ");
            && e.outcome == Done && e.config == config && e.tap == tap
            && e.chunks == [Chunk([Frequency(NumValue(n, 0))], true, tap)]
  {
    hide Scaled, Scale, DecValue, Decimal, DigitCount, FrequencyCommand;
    var p, ds := NumText(n) + " HZ", n.ds;
    NumStarts(n, " HZ");
    if n.Plain? {
      DigitsRead(ds, " HZ");
      ScaleIs(DecValue(ds), 0);
    } else {
      var q := "E" + n.es + " HZ";
      ExponentParts(ds, n.es);
      DigitsRead(ds, q);
      DigitsRead(n.es, " HZ");
      ScaleIs(DecValue(ds), DecValue(n.es));
    }
    HertzRead(config, tap, p, NumValue(n, 0));
  }

  lemma ExponentParts(ds: string, es: string)
    ensures var q := "E" + es + " HZ";
            ds + "E" + es + " HZ" == ds + q && StartsExponent(q) && q[1..] == es + " HZ"
  {
  }

  /** FREQUENCY asks for the frequency that its number denotes. */
  lemma FrequencyMeans(config: Config, tap: int, n: Num)
    requires ConfigWf(config) && NumOk(n) && !n.Down?
    ensures var e := Command(config, tap, "FREQUENCY" + " " + (NumText(n) + " HZ"));
            && e.outcome == Done && e.config == config && e.tap == tap
            && ActsOf(e.chunks) == [Frequency(NumValue(n, 0))]
  {
    hide Command, FrequencyCommand, Token, SkipToken, NumText, NumValue;
    NumStarts(n, " HZ");
    TokenSplit("FREQUENCY", NumText(n) + " HZ");
    IsFrequency(config, tap, "FREQUENCY" + " " + (NumText(n) + " HZ"), NumText(n) + " HZ");
    FrequencyRead(config, tap, n);
    OneChunk(Chunk([Frequency(NumValue(n, 0))], true, tap));
  }
}
