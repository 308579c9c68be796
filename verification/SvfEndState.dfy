/** What ENDIR and ENDDR accept, and what follows: ENDDR checks the variable that
    ENDIR sets (svfload/libxsvf/svf.c:366-373). */
module SvfEndState {
  import opened SvfBitdata
  import opened SvfLexer
  import opened SvfScript
  import opened SvfText
  import opened SvfTracking
  import opened TapWalk

  lemma NamedCommand(config: Config, tap: int, name: string, w: string) returns (c: string)
    requires ConfigWf(config) && ' ' !in w && name in {"ENDIR", "ENDDR"}
    ensures c == name + " " + w
    ensures Command(config, tap, c) == EndStateCommand(config, tap, w, name == "ENDDR")
    ensures SkipToken(w) == ""
  {
    hide EndStateCommand, SkipToken, Token, ConfigWf;
    c := name + " " + w;
    TokenSplit(name, w);
    TokenSplit(w, "");
  }

  /** ENDIR fails exactly for a word that names no state. */
  lemma EndIrRejects(config: Config, tap: int, w: string)
    requires ConfigWf(config) && ' ' !in w
    ensures var e := Command(config, tap, "ENDIR" + " " + w);
            && (e.outcome == Failed <==> TokenState(w) < 0)
            && e.outcome != Undefined && e.config == config.(endIr := TokenState(w))
  {
    var c := NamedCommand(config, tap, "ENDIR", w);
  }

  /** ENDDR fails exactly if ENDIR's variable holds no state, whatever the word. */
  lemma EndDrAccepts(config: Config, tap: int, w: string)
    requires ConfigWf(config) && ' ' !in w
    ensures var e := Command(config, tap, "ENDDR" + " " + w);
            && (e.outcome == Failed <==> config.endIr < 0)
            && e.outcome != Undefined && e.config == config.(endDr := TokenState(w))
  {
    var c := NamedCommand(config, tap, "ENDDR", w);
  }

  /** A command after which a run goes on leaves a state there. */
  lemma EndIrStays(config: Config, tap: int, c: string)
    requires ConfigWf(config) && config.endIr >= 0 && Command(config, tap, c).outcome == Done
    ensures Command(config, tap, c).config.endIr >= 0
  {
    hide TokenState, VectorCommand, ParseRuntest, StateSteps, TrstValue, ConfigWf;
    var name, p := Token(c), SkipToken(c);
    hide Token, SkipToken;
    if name in VECTOR_COMMANDS {
      VectorKeepsEndIr(config, tap, name, p);
    }
  }

  lemma VectorKeepsEndIr(config: Config, tap: int, name: string, p: string)
    requires ConfigWf(config)
    ensures VectorCommand(config, tap, name, p).config.endIr == config.endIr
  {
    hide ConfigWf, DrScan, IrScan;
  }

  /** A command that a run executes, with the variables and the tracked state that
      it finds. */
  datatype Execution = Execution(config: Config, tap: int, command: string)

  /** The commands of the input from position `pos`, up to the first that fails. */
  function Executed(input: string, pos: nat, config: Config, tap: int): (es: seq<Execution>)
    requires ConfigWf(config)
    ensures forall i :: 0 <= i < |es| ==> ConfigWf(es[i].config)
    decreases |input| - pos
  {
    match Lex(input, pos, "", 0)
    case LexCommand(c, next) =>
      LexProgress(input, pos, "", 0);
      CommandWf(config, tap, c);
      var e := Command(config, tap, c);
      [Execution(config, tap, c)] + (if e.outcome == Done then Executed(input, next, e.config, e.tap) else [])
    case _ => []
  }

  function ChunksOf(es: seq<Execution>): seq<Chunk>
    requires forall i :: 0 <= i < |es| ==> ConfigWf(es[i].config)
  {
    if es == [] then []
    else Command(es[0].config, es[0].tap, es[0].command).chunks + ChunksOf(es[1..])
  }

  /** They make up the script. */
  lemma {:induction false} ExecutedIsCompiled(input: string, pos: nat, config: Config, tap: int)
    requires ConfigWf(config)
    ensures Compile(input, pos, config, tap).chunks == ChunksOf(Executed(input, pos, config, tap))
    decreases |input| - pos
  {
    hide Command, Lex, ConfigWf;
    var r := Lex(input, pos, "", 0);
    if r.LexCommand? {
      LexProgress(input, pos, "", 0);
      CommandWf(config, tap, r.command);
      var e := Command(config, tap, r.command);
      if e.outcome == Done {
        ExecutedIsCompiled(input, r.next, e.config, e.tap);
      } else {
        assert ChunksOf([]) == [] && e.chunks + [] == e.chunks;
      }
    }
  }

  lemma {:induction false} EndIrAlways(input: string, pos: nat, config: Config, tap: int, i: nat)
    requires ConfigWf(config) && config.endIr >= 0 && i < |Executed(input, pos, config, tap)|
    ensures Executed(input, pos, config, tap)[i].config.endIr >= 0
    decreases |input| - pos
  {
    hide Command, Lex, ConfigWf;
    var r := Lex(input, pos, "", 0);
    if i > 0 {
      LexProgress(input, pos, "", 0);
      CommandWf(config, tap, r.command);
      EndIrStays(config, tap, r.command);
      var e := Command(config, tap, r.command);
      EndIrAlways(input, r.next, e.config, e.tap, i - 1);
    }
  }

  lemma IsEndDr(config: Config, tap: int, c: string)
    requires ConfigWf(config) && Token(c) == "ENDDR"
    ensures Command(config, tap, c) == EndStateCommand(config, tap, SkipToken(c), true)
  {
    var name := "ENDDR";
    assert name[3] == 'D';
    assert name != "ENDIR";
  }

  /** In a run of any input an ENDDR never fails for its word: exactly if something
      follows the word. What the word names is kept, a state or not. */
  lemma EndDrInRun(input: string, pos: nat, tap: int, i: nat)
    requires i < |Executed(input, pos, START, tap)|
    ensures var x := Executed(input, pos, START, tap)[i];
            var e, p := Command(x.config, x.tap, x.command), SkipToken(x.command);
            && x.config.endIr >= 0
            && (Token(x.command) == "ENDDR" ==>
                  && (e.outcome == Failed <==> SkipSpaces(SkipToken(p)) != "")
                  && e.outcome != Undefined && e.config == x.config.(endDr := TokenState(p)))
  {
    hide Command, Executed, TokenState, SkipToken, Token;
    EndIrAlways(input, pos, START, tap, i);
    var x := Executed(input, pos, START, tap)[i];
    if Token(x.command) == "ENDDR" {
      IsEndDr(x.config, x.tap, x.command);
    }
  }

  /** Where a scan is once its bits have been shifted. */
  lemma AfterBits(config: Config, shift: int, estate: int, hdr: Bitdata, data: Bitdata, tdr: Bitdata)
    requires Wf(hdr) && Wf(data) && Wf(tdr) && shift in {DRSHIFT, IRSHIFT}
    ensures ScanChunks(hdr, data, tdr, shift, shift, estate)[2].tap in {shift, shift + 1}
  {
  }

  /** An SDR whose vector is well formed fails exactly if no state was given for its
      end, or one of the two that a walk reaches from Pause alone. */
  lemma SdrNeedsEndDr(config: Config, tap: int, p: string)
    requires ConfigWf(config) && Legal(tap) && VectorConfig(config, "SDR", p).1 == Done
    requires config.endDr == -1 || RESET <= config.endDr <= IRUPDATE
    ensures var e := VectorCommand(config, tap, "SDR", p);
            && (e.outcome == Failed <==> config.endDr in {-1, DREXIT2, IREXIT2})
            && e.outcome != Undefined
  {
    hide WalkSteps, ScanChunks, StepsTrack, Wf;
    var c := VectorConfig(config, "SDR", p).0;
    VectorConfigWf(config, "SDR", p);
    WalkStepsTrack(tap, DRSHIFT);
    AfterBits(c, DRSHIFT, c.endDr, c.hdr, c.sdr, c.tdr);
    var t := ScanChunks(c.hdr, c.sdr, c.tdr, DRSHIFT, DRSHIFT, c.endDr)[2].tap;
    WalkStepsTrack(t, c.endDr);
  }

  // ---------------------------------------------------------------------
  // A state that does not exist
  // ---------------------------------------------------------------------

  lemma ParseOne() returns (cmd: BitCommand)
    ensures ParseBits("1") == Parsed(cmd)
  {
    var p := "1";
    assert p[1..] == "" && DigitCount("") == 0 && DigitCount(p) == 1;
    assert p[DigitCount(p)..] == "";
    cmd := BitCommand(1, []);
  }

  lemma IsSdr(config: Config, tap: int, c: string, p: string)
    requires ConfigWf(config) && Token(c) == "SDR" && SkipToken(c) == p
    ensures Command(config, tap, c) == VectorCommand(config, tap, "SDR", p)
  {
    var name := "SDR";
    assert name[0] == 'S';
    assert name != "ENDIR" && name != "ENDDR" && name != "FREQUENCY";
  }

  const NOWHERE := "ENDDR" + " " + "NOWHERE"

  lemma Nowhere(w: string)
    requires w == "NOWHERE"
    ensures TokenState(w) == -1 && ' ' !in w
  {
    TokenSplit(w, "");
  }

  lemma OneBit(config: Config, p: string)
    requires p == "1"
    ensures VectorConfig(config, "SDR", p).1 == Done
  {
    var cmd := ParseOne();
  }

  const ONE_BIT := "SDR" + " " + "1"

  lemma SdrFails(config: Config, tap: int)
    requires ConfigWf(config) && Legal(tap) && config.endDr == -1
    ensures Command(config, tap, ONE_BIT).outcome == Failed
  {
    TokenSplit("SDR", "1");
    hide Command, VectorCommand, VectorConfig;
    IsSdr(config, tap, ONE_BIT, "1");
    OneBit(config, "1");
    SdrNeedsEndDr(config, tap, "1");
  }

  /** ENDDR NOWHERE is accepted, and the next SDR fails for it. */
  lemma EndDrNowhere(tap: int)
    requires Legal(tap)
    ensures ConfigWf(Command(START, tap, NOWHERE).config)
    ensures var e := Command(START, tap, NOWHERE);
            e.outcome == Done && e.tap == tap && Command(e.config, tap, ONE_BIT).outcome == Failed
  {
    Nowhere("NOWHERE");
    var c := NamedCommand(START, tap, "ENDDR", "NOWHERE");
    hide Command, TokenState;
    SdrFails(START.(endDr := -1), tap);
  }
}
