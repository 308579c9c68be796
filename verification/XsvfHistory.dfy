/** What the scans of an XSVF file shift, in terms of its commands so far
    (svfload/libxsvf/xsvf.c:235-485). */
module XsvfHistory {
  import opened Bits
  import opened HostApi
  import opened SvfTracking
  import opened TapController
  import opened TapWalk
  import opened XsvfIncrement
  import opened XsvfModel
  import opened XsvfTracking
  import opened XsvfWire

  // ---------------------------------------------------------------------
  // The commands of a run
  // ---------------------------------------------------------------------

  /** A command that a run executes: the variables that it finds, its code among them
      and its operands next, the code before it, and the state and log. */
  datatype Execution = Execution(x: Xs, last: byte, st: Player)

  function After(input: string, c: Execution, env: Env): (t: Turned)
    requires XsWf(c.x)
    ensures XsWf(t.x) && t.x.pos >= c.x.pos
  {
    Execute(input, c.x, c.last, c.st, env)
  }

  /** The commands from `x.pos` on, up to the first that does not go on. */
  function Executed(input: string, x: Xs, st: Player, env: Env): (cs: seq<Execution>)
    requires XsWf(x)
    ensures forall i :: 0 <= i < |cs| ==> XsWf(cs[i].x)
    decreases if x.pos < |input| then |input| - x.pos else 0
  {
    if x.pos >= |input| then []
    else
      var c := Execution(x.(cmd := ByteAt(input, x.pos), pos := x.pos + 1), x.cmd, st);
      var t := After(input, c, env);
      [c] + (if t.flow == Go then Executed(input, t.x, t.st, env) else [])
  }

  lemma LoopTurns(input: string, x: Xs, st: Player, env: Env, run: CommandFn)
    requires XsWf(x) && run == Interpreter(input, env) && Advances(run) && x.pos < |input|
    ensures var t := After(input, Execution(x.(cmd := ByteAt(input, x.pos), pos := x.pos + 1), x.cmd, st), env);
            Loop(input, x, st, run) == if t.flow == Go then Loop(input, t.x, t.st, run) else t
  {
    hide Execute, ByteAt, Advances;
    var c := Execution(x.(cmd := ByteAt(input, x.pos), pos := x.pos + 1), x.cmd, st);
    assert run(c.x, c.last, st) == After(input, c, env);
  }

  predicate AllWf(cs: seq<Execution>) {
    forall i :: 0 <= i < |cs| ==> XsWf(cs[i].x)
  }

  /** How a run ends: with its last command, or with the end of the input. */
  function End(input: string, cs: seq<Execution>, x: Xs, st: Player, env: Env): Turned
    requires AllWf(cs)
  {
    if cs == [] then Stop(x, st)
    else
      var t := After(input, cs[|cs| - 1], env);
      if t.flow == Go then Stop(t.x, t.st) else t
  }

  lemma EndAfter(input: string, c: Execution, rest: seq<Execution>, x: Xs, st: Player, env: Env)
    requires XsWf(c.x) && AllWf(rest)
    ensures AllWf([c] + rest)
    ensures var t := After(input, c, env);
            if t.flow == Go then End(input, [c] + rest, x, st, env) == End(input, rest, t.x, t.st, env)
            else End(input, [c], x, st, env) == t
  {
    hide After, XsWf;
    if rest == [] {
      assert [c] + rest == [c];
    } else {
      assert ([c] + rest)[|rest|] == rest[|rest| - 1];
    }
  }

  lemma ExecutedIs(input: string, x: Xs, st: Player, env: Env)
    requires XsWf(x)
    ensures AllWf(Executed(input, x, st, env))
    ensures x.pos >= |input| ==> Executed(input, x, st, env) == []
    ensures x.pos < |input| ==>
              var c := Execution(x.(cmd := ByteAt(input, x.pos), pos := x.pos + 1), x.cmd, st);
              var t := After(input, c, env);
              Executed(input, x, st, env) == if t.flow == Go then [c] + Executed(input, t.x, t.st, env) else [c]
  {
    hide Execute, ByteAt;
  }

  /** They are what the main loop runs. */
  lemma {:induction false} LoopExecutes(input: string, x: Xs, st: Player, env: Env, run: CommandFn)
    requires XsWf(x) && run == Interpreter(input, env) && Advances(run)
    ensures AllWf(Executed(input, x, st, env))
    ensures Loop(input, x, st, run) == End(input, Executed(input, x, st, env), x, st, env)
    decreases if x.pos < |input| then |input| - x.pos else 0
  {
    ExecutedIs(input, x, st, env);
    if x.pos < |input| {
      LoopTurns(input, x, st, env, run);
      hide Execute, ByteAt, Advances, Interpreter, Loop, Executed, XsWf, AllWf, End;
      var c := Execution(x.(cmd := ByteAt(input, x.pos), pos := x.pos + 1), x.cmd, st);
      var t := After(input, c, env);
      if t.flow == Go {
        LoopExecutes(input, t.x, t.st, env, run);
        EndAfter(input, c, Executed(input, t.x, t.st, env), x, st, env);
      } else {
        EndAfter(input, c, [], x, st, env);
      }
    }
  }

  /** Each command finds what the one before it left. */
  lemma {:induction false} ExecutedNext(input: string, x: Xs, st: Player, env: Env, i: nat)
    requires XsWf(x)
    ensures var cs := Executed(input, x, st, env);
            && (cs != [] ==> cs[0].x == x.(cmd := cs[0].x.cmd, pos := x.pos + 1) && cs[0].st == st)
            && (i + 1 < |cs| ==> var t := After(input, cs[i], env);
                                 && t.flow == Go && cs[i + 1].st == t.st
                                 && cs[i + 1].x == t.x.(cmd := cs[i + 1].x.cmd, pos := t.x.pos + 1))
    decreases if x.pos < |input| then |input| - x.pos else 0
  {
    hide Execute, ByteAt;
    if x.pos < |input| {
      var c := Execution(x.(cmd := ByteAt(input, x.pos), pos := x.pos + 1), x.cmd, st);
      var t := After(input, c, env);
      if t.flow == Go {
        ExecutedNext(input, t.x, t.st, env, if i > 0 then i - 1 else 0);
      }
    }
  }

  // ---------------------------------------------------------------------
  // What has been given
  // ---------------------------------------------------------------------

  /** The bytes of an operand of the command `c`. */
  function Operand(input: string, c: Execution, from: nat, n: nat): seq<byte> {
    if c.x.pos + from + n <= |input| then Slice(input, c.x.pos + from, n) else []
  }

  /** The number that the latest command with a code was given in `n` bytes, most
      significant first; 0 before. */
  function LastGiven(input: string, cs: seq<Execution>, code: byte, n: nat): nat {
    if cs == [] then 0
    else
      var c := cs[|cs| - 1];
      if c.x.cmd == code then Number(Operand(input, c, 0, n)) else LastGiven(input, cs[..|cs| - 1], code, n)
  }

  /** A buffer once it has the size for `bits` bits: cut, or filled up with zeros. */
  function Fitted(buf: seq<byte>, bits: nat): (r: seq<byte>)
    ensures |r| == Bits2Bytes(bits)
  {
    seq(Bits2Bytes(bits), i requires 0 <= i => if i < |buf| then buf[i] else 0)
  }

  /** A buffer: the first or second operand of the latest command with one of these
      codes, refitted by each new size since; nothing before. */
  function BufferGiven(input: string, cs: seq<Execution>, codes: set<byte>, second: bool): seq<byte> {
    if cs == [] then []
    else
      var c, before := cs[|cs| - 1], BufferGiven(input, cs[..|cs| - 1], codes, second);
      var n := Bits2Bytes(c.x.drSize);
      if c.x.cmd in codes then Operand(input, c, if second then n else 0, n)
      else if c.x.cmd == XSDRSIZE then Fitted(before, Number(Operand(input, c, 0, 4)))
      else before
  }

  const TDO_SCANS := {XSDRTDO, XSDRTDOB, XSDRTDOC, XSDRTDOE}

  /** The variables hold what was given. */
  ghost predicate Recorded(input: string, cs: seq<Execution>, x: Xs) {
    && x.drSize == LastGiven(input, cs, XSDRSIZE, 4)
    && x.runtest == LastGiven(input, cs, XRUNTEST, 4)
    && x.retries == LastGiven(input, cs, XREPEAT, 1)
    && x.xendir == LastGiven(input, cs, XENDIR, 1)
    && x.xenddr == LastGiven(input, cs, XENDDR, 1)
    && x.mask == BufferGiven(input, cs, {XTDOMASK}, false)
    && x.tdo == BufferGiven(input, cs, TDO_SCANS, true)
    && x.addr == BufferGiven(input, cs, {XSETSDRMASKS}, false)
    && x.data == BufferGiven(input, cs, {XSETSDRMASKS}, true)
  }

  // ---------------------------------------------------------------------
  // The variables in a run
  // ---------------------------------------------------------------------

  lemma LastNext(input: string, cs: seq<Execution>, c: Execution, code: byte, n: nat)
    ensures LastGiven(input, cs + [c], code, n)
            == if c.x.cmd == code then Number(Operand(input, c, 0, n)) else LastGiven(input, cs, code, n)
  {
    assert (cs + [c])[..|cs|] == cs;
  }

  lemma BufferNext(input: string, cs: seq<Execution>, c: Execution, codes: set<byte>, second: bool)
    ensures BufferGiven(input, cs + [c], codes, second)
            == var n, before := Bits2Bytes(c.x.drSize), BufferGiven(input, cs, codes, second);
               if c.x.cmd in codes then Operand(input, c, if second then n else 0, n)
               else if c.x.cmd == XSDRSIZE then Fitted(before, Number(Operand(input, c, 0, 4)))
               else before
  {
    assert (cs + [c])[..|cs|] == cs;
  }

  /** A command that gives no buffer and no size. */
  lemma BuffersStay(input: string, cs: seq<Execution>, c: Execution)
    requires c.x.cmd !in {XTDOMASK, XSETSDRMASKS, XSDRSIZE} + TDO_SCANS
    ensures BufferGiven(input, cs + [c], {XTDOMASK}, false) == BufferGiven(input, cs, {XTDOMASK}, false)
    ensures BufferGiven(input, cs + [c], TDO_SCANS, true) == BufferGiven(input, cs, TDO_SCANS, true)
    ensures BufferGiven(input, cs + [c], {XSETSDRMASKS}, false) == BufferGiven(input, cs, {XSETSDRMASKS}, false)
    ensures BufferGiven(input, cs + [c], {XSETSDRMASKS}, true) == BufferGiven(input, cs, {XSETSDRMASKS}, true)
  {
    hide BufferGiven;
    BuffersNext(input, cs, c);
  }

  lemma BuffersNext(input: string, cs: seq<Execution>, c: Execution)
    ensures forall codes, second ::
              BufferGiven(input, cs + [c], codes, second)
              == var n, before := Bits2Bytes(c.x.drSize), BufferGiven(input, cs, codes, second);
                 if c.x.cmd in codes then Operand(input, c, if second then n else 0, n)
                 else if c.x.cmd == XSDRSIZE then Fitted(before, Number(Operand(input, c, 0, 4)))
                 else before
  {
    forall codes, second
      ensures BufferGiven(input, cs + [c], codes, second)
              == var n, before := Bits2Bytes(c.x.drSize), BufferGiven(input, cs, codes, second);
                 if c.x.cmd in codes then Operand(input, c, if second then n else 0, n)
                 else if c.x.cmd == XSDRSIZE then Fitted(before, Number(Operand(input, c, 0, 4)))
                 else before
    {
      BufferNext(input, cs, c, codes, second);
    }
  }

  lemma AllNext(input: string, cs: seq<Execution>, c: Execution)
    ensures forall code, n ::
              LastGiven(input, cs + [c], code, n)
              == if c.x.cmd == code then Number(Operand(input, c, 0, n)) else LastGiven(input, cs, code, n)
  {
    forall code, n
      ensures LastGiven(input, cs + [c], code, n)
              == if c.x.cmd == code then Number(Operand(input, c, 0, n)) else LastGiven(input, cs, code, n)
    {
      LastNext(input, cs, c, code, n);
    }
  }

  lemma LastByte(bytes: seq<byte>, front: seq<byte>, b: byte)
    requires bytes == front + [b]
    ensures Number(bytes) == 256 * Number(front) + b as nat
  {
    assert bytes[..|bytes| - 1] == front;
  }

  lemma LongIs(input: string, c: Execution)
    requires Has(input, c.x, 4)
    ensures LongAt(input, c.x.pos) == Number(Operand(input, c, 0, 4))
  {
    var p := c.x.pos;
    var a, b, d, e := ByteAt(input, p), ByteAt(input, p + 1), ByteAt(input, p + 2), ByteAt(input, p + 3);
    LastByte([a], [], a);
    LastByte([a, b], [a], b);
    LastByte([a, b, d], [a, b], d);
    LastByte([a, b, d, e], [a, b, d], e);
    assert Operand(input, c, 0, 4) == [a, b, d, e];
  }

  lemma ByteIs(input: string, c: Execution)
    requires Has(input, c.x, 1)
    ensures ByteAt(input, c.x.pos) == Number(Operand(input, c, 0, 1))
  {
    var b := ByteAt(input, c.x.pos);
    LastByte([b], [], b);
    assert Operand(input, c, 0, 1) == [b];
  }

  /** The commands that give something that later ones use. */
  const GIVERS := {XTDOMASK, XRUNTEST, XREPEAT, XSDRSIZE, XENDIR, XENDDR, XSETSDRMASKS} + TDO_SCANS

  /** What the other commands leave alone. */
  predicate Untouched(x: Xs, y: Xs) {
    && y.drSize == x.drSize && y.runtest == x.runtest && y.retries == x.retries
    && y.xendir == x.xendir && y.xenddr == x.xenddr
    && y.mask == x.mask && y.tdo == x.tdo && y.addr == x.addr && y.data == x.data
  }

  lemma {:induction false} IncUntouched(input: string, x: Xs, num: nat, st: Player, scan: VectorScan)
    requires XsWf(x)
    ensures Untouched(x, IncLoop(input, x, num, st, scan).end.x)
    decreases num
  {
    hide Scatter, Increment;
    var (st', ok) := scan(x.tdi, st);
    var v := NextVector(input, x);
    if ok && num > 0 && v.Scattered? {
      IncUntouched(input, x.(tdi := v.tdi, pos := v.pos), num - 1, st', scan);
    }
  }

  lemma IncCommandUntouched(input: string, x: Xs, st: Player, env: Env)
    requires XsWf(x)
    ensures Untouched(x, IncCommand(input, x, st, env).x)
  {
    hide IncLoop, IncScan;
    var n := Bits2Bytes(x.drSize);
    if Has(input, x, n + 1) {
      var y := x.(tdi := Slice(input, x.pos, n), pos := x.pos + n + 1);
      IncUntouched(input, y, ByteAt(input, x.pos + n), st, IncScan(y, env));
    }
  }

  lemma OthersUntouched(input: string, c: Execution, env: Env)
    requires XsWf(c.x) && c.x.cmd !in GIVERS
    ensures Untouched(c.x, After(input, c, env).x)
  {
    hide ShiftData, IncCommand, Walked, WaitWalks, CommentEnd, Weight, IrShiftJob, DrShiftJob;
    if c.x.cmd == XSDRINC {
      IncCommandUntouched(input, c.x, c.st, env);
    }
  }

  lemma OthersRecorded(input: string, cs: seq<Execution>, c: Execution, y: Xs)
    requires Recorded(input, cs, c.x) && c.x.cmd !in GIVERS && Untouched(c.x, y)
    ensures Recorded(input, cs + [c], y)
  {
    hide LastGiven, BufferGiven, Operand, Number;
    AllNext(input, cs, c);
    BuffersStay(input, cs, c);
  }

  lemma SizeRecorded(input: string, cs: seq<Execution>, c: Execution)
    requires XsWf(c.x) && Recorded(input, cs, c.x) && c.x.cmd == XSDRSIZE
    requires SizeCommand(input, c.x, c.st).flow == Go
    ensures Recorded(input, cs + [c], SizeCommand(input, c.x, c.st).x)
  {
    LongIs(input, c);
    var size := LongAt(input, c.x.pos);
    ResizedIs(c.x.mask, size);
    ResizedIs(c.x.tdo, size);
    ResizedIs(c.x.addr, size);
    ResizedIs(c.x.data, size);
    hide Recorded, Operand, Number, LongAt, Resized, Fitted, Bits2Bytes;
    RefittedRecorded(input, cs, c, size, SizeCommand(input, c.x, c.st).x);
  }

  lemma RefittedRecorded(input: string, cs: seq<Execution>, c: Execution, size: nat, y: Xs)
    requires Recorded(input, cs, c.x) && c.x.cmd == XSDRSIZE && size == Number(Operand(input, c, 0, 4))
    requires Untouched(c.x.(drSize := size, mask := Fitted(c.x.mask, size), tdo := Fitted(c.x.tdo, size),
                            addr := Fitted(c.x.addr, size), data := Fitted(c.x.data, size)), y)
    ensures Recorded(input, cs + [c], y)
  {
    hide LastGiven, BufferGiven, Operand, Number, Fitted, Bits2Bytes;
    AllNext(input, cs, c);
    BuffersNext(input, cs, c);
  }

  lemma ResizedIs(buf: seq<byte>, bits: nat)
    ensures Resized(buf, Bits2Bytes(bits)) == Fitted(buf, bits)
  {
  }

  lemma NumbersRecorded(input: string, cs: seq<Execution>, c: Execution, env: Env)
    requires XsWf(c.x) && Recorded(input, cs, c.x) && c.x.cmd in {XRUNTEST, XREPEAT, XENDIR, XENDDR}
    requires After(input, c, env).flow == Go
    ensures Recorded(input, cs + [c], After(input, c, env).x)
  {
    hide LastGiven, BufferGiven, Operand, Number, LongAt, ByteAt;
    if c.x.cmd == XRUNTEST {
      LongIs(input, c);
    } else {
      ByteIs(input, c);
    }
    AllNext(input, cs, c);
    BuffersStay(input, cs, c);
  }

  lemma BuffersRecorded(input: string, cs: seq<Execution>, c: Execution, env: Env)
    requires XsWf(c.x) && Recorded(input, cs, c.x) && c.x.cmd in {XTDOMASK, XSETSDRMASKS} + TDO_SCANS
    requires After(input, c, env).flow == Go
    ensures Recorded(input, cs + [c], After(input, c, env).x)
  {
    var n := Bits2Bytes(c.x.drSize);
    hide LastGiven, BufferGiven, Number, ByteAt, ShiftData, DrShiftJob, Bits2Bytes, Weight;
    AllNext(input, cs, c);
    BuffersNext(input, cs, c);
  }

  lemma RecordedNext(input: string, cs: seq<Execution>, c: Execution, env: Env)
    requires XsWf(c.x) && Recorded(input, cs, c.x) && After(input, c, env).flow == Go
    ensures Recorded(input, cs + [c], After(input, c, env).x)
  {
    if c.x.cmd !in GIVERS {
      OthersUntouched(input, c, env);
      OthersRecorded(input, cs, c, After(input, c, env).x);
    } else if c.x.cmd == XSDRSIZE {
      SizeRecorded(input, cs, c);
    } else if c.x.cmd in {XRUNTEST, XREPEAT, XENDIR, XENDDR} {
      NumbersRecorded(input, cs, c, env);
    } else {
      BuffersRecorded(input, cs, c, env);
    }
  }

  /** In a run the variables hold what the commands before gave. */
  lemma {:induction false} RecordedInRun(input: string, pos: nat, st: Player, env: Env, i: nat)
    requires i < |Executed(input, XSTART.(pos := pos), st, env)|
    ensures var cs := Executed(input, XSTART.(pos := pos), st, env); Recorded(input, cs[..i], cs[i].x)
    decreases i
  {
    hide Executed, Recorded, LastGiven, BufferGiven, Execute, XsWf;
    var x := XSTART.(pos := pos);
    assert XsWf(x) by {
      Nothing(input, x);
    }
    var cs := Executed(input, x, st, env);
    if i == 0 {
      ExecutedNext(input, x, st, env, 0);
      Nothing(input, cs[0].x);
    } else {
      var n := i - 1;
      ExecutedNext(input, x, st, env, n);
      RecordedInRun(input, pos, st, env, n);
      RecordedNext(input, cs[..n], cs[n], env);
      assert cs[..n] + [cs[n]] == cs[..i];
      Moved(input, cs[..i], After(input, cs[n], env).x, cs[i].x);
    }
  }

  /** Nothing is given at first. */
  lemma Nothing(input: string, x: Xs)
    requires x == XSTART.(cmd := x.cmd, pos := x.pos)
    ensures XsWf(x) && Recorded(input, [], x)
  {
  }

  lemma Moved(input: string, cs: seq<Execution>, x: Xs, y: Xs)
    requires Recorded(input, cs, x) && y == x.(cmd := y.cmd, pos := y.pos)
    ensures Recorded(input, cs, y)
  {
    hide LastGiven, BufferGiven;
  }

  // ---------------------------------------------------------------------
  // The scans of a run
  // ---------------------------------------------------------------------

  /** Attempt `last` is the first one that sees no wrong TDO level, or the last one
      allowed. */
  ghost predicate ShiftedBy(j: Shift, retries: nat, log: seq<Act>, tap: int, last: nat, env: Env, end: Player,
                            ok: bool) {
    var retry := retries > 0;
    && (forall m: nat :: m < last ==> Wrong(j, retry, log, tap, m, env))
    && ok == !Wrong(j, retry, log, tap, last, env)
    && (if ok then last <= retries else last == retries)
    && end == Player(EndTap(j), log + Tries(j, retry, tap, last + 1))
  }

  function Started(retries: nat, st: Player): seq<Act> {
    if retries > 0 then st.log + [Sync] else st.log
  }

  /** A scan succeeds with the first attempt that sees no wrong TDO level, of at most
      `retries + 1`; with retries a sync comes first. */
  ghost predicate Shifted(j: Shift, retries: nat, st: Player, env: Env, end: Player, ok: bool) {
    var log := Started(retries, st);
    if retries > 0 && env(log) < 0 then end == Player(st.tap, log) && !ok
    else exists last :: ShiftedBy(j, retries, log, st.tap, last, env, end, ok)
  }

  lemma ShiftsSo(j: Shift, retries: nat, st: Player, env: Env)
    requires ShiftWf(j) && Legal(st.tap)
    ensures var (end, ok) := ShiftData(j, retries, st, env); Shifted(j, retries, st, env, end, ok)
  {
    hide Wrong, Tries, EndTap, ShiftData, ShiftWf, Legal;
    var retry, r := retries > 0, ShiftData(j, retries, st, env);
    var last, log := ShiftDataIs(j, retries, retry, st, env);
    if !retry || env(log) >= 0 {
      assert ShiftedBy(j, retries, Started(retries, st), st.tap, last, env, r.0, r.1);
      assert Shifted(j, retries, st, env, r.0, r.1);
    }
  }

  /** Two's complement. */
  function Signed(n: nat): int {
    if n < 0x8000_0000 then n else n - 0x1_0000_0000
  }

  /** The data scans that check TDO, wait and retry. */
  const FULL_SCANS := {XSDR, XSDRTDO, XSDRINC}

  /** The data scans that begin or continue a shift, and those that end one. */
  const OPEN_SCANS := {XSDRB, XSDRC, XSDRTDOB, XSDRTDOC}
  const LAST_SCANS := {XSDRE, XSDRTDOE}

  /** The data scan of the command `c` after the commands `cs`: its own first operand,
      checked on the mask against its second operand or the latest one; the end state
      is Pause or Run-Test/Idle after XENDDR, or none; and the wait is XRUNTEST's. */
  function DataScan(input: string, cs: seq<Execution>, c: Execution): Shift {
    var size := LastGiven(input, cs, XSDRSIZE, 4);
    var n := Bits2Bytes(size);
    var full := c.x.cmd in FULL_SCANS;
    Shift(Operand(input, c, 0, n),
          if c.x.cmd in TDO_SCANS then Some(Operand(input, c, n, n))
          else if full then Some(BufferGiven(input, cs, TDO_SCANS, true))
          else None,
          if full then Some(BufferGiven(input, cs, {XTDOMASK}, false)) else None,
          size, DRSHIFT,
          if c.x.cmd in OPEN_SCANS then DRSHIFT else if LastGiven(input, cs, XENDDR, 1) == 0 then IDLE else DRPAUSE,
          if full then Signed(LastGiven(input, cs, XRUNTEST, 4)) else 0)
  }

  function Retries(input: string, cs: seq<Execution>, c: Execution): nat {
    if c.x.cmd in OPEN_SCANS + LAST_SCANS then 0 else LastGiven(input, cs, XREPEAT, 1)
  }

  /** The instruction scan of XSIR, whose length takes one byte, or XSIR2, two. */
  function InstructionScan(input: string, cs: seq<Execution>, c: Execution): Shift {
    var width := if c.x.cmd == XSIR then 1 else 2;
    var len := Number(Operand(input, c, 0, width));
    Shift(Operand(input, c, width, Bits2Bytes(len)), None, None, len, IRSHIFT,
          if LastGiven(input, cs, XENDIR, 1) == 0 then IDLE else IRPAUSE,
          Signed(LastGiven(input, cs, XRUNTEST, 4)))
  }

  /** The operands of a scan, in bytes. */
  function ScanBytes(input: string, cs: seq<Execution>, c: Execution): nat {
    var n := Bits2Bytes(LastGiven(input, cs, XSDRSIZE, 4));
    if c.x.cmd in {XSIR, XSIR2} then
      var width := if c.x.cmd == XSIR then 1 else 2;
      width + Bits2Bytes(Number(Operand(input, c, 0, width)))
    else if c.x.cmd in TDO_SCANS then 2 * n
    else if c.x.cmd == XSDRINC then n + 1
    else n
  }

  function ScanOf(input: string, cs: seq<Execution>, c: Execution): Shift {
    if c.x.cmd in {XSIR, XSIR2} then InstructionScan(input, cs, c) else DataScan(input, cs, c)
  }

  lemma DataScanIs(input: string, cs: seq<Execution>, c: Execution, y: Xs)
    requires XsWf(c.x) && Recorded(input, cs, c.x) && c.x.cmd in FULL_SCANS + OPEN_SCANS + LAST_SCANS
    requires c.x.pos + ScanBytes(input, cs, c) <= |input|
    requires c.x.cmd != XSDRINC ==> y == DrLoaded(input, c.x)
    requires c.x.cmd == XSDRINC ==> y == c.x.(tdi := Slice(input, c.x.pos, Bits2Bytes(c.x.drSize)), pos := y.pos)
    ensures XsWf(y) && DrShiftJob(y, c.x.cmd) == DataScan(input, cs, c)
    ensures Retries(input, cs, c) == if Checked(c.x.cmd) then c.x.retries else 0
  {
    hide LastGiven, BufferGiven, ByteAt, Bits2Bytes;
  }

  lemma EnoughForScan(input: string, cs: seq<Execution>, c: Execution)
    requires Recorded(input, cs, c.x) && c.x.cmd in {XSDR, XSDRTDO} + OPEN_SCANS + LAST_SCANS
    requires c.x.pos + ScanBytes(input, cs, c) <= |input|
    ensures Has(input, c.x, DrLength(c.x))
  {
    hide LastGiven, BufferGiven, Bits2Bytes;
    assert c.x.cmd !in {XSIR, XSIR2, XSDRINC} && c.x.drSize == LastGiven(input, cs, XSDRSIZE, 4);
    assert DrLength(c.x) == ScanBytes(input, cs, c);
  }

  lemma LoadedRetries(input: string, x: Xs)
    requires XsWf(x) && Has(input, x, DrLength(x))
    ensures DrLoaded(input, x).retries == x.retries
  {
  }

  lemma DataScanned(input: string, c: Execution, retries: nat, env: Env)
    requires XsWf(c.x) && c.x.cmd in {XSDR, XSDRTDO} + OPEN_SCANS + LAST_SCANS && Has(input, c.x, DrLength(c.x))
    requires retries == if Checked(c.x.cmd) then c.x.retries else 0
    ensures var t := After(input, c, env);
            && (t.st, t.flow == Go) == ShiftData(DrShiftJob(DrLoaded(input, c.x), c.x.cmd), retries, c.st, env)
            && t.flow in {Go, Fail}
  {
    hide ByteAt, Bits2Bytes, XsWf, DrLoaded, DrLength, DrShiftJob, ShiftData, ShiftWf;
    var y := DrLoaded(input, c.x);
    assert y.retries == c.x.retries by {
      LoadedRetries(input, c.x);
    }
  }

  lemma DataScanRuns(input: string, cs: seq<Execution>, c: Execution, env: Env)
    requires XsWf(c.x) && Recorded(input, cs, c.x) && Legal(c.st.tap)
    requires c.x.cmd in {XSDR, XSDRTDO} + OPEN_SCANS + LAST_SCANS
    requires c.x.pos + ScanBytes(input, cs, c) <= |input|
    ensures var t := After(input, c, env);
            && Shifted(DataScan(input, cs, c), Retries(input, cs, c), c.st, env, t.st, t.flow == Go)
            && t.flow in {Go, Fail}
  {
    hide After, LastGiven, BufferGiven, Bits2Bytes, XsWf, DrLoaded, DrLength, DrShiftJob, ShiftData, Shifted, DataScan,
      Recorded, Retries, ScanBytes, ShiftWf, Legal, Has;
    EnoughForScan(input, cs, c);
    var y := DrLoaded(input, c.x);
    DataScanIs(input, cs, c, y);
    DataScanned(input, c, Retries(input, cs, c), env);
    ShiftsSo(DrShiftJob(y, c.x.cmd), Retries(input, cs, c), c.st, env);
  }

  lemma InstructionLength(input: string, c: Execution, width: nat)
    requires 1 <= width <= 2 && Has(input, c.x, width)
    ensures LengthAt(input, c.x.pos, width) == Number(Operand(input, c, 0, width))
  {
    if width == 1 {
      ByteIs(input, c);
    } else {
      var a, b := ByteAt(input, c.x.pos), ByteAt(input, c.x.pos + 1);
      LastByte([a], [], a);
      LastByte([a, b], [a], b);
      assert Operand(input, c, 0, 2) == [a, b];
    }
  }

  lemma InstructionScanned(input: string, c: Execution, len: nat, width: nat, env: Env)
    requires XsWf(c.x) && c.x.cmd in {XSIR, XSIR2} && width == (if c.x.cmd == XSIR then 1 else 2)
    requires Has(input, c.x, width + Bits2Bytes(len)) && LengthAt(input, c.x.pos, width) == len
    ensures var t, y := After(input, c, env), c.x.(pos := c.x.pos + width);
            && (t.st, t.flow == Go)
               == ShiftData(IrShiftJob(y, Slice(input, y.pos, Bits2Bytes(len)), len), c.x.retries, c.st, env)
            && t.flow in {Go, Fail}
  {
    hide ByteAt, LengthAt, Bits2Bytes, XsWf, IrShiftJob, ShiftData, ShiftWf;
  }

  lemma InstructionScanIs(input: string, cs: seq<Execution>, c: Execution, len: nat, y: Xs)
    requires XsWf(c.x) && Recorded(input, cs, c.x) && c.x.cmd in {XSIR, XSIR2}
    requires y == c.x.(pos := y.pos) && y.pos == c.x.pos + (if c.x.cmd == XSIR then 1 else 2)
    requires len == Number(Operand(input, c, 0, y.pos - c.x.pos)) && Has(input, y, Bits2Bytes(len))
    ensures IrShiftJob(y, Slice(input, y.pos, Bits2Bytes(len)), len) == InstructionScan(input, cs, c)
    ensures c.x.retries == Retries(input, cs, c)
  {
    hide LastGiven, BufferGiven, Bits2Bytes, ByteAt, Number;
  }

  lemma InstructionScanRuns(input: string, cs: seq<Execution>, c: Execution, env: Env)
    requires XsWf(c.x) && Recorded(input, cs, c.x) && Legal(c.st.tap) && c.x.cmd in {XSIR, XSIR2}
    requires c.x.pos + ScanBytes(input, cs, c) <= |input|
    ensures var t := After(input, c, env);
            && Shifted(InstructionScan(input, cs, c), Retries(input, cs, c), c.st, env, t.st, t.flow == Go)
            && t.flow in {Go, Fail}
  {
    var width := if c.x.cmd == XSIR then 1 else 2;
    InstructionLength(input, c, width);
    var len := LengthAt(input, c.x.pos, width);
    hide After, LastGiven, BufferGiven, Bits2Bytes, XsWf, ShiftData, Shifted, ShiftWf, Legal, LengthAt, Number, Operand,
      Recorded, IrShiftJob, InstructionScan, Retries;
    InstructionScanned(input, c, len, width, env);
    var y := c.x.(pos := c.x.pos + width);
    InstructionScanIs(input, cs, c, len, y);
    ShiftsSo(IrShiftJob(y, Slice(input, y.pos, Bits2Bytes(len)), len), c.x.retries, c.st, env);
  }

  // ---------------------------------------------------------------------
  // Legal states
  // ---------------------------------------------------------------------

  ghost function LegalStates(): iset<Player> {
    iset st: Player | Legal(st.tap)
  }

  lemma LegalIsKept(env: Env)
    ensures Kept(LegalStates(), env)
  {
    forall st, s | st in LegalStates()
      ensures Walked(st, s).0 in LegalStates() && (Walked(st, s).1 ==> Walked(st, s).0.tap == s)
    {
      LegalWalk(st, s);
    }
    forall j, retries, st | ShiftWf(j) && st in LegalStates()
      ensures ShiftData(j, retries, st, env).0 in LegalStates()
    {
      LegalShift(j, retries, st, env);
    }
  }

  lemma LegalWalk(st: Player, s: int)
    requires Legal(st.tap)
    ensures Legal(Walked(st, s).0.tap) && (Walked(st, s).1 ==> Walked(st, s).0.tap == s)
  {
    WalkStepsTrack(st.tap, s);
  }

  lemma LegalShift(j: Shift, retries: nat, st: Player, env: Env)
    requires ShiftWf(j) && Legal(st.tap)
    ensures Legal(ShiftData(j, retries, st, env).0.tap)
  {
    hide Wrong, Tries, EndTap, ShiftData, ShiftWf, Legal;
    EndsLegal(j);
    var _, _ := ShiftDataIs(j, retries, retries > 0, st, env);
  }

  lemma {:induction false} LegalInRun(input: string, x: Xs, st: Player, env: Env, i: nat)
    requires XsWf(x) && Legal(st.tap) && i < |Executed(input, x, st, env)|
    ensures Legal(Executed(input, x, st, env)[i].st.tap)
    decreases i
  {
    hide Executed, Execute, XsWf, Legal, Kept;
    if i == 0 {
      ExecutedNext(input, x, st, env, 0);
    } else {
      var n := i - 1;
      var c := Executed(input, x, st, env)[n];
      ExecutedNext(input, x, st, env, n);
      LegalInRun(input, x, st, env, n);
      LegalIsKept(env);
      ExecuteKeeps(input, c.x, c.last, c.st, LegalStates(), env);
    }
  }

  /** Every scan of a run but those of XSDRINC: what it shifts, what it checks and where
      it ends is what the file has given up to then; and the run goes on if and only if
      the scan succeeds. */
  lemma ScanInRun(input: string, pos: nat, st: Player, env: Env, i: nat)
    requires Legal(st.tap) && i < |Executed(input, XSTART.(pos := pos), st, env)|
    requires var cs := Executed(input, XSTART.(pos := pos), st, env);
             && cs[i].x.cmd in {XSDR, XSDRTDO, XSIR, XSIR2} + OPEN_SCANS + LAST_SCANS
             && cs[i].x.pos + ScanBytes(input, cs[..i], cs[i]) <= |input|
    ensures var cs := Executed(input, XSTART.(pos := pos), st, env);
            var c, t := cs[i], After(input, cs[i], env);
            && Shifted(ScanOf(input, cs[..i], c), Retries(input, cs[..i], c), c.st, env, t.st, t.flow == Go)
            && t.flow in {Go, Fail}
  {
    hide Executed, Execute, XsWf, Legal, Recorded, Shifted, DataScan, InstructionScan, Retries, ScanBytes;
    var x := XSTART.(pos := pos);
    Nothing(input, x);
    var cs := Executed(input, x, st, env);
    RecordedInRun(input, pos, st, env, i);
    LegalInRun(input, x, st, env, i);
    if cs[i].x.cmd in {XSIR, XSIR2} {
      InstructionScanRuns(input, cs[..i], cs[i], env);
    } else {
      DataScanRuns(input, cs[..i], cs[i], env);
    }
  }

  /** XSDRTDOB, XSDRTDOC and XSDRTDOE take the TDO bits to expect, but no cycle of
      theirs checks TDO. */
  lemma TdoUnchecked(input: string, cs: seq<Execution>, c: Execution, retry: bool, k: nat)
    requires c.x.cmd in FULL_SCANS + OPEN_SCANS + LAST_SCANS && k < LastGiven(input, cs, XSDRSIZE, 4)
    ensures WireBits(DataScan(input, cs, c), retry)[k].tdo.Some?
            <==> c.x.cmd in FULL_SCANS && Bit(Number(BufferGiven(input, cs, {XTDOMASK}, false)), k)
  {
    hide LastGiven, BufferGiven, Number, Bit, Operand;
    var j := DataScan(input, cs, c);
    assert WireBits(j, retry)[k] == WireBit(j, retry, k);
  }

  // ---------------------------------------------------------------------
  // XSDRINC
  // ---------------------------------------------------------------------

  lemma IncScanned(input: string, cs: seq<Execution>, c: Execution, y: Xs, env: Env, v: seq<byte>, st: Player)
    requires XsWf(c.x) && Recorded(input, cs, c.x) && c.x.cmd == XSDRINC && Legal(st.tap)
    requires c.x.pos + ScanBytes(input, cs, c) <= |input|
    requires y == c.x.(tdi := Slice(input, c.x.pos, Bits2Bytes(c.x.drSize)), pos := y.pos) && |v| == |y.tdi|
    ensures var (end, ok) := IncScan(y, env)(v, st);
            Shifted(DataScan(input, cs, c).(inp := v), Retries(input, cs, c), st, env, end, ok)
  {
    DataScanIs(input, cs, c, y);
    hide LastGiven, BufferGiven, Bits2Bytes, ShiftData, Shifted, DataScan, Recorded, Retries, ScanBytes, Legal;
    var j := DrShiftJob(y.(tdi := v), XSDRINC);
    assert j == DataScan(input, cs, c).(inp := v) by {
      assert j == DrShiftJob(y, XSDRINC).(inp := v);
    }
    ShiftsSo(j, c.x.retries, st, env);
  }

  lemma IncExecutes(input: string, c: Execution, n: nat, y: Xs, env: Env)
    requires XsWf(c.x) && c.x.cmd == XSDRINC && n == Bits2Bytes(c.x.drSize) && Has(input, c.x, n + 1)
    requires y == c.x.(tdi := Slice(input, c.x.pos, n), pos := c.x.pos + n + 1)
    ensures After(input, c, env) == IncEnd(input, y, ByteAt(input, c.x.pos + n), c.st, IncScan(y, env))
  {
    hide IncEnd, IncScan, ByteAt, Bits2Bytes;
  }

  lemma IncRuns(input: string, c: Execution, n: nat, y: Xs, env: Env)
    requires XsWf(c.x) && c.x.cmd == XSDRINC && n == Bits2Bytes(c.x.drSize) && Has(input, c.x, n + 1)
    requires y == c.x.(tdi := Operand(input, c, 0, n), pos := c.x.pos + n + 1)
    ensures After(input, c, env)
            == IncLoop(input, y, Number(Operand(input, c, n, 1)), c.st, IncScan(y, env)).end
  {
    hide After, IncLoop, IncScan, ByteAt, Bits2Bytes;
    var b := ByteAt(input, c.x.pos + n);
    LastByte([b], [], b);
    assert Operand(input, c, n, 1) == [b];
    hide Number;
    IncExecutes(input, c, n, y, env);
  }

  /** No size came after the latest XSETSDRMASKS, or none at all. */
  predicate MasksSet(cs: seq<Execution>) {
    cs == []
    || cs[|cs| - 1].x.cmd == XSETSDRMASKS
    || (cs[|cs| - 1].x.cmd != XSDRSIZE && MasksSet(cs[..|cs| - 1]))
  }

  lemma {:induction false} SetIsCurrent(input: string, pos: nat, st: Player, env: Env, i: nat)
    requires i < |Executed(input, XSTART.(pos := pos), st, env)|
    requires MasksSet(Executed(input, XSTART.(pos := pos), st, env)[..i])
    ensures var x := Executed(input, XSTART.(pos := pos), st, env)[i].x; XsWf(x) && MasksCurrent(x)
    decreases i
  {
    hide Executed, Execute, XsWf, Weight;
    var x := XSTART.(pos := pos);
    Nothing(input, x);
    var cs := Executed(input, x, st, env);
    if i == 0 {
      ExecutedNext(input, x, st, env, 0);
      NoMasks(cs[0].x);
    } else {
      var n := i - 1;
      ExecutedNext(input, x, st, env, n);
      assert cs[..i][..n] == cs[..n] && cs[..i][n] == cs[n];
      if cs[n].x.cmd != XSETSDRMASKS {
        SetIsCurrent(input, pos, st, env, n);
      }
      MasksStay(input, cs[n].x, cs[n].last, cs[n].st, env);
    }
  }

  lemma NoMasks(x: Xs)
    requires x == XSTART.(cmd := x.cmd, pos := x.pos)
    ensures XsWf(x) && MasksCurrent(x)
  {
  }

  /** No bit belongs to both masks of the latest XSETSDRMASKS. */
  predicate MasksApart(input: string, cs: seq<Execution>) {
    var addr, data := BufferGiven(input, cs, {XSETSDRMASKS}, false), BufferGiven(input, cs, {XSETSDRMASKS}, true);
    var size := LastGiven(input, cs, XSDRSIZE, 4);
    size <= 8 * |addr| && |addr| == |data| ==>
      forall m: nat :: m < size ==> !(GetBit(addr, m) && GetBit(data, m))
  }

  /** An XSDRINC of a run, with masks that were set after the size and do not overlap,
      shifts vectors that count up from its first operand, as many more as its second one
      says, each as a data scan of that vector. */
  lemma IncInRun(input: string, pos: nat, st: Player, env: Env, i: nat) returns (y: Xs, r: Inc, scan: VectorScan)
    requires Legal(st.tap) && i < |Executed(input, XSTART.(pos := pos), st, env)|
    requires var cs := Executed(input, XSTART.(pos := pos), st, env);
             && cs[i].x.cmd == XSDRINC && cs[i].x.pos + ScanBytes(input, cs[..i], cs[i]) <= |input|
             && MasksSet(cs[..i]) && MasksApart(input, cs[..i])
    ensures var cs := Executed(input, XSTART.(pos := pos), st, env);
            var c, n := cs[i], Bits2Bytes(LastGiven(input, cs[..i], XSDRSIZE, 4));
            && r.end == After(input, c, env)
            && XsWf(y) && y == c.x.(tdi := Operand(input, c, 0, n), pos := c.x.pos + n + 1)
            && IncOk(input, y, Number(Operand(input, c, n, 1)), r)
            && Shows(Number(Operand(input, c, n, 1)), c.st, scan, r)
            && forall v: seq<byte>, s: Player :: |v| == n && Legal(s.tap) ==>
                 var (end, ok) := scan(v, s);
                 Shifted(DataScan(input, cs[..i], c).(inp := v), Retries(input, cs[..i], c), s, env, end, ok)
  {
    hide Executed, After, LastGiven, BufferGiven, Bits2Bytes, Shifted, DataScan, Recorded, Retries, ScanBytes, Legal,
      IncOk, Shows, Number, Operand, MasksCurrent, Disjoint, MasksSet, MasksApart;
    var x := XSTART.(pos := pos);
    Nothing(input, x);
    var cs := Executed(input, x, st, env);
    RecordedInRun(input, pos, st, env, i);
    SetIsCurrent(input, pos, st, env, i);
    ApartIsDisjoint(input, cs[..i], cs[i].x);
    y, r, scan := IncRecorded(input, cs[..i], cs[i], env);
  }

  lemma ApartIsDisjoint(input: string, cs: seq<Execution>, x: Xs)
    requires XsWf(x) && Recorded(input, cs, x) && MasksApart(input, cs)
    ensures Disjoint(x)
  {
    hide LastGiven, BufferGiven, GetBit;
    assert x.drSize <= 8 * |x.addr|;
  }

  lemma IncRecorded(input: string, cs: seq<Execution>, c: Execution, env: Env) returns (y: Xs, r: Inc, scan: VectorScan)
    requires XsWf(c.x) && Recorded(input, cs, c.x) && c.x.cmd == XSDRINC
    requires c.x.pos + ScanBytes(input, cs, c) <= |input| && MasksCurrent(c.x) && Disjoint(c.x)
    ensures var n := Bits2Bytes(LastGiven(input, cs, XSDRSIZE, 4));
            && r.end == After(input, c, env)
            && XsWf(y) && y == c.x.(tdi := Operand(input, c, 0, n), pos := c.x.pos + n + 1)
            && IncOk(input, y, Number(Operand(input, c, n, 1)), r)
            && Shows(Number(Operand(input, c, n, 1)), c.st, scan, r)
            && forall v: seq<byte>, s: Player :: |v| == n && Legal(s.tap) ==>
                 var (end, ok) := scan(v, s);
                 Shifted(DataScan(input, cs, c).(inp := v), Retries(input, cs, c), s, env, end, ok)
  {
    var n := Bits2Bytes(c.x.drSize);
    assert n + 1 == ScanBytes(input, cs, c) && c.x.drSize == LastGiven(input, cs, XSDRSIZE, 4);
    y := c.x.(tdi := Operand(input, c, 0, n), pos := c.x.pos + n + 1);
    scan := IncScan(y, env);
    IncRuns(input, c, n, y, env);
    hide After, LastGiven, BufferGiven, Bits2Bytes, Shifted, DataScan, Recorded, Retries, ScanBytes, Legal, IncScan,
      IncOk, Shows, Number, IncLoop;
    SameMasks(c.x, y);
    r := XsdrincCounts(input, y, Number(Operand(input, c, n, 1)), c.st, env);
    forall v: seq<byte>, s: Player | |v| == n && Legal(s.tap)
      ensures var (end, ok) := scan(v, s);
              Shifted(DataScan(input, cs, c).(inp := v), Retries(input, cs, c), s, env, end, ok)
    {
      IncScanned(input, cs, c, y, env, v, s);
    }
  }

  // ---------------------------------------------------------------------
  // Walks, waits and comments
  // ---------------------------------------------------------------------

  /** A player that has walked to a state. */
  function AtState(st: Player, s: int): Player {
    Player(s, st.log + Transitions(Walk(st.tap, s).tms))
  }

  lemma WalksThere(st: Player, s: int)
    requires Legal(st.tap)
    ensures Walked(st, s).1 <==> Reachable(st.tap, s)
    ensures Walked(st, s).1 ==> Walked(st, s).0 == AtState(st, s) && Legal(s)
    ensures s == IDLE ==> Walked(st, s).1
  {
    WalkStepsTrack(st.tap, s);
  }

  /** The state that an operand names. */
  function StateAt(input: string, c: Execution, from: nat): int {
    XilinxTap(if c.x.pos + from < |input| then ByteAt(input, c.x.pos + from) else 0)
  }

  /** Where an XSTATE walks from: Run-Test/Idle after a wait there, if the command right
      before it was an XRUNTEST of more than nothing. */
  function BeforeState(input: string, cs: seq<Execution>, c: Execution): Player {
    var n := LastGiven(input, cs, XRUNTEST, 4);
    if c.last == XRUNTEST && n > 0 then
      var idle := AtState(c.st, IDLE);
      Player(IDLE, idle.log + [Delay(n, false, n)])
    else c.st
  }

  lemma StateInRun(input: string, pos: nat, st: Player, env: Env, i: nat)
    requires Legal(st.tap) && i < |Executed(input, XSTART.(pos := pos), st, env)|
    requires var c := Executed(input, XSTART.(pos := pos), st, env)[i]; c.x.cmd == XSTATE && c.x.pos < |input|
    ensures var cs := Executed(input, XSTART.(pos := pos), st, env);
            var c, t := cs[i], After(input, cs[i], env);
            var from, s := BeforeState(input, cs[..i], c), StateAt(input, c, 0);
            && (t.flow == Go <==> Reachable(from.tap, s)) && (t.flow == Go ==> t.st == AtState(from, s))
            && t.x.pos == c.x.pos + 1
  {
    hide Executed, LastGiven, BufferGiven, ByteAt, Walk, Transitions, AtState, Reachable, XilinxTap;
    var x := XSTART.(pos := pos);
    Nothing(input, x);
    var cs := Executed(input, x, st, env);
    var c := cs[i];
    RecordedInRun(input, pos, st, env, i);
    LegalInRun(input, x, st, env, i);
    StateRuns(input, cs[..i], c, env);
  }

  lemma StateRuns(input: string, cs: seq<Execution>, c: Execution, env: Env)
    requires XsWf(c.x) && Recorded(input, cs, c.x) && Legal(c.st.tap) && c.x.cmd == XSTATE && c.x.pos < |input|
    ensures var t, from, s := After(input, c, env), BeforeState(input, cs, c), StateAt(input, c, 0);
            && (t.flow == Go <==> Reachable(from.tap, s)) && (t.flow == Go ==> t.st == AtState(from, s))
            && t.x.pos == c.x.pos + 1
  {
    hide LastGiven, BufferGiven, ByteAt, AtState, Reachable, XilinxTap, Walked;
    AtTap(c.st, IDLE);
    assert c.x.runtest == LastGiven(input, cs, XRUNTEST, 4);
    var s := StateAt(input, c, 0);
    WalksThere(c.st, IDLE);
    if c.last == XRUNTEST && c.x.runtest > 0 {
      WalksThere(Waited(AtState(c.st, IDLE), c.x.runtest, c.x.runtest), s);
    } else {
      WalksThere(c.st, s);
    }
  }

  /** XWAIT and XWAITSTATE: to the first state, a wait without a clock cycle, and to the
      second state. */
  lemma WaitInRun(input: string, pos: nat, st: Player, env: Env, i: nat)
    requires Legal(st.tap) && i < |Executed(input, XSTART.(pos := pos), st, env)|
    requires var c := Executed(input, XSTART.(pos := pos), st, env)[i];
             c.x.cmd in {XWAIT, XWAITSTATE} && c.x.pos + (if c.x.cmd == XWAIT then 6 else 10) <= |input|
    ensures var cs := Executed(input, XSTART.(pos := pos), st, env);
            var c, t := cs[i], After(input, cs[i], env);
            var from, to, usecs := StateAt(input, c, 0), StateAt(input, c, 1), Number(Operand(input, c, 2, 4));
            && (t.flow == Go <==> Reachable(c.st.tap, from) && Reachable(from, to))
            && (t.flow == Go ==>
                  && t.st == AtState(Player(from, AtState(c.st, from).log + [Delay(usecs, false, 0)]), to)
                  && t.x.pos == c.x.pos + if c.x.cmd == XWAIT then 6 else 10)
  {
    hide Executed, LastGiven, BufferGiven, ByteAt, Walk, Transitions, AtState, Reachable, XilinxTap, LongAt, Number;
    var x := XSTART.(pos := pos);
    Nothing(input, x);
    var c := Executed(input, x, st, env)[i];
    LegalInRun(input, x, st, env, i);
    WaitRuns(input, c, env);
  }

  lemma WaitRuns(input: string, c: Execution, env: Env)
    requires XsWf(c.x) && Legal(c.st.tap) && c.x.cmd in {XWAIT, XWAITSTATE}
    requires c.x.pos + (if c.x.cmd == XWAIT then 6 else 10) <= |input|
    ensures var t := After(input, c, env);
            var from, to, usecs := StateAt(input, c, 0), StateAt(input, c, 1), Number(Operand(input, c, 2, 4));
            && (t.flow == Go <==> Reachable(c.st.tap, from) && Reachable(from, to))
            && (t.flow == Go ==>
                  && t.st == AtState(Player(from, AtState(c.st, from).log + [Delay(usecs, false, 0)]), to)
                  && t.x.pos == c.x.pos + if c.x.cmd == XWAIT then 6 else 10)
  {
    ArgsAre(input, c);
    hide After, Reachable, Number, Operand, WaitWalks, AtState, Legal, XsWf, StateAt, WaitArgsAt;
    WaitExecutes(input, c, env);
    WaitWalksSo(WaitArgsAt(input, c.x.pos), c.st);
  }

  lemma ArgsAre(input: string, c: Execution)
    requires c.x.pos + 6 <= |input|
    ensures WaitArgsAt(input, c.x.pos)
            == WaitArgs(StateAt(input, c, 0), StateAt(input, c, 1), Number(Operand(input, c, 2, 4)))
  {
    hide ByteAt, XilinxTap, LongAt, Number, Operand;
    LongWithin(input, c, 2);
  }

  lemma WaitExecutes(input: string, c: Execution, env: Env)
    requires XsWf(c.x) && c.x.cmd in {XWAIT, XWAITSTATE}
    requires c.x.pos + (if c.x.cmd == XWAIT then 6 else 10) <= |input|
    ensures var t, (st, ok) := After(input, c, env), WaitWalks(WaitArgsAt(input, c.x.pos), c.st);
            && t.st == st && (t.flow == Go <==> ok)
            && (ok ==> t.x.pos == c.x.pos + if c.x.cmd == XWAIT then 6 else 10)
  {
    hide WaitWalks, WaitArgsAt;
  }

  lemma WaitWalksSo(a: WaitArgs, st: Player)
    requires Legal(st.tap)
    ensures var (end, ok) := WaitWalks(a, st);
            && (ok <==> Reachable(st.tap, a.from) && Reachable(a.from, a.to))
            && (ok ==> end == AtState(Player(a.from, AtState(st, a.from).log + [Delay(a.usecs, false, 0)]), a.to))
  {
    hide Walked, Reachable, AtState, Legal;
    AtTap(st, a.from);
    WalksThere(st, a.from);
    if Reachable(st.tap, a.from) {
      WalksThere(Waited(AtState(st, a.from), a.usecs, 0), a.to);
    }
  }

  lemma AtTap(st: Player, s: int)
    ensures AtState(st, s).tap == s
  {
  }

  lemma LongWithin(input: string, c: Execution, from: nat)
    requires c.x.pos + from + 4 <= |input|
    ensures LongAt(input, c.x.pos + from) == Number(Operand(input, c, from, 4))
  {
    var d := c.(x := c.x.(pos := c.x.pos + from));
    LongIs(input, d);
    assert Operand(input, d, 0, 4) == Operand(input, c, from, 4);
  }

  /** A comment goes to the first zero byte; without one the run fails. */
  lemma CommentInRun(input: string, c: Execution, env: Env)
    requires XsWf(c.x) && c.x.cmd == XCOMMENT
    ensures var t := After(input, c, env);
            t.st == c.st
            && if t.flow == Go then
                 && c.x.pos < t.x.pos <= |input| && ByteAt(input, t.x.pos - 1) == 0
                 && forall k :: c.x.pos <= k < t.x.pos - 1 ==> ByteAt(input, k) != 0
               else t.flow == Fail && forall k :: c.x.pos <= k < |input| ==> ByteAt(input, k) != 0
  {
    CommentEnds(input, c.x.pos);
  }

  lemma {:induction false} CommentEnds(input: string, pos: nat)
    ensures var e := CommentEnd(input, pos);
            if e.Some? then
              && pos < e.value <= |input| && ByteAt(input, e.value - 1) == 0
              && forall k :: pos <= k < e.value - 1 ==> ByteAt(input, k) != 0
            else forall k :: pos <= k < |input| ==> ByteAt(input, k) != 0
    decreases if pos < |input| then |input| - pos else 0
  {
    if pos < |input| && ByteAt(input, pos) != 0 {
      CommentEnds(input, pos + 1);
    }
  }

  // ---------------------------------------------------------------------
  // States
  // ---------------------------------------------------------------------

  /** The states in the order of Xilinx XAPP503. */
  const STATE_ORDER := [Reset, Idle, DrSelect, DrCapture, DrShift, DrExit1, DrPause, DrExit2, DrUpdate,
                        IrSelect, IrCapture, IrShift, IrExit1, IrPause, IrExit2, IrUpdate]

  lemma StateCodes(k: byte)
    ensures XilinxTap(k) == if k < 16 then Code(STATE_ORDER[k]) else -1
  {
    assert k < 16 ==> forall i :: 0 <= i < 16 ==> Code(STATE_ORDER[i]) == 1 + i;
  }
}
