/** What the FTDI host has done and found out after any log of requests. */
module FtdiLog {
  import opened HostApi
  import opened Mpsse
  import opened FtdiPlan
  import opened FtdiCorrect
  import opened FtdiModel

  function IdleCells(tms: bool, n: nat): (r: seq<Cell>)
    ensures |r| == n
  {
    seq(n, _ => CellOf(tms, None, None, false))
  }

  /** The pulses a request asks for. */
  function ActCells(a: Act): seq<Cell> {
    match a
    case Pulse(tms, tdi, tdo, rmask, _) => [CellOf(tms, tdi, tdo, rmask)]
    case Delay(_, tms, n) => if n > 0 then IdleCells(tms, n) else []
    case _ => []
  }

  function CellsOf(log: seq<Act>): seq<Cell> {
    if log == [] then [] else CellsOf(log[..|log| - 1]) + ActCells(log[|log| - 1])
  }

  lemma {:induction false} CellsOfConcat(a: seq<Act>, b: seq<Act>)
    ensures CellsOf(a + b) == CellsOf(a) + CellsOf(b)
    decreases |b|
  {
    if b == [] {
      assert a + b == a;
    } else {
      assert (a + b)[..|a + b| - 1] == a + b[..|b| - 1];
      CellsOfConcat(a, b[..|b| - 1]);
    }
  }

  /** Pulse `i` asked for a TDO level and its cycle showed another one. */
  predicate Wrong(dev: Device, wire: seq<Wire>, ds: seq<Cell>, i: nat)
    requires i < |ds| == |wire|
  {
    ds[i].tdoEnable && ds[i].tdo != TdoAt(dev, wire, i)
  }

  ghost predicate WrongSince(dev: Device, wire: seq<Wire>, ds: seq<Cell>, base: nat)
    requires |ds| == |wire|
  {
    exists i :: base <= i < |ds| && Wrong(dev, wire, ds, i)
  }

  /** After the pulses `sent` went out: the wire shows them, error_rc tells
      whether one of them since `base` was wrong, retval holds the captures. */
  ghost predicate Tells(dev: Device, s: Ftdi, sent: seq<Cell>, base: nat) {
    && Ready(s) && Shows(s.chip.wire, sent) && base <= |sent|
    && (sent != [] ==> s.lastTms != -1)
    && (s.found.error <==> WrongSince(dev, s.chip.wire, sent, base))
    && s.found.retval == Cut(Captured(sent, Lines(dev, s.chip.wire, 0, |sent|)))
  }

  lemma WrongExtends(dev: Device, w1: seq<Wire>, a: seq<Cell>, w2: seq<Wire>, b: seq<Cell>, base: nat)
    requires |a| == |w1| && |b| == |w2| && base <= |a|
    ensures WrongSince(dev, w1 + w2, a + b, base) <==>
              WrongSince(dev, w1, a, base) || Mismatch(b, Lines(dev, w1 + w2, |w1|, |w2|))
  {
    var lines := Lines(dev, w1 + w2, |w1|, |w2|);
    forall i | base <= i < |a|
      ensures Wrong(dev, w1 + w2, a + b, i) == Wrong(dev, w1, a, i)
    {
      assert (w1 + w2)[..i + 1] == w1[..i + 1];
    }
    forall i | 0 <= i < |b|
      ensures Wrong(dev, w1 + w2, a + b, |a| + i) == (b[i].tdoEnable && b[i].tdo != lines[i])
    {
    }
    if WrongSince(dev, w1 + w2, a + b, base) {
      var i :| base <= i < |a + b| && Wrong(dev, w1 + w2, a + b, i);
      if i >= |a| {
        assert b[i - |a|].tdoEnable && b[i - |a|].tdo != lines[i - |a|];
      } else {
        assert Wrong(dev, w1, a, i);
      }
    }
    if Mismatch(b, lines) {
      var i :| 0 <= i < |b| && b[i].tdoEnable && b[i].tdo != lines[i];
      assert Wrong(dev, w1 + w2, a + b, |a| + i);
    }
    if WrongSince(dev, w1, a, base) {
      var i :| base <= i < |a| && Wrong(dev, w1, a, i);
      assert Wrong(dev, w1 + w2, a + b, i);
    }
  }

  lemma {:induction false} CapturedConcat(a: seq<Cell>, la: seq<bool>, b: seq<Cell>, lb: seq<bool>)
    requires |a| == |la| && |b| == |lb|
    ensures Captured(a + b, la + lb) == Captured(a, la) + Captured(b, lb)
    decreases |b|
  {
    if b == [] {
      assert a + b == a && la + lb == la;
    } else {
      var n := |b| - 1;
      assert (a + b)[..|a + b| - 1] == a + b[..n] && (la + lb)[..|a + b| - 1] == la + lb[..n];
      CapturedConcat(a, la, b[..n], lb[..n]);
    }
  }

  lemma CutTwice(a: seq<bool>, b: seq<bool>)
    ensures Cut(Cut(a) + b) == Cut(a + b)
  {
  }

  lemma CapturesExtend(dev: Device, w1: seq<Wire>, a: seq<Cell>, w2: seq<Wire>, b: seq<Cell>)
    requires |a| == |w1| && |b| == |w2|
    ensures Cut(Cut(Captured(a, Lines(dev, w1, 0, |a|))) + Captured(b, Lines(dev, w1 + w2, |w1|, |w2|)))
            == Cut(Captured(a + b, Lines(dev, w1 + w2, 0, |a + b|)))
  {
    LinesExtend(dev, w1, w2, 0, |a|);
    LinesSplit(dev, w1 + w2, 0, |a|, |b|);
    CapturedConcat(a, Lines(dev, w1, 0, |a|), b, Lines(dev, w1 + w2, |w1|, |w2|));
    CutTwice(Captured(a, Lines(dev, w1, 0, |a|)), Captured(b, Lines(dev, w1 + w2, |w1|, |w2|)));
  }

  lemma FlushTells(dev: Device, s: Ftdi, sent: seq<Cell>, base: nat)
    requires Tells(dev, s, sent, base)
    ensures Tells(dev, Flush(dev, s), sent + s.pend, base) && Flush(dev, s).pend == []
  {
    var ws := FlushMeaning(dev, s);
    var t := Flush(dev, s);
    ShowsConcat(s.chip.wire, sent, ws, s.pend);
    NoteAllMeaning(s.found, s.pend, Lines(dev, t.chip.wire, |s.chip.wire|, |ws|));
    WrongExtends(dev, s.chip.wire, sent, ws, s.pend, base);
    CapturesExtend(dev, s.chip.wire, sent, ws, s.pend);
  }

  lemma AddTells(dev: Device, size: nat, s: Ftdi, d: Cell, sent: seq<Cell>, base: nat) returns (sent': seq<Cell>)
    requires Tells(dev, s, sent, base) && |s.pend| < size <= BUFFER_SIZE
    ensures var t := Add(dev, size, s, d);
            Tells(dev, t, sent', base) && sent' + t.pend == sent + s.pend + [d]
  {
    hide Flush;
    var t := s.(pend := s.pend + [d]);
    assert sent + t.pend == sent + s.pend + [d];
    if |t.pend| >= size {
      FlushTells(dev, t, sent, base);
      sent' := sent + t.pend;
      assert sent' + [] == sent';
    } else {
      sent' := sent;
    }
  }

  lemma {:induction false} AddIdleTells(dev: Device, size: nat, s: Ftdi, tms: bool, n: nat, sent: seq<Cell>, base: nat)
      returns (sent': seq<Cell>)
    requires Tells(dev, s, sent, base) && |s.pend| < size <= BUFFER_SIZE
    ensures var t := AddIdle(dev, size, s, tms, n);
            Tells(dev, t, sent', base) && sent' + t.pend == sent + s.pend + IdleCells(tms, n)
    decreases n
  {
    hide Add, CellOf;
    if n == 0 {
      sent' := sent;
      assert sent + s.pend + [] == sent + s.pend;
    } else {
      var t := AddIdle(dev, size, s, tms, n - 1);
      var d := CellOf(tms, None, None, false);
      sent' := AddIdleTells(dev, size, s, tms, n - 1, sent, base);
      sent' := AddTells(dev, size, t, d, sent', base);
      assert sent + s.pend + IdleCells(tms, n) == sent + s.pend + IdleCells(tms, n - 1) + [d];
    }
  }

  /** Requests that leave nothing buffered. */
  predicate Drains(a: Act) {
    Clears(a) || a.Delay?
  }

  lemma ServeTells(dev: Device, size: nat, s: Ftdi, a: Act, sent: seq<Cell>, base: nat) returns (sent': seq<Cell>)
    requires Tells(dev, s, sent, base) && |s.pend| < size <= BUFFER_SIZE
    ensures var t := Serve(dev, size, s, a);
            && Tells(dev, t, sent', base) && sent' + t.pend == sent + s.pend + ActCells(a)
            && (Drains(a) ==> t.pend == [])
  {
    hide Flush, Add, CellOf, AddIdle, IdleCells;
    sent' := sent;
    match a
    case Pulse(tms, tdi, tdo, rmask, sync) =>
      var d := CellOf(tms, tdi, tdo, rmask);
      sent' := AddTells(dev, size, s, d, sent, base);
      if sync {
        var t := Add(dev, size, s, d);
        FlushTells(dev, t, sent', base);
        sent' := sent' + t.pend;
        assert sent' + [] == sent';
      }
    case Delay(_, tms, n) =>
      FlushTells(dev, s, sent, base);
      sent' := sent + s.pend;
      var t := Flush(dev, s);
      assert sent' + [] == sent';
      if n > 0 {
        sent' := AddIdleTells(dev, size, t, tms, n, sent', base);
        var u := AddIdle(dev, size, t, tms, n);
        FlushTells(dev, u, sent', base);
        sent' := sent' + u.pend;
        assert sent' + [] == sent';
      }
    case Sync =>
      FlushTells(dev, s, sent, base);
      sent' := sent + s.pend;
      assert sent' + [] == sent';
    case _ =>
      assert sent + s.pend + [] == sent + s.pend;
  }

  /** How many pulses had gone out when error_rc was last cleared. */
  function Base(log: seq<Act>): nat {
    if log == [] then 0
    else if Clears(log[|log| - 1]) then |CellsOf(log)|
    else Base(log[..|log| - 1])
  }

  /** The state after the initialisation of h_setup. */
  ghost predicate SetUp(s: Ftdi) {
    s.lastTms == -1 && s.pend == [] && s.chip.wire == [] && s.chip.reply == []
    && s.found == Findings(false, [])
  }

  lemma SetUpTells(dev: Device, s: Ftdi)
    requires SetUp(s)
    ensures Tells(dev, s, [], 0)
  {
    assert Captured([], Lines(dev, s.chip.wire, 0, 0)) == [];
  }

  /** After any log: every pulse asked for is on the wire or buffered, in order;
      error_rc is set exactly when a pulse sent since it was last cleared was
      wrong; retval holds the first 256 RMASK bits. */
  lemma {:induction false} FtdiMeaning(dev: Device, size: nat, start: Ftdi, log: seq<Act>) returns (sent: seq<Cell>)
    requires SetUp(start) && 0 < size <= BUFFER_SIZE
    ensures var s := FtdiAfter(dev, size, start, log);
            Tells(dev, s, sent, Base(log)) && sent + s.pend == CellsOf(log)
    decreases |log|
  {
    if log == [] {
      SetUpTells(dev, start);
      sent := [];
    } else {
      var n := |log| - 1;
      var s := FtdiAfter(dev, size, start, log[..n]);
      sent := FtdiMeaning(dev, size, start, log[..n]);
      sent := ServeTells(dev, size, s, log[n], sent, Base(log[..n]));
      var t := Serve(dev, size, s, log[n]);
      if Clears(log[n]) {
        assert sent + [] == sent;
      }
    }
  }

  /** What the host answers: a negative value exactly when a pulse sent by then,
      since the error was last cleared, was wrong. */
  lemma FtdiAnswers(dev: Device, size: nat, start: Ftdi, log: seq<Act>, a: Act)
      returns (t: Ftdi, sent: seq<Cell>)
    requires SetUp(start) && 0 < size <= BUFFER_SIZE
    requires a.Pulse? || a.Sync?
    ensures sent + t.pend == CellsOf(log + [a]) && (Clears(a) ==> t.pend == [])
    ensures Shows(t.chip.wire, sent)
    ensures t.found.retval == FtdiAfter(dev, size, start, log + [a]).found.retval
    ensures t.chip == FtdiAfter(dev, size, start, log + [a]).chip
    ensures FtdiEnv(dev, size, start)(log + [a]) < 0 <==> WrongSince(dev, t.chip.wire, sent, Base(log))
  {
    hide FtdiEnv, WrongSince, FtdiAfter, Serve, Base, Shows, Tells, CellsOf;
    var s := FtdiAfter(dev, size, start, log);
    sent := FtdiMeaning(dev, size, start, log);
    sent := ServeTells(dev, size, s, a, sent, Base(log));
    t := Serve(dev, size, s, a);
    AfterSnoc(dev, size, start, log, a);
    CellsSnoc(log, a);
    assert a.Pulse? ==> |ActCells(a)| == 1 && |sent| + |t.pend| > 0;
    ReplyTells(dev, t, a, sent, Base(log));
  }

  lemma CellsSnoc(log: seq<Act>, a: Act)
    ensures CellsOf(log + [a]) == CellsOf(log) + ActCells(a)
  {
    assert (log + [a])[..|log|] == log;
  }

  lemma ReplyTells(dev: Device, t: Ftdi, a: Act, sent: seq<Cell>, base: nat)
    requires Tells(dev, t, sent, base) && (a.Sync? || (a.Pulse? && (a.sync ==> sent != [])))
    ensures Reply(t, a) < 0 <==> WrongSince(dev, t.chip.wire, sent, base)
    ensures Shows(t.chip.wire, sent)
  {
    hide WrongSince;
  }

  lemma AfterSnoc(dev: Device, size: nat, start: Ftdi, log: seq<Act>, a: Act)
    requires Ready(start) && start.pend == [] && 0 < size <= BUFFER_SIZE
    ensures var t := Serve(dev, size, FtdiAfter(dev, size, start, log), a);
            && FtdiAfter(dev, size, start, log + [a]) == Answered(t, a)
            && FtdiEnv(dev, size, start)(log + [a]) == Reply(t, a)
  {
    assert (log + [a])[..|log|] == log;
  }
}
