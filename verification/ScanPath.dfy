/** The scan path of a chain of devices: one shift register from TDI to TDO, and
    what a shift through papilio-prog's JTAG layer leaves in it. */
module ScanPath {
  import opened HostApi
  import opened LazyTms
  import opened LazyTracking
  import opened Mpsse
  import opened TapController
  import opened TxTms

  /** Data registers or instruction registers. */
  datatype Column = Dr | Ir

  function ShiftOf(col: Column): Tap {
    if col.Dr? then DrShift else IrShift
  }

  function CaptureOf(col: Column): Tap {
    if col.Dr? then DrCapture else IrCapture
  }

  function UpdateOf(col: Column): Tap {
    if col.Dr? then DrUpdate else IrUpdate
  }

  function Exit1Of(col: Column): Tap {
    if col.Dr? then DrExit1 else IrExit1
  }

  /** The registers of the chain in a row, index 0 nearest TDI, and their latched
      values. */
  datatype Path = Path(tap: Tap, reg: seq<bool>, latched: seq<bool>)

  /** What the devices load in Capture: bit `i` after a history. */
  type Capture = (seq<Wire>, nat) -> bool

  function Loaded(load: Capture, hist: seq<Wire>, n: nat): (r: seq<bool>)
    ensures |r| == n
  {
    seq(n, i requires 0 <= i < n => load(hist, i))
  }

  function ShiftIn(reg: seq<bool>, v: bool): (r: seq<bool>)
    ensures |r| == |reg|
  {
    if reg == [] then [] else [v] + reg[..|reg| - 1]
  }

  /** One TCK cycle (IEEE Std 1149.1, section 6.1): shift or capture at its end in
      the state it started in, latch on entering Update. */
  function Step(col: Column, load: Capture, hist: seq<Wire>, p: Path, w: Wire): (q: Path)
    ensures |q.reg| == |p.reg|
  {
    var next := Next(p.tap, w.tms);
    var reg := if p.tap == ShiftOf(col) then ShiftIn(p.reg, w.tdi)
               else if p.tap == CaptureOf(col) then Loaded(load, hist, |p.reg|)
               else p.reg;
    Path(next, reg, if next == UpdateOf(col) then reg else p.latched)
  }

  function RunPath(col: Column, load: Capture, hist: seq<Wire>, p: Path, ws: seq<Wire>): (q: Path)
    ensures |q.reg| == |p.reg|
    decreases |ws|
  {
    if ws == [] then p
    else
      var n := |ws| - 1;
      Step(col, load, hist + ws[..n], RunPath(col, load, hist, p, ws[..n]), ws[n])
  }

  lemma {:induction false} RunPathConcat(col: Column, load: Capture, hist: seq<Wire>, p: Path, a: seq<Wire>,
                                         b: seq<Wire>)
    ensures RunPath(col, load, hist, p, a + b) == RunPath(col, load, hist + a, RunPath(col, load, hist, p, a), b)
    decreases |b|
  {
    if b == [] {
      assert a + b == a;
    } else {
      var n := |b| - 1;
      assert (a + b)[..|a + b| - 1] == a + b[..n];
      assert hist + (a + b[..n]) == hist + a + b[..n];
      RunPathConcat(col, load, hist, p, a, b[..n]);
    }
  }

  lemma {:induction false} RunPathTap(col: Column, load: Capture, hist: seq<Wire>, p: Path, ws: seq<Wire>)
    ensures RunPath(col, load, hist, p, ws).tap == Hardware(p.tap, ws)
    decreases |ws|
  {
    if ws != [] {
      var n := |ws| - 1;
      RunPathTap(col, load, hist, p, ws[..n]);
      assert TmsLevels(ws)[..n] == TmsLevels(ws[..n]);
    }
  }

  /** The register after shifting `data` in: the last bit is nearest TDI. */
  function ShiftedIn(reg: seq<bool>, data: seq<bool>): (r: seq<bool>)
    ensures |r| == |reg|
    ensures forall i :: 0 <= i < |reg| ==> r[i] == if i < |data| then data[|data| - 1 - i] else reg[i - |data|]
  {
    seq(|reg|, i requires 0 <= i < |reg| => if i < |data| then data[|data| - 1 - i] else reg[i - |data|])
  }

  lemma ShiftedInSnoc(reg: seq<bool>, data: seq<bool>, v: bool)
    ensures ShiftIn(ShiftedIn(reg, data), v) == ShiftedIn(reg, data + [v])
  {
    var before, after := ShiftedIn(reg, data), ShiftedIn(reg, data + [v]);
    var now := ShiftIn(before, v);
    hide ShiftedIn;
    forall i: nat | i < |reg|
      ensures now[i] == after[i]
    {
      if i > 0 {
        var j := i - 1;
        assert now[i] == before[j];
        assert i - |data + [v]| == j - |data|;
      }
    }
  }

  lemma RunSnoc(col: Column, load: Capture, hist: seq<Wire>, p: Path, ws: seq<Wire>, m: nat)
    requires m < |ws|
    ensures RunPath(col, load, hist, p, ws[..m + 1])
            == Step(col, load, hist + ws[..m], RunPath(col, load, hist, p, ws[..m]), ws[m])
    ensures RunPath(col, load, hist, p, ws[..0]) == p
  {
    assert ws[..m + 1][..m] == ws[..m] && ws[..m + 1][m] == ws[m];
  }

  /** A cycle in the Shift state. */
  lemma ShiftStep(col: Column, load: Capture, hist: seq<Wire>, q: Path, w: Wire)
    requires q.tap == ShiftOf(col)
    ensures Step(col, load, hist, q, w)
            == Path(if w.tms then Exit1Of(col) else ShiftOf(col), ShiftIn(q.reg, w.tdi), q.latched)
  {
    hide ShiftIn, Loaded;
  }

  /** Data wires from the Shift state shift all their bits in, the last one too. */
  lemma {:induction false} DataShifts(col: Column, load: Capture, hist: seq<Wire>, p: Path, data: seq<bool>, n: nat)
    requires p.tap == ShiftOf(col) && n <= |data|
    ensures var q := RunPath(col, load, hist, p, DataWires(data, true)[..n]);
            && q.reg == ShiftedIn(p.reg, data[..n]) && q.latched == p.latched
            && q.tap == if n < |data| || n == 0 then ShiftOf(col) else Exit1Of(col)
    decreases n
  {
    hide ShiftIn, RunPath, Step, ShiftedIn;
    var ws := DataWires(data, true);
    if n == 0 {
      assert ws[..0] == [];
      if ws != [] {
        RunSnoc(col, load, hist, p, ws, 0);
      } else {
        RunNone(col, load, hist, p);
      }
      assert ShiftedIn(p.reg, data[..0]) == p.reg;
    } else {
      var m := n - 1;
      DataShifts(col, load, hist, p, data, m);
      RunSnoc(col, load, hist, p, ws, m);
      ShiftStep(col, load, hist + ws[..m], RunPath(col, load, hist, p, ws[..m]), ws[m]);
      ShiftedInSnoc(p.reg, data[..m], data[m]);
      assert data[..m] + [data[m]] == data[..n];
    }
  }

  lemma RunNone(col: Column, load: Capture, hist: seq<Wire>, p: Path)
    ensures RunPath(col, load, hist, p, []) == p
  {
  }

  // ---------------------------------------------------------------------
  // Leaving the Shift state
  // ---------------------------------------------------------------------

  /** The states between Capture and Update, from which the walk to another of them
      does not pass Update. */
  predicate Inner(col: Column, s: Tap) {
    if col.Dr? then s in {DrShift, DrExit1, DrPause, DrExit2} else s in {IrShift, IrExit1, IrPause, IrExit2}
  }

  /** The walk from `s` to `t` does not enter Update. */
  predicate Avoids(col: Column, s: Tap, t: Tap) {
    if Inner(col, t) then Inner(col, s)
    else s == UpdateOf(col) || (t != UpdateOf(col) && !Inner(col, s) && (s == CaptureOf(col) ==> t == s))
  }

  lemma InnerOn(col: Column, s: Tap, t: Tap)
    requires Inner(col, s) && Inner(col, t) && s != t
    ensures Inner(col, Toward(s, t).1)
  {
  }

  lemma OuterOn(col: Column, s: Tap, t: Tap)
    requires !Inner(col, t) && Avoids(col, s, t) && s != t
    ensures Toward(s, t).1 != UpdateOf(col) && Avoids(col, Toward(s, t).1, t)
  {
  }

  lemma AvoidsOn(col: Column, s: Tap, t: Tap)
    requires Avoids(col, s, t) && s != t
    ensures Toward(s, t).1 != UpdateOf(col) && Avoids(col, Toward(s, t).1, t)
  {
    if Inner(col, t) {
      InnerOn(col, s, t);
    } else {
      OuterOn(col, s, t);
    }
  }

  lemma PathCons(s: Tap, t: Tap, tms: bool, u: Tap)
    requires s != t && Toward(s, t) == (tms, u)
    ensures PathTo(s, t) == [tms] + PathTo(u, t)
  {
    hide Toward, Turns;
  }

  lemma HighCons(tms: bool, bits: seq<bool>)
    ensures HighTdi([tms] + bits) == [Wire(tms, true)] + HighTdi(bits)
  {
  }

  lemma FirstTurn(s: Tap, t: Tap) returns (tms: bool, u: Tap)
    requires s != t
    ensures (tms, u) == Toward(s, t) && u == Next(s, tms) && Turns(u, t) < Turns(s, t)
    ensures HighTdi(PathTo(s, t)) == [Wire(tms, true)] + HighTdi(PathTo(u, t))
  {
    hide Toward, Turns, Next, PathTo, HighTdi;
    TowardApproaches(s, t);
    tms, u := Toward(s, t).0, Toward(s, t).1;
    PathCons(s, t, tms, u);
    HighCons(tms, PathTo(u, t));
  }

  lemma FirstStep(col: Column, load: Capture, hist: seq<Wire>, p: Path, w: Wire, ws: seq<Wire>)
    ensures RunPath(col, load, hist, p, [w] + ws)
            == RunPath(col, load, hist + [w], Step(col, load, hist, p, w), ws)
  {
    RunPathConcat(col, load, hist, p, [w], ws);
    RunSnoc(col, load, hist, p, [w], 0);
    assert [w][..0] == [] && [w][..1] == [w] && hist + [] == hist;
  }

  lemma {:induction false} LatchedStays(col: Column, load: Capture, hist: seq<Wire>, p: Path, t: Tap)
    requires Avoids(col, p.tap, t)
    ensures RunPath(col, load, hist, p, HighTdi(PathTo(p.tap, t))).latched == p.latched
    decreases Turns(p.tap, t)
  {
    if p.tap == t {
      assert HighTdi(PathTo(p.tap, t)) == [];
    } else {
      hide PathTo, Turns, Toward, Avoids, RunPath;
      var tms, u := FirstTurn(p.tap, t);
      AvoidsOn(col, p.tap, t);
      var w := Wire(tms, true);
      FirstStep(col, load, hist, p, w, HighTdi(PathTo(u, t)));
      LatchedStays(col, load, hist + [w], Step(col, load, hist, p, w), t);
    }
  }

  lemma ToUpdate(col: Column, load: Capture, hist: seq<Wire>, p: Path)
    requires p.tap == Exit1Of(col)
    ensures Step(col, load, hist, p, Wire(true, true)) == Path(UpdateOf(col), p.reg, p.reg)
  {
  }

  lemma LeaveExit1(col: Column, t: Tap)
    ensures if Inner(col, t) then Avoids(col, Exit1Of(col), t)
            else Toward(Exit1Of(col), t) == (true, UpdateOf(col)) && Avoids(col, UpdateOf(col), t)
  {
  }

  /** Going on from Exit1 latches the register, unless the walk ends before Update. */
  lemma UpdateLatches(col: Column, load: Capture, hist: seq<Wire>, p: Path, t: Tap)
    requires p.tap == Exit1Of(col)
    ensures RunPath(col, load, hist, p, HighTdi(PathTo(p.tap, t))).latched == if Inner(col, t) then p.latched else p.reg
  {
    hide PathTo, HighTdi, RunPath, Step, Toward, Avoids, Turns;
    LeaveExit1(col, t);
    if Inner(col, t) {
      LatchedStays(col, load, hist, p, t);
    } else {
      var tms, u := FirstTurn(p.tap, t);
      var w := Wire(tms, true);
      FirstStep(col, load, hist, p, w, HighTdi(PathTo(u, t)));
      ToUpdate(col, load, hist, p);
      LatchedStays(col, load, hist + [w], Path(u, p.reg, p.reg), t);
    }
  }

  /** The operation both shiftIR and shiftDR come down to: reach the Shift state,
      shift a stream, go on to `t`. */
  function ScanBus(b: Bus, col: Column, data: seq<bool>, t: Tap): Bus {
    SetStateBus(ShiftDataBus(WalkBus(b, ShiftOf(col)), data, true), t, 0)
  }

  predicate FromEnd(data: seq<bool>, i: nat)
    requires i < |data|
  {
    data[|data| - 1 - i]
  }

  lemma ScanLine(b: Bus, col: Column, data: seq<bool>, t: Tap) returns (to: seq<Wire>)
    requires InStep(b) && data != []
    ensures to == WalkBus(b, ShiftOf(col)).line && forall hw: Tap :: Hardware(hw, to) == ShiftOf(col)
    ensures ScanBus(b, col, data, t)
            == Bus(Some(t), to + DataWires(data, true) + HighTdi(PathTo(Exit1Of(col), t)))
  {
    hide PathTo, Repeat, DataWires, HighTdi, InStep, Hardware;
    var b1 := WalkBus(b, ShiftOf(col));
    to := b1.line;
    WalkInStep(b, ShiftOf(col));
    var b2 := ShiftDataBus(b1, data, true);
    assert b2 == Bus(Some(Exit1Of(col)), to + DataWires(data, true));
    WithNone(WalkBus(b2, t));
  }

  /** Shifting a whole stream and going on to `t`, from the Shift state. */
  lemma DataLatches(col: Column, load: Capture, hist: seq<Wire>, p: Path, data: seq<bool>, t: Tap)
    requires p.tap == ShiftOf(col) && data != []
    ensures RunPath(col, load, hist, p, DataWires(data, true) + HighTdi(PathTo(Exit1Of(col), t))).latched
            == if Inner(col, t) then p.latched else ShiftedIn(p.reg, data)
  {
    hide RunPath, ShiftedIn, Inner, PathTo;
    var ws, z := DataWires(data, true), HighTdi(PathTo(Exit1Of(col), t));
    RunPathConcat(col, load, hist, p, ws, z);
    DataShifts(col, load, hist, p, data, |data|);
    assert ws[..|data|] == ws && data[..|data|] == data;
    UpdateLatches(col, load, hist + ws, RunPath(col, load, hist, p, ws), t);
  }

  /** What a scan leaves latched in a path that was in any state: the last bits of
      the stream, the very last one nearest TDI, unless the scan ends before Update. */
  lemma ScanLatches(b: Bus, col: Column, load: Capture, p: Path, data: seq<bool>, t: Tap)
    requires InStep(b) && data != []
    ensures var latched := RunPath(col, load, [], p, ScanBus(b, col, data, t).line).latched;
            if Inner(col, t) then latched == RunPath(col, load, [], p, WalkBus(b, ShiftOf(col)).line).latched
            else |latched| == |p.reg|
                 && forall i :: 0 <= i < |latched| && i < |data| ==> latched[i] == FromEnd(data, i)
  {
    hide WalkBus, ShiftOf, ScanBus, InStep, PathTo, RunPath, HighTdi, DataWires, Hardware, ShiftedIn, Exit1Of, Inner;
    var to := ScanLine(b, col, data, t);
    var rest := DataWires(data, true) + HighTdi(PathTo(Exit1Of(col), t));
    assert to + DataWires(data, true) + HighTdi(PathTo(Exit1Of(col), t)) == to + rest;
    RunPathTap(col, load, [], p, to);
    RunPathConcat(col, load, [], p, to, rest);
    DataLatches(col, load, [] + to, RunPath(col, load, [], p, to), data, t);
    assert [] + to == to;
  }
}
