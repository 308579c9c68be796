/** The TAP controller of IEEE Std 1149.1 (section 6.1): sixteen states, one
    transition per TCK cycle chosen by TMS. */
module TapController {
  datatype Tap =
    | Reset | Idle
    | DrSelect | DrCapture | DrShift | DrExit1 | DrPause | DrExit2 | DrUpdate
    | IrSelect | IrCapture | IrShift | IrExit1 | IrPause | IrExit2 | IrUpdate

  function Next(s: Tap, tms: bool): Tap {
    match s
    case Reset => if tms then Reset else Idle
    case Idle => if tms then DrSelect else Idle
    case DrSelect => if tms then IrSelect else DrCapture
    case DrCapture => if tms then DrExit1 else DrShift
    case DrShift => if tms then DrExit1 else DrShift
    case DrExit1 => if tms then DrUpdate else DrPause
    case DrPause => if tms then DrExit2 else DrPause
    case DrExit2 => if tms then DrUpdate else DrShift
    case DrUpdate => if tms then DrSelect else Idle
    case IrSelect => if tms then Reset else IrCapture
    case IrCapture => if tms then IrExit1 else IrShift
    case IrShift => if tms then IrExit1 else IrShift
    case IrExit1 => if tms then IrUpdate else IrPause
    case IrPause => if tms then IrExit2 else IrPause
    case IrExit2 => if tms then IrUpdate else IrShift
    case IrUpdate => if tms then DrSelect else Idle
  }

  /** The state after a whole sequence of TMS bits. */
  function Run(s: Tap, tms: seq<bool>): Tap {
    if tms == [] then s else Next(Run(s, tms[..|tms| - 1]), tms[|tms| - 1])
  }

  lemma {:induction false} RunConcat(s: Tap, a: seq<bool>, b: seq<bool>)
    ensures Run(s, a + b) == Run(Run(s, a), b)
    decreases |b|
  {
    if b == [] {
      assert a + b == a;
    } else {
      var n := |b| - 1;
      assert (a + b)[..|a + b| - 1] == a + b[..n];
      RunConcat(s, a, b[..n]);
    }
  }

  lemma RunOne(s: Tap, b: bool)
    ensures Run(s, [b]) == Next(s, b)
  {
    assert [b][..0] == [];
  }

  function Repeat(b: bool, n: nat): (r: seq<bool>)
    ensures |r| == n
    ensures forall i :: 0 <= i < n ==> r[i] == b
  {
    seq(n, i => b)
  }

  lemma RepeatSnoc(b: bool, n: nat)
    requires n > 0
    ensures Repeat(b, n)[..n - 1] == Repeat(b, n - 1)
  {
  }

  lemma OneMore(s: Tap, b: bool, n: nat, m: nat)
    requires n > 0 && m == n - 1
    ensures Run(s, Repeat(b, n)) == Next(Run(s, Repeat(b, m)), b)
  {
    RepeatSnoc(b, n);
  }

  /** TMS low but on the last bit, which leaves the Shift state if it is high. */
  lemma {:induction false} ShiftRun(shift: Tap, tms: seq<bool>)
    requires shift in {DrShift, IrShift}
    requires forall k :: 0 <= k < |tms| - 1 ==> !tms[k]
    ensures Run(shift, tms) == (if tms != [] && tms[|tms| - 1] then Next(shift, true) else shift)
    decreases |tms|
  {
    if tms != [] {
      ShiftRun(shift, tms[..|tms| - 1]);
    }
  }

  lemma FiveOnes(s: Tap)
    ensures Next(Next(Next(Next(Next(s, true), true), true), true), true) == Reset
  {
  }

  /** Five cycles with TMS high reach Test-Logic-Reset from every state, and
      further ones stay there. */
  lemma {:induction false} OnesReset(s: Tap, n: nat)
    requires n >= 5
    ensures Run(s, Repeat(true, n)) == Reset
    decreases n
  {
    OneMore(s, true, n, n - 1);
    if n > 5 {
      OnesReset(s, n - 1);
    } else {
      OneMore(s, true, n - 1, n - 2);
      OneMore(s, true, n - 2, n - 3);
      OneMore(s, true, n - 3, n - 4);
      OneMore(s, true, n - 4, n - 5);
      assert Repeat(true, n - 5) == [];
      FiveOnes(s);
    }
  }

  /** The states in which a cycle with TMS low changes nothing. */
  predicate Holds(s: Tap) {
    s == Idle || s == DrShift || s == DrPause || s == IrShift || s == IrPause
  }

  /** Cycles with TMS low keep a state exactly when it is one of those. */
  lemma {:induction false} ZerosKeep(s: Tap, n: nat)
    requires n > 0
    ensures Run(s, Repeat(false, n)) == s <==> Holds(s)
    ensures n > 0 && !Holds(s) ==> Run(s, Repeat(false, n)) != s
    ensures !Holds(s) ==> Run(s, Repeat(false, n)) in ZeroOrbit(s)
    decreases n
  {
    RepeatSnoc(false, n);
    if n > 1 {
      ZerosKeep(s, n - 1);
    } else {
      assert Run(s, Repeat(false, 0)) == s;
    }
  }

  /** Where cycles with TMS low lead from a state they leave. */
  function ZeroOrbit(s: Tap): set<Tap> {
    match s
    case Reset => {Idle}
    case DrSelect => {DrCapture, DrShift}
    case DrCapture => {DrShift}
    case DrExit1 => {DrPause}
    case DrExit2 => {DrShift}
    case DrUpdate => {Idle}
    case IrSelect => {IrCapture, IrShift}
    case IrCapture => {IrShift}
    case IrExit1 => {IrPause}
    case IrExit2 => {IrShift}
    case IrUpdate => {Idle}
    case _ => {s}
  }
}
