/** libxsvf's tracked TAP state and `libxsvf_tap_walk` (svfload/libxsvf/tap.c). */
module TapWalk {
  import opened TapController
  import opened HostApi

  // enum libxsvf_tap_state (svfload/libxsvf/libxsvf.h)
  const INIT := 0
  const RESET := 1
  const IDLE := 2
  const DRSELECT := 3
  const DRCAPTURE := 4
  const DRSHIFT := 5
  const DREXIT1 := 6
  const DRPAUSE := 7
  const DREXIT2 := 8
  const DRUPDATE := 9
  const IRSELECT := 10
  const IRCAPTURE := 11
  const IRSHIFT := 12
  const IREXIT1 := 13
  const IRPAUSE := 14
  const IREXIT2 := 15
  const IRUPDATE := 16

  /** Nothing is known and nothing has been requested. */
  const POWER_UP := Player(INIT, [])

  /** The enum value of a controller state. */
  function Code(s: Tap): (c: int)
    ensures RESET <= c <= IRUPDATE
  {
    match s
    case Reset => RESET
    case Idle => IDLE
    case DrSelect => DRSELECT
    case DrCapture => DRCAPTURE
    case DrShift => DRSHIFT
    case DrExit1 => DREXIT1
    case DrPause => DRPAUSE
    case DrExit2 => DREXIT2
    case DrUpdate => DRUPDATE
    case IrSelect => IRSELECT
    case IrCapture => IRCAPTURE
    case IrShift => IRSHIFT
    case IrExit1 => IREXIT1
    case IrPause => IRPAUSE
    case IrExit2 => IREXIT2
    case IrUpdate => IRUPDATE
  }

  /** What one turn of the walk does: the TMS bits it clocks and the state it
      then records. The enum is unsigned, so the target -1 compares as large. */
  function Turn(t: int, s: int): (seq<bool>, int)
    requires INIT <= t <= IRUPDATE
  {
    if t == INIT then (Repeat(true, 6), RESET)
    else if t == RESET then ([false], IDLE)
    else if t == IDLE then ([true], DRSELECT)
    else if t == DRSELECT then
      if s >= IRSELECT || s < 0 || s == RESET then ([true], IRSELECT) else ([false], DRCAPTURE)
    else if t == DRCAPTURE then
      if s == DRSHIFT then ([false], DRSHIFT) else ([true], DREXIT1)
    else if t == DRSHIFT then ([true], DREXIT1)
    else if t == DREXIT1 then
      if s == DRPAUSE then ([false], DRPAUSE) else ([true], DRUPDATE)
    else if t == DRPAUSE then ([true], DREXIT2)
    else if t == DREXIT2 then
      if s == DRSHIFT then ([false], DRSHIFT) else ([true], DRUPDATE)
    else if t == DRUPDATE then
      if s == IDLE then ([false], IDLE) else ([true], DRSELECT)
    else if t == IRSELECT then
      if s == RESET then ([true], RESET) else ([false], IRCAPTURE)
    else if t == IRCAPTURE then
      if s == IRSHIFT then ([false], IRSHIFT) else ([true], IREXIT1)
    else if t == IRSHIFT then ([true], IREXIT1)
    else if t == IREXIT1 then
      if s == IRPAUSE then ([false], IRPAUSE) else ([true], IRUPDATE)
    else if t == IRPAUSE then ([true], IREXIT2)
    else if t == IREXIT2 then
      if s == IRSHIFT then ([false], IRSHIFT) else ([true], IRUPDATE)
    else
      if s == IDLE then ([false], IDLE) else ([true], DRSELECT)
  }

  /** The tracked state is either still unknown or that of the controller. */
  predicate Agrees(t: int, hw: Tap) {
    t == INIT || t == Code(hw)
  }

  lemma TurnAgrees(t: int, s: int, hw: Tap)
    requires INIT <= t <= IRUPDATE && Agrees(t, hw)
    ensures var (bits, t') := Turn(t, s); t' == Code(Run(hw, bits))
  {
    if t == INIT {
      OnesReset(hw, 6);
    } else {
      RunOne(hw, true);
      RunOne(hw, false);
    }
  }

  /** Which targets the walk can reach from `t`. */
  predicate Reachable(t: int, s: int) {
    s == t
    || (INIT <= t <= IRUPDATE && Targetable(t, s))
  }

  predicate Targetable(t: int, s: int) {
    || (RESET <= s <= IRUPDATE && s != DREXIT2 && s != IREXIT2)
    || (s == DREXIT2 && t == DRPAUSE)
    || (s == IREXIT2 && t == IRPAUSE)
  }

  /** The number of turns from Select-DR-Scan to `s`. */
  function FromDrSelect(s: int): nat {
    if s == DRSELECT then 0
    else if s == DRCAPTURE || s == IRSELECT then 1
    else if s == DRSHIFT || s == DREXIT1 || s == RESET || s == IRCAPTURE then 2
    else if s == DRPAUSE || s == DRUPDATE || s == IRSHIFT || s == IREXIT1 then 3
    else 4
  }

  function FromDrExit1(s: int): nat {
    if s == DREXIT1 then 0 else if s == DRPAUSE || s == DRUPDATE then 1
    else if s == IDLE then 2 else 2 + FromDrSelect(s)
  }

  function FromDrExit2(s: int): nat {
    if s == DREXIT2 then 0 else if s == DRSHIFT || s == DRUPDATE then 1
    else if s == IDLE then 2 else 2 + FromDrSelect(s)
  }

  function FromIrExit1(s: int): nat {
    if s == IREXIT1 then 0 else if s == IRPAUSE || s == IRUPDATE then 1
    else if s == IDLE then 2 else 2 + FromDrSelect(s)
  }

  function FromIrExit2(s: int): nat {
    if s == IREXIT2 then 0 else if s == IRSHIFT || s == IRUPDATE then 1
    else if s == IDLE then 2 else 2 + FromDrSelect(s)
  }

  function FromIrCapture(s: int): nat {
    if s == IRCAPTURE then 0 else if s == IRSHIFT then 1 else 1 + FromIrExit1(s)
  }

  function FromIdle(s: int): nat {
    if s == IDLE then 0 else 1 + FromDrSelect(s)
  }

  function FromReset(s: int): nat {
    if s == RESET then 0 else 1 + FromIdle(s)
  }

  /** The number of turns from `t` to a reachable `s`. */
  function Distance(t: int, s: int): nat {
    if t == s then 0
    else if t == INIT then 1 + FromReset(s)
    else if t == RESET then FromReset(s)
    else if t == IDLE then FromIdle(s)
    else if t == DRSELECT then FromDrSelect(s)
    else if t == DRCAPTURE then if s == DRSHIFT then 1 else 1 + FromDrExit1(s)
    else if t == DRSHIFT then 1 + FromDrExit1(s)
    else if t == DREXIT1 then FromDrExit1(s)
    else if t == DRPAUSE then 1 + FromDrExit2(s)
    else if t == DREXIT2 then FromDrExit2(s)
    else if t == DRUPDATE || t == IRUPDATE then
      if s == IDLE then 1 else 1 + FromDrSelect(s)
    else if t == IRSELECT then if s == RESET then 1 else 1 + FromIrCapture(s)
    else if t == IRCAPTURE then FromIrCapture(s)
    else if t == IRSHIFT then 1 + FromIrExit1(s)
    else if t == IREXIT1 then FromIrExit1(s)
    else if t == IRPAUSE then 1 + FromIrExit2(s)
    else FromIrExit2(s)
  }

  /** A turn towards `s` brings it one turn nearer. */
  predicate Approaches(t: int, s: int)
    requires INIT <= t <= IRUPDATE
  {
    var t' := Turn(t, s).1;
    INIT < t' <= IRUPDATE && Reachable(t', s) && Distance(t', s) == Distance(t, s) - 1
  }

  lemma OuterApproaches(t: int, s: int)
    requires t in {INIT, RESET, IDLE, DRSELECT, IRSELECT, DRUPDATE, IRUPDATE} && s != t && Reachable(t, s)
    ensures Approaches(t, s)
  {
    hide FromDrExit2, FromIrExit2;
  }

  lemma DrApproaches(t: int, s: int)
    requires DRCAPTURE <= t <= DREXIT2 && s != t && Reachable(t, s)
    ensures Approaches(t, s)
  {
    hide FromIrExit1, FromIrExit2, FromIrCapture, FromIdle, FromReset;
  }

  lemma IrApproaches(t: int, s: int)
    requires IRCAPTURE <= t <= IREXIT2 && s != t && Reachable(t, s)
    ensures Approaches(t, s)
  {
    hide FromDrExit1, FromDrExit2, FromIdle, FromReset;
  }

  lemma DistanceBound(t: int, s: int)
    ensures Distance(t, s) <= 9
  {
  }

  lemma TurnApproaches(t: int, s: int)
    requires INIT <= t <= IRUPDATE && s != t && Reachable(t, s)
    ensures var t' := Turn(t, s).1;
            INIT < t' <= IRUPDATE && Reachable(t', s) && Distance(t', s) == Distance(t, s) - 1
    ensures Distance(t, s) <= 9
  {
    DistanceBound(t, s);
    hide Turn, Distance, Reachable;
    if DRCAPTURE <= t <= DREXIT2 {
      DrApproaches(t, s);
    } else if IRCAPTURE <= t <= IREXIT2 {
      IrApproaches(t, s);
    } else {
      OuterApproaches(t, s);
    }
  }

  lemma TurnMisses(t: int, s: int)
    requires INIT <= t <= IRUPDATE && !Reachable(t, s)
    ensures var t' := Turn(t, s).1; INIT < t' <= IRUPDATE && !Reachable(t', s)
  {
  }

  /** What `n` turns towards `s` clock, and the state recorded after them. */
  function AfterTurns(t: int, s: int, n: nat): (seq<bool>, int)
    requires INIT <= t <= IRUPDATE
    ensures INIT <= AfterTurns(t, s, n).1 <= IRUPDATE
  {
    if n == 0 then ([], t)
    else
      var (done, u) := AfterTurns(t, s, n - 1);
      var (bits, v) := Turn(u, s);
      (done + bits, v)
  }

  /** The walk gives up after its twelfth turn. */
  const GIVE_UP := 12

  datatype WalkResult = WalkResult(tms: seq<bool>, tap: int, ok: bool)

  /** The walk from `t` to `s`: as many turns as the target is away, or twelve
      when it is out of reach. */
  function Walk(t: int, s: int): WalkResult {
    if s == t || t < INIT || t > IRUPDATE then WalkResult([], t, s == t)
    else
      var (bits, u) := AfterTurns(t, s, if Reachable(t, s) then Distance(t, s) else GIVE_UP);
      WalkResult(bits, u, Reachable(t, s))
  }

  /** Every walk out of Test-Logic-Reset starts with TMS low. */
  lemma {:induction false} FromResetLow(t: int, s: int, n: nat)
    requires t == RESET && n > 0
    ensures AfterTurns(t, s, n).0 != [] && !AfterTurns(t, s, n).0[0]
    decreases n
  {
    if n > 1 {
      FromResetLow(t, s, n - 1);
    } else {
      assert AfterTurns(t, s, n - 1) == ([], t);
    }
  }

  lemma WalkFromReset(t: int, s: int)
    requires t == RESET && Walk(t, s).tms != []
    ensures !Walk(t, s).tms[0]
  {
    var n: nat := if Reachable(t, s) then Distance(t, s) else GIVE_UP;
    if n > 0 {
      FromResetLow(t, s, n);
    }
  }

  /** A reachable target is exactly `Distance` turns away. */
  lemma {:induction false} AfterApproaches(t: int, s: int, n: nat)
    requires INIT <= t <= IRUPDATE
    requires Reachable(t, s) ==> n <= Distance(t, s)
    ensures var u := AfterTurns(t, s, n).1;
            && (Reachable(u, s) <==> Reachable(t, s))
            && (Reachable(t, s) ==> Distance(u, s) == Distance(t, s) - n)
    decreases n
  {
    if n > 0 {
      AfterApproaches(t, s, n - 1);
      var u := AfterTurns(t, s, n - 1).1;
      if Reachable(u, s) {
        TurnApproaches(u, s);
      } else {
        TurnMisses(u, s);
      }
    }
  }

  lemma {:induction false} AfterAgrees(t: int, s: int, n: nat, hw: Tap)
    requires INIT <= t <= IRUPDATE && Agrees(t, hw)
    ensures var (bits, u) := AfterTurns(t, s, n); Agrees(u, Run(hw, bits))
    decreases n
  {
    hide Turn, Code;
    if n > 0 {
      AfterAgrees(t, s, n - 1, hw);
      var (done, u) := AfterTurns(t, s, n - 1);
      TurnAgrees(u, s, Run(hw, done));
      RunConcat(hw, done, Turn(u, s).0);
    }
  }

  /** Every walk, completed or given up, leaves the tracked state right; a
      completed one ends in its target. */
  lemma WalkAgrees(t: int, s: int, hw: Tap)
    requires INIT <= t <= IRUPDATE && Agrees(t, hw)
    ensures var w := Walk(t, s);
            && INIT <= w.tap <= IRUPDATE
            && Agrees(w.tap, Run(hw, w.tms))
            && (w.ok <==> Reachable(t, s))
            && (w.ok ==> w.tap == s)
  {
    if s != t {
      AfterAgrees(t, s, if Reachable(t, s) then Distance(t, s) else GIVE_UP, hw);
      if Reachable(t, s) {
        AfterApproaches(t, s, Distance(t, s));
        DistanceZero(AfterTurns(t, s, Distance(t, s)).1, s);
      }
    }
  }

  lemma DistanceZero(t: int, s: int)
    requires INIT <= t <= IRUPDATE && Reachable(t, s)
    ensures Distance(t, s) == 0 <==> t == s
    ensures Distance(t, s) < GIVE_UP - 2
  {
  }
}
