/** The mutable half of `struct libxsvf_host`: the tracked TAP state, the input
    stream, and the callbacks, whose effects are logged. */
module Hosts {
  import opened HostApi
  import opened TapController
  import opened TapWalk

  class Host {
    const env: Env
    const input: string
    var tapState: int
    var pos: nat
    var log: seq<Act>

    constructor (env: Env, input: string)
      ensures this.env == env && this.input == input
      ensures tapState == INIT && pos == 0 && log == []
    {
      this.env := env;
      this.input := input;
      tapState := INIT;
      pos := 0;
      log := [];
    }

    method GetByte() returns (ch: int)
      modifies `pos
      ensures old(pos) < |input| ==> ch == input[old(pos)] as int && pos == old(pos) + 1
      ensures old(pos) >= |input| ==> ch == -1 && pos == old(pos)
    {
      if pos >= |input| {
        return -1;
      }
      ch := input[pos] as int;
      pos := pos + 1;
    }

    method Request(a: Act) returns (rc: int)
      modifies `log
      ensures log == old(log) + [a] && rc == env(log)
    {
      log := log + [a];
      rc := env(log);
    }

    method PulseTck(tms: bool, tdi: Option<bool>, tdo: Option<bool>, rmask: bool, sync: bool) returns (rc: int)
      modifies `log
      ensures log == old(log) + [Pulse(tms, tdi, tdo, rmask, sync)] && rc == env(log)
    {
      rc := Request(Pulse(tms, tdi, tdo, rmask, sync));
    }
  }

  function State(h: Host): Player
    reads h
  {
    Player(h.tapState, h.log)
  }

  method TapTransition(h: Host, v: bool)
    modifies h`log
    ensures h.log == old(h.log) + Transitions([v])
  {
    var _ := h.PulseTck(v, None, None, false, false);
    assert Transitions([v]) == [Pulse(v, None, None, false, false)];
  }

  lemma TransitionsConcat(a: seq<bool>, b: seq<bool>)
    ensures Transitions(a + b) == Transitions(a) + Transitions(b)
  {
  }

  method LeaveInit(h: Host)
    modifies h`log, h`tapState
    ensures h.log == old(h.log) + Transitions(Repeat(true, 6)) && h.tapState == RESET
  {
    var j := 0;
    while j < 6
      invariant 0 <= j <= 6
      invariant h.log == old(h.log) + Transitions(Repeat(true, j))
    {
      TapTransition(h, true);
      assert Repeat(true, j + 1) == Repeat(true, j) + [true];
      TransitionsConcat(Repeat(true, j), [true]);
      j := j + 1;
    }
    h.tapState := RESET;
  }

  /** One turn of the walk's loop. */
  method TakeTurn(h: Host, s: int)
    requires INIT <= h.tapState <= IRUPDATE
    modifies h`log, h`tapState
    ensures var (bits, t) := Turn(old(h.tapState), s);
            h.log == old(h.log) + Transitions(bits) && h.tapState == t
  {
    if h.tapState == INIT {
      LeaveInit(h);
      return;
    }
    var (bits, t) := Turn(h.tapState, s);
    TapTransition(h, bits[0]);
    assert bits == [bits[0]];
    h.tapState := t;
  }

  /** libxsvf_tap_walk. */
  method LibxsvfTapWalk(h: Host, s: int) returns (rc: int)
    modifies h`log, h`tapState
    ensures var w := Walk(old(h.tapState), s);
            && h.log == old(h.log) + Transitions(w.tms)
            && h.tapState == w.tap
            && rc == (if w.ok then 0 else -1)
  {
    hide Turn, Transitions, Distance;
    ghost var t := h.tapState;
    if s == h.tapState {
      assert Transitions([]) == [];
      return 0;
    }
    if h.tapState < INIT || h.tapState > IRUPDATE {
      assert Transitions([]) == [];
      return -1;
    }
    var i: nat := 0;
    assert h.log == old(h.log) + Transitions([]);
    while s != h.tapState
      invariant i <= 11
      invariant INIT <= h.tapState <= IRUPDATE
      invariant var (done, u) := AfterTurns(t, s, i); h.log == old(h.log) + Transitions(done) && h.tapState == u
      invariant Reachable(h.tapState, s) <==> Reachable(t, s)
      invariant Reachable(t, s) ==> i + Distance(h.tapState, s) == Distance(t, s)
      decreases 12 - i
    {
      WalkTurn(h, s, t, i);
      if i > 10 {
        if Reachable(t, s) {
          DistanceZero(t, s);
        }
        return -1;
      }
      i := i + 1;
    }
    if i > 0 {
      DistanceZero(h.tapState, s);
    }
    return 0;
  }

  /** Turn `i` of the walk from `t`. */
  method WalkTurn(h: Host, s: int, ghost t: int, ghost i: nat)
    requires INIT <= t <= IRUPDATE && s != h.tapState
    requires h.tapState == AfterTurns(t, s, i).1
    modifies h`log, h`tapState
    ensures INIT <= h.tapState <= IRUPDATE && h.tapState == AfterTurns(t, s, i + 1).1
    ensures old(h.log) + Transitions(AfterTurns(t, s, i + 1).0)
            == old(h.log) + Transitions(AfterTurns(t, s, i).0) + Transitions(Turn(old(h.tapState), s).0)
    ensures h.log == old(h.log) + Transitions(Turn(old(h.tapState), s).0)
    ensures Reachable(h.tapState, s) <==> Reachable(old(h.tapState), s)
    ensures Reachable(h.tapState, s) ==> Distance(h.tapState, s) == Distance(old(h.tapState), s) - 1
  {
    TransitionsConcat(AfterTurns(t, s, i).0, Turn(h.tapState, s).0);
    if Reachable(h.tapState, s) {
      TurnApproaches(h.tapState, s);
    } else {
      TurnMisses(h.tapState, s);
    }
    TakeTurn(h, s);
  }
}
