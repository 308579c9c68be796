/** The callbacks of `struct libxsvf_host` as a log of requests. A host is any
    function from the requests made so far, the current one included, to the
    integer it returns. */
module HostApi {
  import opened TapController

  datatype Option<+T> = None | Some(value: T)

  datatype Act =
    | Pulse(tms: bool, tdi: Option<bool>, tdo: Option<bool>, rmask: bool, sync: bool)
    | Delay(usecs: int, tms: bool, numTck: int)
    | Sck
    | Trst(v: int)
    | Frequency(hz: nat)
    | Sync

  type Env = seq<Act> -> int

  /** The tracked state and everything requested so far. */
  datatype Player = Player(tap: int, log: seq<Act>)

  /** The TMS level of every TCK cycle a request makes the host clock. */
  function ActTms(a: Act): seq<bool> {
    match a
    case Pulse(tms, _, _, _, _) => [tms]
    case Delay(_, tms, n) => if n > 0 then Repeat(tms, n) else []
    case _ => []
  }

  function TmsOf(log: seq<Act>): seq<bool> {
    if log == [] then [] else TmsOf(log[..|log| - 1]) + ActTms(log[|log| - 1])
  }

  /** The number of TCK cycles of a log. */
  function Clocks(log: seq<Act>): nat {
    |TmsOf(log)|
  }

  lemma {:induction false} TmsOfConcat(a: seq<Act>, b: seq<Act>)
    ensures TmsOf(a + b) == TmsOf(a) + TmsOf(b)
    decreases |b|
  {
    if b == [] {
      assert a + b == a;
    } else {
      var n := |b| - 1;
      assert (a + b)[..|a + b| - 1] == a + b[..n];
      TmsOfConcat(a, b[..n]);
    }
  }

  lemma TmsOfOne(a: Act)
    ensures TmsOf([a]) == ActTms(a)
  {
    assert [a][..0] == [];
  }

  /** One pulse per TMS bit that drives neither TDI nor checks TDO. */
  function Transitions(tms: seq<bool>): (acts: seq<Act>)
    ensures |acts| == |tms|
    ensures forall i :: 0 <= i < |tms| ==> acts[i] == Pulse(tms[i], None, None, false, false)
  {
    seq(|tms|, i requires 0 <= i < |tms| => Pulse(tms[i], None, None, false, false))
  }

  lemma {:induction false} TransitionsTms(tms: seq<bool>)
    ensures TmsOf(Transitions(tms)) == tms
    decreases |tms|
  {
    if tms != [] {
      var n := |tms| - 1;
      assert Transitions(tms)[..n] == Transitions(tms[..n]);
      TransitionsTms(tms[..n]);
    }
  }

  /** The answer to request `k` of `acts`, made after `log`. */
  function Answer(log: seq<Act>, acts: seq<Act>, k: nat, env: Env): int
    requires k < |acts|
  {
    env(log + acts[..k + 1])
  }

  /** Some answer to the requests `acts`, made after `log`, is negative. */
  predicate AnyNegative(log: seq<Act>, acts: seq<Act>, env: Env) {
    exists k :: 0 <= k < |acts| && Answer(log, acts, k, env) < 0
  }

  lemma AnyNegativeSnoc(log: seq<Act>, acts: seq<Act>, a: Act, env: Env)
    ensures AnyNegative(log, acts + [a], env) <==> AnyNegative(log, acts, env) || env(log + acts + [a]) < 0
  {
    var more := acts + [a];
    assert log + more[..|acts| + 1] == log + acts + [a];
    assert Answer(log, more, |acts|, env) == env(log + acts + [a]);
    forall k | 0 <= k < |acts|
      ensures Answer(log, more, k, env) == Answer(log, acts, k, env)
    {
      assert more[..k + 1] == acts[..k + 1];
    }
  }
}
