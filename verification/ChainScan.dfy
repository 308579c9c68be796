/** `libxsvf_scan` (svfload/libxsvf/scan.c): reading the IDCODEs of a chain. */
module ChainScan {
  import opened Bits
  import opened FtdiPlan
  import opened HostApi
  import opened Hosts
  import opened SvfTracking
  import opened TapController
  import opened TapWalk
  import opened XsvfModel
  import opened XsvfTracking

  /** The pulse that shifts a one in and shows the next TDO bit. */
  const ONE_IN := Pulse(false, Some(true), None, false, true)

  function Shifted(st: Player): Player {
    Player(st.tap, st.log + [ONE_IN])
  }

  function BitOr(a: nat, b: nat): nat
    decreases a + b
  {
    if a == 0 then b else if b == 0 then a
    else (if a % 2 == 1 || b % 2 == 1 then 1 else 0) + 2 * BitOr(a / 2, b / 2)
  }

  const ALL_ONES := 0xFFFF_FFFF

  /** Bits `j` to 31 of an IDCODE whose lower bits are in `id`. */
  function ReadId(st: Player, id: nat, j: nat, env: Env): (Player, Option<nat>)
    requires j <= 32
    decreases 32 - j, st
  {
    if j == 32 then (st, Some(id))
    else
      var st' := Shifted(st);
      var b := env(st'.log);
      if b < 0 then (st', None) else ReadId(st', BitOr(id, b * Pow2(j)), j + 1, env)
  }

  datatype Found = Found(rc: int, st: Player, devices: seq<nat>)

  /** The loop over at most `n` more devices. */
  function ScanLoop(st: Player, n: nat, env: Env): Found
    decreases n, st
  {
    if n == 0 then Found(0, st, [])
    else
      var st1 := Shifted(st);
      var b := env(st1.log);
      if b < 0 then Found(-1, st1, [])
      else if b == 0 then
        var rest := ScanLoop(st1, n - 1, env);
        rest.(devices := [0] + rest.devices)
      else
        var (st2, id) := ReadId(st1, 1, 1, env);
        if id.None? then Found(-1, st2, [])
        else if id.value == ALL_ONES then Found(0, st2, [])
        else
          var rest := ScanLoop(st2, n - 1, env);
          rest.(devices := [id.value] + rest.devices)
  }

  const MAX_DEVICES := 256

  /** libxsvf_scan, with the devices it reports. */
  function PlayScan(st: Player, env: Env): Found {
    var (st1, ok1) := Walked(st, RESET);
    if !ok1 then Found(-1, st1, [])
    else
      var (st2, ok2) := Walked(st1, DRSHIFT);
      if !ok2 then Found(-1, st2, []) else ScanLoop(st2, MAX_DEVICES, env)
  }

  // ---------------------------------------------------------------------
  // The loops
  // ---------------------------------------------------------------------

  method ReadIdM(h: Host) returns (ok: bool, idcode: nat)
    modifies h`log
    ensures var (st, id) := ReadId(old(State(h)), 1, 1, h.env);
            State(h) == st && ok == id.Some? && (ok ==> idcode == id.value)
  {
    idcode := 1;
    var j := 1;
    ghost var st := State(h);
    while j < 32
      invariant 1 <= j <= 32
      invariant ReadId(State(h), idcode, j, h.env) == ReadId(st, 1, 1, h.env)
    {
      var bit2 := h.PulseTck(false, Some(true), None, false, true);
      if bit2 < 0 {
        return false, idcode;
      }
      idcode := BitOr(idcode, bit2 * Pow2(j));
      j := j + 1;
    }
    ok := true;
  }

  function Prepend(devices: seq<nat>, f: Found): Found {
    f.(devices := devices + f.devices)
  }

  /** One turn of the loop; `more` tells if it goes on. */
  method ScanDevice(h: Host, n: nat) returns (rc: int, more: bool, device: seq<nat>)
    requires n > 0
    modifies h`log
    ensures var all := ScanLoop(old(State(h)), n, h.env);
            if more then all == Prepend(device, ScanLoop(State(h), n - 1, h.env))
            else all == Found(rc, State(h), device)
  {
    rc, more, device := -1, false, [];
    var bit := h.PulseTck(false, Some(true), None, false, true);
    if bit < 0 {
      return;
    }
    if bit == 0 {
      more, device := true, [0];
    } else {
      ghost var (st, id) := ReadId(State(h), 1, 1, h.env);
      var ok, idcode := ReadIdM(h);
      if !ok {
        assert id.None?;
        return;
      }
      if idcode == ALL_ONES {
        rc := 0;
      } else {
        more, device := true, [idcode];
      }
    }
  }

  /** The loop of libxsvf_scan. */
  method ScanDevices(h: Host, max: nat) returns (rc: int, devices: seq<nat>)
    modifies h`log
    ensures Found(rc, State(h), devices) == ScanLoop(old(State(h)), max, h.env)
  {
    devices := [];
    ghost var all := ScanLoop(State(h), max, h.env);
    for i := 0 to max
      invariant all == Prepend(devices, ScanLoop(State(h), max - i, h.env))
    {
      var more, device;
      rc, more, device := ScanDevice(h, max - i);
      devices := devices + device;
      if !more {
        return;
      }
    }
    rc := 0;
  }

  method LibxsvfScan(h: Host) returns (rc: int, devices: seq<nat>)
    modifies h`log, h`tapState
    ensures Found(rc, State(h), devices) == PlayScan(old(State(h)), h.env)
  {
    devices := [];
    rc := LibxsvfTapWalk(h, RESET);
    if rc < 0 {
      return;
    }
    rc := LibxsvfTapWalk(h, DRSHIFT);
    if rc < 0 {
      return;
    }
    rc, devices := ScanDevices(h, MAX_DEVICES);
  }

  // ---------------------------------------------------------------------
  // Tracking
  // ---------------------------------------------------------------------

  lemma ShiftedTracks(st: Player, hw: Tap)
    requires Tracks(st, hw) && st.tap == DRSHIFT
    ensures Tracks(Shifted(st), hw)
  {
    TmsOfOne(ONE_IN);
    CodeInjective(HwAfter(hw, st.log), DrShift);
    RunOne(DrShift, false);
    MoreActs(st, DRSHIFT, [ONE_IN], hw);
  }

  lemma {:induction false} ReadIdTracks(st: Player, id: nat, j: nat, hw: Tap, env: Env)
    requires Tracks(st, hw) && st.tap == DRSHIFT && j <= 32
    ensures Tracks(ReadId(st, id, j, env).0, hw) && ReadId(st, id, j, env).0.tap == DRSHIFT
    decreases 32 - j
  {
    hide Tracks, Pow2, BitOr;
    if j < 32 {
      ShiftedTracks(st, hw);
      var b := env(Shifted(st).log);
      if b >= 0 {
        ReadIdTracks(Shifted(st), BitOr(id, b * Pow2(j)), j + 1, hw, env);
      }
    }
  }

  lemma {:induction false} ScanLoopTracks(st: Player, n: nat, hw: Tap, env: Env)
    requires Tracks(st, hw) && st.tap == DRSHIFT
    ensures Tracks(ScanLoop(st, n, env).st, hw)
    decreases n
  {
    hide Tracks, ReadId;
    if n > 0 {
      var st1, m := Shifted(st), n - 1;
      ShiftedTracks(st, hw);
      var b := env(st1.log);
      if b == 0 {
        ScanLoopTracks(st1, m, hw, env);
      } else if b > 0 {
        ReadIdTracks(st1, 1, 1, hw, env);
        var st2 := ReadId(st1, 1, 1, env).0;
        ScanLoopTracks(st2, m, hw, env);
      }
    }
  }

  /** A scan, from an unknown power-up state, for any host. */
  lemma PlayScanTracks(st: Player, hw: Tap, env: Env)
    requires Tracks(st, hw)
    ensures Tracks(PlayScan(st, env).st, hw)
  {
    WalkedTracks(st, RESET, hw);
    var (st1, ok1) := Walked(st, RESET);
    WalkedTracks(st1, DRSHIFT, hw);
    var (st2, ok2) := Walked(st1, DRSHIFT);
    if ok1 && ok2 {
      ScanLoopTracks(st2, MAX_DEVICES, hw, env);
    }
  }

  // ---------------------------------------------------------------------
  // What is reported of a chain
  // ---------------------------------------------------------------------

  /** After a reset a device shifts out its IDCODE, or one zero if it has none. */
  datatype Device = Bypass | Coded(idcode: nat)

  predicate Legitimate(d: Device) {
    d.Coded? ==> d.idcode % 2 == 1 && d.idcode < ALL_ONES
  }

  function CodeBits(c: nat, n: nat): (r: seq<bool>)
    ensures |r| == n
  {
    seq(n, i requires 0 <= i < n => Bit(c, i))
  }

  function DeviceBits(d: Device): (r: seq<bool>)
    ensures |r| > 0
  {
    if d.Bypass? then [false] else CodeBits(d.idcode, 32)
  }

  /** The bits of a chain, the device nearest TDO first. */
  function ChainBits(ds: seq<Device>): seq<bool> {
    if ds == [] then [] else DeviceBits(ds[0]) + ChainBits(ds[1..])
  }

  function Reported(d: Device): nat {
    if d.Bypass? then 0 else d.idcode
  }

  /** TDO in cycle `k`: the chain's bits, then the ones that were shifted in. */
  predicate LineAt(line: seq<bool>, k: nat) {
    k < |line| ==> line[k]
  }

  function Ones(n: nat): (r: seq<Act>)
    ensures |r| == n && forall i :: 0 <= i < n ==> r[i] == ONE_IN
  {
    seq(n, _ => ONE_IN)
  }

  /** The host answers the pulses after `log` with the levels of `line`. */
  ghost predicate Answers(env: Env, log: seq<Act>, line: seq<bool>) {
    forall k: nat :: env(log + Ones(k + 1)) == BoolToNat(LineAt(line, k))
  }

  function Rest(line: seq<bool>, n: nat): seq<bool> {
    if n <= |line| then line[n..] else []
  }

  lemma AnswersLater(env: Env, log: seq<Act>, line: seq<bool>, n: nat)
    requires Answers(env, log, line)
    ensures Answers(env, log + Ones(n), Rest(line, n))
  {
    forall k: nat
      ensures env(log + Ones(n) + Ones(k + 1)) == BoolToNat(LineAt(Rest(line, n), k))
    {
      assert log + Ones(n) + Ones(k + 1) == log + Ones(n + k + 1);
      assert LineAt(line, n + k) == LineAt(Rest(line, n), k);
    }
  }

  lemma FirstAnswer(st: Player, line: seq<bool>, env: Env)
    requires Answers(env, st.log, line)
    ensures env(Shifted(st).log) == BoolToNat(LineAt(line, 0))
    ensures Answers(env, Shifted(st).log, Rest(line, 1))
  {
    assert Ones(1) == [ONE_IN];
    AnswersLater(env, st.log, line, 1);
    assert env(st.log + Ones(0 + 1)) == BoolToNat(LineAt(line, 0));
  }

  function Taken(line: seq<bool>, n: nat): (r: seq<bool>)
    ensures |r| == n && forall k :: 0 <= k < n ==> r[k] == LineAt(line, k)
  {
    seq(n, k requires 0 <= k < n => LineAt(line, k))
  }

  lemma {:induction false} PackSnoc(bits: seq<bool>, b: bool)
    ensures Pack(bits) < Pow2(|bits|)
    ensures Pack(bits + [b]) == Pack(bits) + BoolToNat(b) * Pow2(|bits|)
    decreases |bits|
  {
    if bits != [] {
      assert (bits + [b])[1..] == bits[1..] + [b];
      PackSnoc(bits[1..], b);
    } else {
      assert (bits + [b])[1..] == [];
    }
  }

  lemma {:induction false} OrAdds(a: nat, b: bool, j: nat)
    requires a < Pow2(j)
    ensures BitOr(a, BoolToNat(b) * Pow2(j)) == a + BoolToNat(b) * Pow2(j)
    decreases j
  {
    if j > 0 && b {
      OrAdds(a / 2, b, j - 1);
      assert Pow2(j) / 2 == Pow2(j - 1);
      ZeroOr(Pow2(j - 1));
    }
  }

  lemma ZeroOr(b: nat)
    ensures BitOr(0, b) == b
  {
  }

  lemma ReadIdStep(st: Player, bits: seq<bool>, b: bool, j: nat, j': nat, env: Env)
    requires j == |bits| < 32 && j' == j + 1 && env(Shifted(st).log) == BoolToNat(b)
    ensures ReadId(st, Pack(bits), j, env) == ReadId(Shifted(st), Pack(bits + [b]), j', env)
  {
    hide Pack, Pow2, BitOr, Shifted, BoolToNat;
    PackSnoc(bits, b);
    OrAdds(Pack(bits), b, j);
  }

  lemma TakenSplit(line: seq<bool>, bits: seq<bool>, log: seq<Act>, n: nat, m: nat)
    requires n == m + 1
    ensures bits + [LineAt(line, 0)] + Taken(Rest(line, 1), m) == bits + Taken(line, n)
    ensures log + [ONE_IN] + Ones(m) == log + Ones(n)
  {
    assert forall k: nat :: k < m ==> LineAt(Rest(line, 1), k) == LineAt(line, k + 1);
  }

  /** Reading the rest of an IDCODE. */
  lemma {:induction false} ReadIdReads(st: Player, bits: seq<bool>, line: seq<bool>, j: nat, n: nat, env: Env)
      returns (r: (Player, Option<nat>))
    requires Answers(env, st.log, line) && j == |bits| && j + n == 32
    ensures r == ReadId(st, Pack(bits), j, env)
    ensures r == (Player(st.tap, st.log + Ones(n)), Some(Pack(bits + Taken(line, n))))
    decreases n
  {
    if n == 0 {
      assert bits + Taken(line, 0) == bits && st.log + Ones(0) == st.log;
      r := ReadId(st, Pack(bits), j, env);
    } else {
      var b, j', m := LineAt(line, 0), j + 1, n - 1;
      FirstAnswer(st, line, env);
      ReadIdStep(st, bits, b, j, j', env);
      r := ReadIdReads(Shifted(st), bits + [b], Rest(line, 1), j', m, env);
      TakenSplit(line, bits, st.log, n, m);
    }
  }

  lemma {:induction false} PackCode(c: nat, n: nat)
    requires c < Pow2(n)
    ensures Pack(CodeBits(c, n)) == c
    decreases n
  {
    if n > 0 {
      PackCode(c / 2, n - 1);
      assert CodeBits(c, n)[1..] == CodeBits(c / 2, n - 1);
    }
  }

  lemma Pow2Of32()
    ensures Pow2(32) == ALL_ONES + 1
  {
    assert Pow2(8) == 256;
    assert Pow2(16) == 65536;
    assert Pow2(24) == 16777216;
  }

  /** What the loop reads of the device at the head of the line. */
  lemma DeviceReads(st: Player, c: nat, line: seq<bool>, env: Env)
    requires c <= ALL_ONES && c % 2 == 1
    requires Answers(env, st.log, line) && forall k: nat :: k < 32 ==> LineAt(line, k) == Bit(c, k)
    ensures env(Shifted(st).log) == 1
    ensures ReadId(Shifted(st), 1, 1, env) == (Player(st.tap, st.log + Ones(32)), Some(c))
    ensures Answers(env, st.log + Ones(32), Rest(line, 32))
  {
    FirstAnswer(st, line, env);
    assert LineAt(line, 0);
    var n: nat := 31;
    var st1 := Shifted(st);
    var _ := ReadIdReads(st1, [true], Rest(line, 1), 1, n, env);
    assert Pack([true]) == 1;
    assert [true] + Taken(Rest(line, 1), n) == CodeBits(c, n + 1) by {
      forall k | 0 <= k < n + 1
        ensures ([true] + Taken(Rest(line, 1), n))[k] == Bit(c, k)
      {
        assert LineAt(line, k) == Bit(c, k);
      }
    }
    Pow2Of32();
    PackCode(c, n + 1);
    assert st1.log + Ones(n) == st.log + Ones(n + 1);
    AnswersLater(env, st.log, line, n + 1);
  }

  function ReportedAll(ds: seq<Device>): seq<nat> {
    if ds == [] then [] else [Reported(ds[0])] + ReportedAll(ds[1..])
  }

  function FirstOf(s: seq<nat>, n: nat): seq<nat> {
    if n <= |s| then s[..n] else s
  }

  lemma EndOfChain(st: Player, n: nat, env: Env)
    requires n > 0 && Answers(env, st.log, [])
    ensures ScanLoop(st, n, env).rc == 0 && ScanLoop(st, n, env).devices == []
  {
    forall k: nat | k < 32
      ensures Bit(ALL_ONES, k)
    {
      AllOnesBit(k);
    }
    DeviceReads(st, ALL_ONES, [], env);
  }

  lemma AllOnesBit(k: nat)
    requires k < 32
    ensures Bit(ALL_ONES, k)
  {
    var bits := Taken([], 32);
    Pow2Of32();
    OnesPack(32);
    PackBit(Taken([], 32), k);
  }

  lemma {:induction false} OnesPack(n: nat)
    ensures Pack(Taken([], n)) == Pow2(n) - 1
    decreases n
  {
    if n > 0 {
      assert Taken([], n)[1..] == Taken([], n - 1);
      OnesPack(n - 1);
    }
  }

  /** The scan reports the IDCODEs of a chain, zero for a device without one, in
      the order in which TDO shows them, up to 256 devices. */
  lemma {:induction false} ScanReportsChain(st: Player, ds: seq<Device>, n: nat, env: Env)
    requires Answers(env, st.log, ChainBits(ds)) && forall i :: 0 <= i < |ds| ==> Legitimate(ds[i])
    ensures var f := ScanLoop(st, n, env); f.rc == 0 && f.devices == FirstOf(ReportedAll(ds), n)
    decreases n
  {
    hide ReadId, Answers, Bit, Shifted, Ones;
    if n == 0 {
      assert FirstOf(ReportedAll(ds), 0) == [];
    } else if ds == [] {
      EndOfChain(st, n, env);
    } else {
      var d, rest, line, m := ds[0], ds[1..], ChainBits(ds), n - 1;
      var bits := DeviceBits(d);
      assert line == bits + ChainBits(rest);
      assert Rest(line, |bits|) == ChainBits(rest);
      assert FirstOf(ReportedAll(ds), n) == [Reported(d)] + FirstOf(ReportedAll(rest), m);
      if d.Bypass? {
        FirstAnswer(st, line, env);
        ScanReportsChain(Shifted(st), rest, m, env);
      } else {
        forall k: nat | k < 32
          ensures LineAt(line, k) == Bit(d.idcode, k)
        {
          assert line[k] == bits[k];
        }
        DeviceReads(st, d.idcode, line, env);
        ScanReportsChain(Player(st.tap, st.log + Ones(32)), rest, m, env);
      }
    }
  }

  /** The same for a whole scan of a chain that answers once Shift-DR is reached. */
  lemma PlayScanReports(st: Player, hw: Tap, ds: seq<Device>, env: Env)
    requires Tracks(st, hw) && forall i :: 0 <= i < |ds| ==> Legitimate(ds[i])
    requires Answers(env, Walked(Walked(st, RESET).0, DRSHIFT).0.log, ChainBits(ds))
    ensures var f := PlayScan(st, env); f.rc == 0 && f.devices == FirstOf(ReportedAll(ds), MAX_DEVICES)
  {
    hide Walked, ChainBits, Answers, FirstOf, ScanLoop, ReportedAll, Legitimate;
    WalkedTracks(st, RESET, hw);
    var st1 := Walked(st, RESET).0;
    WalkedTracks(st1, DRSHIFT, hw);
    var st2 := Walked(st1, DRSHIFT).0;
    var n: nat := MAX_DEVICES;
    ScanReportsChain(st2, ds, n, env);
  }
}
