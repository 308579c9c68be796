/** What an SVF scan clocks into the target (SDR and SIR of svfload/libxsvf/svf.c). */
module SvfMeaning {
  import opened HostApi
  import opened SvfBitdata
  import opened SvfScript
  import opened SvfTracking
  import opened TapController
  import opened TapWalk

  /** Bits of a scan: header, data, trailer. */
  function Total(hdr: Bitdata, data: Bitdata, tdr: Bitdata): nat {
    hdr.len + data.len + tdr.len
  }

  /** Bit `k` of a scan without its TMS level: bit 0 of the header comes first. */
  function ScanBit(hdr: Bitdata, data: Bitdata, tdr: Bitdata, k: nat): Act
    requires Wf(hdr) && Wf(data) && Wf(tdr) && k < Total(hdr, data, tdr)
  {
    if k < hdr.len then PulseAt(hdr, k, false)
    else if k < hdr.len + data.len then PulseAt(data, k - hdr.len, false)
    else PulseAt(tdr, k - hdr.len - data.len, false)
  }

  function WithTms(a: Act, tms: bool): Act
    requires a.Pulse?
  {
    Pulse(tms, a.tdi, a.tdo, a.rmask, a.sync)
  }

  function ScanActs(cs: seq<Chunk>): seq<Act>
    requires |cs| == 3
  {
    cs[0].acts + cs[1].acts + cs[2].acts
  }

  lemma PartBit(bd: Bitdata, tap: int, estate: int, k: nat)
    requires Wf(bd) && k < bd.len
    ensures PlayActs(bd, tap, estate)[k] == WithTms(PulseAt(bd, k, false), k == bd.len - 1 && tap != estate)
  {
  }

  /** Each part leaves the Shift state exactly if no bits follow it. */
  lemma PartTaps(hdr: Bitdata, data: Bitdata, tdr: Bitdata, shift: int, estate: int)
    requires Wf(hdr) && Wf(data) && Wf(tdr)
    ensures var cs := ScanChunks(hdr, data, tdr, shift, shift, estate);
            var left := estate != shift;
            && cs[0].tap == (if left && hdr.len > 0 && data.len == tdr.len == 0 then shift + 1 else shift)
            && cs[1].tap == (if left && hdr.len + data.len > 0 && tdr.len == 0 then shift + 1 else shift)
            && cs[2].tap == (if left && Total(hdr, data, tdr) > 0 then shift + 1 else shift)
            && cs[0].acts == PlayActs(hdr, shift, if data.len + tdr.len > 0 then shift else estate)
            && cs[1].acts == PlayActs(data, cs[0].tap, if tdr.len > 0 then shift else estate)
            && cs[2].acts == PlayActs(tdr, cs[1].tap, estate)
  {
  }

  /** A scan is its bits in order, TMS high on the last one alone, unless the scan
      is to end in the Shift state; for every combination of empty parts. */
  lemma ScanIsItsBits(hdr: Bitdata, data: Bitdata, tdr: Bitdata, shift: int, estate: int)
    requires Wf(hdr) && Wf(data) && Wf(tdr)
    ensures var cs, n := ScanChunks(hdr, data, tdr, shift, shift, estate), Total(hdr, data, tdr);
            var acts := ScanActs(cs);
            && |acts| == n
            && (forall k :: 0 <= k < n ==>
                  acts[k] == WithTms(ScanBit(hdr, data, tdr, k), k == n - 1 && estate != shift))
            && cs[2].tap == (if n > 0 && estate != shift then shift + 1 else shift)
  {
    PartTaps(hdr, data, tdr, shift, estate);
    var n := Total(hdr, data, tdr);
    forall k: nat | k < n
      ensures ScanActs(ScanChunks(hdr, data, tdr, shift, shift, estate))[k]
              == WithTms(ScanBit(hdr, data, tdr, k), k == n - 1 && estate != shift)
    {
      ScanBitIs(hdr, data, tdr, shift, estate, k);
    }
  }

  lemma ScanBitIs(hdr: Bitdata, data: Bitdata, tdr: Bitdata, shift: int, estate: int, k: nat)
    requires Wf(hdr) && Wf(data) && Wf(tdr) && k < Total(hdr, data, tdr)
    ensures var acts := ScanActs(ScanChunks(hdr, data, tdr, shift, shift, estate));
            && |acts| == Total(hdr, data, tdr)
            && acts[k] == WithTms(ScanBit(hdr, data, tdr, k), k == Total(hdr, data, tdr) - 1 && estate != shift)
  {
    hide PulseAt, PlayActs, Wf, ScanChunks, WithTms;
    PartTaps(hdr, data, tdr, shift, estate);
    var cs := ScanChunks(hdr, data, tdr, shift, shift, estate);
    if k < hdr.len {
      PartBit(hdr, shift, if data.len + tdr.len > 0 then shift else estate, k);
    } else if k < hdr.len + data.len {
      PartBit(data, cs[0].tap, if tdr.len > 0 then shift else estate, k - hdr.len);
    } else {
      PartBit(tdr, cs[1].tap, estate, k - hdr.len - data.len);
    }
  }

  /** The literal of a part that has bits; an empty part, as the header and trailer
      of a file without HDR and TDR, needs none. */
  ghost predicate Drives(bd: Bitdata, lit: string) {
    Wf(bd) && (bd.len > 0 ==> InForce(bd, Tdi, Some(lit)))
  }

  function PartLevel(bd: Bitdata, lit: string, k: nat): Option<bool>
    requires Wf(bd) && k < bd.len
  {
    if Selected(bd, Smask, k) then Some(LiteralBit(lit, k)) else None
  }

  /** TDI in cycle `k` of a scan as the three literals spell it. */
  function LiteralAt(hdr: Bitdata, data: Bitdata, tdr: Bitdata, lh: string, ld: string, lt: string,
                     k: nat): Option<bool>
    requires Wf(hdr) && Wf(data) && Wf(tdr) && k < Total(hdr, data, tdr)
  {
    if k < hdr.len then PartLevel(hdr, lh, k)
    else if k < hdr.len + data.len then PartLevel(data, ld, k - hdr.len)
    else PartLevel(tdr, lt, k - hdr.len - data.len)
  }

  /** A part whose TDI literal is in force drives bit k of the literal's value in
      its k-th cycle, and leaves TDI alone where SMASK is zero. */
  lemma PartDrivesLiteral(bd: Bitdata, lit: string, k: nat, exit: bool)
    requires Drives(bd, lit) && k < bd.len
    ensures PulseAt(bd, k, exit).Pulse? && PulseAt(bd, k, exit).tdi == PartLevel(bd, lit, k)
  {
    FillBit(Bytes(bd.len), lit, k);
  }

  /** A mask selects the bits that its literal has set. */
  lemma MaskSelects(bd: Bitdata, mask: Field, lit: string, k: nat)
    requires Wf(bd) && k < bd.len && InForce(bd, mask, Some(lit))
    ensures Selected(bd, mask, k) == LiteralBit(lit, k)
  {
    hide Wf, GetBit, Fill, LiteralBit, IsLiteral;
    FillBit(Bytes(bd.len), lit, k);
  }

  /** TDO is checked where MASK selects it, against the literal's bit. */
  lemma PartChecksLiteral(bd: Bitdata, lit: string, k: nat, exit: bool)
    requires Wf(bd) && k < bd.len && bd.hasTdo && InForce(bd, Tdo, Some(lit))
    ensures var tdo := PulseAt(bd, k, exit).tdo;
            if Selected(bd, Mask, k) then tdo == Some(LiteralBit(lit, k)) else tdo == None
  {
    FillBit(Bytes(bd.len), lit, k);
  }

  /** A pulse's TDO level is kept exactly where RMASK has a bit. */
  lemma PartKeepsRmask(bd: Bitdata, given: Option<string>, k: nat, exit: bool)
    requires Wf(bd) && k < bd.len && InForce(bd, Rmask, given)
    ensures PulseAt(bd, k, exit).rmask <==> given.Some? && LiteralBit(given.value, k)
  {
    if given.Some? {
      FillBit(Bytes(bd.len), given.value, k);
    }
  }

  lemma BitIsLiteral(hdr: Bitdata, data: Bitdata, tdr: Bitdata, lh: string, ld: string, lt: string, k: nat)
    requires Drives(hdr, lh) && Drives(data, ld) && Drives(tdr, lt) && k < Total(hdr, data, tdr)
    ensures ScanBit(hdr, data, tdr, k).Pulse?
    ensures ScanBit(hdr, data, tdr, k).tdi == LiteralAt(hdr, data, tdr, lh, ld, lt, k)
  {
    hide PulseAt, PartLevel, Fill;
    if k < hdr.len {
      PartDrivesLiteral(hdr, lh, k, false);
    } else if k < hdr.len + data.len {
      PartDrivesLiteral(data, ld, k - hdr.len, false);
    } else {
      PartDrivesLiteral(tdr, lt, k - hdr.len - data.len, false);
    }
  }

  /** The bits of a scan in terms of the three literals. */
  lemma ScanDrivesLiterals(hdr: Bitdata, data: Bitdata, tdr: Bitdata, lh: string, ld: string, lt: string,
                           shift: int, estate: int, k: nat)
    requires Drives(hdr, lh) && Drives(data, ld) && Drives(tdr, lt) && k < Total(hdr, data, tdr)
    ensures var acts := ScanActs(ScanChunks(hdr, data, tdr, shift, shift, estate));
            && |acts| == Total(hdr, data, tdr) && acts[k].Pulse?
            && acts[k].tdi == LiteralAt(hdr, data, tdr, lh, ld, lt, k)
  {
    hide PulseAt, PartLevel, ScanChunks;
    ScanBitIs(hdr, data, tdr, shift, estate, k);
    BitIsLiteral(hdr, data, tdr, lh, ld, lt, k);
  }

  // ---------------------------------------------------------------------
  // Cycles in the Shift state
  // ---------------------------------------------------------------------

  /** How many cycles of a TMS sequence start in state `s`. */
  function CyclesIn(s: Tap, hw: Tap, tms: seq<bool>): nat {
    if tms == [] then 0
    else
      var n := |tms| - 1;
      CyclesIn(s, hw, tms[..n]) + (if Run(hw, tms[..n]) == s then 1 else 0)
  }

  lemma {:induction false} CyclesConcat(s: Tap, hw: Tap, a: seq<bool>, b: seq<bool>)
    ensures CyclesIn(s, hw, a + b) == CyclesIn(s, hw, a) + CyclesIn(s, Run(hw, a), b)
    decreases |b|
  {
    if b == [] {
      assert a + b == a;
    } else {
      var n := |b| - 1;
      assert (a + b)[..|a + b| - 1] == a + b[..n];
      CyclesConcat(s, hw, a, b[..n]);
      RunConcat(hw, a, b[..n]);
    }
  }

  lemma CyclesOne(s: Tap, hw: Tap, b: bool)
    ensures CyclesIn(s, hw, [b]) == if hw == s then 1 else 0
  {
    assert [b][..0] == [];
    assert CyclesIn(s, hw, []) == 0;
  }

  /** A turn that does not start in the Shift state clocks nothing in it, and
      enters it only as the target. */
  lemma TurnCycles(shift: Tap, hw: Tap, u: int)
    requires shift in {DrShift, IrShift}
    ensures var (bits, t') := Turn(Code(hw), u);
            && CyclesIn(shift, hw, bits) == (if hw == shift then 1 else 0)
            && (t' == Code(shift) ==> u == t')
  {
    CyclesOne(shift, hw, true);
    CyclesOne(shift, hw, false);
  }

  /** The walk is in the Shift state only at its start or as its target. */
  lemma EntersAsTarget(shift: Tap, hw: Tap, u: int, n: nat)
    requires shift in {DrShift, IrShift}
    requires Reachable(Code(hw), u) ==> n <= Distance(Code(hw), u)
    ensures AfterTurns(Code(hw), u, n).1 == Code(shift) ==> n == 0 || (u == Code(shift) && n == Distance(Code(hw), u))
  {
    var t := Code(hw);
    if n > 0 && AfterTurns(t, u, n).1 == Code(shift) {
      var m: nat := n - 1;
      var (done, v) := AfterTurns(t, u, m);
      AfterAgrees(t, u, m, hw);
      AfterPositive(t, u, m);
      TurnCycles(shift, Run(hw, done), u);
      AfterApproaches(t, u, n);
      DistanceZero(u, u);
    }
  }

  lemma CyclesTurn(shift: Tap, hw: Tap, u: int, m: nat, n: nat)
    requires shift in {DrShift, IrShift} && n == m + 1
    ensures CyclesIn(shift, hw, AfterTurns(Code(hw), u, n).0)
            == CyclesIn(shift, hw, AfterTurns(Code(hw), u, m).0)
               + (if AfterTurns(Code(hw), u, m).1 == Code(shift) then 1 else 0)
    ensures AfterTurns(Code(hw), u, 0).1 == Code(hw)
  {
    hide CyclesIn, Run, Turn;
    var t := Code(hw);
    var (done, v) := AfterTurns(t, u, m);
    AfterAgrees(t, u, m, hw);
    AfterPositive(t, u, m);
    var mid := Run(hw, done);
    if v == Code(shift) {
      CodeInjective(mid, shift);
    }
    TurnCycles(shift, mid, u);
    CyclesConcat(shift, hw, done, Turn(v, u).0);
  }

  lemma {:induction false} TurnsCycles(shift: Tap, hw: Tap, u: int, n: nat)
    requires shift in {DrShift, IrShift}
    requires Reachable(Code(hw), u) ==> n <= Distance(Code(hw), u)
    ensures CyclesIn(shift, hw, AfterTurns(Code(hw), u, n).0) == (if n > 0 && hw == shift then 1 else 0)
    decreases n
  {
    hide Distance;
    if n > 0 {
      var m: nat := n - 1;
      TurnsCycles(shift, hw, u, m);
      EntersAsTarget(shift, hw, u, m);
      CyclesTurn(shift, hw, u, m, n);
      if m == 0 && Code(hw) == Code(shift) {
        CodeInjective(hw, shift);
      }
    }
  }

  lemma {:induction false} AfterPositive(t: int, u: int, n: nat)
    requires RESET <= t <= IRUPDATE
    ensures RESET <= AfterTurns(t, u, n).1
    decreases n
  {
    if n > 0 {
      AfterPositive(t, u, n - 1);
    }
  }

  /** A walk clocks one cycle in the Shift state if it leaves it, else none. */
  lemma WalkCycles(shift: Tap, hw: Tap, u: int)
    requires shift in {DrShift, IrShift}
    ensures CyclesIn(shift, hw, Walk(Code(hw), u).tms) == (if hw == shift && u != Code(hw) then 1 else 0)
  {
    var t := Code(hw);
    if u != t {
      TurnsCycles(shift, hw, u, if Reachable(t, u) then Distance(t, u) else GIVE_UP);
      if Reachable(t, u) {
        DistanceZero(t, u);
      }
    }
  }

  lemma {:induction false} AllShift(shift: Tap, tms: seq<bool>)
    requires shift in {DrShift, IrShift}
    requires forall k :: 0 <= k < |tms| - 1 ==> !tms[k]
    ensures CyclesIn(shift, shift, tms) == |tms|
    decreases |tms|
  {
    if tms != [] {
      ShiftRun(shift, tms[..|tms| - 1]);
      AllShift(shift, tms[..|tms| - 1]);
    }
  }

  lemma ShiftOnly(acts: seq<Act>, n: nat, shift: Tap, exit: bool)
    requires |acts| == n && shift in {DrShift, IrShift}
    requires forall k :: 0 <= k < n ==> acts[k].Pulse? && acts[k].tms == (k == n - 1 && exit)
    ensures CyclesIn(shift, shift, TmsOf(acts)) == n
    ensures Run(shift, TmsOf(acts)) == if n > 0 && exit then Next(shift, true) else shift
  {
    PulsesTms(acts);
    AllShift(shift, TmsOf(acts));
    ShiftRun(shift, TmsOf(acts));
  }

  lemma BitsShift(hdr: Bitdata, data: Bitdata, tdr: Bitdata, shift: Tap, estate: int)
    requires Wf(hdr) && Wf(data) && Wf(tdr) && shift in {DrShift, IrShift}
    ensures var cs, n := ScanChunks(hdr, data, tdr, Code(shift), Code(shift), estate), Total(hdr, data, tdr);
            var tms := TmsOf(ScanActs(cs));
            && CyclesIn(shift, shift, tms) == n && cs[2].tap == Code(Run(shift, tms))
            && (Run(shift, tms) == shift <==> n == 0 || estate == Code(shift))
  {
    hide ScanChunks, TmsOf, ScanActs, Run, ScanBit, Wf, Total, CyclesIn;
    var s := Code(shift);
    var acts := ScanActs(ScanChunks(hdr, data, tdr, s, s, estate));
    ScanIsItsBits(hdr, data, tdr, s, estate);
    ShiftOnly(acts, Total(hdr, data, tdr), shift, estate != s);
  }

  lemma ThreeLegs(s: Tap, hw: Tap, a: seq<bool>, b: seq<bool>, c: seq<bool>)
    ensures CyclesIn(s, hw, a + b + c)
            == CyclesIn(s, hw, a) + CyclesIn(s, Run(hw, a), b) + CyclesIn(s, Run(Run(hw, a), b), c)
  {
    CyclesConcat(s, hw, a, b);
    CyclesConcat(s, hw, a + b, c);
    RunConcat(hw, a, b);
  }

  lemma WalkArrives(hw: Tap, shift: Tap)
    requires shift in {DrShift, IrShift}
    ensures var w := Walk(Code(hw), Code(shift)); Run(hw, w.tms) == shift && w.ok && w.tap == Code(shift)
  {
    WalkAgrees(Code(hw), Code(shift), hw);
    CodeInjective(Run(hw, Walk(Code(hw), Code(shift)).tms), shift);
  }

  lemma ThreeTms(a: seq<Act>, b: seq<Act>, c: seq<Act>)
    ensures TmsOf(a + b + c) == TmsOf(a) + TmsOf(b) + TmsOf(c)
  {
    TmsOfConcat(a, b);
    TmsOfConcat(a + b, c);
  }

  /** The chunks of a scan: the walk, the three parts and the walk to the end. */
  lemma ScanPieces(hdr: Bitdata, data: Bitdata, tdr: Bitdata, tap: int, shift: int, estate: int)
      returns (w: Chunk, e: Chunk, parts: seq<Chunk>)
    requires Wf(hdr) && Wf(data) && Wf(tdr) && Walk(tap, shift).ok && Walk(tap, shift).tap == shift
    ensures parts == ScanChunks(hdr, data, tdr, shift, shift, estate)
    ensures w.acts == Transitions(Walk(tap, shift).tms) && e.acts == Transitions(Walk(parts[2].tap, estate).tms)
    ensures Scan(hdr, data, tdr, tap, shift, estate).chunks == [w] + parts + [e]
  {
    w := WalkSteps(tap, shift).chunks[0];
    parts := ScanChunks(hdr, data, tdr, shift, shift, estate);
    e := WalkSteps(parts[2].tap, estate).chunks[0];
  }

  lemma FiveActs(w: Chunk, parts: seq<Chunk>, e: Chunk)
    requires |parts| == 3
    ensures ActsOf([w] + parts + [e]) == w.acts + ScanActs(parts) + e.acts
  {
    ActsCons(w, parts + [e]);
    assert [w] + parts + [e] == [w] + (parts + [e]);
    assert parts + [e] == [parts[0]] + ([parts[1]] + ([parts[2]] + ([e] + [])));
    ActsCons(parts[0], [parts[1]] + ([parts[2]] + ([e] + [])));
    ActsCons(parts[1], [parts[2]] + ([e] + []));
    ActsCons(parts[2], [e] + []);
    ActsCons(e, []);
    FiveAssoc(w.acts, parts[0].acts, parts[1].acts, parts[2].acts, e.acts);
  }

  lemma ActsCons(c: Chunk, cs: seq<Chunk>)
    ensures ActsOf([c] + cs) == c.acts + ActsOf(cs)
  {
    assert ([c] + cs)[1..] == cs;
  }

  lemma FiveAssoc(a: seq<Act>, b: seq<Act>, c: seq<Act>, d: seq<Act>, e: seq<Act>)
    ensures a + (b + (c + (d + (e + [])))) == a + (b + c + d) + e
  {
  }

  /** The TMS bits that SDR and SIR clock. */
  lemma ScanTms(hdr: Bitdata, data: Bitdata, tdr: Bitdata, hw: Tap, shift: Tap, estate: int) returns (tms: seq<bool>)
    requires Wf(hdr) && Wf(data) && Wf(tdr) && shift in {DrShift, IrShift}
    ensures tms == TmsOf(ActsOf(Scan(hdr, data, tdr, Code(hw), Code(shift), estate).chunks))
    ensures var parts := ScanChunks(hdr, data, tdr, Code(shift), Code(shift), estate);
            tms == Walk(Code(hw), Code(shift)).tms + TmsOf(ScanActs(parts)) + Walk(parts[2].tap, estate).tms
  {
    WalkArrives(hw, shift);
    var w, e, parts := ScanPieces(hdr, data, tdr, Code(hw), Code(shift), estate);
    hide ScanChunks, Scan, Walk, ActsOf, TmsOf;
    FiveActs(w, parts, e);
    ThreeTms(w.acts, ScanActs(parts), e.acts);
    TransitionsTms(Walk(Code(hw), Code(shift)).tms);
    TransitionsTms(Walk(parts[2].tap, estate).tms);
    tms := TmsOf(ActsOf(Scan(hdr, data, tdr, Code(hw), Code(shift), estate).chunks));
  }

  /** From a known state, SDR and SIR clock exactly their bits in the Shift state,
      walks included, if and only if there are any bits or the end state is that
      state; an empty scan that has to leave again clocks one. */
  lemma ScanShiftsExactly(hdr: Bitdata, data: Bitdata, tdr: Bitdata, hw: Tap, shift: Tap, estate: int)
    requires Wf(hdr) && Wf(data) && Wf(tdr) && shift in {DrShift, IrShift}
    ensures var n := Total(hdr, data, tdr);
            var scan := Scan(hdr, data, tdr, Code(hw), Code(shift), estate);
            var clocked := CyclesIn(shift, hw, TmsOf(ActsOf(scan.chunks)));
            && (clocked == n <==> n > 0 || estate == Code(shift))
            && (n == 0 && estate != Code(shift) ==> clocked == 1)
  {
    hide Scan, ScanChunks, Walk, ActsOf, TmsOf;
    var parts := ScanChunks(hdr, data, tdr, Code(shift), Code(shift), estate);
    var tms := TmsOf(ScanActs(parts));
    var all := ScanTms(hdr, data, tdr, hw, shift, estate);
    WalkArrives(hw, shift);
    WalkCycles(shift, hw, Code(shift));
    BitsShift(hdr, data, tdr, shift, estate);
    WalkCycles(shift, Run(shift, tms), estate);
    ThreeLegs(shift, hw, Walk(Code(hw), Code(shift)).tms, tms, Walk(parts[2].tap, estate).tms);
  }
}
