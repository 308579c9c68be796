/** The bit vectors of SVF scans: `bitdata_parse` and `bitdata_play`
    (svfload/libxsvf/svf.c). */
module SvfBitdata {
  import opened Bits
  import opened HostApi
  import opened SvfText
  import opened TapController
  import opened TapWalk

  /** The contents of a bitdata_s. Its allocated length is always `len`. */
  datatype Bitdata = Bitdata(len: nat, field: map<Field, seq<byte>>, hasTdo: bool)

  datatype Field = Tdi | Tdo | Smask | Mask | Rmask

  const EMPTY := Bitdata(0, map[], false)

  function Bytes(len: nat): nat {
    (len + 7) / 8
  }

  ghost predicate Wf(bd: Bitdata) {
    forall f :: f in bd.field ==> |bd.field[f]| == Bytes(bd.len)
  }

  // ---------------------------------------------------------------------
  // Hexadecimal literals
  // ---------------------------------------------------------------------

  predicate IsHex(c: char) {
    ('A' <= c <= 'F') || IsDigit(c)
  }

  function HexVal(c: char): nat {
    if 'A' <= c <= 'Z' then c as int - 'A' as int + 10
    else if IsDigit(c) then c as int - '0' as int
    else 0
  }

  function HexCount(p: string): (n: nat)
    ensures n <= |p|
    ensures forall k :: 0 <= k < n ==> IsHex(p[k])
  {
    if p != "" && IsHex(p[0]) then 1 + HexCount(p[1..]) else 0
  }

  ghost predicate IsLiteral(ds: string) {
    forall k :: 0 <= k < |ds| ==> IsHex(ds[k])
  }

  /** Bit `k` of the number that the hexadecimal literal denotes. */
  predicate LiteralBit(ds: string, k: nat) {
    k / 4 < |ds| && Bit(HexVal(ds[|ds| - 1 - k / 4]), k % 4)
  }

  /** The number itself, most significant digit first. */
  function LiteralValue(ds: string): nat {
    if ds == "" then 0 else 16 * LiteralValue(ds[..|ds| - 1]) + HexVal(ds[|ds| - 1])
  }

  /** Nibble `i` of a buffer of `n` bytes that holds the literal right-aligned. */
  function Nibble(n: nat, ds: string, i: nat): nat
    requires |ds| <= 2 * n && i < 2 * n
  {
    if i < 2 * n - |ds| then 0 else HexVal(ds[i - (2 * n - |ds|)])
  }

  function Fill(n: nat, ds: string): (d: seq<byte>)
    requires |ds| <= 2 * n && IsLiteral(ds)
    ensures |d| == n
  {
    seq(n, b requires 0 <= b < n => 16 * Nibble(n, ds, 2 * b) + Nibble(n, ds, 2 * b + 1))
  }

  /** getbit: bit 0 is the most significant bit of the first byte. */
  predicate GetBit(data: seq<byte>, n: nat)
    requires n / 8 < |data|
  {
    Bit(data[n / 8], 7 - n % 8)
  }

  lemma NibbleBits(a: nat, b: nat, i: nat)
    requires b < 16
    ensures Bit(16 * a + b, i) == (if i < 4 then Bit(b, i) else Bit(a, i - 4))
  {
    var v := 16 * a + b;
    assert v / 2 == 8 * a + b / 2 && v / 2 / 2 == 4 * a + b / 2 / 2;
    assert v / 2 / 2 / 2 == 2 * a + b / 2 / 2 / 2 && v / 2 / 2 / 2 / 2 == a;
    if i >= 4 {
      assert Bit(v, i) == Bit(v / 2, i - 1) == Bit(v / 2 / 2, i - 2);
      assert Bit(v / 2 / 2, i - 2) == Bit(v / 2 / 2 / 2, i - 3) == Bit(v / 2 / 2 / 2 / 2, i - 4);
    } else if i == 3 {
      assert Bit(v, 3) == Bit(v / 2, 2) == Bit(v / 2 / 2, 1) == Bit(v / 2 / 2 / 2, 0);
      assert Bit(b, 3) == Bit(b / 2, 2) == Bit(b / 2 / 2, 1) == Bit(b / 2 / 2 / 2, 0);
    } else if i == 2 {
      assert Bit(v, 2) == Bit(v / 2, 1) == Bit(v / 2 / 2, 0);
      assert Bit(b, 2) == Bit(b / 2, 1) == Bit(b / 2 / 2, 0);
    }
  }

  /** The k-th bit from the end of the filled buffer is bit k of the literal. */
  lemma FillBit(n: nat, ds: string, k: nat)
    requires |ds| <= 2 * n && IsLiteral(ds) && k < 8 * n
    ensures GetBit(Fill(n, ds), 8 * n - 1 - k) == LiteralBit(ds, k)
  {
    var i := 8 * n - 1 - k;
    assert i / 8 == n - 1 - k / 8 && 7 - i % 8 == k % 8;
    var b := n - 1 - k / 8;
    var hi, lo := Nibble(n, ds, 2 * b), Nibble(n, ds, 2 * b + 1);
    NibbleBits(hi, lo, k % 8);
    ZeroBit(k % 4);
    var top := 2 * n - |ds|;
    if k % 8 < 4 {
      assert k / 4 == 2 * (k / 8) && k % 4 == k % 8;
      assert 2 * b + 1 == 2 * n - 1 - k / 4;
    } else {
      assert k / 4 == 2 * (k / 8) + 1 && k % 4 == k % 8 - 4;
      assert 2 * b == 2 * n - 1 - k / 4;
    }
  }

  /** LiteralBit really is the binary expansion of the literal's value. */
  lemma {:induction false} LiteralValueBit(ds: string, k: nat)
    requires IsLiteral(ds)
    ensures Bit(LiteralValue(ds), k) == LiteralBit(ds, k)
    decreases |ds|
  {
    hide Bit;
    if ds == "" {
      ZeroBit(k);
    } else {
      var init, h := ds[..|ds| - 1], HexVal(ds[|ds| - 1]);
      var v := LiteralValue(init);
      NibbleBits(v, h, k);
      if k >= 4 {
        LiteralValueBit(init, k - 4);
      }
    }
  }

  // ---------------------------------------------------------------------
  // Parsing
  // ---------------------------------------------------------------------

  /** One `KEYWORD (literal)`; `sawTdo` if TDO is among the keywords before it. */
  datatype Entry = Entry(field: Field, sawTdo: bool, digits: string)

  datatype BitCommand = BitCommand(len: nat, entries: seq<Entry>)

  datatype Entries = Entries(entries: seq<Entry>) | Malformed | Overrun

  /** The keyword tests run one after the other, each on what the former left. */
  function After1(w: string, p: string): (q: string)
    ensures |q| <= |p|
  {
    if Token(p) == w then SkipToken(p) else p
  }

  datatype Keywords = Keywords(field: Option<Field>, sawTdo: bool, rest: string)

  function ReadKeywords(p: string): (k: Keywords)
    ensures |k.rest| <= |p|
  {
    var p1 := After1("TDI", p);
    var p2 := After1("TDO", p1);
    var p3 := After1("SMASK", p2);
    var p4 := After1("MASK", p3);
    var p5 := After1("RMASK", p4);
    var f1 := if Token(p) == "TDI" then Some(Tdi) else None;
    var f2 := if Token(p1) == "TDO" then Some(Tdo) else f1;
    var f3 := if Token(p2) == "SMASK" then Some(Smask) else f2;
    var f4 := if Token(p3) == "MASK" then Some(Mask) else f3;
    var f5 := if Token(p4) == "RMASK" then Some(Rmask) else f4;
    Keywords(f5, Token(p1) == "TDO", p5)
  }

  predicate StartsWith(p: string, c: char) {
    p != "" && p[0] == c
  }

  function Prepend(es: seq<Entry>, r: Entries): Entries {
    if r.Entries? then Entries(es + r.entries) else r
  }

  datatype EntryResult = OneEntry(entry: Entry, rest: string) | BadEntry | LongEntry

  /** One keyword and its literal. A literal with more digits than the buffer
      has nibbles is written outside it: C leaves the run undefined. */
  function ParseEntry(p: string, bytes: nat): (r: EntryResult)
    ensures r.OneEntry? ==> |r.rest| < |p| && IsLiteral(r.entry.digits) && |r.entry.digits| <= 2 * bytes
  {
    var k := ReadKeywords(p);
    if k.field.None? || !StartsWith(k.rest, '(') then BadEntry
    else
      var q := k.rest[1..];
      var n := HexCount(q);
      if n > 2 * bytes then LongEntry
      else if !StartsWith(q[n..], ')') then BadEntry
      else OneEntry(Entry(k.field.value, k.sawTdo, q[..n]), SkipSpaces(q[n + 1..]))
  }

  function ParseEntries(p: string, bytes: nat): Entries
    decreases |p|
  {
    if p == "" then Entries([])
    else
      var r := ParseEntry(p, bytes);
      match r
      case BadEntry => Malformed
      case LongEntry => Overrun
      case OneEntry(e, rest) => Prepend([e], ParseEntries(rest, bytes))
  }

  datatype ParseResult = Parsed(cmd: BitCommand) | Bad | OverrunBits

  /** The text of a command: a decimal length, then the entries. */
  function ParseBits(p: string): ParseResult {
    var len := Decimal(p, 0);
    match ParseEntries(SkipSpaces(p[DigitCount(p)..]), Bytes(len))
    case Entries(es) => Parsed(BitCommand(len, es))
    case Malformed => Bad
    case Overrun => OverrunBits
  }

  function ApplyEntry(bd: Bitdata, e: Entry): Bitdata
    requires IsLiteral(e.digits) && |e.digits| <= 2 * Bytes(bd.len)
  {
    Bitdata(bd.len, bd.field[e.field := Fill(Bytes(bd.len), e.digits)], bd.hasTdo || e.sawTdo)
  }

  ghost predicate Fits(es: seq<Entry>, len: nat) {
    forall i :: 0 <= i < |es| ==> IsLiteral(es[i].digits) && |es[i].digits| <= 2 * Bytes(len)
  }

  function ApplyEntries(bd: Bitdata, es: seq<Entry>): (r: Bitdata)
    requires Fits(es, bd.len)
    ensures r.len == bd.len
  {
    if es == [] then bd
    else
      var n := |es| - 1;
      ApplyEntry(ApplyEntries(bd, es[..n]), es[n])
  }

  /** A new length drops every vector; TDO is always to be given anew. */
  function Resize(bd: Bitdata, len: nat): Bitdata {
    if len == bd.len then bd.(hasTdo := false) else Bitdata(len, map[], false)
  }

  function Apply(bd: Bitdata, cmd: BitCommand): (r: Bitdata)
    requires Fits(cmd.entries, cmd.len)
    ensures r.len == cmd.len
  {
    ApplyEntries(Resize(bd, cmd.len), cmd.entries)
  }

  lemma {:induction false} ParseEntriesFits(p: string, bytes: nat, len: nat)
    requires bytes == Bytes(len)
    ensures var r := ParseEntries(p, bytes); r.Entries? ==> Fits(r.entries, len)
    decreases |p|
  {
    if p != "" {
      var r := ParseEntry(p, bytes);
      if r.OneEntry? {
        ParseEntriesFits(r.rest, bytes, len);
      }
    }
  }

  lemma ParseBitsFits(p: string)
    ensures var r := ParseBits(p); r.Parsed? ==> Fits(r.cmd.entries, r.cmd.len)
  {
    ParseEntriesFits(SkipSpaces(p[DigitCount(p)..]), Bytes(Decimal(p, 0)), Decimal(p, 0));
  }

  lemma {:induction false} ApplyEntriesWf(bd: Bitdata, es: seq<Entry>)
    requires Fits(es, bd.len) && Wf(bd)
    ensures Wf(ApplyEntries(bd, es))
    decreases |es|
  {
    if es != [] {
      ApplyEntriesWf(bd, es[..|es| - 1]);
    }
  }

  lemma ApplyWf(bd: Bitdata, cmd: BitCommand)
    requires Fits(cmd.entries, cmd.len) && Wf(bd)
    ensures Wf(Apply(bd, cmd))
  {
    ApplyEntriesWf(Resize(bd, cmd.len), cmd.entries);
  }

  // ---------------------------------------------------------------------
  // Sticky parameters
  // ---------------------------------------------------------------------

  ghost predicate AllFit(cmds: seq<BitCommand>) {
    forall i :: 0 <= i < |cmds| ==> Fits(cmds[i].entries, cmds[i].len)
  }

  /** The vectors after a sequence of commands to one bitdata_s. */
  function AfterCommands(cmds: seq<BitCommand>): Bitdata
    requires AllFit(cmds)
  {
    if cmds == [] then EMPTY
    else Apply(AfterCommands(cmds[..|cmds| - 1]), cmds[|cmds| - 1])
  }

  /** The entries of the trailing commands that share the last length. */
  function TrailingEntries(cmds: seq<BitCommand>): seq<Entry>
    requires cmds != []
  {
    var n := |cmds| - 1;
    if n > 0 && cmds[n - 1].len == cmds[n].len
    then TrailingEntries(cmds[..n]) + cmds[n].entries
    else cmds[n].entries
  }

  /** The latest literal given for `f`. */
  function LastGiven(es: seq<Entry>, f: Field): Option<string> {
    if es == [] then None
    else if es[|es| - 1].field == f then Some(es[|es| - 1].digits)
    else LastGiven(es[..|es| - 1], f)
  }

  ghost predicate InForce(bd: Bitdata, f: Field, given: Option<string>) {
    if given.None? then f !in bd.field
    else
      && IsLiteral(given.value) && |given.value| <= 2 * Bytes(bd.len)
      && f in bd.field && bd.field[f] == Fill(Bytes(bd.len), given.value)
  }

  lemma {:induction false} LastGivenConcat(a: seq<Entry>, b: seq<Entry>, f: Field)
    ensures LastGiven(a + b, f) == (if LastGiven(b, f).Some? then LastGiven(b, f) else LastGiven(a, f))
    decreases |b|
  {
    if b == [] {
      assert a + b == a;
    } else {
      assert (a + b)[..|a + b| - 1] == a + b[..|b| - 1];
      LastGivenConcat(a, b[..|b| - 1], f);
    }
  }

  lemma {:induction false} EntriesInForce(bd: Bitdata, es: seq<Entry>, f: Field, given: Option<string>)
    requires Fits(es, bd.len) && InForce(bd, f, given)
    ensures var now := if LastGiven(es, f).Some? then LastGiven(es, f) else given;
            InForce(ApplyEntries(bd, es), f, now)
    decreases |es|
  {
    if es != [] {
      EntriesInForce(bd, es[..|es| - 1], f, given);
    }
  }

  /** TDI, SMASK, MASK and RMASK keep the latest literal given within the
      trailing commands of the same length. */
  lemma {:induction false} StickyParameters(cmds: seq<BitCommand>, f: Field)
    requires cmds != [] && AllFit(cmds)
    ensures AfterCommands(cmds).len == cmds[|cmds| - 1].len
    ensures InForce(AfterCommands(cmds), f, LastGiven(TrailingEntries(cmds), f))
    decreases |cmds|
  {
    var n := |cmds| - 1;
    var before := AfterCommands(cmds[..n]);
    var last := cmds[n];
    var base := Resize(before, last.len);
    if n > 0 {
      StickyParameters(cmds[..n], f);
    }
    if n > 0 && cmds[n - 1].len == last.len {
      var given := LastGiven(TrailingEntries(cmds[..n]), f);
      EntriesInForce(base, last.entries, f, given);
      LastGivenConcat(TrailingEntries(cmds[..n]), last.entries, f);
    } else {
      assert base.field == map[];
      EntriesInForce(base, last.entries, f, None);
    }
  }

  /** No TDO keyword is followed by another keyword before its literal. */
  ghost predicate PlainTdo(es: seq<Entry>) {
    forall i :: 0 <= i < |es| ==> (es[i].sawTdo <==> es[i].field == Tdo)
  }

  predicate SawTdo(es: seq<Entry>) {
    exists i :: 0 <= i < |es| && es[i].sawTdo
  }

  /** TDO is checked by a command exactly if it has the keyword: against the literal
      given there, or, where another keyword comes between, against an older one. */
  lemma TdoIsNotSticky(cmds: seq<BitCommand>)
    requires cmds != [] && AllFit(cmds)
    ensures var bd, es := AfterCommands(cmds), cmds[|cmds| - 1].entries;
            var given := LastGiven(es, Tdo);
            && (bd.hasTdo <==> SawTdo(es))
            && (PlainTdo(es) ==> (bd.hasTdo <==> given.Some?))
            && InForce(bd, Tdo, if given.Some? then given else LastGiven(TrailingEntries(cmds), Tdo))
  {
    var n := |cmds| - 1;
    var es := cmds[n].entries;
    StickyParameters(cmds, Tdo);
    LastGivenSome(es, Tdo);
    HasTdoOnly(Resize(AfterCommands(cmds[..n]), cmds[n].len), es);
    if n > 0 && cmds[n - 1].len == cmds[n].len {
      LastGivenConcat(TrailingEntries(cmds[..n]), es, Tdo);
    }
  }

  lemma {:induction false} HasTdoOnly(bd: Bitdata, es: seq<Entry>)
    requires Fits(es, bd.len)
    ensures ApplyEntries(bd, es).hasTdo <==> bd.hasTdo || exists i :: 0 <= i < |es| && es[i].sawTdo
    decreases |es|
  {
    if es != [] {
      var n := |es| - 1;
      HasTdoOnly(bd, es[..n]);
      forall i | 0 <= i < n
        ensures es[..n][i] == es[i]
      {
      }
    }
  }

  lemma {:induction false} LastGivenSome(es: seq<Entry>, f: Field)
    ensures LastGiven(es, f).Some? <==> exists i :: 0 <= i < |es| && es[i].field == f
    decreases |es|
  {
    if es != [] {
      var n := |es| - 1;
      LastGivenSome(es[..n], f);
      forall i | 0 <= i < n
        ensures es[..n][i] == es[i]
      {
      }
    }
  }

  // ---------------------------------------------------------------------
  // Playing
  // ---------------------------------------------------------------------

  /** Bit `k` of a vector, in the order the bits are clocked. */
  predicate VectorBit(bd: Bitdata, f: Field, k: nat)
    requires Wf(bd) && k < bd.len && f in bd.field
  {
    GetBit(bd.field[f], 8 * Bytes(bd.len) - 1 - k)
  }

  predicate Selected(bd: Bitdata, mask: Field, k: nat)
    requires Wf(bd) && k < bd.len
  {
    mask in bd.field ==> VectorBit(bd, mask, k)
  }

  function PulseAt(bd: Bitdata, k: nat, exit: bool): Act
    requires Wf(bd) && k < bd.len
  {
    Pulse(
      k == bd.len - 1 && exit,
      if Tdi in bd.field && Selected(bd, Smask, k) then Some(VectorBit(bd, Tdi, k)) else None,
      if Tdo in bd.field && bd.hasTdo && Selected(bd, Mask, k) then Some(VectorBit(bd, Tdo, k)) else None,
      Rmask in bd.field && VectorBit(bd, Rmask, k),
      false)
  }

  /** The pulses of a scan; the last one leaves the Shift state unless the end
      state is that state. */
  function PlayActs(bd: Bitdata, tap: int, estate: int): (acts: seq<Act>)
    requires Wf(bd)
    ensures |acts| == bd.len
    ensures forall k :: 0 <= k < bd.len ==> acts[k] == PulseAt(bd, k, tap != estate)
  {
    seq(bd.len, k requires 0 <= k < bd.len => PulseAt(bd, k, tap != estate))
  }

  function PlayTap(bd: Bitdata, tap: int, estate: int): int {
    if bd.len > 0 && tap != estate then tap + 1 else tap
  }

  lemma PlayTms(bd: Bitdata, tap: int, estate: int)
    requires Wf(bd)
    ensures var tms := TmsOf(PlayActs(bd, tap, estate));
            && |tms| == bd.len
            && forall k :: 0 <= k < bd.len ==> tms[k] == (k == bd.len - 1 && tap != estate)
  {
    var acts := PlayActs(bd, tap, estate);
    assert forall k :: 0 <= k < |acts| ==> acts[k] == PulseAt(bd, k, tap != estate);
    PulsesTms(acts);
  }

  lemma {:induction false} PulsesTms(acts: seq<Act>)
    requires forall k :: 0 <= k < |acts| ==> acts[k].Pulse?
    ensures |TmsOf(acts)| == |acts|
    ensures forall k :: 0 <= k < |acts| ==> TmsOf(acts)[k] == acts[k].tms
    decreases |acts|
  {
    if acts != [] {
      PulsesTms(acts[..|acts| - 1]);
    }
  }

  /** A scan that starts in a Shift state keeps the tracked state right: the
      increment takes Shift to Exit1, on the one pulse with TMS high. */
  lemma PlayAgrees(bd: Bitdata, hw: Tap, estate: int)
    requires Wf(bd) && hw in {DrShift, IrShift}
    ensures PlayTap(bd, Code(hw), estate) == Code(Run(hw, TmsOf(PlayActs(bd, Code(hw), estate))))
  {
    hide TmsOf, Holds, Repeat, Wf, PlayActs;
    var tap := Code(hw);
    var tms := TmsOf(PlayActs(bd, tap, estate));
    PlayTms(bd, tap, estate);
    if bd.len > 0 {
      var n := bd.len - 1;
      assert tms[..n] == Repeat(false, n);
      if n > 0 {
        ZerosKeep(hw, n);
      } else {
        assert Run(hw, Repeat(false, 0)) == hw;
      }
    }
  }
}
