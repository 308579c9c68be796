/** The loops of `bitdata_parse` and `bitdata_play` (svfload/libxsvf/svf.c). */
module SvfScan {
  import opened Bits
  import opened HostApi
  import opened Hosts
  import opened SvfBitdata
  import opened SvfText

  /** struct bitdata_s: the length, the vectors given so far, has_tdo_data. */
  class BitdataS {
    var len: nat
    var field: map<Field, seq<byte>>
    var hasTdo: bool

    function Value(): Bitdata
      reads this
    {
      Bitdata(len, field, hasTdo)
    }

    constructor ()
      ensures Value() == EMPTY
    {
      len, field, hasTdo := 0, map[], false;
    }
  }

  datatype Status = Ok | Error | Undefined

  method MatchKeyword(w: string, p: string) returns (hit: bool, q: string)
    requires ' ' !in w
    ensures hit <==> Token(p) == w
    ensures q == After1(w, p)
  {
    TokenSplit(w, "");
    var c := StrTokenCmp(p, w);
    hit, q := c == 0, p;
    if hit {
      var i := StrTokenSkip(p);
      q := p[i..];
    }
  }

  method MatchKeywords(p: string) returns (k: Keywords)
    ensures k == ReadKeywords(p)
  {
    var f: Option<Field> := None;
    var hit, q := MatchKeyword("TDI", p);
    f := if hit then Some(Tdi) else f;
    var sawTdo;
    sawTdo, q := MatchKeyword("TDO", q);
    f := if sawTdo then Some(Tdo) else f;
    hit, q := MatchKeyword("SMASK", q);
    f := if hit then Some(Smask) else f;
    hit, q := MatchKeyword("MASK", q);
    f := if hit then Some(Mask) else f;
    hit, q := MatchKeyword("RMASK", q);
    f := if hit then Some(Rmask) else f;
    k := Keywords(f, sawTdo, q);
  }

  /** Writes the literal into the zeroed buffer, last digit into the last nibble. */
  method FillBuffer(bytes: nat, ds: string) returns (r: seq<byte>)
    requires IsLiteral(ds) && |ds| <= 2 * bytes
    ensures r == Fill(bytes, ds)
  {
    var d := new byte[bytes](_ => 0);
    var i, j := bytes * 2 - |ds|, 0;
    ghost var top := i;
    while j < |ds|
      invariant 0 <= j <= |ds| && i == top + j
      invariant forall b {:trigger d[b]} :: 0 <= b < bytes ==>
                  d[b] == 16 * (if 2 * b < i then Nibble(bytes, ds, 2 * b) else 0)
                          + (if 2 * b + 1 < i then Nibble(bytes, ds, 2 * b + 1) else 0)
    {
      if i % 2 == 0 {
        d[i / 2] := d[i / 2] + 16 * HexVal(ds[j]);
      } else {
        d[i / 2] := d[i / 2] + HexVal(ds[j]);
      }
      j, i := j + 1, i + 1;
    }
    r := d[..];
  }

  method CountHex(p: string) returns (n: nat)
    ensures n == HexCount(p)
  {
    n := 0;
    while n < |p| && (('A' <= p[n] <= 'F') || ('0' <= p[n] <= '9'))
      invariant n <= |p| && HexCount(p) == n + HexCount(p[n..])
    {
      assert p[n..][1..] == p[n + 1..];
      n := n + 1;
    }
  }

  method ParseOne(bd: BitdataS, p: string) returns (status: Status, q: string)
    requires p != ""
    modifies bd
    ensures bd.len == old(bd.len)
    ensures match ParseEntry(p, Bytes(bd.len))
            case BadEntry => status == Error
            case LongEntry => status == Undefined
            case OneEntry(e, rest) =>
              status == Ok && q == rest && bd.Value() == ApplyEntry(old(bd.Value()), e)
  {
    hide ReadKeywords, IsLiteral, Bytes, ParseBits, SkipSpaces, HexCount, Fill;
    q := p;
    var k := MatchKeywords(p);
    if k.field.None? || k.rest == "" || k.rest[0] != '(' {
      return Error, p;
    }
    var t := k.rest[1..];
    var n := CountHex(t);
    if n > 2 * Bytes(bd.len) {
      return Undefined, p;
    }
    if t[n..] == "" || t[n] != ')' {
      return Error, p;
    }
    var d := FillBuffer(Bytes(bd.len), t[..n]);
    bd.field := bd.field[k.field.value := d];
    bd.hasTdo := bd.hasTdo || k.sawTdo;
    q := EatSpaces(t[n + 1..]);
    status := Ok;
  }

  lemma ApplySnoc(bd: Bitdata, done: seq<Entry>, e: Entry)
    requires Fits(done, bd.len) && IsLiteral(e.digits) && |e.digits| <= 2 * Bytes(bd.len)
    ensures Fits(done + [e], bd.len)
    ensures ApplyEntries(bd, done + [e]) == ApplyEntry(ApplyEntries(bd, done), e)
  {
    assert (done + [e])[..|done|] == done;
  }

  lemma PrependTwice(done: seq<Entry>, e: Entry, r: Entries)
    ensures Prepend(done, Prepend([e], r)) == Prepend(done + [e], r)
  {
    if r.Entries? {
      assert done + ([e] + r.entries) == done + [e] + r.entries;
    }
  }

  /** bitdata_parse. */
  method BitdataParse(bd: BitdataS, text: string) returns (status: Status)
    modifies bd
    ensures match ParseBits(text)
            case Bad => status == Error
            case OverrunBits => status == Undefined
            case Parsed(cmd) =>
              status == Ok && Fits(cmd.entries, cmd.len) && bd.Value() == Apply(old(bd.Value()), cmd)
  {
    ParseBitsFits(text);
    var len, p := EatNumber(text);
    p := EatSpaces(p);
    bd.hasTdo := false;
    if len != bd.len {
      bd.field := map[];
      bd.len := len;
    }
    status := ParseAll(bd, p);
  }

  /** The loop over the entries. */
  method ParseAll(bd: BitdataS, text: string) returns (status: Status)
    modifies bd
    ensures match ParseEntries(text, Bytes(old(bd.len)))
            case Malformed => status == Error
            case Overrun => status == Undefined
            case Entries(es) =>
              status == Ok && Fits(es, old(bd.len)) && bd.Value() == ApplyEntries(old(bd.Value()), es)
  {
    hide ParseEntry, ApplyEntry, IsLiteral, Bytes, ParseBits;
    ghost var base := bd.Value();
    ghost var all := ParseEntries(text, Bytes(bd.len));
    ghost var done: seq<Entry> := [];
    var p := text;
    assert Prepend(done, all) == all;
    while p != ""
      invariant bd.len == base.len && Fits(done, base.len)
      invariant bd.Value() == ApplyEntries(base, done)
      invariant all == Prepend(done, ParseEntries(p, Bytes(base.len)))
      decreases |p|
    {
      ghost var r := ParseEntry(p, Bytes(base.len));
      var q;
      status, q := ParseOne(bd, p);
      if status != Ok {
        return;
      }
      PrependTwice(done, r.entry, ParseEntries(q, Bytes(base.len)));
      ApplySnoc(base, done, r.entry);
      done, p := done + [r.entry], q;
    }
    assert done + [] == done;
    status := Ok;
  }

  lemma PlaySnoc(bd: Bitdata, tap: int, estate: int, k: nat)
    requires Wf(bd) && k < bd.len
    ensures PlayActs(bd, tap, estate)[..k + 1] == PlayActs(bd, tap, estate)[..k] + [PulseAt(bd, k, tap != estate)]
  {
  }

  /** A parameter's bit where its mask has one. */
  method SelectedBit(bd: BitdataS, f: Field, mask: Field, i: nat, ghost k: nat) returns (v: Option<bool>)
    requires Wf(bd.Value()) && k < bd.len && i == 8 * Bytes(bd.len) - 1 - k
    ensures v == if f in bd.field && Selected(bd.Value(), mask, k) then Some(VectorBit(bd.Value(), f, k)) else None
  {
    hide GetBit, Bytes;
    v := None;
    ghost var b := bd.Value();
    assert forall g :: g in bd.field ==> |b.field[g]| == Bytes(bd.len);
    if f in bd.field && (mask !in bd.field || GetBit(bd.field[mask], i)) {
      v := Some(GetBit(bd.field[f], i));
    }
  }

  method KeptBit(bd: BitdataS, i: nat, ghost k: nat) returns (v: bool)
    requires Wf(bd.Value()) && k < bd.len && i == 8 * Bytes(bd.len) - 1 - k
    ensures v == (Rmask in bd.field && VectorBit(bd.Value(), Rmask, k))
  {
    hide GetBit, Bytes;
    ghost var b := bd.Value();
    assert forall g :: g in bd.field ==> |b.field[g]| == Bytes(bd.len);
    v := Rmask in bd.field && GetBit(bd.field[Rmask], i);
  }

  /** The pulse for buffer bit `i`. */
  method BitPulse(h: Host, bd: BitdataS, i: nat, tms: bool, ghost k: nat, ghost exit: bool) returns (rc: int)
    requires Wf(bd.Value()) && k < bd.len && i == 8 * Bytes(bd.len) - 1 - k
    requires tms <==> k == bd.len - 1 && exit
    modifies h`log
    ensures h.log == old(h.log) + [PulseAt(bd.Value(), k, exit)] && rc == h.env(h.log)
  {
    hide GetBit, Bytes, Selected, VectorBit, Wf;
    var tdi := SelectedBit(bd, Tdi, Smask, i, k);
    var tdo: Option<bool> := None;
    if bd.hasTdo {
      tdo := SelectedBit(bd, Tdo, Mask, i, k);
    }
    var rmask := KeptBit(bd, i, k);
    rc := h.PulseTck(tms, tdi, tdo, rmask, false);
  }

  /** bitdata_play: from the last bit of the buffer down to the left padding. */
  method BitdataPlay(h: Host, bd: BitdataS, estate: int) returns (rc: int)
    requires Wf(bd.Value())
    modifies h`log, h`tapState
    ensures var acts := PlayActs(bd.Value(), old(h.tapState), estate);
            && h.log == old(h.log) + acts
            && h.tapState == PlayTap(bd.Value(), old(h.tapState), estate)
            && rc == (if AnyNegative(old(h.log), acts, h.env) then -1 else 0)
  {
    hide PlayActs, PulseAt, Wf;
    var leftPadding := (8 - bd.len % 8) % 8;
    assert bd.len + leftPadding == 8 * Bytes(bd.len);
    var tdoError, tms := false, false;
    var i := bd.len + leftPadding - 1;
    ghost var t, exit := h.tapState, h.tapState != estate;
    ghost var acts := PlayActs(bd.Value(), t, estate);
    ghost var k: nat := 0;
    assert h.log == old(h.log) + acts[..0];
    while i >= leftPadding
      invariant k <= bd.len && i == bd.len + leftPadding - 1 - k
      invariant h.log == old(h.log) + acts[..k]
      invariant h.tapState == if k == bd.len > 0 && exit then t + 1 else t
      invariant tdoError <==> AnyNegative(old(h.log), acts[..k], h.env)
      invariant k < bd.len ==> !tms
    {
      if i == leftPadding && h.tapState != estate {
        h.tapState := h.tapState + 1;
        tms := true;
      }
      var r := BitPulse(h, bd, i, tms, k, exit);
      PlaySnoc(bd.Value(), t, estate, k);
      AnyNegativeSnoc(old(h.log), acts[..k], acts[k], h.env);
      assert h.log == old(h.log) + acts[..k] + [acts[k]];
      if r < 0 {
        tdoError := true;
      }
      i, k := i - 1, k + 1;
    }
    assert acts[..k] == acts;
    rc := if tdoError then -1 else 0;
  }
}
