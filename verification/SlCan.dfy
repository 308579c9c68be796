/** The SLCAN printer and parser of arduino/slcan_controller/SLCan.cpp. */
module SlCan {
  import opened Bits

  /** SLC_MTU: the receive buffer. */
  const MTU: nat := 33

  function HexToDec(hex: char): (d: nat)
    ensures d < 16
  {
    if '0' <= hex <= '9' then hex as int - 48
    else if 'A' <= hex <= 'F' then hex as int - 55
    else if 'a' <= hex <= 'f' then hex as int - 87
    else 0
  }

  /** A digit as printf's %x writes it. */
  function HexChar(d: nat): (c: char)
    requires d < 16
    ensures HexToDec(c) == d && c != '\r'
  {
    if d < 10 then (48 + d) as char else (87 + d) as char
  }

  // ---------------------------------------------------------------------
  // Frames
  // ---------------------------------------------------------------------

  function HexBytes(data: seq<byte>): (s: string)
    ensures |s| == 2 * |data|
    ensures forall k :: 0 <= k < |data| ==> s[2 * k] == HexChar(data[k] / 16) && s[2 * k + 1] == HexChar(data[k] % 16)
  {
    if data == [] then ""
    else
      var n := |data| - 1;
      HexBytes(data[..n]) + [HexChar(data[n] / 16), HexChar(data[n] % 16)]
  }

  lemma HexNone()
    ensures HexBytes([]) == ""
  {
  }

  lemma HexNext(data: seq<byte>, n: nat)
    requires n < |data|
    ensures HexBytes(data[..n + 1]) == HexBytes(data[..n]) + [HexChar(data[n] / 16), HexChar(data[n] % 16)]
  {
    assert data[..n + 1][..n] == data[..n];
  }

  /** What send writes for an accepted frame. */
  function Frame(id: string, data: seq<byte>): string
    requires |data| <= 8
  {
    "t" + id + [HexChar(|data|)] + HexBytes(data) + "\r"
  }

  datatype Call = Call(entry: nat, data: seq<byte>)

  /** What handling a terminated message does. Undefined: eight or more data bytes,
      for which the source writes past its array. */
  datatype Handling = Ignored | Calls(call: Call) | Undefined

  /** The first table entry for the message's identifier. */
  function Entry(tab: seq<string>, id: string): (n: nat)
    ensures n <= |tab|
    ensures n < |tab| ==> tab[n] == id
    ensures forall k :: 0 <= k < n ==> tab[k] != id
  {
    if tab == [] || tab[0] == id then 0 else 1 + Entry(tab[1..], id)
  }

  function ByteOf(high: char, low: char): byte {
    16 * HexToDec(high) + HexToDec(low)
  }

  function DataOf(message: string, len: nat): (r: seq<byte>)
    requires |message| == 6 + 2 * len
    ensures |r| == len
    ensures forall k :: 0 <= k < len ==> r[k] == ByteOf(message[5 + 2 * k], message[6 + 2 * k])
  {
    seq<byte>(len, k requires 0 <= k < len => ByteOf(message[5 + 2 * k], message[6 + 2 * k]))
  }

  /** handle, for the characters in the buffer. */
  function Handle(tab: seq<string>, message: string): Handling {
    if |message| < 6 || message[0] != 't' then Ignored
    else
      var n, len := Entry(tab, message[1..4]), HexToDec(message[4]);
      if n == |tab| || 2 * len != |message| - 6 then Ignored
      else if len >= 8 then Undefined
      else Calls(Call(n, DataOf(message, len)))
  }

  /** How many characters of a line are in the buffer: it starts again when full. */
  function Kept(line: nat): (n: nat)
    ensures n <= line && n <= MTU
  {
    if line == 0 then 0 else (line - 1) % MTU + 1
  }

  /** A whole line, its terminator included. */
  function HandleLine(tab: seq<string>, line: string): Handling {
    Handle(tab, line[|line| - Kept(|line|)..])
  }

  /** The calls made and the characters of the unfinished line, or how it went
      wrong. */
  datatype Heard = Heard(calls: seq<Call>, line: string, undefined: bool)

  function Hear(tab: seq<string>, h: Heard, c: char): Heard {
    if h.undefined then h
    else
      var line := h.line + [c];
      if c != '\r' then h.(line := line)
      else
        match HandleLine(tab, line)
        case Ignored => h.(line := "")
        case Calls(call) => Heard(h.calls + [call], "", false)
        case Undefined => h.(undefined := true)
  }

  function HearAll(tab: seq<string>, h: Heard, s: string): Heard {
    if s == "" then h else Hear(tab, HearAll(tab, h, s[..|s| - 1]), s[|s| - 1])
  }

  lemma {:induction false} HearConcat(tab: seq<string>, h: Heard, a: string, b: string)
    ensures HearAll(tab, h, a + b) == HearAll(tab, HearAll(tab, h, a), b)
    decreases |b|
  {
    if b == "" {
      assert a + b == a;
    } else {
      var n := |b| - 1;
      assert (a + b)[..|a + b| - 1] == a + b[..n];
      HearConcat(tab, h, a, b[..n]);
    }
  }

  /** Characters other than the terminator only make the line longer. */
  lemma {:induction false} HearText(tab: seq<string>, h: Heard, s: string)
    requires !h.undefined && forall i :: 0 <= i < |s| ==> s[i] != '\r'
    ensures HearAll(tab, h, s) == h.(line := h.line + s)
    decreases |s|
  {
    if s == "" {
      assert h.line + s == h.line;
    } else {
      var n := |s| - 1;
      HearText(tab, h, s[..n]);
      assert h.line + s[..n] + [s[n]] == h.line + s;
    }
  }

  /** A line is text and a terminator. */
  predicate IsLine(s: string) {
    s != "" && s[|s| - 1] == '\r' && forall i :: 0 <= i < |s| - 1 ==> s[i] != '\r'
  }

  lemma HearLine(tab: seq<string>, calls: seq<Call>, s: string)
    requires IsLine(s) && HandleLine(tab, s) != Undefined
    ensures var r := HandleLine(tab, s);
            HearAll(tab, Heard(calls, "", false), s)
            == Heard(if r.Ignored? then calls else calls + [r.call], "", false)
  {
    var n := |s| - 1;
    HearText(tab, Heard(calls, "", false), s[..n]);
    assert "" + s[..n] + [s[n]] == s;
  }

  // ---------------------------------------------------------------------
  // Round trip
  // ---------------------------------------------------------------------

  /** Identifiers have three characters. */
  predicate TableOk(tab: seq<string>) {
    forall n :: 0 <= n < |tab| ==> |tab[n]| == 3 && '\r' !in tab[n]
  }

  lemma FrameIsLine(id: string, data: seq<byte>)
    requires |id| == 3 && '\r' !in id && |data| <= 8
    ensures IsLine(Frame(id, data)) && |Frame(id, data)| == 6 + 2 * |data|
  {
    var f, h := Frame(id, data), HexBytes(data);
    forall i | 0 <= i < |f| - 1
      ensures f[i] != '\r'
    {
      if i >= 5 {
        var k := (i - 5) / 2;
        assert f[i] == h[i - 5];
        if i - 5 == 2 * k {
          assert f[i] == h[2 * k] == HexChar(data[k] / 16);
        } else {
          assert f[i] == h[2 * k + 1] == HexChar(data[k] % 16);
        }
      } else if 1 <= i < 4 {
        assert f[i] == id[i - 1] && id[i - 1] in id;
      } else {
        assert f[0] == 't' && f[4] == HexChar(|data|);
      }
    }
  }

  /** A frame with a known identifier is handed to the first handler of that
      identifier with the same bytes, unless it has all eight of them. */
  lemma FrameIsHandled(tab: seq<string>, id: string, data: seq<byte>)
    requires |id| == 3 && '\r' !in id && id in tab && |data| <= 8
    ensures HandleLine(tab, Frame(id, data)) == if |data| <= 7 then Calls(Call(Entry(tab, id), data)) else Undefined
  {
    hide HexBytes, DataOf, IsLine, Entry, HexChar;
    var f, h := Frame(id, data), HexBytes(data);
    FrameIsLine(id, data);
    assert Kept(|f|) == |f| && f[0..] == f;
    assert f[1..4] == id && f[4] == HexChar(|data|);
    forall k | 0 <= k < |data|
      ensures DataOf(f, |data|)[k] == data[k]
    {
      assert f[5 + 2 * k] == h[2 * k] && f[6 + 2 * k] == h[2 * k + 1];
    }
    assert DataOf(f, |data|) == data;
    var i :| 0 <= i < |tab| && tab[i] == id;
  }

  const LOWER := "0123456789abcdef"
  const UPPER := "0123456789ABCDEF"

  /** The digit's value is its place among the sixteen, in either case. */
  lemma DigitValues(d: nat)
    requires d < 16
    ensures HexChar(d) == LOWER[d] && HexToDec(LOWER[d]) == d && HexToDec(UPPER[d]) == d
  {
  }

  /** `f` is `g` with some of its hexadecimal digits written as capitals. */
  predicate SameButCase(f: string, g: string) {
    |f| == |g| && forall k :: 0 <= k < |f| ==> f[k] == g[k] || (k >= 4 && CapitalOf(f[k], g[k]))
  }

  predicate CapitalOf(c: char, digit: char) {
    exists d :: 0 <= d < 16 && digit == LOWER[d] && c == UPPER[d]
  }

  lemma CapitalValue(c: char, digit: char)
    requires CapitalOf(c, digit)
    ensures HexToDec(c) == HexToDec(digit)
  {
    var d :| 0 <= d < 16 && digit == LOWER[d] && c == UPPER[d];
    DigitValues(d);
  }

  /** A frame written with capitals is handled in the same way. */
  lemma CapitalsAreHandled(tab: seq<string>, id: string, data: seq<byte>, f: string)
    requires |id| == 3 && '\r' !in id && id in tab && |data| <= 8 && SameButCase(f, Frame(id, data))
    ensures HandleLine(tab, f) == if |data| <= 7 then Calls(Call(Entry(tab, id), data)) else Undefined
  {
    hide Frame, HexToDec, CapitalOf, Entry;
    var g := Frame(id, data);
    FrameIsHandled(tab, id, data);
    FrameIsLine(id, data);
    forall k | 0 <= k < |f|
      ensures HexToDec(f[k]) == HexToDec(g[k])
    {
      if f[k] != g[k] {
        CapitalValue(f[k], g[k]);
      }
    }
    assert f[1..4] == g[1..4];
    hide SameButCase, IsLine, Handle, HandleLine, Kept;
    SameHandling(tab, f, g);
    ShortLine(tab, f);
    ShortLine(tab, g);
  }

  lemma ShortLine(tab: seq<string>, line: string)
    requires 0 < |line| <= MTU
    ensures HandleLine(tab, line) == Handle(tab, line)
  {
    assert Kept(|line|) == |line| && line[0..] == line;
  }

  lemma SameHandling(tab: seq<string>, f: string, g: string)
    requires |f| == |g| >= 6 && f[0] == g[0] && f[1..4] == g[1..4]
    requires forall k :: 0 <= k < |f| ==> HexToDec(f[k]) == HexToDec(g[k])
    ensures Handle(tab, f) == Handle(tab, g)
  {
    hide HexToDec, Entry;
    if |f| % 2 == 0 {
      var len: nat := (|f| - 6) / 2;
      assert DataOf(f, len) == DataOf(g, len);
    }
  }

  /** A stream is frames that send accepted, and lines of noise. */
  datatype Item = Sent(id: string, data: seq<byte>) | Noise(line: string)

  predicate Short(item: Item) {
    item.Sent? ==> |item.data| <= 8
  }

  predicate ItemOk(tab: seq<string>, item: Item): (ok: bool)
    ensures ok ==> Short(item)
  {
    match item
    case Sent(id, data) => |id| == 3 && '\r' !in id && id in tab && |data| <= 7
    case Noise(line) => IsLine(line) && HandleLine(tab, line) == Ignored
  }

  predicate ItemsOk(tab: seq<string>, items: seq<Item>): (ok: bool)
    ensures ok ==> forall i :: 0 <= i < |items| ==> Short(items[i])
  {
    forall i :: 0 <= i < |items| ==> ItemOk(tab, items[i])
  }

  function Text(item: Item): string
    requires Short(item)
  {
    if item.Sent? then Frame(item.id, item.data) else item.line
  }

  function Stream(items: seq<Item>): string
    requires forall i :: 0 <= i < |items| ==> Short(items[i])
  {
    if items == [] then "" else Stream(items[..|items| - 1]) + Text(items[|items| - 1])
  }

  function Expected(tab: seq<string>, items: seq<Item>): seq<Call> {
    if items == [] then []
    else
      var n := |items| - 1;
      Expected(tab, items[..n]) + (if items[n].Sent? then [Call(Entry(tab, items[n].id), items[n].data)] else [])
  }

  /** Whatever noise lies between them, each frame sent calls its handler once, in
      order, with the bytes that were sent. */
  lemma {:induction false} RoundTrip(tab: seq<string>, items: seq<Item>)
    requires ItemsOk(tab, items)
    ensures HearAll(tab, Heard([], "", false), Stream(items)) == Heard(Expected(tab, items), "", false)
    decreases |items|
  {
    if items != [] {
      var n := |items| - 1;
      var item := items[n];
      RoundTrip(tab, items[..n]);
      HearConcat(tab, Heard([], "", false), Stream(items[..n]), Text(item));
      if item.Sent? {
        FrameIsHandled(tab, item.id, item.data);
        FrameIsLine(item.id, item.data);
      }
      HearLine(tab, Expected(tab, items[..n]), Text(item));
      assert Expected(tab, items[..n]) + [] == Expected(tab, items[..n]);
    }
  }

  // ---------------------------------------------------------------------
  // The class
  // ---------------------------------------------------------------------

  class SLCan {
    const tab: seq<string>
    var rptr: nat
    const rxbuf: array<char>
    var tx: string
    var calls: seq<Call>
    ghost var line: string

    ghost predicate Valid()
      reads this, rxbuf
    {
      && rxbuf.Length == MTU && rptr <= MTU && rptr == Kept(|line|)
      && rxbuf[..rptr] == line[|line| - rptr..]
      && TableOk(tab)
    }

    constructor (tab: seq<string>)
      requires TableOk(tab)
      ensures Valid() && this.tab == tab && line == "" && calls == [] && tx == ""
    {
      this.tab := tab;
      rptr, tx, calls, line := 0, "", [], "";
      rxbuf := new char[MTU];
    }

    method WriteHex(buf: seq<byte>, len: nat)
      requires len <= |buf|
      modifies `tx
      ensures tx == old(tx) + HexBytes(buf[..len])
    {
      hide HexBytes, HexChar;
      var n := 0;
      HexNone();
      while n < len
        invariant 0 <= n <= len && tx == old(tx) + HexBytes(buf[..n])
      {
        HexNext(buf, n);
        tx := tx + [HexChar(buf[n] / 16), HexChar(buf[n] % 16)];
        n := n + 1;
      }
    }

    /** send: true on an error, and then nothing is written. */
    method Send(id: string, buf: seq<byte>, len: nat, availableForWrite: nat) returns (error: bool)
      requires len <= |buf|
      modifies `tx
      ensures error == (|id| != 3 || len > 8 || 6 + 2 * len > availableForWrite)
      ensures tx == old(tx) + if error then "" else Frame(id, buf[..len])
    {
      if |id| != 3 {
        return true;
      }
      if len > 8 {
        return true;
      }
      var ntx := 6 + 2 * len;
      if ntx > availableForWrite {
        return true;
      }
      tx := tx + "t";
      tx := tx + id;
      tx := tx + [HexChar(len)];
      WriteHex(buf, len);
      tx := tx + "\r";
      FrameParts(old(tx), id, [HexChar(len)], HexBytes(buf[..len]));
      error := false;
    }

    /** Data byte `k` of the message in the buffer. */
    function BufferByte(k: nat): byte
      requires rxbuf.Length == MTU && k <= 7
      reads rxbuf
    {
      ByteOf(rxbuf[5 + 2 * k], rxbuf[6 + 2 * k])
    }

    /** The first data bytes, one of them before it is known to be there. */
    method DecodeLow(d: array<byte>, len: nat)
      requires Valid() && len <= 7 && d.Length == 8
      modifies d
      ensures forall k :: 0 <= k < len && k < 4 ==> d[k] == BufferByte(k)
    {
      if len >= 1 {
        d[0] := BufferByte(0);
      }
      if len >= 2 {
        d[1] := BufferByte(1);
      }
      if len >= 2 {
        d[2] := BufferByte(2);
      }
      if len >= 3 {
        d[3] := BufferByte(3);
      }
    }

    method DecodeHigh(d: array<byte>, len: nat)
      requires Valid() && len <= 7 && d.Length == 8
      modifies d
      ensures forall k :: 4 <= k < len ==> d[k] == BufferByte(k)
      ensures d[..4] == old(d[..4])
    {
      if len >= 4 {
        d[4] := BufferByte(4);
      }
      if len >= 5 {
        d[5] := BufferByte(5);
      }
      if len >= 6 {
        d[6] := BufferByte(6);
      }
      if len >= 7 {
        d[7] := BufferByte(7);
      }
    }

    /** The bytes of a message that fits its length, as the source picks them. */
    method Decode(len: nat) returns (data: seq<byte>)
      requires Valid() && len <= 7 && rptr == 6 + 2 * len
      ensures data == DataOf(rxbuf[..rptr], len)
    {
      var d := new byte[8](_ => 0);
      DecodeLow(d, len);
      ghost var low := d[..4];
      DecodeHigh(d, len);
      assert forall k :: 0 <= k < 4 ==> d[k] == low[k];
      data := d[..len];
    }

    /** handle. */
    method HandleMessage() returns (undefined: bool)
      requires Valid()
      modifies `calls
      ensures var r := Handle(tab, rxbuf[..rptr]);
              undefined == r.Undefined? && calls == old(calls) + if r.Calls? then [r.call] else []
    {
      hide Entry;
      undefined := false;
      if rptr < 6 || rxbuf[0] != 't' {
        return;
      }
      ghost var id := rxbuf[..rptr][1..4];
      assert rxbuf[1..4] == id;
      var n := 0;
      while n < |tab|
        invariant 0 <= n <= Entry(tab, id)
      {
        if rxbuf[1..4] == tab[n] {
          var len := HexToDec(rxbuf[4]);
          if 2 * len != rptr - 6 {
            return;
          }
          if len >= 8 {
            return true;
          }
          var data := Decode(len);
          calls := calls + [Call(n, data)];
          return;
        }
        n := n + 1;
      }
    }

    /** A character into the buffer, which starts again when it is full. */
    method Store(bi: char)
      requires Valid()
      modifies `rptr, `line, rxbuf
      ensures Valid() && rptr > 0 && line == old(line) + [bi]
    {
      KeptNext(|line|);
      if rptr >= MTU {
        rptr := 0;
      }
      rxbuf[rptr] := bi;
      rptr := rptr + 1;
      line := line + [bi];
    }

    method Clear()
      requires Valid()
      modifies `rptr, `line, rxbuf
      ensures Valid() && rptr == 0 && line == ""
    {
      rptr := 0;
      line := "";
      forall i | 0 <= i < rxbuf.Length {
        rxbuf[i] := '\0';
      }
    }

    /** One character of input; false if the source's behaviour is undefined. */
    method InputChar(bi: char) returns (ok: bool)
      requires Valid()
      modifies `rptr, `calls, `line, rxbuf
      ensures rptr <= MTU && (ok ==> Valid())
      ensures var h := Hear(tab, Heard(old(calls), old(line), false), bi);
              ok == !h.undefined && calls == h.calls && (ok ==> line == h.line)
    {
      hide Handle;
      ok := true;
      Store(bi);
      if bi == '\r' {
        assert Handle(tab, rxbuf[..rptr]) == HandleLine(tab, line);
        var undefined := HandleMessage();
        if undefined {
          return false;
        }
        Clear();
      }
    }

    /** input, for the characters that are available. */
    method Input(s: string) returns (ok: bool)
      requires Valid()
      modifies `rptr, `calls, `line, rxbuf
      ensures rptr <= MTU && (ok ==> Valid())
      ensures var h := HearAll(tab, Heard(old(calls), old(line), false), s);
              ok == !h.undefined && (ok ==> calls == h.calls && line == h.line)
    {
      hide Hear;
      ghost var start := Heard(calls, line, false);
      var i := 0;
      while i < |s|
        invariant 0 <= i <= |s| && Valid()
        invariant HearAll(tab, start, s[..i]) == Heard(calls, line, false)
      {
        assert s[..i + 1][..i] == s[..i];
        ok := InputChar(s[i]);
        if !ok {
          StaysUndefined(tab, start, s, i + 1);
          return;
        }
        i := i + 1;
      }
      assert s[..|s|] == s;
      ok := true;
    }
  }

  lemma FrameParts(before: string, id: string, digit: string, hex: string)
    ensures before + "t" + id + digit + hex + "\r" == before + ("t" + id + digit + hex + "\r")
  {
  }

  lemma KeptNext(n: nat)
    ensures Kept(n + 1) == (if Kept(n) >= MTU then 0 else Kept(n)) + 1
  {
  }

  lemma {:induction false} StaysUndefined(tab: seq<string>, h: Heard, s: string, i: nat)
    requires i <= |s| && HearAll(tab, h, s[..i]).undefined
    ensures HearAll(tab, h, s).undefined
    decreases |s| - i
  {
    if i == |s| {
      assert s[..i] == s;
    } else {
      assert s[..i + 1][..i] == s[..i];
      StaysUndefined(tab, h, s, i + 1);
    }
  }
}
