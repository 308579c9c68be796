/** `IOFtdi::tx_tms` (papilio-prog/ioftdi.cpp): TMS bits packed seven to an MPSSE
    command, with TDI held high. */
module TxTms {
  import opened Bits
  import opened HostApi
  import opened Mpsse

  /** Write to TMS, least significant bit first, bit mode, no read. */
  const WRITE_TMS := 0x4b

  /** The TCK cycles of a string of such commands (FTDI AN_108, section 3.5). */
  function TmsCycles(code: seq<byte>): Option<seq<Wire>> {
    if code == [] then Some([])
    else if |code| < 3 || code[0] != WRITE_TMS || code[1] > 6 then None
    else
      var rest := TmsCycles(code[3..]);
      if rest.None? then None
      else Some(TmsWires(Bit(code[2], 7), code[2], code[1] + 1) + rest.value)
  }

  lemma FirstCycles(code: seq<byte>, more: seq<byte>) returns (ws: seq<Wire>)
    requires code != [] && TmsCycles(code).Some?
    ensures |code| >= 3 && TmsCycles(code[3..]).Some? && TmsCycles(code).value == ws + TmsCycles(code[3..]).value
    ensures TmsCycles(code[3..] + more).Some? ==>
              TmsCycles(code + more) == Some(ws + TmsCycles(code[3..] + more).value)
  {
    hide Bit, TmsWires;
    ws := TmsWires(Bit(code[2], 7), code[2], code[1] + 1);
    assert (code + more)[3..] == code[3..] + more;
  }

  lemma JoinCycles(a: seq<Wire>, b: seq<Wire>, c: seq<Wire>)
    ensures a + (b + c) == a + b + c
  {
  }

  lemma {:induction false} TmsCyclesConcat(a: seq<byte>, b: seq<byte>)
    requires TmsCycles(a).Some? && TmsCycles(b).Some?
    ensures TmsCycles(a + b) == Some(TmsCycles(a).value + TmsCycles(b).value)
    decreases |a|
  {
    if a == [] {
      assert a + b == b && [] + TmsCycles(b).value == TmsCycles(b).value;
    } else {
      hide TmsCycles;
      var ws := FirstCycles(a, b);
      TmsCyclesConcat(a[3..], b);
      JoinCycles(ws, TmsCycles(a[3..]).value, TmsCycles(b).value);
    }
  }

  /** Bit `i` of a bit string that starts at bit 0 of byte 0. */
  predicate PatBit(pat: seq<byte>, i: nat)
    requires i < 8 * |pat|
  {
    Bit(pat[i / 8], i % 8)
  }

  /** Cycles with the first bits of `pat` on TMS and TDI high. */
  function HighTdi(bits: seq<bool>): (r: seq<Wire>)
    ensures |r| == |bits|
    ensures forall i :: 0 <= i < |bits| ==> r[i] == Wire(bits[i], true)
  {
    seq(|bits|, i requires 0 <= i < |bits| => Wire(bits[i], true))
  }

  function PatBits(pat: seq<byte>, n: nat): (r: seq<bool>)
    requires n <= 8 * |pat|
    ensures |r| == n
    ensures forall i :: 0 <= i < n ==> r[i] == PatBit(pat, i)
  {
    seq(n, i requires 0 <= i < n => PatBit(pat, i))
  }

  /** One data byte: `n` bits from bit `j` on, and bit 7 for TDI. */
  method PackBits(pat: array<byte>, j: nat, n: nat) returns (b: byte)
    requires n <= 7 && j + n <= 8 * pat.Length
    ensures Bit(b, 7)
    ensures forall i :: 0 <= i < n ==> Bit(b, i) == PatBit(pat[..], j + i)
  {
    b := 0x80;
    HighBit();
    var i := 0;
    while i < n
      invariant 0 <= i <= n
      invariant Bit(b, 7)
      invariant forall k :: 0 <= k < i ==> Bit(b, k) == PatBit(pat[..], j + k)
      invariant forall k: nat :: i <= k < 7 ==> !Bit(b, k)
    {
      var v := Bit(pat[(j + i) / 8], (j + i) % 8);
      OrBitByte(b, i, v);
      b := OrBit(b, i, v);
      i := i + 1;
    }
  }

  lemma HighBit()
    ensures Bit(0x80, 7) && forall k: nat :: k < 7 ==> !Bit(0x80, k)
  {
    forall k: nat | k <= 7
      ensures Bit(0x80, k) == (k == 7)
    {
      TopBit(0, true, 7, k);
      ZeroBit(k);
    }
  }

  /** The commands clock exactly the first `length` bits of the pattern, in
      order, TDI high in every cycle, whatever the length. */
  method Send(pat: array<byte>, length: nat) returns (code: seq<byte>)
    requires length <= 8 * pat.Length
    ensures TmsCycles(code) == Some(HighTdi(PatBits(pat[..], length)))
  {
    code := [];
    var len: int, j: nat := length, 0;
    while len > 0
      invariant j <= length && if len > 0 then len == length - j else j == length
      invariant TmsCycles(code) == Some(HighTdi(PatBits(pat[..], j)))
    {
      var n: nat := if len > 7 then 7 else len;
      var b := PackBits(pat, j, n);
      var command: seq<byte> := [WRITE_TMS, n - 1, b];
      OneCommand(pat[..], j, n, b, command);
      TmsCyclesConcat(code, command);
      code := code + command;
      j := j + n;
      len := len - 7;
    }
  }

  lemma OneCommand(pat: seq<byte>, j: nat, n: nat, b: byte, command: seq<byte>)
    requires 0 < n <= 7 && j + n <= 8 * |pat| && command == [WRITE_TMS, n - 1, b]
    requires Bit(b, 7) && forall i :: 0 <= i < n ==> Bit(b, i) == PatBit(pat, j + i)
    ensures TmsCycles(command).Some?
    ensures HighTdi(PatBits(pat, j)) + TmsCycles(command).value == HighTdi(PatBits(pat, j + n))
  {
    assert command[3..] == [];
    var ws := TmsWires(true, b, n);
    assert TmsCycles(command) == Some(ws + []);
    assert ws + [] == ws;
    forall i | 0 <= i < n
      ensures ws[i] == Wire(PatBit(pat, j + i), true)
    {
    }
  }
}
