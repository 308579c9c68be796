/** Writing SVF arguments and reading them back (svfload/libxsvf/svf.c:119-140,
    172-286 and 375-621). */
module SvfSyntax {
  import opened Arithmetic
  import opened HostApi
  import opened SvfBitdata
  import opened SvfScript
  import opened SvfText
  import opened TapController
  import opened TapWalk

  // ---------------------------------------------------------------------
  // State names
  // ---------------------------------------------------------------------

  /** The word for a controller state. */
  function NameOf(s: Tap): string {
    match s
    case Reset => "RESET"
    case Idle => "IDLE"
    case DrSelect => "DRSELECT"
    case DrCapture => "DRCAPTURE"
    case DrShift => "DRSHIFT"
    case DrExit1 => "DREXIT1"
    case DrPause => "DRPAUSE"
    case DrExit2 => "DREXIT2"
    case DrUpdate => "DRUPDATE"
    case IrSelect => "IRSELECT"
    case IrCapture => "IRCAPTURE"
    case IrShift => "IRSHIFT"
    case IrExit1 => "IREXIT1"
    case IrPause => "IRPAUSE"
    case IrExit2 => "IREXIT2"
    case IrUpdate => "IRUPDATE"
  }

  lemma NamesAreWords(s: Tap)
    ensures NameOf(s) != "" && ' ' !in NameOf(s) && NameOf(s)[0] in "RID"
  {
  }

  /** Length and three letters tell the names apart. */
  lemma NamesDiffer(s: Tap, u: Tap)
    requires NameOf(s) == NameOf(u)
    ensures s == u
  {
    var a, b := NameOf(s), NameOf(u);
    assert |a| == |b| && a[0] == b[0] && a[2] == b[2] && a[|a| - 1] == b[|b| - 1];
  }

  /** The state that a word names. */
  ghost predicate Names(w: string, s: Option<Tap>) {
    if s.Some? then w == NameOf(s.value) else forall u: Tap :: w != NameOf(u)
  }

  /** A word is read as the state that it names, and as none if it names none. */
  lemma StateNamed(p: string) returns (s: Option<Tap>)
    ensures Names(Token(p), s) && TokenState(p) == if s.Some? then Code(s.value) else -1
  {
    hide Token;
    var t := Token(p);
    s := None;
    if t == NameOf(Reset) {
      s := Some(Reset);
    } else if t == NameOf(Idle) {
      s := Some(Idle);
    } else if t == NameOf(DrSelect) {
      s := Some(DrSelect);
    } else if t == NameOf(DrCapture) {
      s := Some(DrCapture);
    } else if t == NameOf(DrShift) {
      s := Some(DrShift);
    } else if t == NameOf(DrExit1) {
      s := Some(DrExit1);
    } else if t == NameOf(DrPause) {
      s := Some(DrPause);
    } else if t == NameOf(DrExit2) {
      s := Some(DrExit2);
    } else if t == NameOf(DrUpdate) {
      s := Some(DrUpdate);
    } else if t == NameOf(IrSelect) {
      s := Some(IrSelect);
    } else if t == NameOf(IrCapture) {
      s := Some(IrCapture);
    } else if t == NameOf(IrShift) {
      s := Some(IrShift);
    } else if t == NameOf(IrExit1) {
      s := Some(IrExit1);
    } else if t == NameOf(IrPause) {
      s := Some(IrPause);
    } else if t == NameOf(IrExit2) {
      s := Some(IrExit2);
    } else if t == NameOf(IrUpdate) {
      s := Some(IrUpdate);
    }
    if s.None? {
      forall u: Tap
        ensures t != NameOf(u)
      {
      }
    }
  }

  lemma StateRead(p: string, s: Tap)
    requires Token(p) == NameOf(s)
    ensures TokenState(p) == Code(s)
  {
    hide Token, TokenState, NameOf, Code;
    var u := StateNamed(p);
    if u.Some? {
      NamesDiffer(s, u.value);
    }
  }

  // ---------------------------------------------------------------------
  // Numbers
  // ---------------------------------------------------------------------

  ghost predicate IsDecimal(ds: string) {
    ds != "" && forall k :: 0 <= k < |ds| ==> IsDigit(ds[k])
  }

  /** The number that decimal digits denote. */
  function DecValue(ds: string): nat
    requires forall k :: 0 <= k < |ds| ==> IsDigit(ds[k])
  {
    if ds == "" then 0
    else
      var n := |ds| - 1;
      assert IsDigit(ds[n]);
      10 * DecValue(ds[..n]) + (ds[n] as int - '0' as int)
  }

  /** Digits, after `done` has been read, up to something else. */
  lemma {:induction false} DigitsFrom(done: string, ds: string, rest: string)
    requires forall k :: 0 <= k < |done| ==> IsDigit(done[k])
    requires forall k :: 0 <= k < |ds| ==> IsDigit(ds[k])
    requires !StartsWithDigit(rest)
    ensures DigitCount(ds + rest) == |ds|
    ensures Decimal(ds + rest, DecValue(done)) == DecValue(done + ds)
    decreases |ds|
  {
    if ds == "" {
      assert ds + rest == rest && done + ds == done;
    } else {
      var now := done + [ds[0]];
      assert now[..|now| - 1] == done && now + ds[1..] == done + ds && (ds + rest)[1..] == ds[1..] + rest;
      DigitsFrom(now, ds[1..], rest);
    }
  }

  lemma DigitsRead(ds: string, rest: string)
    requires forall k :: 0 <= k < |ds| ==> IsDigit(ds[k])
    requires !StartsWithDigit(rest)
    ensures DigitCount(ds + rest) == |ds| && (ds + rest)[|ds|..] == rest
    ensures Decimal(ds + rest, 0) == DecValue(ds)
  {
    DigitsFrom("", ds, rest);
    assert "" + ds == ds;
  }

  function Power10(n: nat): (p: nat)
    ensures p > 0
  {
    if n == 0 then 1 else 10 * Power10(n - 1)
  }

  /** `n` times ten to the `e`, without the digits behind the point. */
  function Scaled(n: nat, e: int): nat {
    var p := Power10(if e >= 0 then e else -e);
    NotNegative(n, p);
    if e >= 0 then n * p else n / p
  }

  lemma NotNegative(n: nat, p: nat)
    requires p > 0
    ensures n * p >= 0 && n / p >= 0
  {
  }

  lemma TenMore(n: nat, p: nat)
    ensures n * (10 * p) == 10 * (n * p) == (n * 10) * p
  {
  }

  lemma Divided(n: nat, d: nat) returns (q: nat, r: nat)
    requires d > 0
    ensures q == n / d && r < d && n == q * d + r
  {
    q, r := n / d, n % d;
  }

  lemma DivTenMore(n: nat, p: nat)
    requires p > 0
    ensures n / (10 * p) == n / 10 / p
  {
    var q, r := Divided(n, 10);
    var s, t := Divided(q, p);
    TenMore(s, p);
    DivUnique(s, 10 * p, 10 * t + r);
  }

  /** The loops that multiply and divide by ten. */
  lemma {:induction false} ScaleIs(n: nat, e: int)
    ensures Scale(n, e) == Scaled(n, e)
    decreases if e < 0 then -e else e
  {
    if e < 0 {
      ScaleIs(n / 10, e + 1);
      var p := Power10(-e - 1);
      DivTenMore(n, p);
    } else if e > 0 {
      ScaleIs(n * 10, e - 1);
      TenMore(n, Power10(e - 1));
    }
  }

  /** A number as RUNTEST and FREQUENCY take it. */
  datatype Num = Plain(ds: string) | Up(ds: string, es: string) | Down(ds: string, es: string)

  ghost predicate NumOk(n: Num) {
    IsDecimal(n.ds) && (!n.Plain? ==> IsDecimal(n.es))
  }

  function NumText(n: Num): string {
    match n
    case Plain(ds) => ds
    case Up(ds, es) => ds + "E" + es
    case Down(ds, es) => ds + "E-" + es
  }

  /** What it denotes, in units of ten to the minus `unit`, rounded down. */
  ghost function NumValue(n: Num, unit: nat): nat
    requires NumOk(n)
  {
    match n
    case Plain(ds) => Scaled(DecValue(ds), unit)
    case Up(ds, es) => Scaled(DecValue(ds), DecValue(es) + unit)
    case Down(ds, es) => Scaled(DecValue(ds), unit - DecValue(es))
  }

  lemma Million()
    ensures Power10(6) == 1000000 && Power10(0) == 1
  {
    assert Power10(3) == 1000;
  }

  lemma PlainRead(ds: string, rest: string)
    requires IsDecimal(ds) && rest != "" && rest[0] == ' '
    ensures ReadTime(ds + rest) == (Scaled(DecValue(ds), 0), Scaled(DecValue(ds), 6), rest)
  {
    hide Scaled, Scale, DecValue, Decimal, DigitCount;
    DigitsRead(ds, rest);
    PlainValue(DecValue(ds));
  }

  /** A number with an exponent, taken apart. */
  lemma ExponentRead(p: string, q: string, t: string, n: nat, size: nat, negative: bool, rest: string)
    requires StartsWithDigit(p) && Decimal(p, 0) == n && p[DigitCount(p)..] == q && StartsExponent(q)
    requires negative == StartsWith(q[1..], '-') && t == (if negative then q[2..] else q[1..])
    requires Decimal(t, 0) == size && t[DigitCount(t)..] == rest
    ensures var e: int := if negative then 0 - size else size;
            ReadTime(p) == (Scaled(n, e), Scaled(n, e + 6), rest)
  {
    hide Scaled, Scale, Decimal, DigitCount;
    var e: int := if negative then 0 - size else size;
    ScaleIs(n, e);
    ScaleIs(n, e + 6);
  }

  lemma UpParts(es: string, rest: string)
    requires IsDecimal(es)
    ensures var q := "E" + es + rest;
            StartsExponent(q) && q[1..] == es + rest && !StartsWith(q[1..], '-') && q[0] == 'E'
  {
    var q := "E" + es + rest;
    assert q[1..] == es + rest && q[1] == es[0] && IsDigit(es[0]);
  }

  lemma UpRead(ds: string, es: string, rest: string)
    requires IsDecimal(ds) && IsDecimal(es) && rest != "" && rest[0] == ' '
    ensures ReadTime(ds + ("E" + es + rest))
            == (Scaled(DecValue(ds), DecValue(es)), Scaled(DecValue(ds), DecValue(es) + 6), rest)
  {
    var q := "E" + es + rest;
    UpParts(es, rest);
    DigitsRead(ds, q);
    DigitsRead(es, rest);
    hide Scaled, DecValue, Decimal, DigitCount, IsDecimal, StartsExponent, StartsWith, ReadTime;
    ExponentRead(ds + q, q, es + rest, DecValue(ds), DecValue(es), false, rest);
  }

  lemma DownParts(es: string, rest: string)
    ensures var q := "E-" + es + rest;
            StartsExponent(q) && q[2..] == es + rest && StartsWith(q[1..], '-') && q[0] == 'E'
  {
    var q := "E-" + es + rest;
    assert q[1..] == "-" + es + rest && q[2..] == es + rest;
  }

  lemma DownRead(ds: string, es: string, rest: string)
    requires IsDecimal(ds) && IsDecimal(es) && rest != "" && rest[0] == ' '
    ensures ReadTime(ds + ("E-" + es + rest))
            == (Scaled(DecValue(ds), 0 - DecValue(es)), Scaled(DecValue(ds), 6 - DecValue(es)), rest)
  {
    var q := "E-" + es + rest;
    DownParts(es, rest);
    DigitsRead(ds, q);
    DigitsRead(es, rest);
    hide Scaled, DecValue, Decimal, DigitCount, IsDecimal, StartsExponent, StartsWith, ReadTime;
    ExponentRead(ds + q, q, es + rest, DecValue(ds), DecValue(es), true, rest);
  }

  /** A number is read with its value and its value in millionths. */
  lemma TimeRead(n: Num, rest: string)
    requires NumOk(n) && rest != "" && rest[0] == ' '
    ensures StartsWithDigit(NumText(n) + rest)
    ensures ReadTime(NumText(n) + rest) == (NumValue(n, 0), NumValue(n, 6), rest)
  {
    hide Scaled, DecValue, ReadTime;
    match n
    case Plain(ds) => PlainRead(ds, rest);
    case Up(ds, es) =>
      UpRead(ds, es, rest);
      assert ds + "E" + es + rest == ds + ("E" + es + rest);
    case Down(ds, es) =>
      DownRead(ds, es, rest);
      assert ds + "E-" + es + rest == ds + ("E-" + es + rest);
  }

  lemma PlainValue(v: nat)
    ensures Scaled(v, 0) == v && Scaled(v, 6) == v * 1000000
  {
    Million();
  }

  // ---------------------------------------------------------------------
  // Bit vectors
  // ---------------------------------------------------------------------

  function Keyword(f: Field): string {
    match f
    case Tdi => "TDI"
    case Tdo => "TDO"
    case Smask => "SMASK"
    case Mask => "MASK"
    case Rmask => "RMASK"
  }

  /** One parameter and its hexadecimal literal. */
  datatype Parameter = Parameter(field: Field, digits: string)

  function ParametersText(ps: seq<Parameter>): string {
    if ps == [] then ""
    else Keyword(ps[0].field) + " " + ("(" + ps[0].digits + ") " + ParametersText(ps[1..]))
  }

  function EntriesOf(ps: seq<Parameter>): (es: seq<Entry>)
    ensures |es| == |ps|
    ensures forall i :: 0 <= i < |ps| ==> es[i] == Entry(ps[i].field, ps[i].field == Tdo, ps[i].digits)
  {
    seq(|ps|, i requires 0 <= i < |ps| => Entry(ps[i].field, ps[i].field == Tdo, ps[i].digits))
  }

  ghost predicate ParametersFit(ps: seq<Parameter>, bytes: nat) {
    forall i :: 0 <= i < |ps| ==> IsLiteral(ps[i].digits) && |ps[i].digits| <= 2 * bytes
  }

  lemma KeywordsDiffer(f: Field, g: Field)
    requires Keyword(f) == Keyword(g)
    ensures f == g
  {
    var a, b := Keyword(f), Keyword(g);
    assert |a| == |b| && a[0] == b[0] && a[2] == b[2];
  }

  lemma KeywordIsWord(f: Field)
    ensures Keyword(f) != "" && forall k :: 0 <= k < |Keyword(f)| ==> Keyword(f)[k] != ' '
    ensures Keyword(f)[0] in "TSMR"
  {
  }

  /** The test for one keyword, where `p` starts with another word or a literal. */
  lemma NotKeyword(p: string, f: Field)
    requires p != "" && p[0] == '('
    ensures After1(Keyword(f), p) == p && Token(p) != Keyword(f)
  {
    KeywordIsWord(f);
    assert Token(p)[0] == p[0];
  }

  lemma KeywordTested(f: Field, g: Field, rest: string)
    requires rest != "" && rest[0] == '('
    ensures var p := Keyword(f) + " " + rest;
            && (Token(p) == Keyword(g) <==> f == g)
            && After1(Keyword(g), p) == if f == g then rest else p
  {
    KeywordIsWord(f);
    TokenSplit(Keyword(f), rest);
    hide Keyword, Token, SkipToken;
    if Keyword(f) == Keyword(g) {
      KeywordsDiffer(f, g);
    }
  }

  lemma KeywordRead(f: Field, rest: string)
    requires rest != "" && rest[0] == '('
    ensures ReadKeywords(Keyword(f) + " " + rest) == Keywords(Some(f), f == Tdo, rest)
  {
    hide After1, Token;
    forall g: Field
      ensures var p := Keyword(f) + " " + rest;
              && (Token(p) == Keyword(g) <==> f == g)
              && After1(Keyword(g), p) == (if f == g then rest else p)
              && After1(Keyword(g), rest) == rest && Token(rest) != Keyword(g)
    {
      KeywordTested(f, g, rest);
      NotKeyword(rest, g);
    }
    assert Keyword(Tdi) == "TDI" && Keyword(Tdo) == "TDO" && Keyword(Smask) == "SMASK";
    assert Keyword(Mask) == "MASK" && Keyword(Rmask) == "RMASK";
  }

  lemma {:induction false} HexRead(ds: string, rest: string)
    requires IsLiteral(ds) && (rest == "" || !IsHex(rest[0]))
    ensures HexCount(ds + rest) == |ds|
    decreases |ds|
  {
    if ds == "" {
      assert ds + rest == rest;
    } else {
      assert (ds + rest)[1..] == ds[1..] + rest;
      HexRead(ds[1..], rest);
    }
  }

  lemma ParametersStart(ps: seq<Parameter>)
    ensures ParametersText(ps) == "" || ParametersText(ps)[0] != ' '
  {
    if ps != [] {
      KeywordIsWord(ps[0].field);
    }
  }

  lemma ParameterRead(x: Parameter, rest: string, bytes: nat)
    requires IsLiteral(x.digits) && |x.digits| <= 2 * bytes && (rest == "" || rest[0] != ' ')
    ensures ParseEntry(Keyword(x.field) + " " + ("(" + x.digits + ") " + rest), bytes)
            == OneEntry(Entry(x.field, x.field == Tdo, x.digits), rest)
  {
    hide Keyword, ReadKeywords, HexCount, IsLiteral, SkipSpaces;
    var ds, lit := x.digits, "(" + x.digits + ") " + rest;
    KeywordRead(x.field, lit);
    LiteralParts(ds, rest);
    HexRead(ds, ") " + rest);
    OneSpace(rest);
  }

  lemma LiteralParts(ds: string, rest: string)
    ensures var q := ds + (") " + rest);
            && ("(" + ds + ") " + rest)[1..] == q
            && q[..|ds|] == ds && q[|ds|..] == ") " + rest && q[|ds| + 1..] == " " + rest
  {
  }

  lemma OneSpace(rest: string)
    requires rest == "" || rest[0] != ' '
    ensures SkipSpaces(" " + rest) == rest
  {
    assert (" " + rest)[1..] == rest;
  }

  lemma EntriesCons(ps: seq<Parameter>)
    requires ps != []
    ensures EntriesOf(ps) == [Entry(ps[0].field, ps[0].field == Tdo, ps[0].digits)] + EntriesOf(ps[1..])
  {
  }

  lemma OneParameter(p: string, bytes: nat, e: Entry, rest: string)
    requires p != "" && ParseEntry(p, bytes) == OneEntry(e, rest)
    ensures ParseEntries(p, bytes) == Prepend([e], ParseEntries(rest, bytes))
  {
    hide ParseEntry;
  }

  lemma {:induction false} ParametersRead(ps: seq<Parameter>, bytes: nat)
    requires ParametersFit(ps, bytes)
    ensures ParseEntries(ParametersText(ps), bytes) == Entries(EntriesOf(ps))
    decreases |ps|
  {
    if ps == [] {
      assert EntriesOf(ps) == [];
    } else {
      hide ParseEntry, ParseEntries, Keyword, EntriesOf;
      var x, more := ps[0], ParametersText(ps[1..]);
      var p := Keyword(x.field) + " " + ("(" + x.digits + ") " + more);
      assert ParametersText(ps) == p;
      hide ParametersText;
      ParametersStart(ps[1..]);
      ParameterRead(x, more, bytes);
      OneParameter(p, bytes, Entry(x.field, x.field == Tdo, x.digits), more);
      ParametersRead(ps[1..], bytes);
      EntriesCons(ps);
    }
  }

  /** A length and parameters, written out, are read back as they are. */
  lemma BitsRead(ds: string, ps: seq<Parameter>)
    requires IsDecimal(ds) && ParametersFit(ps, Bytes(DecValue(ds)))
    ensures ParseBits(ds + " " + ParametersText(ps)) == Parsed(BitCommand(DecValue(ds), EntriesOf(ps)))
  {
    hide ParametersText, ParseEntries, DecValue;
    var text := ParametersText(ps);
    assert ds + " " + text == ds + (" " + text);
    DigitsRead(ds, " " + text);
    ParametersStart(ps);
    assert (" " + text)[1..] == text && SkipSpaces(" " + text) == text;
    ParametersRead(ps, Bytes(DecValue(ds)));
  }
}
