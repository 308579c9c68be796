/** Tokens of a command: `strtokencmp`, `strtokenskip` and `token2tapstate`
    (svfload/libxsvf/svf.c). A command is passed on as the part of the buffer
    that is still to be read; the terminating NUL is the end of that part. */
module SvfText {
  import opened TapWalk

  /** The characters up to the first space. */
  function Token(p: string): string {
    if p == "" || p[0] == ' ' then "" else [p[0]] + Token(p[1..])
  }

  function SkipSpaces(p: string): (q: string)
    ensures |q| <= |p|
  {
    if p != "" && p[0] == ' ' then SkipSpaces(p[1..]) else p
  }

  /** What follows the first token and the spaces after it. */
  function SkipToken(p: string): (q: string)
    ensures |q| <= |p|
    ensures p != "" ==> |q| < |p|
  {
    if p == "" then p
    else if p[0] == ' ' then SkipSpaces(p[1..])
    else SkipToken(p[1..])
  }

  predicate IsDigit(c: char) {
    '0' <= c <= '9'
  }

  predicate StartsWithDigit(p: string) {
    p != "" && IsDigit(p[0])
  }

  /** The number of leading decimal digits. */
  function DigitCount(p: string): (n: nat)
    ensures n <= |p|
  {
    if StartsWithDigit(p) then 1 + DigitCount(p[1..]) else 0
  }

  /** `number * 10 + digit` over a digit string. */
  function Decimal(p: string, number: nat): nat
    decreases |p|
  {
    if StartsWithDigit(p) then Decimal(p[1..], number * 10 + (p[0] as int - '0' as int)) else number
  }

  /** token2tapstate: -1 for a token that names no state. */
  function TokenState(p: string): (s: int)
    ensures s == -1 || RESET <= s <= IRUPDATE
  {
    var t := Token(p);
    if t == "RESET" then RESET
    else if t == "IDLE" then IDLE
    else if t == "DRSELECT" then DRSELECT
    else if t == "DRCAPTURE" then DRCAPTURE
    else if t == "DRSHIFT" then DRSHIFT
    else if t == "DREXIT1" then DREXIT1
    else if t == "DRPAUSE" then DRPAUSE
    else if t == "DREXIT2" then DREXIT2
    else if t == "DRUPDATE" then DRUPDATE
    else if t == "IRSELECT" then IRSELECT
    else if t == "IRCAPTURE" then IRCAPTURE
    else if t == "IRSHIFT" then IRSHIFT
    else if t == "IREXIT1" then IREXIT1
    else if t == "IRPAUSE" then IRPAUSE
    else if t == "IREXIT2" then IREXIT2
    else if t == "IRUPDATE" then IRUPDATE
    else -1
  }

  // ---------------------------------------------------------------------
  // The loops
  // ---------------------------------------------------------------------

  lemma {:induction false} TokenPrefix(p: string, i: nat)
    requires i <= |p| && forall k :: 0 <= k < i ==> p[k] != ' '
    ensures Token(p) == p[..i] + Token(p[i..])
    ensures SkipToken(p) == SkipToken(p[i..])
    decreases i
  {
    if i > 0 {
      TokenPrefix(p[1..], i - 1);
      assert p[1..][i - 1..] == p[i..];
      assert p[..i] == [p[0]] + p[1..][..i - 1];
    } else {
      assert p[0..] == p;
    }
  }

  predicate AtEnd(p: string, i: nat) {
    i >= |p| || p[i] == ' '
  }

  lemma TokenEnds(p: string, i: nat)
    requires i <= |p| && AtEnd(p, i) && forall k :: 0 <= k < i ==> p[k] != ' '
    ensures Token(p) == p[..i]
  {
    TokenPrefix(p, i);
    assert Token(p[i..]) == "";
    assert p[..i] + "" == p[..i];
  }

  /** A word, a space and a rest are taken apart again. */
  lemma TokenSplit(w: string, rest: string)
    requires forall k :: 0 <= k < |w| ==> w[k] != ' '
    requires rest == "" || rest[0] != ' '
    ensures Token(w + " " + rest) == w && SkipToken(w + " " + rest) == rest
    ensures Token(w) == w && SkipToken(w) == ""
  {
    var p := w + " " + rest;
    var i := |w|;
    TokenEnds(p, i);
    TokenPrefix(p, i);
    assert p[..i] == w && p[i..] == " " + rest && p[i..][1..] == rest;
    TokenEnds(w, i);
    TokenPrefix(w, i);
    assert w[..i] == w && w[i..] == "";
  }

  /** strtokencmp: zero exactly when the first tokens are equal. The terminating
      NUL compares below every other character. */
  method StrTokenCmp(p: string, q: string) returns (r: int)
    ensures r == 0 <==> Token(p) == Token(q)
  {
    hide SkipToken, Token;
    var i: nat := 0;
    while true
      invariant i <= |p| && i <= |q|
      invariant p[..i] == q[..i] && forall k :: 0 <= k < i ==> p[k] != ' '
      decreases |p| - i
    {
      TokenPrefix(p, i);
      TokenPrefix(q, i);
      if (i == |p| || p[i] == ' ') && (i == |q| || q[i] == ' ') {
        TokenEnds(p, i);
        TokenEnds(q, i);
        return 0;
      }
      if i == |p| || (i < |q| && p[i] < q[i]) {
        Differ(p, q, i);
        return -1;
      }
      if i == |q| || p[i] > q[i] {
        Differ(p, q, i);
        return 1;
      }
      i := i + 1;
    }
  }

  lemma Differ(p: string, q: string, i: nat)
    requires i <= |p| && i <= |q| && p[..i] == q[..i]
    requires forall k :: 0 <= k < i ==> p[k] != ' '
    requires !(AtEnd(p, i) && AtEnd(q, i))
    requires i == |p| || i == |q| || p[i] != q[i]
    ensures Token(p) != Token(q)
  {
    assert forall k :: 0 <= k < i ==> q[k] == q[..i][k];
    TokenPrefix(p, i);
    TokenPrefix(q, i);
    FirstOfToken(p[i..]);
    FirstOfToken(q[i..]);
    if Token(p) == Token(q) {
      Cancel(p[..i], Token(p[i..]), Token(q[i..]));
    }
  }

  lemma FirstOfToken(p: string)
    ensures Token(p) == "" <==> AtEnd(p, 0)
    ensures Token(p) != "" ==> Token(p)[0] == p[0]
  {
  }

  lemma Cancel(x: string, a: string, b: string)
    requires x + a == x + b
    ensures a == b
  {
    assert a == (x + a)[|x|..];
    assert b == (x + b)[|x|..];
  }

  /** strtokenskip: how far the next token starts from here. */
  method StrTokenSkip(p: string) returns (i: nat)
    ensures i <= |p| && p[i..] == SkipToken(p)
  {
    i := 0;
    while i < |p| && p[i] != ' '
      invariant i <= |p| && forall k :: 0 <= k < i ==> p[k] != ' '
    {
      i := i + 1;
    }
    TokenPrefix(p, i);
    ghost var j := i;
    while i < |p| && p[i] == ' '
      invariant j <= i <= |p|
      invariant SkipSpaces(p[j..]) == SkipSpaces(p[i..])
    {
      assert p[i..][1..] == p[i + 1..];
      i := i + 1;
    }
    assert SkipToken(p[j..]) == SkipSpaces(p[j..]);
  }

  method EatSpaces(p: string) returns (q: string)
    ensures q == SkipSpaces(p)
  {
    var i := 0;
    while i < |p| && p[i] == ' '
      invariant 0 <= i <= |p|
      invariant SkipSpaces(p) == SkipSpaces(p[i..])
    {
      assert p[i..][1..] == p[i + 1..];
      i := i + 1;
    }
    q := p[i..];
  }

  /** The `number*10 + digit` loop. */
  method EatNumber(p: string) returns (number: nat, q: string)
    ensures number == Decimal(p, 0) && q == p[DigitCount(p)..]
  {
    var i := 0;
    number := 0;
    while i < |p| && '0' <= p[i] <= '9'
      invariant 0 <= i <= |p|
      invariant Decimal(p[i..], number) == Decimal(p, 0)
      invariant DigitCount(p) == i + DigitCount(p[i..])
    {
      assert p[i..][1..] == p[i + 1..];
      number := number * 10 + (p[i] as int - '0' as int);
      i := i + 1;
    }
    q := p[i..];
  }
}
