/** Reading one SVF command: `read_command` (svfload/libxsvf/svf.c). */
module SvfLexer {

  datatype LexResult =
    | LexEof
    | LexError
    | LexCommand(command: string, next: nat)

  predicate EndsWith(buf: string, c: char) {
    |buf| > 0 && buf[|buf| - 1] == c
  }

  /** A separating space, unless inside parentheses, leading or doubled. */
  function AddSpace(buf: string, depth: int): string {
    if depth == 0 && buf != "" && !EndsWith(buf, ' ') then buf + " " else buf
  }

  function Upper(ch: char): char {
    if 'a' <= ch <= 'z' then (ch as int - ('a' as int - 'A' as int)) as char else ch
  }

  function DepthAfter(ch: char, depth: int): int {
    if ch == '(' then depth + 1 else if ch == ')' then depth - 1 else depth
  }

  /** The buffer after an ordinary character. */
  function Push(buf: string, depth: int, ch: char): string {
    var spaced := if ch == '(' then AddSpace(buf, depth) else buf;
    var pushed := spaced + [Upper(ch)];
    if ch == ')' && depth - 1 == 0 then pushed + " " else pushed
  }

  /** The position after the control character that ends a comment, or past
      the end of the input. */
  function SkipComment(input: string, i: nat): (j: nat)
    ensures j > i
    decreases |input| - i
  {
    if i >= |input| then i + 1
    else if input[i] < ' ' && input[i] != '\t' then i + 1
    else SkipComment(input, i + 1)
  }

  function AtEof(buf: string): LexResult {
    if buf == "" then LexEof else LexError
  }

  predicate StartsComment(buf: string, ch: char) {
    ch == '!' || (ch == '/' && EndsWith(buf, '/'))
  }

  /** `//` has already put its first slash into the buffer. */
  function CommentBuffer(buf: string, ch: char): string
    requires StartsComment(buf, ch)
  {
    if ch == '!' then buf else buf[..|buf| - 1]
  }

  /** The next command of `input` from position `i`, with `buf` already read
      and `depth` parentheses open. */
  function Lex(input: string, i: nat, buf: string, depth: int): LexResult
    decreases |input| - i
  {
    if i >= |input| then AtEof(buf)
    else
      var ch := input[i];
      if ch <= ' ' then Lex(input, i + 1, AddSpace(buf, depth), depth)
      else if StartsComment(buf, ch) then
        var kept := CommentBuffer(buf, ch);
        var j := SkipComment(input, i + 1);
        if j > |input| then AtEof(kept) else Lex(input, j, AddSpace(kept, depth), depth)
      else if ch == ';' then LexCommand(buf, i + 1)
      else Lex(input, i + 1, Push(buf, depth, ch), DepthAfter(ch, depth))
  }

  lemma {:induction false} LexProgress(input: string, i: nat, buf: string, depth: int)
    ensures var r := Lex(input, i, buf, depth); r.LexCommand? ==> i < r.next <= |input|
    decreases |input| - i
  {
    if i < |input| {
      var ch := input[i];
      if ch <= ' ' {
        LexProgress(input, i + 1, AddSpace(buf, depth), depth);
      } else if StartsComment(buf, ch) {
        var j := SkipComment(input, i + 1);
        if j <= |input| {
          LexProgress(input, j, AddSpace(CommentBuffer(buf, ch), depth), depth);
        }
      } else if ch != ';' {
        LexProgress(input, i + 1, Push(buf, depth, ch), DepthAfter(ch, depth));
      }
    }
  }

  // ---------------------------------------------------------------------
  // The normal form
  // ---------------------------------------------------------------------

  /** Parentheses open after the first `k` characters. */
  function Depth(c: string, k: nat): int
    requires k <= |c|
  {
    if k == 0 then 0 else DepthAfter(c[k - 1], Depth(c, k - 1))
  }

  predicate NormalAt(c: string, k: nat)
    requires k < |c|
  {
    && c[k] >= ' ' && c[k] != ';' && c[k] != '!' && !('a' <= c[k] <= 'z')
    && (c[k] == ' ' ==> k > 0 && c[k - 1] != ' ' && Depth(c, k) == 0)
    && (c[k] == '/' && k > 0 ==> c[k - 1] != '/')
    && (c[k] == '(' && Depth(c, k) == 0 && k > 0 ==> c[k - 1] == ' ')
    && (c[k] == ')' && Depth(c, k) == 1 ==> k + 1 < |c| && c[k + 1] == ' ')
  }

  /** Single inner spaces at depth 0 only, upper case, no comment, a space
      around every outermost parenthesis. */
  ghost predicate Normal(c: string) {
    forall k :: 0 <= k < |c| ==> NormalAt(c, k)
  }

  lemma {:induction false} DepthPrefix(a: string, b: string, k: nat)
    requires k <= |a| && a <= b
    ensures Depth(b, k) == Depth(a, k)
    decreases k
  {
    if k > 0 {
      DepthPrefix(a, b, k - 1);
    }
  }

  lemma NormalSnoc(c: string, ch: char)
    requires Normal(c)
    requires ch >= ' ' && ch != ';' && ch != '!' && !('a' <= ch <= 'z')
    requires ch == ' ' ==> c != "" && !EndsWith(c, ' ') && Depth(c, |c|) == 0
    requires ch == '/' ==> !EndsWith(c, '/')
    requires ch == '(' && Depth(c, |c|) == 0 ==> c == "" || EndsWith(c, ' ')
    requires ch == ')' ==> Depth(c, |c|) != 1
    ensures Normal(c + [ch])
    ensures Depth(c + [ch], |c| + 1) == DepthAfter(ch, Depth(c, |c|))
  {
    var d := c + [ch];
    forall k: nat | k <= |c|
      ensures Depth(d, k) == Depth(c, k)
    {
      DepthPrefix(c, d, k);
    }
    forall k | 0 <= k < |d|
      ensures NormalAt(d, k)
    {
      if k < |c| {
        assert NormalAt(c, k);
      }
    }
  }

  lemma NormalClose(c: string)
    requires Normal(c) && Depth(c, |c|) == 1
    ensures Normal(c + ")" + " ")
    ensures Depth(c + ")" + " ", |c| + 2) == 0
  {
    var d := c + ")" + " ";
    forall k: nat | k <= |c|
      ensures Depth(d, k) == Depth(c, k)
    {
      DepthPrefix(c, d, k);
    }
    forall k | 0 <= k < |d|
      ensures NormalAt(d, k)
    {
      if k < |c| {
        assert NormalAt(c, k);
      }
    }
  }

  lemma NormalAddSpace(buf: string)
    requires Normal(buf)
    ensures var b := AddSpace(buf, Depth(buf, |buf|));
            Normal(b) && Depth(b, |b|) == Depth(buf, |buf|)
  {
    var depth := Depth(buf, |buf|);
    if depth == 0 && buf != "" && !EndsWith(buf, ' ') {
      NormalSnoc(buf, ' ');
    }
  }

  lemma NormalPush(buf: string, ch: char)
    requires Normal(buf) && ch > ' ' && ch != ';' && !StartsComment(buf, ch)
    ensures var b := Push(buf, Depth(buf, |buf|), ch);
            Normal(b) && Depth(b, |b|) == DepthAfter(ch, Depth(buf, |buf|))
  {
    var depth := Depth(buf, |buf|);
    if ch == '(' {
      NormalAddSpace(buf);
      NormalSnoc(AddSpace(buf, depth), ch);
    } else if ch == ')' && depth == 1 {
      NormalClose(buf);
      assert Push(buf, depth, ch) == buf + ")" + " ";
    } else {
      NormalSnoc(buf, Upper(ch));
    }
  }

  lemma NormalDropSlash(buf: string)
    requires Normal(buf) && EndsWith(buf, '/')
    ensures Normal(buf[..|buf| - 1])
    ensures Depth(buf[..|buf| - 1], |buf| - 1) == Depth(buf, |buf|)
  {
    var c := buf[..|buf| - 1];
    forall k: nat | k <= |c|
      ensures Depth(c, k) == Depth(buf, k)
    {
      DepthPrefix(c, buf, k);
    }
    forall k | 0 <= k < |c|
      ensures NormalAt(c, k)
    {
      assert NormalAt(buf, k);
    }
  }

  lemma {:induction false} LexNormalFrom(input: string, i: nat, buf: string)
    requires Normal(buf)
    ensures var r := Lex(input, i, buf, Depth(buf, |buf|)); r.LexCommand? ==> Normal(r.command)
    decreases |input| - i
  {
    if i < |input| {
      var ch := input[i];
      var depth := Depth(buf, |buf|);
      if ch <= ' ' {
        NormalAddSpace(buf);
        LexNormalFrom(input, i + 1, AddSpace(buf, depth));
      } else if StartsComment(buf, ch) {
        var kept := CommentBuffer(buf, ch);
        if ch == '/' {
          NormalDropSlash(buf);
        }
        var j := SkipComment(input, i + 1);
        if j <= |input| {
          NormalAddSpace(kept);
          LexNormalFrom(input, j, AddSpace(kept, depth));
        }
      } else if ch != ';' {
        NormalPush(buf, ch);
        LexNormalFrom(input, i + 1, Push(buf, depth, ch));
      }
    }
  }

  /** Every command read is in normal form, whatever the input. */
  lemma LexNormal(input: string, i: nat)
    ensures var r := Lex(input, i, "", 0); r.LexCommand? ==> Normal(r.command)
  {
    LexNormalFrom(input, i, "");
  }

  /** One character of a string in normal form, read into what was read before. */
  lemma RelexChar(c: string, input: string, k: nat, buf: string) returns (now: string)
    requires Normal(c) && k < |c| < |input| && input[k] == c[k]
    requires buf == c[..k] || (c[k] == ' ' && buf == c[..k + 1])
    ensures Lex(input, k, buf, Depth(c, k)) == Lex(input, k + 1, now, Depth(c, k + 1))
    ensures now == c[..k + 1] || (k + 1 < |c| && c[k + 1] == ' ' && now == c[..k + 2])
  {
    assert NormalAt(c, k);
    var ch, depth := c[k], Depth(c, k);
    if ch == ' ' {
      assert buf == c[..k] ==> AddSpace(buf, depth) == c[..k + 1];
      now := c[..k + 1];
    } else {
      assert !StartsComment(buf, ch);
      assert ch == '(' ==> AddSpace(buf, depth) == buf;
      now := Push(buf, depth, ch);
      assert now == if ch == ')' && depth == 1 then c[..k + 2] else c[..k + 1];
    }
  }

  lemma {:induction false} RelexFrom(c: string, rest: string, k: nat, buf: string)
    requires Normal(c) && k <= |c|
    requires buf == c[..k] || (k < |c| && c[k] == ' ' && buf == c[..k + 1])
    ensures Lex(c + ";" + rest, k, buf, Depth(c, k)) == LexCommand(c, |c| + 1)
    decreases |c| - k
  {
    var input := c + ";" + rest;
    if k == |c| {
      assert input[k] == ';' && buf == c;
    } else {
      hide Lex, Depth, Normal;
      var now := RelexChar(c, input, k, buf);
      RelexFrom(c, rest, k + 1, now);
    }
  }

  /** A string is read back as itself exactly when it is in normal form: so
      the commands read are the fixed points of reading. */
  lemma RelexFixpoint(c: string, rest: string)
    ensures Lex(c + ";" + rest, 0, "", 0) == LexCommand(c, |c| + 1) <==> Normal(c)
  {
    LexNormal(c + ";" + rest, 0);
    if Normal(c) {
      RelexFrom(c, rest, 0, "");
    }
  }
}
