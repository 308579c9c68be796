/** What the layout of an SVF text does not change: comments, white space, case and
    the spaces around parentheses (svfload/libxsvf/svf.c:43-87). */
module SvfLayout {
  import opened SvfLexer

  /** Two readings that end alike, the second `d` characters further on. */
  predicate Alike(r: LexResult, s: LexResult, d: int) {
    if r.LexCommand? then s.LexCommand? && s.command == r.command && s.next == r.next + d else s == r
  }

  // ---------------------------------------------------------------------
  // Only what is still to be read matters
  // ---------------------------------------------------------------------

  lemma {:induction false} SkipFrom(x: string, i: nat, y: string, j: nat)
    requires i <= |x| && j <= |y| && x[i..] == y[j..]
    ensures SkipComment(x, i) - i == SkipComment(y, j) - j
    decreases |x| - i
  {
    if i < |x| {
      assert x[i] == x[i..][0] && y[j] == y[j..][0];
      assert x[i + 1..] == x[i..][1..] && y[j + 1..] == y[j..][1..];
      SkipFrom(x, i + 1, y, j + 1);
    }
  }

  lemma RestFrom(x: string, i: nat, y: string, j: nat, n: nat)
    requires i + n <= |x| && j + n <= |y| && x[i..] == y[j..]
    ensures x[i + n..] == y[j + n..]
  {
    assert x[i + n..] == x[i..][n..] && y[j + n..] == y[j..][n..];
  }

  lemma {:induction false} LexFrom(x: string, i: nat, y: string, j: nat, buf: string, depth: int)
    requires i <= |x| && j <= |y| && x[i..] == y[j..]
    ensures Alike(Lex(x, i, buf, depth), Lex(y, j, buf, depth), j - i)
    decreases |x| - i
  {
    if i < |x| {
      hide SkipComment, AddSpace, Push, DepthAfter;
      var ch := x[i];
      assert ch == x[i..][0] == y[j..][0] == y[j];
      RestFrom(x, i, y, j, 1);
      if ch <= ' ' {
        LexFrom(x, i + 1, y, j + 1, AddSpace(buf, depth), depth);
      } else if StartsComment(buf, ch) {
        SkipFrom(x, i + 1, y, j + 1);
        var n: nat := SkipComment(x, i + 1) - i;
        if i + n <= |x| {
          RestFrom(x, i, y, j, n);
          LexFrom(x, i + n, y, j + n, AddSpace(CommentBuffer(buf, ch), depth), depth);
        }
      } else if ch != ';' {
        LexFrom(x, i + 1, y, j + 1, Push(buf, depth, ch), DepthAfter(ch, depth));
      }
    }
  }

  // ---------------------------------------------------------------------
  // Comments
  // ---------------------------------------------------------------------

  /** What may stand in a comment: anything but control characters, and tabs. */
  predicate IsComment(w: string) {
    forall k :: 0 <= k < |w| ==> w[k] >= ' ' || w[k] == '\t'
  }

  predicate EndsComment(e: char) {
    e < ' ' && e != '\t'
  }

  lemma {:induction false} SkipText(input: string, i: nat, n: nat)
    requires i <= n <= |input| && IsComment(input[i..n])
    ensures SkipComment(input, i) == SkipComment(input, n)
    decreases n - i
  {
    if i < n {
      assert input[i] == input[i..n][0] && input[i + 1..n] == input[i..n][1..];
      SkipText(input, i + 1, n);
    }
  }

  /** How a comment begins: `!`, or `//` unless a slash stands before it. */
  predicate Opens(mark: string, buf: string) {
    mark == "!" || (mark == "//" && !EndsWith(buf, '/'))
  }

  /** The mark of a comment, read. */
  lemma OpenComment(input: string, i: nat, mark: string, buf: string, depth: int, j: nat)
    requires Opens(mark, buf) && j == i + |mark| <= |input| && input[i..j] == mark
    ensures var n := SkipComment(input, j);
            Lex(input, i, buf, depth) == if n > |input| then AtEof(buf) else Lex(input, n, AddSpace(buf, depth), depth)
  {
    hide SkipComment, AddSpace;
    assert input[i] == input[i..j][0];
    if mark == "//" {
      assert input[i + 1] == input[i..j][1];
      assert Push(buf, depth, '/') == buf + "/";
      assert CommentBuffer(buf + "/", '/') == buf;
    }
  }

  lemma PartsAt(head: string, mark: string, w: string, e: char, rest: string)
    ensures var x, y := head + "\n" + rest, head + mark + w + [e] + rest;
            var i, j := |head|, |head| + |mark|;
            var n := j + |w|;
            && i < |x| && x[i] == '\n' && x[i + 1..] == rest
            && n < |y| && y[i..j] == mark && y[j..n] == w && y[n] == e && y[n + 1..] == rest
  {
  }

  lemma SpaceRead(input: string, i: nat, buf: string, depth: int)
    requires i < |input| && input[i] <= ' '
    ensures Lex(input, i, buf, depth) == Lex(input, i + 1, AddSpace(buf, depth), depth)
  {
    hide AddSpace, Push, DepthAfter, SkipComment;
  }

  lemma CommentEnds(input: string, n: nat)
    requires n < |input| && EndsComment(input[n])
    ensures SkipComment(input, n) == n + 1
  {
  }

  /** A newline at `i` of `x`, and a comment from `i` to `n` of `y`. */
  lemma CommentRead(x: string, y: string, i: nat, j: nat, n: nat, mark: string, buf: string, depth: int)
    requires i < |x| && x[i] == '\n' && Opens(mark, buf) && j == i + |mark| && j <= n < |y|
    requires y[i..j] == mark && IsComment(y[j..n]) && EndsComment(y[n]) && x[i + 1..] == y[n + 1..]
    ensures Alike(Lex(x, i, buf, depth), Lex(y, i, buf, depth), n - i)
  {
    SpaceRead(x, i, buf, depth);
    CommentEnds(y, n);
    hide AddSpace, Lex, SkipComment, IsComment, Opens;
    OpenComment(y, i, mark, buf, depth, j);
    SkipText(y, j, n);
    LexFrom(x, i + 1, y, n + 1, AddSpace(buf, depth), depth);
  }

  /** A comment, wherever it stands, is read as a single newline in its place. */
  lemma CommentIsNewline(head: string, mark: string, w: string, e: char, rest: string, buf: string, depth: int)
    requires Opens(mark, buf) && IsComment(w) && EndsComment(e)
    ensures Alike(Lex(head + "\n" + rest, |head|, buf, depth),
                  Lex(head + mark + w + [e] + rest, |head|, buf, depth), |mark| + |w|)
  {
    PartsAt(head, mark, w, e, rest);
    hide Lex, IsComment, Opens, Alike, EndsComment;
    var i, j := |head|, |head| + |mark|;
    CommentRead(head + "\n" + rest, head + mark + w + [e] + rest, i, j, j + |w|, mark, buf, depth);
  }

  /** A comment at the end of the file ends what was read before it. */
  lemma CommentAtEnd(head: string, mark: string, w: string, buf: string, depth: int)
    requires Opens(mark, buf) && IsComment(w)
    ensures Lex(head + mark + w, |head|, buf, depth) == Lex(head, |head|, buf, depth)
  {
    var y := head + mark + w;
    var i, j := |head|, |head| + |mark|;
    assert y[i..j] == mark && y[j..|y|] == w;
    OpenComment(y, i, mark, buf, depth, j);
    SkipText(y, j, |y|);
  }

  // ---------------------------------------------------------------------
  // White space
  // ---------------------------------------------------------------------

  predicate IsSpace(w: string) {
    forall k :: 0 <= k < |w| ==> w[k] <= ' '
  }

  lemma {:induction false} SpacesRead(input: string, i: nat, n: nat, buf: string, depth: int)
    requires i <= n <= |input| && IsSpace(input[i..n])
    ensures Lex(input, i, buf, depth) == Lex(input, n, if i < n then AddSpace(buf, depth) else buf, depth)
    decreases n - i
  {
    if i < n {
      assert input[i] == input[i..n][0] && input[i + 1..n] == input[i..n][1..];
      SpacesRead(input, i + 1, n, AddSpace(buf, depth), depth);
    }
  }

  /** White space of any kind and length is read as one space. */
  lemma SpacesAreOne(head: string, w: string, rest: string, buf: string, depth: int)
    requires w != "" && IsSpace(w)
    ensures Alike(Lex(head + " " + rest, |head|, buf, depth), Lex(head + w + rest, |head|, buf, depth), |w| - 1)
  {
    var x, y := head + " " + rest, head + w + rest;
    var i, n := |head|, |head| + |w|;
    assert y[i..n] == w && x[i..i + 1] == " ";
    SpacesRead(x, i, i + 1, buf, depth);
    SpacesRead(y, i, n, buf, depth);
    assert x[i + 1..] == rest && y[n..] == rest;
    LexFrom(x, i + 1, y, n, AddSpace(buf, depth), depth);
  }

  /** Inside parentheses white space is not read at all. */
  lemma NoSpacesInside(head: string, w: string, rest: string, buf: string, depth: int)
    requires IsSpace(w) && depth != 0
    ensures Alike(Lex(head + rest, |head|, buf, depth), Lex(head + w + rest, |head|, buf, depth), |w|)
  {
    var x, y := head + rest, head + w + rest;
    var i, n := |head|, |head| + |w|;
    assert y[i..n] == w;
    SpacesRead(y, i, n, buf, depth);
    assert x[i..] == rest && y[n..] == rest;
    LexFrom(x, i, y, n, buf, depth);
  }

  /** Neither is the space before an outermost parenthesis needed. */
  lemma SpaceBeforeOpen(head: string, rest: string, buf: string)
    ensures Alike(Lex(head + "(" + rest, |head|, buf, 0), Lex(head + " (" + rest, |head|, buf, 0), 1)
  {
    var x, y := head + "(" + rest, head + " (" + rest;
    var i := |head|;
    assert x[i] == '(' && y[i] == ' ' && y[i + 1] == '(';
    assert x[i + 1..] == rest && y[i + 2..] == rest;
    LexFrom(x, i + 1, y, i + 2, Push(buf, 0, '('), 1);
  }

  /** Nor the one behind it. */
  lemma SpaceAfterClose(head: string, rest: string, buf: string)
    ensures Alike(Lex(head + ")" + rest, |head|, buf, 1), Lex(head + ") " + rest, |head|, buf, 1), 1)
  {
    var x, y := head + ")" + rest, head + ") " + rest;
    var i := |head|;
    assert x[i] == ')' && y[i] == ')' && y[i + 1] == ' ';
    assert x[i + 1..] == rest && y[i + 2..] == rest;
    assert Push(buf, 1, ')') == buf + ")" + " ";
    LexFrom(x, i + 1, y, i + 2, buf + ")" + " ", 0);
  }

  // ---------------------------------------------------------------------
  // Case
  // ---------------------------------------------------------------------

  const CAPITALS := "ABCDEFGHIJKLMNOPQRSTUVWXYZ"
  const SMALL := "abcdefghijklmnopqrstuvwxyz"

  /** `t` is `u`, or the small letter for the capital `u`. */
  ghost predicate Spells(t: char, u: char) {
    t == u || exists n :: 0 <= n < |CAPITALS| && t == SMALL[n] && u == CAPITALS[n]
  }

  ghost predicate SpellsAll(t: string, c: string) {
    |t| == |c| && forall k :: 0 <= k < |c| ==> Spells(t[k], c[k])
  }

  lemma LetterAt(n: nat)
    requires n < 26
    ensures CAPITALS[n] as int == 'A' as int + n && SMALL[n] as int == 'a' as int + n
  {
  }

  lemma SpellsUpper(t: char, u: char)
    requires Spells(t, u) && !('a' <= u <= 'z')
    ensures Upper(t) == u && (t == u || ('a' <= t <= 'z' && 'A' <= u <= 'Z'))
  {
    if t != u {
      var n :| 0 <= n < |CAPITALS| && t == SMALL[n] && u == CAPITALS[n];
      LetterAt(n);
    }
  }

  /** One character, in either case, of a text in normal form. */
  lemma SpelledChar(c: string, input: string, k: nat, buf: string) returns (now: string)
    requires Normal(c) && k < |c| < |input| && Spells(input[k], c[k])
    requires buf == c[..k] || (c[k] == ' ' && buf == c[..k + 1])
    ensures Lex(input, k, buf, Depth(c, k)) == Lex(input, k + 1, now, Depth(c, k + 1))
    ensures now == c[..k + 1] || (k + 1 < |c| && c[k + 1] == ' ' && now == c[..k + 2])
  {
    assert NormalAt(c, k);
    SpellsUpper(input[k], c[k]);
    if input[k] == c[k] {
      now := RelexChar(c, input, k, buf);
    } else {
      now := c[..k + 1];
      assert Push(buf, Depth(c, k), input[k]) == now;
    }
  }

  lemma {:induction false} SpelledFrom(c: string, t: string, rest: string, k: nat, buf: string)
    requires Normal(c) && SpellsAll(t, c) && k <= |c|
    requires buf == c[..k] || (k < |c| && c[k] == ' ' && buf == c[..k + 1])
    ensures Lex(t + ";" + rest, k, buf, Depth(c, k)) == LexCommand(c, |c| + 1)
    decreases |c| - k
  {
    var input := t + ";" + rest;
    if k == |c| {
      assert input[k] == ';' && buf == c;
    } else {
      assert input[k] == t[k];
      hide Lex, Depth, Normal, Spells;
      var now := SpelledChar(c, input, k, buf);
      SpelledFrom(c, t, rest, k + 1, now);
    }
  }

  /** A text in normal form is read as itself however its letters are written. */
  lemma CaseIsIgnored(c: string, t: string, rest: string)
    requires Normal(c) && SpellsAll(t, c)
    ensures Lex(t + ";" + rest, 0, "", 0) == LexCommand(c, |c| + 1)
  {
    SpelledFrom(c, t, rest, 0, "");
  }
}
