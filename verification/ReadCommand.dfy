/** `read_command` (svfload/libxsvf/svf.c) with its growing buffer. */
module CommandReader {
  import opened SvfLexer
  import opened Hosts

  method Grow(old_buffer: array<char>, len: nat) returns (buffer: array<char>)
    requires old_buffer.Length <= len
    ensures fresh(buffer) && buffer.Length == len
    ensures buffer[..old_buffer.Length] == old_buffer[..]
  {
    buffer := new char[len](i => '\0');
    var k := 0;
    while k < old_buffer.Length
      invariant 0 <= k <= old_buffer.Length
      invariant buffer[..k] == old_buffer[..k]
    {
      buffer[k] := old_buffer[k];
      k := k + 1;
    }
  }

  /** Appends a separating space where one is due. */
  method InsertSpace(buffer: array<char>, p: nat, braket: int) returns (q: nat)
    requires p < buffer.Length
    modifies buffer
    ensures p <= q <= p + 1
    ensures buffer[..q] == AddSpace(old(buffer[..p]), braket)
  {
    q := p;
    if braket == 0 && p > 0 && buffer[p - 1] != ' ' {
      buffer[p] := ' ';
      q := p + 1;
    }
    assert old(buffer[..p]) != "" <==> p > 0;
    assert buffer[..p] == old(buffer[..p]);
  }

  method AppendChar(buffer: array<char>, p: nat, braket: int, ch: char) returns (q: nat, braket': int)
    requires p + 2 <= buffer.Length
    modifies buffer
    ensures p < q <= p + 2
    ensures buffer[..q] == Push(old(buffer[..p]), braket, ch)
    ensures braket' == DepthAfter(ch, braket)
  {
    q, braket' := p, braket;
    if ch == '(' {
      q := InsertSpace(buffer, p, braket);
      braket' := braket + 1;
    }
    ghost var spaced := buffer[..q];
    buffer[q] := Upper(ch);
    q := q + 1;
    assert buffer[..q] == spaced + [Upper(ch)];
    if ch == ')' {
      braket' := braket' - 1;
      if braket' == 0 {
        ghost var pushed := buffer[..q];
        buffer[q] := ' ';
        q := q + 1;
        assert buffer[..q] == pushed + " ";
      }
    }
  }

  /** Reads up to the control character that ends a comment. */
  method SkipToEol(h: Host) returns (eof: bool)
    requires h.pos <= |h.input|
    modifies h`pos
    ensures eof <==> SkipComment(h.input, old(h.pos)) > |h.input|
    ensures !eof ==> h.pos == SkipComment(h.input, old(h.pos))
    ensures h.pos <= |h.input|
  {
    while true
      invariant h.pos <= |h.input|
      invariant SkipComment(h.input, old(h.pos)) == SkipComment(h.input, h.pos)
      decreases |h.input| - h.pos
    {
      var ch := h.GetByte();
      if ch < 0 {
        return true;
      }
      if ch < ' ' as int && ch != '\t' as int {
        return false;
      }
    }
  }

  /** What the loop of read_command does with the next character. */
  method ReadChar(h: Host, buffer: array<char>, p: nat, braket: int)
      returns (done: bool, rc: int, q: nat, braket': int)
    requires h.pos <= |h.input| && p + 10 <= buffer.Length
    modifies h`pos, buffer
    ensures h.pos <= |h.input| && q <= p + 2
    ensures var r := Lex(h.input, old(h.pos), old(buffer[..p]), braket);
            if done then
              match r
              case LexEof => rc == 0
              case LexError => rc == -1
              case LexCommand(c, next) => rc == 1 && buffer[..q] == c && h.pos == next
            else
              h.pos > old(h.pos) && r == Lex(h.input, h.pos, buffer[..q], braket')
  {
    ghost var buf := buffer[..p];
    done, rc, q, braket' := false, 0, p, braket;
    var b := h.GetByte();
    if b < 0 {
      done, rc := true, if p == 0 then 0 else -1;
      return;
    }
    var ch := b as char;
    if ch <= ' ' {
      q := InsertSpace(buffer, p, braket);
    } else if ch == '!' || (ch == '/' && p > 0 && buffer[p - 1] == '/') {
      assert StartsComment(buf, ch);
      if ch == '/' {
        q := p - 1;
      }
      assert buffer[..q] == CommentBuffer(buf, ch);
      var eof := SkipToEol(h);
      if eof {
        done, rc := true, if q == 0 then 0 else -1;
        return;
      }
      q := InsertSpace(buffer, q, braket);
    } else if ch == ';' {
      done, rc := true, 1;
    } else {
      q, braket' := AppendChar(buffer, p, braket, ch);
    }
  }

  /** read_command: 1 with the command in buffer[..p], 0 at the end of the
      input, -1 when the input ends inside a command. The buffer always has
      room for ten more characters when a character is read. */
  method ReadCommand(h: Host, buffer0: array<char>) returns (rc: int, buffer: array<char>, p: nat)
    requires h.pos <= |h.input|
    modifies h`pos, buffer0
    ensures buffer == buffer0 || fresh(buffer)
    ensures h.pos <= |h.input| && p <= buffer.Length
    ensures match Lex(h.input, old(h.pos), "", 0)
            case LexEof => rc == 0
            case LexError => rc == -1
            case LexCommand(c, next) => rc == 1 && buffer[..p] == c && h.pos == next
  {
    buffer, p := buffer0, 0;
    var braket := 0;
    assert buffer[..p] == "";
    while true
      invariant h.pos <= |h.input|
      invariant buffer == buffer0 || fresh(buffer)
      invariant if p == 0 then true else p + 8 <= buffer.Length
      invariant Lex(h.input, old(h.pos), "", 0) == Lex(h.input, h.pos, buffer[..p], braket)
      decreases |h.input| - h.pos
    {
      ghost var buf := buffer[..p];
      if buffer.Length < p + 10 {
        buffer := Grow(buffer, if buffer.Length < 64 then 96 else buffer.Length * 2);
      }
      assert buffer[..p] == buf;
      var done;
      done, rc, p, braket := ReadChar(h, buffer, p, braket);
      if done {
        return;
      }
    }
  }
}
