/** The FTDI host's code (svfload/libxsvf/xsvftool-ft232h.c, default macros)
    against its model: buffers, loops and the job list. */
module FtdiHost {
  import opened Bits
  import opened HostApi
  import opened Mpsse
  import opened FtdiPlan
  import opened FtdiCorrect
  import opened FtdiModel

  const USB_BUFFER := 4096

  /** struct udata_s, with the USB device behind it: `code` has been written to it
      but not yet executed. */
  class Udata {
    const dev: Device
    const bufferSize: nat
    const buffer: array<Cell>
    const ftdibuf: array<byte>
    const retval: array<bool>
    var bufferI: nat
    var ftdibufLen: nat
    var retvalI: nat
    var jobs: seq<Job>
    var lastTms: int
    var lastTdo: int
    var errorRc: int
    var chip: Chip
    var code: seq<byte>

    /** The shape of the buffers. */
    ghost predicate Shaped()
      reads this
    {
      && 0 < bufferSize <= BUFFER_SIZE && buffer.Length == BUFFER_SIZE && bufferI <= bufferSize
      && ftdibuf.Length == USB_BUFFER && ftdibufLen <= USB_BUFFER
      && retval.Length == RETVAL_MAX && retvalI <= RETVAL_MAX
      && buffer as object != ftdibuf && buffer as object != retval && ftdibuf as object != retval
      && -1 <= errorRc <= 0
    }

    function Found(): Findings
      requires Shaped()
      reads this, retval
    {
      Findings(errorRc < 0, retval[..retvalI])
    }

    function Model(): Ftdi
      requires Shaped()
      reads this, retval, buffer
    {
      Ftdi(chip, lastTms, lastTdo, buffer[..bufferI], Found())
    }

    /** Between two calls nothing is queued, and the buffer is not full. */
    ghost predicate Valid()
      reads this, retval, buffer
    {
      && Shaped() && Ready(Model()) && bufferI < bufferSize
      && jobs == [] && code == [] && ftdibufLen == 0
    }

    constructor (dev: Device, bufferSize: nat, chip: Chip)
      requires 0 < bufferSize <= BUFFER_SIZE && chip.reply == []
      ensures Valid() && fresh(buffer) && fresh(ftdibuf) && fresh(retval)
      ensures this.dev == dev && this.bufferSize == bufferSize
      ensures Model() == Ftdi(chip, -1, -1, [], Findings(false, []))
    {
      this.dev, this.bufferSize, this.chip := dev, bufferSize, chip;
      buffer := new Cell[BUFFER_SIZE](_ => Cell(false, false, false, false, false, false));
      ftdibuf := new byte[USB_BUFFER](_ => 0);
      retval := new bool[RETVAL_MAX](_ => false);
      bufferI, ftdibufLen, retvalI, jobs, lastTms, lastTdo, errorRc, code := 0, 0, 0, [], -1, -1, 0, [];
    }

    /** my_ftdi_write_data: through the 4096-byte block buffer, which is always
        emptied at the end. */
    method MyFtdiWriteData(buf: seq<byte>)
      requires Shaped()
      modifies `ftdibufLen, `code, ftdibuf
      ensures Shaped() && ftdibufLen == 0
      ensures code == old(code) + old(ftdibuf[..ftdibufLen]) + buf
    {
      ghost var all := code + ftdibuf[..ftdibufLen] + buf;
      var rest := buf;
      while |rest| > 0
        invariant Shaped()
        invariant code + ftdibuf[..ftdibufLen] + rest == all
        decreases |rest|
      {
        if ftdibufLen == USB_BUFFER {
          code, ftdibufLen := code + ftdibuf[..ftdibufLen], 0;
        }
        ghost var held, before := ftdibuf[..ftdibufLen], rest;
        rest := HoldBlock(rest);
        ConcatAssoc(code, held, before);
        ConcatAssoc(code, ftdibuf[..ftdibufLen], rest);
      }
      if ftdibufLen > 0 {
        code, ftdibufLen := code + ftdibuf[..ftdibufLen], 0;
      }
    }

    /** As much as fits goes into the block buffer. */
    method HoldBlock(buf: seq<byte>) returns (rest: seq<byte>)
      requires Shaped() && ftdibufLen < USB_BUFFER && buf != []
      modifies `ftdibufLen, ftdibuf
      ensures Shaped() && |rest| < |buf|
      ensures ftdibuf[..ftdibufLen] + rest == old(ftdibuf[..ftdibufLen]) + buf
    {
      var chunksize := USB_BUFFER - ftdibufLen;
      if chunksize > |buf| {
        chunksize := |buf|;
      }
      ghost var held := ftdibuf[..ftdibufLen];
      forall k | 0 <= k < chunksize {
        ftdibuf[ftdibufLen + k] := buf[k];
      }
      rest := buf[chunksize..];
      ftdibufLen := ftdibufLen + chunksize;
      assert ftdibuf[..ftdibufLen] == held + buf[..chunksize];
      assert buf == buf[..chunksize] + rest;
    }

    /** new_read_job: the job list is a FIFO. */
    method NewReadJob(j: Job)
      modifies `jobs
      ensures jobs == old(jobs) + [j]
    {
      jobs := jobs + [j];
    }

    /** The data byte of a TMS command: TDI at the top, the last level twice. */
    method TmsDataByte(pos: nat, tdi: bool, len: nat) returns (data: byte)
      requires Shaped() && pos + len <= bufferI && 0 < len <= 6
      ensures TmsCode(buffer[pos..pos + len], tdi) == [0x6e, len - 1, data, 0x87]
    {
      hide Bit, PackByte, TmsData;
      ghost var ds := buffer[pos..pos + len];
      ZeroBits();
      data := OrData(0, 7, tdi);
      var i := 0;
      while i < len
        invariant 0 <= i <= len
        invariant forall k: nat :: Bit(data, k) == ((k < i && ds[k].tms) || (k == 7 && tdi))
      {
        data := OrData(data, i, buffer[pos + i].tms);
        i := i + 1;
      }
      data := OrData(data, len, buffer[pos + len - 1].tms);
      TmsByte(ds, tdi, data);
    }

    /** transfer_tms. */
    method TransferTms(pos: nat, tdi: bool, len: nat)
      requires Shaped() && ftdibufLen == 0 && pos + len <= bufferI && 0 < len <= 6
      modifies `ftdibufLen, `code, `jobs, `lastTms, ftdibuf
      ensures Shaped() && ftdibufLen == 0
      ensures jobs == old(jobs) + [TmsJob(buffer[pos..pos + len], tdi)]
      ensures code == old(code) + TmsCode(buffer[pos..pos + len], tdi)
      ensures lastTms == BoolToNat(buffer[pos + len - 1].tms)
    {
      var data := TmsDataByte(pos, tdi, len);
      lastTms := BoolToNat(buffer[pos + len - 1].tms);
      NewReadJob(TmsJob(buffer[pos..pos + len], tdi));
      MyFtdiWriteData([0x6e, len - 1, data, 0x87]);
      assert old(code) + [] == old(code);
    }

    /** One data byte of a TDI transfer. */
    method PackCells(pos: nat, n: nat) returns (b: byte)
      requires Shaped() && pos + n <= bufferI && n <= 8
      ensures b == PackByte(TdiBits(buffer[pos..pos + n]))
    {
      ghost var ds := buffer[pos..pos + n];
      b := 0;
      ZeroBits();
      var k := 0;
      while k < n
        invariant 0 <= k <= n
        invariant forall i: nat :: Bit(b, i) == (i < k && ds[i].tdi)
      {
        b := OrData(b, k, buffer[pos + k].tdi);
        k := k + 1;
      }
      TdiByte(ds, b);
    }

    /** The whole bytes of a TDI transfer. */
    method PackBytes(pos: nat, bytes: nat) returns (data: seq<byte>)
      requires Shaped() && pos + 8 * bytes <= bufferI
      ensures data == DataBytes(buffer[pos..pos + 8 * bytes])
    {
      hide DataBytes, PackByte, TdiBits;
      var command := new byte[bytes](_ => 0);
      var j := 0;
      assert buffer[pos..pos + 8 * j] == [];
      while j < bytes
        invariant 0 <= j <= bytes
        invariant command[..j] == DataBytes(buffer[pos..pos + 8 * j])
      {
        var b := PackCells(pos + j * 8, 8);
        ghost var before := command[..j];
        command[j] := b;
        assert command[..j + 1] == before + [b];
        DataBytesSnoc(buffer[..], pos, j);
        Slice(buffer, pos, pos + 8 * j);
        Slice(buffer, pos, pos + 8 * (j + 1));
        Slice(buffer, pos + j * 8, pos + j * 8 + 8);
        j := j + 1;
      }
      assert command[..j] == command[..];
      data := command[..];
    }

    /** The whole bytes' command. */
    method WholeCommand(pos: nat, len: nat) returns (head: seq<byte>)
      requires Shaped() && pos + len <= bufferI
      ensures head == WholeCode(buffer[pos..pos + len])
    {
      hide DataBytes;
      var bytes := len / 8;
      head := [];
      if bytes > 0 {
        var data := PackBytes(pos, bytes);
        assert buffer[pos..pos + 8 * bytes] == Whole(buffer[pos..pos + len]);
        head := [0x39, (bytes - 1) % 256, (bytes - 1) / 256] + data;
      }
    }

    /** The command for the last bits. */
    method PartialCommand(pos: nat, len: nat) returns (tail: seq<byte>)
      requires Shaped() && pos + len <= bufferI
      ensures tail == PartialCode(buffer[pos..pos + len])
    {
      var bytes, bits := len / 8, len % 8;
      tail := [];
      if bits > 0 {
        var b := PackCells(pos + bytes * 8, bits);
        assert buffer[pos + bytes * 8..pos + bytes * 8 + bits] == Partial(buffer[pos..pos + len]);
        tail := [0x3b, bits - 1, b];
      }
    }

    /** transfer_tdi. */
    method TransferTdi(pos: nat, len: nat)
      requires Shaped() && ftdibufLen == 0 && pos + len <= bufferI
      modifies `ftdibufLen, `code, `jobs, ftdibuf
      ensures Shaped() && ftdibufLen == 0
      ensures jobs == old(jobs) + [TdiJob(buffer[pos..pos + len])]
      ensures code == old(code) + TdiCode(buffer[pos..pos + len])
    {
      var head := WholeCommand(pos, len);
      var tail := PartialCommand(pos, len);
      TdiCodeParts(buffer[pos..pos + len]);
      var command := head + tail + [0x87];
      NewReadJob(TdiJob(buffer[pos..pos + len]));
      MyFtdiWriteData(command);
      assert old(code) + [] == old(code);
    }

    /** The TMS branch of buffer_flush: how far TDI stays the same. */
    method SpanTms(pos: nat) returns (len: nat, tdi: bool)
      requires Shaped() && pos < bufferI
      ensures (len, tdi) == TmsChunk(buffer[pos..bufferI])
    {
      len := bufferI - pos;
      if len > 6 {
        len := 6;
      }
      var level: int, i: int := -1, 0;
      ghost var ds := buffer[pos..bufferI];
      ghost var limit := len;
      ghost var stopped := false;
      while i < len
        invariant 0 <= i && len <= limit == Min(|ds|, 6) && -1 <= level <= 1
        invariant if stopped then i == len + 1 && TmsSpan(ds, 0, limit, -1) == (len, level)
                  else i <= len == limit && TmsSpan(ds, 0, limit, -1) == TmsSpan(ds, i, limit, level)
        decreases limit + 1 - i
      {
        if buffer[pos + i].tdiEnable {
          if level < 0 {
            level := BoolToNat(buffer[pos + i].tdi);
          }
          if level != BoolToNat(buffer[pos + i].tdi) {
            len := i;
            stopped := true;
          }
        }
        i := i + 1;
      }
      tdi := level != 0;
    }

    /** The TDI branch of buffer_flush: how far TMS stays the same. */
    method SpanTdi(pos: nat) returns (len: nat)
      requires Shaped() && pos < bufferI && SameLevel(lastTms, buffer[pos].tms)
      ensures len == TdiSpan(buffer[pos..bufferI], buffer[pos].tms)
    {
      len := bufferI - pos;
      var i := 0;
      ghost var ds, tms := buffer[pos..bufferI], buffer[pos].tms;
      ghost var stopped := false;
      while i < len
        invariant 0 <= i && len <= |ds|
        invariant if stopped then i == len + 1 && TdiSpan(ds, tms) == len
                  else i <= len == |ds| && TdiSpan(ds, tms) == i + TdiSpan(ds[i..], tms)
        decreases |ds| + 1 - i
      {
        assert ds[i..][1..] == ds[i + 1..];
        if BoolToNat(buffer[pos + i].tms) != lastTms {
          len := i;
          stopped := true;
        }
        i := i + 1;
      }
    }

    method WriteTms(pos: nat) returns (len: nat, ghost j: Job)
      requires Shaped() && ftdibufLen == 0 && pos < bufferI && !SameLevel(lastTms, buffer[pos].tms)
      modifies `ftdibufLen, `code, `jobs, `lastTms, ftdibuf
      ensures Shaped() && ftdibufLen == 0
      ensures JobOk(j) && jobs == old(jobs) + [j] && code == old(code) + JobCode(j)
      ensures Planned(old(lastTms), lastTms, buffer[pos..bufferI], len, j)
    {
      hide TmsChunk, TmsCode, Planned, SameLevel, JobOk, BoolToNat;
      ghost var rest, last := buffer[pos..bufferI], lastTms;
      var tdi;
      len, tdi := SpanTms(pos);
      TmsPlanned(last, rest, len, tdi);
      TransferTms(pos, tdi, len);
      j := TmsJob(buffer[pos..pos + len], tdi);
      assert rest[..len] == j.cells;
    }

    method WriteTdi(pos: nat) returns (len: nat, ghost j: Job)
      requires Shaped() && ftdibufLen == 0 && pos < bufferI && SameLevel(lastTms, buffer[pos].tms)
      modifies `ftdibufLen, `code, `jobs, ftdibuf
      ensures Shaped() && ftdibufLen == 0
      ensures JobOk(j) && jobs == old(jobs) + [j] && code == old(code) + JobCode(j)
      ensures Planned(old(lastTms), lastTms, buffer[pos..bufferI], len, j)
    {
      hide TdiCode, TdiSpan;
      ghost var rest := buffer[pos..bufferI];
      len := SpanTdi(pos);
      TransferTdi(pos, len);
      j := TdiJob(buffer[pos..pos + len]);
      assert rest[..len] == j.cells;
    }

    /** One turn of buffer_flush's loop. */
    method WriteTransfer(pos: nat) returns (len: nat, ghost j: Job)
      requires Shaped() && ftdibufLen == 0 && pos < bufferI
      modifies `ftdibufLen, `code, `jobs, `lastTms, ftdibuf
      ensures Shaped() && ftdibufLen == 0
      ensures JobOk(j) && jobs == old(jobs) + [j] && code == old(code) + JobCode(j)
      ensures Planned(old(lastTms), lastTms, buffer[pos..bufferI], len, j)
    {
      if lastTms != BoolToNat(buffer[pos].tms) {
        len, j := WriteTms(pos);
      } else {
        len, j := WriteTdi(pos);
      }
    }

    method WriteNext(ghost last0: int, ghost ds: seq<Cell>, pos: nat) returns (next: nat)
      requires Shaped() && ftdibufLen == 0 && pos < bufferI && ds == buffer[..bufferI]
      requires Written(last0, ds, pos, jobs, code, lastTms)
      modifies `ftdibufLen, `code, `jobs, `lastTms, ftdibuf
      ensures Shaped() && ftdibufLen == 0 && pos < next <= bufferI
      ensures Written(last0, ds, next, jobs, code, lastTms)
    {
      ghost var before, bytes, last := jobs, code, lastTms;
      var len;
      ghost var j;
      assert buffer[pos..bufferI] == ds[pos..];
      len, j := WriteTransfer(pos);
      next := pos + len;
      WrittenStep(last0, ds, pos, before, bytes, last, len, j, lastTms, next);
    }

    /** The writing half of buffer_flush. */
    method WriteTransfers()
      requires Shaped() && ftdibufLen == 0 && jobs == [] && code == []
      modifies `ftdibufLen, `code, `jobs, `lastTms, ftdibuf
      ensures Shaped() && ftdibufLen == 0
      ensures Written(old(lastTms), buffer[..bufferI], bufferI, jobs, code, lastTms)
    {
      ghost var last0, ds := lastTms, buffer[..bufferI];
      var pos: nat := 0;
      WrittenStart(last0, ds);
      while pos < bufferI
        invariant Shaped() && ftdibufLen == 0 && pos <= bufferI && ds == buffer[..bufferI]
        invariant Written(last0, ds, pos, jobs, code, lastTms)
      {
        pos := WriteNext(last0, ds, pos);
      }
    }

    /** What both handlers do with one pulse and the level read for it. */
    method NoteLine(d: Cell, line: bool)
      requires Shaped()
      modifies `errorRc, `retvalI, retval
      ensures Shaped() && Found() == Note(old(Found()), d, line)
    {
      if d.tdoEnable && d.tdo != line {
        errorRc := -1;
      }
      if d.rmask && retvalI < RETVAL_MAX {
        retval[retvalI] := line;
        retvalI := retvalI + 1;
        assert retval[..retvalI] == old(retval[..retvalI]) + [line];
      } else {
        assert retval[..retvalI] == old(retval[..retvalI]);
      }
    }

    /** transfer_tms_job_handler. */
    method TransferTmsJobHandler(j: Job, data: seq<byte>)
      requires Shaped() && JobOk(j) && j.TmsJob? && |data| == ReplyLen(j)
      modifies `errorRc, `retvalI, `lastTdo, retval
      ensures Shaped() && Found() == NoteAll(old(Found()), j.cells, LineBits(j, data))
      ensures lastTdo == LastTdoAfter(old(lastTdo), j, LineBits(j, data))
    {
      hide LineBits, BoolToNat, Bit, Shaped, NoteAll;
      ghost var f, lines := Found(), LineBits(j, data);
      var i := 0;
      NoteNone(f);
      while i < |j.cells|
        invariant 0 <= i <= |j.cells| && Shaped()
        invariant Found() == NoteAll(f, j.cells[..i], lines[..i])
        invariant i > 0 ==> lastTdo == BoolToNat(lines[i - 1])
      {
        TmsLine(j, data, i);
        i := NoteTms(j.cells, lines, i, Bit(data[0], i + (8 - |j.cells|)), f);
      }
      assert j.cells[..i] == j.cells && lines[..i] == lines;
    }

    /** One turn of that handler's loop. */
    method NoteTms(cells: seq<Cell>, ghost lines: seq<bool>, i: nat, line: bool, ghost f: Findings) returns (next: nat)
      requires Shaped() && |lines| == |cells| && i < |cells| && line == lines[i]
      requires Found() == NoteAll(f, cells[..i], lines[..i])
      modifies `errorRc, `retvalI, `lastTdo, retval
      ensures Shaped() && next == i + 1 && Found() == NoteAll(f, cells[..next], lines[..next])
      ensures lastTdo == BoolToNat(lines[i])
    {
      NoteLine(cells[i], line);
      lastTdo := BoolToNat(line);
      NoteSnoc(f, cells, lines, i);
      next := i + 1;
    }

    /** NoteLine for pulse `i` of a job. */
    method NoteNext(cells: seq<Cell>, ghost lines: seq<bool>, i: nat, line: bool, ghost f: Findings)
      requires Shaped() && i < |cells| == |lines| && line == lines[i]
      requires Found() == NoteAll(f, cells[..i], lines[..i])
      modifies `errorRc, `retvalI, retval
      ensures Shaped() && Found() == NoteAll(f, cells[..i + 1], lines[..i + 1])
    {
      NoteLine(cells[i], line);
      NoteSnoc(f, cells, lines, i);
    }

    /** One whole byte of a TDI job. */
    method HandleByte(cells: seq<Cell>, ghost lines: seq<bool>, b: byte, at: nat, ghost f: Findings)
      requires Shaped() && at + 8 <= |cells| == |lines|
      requires forall k: nat :: k < 8 ==> lines[at + k] == Bit(b, k)
      requires Found() == NoteAll(f, cells[..at], lines[..at])
      modifies `errorRc, `retvalI, retval
      ensures Shaped() && Found() == NoteAll(f, cells[..at + 8], lines[..at + 8])
    {
      hide Bit, NoteAll, Shaped;
      var k := 0;
      while k < 8
        invariant 0 <= k <= 8 && Shaped()
        invariant Found() == NoteAll(f, cells[..at + k], lines[..at + k])
      {
        NoteNext(cells, lines, at + k, Bit(b, k), f);
        k := k + 1;
      }
    }

    /** The last bits of a TDI job, in the top of the last byte. */
    method HandleBits(cells: seq<Cell>, ghost lines: seq<bool>, b: byte, at: nat, ghost f: Findings)
      requires Shaped() && at < |cells| == |lines| && |cells| - at < 8
      requires forall k: nat :: at <= k < |cells| ==> lines[k] == Bit(b, k - at + (8 - (|cells| - at)))
      requires Found() == NoteAll(f, cells[..at], lines[..at])
      modifies `errorRc, `retvalI, `lastTdo, retval
      ensures Shaped() && Found() == NoteAll(f, cells, lines)
      ensures lastTdo == BoolToNat(lines[|lines| - 1])
    {
      hide NoteAll, BoolToNat, Bit;
      var bits := |cells| - at;
      var n := 0;
      while n < bits
        invariant 0 <= n <= bits && Shaped()
        invariant Found() == NoteAll(f, cells[..at + n], lines[..at + n])
        invariant n > 0 ==> lastTdo == BoolToNat(lines[at + n - 1])
      {
        var line := Bit(b, n + (8 - bits));
        assert lines[at + n] == line;
        NoteNext(cells, lines, at + n, line, f);
        lastTdo := BoolToNat(line);
        n := n + 1;
      }
      assert cells[..at + n] == cells && lines[..at + n] == lines;
    }

    /** transfer_tdi_job_handler, with forcemode off. */
    method TransferTdiJobHandler(j: Job, data: seq<byte>)
      requires Shaped() && JobOk(j) && j.TdiJob? && |data| == ReplyLen(j)
      modifies `errorRc, `retvalI, `lastTdo, retval
      ensures Shaped() && Found() == NoteAll(old(Found()), j.cells, LineBits(j, data))
      ensures lastTdo == LastTdoAfter(old(lastTdo), j, LineBits(j, data))
    {
      hide LineBits, BoolToNat, JobOk, Bit, Shaped;
      ghost var f, lines := Found(), LineBits(j, data);
      var n, at := 0, 0;
      while n < |j.cells| / 8
        invariant 0 <= n <= |j.cells| / 8 && at == 8 * n && Shaped() && lastTdo == old(lastTdo)
        invariant Found() == NoteAll(f, j.cells[..at], lines[..at])
      {
        WholeByteLines(j, data, n, at);
        HandleByte(j.cells, lines, data[n], at, f);
        n, at := n + 1, at + 8;
      }
      if |j.cells| % 8 > 0 {
        LastByteLines(j, data, n, at);
        HandleBits(j.cells, lines, data[n], at, f);
      } else {
        assert j.cells[..at] == j.cells && lines[..at] == lines;
      }
    }

    function Drained0(): Drained
      requires Shaped()
      reads this, retval
    {
      Drained(Found(), lastTdo, chip.reply)
    }

    /** process_next_read_job. */
    method ProcessNextReadJob()
      requires Shaped() && JobsOk(jobs) && jobs != []
      modifies `jobs, `chip, `errorRc, `retvalI, `lastTdo, retval
      ensures Shaped() && jobs == old(jobs[1..])
      ensures Drained0() == DrainJob(old(jobs[0]), old(Drained0()))
      ensures chip == old(chip).(reply := chip.reply)
    {
      var j := jobs[0];
      jobs := jobs[1..];
      var n := ReplyLen(j);
      if |chip.reply| < n {
        chip := chip.(reply := []);
        errorRc := -1;
      } else {
        var data := chip.reply[..n];
        chip := chip.(reply := chip.reply[n..]);
        if j.TmsJob? {
          TransferTmsJobHandler(j, data);
        } else {
          TransferTdiJobHandler(j, data);
        }
      }
    }

    /** The reading half of buffer_flush. */
    method ProcessAllJobs()
      requires Shaped() && JobsOk(jobs)
      modifies `jobs, `chip, `errorRc, `retvalI, `lastTdo, retval
      ensures Shaped() && jobs == []
      ensures Drained0() == Drain(old(jobs), old(Drained0()))
      ensures chip == old(chip).(reply := chip.reply)
    {
      ghost var all := Drain(jobs, Drained0());
      while jobs != []
        invariant Shaped() && JobsOk(jobs)
        invariant Drain(jobs, Drained0()) == all
        invariant chip == old(chip).(reply := chip.reply)
        decreases |jobs|
      {
        ProcessNextReadJob();
      }
    }

    /** buffer_flush: all transfers are written, then all jobs are processed. */
    method BufferFlush()
      requires Shaped() && Ready(Model()) && jobs == [] && code == [] && ftdibufLen == 0
      modifies this, ftdibuf, retval
      ensures Shaped() && Model() == old(Flush(dev, Model()))
      ensures jobs == [] && code == [] && ftdibufLen == 0 && bufferI == 0
    {
      ghost var s := Model();
      ghost var t := FlushParts(dev, s);
      WriteAndRead(s);
      assert Drained0().found == Found();
      assert buffer[..0] == [];
      assert Model() == t;
    }

    method WriteAndRead(ghost s: Ftdi)
      requires Shaped() && s == Model() && Ready(s) && jobs == [] && code == [] && ftdibufLen == 0
      modifies this, ftdibuf, retval
      ensures Shaped() && jobs == [] && code == [] && ftdibufLen == 0 && bufferI == 0
      ensures lastTms == LastTms(s.lastTms, s.pend)
      ensures JobsOk(Plan(s.lastTms, s.pend))
      ensures chip == ChipAfter(dev, s).(reply := chip.reply)
      ensures Drained0() == Drain(Plan(s.lastTms, s.pend), Drained(s.found, s.lastTdo, ChipAfter(dev, s).reply))
    {
      hide ChipAfter, Drain, JobsOk, LastTms, Plan, Ready, Shaped;
      WriteAndExecute(s);
      ProcessAllJobs();
    }

    method WriteAndExecute(ghost s: Ftdi)
      requires Shaped() && s == Model() && Ready(s) && jobs == [] && code == [] && ftdibufLen == 0
      modifies `bufferI, `ftdibufLen, `code, `jobs, `lastTms, `chip, ftdibuf
      ensures Shaped() && JobsOk(jobs) && code == [] && ftdibufLen == 0 && bufferI == 0
      ensures lastTms == LastTms(s.lastTms, s.pend) && jobs == Plan(s.lastTms, s.pend)
      ensures chip == ChipAfter(dev, s) && Drained0() == Drained(s.found, s.lastTdo, chip.reply)
    {
      hide ChipAfter, JobsOk, Plan, LastTms, Written, Ready;
      WriteTransfers();
      WrittenAll(s.lastTms, s.pend, jobs, code, lastTms);
      bufferI := 0;
      Execute(s);
    }

    /** The device executes what has been written to it. */
    method Execute(ghost s: Ftdi)
      requires Shaped() && Ready(s) && chip == s.chip && code == PlanCode(s)
      modifies `chip, `code
      ensures code == [] && chip == ChipAfter(dev, s)
    {
      hide Plan, Code, SameLevel, JobsCells, Interpret, Shaped, Readable, PinAfter, Shows, Level, Covers,
        Lines, Advanced, JobsOk;
      PlanCovers(s.lastTms, s.pend, s.chip.tms);
      ghost var d, ws, data := JobsShown(dev, s.chip, Plan(s.lastTms, s.pend));
      var c := Interpret(dev, chip, code);
      code, chip := [], c.value;
    }

    /** buffer_add. */
    method BufferAdd(tms: bool, tdi: Option<bool>, tdo: Option<bool>, rmask: bool)
      requires Valid()
      modifies this, buffer, ftdibuf, retval
      ensures Valid()
      ensures Model() == old(Add(dev, bufferSize, Model(), CellOf(tms, tdi, tdo, rmask)))
    {
      hide Flush, BitOf;
      ghost var s := Model();
      ghost var d := CellOf(tms, tdi, tdo, rmask);
      AddKeeps(dev, bufferSize, s, d);
      buffer[bufferI] := Cell(tms, BitOf(tdi), tdi.Some?, BitOf(tdo), tdo.Some?, rmask);
      bufferI := bufferI + 1;
      assert buffer[..bufferI] == s.pend + [d];
      assert Model() == s.(pend := s.pend + [d]);
      if bufferI >= bufferSize {
        BufferFlush();
      }
    }

    /** buffer_sync. */
    method BufferSync()
      requires Valid()
      modifies this, ftdibuf, retval
      ensures Valid() && Model() == old(Flush(dev, Model()))
    {
      FlushKeeps(dev, Model());
      BufferFlush();
    }

    /** h_pulse_tck, with syncmode off. */
    method PulseTck(tms: bool, tdi: Option<bool>, tdo: Option<bool>, rmask: bool, sync: bool) returns (rc: int)
      requires Valid()
      modifies this, buffer, ftdibuf, retval
      ensures Valid()
      ensures var a := Pulse(tms, tdi, tdo, rmask, sync);
              var t := old(Serve(dev, bufferSize, Model(), a));
              Model() == Answered(t, a) && rc == Reply(t, a)
    {
      hide Flush, Add, Serve, CellOf;
      ghost var a := Pulse(tms, tdi, tdo, rmask, sync);
      ghost var t := ServePulse(dev, bufferSize, Model(), a);
      BufferAdd(tms, tdi, tdo, rmask);
      if sync {
        BufferSync();
        assert Model() == t;
        rc := if errorRc < 0 then errorRc else lastTdo;
        errorRc := 0;
      } else {
        rc := if errorRc < 0 then errorRc else 1;
      }
    }

    /** h_sync. */
    method Sync() returns (rc: int)
      requires Valid()
      modifies this, ftdibuf, retval
      ensures Valid()
      ensures var t := old(Serve(dev, bufferSize, Model(), HostApi.Sync));
              Model() == Answered(t, HostApi.Sync) && rc == Reply(t, HostApi.Sync)
    {
      hide Flush;
      BufferSync();
      rc := errorRc;
      errorRc := 0;
    }

    /** The loop of h_udelay. */
    method AddIdlePulses(tms: bool, numTck: nat)
      requires Valid()
      modifies this, buffer, ftdibuf, retval
      ensures Valid()
      ensures Model() == old(AddIdle(dev, bufferSize, Model(), tms, numTck))
    {
      hide Add, CellOf;
      ghost var s := Model();
      var left := numTck;
      while left > 0
        invariant 0 <= left <= numTck && Valid()
        invariant Model() == AddIdle(dev, bufferSize, s, tms, numTck - left)
      {
        BufferAdd(tms, None, None, false);
        left := left - 1;
      }
    }

    /** h_udelay, without the sleep. */
    method Udelay(usecs: int, tms: bool, numTck: int)
      requires Valid()
      modifies this, buffer, ftdibuf, retval
      ensures Valid()
      ensures Model() == old(Serve(dev, bufferSize, Model(), Delay(usecs, tms, numTck)))
    {
      BufferSync();
      if numTck > 0 {
        AddIdlePulses(tms, numTck);
        BufferSync();
      }
    }

    /** h_set_frequency, with syncmode off: the divisor command is written at once,
        and clocks nothing. For a frequency of zero the divisor is infinite, and C
        leaves open what `converted` it becomes. */
    method SetFrequency(v: int, converted: nat) returns (rc: int)
      requires Valid()
      modifies `code, `ftdibufLen, `chip, ftdibuf
      ensures Valid() && Model() == old(Model()) && rc == 0
    {
      hide Divisor, Interpret, Shaped;
      var div := if v == 0 then converted else Divisor(v);
      var lo: byte, hi: byte := div % 256, div / 256 % 256;
      MyFtdiWriteData([0x86, lo, hi]);
      assert code == [0x86, lo, hi];
      DivisorCode(dev, chip, lo, hi);
      var c := Interpret(dev, chip, code);
      code, chip := [], c.value;
      rc := 0;
    }
  }

  /** Half the engine's clock, in Hz. */
  const HALF_CLOCK := 6_000_000

  /** TCK runs at HALF_CLOCK / (div + 1). */
  function Divisor(v: int): (div: nat)
    requires v != 0
  {
    if v < 0 then 2
    else
      var least := (HALF_CLOCK + v - 1) / v - 1;
      if least > 2 then least else 2
  }

  /** The divisor is the least one, from 2 up, with which TCK is not faster than
      asked for; it fits its sixteen bits exactly for frequencies from 92 Hz up. */
  lemma DivisorIsLeast(v: int)
    requires v > 0
    ensures var div := Divisor(v);
            && HALF_CLOCK <= v * (div + 1)
            && (div > 2 ==> v * div < HALF_CLOCK)
            && (div < 0x1_0000 <==> v >= 92)
  {
    var q := (HALF_CLOCK + v - 1) / v;
    var r := (HALF_CLOCK + v - 1) % v;
    assert HALF_CLOCK + v - 1 == v * q + r;
    assert v * (q - 1) == v * q - v;
    if v >= 92 {
      if q - 1 >= 0x1_0000 {
        Times(92, v, 0x1_0000, q - 1);
      }
    } else if q - 1 < 0x1_0000 {
      Times(v, 91, q, 0x1_0000);
    }
    if q <= 3 {
      Times(v, v, q, 3);
    }
  }

  lemma Times(a: nat, b: nat, c: nat, d: nat)
    requires a <= b && c <= d
    ensures a * c <= b * d
  {
  }

  lemma DivisorCode(dev: Device, c: Chip, lo: byte, hi: byte)
    ensures Interpret(dev, c, [0x86, lo, hi]) == Some(c)
  {
    assert [0x86, lo, hi][3..] == [];
    assert Interpret(dev, c, []) == Some(c);
  }

  function PlanCode(s: Ftdi): seq<byte>
    requires Ready(s)
  {
    PlanCovers(s.lastTms, s.pend, s.chip.tms);
    Code(Plan(s.lastTms, s.pend))
  }

  /** The chip once a flush has been executed, its replies unread. */
  function ChipAfter(dev: Device, s: Ftdi): Chip
    requires Ready(s)
  {
    var c := Interpret(dev, s.chip, PlanCode(s));
    if c.None? then s.chip else c.value
  }

  lemma FlushParts(dev: Device, s: Ftdi) returns (t: Ftdi)
    requires Ready(s)
    ensures t == Flush(dev, s)
    ensures JobsOk(Plan(s.lastTms, s.pend))
    ensures var c := ChipAfter(dev, s);
            var r := Drain(Plan(s.lastTms, s.pend), Drained(s.found, s.lastTdo, c.reply));
            t == Ftdi(c.(reply := r.rest), LastTms(s.lastTms, s.pend), r.lastTdo, [], r.found)
  {
    PlanCovers(s.lastTms, s.pend, s.chip.tms);
    var d, ws, data := JobsShown(dev, s.chip, Plan(s.lastTms, s.pend));
    t := Flush(dev, s);
  }

  lemma NoteSnoc(f: Findings, ds: seq<Cell>, lines: seq<bool>, i: nat)
    requires i < |ds| == |lines|
    ensures NoteAll(f, ds[..i + 1], lines[..i + 1]) == Note(NoteAll(f, ds[..i], lines[..i]), ds[i], lines[i])
  {
    assert ds[..i + 1][..i] == ds[..i] && lines[..i + 1][..i] == lines[..i];
  }

  /** `j` is the next transfer planned for the pulses `rest`. */
  ghost predicate Planned(last: int, last': int, rest: seq<Cell>, len: nat, j: Job) {
    && 0 < len <= |rest|
    && Plan(last, rest) == [j] + Plan(last', rest[len..])
    && last' == LastTms(last, rest[..len])
  }

  /** The transfers for the first `pos` pulses have been queued and written. */
  ghost predicate Written(last0: int, ds: seq<Cell>, pos: nat, jobs: seq<Job>, code: seq<byte>, last: int) {
    && pos <= |ds|
    && jobs + Plan(last, ds[pos..]) == Plan(last0, ds)
    && JobsOk(jobs) && code == Code(jobs)
    && last == LastTms(last0, ds[..pos])
  }

  lemma WrittenStart(last: int, ds: seq<Cell>)
    ensures Written(last, ds, 0, [], [], last)
  {
    assert ds[0..] == ds && ds[..0] == [];
    assert [] + Plan(last, ds) == Plan(last, ds);
  }

  lemma TmsLine(j: Job, data: seq<byte>, i: nat)
    requires JobOk(j) && j.TmsJob? && |data| == ReplyLen(j) && i < |j.cells|
    ensures |data| > 0 && LineBits(j, data)[i] == Bit(data[0], i + (8 - |j.cells|))
  {
  }

  lemma NoteNone(f: Findings)
    ensures NoteAll(f, [], []) == f
  {
  }

  lemma WholeByteLines(j: Job, data: seq<byte>, n: nat, at: nat)
    requires j.TdiJob? && |data| == ReplyLen(j) && n < |j.cells| / 8 && at == 8 * n
    ensures at + 8 <= |j.cells| && forall k: nat :: k < 8 ==> LineBits(j, data)[at + k] == Bit(data[n], k)
  {
    forall k: nat | k < 8
      ensures LineBits(j, data)[at + k] == Bit(data[n], k)
    {
      assert (at + k) / 8 == n && (at + k) % 8 == k;
    }
  }

  lemma LastByteLines(j: Job, data: seq<byte>, n: nat, at: nat)
    requires j.TdiJob? && |data| == ReplyLen(j) && n == |j.cells| / 8 && at == 8 * n < |j.cells|
    ensures |j.cells| - at < 8 && n < |data|
    ensures forall k: nat :: at <= k < |j.cells| ==>
              LineBits(j, data)[k] == Bit(data[n], k - at + (8 - (|j.cells| - at)))
  {
    assert |j.cells| % 8 == |j.cells| - at && |j.cells| / 8 * 8 == at;
  }

  lemma WrittenStep(last0: int, ds: seq<Cell>, pos: nat, jobs: seq<Job>, code: seq<byte>, last: int,
                    len: nat, j: Job, last': int, pos': nat)
    requires Written(last0, ds, pos, jobs, code, last) && JobOk(j) && pos' == pos + len
    requires Planned(last, last', ds[pos..], len, j)
    ensures Written(last0, ds, pos', jobs + [j], code + JobCode(j), last')
  {
    CodeSnoc(jobs, j);
    SliceTwice(ds, pos, len, pos');
    LastStep(last0, ds, pos, len, pos');
    PlanAssoc(jobs, j, Plan(last, ds[pos..]), Plan(last', ds[pos'..]));
  }

  lemma LastStep(last0: int, ds: seq<Cell>, pos: nat, len: nat, pos': nat)
    requires 0 < len && pos' == pos + len <= |ds|
    ensures LastTms(LastTms(last0, ds[..pos]), ds[pos..][..len]) == LastTms(last0, ds[..pos'])
  {
    assert ds[pos..][..len][len - 1] == ds[..pos'][pos' - 1];
  }

  lemma ServePulse(dev: Device, size: nat, s: Ftdi, a: Act) returns (t: Ftdi)
    requires Ready(s) && |s.pend| < size <= BUFFER_SIZE && a.Pulse?
    ensures t == Serve(dev, size, s, a)
    ensures var u := Add(dev, size, s, CellOf(a.tms, a.tdi, a.tdo, a.rmask));
            Ready(u) && |u.pend| < size && t == if a.sync then Flush(dev, u) else u
  {
    AddKeeps(dev, size, s, CellOf(a.tms, a.tdi, a.tdo, a.rmask));
    t := Serve(dev, size, s, a);
  }

  lemma TmsPlanned(last: int, rest: seq<Cell>, len: nat, tdi: bool)
    requires rest != [] && !SameLevel(last, rest[0].tms) && (len, tdi) == TmsChunk(rest)
    ensures 0 < len <= |rest| && len <= 6 && JobOk(TmsJob(rest[..len], tdi))
    ensures Planned(last, BoolToNat(rest[len - 1].tms), rest, len, TmsJob(rest[..len], tdi))
  {
    hide TmsChunk, JobOk, SameLevel, BoolToNat;
    TmsChunkOk(rest);
  }

  lemma SliceTwice(ds: seq<Cell>, pos: nat, len: nat, pos': nat)
    requires pos' == pos + len <= |ds|
    ensures ds[pos..][len..] == ds[pos'..]
  {
  }

  lemma PlanAssoc(a: seq<Job>, j: Job, p: seq<Job>, b: seq<Job>)
    ensures p == [j] + b ==> a + p == a + [j] + b
  {
  }

  lemma WrittenAll(last0: int, ds: seq<Cell>, jobs: seq<Job>, code: seq<byte>, last: int)
    requires Written(last0, ds, |ds|, jobs, code, last)
    ensures jobs == Plan(last0, ds) && last == LastTms(last0, ds)
  {
    assert ds[|ds|..] == [] && ds[..|ds|] == ds && jobs + [] == jobs;
  }

  lemma {:induction false} CodeSnoc(js: seq<Job>, j: Job)
    requires JobsOk(js) && JobOk(j)
    ensures JobsOk(js + [j]) && Code(js + [j]) == Code(js) + JobCode(j)
    decreases |js|
  {
    hide JobCode, JobOk;
    var all := js + [j];
    if js == [] {
      assert all[1..] == [] && Code(all) == JobCode(j) + [] == [] + JobCode(j);
    } else {
      var rest := js[1..];
      CodeSnoc(rest, j);
      assert all[1..] == rest + [j];
      ConcatAssoc(JobCode(js[0]), Code(rest), JobCode(j));
    }
  }

  lemma ConcatAssoc(a: seq<byte>, b: seq<byte>, c: seq<byte>)
    ensures a + (b + c) == a + b + c
  {
  }

  /** `b |= v << i`. */
  function OrData(b: byte, i: nat, v: bool): (r: byte)
    requires i < 8
    ensures forall j: nat :: Bit(r, j) == ((i == j && v) || Bit(b, j))
  {
    OrBitByte(b, i, v);
    OrBit(b, i, v)
  }

  lemma Slice(a: array<Cell>, lo: nat, hi: nat)
    requires lo <= hi <= a.Length
    ensures a[..][lo..hi] == a[lo..hi]
  {
  }

  lemma DataBytesSnoc(cells: seq<Cell>, pos: nat, j: nat)
    requires pos + 8 * (j + 1) <= |cells|
    ensures DataBytes(cells[pos..pos + 8 * (j + 1)])
            == DataBytes(cells[pos..pos + 8 * j]) + [PackByte(TdiBits(cells[pos + j * 8..pos + j * 8 + 8]))]
  {
    var ds := cells[pos..pos + 8 * (j + 1)];
    assert ds[..|ds| - 8] == cells[pos..pos + 8 * j];
    assert ds[|ds| - 8..] == cells[pos + j * 8..pos + j * 8 + 8];
  }

  lemma TdiCodeParts(ds: seq<Cell>)
    requires |ds| < MAX_PULSES
    ensures TdiCode(ds) == WholeCode(ds) + PartialCode(ds) + [0x87]
  {
  }

  lemma ZeroBits()
    ensures forall i: nat :: !Bit(0, i)
  {
    forall i: nat
      ensures !Bit(0, i)
    {
      ZeroBit(i);
    }
  }

  lemma TmsByte(ds: seq<Cell>, tdi: bool, data: byte)
    requires 0 < |ds| <= 6
    requires forall k: nat :: Bit(data, k) ==
               ((k == |ds| && ds[|ds| - 1].tms) || (k < |ds| && ds[k].tms) || (k == 7 && tdi))
    ensures data == PackByte(TmsData(ds, tdi))
  {
    Pow2Of8();
    forall i: nat | i < 8
      ensures Bit(data, i) == Bit(PackByte(TmsData(ds, tdi)), i)
    {
      TmsDataBits(ds, tdi, i);
    }
    BitsDetermine(data, PackByte(TmsData(ds, tdi)), 8);
  }

  lemma TdiByte(ds: seq<Cell>, b: byte)
    requires |ds| <= 8
    requires forall i: nat :: Bit(b, i) == (i < |ds| && ds[i].tdi)
    ensures b == PackByte(TdiBits(ds))
  {
    Pow2Of8();
    forall i: nat | i < 8
      ensures Bit(b, i) == Bit(PackByte(TdiBits(ds)), i)
    {
      PackBit(TdiBits(ds), i);
    }
    BitsDetermine(b, PackByte(TdiBits(ds)), 8);
  }
}
