/** Programming a serial flash through papilio-prog/progalgspi.cpp, for the
    Macronix and generic parts, on a model of a NOR flash. */
module Flash {
  import opened Arithmetic
  import opened Bits

  // ---------------------------------------------------------------------
  // The chip
  // ---------------------------------------------------------------------

  const PAGE: nat := 256
  const SECTOR: nat := 65536

  /** Bitwise and of the low `n` bits. */
  function AndBits(a: nat, b: nat, n: nat): (r: nat)
    ensures r < Pow2(n)
  {
    if n == 0 then 0
    else (if a % 2 == 1 && b % 2 == 1 then 1 else 0) + 2 * AndBits(a / 2, b / 2, n - 1)
  }

  function And(a: byte, b: byte): byte {
    Pow2Of8();
    AndBits(a, b, 8)
  }

  lemma {:induction false} AndOnes(a: nat, b: nat, n: nat)
    requires a == Pow2(n) - 1 && b < Pow2(n)
    ensures AndBits(a, b, n) == b
    decreases n
  {
    if n > 0 {
      AndOnes(a / 2, b / 2, n - 1);
    }
  }

  lemma {:induction false} AndNothing(a: nat, n: nat)
    ensures AndBits(a, 0, n) == 0
    decreases n
  {
    if n > 0 {
      AndNothing(a / 2, n - 1);
    }
  }

  const BLANK: byte := 0xFF

  lemma AndBlank(b: byte)
    ensures And(BLANK, b) == b
  {
    Pow2Of8();
    AndOnes(BLANK, b, 8);
  }

  lemma AndZero(b: byte)
    ensures And(b, 0) == 0
  {
    AndNothing(b, 8);
  }

  type Memory = seq<byte>

  /** Erasing sets the whole sector of an address. */
  function EraseSector(mem: Memory, addr: nat): (r: Memory)
    ensures |r| == |mem|
    ensures forall a :: 0 <= a < |mem| ==> r[a] == if a / SECTOR == addr / SECTOR then BLANK else mem[a]
  {
    seq<byte>(|mem|, a requires 0 <= a < |mem| => if a / SECTOR == addr / SECTOR then BLANK else mem[a])
  }

  /** The data byte that a page program sends to address `a`: addresses wrap at the
      end of the page. */
  function Offset(addr: nat, a: nat): nat {
    (a % PAGE + PAGE - addr % PAGE) % PAGE
  }

  /** Programming clears bits in one page. */
  function ProgramPage(mem: Memory, addr: nat, data: seq<byte>): (r: Memory)
    ensures |r| == |mem|
    ensures forall a :: 0 <= a < |mem| ==>
              r[a] == if a / PAGE == addr / PAGE && Offset(addr, a) < |data| then And(mem[a], data[Offset(addr, a)])
                      else mem[a]
  {
    seq<byte>(|mem|, a requires 0 <= a < |mem| =>
      if a / PAGE == addr / PAGE && Offset(addr, a) < |data| then And(mem[a], data[Offset(addr, a)]) else mem[a])
  }

  function AddressOf(cmd: seq<byte>): nat
    requires |cmd| >= 4
  {
    var high: nat, middle: nat, low: nat := cmd[1], cmd[2], cmd[3];
    (high * 256 + middle) * 256 + low
  }

  /** `busy`: how many more status reads will find the chip at work. */
  datatype ChipState = ChipState(mem: Memory, writeEnabled: bool, busy: nat)

  /** How many status reads an erase and a page program take. */
  datatype Times = Times(erase: nat, program: nat)

  function Status(s: ChipState): byte {
    (if s.writeEnabled then 2 else 0) + (if s.busy > 0 then 1 else 0)
  }

  /** Write enable, sector erase, page program and status; other commands, and all
      but status while the chip is busy, change nothing. */
  function AfterCommand(t: Times, s: ChipState, cmd: seq<byte>): ChipState
    requires cmd != []
  {
    if cmd[0] == 0x05 then s.(busy := if s.busy > 0 then s.busy - 1 else 0)
    else if s.busy > 0 then s
    else if cmd[0] == 0x06 then s.(writeEnabled := true)
    else if cmd[0] == 0xd8 && |cmd| >= 4 && s.writeEnabled then
      ChipState(EraseSector(s.mem, AddressOf(cmd)), false, t.erase)
    else if cmd[0] == 0x02 && |cmd| >= 4 && s.writeEnabled then
      ChipState(ProgramPage(s.mem, AddressOf(cmd), cmd[4..]), false, t.program)
    else s
  }

  class Chip {
    const times: Times
    var state: ChipState

    constructor (times: Times, mem: Memory)
      ensures this.times == times && state == ChipState(mem, false, 0)
    {
      this.times, state := times, ChipState(mem, false, 0);
    }

    /** One transfer; the reply has as many bytes as were sent. */
    method Command(cmd: seq<byte>) returns (reply: seq<byte>)
      requires cmd != []
      modifies this
      ensures |reply| == |cmd| && state == AfterCommand(times, old(state), cmd)
      ensures cmd[0] == 0x05 && |cmd| >= 2 ==> reply[1] == Status(old(state))
      ensures cmd[0] == 0x03 && |cmd| >= 4 && old(state).busy == 0 ==>
                forall k :: 4 <= k < |cmd| && AddressOf(cmd) + k - 4 < |state.mem| ==>
                  reply[k] == state.mem[AddressOf(cmd) + k - 4]
    {
      reply := seq<byte>(|cmd|, _ => 0);
      if cmd[0] == 0x05 && |cmd| >= 2 {
        reply := reply[1 := Status(state)];
      } else if cmd[0] == 0x03 && |cmd| >= 4 {
        var m := state.mem;
        reply := seq<byte>(|cmd|, k requires 0 <= k < |cmd| =>
          if 4 <= k && AddressOf(cmd) + k - 4 < |m| then m[AddressOf(cmd) + k - 4] else 0);
      }
      state := AfterCommand(times, state, cmd);
    }
  }

  // ---------------------------------------------------------------------
  // The programmer
  // ---------------------------------------------------------------------

  datatype FlashType = Macronix | Generic

  datatype Options = VerifyOnly | WriteOnly | Full

  function Bytes(bits: nat): nat {
    (bits + 7) / 8
  }

  function Pages(bytes: nat): nat {
    (bytes + PAGE - 1) / PAGE
  }

  function Sectors(bytes: nat): nat {
    (bytes + SECTOR - 1) / SECTOR
  }

  /** Spi_PartialErase: the sectors the image touches. */
  predicate Erased(was: Memory, now: Memory, bytes: nat) {
    |now| == |was| && forall a :: 0 <= a < |now| ==> now[a] == if a < Sectors(bytes) * SECTOR then BLANK else was[a]
  }

  /** What a page write puts at address `a`: past the image, the page is filled with
      zeros. */
  function Sent(data: seq<byte>, bytes: nat, a: nat): byte
    requires bytes <= |data|
  {
    if a < bytes then data[a] else 0
  }

  /** Spi_Write: the pages the image touches, bits only cleared. */
  predicate Written(was: Memory, now: Memory, data: seq<byte>, bytes: nat)
    requires bytes <= |data|
  {
    |now| == |was|
    && forall a :: 0 <= a < |now| ==> 
         now[a] == if a < Pages(bytes) * PAGE then And(was[a], Sent(data, bytes, a)) else was[a]
  }

  /** The memory starts with the data. */
  predicate Holds(mem: Memory, data: seq<byte>, bytes: nat)
    requires bytes <= |data|
  {
    bytes <= |mem| && mem[..bytes] == data[..bytes]
  }

  lemma PagesInSectors(bytes: nat)
    ensures bytes <= Pages(bytes) * PAGE <= Sectors(bytes) * SECTOR
  {
    var n := Sectors(bytes) * (SECTOR / PAGE);
    assert n * PAGE == Sectors(bytes) * SECTOR >= bytes;
    assert bytes + PAGE - 1 < (n + 1) * PAGE;
    assert Pages(bytes) < n + 1;
  }

  /** A full run on a chip of whole sectors leaves the image, then zeros to the end of
      its last page, then blank bytes to the end of its last sector; later sectors
      are as they were. */
  lemma ErasedThenWritten(was: Memory, erased: Memory, now: Memory, data: seq<byte>, bytes: nat)
    requires bytes <= |data| && bytes <= |was| && |was| % SECTOR == 0
    requires Erased(was, erased, bytes) && Written(erased, now, data, bytes)
    ensures Holds(now, data, bytes)
    ensures forall a :: 0 <= a < |now| ==>
              now[a] == if a < bytes then data[a] else Rest(was, bytes, a)
  {
    PagesInSectors(bytes);
    hide And;
    forall a | 0 <= a < |now|
      ensures now[a] == if a < bytes then data[a] else Rest(was, bytes, a)
    {
      hide Pages, Sectors;
      AndBlank(Sent(data, bytes, a));
      AndZero(erased[a]);
    }
  }

  /** Max_Retries and the SectorErase limit of the part. */
  datatype Limits = Limits(retries: nat, sectorErase: nat)

  lemma SplitAddress(a: nat)
    requires a < 0x100_0000
    ensures (a / 0x1_0000 % 256 * 256 + a / 0x100 % 256) * 256 + a % 256 == a
  {
    var b := a / 256;
    assert a == b * 256 + a % 256;
    var c := b / 256;
    assert b == c * 256 + b % 256;
    assert c == a / 0x1_0000 && c < 256;
  }

  class ProgAlgSpi {
    const chip: Chip
    const flashType: FlashType
    const pages: nat
    const limits: Limits

    /** The chip is idle and consists of whole sectors. */
    ghost predicate Valid()
      reads this, chip
    {
      && |chip.state.mem| == pages * PAGE && |chip.state.mem| % SECTOR == 0
      && chip.state.busy == 0
      && chip.times.program <= limits.retries && chip.times.erase <= limits.sectorErase
    }

    constructor (chip: Chip, flashType: FlashType, pages: nat, limits: Limits)
      requires |chip.state.mem| == pages * PAGE && |chip.state.mem| % SECTOR == 0 && chip.state.busy == 0
      requires chip.times.program <= limits.retries && chip.times.erase <= limits.sectorErase
      ensures Valid() && this.chip == chip && this.flashType == flashType && this.pages == pages
    {
      this.chip, this.flashType, this.pages, this.limits := chip, flashType, pages, limits;
    }

    /** Spi_SetCommandRW: a command byte and a 24-bit address. */
    method SetCommandRW(command: byte, data: array<byte>, address: nat)
      requires data.Length >= 4 && address < 0x100_0000
      modifies data
      ensures data[0] == command && AddressOf(data[..]) == address
      ensures data[4..] == old(data[4..])
    {
      data[0] := command;
      data[1] := address / 0x1_0000 % 256;
      data[2] := address / 0x100 % 256;
      data[3] := address % 256;
      SplitAddress(address);
    }

    method SpiWriteCheck() returns (ok: bool)
      modifies chip
      ensures ok == (Status(old(chip.state)) == 2)
      ensures chip.state == old(chip.state).(busy := if old(chip.state).busy > 0 then old(chip.state).busy - 1 else 0)
    {
      var tdo := chip.Command([0x05, 0x00]);
      ok := tdo[1] % 32 == 0x02;
    }

    method SpiCheck() returns (ok: bool)
      modifies chip
      ensures ok == (old(chip.state).busy == 0)
      ensures chip.state == old(chip.state).(busy := if old(chip.state).busy > 0 then old(chip.state).busy - 1 else 0)
    {
      var tdo := chip.Command([0x05, 0x00]);
      ok := tdo[1] % 2 == 0x00;
    }

    /** Write enable, and the wait for it. */
    method WriteEnable() returns (fail: bool)
      modifies chip
      ensures old(chip.state).busy == 0 ==> !fail && chip.state == old(chip.state).(writeEnabled := true)
    {
      var _ := chip.Command([0x06]);
      fail := false;
      var x := 0;
      while x <= limits.retries
        invariant old(chip.state).busy == 0 ==> x == 0 && !fail && chip.state == old(chip.state).(writeEnabled := true)
      {
        var ok := SpiWriteCheck();
        fail := !ok;
        if !fail {
          break;
        }
        x := x + 1;
      }
    }

    /** The wait for the chip, at most `limit + 1` status reads. */
    method WaitReady(limit: nat) returns (fail: bool)
      modifies chip
      ensures fail == (old(chip.state).busy > limit)
      ensures !fail ==> chip.state == old(chip.state).(busy := 0)
    {
      fail := false;
      var x := 0;
      while x <= limit
        invariant 0 <= x <= limit + 1 && x <= old(chip.state).busy
        invariant chip.state == old(chip.state).(busy := old(chip.state).busy - x)
        invariant x > 0 ==> fail
      {
        var ok := SpiCheck();
        fail := !ok;
        if !fail {
          break;
        }
        x := x + 1;
      }
    }

    /** Spi_PartialErase. */
    method SpiPartialErase(length: nat) returns (ok: bool)
      requires Valid() && Bytes(length) <= |chip.state.mem| && Bytes(length) <= 0x100_0000
      modifies chip
      ensures Valid() && ok && Erased(old(chip.state.mem), chip.state.mem, Bytes(length))
    {
      hide Bytes, EraseSector;
      var data := new byte[4];
      var fail := false;
      var wBytes := Bytes(length);
      var doPages := Pages(wBytes);
      var i := 0;
      while i < doPages && !fail
        invariant 0 <= i <= doPages && !fail && Valid()
        invariant Erased(old(chip.state.mem), chip.state.mem, i * PAGE)
      {
        ghost var was, now := old(chip.state.mem), chip.state.mem;
        if i * PAGE % SECTOR == 0 {
          fail := EraseAt(i * PAGE, data);
          NextSector(was, now, i);
        } else {
          SameSector(i);
        }
        i := i + 1;
      }
      SectorsOfPages(wBytes);
      ok := !fail;
    }

    /** Erases the sector of an address. */
    method EraseAt(address: nat, data: array<byte>) returns (fail: bool)
      requires Valid() && data.Length == 4 && address < 0x100_0000
      modifies chip, data
      ensures Valid() && !fail && chip.state.mem == EraseSector(old(chip.state.mem), address)
    {
      fail := WriteEnable();
      SetCommandRW(0xd8, data, address);
      var _ := chip.Command(data[..]);
      fail := WaitReady(limits.sectorErase);
    }

    /** A zeroed buffer with a command, an address, and `n` bytes of the image. */
    method FillBuffer(data: array<byte>, command: byte, address: nat, image: seq<byte>, from: nat, n: nat)
      requires data.Length == PAGE + 4 && address < 0x100_0000 && n <= PAGE && from + n <= |image|
      modifies data
      ensures data[0] == command && AddressOf(data[..]) == address
      ensures forall k :: 0 <= k < PAGE ==> data[..][4..][k] == if k < n then image[from + k] else 0
    {
      forall i | 0 <= i < data.Length {
        data[i] := 0;
      }
      SetCommandRW(command, data, address);
      ghost var head := data[..4];
      forall k | 0 <= k < n {
        data[4 + k] := image[from + k];
      }
      assert data[..4] == head;
    }

    /** One page: write enable, page program with the `n` bytes of the image and
        zeros after them, and the wait. Other parts than Macronix ones also get a
        command 0x88, which they do not know. */
    method WritePage(data: array<byte>, image: seq<byte>, page: nat, n: nat) returns (fail: bool)
      requires Valid() && data.Length == PAGE + 4 && page * PAGE < 0x100_0000 && n <= PAGE && page * PAGE + n <= |image|
      modifies chip, data
      ensures Valid() && !fail
      ensures chip.state.mem == ProgramPage(old(chip.state.mem), page * PAGE, PageBytes(image, page, n))
    {
      fail := WriteEnable();
      FillBuffer(data, 0x02, page * PAGE, image, page * PAGE, n);
      assert data[..][4..] == PageBytes(image, page, n);
      var _ := chip.Command(data[..]);
      if flashType != Macronix {
        FillBuffer(data, 0x88, page, [], 0, 0);
        var _ := chip.Command(data[..4]);
      }
      fail := WaitReady(limits.retries);
    }

    /** Spi_Write. */
    method SpiWrite(image: seq<byte>, length: nat) returns (ok: bool)
      requires Valid() && Bytes(length) <= |image| && Bytes(length) <= |chip.state.mem| && Bytes(length) <= 0x100_0000
      modifies chip
      ensures Valid() && ok && Written(old(chip.state.mem), chip.state.mem, image, Bytes(length))
    {
      hide ProgramPage, Bytes, PageBytes;
      var data := new byte[PAGE + 4];
      var fail := false;
      var wBytes := Bytes(length);
      var doPages := wBytes / PAGE;
      var i := 0;
      while i < doPages && !fail
        invariant 0 <= i <= doPages && !fail && Valid()
        invariant Written(old(chip.state.mem), chip.state.mem, image, i * PAGE)
      {
        ghost var now := chip.state.mem;
        fail := WritePage(data, image, i, PAGE);
        NextPage(old(chip.state.mem), now, image, i, PAGE, (i + 1) * PAGE);
        i := i + 1;
      }
      if !fail && doPages * PAGE < wBytes {
        ghost var now := chip.state.mem;
        var remBytes := wBytes - doPages * PAGE;
        fail := WritePage(data, image, doPages, remBytes);
        NextPage(old(chip.state.mem), now, image, doPages, remBytes, wBytes);
      }
      ok := !fail;
    }

    /** One read of a page: whether its first `n` bytes are those of the image. */
    method PageMatches(data: array<byte>, image: seq<byte>, page: nat, n: nat) returns (same: bool)
      requires Valid() && data.Length == PAGE + 4 && page * PAGE < 0x100_0000 && n <= PAGE
      requires page * PAGE + n <= |image| && page * PAGE + n <= |chip.state.mem|
      modifies chip, data
      ensures Valid() && chip.state.mem == old(chip.state.mem)
      ensures same == (chip.state.mem[page * PAGE..page * PAGE + n] == image[page * PAGE..page * PAGE + n])
    {
      FillBuffer(data, 0x03, page * PAGE, [], 0, 0);
      var tdo := chip.Command(data[..]);
      assert tdo[4..4 + n] == chip.state.mem[page * PAGE..page * PAGE + n];
      same := tdo[4..4 + n] == image[page * PAGE..page * PAGE + n];
    }

    /** Spi_Verify. */
    method SpiVerify(image: seq<byte>, length: nat) returns (ok: bool)
      requires Valid() && Bytes(length) <= |image| && Bytes(length) <= |chip.state.mem| && Bytes(length) <= 0x100_0000
      modifies chip
      ensures Valid() && chip.state.mem == old(chip.state.mem)
      ensures ok <==> Holds(chip.state.mem, image, Bytes(length))
    {
      var data := new byte[PAGE + 4];
      var fail := false;
      var wBytes := Bytes(length);
      var doPages := wBytes / PAGE;
      ghost var mem := chip.state.mem;
      var i := 0;
      while i < doPages && !fail
        invariant 0 <= i <= doPages && Valid() && chip.state.mem == mem
        invariant fail ==> !Holds(mem, image, wBytes)
        invariant !fail ==> Holds(mem, image, i * PAGE)
      {
        var same := PageMatches(data, image, i, PAGE);
        HoldsMore(mem, image, i * PAGE, (i + 1) * PAGE, wBytes);
        if !same {
          fail := true;
        }
        i := i + 1;
      }
      if !fail && doPages * PAGE < wBytes {
        var same := PageMatches(data, image, doPages, wBytes - doPages * PAGE);
        HoldsMore(mem, image, doPages * PAGE, wBytes, wBytes);
        if !same {
          fail := true;
        }
      }
      ok := !fail;
    }

    /** ProgramSpi, once the part is identified. An image that does not fit is
        refused; one beyond 24-bit addresses is not considered. */
    method ProgramSpi(image: seq<byte>, length: nat, options: Options) returns (ok: bool)
      requires Valid() && Bytes(length) <= |image| && Bytes(length) <= 0x100_0000
      modifies chip
      ensures Valid()
      ensures pages * PAGE * 8 < length ==> !ok && chip.state.mem == old(chip.state.mem)
      ensures pages * PAGE * 8 >= length ==>
                var was, now, bytes := old(chip.state.mem), chip.state.mem, Bytes(length);
                match options
                case VerifyOnly => now == was && (ok <==> Holds(now, image, bytes))
                case WriteOnly => ok && Written(was, now, image, bytes)
                case Full => ok && Holds(now, image, bytes)
                             && forall a :: bytes <= a < |now| ==> now[a] == Rest(was, bytes, a)
    {
      if pages * PAGE * 8 < length {
        return false;
      }
      ghost var was := chip.state.mem;
      if options == Full {
        ok := SpiPartialErase(length);
        var empty := seq<byte>(length / 8 + 1, _ => BLANK);
        ok := SpiVerify(empty, length);
        if !ok {
          return false;
        }
      }
      ghost var erased := chip.state.mem;
      if options == Full || options == WriteOnly {
        ok := SpiWrite(image, length);
      }
      if options == Full {
        ErasedThenWritten(was, erased, chip.state.mem, image, Bytes(length));
      }
      if options == Full || options == VerifyOnly {
        ok := SpiVerify(image, length);
      }
    }
  }

  /** What a full run leaves at an address past the image. */
  function Rest(was: Memory, bytes: nat, a: nat): byte
    requires a < |was|
  {
    if a < Pages(bytes) * PAGE then 0 else if a < Sectors(bytes) * SECTOR then BLANK else was[a]
  }

  /** The bytes of a page program. */
  function PageBytes(image: seq<byte>, page: nat, n: nat): (r: seq<byte>)
    requires n <= PAGE && page * PAGE + n <= |image|
    ensures |r| == PAGE && forall k :: 0 <= k < PAGE ==> r[k] == if k < n then image[page * PAGE + k] else 0
  {
    seq<byte>(PAGE, k requires 0 <= k < PAGE => if k < n then image[page * PAGE + k] else 0)
  }

  lemma NextPage(was: Memory, now: Memory, image: seq<byte>, page: nat, n: nat, bytes: nat)
    requires 0 < n <= PAGE && bytes == page * PAGE + n <= |image| && Written(was, now, image, page * PAGE)
    ensures Written(was, ProgramPage(now, page * PAGE, PageBytes(image, page, n)), image, bytes)
  {
    hide And, ProgramPage, PageBytes;
    assert Pages(page * PAGE) == page && Pages(bytes) == page + 1;
    forall a | 0 <= a < |was|
      ensures ProgramPage(now, page * PAGE, PageBytes(image, page, n))[a]
              == if a < Pages(bytes) * PAGE then And(was[a], Sent(image, bytes, a)) else was[a]
    {
    }
  }

  lemma HoldsMore(mem: Memory, image: seq<byte>, a: nat, b: nat, c: nat)
    requires a <= b <= c <= |image| && b <= |mem|
    ensures Holds(mem, image, b) <==> Holds(mem, image, a) && mem[a..b] == image[a..b]
    ensures Holds(mem, image, c) ==> Holds(mem, image, b)
  {
    assert mem[..b] == mem[..a] + mem[a..b] && image[..b] == image[..a] + image[a..b];
    if Holds(mem, image, b) {
      assert mem[..a] == mem[..b][..a] && image[..a] == image[..b][..a];
      assert mem[a..b] == mem[..b][a..] && image[a..b] == image[..b][a..];
    }
    if Holds(mem, image, c) {
      assert mem[..b] == mem[..c][..b] && image[..b] == image[..c][..b];
    }
  }

  lemma NextSector(was: Memory, now: Memory, i: nat)
    requires i * PAGE % SECTOR == 0 && Erased(was, now, i * PAGE)
    ensures Erased(was, EraseSector(now, i * PAGE), (i + 1) * PAGE)
  {
    var k := i * PAGE / SECTOR;
    assert i * PAGE == k * SECTOR;
    assert Sectors(i * PAGE) == k && Sectors((i + 1) * PAGE) == k + 1;
  }

  lemma SectorsUpTo(k: nat, bytes: nat)
    requires 0 < bytes <= SECTOR
    ensures Sectors(k * SECTOR + bytes) == k + 1
  {
    var r: nat := bytes - 1;
    assert k * SECTOR + bytes + SECTOR - 1 == (k + 1) * SECTOR + r;
    DivUnique(k + 1, SECTOR, r);
  }

  lemma SameSector(i: nat)
    requires i * PAGE % SECTOR != 0
    ensures Sectors((i + 1) * PAGE) == Sectors(i * PAGE)
  {
    hide Sectors;
    var k, r := i / 256, i % 256;
    assert i == k * 256 + r;
    assert i * PAGE == k * SECTOR + r * PAGE && (i + 1) * PAGE == k * SECTOR + (r + 1) * PAGE;
    ModUnique(k, SECTOR, r * PAGE);
    SectorsUpTo(k, r * PAGE);
    SectorsUpTo(k, (r + 1) * PAGE);
  }

  lemma PagesUpTo(k: nat, r: nat)
    requires r < SECTOR
    ensures Pages(k * SECTOR + r + 1) * PAGE == k * SECTOR + (r / PAGE + 1) * PAGE
  {
    var s, d := r / PAGE, r % PAGE;
    assert k * SECTOR + r + 1 + PAGE - 1 == (k * 256 + s + 1) * PAGE + d;
    DivUnique(k * 256 + s + 1, PAGE, d);
  }

  lemma SectorsOfPages(bytes: nat)
    ensures Sectors(Pages(bytes) * PAGE) == Sectors(bytes)
  {
    if bytes > 0 {
      var k, r := (bytes - 1) / SECTOR, (bytes - 1) % SECTOR;
      assert bytes == k * SECTOR + r + 1;
      PagesUpTo(k, r);
      assert (r / PAGE + 1) * PAGE <= SECTOR;
      hide Sectors, Pages;
      SectorsUpTo(k, r + 1);
      SectorsUpTo(k, (r / PAGE + 1) * PAGE);
    }
  }
}
