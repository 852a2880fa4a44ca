/**
 * The polled SPI NOR flash driver (nftl/source/spiflash_ll.c) over a model of the part it drives
 * (W25Q64, nftl/source/spiflash_config.h:90-109): programming can only clear bits, wraps inside a
 * 256-byte page, needs the write latch, and every command but a status read is lost while the
 * part is busy.
 */
module NorFlash {

  const PAGE: int := 256
  const SECTOR: int := 4096
  const BLOCK: int := 65536
  const CAPACITY: int := 0x80_0000
  const BLOCK_COUNT: int := 128
  const BLOCK_SHIFT_FACTOR: int := 65536   // block_shift_number 16
  const WORD: int := 0x1_0000_0000

  const WRITE_DATA_CMD: byte := 0x02
  const READ_DATA_CMD: byte := 0x03
  const SECTOR_ERASE_CMD: byte := 0x20
  const BLOCK_ERASE_CMD: byte := 0xD8

  type byte = x: int | 0 <= x < 256
  type uint32 = x: int | 0 <= x < 0x1_0000_0000
  type Memory = m: seq<bv8> | |m| == CAPACITY witness seq(CAPACITY, _ => 0xFF)

  // The part holds 8 MiB: 128 blocks, 2048 sectors, 32768 pages.
  lemma Geometry()
    ensures CAPACITY == 8 * 1024 * 1024
    ensures BLOCK * 128 == CAPACITY && SECTOR * 2048 == CAPACITY && PAGE * 32768 == CAPACITY
    ensures BLOCK_COUNT * BLOCK == CAPACITY && BLOCK_SHIFT_FACTOR == BLOCK
  {}

  // ---- what the commands do to the cells ----

  // The cell n places after cell i, around the end of the part.
  function At(i: int, n: nat): (k: int)
    requires 0 <= i < CAPACITY
    ensures 0 <= k < CAPACITY
  {
    (i + n) % CAPACITY
  }

  function Next(i: int): (k: int)
    requires 0 <= i < CAPACITY
    ensures 0 <= k < CAPACITY
  {
    if i + 1 == CAPACITY then 0 else i + 1
  }

  lemma AtNext(i: int, n: nat)
    requires 0 <= i < CAPACITY
    ensures At(i, 0) == i && At(Next(i), n) == At(i, n + 1)
  {}

  // Programming bytes one after the other, linearly.
  ghost function Program(mem: Memory, i: int, data: seq<bv8>): (r: Memory)
    requires 0 <= i < CAPACITY
    decreases |data|
  {
    if data == [] then mem
    else Program(mem[i := mem[i] & data[0]], Next(i), data[1..])
  }

  // The page program command: the column counter wraps inside the page.
  function ProgramInPage(mem: Memory, page: int, column: int, data: seq<bv8>): (r: Memory)
    requires 0 <= page <= CAPACITY - PAGE && 0 <= column < PAGE
    decreases |data|
  {
    if data == [] then mem
    else ProgramInPage(mem[page + column := mem[page + column] & data[0]], page, (column + 1) % PAGE, data[1..])
  }

  function EraseRange(mem: Memory, base: int, n: int): (r: Memory)
    requires 0 <= base && 0 <= n && base + n <= CAPACITY
  {
    mem[..base] + seq(n, _ => 0xFF) + mem[base + n..]
  }

  // The erase commands take any address of the sector or block they erase.
  function EraseSector(mem: Memory, i: int): (r: Memory)
    requires 0 <= i < CAPACITY
  {
    EraseRange(mem, i / SECTOR * SECTOR, SECTOR)
  }

  function EraseBlock(mem: Memory, i: int): (r: Memory)
    requires 0 <= i < CAPACITY
  {
    EraseRange(mem, i / BLOCK * BLOCK, BLOCK)
  }

  function Read(mem: Memory, i: int, n: nat): (r: seq<bv8>)
    requires 0 <= i < CAPACITY
    ensures |r| == n
  {
    seq(n, j requires 0 <= j => mem[At(i, j)])
  }

  lemma {:induction false} ProgramConcat(mem: Memory, i: int, x: seq<bv8>, y: seq<bv8>)
    requires 0 <= i < CAPACITY
    ensures Program(mem, i, x + y) == Program(Program(mem, i, x), At(i, |x|), y)
    decreases |x|
  {
    if x == [] {
      AtNext(i, 0);
      assert x + y == y;
    } else {
      assert (x + y)[1..] == x[1..] + y;
      ProgramConcat(mem[i := mem[i] & x[0]], Next(i), x[1..], y);
      AtNext(i, |x| - 1);
    }
  }

  // Inside one page the wrapping command is linear programming.
  lemma {:induction false} PageIsLinear(mem: Memory, page: int, column: int, data: seq<bv8>)
    requires 0 <= page <= CAPACITY - PAGE && 0 <= column < PAGE && column + |data| <= PAGE
    ensures ProgramInPage(mem, page, column, data) == Program(mem, page + column, data)
    decreases |data|
  {
    if |data| == 1 {
      assert data[1..] == [];
    } else if data != [] {
      PageIsLinear(mem[page + column := mem[page + column] & data[0]], page, column + 1, data[1..]);
    }
  }

  // How far past i the cell k lies, going up and around.
  ghost function Offset(i: int, k: int): (d: int)
    requires 0 <= i < CAPACITY && 0 <= k < CAPACITY
    ensures 0 <= d < CAPACITY
  {
    if i <= k then k - i else k - i + CAPACITY
  }

  // A programmed cell is the bitwise and of old and new; every other cell is kept.
  lemma {:induction false} ProgramCell(mem: Memory, i: int, data: seq<bv8>, k: int)
    requires 0 <= i < CAPACITY && 0 <= k < CAPACITY && |data| <= CAPACITY
    ensures Program(mem, i, data)[k] ==
            if Offset(i, k) < |data| then mem[k] & data[Offset(i, k)] else mem[k]
    decreases |data|
  {
    if data != [] {
      ProgramCell(mem[i := mem[i] & data[0]], Next(i), data[1..], k);
    }
  }

  lemma OffsetOfAt(i: int, j: nat)
    requires 0 <= i < CAPACITY && j < CAPACITY
    ensures Offset(i, At(i, j)) == j
  {}

  // Reading back what was programmed gives the data exactly when no bit of it had to be set.
  lemma ReadBack(mem: Memory, i: int, data: seq<bv8>)
    requires 0 <= i < CAPACITY && |data| <= CAPACITY
    ensures Read(Program(mem, i, data), i, |data|) == data
            <==> forall j :: 0 <= j < |data| ==> Read(mem, i, |data|)[j] & data[j] == data[j]
  {
    var before, after := Read(mem, i, |data|), Read(Program(mem, i, data), i, |data|);
    forall j | 0 <= j < |data|
      ensures after[j] == before[j] & data[j]
    {
      ProgramCell(mem, i, data, At(i, j));
      OffsetOfAt(i, j);
    }
    assert (forall j :: 0 <= j < |data| ==> before[j] & data[j] == data[j]) ==> after == data;
  }

  // Erase a range, write inside it, read back: the data, and every cell outside the range is kept.
  lemma EraseWriteRead(mem: Memory, base: int, n: int, i: int, data: seq<bv8>)
    requires 0 <= base <= i < CAPACITY && i + |data| <= base + n <= CAPACITY
    ensures var after := Program(EraseRange(mem, base, n), i, data);
            && Read(after, i, |data|) == data
            && forall k :: 0 <= k < base || base + n <= k < CAPACITY ==> after[k] == mem[k]
  {
    var erased := EraseRange(mem, base, n);
    forall k | 0 <= k < base || base + n <= k < CAPACITY
      ensures Program(erased, i, data)[k] == mem[k]
    {
      ProgramCell(erased, i, data, k);
    }
    forall j | 0 <= j < |data|
      ensures Read(erased, i, |data|)[j] & data[j] == data[j]
    {
      assert Read(erased, i, |data|)[j] == 0xFF;
    }
    ReadBack(erased, i, data);
  }

  // ---- the part ----

  predicate Bit0(status: byte) {
    status % 2 == 1
  }

  predicate Bit1(status: byte) {
    status / 2 % 2 == 1
  }

  class Flash {
    var mem: Memory
    var writeLatch: bool
    var busy: nat        // status reads until the operation in progress is over

    constructor (contents: Memory)
      ensures mem == contents && !writeLatch && busy == 0
    {
      mem, writeLatch, busy := contents, false, 0;
    }

    method SetLatch(enable: bool)
      modifies this`writeLatch
      ensures writeLatch == if busy == 0 then enable else old(writeLatch)
    {
      if busy == 0 {
        writeLatch := enable;
      }
    }

    // Bit 0 of the status is the busy bit, bit 1 the write latch.
    method ReadStatus() returns (status: byte)
      modifies this`busy
      ensures status % 4 == (if old(busy) > 0 then 1 else 0) + (if writeLatch then 2 else 0)
      ensures busy == if old(busy) > 0 then old(busy) - 1 else 0
    {
      status := (if busy > 0 then 1 else 0) + (if writeLatch then 2 else 0);
      if busy > 0 {
        busy := busy - 1;
      }
    }

    static function Address24(high: int, middle: int, low: int): int {
      high * 65536 + middle * 256 + low
    }

    // The array index that the three address bytes select; bits above the capacity are not connected.
    static function Decode(command: seq<byte>): (i: int)
      requires |command| == 4
      ensures 0 <= i < CAPACITY
    {
      Address24(command[1], command[2], command[3]) % CAPACITY
    }

    // A page program or erase command with its address and data bytes, up to deselecting the part.
    method Execute(command: array<byte>, data: seq<bv8>, ghost i: int)
      requires command.Length == 4 && |data| <= PAGE && i == Decode(command[..])
      modifies this
      ensures old(busy) > 0 || !old(writeLatch) ==> mem == old(mem) && busy == old(busy) && writeLatch == old(writeLatch)
      ensures old(busy) == 0 && old(writeLatch) ==> !writeLatch && mem == Effect(old(mem), command[0], i, data)
    {
      if busy == 0 && writeLatch {
        mem := Effect(mem, command[0], Decode(command[..]), data);
        writeLatch := false;
        var duration: nat := *;
        busy := duration;
      }
    }

    // The codes are the part's own.
    static function Effect(mem: Memory, code: byte, i: int, data: seq<bv8>): Memory
      requires 0 <= i < CAPACITY && |data| <= PAGE
    {
      if code == 0x02 then ProgramInPage(mem, i - i % PAGE, i % PAGE, data)
      else if code == 0x20 then EraseSector(mem, i)
      else if code == 0xD8 then EraseBlock(mem, i)
      else mem
    }
  }

  // ---- the driver ----

  // norflash_addr_to_buffer: the low three bytes of an address, most significant first.
  method AddrToBuffer(addr: uint32, command: array<byte>)
    requires command.Length == 4
    modifies command
    ensures command[0] == old(command[0])
    ensures command[1] == addr / 0x1_0000 % 256 && command[2] == addr / 0x100 % 256 && command[3] == addr % 256
    ensures Flash.Decode(command[..]) == addr % CAPACITY
  {
    var rest := addr;
    var i := 3;
    TwoBytes(addr);
    while i > 0
      invariant 0 <= i <= 3
      invariant command[0] == old(command[0])
      invariant rest == if i == 3 then addr else if i == 2 then addr / 0x100 else if i == 1 then addr / 0x1_0000 else addr / 0x100_0000
      invariant i <= 2 ==> command[3] == addr % 256
      invariant i <= 1 ==> command[2] == addr / 0x100 % 256
      invariant i == 0 ==> command[1] == addr / 0x1_0000 % 256
    {
      command[i] := rest % 256;
      rest := rest / 256;
      i := i - 1;
    }
    DecodeLow(addr, command[..]);
  }

  lemma TwoBytes(addr: uint32)
    ensures addr / 0x100 / 0x100 == addr / 0x1_0000 && addr / 0x1_0000 / 0x100 == addr / 0x100_0000
  {}

  lemma DecodeLow(addr: uint32, command: seq<byte>)
    requires |command| == 4
    requires command[1] == addr / 0x1_0000 % 256 && command[2] == addr / 0x100 % 256 && command[3] == addr % 256
    ensures Flash.Decode(command) == addr % CAPACITY
  {
    TwoBytes(addr);
    assert addr == addr / 0x100_0000 * 2 * CAPACITY + Flash.Address24(command[1], command[2], command[3]);
  }

  method WaitWhileBusy(chip: Flash)
    modifies chip`busy
    ensures chip.busy == 0
  {
    var status := chip.ReadStatus();
    while Bit0(status)
      invariant !Bit0(status) ==> chip.busy == 0
      decreases chip.busy, Bit0(status)
    {
      status := chip.ReadStatus();
    }
  }

  // norflash_block_erase_ll and norflash_sector_erase_ll, which differ in the command byte only.
  method EraseUnit(chip: Flash, startOffset: uint32, addr: uint32, block: bool)
    requires chip.busy == 0
    modifies chip
    ensures chip.busy == 0
    ensures var i := (addr + startOffset) % WORD % CAPACITY;
            chip.mem == if block then EraseBlock(old(chip.mem), i) else EraseSector(old(chip.mem), i)
  {
    var command := new byte[4];
    var a := (addr + startOffset) % WORD;
    chip.SetLatch(true);
    var _ := chip.ReadStatus();
    command[0] := if block then BLOCK_ERASE_CMD else SECTOR_ERASE_CMD;
    AddrToBuffer(a, command);
    chip.Execute(command, [], a % CAPACITY);
    WaitWhileBusy(chip);
  }

  // norflash_read_data_ll: the part goes on from cell to cell by itself.
  method ReadData(chip: Flash, startOffset: uint32, addr: uint32, size: nat) returns (data: seq<bv8>)
    requires chip.busy == 0
    ensures data == Read(chip.mem, (addr + startOffset) % WORD % CAPACITY, size)
  {
    var command := new byte[4];
    var a := (addr + startOffset) % WORD;
    command[0] := READ_DATA_CMD;
    AddrToBuffer(a, command);
    data := Read(chip.mem, Flash.Decode(command[..]), size);
  }

  method EnableWrite(chip: Flash)
    requires chip.busy == 0
    modifies chip`writeLatch, chip`busy
    ensures chip.busy == 0 && chip.writeLatch
  {
    chip.SetLatch(true);
    var latched := false;
    while !latched
      invariant chip.busy == 0 && chip.writeLatch
      decreases !latched
    {
      var status := chip.ReadStatus();
      latched := Bit1(status);
    }
  }

  // One pass of the write loop: enable, wait for the latch, send one chunk, wait until it is programmed.
  method WriteChunk(chip: Flash, a: uint32, data: seq<bv8>)
    requires chip.busy == 0 && a % PAGE + |data| <= PAGE
    modifies chip
    ensures chip.busy == 0
    ensures chip.mem == Program(old(chip.mem), a % CAPACITY, data)
  {
    EnableWrite(chip);
    var command := new byte[4];
    command[0] := WRITE_DATA_CMD;
    AddrToBuffer(a, command);
    ghost var i := a % CAPACITY;
    assert Flash.Effect(chip.mem, WRITE_DATA_CMD, i, data) == Program(chip.mem, i, data) by {
      ChunkIsLinear(chip.mem, a, data);
    }
    chip.Execute(command, data, i);
    WaitWhileBusy(chip);
  }

  lemma ColumnOf(a: int)
    requires 0 <= a
    ensures a % CAPACITY % PAGE == a % PAGE
  {}

  lemma ChunkIsLinear(mem: Memory, a: int, data: seq<bv8>)
    requires 0 <= a && a % PAGE + |data| <= PAGE
    ensures var i := a % CAPACITY; ProgramInPage(mem, i - i % PAGE, i % PAGE, data) == Program(mem, i, data)
  {
    var i := a % CAPACITY;
    ColumnOf(a);
    PageIsLinear(mem, i - i % PAGE, i % PAGE, data);
  }

  lemma NextAddress(a: int, pos: nat, first: int, len: nat)
    requires 0 <= first < CAPACITY && a % CAPACITY == At(first, pos)
    ensures (a + len) % WORD % CAPACITY == At(first, pos + len)
  {
    var x := a + len;
    var r := x % WORD;
    RemainderIs(x, x / WORD * (WORD / CAPACITY) + r / CAPACITY, r % CAPACITY);
    RemainderIs(first + pos + len, x / WORD * (WORD / CAPACITY) + r / CAPACITY + (first + pos) / CAPACITY - a / CAPACITY, r % CAPACITY);
  }

  lemma RemainderIs(x: int, q: int, r: int)
    requires 0 <= r < CAPACITY && x == q * CAPACITY + r
    ensures x % CAPACITY == r
  {}

  /**
   * norflash_write_data_ll: for every address and size, the chunked and page-wrapped programming
   * has the effect of programming the bytes one by one, linearly.
   */
  method WriteData(chip: Flash, startOffset: uint32, addr: uint32, size: uint32, data: array<bv8>)
    requires chip.busy == 0 && size <= data.Length
    modifies chip
    ensures chip.busy == 0
    ensures chip.mem == Program(old(chip.mem), (addr + startOffset) % WORD % CAPACITY, data[..size])
  {
    var a := (addr + startOffset) % WORD;
    var count := size;
    var pos := 0;
    ghost var first := a % CAPACITY;
    while count > 0
      invariant 0 <= count <= size && pos == size - count
      invariant 0 <= a < WORD && a % CAPACITY == At(first, pos)
      invariant chip.busy == 0
      invariant chip.mem == Program(old(chip.mem), first, data[..pos])
    {
      var len := count;
      if len > PAGE - a % PAGE {
        len := PAGE - a % PAGE;
      }
      count := count - len;
      WriteChunk(chip, a, data[pos..pos + len]);
      ProgramConcat(old(chip.mem), first, data[..pos], data[pos..pos + len]);
      assert data[..pos] + data[pos..pos + len] == data[..pos + len];
      NextAddress(a, pos, first, len);
      a := (a + len) % WORD;
      pos := pos + len;
    }
  }

  lemma BlockAddress(startBlock: nat, block: nat, at: nat)
    requires startBlock + block < BLOCK_COUNT && at < BLOCK
    ensures var i := (block * BLOCK_SHIFT_FACTOR + at + startBlock * BLOCK) % WORD % CAPACITY;
            i == (startBlock + block) * BLOCK + at && i / BLOCK == startBlock + block
  {}

  /**
   * spiflash_eraseblock, spiflash_bytewrite and spiflash_byteread on a device that starts startBlock
   * blocks into the part: erase a block, write inside it, read back.
   */
  method EraseWriteReadBlock(chip: Flash, startBlock: nat, block: nat, at: nat, data: array<bv8>) returns (got: seq<bv8>)
    requires chip.busy == 0 && startBlock + block < BLOCK_COUNT && at < BLOCK && at + data.Length <= BLOCK
    modifies chip
    ensures got == data[..]
    ensures forall k :: 0 <= k < CAPACITY && k / BLOCK != startBlock + block ==> chip.mem[k] == old(chip.mem[k])
  {
    hide Program, EraseRange;
    var startOffset := startBlock * BLOCK;
    var blockAddr := block * BLOCK_SHIFT_FACTOR;
    ghost var base := (startBlock + block) * BLOCK;
    BlockAddress(startBlock, block, 0);
    BlockAddress(startBlock, block, at);
    EraseUnit(chip, startOffset, blockAddr, true);
    assert chip.mem == EraseRange(old(chip.mem), base, BLOCK);
    WriteData(chip, startOffset, blockAddr + at, data.Length, data);
    assert data[..data.Length] == data[..];
    got := ReadData(chip, startOffset, blockAddr + at, data.Length);
    EraseWriteRead(old(chip.mem), base, BLOCK, base + at, data[..]);
  }
}
