/**
 * How a cell of the file allocation table is packed into bytes (mfs/source/generic/mfs_fat.c:248-331,
 * 380-450; the macros ftoh0, ftoh1, htof0, htof1 and htof32 of mfs/source/include/mfs_prv.h:305-356):
 * what lets the rest of the model treat the table as one number per cluster. Masks and shifts of
 * unsigned bytes are written as remainders, quotients and products.
 */
module FatCodec {
  import opened MfsTypes

  type byte = x: int | 0 <= x < 256
  type uint32 = x: int | 0 <= x < 0x1_0000_0000

  datatype FatType = Fat12 | Fat16 | Fat32

  const EOF: int := 0x0FFF_FFFF
  const TWO28: int := 0x1000_0000

  function Offset(t: FatType, n: nat): nat {
    match t
    case Fat12 => n + n / 2
    case Fat16 => n * 2
    case Fat32 => n * 4
  }

  predicate HasCell(length: nat, t: FatType, n: nat) {
    Offset(t, n) + (if t == Fat32 then 4 else 2) <= length
  }

  // CLUSTER_MAX_12, CLUSTER_MAX_16 and CLUSTER_MAX_32: stored values from here on mean EOF.
  function FirstEof(t: FatType): int {
    match t
    case Fat12 => 0xFF8
    case Fat16 => 0xFFF8
    case Fat32 => 0x0FFF_FFF8
  }

  function Join(b0: int, b1: int, b2: int, b3: int): int {
    b0 + b1 * 256 + b2 * 65536 + b3 * 0x100_0000
  }

  function Even12(b0: int, b1: int): int {
    b0 + b1 % 16 * 256
  }

  function Odd12(b0: int, b1: int): int {
    b0 / 16 + b1 * 16
  }

  // The stored bits of cell n; a 12-bit cell takes a byte and the half of the next (or previous) one.
  function Stored(bytes: seq<byte>, t: FatType, n: nat): (raw: int)
    requires HasCell(|bytes|, t, n)
    ensures 0 <= raw < if t == Fat12 then 0x1000 else if t == Fat16 then 0x1_0000 else 0x1_0000_0000
  {
    var o := Offset(t, n);
    match t
    case Fat12 => if n % 2 == 0 then Even12(bytes[o], bytes[o + 1]) else Odd12(bytes[o], bytes[o + 1])
    case Fat16 => Join(bytes[o], bytes[o + 1], 0, 0)
    case Fat32 => Join(bytes[o], bytes[o + 1], bytes[o + 2], bytes[o + 3])
  }

  // How many half bytes a cell takes.
  function Width(t: FatType): nat {
    match t
    case Fat12 => 3
    case Fat16 => 4
    case Fat32 => 8
  }

  // Half byte k of the table, the lower one of a byte first.
  function HalfByte(bytes: seq<byte>, k: nat): int
    requires k < 2 * |bytes|
  {
    if k % 2 == 0 then bytes[k / 2] % 16 else bytes[k / 2] / 16
  }

  // The number that n half bytes from k on hold, the lowest first.
  function HalfBytes(bytes: seq<byte>, k: nat, n: nat): int
    requires k + n <= 2 * |bytes|
    decreases n
  {
    if n == 0 then 0 else HalfByte(bytes, k) + 16 * HalfBytes(bytes, k + 1, n - 1)
  }

  lemma OneByte(bytes: seq<byte>, o: nat, n: nat)
    requires 2 <= n && 2 * o + n <= 2 * |bytes|
    ensures HalfBytes(bytes, 2 * o, n) == bytes[o] + 256 * HalfBytes(bytes, 2 * (o + 1), n - 2)
  {
    assert HalfBytes(bytes, 2 * o, n) == HalfByte(bytes, 2 * o) + 16 * HalfBytes(bytes, 2 * o + 1, n - 1);
    assert HalfByte(bytes, 2 * o + 1) == bytes[o] / 16;
  }

  lemma HalfOnly(bytes: seq<byte>, k: nat)
    requires k < 2 * |bytes|
    ensures HalfBytes(bytes, k, 1) == HalfByte(bytes, k) && HalfBytes(bytes, k, 0) == 0
  {
    assert HalfBytes(bytes, k + 1, 0) == 0;
  }

  lemma Even(bytes: seq<byte>, n: nat)
    requires n % 2 == 0 && HasCell(|bytes|, Fat12, n)
    ensures n * 3 + 3 <= 2 * |bytes| && Stored(bytes, Fat12, n) == HalfBytes(bytes, n * 3, 3)
  {
    var o := Offset(Fat12, n);
    assert n * 3 == 2 * o;
    OneByte(bytes, o, 3);
    HalfOnly(bytes, 2 * (o + 1));
  }

  lemma Odd(bytes: seq<byte>, n: nat)
    requires n % 2 == 1 && HasCell(|bytes|, Fat12, n)
    ensures n * 3 + 3 <= 2 * |bytes| && Stored(bytes, Fat12, n) == HalfBytes(bytes, n * 3, 3)
  {
    var o := Offset(Fat12, n);
    assert n * 3 == 2 * o + 1;
    assert HalfBytes(bytes, n * 3, 3) == HalfByte(bytes, n * 3) + 16 * HalfBytes(bytes, 2 * (o + 1), 2);
    OneByte(bytes, o + 1, 2);
    assert HalfBytes(bytes, 2 * (o + 2), 0) == 0;
  }

  lemma TwoBytes(bytes: seq<byte>, o: nat, n: nat)
    requires 4 <= n && 2 * o + n <= 2 * |bytes|
    ensures HalfBytes(bytes, 2 * o, n) == bytes[o] + 256 * bytes[o + 1] + 65536 * HalfBytes(bytes, 2 * (o + 2), n - 4)
  {
    hide *;
    OneByte(bytes, o, n);
    OneByte(bytes, o + 1, n - 2);
  }

  lemma NoHalfBytes(bytes: seq<byte>, k: nat)
    requires k <= 2 * |bytes|
    ensures HalfBytes(bytes, k, 0) == 0
  {}

  /**
   * The cells lie end to end: cell n is the half bytes from n times the width of a cell on.
   */
  lemma CellsEndToEnd(bytes: seq<byte>, t: FatType, n: nat)
    requires HasCell(|bytes|, t, n)
    ensures n * Width(t) + Width(t) <= 2 * |bytes| && Stored(bytes, t, n) == HalfBytes(bytes, n * Width(t), Width(t))
  {
    hide HalfBytes;
    var o := Offset(t, n);
    match t
    case Fat12 => if n % 2 == 0 { Even(bytes, n); } else { Odd(bytes, n); }
    case Fat16 =>
      TwoBytes(bytes, o, 4);
      NoHalfBytes(bytes, 2 * (o + 2));
    case Fat32 =>
      TwoBytes(bytes, o, 8);
      TwoBytes(bytes, o + 2, 4);
      NoHalfBytes(bytes, 2 * (o + 4));
  }

  // What MFS_get_cluster_from_fat makes of the stored bits.
  function Meaning(t: FatType, raw: int): int {
    (if raw >= FirstEof(t) then EOF else raw) % TWO28
  }

  method GetCell(table: array<byte>, t: FatType, n: nat) returns (value: int)
    requires HasCell(table.Length, t, n)
    ensures value == Meaning(t, Stored(table[..], t, n))
  {
    var o := Offset(t, n);
    match t {
      case Fat12 =>
        if n % 2 == 0 {
          value := Even12(table[o], table[o + 1]);
        } else {
          value := Odd12(table[o], table[o + 1]);
        }
      case Fat16 =>
        value := Join(table[o], table[o + 1], 0, 0);
      case Fat32 =>
        value := Join(table[o], table[o + 1], table[o + 2], table[o + 3]);
    }
    if value >= FirstEof(t) {
      value := EOF;
    }
    value := value % TWO28;
  }

  // The bits that a write of code leaves in the cell; FAT32 keeps the four reserved bits.
  function Written(t: FatType, raw: int, code: uint32): int {
    match t
    case Fat12 => code % 0x1000
    case Fat16 => code % 0x1_0000
    case Fat32 => raw / TWO28 * TWO28 + code % TWO28
  }

  lemma Mod4096(code: int, q: int, r: int)
    requires 0 <= r < 0x1000 && code == q * 0x1000 + r
    ensures code % 0x1000 == r
  {}

  lemma EvenHalf12(b1: byte, code: uint32)
    ensures var b := b1 / 16 * 16 + code / 256 % 16;
            Even12(code % 256, b) == code % 0x1000 && b / 16 == b1 / 16
  {
    var q := code / 256;
    Mod4096(code, q / 16, code % 256 + q % 16 * 256);
  }

  lemma OddHalf12(b0: byte, code: uint32)
    ensures var b := b0 % 16 + code % 16 * 16;
            Odd12(b, code / 16 % 256) == code % 0x1000 && b % 16 == b0 % 16
  {
    var q := code / 16;
    Mod4096(code, q / 256, code % 16 + q % 256 * 16);
  }

  lemma Mod65536(code: int, q: int, r: int)
    requires 0 <= r < 0x1_0000 && code == q * 0x1_0000 + r
    ensures code % 0x1_0000 == r
  {}

  lemma Bytes16(code: uint32)
    ensures Join(code % 256, code / 256 % 256, 0, 0) == code % 0x1_0000
  {
    var q := code / 256;
    Mod65536(code, q / 256, code % 256 + q % 256 * 256);
  }

  lemma Bytes32(raw: uint32, b0: byte, b1: byte, b2: byte, b3: byte, code: uint32)
    requires raw == Join(b0, b1, b2, b3)
    ensures Join(code % 256, code / 256 % 256, code / 65536 % 256, b3 / 16 * 16 + code / 0x100_0000 % 16)
            == raw / TWO28 * TWO28 + code % TWO28
  {
    assert raw / TWO28 == b3 / 16;
    var c0, q0 := code % 256, code / 256;
    var c1, q1 := q0 % 256, q0 / 256;
    var c2, q2 := q1 % 256, q1 / 256;
    assert q1 == code / 65536 && q2 == code / 0x100_0000;
    assert code == Join(c0, c1, c2, q2);
    assert code % TWO28 == Join(c0, c1, c2, q2 % 16);
  }

  method PutCell12(table: array<byte>, n: nat, code: uint32)
    requires HasCell(table.Length, Fat12, n)
    modifies table
    ensures Stored(table[..], Fat12, n) == Written(Fat12, old(Stored(table[..], Fat12, n)), code)
    ensures forall m: nat :: m != n && HasCell(table.Length, Fat12, m) ==>
      Stored(table[..], Fat12, m) == old(Stored(table[..], Fat12, m))
  {
    var o := Offset(Fat12, n);
    if n % 2 == 0 {
      EvenHalf12(table[o + 1], code);
      table[o] := code % 256;
      table[o + 1] := table[o + 1] / 16 * 16;
      table[o + 1] := table[o + 1] + code / 256 % 16;
    } else {
      OddHalf12(table[o], code);
      table[o] := table[o] % 16;
      table[o] := table[o] + code % 16 * 16;
      table[o + 1] := code / 16 % 256;
    }
    forall m: nat | m != n && HasCell(table.Length, Fat12, m)
      ensures Stored(table[..], Fat12, m) == old(Stored(table[..], Fat12, m))
    {
      CellsApart(n, m);
    }
  }

  // Different 12-bit cells share no byte, except an even cell and the odd one after it.
  lemma CellsApart(n: nat, m: nat)
    requires n != m
    ensures var o, p := Offset(Fat12, n), Offset(Fat12, m);
            || o + 1 < p || p + 1 < o
            || (n % 2 == 0 && m == n + 1 && p == o + 1)
            || (m % 2 == 0 && n == m + 1 && o == p + 1)
  {}

  method PutCell16(table: array<byte>, n: nat, code: uint32)
    requires HasCell(table.Length, Fat16, n)
    modifies table
    ensures Stored(table[..], Fat16, n) == Written(Fat16, old(Stored(table[..], Fat16, n)), code)
    ensures forall m: nat :: m != n && HasCell(table.Length, Fat16, m) ==>
      Stored(table[..], Fat16, m) == old(Stored(table[..], Fat16, m))
  {
    var o := Offset(Fat16, n);
    Bytes16(code);
    table[o] := code % 256;
    table[o + 1] := code / 256 % 256;
  }

  method PutCell32(table: array<byte>, n: nat, code: uint32)
    requires HasCell(table.Length, Fat32, n)
    modifies table
    ensures Stored(table[..], Fat32, n) == Written(Fat32, old(Stored(table[..], Fat32, n)), code)
    ensures forall m: nat :: m != n && HasCell(table.Length, Fat32, m) ==>
      Stored(table[..], Fat32, m) == old(Stored(table[..], Fat32, m))
  {
    var o := Offset(Fat32, n);
    Bytes32(Stored(table[..], Fat32, n), table[o], table[o + 1], table[o + 2], table[o + 3], code);
    table[o + 3] := table[o + 3] / 16 * 16 + code / 0x100_0000 % 16;
    table[o + 2] := code / 65536 % 256;
    table[o + 1] := code / 256 % 256;
    table[o] := code % 256;
  }

  // The byte writes of MFS_Put_fat change the one cell, also where two 12-bit cells share a byte.
  method PutCell(table: array<byte>, t: FatType, n: nat, code: uint32)
    requires HasCell(table.Length, t, n)
    modifies table
    ensures Stored(table[..], t, n) == Written(t, old(Stored(table[..], t, n)), code)
    ensures forall m: nat :: m != n && HasCell(table.Length, t, m) ==> Stored(table[..], t, m) == old(Stored(table[..], t, m))
  {
    match t {
      case Fat12 => PutCell12(table, n, code);
      case Fat16 => PutCell16(table, n, code);
      case Fat32 => PutCell32(table, n, code);
    }
  }

  // A code that MFS writes: unused, a cluster number, or EOF.
  predicate Legal(t: FatType, code: int) {
    0 <= code < FirstEof(t) || code == EOF
  }

  /**
   * A cell reads back as written, except on FAT32 where the reserved bits of the cell are not all
   * zero: they are kept on writing but compared on reading, so every such cell reads EOF.
   */
  lemma ReadsAsWritten(t: FatType, raw: uint32, code: uint32)
    requires Legal(t, code)
    ensures Meaning(t, Written(t, raw, code)) == code <==> t != Fat32 || raw < TWO28 || code == EOF
  {}

  // The last eight codes of a cell, and of FAT32 cells all that are larger, mean EOF.
  lemma EofCodes(t: FatType, raw: nat)
    ensures raw < (if t == Fat12 then 0x1000 else if t == Fat16 then 0x1_0000 else 0x1_0000_0000) ==>
              (Meaning(t, raw) == CLUSTER_EOF <==>
                raw + 8 >= if t == Fat12 then 0x1000 else if t == Fat16 then 0x1_0000 else 0x1000_0000)
  {}

  // Freeing such a cell leaves it reading as a chain end: the cluster is lost to the allocator.
  lemma ReservedBitsExample()
    ensures Meaning(Fat32, Written(Fat32, 0x1000_0005, 0)) == EOF
  {}

  // The free counter looks at the stored bits, the allocator at their meaning: they agree on "unused".
  lemma UnusedAgrees(bytes: seq<byte>, t: FatType, n: nat)
    requires HasCell(|bytes|, t, n)
    ensures Stored(bytes, t, n) == 0 <==> Meaning(t, Stored(bytes, t, n)) == CLUSTER_UNUSED
  {}
}
