/**
 * Long file names: cutting a name into 13-character pieces (mfs/source/generic/mfs_dir_entry.c:236-322,
 * mfs/source/generic/mfs_lfn.c:711-786) and reading it back (mfs_lfn.c:498-549, 936-1042). The layout is
 * the one of the Microsoft FAT32 File System Specification, section "FAT Long Directory Entries".
 */
module LongName {
  import opened MfsTypes

  // A name as the bytes of a C string, at most FILENAME_SIZE of them (mfs_lfn.c:206-213).
  predicate IsName(name: seq<nat>) {
    0 < |name| <= 255 && forall i :: 0 <= i < |name| ==> 0 < name[i] < 256
  }

  function Min(a: int, b: int): int {
    if a < b then a else b
  }

  // How many pieces a name, or its first length characters, takes.
  function PieceCount(length: nat): (n: nat)
    ensures 13 * n >= length && 13 * n < length + 13
  {
    (length + 12) / 13
  }

  // Unit j of the piece that starts at character start: a character, one terminator, then filler.
  function UnitAt(name: seq<nat>, start: nat, j: nat): nat {
    if start + j < |name| then name[start + j] else if start + j == |name| then 0 else 0xFFFF
  }

  ghost predicate Encodes(units: seq<nat>, name: seq<nat>, start: nat, count: nat) {
    count <= |units| && forall j :: 0 <= j < count ==> units[j] == UnitAt(name, start, j)
  }

  // One of the three copying loops of MFS_lfn_name_to_entry: units from..to of the slot.
  method CopyUnits(units: array<nat>, lo: nat, hi: nat, name: seq<nat>, p: nat, ended: bool, ghost start: nat)
    returns (p': nat, ended': bool)
    requires lo <= hi <= units.Length && start <= |name|
    requires p == Min(start + lo, |name|) && (ended <==> start + lo > |name|)
    requires Encodes(units[..], name, start, lo)
    modifies units
    ensures p' == Min(start + hi, |name|) && (ended' <==> start + hi > |name|)
    ensures Encodes(units[..], name, start, hi)
  {
    p', ended' := p, ended;
    for i := lo to hi
      invariant p' == Min(start + i, |name|) && (ended' <==> start + i > |name|)
      invariant Encodes(units[..], name, start, i)
    {
      if p' < |name| {
        units[i] := name[p'];
        p' := p' + 1;
      } else if !ended' {
        units[i] := 0;
        ended' := true;
      } else {
        units[i] := 0xFFFF;
      }
    }
  }

  // MFS_lfn_name_to_entry: up to 13 characters of the name, from character start on.
  method NameToUnits(name: seq<nat>, start: nat) returns (units: seq<nat>)
    requires start <= |name|
    ensures |units| == CHARS_PER_PIECE && Encodes(units, name, start, CHARS_PER_PIECE)
    ensures forall j :: 0 <= j < 13 && start + j < |name| ==> units[j] == name[start + j]
    ensures forall j :: 0 <= j < 13 && start + j >= |name| ==> units[j] == if start + j == |name| then 0 else 0xFFFF
  {
    var slot := new nat[CHARS_PER_PIECE];
    var p, ended := CopyUnits(slot, 0, 5, name, start, false, start);
    p, ended := CopyUnits(slot, 5, 11, name, p, ended, start);
    p, ended := CopyUnits(slot, 11, 13, name, p, ended, start);
    units := slot[..];
  }

  predicate EndsName(unit: nat) {
    unit == 0 || unit == 0xFFFF
  }

  // The characters a slot holds: up to the terminator or filler, without their upper bytes.
  function Chars(units: seq<nat>): seq<nat> {
    if units == [] || EndsName(units[0]) then [] else [units[0] % 256] + Chars(units[1..])
  }

  // MFS_lfn_extract.
  method Extract(units: seq<nat>) returns (chars: seq<nat>)
    requires |units| == CHARS_PER_PIECE
    ensures chars == Chars(units)
    ensures |chars| <= 13 && forall j :: 0 <= j < |chars| ==> units[j] !in {0, 0xFFFF} && chars[j] == units[j] % 256
    ensures |chars| < 13 ==> units[|chars|] in {0, 0xFFFF}
  {
    chars := [];
    for i := 0 to CHARS_PER_PIECE
      invariant chars + Chars(units[i..]) == Chars(units)
      invariant |chars| == i && forall j :: 0 <= j < i ==> units[j] !in {0, 0xFFFF} && chars[j] == units[j] % 256
    {
      if EndsName(units[i]) {
        return;
      }
      assert units[i..][1..] == units[i + 1..];
      chars := chars + [units[i] % 256];
    }
  }

  lemma {:induction false} CharsOfEncoded(units: seq<nat>, name: seq<nat>, start: nat)
    requires IsName(name) && start <= |name| && Encodes(units, name, start, |units|)
    ensures Chars(units) == name[start..Min(start + |units|, |name|)]
    decreases |units|
  {
    if units != [] {
      assert units[0] == UnitAt(name, start, 0);
      if start < |name| {
        forall j | 0 <= j < |units| - 1
          ensures units[1..][j] == UnitAt(name, start + 1, j)
        {
          assert units[j + 1] == UnitAt(name, start, j + 1);
        }
        CharsOfEncoded(units[1..], name, start + 1);
        assert name[start..][0] == name[start];
      }
    }
  }

  // ---- the pieces of a name ----

  // The piece that MFS writes when length characters are left: the last of them, from Start on.
  function Start(length: nat): (i: nat)
    requires length > 0
    ensures i == 13 * (PieceCount(length) - 1) && i < length <= i + 13
  {
    length - ((length - 1) % 13 + 1)
  }

  // A slot holds that piece; the first piece written is marked as the last of the name.
  ghost predicate IsPiece(s: Slot, name: seq<nat>, length: nat, checksum: nat)
    requires 0 < length <= |name|
  {
    && s.Piece? && s.checksum == checksum
    && s.id == PieceCount(length) + (if length == |name| then LFN_END else 0)
    && |s.units| == CHARS_PER_PIECE && Encodes(s.units, name, Start(length), CHARS_PER_PIECE)
  }

  // The body of the writing loop, up to the slot's bytes. Ordinals stay below the end mark, so the
  // source's bitwise or is a sum.
  method MakePiece(name: seq<nat>, length: nat, checksum: nat) returns (s: Slot, left: nat)
    requires IsName(name) && 0 < length <= |name|
    ensures IsPiece(s, name, length, checksum) && left == Start(length)
  {
    var id := if length == |name| then LFN_END else 0;
    var i := length - ((length - 1) % 13 + 1);
    var units := NameToUnits(name, i);
    id := id + (length + 12) / 13;
    s := Piece(id, checksum, units);
    left := length - (length - i);
  }

  // slots, in the order written, hold a whole name: ordinals count down to one.
  ghost predicate HoldsName(slots: seq<Slot>, name: seq<nat>, checksum: nat) {
    && IsName(name) && |slots| == PieceCount(|name|)
    && forall w :: 0 <= w < |slots| ==> IsPiece(slots[w], name, LengthLeft(name, w), checksum)
  }

  // How many characters are left after w pieces are written.
  function LengthLeft(name: seq<nat>, w: nat): (length: nat)
    requires IsName(name) && w <= PieceCount(|name|)
    ensures length <= |name| && (w < PieceCount(|name|) <==> length > 0)
  {
    if w == 0 then |name| else 13 * (PieceCount(|name|) - w)
  }

  lemma NextPiece(name: seq<nat>, w: nat)
    requires IsName(name) && w < PieceCount(|name|)
    ensures Start(LengthLeft(name, w)) == LengthLeft(name, w + 1)
    ensures PieceCount(LengthLeft(name, w)) == PieceCount(|name|) - w
    ensures LengthLeft(name, w) == |name| <==> w == 0
  {}

  // The writing loop on its own: exactly ceil(len / 13) pieces, with ordinals counting down to one.
  method WritePieces(name: seq<nat>, checksum: nat) returns (slots: seq<Slot>)
    requires IsName(name)
    ensures HoldsName(slots, name, checksum)
    ensures forall w :: 0 <= w < |slots| ==>
              slots[w].id % 0x40 == |slots| - w && (slots[w].id >= 0x40 <==> w == 0)
  {
    slots := [];
    var length := |name|;
    while length > 0
      invariant |slots| <= PieceCount(|name|) && length == LengthLeft(name, |slots|)
      invariant forall w :: 0 <= w < |slots| ==> IsPiece(slots[w], name, LengthLeft(name, w), checksum)
    {
      NextPiece(name, |slots|);
      var s, left := MakePiece(name, length, checksum);
      slots := slots + [s];
      length := left;
    }
    forall w | 0 <= w < |slots|
      ensures slots[w].id % LFN_END == |slots| - w && (slots[w].id >= LFN_END <==> w == 0)
    {
      NextPiece(name, w);
      assert IsPiece(slots[w], name, LengthLeft(name, w), checksum);
    }
  }

  // Joining the pieces by ascending ordinal, that is backwards from the last written.
  function Joined(slots: seq<Slot>): seq<nat>
    requires forall w :: 0 <= w < |slots| ==> slots[w].Piece?
    decreases |slots|
  {
    if slots == [] then [] else Chars(slots[|slots| - 1].units) + Joined(slots[..|slots| - 1])
  }

  /**
   * The pieces written for a name join to the name.
   */
  lemma JoinedIsName(slots: seq<Slot>, name: seq<nat>, checksum: nat)
    requires HoldsName(slots, name, checksum)
    ensures Joined(slots) == name
  {
    JoinedPrefix(slots, |slots|, name, checksum);
    assert slots[..|slots|] == slots && name[0..] == name;
  }

  lemma JoinedStep(slots: seq<Slot>, k: nat)
    requires 0 < k <= |slots| && forall w :: 0 <= w < |slots| ==> slots[w].Piece?
    ensures Joined(slots[..k]) == Chars(slots[k - 1].units) + Joined(slots[..k - 1])
  {
    assert slots[..k][..k - 1] == slots[..k - 1];
  }

  lemma SplitAt(name: seq<nat>, lo: nat, hi: nat)
    requires lo <= hi <= |name|
    ensures name[lo..hi] + name[hi..] == name[lo..]
  {}

  lemma {:induction false} JoinedPrefix(slots: seq<Slot>, k: nat, name: seq<nat>, checksum: nat)
    requires HoldsName(slots, name, checksum) && k <= |slots|
    ensures Joined(slots[..k]) == name[LengthLeft(name, k)..]
  {
    if k > 0 {
      JoinedPrefix(slots, k - 1, name, checksum);
      PieceChars(slots[k - 1], name, k - 1, checksum);
      JoinedStep(slots, k);
      SplitAt(name, LengthLeft(name, k), LengthLeft(name, k - 1));
    }
  }

  // ---- reading a name back ----

  // The checksum over the 11 bytes of a short name, in arithmetic.
  function Checksum(name: seq<nat>): nat {
    if name == [] then 0
    else
      var sum := Checksum(name[..|name| - 1]);
      (sum % 2 * 128 + sum / 2 + name[|name| - 1]) % 256
  }

  // The byte with a value.
  function ByteOf(n: nat): (x: bv8)
    requires n < 256
    ensures x as nat == n
  {
    if n == 0 then 0
    else
      Doubled(ByteOf(n / 2));
      (ByteOf(n / 2) << 1) | (if n % 2 == 0 then 0 else 1)
  }

  lemma Doubled(x: bv8)
    requires x as nat < 128
    ensures ((x << 1) | 0) as nat == 2 * (x as nat) && ((x << 1) | 1) as nat == 2 * (x as nat) + 1
  {}

  // A byte turned right by one bit: MFS_lfn_checksum masks and shifts.
  function Turned(sum: bv8): (r: bv8)
    ensures r == sum.RotateRight(1)
  {
    ((sum & 1) << 7) | ((sum & 0xFE) >> 1)
  }

  lemma TurnedByte(x: bv8)
    ensures x.RotateRight(1) as nat == x as nat % 2 * 128 + x as nat / 2
  {}

  /**
   * The checksum is a byte: each byte of the short name turns it right by one bit and is added to it.
   */
  lemma ChecksumStep(name: seq<nat>, b: nat, sum: bv8)
    requires sum as nat == Checksum(name)
    ensures Checksum(name + [b]) == (sum.RotateRight(1) as nat + b) % 256
  {
    NextSum(name, b, sum as nat, name + [b], (sum as nat % 2 * 128 + sum as nat / 2 + b) % 256);
    hide *;
    TurnedByte(sum);
  }

  lemma ChecksumByte(name: seq<nat>)
    ensures Checksum([]) == 0 && Checksum(name) < 256
  {}

  // MFS_lfn_checksum.
  method LfnChecksum(name: seq<nat>) returns (sum: bv8)
    ensures sum as nat == Checksum(name)
  {
    hide *;
    ChecksumByte(name);
    sum := 0;
    assert name[..0] == [];
    for i := 0 to |name|
      invariant sum as nat == Checksum(name[..i])
    {
      ChecksumStep(name[..i], name[i], sum);
      assert name[..i] + [name[i]] == name[..i + 1];
      var next: nat := (Turned(sum) as nat + name[i]) % 256;
      sum := ByteOf(next);
    }
    assert name[..|name|] == name;
  }

  lemma NextSum(name: seq<nat>, b: nat, sum: nat, longer: seq<nat>, next: nat)
    requires Checksum(name) == sum && longer == name + [b] && next == (sum % 2 * 128 + sum / 2 + b) % 256
    ensures Checksum(longer) == next
  {
    assert longer[..|name|] == name;
  }

  lemma FirstSums()
    ensures Checksum([76, 79, 78, 71, 78, 65]) == 58
  {
    assert Checksum([]) == 0;
    hide *;
    NextSum([], 76, 0, [76], 76);
    NextSum([76], 79, 76, [76, 79], 117);
    NextSum([76, 79], 78, 117, [76, 79, 78], 8);
    NextSum([76, 79, 78], 71, 8, [76, 79, 78, 71], 75);
    NextSum([76, 79, 78, 71], 78, 75, [76, 79, 78, 71, 78], 243);
    NextSum([76, 79, 78, 71, 78], 65, 243, [76, 79, 78, 71, 78, 65], 58);
  }

  // The checksum of LONGNA~1.TXT.
  lemma ChecksumExample()
    ensures Checksum([76, 79, 78, 71, 78, 65, 126, 49, 84, 88, 84]) == 0xF4
  {
    hide *;
    FirstSums();
    NextSum([76, 79, 78, 71, 78, 65], 126, 58, [76, 79, 78, 71, 78, 65, 126], 155);
    NextSum([76, 79, 78, 71, 78, 65, 126], 49, 155, [76, 79, 78, 71, 78, 65, 126, 49], 254);
    NextSum([76, 79, 78, 71, 78, 65, 126, 49], 84, 254, [76, 79, 78, 71, 78, 65, 126, 49, 84], 211);
    NextSum([76, 79, 78, 71, 78, 65, 126, 49, 84], 88, 211, [76, 79, 78, 71, 78, 65, 126, 49, 84, 88], 65);
    NextSum([76, 79, 78, 71, 78, 65, 126, 49, 84, 88], 84, 65, [76, 79, 78, 71, 78, 65, 126, 49, 84, 88, 84], 0xF4);
  }

  // The bitwise and of two numbers is not zero.
  predicate ShareBit(a: nat, b: nat) {
    a != 0 && b != 0 && ((a % 2 == 1 && b % 2 == 1) || ShareBit(a / 2, b / 2))
  }

  lemma Halves(a: bv8)
    ensures (a >> 1) as nat == a as nat / 2 && (a & 1) as nat == a as nat % 2
  {}

  lemma AndHalves(a: bv8, b: bv8)
    ensures a & b != 0 <==> (a & 1 == 1 && b & 1 == 1) || (a >> 1) & (b >> 1) != 0
    ensures a & 1 == 1 || a & 1 == 0
    ensures a == 0 || b == 0 ==> a & b == 0
    ensures a != 0 ==> a >> 1 < a
  {}

  // ... as the source has it.
  lemma {:induction false} ShareBitIsAnd(a: bv8, b: bv8)
    ensures ShareBit(a as nat, b as nat) <==> a & b != 0
    decreases a
  {
    hide *;
    AndHalves(a, b);
    ShareTurn(a as nat, b as nat);
    if a != 0 && b != 0 {
      Halves(a);
      Halves(b);
      ShareBitIsAnd(a >> 1, b >> 1);
    }
  }

  lemma ShareTurn(a: nat, b: nat)
    ensures ShareBit(a, b) <==> a != 0 && b != 0 && ((a % 2 == 1 && b % 2 == 1) || ShareBit(a / 2, b / 2))
  {}

  lemma {:induction false} SelfBit(a: nat)
    requires a > 0
    ensures ShareBit(a, a)
  {
    if a % 2 == 0 {
      SelfBit(a / 2);
    }
  }

  // Adding a power of two above all bits of a changes none of them.
  lemma {:induction false} HighBit(a: nat, high: nat)
    requires 0 < a < high && (high == 2 || high == 4 || high == 8 || high == 16 || high == 32 || high == 64)
    ensures ShareBit(a + high, a)
  {
    if a % 2 == 0 {
      assert (a + high) / 2 == a / 2 + high / 2;
      HighBit(a / 2, high / 2);
    }
  }

  // No byte has bit 8.
  lemma {:induction false} NoShare(a: nat, high: nat)
    requires a < high && (high == 1 || high == 2 || high == 4 || high == 8 || high == 16 || high == 32 || high == 64 || high == 128 || high == 256)
    ensures !ShareBit(a, high)
  {
    if a != 0 && high > 1 {
      NoShare(a / 2, high / 2);
    }
  }

  // What the reader checks of a piece before it takes its characters; last is the end mark.
  method ReadPiece(s: Slot, sum: nat, count: nat) returns (ok: bool, chunk: seq<nat>, last: bool)
    requires s.Piece? && s.id < 256 && |s.units| == CHARS_PER_PIECE && 0 < count <= 256
    ensures ok <==> s.checksum == sum && ShareBit(s.id, count)
    ensures ok ==> chunk == Chars(s.units) && count < 256 && (last <==> s.id / LFN_END % 2 == 1)
  {
    NoShare(s.id, 256);
    ok, chunk, last := s.checksum == sum && ShareBit(s.id, count), [], false;
    if ok {
      chunk := Extract(s.units);
      last := s.id / LFN_END % 2 == 1;
    }
  }

  // How much of the name is read before the piece with ordinal count.
  ghost function ReadBefore(name: seq<nat>, count: nat): (length: nat)
    requires IsName(name) && 1 <= count <= PieceCount(|name|) + 1
    ensures length <= |name| && (count == 1 ==> length == 0) && (count == PieceCount(|name|) + 1 ==> length == |name|)
  {
    LengthLeft(name, PieceCount(|name|) - (count - 1))
  }

  // The pieces of a name lie directly in front of its entry, in the order written.
  ghost predicate Precedes(slots: seq<Slot>, at: nat, name: seq<nat>)
    requires at < |slots| && slots[at].Entry? && IsName(name)
  {
    PieceCount(|name|) <= at && HoldsName(slots[at - PieceCount(|name|)..at], name, Checksum(slots[at].name))
  }

  lemma PieceChars(s: Slot, name: seq<nat>, w: nat, checksum: nat)
    requires IsName(name) && w < PieceCount(|name|) && IsPiece(s, name, LengthLeft(name, w), checksum)
    ensures LengthLeft(name, w + 1) <= LengthLeft(name, w)
    ensures Chars(s.units) == name[LengthLeft(name, w + 1)..LengthLeft(name, w)]
  {
    NextPiece(name, w);
    CharsOfEncoded(s.units, name, LengthLeft(name, w + 1));
  }

  lemma PieceMark(s: Slot, name: seq<nat>, w: nat, checksum: nat)
    requires IsName(name) && w < PieceCount(|name|) && IsPiece(s, name, LengthLeft(name, w), checksum)
    ensures ShareBit(s.id, PieceCount(|name|) - w) && (s.id / LFN_END % 2 == 1 <==> w == 0)
  {
    NextPiece(name, w);
    SelfBit(PieceCount(|name|) - w);
    HighBit(PieceCount(|name|) - w, LFN_END);
  }

  // Going back from the entry, the count-th slot is the piece with that ordinal.
  lemma PieceBefore(slots: seq<Slot>, at: nat, name: seq<nat>, count: nat)
    requires at < |slots| && slots[at].Entry? && IsName(name) && Precedes(slots, at, name)
    requires 1 <= count <= PieceCount(|name|)
    ensures var s := slots[at - count];
            && s.Piece? && s.checksum == Checksum(slots[at].name) && ShareBit(s.id, count)
            && (s.id / LFN_END % 2 == 1 <==> count == PieceCount(|name|))
            && name[..ReadBefore(name, count)] + Chars(s.units) == name[..ReadBefore(name, count + 1)]
  {
    var n := PieceCount(|name|);
    var s := slots[at - count];
    assert s == slots[at - n..at][n - count];
    PieceMark(s, name, n - count, Checksum(slots[at].name));
    PieceChars(s, name, n - count, Checksum(slots[at].name));
  }
}
