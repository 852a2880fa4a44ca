/**
 * Concrete directories in which removing or reading a long name goes wrong.
 */
module NameWitnesses {
  import opened MfsTypes
  import opened FatChain
  import opened DataSector
  import opened Drives
  import opened DirSlots
  import opened LongName
  import opened DirEntry
  import opened LfnRemoval
  import opened LfnReading
  import Renames

  // A directory of three clusters with sixteen slots each.
  ghost function ThreeClusters(): Dir {
    Dir([2, 3, 4], 16)
  }

  // Its slots in flat order: short entries up to slot start, the pieces of a name, its entry, short entries.
  function Content(k: nat, start: nat, pieces: seq<Slot>): Slot {
    if k < start then Entry([88], ATTR_ARCHIVE, 0, 0)
    else if k - start < |pieces| then pieces[k - start]
    else if k - start == |pieces| then Entry([65], ATTR_ARCHIVE, 0, 0)
    else Entry([89], ATTR_ARCHIVE, 0, 0)
  }

  function FlatIndex(p: Pos): int {
    (p.cluster - 2) * 16 + p.index
  }

  function Filled(start: nat, pieces: seq<Slot>): map<Pos, Slot> {
    map c: nat, i: nat | 2 <= c < 5 && i < 16 :: Pos(c, i) := Content(FlatIndex(Pos(c, i)), start, pieces)
  }

  lemma InFilled(p: Pos, start: nat, pieces: seq<Slot>)
    ensures p in Filled(start, pieces) <==> 2 <= p.cluster < 5 && p.index < 16
    ensures p in Filled(start, pieces) ==> Filled(start, pieces)[p] == Content(FlatIndex(p), start, pieces)
  {
    if 2 <= p.cluster < 5 && p.index < 16 {
      assert Pos(p.cluster, p.index) in Filled(start, pieces);
    }
  }

  lemma FlatAt(j: nat, i: nat)
    requires j < 3 && i < 16
    ensures |ThreeClusters().Flat()| == 48 && ThreeClusters().Flat()[j * 16 + i] == Pos(j + 2, i)
  {
    SlotAt(ThreeClusters(), j, i);
    PositionsLength([2, 3, 4], 16);
  }

  // Slot i of the j-th cluster.
  lemma SlotIs(j: nat, i: nat, start: nat, pieces: seq<Slot>)
    requires j < 3 && i < 16
    ensures |ThreeClusters().Flat()| == 48 && ThreeClusters().Flat()[j * 16 + i] == Pos(j + 2, i)
    ensures Pos(j + 2, i) in Filled(start, pieces) && Filled(start, pieces)[Pos(j + 2, i)] == Content(j * 16 + i, start, pieces)
  {
    FlatAt(j, i);
    InFilled(Pos(j + 2, i), start, pieces);
  }

  lemma SlotAtFlat(k: nat, start: nat, pieces: seq<Slot>)
    requires k < 48
    ensures |ThreeClusters().Flat()| == 48 && ThreeClusters().Flat()[k] in Filled(start, pieces)
    ensures Filled(start, pieces)[ThreeClusters().Flat()[k]] == Content(k, start, pieces)
  {
    SlotIs(k / 16, k % 16, start, pieces);
  }

  lemma AllThere(start: nat, pieces: seq<Slot>)
    ensures |ThreeClusters().Flat()| == 48 && AllIn(Filled(start, pieces), ThreeClusters())
  {
    FlatAt(0, 0);
    forall k | 0 <= k < 48
      ensures ThreeClusters().Flat()[k] in Filled(start, pieces)
    {
      SlotAtFlat(k, start, pieces);
    }
  }

  lemma Fits(start: nat, pieces: seq<Slot>, name: seq<nat>, checksum: nat)
    requires HoldsName(pieces, name, checksum)
    ensures PiecesFit(Filled(start, pieces))
  {
    forall p | p in Filled(start, pieces) && Filled(start, pieces)[p].Piece?
      ensures Filled(start, pieces)[p].id < 256 && |Filled(start, pieces)[p].units| == CHARS_PER_PIECE
    {
      InFilled(p, start, pieces);
      var w := FlatIndex(p) - start;
      assert IsPiece(pieces[w], name, LengthLeft(name, w), checksum);
    }
  }

  method Setting(start: nat, name: seq<nat>) returns (d: Drive, ghost pieces: seq<Slot>)
    requires IsName(name)
    ensures fresh(d) && d.Mounted() && !d.readOnly && d.rootCluster == 0 && IsDir(d, ThreeClusters())
    ensures HoldsName(pieces, name, Checksum([65])) && d.slots == Filled(start, pieces) && PiecesFit(d.slots)
  {
    var cache := new DataCache([], 1, false);
    var table := new nat[5][0, 0, 3, 4, CLUSTER_EOF];
    d := new Drive(table, cache, false, 1, 16, 10, 16, 0);
    assert d.Fat() == [0, 0, 3, 4, CLUSTER_EOF];
    var written := WritePieces(name, Checksum([65]));
    pieces := written;
    d.slots := Filled(start, written);
    Fits(start, pieces, name, Checksum([65]));
  }

  // Where the pieces and the entry of the name lie.
  lemma NameThere(start: nat, pieces: seq<Slot>, name: seq<nat>)
    requires HoldsName(pieces, name, Checksum([65])) && start + |pieces| < 48
    ensures |ThreeClusters().Flat()| == 48 && AllIn(Filled(start, pieces), ThreeClusters())
    ensures LfnReading.Named(Filled(start, pieces), ThreeClusters(), start + |pieces|, name)
    ensures NameBefore(Filled(start, pieces), ThreeClusters(), start + |pieces|, name, Checksum([65]))
  {
    AllThere(start, pieces);
    hide ThreeClusters, Filled;
    var x, flat := start + |pieces|, FlatSlots(Filled(start, pieces), ThreeClusters());
    SlotAtFlat(x, start, pieces);
    forall w | 0 <= w < |pieces|
      ensures flat[x - |pieces|..x][w] == pieces[w]
    {
      SlotAtFlat(start + w, start, pieces);
    }
    assert flat[x - |pieces|..x] == pieces;
  }

  lemma HowMany(pieces: seq<Slot>, name: seq<nat>, checksum: nat)
    requires HoldsName(pieces, name, checksum)
    ensures |pieces| == PieceCount(|name|)
  {}

  const LONG: seq<nat> := seq(221, i => 65)

  lemma FoundInThird()
    requires |ThreeClusters().Flat()| == 48
    ensures Found(ThreeClusters(), 32, Pos(4, 0), 3) && RootFirst(ThreeClusters(), 0)
  {
    FlatAt(2, 0);
    PositionsLength([2, 3], 16);
    assert [2, 3, 4][..2] == [2, 3];
    assert Stands(ThreeClusters(), 2, 0, 32);
  }

  // A name of seventeen pieces begins in the last slot of the first cluster; its entry is in the first slot of the
  // third. It is not read as it is, and not removed without an error.
  method NameOutOfReach() returns (read: bool, error: Error)
    ensures !read && error != NoError
  {
    hide LfnReading.Named, NameBefore, IsDir, PiecesFit, Found, RootFirst, FlatInjective, HoldsName, AllPassable, Strip;
    var d;
    ghost var pieces, dir := [], ThreeClusters();
    d, pieces := Setting(15, LONG);
    HowMany(pieces, LONG, Checksum([65]));
    NameThere(15, pieces, LONG);
    FoundInThird();
    DirInjective(d, dir);
    Reach(dir, 0, 3, 32, Pos(4, 0), 17);
    var lfn;
    error, lfn := GetLongName(d, 4, 0, 3, dir, 32, LONG);
    read := error == NoError && lfn == LONG;
    NameGoes(d.slots, dir, 0, 3, 32, Pos(4, 0), LONG, Checksum([65]));
    d.slots := d.slots[Pos(4, 0) := Deleted];
    error := RemoveLfn(d, 4, 0, 3, dir, 32);
  }

  const SHORT: seq<nat> := [66]

  lemma OneOfTheirs(pieces: seq<Slot>)
    requires HoldsName(pieces, SHORT, Checksum([65]))
    ensures |pieces| == 1 && pieces[0].Piece? && EndMark(pieces[0])
  {
    assert IsPiece(pieces[0], SHORT, LengthLeft(SHORT, 0), Checksum([65]));
    PieceMark(pieces[0], SHORT, 0, Checksum([65]));
  }

  lemma TheirsExposed(pieces: seq<Slot>)
    requires |pieces| == 1 && pieces[0].Piece?
    ensures var s := Filled(16, pieces)[Pos(2, 1) := Deleted];
            && AllIn(s, ThreeClusters()) && 1 < |ThreeClusters().Flat()| && ThreeClusters().Flat()[1] == Pos(2, 1)
            && Exposed(s, ThreeClusters(), 0, CLUSTER_INVALID, 1, 16) && ThreeClusters().Flat()[16] == Pos(3, 0)
            && !s[ThreeClusters().Flat()[0]].Piece? && RootFirst(ThreeClusters(), 0)
  {
    AllThere(16, pieces);
    SlotIs(0, 0, 16, pieces);
    SlotIs(0, 1, 16, pieces);
    SlotIs(1, 0, 16, pieces);
    var s, dir := Filled(16, pieces)[Pos(2, 1) := Deleted], ThreeClusters();
    hide ThreeClusters, Filled;
    forall w: nat | w < 16
      ensures Skips(s[dir.Flat()[w]], LongPart)
    {
      SlotAtFlat(w, 16, pieces);
    }
  }

  // The first piece of another name lies in the first slot of the second cluster. Removing the entry in the second slot
  // of the first cluster, which has no pieces, deletes it.
  method AnothersPieceGoes() returns (error: Error, before: Slot, after: Slot)
    ensures before.Piece? && after == Deleted
  {
    hide IsDir, PiecesFit, HoldsName, Strip;
    var d;
    ghost var pieces, dir := [], ThreeClusters();
    d, pieces := Setting(16, SHORT);
    OneOfTheirs(pieces);
    SlotIs(1, 0, 16, pieces);
    SlotIs(0, 1, 16, pieces);
    AllThere(16, pieces);
    before := d.slots[Pos(3, 0)];
    d.slots := d.slots[Pos(2, 1) := Deleted];
    TheirsExposed(pieces);
    OthersPieceGoes(d.slots, dir, 0, CLUSTER_INVALID, 1);
    error := RemoveLfn(d, 2, 1, CLUSTER_INVALID, dir, 1);
    after := d.slots[Pos(3, 0)];
  }

  lemma Misplaced(pieces: seq<Slot>)
    requires |pieces| == 1 && pieces[0].Piece? && EndMark(pieces[0])
    ensures var s, dir := Filled(1, pieces), ThreeClusters();
            && AllIn(s, dir) && |dir.Flat()| == 48 && dir.Flat()[1] == Pos(2, 1) && dir.Flat()[2] == Pos(2, 2)
            && Pos(2, 1) in s && s[Pos(2, 1)].Piece? && Pos(3, 2) in s && s[Pos(3, 2)].Entry?
            && OwnPieces(s, dir, 2, 1)
  {
    hide ThreeClusters, Filled, EndMark;
    AllThere(1, pieces);
    SlotIs(0, 1, 1, pieces);
    SlotIs(0, 2, 1, pieces);
    SlotIs(1, 2, 1, pieces);
  }

  lemma NotInRoot()
    ensures RootFirst(ThreeClusters(), 0)
  {}

  // Renaming the entry in the third slot of the second cluster within its directory: the removal of the old name
  // begins at the third slot of the first cluster, and deletes the piece of another name before it.
  method RenameTakesPiece() returns (error: Error, before: Slot, after: Slot)
    ensures error == NoError && before.Piece? && after == Deleted
  {
    hide IsDir, PiecesFit, HoldsName, Strip, FlatInjective, RootFirst, OwnPieces;
    var d;
    ghost var pieces, dir := [], ThreeClusters();
    d, pieces := Setting(1, SHORT);
    OneOfTheirs(pieces);
    Misplaced(pieces);
    NotInRoot();
    DirInjective(d, dir);
    before := d.slots[Pos(2, 1)];
    Renames.WrongPiecesGo(d.slots, Pos(3, 2), dir, 0, 2, 1);
    d.slots := d.slots[Pos(3, 2) := Deleted];
    error := RemoveLfn(d, 2, 2, 2, dir, 2);
    assert dir.Flat()[1] == Pos(2, 1);
    after := d.slots[Pos(2, 1)];
  }
}
