/**
 * Reading the long name of an entry in any directory (mfs/source/generic/mfs_lfn.c:936-1042).
 */
module LfnReading {
  import opened MfsTypes
  import opened FatChain
  import opened Drives
  import opened DirSlots
  import opened LongName
  import opened DirEntry
  import opened LfnRemoval

  // What the slots on a disk look like: a piece has thirteen units, and its ordinal is a byte.
  ghost predicate PiecesFit(slots: map<Pos, Slot>) {
    forall p :: p in slots && slots[p].Piece? ==> slots[p].id < 256 && |slots[p].units| == CHARS_PER_PIECE
  }

  ghost predicate KnownPrevious(dir: Dir, previous: nat) {
    previous == CLUSTER_INVALID || previous in dir.clusters
  }

  // At the first slot of a cluster, the slot before it is looked for in the previous cluster.
  method BackToPrevious(d: Drive, c: nat, i: nat, previous: nat, ghost dir: Dir, ghost x: nat)
      returns (error: Error, c': nat, i': nat)
    requires d.Mounted() && IsDir(d, dir) && x < |dir.Flat()| && dir.Flat()[x] == Pos(c, i) && KnownPrevious(dir, previous)
    ensures error == if Passable(dir, d.rootCluster, previous, x, false) then NoError else InvalidClusterNumber
    ensures error == NoError ==> 0 < x && 0 < i' && dir.Flat()[x - 1] == Pos(c', i' - 1)
  {
    ghost var j := SlotBefore(dir, x);
    error, c', i' := NoError, c, i;
    if i == 0 {
      if !dir.FixedRoot() {
        LinkedOnce(d, dir, j, previous);
      }
      error, c' := GetPrevCluster(d, c, previous);
      i' := d.entriesPerSector * d.sectorsPerCluster;
    }
  }

  // The slot in use before flat index x, or behind it if that one is deleted.
  method SlotInUse(d: Drive, c: nat, i: nat, previous: nat, ghost dir: Dir, ghost x: nat)
    returns (found: bool, c': nat, i': nat, previous': nat, ghost y: nat)
    requires d.Mounted() && IsDir(d, dir) && Present(d, dir) && 0 < x < |dir.Flat()| && i > 0
              && dir.Flat()[x - 1] == Pos(c, i - 1)
    requires KnownPrevious(dir, previous)
    ensures found ==> y < |dir.Flat()| && dir.Flat()[y] == Pos(c', i') && !d.slots[Pos(c', i')].Free()
    ensures KnownPrevious(dir, previous')
    ensures d.slots[dir.Flat()[x - 1]].Piece? ==> found && y == x - 1 && previous' == previous
  {
    ghost var j := SlotBefore(dir, x - 1);
    ghost var j';
    found, c', i', previous', j', y := FindSlot(d, InUse, c, i - 1, previous, dir, j, x - 1);
    if y == x - 1 && found {
      StandsOnce(dir, j, j', i', y);
    }
    assert y > x - 1 ==> !Halts(d, InUse, dir.Flat()[x - 1]);
  }

  // One piece: the slot before flat index x has it, or there is none.
  method ReadOne(d: Drive, c: nat, i: nat, previous: nat, sum: nat, count: nat, ghost dir: Dir, ghost x: nat)
    returns (stop: bool, error: Error, c': nat, i': nat, previous': nat, chunk: seq<nat>, last: bool, ghost y: nat)
    requires d.Mounted() && IsDir(d, dir) && Present(d, dir) && PiecesFit(d.slots) && 0 < count <= 256
    requires 0 < x < |dir.Flat()| && i > 0 && dir.Flat()[x - 1] == Pos(c, i - 1) && KnownPrevious(dir, previous)
    ensures !stop ==> error == NoError && y < |dir.Flat()| && dir.Flat()[y] == Pos(c', i') && KnownPrevious(dir, previous') && count < 256
    ensures var s := d.slots[dir.Flat()[x - 1]];
            s.Piece? && s.checksum == sum && ShareBit(s.id, count) ==>
              && !stop && y == x - 1 && previous' == previous && chunk == Chars(s.units) && (last <==> EndMark(s))
  {
    var found;
    found, c', i', previous', y := SlotInUse(d, c, i, previous, dir, x);
    stop, error, chunk, last := true, FileNotFound, [], false;
    if found && d.slots[Pos(c', i')].Piece? {
      error := NoError;
      var ok;
      ok, chunk, last := ReadPiece(d.slots[Pos(c', i')], sum, count);
      stop := !ok;
    }
  }

  // A name lies in pieces before the entry of slot x.
  ghost predicate Named(slots: map<Pos, Slot>, dir: Dir, x: nat, name: seq<nat>)
    requires AllIn(slots, dir) && x < |dir.Flat()|
  {
    slots[dir.Flat()[x]].Entry? && IsName(name) && NameBefore(slots, dir, x, name, Checksum(slots[dir.Flat()[x]].name))
  }

  // count - 1 pieces are read, down to slot y, and every boundary among them was gone back over.
  ghost predicate Reading(dir: Dir, root: nat, previous: nat, x: nat, name: seq<nat>, y: nat, count: nat,
      lfn: seq<nat>, wentBack: bool) {
    && IsName(name) && 1 <= count <= PieceCount(|name|) && y + (count - 1) == x < |dir.Flat()|
    && lfn == name[..ReadBefore(name, count)] && AllPassable(dir, root, previous, x, count - 1, false)
    && (wentBack <==> exists z: nat :: y < z <= x && dir.Flat()[z].index == 0)
  }

  // The slot before y is the piece with ordinal count.
  lemma NextPieceBack(slots: map<Pos, Slot>, dir: Dir, root: nat, previous: nat, x: nat, name: seq<nat>, y: nat, count: nat,
                      lfn: seq<nat>, wentBack: bool)
    requires AllIn(slots, dir) && x < |dir.Flat()| && Named(slots, dir, x, name)
    requires Reading(dir, root, previous, x, name, y, count, lfn, wentBack)
    ensures y > 0 && PieceCount(|name|) <= x && lfn != name
    ensures var s := slots[dir.Flat()[y - 1]];
            && s.Piece? && s.checksum == Checksum(slots[dir.Flat()[x]].name) && ShareBit(s.id, count)
            && (EndMark(s) <==> count == PieceCount(|name|))
            && lfn + Chars(s.units) == name[..ReadBefore(name, count + 1)]
  {
    var all := FlatSlots(slots, dir);
    assert Precedes(all, x, name);
    PieceBefore(all, x, name, count);
  }

  // A boundary that is not gone back over makes the name unreadable.
  lemma OutOfReach(dir: Dir, root: nat, previous: nat, x: nat, name: seq<nat>, y: nat, count: nat, lfn: seq<nat>, wentBack: bool)
    requires FlatInjective(dir) && Reading(dir, root, previous, x, name, y, count, lfn, wentBack) && 0 < y
              && PieceCount(|name|) <= x
    ensures !Passable(dir, root, previous, y, wentBack) ==> !AllPassable(dir, root, previous, x, PieceCount(|name|), false)
  {
    if AllPassable(dir, root, previous, x, PieceCount(|name|), false) {
      assert Passable(dir, root, previous, y, false);
      if wentBack && dir.Flat()[y].index == 0 {
        var z: nat :| y < z <= x && dir.Flat()[z].index == 0;
        assert Passable(dir, root, previous, z, false);
        OnlyBoundary(dir, previous, y, z);
      }
    }
  }

  lemma ReadMore(dir: Dir, root: nat, previous: nat, x: nat, name: seq<nat>, y: nat, count: nat, lfn: seq<nat>, wentBack: bool,
                 more: seq<nat>)
    requires Reading(dir, root, previous, x, name, y, count, lfn, wentBack) && y > 0
    requires Passable(dir, root, previous, y, false) && more == name[..ReadBefore(name, count + 1)]
    ensures if count < PieceCount(|name|) then Reading(dir, root, previous, x, name, y - 1, count + 1, more,
            wentBack || dir.Flat()[y].index == 0)
            else more == name && PieceCount(|name|) <= x && AllPassable(dir, root, previous, x, PieceCount(|name|), false)
  {}

  lemma StartReading(slots: map<Pos, Slot>, dir: Dir, root: nat, previous: nat, x: nat, name: seq<nat>)
    requires AllIn(slots, dir) && x < |dir.Flat()| && Named(slots, dir, x, name)
    ensures Reading(dir, root, previous, x, name, x, 1, [], false)
  {
    assert name[..ReadBefore(name, 1)] == [];
  }

  lemma PassableBy(dir: Dir, root: nat, previous: nat, y: nat, wentBack: bool)
    requires y < |dir.Flat()|
    ensures dir.Flat()[y].index == 0 && wentBack ==> !Passable(dir, root, previous, y, wentBack)
    ensures !Passable(dir, root, previous, y, false) ==> !Passable(dir, root, previous, y, wentBack)
  {}

  /**
   * MFS_get_lfn_of_entry: a name that was written as consecutive pieces in front of its entry is read back
   * as it was exactly if every cluster boundary among the pieces can be gone back over.
   */
  method GetLongName(d: Drive, cluster: nat, index: nat, previous: nat, ghost dir: Dir, ghost x: nat, ghost name: seq<nat>)
    returns (error: Error, lfn: seq<nat>)
    requires d.Mounted() && IsDir(d, dir) && Present(d, dir) && PiecesFit(d.slots)
    requires x < |dir.Flat()| && dir.Flat()[x] == Pos(cluster, index) && d.slots[Pos(cluster, index)].Entry?
    requires KnownPrevious(dir, previous)
    ensures Named(d.slots, dir, x, name) ==>
              (error == NoError && lfn == name <==> AllPassable(dir, d.rootCluster, previous, x, PieceCount(|name|), false))
  {
    hide Passable, AllPassable, Reading, Named, FlatInjective, PiecesFit, IsDir;
    var byte := LfnChecksum(d.slots[Pos(cluster, index)].name);
    var sum := byte as nat;
    var count, c, i, before, wentBack := 1, cluster, index, previous, false;
    lfn, error := [], NoError;
    ghost var y: nat, root := x, d.rootCluster;
    ghost var ours := Named(d.slots, dir, x, name);
    DirInjective(d, dir);
    if ours {
      StartReading(d.slots, dir, root, previous, x, name);
    }
    while true
      invariant 1 <= count <= 256 && y < |dir.Flat()| && dir.Flat()[y] == Pos(c, i) && KnownPrevious(dir, before)
      invariant ours ==> Reading(dir, root, previous, x, name, y, count, lfn, wentBack) && before == previous
      decreases 256 - count
    {
      ghost var y0, lfn0, back0 := y, lfn, wentBack;
      PassableBy(dir, root, previous, y, wentBack);
      if ours {
        NextPieceBack(d.slots, dir, root, previous, x, name, y, count, lfn, wentBack);
        OutOfReach(dir, root, previous, x, name, y, count, lfn, wentBack);
      }
      if i == 0 && wentBack {
        return;   // the error for a name that goes on before a second boundary is dropped
      }
      wentBack := wentBack || i == 0;
      error, c, i := BackToPrevious(d, c, i, before, dir, y);
      if error != NoError {
        return;
      }
      var stop, chunk, last;
      stop, error, c, i, before, chunk, last, y := ReadOne(d, c, i, before, sum, count, dir, y);
      if stop {
        return;
      }
      lfn := lfn + chunk;
      if ours {
        ReadMore(dir, root, previous, x, name, y0, count, lfn0, back0, lfn);
      }
      if last {
        return;
      }
      count := count + 1;
    }
  }
}
