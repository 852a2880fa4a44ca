/**
 * Removing the pieces of a long name from any directory (mfs/source/generic/mfs_lfn.c:613-699, 825-885).
 */
module LfnRemoval {
  import opened MfsTypes
  import opened FatChain
  import opened Drives
  import opened DirSlots
  import opened DirSearch
  import opened LongName
  import opened DirEntry

  predicate EndMark(s: Slot) {
    s.Piece? && s.id / LFN_END % 2 == 1
  }

  // MFS_get_prev_cluster: the cluster that the caller takes to be the previous one, if it is.
  method GetPrevCluster(d: Drive, c: nat, previous: nat) returns (error: Error, c': nat)
    requires d.Mounted() && c <= CLUSTER_MAX_GOOD
    ensures error == if c == d.rootCluster then InvalidClusterNumber
                     else if Good(d.Fat(), previous) && d.Fat()[previous] == c then NoError else InvalidClusterNumber
    ensures c' == if error == NoError then previous else c
  {
    c' := c;
    if c == d.rootCluster {
      return InvalidClusterNumber, c';
    }
    var e, next;
    if previous != CLUSTER_INVALID {
      e, next := d.GetCluster(previous);
      if c == next {
        return NoError, previous;
      }
    }
    if d.rootCluster != 0 {
      return InvalidClusterNumber, c';
    }
    // The source reads the cell of the same previous cluster on every turn.
    for i := CLUSTER_MIN_GOOD to d.LastCluster() + 1
      invariant previous == CLUSTER_INVALID || !(Good(d.Fat(), previous) && d.Fat()[previous] == c)
    {
      e, next := d.GetCluster(previous);
      if c == next {
        assert false;
      }
    }
    error := InvalidClusterNumber;
  }

  // ---- what is removed ----

  ghost function PieceSet(slots: map<Pos, Slot>): set<Pos> {
    set p | p in slots && slots[p].Piece?
  }

  datatype Stripped = Stripped(slots: map<Pos, Slot>, error: Error)

  /**
   * What the removal does, from the slot with flat index x on: it deletes the first piece that the search
   * finds from the slot before x on, if its index is less than that of x, and goes on from there until an end
   * mark. It goes back over a cluster boundary once, if the cluster before is previous. Indices are compared
   * without their clusters.
   */
  ghost function Strip(slots: map<Pos, Slot>, dir: Dir, root: nat, previous: nat, x: nat, wentBack: bool,
      started: bool): (r: Stripped)
    requires AllIn(slots, dir) && x < |dir.Flat()|
    decreases PieceSet(slots)
  {
    var p := dir.Flat()[x];
    if p.index == 0 && (p.cluster == 0 || p.cluster == root) then Stripped(slots, NoError)
    else if p.index == 0 && wentBack then Stripped(slots, if started then FailedToDeleteLfn else NoError)
    else if x == 0 || (p.index == 0 && dir.Flat()[x - 1].cluster != previous) then Stripped(slots, InvalidClusterNumber)
    else
      var y := FirstHalt(slots, dir, LongPart, x - 1);
      if y < |dir.Flat()| && slots[dir.Flat()[y]].Piece? && (p.index == 0 || dir.Flat()[y].index < p.index) then
        var slots' := slots[dir.Flat()[y] := Deleted];
        assert dir.Flat()[y] in PieceSet(slots) && PieceSet(slots') == PieceSet(slots) - {dir.Flat()[y]};
        if EndMark(slots[dir.Flat()[y]]) then Stripped(slots', NoError)
        else Strip(slots', dir, root, previous, y, wentBack || p.index == 0, true)
      else Stripped(slots, NoError)
  }

  // Pieces are deleted, and nothing else.
  ghost predicate OnlyPiecesGone(s: map<Pos, Slot>, t: map<Pos, Slot>) {
    s.Keys == t.Keys && forall p :: p in s ==> t[p] == s[p] || (s[p].Piece? && t[p] == Deleted)
  }

  // What lies outside the directory makes no difference.
  ghost predicate SameIn(s: map<Pos, Slot>, t: map<Pos, Slot>, dir: Dir) {
    forall k :: 0 <= k < |dir.Flat()| ==> dir.Flat()[k] in s && dir.Flat()[k] in t && t[dir.Flat()[k]] == s[dir.Flat()[k]]
  }

  lemma {:induction false} SameHalt(s: map<Pos, Slot>, t: map<Pos, Slot>, dir: Dir, want: Want, k: nat)
    requires SameIn(s, t, dir) && AllIn(s, dir) && AllIn(t, dir) && k <= |dir.Flat()|
    ensures FirstHalt(s, dir, want, k) == FirstHalt(t, dir, want, k)
    decreases |dir.Flat()| - k
  {
    if k < |dir.Flat()| {
      SameHalt(s, t, dir, want, k + 1);
    }
  }

  // A removal leaves no gap either.
  lemma RemovalLeavesNoGap(s: map<Pos, Slot>, t: map<Pos, Slot>, p: Pos, dir: Dir)
    requires AllIn(s, dir) && Compact(s, dir) && p in s && OnlyPiecesGone(s[p := Deleted], t)
    ensures AllIn(t, dir) && Compact(t, dir)
  {
    forall k | 0 <= k < |dir.Flat()|
      ensures dir.Flat()[k] in t && (t[dir.Flat()[k]].NeverUsed? ==> s[dir.Flat()[k]].NeverUsed?)
      ensures Takes(t[dir.Flat()[k]], InUse) ==> Takes(s[dir.Flat()[k]], InUse)
    {}
  }

  // ---- the loop ----

  // The slot before flat index x: in the same cluster, or the last one of the cluster before.
  lemma SlotBefore(dir: Dir, x: nat) returns (j: nat)
    requires x < |dir.Flat()|
    ensures j < |dir.clusters| && dir.Flat()[x].cluster == dir.clusters[j] && dir.Flat()[x].index < dir.perCluster
    ensures Stands(dir, j, dir.Flat()[x].index, x)
    ensures dir.Flat()[x].index > 0 ==>
              x > 0 && dir.Flat()[x - 1] == Pos(dir.clusters[j], dir.Flat()[x].index - 1)
                  && Stands(dir, j, dir.Flat()[x].index - 1, x - 1)
    ensures dir.Flat()[x].index == 0 ==> (x == 0 <==> j == 0)
    ensures dir.Flat()[x].index == 0 && j > 0 ==>
              dir.Flat()[x - 1] == Pos(dir.clusters[j - 1], dir.perCluster - 1) && Stands(dir, j - 1, dir.perCluster - 1, x - 1)
  {
    var i;
    j, i := ClusterOfPosition(dir.clusters, dir.perCluster, x);
    if i > 0 {
      PositionsOfCluster(dir.clusters, dir.perCluster, j, i - 1);
    } else if j > 0 {
      PositionsOfCluster(dir.clusters, dir.perCluster, j - 1, dir.perCluster - 1);
    } else {
      assert dir.clusters[..0] == [];
    }
  }

  // Only the predecessor in the chain links to a cluster of the directory.
  lemma LinkedOnce(d: Drive, dir: Dir, j: nat, previous: nat)
    requires d.Mounted() && IsDir(d, dir) && !dir.FixedRoot() && j < |dir.clusters|
    requires previous == CLUSTER_INVALID || previous in dir.clusters
    ensures Good(d.Fat(), previous) && d.Fat()[previous] == dir.clusters[j] <==> j > 0 && previous == dir.clusters[j - 1]
  {
    var f, ch := d.Fat(), dir.clusters;
    if j > 0 {
      assert f[ch[j - 1]] == ch[j];
    }
    if Good(f, previous) && f[previous] == ch[j] {
      var m :| 0 <= m < |ch| && ch[m] == previous;
      ChainDistinct(f, ch);
      assert m < |ch| - 1 ==> f[ch[m]] == ch[m + 1];
    }
  }

  // Deleting a piece leaves one piece less.
  lemma OnePieceLess(slots: map<Pos, Slot>, p: Pos)
    requires p in slots && slots[p].Piece?
    ensures PieceSet(slots[p := Deleted]) < PieceSet(slots)
  {
    assert p in PieceSet(slots) && p !in PieceSet(slots[p := Deleted]);
  }

  // The search for a piece, from the slot before flat index x on; i is the index it counts back from.
  method FindPiece(d: Drive, c: nat, i: nat, previous: nat, ghost dir: Dir, ghost x: nat)
      returns (found: bool, c': nat, i': nat, ghost y: nat)
    requires d.Mounted() && IsDir(d, dir) && Present(d, dir) && 0 < x < |dir.Flat()| && i > 0
    requires dir.Flat()[x - 1] == Pos(c, i - 1)
    ensures y == FirstHalt(d.slots, dir, LongPart, x - 1)
    ensures found <==> y < |dir.Flat()| && d.slots[dir.Flat()[y]].Piece?
    ensures found ==> dir.Flat()[y] == Pos(c', i')
  {
    ghost var j := SlotBefore(dir, x - 1);
    var before;
    ghost var j';
    found, c', i', before, j', y := FindSlot(d, LongPart, c, i - 1, previous, dir, j, x - 1);
  }

  // Going back over a cluster boundary.
  method StepBack(d: Drive, c: nat, previous: nat, ghost dir: Dir, ghost x: nat) returns (error: Error, c': nat)
    requires d.Mounted() && IsDir(d, dir) && !dir.FixedRoot() && x < |dir.Flat()| && dir.Flat()[x] == Pos(c, 0)
              && c != d.rootCluster
    requires previous == CLUSTER_INVALID || previous in dir.clusters
    ensures error == if x == 0 || dir.Flat()[x - 1].cluster != previous then InvalidClusterNumber else NoError
    ensures error == NoError ==> dir.Flat()[x - 1] == Pos(c', d.SlotsPerCluster() - 1)
  {
    ghost var j := SlotBefore(dir, x);
    LinkedOnce(d, dir, j, previous);
    error, c' := GetPrevCluster(d, c, previous);
  }

  // Where the removal ends at the beginning of a cluster, and with what.
  ghost function Edge(dir: Dir, root: nat, previous: nat, x: nat, wentBack: bool, started: bool): Option<Error>
    requires x < |dir.Flat()|
  {
    var p := dir.Flat()[x];
    if p.index > 0 then None
    else if p.cluster == 0 || p.cluster == root then Some(NoError)
    else if wentBack then Some(if started then FailedToDeleteLfn else NoError)
    else if x == 0 || dir.Flat()[x - 1].cluster != previous then Some(InvalidClusterNumber)
    else None
  }

  lemma StripTurn(slots: map<Pos, Slot>, dir: Dir, root: nat, previous: nat, x: nat, wentBack: bool, started: bool)
    requires AllIn(slots, dir) && x < |dir.Flat()|
    ensures var r := Strip(slots, dir, root, previous, x, wentBack, started);
            var edge := Edge(dir, root, previous, x, wentBack, started);
            if edge.Some? then r == Stripped(slots, edge.value)
            else
              && x > 0
              && var y := FirstHalt(slots, dir, LongPart, x - 1);
                 if y < |dir.Flat()| && slots[dir.Flat()[y]].Piece?
                     && (dir.Flat()[x].index == 0 || dir.Flat()[y].index < dir.Flat()[x].index) then
                   r == if EndMark(slots[dir.Flat()[y]]) then Stripped(slots[dir.Flat()[y] := Deleted], NoError)
                        else Strip(slots[dir.Flat()[y] := Deleted], dir, root, previous, y,
                            wentBack || dir.Flat()[x].index == 0, true)
                 else r == Stripped(slots, NoError)
  {
    var j := SlotBefore(dir, x);
  }

  lemma {:induction false} StripsPieces(slots: map<Pos, Slot>, dir: Dir, root: nat, previous: nat, x: nat,
      wentBack: bool, started: bool)
    requires AllIn(slots, dir) && x < |dir.Flat()|
    ensures OnlyPiecesGone(slots, Strip(slots, dir, root, previous, x, wentBack, started).slots)
    ensures Strip(slots, dir, root, previous, x, wentBack, started).error in {NoError, InvalidClusterNumber, FailedToDeleteLfn}
    decreases PieceSet(slots)
  {
    hide Strip;
    StripTurn(slots, dir, root, previous, x, wentBack, started);
    if Edge(dir, root, previous, x, wentBack, started) == None {
      var y := FirstHalt(slots, dir, LongPart, x - 1);
      if y < |dir.Flat()| && slots[dir.Flat()[y]].Piece? {
        OnePieceLess(slots, dir.Flat()[y]);
        StripsPieces(slots[dir.Flat()[y] := Deleted], dir, root, previous, y, wentBack || dir.Flat()[x].index == 0, true);
      }
    }
  }

  lemma {:induction false} SameStrip(s: map<Pos, Slot>, t: map<Pos, Slot>, dir: Dir, root: nat, previous: nat, x: nat,
      wentBack: bool, started: bool)
    requires SameIn(s, t, dir) && AllIn(s, dir) && AllIn(t, dir) && x < |dir.Flat()|
    ensures Strip(s, dir, root, previous, x, wentBack, started).error == Strip(t, dir, root, previous, x, wentBack, started).error
    ensures SameIn(Strip(s, dir, root, previous, x, wentBack, started).slots,
            Strip(t, dir, root, previous, x, wentBack, started).slots, dir)
    decreases PieceSet(s)
  {
    hide Strip, Edge, FirstHalt, PieceSet, EndMark;
    StripTurn(s, dir, root, previous, x, wentBack, started);
    StripTurn(t, dir, root, previous, x, wentBack, started);
    if Edge(dir, root, previous, x, wentBack, started) == None {
      SameHalt(s, t, dir, LongPart, x - 1);
      var y := FirstHalt(s, dir, LongPart, x - 1);
      if y < |dir.Flat()| && s[dir.Flat()[y]].Piece? {
        OnePieceLess(s, dir.Flat()[y]);
        SameStrip(s[dir.Flat()[y] := Deleted], t[dir.Flat()[y] := Deleted], dir, root, previous, y,
            wentBack || dir.Flat()[x].index == 0, true);
      }
    }
  }

  // The first half of a turn: at the beginning of a cluster, stop or go back.
  method AtEdge(d: Drive, c: nat, i: nat, previous: nat, wentBack: bool, started: bool, ghost dir: Dir, ghost x: nat)
    returns (stop: bool, error: Error, c': nat, i': nat, wentBack': bool)
    requires d.Mounted() && IsDir(d, dir) && x < |dir.Flat()| && dir.Flat()[x] == Pos(c, i)
    requires previous == CLUSTER_INVALID || previous in dir.clusters
    ensures stop <==> Edge(dir, d.rootCluster, previous, x, wentBack, started).Some?
    ensures stop ==> Edge(dir, d.rootCluster, previous, x, wentBack, started) == Some(error)
    ensures !stop ==>
              && error == NoError && 0 < x && 0 < i' && dir.Flat()[x - 1] == Pos(c', i' - 1)
              && i' == (if i == 0 then dir.perCluster else i) && wentBack' == (wentBack || i == 0)
  {
    ghost var j := SlotBefore(dir, x);
    stop, error, c', i', wentBack' := false, NoError, c, i, wentBack;
    if i == 0 {
      if c == 0 || (d.rootCluster != 0 && c == d.rootCluster) {
        stop := true;
      } else if wentBack {
        error := if started then FailedToDeleteLfn else NoError;
        stop := true;
      } else {
        error, c' := StepBack(d, c, previous, dir, x);
        wentBack' := true;
        i' := d.entriesPerSector * d.sectorsPerCluster;
        stop := error != NoError;
      }
    }
  }

  // The second half: the piece that the search finds goes, if its index is less than i.
  method TakePiece(d: Drive, c: nat, i: nat, previous: nat, ghost dir: Dir, ghost x: nat)
    returns (found: bool, last: bool, c': nat, i': nat, ghost y: nat)
    requires d.Mounted() && IsDir(d, dir) && Present(d, dir) && 0 < x < |dir.Flat()| && i > 0
              && dir.Flat()[x - 1] == Pos(c, i - 1)
    modifies d`slots
    ensures y == FirstHalt(old(d.slots), dir, LongPart, x - 1)
    ensures found <==> y < |dir.Flat()| && old(d.slots)[dir.Flat()[y]].Piece? && dir.Flat()[y].index < i
    ensures !found ==> d.slots == old(d.slots)
    ensures found ==>
              && dir.Flat()[y] == Pos(c', i') && d.slots == old(d.slots)[Pos(c', i') := Deleted]
              && (last <==> EndMark(old(d.slots)[Pos(c', i')])) && PieceSet(d.slots) < PieceSet(old(d.slots))
  {
    found, c', i', y := FindPiece(d, c, i, previous, dir, x);
    last := false;
    if found && i' < i {
      last := EndMark(d.slots[Pos(c', i')]);
      OnePieceLess(d.slots, Pos(c', i'));
      d.slots := d.slots[Pos(c', i') := Deleted];
    } else {
      found := false;
    }
  }

  lemma IndexBound(dir: Dir, x: nat)
    requires x < |dir.Flat()|
    ensures dir.Flat()[x].index < dir.perCluster
  {
    var j := SlotBefore(dir, x);
  }

  // One turn of the loop.
  method RemoveTurn(d: Drive, c: nat, i: nat, previous: nat, wentBack: bool, started: bool, ghost dir: Dir, ghost x: nat)
    returns (going: bool, error: Error, c': nat, i': nat, wentBack': bool, ghost x': nat)
    requires d.Mounted() && IsDir(d, dir) && Present(d, dir) && x < |dir.Flat()| && dir.Flat()[x] == Pos(c, i)
    requires previous == CLUSTER_INVALID || previous in dir.clusters
    modifies d`slots
    ensures Present(d, dir)
    ensures going ==>
              && x' < |dir.Flat()| && dir.Flat()[x'] == Pos(c', i') && PieceSet(d.slots) < PieceSet(old(d.slots))
              && Strip(old(d.slots), dir, d.rootCluster, previous, x, wentBack, started)
                 == Strip(d.slots, dir, d.rootCluster, previous, x', wentBack', true)
    ensures !going ==> Strip(old(d.slots), dir, d.rootCluster, previous, x, wentBack, started) == Stripped(d.slots, error)
  {
    hide Strip, Edge, IsDir;
    StripTurn(d.slots, dir, d.rootCluster, previous, x, wentBack, started);
    var stop;
    stop, error, c', i', wentBack' := AtEdge(d, c, i, previous, wentBack, started, dir, x);
    going, x' := false, x;
    if !stop {
      var last;
      going, last, c', i', x' := TakePiece(d, c', i', previous, dir, x);
      if x' < |dir.Flat()| {
        IndexBound(dir, x');
      }
      going := going && !last;
    }
  }

  /**
   * MFS_remove_lfn_entries, from the slot with flat index x on.
   */
  method RemoveLfn(d: Drive, parent: nat, index: nat, previous: nat, ghost dir: Dir, ghost x: nat) returns (error: Error)
    requires d.Mounted() && IsDir(d, dir) && Present(d, dir) && x < |dir.Flat()| && dir.Flat()[x] == Pos(parent, index)
    requires previous == CLUSTER_INVALID || previous in dir.clusters
    modifies d`slots
    ensures d.readOnly ==> error == WriteProtected && d.slots == old(d.slots)
    ensures !d.readOnly ==> Stripped(d.slots, error) == Strip(old(d.slots), dir, d.rootCluster, previous, x, false, false)
  {
    if d.readOnly {
      return WriteProtected;
    }
    hide Strip, IsDir;
    error := NoError;
    var c, i, going, wentBack, started := parent, index, true, false, false;
    ghost var y: nat := x;
    ghost var goal := Strip(d.slots, dir, d.rootCluster, previous, x, false, false);
    while going
      invariant Present(d, dir)
      invariant going ==> y < |dir.Flat()| && dir.Flat()[y] == Pos(c, i)
      invariant going ==> Strip(d.slots, dir, d.rootCluster, previous, y, wentBack, started) == goal
      invariant !going ==> Stripped(d.slots, error) == goal
      decreases going, PieceSet(d.slots)
    {
      going, error, c, i, wentBack, y := RemoveTurn(d, c, i, previous, wentBack, started, dir, y);
      started := true;
    }
  }

  // Where the search from the beginning of a directory finds slot p: at flat index x, with the cluster before.
  ghost predicate Found(dir: Dir, x: nat, p: Pos, previous: nat) {
    && x < |dir.Flat()| && dir.Flat()[x] == p
    && exists j: nat :: Stands(dir, j, p.index, x) && previous == if j == 0 then CLUSTER_INVALID else dir.clusters[j - 1]
  }

  lemma FoundNext(d: Drive, dir: Dir, k: nat, p: Pos, q: Pos, previous: nat)
    requires d.Mounted() && IsDir(d, dir) && Found(dir, k, p, previous) && k + 1 < |dir.Flat()| && dir.Flat()[k + 1] == q
    ensures Found(dir, k + 1, q, if q.cluster != p.cluster then p.cluster else previous)
  {
    hide *;
    var m := FoundWhere(dir, k, p, previous);
    var j := SlotBefore(dir, k);
    var j' := SlotBefore(dir, k + 1);
    StandsOnce(dir, m, j, p.index, k);
    if q.index > 0 {
      StandsOnce(dir, j, j', p.index, k);
      FoundThere(dir, k + 1, q, j', previous);
    } else {
      StandsOnce(dir, j, j' - 1, p.index, k);
      NextIsOther(d, dir, j);
      FoundThere(dir, k + 1, q, j', p.cluster);
    }
  }

  lemma FoundWhere(dir: Dir, k: nat, p: Pos, previous: nat) returns (j: nat)
    requires Found(dir, k, p, previous)
    ensures k < |dir.Flat()| && dir.Flat()[k] == p && Stands(dir, j, p.index, k) && j < |dir.clusters|
    ensures previous == if j == 0 then CLUSTER_INVALID else dir.clusters[j - 1]
  {
    j :| Stands(dir, j, p.index, k) && previous == if j == 0 then CLUSTER_INVALID else dir.clusters[j - 1];
  }

  lemma FoundThere(dir: Dir, k: nat, p: Pos, j: nat, previous: nat)
    requires k < |dir.Flat()| && dir.Flat()[k] == p && Stands(dir, j, p.index, k) && j < |dir.clusters|
    requires previous == if j == 0 then CLUSTER_INVALID else dir.clusters[j - 1]
    ensures Found(dir, k, p, previous)
  {}

  // A slot stands in one cluster.
  lemma StandsOnce(dir: Dir, j: nat, j': nat, i: nat, k: nat)
    requires Stands(dir, j, i, k) && Stands(dir, j', i, k) && i < dir.perCluster
    ensures j == j'
  {
    if j < j' {
      assert dir.clusters[..j'][..j] == dir.clusters[..j];
      PositionsOfCluster(dir.clusters[..j'], dir.perCluster, j, i);
    } else if j' < j {
      assert dir.clusters[..j][..j'] == dir.clusters[..j'];
      PositionsOfCluster(dir.clusters[..j], dir.perCluster, j', i);
    }
  }

  lemma NextIsOther(d: Drive, dir: Dir, j: nat)
    requires d.Mounted() && IsDir(d, dir) && j + 1 < |dir.clusters|
    ensures dir.clusters[j + 1] != dir.clusters[j]
  {
    NoRepeat(d.Fat(), dir.clusters, j, j + 1);
  }

  // The walk of a search from the beginning of a directory to slot p.
  method Locate(d: Drive, c0: nat, p: Pos, ghost dir: Dir, ghost x: nat) returns (previous: nat)
    requires d.Mounted() && IsDir(d, dir) && dir.clusters[0] == c0 && x < |dir.Flat()| && dir.Flat()[x] == p
    ensures Found(dir, x, p, previous)
  {
    hide Found;
    var c, i := c0, 0;
    previous := CLUSTER_INVALID;
    ghost var k: nat := 0;
    FoundFirst(dir);
    while Pos(c, i) != p
      invariant k <= x && dir.Flat()[k] == Pos(c, i) && Found(dir, k, Pos(c, i), previous)
      decreases x - k
    {
      StepFlat(d, dir, k);
      FoundNext(d, dir, k, Pos(c, i), dir.Flat()[k + 1], previous);
      var e;
      e, c, i, previous := Increment(d, c, i, previous);
      GoodCluster(d, dir, k + 1);
      k := k + 1;
    }
    FlatIndexUnique(d, dir, k, x);
  }

  lemma FoundFirst(dir: Dir)
    requires 0 < |dir.Flat()|
    ensures Found(dir, 0, Pos(dir.clusters[0], 0), CLUSTER_INVALID) && dir.Flat()[0] == Pos(dir.clusters[0], 0)
  {
    var j := SlotBefore(dir, 0);
    PositionsOfCluster(dir.clusters, dir.perCluster, 0, 0);
    assert dir.clusters[..0] == [];
    assert Stands(dir, 0, 0, 0);
  }

  lemma GoodCluster(d: Drive, dir: Dir, k: nat)
    requires d.Mounted() && IsDir(d, dir) && k < |dir.Flat()|
    ensures dir.Flat()[k].cluster != CLUSTER_INVALID
  {
    var j := SlotBefore(dir, k);
  }

  // ---- whose pieces go ----

  // The m slots before x are the pieces of one name: the first of them is its end mark.
  ghost predicate OwnPieces(slots: map<Pos, Slot>, dir: Dir, x: nat, m: nat)
    requires AllIn(slots, dir) && x < |dir.Flat()|
  {
    && 0 < m <= x
    && forall w :: x - m <= w < x ==> slots[dir.Flat()[w]].Piece? && (EndMark(slots[dir.Flat()[w]]) <==> w == x - m)
  }

  // The slots of a directory in flat order.
  ghost function FlatSlots(slots: map<Pos, Slot>, dir: Dir): (r: seq<Slot>)
    requires AllIn(slots, dir)
    ensures |r| == |dir.Flat()|
  {
    seq(|dir.Flat()|, k requires 0 <= k < |dir.Flat()| => slots[dir.Flat()[k]])
  }

  // The m slots before x hold a name.
  ghost predicate NameBefore(slots: map<Pos, Slot>, dir: Dir, x: nat, name: seq<nat>, checksum: nat)
    requires AllIn(slots, dir) && x < |dir.Flat()| && IsName(name)
  {
    PieceCount(|name|) <= x && HoldsName(FlatSlots(slots, dir)[x - PieceCount(|name|)..x], name, checksum)
  }

  lemma NameIsOwn(slots: map<Pos, Slot>, dir: Dir, x: nat, name: seq<nat>, checksum: nat)
    requires AllIn(slots, dir) && x < |dir.Flat()| && IsName(name) && NameBefore(slots, dir, x, name, checksum)
    ensures OwnPieces(slots, dir, x, PieceCount(|name|))
  {
    var m := PieceCount(|name|);
    forall w | x - m <= w < x
      ensures slots[dir.Flat()[w]].Piece? && (EndMark(slots[dir.Flat()[w]]) <==> w == x - m)
    {
      var s := FlatSlots(slots, dir)[x - m..x][w - (x - m)];
      PieceMark(s, name, w - (x - m), checksum);
    }
  }

  // Slot z begins a cluster, and the removal can go back over it.
  ghost predicate Passable(dir: Dir, root: nat, previous: nat, z: nat, wentBack: bool)
    requires z < |dir.Flat()|
  {
    dir.Flat()[z].index == 0 ==> !wentBack && z > 0 && dir.Flat()[z].cluster != root && dir.Flat()[z - 1].cluster == previous
  }

  ghost predicate AllPassable(dir: Dir, root: nat, previous: nat, x: nat, m: nat, wentBack: bool)
    requires x < |dir.Flat()| && m <= x
  {
    forall z: nat :: x - m < z <= x ==> Passable(dir, root, previous, z, wentBack)
  }

  // A directory that is not the root does not hold the root's first cluster, and the root begins with it.
  ghost predicate RootFirst(dir: Dir, root: nat) {
    forall j :: 0 < j < |dir.clusters| ==> dir.clusters[j] != root && dir.clusters[j] != 0
  }

  lemma {:induction false} PositionsLength(clusters: seq<nat>, n: nat)
    ensures |Positions(clusters, n)| == |clusters| * n
    decreases |clusters|
  {
    if clusters != [] {
      PositionsLength(clusters[..|clusters| - 1], n);
      assert |clusters| * n == (|clusters| - 1) * n + n;
    }
  }

  // Slot i of the j-th cluster has flat index j * n + i, written start + i.
  lemma Coordinates(dir: Dir, x: nat) returns (j: nat, start: nat)
    requires x < |dir.Flat()|
    ensures j < |dir.clusters| && dir.Flat()[x].cluster == dir.clusters[j] && dir.Flat()[x].index < dir.perCluster
    ensures start == j * dir.perCluster && x == start + dir.Flat()[x].index
    ensures forall m: nat :: Stands(dir, m, dir.Flat()[x].index, x) <==> m == j
  {
    var i;
    j, i := ClusterOfPosition(dir.clusters, dir.perCluster, x);
    start := j * dir.perCluster;
    PositionsLength(dir.clusters[..j], dir.perCluster);
    forall m: nat | Stands(dir, m, i, x)
      ensures m == j
    {
      StandsOnce(dir, m, j, i, x);
    }
  }

  lemma SlotAt(dir: Dir, j: nat, i: nat)
    requires j < |dir.clusters| && i < dir.perCluster
    ensures j * dir.perCluster + i < |dir.Flat()| && dir.Flat()[j * dir.perCluster + i] == Pos(dir.clusters[j], i)
  {
    PositionsLength(dir.clusters[..j], dir.perCluster);
    PositionsOfCluster(dir.clusters, dir.perCluster, j, i);
  }

  lemma LaterCluster(a: nat, b: nat, n: nat)
    requires n > 0
    ensures a < b ==> a * n + n <= b * n
    ensures a + 1 < b ==> a * n + n + n <= b * n
  {
    if a < b {
      Drive.MulMonotone(a + 1, b, n);
      assert (a + 1) * n == a * n + n;
    }
    if a + 1 < b {
      Drive.MulMonotone(a + 2, b, n);
      assert (a + 2) * n == a * n + n + n;
    }
  }

  /**
   * From where the search found an entry, the removal reaches exactly as far back as the beginning of the
   * cluster before the entry's.
   */
  lemma Reach(dir: Dir, root: nat, previous: nat, x: nat, p: Pos, m: nat)
    requires Found(dir, x, p, previous) && FlatInjective(dir) && RootFirst(dir, root) && m <= x
    ensures AllPassable(dir, root, previous, x, m, false) <==> m <= p.index + dir.perCluster
  {
    var j, start := Coordinates(dir, x);
    if m <= p.index + dir.perCluster {
      forall z: nat | x - m < z <= x
        ensures Passable(dir, root, previous, z, false)
      {
        if dir.Flat()[z].index == 0 {
          BoundaryNear(dir, root, previous, x, p, z);
        }
      }
    } else {
      TooFar(dir, root, previous, x, p, m);
    }
  }

  lemma BoundaryNear(dir: Dir, root: nat, previous: nat, x: nat, p: Pos, z: nat)
    requires Found(dir, x, p, previous) && RootFirst(dir, root) && 0 < z <= x < z + p.index + dir.perCluster
              && dir.Flat()[z].index == 0
    ensures Passable(dir, root, previous, z, false)
  {
    var n := dir.perCluster;
    var j, start := Coordinates(dir, x);
    var k, z' := Coordinates(dir, z);
    LaterCluster(k, j, n);
    LaterCluster(j, k, n);
    assert k == j;
    assert j > 0;
    SlotAt(dir, j - 1, n - 1);
    assert (j - 1) * n + (n - 1) == z - 1;
  }

  lemma Earlier(j: int, n: int)
    ensures (j - 1) * n == j * n - n && (j - 2) * n == j * n - n - n
  {}

  // The cluster before the previous one is another one.
  lemma TwoBack(dir: Dir, j: nat)
    requires FlatInjective(dir) && 2 <= j < |dir.clusters| && dir.perCluster > 0
    ensures var z := j * dir.perCluster - dir.perCluster;
            && 0 < z < |dir.Flat()| && dir.Flat()[z].index == 0 && dir.Flat()[z - 1].cluster != dir.clusters[j - 1]
  {
    var n := dir.perCluster;
    Earlier(j, n);
    LaterCluster(1, j, n);
    SlotAt(dir, j - 1, 0);
    SlotAt(dir, j - 2, n - 1);
    SlotAt(dir, j - 1, n - 1);
  }

  lemma TooFar(dir: Dir, root: nat, previous: nat, x: nat, p: Pos, m: nat)
    requires Found(dir, x, p, previous) && FlatInjective(dir) && p.index + dir.perCluster < m <= x
    ensures !AllPassable(dir, root, previous, x, m, false)
  {
    hide FlatInjective;
    var n := dir.perCluster;
    var j, start := Coordinates(dir, x);
    LaterCluster(j, 2, n);
    TwoBack(dir, j);
    assert !Passable(dir, root, previous, start - n, false);
  }

  // The slots with those from lo up to, but not including, hi deleted.
  ghost function Gone(slots: map<Pos, Slot>, dir: Dir, lo: nat, hi: nat): map<Pos, Slot>
    requires hi <= |dir.Flat()|
  {
    map p | p in slots :: if exists w :: lo <= w < hi && dir.Flat()[w] == p then Deleted else slots[p]
  }

  lemma GoneOne(slots: map<Pos, Slot>, dir: Dir, lo: nat, hi: nat)
    requires AllIn(slots, dir) && lo < hi <= |dir.Flat()|
    ensures Gone(slots[dir.Flat()[hi - 1] := Deleted], dir, lo, hi - 1) == Gone(slots, dir, lo, hi)
  {
    var s, t := Gone(slots[dir.Flat()[hi - 1] := Deleted], dir, lo, hi - 1), Gone(slots, dir, lo, hi);
    forall p | p in slots
      ensures s[p] == t[p]
    {
      if w :| lo <= w < hi && dir.Flat()[w] == p {
        if w < hi - 1 {
          assert lo <= w < hi - 1;
        }
      }
    }
  }

  // A boundary that is gone back over is the only one behind previous.
  lemma OnlyBoundary(dir: Dir, previous: nat, z: nat, x: nat)
    requires FlatInjective(dir) && 0 < z < x < |dir.Flat()| && dir.Flat()[z].index == 0 && dir.Flat()[x].index == 0
    requires dir.Flat()[x - 1].cluster == previous
    ensures dir.Flat()[z - 1].cluster != previous
  {
    var j := SlotBefore(dir, z);
    var j' := SlotBefore(dir, x);
    assert dir.Flat()[z - 1] != dir.Flat()[x - 1];
  }

  /**
   * The pieces of a name that lie directly before its entry go, all of them and nothing else, exactly if
   * every cluster boundary among them can be gone back over; otherwise the removal ends with an error.
   */
  lemma {:induction false} OwnPiecesGo(slots: map<Pos, Slot>, dir: Dir, root: nat, previous: nat, x: nat, m: nat,
      wentBack: bool, started: bool)
    requires AllIn(slots, dir) && x < |dir.Flat()| && OwnPieces(slots, dir, x, m) && FlatInjective(dir) && RootFirst(dir, root)
    requires started || !wentBack
    ensures var r := Strip(slots, dir, root, previous, x, wentBack, started);
            if AllPassable(dir, root, previous, x, m, wentBack) then r == Stripped(Gone(slots, dir, x - m, x), NoError)
            else r.error == InvalidClusterNumber || r.error == FailedToDeleteLfn
    decreases m
  {
    hide Strip, OwnPieces, AllPassable, Passable, Gone, FlatInjective, Edge, RootFirst, AllIn;
    StripTurn(slots, dir, root, previous, x, wentBack, started);
    OwnFirst(slots, dir, x, m);
    EdgePassable(dir, root, previous, x, wentBack, started);
    PassableFirst(dir, root, previous, x, m, wentBack);
    if Edge(dir, root, previous, x, wentBack, started) == None {
      var rest := slots[dir.Flat()[x - 1] := Deleted];
      GoneOne(slots, dir, x - m, x);
      if m == 1 {
        NothingGone(rest, dir, x - 1);
      } else {
        OwnPiecesRest(slots, dir, x, m);
        OwnPiecesGo(rest, dir, root, previous, x - 1, m - 1, wentBack || dir.Flat()[x].index == 0, true);
        PassableRest(dir, root, previous, x, m, wentBack);
      }
    }
  }

  lemma EdgePassable(dir: Dir, root: nat, previous: nat, x: nat, wentBack: bool, started: bool)
    requires 0 < x < |dir.Flat()| && RootFirst(dir, root) && (started || !wentBack)
    ensures var edge := Edge(dir, root, previous, x, wentBack, started);
            && (edge == None <==> Passable(dir, root, previous, x, wentBack))
            && (edge.Some? ==> edge.value == InvalidClusterNumber || edge.value == FailedToDeleteLfn)
  {
    var j := SlotBefore(dir, x);
  }

  lemma OwnFirst(slots: map<Pos, Slot>, dir: Dir, x: nat, m: nat)
    requires AllIn(slots, dir) && x < |dir.Flat()| && OwnPieces(slots, dir, x, m)
    ensures 0 < m <= x && slots[dir.Flat()[x - 1]].Piece? && FirstHalt(slots, dir, LongPart, x - 1) == x - 1
    ensures EndMark(slots[dir.Flat()[x - 1]]) <==> m == 1
    ensures dir.Flat()[x].index == 0 || dir.Flat()[x - 1].index < dir.Flat()[x].index
  {
    var j := SlotBefore(dir, x);
  }

  lemma PassableFirst(dir: Dir, root: nat, previous: nat, x: nat, m: nat, wentBack: bool)
    requires x < |dir.Flat()| && 0 < m <= x
    ensures AllPassable(dir, root, previous, x, m, wentBack) ==> Passable(dir, root, previous, x, wentBack)
    ensures m == 1 && Passable(dir, root, previous, x, wentBack) ==> AllPassable(dir, root, previous, x, m, wentBack)
  {}

  lemma NothingGone(slots: map<Pos, Slot>, dir: Dir, x: nat)
    requires x <= |dir.Flat()|
    ensures Gone(slots, dir, x, x) == slots
  {}

  lemma OwnPiecesRest(slots: map<Pos, Slot>, dir: Dir, x: nat, m: nat)
    requires AllIn(slots, dir) && x < |dir.Flat()| && OwnPieces(slots, dir, x, m) && m > 1 && FlatInjective(dir)
    ensures AllIn(slots[dir.Flat()[x - 1] := Deleted], dir) && OwnPieces(slots[dir.Flat()[x - 1] := Deleted], dir, x - 1, m - 1)
    ensures !EndMark(slots[dir.Flat()[x - 1]])
  {
    forall w | x - m <= w < x - 1
      ensures dir.Flat()[w] != dir.Flat()[x - 1]
    {}
  }

  lemma PassableRest(dir: Dir, root: nat, previous: nat, x: nat, m: nat, wentBack: bool)
    requires x < |dir.Flat()| && 1 < m <= x && Passable(dir, root, previous, x, wentBack) && FlatInjective(dir)
    ensures AllPassable(dir, root, previous, x, m, wentBack)
            <==> AllPassable(dir, root, previous, x - 1, m - 1, wentBack || dir.Flat()[x].index == 0)
  {
    if dir.Flat()[x].index == 0 {
      forall z: nat | x - m < z < x && dir.Flat()[z].index == 0
        ensures !Passable(dir, root, previous, z, wentBack)
      {
        if z > 0 {
          OnlyBoundary(dir, previous, z, x);
        }
      }
    }
    forall z: nat | x - m < z < x
      ensures Passable(dir, root, previous, z, wentBack)
              <==> Passable(dir, root, previous, z, wentBack || dir.Flat()[x].index == 0)
    {}
  }

  /**
   * The whole story of a name: when its entry is marked, its pieces go, all of them and nothing else, exactly
   * if they begin no earlier than the cluster before the entry's.
   */
  lemma NameGoes(slots: map<Pos, Slot>, dir: Dir, root: nat, previous: nat, x: nat, p: Pos, name: seq<nat>, checksum: nat)
    requires AllIn(slots, dir) && Found(dir, x, p, previous) && FlatInjective(dir) && RootFirst(dir, root)
    requires IsName(name) && NameBefore(slots, dir, x, name, checksum)
    ensures var m := PieceCount(|name|);
            var r := Strip(slots[p := Deleted], dir, root, previous, x, false, false);
            if m <= p.index + dir.perCluster then r == Stripped(Gone(slots[p := Deleted], dir, x - m, x), NoError)
            else r.error != NoError
  {
    var m := PieceCount(|name|);
    NameIsOwn(slots, dir, x, name, checksum);
    MarkedOwn(slots, dir, x, m);
    OwnPiecesGo(slots[p := Deleted], dir, root, previous, x, m, false, false);
    Reach(dir, root, previous, x, p, m);
  }

  lemma MarkedOwn(slots: map<Pos, Slot>, dir: Dir, x: nat, m: nat)
    requires AllIn(slots, dir) && x < |dir.Flat()| && FlatInjective(dir) && OwnPieces(slots, dir, x, m)
    ensures AllIn(slots[dir.Flat()[x] := Deleted], dir) && OwnPieces(slots[dir.Flat()[x] := Deleted], dir, x, m)
  {
    forall w | x - m <= w < x
      ensures dir.Flat()[w] != dir.Flat()[x]
    {}
  }

  // Behind slot x, before anything that stops the search, lies a piece that the removal takes for one of x.
  ghost predicate Exposed(slots: map<Pos, Slot>, dir: Dir, root: nat, previous: nat, x: nat, y: nat)
    requires AllIn(slots, dir) && x < |dir.Flat()|
  {
    && 0 < x < y < |dir.Flat()| && slots[dir.Flat()[y]].Piece? && Passable(dir, root, previous, x, false)
    && (forall w: nat :: x - 1 <= w < y ==> Skips(slots[dir.Flat()[w]], LongPart))
    && (dir.Flat()[x].index == 0 || dir.Flat()[y].index < dir.Flat()[x].index)
  }

  /**
   * For an entry without a piece before it, something is deleted exactly if a piece of another file is
   * exposed behind it, and then that piece is.
   */
  lemma OthersPieceGoes(slots: map<Pos, Slot>, dir: Dir, root: nat, previous: nat, x: nat)
    requires AllIn(slots, dir) && x < |dir.Flat()| && RootFirst(dir, root) && slots[dir.Flat()[x]].Deleted?
    requires x > 0 ==> !slots[dir.Flat()[x - 1]].Piece?
    ensures var r := Strip(slots, dir, root, previous, x, false, false);
            && (r.slots != slots <==> exists y: nat :: Exposed(slots, dir, root, previous, x, y))
            && forall y: nat :: Exposed(slots, dir, root, previous, x, y) ==>
              dir.Flat()[y] in r.slots && r.slots[dir.Flat()[y]] == Deleted
  {
    hide Strip;
    var r := Strip(slots, dir, root, previous, x, false, false);
    StripTurn(slots, dir, root, previous, x, false, false);
    var j := SlotBefore(dir, x);
    forall y: nat | Exposed(slots, dir, root, previous, x, y)
      ensures x > 0 && y == FirstHalt(slots, dir, LongPart, x - 1) && dir.Flat()[y] in r.slots
              && r.slots[dir.Flat()[y]] == Deleted
    {
      ExposedIsFirst(slots, dir, root, previous, x, y);
      StaysDeleted(slots[dir.Flat()[y] := Deleted], dir, root, previous, y, dir.Flat()[x].index == 0, true, dir.Flat()[y]);
    }
    if r.slots != slots {
      var y := FirstHalt(slots, dir, LongPart, x - 1);
      assert Exposed(slots, dir, root, previous, x, y);
    }
  }

  lemma ExposedIsFirst(slots: map<Pos, Slot>, dir: Dir, root: nat, previous: nat, x: nat, y: nat)
    requires AllIn(slots, dir) && x < |dir.Flat()| && Exposed(slots, dir, root, previous, x, y)
    ensures x > 0 && FirstHalt(slots, dir, LongPart, x - 1) == y
  {
    var h := FirstHalt(slots, dir, LongPart, x - 1);
    var p := dir.Flat()[h];
  }

  lemma StaysDeleted(slots: map<Pos, Slot>, dir: Dir, root: nat, previous: nat, x: nat, wentBack: bool, started: bool, p: Pos)
    requires AllIn(slots, dir) && x < |dir.Flat()| && p in slots && slots[p].Deleted?
    ensures var r := Strip(slots, dir, root, previous, x, wentBack, started); p in r.slots && r.slots[p] == Deleted
  {
    StripsPieces(slots, dir, root, previous, x, wentBack, started);
  }
}
