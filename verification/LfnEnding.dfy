/**
 * How the removal of a long name ends, read off the slots before it (mfs/source/generic/mfs_lfn.c:613-699).
 */
module LfnEnding {
  import opened MfsTypes
  import opened FatChain
  import opened Drives
  import opened DirSlots
  import opened LongName
  import opened DirEntry
  import opened LfnRemoval

  // Names begin with their end marks: every piece without one is directly preceded by a piece.
  ghost predicate HeadsMarked(slots: map<Pos, Slot>, dir: Dir)
    requires AllIn(slots, dir)
  {
    forall w: nat :: w < |dir.Flat()| && slots[dir.Flat()[w]].Piece? && !EndMark(slots[dir.Flat()[w]]) ==>
      w > 0 && slots[dir.Flat()[w - 1]].Piece?
  }

  // How many pieces stand directly before flat index x, back to the nearest end mark.
  ghost function OwnCount(slots: map<Pos, Slot>, dir: Dir, x: nat): (m: nat)
    requires AllIn(slots, dir) && x <= |dir.Flat()|
    ensures m <= x
    ensures m == 0 <==> x == 0 || !slots[dir.Flat()[x - 1]].Piece?
    decreases x
  {
    if x == 0 || !slots[dir.Flat()[x - 1]].Piece? then 0
    else if EndMark(slots[dir.Flat()[x - 1]]) then 1
    else 1 + OwnCount(slots, dir, x - 1)
  }

  lemma {:induction false} OwnCounted(slots: map<Pos, Slot>, dir: Dir, x: nat)
    requires AllIn(slots, dir) && HeadsMarked(slots, dir) && x < |dir.Flat()| && OwnCount(slots, dir, x) > 0
    ensures OwnPieces(slots, dir, x, OwnCount(slots, dir, x))
    decreases x
  {
    if !EndMark(slots[dir.Flat()[x - 1]]) {
      OwnCounted(slots, dir, x - 1);
    }
  }

  // Slot p holds no piece: the pieces are the same without it.
  lemma {:induction false} MarkedCount(slots: map<Pos, Slot>, dir: Dir, p: Pos, x: nat)
    requires AllIn(slots, dir) && x <= |dir.Flat()| && p in slots && !slots[p].Piece?
    ensures AllIn(slots[p := Deleted], dir) && OwnCount(slots[p := Deleted], dir, x) == OwnCount(slots, dir, x)
    decreases x
  {
    if x > 0 {
      MarkedCount(slots, dir, p, x - 1);
    }
  }

  lemma MarkedHeads(slots: map<Pos, Slot>, dir: Dir, p: Pos)
    requires AllIn(slots, dir) && HeadsMarked(slots, dir) && p in slots && !slots[p].Piece?
    ensures AllIn(slots[p := Deleted], dir) && HeadsMarked(slots[p := Deleted], dir)
  {
    var t := slots[p := Deleted];
    forall w: nat | w < |dir.Flat()| && t[dir.Flat()[w]].Piece? && !EndMark(t[dir.Flat()[w]])
      ensures w > 0 && t[dir.Flat()[w - 1]].Piece?
    {
      assert slots[dir.Flat()[w]].Piece?;
    }
  }

  // Slot x is the first one of a directory that is not the root.
  ghost predicate AtBeginning(dir: Dir, root: nat, x: nat)
    requires x < |dir.Flat()|
  {
    x == 0 && dir.Flat()[0].cluster != 0 && dir.Flat()[0].cluster != root
  }

  // Without a piece before it, a slot ends the removal at once, or with one piece: the first one of another name.
  lemma NoneBefore(slots: map<Pos, Slot>, dir: Dir, root: nat, previous: nat, x: nat)
    requires AllIn(slots, dir) && HeadsMarked(slots, dir) && x < |dir.Flat()| && OwnCount(slots, dir, x) == 0
    requires x > 0 && dir.Flat()[x].index == 0 && dir.Flat()[x].cluster != 0 && dir.Flat()[x].cluster != root ==>
               dir.Flat()[x - 1].cluster == previous
    ensures Strip(slots, dir, root, previous, x, false, false).error == NoError <==> !AtBeginning(dir, root, x)
  {
    hide Strip;
    StripTurn(slots, dir, root, previous, x, false, false);
    var j := SlotBefore(dir, x);
    if Edge(dir, root, previous, x, false, false) == None {
      var y := FirstHalt(slots, dir, LongPart, x - 1);
      if y < |dir.Flat()| && slots[dir.Flat()[y]].Piece? {
        assert y > 0 && !slots[dir.Flat()[y - 1]].Piece? by {
          assert y != x - 1;
          assert Skips(slots[dir.Flat()[y - 1]], LongPart);
        }
      }
    }
  }

  lemma FoundBefore(dir: Dir, x: nat, p: Pos, previous: nat)
    requires Found(dir, x, p, previous) && x > 0 && p.index == 0
    ensures dir.Flat()[x - 1].cluster == previous
  {
    var j, start := Coordinates(dir, x);
    var k := SlotBefore(dir, x);
    assert Stands(dir, k, p.index, x);
  }

  // The removal of the name of slot x ends without an error.
  ghost predicate Ends(slots: map<Pos, Slot>, dir: Dir, root: nat, x: nat)
    requires AllIn(slots, dir) && x < |dir.Flat()|
  {
    var m := OwnCount(slots, dir, x);
    if m > 0 then m <= dir.Flat()[x].index + dir.perCluster else !AtBeginning(dir, root, x)
  }

  // error is what removing the name of slot x reports, as it can be told if names begin with their end marks.
  ghost predicate EndsAs(slots: map<Pos, Slot>, dir: Dir, root: nat, x: nat, error: Error) {
    && AllIn(slots, dir) && x < |dir.Flat()|
    && (HeadsMarked(slots, dir) ==> (error == NoError <==> Ends(slots, dir, root, x)))
  }

  /**
   * In a directory where names begin with their end marks, removing the name of an entry that the search
   * found ends without an error exactly if its pieces begin no earlier than the cluster before the entry's, or,
   * for an entry without pieces, unless it lies in the first slot of a directory that is not the root.
   */
  lemma RemovalEnds(slots: map<Pos, Slot>, dir: Dir, root: nat, previous: nat, x: nat, p: Pos)
    requires AllIn(slots, dir) && HeadsMarked(slots, dir)
    requires Found(dir, x, p, previous) && FlatInjective(dir) && RootFirst(dir, root) && slots[p].Entry?
    ensures var r := Strip(slots[p := Deleted], dir, root, previous, x, false, false);
            && (r.error == NoError <==> Ends(slots, dir, root, x))
            && (r.error == NoError && OwnCount(slots, dir, x) > 0 ==>
                 r.slots == Gone(slots[p := Deleted], dir, x - OwnCount(slots, dir, x), x))
  {
    var t, m := slots[p := Deleted], OwnCount(slots, dir, x);
    MarkedCount(slots, dir, p, x);
    MarkedHeads(slots, dir, p);
    hide Strip, FlatInjective, RootFirst, HeadsMarked, Gone, AllPassable;
    if m > 0 {
      OwnCounted(t, dir, x);
      OwnPiecesGo(t, dir, root, previous, x, m, false, false);
      Reach(dir, root, previous, x, p, m);
    } else {
      if x > 0 && p.index == 0 {
        FoundBefore(dir, x, p, previous);
      }
      NoneBefore(t, dir, root, previous, x);
    }
  }

  /**
   * From a slot of the first cluster, whatever it holds, the removal ends without an error exactly unless the
   * slot is the first one of a directory that is not the root; the pieces before it go.
   */
  lemma FirstClusterEnds(slots: map<Pos, Slot>, dir: Dir, root: nat, previous: nat, x: nat)
    requires AllIn(slots, dir) && HeadsMarked(slots, dir) && FlatInjective(dir) && RootFirst(dir, root)
    requires |dir.clusters| > 0 && x < dir.perCluster && x < |dir.Flat()|
    ensures var m := OwnCount(slots, dir, x);
            var r := Strip(slots, dir, root, previous, x, false, false);
            && (r.error == NoError <==> !AtBeginning(dir, root, x))
            && (m > 0 ==> r.slots == Gone(slots, dir, x - m, x))
  {
    var m := OwnCount(slots, dir, x);
    FirstClusterAt(dir, x);
    hide Strip, FlatInjective, RootFirst, HeadsMarked, Gone, AllPassable;
    if m > 0 {
      OwnCounted(slots, dir, x);
      AllPassableThere(dir, root, previous, x, m);
      OwnPiecesGo(slots, dir, root, previous, x, m, false, false);
    } else if x == 0 {
      StripTurn(slots, dir, root, previous, x, false, false);
    } else {
      NoneBefore(slots, dir, root, previous, x);
    }
  }

  lemma FirstClusterAt(dir: Dir, i: nat)
    requires |dir.clusters| > 0 && i < dir.perCluster
    ensures i < |dir.Flat()| && dir.Flat()[i] == Pos(dir.clusters[0], i)
  {
    PositionsOfCluster(dir.clusters, dir.perCluster, 0, i);
    assert dir.clusters[..0] == [];
  }

  lemma AllPassableThere(dir: Dir, root: nat, previous: nat, x: nat, m: nat)
    requires |dir.clusters| > 0 && x < dir.perCluster && x < |dir.Flat()| && m <= x
    ensures AllPassable(dir, root, previous, x, m, false)
  {
    forall z: nat | x - m < z <= x
      ensures Passable(dir, root, previous, z, false)
    {
      FirstClusterAt(dir, z);
    }
  }

  // ---- what keeps names in order ----

  // A removal that takes all of a name and nothing else leaves the other names with their end marks.
  lemma RemovalKeepsHeads(slots: map<Pos, Slot>, dir: Dir, x: nat, m: nat)
    requires AllIn(slots, dir) && HeadsMarked(slots, dir) && FlatInjective(dir)
    requires x < |dir.Flat()| && m <= x && !slots[dir.Flat()[x]].Piece?
    ensures AllIn(Gone(slots, dir, x - m, x), dir) && HeadsMarked(Gone(slots, dir, x - m, x), dir)
  {
    var t := Gone(slots, dir, x - m, x);
    forall w: nat | w < |dir.Flat()| && t[dir.Flat()[w]].Piece? && !EndMark(t[dir.Flat()[w]])
      ensures w > 0 && t[dir.Flat()[w - 1]].Piece?
    {
      assert slots[dir.Flat()[w]].Piece? && !(x - m <= w < x);
    }
  }

  // A piece that is not the first one of its name.
  lemma LaterPiece(contents: seq<Slot>, long: bool, name: seq<nat>, entry: Slot, u: nat)
    requires entry.Entry? && Filed(contents, long, name, entry) && u < |contents| && contents[u].Piece? && !EndMark(contents[u])
    ensures 0 < u && contents[u - 1].Piece?
  {
    var pieces := contents[..|contents| - 1];
    assert pieces[u] == contents[u];
    if u == 0 {
      PieceMark(pieces[0], name, 0, Checksum(entry.name));
    } else {
      assert pieces[u - 1] == contents[u - 1];
    }
  }

  /**
   * Names begin with their end marks again after a creation that writes a short name, or consecutive slots.
   */
  lemma CreationKeepsHeads(d: Drive, s: map<Pos, Slot>, f: Fat, dir: Dir, long: bool, name: seq<nat>, entry: Slot, pr: Progress)
    requires d.Mounted() && Session(d, s, f, dir, pr) && dir.Flat() <= Longer(dir, pr.added).Flat()
    requires entry.Entry? && Filed(pr.contents, long, name, entry) && Consecutive(pr.at)
    requires AllIn(s, dir) && HeadsMarked(s, dir)
    ensures AllIn(d.slots, Longer(dir, pr.added)) && HeadsMarked(d.slots, Longer(dir, pr.added))
  {
    hide Filed, IsDir, Grew;
    var flat := Longer(dir, pr.added).Flat();
    forall w: nat | w < |flat| && d.slots[flat[w]].Piece? && !EndMark(d.slots[flat[w]])
      ensures w > 0 && d.slots[flat[w - 1]].Piece?
    {
      if u: nat :| u < |pr.at| && pr.at[u] == w {
        LaterPiece(pr.contents, long, name, entry, u);
        assert pr.at[u - 1] == w - 1;
      } else {
        OldPiece(d, s, f, dir, pr, w);
      }
    }
  }

  // A piece that was there keeps the one before it.
  lemma OldPiece(d: Drive, s: map<Pos, Slot>, f: Fat, dir: Dir, pr: Progress, w: nat)
    requires d.Mounted() && Session(d, s, f, dir, pr) && dir.Flat() <= Longer(dir, pr.added).Flat()
    requires AllIn(s, dir) && HeadsMarked(s, dir) && w < |Longer(dir, pr.added).Flat()|
    requires d.slots[Longer(dir, pr.added).Flat()[w]].Piece? && !EndMark(d.slots[Longer(dir, pr.added).Flat()[w]])
    requires forall u :: 0 <= u < |pr.at| ==> pr.at[u] != w
    ensures w > 0 && d.slots[Longer(dir, pr.added).Flat()[w - 1]].Piece?
  {
    var flat := Longer(dir, pr.added).Flat();
    SlotStill(d, s, f, dir, pr, w);
    if w >= |dir.Flat()| {
      AddedFree(d, s, dir, pr, w);
    } else {
      assert flat[w] == dir.Flat()[w] && flat[w - 1] == dir.Flat()[w - 1];
      OldNotAdded(d, dir, pr.added, w - 1);
      forall u | 0 <= u < |pr.at|
        ensures pr.at[u] != w - 1
      {
        assert Before(s, dir, pr.added, flat[pr.at[u]]).Free();
      }
      SlotStill(d, s, f, dir, pr, w - 1);
    }
  }
}
