/**
 * How many clusters a creation takes (mfs/source/generic/mfs_dir_entry.c:104-322).
 */
module DirGrowth {
  import opened MfsTypes
  import opened FatChain
  import opened Drives
  import opened Cluster
  import opened DirSlots
  import opened DirSearch
  import opened LongName
  import opened DirEntry
  import opened LfnRemoval

  // What a creation wrote, and what it took from the table.
  ghost predicate Took(s: map<Pos, Slot>, t: map<Pos, Slot>, f: Fat, g: Fat, dir: Dir, pr: Progress) {
    Wrote(s, t, dir, pr) && Grew(f, g, dir, pr.added)
  }

  // How many slots of the grown directory from flat index k on were free before the creation wrote to them.
  ghost function WereFree(s: map<Pos, Slot>, dir: Dir, added: seq<nat>, k: nat): nat
    decreases |Longer(dir, added).Flat()| - k
  {
    if k >= |Longer(dir, added).Flat()| then 0
    else WereFree(s, dir, added, k + 1) + if WasFree(s, dir, added, k) then 1 else 0
  }

  lemma {:induction false} WereFreeSkip(s: map<Pos, Slot>, dir: Dir, added: seq<nat>, k: nat, k': nat)
    requires k <= k' <= |Longer(dir, added).Flat()| && forall x: nat :: k <= x < k' ==> !WasFree(s, dir, added, x)
    ensures WereFree(s, dir, added, k) == WereFree(s, dir, added, k')
    decreases k' - k
  {
    if k < k' {
      WereFreeSkip(s, dir, added, k + 1, k');
    }
  }

  lemma {:induction false} WereFreeBound(s: map<Pos, Slot>, dir: Dir, added: seq<nat>, k: nat)
    requires k <= |Longer(dir, added).Flat()|
    ensures WereFree(s, dir, added, k) <= |Longer(dir, added).Flat()| - k
    decreases |Longer(dir, added).Flat()| - k
  {
    if k < |Longer(dir, added).Flat()| {
      WereFreeBound(s, dir, added, k + 1);
    }
  }

  // The slots written are the free ones from the first of them on, none skipped.
  lemma {:induction false} WrittenCount(s: map<Pos, Slot>, t: map<Pos, Slot>, dir: Dir, pr: Progress, w: nat)
    requires Wrote(s, t, dir, pr) && NoneSkipped(s, dir, pr) && w < |pr.at|
    ensures pr.at[w] < |Longer(dir, pr.added).Flat()| && Last(pr.at) < |Longer(dir, pr.added).Flat()|
    ensures WereFree(s, dir, pr.added, pr.at[w]) == |pr.at| - w + WereFree(s, dir, pr.added, Last(pr.at) + 1)
    decreases |pr.at| - w
  {
    hide Untouched;
    assert WasFree(s, dir, pr.added, pr.at[w]);
    if w + 1 < |pr.at| {
      WrittenCount(s, t, dir, pr, w + 1);
      assert PassedBy(s, dir, pr.added, pr.at[w], pr.at[w + 1]);
      WereFreeSkip(s, dir, pr.added, pr.at[w] + 1, pr.at[w + 1]);
    }
  }

  // The slots of the old part were free as they are, and all of the new part.
  lemma {:induction false} OldAndNew(d: Drive, s: map<Pos, Slot>, dir: Dir, added: seq<nat>, k: nat)
    requires d.Mounted() && IsDir(d, Longer(dir, added)) && AllIn(s, dir) && dir.Flat() <= Longer(dir, added).Flat()
    requires k <= |dir.Flat()|
    ensures WereFree(s, dir, added, k) == FreeFrom(s, dir, k) + |Longer(dir, added).Flat()| - |dir.Flat()|
    decreases |dir.Flat()| - k
  {
    hide IsDir;
    if k < |dir.Flat()| {
      OldAndNew(d, s, dir, added, k + 1);
      OldNotAdded(d, dir, added, k);
      assert Longer(dir, added).Flat()[k] == dir.Flat()[k];
    } else {
      NewOnly(d, s, dir, added, k);
    }
  }

  lemma {:induction false} NewOnly(d: Drive, s: map<Pos, Slot>, dir: Dir, added: seq<nat>, k: nat)
    requires |dir.Flat()| <= k <= |Longer(dir, added).Flat()|
    ensures WereFree(s, dir, added, k) == |Longer(dir, added).Flat()| - k
    decreases |Longer(dir, added).Flat()| - k
  {
    if k < |Longer(dir, added).Flat()| {
      NewOnly(d, s, dir, added, k + 1);
      AddedFree(d, s, dir, Progress(added, [], []), k);
    }
  }

  lemma LongerLength(dir: Dir, added: seq<nat>)
    ensures |Longer(dir, added).Flat()| == |dir.Flat()| + |added| * dir.perCluster
    ensures dir.Flat() <= Longer(dir, added).Flat()
  {
    PositionsLength(dir.clusters, dir.perCluster);
    PositionsLength(dir.clusters + added, dir.perCluster);
    PositionsPrefix(dir.clusters, added, dir.perCluster);
    SumTimes(|dir.clusters|, |added|, |dir.clusters + added|, dir.perCluster);
  }

  lemma SumTimes(a: nat, b: nat, c: nat, n: nat)
    requires c == a + b
    ensures c * n == a * n + b * n
  {}

  lemma {:induction false} PositionsPrefix(clusters: seq<nat>, more: seq<nat>, n: nat)
    ensures Positions(clusters, n) <= Positions(clusters + more, n)
    decreases |more|
  {
    if more == [] {
      assert clusters + more == clusters;
    } else {
      PositionsPrefix(clusters, more[..|more| - 1], n);
      assert (clusters + more)[..|clusters + more| - 1] == clusters + more[..|more| - 1];
    }
  }

  // Growing by so many clusters uses up so many.
  lemma GrownCount(f: Fat, g: Fat, dir: Dir, added: seq<nat>)
    requires Grew(f, g, dir, added)
    ensures |FreeCells(f)| == |FreeCells(g)| + |added|
  {
    if added != [] {
      GrownCells(f, g, Last(dir.clusters), added);
      CellsCount(added);
      assert FreeCells(f) == FreeCells(g) + Cells(added);
    }
  }

  lemma GrownCells(f: Fat, g: Fat, tail: nat, added: seq<nat>)
    requires Extends(f, g, tail, added) && added != []
    ensures FreeCells(f) == FreeCells(g) + Cells(added) && FreeCells(g) !! Cells(added)
  {
    forall c: nat
      ensures c in Cells(added) ==> c in FreeCells(f) && c !in FreeCells(g)
      ensures c !in Cells(added) ==> (c in FreeCells(f) <==> c in FreeCells(g))
    {
      if c in Cells(added) {
        var i :| 0 <= i < |added| && added[i] == c;
        assert i < |added| - 1 ==> g[c] == added[i + 1];
      } else {
        assert c !in added;
      }
    }
  }

  lemma Compared(left: int, k: int, pc: int, had: int, written: int, after: int)
    requires had + k * pc == written + after && 0 <= after && 0 <= k && 0 <= left && 0 <= pc
    requires k > 0 ==> after < pc
    ensures k == 0 ==> had + left * pc >= written
    ensures left >= k ==> had + left * pc >= written
    ensures left < k ==> had + left * pc < written
  {
    if left >= k {
      assert (left - k) * pc >= 0;
    } else {
      assert (k - left - 1) * pc >= 0;
    }
  }

  // What is left after the last of the slots.
  lemma Left(free: int, left: int, k: int, pc: int, had: int, written: int, after: int, fixed: bool)
    requires free == left + k && free > 0 && 0 <= left && 0 <= k && 0 <= pc && 0 <= after
    requires had + k * pc == written + after && (k > 0 ==> after < pc && !fixed)
    ensures left > 0 <==> had + (if fixed then 0 else (free - 1) * pc) >= written
  {
    Compared(free - 1, k, pc, had, written, after);
  }

  lemma SomethingWritten(s: map<Pos, Slot>, dir: Dir, pr: Progress, long: bool, n: nat)
    requires Located(s, dir, pr, long, n)
    ensures pr.at != [] && Begins(s, dir, long, n, pr.at[0]) && NoneSkipped(s, dir, pr)
    ensures pr.added != [] ==> |Longer(dir, pr.added).Flat()| <= Last(pr.at) + dir.perCluster
  {}

  lemma TookParts(s: map<Pos, Slot>, t: map<Pos, Slot>, f: Fat, g: Fat, dir: Dir, pr: Progress)
    requires Took(s, t, f, g, dir, pr)
    ensures Wrote(s, t, dir, pr) && Grew(f, g, dir, pr.added) && (pr.added != [] ==> !dir.FixedRoot())
  {}

  // What a creation wrote and what it left, counted.
  lemma Balance(s: map<Pos, Slot>, t: map<Pos, Slot>, f: Fat, g: Fat, d: Drive, dir: Dir, pr: Progress, long: bool, n: nat)
    returns (after: nat)
    requires d.Mounted() && IsDir(d, Longer(dir, pr.added)) && AllIn(s, dir) && Took(s, t, f, g, dir, pr)
    requires Located(s, dir, pr, long, n)
    ensures FreeFrom(s, dir, pr.at[0]) + |pr.added| * dir.perCluster == |pr.at| + after
    ensures pr.added != [] ==> after < dir.perCluster && !dir.FixedRoot()
    ensures |FreeCells(f)| == |FreeCells(g)| + |pr.added|
  {
    hide *;
    SomethingWritten(s, dir, pr, long, n);
    TookParts(s, t, f, g, dir, pr);
    after := WereFree(s, dir, pr.added, Last(pr.at) + 1);
    BeginsFree(s, dir, long, n, pr.at[0]);
    LongerLength(dir, pr.added);
    WrittenCount(s, t, dir, pr, 0);
    OldAndNew(d, s, dir, pr.added, pr.at[0]);
    WereFreeBound(s, dir, pr.added, Last(pr.at) + 1);
    GrownCount(f, g, dir, pr.added);
  }

  // With one free cluster less, there would still have been room for what was written exactly if one is left.
  lemma OneLeft(s: map<Pos, Slot>, t: map<Pos, Slot>, f: Fat, g: Fat, d: Drive, dir: Dir, pr: Progress, long: bool, n: nat)
    requires d.Mounted() && IsDir(d, Longer(dir, pr.added)) && AllIn(s, dir) && Took(s, t, f, g, dir, pr)
    requires Located(s, dir, pr, long, n) && FreeCells(f) != {}
    ensures FreeCells(g) != {} <==>
              FreeFrom(s, dir, pr.at[0]) + (if dir.FixedRoot() then 0 else (|FreeCells(f)| - 1) * dir.perCluster) >= |pr.at|
  {
    hide *;
    assert pr.at != [] by {
      SomethingWritten(s, dir, pr, long, n);
    }
    var after := Balance(s, t, f, g, d, dir, pr, long, n);
    Left(|FreeCells(f)|, |FreeCells(g)|, |pr.added|, dir.perCluster, FreeFrom(s, dir, pr.at[0]), |pr.at|, after, dir.FixedRoot());
  }

  // A creation that a table with one free cluster set aside would still take.
  ghost predicate TakesToo(s: map<Pos, Slot>, f: Fat, dir: Dir, long: bool, n: nat) {
    exists c: nat :: Unused(f, c) && Outcome(s, f[c := CLUSTER_EOF], dir, long, n) == NoError
  }

  /**
   * A creation takes no more clusters than it needs: it leaves a free one exactly if it would still have
   * succeeded with one of the free clusters set aside.
   */
  lemma LeavesOne(s: map<Pos, Slot>, t: map<Pos, Slot>, f: Fat, g: Fat, d: Drive, dir: Dir, pr: Progress, long: bool, n: nat)
    requires d.Mounted() && IsDir(d, Longer(dir, pr.added)) && AllIn(s, dir) && Took(s, t, f, g, dir, pr)
    requires Located(s, dir, pr, long, n) && |pr.at| == (if long then n + 1 else 1)
    ensures FreeCells(g) != {} <==> TakesToo(s, f, dir, long, n)
  {
    hide Outcome, TakesToo, FreeCells, FreeFrom, IsDir, Took, Located, AllIn, Grew, Wrote, WereFree;
    SomeUnused(f);
    if FreeCells(f) == {} {
      TookParts(s, t, f, g, dir, pr);
      GrownCount(f, g, dir, pr.added);
      NoneToTake(s, f, dir, long, n);
    } else {
      OneLeft(s, t, f, g, d, dir, pr, long, n);
      var room := FreeFrom(s, dir, pr.at[0]) + (if dir.FixedRoot() then 0 else (|FreeCells(f)| - 1) * dir.perCluster) >= |pr.at|;
      SlotsPositive(d, dir, pr.added);
      forall c: nat | Unused(f, c)
        ensures Outcome(s, f[c := CLUSTER_EOF], dir, long, n) == NoError <==> room
      {
        WithOneLess(s, f, c, dir, pr, long, n);
      }
      AnyWillDo(s, f, dir, long, n, room);
    }
  }

  lemma SomeUnused(f: Fat)
    ensures FreeCells(f) != {} <==> exists c: nat :: Unused(f, c)
  {
    if c: nat :| Unused(f, c) {
      assert c in FreeCells(f);
    }
    if FreeCells(f) != {} {
      var c :| c in FreeCells(f);
      assert Unused(f, c);
    }
  }

  lemma NoneToTake(s: map<Pos, Slot>, f: Fat, dir: Dir, long: bool, n: nat)
    requires forall c: nat :: !Unused(f, c)
    ensures !TakesToo(s, f, dir, long, n)
  {}

  lemma SlotsPositive(d: Drive, dir: Dir, added: seq<nat>)
    requires d.Mounted() && IsDir(d, Longer(dir, added))
    ensures dir.perCluster > 0
  {}

  lemma AnyWillDo(s: map<Pos, Slot>, f: Fat, dir: Dir, long: bool, n: nat, room: bool)
    requires exists c: nat :: Unused(f, c)
    requires forall c: nat :: Unused(f, c) ==> (Outcome(s, f[c := CLUSTER_EOF], dir, long, n) == NoError <==> room)
    ensures TakesToo(s, f, dir, long, n) <==> room
  {
    hide Outcome, Unused;
  }

  lemma WithOneLess(s: map<Pos, Slot>, f: Fat, c: nat, dir: Dir, pr: Progress, long: bool, n: nat)
    requires Unused(f, c) && Located(s, dir, pr, long, n) && |pr.at| == (if long then n + 1 else 1) && dir.perCluster > 0
    ensures Outcome(s, f[c := CLUSTER_EOF], dir, long, n) == NoError <==>
              FreeFrom(s, dir, pr.at[0]) + (if dir.FixedRoot() then 0 else (|FreeCells(f)| - 1) * dir.perCluster) >= |pr.at|
  {
    var f', y := f[c := CLUSTER_EOF], pr.at[0];
    assert FreeCells(f') == FreeCells(f) - {c} && c in FreeCells(f);
    hide FreeCells;
    OutcomeIs(s, f', dir, long, n, y);
    BeginsFree(s, dir, long, n, y);
    if !long {
      NoneFreeFrom(s, dir, y);
      assert |FreeCells(f')| > 0 <==> FreeCells(f') != {};
      Positive(|FreeCells(f')|, dir.perCluster);
    }
  }

  lemma Positive(a: nat, n: nat)
    requires n > 0
    ensures a > 0 <==> a * n > 0
  {}

  lemma NoneFreeFrom(s: map<Pos, Slot>, dir: Dir, y: nat)
    ensures FreeFrom(s, dir, y) > 0 ==> exists x: nat :: FreeIn(s, dir, x)
    decreases |dir.Flat()| - y
  {
    if y < |dir.Flat()| {
      NoneFreeFrom(s, dir, y + 1);
    }
  }
}
