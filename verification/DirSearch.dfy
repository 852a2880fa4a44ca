/**
 * The search of MFS_Create_directory_entry for consecutive free slots
 * (mfs/source/generic/mfs_dir_entry.c:104-176).
 */
module DirSearch {
  import opened MfsTypes
  import opened FatChain
  import opened Drives
  import opened DirSlots

  // n + 1 free slots from flat index y on.
  ghost predicate RunIn(s: map<Pos, Slot>, dir: Dir, y: nat, n: nat) {
    forall x: nat :: y <= x <= y + n ==> FreeIn(s, dir, x)
  }

  ghost predicate FirstRun(s: map<Pos, Slot>, dir: Dir, y: nat, n: nat) {
    RunIn(s, dir, y, n) && forall x: nat :: x < y ==> !RunIn(s, dir, x, n)
  }

  // From flat index y on, no slot in use is followed by a free one.
  ghost predicate OneBlock(s: map<Pos, Slot>, dir: Dir, y: nat) {
    forall x: nat, z: nat :: y <= x < z && FreeIn(s, dir, z) ==> FreeIn(s, dir, x)
  }

  // The last block of free slots begins at flat index y.
  ghost predicate LastBlock(s: map<Pos, Slot>, dir: Dir, y: nat) {
    FreeIn(s, dir, y) && !FreeBefore(s, dir, y) && OneBlock(s, dir, y)
  }

  ghost predicate FreeBefore(s: map<Pos, Slot>, dir: Dir, y: nat) {
    y > 0 && FreeIn(s, dir, y - 1)
  }

  // Where the search for n + 1 slots ends, if any slot is free.
  ghost predicate StartsAt(s: map<Pos, Slot>, dir: Dir, y: nat, n: nat) {
    if exists x: nat :: RunIn(s, dir, x, n) then FirstRun(s, dir, y, n) else LastBlock(s, dir, y)
  }

  lemma LastBlocks(s: map<Pos, Slot>, dir: Dir, y: nat, z: nat)
    requires LastBlock(s, dir, y) && LastBlock(s, dir, z)
    ensures z <= y
  {}

  // There is one such place.
  lemma StartsOnce(s: map<Pos, Slot>, dir: Dir, y: nat, z: nat, n: nat)
    requires StartsAt(s, dir, y, n) && StartsAt(s, dir, z, n)
    ensures y == z
  {
    if !(exists x: nat :: RunIn(s, dir, x, n)) {
      LastBlocks(s, dir, y, z);
      LastBlocks(s, dir, z, y);
    }
  }

  // The search keeps to the fixed root: it finds a run there, or the last slot is in use. Otherwise the
  // source steps out of the root, to cluster 1.
  ghost predicate StaysInside(s: map<Pos, Slot>, dir: Dir, n: nat) {
    dir.FixedRoot() ==> (exists y: nat :: RunIn(s, dir, y, n)) || forall x: nat :: x + 1 == |dir.Flat()| ==> !FreeIn(s, dir, x)
  }

  /**
   * Out of the root: the step from its last slot leads to the slots that do not fill a sector, which the
   * search does not look at, or, if there are none, to cluster 1.
   */
  lemma BehindRoot(d: Drive, dir: Dir)
    requires d.Mounted() && IsDir(d, dir) && dir.FixedRoot()
    ensures 0 < |dir.Flat()| == d.RootSlots()
    ensures var p := dir.Flat()[|dir.Flat()| - 1];
            NextSlot(d, p.cluster, p.index) ==
              if d.rootEntries % d.entriesPerSector == 0 then (CLUSTER_INVALID, 0) else (0, d.RootSlots())
  {
    var e := d.entriesPerSector;
    PositionsOfCluster([0], dir.perCluster, 0, dir.perCluster - 1);
    assert [0][..0] == [] && [0][..1] == [0];
    DivModExact(d.rootEntries / e, e);
    assert d.rootEntries == d.RootSlots() + d.rootEntries % e;
  }

  // Free slots from k up to, but not including, x.
  ghost predicate FreeRange(s: map<Pos, Slot>, dir: Dir, k: nat, x: nat) {
    forall y: nat :: k <= y < x ==> FreeIn(s, dir, y)
  }

  ghost predicate NoRunBefore(s: map<Pos, Slot>, dir: Dir, y: nat, n: nat) {
    forall x: nat :: x < y ==> !RunIn(s, dir, x, n)
  }

  // A used slot close behind k leaves no run before the next free slot.
  lemma NoRunAcross(s: map<Pos, Slot>, dir: Dir, k: nat, used: nat, next: nat, n: nat)
    requires NoRunBefore(s, dir, k, n) && k < used <= k + n && used < next && UsedRange(s, dir, used, next)
    ensures NoRunBefore(s, dir, next, n)
  {
    forall x: nat | k <= x < next
      ensures !RunIn(s, dir, x, n)
    {
      assert !FreeIn(s, dir, if x <= used then used else x);
    }
  }

  // One step in flat order, as long as the directory goes on; the fixed root is never stepped out of here.
  lemma StepFlat(d: Drive, dir: Dir, k: nat)
    requires d.Mounted() && IsDir(d, dir) && k < |dir.Flat()|
    requires dir.FixedRoot() ==> k + 1 < |dir.Flat()|
    ensures var p := dir.Flat()[k];
            var (c, i) := NextSlot(d, p.cluster, p.index);
            && (if k + 1 < |dir.Flat()| then dir.Flat()[k + 1] == Pos(c, i) && c != CLUSTER_EOF else c == CLUSTER_EOF)
            && !(StepsOut(d, p.cluster, p.index) && !Good(d.Fat(), p.cluster))
  {
    if dir.FixedRoot() {
      var j, i := ClusterOfPosition(dir.clusters, dir.perCluster, k);
      var j', i' := ClusterOfPosition(dir.clusters, dir.perCluster, k + 1);
      MulLess(d.rootEntries / d.entriesPerSector, d.rootEntries / d.entriesPerSector, d.entriesPerSector);
      assert d.RootSlots() <= d.rootEntries by {
        assert d.rootEntries == d.RootSlots() + d.rootEntries % d.entriesPerSector;
      }
    } else {
      FlatNext(d, dir, k);
      StepWithin(d, dir, k);
      if k + 1 < |dir.Flat()| {
        var j, i := ClusterOfPosition(dir.clusters, dir.perCluster, k + 1);
      }
    }
  }

  // What the slot behind flat index k turns out to be.
  datatype Probe = AtEnd | NoneFree | NextFree | GapThenFree

  // The body of the inner for loop: step on, and look for a free slot from there.
  method ProbeNext(d: Drive, c: nat, i: nat, ghost dir: Dir, ghost k: nat)
    returns (probe: Probe, c': nat, i': nat, ghost k': nat)
    requires d.Mounted() && IsDir(d, dir) && Present(d, dir)
    requires k < |dir.Flat()| && dir.Flat()[k] == Pos(c, i)
    requires dir.FixedRoot() ==> k + 1 < |dir.Flat()|
    ensures probe.AtEnd? ==> k + 1 == |dir.Flat()|
    ensures probe.NoneFree? ==> k + 1 < |dir.Flat()| && UsedRange(d.slots, dir, k + 1, |dir.Flat()|)
    ensures probe.NextFree? || probe.GapThenFree? ==> Hit(d.slots, dir, k + 1, k', c', i') && (probe.NextFree? <==> k' == k + 1)
  {
    StepFlat(d, dir, k);
    var error, previous;
    error, c', i', previous := Increment(d, c, i, CLUSTER_INVALID);
    k' := k + 1;
    if c' == CLUSTER_EOF && error == NoError {
      return AtEnd, c', i', k';
    }
    var c1, i1 := c', i';
    var found;
    found, c', i', k' := FindFree(d, c', i', dir, k + 1);
    if !found {
      probe := NoneFree;
    } else if i' == i1 && c' == c1 {
      probe := NextFree;
      FlatIndexUnique(d, dir, k + 1, k');
    } else {
      probe := GapThenFree;
    }
  }

  // The slot at flat index k is free, and no run begins before it.
  ghost predicate Candidate(s: map<Pos, Slot>, dir: Dir, k: nat, n: nat, c: nat, i: nat) {
    FreeIn(s, dir, k) && dir.Flat()[k] == Pos(c, i) && !FreeBefore(s, dir, k) && NoRunBefore(s, dir, k, n)
  }

  // In the fixed root, the slots behind k that a run takes, or those up to one in use, are still inside.
  lemma Inside(s: map<Pos, Slot>, dir: Dir, k: nat, x: nat, n: nat)
    requires StaysInside(s, dir, n) && dir.FixedRoot() && NoRunBefore(s, dir, k, n) && k <= x < k + n && FreeIn(s, dir, x)
    ensures x + 1 < |dir.Flat()|
  {
    if y: nat :| RunIn(s, dir, y, n) {
      assert y >= k && FreeIn(s, dir, y + n);
    }
  }

  // The inner for loop: how far the free slots go on behind flat index k. done is found_all.
  method TryRun(d: Drive, c: nat, i: nat, needed: nat, ghost dir: Dir, ghost k: nat)
    returns (done: bool, c': nat, i': nat, ghost k': nat)
    requires d.Mounted() && IsDir(d, dir) && Present(d, dir) && StaysInside(d.slots, dir, needed)
    requires Candidate(d.slots, dir, k, needed, c, i)
    ensures done ==> RunIn(d.slots, dir, k, needed) || OneBlock(d.slots, dir, k)
    ensures !done ==> k < k' && Candidate(d.slots, dir, k', needed, c', i')
  {
    hide StaysInside, IsDir, NoRunBefore;
    done, c', i', k' := false, c, i, k;
    var left := needed;
    while left >= 1
      invariant left <= needed && k' == k + (needed - left) < |dir.Flat()| && dir.Flat()[k'] == Pos(c', i')
      invariant FreeRange(d.slots, dir, k, k' + 1) && !done
    {
      ghost var at := k';
      if dir.FixedRoot() {
        Inside(d.slots, dir, k, at, needed);
      }
      var probe;
      probe, c', i', k' := ProbeNext(d, c', i', dir, k');
      match probe {
        case AtEnd => return true, c', i', k';
        case NoneFree => return true, c', i', k';
        case NextFree => left := left - 1;
        case GapThenFree =>
          NoRunAcross(d.slots, dir, k, at + 1, k', needed);
          return;
      }
    }
    done := true;
  }

  lemma FlatIndexUnique(d: Drive, dir: Dir, k: nat, l: nat)
    requires d.Mounted() && IsDir(d, dir) && k < |dir.Flat()| && l < |dir.Flat()|
    ensures dir.Flat()[k] == dir.Flat()[l] ==> k == l
  {
    if !dir.FixedRoot() {
      ChainDistinct(d.Fat(), dir.clusters);
    }
    if k < l {
      FlatDistinct(dir.clusters, dir.perCluster, k, l);
    } else if l < k {
      FlatDistinct(dir.clusters, dir.perCluster, l, k);
    }
  }

  /**
   * The search loop for a long name, from the first free slot on. It ends at the first run of
   * needed + 1 consecutive free slots exactly if the directory holds one, and otherwise at the last
   * block of free slots.
   */
  method FindRun(d: Drive, c: nat, i: nat, needed: nat, ghost dir: Dir, ghost k: nat)
    returns (c': nat, i': nat, ghost k': nat)
    requires d.Mounted() && IsDir(d, dir) && Present(d, dir) && StaysInside(d.slots, dir, needed)
    requires Hit(d.slots, dir, 0, k, c, i)
    ensures StartsAt(d.slots, dir, k', needed) && k' < |dir.Flat()| && dir.Flat()[k'] == Pos(c', i')
    ensures RunIn(d.slots, dir, k', needed) <==> exists x: nat :: RunIn(d.slots, dir, x, needed)
  {
    hide StaysInside, IsDir;
    c', i', k' := c, i, k;
    assert Candidate(d.slots, dir, k, needed, c, i) by {
      forall x: nat | x < k
        ensures !RunIn(d.slots, dir, x, needed)
      {
        assert !FreeIn(d.slots, dir, x);
      }
    }
    var done := false;
    while !done
      invariant Candidate(d.slots, dir, k', needed, c', i')
      invariant done ==> RunIn(d.slots, dir, k', needed) || OneBlock(d.slots, dir, k')
      decreases !done, |dir.Flat()| - k'
    {
      var c1, i1;
      ghost var k1;
      done, c1, i1, k1 := TryRun(d, c', i', needed, dir, k');
      if !done {
        c', i', k' := c1, i1, k1;
      }
    }
    SearchEnded(d.slots, dir, k', needed);
  }

  lemma SearchEnded(s: map<Pos, Slot>, dir: Dir, k: nat, n: nat)
    requires FreeIn(s, dir, k) && !FreeBefore(s, dir, k) && NoRunBefore(s, dir, k, n)
    requires RunIn(s, dir, k, n) || OneBlock(s, dir, k)
    ensures StartsAt(s, dir, k, n) && (RunIn(s, dir, k, n) <==> exists x: nat :: RunIn(s, dir, x, n))
  {
    forall x: nat | RunIn(s, dir, x, n)
      ensures RunIn(s, dir, k, n)
    {
      assert x >= k && FreeIn(s, dir, x + n);
    }
  }
}
