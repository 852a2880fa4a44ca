/**
 * Creating a directory entry (mfs/source/generic/mfs_dir_entry.c:49-378): the long-name pieces and the
 * short entry go into free slots, and the directory grows by a cleared cluster when it has none left.
 */
module DirEntry {
  import opened MfsTypes
  import opened FatChain
  import opened Drives
  import opened Cluster
  import opened DirSlots
  import opened DirSearch
  import opened LongName

  // ---- growing a directory ----

  // The slots with clusters cs cleared, and with one.
  ghost function ClearedAll(slots: map<Pos, Slot>, cs: seq<nat>, n: nat): map<Pos, Slot> {
    slots + map p | p in Positions(cs, n) :: NeverUsed
  }

  ghost function Cleared(slots: map<Pos, Slot>, c: nat, n: nat): map<Pos, Slot> {
    ClearedAll(slots, [c], n)
  }

  lemma InClusterPositions(c: nat, n: nat, p: Pos)
    ensures p in ClusterPositions(c, n) <==> p.cluster == c && p.index < n
  {
    if p.cluster == c && p.index < n {
      assert ClusterPositions(c, n)[p.index] == p;
    }
  }

  lemma {:induction false} InPositions(cs: seq<nat>, n: nat, p: Pos)
    ensures p in Positions(cs, n) <==> p.cluster in cs && p.index < n
    decreases |cs|
  {
    if cs != [] {
      var front, c := cs[..|cs| - 1], cs[|cs| - 1];
      InPositions(front, n, p);
      InClusterPositions(c, n, p);
      assert cs == front + [c];
    }
  }

  function ZeroSector(c: nat, base: nat, e: nat): map<Pos, Slot> {
    map i: nat | base <= i < base + e :: Pos(c, i) := NeverUsed
  }

  lemma InCleared(slots: map<Pos, Slot>, c: nat, n: nat, p: Pos)
    ensures p in Cleared(slots, c, n) <==> p in slots || (p.cluster == c && p.index < n)
    ensures p.cluster == c && p.index < n ==> Cleared(slots, c, n)[p] == NeverUsed
    ensures p in slots && !(p.cluster == c && p.index < n) ==> Cleared(slots, c, n)[p] == slots[p]
  {
    InPositions([c], n, p);
  }

  lemma InZeroSector(c: nat, base: nat, e: nat, p: Pos)
    ensures p in ZeroSector(c, base, e) <==> p.cluster == c && base <= p.index < base + e
  {
    if p.cluster == c && base <= p.index < base + e {
      assert Pos(c, p.index) in ZeroSector(c, base, e);
    }
  }

  lemma ClearedSector(slots: map<Pos, Slot>, c: nat, base: nat, e: nat)
    ensures Cleared(slots, c, base) + ZeroSector(c, base, e) == Cleared(slots, c, base + e)
  {
    forall p: Pos
      ensures p in Cleared(slots, c, base) + ZeroSector(c, base, e) <==> p in Cleared(slots, c, base + e)
      ensures p in Cleared(slots, c, base + e) ==>
                (Cleared(slots, c, base) + ZeroSector(c, base, e))[p] == Cleared(slots, c, base + e)[p]
    {
      InCleared(slots, c, base, p);
      InCleared(slots, c, base + e, p);
      InZeroSector(c, base, e, p);
    }
  }

  lemma ClearedNone(slots: map<Pos, Slot>, c: nat)
    ensures Cleared(slots, c, 0) == slots
  {
    ZeroPerCluster([c]);
  }

  // MFS_Clear_cluster: zeroes, sector by sector.
  method ClearCluster(d: Drive, c: nat)
    requires !d.readOnly
    modifies d`slots
    ensures d.slots == Cleared(old(d.slots), c, d.SlotsPerCluster())
  {
    hide ClearedAll;
    var sector: nat, base: nat := 0, 0;
    ClearedNone(d.slots, c);
    while sector < d.sectorsPerCluster
      invariant 0 <= sector <= d.sectorsPerCluster && base == sector * d.entriesPerSector
      invariant d.slots == Cleared(old(d.slots), c, base)
    {
      assert (sector + 1) * d.entriesPerSector == base + d.entriesPerSector;
      ClearedSector(old(d.slots), c, base, d.entriesPerSector);
      d.slots := d.slots + ZeroSector(c, base, d.entriesPerSector);
      sector, base := sector + 1, base + d.entriesPerSector;
    }
  }

  lemma ExtendTwice(f: Fat, g: Fat, h: Fat, tail: nat, links: seq<nat>, c: nat)
    requires Extends(f, g, tail, links) && Extends(g, h, Tip(tail, links), [c])
    ensures Extends(f, h, tail, links + [c])
  {
    if links != [] {
      assert Unused(g, [c][0]);
      assert c !in links by {
        forall i | 0 <= i < |links|
          ensures links[i] != c
        {
          assert i < |links| - 1 ==> g[links[i]] == links[i + 1];
        }
      }
      var more := links + [c];
      forall i | 0 <= i < |more| - 1
        ensures h[more[i]] == more[i + 1]
      {
        if i < |links| - 1 {
          assert g[links[i]] == links[i + 1] && links[i] != Last(links);
        }
      }
      assert tail !in links;
    } else {
      assert links + [c] == [c];
    }
  }

  // How the table changes while a directory grows by added.
  ghost predicate Grew(f: Fat, g: Fat, dir: Dir, added: seq<nat>) {
    if added == [] then g == f else !dir.FixedRoot() && |dir.clusters| > 0 && Extends(f, g, Last(dir.clusters), added)
  }

  ghost function Longer(dir: Dir, added: seq<nat>): Dir {
    Dir(dir.clusters + added, dir.perCluster)
  }

  lemma FlatLonger(dir: Dir, c: nat)
    ensures Longer(dir, [c]).Flat() == dir.Flat() + ClusterPositions(c, dir.perCluster)
  {
    assert (dir.clusters + [c])[..|dir.clusters|] == dir.clusters;
  }

  // A new cluster, linked behind the directory and cleared.
  method GrowDir(d: Drive, c: nat, ghost dir: Dir, ghost k: nat) returns (error: Error, c': nat)
    requires d.Mounted() && d.CountOk() && !d.readOnly && IsDir(d, dir) && Present(d, dir)
    requires k < |dir.Flat()| && dir.Flat()[k].cluster == c
    modifies d.fat, d`freeCount, d`nextFree, d`slots
    ensures d.nextFree == old(d.nextFree) || d.nextFree >= CLUSTER_MIN_GOOD
    ensures d.CountOk()
    ensures error == if dir.FixedRoot() then RootDirFull else if FreeCells(old(d.Fat())) == {} then DiskFull else NoError
    ensures error != NoError ==> d.Fat() == old(d.Fat()) && d.slots == old(d.slots)
    ensures error == NoError ==>
              && !dir.FixedRoot() && Extends(old(d.Fat()), d.Fat(), Last(dir.clusters), [c'])
              && d.slots == Cleared(old(d.slots), c', dir.perCluster)
              && IsDir(d, Longer(dir, [c']))
  {
    ghost var j, i := ClusterOfPosition(dir.clusters, dir.perCluster, k);
    c' := c;
    if c == 0 {
      return RootDirFull, c';
    }
    TrailOfSuffix(d.Fat(), dir.clusters, j);
    var added;
    error, added := AddCluster(d, c, dir.clusters[j..]);
    if error == NoError {
      c' := added.value;
      ExtendKeepsChain(old(d.Fat()), d.Fat(), dir.clusters, [c']);
      ClearCluster(d, c');
    }
  }

  // ---- what a creation has written so far ----

  // The clusters added, and the flat indices (in the longer directory) and contents of the slots written.
  datatype Progress = Progress(added: seq<nat>, at: seq<nat>, contents: seq<Slot>)

  ghost predicate InAdded(dir: Dir, added: seq<nat>, p: Pos) {
    p.cluster in added && p.index < dir.perCluster
  }

  // A slot before the creation writes to it: free in an added cluster, as it was elsewhere.
  ghost function Before(s: map<Pos, Slot>, dir: Dir, added: seq<nat>, p: Pos): Slot {
    if InAdded(dir, added, p) then NeverUsed else if p in s then s[p] else NeverUsed
  }

  ghost predicate Increasing(at: seq<nat>) {
    forall v, w :: 0 <= v < w < |at| ==> at[v] < at[w]
  }

  // t is s with the added clusters cleared and the progress written, into free slots only.
  ghost predicate Wrote(s: map<Pos, Slot>, t: map<Pos, Slot>, dir: Dir, pr: Progress) {
    && |pr.at| == |pr.contents| && Increasing(pr.at)
    && (forall p :: p in t <==> p in s || InAdded(dir, pr.added, p))
    && Written(s, t, dir, pr) && Untouched(s, t, dir, pr)
  }

  ghost predicate Written(s: map<Pos, Slot>, t: map<Pos, Slot>, dir: Dir, pr: Progress)
    requires |pr.at| == |pr.contents|
  {
    var flat := Longer(dir, pr.added).Flat();
    forall w :: 0 <= w < |pr.at| ==>
      && pr.at[w] < |flat| && flat[pr.at[w]] in t && t[flat[pr.at[w]]] == pr.contents[w]
      && Before(s, dir, pr.added, flat[pr.at[w]]).Free()
  }

  ghost predicate Untouched(s: map<Pos, Slot>, t: map<Pos, Slot>, dir: Dir, pr: Progress) {
    var flat := Longer(dir, pr.added).Flat();
    forall p :: p in t && (forall w :: 0 <= w < |pr.at| && pr.at[w] < |flat| ==> flat[pr.at[w]] != p)
        ==> t[p] == Before(s, dir, pr.added, p)
  }

  ghost predicate FlatInjective(dir: Dir) {
    forall k, l :: 0 <= k < l < |dir.Flat()| ==> dir.Flat()[k] != dir.Flat()[l]
  }

  lemma DirInjective(d: Drive, dir: Dir)
    requires d.Mounted() && IsDir(d, dir)
    ensures FlatInjective(dir)
  {
    forall k, l | 0 <= k < l < |dir.Flat()|
      ensures dir.Flat()[k] != dir.Flat()[l]
    {
      FlatIndexUnique(d, dir, k, l);
    }
  }

  // Writing one more slot, behind the others.
  ghost predicate Behind(s: map<Pos, Slot>, t: map<Pos, Slot>, dir: Dir, pr: Progress, k: nat) {
    var flat := Longer(dir, pr.added).Flat();
    && Wrote(s, t, dir, pr) && FlatInjective(Longer(dir, pr.added))
    && k < |flat| && flat[k] in t && t[flat[k]].Free()
    && forall w :: 0 <= w < |pr.at| ==> pr.at[w] < k
  }

  ghost function Put(pr: Progress, k: nat, content: Slot): Progress {
    pr.(at := pr.at + [k], contents := pr.contents + [content])
  }

  lemma WrittenOne(s: map<Pos, Slot>, t: map<Pos, Slot>, dir: Dir, pr: Progress, k: nat, content: Slot)
    requires Behind(s, t, dir, pr, k)
    ensures Written(s, t[Longer(dir, pr.added).Flat()[k] := content], dir, Put(pr, k, content))
  {
    var flat := Longer(dir, pr.added).Flat();
    var pr' := Put(pr, k, content);
    assert t[flat[k]] == Before(s, dir, pr.added, flat[k]);
    forall w | 0 <= w < |pr'.at|
      ensures pr'.at[w] < |flat| && flat[pr'.at[w]] in t && t[flat[k] := content][flat[pr'.at[w]]] == pr'.contents[w]
      ensures Before(s, dir, pr.added, flat[pr'.at[w]]).Free()
    {
      if w < |pr.at| {
        assert flat[pr.at[w]] != flat[k];
      }
    }
  }

  lemma UntouchedOne(s: map<Pos, Slot>, t: map<Pos, Slot>, dir: Dir, pr: Progress, k: nat, content: Slot)
    requires Behind(s, t, dir, pr, k)
    ensures Untouched(s, t[Longer(dir, pr.added).Flat()[k] := content], dir, Put(pr, k, content))
  {
    hide ClusterPositions;
    var flat := Longer(dir, pr.added).Flat();
    var pr' := Put(pr, k, content);
    forall p | p in t && forall w :: 0 <= w < |pr'.at| && pr'.at[w] < |flat| ==> flat[pr'.at[w]] != p
      ensures t[flat[k] := content][p] == Before(s, dir, pr.added, p)
    {
      assert pr'.at[|pr.at|] == k;
      forall w | 0 <= w < |pr.at| && pr.at[w] < |flat|
        ensures flat[pr.at[w]] != p
      {
        assert pr'.at[w] == pr.at[w];
      }
    }
  }

  lemma WroteOne(s: map<Pos, Slot>, t: map<Pos, Slot>, dir: Dir, pr: Progress, k: nat, content: Slot)
    requires Behind(s, t, dir, pr, k)
    ensures Wrote(s, t[Longer(dir, pr.added).Flat()[k] := content], dir, Put(pr, k, content))
  {
    WrittenOne(s, t, dir, pr, k, content);
    UntouchedOne(s, t, dir, pr, k, content);
    assert Increasing(Put(pr, k, content).at);
  }

  // Growing by a cluster that is not part of the directory.
  ghost predicate Foreign(dir: Dir, added: seq<nat>, c: nat) {
    c !in added && forall k :: 0 <= k < |Longer(dir, added).Flat()| ==> Longer(dir, added).Flat()[k].cluster != c
  }

  lemma LongerBy(dir: Dir, added: seq<nat>, c: nat)
    ensures Longer(dir, added + [c]).Flat() == Longer(dir, added).Flat() + ClusterPositions(c, dir.perCluster)
  {
    FlatLonger(Longer(dir, added), c);
    assert dir.clusters + added + [c] == dir.clusters + (added + [c]);
  }

  lemma WrittenGrow(s: map<Pos, Slot>, t: map<Pos, Slot>, dir: Dir, pr: Progress, c: nat)
    requires Wrote(s, t, dir, pr) && Foreign(dir, pr.added, c)
    ensures Written(s, Cleared(t, c, dir.perCluster), dir, pr.(added := pr.added + [c]))
  {
    var flat := Longer(dir, pr.added).Flat();
    LongerBy(dir, pr.added, c);
    forall w | 0 <= w < |pr.at|
      ensures Longer(dir, pr.added + [c]).Flat()[pr.at[w]] == flat[pr.at[w]]
      ensures Cleared(t, c, dir.perCluster)[flat[pr.at[w]]] == pr.contents[w]
      ensures Before(s, dir, pr.added + [c], flat[pr.at[w]]).Free()
    {
      InCleared(t, c, dir.perCluster, flat[pr.at[w]]);
    }
  }

  lemma UntouchedGrow(s: map<Pos, Slot>, t: map<Pos, Slot>, dir: Dir, pr: Progress, c: nat)
    requires Wrote(s, t, dir, pr) && Foreign(dir, pr.added, c)
    ensures Untouched(s, Cleared(t, c, dir.perCluster), dir, pr.(added := pr.added + [c]))
  {
    var flat := Longer(dir, pr.added).Flat();
    var flat' := Longer(dir, pr.added + [c]).Flat();
    LongerBy(dir, pr.added, c);
    forall p | p in Cleared(t, c, dir.perCluster) && forall w :: 0 <= w < |pr.at| && pr.at[w] < |flat'| ==> flat'[pr.at[w]] != p
      ensures Cleared(t, c, dir.perCluster)[p] == Before(s, dir, pr.added + [c], p)
    {
      InCleared(t, c, dir.perCluster, p);
      forall w | 0 <= w < |pr.at| && pr.at[w] < |flat|
        ensures flat[pr.at[w]] != p
      {
        assert flat'[pr.at[w]] == flat[pr.at[w]];
      }
    }
  }

  lemma WroteGrow(s: map<Pos, Slot>, t: map<Pos, Slot>, dir: Dir, pr: Progress, c: nat)
    requires Wrote(s, t, dir, pr) && Foreign(dir, pr.added, c)
    ensures Wrote(s, Cleared(t, c, dir.perCluster), dir, pr.(added := pr.added + [c]))
  {
    WrittenGrow(s, t, dir, pr, c);
    UntouchedGrow(s, t, dir, pr, c);
    forall p
      ensures p in Cleared(t, c, dir.perCluster) <==> p in s || InAdded(dir, pr.added + [c], p)
    {
      InCleared(t, c, dir.perCluster, p);
    }
  }

  // ---- the creation ----

  // A creation in directory dir that began with slots s and table f and has come as far as pr.
  ghost predicate Session(d: Drive, s: map<Pos, Slot>, f: Fat, dir: Dir, pr: Progress)
    requires d.Mounted()
    reads d, d.fat
  {
    && d.CountOk() && !d.readOnly && |d.Fat()| == |f|
    && Grew(f, d.Fat(), dir, pr.added)
    && IsDir(d, Longer(dir, pr.added)) && Present(d, Longer(dir, pr.added))
    && Wrote(s, d.slots, dir, pr)
  }

  ghost predicate Cursor(dir: Dir, pr: Progress, k: nat, c: nat, i: nat) {
    k < |Longer(dir, pr.added).Flat()| && Longer(dir, pr.added).Flat()[k] == Pos(c, i)
  }

  lemma PresentLonger(d: Drive, dir: Dir, c: nat, slots: map<Pos, Slot>)
    requires forall k :: 0 <= k < |dir.Flat()| ==> dir.Flat()[k] in slots
    requires d.slots == Cleared(slots, c, dir.perCluster)
    ensures Present(d, Longer(dir, [c]))
  {
    FlatLonger(dir, c);
    forall k | 0 <= k < |Longer(dir, [c]).Flat()|
      ensures Longer(dir, [c]).Flat()[k] in d.slots
    {
      InCleared(slots, c, dir.perCluster, Longer(dir, [c]).Flat()[k]);
    }
  }

  // ---- how much room there is ----

  // How many slots of a directory from flat index k on are free.
  ghost function FreeFrom(s: map<Pos, Slot>, dir: Dir, k: nat): (n: nat)
    ensures FreeIn(s, dir, k) ==> n > 0
    decreases |dir.Flat()| - k
  {
    if k >= |dir.Flat()| then 0 else FreeFrom(s, dir, k + 1) + if FreeIn(s, dir, k) then 1 else 0
  }

  // What a creation reports when a directory can take no more.
  function Full(dir: Dir): Error {
    if dir.FixedRoot() then RootDirFull else DiskFull
  }

  // How many slots a directory can still grow by.
  ghost function Spare(f: Fat, dir: Dir): nat {
    if dir.FixedRoot() then 0 else |FreeCells(f)| * dir.perCluster
  }

  ghost function Room(s: map<Pos, Slot>, f: Fat, dir: Dir, k: nat): nat {
    FreeFrom(s, dir, k) + Spare(f, dir)
  }

  // Slots in use do not count.
  lemma {:induction false} FreeFromSkip(s: map<Pos, Slot>, dir: Dir, k: nat, k': nat)
    requires k <= k' <= |dir.Flat()| && UsedRange(s, dir, k, k')
    ensures FreeFrom(s, dir, k) == FreeFrom(s, dir, k')
    decreases k' - k
  {
    if k < k' {
      FreeFromSkip(s, dir, k + 1, k');
    }
  }

  lemma RoomSkip(s: map<Pos, Slot>, f: Fat, dir: Dir, k: nat, k': nat)
    requires k <= k' <= |dir.Flat()| && UsedRange(s, dir, k, k')
    ensures Room(s, f, dir, k) == Room(s, f, dir, k') && Room(s, f, dir, |dir.Flat()|) == Spare(f, dir)
    ensures FreeIn(s, dir, k') ==> Room(s, f, dir, k') > 0
  {
    FreeFromSkip(s, dir, k, k');
  }

  // Only the slots from k on matter.
  lemma {:induction false} FreeFromSame(s: map<Pos, Slot>, t: map<Pos, Slot>, dir: Dir, k: nat)
    requires forall x: nat :: k <= x ==> (FreeIn(s, dir, x) <==> FreeIn(t, dir, x))
    ensures FreeFrom(s, dir, k) == FreeFrom(t, dir, k)
    decreases |dir.Flat()| - k
  {
    if k < |dir.Flat()| {
      FreeFromSame(s, t, dir, k + 1);
    }
  }

  lemma {:induction false} FreeFromAll(s: map<Pos, Slot>, dir: Dir, k: nat, k': nat)
    requires k <= k' <= |dir.Flat()| && FreeRange(s, dir, k, k')
    ensures FreeFrom(s, dir, k) == k' - k + FreeFrom(s, dir, k')
    decreases k' - k
  {
    if k < k' {
      FreeFromAll(s, dir, k + 1, k');
    }
  }

  // A new cluster turns one free cluster into as many free slots.
  lemma RoomOfNew(d: Drive, f: Fat, s: map<Pos, Slot>, dir: Dir, dir': Dir, c: nat)
    requires d.Mounted() && |d.Fat()| == |f| && !dir.FixedRoot() && !dir'.FixedRoot() && dir'.perCluster == dir.perCluster
    requires dir'.Flat() == dir.Flat() + ClusterPositions(c, dir.perCluster)
    requires Unused(f, c) && FreeCells(d.Fat()) == FreeCells(f) - {c} && d.slots == Cleared(s, c, dir.perCluster)
    ensures Room(d.slots, d.Fat(), dir', |dir.Flat()|) == Spare(f, dir)
  {
    hide ClearedAll;
    var n := dir.perCluster;
    assert c in FreeCells(f);
    forall x: nat | |dir.Flat()| <= x < |dir'.Flat()|
      ensures FreeIn(d.slots, dir', x)
    {
      InCleared(s, c, n, dir'.Flat()[x]);
    }
    FreeFromAll(d.slots, dir', |dir.Flat()|, |dir'.Flat()|);
    OneLess(FreeCells(f), c, n);
  }

  lemma OneLess(cells: set<nat>, c: nat, n: nat)
    requires c in cells
    ensures |cells - {c}| * n + n == |cells| * n
  {
    assert |cells - {c}| == |cells| - 1;
  }

  lemma ExtendTakesOne(f: Fat, g: Fat, tail: nat, c: nat)
    requires Extends(f, g, tail, [c])
    ensures Unused(f, c) && FreeCells(g) == FreeCells(f) - {c}
  {
    assert Unused(f, [c][0]) && g[c] == CLUSTER_EOF;
    forall k
      ensures k in FreeCells(g) <==> k in FreeCells(f) - {c}
    {}
  }

  lemma NoSpare(f: Fat, dir: Dir)
    requires dir.perCluster > 0
    ensures Spare(f, dir) == 0 <==> dir.FixedRoot() || FreeCells(f) == {}
  {
    if !dir.FixedRoot() && FreeCells(f) != {} {
      var c :| c in FreeCells(f);
      MulLess(0, |FreeCells(f)|, dir.perCluster);
    }
  }

  // GrowDir, within a session.
  method GrowSession(d: Drive, c: nat, ghost s: map<Pos, Slot>, ghost f: Fat, ghost dir: Dir, ghost pr: Progress,
                     ghost k: nat)
    returns (error: Error, c': nat, ghost pr': Progress)
    requires d.Mounted() && Session(d, s, f, dir, pr)
    requires k < |Longer(dir, pr.added).Flat()| && Longer(dir, pr.added).Flat()[k].cluster == c
    modifies d.fat, d`freeCount, d`nextFree, d`slots
    ensures d.nextFree == old(d.nextFree) || d.nextFree >= CLUSTER_MIN_GOOD
    ensures Session(d, s, f, dir, pr')
    ensures error == NoError || error == Full(dir)
    ensures error != NoError ==> pr' == pr && d.slots == old(d.slots)
    ensures error == NoError ==>
              && pr' == pr.(added := pr.added + [c']) && d.slots == Cleared(old(d.slots), c', dir.perCluster)
              && Longer(dir, pr'.added).Flat() == Longer(dir, pr.added).Flat() + ClusterPositions(c', dir.perCluster)
              && Cursor(dir, pr', |Longer(dir, pr.added).Flat()|, c', 0) && FreeAt(d, Pos(c', 0))
              && Room(d.slots, d.Fat(), Longer(dir, pr'.added), |Longer(dir, pr.added).Flat()|)
                 == Spare(old(d.Fat()), Longer(dir, pr.added))
    ensures error == NoError <==> Spare(old(d.Fat()), Longer(dir, pr.added)) > 0
  {
    hide Wrote, Room, Spare;
    ghost var now := Longer(dir, pr.added);
    NoSpare(d.Fat(), now);
    error, c' := GrowDir(d, c, now, k);
    pr' := pr;
    if error == NoError {
      pr' := pr.(added := pr.added + [c']);
      ExtendTakesOne(old(d.Fat()), d.Fat(), Last(now.clusters), c');
      SessionGrow(d, old(d.Fat()), old(d.slots), s, f, dir, pr, c');
      InCleared(old(d.slots), c', dir.perCluster, Pos(c', 0));
      RoomOfNew(d, old(d.Fat()), old(d.slots), now, Longer(dir, pr'.added), c');
    } else if error == RootDirFull {
      assert now.clusters[0] == 0 && (pr.added != [] ==> |dir.clusters| > 0);
    }
  }

  lemma SessionGrow(d: Drive, g: Fat, slots: map<Pos, Slot>, s: map<Pos, Slot>, f: Fat, dir: Dir, pr: Progress, c: nat)
    requires d.Mounted() && d.CountOk() && !d.readOnly
    requires Grew(f, g, dir, pr.added) && Wrote(s, slots, dir, pr)
    requires var now := Longer(dir, pr.added);
             && !now.FixedRoot() && IsChain(g, now.clusters) && now.perCluster > 0
             && Extends(g, d.Fat(), Last(now.clusters), [c])
             && (forall k :: 0 <= k < |now.Flat()| ==> now.Flat()[k] in slots)
             && d.slots == Cleared(slots, c, dir.perCluster) && IsDir(d, Longer(now, [c]))
    ensures Session(d, s, f, dir, pr.(added := pr.added + [c]))
    ensures Longer(dir, pr.added + [c]).Flat() == Longer(dir, pr.added).Flat() + ClusterPositions(c, dir.perCluster)
  {
    var now := Longer(dir, pr.added);
    LongerBy(dir, pr.added, c);
    assert Longer(now, [c]) == Longer(dir, pr.added + [c]) by {
      assert dir.clusters + pr.added + [c] == dir.clusters + (pr.added + [c]);
    }
    PresentLonger(d, now, c, slots);
    ForeignTo(g, dir, pr.added, c);
    WroteGrow(s, slots, dir, pr, c);
    GrewMore(f, g, d.Fat(), dir, pr.added, c);
  }

  lemma ForeignTo(g: Fat, dir: Dir, added: seq<nat>, c: nat)
    requires IsChain(g, Longer(dir, added).clusters) && Unused(g, c)
    ensures Foreign(dir, added, c)
  {
    var all := Longer(dir, added);
    forall j | 0 <= j < |all.clusters|
      ensures all.clusters[j] != c
    {
      assert j < |all.clusters| - 1 ==> g[all.clusters[j]] == all.clusters[j + 1];
    }
    forall x | 0 <= x < |added|
      ensures added[x] != c
    {
      assert all.clusters[|dir.clusters| + x] == added[x];
    }
    forall k | 0 <= k < |all.Flat()|
      ensures all.Flat()[k].cluster != c
    {
      var j, i := ClusterOfPosition(all.clusters, all.perCluster, k);
    }
  }

  lemma GrewMore(f: Fat, g: Fat, h: Fat, dir: Dir, added: seq<nat>, c: nat)
    requires Grew(f, g, dir, added) && |dir.clusters| > 0 && !dir.FixedRoot()
    requires Extends(g, h, Last(dir.clusters + added), [c])
    ensures Grew(f, h, dir, added + [c])
  {
    if added == [] {
      assert dir.clusters + added == dir.clusters && added + [c] == [c];
    } else {
      assert Last(dir.clusters + added) == Last(added);
      ExtendTwice(f, g, h, Last(dir.clusters), added, c);
    }
  }

  // The next free slot at or after the cursor, growing the directory if there is none.
  method Place(d: Drive, c: nat, i: nat, ghost s: map<Pos, Slot>, ghost f: Fat, ghost dir: Dir, ghost pr: Progress,
               ghost k: nat)
    returns (error: Error, c': nat, i': nat, ghost pr': Progress, ghost k': nat)
    requires d.Mounted() && Session(d, s, f, dir, pr) && Cursor(dir, pr, k, c, i)
    modifies d.fat, d`freeCount, d`nextFree, d`slots
    ensures d.nextFree == old(d.nextFree) || d.nextFree >= CLUSTER_MIN_GOOD
    ensures Session(d, s, f, dir, pr') && pr'.at == pr.at && pr'.contents == pr.contents
    ensures error == NoError || error == Full(dir)
    ensures error != NoError ==> pr' == pr && d.slots == old(d.slots) && UsedRange(d.slots, Longer(dir, pr.added), k, |Longer(dir, pr.added).Flat()|)
    ensures error == NoError ==>
              && k <= k' && Cursor(dir, pr', k', c', i') && FreeAt(d, Pos(c', i')) && FreeIn(d.slots, Longer(dir, pr'.added), k')
              && UsedRange(d.slots, Longer(dir, pr'.added), k, k')
              && Longer(dir, pr.added).Flat() <= Longer(dir, pr'.added).Flat() && pr.added <= pr'.added
              && (pr'.added == pr.added ||
                   (k' == |Longer(dir, pr.added).Flat()| && |Longer(dir, pr'.added).Flat()| == k' + dir.perCluster))
              && Room(d.slots, d.Fat(), Longer(dir, pr'.added), k') == old(Room(d.slots, d.Fat(), Longer(dir, pr.added), k))
    ensures error == NoError <==> old(Room(d.slots, d.Fat(), Longer(dir, pr.added), k)) > 0
  {
    hide Wrote, Grew, FreeCells, Spare, Room, FreeFrom;
    ghost var now := Longer(dir, pr.added);
    var found;
    found, c', i', k' := FindFree(d, c, i, now, k);
    RoomSkip(d.slots, d.Fat(), now, k, k');
    error, pr' := NoError, pr;
    if !found {
      error, c', pr' := GrowSession(d, c', s, f, dir, pr, k);
      i' := 0;
      if error == NoError {
        UsedStays(d, old(d.slots), dir, pr, pr', c', k);
      }
    }
  }

  // Slots in use before a directory grew are still in use after.
  lemma UsedStays(d: Drive, slots: map<Pos, Slot>, dir: Dir, pr: Progress, pr': Progress, c: nat, k: nat)
    requires d.Mounted() && IsDir(d, Longer(dir, pr'.added)) && d.slots == Cleared(slots, c, dir.perCluster)
    requires Longer(dir, pr'.added).Flat() == Longer(dir, pr.added).Flat() + ClusterPositions(c, dir.perCluster)
    requires UsedRange(slots, Longer(dir, pr.added), k, |Longer(dir, pr.added).Flat()|)
    ensures UsedRange(d.slots, Longer(dir, pr'.added), k, |Longer(dir, pr.added).Flat()|)
  {
    var flat, flat' := Longer(dir, pr.added).Flat(), Longer(dir, pr'.added).Flat();
    forall x: nat | k <= x < |flat|
      ensures !FreeIn(d.slots, Longer(dir, pr'.added), x)
    {
      assert !FreeIn(slots, Longer(dir, pr.added), x);
      InCleared(slots, c, dir.perCluster, flat[x]);
      if flat[x].cluster == c && flat[x].index < dir.perCluster {
        assert flat'[|flat| + flat[x].index] == flat'[x];
        FlatIndexUnique(d, Longer(dir, pr'.added), x, |flat| + flat[x].index);
      }
    }
  }

  lemma FillCounts(s: map<Pos, Slot>, dir: Dir, k: nat, content: Slot)
    requires FreeIn(s, dir, k) && FlatInjective(dir)
    ensures FreeFrom(s[dir.Flat()[k] := content], dir, k + 1) + 1 == FreeFrom(s, dir, k)
  {
    forall x: nat | k + 1 <= x
      ensures FreeIn(s, dir, x) <==> FreeIn(s[dir.Flat()[k] := content], dir, x)
    {}
    FreeFromSame(s, s[dir.Flat()[k] := content], dir, k + 1);
  }

  // Filling the slot at the cursor.
  method Fill(d: Drive, c: nat, i: nat, content: Slot,
              ghost s: map<Pos, Slot>, ghost f: Fat, ghost dir: Dir, ghost pr: Progress, ghost k: nat)
    returns (ghost pr': Progress)
    requires d.Mounted() && Session(d, s, f, dir, pr) && Cursor(dir, pr, k, c, i) && FreeAt(d, Pos(c, i))
    requires forall w :: 0 <= w < |pr.at| ==> pr.at[w] < k
    modifies d`slots
    ensures Session(d, s, f, dir, pr') && pr' == Put(pr, k, content)
    ensures d.slots == old(d.slots)[Pos(c, i) := content]
    ensures Room(d.slots, d.Fat(), Longer(dir, pr'.added), k + 1) + 1 == old(Room(d.slots, d.Fat(), Longer(dir, pr.added), k))
  {
    DirInjective(d, Longer(dir, pr.added));
    WroteOne(s, d.slots, dir, pr, k, content);
    FillCounts(d.slots, Longer(dir, pr.added), k, content);
    d.slots := d.slots[Pos(c, i) := content];
    pr' := Put(pr, k, content);
  }

  // ---- where an entry goes, seen on the slots before the creation ----

  // The slots of y .. y + n that the directory already has are free.
  ghost predicate Solid(s: map<Pos, Slot>, dir: Dir, y: nat, n: nat) {
    forall x :: y <= x <= y + n && x < |dir.Flat()| ==> FreeIn(s, dir, x)
  }

  ghost predicate Consecutive(at: seq<nat>) {
    forall w :: 0 <= w < |at| ==> at[w] == at[0] + w
  }

  const Nothing := Progress([], [], [])

  /**
   * Where a name begins: a short one in the first free slot, a long one where the search for its slots
   * ends, and either of them behind the end of the directory if no slot is free.
   */
  ghost predicate Begins(s: map<Pos, Slot>, dir: Dir, long: bool, n: nat, y: nat) {
    if forall x: nat :: !FreeIn(s, dir, x) then y == |dir.Flat()|
    else if long then StartsAt(s, dir, y, n)
    else FreeIn(s, dir, y) && UsedRange(s, dir, 0, y)
  }

  lemma BeginsOnce(s: map<Pos, Slot>, dir: Dir, long: bool, n: nat, y: nat, z: nat)
    requires Begins(s, dir, long, n, y) && Begins(s, dir, long, n, z)
    ensures y == z
  {
    if long && StartsAt(s, dir, y, n) && StartsAt(s, dir, z, n) {
      StartsOnce(s, dir, y, z, n);
    }
  }

  lemma BeginsFree(s: map<Pos, Slot>, dir: Dir, long: bool, n: nat, y: nat)
    requires Begins(s, dir, long, n, y)
    ensures y <= |dir.Flat()| && (y < |dir.Flat()| ==> FreeIn(s, dir, y))
    ensures y == |dir.Flat()| <==> forall x: nat :: !FreeIn(s, dir, x)
  {
    if RunIn(s, dir, y, n) {
      assert FreeIn(s, dir, y);
    }
  }

  method SearchPlace(d: Drive, c0: nat, long: bool, needed: nat, ghost dir: Dir)
    returns (found: bool, c: nat, i: nat, ghost k: nat)
    requires d.Mounted() && IsDir(d, dir) && Present(d, dir) && dir.clusters[0] == c0
    requires long ==> StaysInside(d.slots, dir, needed)
    ensures Begins(d.slots, dir, long, needed, k) && 0 < |dir.Flat()| && dir.Flat()[0] == Pos(c0, 0)
    ensures if found then k < |dir.Flat()| && dir.Flat()[k] == Pos(c, i) else c == c0 && k == |dir.Flat()|
  {
    PositionsOfCluster(dir.clusters, dir.perCluster, 0, 0);
    found, c, i, k := FindFree(d, c0, 0, dir, 0);
    if !found {
      assert forall x: nat :: !FreeIn(d.slots, dir, x);
    } else if long {
      assert FreeIn(d.slots, dir, k);
      c, i, k := FindRun(d, c, i, needed, dir, k);
    }
  }

  // A directory grows only for a slot behind its old end, and by no more clusters than that slot needs.
  ghost predicate Grown(dir: Dir, pr: Progress, k: nat) {
    pr.added != [] ==> |dir.Flat()| <= k && |Longer(dir, pr.added).Flat()| <= k + dir.perCluster
  }

  // A place is found unless no slot of the directory is free and it cannot grow.
  ghost function PlaceOutcome(s: map<Pos, Slot>, f: Fat, dir: Dir): Error {
    if exists x: nat :: FreeIn(s, dir, x) then NoError
    else if dir.FixedRoot() then RootDirFull
    else if FreeCells(f) == {} then DiskFull
    else NoError
  }

  // The search, and a new cluster if it finds nothing.
  method FindPlace(d: Drive, c0: nat, long: bool, needed: nat, ghost dir: Dir)
    returns (error: Error, c: nat, i: nat, ghost pr: Progress, ghost k: nat)
    requires d.Mounted() && d.CountOk() && !d.readOnly && IsDir(d, dir) && Present(d, dir) && dir.clusters[0] == c0
    requires long ==> StaysInside(d.slots, dir, needed)
    modifies d.fat, d`freeCount, d`nextFree, d`slots
    ensures d.nextFree == old(d.nextFree) || d.nextFree >= CLUSTER_MIN_GOOD
    ensures Session(d, old(d.slots), old(d.Fat()), dir, pr) && pr.at == [] && pr.contents == []
    ensures dir.Flat() <= Longer(dir, pr.added).Flat()
    ensures error == PlaceOutcome(old(d.slots), old(d.Fat()), dir)
    ensures Begins(old(d.slots), dir, long, needed, k)
    ensures error == NoError ==>
              && Cursor(dir, pr, k, c, i) && FreeAt(d, Pos(c, i)) && Grown(dir, pr, k)
              && Room(d.slots, d.Fat(), Longer(dir, pr.added), k) == Room(old(d.slots), old(d.Fat()), dir, k)
    ensures error != NoError ==> pr == Nothing
  {
    hide StartsAt, Room, Spare, FreeFrom, Wrote, Grew, FreeCells;
    NoSpare(d.Fat(), dir);
    pr := Nothing;
    StartSession(d, dir);
    var found;
    found, c, i, k := SearchPlace(d, c0, long, needed, dir);
    BeginsFree(d.slots, dir, long, needed, k);
    error := NoError;
    if !found {
      RoomSkip(d.slots, d.Fat(), dir, k, k);
      error, c, pr := GrowSession(d, c, d.slots, d.Fat(), dir, pr, 0);
      i := 0;
    }
  }

  lemma StartSession(d: Drive, dir: Dir)
    requires d.Mounted() && d.CountOk() && !d.readOnly && IsDir(d, dir) && Present(d, dir)
    ensures Longer(dir, []) == dir && Session(d, d.slots, d.Fat(), dir, Nothing)
  {
    assert dir.clusters + [] == dir.clusters;
  }

  // Slot x of the grown directory was free before the creation wrote to it.
  ghost predicate WasFree(s: map<Pos, Slot>, dir: Dir, added: seq<nat>, x: nat) {
    x < |Longer(dir, added).Flat()| && Before(s, dir, added, Longer(dir, added).Flat()[x]).Free()
  }

  // A slot that is not written yet is what it was.
  lemma UnwrittenSame(d: Drive, s: map<Pos, Slot>, f: Fat, dir: Dir, pr: Progress, x: nat)
    requires d.Mounted() && Session(d, s, f, dir, pr) && forall w :: 0 <= w < |pr.at| ==> pr.at[w] != x
    ensures FreeIn(d.slots, Longer(dir, pr.added), x) <==> WasFree(s, dir, pr.added, x)
  {
    hide Grew, IsDir, FreeCells;
    var flat := Longer(dir, pr.added).Flat();
    if x < |flat| {
      DirInjective(d, Longer(dir, pr.added));
      forall w | 0 <= w < |pr.at| && pr.at[w] < |flat|
        ensures flat[pr.at[w]] != flat[x]
      {
        assert pr.at[w] != x;
      }
      assert d.slots[flat[x]] == Before(s, dir, pr.added, flat[x]);
    }
  }

  // A slot of a solid stretch that is not written yet is free.
  lemma UnwrittenFree(d: Drive, s: map<Pos, Slot>, f: Fat, dir: Dir, pr: Progress, y: nat, n: nat, x: nat)
    requires d.Mounted() && Session(d, s, f, dir, pr) && dir.Flat() <= Longer(dir, pr.added).Flat()
    requires Solid(s, dir, y, n) && y <= x <= y + n && x < |Longer(dir, pr.added).Flat()|
    requires forall w :: 0 <= w < |pr.at| ==> pr.at[w] != x
    ensures FreeIn(d.slots, Longer(dir, pr.added), x)
  {
    UnwrittenSame(d, s, f, dir, pr, x);
    hide Session;
    if x < |dir.Flat()| {
      assert FreeIn(s, dir, x);
    } else {
      AddedFree(d, s, dir, pr, x);
    }
  }

  // No slot between lo and hi was free.
  ghost predicate PassedBy(s: map<Pos, Slot>, dir: Dir, added: seq<nat>, lo: nat, hi: nat) {
    forall x: nat :: lo < x < hi ==> !WasFree(s, dir, added, x)
  }

  // Each slot written is the next free one behind the one written before it.
  ghost predicate NoneSkipped(s: map<Pos, Slot>, dir: Dir, pr: Progress) {
    forall w: nat :: w + 1 < |pr.at| ==> PassedBy(s, dir, pr.added, pr.at[w], pr.at[w + 1])
  }

  // Growing a directory changes nothing about the slots that it had.
  lemma WasFreeBefore(d: Drive, s: map<Pos, Slot>, dir: Dir, added: seq<nat>, more: seq<nat>, x: nat)
    requires d.Mounted() && IsDir(d, Longer(dir, more)) && added <= more && x < |Longer(dir, added).Flat()|
    requires Longer(dir, added).Flat() <= Longer(dir, more).Flat()
    ensures WasFree(s, dir, added, x) <==> WasFree(s, dir, more, x)
  {
    var p, now := Longer(dir, added).Flat()[x], Longer(dir, added);
    assert Longer(now, more[|added|..]) == Longer(dir, more) by {
      assert dir.clusters + added + more[|added|..] == dir.clusters + more;
    }
    OldNotAdded(d, now, more[|added|..], x);
    assert p.cluster in more <==> p.cluster in added || p.cluster in more[|added|..];
  }

  lemma SkippedGrow(d: Drive, s: map<Pos, Slot>, dir: Dir, pr: Progress, pr': Progress)
    requires d.Mounted() && IsDir(d, Longer(dir, pr'.added)) && pr.added <= pr'.added && pr'.at == pr.at
              && NoneSkipped(s, dir, pr)
    requires Longer(dir, pr.added).Flat() <= Longer(dir, pr'.added).Flat()
    requires forall w :: 0 <= w < |pr.at| ==> pr.at[w] < |Longer(dir, pr.added).Flat()|
    ensures NoneSkipped(s, dir, pr')
  {
    forall w: nat, x: nat | w + 1 < |pr.at| && pr.at[w] < x < pr.at[w + 1]
      ensures !WasFree(s, dir, pr'.added, x)
    {
      assert PassedBy(s, dir, pr.added, pr.at[w], pr.at[w + 1]);
      WasFreeBefore(d, s, dir, pr.added, pr'.added, x);
    }
  }

  // Behind consecutive slots in a solid stretch, the next free slot is the next slot.
  lemma NextConsecutive(d: Drive, s: map<Pos, Slot>, f: Fat, dir: Dir, pr: Progress, y: nat, n: nat, k: nat)
    requires d.Mounted() && Session(d, s, f, dir, pr) && dir.Flat() <= Longer(dir, pr.added).Flat()
    requires Solid(s, dir, y, n) && 0 < |pr.at| <= n && pr.at[0] == y && Consecutive(pr.at)
    requires k < |Longer(dir, pr.added).Flat()| && Longer(dir, pr.added).Flat()[k] in d.slots
              && FreeAt(d, Longer(dir, pr.added).Flat()[k])
    requires Last(pr.at) < k && UsedRange(d.slots, Longer(dir, pr.added), Last(pr.at), k)
    ensures k == y + |pr.at|
  {
    hide Grew, IsDir, FreeCells, Solid;
    var next := y + |pr.at|;
    assert Last(pr.at) == next - 1;
    if next < k {
      UnwrittenFree(d, s, f, dir, pr, y, n, next);
    }
  }

  // A slot beyond the old directory was free before anything was written to it.
  lemma AddedFree(d: Drive, s: map<Pos, Slot>, dir: Dir, pr: Progress, x: nat)
    requires |dir.Flat()| <= x < |Longer(dir, pr.added).Flat()|
    ensures Before(s, dir, pr.added, Longer(dir, pr.added).Flat()[x]).Free()
  {
    var all := Longer(dir, pr.added);
    var j, i := ClusterOfPosition(all.clusters, all.perCluster, x);
    if j < |dir.clusters| {
      assert all.clusters[..j] == dir.clusters[..j];
      PositionsOfCluster(dir.clusters, dir.perCluster, j, i);
    } else {
      assert all.clusters[j] == pr.added[j - |dir.clusters|];
    }
  }

  // ---- writing the pieces and the entry ----

  // The contents written so far are the first pieces of the name.
  ghost predicate Pieces(contents: seq<Slot>, name: seq<nat>, checksum: nat) {
    && IsName(name) && |contents| <= PieceCount(|name|)
    && forall w :: 0 <= w < |contents| ==> IsPiece(contents[w], name, LengthLeft(name, w), checksum)
  }

  ghost predicate OnlyPieces(contents: seq<Slot>) {
    forall w :: 0 <= w < |contents| ==> contents[w].Piece?
  }

  lemma PiecesAre(contents: seq<Slot>, name: seq<nat>, checksum: nat)
    requires Pieces(contents, name, checksum)
    ensures OnlyPieces(contents)
  {}

  // The slots written so far begin at y, and follow each other if the free stretch there is long enough.
  ghost predicate InRow(s: map<Pos, Slot>, dir: Dir, pr: Progress, y: nat, n: nat) {
    && dir.Flat() <= Longer(dir, pr.added).Flat()
    && (pr.at != [] ==> pr.at[0] == y)
    && (Solid(s, dir, y, n) ==> Consecutive(pr.at)) && NoneSkipped(s, dir, pr)
  }

  // The slot for the next content, behind the one just written.
  method PlaceNext(d: Drive, c: nat, i: nat, ghost s: map<Pos, Slot>, ghost f: Fat, ghost dir: Dir,
                   ghost pr: Progress, ghost y: nat, ghost n: nat)
    returns (error: Error, c': nat, i': nat, ghost pr': Progress, ghost k': nat)
    requires d.Mounted() && Session(d, s, f, dir, pr) && 0 < |pr.at| <= n && Cursor(dir, pr, Last(pr.at), c, i)
    requires InRow(s, dir, pr, y, n) && OnlyPieces(pr.contents)
    requires Grown(dir, pr, Last(pr.at))
    modifies d.fat, d`freeCount, d`nextFree, d`slots
    ensures d.nextFree == old(d.nextFree) || d.nextFree >= CLUSTER_MIN_GOOD
    ensures Session(d, s, f, dir, pr') && pr'.at == pr.at && pr'.contents == pr.contents && InRow(s, dir, pr', y, n)
    ensures error == NoError || error == Full(dir)
    ensures error == NoError ==>
              && Cursor(dir, pr', k', c', i') && FreeAt(d, Pos(c', i')) && NextAt(s, dir, pr', k', y, n) && Grown(dir, pr', k')
              && Room(d.slots, d.Fat(), Longer(dir, pr'.added), k')
                 == old(Room(d.slots, d.Fat(), Longer(dir, pr.added), Last(pr.at) + 1))
    ensures error == NoError <==> old(Room(d.slots, d.Fat(), Longer(dir, pr.added), Last(pr.at) + 1)) > 0
  {
    hide *;
    BeforeNext(d, s, f, dir, pr, y, n);
    error, c', i', pr', k' := Place(d, c, i, s, f, dir, pr, Last(pr.at));
    if error == NoError {
      PlacedNext(d, s, f, dir, pr, pr', y, n, k');
    }
  }

  lemma BeforeNext(d: Drive, s: map<Pos, Slot>, f: Fat, dir: Dir, pr: Progress, y: nat, n: nat)
    requires d.Mounted() && Session(d, s, f, dir, pr) && pr.at != [] && InRow(s, dir, pr, y, n) && OnlyPieces(pr.contents)
    ensures forall w :: 0 <= w < |pr.at| ==> pr.at[w] < |Longer(dir, pr.added).Flat()|
    ensures |dir.Flat()| <= |Longer(dir, pr.added).Flat()|
    ensures Room(d.slots, d.Fat(), Longer(dir, pr.added), Last(pr.at))
            == Room(d.slots, d.Fat(), Longer(dir, pr.added), Last(pr.at) + 1)
  {
    hide *;
    AtInside(d, s, f, dir, pr);
    LastInUse(d, s, f, dir, pr);
    RoomSkip(d.slots, d.Fat(), Longer(dir, pr.added), Last(pr.at), Last(pr.at) + 1);
    InRowLonger(s, dir, pr, y, n);
  }

  lemma InRowLonger(s: map<Pos, Slot>, dir: Dir, pr: Progress, y: nat, n: nat)
    requires InRow(s, dir, pr, y, n)
    ensures |dir.Flat()| <= |Longer(dir, pr.added).Flat()|
  {}

  lemma PlacedNext(d: Drive, s: map<Pos, Slot>, f: Fat, dir: Dir, pr: Progress, pr': Progress, y: nat, n: nat, k: nat)
    requires d.Mounted() && Session(d, s, f, dir, pr') && 0 < |pr.at| <= n && InRow(s, dir, pr, y, n) && OnlyPieces(pr.contents)
    requires pr'.at == pr.at && pr'.contents == pr.contents && pr.added <= pr'.added && Grown(dir, pr, Last(pr.at))
    requires Longer(dir, pr.added).Flat() <= Longer(dir, pr'.added).Flat() && |dir.Flat()| <= |Longer(dir, pr.added).Flat()|
    requires pr'.added == pr.added ||
             (k == |Longer(dir, pr.added).Flat()| && |Longer(dir, pr'.added).Flat()| == k + dir.perCluster)
    requires forall w :: 0 <= w < |pr.at| ==> pr.at[w] < |Longer(dir, pr.added).Flat()|
    requires Last(pr.at) <= k && FreeIn(d.slots, Longer(dir, pr'.added), k)
             && UsedRange(d.slots, Longer(dir, pr'.added), Last(pr.at), k)
    ensures InRow(s, dir, pr', y, n) && NextAt(s, dir, pr', k, y, n) && Grown(dir, pr', k)
  {
    AsLong(d, s, f, dir, pr');
    hide Session, InRow, NoneSkipped, Solid, Longer, PassedBy, FreeIn, OnlyPieces, Grown;
    StillInRow(d, s, f, dir, pr, pr', y, n, k);
    StillGrown(dir, pr, pr', Last(pr.at), k);
    NextIs(s, dir, pr', k, y, n);
  }

  lemma StillGrown(dir: Dir, pr: Progress, pr': Progress, k: nat, k': nat)
    requires Grown(dir, pr, k) && k <= k' && |dir.Flat()| <= |Longer(dir, pr.added).Flat()|
    requires pr'.added == pr.added ||
             (k' == |Longer(dir, pr.added).Flat()| && |Longer(dir, pr'.added).Flat()| == k' + dir.perCluster)
    ensures Grown(dir, pr', k')
  {}

  // The slot that was written last is in use.
  lemma LastInUse(d: Drive, s: map<Pos, Slot>, f: Fat, dir: Dir, pr: Progress)
    requires d.Mounted() && Session(d, s, f, dir, pr) && pr.at != [] && OnlyPieces(pr.contents)
    ensures UsedRange(d.slots, Longer(dir, pr.added), Last(pr.at), Last(pr.at) + 1)
            && Last(pr.at) < |Longer(dir, pr.added).Flat()|
  {
    assert d.slots[Longer(dir, pr.added).Flat()[Last(pr.at)]] == pr.contents[|pr.at| - 1];
  }

  lemma StillInRow(d: Drive, s: map<Pos, Slot>, f: Fat, dir: Dir, pr: Progress, pr': Progress, y: nat, n: nat, k: nat)
    requires d.Mounted() && Session(d, s, f, dir, pr') && 0 < |pr.at| <= n && InRow(s, dir, pr, y, n) && OnlyPieces(pr.contents)
    requires pr'.at == pr.at && pr'.contents == pr.contents && pr.added <= pr'.added
    requires Longer(dir, pr.added).Flat() <= Longer(dir, pr'.added).Flat()
    requires forall w :: 0 <= w < |pr.at| ==> pr.at[w] < |Longer(dir, pr.added).Flat()|
    requires Last(pr.at) <= k && FreeIn(d.slots, Longer(dir, pr'.added), k)
              && UsedRange(d.slots, Longer(dir, pr'.added), Last(pr.at), k)
    ensures InRow(s, dir, pr', y, n) && Last(pr.at) < k && (Solid(s, dir, y, n) ==> k == y + |pr.at|)
    ensures PassedBy(s, dir, pr'.added, Last(pr.at), k)
  {
    hide Wrote, Grew, Solid, NoneSkipped, PassedBy;
    SkippedGrow(d, s, dir, pr, pr');
    FoundBehind(d, s, f, dir, pr', y, n, k);
  }

  lemma AtInside(d: Drive, s: map<Pos, Slot>, f: Fat, dir: Dir, pr: Progress)
    requires d.Mounted() && Session(d, s, f, dir, pr)
    ensures forall w :: 0 <= w < |pr.at| ==> pr.at[w] < |Longer(dir, pr.added).Flat()|
  {}

  lemma FoundBehind(d: Drive, s: map<Pos, Slot>, f: Fat, dir: Dir, pr: Progress, y: nat, n: nat, k: nat)
    requires d.Mounted() && Session(d, s, f, dir, pr) && 0 < |pr.at| <= n && InRow(s, dir, pr, y, n)
    requires OnlyPieces(pr.contents)
    requires Last(pr.at) <= k < |Longer(dir, pr.added).Flat()| && FreeAt(d, Longer(dir, pr.added).Flat()[k])
    requires UsedRange(d.slots, Longer(dir, pr.added), Last(pr.at), k)
    ensures Last(pr.at) < k && (Solid(s, dir, y, n) ==> k == y + |pr.at|) && PassedBy(s, dir, pr.added, Last(pr.at), k)
  {
    hide Grew, IsDir, FreeCells, NextAt;
    forall x: nat | Last(pr.at) < x < k
      ensures !WasFree(s, dir, pr.added, x)
    {
      UnwrittenSame(d, s, f, dir, pr, x);
    }
    assert d.slots[Longer(dir, pr.added).Flat()[Last(pr.at)]] == pr.contents[|pr.at| - 1];
    assert Last(pr.at) < k;
    if Solid(s, dir, y, n) {
      NextConsecutive(d, s, f, dir, pr, y, n, k);
    }
  }

  // One turn of the writing loop: the next piece goes into the slot at the cursor.
  method FillPiece(d: Drive, c: nat, i: nat, name: seq<nat>, length: nat, checksum: nat,
                   ghost s: map<Pos, Slot>, ghost f: Fat, ghost dir: Dir, ghost pr: Progress, ghost k: nat, ghost y: nat)
    returns (left: nat, ghost pr': Progress)
    requires d.Mounted() && Session(d, s, f, dir, pr) && Cursor(dir, pr, k, c, i) && FreeAt(d, Pos(c, i))
    requires Pieces(pr.contents, name, checksum) && |pr.at| < PieceCount(|name|) && length == LengthLeft(name, |pr.at|)
    requires InRow(s, dir, pr, y, PieceCount(|name|)) && NextAt(s, dir, pr, k, y, PieceCount(|name|))
    modifies d`slots
    ensures Session(d, s, f, dir, pr') && pr'.at == pr.at + [k] && pr'.added == pr.added
    ensures Pieces(pr'.contents, name, checksum) && left == LengthLeft(name, |pr'.at|)
    ensures InRow(s, dir, pr', y, PieceCount(|name|))
    ensures Room(d.slots, d.Fat(), Longer(dir, pr'.added), k + 1) + 1 == old(Room(d.slots, d.Fat(), Longer(dir, pr.added), k))
  {
    NextPiece(name, |pr.at|);
    var piece;
    piece, left := MakePiece(name, length, checksum);
    OneMore(s, dir, pr, k, y, piece, name, checksum);
    pr' := Fill(d, c, i, piece, s, f, dir, pr, k);
  }

  lemma OneMore(s: map<Pos, Slot>, dir: Dir, pr: Progress, k: nat, y: nat, piece: Slot, name: seq<nat>, checksum: nat)
    requires Pieces(pr.contents, name, checksum) && |pr.at| == |pr.contents| < PieceCount(|name|)
    requires IsPiece(piece, name, LengthLeft(name, |pr.at|), checksum)
    requires InRow(s, dir, pr, y, PieceCount(|name|)) && NextAt(s, dir, pr, k, y, PieceCount(|name|))
    ensures Pieces(Put(pr, k, piece).contents, name, checksum)
    ensures InRow(s, dir, Put(pr, k, piece), y, PieceCount(|name|))
  {
    SkippedOne(s, dir, pr, k, piece);
  }

  lemma SkippedOne(s: map<Pos, Slot>, dir: Dir, pr: Progress, k: nat, content: Slot)
    requires NoneSkipped(s, dir, pr) && (pr.at != [] ==> PassedBy(s, dir, pr.added, Last(pr.at), k))
    ensures NoneSkipped(s, dir, Put(pr, k, content))
  {}

  // k is behind all slots written, and the next one in a row if there is a long enough stretch.
  ghost predicate NextAt(s: map<Pos, Slot>, dir: Dir, pr: Progress, k: nat, y: nat, n: nat) {
    && (forall w :: 0 <= w < |pr.at| ==> pr.at[w] < k)
    && (pr.at == [] ==> k == y) && (Solid(s, dir, y, n) ==> k == y + |pr.at|)
    && (pr.at != [] ==> PassedBy(s, dir, pr.added, Last(pr.at), k))
  }

  lemma NextIs(s: map<Pos, Slot>, dir: Dir, pr: Progress, k: nat, y: nat, n: nat)
    requires Increasing(pr.at) && pr.at != [] && Last(pr.at) < k && (Solid(s, dir, y, n) ==> k == y + |pr.at|)
    requires PassedBy(s, dir, pr.added, Last(pr.at), k)
    ensures NextAt(s, dir, pr, k, y, n)
  {}

  // Between two turns of the writing loop: length characters are left, and slot k comes next.
  ghost predicate Writing(s: map<Pos, Slot>, dir: Dir, pr: Progress, k: nat, y: nat, name: seq<nat>, checksum: nat, length: nat) {
    && Pieces(pr.contents, name, checksum) && |pr.at| <= PieceCount(|name|) && length == LengthLeft(name, |pr.at|)
    && InRow(s, dir, pr, y, PieceCount(|name|)) && NextAt(s, dir, pr, k, y, PieceCount(|name|)) && Grown(dir, pr, k)
  }

  ghost predicate Ready(d: Drive, s: map<Pos, Slot>, f: Fat, dir: Dir, pr: Progress, k: nat, c: nat, i: nat)
    requires d.Mounted()
    reads d, d.fat
  {
    Session(d, s, f, dir, pr) && Cursor(dir, pr, k, c, i) && FreeAt(d, Pos(c, i))
  }

  method WriteTurn(d: Drive, c: nat, i: nat, name: seq<nat>, length: nat, checksum: nat,
                   ghost s: map<Pos, Slot>, ghost f: Fat, ghost dir: Dir, ghost pr: Progress, ghost k: nat, ghost y: nat)
    returns (error: Error, c': nat, i': nat, left: nat, ghost pr': Progress, ghost k': nat)
    requires d.Mounted() && Ready(d, s, f, dir, pr, k, c, i)
    requires Writing(s, dir, pr, k, y, name, checksum, length) && length > 0
    modifies d.fat, d`freeCount, d`nextFree, d`slots
    ensures d.nextFree == old(d.nextFree) || d.nextFree >= CLUSTER_MIN_GOOD
    ensures Session(d, s, f, dir, pr') && Pieces(pr'.contents, name, checksum) && InRow(s, dir, pr', y, PieceCount(|name|))
    ensures error == NoError || error == Full(dir)
    ensures error == NoError ==>
              && Ready(d, s, f, dir, pr', k', c', i') && Writing(s, dir, pr', k', y, name, checksum, left)
              && pr'.at != [] && left < length && |pr'.at| == |pr.at| + 1
              && Room(d.slots, d.Fat(), Longer(dir, pr'.added), k') + 1 == old(Room(d.slots, d.Fat(), Longer(dir, pr.added), k))
    ensures error == NoError <==> old(Room(d.slots, d.Fat(), Longer(dir, pr.added), k)) > 1
  {
    hide Room, Session, InRow, Longer, FreeFrom, Spare, Solid, IsPiece, Increasing;
    left, pr' := FillPiece(d, c, i, name, length, checksum, s, f, dir, pr, k, y);
    PiecesAre(pr'.contents, name, checksum);
    error, c', i', pr', k' := PlaceNext(d, c, i, s, f, dir, pr', y, PieceCount(|name|));
  }

  // The long-name branch: all pieces, beginning at the cursor. They are followed by a free slot for the entry.
  method WriteName(d: Drive, c0: nat, i0: nat, name: seq<nat>, checksum: nat,
                   ghost s: map<Pos, Slot>, ghost f: Fat, ghost dir: Dir, ghost pr0: Progress, ghost y: nat)
    returns (error: Error, c: nat, i: nat, ghost pr: Progress, ghost k: nat)
    requires d.Mounted() && Ready(d, s, f, dir, pr0, y, c0, i0) && pr0.at == []
    requires Writing(s, dir, pr0, y, y, name, checksum, |name|)
    modifies d.fat, d`freeCount, d`nextFree, d`slots
    ensures d.nextFree == old(d.nextFree) || d.nextFree >= CLUSTER_MIN_GOOD
    ensures Session(d, s, f, dir, pr) && Pieces(pr.contents, name, checksum) && InRow(s, dir, pr, y, PieceCount(|name|))
    ensures error == NoError || error == Full(dir)
    ensures error == NoError ==>
              && Ready(d, s, f, dir, pr, k, c, i) && Writing(s, dir, pr, k, y, name, checksum, 0)
    ensures error == NoError <==> old(Room(d.slots, d.Fat(), Longer(dir, pr0.added), y)) > PieceCount(|name|)
  {
    hide Session, IsPiece, InRow, NextAt, Begins, Room;
    c, i, pr, k, error := c0, i0, pr0, y, NoError;
    var length: nat := |name|;
    ghost var room := Room(d.slots, d.Fat(), Longer(dir, pr.added), k);
    while length > 0
      invariant Ready(d, s, f, dir, pr, k, c, i) && error == NoError
      invariant d.nextFree == old(d.nextFree) || d.nextFree >= CLUSTER_MIN_GOOD
      invariant Writing(s, dir, pr, k, y, name, checksum, length)
      invariant Room(d.slots, d.Fat(), Longer(dir, pr.added), k) + |pr.at| == room
    {
      error, c, i, length, pr, k := WriteTurn(d, c, i, name, length, checksum, s, f, dir, pr, k, y);
      if error != NoError {
        return;
      }
    }
    RoomAtCursor(d, s, f, dir, pr, k, c, i);
  }

  lemma RoomAtCursor(d: Drive, s: map<Pos, Slot>, f: Fat, dir: Dir, pr: Progress, k: nat, c: nat, i: nat)
    requires d.Mounted() && Ready(d, s, f, dir, pr, k, c, i)
    ensures Room(d.slots, d.Fat(), Longer(dir, pr.added), k) > 0
  {}

  // What was written: for a short name the entry, for a long one its pieces and then the entry.
  ghost predicate Filed(contents: seq<Slot>, long: bool, name: seq<nat>, entry: Slot)
    requires entry.Entry?
  {
    && |contents| > 0 && contents[|contents| - 1] == entry
    && if long then HoldsName(contents[..|contents| - 1], name, Checksum(entry.name)) else |contents| == 1
  }

  /**
   * Where it was written: from where the search ended; a long name in consecutive slots exactly if no
   * slot in use lies in the way, and the directory grown only for a slot behind its old end, by no more
   * clusters than that slot needs.
   */
  ghost predicate Located(s: map<Pos, Slot>, dir: Dir, pr: Progress, long: bool, n: nat) {
    && pr.at != [] && Begins(s, dir, long, n, pr.at[0])
    && (long ==> (Consecutive(pr.at) <==> Solid(s, dir, pr.at[0], n)))
    && Grown(dir, pr, Last(pr.at)) && NoneSkipped(s, dir, pr)
  }

  lemma RowIsSolid(d: Drive, s: map<Pos, Slot>, f: Fat, dir: Dir, pr: Progress, n: nat)
    requires d.Mounted() && Session(d, s, f, dir, pr) && dir.Flat() <= Longer(dir, pr.added).Flat()
    requires |pr.at| == n + 1 && Consecutive(pr.at) && AllIn(s, dir)
    ensures Solid(s, dir, pr.at[0], n)
  {
    forall x | pr.at[0] <= x <= pr.at[0] + n && x < |dir.Flat()|
      ensures FreeIn(s, dir, x)
    {
      assert pr.at[x - pr.at[0]] == x;
      OldNotAdded(d, dir, pr.added, x);
    }
  }

  lemma OldNotAdded(d: Drive, dir: Dir, added: seq<nat>, x: nat)
    requires d.Mounted() && IsDir(d, Longer(dir, added)) && x < |dir.Flat()|
    ensures !InAdded(dir, added, dir.Flat()[x])
  {
    var all := dir.clusters + added;
    var j, i := ClusterOfPosition(dir.clusters, dir.perCluster, x);
    forall y | 0 <= y < |added|
      ensures added[y] != dir.clusters[j]
    {
      assert all[|dir.clusters| + y] == added[y] && all[j] == dir.clusters[j];
      assert !Longer(dir, added).FixedRoot();
      ChainDistinct(d.Fat(), all);
    }
  }

  // Everything but the entry itself is written.
  ghost predicate AtEntry(s: map<Pos, Slot>, dir: Dir, pr: Progress, k: nat, y: nat, long: bool, name: seq<nat>, checksum: nat) {
    && IsName(name) && InRow(s, dir, pr, y, PieceCount(|name|)) && NextAt(s, dir, pr, k, y, PieceCount(|name|))
    && Grown(dir, pr, k) && Begins(s, dir, long, PieceCount(|name|), y)
    && |pr.at| == |pr.contents|
    && if long then HoldsName(pr.contents, name, checksum) else pr.contents == []
  }

  lemma EntryPlaced(d: Drive, s: map<Pos, Slot>, f: Fat, dir: Dir, pr: Progress, k: nat, y: nat, long: bool,
                    name: seq<nat>, entry: Slot)
    requires d.Mounted() && entry.Entry? && AtEntry(s, dir, pr, k, y, long, name, Checksum(entry.name)) && AllIn(s, dir)
    requires Session(d, s, f, dir, Put(pr, k, entry))
    ensures Filed(Put(pr, k, entry).contents, long, name, entry)
    ensures Located(s, dir, Put(pr, k, entry), long, PieceCount(|name|))
  {
    hide *;
    FiledNow(s, dir, pr, k, y, long, name, entry);
    BegunThere(s, dir, pr, k, y, long, name, entry);
    if long && Consecutive(Put(pr, k, entry).at) {
      RowIsSolid(d, s, f, dir, Put(pr, k, entry), PieceCount(|name|));
    }
    LocatedNow(s, dir, Put(pr, k, entry), long, PieceCount(|name|));
  }

  lemma FiledNow(s: map<Pos, Slot>, dir: Dir, pr: Progress, k: nat, y: nat, long: bool, name: seq<nat>, entry: Slot)
    requires entry.Entry? && AtEntry(s, dir, pr, k, y, long, name, Checksum(entry.name))
    ensures Filed(Put(pr, k, entry).contents, long, name, entry)
    ensures long ==> |Put(pr, k, entry).at| == PieceCount(|name|) + 1
  {
    assert Put(pr, k, entry).contents[..|pr.contents|] == pr.contents;
  }

  lemma BegunThere(s: map<Pos, Slot>, dir: Dir, pr: Progress, k: nat, y: nat, long: bool, name: seq<nat>, entry: Slot)
    requires entry.Entry? && AtEntry(s, dir, pr, k, y, long, name, Checksum(entry.name))
    ensures var pr' := Put(pr, k, entry);
            && pr'.at != [] && Begins(s, dir, long, PieceCount(|name|), pr'.at[0]) && NoneSkipped(s, dir, pr')
            && (Solid(s, dir, pr'.at[0], PieceCount(|name|)) ==> Consecutive(pr'.at)) && Grown(dir, pr', Last(pr'.at))
            && dir.Flat() <= Longer(dir, pr'.added).Flat()
  {
    hide HoldsName, Begins, IsName, Solid, NoneSkipped, Longer;
    SkippedOne(s, dir, pr, k, entry);
  }

  lemma LocatedNow(s: map<Pos, Slot>, dir: Dir, pr: Progress, long: bool, n: nat)
    requires pr.at != [] && Begins(s, dir, long, n, pr.at[0]) && Grown(dir, pr, Last(pr.at)) && NoneSkipped(s, dir, pr)
    requires long ==> (Consecutive(pr.at) <==> Solid(s, dir, pr.at[0], n))
    ensures Located(s, dir, pr, long, n)
  {}

  // The entry itself, behind its pieces if it has any.
  method FillEntry(d: Drive, c: nat, i: nat, entry: Slot, long: bool, name: seq<nat>,
                   ghost s: map<Pos, Slot>, ghost f: Fat, ghost dir: Dir, ghost pr: Progress, ghost k: nat, ghost y: nat)
    returns (ghost pr': Progress)
    requires d.Mounted() && Ready(d, s, f, dir, pr, k, c, i) && AllIn(s, dir)
    requires entry.Entry? && AtEntry(s, dir, pr, k, y, long, name, Checksum(entry.name))
    modifies d`slots
    ensures Session(d, s, f, dir, pr') && pr'.at == pr.at + [k] && Cursor(dir, pr', k, c, i)
    ensures Filed(pr'.contents, long, name, entry) && Located(s, dir, pr', long, PieceCount(|name|))
    ensures d.slots == old(d.slots)[Pos(c, i) := entry]
  {
    pr' := Fill(d, c, i, entry, s, f, dir, pr, k);
    EntryPlaced(d, s, f, dir, pr, k, y, long, name, entry);
  }

  // What a successful creation leaves: the entry at its position, behind its pieces.
  ghost predicate Created(s: map<Pos, Slot>, dir: Dir, pr: Progress, long: bool, name: seq<nat>, entry: Slot, at: Option<Pos>)
    requires entry.Entry?
  {
    && pr.at != [] && Filed(pr.contents, long, name, entry) && Located(s, dir, pr, long, PieceCount(|name|))
    && at.Some? && Cursor(dir, pr, Last(pr.at), at.value.cluster, at.value.index)
  }

  lemma BeginWriting(s: map<Pos, Slot>, dir: Dir, pr: Progress, k: nat, name: seq<nat>, checksum: nat)
    requires IsName(name) && pr.at == [] && pr.contents == [] && dir.Flat() <= Longer(dir, pr.added).Flat() && Grown(dir, pr, k)
    ensures Writing(s, dir, pr, k, k, name, checksum, |name|)
  {}

  lemma EndWriting(s: map<Pos, Slot>, dir: Dir, pr: Progress, k: nat, y: nat, long: bool, name: seq<nat>, checksum: nat)
    requires Begins(s, dir, long, PieceCount(|name|), y) && IsName(name) && |pr.at| == |pr.contents|
    requires if long then Writing(s, dir, pr, k, y, name, checksum, 0) else k == y && Writing(s, dir, pr, k, k, name, checksum, |name|)
    ensures AtEntry(s, dir, pr, k, y, long, name, checksum)
  {}

  /**
   * How a creation ends. A long name needs room for its pieces and its entry from where the search ends.
   */
  ghost function Outcome(s: map<Pos, Slot>, f: Fat, dir: Dir, long: bool, n: nat): Error {
    if !long then PlaceOutcome(s, f, dir)
    else if exists y: nat :: Begins(s, dir, true, n, y) && Room(s, f, dir, y) > n then NoError
    else Full(dir)
  }

  lemma OutcomeIs(s: map<Pos, Slot>, f: Fat, dir: Dir, long: bool, n: nat, y: nat)
    requires Begins(s, dir, long, n, y)
    ensures !long ==> Outcome(s, f, dir, long, n) == PlaceOutcome(s, f, dir)
    ensures long ==> Outcome(s, f, dir, long, n) == if Room(s, f, dir, y) > n then NoError else Full(dir)
    ensures PlaceOutcome(s, f, dir) != NoError ==> Outcome(s, f, dir, long, n) == PlaceOutcome(s, f, dir)
  {
    forall z: nat | Begins(s, dir, long, n, z)
      ensures z == y
    {
      BeginsOnce(s, dir, long, n, y, z);
    }
    BeginsFree(s, dir, long, n, y);
    if y == |dir.Flat()| {
      assert FreeFrom(s, dir, y) == 0;
    }
  }

  // Which slots of a directory are free is all that matters.
  ghost predicate SameFree(s: map<Pos, Slot>, t: map<Pos, Slot>, dir: Dir) {
    forall x: nat :: FreeIn(s, dir, x) <==> FreeIn(t, dir, x)
  }

  lemma SameBegins(s: map<Pos, Slot>, t: map<Pos, Slot>, dir: Dir, long: bool, n: nat, y: nat)
    requires SameFree(s, t, dir) && Begins(s, dir, long, n, y)
    ensures Begins(t, dir, long, n, y) && FreeFrom(s, dir, y) == FreeFrom(t, dir, y)
  {
    forall x: nat
      ensures RunIn(s, dir, x, n) <==> RunIn(t, dir, x, n)
    {
      SameRun(s, t, dir, x, n);
      SameRun(t, s, dir, x, n);
    }
    FreeFromSame(s, t, dir, y);
  }

  lemma SameRun(s: map<Pos, Slot>, t: map<Pos, Slot>, dir: Dir, x: nat, n: nat)
    requires SameFree(s, t, dir)
    ensures RunIn(s, dir, x, n) ==> RunIn(t, dir, x, n)
  {}

  lemma SameInside(s: map<Pos, Slot>, t: map<Pos, Slot>, dir: Dir, n: nat)
    requires SameFree(s, t, dir) && StaysInside(s, dir, n)
    ensures StaysInside(t, dir, n)
  {
    if y: nat :| RunIn(s, dir, y, n) {
      SameRun(s, t, dir, y, n);
    }
  }

  lemma SameOutcome(s: map<Pos, Slot>, t: map<Pos, Slot>, f: Fat, dir: Dir, long: bool, n: nat)
    requires SameFree(s, t, dir)
    ensures Outcome(s, f, dir, long, n) == Outcome(t, f, dir, long, n)
  {
    forall y: nat
      ensures Begins(s, dir, true, n, y) && Room(s, f, dir, y) > n <==> Begins(t, dir, true, n, y) && Room(t, f, dir, y) > n
    {
      if Begins(s, dir, true, n, y) {
        SameBegins(s, t, dir, true, n, y);
      }
      if Begins(t, dir, true, n, y) {
        SameBegins(t, s, dir, true, n, y);
      }
    }
  }

  // However far a creation came: it began where the search ended, and passed by no free slot.
  ghost predicate Dense(s: map<Pos, Slot>, dir: Dir, long: bool, n: nat, pr: Progress) {
    NoneSkipped(s, dir, pr) && (pr.at != [] ==> Begins(s, dir, long, n, pr.at[0]))
  }

  // ---- directories without gaps ----

  // Nothing in use follows a never used slot.
  ghost predicate Compact(s: map<Pos, Slot>, dir: Dir)
    requires AllIn(s, dir)
  {
    forall k, l :: 0 <= k < l < |dir.Flat()| && s[dir.Flat()[k]].NeverUsed? ==> !Takes(s[dir.Flat()[l]], InUse)
  }

  lemma FreeBehind(s: map<Pos, Slot>, dir: Dir, k: nat, x: nat)
    requires AllIn(s, dir) && Compact(s, dir) && k <= x < |dir.Flat()| && s[dir.Flat()[k]].NeverUsed?
    ensures FreeIn(s, dir, x)
  {}

  lemma RunBehind(s: map<Pos, Slot>, dir: Dir, k: nat, y: nat, n: nat)
    requires AllIn(s, dir) && Compact(s, dir) && k <= y && k < |dir.Flat()| && s[dir.Flat()[k]].NeverUsed? && RunIn(s, dir, y, n)
    ensures RunIn(s, dir, k, n)
  {
    assert FreeIn(s, dir, y + n);
    forall x: nat | k <= x <= k + n
      ensures FreeIn(s, dir, x)
    {
      FreeBehind(s, dir, k, x);
    }
  }

  lemma BlockBehind(s: map<Pos, Slot>, dir: Dir, k: nat, y: nat)
    requires AllIn(s, dir) && Compact(s, dir) && k < y <= |dir.Flat()| && s[dir.Flat()[k]].NeverUsed?
    ensures FreeBefore(s, dir, y)
  {
    FreeBehind(s, dir, k, y - 1);
  }

  // A name begins behind no never used slot.
  lemma BeginsBehindNone(s: map<Pos, Slot>, dir: Dir, long: bool, n: nat, y: nat, k: nat)
    requires AllIn(s, dir) && Compact(s, dir) && Begins(s, dir, long, n, y) && k < y && k < |dir.Flat()|
    ensures !s[dir.Flat()[k]].NeverUsed?
  {
    if s[dir.Flat()[k]].NeverUsed? {
      hide Compact;
      FreeBehind(s, dir, k, k);
      BeginsFree(s, dir, long, n, y);
      if RunIn(s, dir, y, n) {
        RunBehind(s, dir, k, y, n);
      } else {
        BlockBehind(s, dir, k, y);
      }
    }
  }

  lemma {:induction false} BetweenTwo(at: seq<nat>, k: nat, w: nat) returns (v: nat)
    requires w < |at| && at[0] < k < at[w] && forall u :: 0 <= u <= w ==> at[u] != k
    ensures v + 1 < |at| && at[v] < k < at[v + 1]
  {
    if at[w - 1] < k {
      v := w - 1;
    } else {
      v := BetweenTwo(at, k, w - 1);
    }
  }

  // A slot before one that was written was in use, or is written too.
  lemma NoGapBefore(s: map<Pos, Slot>, dir: Dir, long: bool, n: nat, pr: Progress, k: nat, w: nat)
    requires AllIn(s, dir) && Compact(s, dir) && Dense(s, dir, long, n, pr) && dir.Flat() <= Longer(dir, pr.added).Flat()
    requires w < |pr.at| && k < pr.at[w] && k < |Longer(dir, pr.added).Flat()| && forall u :: 0 <= u < |pr.at| ==> pr.at[u] != k
    requires k < |dir.Flat()| ==> !InAdded(dir, pr.added, dir.Flat()[k])
    ensures !Before(s, dir, pr.added, Longer(dir, pr.added).Flat()[k]).NeverUsed?
  {
    if pr.at[0] < k {
      var v := BetweenTwo(pr.at, k, w);
      assert PassedBy(s, dir, pr.added, pr.at[v], pr.at[v + 1]);
      assert !WasFree(s, dir, pr.added, k);
    } else {
      BeginsFree(s, dir, long, n, pr.at[0]);
      BeginsBehindNone(s, dir, long, n, pr.at[0], k);
    }
  }

  /**
   * A creation, successful or not, leaves no gap in a directory that had none.
   */
  lemma CreationLeavesNoGap(d: Drive, s: map<Pos, Slot>, f: Fat, dir: Dir, long: bool, n: nat, pr: Progress)
    requires d.Mounted() && Session(d, s, f, dir, pr) && dir.Flat() <= Longer(dir, pr.added).Flat()
    requires AllIn(s, dir) && Compact(s, dir) && Dense(s, dir, long, n, pr) && forall w ::
      0 <= w < |pr.contents| ==> !pr.contents[w].NeverUsed?
    ensures Compact(d.slots, Longer(dir, pr.added))
  {
    var now := Longer(dir, pr.added);
    var flat := now.Flat();
    AtInside(d, s, f, dir, pr);
    forall k, l | 0 <= k < l < |flat| && d.slots[flat[k]].NeverUsed?
      ensures !Takes(d.slots[flat[l]], InUse)
    {
      NeverUsedStill(d, s, f, dir, pr, k);
      if w: nat :| w < |pr.at| && pr.at[w] == l {
        if k < |dir.Flat()| {
          OldNotAdded(d, dir, pr.added, k);
        }
        NoGapBefore(s, dir, long, n, pr, k, w);
      } else {
        SlotStill(d, s, f, dir, pr, l);
        GapStill(d, s, dir, pr.added, k, l);
      }
    }
  }

  lemma SlotStill(d: Drive, s: map<Pos, Slot>, f: Fat, dir: Dir, pr: Progress, x: nat)
    requires d.Mounted() && Session(d, s, f, dir, pr) && x < |Longer(dir, pr.added).Flat()|
              && forall w :: 0 <= w < |pr.at| ==> pr.at[w] != x
    ensures d.slots[Longer(dir, pr.added).Flat()[x]] == Before(s, dir, pr.added, Longer(dir, pr.added).Flat()[x])
  {
    hide Grew, IsDir, FreeCells;
    var flat := Longer(dir, pr.added).Flat();
    DirInjective(d, Longer(dir, pr.added));
    forall w | 0 <= w < |pr.at| && pr.at[w] < |flat|
      ensures flat[pr.at[w]] != flat[x]
    {
      assert pr.at[w] != x;
    }
  }

  lemma NeverUsedStill(d: Drive, s: map<Pos, Slot>, f: Fat, dir: Dir, pr: Progress, k: nat)
    requires d.Mounted() && Session(d, s, f, dir, pr) && k < |Longer(dir, pr.added).Flat()|
    requires d.slots[Longer(dir, pr.added).Flat()[k]].NeverUsed? && forall w ::
      0 <= w < |pr.contents| ==> !pr.contents[w].NeverUsed?
    ensures (forall w :: 0 <= w < |pr.at| ==> pr.at[w] != k) && Before(s, dir, pr.added, Longer(dir, pr.added).Flat()[k]).NeverUsed?
  {
    forall w | 0 <= w < |pr.at|
      ensures pr.at[w] != k
    {
      assert d.slots[Longer(dir, pr.added).Flat()[pr.at[w]]] == pr.contents[w];
    }
    SlotStill(d, s, f, dir, pr, k);
  }

  lemma GapStill(d: Drive, s: map<Pos, Slot>, dir: Dir, added: seq<nat>, k: nat, l: nat)
    requires d.Mounted() && IsDir(d, Longer(dir, added)) && AllIn(s, dir) && Compact(s, dir)
              && dir.Flat() <= Longer(dir, added).Flat()
    requires k < l < |Longer(dir, added).Flat()| && Before(s, dir, added, Longer(dir, added).Flat()[k]).NeverUsed?
    ensures !Takes(Before(s, dir, added, Longer(dir, added).Flat()[l]), InUse)
  {
    if l < |dir.Flat()| {
      OldNotAdded(d, dir, added, k);
    } else {
      AddedFree(d, s, dir, Progress(added, [], []), l);
    }
  }

  // Everything behind the checks: the search, the pieces of a long name, and the entry.
  method EnterName(d: Drive, c0: nat, long: bool, name: seq<nat>, entry: Slot, ghost dir: Dir)
    returns (error: Error, at: Option<Pos>, ghost pr: Progress)
    requires d.Mounted() && d.CountOk() && !d.readOnly && IsDir(d, dir) && Present(d, dir) && dir.clusters[0] == c0
    requires IsName(name) && entry.Entry?
    requires long ==> StaysInside(d.slots, dir, PieceCount(|name|))
    modifies d.fat, d`freeCount, d`nextFree, d`slots
    ensures d.nextFree == old(d.nextFree) || d.nextFree >= CLUSTER_MIN_GOOD
    ensures Session(d, old(d.slots), old(d.Fat()), dir, pr)
    ensures error == Outcome(old(d.slots), old(d.Fat()), dir, long, PieceCount(|name|))
    ensures error != NoError ==> at == None && OnlyPieces(pr.contents)
    ensures !long && error != NoError ==> pr == Nothing
    ensures Dense(old(d.slots), dir, long, PieceCount(|name|), pr)
    ensures error == NoError ==> Created(old(d.slots), dir, pr, long, name, entry, at)
  {
    hide Wrote, Solid, IsPiece, Located, Filed, Grew, IsDir, Begins, StaysInside, Writing, AtEntry, Room, Outcome,
        InRow, NoneSkipped;
    ghost var s, f := d.slots, d.Fat();
    var c, i;
    ghost var k;
    error, c, i, pr, k := FindPlace(d, c0, long, PieceCount(|name|), dir);
    at := None;
    OutcomeIs(s, f, dir, long, PieceCount(|name|), k);
    NothingDense(s, dir, long, PieceCount(|name|));
    if error != NoError {
      return;
    }
    ghost var y := k;
    BeginWriting(s, dir, pr, k, name, Checksum(entry.name));
    if long {
      var checksum := LfnChecksum(entry.name);
      error, c, i, pr, k := WriteName(d, c, i, name, checksum as nat, s, f, dir, pr, y);
      if error != NoError {
        PiecesAre(pr.contents, name, Checksum(entry.name));
        InRowDense(s, dir, pr, y, long, PieceCount(|name|));
        return;
      }
    }
    AsLong(d, s, f, dir, pr);
    EndWriting(s, dir, pr, k, y, long, name, Checksum(entry.name));
    pr := FillEntry(d, c, i, entry, long, name, s, f, dir, pr, k, y);
    assert Last(pr.at) == k;
    LocatedDense(s, dir, pr, long, PieceCount(|name|));
    at := Some(Pos(c, i));
  }

  lemma NothingDense(s: map<Pos, Slot>, dir: Dir, long: bool, n: nat)
    ensures Dense(s, dir, long, n, Nothing)
  {}

  lemma InRowDense(s: map<Pos, Slot>, dir: Dir, pr: Progress, y: nat, long: bool, n: nat)
    requires InRow(s, dir, pr, y, n) && Begins(s, dir, long, n, y)
    ensures Dense(s, dir, long, n, pr)
  {}

  lemma LocatedDense(s: map<Pos, Slot>, dir: Dir, pr: Progress, long: bool, n: nat)
    requires Located(s, dir, pr, long, n)
    ensures Dense(s, dir, long, n, pr)
  {}

  lemma AsLong(d: Drive, s: map<Pos, Slot>, f: Fat, dir: Dir, pr: Progress)
    requires d.Mounted() && Session(d, s, f, dir, pr)
    ensures |pr.at| == |pr.contents| && Increasing(pr.at)
  {}

  // The name lies in the first long enough run, slot after slot, and the directory did not grow.
  ghost predicate InFirstRun(s: map<Pos, Slot>, dir: Dir, pr: Progress, n: nat) {
    pr.at != [] && FirstRun(s, dir, pr.at[0], n) && Consecutive(pr.at) && pr.added == []
  }

  lemma FilesRow(s: map<Pos, Slot>, dir: Dir, pr: Progress, name: seq<nat>, entry: Slot, at: Option<Pos>)
    requires IsName(name) && entry.Entry? && Created(s, dir, pr, true, name, entry, at) && |pr.at| == |pr.contents|
    requires exists y: nat :: RunIn(s, dir, y, PieceCount(|name|))
    ensures InFirstRun(s, dir, pr, PieceCount(|name|))
  {
    var n := PieceCount(|name|);
    var y: nat :| RunIn(s, dir, y, n);
    assert FreeIn(s, dir, y) && FreeIn(s, dir, pr.at[0] + n);
    assert pr.at[n] == pr.at[0] + n;
  }

  /**
   * A directory that has a long enough run of free slots takes the name.
   */
  lemma RunFits(s: map<Pos, Slot>, f: Fat, dir: Dir, n: nat)
    requires exists y: nat :: RunIn(s, dir, y, n)
    ensures Outcome(s, f, dir, true, n) == NoError
  {
    var y: nat :| RunIn(s, dir, y, n);
    var first := LeastRun(s, dir, y, n);
    RunIsRoom(s, f, dir, first, n);
    assert FreeIn(s, dir, y) && Begins(s, dir, true, n, first);
  }

  lemma {:induction false} LeastRun(s: map<Pos, Slot>, dir: Dir, y: nat, n: nat) returns (first: nat)
    requires RunIn(s, dir, y, n)
    ensures FirstRun(s, dir, first, n)
  {
    if x: nat :| x < y && RunIn(s, dir, x, n) {
      first := LeastRun(s, dir, x, n);
    } else {
      first := y;
    }
  }

  lemma RunIsRoom(s: map<Pos, Slot>, f: Fat, dir: Dir, y: nat, n: nat)
    requires RunIn(s, dir, y, n)
    ensures FreeFrom(s, dir, y) > n
  {
    assert FreeIn(s, dir, y + n);
    FreeFromAll(s, dir, y, y + n + 1);
  }

  // A directory that cannot grow takes a long name exactly if it has a long enough run.
  lemma OnlyInRun(s: map<Pos, Slot>, f: Fat, dir: Dir, n: nat)
    requires dir.perCluster > 0 && Spare(f, dir) == 0
    ensures Outcome(s, f, dir, true, n) == NoError <==> exists y: nat :: RunIn(s, dir, y, n)
  {
    if y: nat :| Begins(s, dir, true, n, y) && Room(s, f, dir, y) > n {
      BeginsFree(s, dir, true, n, y);
      if !(exists x: nat :: RunIn(s, dir, x, n)) {
        BlockIsRun(s, dir, y, n);
      }
    }
    if exists y: nat :: RunIn(s, dir, y, n) {
      RunFits(s, f, dir, n);
    }
  }

  lemma {:induction false} BlockEnd(s: map<Pos, Slot>, dir: Dir, y: nat) returns (e: nat)
    requires FreeIn(s, dir, y) && OneBlock(s, dir, y)
    ensures y < e <= |dir.Flat()| && FreeRange(s, dir, y, e) && UsedRange(s, dir, e, |dir.Flat()|)
    decreases |dir.Flat()| - y
  {
    if FreeIn(s, dir, y + 1) {
      e := BlockEnd(s, dir, y + 1);
    } else {
      e := y + 1;
    }
  }

  // What a single block of free slots holds lies in a row.
  lemma BlockIsRun(s: map<Pos, Slot>, dir: Dir, y: nat, n: nat)
    requires FreeIn(s, dir, y) && OneBlock(s, dir, y) && FreeFrom(s, dir, y) > n
    ensures RunIn(s, dir, y, n)
  {
    var e := BlockEnd(s, dir, y);
    FreeFromAll(s, dir, y, e);
    FreeFromSkip(s, dir, e, |dir.Flat()|);
  }

  /**
   * MFS_Create_directory_entry: lookup is what the search for the name finds, shortOk whether the name
   * is a valid 8.3 name, and alias its padded 11-byte form or that of the generated short name.
   */
  method CreateEntry(d: Drive, c0: nat, lookup: Option<Pos>, shortOk: bool, name: seq<nat>, alias: seq<nat>, attr: bv8,
                     ghost dir: Dir)
    returns (error: Error, at: Option<Pos>, ghost pr: Progress)
    requires d.Mounted() && d.CountOk() && IsDir(d, dir) && Present(d, dir) && dir.clusters[0] == c0
    requires name == [] || IsName(name)
    requires !shortOk ==> StaysInside(d.slots, dir, PieceCount(|name|))
    modifies d.fat, d`freeCount, d`nextFree, d`slots
    ensures d.nextFree == old(d.nextFree) || d.nextFree >= CLUSTER_MIN_GOOD
    ensures d.CountOk()
    ensures name == [] ==> error == FileNotFound
    ensures name != [] && d.readOnly ==> error == WriteProtected
    ensures name != [] && !d.readOnly && lookup.Some? ==> error == FileExists
    ensures name != [] && !d.readOnly && lookup == None ==>
              && error == Outcome(old(d.slots), old(d.Fat()), dir, !shortOk, PieceCount(|name|))
              && Session(d, old(d.slots), old(d.Fat()), dir, pr)
              && (error != NoError ==> at == None && OnlyPieces(pr.contents) && (shortOk ==> pr == Nothing))
              && Dense(old(d.slots), dir, !shortOk, PieceCount(|name|), pr)
              && (error == NoError ==> Created(old(d.slots), dir, pr, !shortOk, name, Entry(alias, attr, 0, 0), at))
              && (!shortOk && (exists y: nat :: RunIn(old(d.slots), dir, y, PieceCount(|name|))) ==>
                   error == NoError && InFirstRun(old(d.slots), dir, pr, PieceCount(|name|)))
    ensures name == [] || d.readOnly || lookup.Some? ==>
              && d.Fat() == old(d.Fat()) && d.slots == old(d.slots)
              && at == if error == FileExists then lookup else None
  {
    hide Wrote, Solid, IsPiece, Located, Filed, Grew, IsDir, StaysInside, Outcome, Dense;
    error, at, pr := NoError, None, Nothing;
    if name == [] {
      error := FileNotFound;
    } else if d.readOnly {
      error := WriteProtected;
    } else if lookup.Some? {
      error, at := FileExists, lookup;
    } else {
      ghost var s, f, n := d.slots, d.Fat(), PieceCount(|name|);
      error, at, pr := EnterName(d, c0, !shortOk, name, Entry(alias, attr, 0, 0), dir);
      if !shortOk && exists y: nat :: RunIn(s, dir, y, n) {
        RunFits(s, f, dir, n);
        AsLong(d, s, f, dir, pr);
        FilesRow(s, dir, pr, name, Entry(alias, attr, 0, 0), at);
      }
    }
  }
}
