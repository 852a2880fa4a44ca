/**
 * Directories as slots along a cluster chain: stepping from slot to slot
 * (mfs/source/generic/mfs_dir_entry.c:598-658) and the search for a free slot
 * (mfs/source/generic/mfs_search.c:108-275 for an empty name).
 */
module DirSlots {
  import opened MfsTypes
  import opened FatChain
  import opened Drives

  // ---- the flat order of a directory ----

  ghost function ClusterPositions(c: nat, n: nat): (ps: seq<Pos>)
    ensures |ps| == n
  {
    seq(n, i requires 0 <= i => Pos(c, i))
  }

  ghost function Positions(clusters: seq<nat>, n: nat): (ps: seq<Pos>)
    decreases |clusters|
  {
    if clusters == [] then []
    else Positions(clusters[..|clusters| - 1], n) + ClusterPositions(clusters[|clusters| - 1], n)
  }

  // A directory: the clusters of its chain, or [0] for the fixed root, and how many slots each holds.
  datatype Dir = Dir(clusters: seq<nat>, perCluster: nat) {
    ghost function Flat(): seq<Pos> {
      Positions(clusters, perCluster)
    }

    predicate FixedRoot() {
      clusters == [0]
    }
  }

  // A directory in table f: the fixed root, or a whole chain.
  ghost predicate DirIn(d: Drive, f: Fat, dir: Dir)
    requires d.Mounted()
  {
    && dir.perCluster > 0
    && if dir.FixedRoot() then dir.perCluster == d.RootSlots()
       else IsChain(f, dir.clusters) && dir.perCluster == d.SlotsPerCluster()
  }

  ghost predicate IsDir(d: Drive, dir: Dir)
    requires d.Mounted()
    reads d.fat
  {
    DirIn(d, d.Fat(), dir)
  }

  // The slots of a directory are there.
  ghost predicate AllIn(s: map<Pos, Slot>, dir: Dir) {
    forall k :: 0 <= k < |dir.Flat()| ==> dir.Flat()[k] in s
  }

  ghost predicate Present(d: Drive, dir: Dir)
    reads d`slots
  {
    AllIn(d.slots, dir)
  }

  // The slots of the j-th cluster lie behind those of the clusters before it.
  lemma {:induction false} PositionsOfCluster(clusters: seq<nat>, n: nat, j: nat, i: nat)
    requires j < |clusters| && i < n
    ensures var base := |Positions(clusters[..j], n)|;
            && base + n <= |Positions(clusters, n)|
            && Positions(clusters, n)[base + i] == Pos(clusters[j], i)
            && |Positions(clusters[..j + 1], n)| == base + n
    decreases |clusters|
  {
    var front := clusters[..|clusters| - 1];
    assert clusters[..j + 1][..j] == clusters[..j];
    if j < |clusters| - 1 {
      PositionsOfCluster(front, n, j, i);
      assert front[..j] == clusters[..j];
      assert front[..j + 1] == clusters[..j + 1];
    } else {
      assert clusters[..j + 1] == clusters;
    }
  }

  // Every flat index is a slot of one cluster.
  lemma {:induction false} ClusterOfPosition(clusters: seq<nat>, n: nat, k: nat) returns (j: nat, i: nat)
    requires k < |Positions(clusters, n)|
    ensures j < |clusters| && i < n && k == |Positions(clusters[..j], n)| + i
    ensures Positions(clusters, n)[k] == Pos(clusters[j], i)
    decreases |clusters|
  {
    var front := clusters[..|clusters| - 1];
    var base := |Positions(front, n)|;
    if k < base {
      j, i := ClusterOfPosition(front, n, k);
      assert front[..j] == clusters[..j];
    } else {
      j, i := |clusters| - 1, k - base;
    }
  }

  // No slot occurs twice in the flat order.
  lemma FlatDistinct(clusters: seq<nat>, n: nat, k: nat, l: nat)
    requires Distinct(clusters) && k < l < |Positions(clusters, n)|
    ensures Positions(clusters, n)[k] != Positions(clusters, n)[l]
  {
    var j, i := ClusterOfPosition(clusters, n, k);
    var j', i' := ClusterOfPosition(clusters, n, l);
    if j == j' {
      assert i < i';
    }
  }

  // ---- stepping ----

  // MFS_Increment_dir_index; previous is left alone when the cluster does not change.
  method Increment(d: Drive, c: nat, i: nat, previous: nat) returns (error: Error, c': nat, i': nat, previous': nat)
    requires d.Mounted()
    ensures (c', i') == NextSlot(d, c, i)
    ensures error == if StepsOut(d, c, i) && !Good(d.Fat(), c) then InvalidClusterNumber else NoError
    ensures previous' == if c' != c && c' != CLUSTER_INVALID then c else previous
  {
    error := NoError;
    i', c' := i, c;
    i' := i' + 1;
    if i' % d.entriesPerSector == 0 {
      if c' != 0 {
        if i' / d.entriesPerSector >= d.sectorsPerCluster {
          error, c' := d.GetCluster(c');
          if error == NoError {
            i' := 0;
          }
        }
      } else {
        if i' >= d.rootEntries {
          i' := 0;
          c' := CLUSTER_INVALID;
        }
      }
    }
    previous' := if c' != c && c' != CLUSTER_INVALID then c else previous;
  }

  // The step leaves the cluster.
  ghost predicate StepsOut(d: Drive, c: nat, i: nat)
    requires d.Mounted()
  {
    c != 0 && (i + 1) % d.entriesPerSector == 0 && (i + 1) / d.entriesPerSector >= d.sectorsPerCluster
  }

  ghost function NextSlot(d: Drive, c: nat, i: nat): (nat, nat)
    requires d.Mounted()
    reads d.fat
  {
    if StepsOut(d, c, i) then (if Good(d.Fat(), c) then (d.Fat()[c], 0) else (CLUSTER_EOF, i + 1))
    else if c == 0 && (i + 1) % d.entriesPerSector == 0 && i + 1 >= d.rootEntries then (CLUSTER_INVALID, 0)
    else (c, i + 1)
  }

  lemma MulLess(x: int, y: int, n: int)
    requires n > 0
    ensures x < y <==> x * n < y * n
    ensures x <= y <==> x * n <= y * n
  {
    if x < y {
      Drive.MulMonotone(x + 1, y, n);
      assert (x + 1) * n == x * n + n;
    } else {
      Drive.MulMonotone(y, x, n);
      if x > y {
        Drive.MulMonotone(y + 1, x, n);
        assert (y + 1) * n == y * n + n;
      }
    }
  }

  // Only the last slot of a cluster steps out of it.
  lemma StepsOutAtEnd(d: Drive, c: nat, i: nat)
    requires d.Mounted() && c != 0 && i < d.SlotsPerCluster()
    ensures StepsOut(d, c, i) <==> i + 1 == d.SlotsPerCluster()
  {
    var n, e := i + 1, d.entriesPerSector;
    assert n == n / e * e + n % e;
    MulLess(d.sectorsPerCluster, n / e, e);
    MulLess(n / e, d.sectorsPerCluster, e);
    if n == d.SlotsPerCluster() {
      DivModExact(d.sectorsPerCluster, e);
    }
  }

  lemma DivModExact(q: nat, e: nat)
    requires e > 0
    ensures q * e / e == q && q * e % e == 0
  {
    var x := q * e;
    var k, r := x / e, x % e;
    assert x == k * e + r;
    assert (q - k) * e == q * e - k * e == r;
    if q - k >= 1 {
      Drive.MulMonotone(1, q - k, e);
    } else if q - k <= -1 {
      Drive.MulMonotone(q - k, -1, e);
    }
  }

  // ---- the walk over a whole directory ----

  datatype Walk = Walk(cluster: nat, index: nat, previous: nat)

  // n calls of MFS_Increment_dir_index from the first slot of cluster c.
  ghost function WalkFrom(d: Drive, c: nat, previous: nat, n: nat): Walk
    requires d.Mounted()
    reads d.fat
  {
    if n == 0 then Walk(c, 0, previous)
    else
      var w := WalkFrom(d, c, previous, n - 1);
      var (c', i') := NextSlot(d, w.cluster, w.index);
      Walk(c', i', if c' != w.cluster && c' != CLUSTER_INVALID then w.cluster else w.previous)
  }

  // One step leads from a slot to the next one in flat order, and from the last slot to EOF.
  lemma FlatNext(d: Drive, dir: Dir, k: nat)
    requires d.Mounted() && IsDir(d, dir) && !dir.FixedRoot() && k < |dir.Flat()|
    ensures var (c, i) := NextSlot(d, dir.Flat()[k].cluster, dir.Flat()[k].index);
            if k + 1 < |dir.Flat()| then dir.Flat()[k + 1] == Pos(c, i) else (c, i) == (CLUSTER_EOF, 0)
  {
    var ch, n := dir.clusters, dir.perCluster;
    var j, i := ClusterOfPosition(ch, n, k);
    StepsOutAtEnd(d, ch[j], i);
    PositionsOfCluster(ch, n, j, i);
    if i + 1 < n {
      PositionsOfCluster(ch, n, j, i + 1);
    } else if j + 1 < |ch| {
      assert d.Fat()[ch[j]] == ch[j + 1];
      PositionsOfCluster(ch, n, j + 1, 0);
    } else {
      assert ch[..j + 1] == ch;
    }
  }

  /**
   * On a well-formed chain the walk visits every slot exactly once, in flat order, and then reaches
   * EOF; once it has left the first cluster, previous is the chain predecessor of the cluster.
   */
  lemma {:induction false} WalkVisitsAll(d: Drive, dir: Dir, previous: nat, n: nat)
    requires d.Mounted() && IsDir(d, dir) && !dir.FixedRoot() && n <= |dir.Flat()|
    ensures var w := WalkFrom(d, dir.clusters[0], previous, n);
            && (if n < |dir.Flat()| then dir.Flat()[n] == Pos(w.cluster, w.index) else (w.cluster, w.index) == (CLUSTER_EOF, 0))
            && (w.cluster != dir.clusters[0] ==> Good(d.Fat(), w.previous) && d.Fat()[w.previous] == w.cluster)
            && (w.cluster == dir.clusters[0] ==> w.previous == previous)
    ensures n < |dir.Flat()| ==> forall m :: 0 <= m < n ==> dir.Flat()[m] != dir.Flat()[n]
  {
    var ch := dir.clusters;
    if n == 0 {
      PositionsOfCluster(ch, dir.perCluster, 0, 0);
    } else {
      WalkVisitsAll(d, dir, previous, n - 1);
      FlatNext(d, dir, n - 1);
      StepWithin(d, dir, n - 1);
    }
    ChainDistinct(d.Fat(), ch);
    if n < |dir.Flat()| {
      forall m | 0 <= m < n
        ensures dir.Flat()[m] != dir.Flat()[n]
      {
        FlatDistinct(ch, dir.perCluster, m, n);
      }
    }
  }

  // A step changes the cluster only along a link of the table, and never back to the first cluster.
  lemma StepWithin(d: Drive, dir: Dir, k: nat)
    requires d.Mounted() && IsDir(d, dir) && !dir.FixedRoot() && k < |dir.Flat()|
    ensures var p := dir.Flat()[k];
            var (c, i) := NextSlot(d, p.cluster, p.index);
            && Good(d.Fat(), p.cluster) && c != CLUSTER_INVALID
            && (c != p.cluster ==> d.Fat()[p.cluster] == c && c != dir.clusters[0])
  {
    var ch := dir.clusters;
    var j, i := ClusterOfPosition(ch, dir.perCluster, k);
    StepsOutAtEnd(d, ch[j], i);
    ChainDistinct(d.Fat(), ch);
    assert j < |ch| - 1 ==> d.Fat()[ch[j]] == ch[j + 1];
  }

  ghost function RoundUp(n: nat, e: nat): nat
    requires e > 0
  {
    (n + e - 1) / e * e
  }

  lemma RoundUpBounds(r: nat, e: nat)
    requires e > 0
    ensures r <= RoundUp(r, e) < r + e && RoundUp(r, e) % e == 0
    ensures RoundUp(r, e) == r <==> r % e == 0
  {
    var x := r + e - 1;
    assert x == x / e * e + x % e;
    DivModExact(x / e, e);
    if r % e == 0 {
      MultiplesApart(r, RoundUp(r, e), e);
    }
  }

  // Two multiples less than one step apart are equal.
  lemma MultiplesApart(x: nat, y: nat, e: nat)
    requires e > 0 && x % e == 0 && y % e == 0 && x <= y < x + e
    ensures x == y
  {
    assert x == x / e * e && y == y / e * e;
    assert (x / e + 1) * e == x + e;
    MulLess(y / e, x / e + 1, e);
    MulLess(x / e, y / e, e);
  }

  // Below the rounded size, the root directory is left nowhere.
  lemma RootEdge(r: nat, e: nat, n: nat)
    requires e > 0 && n <= RoundUp(r, e)
    ensures n % e == 0 && n >= r <==> n == RoundUp(r, e)
  {
    RoundUpBounds(r, e);
    if n % e == 0 && n >= r {
      MultiplesApart(n, RoundUp(r, e), e);
    }
  }

  /**
   * In the fixed root the walk visits the root entries rounded up to whole sectors and then steps to
   * CLUSTER_INVALID: it visits exactly the root entries iff they fill whole sectors.
   */
  lemma {:induction false} RootWalk(d: Drive, previous: nat, n: nat)
    requires d.Mounted() && d.rootEntries > 0 && n <= RoundUp(d.rootEntries, d.entriesPerSector)
    ensures var w := WalkFrom(d, 0, previous, n);
            (w.cluster, w.index) == if n < RoundUp(d.rootEntries, d.entriesPerSector) then (0, n) else (CLUSTER_INVALID, 0)
    ensures RoundUp(d.rootEntries, d.entriesPerSector) == d.rootEntries <==> d.rootEntries % d.entriesPerSector == 0
  {
    RoundUpBounds(d.rootEntries, d.entriesPerSector);
    if n > 0 {
      RootWalk(d, previous, n - 1);
      RootEdge(d.rootEntries, d.entriesPerSector, n);
    }
  }

  // ---- the search for a slot ----

  // What MFS_Find_directory_entry looks for when it is given no name to compare: a slot to write to (an
  // empty name), a piece of a long name (no name, MFS_ATTR_LFN), or anything in use (no name, MFS_ATTR_ANY).
  datatype Want = Space | LongPart | InUse

  predicate Takes(s: Slot, want: Want) {
    match want
    case Space => s.Free()
    case LongPart => s.Piece?
    case InUse => s.Piece? || s.Entry?
  }

  // The search passes a slot by; a never used slot ends the search for anything in use.
  predicate Skips(s: Slot, want: Want) {
    !Takes(s, want) && (want != Space ==> !s.NeverUsed?)
  }

  // The flat index at which a search from k on ends.
  ghost function FirstHalt(slots: map<Pos, Slot>, dir: Dir, want: Want, k: nat): (y: nat)
    requires AllIn(slots, dir) && k <= |dir.Flat()|
    ensures k <= y <= |dir.Flat()|
    ensures y < |dir.Flat()| ==> !Skips(slots[dir.Flat()[y]], want)
    ensures forall x :: k <= x < y ==> Skips(slots[dir.Flat()[x]], want)
    decreases |dir.Flat()| - k
  {
    if k == |dir.Flat()| || !Skips(slots[dir.Flat()[k]], want) then k else FirstHalt(slots, dir, want, k + 1)
  }

  /**
   * Where a search ends: at a never used slot, whatever is looked for, at a deleted one if a slot to write to
   * is, at a piece or at an entry if one is.
   */
  lemma SearchEnds(slots: map<Pos, Slot>, dir: Dir, want: Want, k: nat, x: nat)
    requires AllIn(slots, dir) && k <= x < |dir.Flat()|
    ensures var s := slots[dir.Flat()[x]];
            x <= FirstHalt(slots, dir, want, k) ==>
              (x == FirstHalt(slots, dir, want, k) <==>
                s.NeverUsed? || (if want == Space then s.Deleted? else s.Piece? || (want == InUse && s.Entry?)))
    ensures x == FirstHalt(slots, dir, want, k) ==>
              (Takes(slots[dir.Flat()[x]], want) <==> want == Space || !slots[dir.Flat()[x]].NeverUsed?)
  {}

  ghost predicate Halts(d: Drive, want: Want, p: Pos)
    requires p in d.slots
    reads d`slots
  {
    !Skips(d.slots[p], want)
  }

  ghost predicate FreeAt(d: Drive, p: Pos)
    requires p in d.slots
    reads d`slots
  {
    d.slots[p].Free()
  }

  // The innermost loop of MFS_Find_directory_entry: the slots of one sector, which starts at index base.
  method ScanSector(d: Drive, want: Want, c: nat, base: nat, start: nat) returns (halted: bool, index: nat)
    requires base <= start < base + d.entriesPerSector
    requires forall x :: base <= x < base + d.entriesPerSector ==> Pos(c, x) in d.slots
    ensures start <= index <= base + d.entriesPerSector
    ensures forall x :: start <= x < index ==> !Halts(d, want, Pos(c, x))
    ensures halted ==> index < base + d.entriesPerSector && Halts(d, want, Pos(c, index))
    ensures !halted ==> index == base + d.entriesPerSector
  {
    halted, index := false, start;
    var i := start - base;
    while i < d.entriesPerSector
      invariant i <= d.entriesPerSector && start <= index == base + i && !halted
      invariant forall x :: start <= x < index ==> !Halts(d, want, Pos(c, x))
    {
      if !Skips(d.slots[Pos(c, base + i)], want) {
        halted := true;
        break;
      }
      index := index + 1;
      i := i + 1;
    }
  }

  // base is where sector number s begins, and a cluster of so many sectors holds n slots.
  ghost predicate SectorAt(s: nat, base: nat, sectors: nat, n: nat, e: nat) {
    base == s * e && n == sectors * e
  }

  lemma SectorBounds(s: nat, base: nat, sectors: nat, n: nat, e: nat)
    requires e > 0 && SectorAt(s, base, sectors, n, e)
    ensures SectorAt(s + 1, base + e, sectors, n, e)
    ensures s < sectors <==> base + e <= n
    ensures s >= sectors <==> base >= n
  {
    assert (s + 1) * e == s * e + e;
    MulLess(s + 1, sectors, e);
    MulLess(sectors, s, e);
  }

  // How many sectors the search can read: in the root, those before the data area.
  function SectorsOf(d: Drive, c: nat): nat
    requires d.entriesPerSector > 0
  {
    if c == 0 then d.rootEntries / d.entriesPerSector else d.sectorsPerCluster
  }

  // INDEX_TO_SECTOR, and the index that sector starts with.
  method SectorOf(start: nat, e: nat, ghost sectors: nat, ghost n: nat) returns (sector: nat, base: nat)
    requires e > 0 && n == sectors * e
    ensures base <= start < base + e && SectorAt(sector, base, sectors, n, e)
  {
    sector := start / e;
    base := start - start % e;
  }

  // The two inner loops of MFS_Find_directory_entry: the sectors of one cluster from index start on.
  // noSector is set where the root directory ends.
  method ScanCluster(d: Drive, want: Want, c: nat, start: nat, sectors: nat, ghost n: nat)
    returns (halted: bool, index: nat, noSector: bool)
    requires d.entriesPerSector > 0 && n == sectors * d.entriesPerSector
    requires c != 0 ==> sectors == d.sectorsPerCluster
    requires forall x :: 0 <= x < n ==> Pos(c, x) in d.slots
    ensures start <= index
    ensures forall x :: start <= x < index && x < n ==> !Halts(d, want, Pos(c, x))
    ensures halted ==> index < n && Halts(d, want, Pos(c, index))
    ensures !halted ==> index == if start < n then n else start
    ensures noSector <==> c == 0 && !halted
  {
    var e := d.entriesPerSector;
    index := start;
    halted, noSector := false, false;
    var sector, base := SectorOf(start, e, sectors, n);
    while (c == 0 || sector < d.sectorsPerCluster) && !halted
      invariant start <= index && !noSector && 0 <= sector && 0 <= base && SectorAt(sector, base, sectors, n, e)
      invariant !halted ==> base <= index < base + e && (index == start || (index == base && base <= n))
      invariant halted ==> index < n && Halts(d, want, Pos(c, index))
      invariant forall x :: start <= x < index && x < n ==> !Halts(d, want, Pos(c, x))
      decreases if halted then 0 else if sector < sectors then sectors - sector + 1 else 1
    {
      SectorBounds(sector, base, sectors, n, e);
      if c == 0 && sector >= sectors {
        noSector := true;
        break;
      }
      halted, index := ScanSector(d, want, c, base, index);
      sector, base := sector + 1, base + e;
    }
    SectorBounds(sector, base, sectors, n, e);
  }

  // Past the last slot, the index runs on for one more sector before the step leaves the cluster.
  lemma OverrunStep(d: Drive, c: nat, index: nat)
    requires d.Mounted() && c != 0 && d.SlotsPerCluster() <= index < d.SlotsPerCluster() + d.entriesPerSector
    ensures StepsOut(d, c, index) <==> index + 1 == d.SlotsPerCluster() + d.entriesPerSector
  {
    var e, s := d.entriesPerSector, d.sectorsPerCluster;
    DivModExact(s, e);
    DivModExact(s + 1, e);
    assert (s + 1) * e == s * e + e;
    assert index + 1 == (index + 1) / e * e + (index + 1) % e;
    MulLess(s, (index + 1) / e, e);
    MulLess((index + 1) / e, s, e);
    if (index + 1) % e == 0 {
      MultiplesApart(index + 1, s * e + e, e);
    }
  }

  // A directory whose slots from k on, up to kk, the search passes by.
  ghost predicate Skipped(d: Drive, want: Want, dir: Dir, k: nat, kk: nat)
    requires Present(d, dir) && kk <= |dir.Flat()|
    reads d`slots
  {
    forall x :: k <= x < kk ==> !Halts(d, want, dir.Flat()[x])
  }

  // The slot with flat index x is free.
  ghost predicate FreeIn(s: map<Pos, Slot>, dir: Dir, x: nat) {
    x < |dir.Flat()| && dir.Flat()[x] in s && s[dir.Flat()[x]].Free()
  }

  // The slots from k on, up to kk, are all in use.
  ghost predicate UsedRange(s: map<Pos, Slot>, dir: Dir, k: nat, kk: nat) {
    forall x: nat :: k <= x < kk ==> !FreeIn(s, dir, x)
  }

  // kk is where cluster j and index i stand in the flat order; past the cluster's end, the next cluster's start.
  ghost predicate Stands(dir: Dir, j: nat, i: nat, kk: nat) {
    && j < |dir.clusters|
    && kk == |Positions(dir.clusters[..j], dir.perCluster)| + (if i < dir.perCluster then i else dir.perCluster)
  }

  lemma ClusterPresent(d: Drive, dir: Dir, j: nat)
    requires Present(d, dir) && j < |dir.clusters|
    ensures forall x :: 0 <= x < dir.perCluster ==> Pos(dir.clusters[j], x) in d.slots
  {
    forall x | 0 <= x < dir.perCluster
      ensures Pos(dir.clusters[j], x) in d.slots
    {
      PositionsOfCluster(dir.clusters, dir.perCluster, j, x);
      assert dir.Flat()[|Positions(dir.clusters[..j], dir.perCluster)| + x] == Pos(dir.clusters[j], x);
    }
  }

  // Scanning cluster j from i to i' in the cluster is scanning the flat order.
  lemma ScannedRange(d: Drive, want: Want, dir: Dir, j: nat, i: nat, i': nat, kk: nat)
    requires Present(d, dir) && Stands(dir, j, i, kk) && i <= i'
    requires forall x :: i <= x < i' && x < dir.perCluster ==>
      Pos(dir.clusters[j], x) in d.slots && !Halts(d, want, Pos(dir.clusters[j], x))
    ensures var kk' := kk + (if i >= dir.perCluster then 0 else if i' < dir.perCluster then i' - i else dir.perCluster - i);
            && Stands(dir, j, i', kk') && kk' <= |dir.Flat()| && Skipped(d, want, dir, kk, kk')
            && (i' < dir.perCluster ==> kk' < |dir.Flat()| && dir.Flat()[kk'] == Pos(dir.clusters[j], i'))
  {
    hide Positions, Skips, Takes;
    var n, base := dir.perCluster, |Positions(dir.clusters[..j], dir.perCluster)|;
    if n > 0 {
      PositionsOfCluster(dir.clusters, n, j, if i' < n then i' else n - 1);
    } else {
      ZeroPerCluster(dir.clusters);
      ZeroPerCluster(dir.clusters[..j]);
    }
    forall x | kk <= x < base + (if i' < n then i' else n)
      ensures !Halts(d, want, dir.Flat()[x])
    {
      PositionsOfCluster(dir.clusters, n, j, x - base);
    }
  }

  lemma {:induction false} ZeroPerCluster(clusters: seq<nat>)
    ensures Positions(clusters, 0) == []
    decreases |clusters|
  {
    if clusters != [] {
      ZeroPerCluster(clusters[..|clusters| - 1]);
    }
  }

  // Leaving cluster j stands at the start of the next one, or at the end of the directory.
  lemma NextCluster(d: Drive, dir: Dir, j: nat, i: nat, kk: nat)
    requires d.Mounted() && IsDir(d, dir) && !dir.FixedRoot() && Stands(dir, j, i, kk) && i >= dir.perCluster
    ensures j + 1 < |dir.clusters| ==> d.Fat()[dir.clusters[j]] == dir.clusters[j + 1] && Stands(dir, j + 1, 0, kk)
    ensures j + 1 == |dir.clusters| ==> d.Fat()[dir.clusters[j]] == CLUSTER_EOF && kk == |dir.Flat()|
  {
    PositionsOfCluster(dir.clusters, dir.perCluster, j, 0);
    assert j + 1 == |dir.clusters| ==> dir.clusters[..j + 1] == dir.clusters;
  }

  // Where a search stands between two turns of its outer loop: still in the directory with everything
  // up to kk passed by, or past its end.
  ghost predicate Searching(d: Drive, want: Want, dir: Dir, k: nat, kk: nat, j: nat, c: nat, i: nat, hasEntry: bool)
    requires d.Mounted()
    reads d`slots
  {
    && Present(d, dir) && k <= kk <= |dir.Flat()| && Skipped(d, want, dir, k, kk)
    && Stands(dir, j, i, kk) && c == dir.clusters[j]
    && i < dir.perCluster + d.entriesPerSector && (i < dir.perCluster || (hasEntry && c != 0))
  }

  // The search has halted at kk.
  ghost predicate HaltedAt(d: Drive, want: Want, dir: Dir, k: nat, kk: nat, c: nat, i: nat)
    reads d`slots
  {
    && Present(d, dir) && k <= kk < |dir.Flat()| && Skipped(d, want, dir, k, kk)
    && dir.Flat()[kk] == Pos(c, i) && Halts(d, want, Pos(c, i))
  }

  ghost predicate RanOut(d: Drive, want: Want, dir: Dir, k: nat)
    reads d`slots
  {
    Present(d, dir) && Skipped(d, want, dir, k, |dir.Flat()|)
  }

  // First half of a turn: scan the sectors of the current cluster.
  method SearchCluster(d: Drive, want: Want, c: nat, i: nat, hadEntry: bool, ghost dir: Dir, ghost k: nat,
      ghost kk: nat, ghost j: nat)
    returns (halted: bool, i': nat, hasEntry: bool, ghost kk': nat)
    requires d.Mounted() && IsDir(d, dir) && Searching(d, want, dir, k, kk, j, c, i, hadEntry)
    ensures halted ==> HaltedAt(d, want, dir, k, kk', c, i') && Stands(dir, j, i', kk')
    ensures !halted ==> i' >= dir.perCluster && kk' >= kk && (if c == 0 then !hasEntry && RanOut(d, want, dir, k)
                       else hasEntry && Searching(d, want, dir, k, kk', j, c, i', true) && i' == if i < dir.perCluster then dir.perCluster else i)
  {
    ClusterPresent(d, dir, j);
    var noSector;
    var sectors := SectorsOf(d, c);
    halted, i', noSector := ScanCluster(d, want, c, i, sectors, dir.perCluster);
    hasEntry := !noSector;
    ScannedRange(d, want, dir, j, i, i', kk);
    kk' := kk + (if i >= dir.perCluster then 0 else if i' < dir.perCluster then i' - i else dir.perCluster - i);
    if c == 0 {
      assert dir.clusters[..j + 1] == dir.clusters;
      PositionsOfCluster(dir.clusters, dir.perCluster, j, 0);
    }
  }

  // Second half: step on, past the overrun and along the chain.
  method SearchNext(d: Drive, want: Want, c: nat, i: nat, previous: nat, ghost dir: Dir, ghost k: nat, ghost kk: nat,
      ghost j: nat)
    returns (error: Error, c': nat, i': nat, previous': nat, ghost j': nat)
    requires d.Mounted() && IsDir(d, dir) && !dir.FixedRoot()
    requires i >= dir.perCluster && Searching(d, want, dir, k, kk, j, c, i, true)
    ensures error == NoError
    ensures c' == CLUSTER_EOF || c' == CLUSTER_INVALID ==> RanOut(d, want, dir, k)
    ensures c' != CLUSTER_EOF && c' != CLUSTER_INVALID ==>
              && Searching(d, want, dir, k, kk, j', c', i', true) && ((j' == j && i' > i) || j' == j + 1)
              && previous' == if j' == j then previous else c
  {
    OverrunStep(d, c, i);
    NextCluster(d, dir, j, i, kk);
    error, c', i', previous' := Increment(d, c, i, previous);
    j' := if i + 1 == dir.perCluster + d.entriesPerSector then j + 1 else j;
    if j' == j + 1 && j' < |dir.clusters| {
      NoRepeat(d.Fat(), dir.clusters, j, j + 1);
    }
  }

  // The cluster before the j-th one, as a search that began in cluster j0 knows it.
  ghost function PreviousOf(dir: Dir, previous: nat, j0: nat, j: nat): nat {
    if j == j0 || j == 0 || j > |dir.clusters| then previous else dir.clusters[j - 1]
  }

  /**
   * MFS_Find_directory_entry without a name to compare: it ends at the first slot at or after the given
   * one, in flat order, that it does not pass by. If it takes that slot, it hands out where it lies and the
   * cluster before; if there is none, or a never used slot ends the search, everything is handed back
   * unchanged.
   */
  method FindSlot(d: Drive, want: Want, c: nat, i: nat, previous: nat, ghost dir: Dir, ghost j: nat, ghost k: nat)
    returns (found: bool, c': nat, i': nat, previous': nat, ghost j': nat, ghost k': nat)
    requires d.Mounted() && IsDir(d, dir) && Present(d, dir)
    requires k < |dir.Flat()| && dir.Flat()[k] == Pos(c, i) && i < dir.perCluster && Stands(dir, j, i, k)
    ensures k' == FirstHalt(d.slots, dir, want, k)
    ensures var y := FirstHalt(d.slots, dir, want, k);
            && (found <==> y < |dir.Flat()| && Takes(d.slots[dir.Flat()[y]], want))
            && (found ==> dir.Flat()[y] == Pos(c', i'))
    ensures found ==>
              && i' < dir.perCluster && Stands(dir, j', i', k') && j <= j'
              && previous' == PreviousOf(dir, previous, j, j')
    ensures !found ==> c' == c && i' == i && previous' == previous && j' == j
  {
    PositionsOfCluster(dir.clusters, dir.perCluster, j, i);
    var cluster: nat, index: nat, before := c, i, previous;
    j', k' := j, k;
    var hasEntry, going, halted := false, true, false;
    assert Searching(d, want, dir, k, k', j', cluster, index, hasEntry);
    hide Searching, HaltedAt, RanOut, Stands, IsDir, Skipped;
    while going
      invariant going ==> !halted && Searching(d, want, dir, k, k', j', cluster, index, hasEntry)
      invariant !going ==> if halted then HaltedAt(d, want, dir, k, k', cluster, index)
                && Stands(dir, j', index, k') else RanOut(d, want, dir, k)
      invariant going || halted ==> j <= j' < |dir.clusters| && before == PreviousOf(dir, previous, j, j')
      decreases going, |dir.clusters| - j', dir.perCluster + d.entriesPerSector - index
    {
      SearchingBounds(d, want, dir, k, k', j', cluster, index, hasEntry);
      halted, index, hasEntry, k' := SearchCluster(d, want, cluster, index, hasEntry, dir, k, k', j');
      going := !halted && hasEntry;
      if going {
        SearchingBounds(d, want, dir, k, k', j', cluster, index, hasEntry);
        var error;
        error, cluster, index, before, j' := SearchNext(d, want, cluster, index, before, dir, k, k', j');
        going := error == NoError && cluster != CLUSTER_EOF && cluster != CLUSTER_INVALID;
        if going {
          SearchingBounds(d, want, dir, k, k', j', cluster, index, hasEntry);
        }
      }
    }
    if halted {
      HaltedThere(d, want, dir, k, k', cluster, index);
    } else {
      k' := |dir.Flat()|;
      NoneThere(d, want, dir, k);
    }
    found := halted && Takes(d.slots[Pos(cluster, index)], want);
    FirstHaltIs(d, want, dir, k, k');
    if found {
      HaltsWithin(dir, j', index, k', cluster);
      c', i', previous' := cluster, index, before;
    } else {
      c', i', previous', j' := c, i, previous, j;
    }
  }

  lemma SearchingBounds(d: Drive, want: Want, dir: Dir, k: nat, kk: nat, j: nat, c: nat, i: nat, hasEntry: bool)
    requires d.Mounted() && Searching(d, want, dir, k, kk, j, c, i, hasEntry)
    ensures j < |dir.clusters| && c == dir.clusters[j] && i < dir.perCluster + d.entriesPerSector
    ensures i < dir.perCluster || c != 0
  {}

  lemma HaltedThere(d: Drive, want: Want, dir: Dir, k: nat, kk: nat, c: nat, i: nat)
    requires HaltedAt(d, want, dir, k, kk, c, i)
    ensures Present(d, dir) && k <= kk < |dir.Flat()| && Skipped(d, want, dir, k, kk)
    ensures dir.Flat()[kk] == Pos(c, i) && Pos(c, i) in d.slots && Halts(d, want, Pos(c, i))
  {}

  lemma NoneThere(d: Drive, want: Want, dir: Dir, k: nat)
    requires RanOut(d, want, dir, k)
    ensures Present(d, dir) && Skipped(d, want, dir, k, |dir.Flat()|)
  {}

  lemma FirstHaltIs(d: Drive, want: Want, dir: Dir, k: nat, y: nat)
    requires Present(d, dir) && k <= y <= |dir.Flat()| && Skipped(d, want, dir, k, y)
    requires y < |dir.Flat()| ==> Halts(d, want, dir.Flat()[y])
    ensures FirstHalt(d.slots, dir, want, k) == y
  {
    var h := FirstHalt(d.slots, dir, want, k);
    assert h < |dir.Flat()| ==> Halts(d, want, dir.Flat()[h]);
  }

  lemma HaltsWithin(dir: Dir, j: nat, i: nat, k: nat, c: nat)
    requires k < |dir.Flat()| && dir.Flat()[k] == Pos(c, i) && Stands(dir, j, i, k)
    ensures i < dir.perCluster
  {
    var j', i' := ClusterOfPosition(dir.clusters, dir.perCluster, k);
  }

  // The first free slot from flat index k on is kk.
  ghost predicate Hit(s: map<Pos, Slot>, dir: Dir, k: nat, kk: nat, c: nat, i: nat) {
    k <= kk && UsedRange(s, dir, k, kk) && FreeIn(s, dir, kk) && dir.Flat()[kk] == Pos(c, i)
  }

  /**
   * MFS_Find_directory_entry for an empty name: the first free slot at or after the given one, in flat
   * order; if there is none, the cluster and index are handed back unchanged.
   */
  method FindFree(d: Drive, c: nat, i: nat, ghost dir: Dir, ghost k: nat)
    returns (found: bool, c': nat, i': nat, ghost k': nat)
    requires d.Mounted() && IsDir(d, dir) && Present(d, dir)
    requires k < |dir.Flat()| && dir.Flat()[k] == Pos(c, i)
    ensures found ==> Hit(d.slots, dir, k, k', c', i')
    ensures !found ==> UsedRange(d.slots, dir, k, |dir.Flat()|) && c' == c && i' == i && k' == |dir.Flat()|
    ensures found <==> exists x :: k <= x && FreeIn(d.slots, dir, x)
  {
    ghost var j: nat, i0 := ClusterOfPosition(dir.clusters, dir.perCluster, k);
    var previous;
    ghost var j';
    found, c', i', previous, j', k' := FindSlot(d, Space, c, i, CLUSTER_INVALID, dir, j, k);
    forall x | k <= x < k'
      ensures !FreeIn(d.slots, dir, x)
    {
      assert Skips(d.slots[dir.Flat()[x]], Space);
    }
    if found {
      assert FreeIn(d.slots, dir, k');
    }
  }
}
