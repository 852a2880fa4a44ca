/**
 * Cluster allocation (mfs/source/generic/mfs_cluster.c): finding, releasing and chaining clusters.
 */
module Cluster {
  import opened MfsTypes
  import opened FatChain
  import opened Drives
  import opened DataSector

  // ---- next-fit search ----

  // r is the first unused cell at or after start, going around the table; INVALID if there is none.
  ghost predicate IsNextFree(f: Fat, start: nat, r: nat) {
    if r == CLUSTER_INVALID then start < CLUSTER_MIN_GOOD || forall c: nat :: !Unused(f, c)
    else
      && start >= CLUSTER_MIN_GOOD && Unused(f, r)
      && (forall c :: start <= c < |f| && (r < start || c < r) ==> !Unused(f, c))
      && (r < start ==> forall c: nat :: c < r ==> !Unused(f, c))
  }

  /**
   * MFS_Find_unused_cluster_from: the next free cluster, or INVALID. A start below the first good
   * cluster finds nothing, whatever is free.
   */
  method FindUnused(d: Drive, start: nat) returns (c: nat)
    requires d.Mounted()
    modifies d`nextFree
    ensures d.readOnly ==> c == CLUSTER_INVALID
    ensures !d.readOnly ==> IsNextFree(d.Fat(), start, c)
    ensures d.nextFree == if c == CLUSTER_INVALID then old(d.nextFree) else c
  {
    if d.readOnly {
      return CLUSTER_INVALID;
    }
    var last := d.LastCluster();
    c := start;
    while c <= last
      invariant start <= c
      invariant start < CLUSTER_MIN_GOOD ==> c == start
      invariant d.nextFree == old(d.nextFree)
      invariant forall k :: start <= k < c ==> !Unused(d.Fat(), k)
    {
      var error, status := d.GetCluster(c);
      if error != NoError {
        return CLUSTER_INVALID;
      } else if status == CLUSTER_UNUSED {
        d.nextFree := c;
        return;
      }
      c := c + 1;
    }
    c := CLUSTER_MIN_GOOD;
    while c < start
      invariant CLUSTER_MIN_GOOD <= c && (c <= start || c == CLUSTER_MIN_GOOD)
      invariant d.nextFree == old(d.nextFree)
      invariant forall k: nat :: k < c ==> !Unused(d.Fat(), k)
    {
      var error, status := d.GetCluster(c);
      if error != NoError {
        return CLUSTER_INVALID;
      } else if status == CLUSTER_UNUSED {
        d.nextFree := c;
        return;
      }
      c := c + 1;
    }
    c := CLUSTER_INVALID;
  }

  // The search has one answer.
  lemma NextFreeUnique(f: Fat, start: nat, r: nat, s: nat)
    requires IsNextFree(f, start, r) && IsNextFree(f, start, s)
    ensures r == s
  {}

  // ---- releasing a chain ----

  // The table after MFS_Release_chain from c, for every table: it follows the links, clearing cells,
  // until EOF or until a cell whose link leads out of range or is already cleared.
  ghost function Released(f: Fat, c: nat): (g: Fat)
    ensures |g| == |f|
    decreases UsedCells(f)
  {
    if !Good(f, c) || (!Good(f, f[c]) && f[c] != CLUSTER_EOF) then f
    else
      FreeAfterPut(f, c, CLUSTER_UNUSED);
      assert c in UsedCells(f);
      Released(f[c := CLUSTER_UNUSED], f[c])
  }

  // The cells a step cleared.
  ghost predicate Freed(f: Fat, g: Fat, c: nat)
    requires |g| == |f|
  {
    Good(f, c) && f[c] != CLUSTER_UNUSED && g[c] == CLUSTER_UNUSED
  }

  lemma {:induction false} ReleasedOnlyFrees(f: Fat, c: nat)
    ensures forall k :: 0 <= k < |f| ==> Released(f, c)[k] == f[k] || (Good(f, k) && Released(f, c)[k] == CLUSTER_UNUSED)
    decreases UsedCells(f)
  {
    if !Good(f, c) || (!Good(f, f[c]) && f[c] != CLUSTER_EOF) {
    } else {
      FreeAfterPut(f, c, CLUSTER_UNUSED);
      assert c in UsedCells(f);
      ReleasedOnlyFrees(f[c := CLUSTER_UNUSED], f[c]);
    }
  }

  // Exactly the cells of ch are cleared.
  ghost predicate FreesExactly(f: Fat, g: Fat, ch: seq<nat>) {
    && |g| == |f|
    && (forall i :: 0 <= i < |ch| && ch[i] < |g| ==> g[ch[i]] == CLUSTER_UNUSED)
    && (forall k :: 0 <= k < |f| && k !in ch ==> g[k] == f[k])
  }

  // Freeing the first cell leaves the rest of a chain whole.
  lemma ReleaseFirst(f: Fat, ch: seq<nat>, f1: Fat)
    requires IsChain(f, ch) && |ch| > 1 && f1 == f[ch[0] := CLUSTER_UNUSED]
    ensures IsChain(f1, ch[1..]) && Released(f, ch[0]) == Released(f1, ch[1]) && ch[0] !in ch[1..]
  {
    ChainDistinct(f, ch);
    SuffixIsChain(f, ch, 1);
    ChainFrame(f, f1, ch[1..]);
    assert f[ch[0]] == ch[1];
  }

  // On a well-formed chain the release frees that chain's cells and no other.
  lemma {:induction false} ReleaseWellFormed(f: Fat, ch: seq<nat>)
    requires IsChain(f, ch)
    ensures FreesExactly(f, Released(f, ch[0]), ch)
    decreases |ch|
  {
    var f1 := f[ch[0] := CLUSTER_UNUSED];
    if |ch| == 1 {
      assert Released(f, ch[0]) == Released(f1, CLUSTER_EOF) == f1;
    } else {
      ReleaseFirst(f, ch, f1);
      hide Released, IsChain;
      ReleaseWellFormed(f1, ch[1..]);
      assert ch == [ch[0]] + ch[1..];
      var g := Released(f, ch[0]);
      forall i | 0 <= i < |ch|
        ensures g[ch[i]] == CLUSTER_UNUSED
      {
        if i > 0 {
          assert ch[i] == ch[1..][i - 1];
        }
      }
    }
  }

  // What a release does to the data sector buffer: it is dropped if its sector lies in a cleared
  // cluster, and only then.
  ghost predicate DropsFreedSector(d: Drive, number0: nat, dirty0: bool, f: Fat, g: Fat)
    requires d.Mounted() && |g| == |f|
    reads d.cache
  {
    if d.dataStart <= number0 && Freed(f, g, d.ClusterOf(number0))
    then d.cache.number == MAX_UINT_32 && !d.cache.dirty
    else d.cache.number == number0 && d.cache.dirty == dirty0
  }

  // One turn of the release loop; stop is set where the source breaks out of it.
  method ReleaseOne(d: Drive, c: nat) returns (stop: bool, next: nat)
    requires d.Mounted() && d.CountOk() && d.cache.Valid() && !d.cache.readOnly && !d.readOnly && Good(d.Fat(), c)
    modifies d.fat, d`freeCount, d.cache`number, d.cache`dirty
    ensures d.CountOk() && d.cache.Valid()
    ensures next == old(d.Fat())[c] && (stop <==> !Good(old(d.Fat()), next) && next != CLUSTER_EOF)
    ensures d.Fat() == if stop then old(d.Fat()) else old(d.Fat())[c := CLUSTER_UNUSED]
    ensures if !stop && d.InCluster(old(d.cache.number), c) then d.cache.number == MAX_UINT_32 && !d.cache.dirty
            else d.cache.number == old(d.cache.number) && d.cache.dirty == old(d.cache.dirty)
  {
    var e;
    e, next := d.GetCluster(c);
    stop := false;
    if e != NoError {
      stop := true;
    } else if (next > d.LastCluster() || next < CLUSTER_MIN_GOOD) && next != CLUSTER_EOF {
      e := LostChain;
      stop := true;
    } else {
      var first := d.FirstSector(c);
      var last := first + d.sectorsPerCluster - 1;
      if first <= d.cache.number && d.cache.number <= last {
        var _ := d.cache.Invalidate();
      }
      e := d.PutFat(c, CLUSTER_UNUSED);
      stop := e != NoError;
    }
  }

  /**
   * MFS_Release_chain: ends for every table, cyclic and cross-linked ones included (each turn makes
   * a used cell unused), never reports a lost chain, and drops the data sector buffer exactly when
   * its sector lies in a cleared cluster.
   */
  method ReleaseChain(d: Drive, start: nat) returns (error: Error)
    requires d.Mounted() && d.CountOk() && d.cache.Valid() && d.cache.readOnly == d.readOnly
    modifies d.fat, d`freeCount, d.cache`number, d.cache`dirty
    ensures d.CountOk() && d.cache.Valid()
    ensures error == if d.readOnly then WriteProtected else NoError
    ensures d.Fat() == if d.readOnly then old(d.Fat()) else Released(old(d.Fat()), start)
    ensures DropsFreedSector(d, old(d.cache.number), old(d.cache.dirty), old(d.Fat()), d.Fat())
  {
    if d.readOnly {
      return WriteProtected;
    }
    ghost var f0, number0 := d.Fat(), d.cache.number;
    var c: nat := start;
    if c >= CLUSTER_MIN_GOOD && c <= d.LastCluster() {
      var going := true;
      while going
        invariant d.CountOk() && d.cache.Valid() && |d.Fat()| == |f0|
        invariant going ==> Good(d.Fat(), c) && Released(d.Fat(), c) == Released(f0, start)
        invariant !going ==> d.Fat() == Released(f0, start)
        invariant DropsFreedSector(d, number0, old(d.cache.dirty), f0, d.Fat())
        invariant forall k :: 0 <= k < |f0| ==> d.Fat()[k] == f0[k] || d.Fat()[k] == CLUSTER_UNUSED
        decreases UsedCells(d.Fat()), going
      {
        ghost var f := d.Fat();
        FreeAfterPut(f, c, CLUSTER_UNUSED);
        d.SectorInOneCluster(d.cache.number, c);
        d.ClusterSectors(c);
        var stop, next := ReleaseOne(d, c);
        assert !stop ==> c in UsedCells(f);

        c := next;
        going := !stop && c != CLUSTER_EOF;
      }
      error := NoError;   // what MFS_Write_back_fat returns
    } else {
      error := NoError;
    }
  }

  // After a release no cleared cluster holds the buffered sector ...
  lemma NoFreedSectorBuffered(d: Drive, number0: nat, dirty0: bool, f: Fat, g: Fat)
    requires d.Mounted() && |f| == |g| == d.fat.Length && DropsFreedSector(d, number0, dirty0, f, g)
    ensures forall c :: 0 <= c < |f| && Freed(f, g, c) ==> !d.InCluster(d.cache.number, c)
  {
    forall c | 0 <= c < |f| && Freed(f, g, c)
      ensures !d.InCluster(d.cache.number, c)
    {
      d.ClusterSectors(c);
      d.SectorInOneCluster(number0, c);
    }
  }

  // ... so that a later flush changes no sector of a cleared, perhaps reused, cluster.
  method FlushAfterRelease(d: Drive, start: nat, deviceOk: bool)
    requires d.Mounted() && d.CountOk() && d.cache.Valid() && d.cache.readOnly == d.readOnly
    modifies d.fat, d`freeCount, d.cache`number, d.cache`dirty, d.cache`disk
    ensures |d.cache.disk| == old(|d.cache.disk|)
    ensures forall s :: d.dataStart <= s < |d.cache.disk| && Freed(old(d.Fat()), d.Fat(), d.ClusterOf(s))
              ==> d.cache.disk[s] == old(d.cache.disk[s])
  {
    var _ := ReleaseChain(d, start);
    NoFreedSectorBuffered(d, old(d.cache.number), old(d.cache.dirty), old(d.Fat()), d.Fat());
    var number := d.cache.number;
    var _ := d.cache.Flush(deviceOk);
    forall s | d.dataStart <= s < |d.cache.disk| && Freed(old(d.Fat()), d.Fat(), d.ClusterOf(s))
      ensures d.cache.disk[s] == old(d.cache.disk[s])
    {
      d.SectorInOneCluster(s, d.ClusterOf(s));
      assert s != number;
    }
  }

  // ---- extending a chain ----

  // A finite walk from c: its last cell leads out of range (EOF if the chain is whole).
  ghost predicate Trail(f: Fat, c: nat, path: seq<nat>) {
    && |path| > 0 && path[0] == c
    && (forall i :: 0 <= i < |path| ==> Good(f, path[i]))
    && (forall i :: 0 <= i < |path| - 1 ==> f[path[i]] == path[i + 1])
    && !Good(f, f[path[|path| - 1]])
  }

  ghost function Last(s: seq<nat>): nat
    requires |s| > 0
  {
    s[|s| - 1]
  }

  ghost function Tip(tail: nat, links: seq<nat>): nat {
    if links == [] then tail else Last(links)
  }

  // g is f with the unused cells links linked behind tail; the last of them holds end.
  ghost predicate Linked(f: Fat, g: Fat, tail: nat, links: seq<nat>, end: nat) {
    && |g| == |f| && Good(f, tail) && f[tail] == CLUSTER_EOF && Distinct(links)
    && (forall i :: 0 <= i < |links| ==> Unused(f, links[i]))
    && if links == [] then g == f else
         && g[tail] == links[0]
         && (forall i :: 0 <= i < |links| - 1 ==> g[links[i]] == links[i + 1])
         && g[Last(links)] == end
         && (forall k :: 0 <= k < |f| && k != tail && k !in links ==> g[k] == f[k])
  }

  ghost predicate Extends(f: Fat, g: Fat, tail: nat, links: seq<nat>) {
    Linked(f, g, tail, links, CLUSTER_EOF)
  }

  ghost function Taken(f: Fat, links: seq<nat>): (g: Fat)
    ensures |g| == |f|
  {
    seq(|f|, k requires 0 <= k < |f| => if k in links then CLUSTER_EOF else f[k])
  }

  // Each cluster is the next free one after its predecessor.
  ghost predicate NextFit(f: Fat, tail: nat, links: seq<nat>) {
    forall i :: 0 <= i < |links| ==> IsNextFree(Taken(f, links[..i]), Tip(tail, links[..i]) + 1, links[i])
  }

  // The loop of MFS_Extend_chain after linking links: the newest cell still reads unused, unless the
  // search ran out of other cells, came round to it and linked it to itself.
  ghost predicate Extending(f: Fat, g: Fat, tail: nat, links: seq<nat>, looped: bool) {
    && Linked(f, g, tail, links, if looped then Tip(tail, links) else CLUSTER_UNUSED)
    && NextFit(f, tail, links)
    && (looped ==> links != [] && forall k: nat :: Unused(f, k) ==> k in links)
  }

  lemma StillFree(f: Fat, g: Fat, tail: nat, links: seq<nat>, looped: bool, k: nat)
    requires Extending(f, g, tail, links, looped)
    ensures Unused(g, k) <==> Unused(f, k) && (k !in links || (!looped && k == Tip(tail, links)))
  {
    if k in links {
      var i :| 0 <= i < |links| && links[i] == k;
      if i < |links| - 1 {
        assert g[links[i]] == links[i + 1];
      }
    }
  }

  lemma LinkedStep(f: Fat, g: Fat, tail: nat, links: seq<nat>, next: nat)
    requires Linked(f, g, tail, links, CLUSTER_UNUSED)
    requires Unused(f, next) && next !in links
    ensures Linked(f, g[Tip(tail, links) := next], tail, links + [next], CLUSTER_UNUSED)
  {
    assert next != tail && g[next] == CLUSTER_UNUSED;
  }

  lemma NextFitStep(f: Fat, g: Fat, tail: nat, links: seq<nat>, next: nat)
    requires Extending(f, g, tail, links, false)
    requires IsNextFree(g, Tip(tail, links) + 1, next) && next != CLUSTER_INVALID && next !in links
    ensures NextFit(f, tail, links + [next])
  {
    var more := links + [next];
    StillFree(f, g, tail, links, false, next);
    forall k: nat | Unused(Taken(f, links), k)
      ensures Unused(g, k)
    {
      StillFree(f, g, tail, links, false, k);
    }
    assert IsNextFree(Taken(f, links), Tip(tail, links) + 1, next);
    forall i | 0 <= i < |more|
      ensures IsNextFree(Taken(f, more[..i]), Tip(tail, more[..i]) + 1, more[i])
    {
      assert more[..i] == links[..i];
    }
  }

  lemma ExtendStep(f: Fat, g: Fat, tail: nat, links: seq<nat>, next: nat)
    requires Extending(f, g, tail, links, false)
    requires IsNextFree(g, Tip(tail, links) + 1, next) && next != CLUSTER_INVALID && next !in links
    ensures Extending(f, g[Tip(tail, links) := next], tail, links + [next], false)
  {
    StillFree(f, g, tail, links, false, next);
    LinkedStep(f, g, tail, links, next);
    NextFitStep(f, g, tail, links, next);
  }

  lemma ExtendLoop(f: Fat, g: Fat, tail: nat, links: seq<nat>, next: nat)
    requires Extending(f, g, tail, links, false)
    requires IsNextFree(g, Tip(tail, links) + 1, next) && next in links
    ensures next == Tip(tail, links) && Extending(f, g[next := next], tail, links, true)
  {
    StillFree(f, g, tail, links, false, next);
    hide Linked, NextFit;
    forall k: nat | Unused(f, k)
      ensures k in links
    {
      StillFree(f, g, tail, links, false, k);
    }
    LoopLinked(f, g, tail, links);
  }

  // The newest cluster linked to itself.
  lemma LoopLinked(f: Fat, g: Fat, tail: nat, links: seq<nat>)
    requires Linked(f, g, tail, links, CLUSTER_UNUSED) && links != []
    ensures Linked(f, g[Last(links) := Last(links)], tail, links, Last(links))
  {
    assert Last(links) in links && tail !in links;
  }

  // With nothing left to find, links is all that was free.
  lemma ExtendStuck(f: Fat, g: Fat, tail: nat, links: seq<nat>, looped: bool)
    requires Extending(f, g, tail, links, looped)
    requires IsNextFree(g, Tip(tail, links) + 1, CLUSTER_INVALID)
    ensures Cells(links) == FreeCells(f) && (looped || links == [])
  {
    forall k: nat | Unused(f, k)
      ensures k in links
    {
      StillFree(f, g, tail, links, looped, k);
    }
    if links != [] {
      StillFree(f, g, tail, links, looped, Tip(tail, links));
    }
  }

  // MFS_Extend_chain, first loop: the end of the chain, or LostChain if its last link is no cluster.
  method FindTail(d: Drive, start: nat, ghost path: seq<nat>) returns (error: Error, tail: nat)
    requires d.Mounted() && Trail(d.Fat(), start, path)
    ensures tail == Last(path)
    ensures error == if d.Fat()[tail] == CLUSTER_EOF then NoError else LostChain
  {
    ghost var i := 0;
    tail := start;
    var next;
    error, next := d.GetCluster(tail);
    while next != CLUSTER_EOF
      invariant 0 <= i < |path| && tail == path[i] && error == NoError && next == d.Fat()[tail]
      invariant i < |path| - 1 ==> next == path[i + 1]
      decreases |path| - i
    {
      if next > d.LastCluster() || next < CLUSTER_MIN_GOOD {
        return LostChain, tail;
      }
      i := i + 1;
      tail := next;
      error, next := d.GetCluster(tail);
    }
  }

  // One turn of the extension loop: find the next free cluster and link it behind the newest one.
  method LinkNext(d: Drive, cluster: nat, ghost f: Fat, ghost tail: nat, ghost links: seq<nat>, ghost looped: bool)
    returns (next: nat, ghost links': seq<nat>, ghost looped': bool)
    requires d.Mounted() && d.CountOk() && !d.readOnly && |d.Fat()| == |f|
    requires Extending(f, d.Fat(), tail, links, looped) && cluster == Tip(tail, links)
    modifies d.fat, d`freeCount, d`nextFree
    ensures d.nextFree == if next == CLUSTER_INVALID then old(d.nextFree) else next
    ensures next != CLUSTER_INVALID ==> links' != [] && next == Last(links')
    ensures d.CountOk() && |d.Fat()| == |f|
    ensures Extending(f, d.Fat(), tail, links', looped')
    ensures next == CLUSTER_INVALID ==>
              links' == links && looped' == looped && Cells(links) == FreeCells(f) && (looped || links == [])
    ensures next != CLUSTER_INVALID ==> next == Tip(tail, links') && Appended(links, links', looped, looped', next)
  {
    next := FindUnused(d, cluster + 1);
    links', looped' := links, looped;
    if next == CLUSTER_INVALID {
      ExtendStuck(f, d.Fat(), tail, links, looped);
      return;
    }
    StillFree(f, d.Fat(), tail, links, looped, next);
    if next in links {
      ExtendLoop(f, d.Fat(), tail, links, next);
      looped' := true;
    } else {
      ExtendStep(f, d.Fat(), tail, links, next);
      links' := links + [next];
    }
    var _ := d.PutFat(cluster, next);
  }

  // A turn adds a cluster, or marks the newest one as linked to itself.
  ghost predicate Appended(links: seq<nat>, links': seq<nat>, looped: bool, looped': bool, next: nat) {
    !looped && if looped' then links' == links && links != [] else links' == links + [next]
  }

  /**
   * MFS_Extend_chain from any cluster of a finite chain. With n or more unused clusters, exactly n of
   * them are appended, next-fit; with fewer, all of them; the chain is whole again either way. The
   * error code is NoError also when exactly one cluster too few was free and any was: the search
   * comes round to the newest cluster, which still reads unused, and counts it twice.
   */
  method ExtendChain(d: Drive, start: nat, n: nat, ghost path: seq<nat>)
    returns (error: Error, added: Option<nat>, ghost links: seq<nat>)
    requires d.Mounted() && d.CountOk()
    requires Good(d.Fat(), start) ==> Trail(d.Fat(), start, path)
    modifies d.fat, d`freeCount, d`nextFree
    ensures d.nextFree == if links == [] then old(d.nextFree) else Last(links)
    ensures d.CountOk()
    ensures d.readOnly ==> error == WriteProtected
    ensures !d.readOnly && !Good(old(d.Fat()), start) ==> error == InvalidClusterNumber
    ensures d.readOnly || !Good(old(d.Fat()), start) || n == 0 || old(d.Fat())[Last(path)] != CLUSTER_EOF ==>
              d.Fat() == old(d.Fat()) && links == [] && added == None
                  && (d.readOnly || !Good(old(d.Fat()), start) || n == 0 || error == LostChain)
    ensures !d.readOnly && Good(old(d.Fat()), start) && n == 0 ==> error == NoError
    ensures !d.readOnly && Good(old(d.Fat()), start) && n > 0 && old(d.Fat())[Last(path)] == CLUSTER_EOF ==>
              var free := |FreeCells(old(d.Fat()))|;
              && Extends(old(d.Fat()), d.Fat(), Last(path), links) && NextFit(old(d.Fat()), Last(path), links)
              && |links| == (if n <= free then n else free)
              && added == (if links == [] then None else Some(links[0]))
              && error == if n <= free || (free > 0 && n == free + 1) then NoError else DiskFull
  {
    links, added := [], None;
    if d.readOnly {
      return WriteProtected, added, links;
    }
    if start < CLUSTER_MIN_GOOD || start > d.LastCluster() {
      return InvalidClusterNumber, added, links;
    }
    if n <= 0 {
      return NoError, added, links;
    }
    var cluster;
    error, cluster := FindTail(d, start, path);
    if error != NoError {
      return error, added, links;
    }
    ghost var f, tail := d.Fat(), cluster;
    var left, extended := n, 0;
    ghost var looped := false;
    assert Extending(f, d.Fat(), tail, links, looped);
    hide Extending, Extends, NextFit, FreeCells, Trail, Tip, Distinct;
    while left > 0
      invariant d.CountOk() && |d.Fat()| == |f|
      invariant d.nextFree == if links == [] then old(d.nextFree) else Last(links)
      invariant Extending(f, d.Fat(), tail, links, looped)
      invariant cluster == Tip(tail, links)
      invariant extended == |links| + (if looped then 1 else 0) && extended + left == n
      invariant added == if links == [] then None else Some(links[0])
    {
      var next;
      next, links, looped := LinkNext(d, cluster, f, tail, links, looped);
      if next == CLUSTER_INVALID {
        break;
      }
      if extended == 0 {
        added := Some(next);
      }
      extended := extended + 1;
      cluster := next;
      left := left - 1;
    }
    ExtendCount(f, d.Fat(), tail, links, looped);
    if extended > 0 {
      EndChain(f, d.Fat(), tail, links, looped);
      error := d.PutFat(cluster, CLUSTER_EOF);
    }
    if left > 0 && error == NoError {
      error := DiskFull;
    }
  }

  lemma ExtendCount(f: Fat, g: Fat, tail: nat, links: seq<nat>, looped: bool)
    requires Extending(f, g, tail, links, looped)
    ensures |links| <= |FreeCells(f)|
    ensures looped || Cells(links) == FreeCells(f) ==> |links| == |FreeCells(f)|
  {
    CellsCount(links);
    assert Cells(links) <= FreeCells(f);
    assert FreeCells(f) == Cells(links) + (FreeCells(f) - Cells(links));
    if looped {
      assert Cells(links) == FreeCells(f);
    }
  }

  lemma EndChain(f: Fat, g: Fat, tail: nat, links: seq<nat>, looped: bool)
    requires Extending(f, g, tail, links, looped) && links != []
    ensures Extends(f, g[Tip(tail, links) := CLUSTER_EOF], tail, links)
  {
    assert Last(links) in links && tail !in links;
  }

  // MFS_Add_cluster_to_chain: DiskFull exactly when no cluster is unused.
  method AddCluster(d: Drive, start: nat, ghost path: seq<nat>) returns (error: Error, added: Option<nat>)
    requires d.Mounted() && d.CountOk() && !d.readOnly
    requires Good(d.Fat(), start) && Trail(d.Fat(), start, path) && d.Fat()[Last(path)] == CLUSTER_EOF
    modifies d.fat, d`freeCount, d`nextFree
    ensures d.CountOk()
    ensures error == if FreeCells(old(d.Fat())) == {} then DiskFull else NoError
    ensures error == NoError ==>
              && added.Some? && Extends(old(d.Fat()), d.Fat(), Last(path), [added.value])
              && IsNextFree(old(d.Fat()), Last(path) + 1, added.value)
    ensures error != NoError ==> d.Fat() == old(d.Fat()) && added == None
    ensures d.nextFree == if error == NoError then added.value else old(d.nextFree)
  {
    ghost var links;
    error, added, links := ExtendChain(d, start, 1, path);
    if links != [] {
      assert links == [links[0]] && links[..0] == [];
      assert IsNextFree(Taken(old(d.Fat()), []), Last(path) + 1, links[0]);
      assert Taken(old(d.Fat()), []) == old(d.Fat());
    }
  }

  // The shortfall that is not reported: two clusters asked for, one free, one added, NoError.
  method ExtendByTwoWithOneFree(d: Drive) returns (error: Error, ghost links: seq<nat>)
    requires d.Mounted() && d.CountOk() && !d.readOnly && d.Fat() == [0, 0, CLUSTER_EOF, CLUSTER_UNUSED]
    modifies d.fat, d`freeCount, d`nextFree
    ensures error == NoError && links == [3] && d.Fat() == [0, 0, 3, CLUSTER_EOF]
  {
    assert FreeCells(d.Fat()) == {3};
    var added;
    error, added, links := ExtendChain(d, 2, 2, [2]);
    assert links[0] == 3;
  }

  /**
   * MFS_Get_disk_free_space_internal: the remembered count and the scan of the table agree.
   */
  method FreeSpace(d: Drive) returns (clusters: nat)
    requires d.Mounted() && d.CountOk()
    modifies d`freeCount
    ensures clusters == |FreeCells(d.Fat())| && d.freeCount == clusters
  {
    if d.freeCount == FSI_UNKNOWN {
      clusters := 0;
      ghost var f := d.Fat();
      assert FreeBelow(f, CLUSTER_MIN_GOOD) == {};
      var k := CLUSTER_MIN_GOOD;
      while k <= d.LastCluster()
        invariant CLUSTER_MIN_GOOD <= k <= |f| && d.freeCount == FSI_UNKNOWN
        invariant clusters == |FreeBelow(f, k)|
      {
        var error, status := d.GetCluster(k);
        if error != NoError {
          break;
        } else if status == CLUSTER_UNUSED {
          clusters := clusters + 1;
        }
        FreeBelowNext(f, k);
        k := k + 1;
      }
      assert FreeBelow(f, |f|) == FreeCells(f);
      d.freeCount := clusters;
    } else {
      clusters := d.freeCount;
    }
  }

  // ---- what the steps do to whole chains ----

  // The grown chain is well formed again, with the new clusters behind the old ones.
  lemma ExtendKeepsChain(f: Fat, g: Fat, ch: seq<nat>, links: seq<nat>)
    requires IsChain(f, ch) && Extends(f, g, Last(ch), links)
    ensures IsChain(g, ch + links)
  {
    ChainDistinct(f, ch);
    var all := ch + links;
    forall i | 0 <= i < |all| - 1
      ensures g[all[i]] == all[i + 1]
    {
      if i < |ch| - 1 {
        assert f[ch[i]] == ch[i + 1];
        assert ch[i] !in links;
      } else if i >= |ch| {
        assert g[links[i - |ch|]] == links[i - |ch| + 1];
      }
    }
  }

  // Every chain without the grown chain's tail keeps its cells, and no new cluster is one of them.
  lemma ExtendKeepsOther(f: Fat, g: Fat, tail: nat, links: seq<nat>, ch: seq<nat>)
    requires IsChain(f, ch) && Extends(f, g, tail, links) && tail !in ch
    ensures IsChain(g, ch) && Cells(ch) !! Cells(links)
  {
    forall i | 0 <= i < |ch|
      ensures ch[i] !in links && g[ch[i]] == f[ch[i]]
    {
      assert i < |ch| - 1 ==> f[ch[i]] == ch[i + 1];
    }
  }

  lemma ReleaseKeepsOther(f: Fat, g: Fat, freed: seq<nat>, ch: seq<nat>)
    requires IsChain(f, ch) && FreesExactly(f, g, freed) && Cells(ch) !! Cells(freed)
    ensures IsChain(g, ch)
  {
    forall i | 0 <= i < |ch|
      ensures g[ch[i]] == f[ch[i]]
    {
      assert ch[i] in Cells(ch);
    }
  }

  // A chain that starts inside another one is a suffix of it.
  lemma {:induction false} TrailOfSuffix(f: Fat, ch: seq<nat>, i: nat)
    requires IsChain(f, ch) && i < |ch|
    ensures Trail(f, ch[i], ch[i..]) && Last(ch[i..]) == Last(ch)
  {}
}
