/**
 * Creating a subdirectory (mfs/source/generic/mfs_directory.c:49-188): a cluster is set aside first, and
 * either becomes the new directory or is given back.
 */
module Subdirs {
  import opened MfsTypes
  import opened FatChain
  import opened Drives
  import opened Cluster
  import opened DirSlots
  import opened DirSearch
  import opened LongName
  import opened DirEntry
  import opened DirGrowth
  import opened Volumes
  import opened Runs
  import opened Handles
  import opened Files

  // The entry of a new directory whose cluster is c.
  function DirectoryEntry(name: seq<nat>, c: nat): Slot {
    Entry(name, ATTR_DIR_NAME, c, 0)
  }

  lemma DirectoryBit()
    ensures ATTR_DIR_NAME & ATTR_DIR_NAME != 0
  {}

  lemma OneClusterPositions(c: nat, n: nat)
    ensures Positions([c], n) == ClusterPositions(c, n)
  {
    assert [c][..0] == [];
  }

  // A free cluster, cleared and marked as a chain of its own.
  method SetAside(d: Drive, ghost r: Run) returns (free: nat, ghost r': Run)
    requires Shows(d, r) && r.Last().v.aside == None && d.CountOk() && !d.readOnly
    modifies d.fat, d`freeCount, d`nextFree, d`slots
    ensures d.CountOk() && IsNextFree(old(d.Fat()), old(d.nextFree), free)
    ensures free == CLUSTER_INVALID ==> d.Fat() == old(d.Fat()) && d.slots == old(d.slots) && r' == r && Shows(d, r)
    ensures free != CLUSTER_INVALID ==>
              && Unused(old(d.Fat()), free) && d.Fat() == old(d.Fat())[free := CLUSTER_EOF]
              && d.slots == Cleared(old(d.slots), free, d.SlotsPerCluster())
              && Shows(d, r') && r'.states[0] == r.states[0] && (Sparing(r) ==> Sparing(r'))
              && r'.Last().own == r.Last().own[Aside := [free]] && r'.Last().v.aside == Some(DirectoryEntry([], free))
              && Step(r.Last(), Reserve(DirectoryEntry([], free)), r'.Last())
  {
    hide Layout, Sparing, IsNextFree, FreeCells;
    r' := r;
    free := FindUnused(d, d.nextFree);
    if free != CLUSTER_INVALID {
      assert Unused(d.Fat(), free) by {
        FreeIsUnused(d.Fat(), old(d.nextFree), free);
      }
      ClearCluster(d, free);
      var _ := d.PutFat(free, CLUSTER_EOF);
      hide Cleared;
      r' := ReservedRun(r, View(d).(aside := Some(DirectoryEntry([], free))), free);
    }
  }

  lemma ReservedRun(r: Run, w: Volume, free: nat) returns (r': Run)
    requires r.Valid() && r.Last().Ok() && r.Last().v.aside == None && Unused(r.Last().v.fat, free)
    requires w == r.Last().v.(aside := Some(DirectoryEntry([], free)), fat := r.Last().v.fat[free := CLUSTER_EOF],
                              slots := Cleared(r.Last().v.slots, free, r.Last().v.perCluster))
    ensures From(r', r.states[0], State(w, r.Last().own[Aside := [free]])) && r'.Last().Ok() && (Sparing(r) ==> Sparing(r'))
    ensures Step(r.Last(), Reserve(DirectoryEntry([], free)), r'.Last())
  {
    DirectoryBit();
    hide Layout, Sparing;
    var s := DirectoryEntry([], free);
    var b := State(w, r.Last().own[Aside := [free]]);
    assert Step(r.Last(), Reserve(s), b);
    StepKeeps(r.Last(), Reserve(s), b);
    SparingThen(r, Reserve(s), b);
    r' := Then(r, Reserve(s), b);
  }

  lemma FreeIsUnused(f: Fat, start: nat, c: nat)
    requires IsNextFree(f, start, c) && c != CLUSTER_INVALID
    ensures Unused(f, c)
  {}

  // Giving the cluster back; no live entry lies in it.
  method GiveBack(d: Drive, free: nat, ghost r: Run) returns (ghost r': Run)
    requires Shows(d, r) && d.CountOk() && !d.readOnly && Good(d.Fat(), free)
    requires r.Last().v.aside == Some(DirectoryEntry([], free)) && ChainOf(r.Last().own, Aside) == [free]
    requires forall p :: LiveAt(d.slots, p) ==> p.cluster != free
    modifies d.fat, d`freeCount
    ensures d.CountOk() && d.Fat() == old(d.Fat())[free := CLUSTER_UNUSED]
    ensures Shows(d, r') && r'.states[0] == r.states[0] && (Sparing(r) ==> Sparing(r'))
    ensures r'.Last().own == r.Last().own - {Aside} && r'.Last().v.aside == None
  {
    hide Layout, Sparing, FreeCells;
    var _ := d.PutFat(free, CLUSTER_UNUSED);
    ghost var b := State(View(d), r.Last().own - {Aside});
    assert Step(r.Last(), Discard, b);
    StepKeeps(r.Last(), Discard, b);
    SparingThen(r, Discard, b);
    r' := Then(r, Discard, b);
  }

  // The new entry in slot p gets the cluster.
  method HandOver(d: Drive, p: Pos, free: nat, ghost name: seq<nat>, ghost r: Run) returns (ghost r': Run)
    requires Shows(d, r) && p in d.slots && d.slots[p] == DirectoryEntry(name, 0) && (|name| > 0 ==> name[0] != DOT) && free != 0
    requires r.Last().v.aside == Some(DirectoryEntry([], free)) && ChainOf(r.Last().own, Aside) == [free]
    modifies d`slots
    ensures d.slots == old(d.slots)[p := DirectoryEntry(name, free)]
    ensures Shows(d, r') && r'.states[0] == r.states[0] && (Sparing(r) ==> Sparing(r'))
    ensures r'.Last().own == (r.Last().own - {Aside})[At(p) := [free]] && r'.Last().v.aside == None
  {
    DirectoryBit();
    ghost var e := DirectoryEntry(name, free);
    d.slots := d.slots[p := d.slots[p].(first := free)];
    ghost var b := State(View(d), (r.Last().own - {Aside})[At(p) := [free]]);
    assert InDirectory(r.Last().v, r.Last().own, p);
    assert Step(r.Last(), Attach(p, e), b);
    hide Layout, Sparing, Step;
    StepKeeps(r.Last(), Attach(p, e), b);
    SparingThen(r, Attach(p, e), b);
    r' := Then(r, Attach(p, e), b);
  }

  // ---- a short name in the first free slot ----

  // A short name takes the first free slot of its directory, and no other slot changes.
  lemma ShortWritten(s: map<Pos, Slot>, t: map<Pos, Slot>, dir: Dir, pr: Progress, name: seq<nat>, entry: Slot,
                     p: Pos, k: nat)
    requires Wrote(s, t, dir, pr) && entry.Entry? && Created(s, dir, pr, false, name, entry, Some(p))
    requires FreeIn(s, dir, k) && forall x :: 0 <= x < k ==> !FreeIn(s, dir, x)
    ensures pr.added == [] && p == dir.Flat()[k] && t == s[p := entry]
  {
    ShortPlaced(s, dir, pr, name, entry, p, k);
    assert |pr.at| == 1 by {
      assert Filed(pr.contents, false, name, entry);
    }
    assert pr.at == [k] && pr.contents == [entry];
    OneWritten(s, t, dir, entry, p, k, pr);
  }

  lemma ShortPlaced(s: map<Pos, Slot>, dir: Dir, pr: Progress, name: seq<nat>, entry: Slot, p: Pos, k: nat)
    requires entry.Entry? && Created(s, dir, pr, false, name, entry, Some(p)) && |pr.at| == |pr.contents|
    requires FreeIn(s, dir, k) && forall x :: 0 <= x < k ==> !FreeIn(s, dir, x)
    ensures pr.added == [] && pr.at[0] == k && Longer(dir, []) == dir && p == dir.Flat()[k]
    ensures pr.contents == [entry]
  {
    var y := pr.at[0];
    assert FreeIn(s, dir, y);
    assert y == k && pr.added == [];
    assert dir.clusters + [] == dir.clusters;
  }

  lemma OneWritten(s: map<Pos, Slot>, t: map<Pos, Slot>, dir: Dir, entry: Slot, p: Pos, k: nat, pr: Progress)
    requires pr == Progress([], [k], [entry]) && Wrote(s, t, dir, pr) && Longer(dir, []) == dir
    requires k < |dir.Flat()| && dir.Flat()[k] == p && p in s
    ensures t == s[p := entry]
  {
    forall q: Pos
      ensures q in t <==> q in s[p := entry]
      ensures q in t && q != p ==> t[q] == s[q]
    {
      if q in t && q != p {
        assert t[q] == Before(s, dir, [], q);
      }
    }
    assert t[p] == entry by {
      assert pr.at[0] == k;
    }
  }

  // ---- the two entries every directory has ----

  lemma OneCluster(c: nat, n: nat, i: nat)
    requires i < n
    ensures |Dir([c], n).Flat()| == n && Dir([c], n).Flat()[i] == Pos(c, i)
  {
    OneClusterPositions(c, n);
  }

  // The first k slots of the new directory are in use, slot k is free.
  ghost predicate FilledUpTo(slots: map<Pos, Slot>, c: nat, n: nat, k: nat) {
    forall i :: 0 <= i <= k && i < n ==> Pos(c, i) in slots && (slots[Pos(c, i)].Free() <==> i == k)
  }

  lemma FirstFreeAt(slots: map<Pos, Slot>, c: nat, n: nat, k: nat)
    requires k < n && FilledUpTo(slots, c, n, k)
    ensures FreeIn(slots, Dir([c], n), k) && forall x :: 0 <= x < k ==> !FreeIn(slots, Dir([c], n), x)
  {
    forall i | 0 <= i <= k
      ensures FreeIn(slots, Dir([c], n), i) <==> i == k
    {
      OneCluster(c, n, i);
    }
  }

  // Slot p is the entry of a directory that has the one cluster c.
  ghost predicate OwnsOne(a: State, p: Pos, c: nat) {
    p in a.v.slots && At(p) in a.own && a.own[At(p)] == [c] && IsDirectory(a.v.slots[p])
  }

  lemma DotTarget(d: Drive, r: Run, p: Pos, c: nat, name: seq<nat>, alias: seq<nat>)
    requires Shows(d, r) && OwnsOne(r.Last(), p, c) && IsName(name)
    ensures Targets(d, r.Last(), Target(c, true, true, name, alias, None, false), At(p), 0, Dir([c], d.SlotsPerCluster()))
  {
    var dir := Dir([c], d.SlotsPerCluster());
    var a := r.Last();
    assert Heads(a.v.fat, c, [c]) && EntryOf(a.v, At(p)) == a.v.slots[p];
    assert a.own[At(p)][0..] == [c];
    DirSlots.MulLess(1, d.sectorsPerCluster, d.entriesPerSector);
    assert d.SlotsPerCluster() > 0;
    assert HasSlots(a.v, [c]);
    forall k | 0 <= k < |dir.Flat()|
      ensures dir.Flat()[k] in d.slots
    {
      OneCluster(c, dir.perCluster, 0);
      OneCluster(c, dir.perCluster, k);
      assert c in [c];
    }
  }

  /**
   * "." or ".." in the new directory: its k-th slot, pointing to cluster first.
   */
  method MakeDot(d: Drive, c: nat, name: seq<nat>, alias: seq<nat>, first: nat, ghost p: Pos, ghost k: nat, ghost r: Run)
    returns (error: Error, ghost r': Run)
    requires Shows(d, r) && d.CountOk() && !d.readOnly && OwnsOne(r.Last(), p, c) && p != Pos(c, k)
    requires IsName(name) && |alias| > 0 && alias[0] == DOT
    requires k < d.SlotsPerCluster() && FilledUpTo(d.slots, c, d.SlotsPerCluster(), k)
    modifies d.fat, d`freeCount, d`nextFree, d`slots
    ensures d.CountOk() && error == NoError && d.Fat() == old(d.Fat())
    ensures d.slots == old(d.slots)[Pos(c, k) := Entry(alias, ATTR_DIR_NAME, first, 0)]
    ensures GoesOn(d, r, r', r.Last().own) && OwnsOne(r'.Last(), p, c)
  {
    hide Layout, Sparing, Targets, Wrote, Local, NewEntry, Created, Outcome, FilledUpTo;
    ghost var n := d.SlotsPerCluster();
    ghost var dir := Dir([c], n);
    ghost var s, f := d.slots, d.Fat();
    DotTarget(d, r, p, c, name, alias);
    FirstFreeAt(d.slots, c, n, k);
    OneCluster(c, n, k);
    var at;
    ghost var own', pr;
    error, at, own', r', pr := CreateAt(d, Target(c, true, true, name, alias, None, false), ATTR_DIR_NAME, r, At(p), 0, dir);
    OutcomeFree(s, f, dir, k);
    ShortWritten(s, d.slots, dir, pr, name, Entry(alias, ATTR_DIR_NAME, 0, 0), at.value, k);
    NothingAdded(f, d.Fat(), s, d.slots, dir);
    ghost var r1 := r';
    d.slots := d.slots[at.value := d.slots[at.value].(first := first)];
    r' := DotPointed(d, r1, at.value, alias, first);
  }

  lemma NothingAdded(f: Fat, g: Fat, s: map<Pos, Slot>, t: map<Pos, Slot>, dir: Dir)
    requires Local(f, g, s, t, dir, [])
    ensures g == f
  {}

  lemma OutcomeFree(s: map<Pos, Slot>, f: Fat, dir: Dir, k: nat)
    requires FreeIn(s, dir, k)
    ensures forall n: nat :: Outcome(s, f, dir, false, n) == NoError
  {}

  // Where a dot entry points makes no difference to who owns what.
  lemma DotPointed(d: Drive, r: Run, q: Pos, alias: seq<nat>, first: nat) returns (r': Run)
    requires d.Mounted() && r.Valid() && r.Last().Ok() && |alias| > 0 && alias[0] == DOT
    requires q in r.Last().v.slots && r.Last().v.slots[q] == Entry(alias, ATTR_DIR_NAME, 0, 0)
    requires View(d).(aside := r.Last().v.aside)
             == r.Last().v.(slots := r.Last().v.slots[q := Entry(alias, ATTR_DIR_NAME, first, 0)])
    ensures GoesOn(d, r, r', r.Last().own)
  {
    DirectoryBit();
    var b := State(View(d).(aside := r.Last().v.aside), r.Last().own);
    assert Step(r.Last(), Rewrite, b);
    hide Layout, Sparing, Step;
    StepKeeps(r.Last(), Rewrite, b);
    SparingThen(r, Rewrite, b);
    r' := Then(r, Rewrite, b);
  }

  // ---- the whole creation ----

  // The names "." and "..", padded to the eleven bytes of a short name.
  const SPACES: seq<nat> := [32, 32, 32, 32, 32, 32, 32, 32, 32]
  const DOT_ALIAS: seq<nat> := [DOT, 32] + SPACES
  const DOT_DOT_ALIAS: seq<nat> := [DOT, DOT] + SPACES

  ghost predicate Blank(slots: map<Pos, Slot>, c: nat, n: nat) {
    forall i :: 0 <= i < n ==> Pos(c, i) in slots && slots[Pos(c, i)] == NeverUsed
  }

  // A new directory: itself, its parent, and nothing else.
  ghost predicate NewDirectory(slots: map<Pos, Slot>, c: nat, n: nat, parent: nat) {
    forall i :: 0 <= i < n ==> Pos(c, i) in slots && slots[Pos(c, i)] == NewSlot(c, parent, i)
  }

  ghost function NewSlot(c: nat, parent: nat, i: nat): Slot {
    if i == 0 then DotEntry(c) else if i == 1 then DotDotEntry(parent) else NeverUsed
  }

  function DotEntry(c: nat): Slot {
    Entry(DOT_ALIAS, ATTR_DIR_NAME, c, 0)
  }

  function DotDotEntry(c: nat): Slot {
    Entry(DOT_DOT_ALIAS, ATTR_DIR_NAME, c, 0)
  }

  // The slots once the entry of p points to cluster c, and the first k of the two dot entries are there.
  ghost function Built(slots: map<Pos, Slot>, p: Pos, name: seq<nat>, c: nat, parent: nat, k: nat): map<Pos, Slot> {
    var s := slots[p := DirectoryEntry(name, c)];
    if k == 0 then s
    else if k == 1 then s[Pos(c, 0) := DotEntry(c)]
    else s[Pos(c, 0) := DotEntry(c)][Pos(c, 1) := DotDotEntry(parent)]
  }

  lemma BuiltSlots(slots: map<Pos, Slot>, p: Pos, name: seq<nat>, c: nat, n: nat, parent: nat, k: nat)
    requires p.cluster != c && Blank(slots, c, n) && k <= 2 <= n
    ensures k < 2 ==> FilledUpTo(Built(slots, p, name, c, parent, k), c, n, k)
    ensures k == 2 ==> NewDirectory(Built(slots, p, name, c, parent, k), c, n, parent)
  {}

  // The entry of p and the cluster c apart, the same entries are live as before.
  lemma BuiltLive(slots: map<Pos, Slot>, p: Pos, name: seq<nat>, c: nat, n: nat, parent: nat)
    requires p.cluster != c && Blank(slots, c, n) && 2 <= n
    ensures forall q: Pos :: q != p ==> SameLive(slots, Built(slots, p, name, c, parent, 2), q)
    ensures Built(slots, p, name, c, parent, 2)[p] == DirectoryEntry(name, c)
  {
    assert slots[Pos(c, 0)] == slots[Pos(c, 1)] == NeverUsed;
  }

  // The entry of slot p gets the cluster, and the cluster its two entries.
  method BuildDirectory(d: Drive, p: Pos, free: nat, parent: nat, ghost name: seq<nat>,
                        ghost r: Run) returns (error: Error, ghost r': Run)
    requires Shows(d, r) && d.CountOk() && !d.readOnly && p.cluster != free && free != 0
    requires p in d.slots && d.slots[p] == DirectoryEntry(name, 0) && (|name| > 0 ==> name[0] != DOT)
    requires r.Last().v.aside == Some(DirectoryEntry([], free)) && ChainOf(r.Last().own, Aside) == [free]
    requires Blank(d.slots, free, d.SlotsPerCluster())
    modifies d.fat, d`freeCount, d`nextFree, d`slots
    ensures d.CountOk() && error == NoError && d.Fat() == old(d.Fat())
    ensures d.slots == Built(old(d.slots), p, name, free, parent, 2)
    ensures NewDirectory(d.slots, free, d.SlotsPerCluster(), parent)
    ensures Shows(d, r') && r'.states[0] == r.states[0] && (Sparing(r) ==> Sparing(r'))
    ensures r'.Last().own == (r.Last().own - {Aside})[At(p) := [free]] && r'.Last().v.aside == None
  {
    hide Layout, Sparing, Blank, FilledUpTo, NewDirectory, FreeCells;
    DirectoryBit();
    SeveralSlots(d);
    ghost var n := d.SlotsPerCluster();
    BuiltSlots(d.slots, p, name, free, n, parent, 0);
    BuiltSlots(d.slots, p, name, free, n, parent, 1);
    BuiltSlots(d.slots, p, name, free, n, parent, 2);
    r' := HandOver(d, p, free, name, r);
    error, r' := MakeDot(d, free, [DOT], DOT_ALIAS, free, p, 0, r');
    error, r' := MakeDot(d, free, [DOT, DOT], DOT_DOT_ALIAS, parent, p, 1, r');
  }

  lemma SeveralSlots(d: Drive)
    requires d.Mounted()
    ensures d.SlotsPerCluster() >= 2
  {
    DirSlots.MulLess(1, d.sectorsPerCluster, d.entriesPerSector);
  }

  lemma DirectoryUncleared(s: map<Pos, Slot>, c: nat, n: nat, dir: Dir)
    requires c !in dir.clusters
    ensures forall k :: 0 <= k < |dir.Flat()| && dir.Flat()[k] in s ==>
              dir.Flat()[k] in Cleared(s, c, n) && Cleared(s, c, n)[dir.Flat()[k]] == s[dir.Flat()[k]]
    ensures forall p :: p in s && p.cluster in dir.clusters ==> p in Cleared(s, c, n) && Cleared(s, c, n)[p] == s[p]
  {
    forall p | p in s && p.cluster in dir.clusters
      ensures p in Cleared(s, c, n) && Cleared(s, c, n)[p] == s[p]
    {
      InCleared(s, c, n, p);
    }
    forall k | 0 <= k < |dir.Flat()| && dir.Flat()[k] in s
      ensures dir.Flat()[k].cluster in dir.clusters
    {
      var x, i := ClusterOfPosition(dir.clusters, dir.perCluster, k);
    }
  }

  lemma ReserveKeepsDir(a: State, b: State, free: nat, o: Owner, j: nat, dir: Dir)
    requires a.Ok() && DirOf(a, o, j, dir) && Step(a, Reserve(DirectoryEntry([], free)), b)
    ensures DirOf(b, o, j, dir) && free !in dir.clusters && (!dir.FixedRoot() ==> o != Aside)
    ensures !dir.FixedRoot() && IsChain(a.v.fat, dir.clusters) ==> IsChain(b.v.fat, dir.clusters)
  {
    ReserveSame(a.v, a.own, b.v, DirectoryEntry([], free));
    DirectoryClusters(a, o, j, dir, free);
    assert o in a.own <==> Owns(a.v, o);
  }

  // Setting a cluster aside leaves a directory as it was.
  lemma TargetStays(d: Drive, a: State, b: State, free: nat, t: Target, o: Owner, j: nat, dir: Dir)
    requires d.Mounted() && a.Ok() && Step(a, Reserve(DirectoryEntry([], free)), b)
    requires b.v.slots == Cleared(a.v.slots, free, d.SlotsPerCluster())
    requires Targets(d, a, t, o, j, dir)
    ensures Targets(d, b, t, o, j, dir) && free !in dir.clusters && (!dir.FixedRoot() ==> o != Aside)
    ensures SameFree(a.v.slots, b.v.slots, dir)
  {
    ReserveKeepsDir(a, b, free, o, j, dir);
    hide Layout, Step, DirOf, Cleared, StaysInside;
    DirectoryUncleared(a.v.slots, free, d.SlotsPerCluster(), dir);
    assert SameFree(a.v.slots, b.v.slots, dir);
    if !t.shortOk {
      SameInside(a.v.slots, b.v.slots, dir, PieceCount(|t.name|));
    }
  }

  // A cluster outside the chains is in no directory.
  lemma DirectoryClusters(a: State, o: Owner, j: nat, dir: Dir, c: nat)
    requires a.Ok() && DirOf(a, o, j, dir) && Unused(a.v.fat, c)
    ensures c !in dir.clusters
    ensures forall x :: x in dir.clusters ==> !Unused(a.v.fat, x)
  {
    forall x | x in dir.clusters
      ensures !Unused(a.v.fat, x)
    {
      if !dir.FixedRoot() && Unused(a.v.fat, x) {
        UnusedOutside(a.v, a.own, x);
      }
    }
  }

  // Nothing lives in the cluster set aside.
  lemma NoneAside(a: State, b: State, free: nat)
    requires a.Ok() && Step(a, Reserve(DirectoryEntry([], free)), b)
    ensures forall q :: LiveAt(b.v.slots, q) ==> q.cluster != free
    ensures forall q: Pos :: SameLive(a.v.slots, b.v.slots, q)
  {
    ReserveSame(a.v, a.own, b.v, DirectoryEntry([], free));
    UnusedOutside(a.v, a.own, free);
    forall q: Pos
      ensures SameLive(a.v.slots, b.v.slots, q)
      ensures LiveAt(b.v.slots, q) ==> q.cluster != free
    {
      assert Live(EntryOf(a.v, At(q))) ==> EntryOf(b.v, At(q)) == EntryOf(a.v, At(q));
      if q in a.v.slots && q.cluster == free {
        OutsideEmpty(a.v, a.own, free, q);
      }
    }
  }

  // What the reserved cluster looks like while its entry is created.
  ghost predicate Held(d: Drive, r: Run, free: nat)
    reads d, d.fat, d.handles
  {
    && Shows(d, r) && r.Last().v.aside == Some(DirectoryEntry([], free)) && ChainOf(r.Last().own, Aside) == [free]
    && Good(d.Fat(), free) && d.Fat()[free] == CLUSTER_EOF && Blank(d.slots, free, d.SlotsPerCluster())
    && forall q :: LiveAt(d.slots, q) ==> q.cluster != free
  }

  // A creation elsewhere does not touch the reserved cluster.
  lemma StillHeld(f: Fat, g: Fat, s: map<Pos, Slot>, t: map<Pos, Slot>, dir: Dir, added: seq<nat>, free: nat, n: nat)
    requires Local(f, g, s, t, dir, added) && free !in dir.clusters && Good(f, free) && f[free] != CLUSTER_UNUSED
              && Blank(s, free, n)
    ensures free !in added && Blank(t, free, n)
    ensures dir.FixedRoot() ==> added == []
    ensures added == [] ==> g == f
  {}

  lemma StillEmpty(s: map<Pos, Slot>, t: map<Pos, Slot>, free: nat)
    requires forall q :: LiveAt(s, q) ==> q.cluster != free
    requires forall q: Pos :: SameLive(s, t, q)
    ensures forall q :: LiveAt(t, q) ==> q.cluster != free
  {
    forall q | LiveAt(t, q)
      ensures q.cluster != free
    {
      assert SameLive(s, t, q);
    }
  }

  lemma ElsewherePut(s: map<Pos, Slot>, t: map<Pos, Slot>, dir: Dir, pr: Progress, long: bool, name: seq<nat>,
                     entry: Slot, p: Pos, free: nat)
    requires entry.Entry? && Created(s, dir, pr, long, name, entry, Some(p)) && NewEntry(s, t, p, entry)
    requires free !in dir.clusters && free !in pr.added
    ensures p.cluster != free && p in t && t[p] == entry
  {
    InLonger(dir, pr.added, Cluster.Last(pr.at));
  }

  lemma NewAndBuilt(s: map<Pos, Slot>, m: map<Pos, Slot>, p: Pos, name: seq<nat>, c: nat, n: nat, parent: nat)
    requires NewEntry(s, m, p, DirectoryEntry(name, 0)) && p.cluster != c && Blank(m, c, n) && 2 <= n
    ensures NewEntry(s, Built(m, p, name, c, parent, 2), p, DirectoryEntry(name, c))
  {
    BuiltLive(m, p, name, c, n, parent);
    forall q: Pos | q != p
      ensures SameLive(s, Built(m, p, name, c, parent, 2), q)
    {
      assert SameLive(s, m, q) && SameLive(m, Built(m, p, name, c, parent, 2), q);
    }
  }

  lemma AsideStays(own: map<Owner, seq<nat>>, o: Owner, added: seq<nat>)
    requires added != [] ==> o != Aside
    ensures ChainOf(GrownBy(own, o, added), Aside) == ChainOf(own, Aside)
  {}

  // The entry was made in slots s, under its name; then it got its cluster, and the cluster its two entries.
  ghost predicate Furnished(s: map<Pos, Slot>, w: map<Pos, Slot>, f: Fat, g: Fat, dir: Dir, pr: Progress, t: Target,
                            free: nat, parent: nat, p: Pos) {
    exists m: map<Pos, Slot> ::
      && Took(s, m, f, g, dir, pr) && w == Built(m, p, t.alias, free, parent, 2)
      && Created(s, dir, pr, !t.shortOk, t.name, DirectoryEntry(t.alias, 0), Some(p))
  }

  // The entry is created, and the cluster given to it, or back.
  method PutDirectory(d: Drive, t: Target, free: nat, parent: nat, ghost r: Run, ghost o: Owner, ghost j: nat,
                      ghost dir: Dir)
    returns (error: Error, at: Option<Pos>, ghost r': Run, ghost pr: Progress)
    requires Held(d, r, free) && d.CountOk() && !d.readOnly && Targets(d, r.Last(), t, o, j, dir)
    requires free !in dir.clusters && (dir.FixedRoot() || o != Aside) && (|t.alias| > 0 ==> t.alias[0] != DOT)
    modifies d.fat, d`freeCount, d`nextFree, d`slots
    ensures d.CountOk() && Shows(d, r') && r'.states[0] == r.states[0] && (Sparing(r) ==> Sparing(r'))
            && r'.Last().v.aside == None
    ensures error == if t.lookup.Some? then FileExists else Outcome(old(d.slots), old(d.Fat()), dir, !t.shortOk,
            PieceCount(|t.name|))
    ensures t.lookup.Some? ==> pr.added == []
    ensures pr.added != [] ==> o != Aside
    ensures error == NoError ==>
              && at.Some? && NewEntry(old(d.slots), d.slots, at.value, DirectoryEntry(t.alias, free))
              && NewDirectory(d.slots, free, d.SlotsPerCluster(), parent) && free !in pr.added
              && Furnished(old(d.slots), d.slots, old(d.Fat()), d.Fat(), dir, pr, t, free, parent, at.value)
              && r'.Last().own == (GrownBy(r.Last().own, o, pr.added) - {Aside})[At(at.value) := [free]]
    ensures error != NoError ==>
              && Unused(d.Fat(), free) && r'.Last().own == GrownBy(r.Last().own, o, pr.added) - {Aside}
              && (pr.added == [] ==> d.Fat() == old(d.Fat())[free := CLUSTER_UNUSED])
              && forall q: Pos :: SameLive(old(d.slots), d.slots, q)
  {
    hide Layout, Sparing, Targets, Wrote, Local, NewEntry, Created, Outcome, SameLive, Blank, FreeCells, View,
         GrownBy, NewDirectory, Built;
    ghost var s, f, own := d.slots, d.Fat(), r.Last().own;
    ghost var own';
    error, at, own', r', pr := CreateAt(d, t, ATTR_DIR_NAME, r, o, j, dir);
    SeveralSlots(d);
    StillHeld(f, d.Fat(), s, d.slots, dir, pr.added, free, d.SlotsPerCluster());
    AsideStays(own, o, pr.added);
    if error == NoError {
      ElsewherePut(s, d.slots, dir, pr, !t.shortOk, t.name, DirectoryEntry(t.alias, 0), at.value, free);
      NewAndBuilt(s, d.slots, at.value, t.alias, free, d.SlotsPerCluster(), parent);
      error, r' := BuildDirectory(d, at.value, free, parent, t.alias, r');
    } else {
      StillEmpty(s, d.slots, free);
      r' := GiveBack(d, free, r');
    }
  }

  // The checks of MFS_Create_subdir; dots tells whether the name is "." or "..".
  function SubdirChecks(readOnly: bool, path: seq<nat>, t: Target, dots: bool): Error {
    if path == [] then InvalidParameter
    else if readOnly then WriteProtected
    else if t.valid then (if t.dirCluster == CLUSTER_INVALID then PathNotFound else NoError)
    else if dots then (if t.dirCluster != 0 then FileExists else CannotCreateDirectory)
    else InvalidParameter
  }

  // Every error code names something that is the case.
  lemma SubdirReasons(readOnly: bool, path: seq<nat>, t: Target, dots: bool)
    ensures match SubdirChecks(readOnly, path, t, dots)
            case NoError => path != [] && !readOnly && t.valid && t.dirCluster != CLUSTER_INVALID
            case InvalidParameter => path == [] || (!t.valid && !dots)
            case WriteProtected => readOnly
            case PathNotFound => t.dirCluster == CLUSTER_INVALID
            case FileExists => dots && t.dirCluster != 0
            case CannotCreateDirectory => dots && t.dirCluster == 0
            case _ => false
  {}

  lemma NewEntryBefore(s: map<Pos, Slot>, m: map<Pos, Slot>, t: map<Pos, Slot>, p: Pos, entry: Slot)
    requires (forall q: Pos :: SameLive(s, m, q)) && NewEntry(m, t, p, entry)
    ensures NewEntry(s, t, p, entry)
  {
    assert SameLive(s, m, p);
    forall q: Pos | q != p
      ensures SameLive(s, t, q)
    {
      assert SameLive(s, m, q) && SameLive(m, t, q);
    }
  }

  lemma SameLiveTwice(s: map<Pos, Slot>, m: map<Pos, Slot>, t: map<Pos, Slot>)
    requires (forall q: Pos :: SameLive(s, m, q)) && forall q: Pos :: SameLive(m, t, q)
    ensures forall q: Pos :: SameLive(s, t, q)
  {
    forall q: Pos
      ensures SameLive(s, t, q)
    {
      assert SameLive(s, m, q) && SameLive(m, t, q);
    }
  }

  lemma AsideGone(own: map<Owner, seq<nat>>, o: Owner, added: seq<nat>, free: nat)
    requires Aside !in own && (added != [] ==> o != Aside)
    ensures GrownBy(own[Aside := [free]], o, added) - {Aside} == GrownBy(own, o, added)
  {}

  lemma ClearedIsBlank(s: map<Pos, Slot>, c: nat, n: nat)
    ensures Blank(Cleared(s, c, n), c, n)
  {
    forall i | 0 <= i < n
      ensures Pos(c, i) in Cleared(s, c, n) && Cleared(s, c, n)[Pos(c, i)] == NeverUsed
    {
      InCleared(s, c, n, Pos(c, i));
    }
  }

  lemma ReservedHeld(d: Drive, a: State, r: Run, s: map<Pos, Slot>, free: nat)
    requires a.Ok() && Shows(d, r) && Step(a, Reserve(DirectoryEntry([], free)), r.Last())
    requires a.v.fat[free := CLUSTER_EOF] == d.Fat() && d.slots == Cleared(s, free, d.SlotsPerCluster())
    ensures Held(d, r, free) && Aside !in a.own && forall q: Pos :: SameLive(a.v.slots, d.slots, q)
  {
    ClearedIsBlank(s, free, d.SlotsPerCluster());
    NoneAside(a, r.Last(), free);
    assert Aside in a.own <==> Owns(a.v, Aside);
  }

  // How a creation ends behind its checks: the cluster set aside is not there for the parent to grow by.
  ghost function SubdirOutcome(s: map<Pos, Slot>, f: Fat, start: nat, t: Target, dir: Dir): Error {
    if exists c: nat :: IsNextFree(f, start, c) && Unused(f, c) then
      var c: nat :| IsNextFree(f, start, c) && Unused(f, c);
      if t.lookup.Some? then FileExists else Outcome(s, f[c := CLUSTER_EOF], dir, !t.shortOk, PieceCount(|t.name|))
    else DiskFull
  }

  lemma SubdirOutcomeIs(s: map<Pos, Slot>, m: map<Pos, Slot>, f: Fat, start: nat, t: Target, dir: Dir, c: nat)
    requires IsNextFree(f, start, c) && (c == CLUSTER_INVALID || Unused(f, c))
    ensures c == CLUSTER_INVALID ==> SubdirOutcome(s, f, start, t, dir) == DiskFull
    ensures c != CLUSTER_INVALID && SameFree(s, m, dir) ==>
              SubdirOutcome(s, f, start, t, dir)
              == if t.lookup.Some? then FileExists else Outcome(m, f[c := CLUSTER_EOF], dir, !t.shortOk, PieceCount(|t.name|))
  {
    forall k: nat | IsNextFree(f, start, k)
      ensures k == c
    {
      NextFreeUnique(f, start, k, c);
    }
    if c != CLUSTER_INVALID && SameFree(s, m, dir) {
      SameOutcome(s, m, f[c := CLUSTER_EOF], dir, !t.shortOk, PieceCount(|t.name|));
    }
  }

  // Behind the checks: a cluster is set aside, and put into the parent directory or given back.
  method ReserveAndPut(d: Drive, t: Target, ghost r: Run, ghost o: Owner, ghost j: nat, ghost dir: Dir)
    returns (error: Error, free: nat, at: Option<Pos>, ghost r': Run, ghost pr: Progress)
    requires Shows(d, r) && r.Last().v.aside == None && d.CountOk() && !d.readOnly
    requires Targets(d, r.Last(), t, o, j, dir) && (|t.alias| > 0 ==> t.alias[0] != DOT)
    modifies d.fat, d`freeCount, d`nextFree, d`slots
    ensures d.CountOk() && Shows(d, r') && r'.states[0] == r.states[0] && (Sparing(r) ==> Sparing(r'))
            && r'.Last().v.aside == None
    ensures error == SubdirOutcome(old(d.slots), old(d.Fat()), old(d.nextFree), t, dir)
    ensures error == NoError ==>
              && Unused(old(d.Fat()), free) && free !in pr.added && at.Some?
              && NewEntry(old(d.slots), d.slots, at.value, DirectoryEntry(t.alias, free))
              && NewDirectory(d.slots, free, d.SlotsPerCluster(), if t.dirCluster == d.rootCluster then 0 else t.dirCluster)
              && Furnished(Cleared(old(d.slots), free, d.SlotsPerCluster()), d.slots, old(d.Fat())[free := CLUSTER_EOF], d.Fat(),
                           dir, pr, t, free, if t.dirCluster == d.rootCluster then 0 else t.dirCluster, at.value)
              && r'.Last().own == GrownBy(r.Last().own, o, pr.added)[At(at.value) := [free]]
    ensures error != NoError ==>
              && r'.Last().own == GrownBy(r.Last().own, o, pr.added) && (pr.added == [] ==> d.Fat() == old(d.Fat()))
              && forall q: Pos :: SameLive(old(d.slots), d.slots, q)
  {
    hide Layout, Sparing, Targets, NewEntry, SameLive, NewDirectory, Blank, Step, Held, View, FreeCells, IsNextFree,
        GrownBy, SubdirOutcome, Outcome, SameFree, Cleared, Furnished;
    ghost var s, a := d.slots, r.Last();
    error, at, r', pr := DiskFull, None, r, Nothing;
    SameLiveAlways(s);
    GrewNothing(a.own, o);
    AllParts(d, a.v);
    free, r' := SetAside(d, r);
    SubdirOutcomeIs(s, d.slots, old(d.Fat()), old(d.nextFree), t, dir, free);
    if free != CLUSTER_INVALID {
      AllParts(d, r'.Last().v);
      ReservedHeld(d, a, r', s, free);
      TargetStays(d, a, r'.Last(), free, t, o, j, dir);
      ghost var m := d.slots;
      var parent := if t.dirCluster == d.rootCluster then 0 else t.dirCluster;
      error, at, r', pr := PutDirectory(d, t, free, parent, r', o, j, dir);
      AsideGone(a.own, o, pr.added, free);
      if error == NoError {
        NewEntryBefore(s, m, d.slots, at.value, DirectoryEntry(t.alias, free));
      } else {
        SameLiveTwice(s, m, d.slots);
      }
    }
  }

  // The first two slots hold "." and "..", and the others were never used.
  ghost predicate HasDots(slots: map<Pos, Slot>, c: nat, n: nat, parent: nat) {
    && Pos(c, 0) in slots && slots[Pos(c, 0)] == Entry([46, 32, 32, 32, 32, 32, 32, 32, 32, 32, 32], 0x10, c, 0)
    && Pos(c, 1) in slots && slots[Pos(c, 1)] == Entry([46, 46, 32, 32, 32, 32, 32, 32, 32, 32, 32], 0x10, parent, 0)
    && forall i :: 2 <= i < n ==> Pos(c, i) in slots && slots[Pos(c, i)] == NeverUsed
  }

  lemma DotsThere(slots: map<Pos, Slot>, c: nat, n: nat, parent: nat)
    requires NewDirectory(slots, c, n, parent) && 2 <= n
    ensures HasDots(slots, c, n, parent)
  {
    assert DOT_ALIAS == [46, 32, 32, 32, 32, 32, 32, 32, 32, 32, 32];
    assert DOT_DOT_ALIAS == [46, 46, 32, 32, 32, 32, 32, 32, 32, 32, 32];
  }

  lemma NeverOver(s: map<Pos, Slot>, f: Fat, start: nat, t: Target, dir: Dir)
    ensures t.lookup.Some? ==> SubdirOutcome(s, f, start, t, dir) in {FileExists, DiskFull}
  {}

  /**
   * MFS_Create_subdir: on success one cluster that was free is the chain of the new entry and holds
   * "." and ".."; on failure it is free again. No cluster is lost either way, and the growth of the
   * parent directory never takes the reserved cluster.
   */
  method CreateSubdir(d: Drive, path: seq<nat>, t: Target, dots: bool,
                      ghost own: map<Owner, seq<nat>>, ghost o: Owner, ghost j: nat, ghost dir: Dir)
    returns (error: Error, ghost own': map<Owner, seq<nat>>, ghost r: Run, ghost p: Option<Pos>, ghost free: nat,
        ghost pr: Progress)
    requires Sane(d, own) && TargetsIfAny(d, own, t, o, j, dir) && (|t.alias| > 0 ==> t.alias[0] != DOT)
    modifies d.fat, d`freeCount, d`nextFree, d`slots
    ensures Sane(d, own') && From(r, State(old(View(d)), own), State(View(d), own')) && Sparing(r)
    ensures NoLeak(old(d.Fat()), d.Fat(), own')
    ensures SubdirChecks(d.readOnly, path, t, dots) != NoError ==>
              error == SubdirChecks(d.readOnly, path, t, dots) && own' == own && View(d) == old(View(d))
    ensures SubdirChecks(d.readOnly, path, t, dots) == NoError ==>
              error == SubdirOutcome(old(d.slots), old(d.Fat()), old(d.nextFree), t, dir)
    ensures error == NoError ==>
              && Unused(old(d.Fat()), free) && free !in pr.added && p.Some?
              && NewEntry(old(d.slots), d.slots, p.value, DirectoryEntry(t.alias, free))
              && NewDirectory(d.slots, free, d.SlotsPerCluster(), if t.dirCluster == d.rootCluster then 0 else t.dirCluster)
              && Furnished(Cleared(old(d.slots), free, d.SlotsPerCluster()), d.slots, old(d.Fat())[free := CLUSTER_EOF], d.Fat(),
                           dir, pr, t, free, if t.dirCluster == d.rootCluster then 0 else t.dirCluster, p.value)
              && own' == GrownBy(own, o, pr.added)[At(p.value) := [free]]
    ensures error == NoError ==>
              HasDots(d.slots, free, d.SlotsPerCluster(), if t.dirCluster == d.rootCluster then 0 else t.dirCluster)
    ensures path == [] || d.readOnly || !t.valid || t.dirCluster == CLUSTER_INVALID ==>
              error != NoError && own' == own && View(d) == old(View(d))
    ensures t.lookup.Some? ==> error != NoError
    ensures error != NoError ==>
              && own' == GrownBy(own, o, pr.added) && (pr.added == [] ==> d.Fat() == old(d.Fat()))
              && forall q: Pos :: SameLive(old(d.slots), d.slots, q)
  {
    hide Layout, Sparing, Targets, NewEntry, SameLive, NewDirectory, Step, View, FreeCells, GrownBy, NoLeak, SubdirOutcome,
         Furnished;
    NeverOver(d.slots, d.Fat(), d.nextFree, t, dir);
    error, p, free, pr := SubdirChecks(d.readOnly, path, t, dots), None, CLUSTER_INVALID, Nothing;
    r := SaneShows(d, own);
    SameLiveAlways(d.slots);
    GrewNothing(own, o);
    AllParts(d, r.Last().v);
    if error == NoError {
      var c, at;
      error, c, at, r, pr := ReserveAndPut(d, t, r, o, j, dir);
      free, p := c, at;
      if error == NoError {
        SeveralSlots(d);
        DotsThere(d.slots, free, d.SlotsPerCluster(), if t.dirCluster == d.rootCluster then 0 else t.dirCluster);
      }
    }
    own' := r.Last().own;
    ShownIsView(d, r);
    AllParts(d, r.Last().v);
    RunLeaksNothing(r);
  }

  lemma GrewNothing(own: map<Owner, seq<nat>>, o: Owner)
    ensures GrownBy(own, o, []) == own
  {}
}
