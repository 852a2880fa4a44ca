/**
 * Concrete inputs on which expectations of the code fail.
 */
module Witnesses {
  import opened MfsTypes
  import opened FatChain
  import opened DataSector
  import opened Drives
  import opened Cluster
  import opened DirSlots
  import opened DirSearch
  import opened LongName
  import opened DirEntry
  import opened LfnEnding
  import opened LfnRemoval
  import opened Volumes
  import opened Runs
  import opened Handles
  import opened Files
  import opened Subdirs
  import opened Renames
  import opened Removals
  import opened Trees
  import Sntp

  // ---- single functions ----

  method SmallDrive(table: array<nat>, rootEntries: nat) returns (d: Drive)
    requires CLUSTER_MIN_GOOD < table.Length <= 10
    ensures fresh(d) && d.fat == table && d.Mounted() && !d.readOnly && d.CountOk() && d.rootCluster == 0
    ensures fresh(d.cache) && fresh(d.cache.buffer) && d.cache.Valid() && !d.cache.readOnly && d.cache.number == MAX_UINT_32
    ensures d.sectorsPerCluster == 1 && d.entriesPerSector == 4 && d.rootEntries == rootEntries && d.handles == []
            && d.slots == map[]
  {
    var cache := new DataCache([], 1, false);
    d := new Drive(table, cache, false, 1, 4, 10, rootEntries, 0);
  }

  // The search from cluster 0 finds nothing, though cluster 2 is free.
  method SearchFromZero() returns (c: nat, cell: nat)
    ensures c == CLUSTER_INVALID && cell == CLUSTER_UNUSED
  {
    var table := new nat[4][0, 0, CLUSTER_UNUSED, CLUSTER_EOF];
    var d := SmallDrive(table, 4);
    c := FindUnused(d, 0);
    cell := d.fat[2];
  }

  // A chain whose link leads out of range is not released, and nobody is told.
  method ReleaseOfLostChain() returns (error: Error, cell: nat)
    ensures error == NoError && cell == 1
  {
    var table := new nat[4][0, 0, 1, CLUSTER_EOF];
    var d := SmallDrive(table, 4);
    ghost var f := d.Fat();
    assert Released(f, 2) == f;
    error := ReleaseChain(d, 2);
    assert d.Fat()[2] == f[2];
    cell := d.fat[2];
  }

  // A refused write is not reported when the buffer moves on; the byte that waited is gone.
  method RefusedFlush() returns (error: Error, before: bv8, after: bv8)
    ensures error == NoError && before == 9 && after == 1
  {
    var c := new DataCache([[1], [2]], 1, false);
    c.Store(0, 0, [9], true, false);
    assert Splice([1], 0, [9]) == [9];
    before := c.buffer[0];
    error := c.ReadSector(1, true, false, true);
    assert !c.dirty && c.Simple() == c.disk;
    var e := c.ReadSector(0, true, true, true);
    after := c.buffer[0];
  }

  // A sector that was read through the buffer is read from there again, though it was written past it.
  method StaleBuffer() returns (error: Error, seen: bv8, there: bv8)
    ensures error == NoError && seen == 1 && there == 9
  {
    var c := new DataCache([[1], [2]], 1, false);
    var e := c.ReadSector(0, true, true, true);
    assert c.buffer[..] == [1];
    c.DirectWrite(0, [9]);
    error := c.ReadSector(0, true, true, true);
    seen, there := c.buffer[0], c.disk[0][0];
  }

  // Seventeen root entries in sectors of sixteen: the walk goes on to the thirty-second slot.
  lemma SeventeenEntries(d: Drive)
    requires d.Mounted() && d.rootEntries == 17 && d.entriesPerSector == 16
    ensures WalkFrom(d, 0, CLUSTER_INVALID, 31).cluster == 0 && WalkFrom(d, 0, CLUSTER_INVALID, 31).index == 31
    ensures WalkFrom(d, 0, CLUSTER_INVALID, 32).cluster == CLUSTER_INVALID
  {
    RootWalk(d, CLUSTER_INVALID, 31);
    RootWalk(d, CLUSTER_INVALID, 32);
  }

  // The last fraction of a second is the thousandth millisecond.
  method LastFraction() returns (ms: nat)
    ensures ms == 1000
  {
    var clock := new Sntp.uint32[3][0, 0xC000_0000, 0xFFFF_FFFF];
    var sec, m := Sntp.ToDate(clock);
    ms := m;
  }

  // ---- a volume ----

  // A fixed root with directory D (clusters 2 and 3), empty file F and directory E (cluster 5). D was moved
  // here from E. It is full but for one slot; its file G (cluster 4) lies in the first slot of its second cluster.
  // Its "." was removed, and directory H (cluster 7) created in that slot; the ".." of E was removed, and an empty
  // file created in that slot.
  const D_AT := Pos(0, 0)
  const F_AT := Pos(0, 1)
  const E_AT := Pos(0, 2)
  const G_AT := Pos(3, 0)
  const H_AT := Pos(2, 0)

  function FileEntry(letter: nat, first: nat): Slot {
    Entry([letter], ATTR_ARCHIVE, first, 0)
  }

  function SlotOf(c: nat, i: nat): Slot {
    if c == 0 then
      (if i == 0 then DirectoryEntry([68], 2) else if i == 1 then FileEntry(70, 0)
       else if i == 2 then DirectoryEntry([69], 5) else NeverUsed)
    else if c == 2 then
      (if i == 0 then DirectoryEntry([72], 7) else if i == 1 then DotDotEntry(5) else if i == 2 then FileEntry(88, 0) else Deleted)
    else if c == 3 then
      (if i == 0 then FileEntry(71, 4) else FileEntry(89, 0))
    else if i == 0 then DotEntry(c) else if i > 1 then NeverUsed
    else if c == 5 then FileEntry(90, 0) else DotDotEntry(2)
  }

  function AllSlots(): map<Pos, Slot> {
    map c: nat, i: nat | c in {0, 2, 3, 5, 7} && i < 4 :: Pos(c, i) := SlotOf(c, i)
  }

  const TABLE: seq<nat> := [0, 0, 3, CLUSTER_EOF, CLUSTER_EOF, CLUSTER_EOF, CLUSTER_UNUSED, CLUSTER_EOF]

  ghost function Owned(): map<Owner, seq<nat>> {
    map[At(D_AT) := [2, 3], At(E_AT) := [5], At(G_AT) := [4], At(H_AT) := [7]]
  }

  lemma InAll(p: Pos)
    ensures p in AllSlots() <==> p.cluster in {0, 2, 3, 5, 7} && p.index < 4
    ensures p in AllSlots() ==> AllSlots()[p] == SlotOf(p.cluster, p.index)
  {
    if p.cluster in {0, 2, 3, 5, 7} && p.index < 4 {
      assert Pos(p.cluster, p.index) in AllSlots();
    }
  }

  lemma WhoOwns(v: Volume, o: Owner)
    requires v.slots == AllSlots() && v.root == 0 && v.aside == None
    ensures Owns(v, o) <==> o in {At(D_AT), At(E_AT), At(G_AT), At(H_AT)}
    ensures o.At? && Live(EntryOf(v, o)) ==> o.p.cluster in {0, 2, 3, 5}
  {
    if o.At? {
      InAll(o.p);
    }
  }

  ghost predicate Example(v: Volume) {
    v.fat == TABLE && v.slots == AllSlots() && v.root == 0 && v.perCluster == 4 && v.aside == None
  }

  lemma OwnersKnown(v: Volume)
    requires Example(v)
    ensures Owners(v, Owned()) && EntryOf(v, At(D_AT)) == SlotOf(0, 0) && EntryOf(v, At(E_AT)) == SlotOf(0, 2)
            && EntryOf(v, At(G_AT)) == SlotOf(3, 0) && EntryOf(v, At(H_AT)) == SlotOf(2, 0)
  {
    forall o: Owner
      ensures o in Owned() <==> Owns(v, o)
    {
      WhoOwns(v, o);
    }
    InAll(D_AT);
    InAll(E_AT);
    InAll(G_AT);
    InAll(H_AT);
  }

  lemma ChainsWhole(v: Volume)
    requires Example(v) && Owners(v, Owned())
    requires EntryOf(v, At(D_AT)) == SlotOf(0, 0) && EntryOf(v, At(E_AT)) == SlotOf(0, 2)
    requires EntryOf(v, At(G_AT)) == SlotOf(3, 0) && EntryOf(v, At(H_AT)) == SlotOf(2, 0)
    ensures Whole(v, Owned())
  {
    hide Owners, Live, InDirectory, EntryOf;
    assert IsChain(TABLE, [2, 3]) && IsChain(TABLE, [5]) && IsChain(TABLE, [4]) && IsChain(TABLE, [7]);
  }

  lemma ChainsApart()
    ensures Apart(Owned())
  {
    assert Cells([2, 3]) == {2, 3} && Cells([5]) == {5} && Cells([4]) == {4} && Cells([7]) == {7} by {
      assert [2, 3][0] == 2 && [2, 3][1] == 3 && [5][0] == 5 && [4][0] == 4 && [7][0] == 7;
    }
    hide Cells;
  }

  lemma SlotPlaced(v: Volume, p: Pos)
    requires Example(v) && EntryOf(v, At(D_AT)) == SlotOf(0, 0) && EntryOf(v, At(E_AT)) == SlotOf(0, 2)
    requires p in v.slots && Live(v.slots[p])
    ensures InDirectory(v, Owned(), p)
  {
    WhoOwns(v, At(p));
    InAll(p);
    assert 2 in Owned()[At(D_AT)] && 3 in Owned()[At(D_AT)] && 5 in Owned()[At(E_AT)];
  }

  lemma SlotsPlaced(v: Volume)
    requires Example(v) && EntryOf(v, At(D_AT)) == SlotOf(0, 0) && EntryOf(v, At(E_AT)) == SlotOf(0, 2)
    requires EntryOf(v, At(H_AT)) == SlotOf(2, 0) && !IsDirectory(EntryOf(v, At(G_AT)))
    ensures Placed(v, Owned()) && Volumes.Shown(v, Owned())
  {
    hide InDirectory, Live;
    forall p | p in v.slots && Live(v.slots[p])
      ensures InDirectory(v, Owned(), p)
    {
      SlotPlaced(v, p);
    }
    forall c, i | c in {2, 3, 5, 7} && 0 <= i < 4
      ensures Pos(c, i) in v.slots
    {
      InAll(Pos(c, i));
    }
  }

  lemma InOrder(v: Volume)
    requires Example(v)
    ensures Layout(v, Owned())
  {
    OwnersKnown(v);
    ChainsWhole(v);
    ChainsApart();
    SlotsPlaced(v);
  }

  method Build() returns (d: Drive)
    ensures fresh(d) && fresh(d.fat) && fresh(d.cache) && fresh(d.cache.buffer) && Sane(d, Owned()) && !d.readOnly
    ensures d.Fat() == TABLE && d.slots == AllSlots() && d.handles == [] && d.rootCluster == 0
    ensures d.SlotsPerCluster() == 4 && d.RootSlots() == 4
  {
    var table := new nat[8][0, 0, 3, CLUSTER_EOF, CLUSTER_EOF, CLUSTER_EOF, CLUSTER_UNUSED, CLUSTER_EOF];
    d := SmallDrive(table, 4);
    d.slots := AllSlots();
    assert d.Fat() == TABLE;
    InOrder(View(d));
  }

  ghost function DirD(): Dir { Dir([2, 3], 4) }
  ghost function RootDir(): Dir { Dir([0], 4) }

  // Where the slots of a directory lie.
  lemma FlatD()
    ensures |DirD().Flat()| == 8 && forall k :: 0 <= k < 8 ==> DirD().Flat()[k] == Pos(if k < 4 then 2 else 3, k % 4)
  {
    assert [2, 3][..1] == [2] && [2][..0] == [];
    assert Positions([2, 3], 4) == Positions([2], 4) + ClusterPositions(3, 4);
    assert Positions([2], 4) == ClusterPositions(2, 4);
  }

  lemma FlatOne(c: nat)
    ensures |Dir([c], 4).Flat()| == 4 && forall k :: 0 <= k < 4 ==> Dir([c], 4).Flat()[k] == Pos(c, k)
  {
    assert Positions([c], 4) == ClusterPositions(c, 4);
  }

  lemma SlotsThere()
    ensures AllIn(AllSlots(), DirD()) && AllIn(AllSlots(), RootDir()) && AllIn(AllSlots(), Dir([3], 4))
            && AllIn(AllSlots(), Dir([5], 4)) && AllIn(AllSlots(), Dir([7], 4))
  {
    FlatD();
    FlatOne(0);
    FlatOne(3);
    FlatOne(5);
    FlatOne(7);
    forall p: Pos | p.cluster in {0, 2, 3, 5, 7} && p.index < 4
      ensures p in AllSlots()
    {
      InAll(p);
    }
  }

  lemma DirDOf(a: State, j: nat)
    requires a.own == Owned() && a.v.slots == AllSlots() && a.v.perCluster == 4 && j < 2
    ensures DirOf(a, At(D_AT), j, Dir([2, 3][j..], 4))
  {
    InAll(D_AT);
    assert !Dir([2, 3][j..], 4).FixedRoot();
  }

  const NAME: seq<nat> := [66]   // "B"

  ghost function AllFiles(): multiset<File> {
    FilesOf(AllSlots())
  }

  // ---- renaming ----

  lemma FoundG(d: Drive, a: State)
    requires d.Mounted() && d.SlotsPerCluster() == 4 && Example(a.v) && a.own == Owned()
    ensures FoundAt(d, a, G_AT, 2, 2, Source(At(D_AT), DirD(), 4))
  {
    FlatD();
    SlotsThere();
    DirDOf(a, 0);
    assert [2, 3][0..] == [2, 3];
    assert IsChain(TABLE, [2, 3]);
    InAll(G_AT);
    assert Stands(DirD(), 1, 0, 4) by {
      assert DirD().clusters[..1] == [2];
      FlatOne(2);
    }
  }

  lemma PlacedG(d: Drive, a: State, t: Target)
    requires d.Mounted() && d.SlotsPerCluster() == 4 && d.RootSlots() == 4 && Example(a.v) && a.own == Owned()
    requires t == Target(3, true, true, NAME, NAME, None, false)
    ensures PlacedAgain(d, a, t, G_AT, 2, 2, Source(At(D_AT), DirD(), 4), At(D_AT), 1, Dir([3], 4))
  {
    FoundG(d, a);
    hide FoundAt;
    FlatD();
    SlotsThere();
    DirDOf(a, 1);
    assert [2, 3][1..] == [3];
    assert IsChain(TABLE, [3]);
  }

  lemma GRenameable(d: Drive)
    requires Fresh(d)
    ensures var t, src := Target(2, true, true, NAME, NAME, None, false), Source(At(D_AT), DirD(), 4);
            && G_AT in d.slots && d.slots[G_AT].Entry? && d.slots[G_AT].attr & ATTR_VOLUME_NAME == 0 && CLUSTER_INVALID != 2
            && RenameChecks(d, true, t, 2, false, Some(G_AT)) == NoError
            && Renameable(d, State(View(d), Owned()), t, 2, G_AT, 2, src, At(D_AT), 1, Dir([3], 4))
  {
    InAll(G_AT);
    FlatD();
    SlotsThere();
    PlacedG(d, State(View(d), Owned()), Target(3, true, true, NAME, NAME, None, false));
    hide PlacedAgain;
  }

  lemma GLost(w: map<Pos, Slot>, error: Error, at: Option<Pos>)
    requires RenameDone(AllSlots(), TABLE, w, 0, Target(2, true, true, NAME, NAME, None, false), 2, G_AT, 2,
                        Source(At(D_AT), DirD(), 4), Dir([3], 4), error, at)
    ensures error == InvalidClusterNumber && FilesOf(w) != AllFiles()
  {
    FlatD();
    LostAtBoundary(AllSlots(), TABLE, 0, Target(2, true, true, NAME, NAME, None, false), G_AT, 2,
                   Source(At(D_AT), DirD(), 4), Dir([3], 4));
    hide InPlaceOutcome, FilesOf, HeadsMarked;
  }

  // Renaming G within D loses G: it lies in the first slot of D's second cluster.
  method LostByRename() returns (error: Error, d: Drive)
    ensures error == InvalidClusterNumber && FilesOf(d.slots) != AllFiles()
  {
    hide *;
    d := Build();
    SaneParts(d, Owned());
    BuiltFresh(d);
    GRenameable(d);
    var at;
    ghost var own', r, pr;
    error, at, own', r, pr := RenameFile(d, true, Target(2, true, true, NAME, NAME, None, false), 2, false, Some(G_AT), 2,
        Source(At(D_AT), DirD(), 4), Owned(), At(D_AT), 1, Dir([3], 4));
    GLost(d.slots, error, at);
  }

  lemma ViewIs(d: Drive)
    requires d.Mounted() && d.Fat() == TABLE && d.slots == AllSlots() && d.rootCluster == 0 && d.SlotsPerCluster() == 4
    ensures Example(View(d)) && View(d).fat == d.Fat() && View(d).slots == d.slots
  {}

  // Without pieces there is nothing to remove.
  lemma NothingToRemove(dir: Dir, x: nat, previous: nat)
    requires AllIn(AllSlots(), dir) && x < |dir.Flat()| && dir.Flat()[x].index > 0
    ensures Deleting(AllSlots(), dir.Flat()[x], dir, 0, previous, x).error == NoError
  {
    var s := AllSlots()[dir.Flat()[x] := Deleted];
    forall k | 0 <= k < |dir.Flat()|
      ensures !s[dir.Flat()[k]].Piece?
    {
      InAll(dir.Flat()[k]);
    }
    StripTurn(s, dir, 0, previous, x, false, false);
  }

  lemma FoundF(d: Drive, a: State)
    requires d.Mounted() && d.RootSlots() == 4 && Example(a.v)
    ensures FoundAt(d, a, F_AT, CLUSTER_INVALID, 0, Source(Owner.Root, RootDir(), 1))
  {
    FlatOne(0);
    SlotsThere();
    InAll(F_AT);
    assert RootDir().clusters[..0] == [];
    assert Stands(RootDir(), 0, 1, 1);
  }

  lemma IntoD(d: Drive, a: State, t: Target)
    requires d.Mounted() && d.SlotsPerCluster() == 4 && Example(a.v) && a.own == Owned()
    requires t == Target(2, true, true, NAME, NAME, None, false)
    ensures Targets(d, a, t, At(D_AT), 0, DirD())
  {
    FlatD();
    SlotsThere();
    DirDOf(a, 0);
    assert [2, 3][0..] == [2, 3];
    assert IsChain(TABLE, [2, 3]);
  }

  // F, open once.
  method OpenF() returns (d: Drive, h: Handle)
    ensures fresh(d) && fresh(d.fat) && fresh(d.cache) && fresh(d.cache.buffer) && fresh(h) && Sane(d, Owned()) && !d.readOnly
    ensures d.Fat() == TABLE && d.slots == AllSlots() && d.handles == [h] && d.rootCluster == 0
    ensures d.SlotsPerCluster() == 4 && d.RootSlots() == 4 && h.At(F_AT) && OpensLive(View(d))
  {
    hide Layout;
    d := Build();
    ghost var r := SaneShows(d, Owned());
    InAll(F_AT);
    h, r := OpenAt(d, F_AT, true, r);
  }

  lemma FRenameable(d: Drive)
    requires d.Mounted() && d.Fat() == TABLE && d.slots == AllSlots() && d.rootCluster == 0 && !d.readOnly
    requires d.SlotsPerCluster() == 4 && d.RootSlots() == 4
    ensures var t, src := Target(2, true, true, NAME, NAME, None, false), Source(Owner.Root, RootDir(), 1);
            && F_AT in d.slots && d.slots[F_AT].Entry? && d.slots[F_AT].attr & ATTR_VOLUME_NAME == 0
            && d.slots[F_AT].attr & ATTR_READ_ONLY == 0 && CLUSTER_INVALID != 2 && CLUSTER_INVALID != 0
            && RenameChecks(d, true, t, 0, false, Some(F_AT)) == NoError
            && Renameable(d, State(View(d), Owned()), t, 0, F_AT, CLUSTER_INVALID, src, At(D_AT), 0, DirD())
  {
    ghost var a := State(View(d), Owned());
    InAll(F_AT);
    FoundF(d, a);
    IntoD(d, a, Target(2, true, true, NAME, NAME, None, false));
    SlotsThere();
    FlatOne(0);
    hide FoundAt, Targets;
  }

  lemma FMoved(w: map<Pos, Slot>, error: Error, at: Option<Pos>)
    requires RenameDone(AllSlots(), TABLE, w, 0, Target(2, true, true, NAME, NAME, None, false), 0, F_AT, CLUSTER_INVALID,
                        Source(Owner.Root, RootDir(), 1), DirD(), error, at)
    ensures error == NoError && at.Some? && at.value != F_AT && F_AT in w && w[F_AT] == Deleted
  {
    SlotsThere();
    FlatOne(0);
    NothingToRemove(RootDir(), 1, CLUSTER_INVALID);
    FFits();
    hide FilesOf, HeadsMarked, RenameEnds, Renamed, Strip, Outcome, FirstHalt;
  }

  lemma FFits()
    ensures forall n: nat :: Outcome(AllSlots(), TABLE, DirD(), false, n) == NoError
  {
    FlatD();
    InAll(Pos(2, 3));
    assert FreeIn(AllSlots(), DirD(), 3);
  }

  lemma InIsOpen(d: Drive, h: Handle, p: Pos)
    requires d.handles == [h] && h.At(p)
    ensures p in Opens(d.handles)
  {
    assert Opens(d.handles)[0] == p;
  }

  // F is moved to D while it is open: it stays open on the slot that it has left.
  method OpenWhileMoved() returns (error: Error, d: Drive, h: Handle)
    ensures error == NoError && h.At(F_AT) && d.handles == [h] && F_AT in d.slots && d.slots[F_AT] == Deleted
    ensures d.Mounted() && !OpensLive(View(d))
  {
    hide *;
    d, h := OpenF();
    SaneParts(d, Owned());
    FRenameable(d);
    var at;
    ghost var own', r, pr;
    error, at, own', r, pr := RenameFile(d, true, Target(2, true, true, NAME, NAME, None, false), 0, false, Some(F_AT),
        CLUSTER_INVALID, Source(Owner.Root, RootDir(), 1), Owned(), At(D_AT), 0, DirD());
    FMoved(d.slots, error, at);
    InIsOpen(d, h, F_AT);
  }

  // ---- truncating ----

  // G, open twice.
  method OpenTwice() returns (d: Drive, h: Handle, x: Handle, ghost r: Run)
    ensures fresh(d) && fresh(d.fat) && fresh(d.cache) && fresh(d.cache.buffer) && fresh(h) && fresh(x) && h != x
    ensures Shows(d, r) && r.Last().v.aside == None && r.Last().own == Owned() && NoTwice(d.handles) && d.handles == [h, x]
    ensures d.CountOk() && d.cache.Valid() && d.cache.readOnly == d.readOnly && !d.readOnly
    ensures G_AT in d.slots && d.slots[G_AT] == EntryCopy(h) == EntryCopy(x) == FileEntry(71, 4) && h.At(G_AT) && x.At(G_AT)
    ensures d.Fat() == TABLE && d.slots == AllSlots() && d.SlotsPerCluster() == 4
  {
    hide Layout, Sparing, AllSlots, SlotOf, Sane, NoTwice, Opens, View, Rewound;
    d := Build();
    SaneParts(d, Owned());
    r := SaneShows(d, Owned());
    GLive();
    h, r := OpenAt(d, G_AT, true, r);
    x, r := OpenAt(d, G_AT, true, r);
  }

  lemma GLive()
    ensures G_AT in AllSlots() && Live(AllSlots()[G_AT]) && AllSlots()[G_AT] == FileEntry(71, 4)
  {
    InAll(G_AT);
  }

  // G is open twice when it is truncated: the second handle writes into the cluster that was freed.
  method WriteToFreed() returns (error: Error, cluster: nat, cell: nat)
    ensures error == NoError && cluster == 4 && cell == CLUSTER_UNUSED
  {
    hide Layout, Sparing, DirIn, DirOf, AllSlots, SlotOf, IsDir, NoTwice, Opens;
    var d, h, x;
    ghost var r;
    d, h, x, r := OpenTwice();
    GInD(d, r.Last());
    error := WriteAfterTruncate(d, h, x, G_AT, ATTR_ARCHIVE, r, At(D_AT), 1, Dir([3], 4));
    cluster := x.currentCluster;
    cell := d.fat[cluster];
  }

  lemma GInD(d: Drive, a: State)
    requires d.Mounted() && d.Fat() == TABLE && d.slots == AllSlots() && d.SlotsPerCluster() == 4
    requires a.own == Owned() && a.v.slots == AllSlots() && a.v.perCluster == 4
    ensures DirOf(a, At(D_AT), 1, Dir([3], 4)) && IsDir(d, Dir([3], 4)) && Present(d, Dir([3], 4))
    ensures G_AT in AllSlots() && Live(AllSlots()[G_AT]) && AllSlots()[G_AT] == FileEntry(71, 4) && G_AT in Dir([3], 4).Flat()
  {
    GLive();
    FlatOne(3);
    SlotsThere();
    DirDOf(a, 1);
    assert [2, 3][1..] == [3];
    ChainOfOne(d);
  }

  lemma ChainOfOne(d: Drive)
    requires d.Mounted() && d.Fat() == TABLE && d.SlotsPerCluster() == 4
    ensures IsDir(d, Dir([3], 4))
  {
    assert IsChain(TABLE, [3]);
  }

  // ---- removing ----

  // What Build promises about the directories, for the removals.
  ghost predicate Fresh(d: Drive)
    reads d, d.fat
  {
    && d.Mounted() && d.Fat() == TABLE && d.slots == AllSlots() && d.rootCluster == 0
    && d.SlotsPerCluster() == 4 && d.RootSlots() == 4 && !d.readOnly
  }

  lemma BuiltFresh(d: Drive)
    requires Sane(d, Owned()) && d.Fat() == TABLE && d.slots == AllSlots() && d.rootCluster == 0
    requires d.SlotsPerCluster() == 4 && d.RootSlots() == 4 && !d.readOnly
    ensures Fresh(d) && Example(View(d))
  {}

  lemma InD(d: Drive, i: nat)
    requires Fresh(d) && i < 4
    ensures Home(d, Owned(), At(D_AT), 0, DirD()) && Found(DirD(), i, Pos(2, i), CLUSTER_INVALID)
  {
    FlatD();
    SlotsThere();
    DirDOf(State(View(d), Owned()), 0);
    assert [2, 3][0..] == [2, 3];
    assert IsChain(TABLE, [2, 3]);
    assert DirD().clusters[..0] == [];
    assert Stands(DirD(), 0, i, i);
  }

  lemma EmptyBehindDots(d: Drive, c: nat)
    requires Fresh(d) && c in {5, 7}
    ensures NamesDir(d, Dir([c], 4)) && !Occupied(AllSlots(), Dir([c], 4))
  {
    FlatOne(c);
    SlotsThere();
    assert IsChain(TABLE, [5]) && IsChain(TABLE, [7]);
    InAll(Pos(c, 2));
    InAll(Pos(c, 3));
  }

  lemma DotDotRemovable(d: Drive)
    requires Fresh(d)
    ensures Removable(d, Owned(), Some(Pos(2, 1)), CLUSTER_INVALID, Source(At(D_AT), DirD(), 1), Dir([5], 4))
    ensures NamesOther(d, NAME, Some(Pos(2, 1)), 0) && ChecksOn(d, NAME, Some(Pos(2, 1)), 0, Dir([5], 4)) == NoError
  {
    InD(d, 1);
    EmptyBehindDots(d, 5);
    InAll(Pos(2, 1));
    hide Home, Found, NamesDir, Occupied;
  }

  lemma FreedThroughDotDot(v: Volume, w: Volume, own': map<Owner, seq<nat>>, error: Error)
    requires Example(v)
    requires Removes(v, Owned(), w, own', error, Pos(2, 1), Source(At(D_AT), DirD(), 1), Dir([5], 4), false, CLUSTER_INVALID)
    ensures error == NoError && forall any: map<Owner, seq<nat>> :: !Layout(w, any)
  {
    DotDotGoes();
    EHeads(v);
    hide Layout, FreesExactly, Deleting, EndsAs, AllSlots, SlotOf, SameLive, HeadsAt, Cells, Owned;
  }

  lemma DotDotGoes()
    ensures AllIn(AllSlots(), DirD()) && 1 < |DirD().Flat()| && Pos(2, 1) in AllSlots()
    ensures !Live(AllSlots()[Pos(2, 1)]) && AllSlots()[Pos(2, 1)].Entry?
    ensures Deleting(AllSlots(), Pos(2, 1), DirD(), 0, CLUSTER_INVALID, 1).error == NoError
  {
    FlatD();
    SlotsThere();
    NothingToRemove(DirD(), 1, CLUSTER_INVALID);
    InAll(Pos(2, 1));
  }

  lemma EHeads(v: Volume)
    requires Example(v)
    ensures HeadsAt(v, At(E_AT), 5) && At(E_AT) in Owned()
  {
    InAll(E_AT);
  }

  // Removing D's "..", which still names E, frees the cluster of E while its entry keeps it.
  method RemovedThroughDotDot() returns (error: Error, d: Drive)
    ensures error == NoError && d.Mounted() && forall any: map<Owner, seq<nat>> :: !Layout(View(d), any)
  {
    hide *;
    d := Build();
    SaneParts(d, Owned());
    BuiltFresh(d);
    DotDotRemovable(d);
    ghost var v := View(d);
    ghost var own', r;
    error, own', r := RemoveSubdir(d, NAME, Some(Pos(2, 1)), CLUSTER_INVALID, 0, Owned(), Source(At(D_AT), DirD(), 1),
        Dir([5], 4));
    FreedThroughDotDot(v, View(d), own', error);
  }

  lemma HRemovable(d: Drive)
    requires Fresh(d)
    ensures Removable(d, Owned(), Some(H_AT), CLUSTER_INVALID, Source(At(D_AT), DirD(), 0), Dir([7], 4))
    ensures NamesOther(d, NAME, Some(H_AT), 0) && ChecksOn(d, NAME, Some(H_AT), 0, Dir([7], 4)) == NoError
  {
    InD(d, 0);
    EmptyBehindDots(d, 7);
    InAll(H_AT);
    hide Home, Found, NamesDir, Occupied;
  }

  // What the removal of a live entry comes to.
  lemma RemovedLive(v: Volume, w: Volume, own': map<Owner, seq<nat>>, error: Error, p: Pos, src: Source, inner: Dir)
    requires Removes(v, Owned(), w, own', error, p, src, inner, false, CLUSTER_INVALID) && v.root == 0 && LiveAt(v.slots, p)
    ensures AllIn(v.slots, src.dir) && src.x < |src.dir.Flat()|
    ensures error == Deleting(v.slots, p, src.dir, 0, CLUSTER_INVALID, src.x).error
    ensures forall q: Pos :: q != p ==> SameLive(v.slots, w.slots, q)
    ensures !LiveAt(w.slots, p) && (error != NoError ==> w.fat == v.fat)
    ensures error == NoError ==>
              && FreesExactly(v.fat, w.fat, ChainOf(Owned(), At(p)))
              && (NoneIn(v.slots, p, ChainOf(Owned(), At(p))) || forall any: map<Owner, seq<nat>> :: !Layout(w, any))
  {
    hide Layout, FreesExactly, Deleting, EndsAs, SameLive, NoneIn, ChainOf, Owned;
  }

  lemma HLeaked(v: Volume, w: Volume, own': map<Owner, seq<nat>>, error: Error)
    requires Example(v)
    requires Removes(v, Owned(), w, own', error, H_AT, Source(At(D_AT), DirD(), 0), Dir([7], 4), false, CLUSTER_INVALID)
    ensures error == InvalidClusterNumber && w.fat == TABLE && forall q: Pos :: LiveAt(w.slots, q) ==> w.slots[q].first != 7
  {
    InAll(H_AT);
    HFails();
    RemovedLive(v, w, own', error, H_AT, Source(At(D_AT), DirD(), 0), Dir([7], 4));
    hide Removes, Deleting, Layout, AllSlots, SlotOf;
    forall q: Pos | LiveAt(w.slots, q)
      ensures w.slots[q].first != 7
    {
      assert SameLive(v.slots, w.slots, q);
      NamesNotH(q);
    }
  }

  lemma HFails()
    ensures AllIn(AllSlots(), DirD()) && 0 < |DirD().Flat()|
    ensures Deleting(AllSlots(), H_AT, DirD(), 0, CLUSTER_INVALID, 0).error == InvalidClusterNumber
  {
    FlatD();
    SlotsThere();
    DotIsLost(AllSlots(), DirD(), 0, CLUSTER_INVALID);
  }

  lemma NamesNotH(q: Pos)
    ensures LiveAt(AllSlots(), q) && q != H_AT ==> AllSlots()[q].first != 7
  {
    InAll(q);
  }

  // H lies where the "." of D was. Removing it fails, and leaves its cluster to nobody.
  method LeakedByRemoval() returns (error: Error, d: Drive)
    ensures error == InvalidClusterNumber && d.Mounted() && d.Fat() == TABLE && TABLE[7] == CLUSTER_EOF
    ensures forall q: Pos :: LiveAt(d.slots, q) ==> d.slots[q].first != 7
  {
    hide *;
    d := Build();
    SaneParts(d, Owned());
    BuiltFresh(d);
    HRemovable(d);
    ghost var v := View(d);
    ghost var own', r;
    error, own', r := RemoveSubdir(d, NAME, Some(H_AT), CLUSTER_INVALID, 0, Owned(), Source(At(D_AT), DirD(), 0), Dir([7], 4));
    HLeaked(v, View(d), own', error);
    Resting(d);
  }

  lemma Resting(d: Drive)
    requires d.Mounted()
    ensures View(d).fat == d.Fat() && View(d).slots == d.slots && TABLE[7] == CLUSTER_EOF
  {}

  lemma ERemovable(d: Drive)
    requires Fresh(d)
    ensures Removable(d, Owned(), Some(E_AT), CLUSTER_INVALID, Source(Owner.Root, RootDir(), 2), Dir([5], 4))
    ensures NamesOther(d, NAME, Some(E_AT), 0) && ChecksOn(d, NAME, Some(E_AT), 0, Dir([5], 4)) == NoError
  {
    EmptyBehindDots(d, 5);
    FoundE(d, State(View(d), Owned()));
    FlatOne(0);
    SlotsThere();
    InAll(E_AT);
    hide Found, NamesDir, Occupied;
  }

  lemma ELost(v: Volume, w: Volume, own': map<Owner, seq<nat>>, error: Error)
    requires Example(v)
    requires Removes(v, Owned(), w, own', error, E_AT, Source(Owner.Root, RootDir(), 2), Dir([5], 4), false, CLUSTER_INVALID)
    ensures error == NoError && LiveAt(w.slots, Pos(5, 1)) && Unused(w.fat, 5)
    ensures forall any: map<Owner, seq<nat>> :: !Layout(w, any)
  {
    hide *;
    ExampleParts(v);
    ESucceeds();
    RemovedLive(v, w, own', error, E_AT, Source(Owner.Root, RootDir(), 2), Dir([5], 4));
    FileInE(v.slots, w.slots);
    FirstIsFreed(v.fat, w.fat, [5]);
  }

  lemma ExampleParts(v: Volume)
    requires Example(v)
    ensures v.fat == TABLE && v.slots == AllSlots() && v.root == 0
  {}

  lemma FileInE(s: map<Pos, Slot>, t: map<Pos, Slot>)
    requires LiveAt(s, Pos(5, 1)) && forall q: Pos :: q != E_AT ==> SameLive(s, t, q)
    ensures LiveAt(t, Pos(5, 1)) && !NoneIn(s, E_AT, [5])
    ensures ChainOf(Owned(), At(E_AT)) == [5] && IsChain(TABLE, [5]) && [5][0] == 5
  {
    assert SameLive(s, t, Pos(5, 1)) && 5 in [5];
  }

  lemma ESucceeds()
    ensures AllIn(AllSlots(), RootDir()) && 2 < |RootDir().Flat()| && LiveAt(AllSlots(), E_AT) && LiveAt(AllSlots(), Pos(5, 1))
    ensures Deleting(AllSlots(), E_AT, RootDir(), 0, CLUSTER_INVALID, 2).error == NoError
  {
    FlatOne(0);
    SlotsThere();
    NothingToRemove(RootDir(), 2, CLUSTER_INVALID);
    InAll(E_AT);
    InAll(Pos(5, 1));
  }

  // The file in the second slot of E is not looked at. Removing E succeeds, and frees the cluster that it lies in.
  method FileLostWithDirectory() returns (error: Error, d: Drive)
    ensures error == NoError && LiveAt(d.slots, Pos(5, 1)) && d.Mounted() && Unused(d.Fat(), 5)
    ensures forall any: map<Owner, seq<nat>> :: !Layout(View(d), any)
  {
    hide *;
    d := Build();
    SaneParts(d, Owned());
    BuiltFresh(d);
    ERemovable(d);
    ghost var v := View(d);
    ghost var own', r;
    error, own', r := RemoveSubdir(d, NAME, Some(E_AT), CLUSTER_INVALID, 0, Owned(), Source(Owner.Root, RootDir(), 2), Dir([5], 4));
    ELost(v, View(d), own', error);
    Resting(d);
  }

  // ---- moving a directory ----

  // Every entry of the volume is in reach of the root.
  lemma ExampleReached(v: Volume)
    requires Example(v) && Layout(v, Owned())
    ensures AllReached(TreeOf(v, Owned()))
  {
    var t := TreeOf(v, Owned());
    OwnersKnown(v);
    hide TreeOf, HolderOf, Layout, Owners;
    forall p | p in t
      ensures Reached(t, p, 1)
    {
      InTree(v, Owned(), p);
      WhoOwns(v, At(p));
      HolderKnown(v, p);
      UpToRoot(t, v, p);
    }
  }

  lemma UpToRoot(t: Tree, v: Volume, p: Pos)
    requires t == TreeOf(v, Owned()) && p in t && LiveAt(v.slots, D_AT) && LiveAt(v.slots, E_AT)
    requires HolderOf(v, Owned(), p) in {None, Some(D_AT), Some(E_AT)}
    requires HolderOf(v, Owned(), D_AT) == None && HolderOf(v, Owned(), E_AT) == None
    ensures Reached(t, p, 1)
  {
    InTree(v, Owned(), p);
    InTree(v, Owned(), D_AT);
    InTree(v, Owned(), E_AT);
    hide TreeOf, HolderOf, Owned;
  }

  lemma HolderKnown(v: Volume, p: Pos)
    requires Example(v) && Layout(v, Owned()) && p.cluster in {0, 2, 3, 5}
    requires EntryOf(v, At(D_AT)) == SlotOf(0, 0) && EntryOf(v, At(E_AT)) == SlotOf(0, 2)
    ensures HolderOf(v, Owned(), p) == if p.cluster == 0 then None else if p.cluster == 5 then Some(E_AT) else Some(D_AT)
    ensures HolderOf(v, Owned(), D_AT) == None && HolderOf(v, Owned(), E_AT) == None
    ensures LiveAt(v.slots, D_AT) && LiveAt(v.slots, E_AT)
  {
    var own := Owned();
    InAll(D_AT);
    InAll(E_AT);
    hide Layout, HolderOf, InRootDir;
    RootHolds(v, D_AT);
    RootHolds(v, E_AT);
    if p.cluster == 0 {
      RootHolds(v, p);
    } else if p.cluster == 5 {
      assert Holds(v, own, E_AT, p);
      OneHolder(v, own, E_AT, p);
    } else {
      assert 2 in own[At(D_AT)] && 3 in own[At(D_AT)];
      assert Holds(v, own, D_AT, p);
      OneHolder(v, own, D_AT, p);
    }
  }

  lemma RootHolds(v: Volume, p: Pos)
    requires p.cluster == 0
    ensures HolderOf(v, Owned(), p) == None
  {}

  lemma FoundE(d: Drive, a: State)
    requires d.Mounted() && d.RootSlots() == 4 && Example(a.v)
    ensures FoundAt(d, a, E_AT, CLUSTER_INVALID, 0, Source(Owner.Root, RootDir(), 2))
  {
    FlatOne(0);
    SlotsThere();
    InAll(E_AT);
    assert RootDir().clusters[..0] == [];
    assert Stands(RootDir(), 0, 2, 2);
  }

  lemma IntoE(d: Drive, a: State, t: Target)
    requires d.Mounted() && d.SlotsPerCluster() == 4 && Example(a.v) && a.own == Owned()
    requires t == Target(5, true, true, NAME, NAME, None, false)
    ensures Targets(d, a, t, At(E_AT), 0, Dir([5], 4)) && forall n: nat :: Outcome(AllSlots(), TABLE, Dir([5], 4), false, n) == NoError
  {
    FlatOne(5);
    SlotsThere();
    InAll(E_AT);
    InAll(Pos(5, 2));
    assert [5][0..] == [5] && IsChain(TABLE, [5]);
    assert FreeIn(AllSlots(), Dir([5], 4), 2);
  }

  // E is moved into itself: from then on it is out of reach.
  method MovedIntoItself() returns (at: Option<Pos>, d: Drive, ghost own': map<Owner, seq<nat>>)
    ensures at.Some? && Sane(d, own') && !AllReached(TreeOf(View(d), own'))
  {
    hide Layout, Targets, FoundAt, Outcome, TreeOf, AllReached, Sane;
    d := Build();
    SaneParts(d, Owned());
    ViewIs(d);
    ghost var v := View(d);
    ExampleReached(v);
    ghost var src := Source(Owner.Root, RootDir(), 2);
    var t := Target(5, true, true, NAME, NAME, None, false);
    FoundE(d, State(v, Owned()));
    IntoE(d, State(v, Owned()), t);
    assert Below(TreeOf(v, Owned()), E_AT, E_AT, 0);
    var error;
    error, at, own' := MoveInTree(d, t, E_AT, CLUSTER_INVALID, 0, src, Owned(), At(E_AT), Dir([5], 4));
  }

  // ---- a long name ----

  const LONG: seq<nat> := seq(14, i => 65)

  lemma OneSlotLeft()
    ensures Begins(AllSlots(), DirD(), true, 2, 3) && !Solid(AllSlots(), DirD(), 3, 2) && FreeFrom(AllSlots(), DirD(), 3) > 0
  {
    FlatD();
    SlotsThere();
    forall x: nat
      ensures FreeIn(AllSlots(), DirD(), x) <==> x == 3
    {
      if x < 8 {
        InAll(DirD().Flat()[x]);
      }
    }
    assert !FreeIn(AllSlots(), DirD(), 4);
    forall y: nat
      ensures !RunIn(AllSlots(), DirD(), y, 2)
    {
      assert !FreeIn(AllSlots(), DirD(), y) || !FreeIn(AllSlots(), DirD(), y + 1);
    }
  }

  lemma RoomForLong()
    ensures Room(AllSlots(), TABLE, DirD(), 3) > 2
  {
    OneSlotLeft();
    FreeCluster();
    hide FreeCells, FreeFrom;
    Drive.MulMonotone(1, |FreeCells(TABLE)|, 4);
  }

  lemma FreeCluster()
    ensures |FreeCells(TABLE)| >= 1
  {
    assert 6 in FreeCells(TABLE);
  }

  lemma LongFits(d: Drive)
    requires Fresh(d)
    ensures IsDir(d, DirD()) && Present(d, DirD()) && StaysInside(d.slots, DirD(), 2) && DirD().clusters[0] == 2
  {
    SlotsThere();
    assert IsChain(TABLE, [2, 3]);
    NotFixed();
    hide StaysInside;
  }

  lemma LongSucceeds()
    ensures Outcome(AllSlots(), TABLE, DirD(), true, 2) == NoError
  {
    hide Begins, Solid, Room, Outcome, FreeFrom, PlaceOutcome, AllSlots, DirD, Full;
    OneSlotLeft();
    RoomForLong();
    OutcomeIs(AllSlots(), TABLE, DirD(), true, 2, 3);
  }

  lemma IsSplit(entry: Slot, pr: Progress, at: Option<Pos>)
    requires entry.Entry? && Created(AllSlots(), DirD(), pr, true, LONG, entry, at)
    ensures pr.at != [] && pr.at[0] == 3 && !Consecutive(pr.at)
  {
    OneSlotLeft();
    hide Begins, Solid, Filed, FreeFrom;
    BeginsOnce(AllSlots(), DirD(), true, 2, pr.at[0], 3);
  }

  // A name of fourteen characters begins in the one free slot of D and goes on in a new cluster.
  method SplitName() returns (error: Error, ghost pr: Progress)
    ensures error == NoError && pr.at != [] && pr.at[0] == 3 && !Consecutive(pr.at)
  {
    hide Begins, Solid, Room, Outcome, Filed, Session, FreeFrom, StaysInside, Created, Sane, Fresh, Dense, IsDir, Present, Consecutive;
    var d := Build();
    SaneParts(d, Owned());
    BuiltFresh(d);
    LongFits(d);
    LongSucceeds();
    var at;
    error, at, pr := CreateEntry(d, 2, None, false, LONG, NAME, ATTR_ARCHIVE, DirD());
    IsSplit(Entry(NAME, ATTR_ARCHIVE, 0, 0), pr, at);
  }

  lemma NotFixed()
    ensures StaysInside(AllSlots(), DirD(), 2)
  {}
}
