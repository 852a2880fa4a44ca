/**
 * Deleting, creating and first writing a file (mfs/source/generic/mfs_delete.c, mfs_create.c and the
 * cluster allocation of mfs_write.c), each as a run of volume steps.
 */
module Files {
  import opened MfsTypes
  import opened FatChain
  import opened Drives
  import opened Cluster
  import opened DirSlots
  import opened DirSearch
  import opened LongName
  import opened DirEntry
  import opened LfnEnding
  import opened DirGrowth
  import opened LfnRemoval
  import opened Volumes
  import opened Runs
  import opened Handles

  // The drive as a volume at rest.
  ghost function View(d: Drive): Volume
    requires d.Mounted()
    reads d, d.fat, d.handles
  {
    Volume(d.Fat(), d.slots, d.rootCluster, d.SlotsPerCluster(), None, Opens(d.handles))
  }

  // Everything of a volume but its slots is what the drive shows.
  ghost predicate OtherParts(d: Drive, v: Volume)
    requires d.Mounted()
    reads d, d.fat, d.handles
  {
    v.fat == d.Fat() && v.root == d.rootCluster && v.perCluster == d.SlotsPerCluster() && v.opens == Opens(d.handles)
  }

  lemma AllParts(d: Drive, v: Volume)
    requires d.Mounted() && v == View(d).(aside := v.aside)
    ensures OtherParts(d, v) && v.slots == d.slots
  {}

  lemma NewSlots(d: Drive, v: Volume)
    requires d.Mounted() && OtherParts(d, v)
    ensures View(d).(aside := v.aside) == v.(slots := d.slots)
    ensures v.aside == None ==> View(d) == v.(slots := d.slots)
  {}

  lemma NewParts(d: Drive, v: Volume)
    requires d.Mounted() && v.root == d.rootCluster && v.perCluster == d.SlotsPerCluster() && v.opens == Opens(d.handles)
    ensures v.aside == None ==> View(d) == v.(fat := d.Fat(), slots := d.slots)
  {}

  // A drive between two operations; own says which entry owns which chain.
  ghost predicate Sane(d: Drive, own: map<Owner, seq<nat>>)
    reads d, d.fat, d.cache, d.cache.buffer, d.handles
  {
    && d.Mounted() && d.CountOk() && d.cache.Valid() && d.cache.readOnly == d.readOnly
    && NoTwice(d.handles) && Layout(View(d), own)
  }

  lemma SaneParts(d: Drive, own: map<Owner, seq<nat>>)
    requires Sane(d, own)
    ensures d.Mounted() && d.CountOk() && d.cache.Valid() && d.cache.readOnly == d.readOnly && NoTwice(d.handles)
    ensures Layout(View(d), own)
  {}

  // A directory of the volume, as it is on the drive: the fixed root, or the chain of owner o from its j-th cluster on.
  ghost predicate Home(d: Drive, own: map<Owner, seq<nat>>, o: Owner, j: nat, dir: Dir)
    requires d.Mounted()
    reads d, d.fat, d.handles
  {
    DirOf(State(View(d), own), o, j, dir) && IsDir(d, dir) && Present(d, dir)
  }

  // ---- deleting ----

  const NO_DELETE: bv8 := ATTR_DIR_NAME | ATTR_VOLUME_NAME | ATTR_READ_ONLY

  // The mask tests these three bits and no other.
  lemma NoDeleteBits(attr: bv8)
    ensures attr & NO_DELETE == 0 <==>
              attr & ATTR_READ_ONLY == 0 && attr & ATTR_VOLUME_NAME == 0 && attr & ATTR_DIR_NAME == 0
  {}

  // An entry that is no file, or one that must not be deleted now.
  ghost predicate Keeps(s: Slot, open: bool)
    requires s.Entry?
  {
    s.attr & ATTR_READ_ONLY != 0 || s.attr & ATTR_VOLUME_NAME != 0 || s.attr & ATTR_DIR_NAME != 0 || open
  }

  lemma KeepsMeans(s: Slot, open: bool)
    requires s.Entry?
    ensures Keeps(s, open) <==> s.attr & NO_DELETE != 0 || open
  {
    NoDeleteBits(s.attr);
  }

  lemma KeepsDirectories(s: Slot, open: bool)
    requires s.Entry? && !Keeps(s, open)
    ensures !IsDirectory(s) && !open
  {}

  // The run of a deletion: the entry loses its chain and is marked, then its pieces are.
  lemma DeletionRun(a: State, m: Volume, w: Volume, p: Pos) returns (r: Run)
    requires a.Ok() && Vacated(a.v, m, p, Deleted) && p !in a.v.opens
    requires w == m.(slots := w.slots) && OnlyPiecesGone(m.slots, w.slots)
    ensures From(r, a, State(w, a.own - {At(p)})) && Sparing(r) && r.Last().Ok()
    ensures FreesExactly(a.v.fat, w.fat, ChainOf(a.own, At(p)))
  {
    hide Layout, Vacated, Step, FreesExactly, OnlyPiecesGone;
    r := VacateRun(Here(a), m, p, Deleted);
    StrikeStep(r.Last(), w);
    StepKeeps(r.Last(), Rewrite, State(w, r.Last().own));
    SparingThen(r, Rewrite, State(w, r.Last().own));
    r := Then(r, Rewrite, State(w, r.Last().own));
  }

  // What deleting an entry makes of the slots, and reports.
  ghost function Deleting(slots: map<Pos, Slot>, p: Pos, dir: Dir, root: nat, previous: nat, x: nat): Stripped
    requires AllIn(slots, dir) && x < |dir.Flat()|
  {
    Strip(slots[p := Deleted], dir, root, previous, x, false, false)
  }

  // The chain of a directory other than the root does not come by the root's first cluster.
  lemma HomeRootFirst(a: State, o: Owner, dir: Dir)
    requires a.Ok() && DirOf(a, o, 0, dir)
    ensures RootFirst(dir, a.v.root)
  {
    if !dir.FixedRoot() {
      var ch := a.own[o];
      assert Heads(a.v.fat, EntryOf(a.v, o).first, ch);
      forall j | 0 < j < |ch|
        ensures ch[j] != a.v.root && ch[j] != 0
      {
        NoRepeat(a.v.fat, ch, 0, j);
        assert ch[j] in Cells(ch);
        assert Root in a.own <==> Owns(a.v, Root);
        assert Root in a.own ==> a.v.root in Cells(a.own[Root]);
      }
    }
  }

  lemma DeletingMarks(slots: map<Pos, Slot>, p: Pos, dir: Dir, root: nat, previous: nat, x: nat)
    requires AllIn(slots, dir) && x < |dir.Flat()|
    ensures var t := Deleting(slots, p, dir, root, previous, x).slots; p in t && t[p] == Deleted
  {
    hide Strip;
    StripsPieces(slots[p := Deleted], dir, root, previous, x, false, false);
  }

  // What removing the name of an entry reports, told by the slots before.
  lemma DeletingEnds(d: Drive, own: map<Owner, seq<nat>>, o: Owner, dir: Dir, x: nat, p: Pos, previous: nat)
    requires Sane(d, own) && p in d.slots && d.slots[p].Entry? && Home(d, own, o, 0, dir) && Found(dir, x, p, previous)
    ensures AllIn(d.slots, dir) && EndsAs(d.slots, dir, d.rootCluster, x, Deleting(d.slots, p, dir, d.rootCluster, previous, x).error)
    ensures var t := Deleting(d.slots, p, dir, d.rootCluster, previous, x).slots; p in t && t[p] == Deleted
  {
    DeletingMarks(d.slots, p, dir, d.rootCluster, previous, x);
    hide Layout, Strip, Found, FlatInjective, RootFirst, HeadsMarked, Ends, DirOf, IsDir, FreeCells;
    HomeRootFirst(State(View(d), own), o, dir);
    DirInjective(d, dir);
    FoundInside(dir, x, p, previous);
    if HeadsMarked(d.slots, dir) {
      RemovalEnds(d.slots, dir, d.rootCluster, previous, x, p);
    }
  }

  lemma FoundInside(dir: Dir, x: nat, p: Pos, previous: nat)
    requires Found(dir, x, p, previous)
    ensures x < |dir.Flat()| && dir.Flat()[x] == p && (previous == CLUSTER_INVALID || previous in dir.clusters)
  {}

  // A directory keeps its chain when the chain of a file goes.
  lemma HomeStays(d: Drive, a: State, o: Owner, j: nat, dir: Dir, p: Pos)
    requires d.Mounted() && a.Ok() && DirOf(a, o, j, dir) && DirIn(d, a.v.fat, dir) && (dir.FixedRoot() || o != At(p))
    requires FreesExactly(a.v.fat, d.Fat(), ChainOf(a.own, At(p)))
    ensures IsDir(d, dir)
  {
    if !dir.FixedRoot() {
      var freed := ChainOf(a.own, At(p));
      assert Cells(a.own[o]) !! Cells(freed);
      ReleaseKeepsOther(a.v.fat, d.Fat(), freed, a.own[o]);
      SuffixIsChain(d.Fat(), a.own[o], j);
    }
  }

  // The chain is released, and the slot marked.
  method GiveUpChain(d: Drive, p: Pos, ghost own: map<Owner, seq<nat>>)
    requires Sane(d, own) && !d.readOnly && p in d.slots && d.slots[p].Entry? && !IsDirectory(d.slots[p])
    modifies d.fat, d`freeCount, d`slots, d.cache`number, d.cache`dirty
    ensures d.CountOk() && d.cache.Valid() && Vacated(old(View(d)), View(d), p, Deleted)
    ensures d.slots == old(d.slots)[p := Deleted]
    ensures forall c :: c in ChainOf(own, At(p)) ==> !d.InCluster(d.cache.number, c)
  {
    ghost var f := d.Fat();
    if d.slots[p].first != 0 {
      var _ := ReleaseChain(d, d.slots[p].first);
    }
    VacatedChain(d, own, p, old(d.cache.number), old(d.cache.dirty), f);
    d.slots := d.slots[p := Deleted];
  }

  // The buffered sector lies in no cluster of the released chain.
  lemma VacatedChain(d: Drive, own: map<Owner, seq<nat>>, p: Pos, number0: nat, dirty0: bool, f: Fat)
    requires d.Mounted() && |f| == d.fat.Length && p in d.slots && Live(d.slots[p])
    requires At(p) in own ==> Heads(f, d.slots[p].first, own[At(p)]) && d.slots[p].first != 0
    requires d.slots[p].first != 0 ==> d.Fat() == Released(f, d.slots[p].first) && DropsFreedSector(d, number0, dirty0, f, d.Fat())
    ensures forall c :: c in ChainOf(own, At(p)) ==> !d.InCluster(d.cache.number, c)
  {
    if At(p) in own {
      ReleaseWellFormed(f, own[At(p)]);
      NoFreedSectorBuffered(d, number0, dirty0, f, d.Fat());
      forall c | c in own[At(p)]
        ensures !d.InCluster(d.cache.number, c)
      {
        var i :| 0 <= i < |own[At(p)]| && own[At(p)][i] == c;
        assert i < |own[At(p)]| - 1 ==> f[c] == own[At(p)][i + 1];
        assert Freed(f, d.Fat(), c);
      }
    }
  }

  // The entry of a file that is not open, its chain and the pieces of its name.
  method DeleteEntry(d: Drive, p: Pos, previous: nat, ghost own: map<Owner, seq<nat>>, ghost o: Owner, ghost dir: Dir,
      ghost x: nat)
    returns (error: Error, ghost run: Run)
    requires Sane(d, own) && !d.readOnly && p in d.slots && d.slots[p].Entry? && !IsDirectory(d.slots[p])
    requires p !in Opens(d.handles) && Home(d, own, o, 0, dir) && Found(dir, x, p, previous)
    modifies d.fat, d`freeCount, d`slots, d.cache`number, d.cache`dirty
    ensures Sane(d, own - {At(p)}) && From(run, State(old(View(d)), own), State(View(d), own - {At(p)})) && Sparing(run)
    ensures Stripped(d.slots, error) == Deleting(old(d.slots), p, dir, d.rootCluster, previous, x)
    ensures FreesExactly(old(d.Fat()), d.Fat(), ChainOf(own, At(p)))
    ensures forall c :: c in ChainOf(own, At(p)) ==> !d.InCluster(d.cache.number, c)
  {
    hide View, Layout, FreesExactly, Vacated, Strip, ChainOf, Sparing, FreeCells, OnlyPiecesGone, DirOf, IsChain, IsDir,
         Found, Present, NoTwice;
    ghost var before := State(View(d), own);
    HomeShows(d, own, o, 0, dir);
    AllParts(d, before.v);
    GiveUpChain(d, p, own);
    ghost var marked := View(d);
    AllParts(d, marked);
    DirVacated(d, before, marked, o, dir, p);
    FoundInside(dir, x, p, previous);
    error := RemoveLfn(d, p.cluster, p.index, previous, dir, x);
    StripsPieces(marked.slots, dir, d.rootCluster, previous, x, false, false);
    NewSlots(d, marked);
    run := DeletionRun(before, marked, View(d), p);
  }

  lemma HomeShows(d: Drive, own: map<Owner, seq<nat>>, o: Owner, j: nat, dir: Dir)
    requires d.Mounted() && Home(d, own, o, j, dir)
    ensures DirOf(State(View(d), own), o, j, dir) && DirIn(d, d.Fat(), dir) && IsDir(d, dir) && AllIn(d.slots, dir)
    ensures View(d).aside == None
  {}

  // The directory of a file that was given up.
  lemma DirVacated(d: Drive, before: State, marked: Volume, o: Owner, dir: Dir, p: Pos)
    requires d.Mounted() && before.Ok() && DirOf(before, o, 0, dir) && DirIn(d, before.v.fat, dir) && AllIn(before.v.slots, dir)
    requires Vacated(before.v, marked, p, Deleted) && marked.fat == d.Fat() && marked.slots == d.slots
    requires d.slots == before.v.slots[p := Deleted] && p in before.v.slots && !IsDirectory(before.v.slots[p])
    ensures IsDir(d, dir) && Present(d, dir)
  {
    hide Layout, FreesExactly, DirOf, IsChain;
    FileIsNoOwner(before, o, 0, dir, p);
    ChainFreed(before, d.Fat(), p);
    HomeStays(d, before, o, 0, dir, p);
  }

  lemma FileIsNoOwner(a: State, o: Owner, j: nat, dir: Dir, p: Pos)
    requires DirOf(a, o, j, dir) && p in a.v.slots && !IsDirectory(a.v.slots[p])
    ensures dir.FixedRoot() || o != At(p)
  {}

  // A deletion that passes the checks.
  method DeleteFound(d: Drive, p: Pos, previous: nat, ghost own: map<Owner, seq<nat>>, ghost o: Owner, ghost dir: Dir,
      ghost x: nat)
    returns (error: Error, ghost run: Run)
    requires Sane(d, own) && !d.readOnly && p in d.slots && d.slots[p].Entry? && !Keeps(d.slots[p], p in Opens(d.handles))
    requires Home(d, own, o, 0, dir) && Found(dir, x, p, previous)
    modifies d.fat, d`freeCount, d`slots, d.cache`number, d.cache`dirty
    ensures Sane(d, own - {At(p)}) && From(run, State(old(View(d)), own), State(View(d), own - {At(p)})) && Sparing(run)
    ensures Stripped(d.slots, error) == Deleting(old(d.slots), p, dir, d.rootCluster, previous, x)
    ensures EndsAs(old(d.slots), dir, d.rootCluster, x, error) && p in d.slots && d.slots[p] == Deleted
    ensures FreesExactly(old(d.Fat()), d.Fat(), ChainOf(own, At(p)))
    ensures forall c :: c in ChainOf(own, At(p)) ==> !d.InCluster(d.cache.number, c)
  {
    KeepsDirectories(d.slots[p], p in Opens(d.handles));
    hide *;
    DeletingEnds(d, own, o, dir, x, p, previous);
    error, run := DeleteEntry(d, p, previous, own, o, dir, x);
  }

  /**
   * MFS_Delete_file: refused for a directory, a volume label, a read-only or an open file; otherwise
   * exactly the chain of the file is freed, its slot and the pieces found before it are deleted, and the
   * data sector buffer holds no sector of the freed clusters.
   */
  method DeleteFile(d: Drive, path: seq<nat>, lookup: Option<Pos>, missing: Error, previous: nat,
                    ghost own: map<Owner, seq<nat>>, ghost o: Owner, ghost dir: Dir, ghost x: nat)
    returns (error: Error, ghost own': map<Owner, seq<nat>>, ghost run: Run)
    requires Sane(d, own) && missing != NoError
    requires lookup.Some? ==>
               && lookup.value in d.slots && d.slots[lookup.value].Entry?
               && Home(d, own, o, 0, dir) && Found(dir, x, lookup.value, previous)
    modifies d.fat, d`freeCount, d`slots, d.cache`number, d.cache`dirty
    ensures Sane(d, own') && From(run, State(old(View(d)), own), State(View(d), own')) && Sparing(run)
    ensures path == [] || d.readOnly || lookup == None || old(Keeps(d.slots[lookup.value], lookup.value in Opens(d.handles))) ==>
              error != NoError && own' == own && View(d) == old(View(d))
    ensures path == [] ==> error == InvalidParameter
    ensures path != [] && d.readOnly ==> error == WriteProtected
    ensures path != [] && !d.readOnly && lookup == None ==> error == missing
    ensures path != [] && !d.readOnly && lookup.Some? && old(Keeps(d.slots[lookup.value], lookup.value in Opens(d.handles))) ==>
              error == if old(Keeps(d.slots[lookup.value], false)) then AccessDenied else SharingViolation
    ensures path != [] && !d.readOnly && lookup.Some? && !old(Keeps(d.slots[lookup.value], lookup.value in Opens(d.handles))) ==>
              && lookup.value in d.slots && d.slots[lookup.value] == Deleted
              && Stripped(d.slots, error) == Deleting(old(d.slots), lookup.value, dir, d.rootCluster, previous, x)
              && EndsAs(old(d.slots), dir, d.rootCluster, x, error)
              && own' == own - {At(lookup.value)} && FreesExactly(old(d.Fat()), d.Fat(), ChainOf(own, At(lookup.value)))
              && (forall c :: c in ChainOf(own, At(lookup.value)) ==> !d.InCluster(d.cache.number, c))
  {
    hide View, Layout, FreesExactly, ChainOf, FreeCells, Deleting, DirOf, IsDir, EndsAs, Sparing, From, Found, Present,
         NoTwice, AllIn, Opens, Home, Keeps, Sane;
    own' := own;
    run := SaneShows(d, own);
    if lookup.Some? {
      KeepsMeans(d.slots[lookup.value], lookup.value in Opens(d.handles));
      KeepsMeans(d.slots[lookup.value], false);
    }
    if path == [] {
      error := InvalidParameter;
    } else if d.readOnly {
      error := WriteProtected;
    } else if lookup == None {
      error := missing;
    } else if d.slots[lookup.value].attr & NO_DELETE != 0 {
      error := AccessDenied;
    } else {
      var open := FindHandle(d, lookup.value.cluster, lookup.value.index);
      if open != null {
        error := SharingViolation;
      } else {
        error, run := DeleteFound(d, lookup.value, previous, own, o, dir, x);
        own' := own - {At(lookup.value)};
      }
    }
  }

  // ---- creating an entry by its path ----

  // What the path of a new entry comes to: the first cluster of its directory (CLUSTER_INVALID if there
  // is none), its name and short name, the entry that has the name already, and whether the root holds a label.
  datatype Target = Target(dirCluster: nat, valid: bool, shortOk: bool, name: seq<nat>, alias: seq<nat>,
                           lookup: Option<Pos>, labelled: bool)

  // What is known of it while the volume is in state a: dir is the directory of owner o from its j-th
  // cluster on.
  ghost predicate Targets(d: Drive, a: State, t: Target, o: Owner, j: nat, dir: Dir)
    requires d.Mounted()
  {
    && DirOf(a, o, j, dir) && DirIn(d, a.v.fat, dir) && AllIn(a.v.slots, dir) && dir.clusters[0] == t.dirCluster
    && IsName(t.name) && (!t.shortOk ==> StaysInside(a.v.slots, dir, PieceCount(|t.name|)))
    && (t.lookup.Some? ==> t.lookup.value in dir.Flat() && a.v.slots[t.lookup.value].Entry?)
  }

  lemma TargetShows(d: Drive, a: State, t: Target, o: Owner, j: nat, dir: Dir)
    requires d.Mounted() && a.v == View(d).(aside := a.v.aside) && Targets(d, a, t, o, j, dir)
    ensures DirOf(a, o, j, dir) && IsDir(d, dir) && Present(d, dir) && dir.clusters[0] == t.dirCluster && IsName(t.name)
    ensures !t.shortOk ==> StaysInside(d.slots, dir, PieceCount(|t.name|))
    ensures t.lookup.Some? ==> t.lookup.value in dir.Flat() && t.lookup.value in d.slots && d.slots[t.lookup.value].Entry?
  {}

  // The drive shows the last state of a run, but for the entry in hand.
  ghost predicate Shows(d: Drive, r: Run)
    reads d, d.fat, d.handles
  {
    d.Mounted() && r.Valid() && r.Last().Ok() && r.Last().v == View(d).(aside := r.Last().v.aside)
  }

  // Run r' goes on from run r to what the drive shows now.
  ghost predicate GoesOn(d: Drive, r: Run, r': Run, own': map<Owner, seq<nat>>)
    requires r.Valid()
    reads d, d.fat, d.handles
  {
    && Shows(d, r') && r'.states[0] == r.states[0] && r'.Last().own == own' && r'.Last().v.aside == r.Last().v.aside
    && (Sparing(r) ==> Sparing(r'))
  }

  ghost predicate LiveAt(s: map<Pos, Slot>, q: Pos) {
    q in s && Live(s[q])
  }

  // The new entry is in slot p, where no live one was, and the live entries are otherwise the same.
  ghost predicate NewEntry(s: map<Pos, Slot>, t: map<Pos, Slot>, p: Pos, entry: Slot) {
    && p in t && t[p] == entry && !LiveAt(s, p)
    && forall q: Pos :: q != p ==> SameLive(s, t, q)
  }

  ghost predicate SameLive(s: map<Pos, Slot>, t: map<Pos, Slot>, q: Pos) {
    (LiveAt(s, q) <==> LiveAt(t, q)) && (LiveAt(s, q) ==> t[q] == s[q])
  }

  lemma SameLiveAlways(s: map<Pos, Slot>)
    ensures forall q: Pos :: SameLive(s, s, q)
  {}

  // No live entry lies in a cluster that a creation adds.
  lemma AddedHoldNone(v: Volume, own: map<Owner, seq<nat>>, w: Volume, dir: Dir, pr: Progress)
    requires Layout(v, own) && Grew(v.fat, w.fat, dir, pr.added)
    ensures forall q :: LiveAt(v.slots, q) ==> q.cluster !in pr.added
  {
    forall q | LiveAt(v.slots, q)
      ensures q.cluster !in pr.added
    {
      if q.cluster in pr.added {
        assert Unused(v.fat, q.cluster);
        UnusedOutside(v, own, q.cluster);
        OutsideEmpty(v, own, q.cluster, q);
      }
    }
  }

  lemma StaysLive(s: map<Pos, Slot>, t: map<Pos, Slot>, dir: Dir, pr: Progress, q: Pos)
    requires Wrote(s, t, dir, pr) && (LiveAt(s, q) ==> q.cluster !in pr.added)
    requires forall w :: 0 <= w < |pr.at| && Live(pr.contents[w]) ==> Longer(dir, pr.added).Flat()[pr.at[w]] != q
    ensures SameLive(s, t, q)
  {
    var flat := Longer(dir, pr.added).Flat();
    if w :| 0 <= w < |pr.at| && flat[pr.at[w]] == q {
      assert Before(s, dir, pr.added, q).Free() && t[q] == pr.contents[w];
    } else if q in t {
      assert t[q] == Before(s, dir, pr.added, q);
    }
  }

  ghost predicate PiecesFirst(contents: seq<Slot>) {
    forall w :: 0 <= w < |contents| - 1 ==> contents[w].Piece?
  }

  lemma NewEntryAt(d: Drive, s: map<Pos, Slot>, f: Fat, dir: Dir, pr: Progress, p: Pos, entry: Slot)
    requires d.Mounted() && Session(d, s, f, dir, pr) && pr.contents != []
    requires pr.contents[|pr.contents| - 1] == entry && Longer(dir, pr.added).Flat()[Cluster.Last(pr.at)] == p
    requires PiecesFirst(pr.contents) && forall q :: LiveAt(s, q) ==> q.cluster !in pr.added
    ensures NewEntry(s, d.slots, p, entry)
  {
    hide Grew, IsDir, Present;
    var flat, last := Longer(dir, pr.added).Flat(), |pr.at| - 1;
    assert Before(s, dir, pr.added, flat[pr.at[last]]).Free();
    forall q: Pos | q != p
      ensures SameLive(s, d.slots, q)
    {
      StaysLive(s, d.slots, dir, pr, q);
    }
  }

  lemma NoEntryAt(d: Drive, s: map<Pos, Slot>, f: Fat, dir: Dir, pr: Progress)
    requires d.Mounted() && Session(d, s, f, dir, pr) && OnlyPieces(pr.contents)
    requires forall q :: LiveAt(s, q) ==> q.cluster !in pr.added
    ensures forall q: Pos :: SameLive(s, d.slots, q)
  {
    hide Grew, IsDir, Present;
    forall q: Pos
      ensures SameLive(s, d.slots, q)
    {
      StaysLive(s, d.slots, dir, pr, q);
    }
  }

  lemma FiledOwnsNothing(contents: seq<Slot>, long: bool, name: seq<nat>, entry: Slot)
    requires entry.Entry? && entry.first == 0 && Filed(contents, long, name, entry)
    ensures PiecesFirst(contents) && forall i :: 0 <= i < |contents| ==> !Owning(contents[i])
    ensures |contents| > 0 && contents[|contents| - 1] == entry
  {
    var pieces := contents[..|contents| - 1];
    forall i | 0 <= i < |pieces|
      ensures pieces[i].Piece? && contents[i] == pieces[i]
    {
      assert long && IsPiece(pieces[i], name, LengthLeft(name, i), Checksum(entry.name));
    }
  }


  lemma CreationShown(d: Drive, r: Run, v: Volume, o: Owner, j: nat, dir: Dir, pr: Progress) returns (r': Run)
    requires d.Mounted() && r.Valid() && r.Last().Ok() && DirOf(r.Last(), o, j, dir)
    requires v == r.Last().v && View(d).(aside := v.aside) == v.(fat := d.Fat(), slots := d.slots)
    requires Session(d, v.slots, v.fat, dir, pr) && forall i :: 0 <= i < |pr.contents| ==> !Owning(pr.contents[i])
    ensures GoesOn(d, r, r', GrownBy(r.Last().own, o, pr.added))
    ensures forall q :: LiveAt(v.slots, q) ==> q.cluster !in pr.added
  {
    var w := View(d).(aside := v.aside);
    AddedHoldNone(v, r.Last().own, w, dir, pr);
    hide DirOf, Layout, Wrote, Grew, IsDir, Present, Sparing;
    assert Creates(v, w, dir, pr);
    r' := CreationRun(r, w, o, j, dir, pr);
  }

  // The directory of a run's last state, as it is on the drive.
  ghost predicate DirShown(d: Drive, r: Run, o: Owner, j: nat, dir: Dir)
    requires d.Mounted() && r.Valid()
    reads d, d.fat
  {
    DirOf(r.Last(), o, j, dir) && IsDir(d, dir) && Present(d, dir)
  }

  lemma ShownParts(d: Drive, r: Run, o: Owner, j: nat, dir: Dir)
    requires d.Mounted() && r.Valid() && DirShown(d, r, o, j, dir)
    ensures DirOf(r.Last(), o, j, dir) && IsDir(d, dir) && Present(d, dir)
  {}

  // A directory after a creation in it.
  lemma DirGrown(a: State, b: State, o: Owner, j: nat, dir: Dir, added: seq<nat>, p: Pos, entry: Slot)
    requires a.Ok() && DirOf(a, o, j, dir) && b.own == GrownBy(a.own, o, added) && (dir.FixedRoot() ==> added == [])
    requires b.v.root == a.v.root && b.v.aside == a.v.aside && b.v.perCluster == a.v.perCluster
              && NewEntry(a.v.slots, b.v.slots, p, entry)
    ensures DirOf(b, o, j, Longer(dir, added))
  {
    assert dir.clusters + [] == dir.clusters;
    if !dir.FixedRoot() {
      DirectoryKept(a, b, o, p, entry);
      hide Layout, NewEntry, EntryOf, IsDirectory;
      assert b.own[o] == a.own[o] + added;
      assert b.own[o][j..] == dir.clusters + added;
      assert Longer(dir, added).clusters[0] == dir.clusters[0];
      assert !Longer(dir, added).FixedRoot() by {
        assert |dir.clusters| == 1 ==> dir.clusters == [dir.clusters[0]];
      }
    }
  }

  lemma DirectoryKept(a: State, b: State, o: Owner, p: Pos, entry: Slot)
    requires a.Ok() && o in a.own && b.v.root == a.v.root && b.v.aside == a.v.aside && NewEntry(a.v.slots, b.v.slots, p, entry)
    ensures EntryOf(b.v, o) == EntryOf(a.v, o)
  {
    assert o in a.own <==> Owns(a.v, o);
    if o.At? {
      assert SameLive(a.v.slots, b.v.slots, o.p);
    }
  }

  lemma SessionDir(d: Drive, s: map<Pos, Slot>, f: Fat, dir: Dir, pr: Progress)
    requires d.Mounted() && Session(d, s, f, dir, pr)
    ensures IsDir(d, Longer(dir, pr.added)) && Present(d, Longer(dir, pr.added)) && (dir.FixedRoot() ==> pr.added == [])
  {}

  lemma SuccessShown(d: Drive, r: Run, v: Volume, o: Owner, j: nat, dir: Dir, pr: Progress, long: bool,
                     name: seq<nat>, entry: Slot, at: Option<Pos>)
    returns (r': Run)
    requires d.Mounted() && r.Valid() && r.Last().Ok() && DirOf(r.Last(), o, j, dir)
    requires v == r.Last().v && View(d).(aside := v.aside) == v.(fat := d.Fat(), slots := d.slots)
    requires Session(d, v.slots, v.fat, dir, pr) && entry.Entry? && entry.first == 0
              && Created(v.slots, dir, pr, long, name, entry, at)
    ensures GoesOn(d, r, r', GrownBy(r.Last().own, o, pr.added)) && at.Some? && NewEntry(v.slots, d.slots, at.value, entry)
    ensures DirShown(d, r', o, j, Longer(dir, pr.added))
  {
    hide DirOf, Layout, Wrote, Grew, Filed, Located, Sparing, SameLive, IsDir, Present;
    FiledOwnsNothing(pr.contents, long, name, entry);
    r' := CreationShown(d, r, v, o, j, dir, pr);
    NewEntryAt(d, v.slots, v.fat, dir, pr, at.value, entry);
    SessionDir(d, v.slots, v.fat, dir, pr);
    DirGrown(r.Last(), r'.Last(), o, j, dir, pr.added, at.value, entry);
  }

  lemma FailureShown(d: Drive, r: Run, v: Volume, o: Owner, j: nat, dir: Dir, pr: Progress) returns (r': Run)
    requires d.Mounted() && r.Valid() && r.Last().Ok() && DirOf(r.Last(), o, j, dir)
    requires v == r.Last().v && View(d).(aside := v.aside) == v.(fat := d.Fat(), slots := d.slots)
    requires Session(d, v.slots, v.fat, dir, pr) && OnlyPieces(pr.contents)
    ensures GoesOn(d, r, r', GrownBy(r.Last().own, o, pr.added)) && forall q: Pos :: SameLive(v.slots, d.slots, q)
  {
    hide DirOf, Layout, Wrote, Grew, Sparing, SameLive, IsDir, Present;
    r' := CreationShown(d, r, v, o, j, dir, pr);
    NoEntryAt(d, v.slots, v.fat, dir, pr);
  }

  // Only unused clusters were added, and nothing outside the directory has changed.
  ghost predicate Local(f: Fat, g: Fat, s: map<Pos, Slot>, t: map<Pos, Slot>, dir: Dir, added: seq<nat>) {
    && (forall i :: 0 <= i < |added| ==> Unused(f, added[i])) && (added == [] ==> g == f)
    && (dir.FixedRoot() ==> added == [])
    && forall p :: p in s && p.cluster !in dir.clusters && p.cluster !in added ==> p in t && t[p] == s[p]
  }

  lemma CreationIsLocal(d: Drive, s: map<Pos, Slot>, f: Fat, dir: Dir, pr: Progress)
    requires d.Mounted() && Session(d, s, f, dir, pr)
    ensures Local(f, d.Fat(), s, d.slots, dir, pr.added) && (dir.FixedRoot() ==> pr.added == [])
    ensures Took(s, d.slots, f, d.Fat(), dir, pr)
    ensures pr.added == [] ==> d.Fat() == f
  {
    forall p | p in s && p.cluster !in dir.clusters && p.cluster !in pr.added
      ensures p in d.slots && d.slots[p] == s[p]
    {
      forall w | 0 <= w < |pr.at| && pr.at[w] < |Longer(dir, pr.added).Flat()|
        ensures Longer(dir, pr.added).Flat()[pr.at[w]] != p
      {
        InLonger(dir, pr.added, pr.at[w]);
      }
    }
  }

  // A creation that was tried, whether it succeeded or not.
  lemma AttemptShown(d: Drive, r: Run, v: Volume, o: Owner, j: nat, dir: Dir, pr: Progress, long: bool,
                     name: seq<nat>, entry: Slot, at: Option<Pos>, error: Error)
    returns (r': Run)
    requires d.Mounted() && r.Valid() && r.Last().Ok() && DirOf(r.Last(), o, j, dir)
    requires v == r.Last().v && OtherParts(d, v.(fat := d.Fat())) && Session(d, v.slots, v.fat, dir, pr)
    requires entry.Entry? && entry.first == 0
    requires if error == NoError then Created(v.slots, dir, pr, long, name, entry, at) else OnlyPieces(pr.contents)
    ensures GoesOn(d, r, r', GrownBy(r.Last().own, o, pr.added))
    ensures Local(v.fat, d.Fat(), v.slots, d.slots, dir, pr.added) && Took(v.slots, d.slots, v.fat, d.Fat(), dir, pr)
    ensures (dir.FixedRoot() ==> pr.added == []) && (pr.added == [] ==> d.Fat() == v.fat)
    ensures error == NoError ==>
              && at.Some? && NewEntry(v.slots, d.slots, at.value, entry) && DirShown(d, r', o, j, Longer(dir, pr.added))
    ensures error != NoError ==> forall q: Pos :: SameLive(v.slots, d.slots, q)
  {
    hide Session, DirOf, Layout, Created, NewEntry, SameLive, Sparing, DirShown, Longer, Took, Local, View, OnlyPieces, OtherParts;
    CreationIsLocal(d, v.slots, v.fat, dir, pr);
    NewSlots(d, v.(fat := d.Fat()));
    if error == NoError {
      r' := SuccessShown(d, r, v, o, j, dir, pr, long, name, entry, at);
    } else {
      r' := FailureShown(d, r, v, o, j, dir, pr);
    }
  }

  lemma NothingLocal(f: Fat, s: map<Pos, Slot>, dir: Dir)
    ensures Local(f, f, s, s, dir, [])
  {}

  // MFS_Create_directory_entry, as part of a run.
  method CreateAt(d: Drive, t: Target, attr: bv8, ghost r: Run, ghost o: Owner, ghost j: nat, ghost dir: Dir)
    returns (error: Error, at: Option<Pos>, ghost own': map<Owner, seq<nat>>, ghost r': Run, ghost pr: Progress)
    requires Shows(d, r) && d.CountOk() && Targets(d, r.Last(), t, o, j, dir)
    modifies d.fat, d`freeCount, d`nextFree, d`slots
    ensures d.nextFree == old(d.nextFree) || d.nextFree >= CLUSTER_MIN_GOOD
    ensures d.CountOk() && GoesOn(d, r, r', own') && own' == GrownBy(r.Last().own, o, pr.added)
    ensures d.readOnly ==> error == WriteProtected
    ensures !d.readOnly && t.lookup.Some? ==> error == FileExists
    ensures d.readOnly || t.lookup.Some? ==>
              && View(d) == old(View(d)) && d.slots == old(d.slots) && d.Fat() == old(d.Fat()) && own' == r.Last().own && r' == r
              && at == (if error == FileExists then t.lookup else None) && pr == Nothing
    ensures error != NoError ==> forall q: Pos :: SameLive(old(d.slots), d.slots, q)
    ensures !d.readOnly && t.lookup == None ==>
              && error == Outcome(old(d.slots), old(d.Fat()), dir, !t.shortOk, PieceCount(|t.name|))
              && if error != NoError then at == None
                 else
                   && Created(old(d.slots), dir, pr, !t.shortOk, t.name, Entry(t.alias, attr, 0, 0), at) && at.Some?
                   && NewEntry(old(d.slots), d.slots, at.value, Entry(t.alias, attr, 0, 0))
                   && Took(old(d.slots), d.slots, old(d.Fat()), d.Fat(), dir, pr) && DirShown(d, r', o, j, Longer(dir, pr.added))
    ensures Local(old(d.Fat()), d.Fat(), old(d.slots), d.slots, dir, pr.added) && (dir.FixedRoot() ==> pr.added == [])
    ensures pr.added == [] ==> d.Fat() == old(d.Fat())
  {
    hide Targets, StaysInside, DirOf, Layout, Outcome, Session, Created, NewEntry, SameLive, IsDir, Present,
         Sparing, DirShown, Longer, Took, Local, Opens, IsName, OnlyPieces, Dense, RunIn, InFirstRun, FreeIn;
    ghost var v := r.Last().v;
    AllParts(d, v);
    TargetShows(d, r.Last(), t, o, j, dir);
    error, at, pr := CreateEntry(d, t.dirCluster, t.lookup, t.shortOk, t.name, t.alias, attr, dir);
    own', r' := GrownBy(r.Last().own, o, pr.added), r;
    if !d.readOnly && t.lookup == None {
      NewParts(d, v);
      r' := AttemptShown(d, r, v, o, j, dir, pr, !t.shortOk, t.name, Entry(t.alias, attr, 0, 0), at, error);
    } else {
      SameLiveAlways(d.slots);
      NothingLocal(d.Fat(), d.slots, dir);
      pr := Nothing;
      own' := r.Last().own;
    }
  }

  // What MFS_Create_entry_slave makes of an entry that exists already, and whether it hands it out.
  function ExistsChecks(found: bv8, attr: bv8, overwrite: bool): (Error, bool) {
    if !overwrite then (FileExists, false)
    else if found & ATTR_DIR_NAME != attr & ATTR_DIR_NAME || found & ATTR_VOLUME_NAME != attr & ATTR_VOLUME_NAME then (WriteFault, false)
    else if found & ATTR_READ_ONLY != 0 then (AccessDenied, false)
    else (FileExists, true)
  }

  // The checks of MFS_Create_entry_slave before it looks for the name.
  function SlaveChecks(readOnly: bool, t: Target, attr: bv8): Error {
    if readOnly then WriteProtected
    else if t.dirCluster == CLUSTER_INVALID then PathNotFound
    else if !t.valid then InvalidParameter
    else if attr & ATTR_VOLUME_NAME != 0 && t.dirCluster != 0 then AccessDenied
    else if attr & ATTR_VOLUME_NAME != 0 && t.labelled then AlreadyAssigned
    else NoError
  }

  // The checks before the creation.
  method CheckTarget(d: Drive, t: Target, attr: bv8) returns (error: Error)
    ensures error == SlaveChecks(d.readOnly, t, attr)
  {
    error := NoError;
    if d.readOnly {
      error := WriteProtected;
    } else if t.dirCluster == CLUSTER_INVALID {
      error := PathNotFound;
    } else if t.valid {
      if attr & ATTR_VOLUME_NAME != 0 {
        if t.dirCluster == 0 {
          if t.labelled {
            error := AlreadyAssigned;
          }
        } else {
          error := AccessDenied;
        }
      }
    } else {
      error := InvalidParameter;
    }
  }

  // The checks behind the creation, on the entry that it made or found.
  method WhatIsThere(e: Error, p: Pos, found: bv8, attr: bv8, overwrite: bool) returns (error: Error, at: Option<Pos>)
    requires e == NoError || e == FileExists
    requires e == NoError ==> found == attr
    ensures e == NoError ==> error == NoError && at == Some(p)
    ensures e == FileExists ==> (error, at.Some?) == ExistsChecks(found, attr, overwrite) && (at.Some? ==> at == Some(p))
  {
    error, at := e, Some(p);
    if error != NoError && !overwrite {
      at := None;
    } else if (error == FileExists && found & ATTR_DIR_NAME != attr & ATTR_DIR_NAME)
           || found & ATTR_VOLUME_NAME != attr & ATTR_VOLUME_NAME {
      error, at := WriteFault, None;
    } else if found & ATTR_READ_ONLY != 0 && error != NoError {
      error, at := AccessDenied, None;
    }
  }

  // A new entry, or an old one of the same kind that may be overwritten.
  method EntrySlave(d: Drive, attr: bv8, t: Target, overwrite: bool, ghost r: Run, ghost o: Owner, ghost j: nat,
                    ghost dir: Dir)
    returns (error: Error, at: Option<Pos>, ghost own': map<Owner, seq<nat>>, ghost r': Run, ghost pr: Progress)
    requires Shows(d, r) && d.CountOk()
    requires t.dirCluster != CLUSTER_INVALID && t.valid ==> Targets(d, r.Last(), t, o, j, dir)
    modifies d.fat, d`freeCount, d`nextFree, d`slots
    ensures d.nextFree == old(d.nextFree) || d.nextFree >= CLUSTER_MIN_GOOD
    ensures d.CountOk() && GoesOn(d, r, r', own')
    ensures SlaveChecks(d.readOnly, t, attr) != NoError ==> error == SlaveChecks(d.readOnly, t, attr) && at == None
    ensures SlaveChecks(d.readOnly, t, attr) == NoError && t.lookup.Some? ==>
              && t.lookup.value in old(d.slots) && old(d.slots)[t.lookup.value].Entry?
              && (error, at.Some?) == ExistsChecks(old(d.slots)[t.lookup.value].attr, attr, overwrite)
              && (at.Some? ==> at == t.lookup)
    ensures SlaveChecks(d.readOnly, t, attr) != NoError || t.lookup.Some? ==>
              View(d) == old(View(d)) && d.slots == old(d.slots) && d.Fat() == old(d.Fat()) && own' == r.Last().own && r' == r
    ensures SlaveChecks(d.readOnly, t, attr) == NoError && t.lookup == None ==>
              && error == Outcome(old(d.slots), old(d.Fat()), dir, !t.shortOk, PieceCount(|t.name|))
              && (at.Some? <==> error == NoError)
              && (error == NoError ==>
                   && DirShown(d, r', o, j, Longer(dir, pr.added)) && Took(old(d.slots), d.slots, old(d.Fat()), d.Fat(), dir, pr)
                   && NewEntry(old(d.slots), d.slots, at.value, Entry(t.alias, attr, 0, 0))
                   && Created(old(d.slots), dir, pr, !t.shortOk, t.name, Entry(t.alias, attr, 0, 0), at))
              && (error != NoError ==> own' == GrownBy(r.Last().own, o, pr.added) && forall q: Pos :: SameLive(old(d.slots), d.slots, q))
    ensures pr.added == [] ==> d.Fat() == old(d.Fat())
  {
    hide Targets, StaysInside, View, Layout, DirOf, IsDir, Present, DirShown, Longer, Outcome, Created, NewEntry,
         SameLive, Local, Took, Sparing, FreeCells, GrownBy, Opens, IsName, ExistsChecks;
    at, own', r', pr := None, r.Last().own, r, Nothing;
    error := CheckTarget(d, t, attr);
    CheckFacts(d.readOnly, t, attr);
    hide SlaveChecks;
    if error == NoError {
      TargetShows(d, r.Last(), t, o, j, dir);
      error, at, own', r', pr := CreateAt(d, t, attr, r, o, j, dir);
      if at.Some? {
        if error == NoError {
          EntryThere(old(d.slots), d.slots, at.value, Entry(t.alias, attr, 0, 0));
        }
        error, at := WhatIsThere(error, at.value, d.slots[at.value].attr, attr, overwrite);
      }
    }
  }

  lemma EntryThere(s: map<Pos, Slot>, t: map<Pos, Slot>, p: Pos, entry: Slot)
    requires NewEntry(s, t, p, entry)
    ensures p in t && t[p] == entry
  {}

  // ---- open files ----

  ghost function EntryCopy(h: Handle): Slot
    reads h
  {
    Entry(h.name, h.attr, h.first, h.size)
  }

  // The first slot in use from flat index x on takes the copy, if there is one before a never used slot.
  ghost predicate Updated(s: map<Pos, Slot>, t: map<Pos, Slot>, dir: Dir, x: nat, copy: Slot, error: Error)
    requires AllIn(s, dir) && x < |dir.Flat()|
  {
    var y := FirstHalt(s, dir, InUse, x);
    if y < |dir.Flat()| && Takes(s[dir.Flat()[y]], InUse) then error == NoError && t == s[dir.Flat()[y] := copy]
    else error == FileNotFound && t == s
  }

  // MFS_Update_entry; x is the flat index of the handle's slot in its directory.
  method UpdateEntry(d: Drive, h: Handle?, ghost dir: Dir, ghost x: nat) returns (error: Error)
    requires d.Mounted()
    requires h != null ==> IsDir(d, dir) && Present(d, dir) && x < |dir.Flat()| && h.At(dir.Flat()[x])
    modifies d`slots
    ensures d.readOnly ==> error == WriteProtected && d.slots == old(d.slots)
    ensures !d.readOnly && h == null ==> error == InvalidHandle && d.slots == old(d.slots)
    ensures !d.readOnly && h != null ==> Updated(old(d.slots), d.slots, dir, x, EntryCopy(h), error)
  {
    if d.readOnly {
      return WriteProtected;
    }
    if h == null {
      return InvalidHandle;
    }
    ghost var j := SlotBefore(dir, x);
    var found, c, i, previous;
    ghost var j', y;
    found, c, i, previous, j', y := FindSlot(d, InUse, h.dirCluster, h.dirIndex, CLUSTER_INVALID, dir, j, x);
    if !found {
      return FileNotFound;
    }
    d.slots := d.slots[Pos(c, i) := Entry(h.name, h.attr, h.first, h.size)];
    error := NoError;
  }

  /**
   * An open file whose slot is in use updates that slot. If the slot was deleted under it, the update
   * overwrites the next slot in use, or is refused.
   */
  lemma UpdateHits(s: map<Pos, Slot>, t: map<Pos, Slot>, dir: Dir, x: nat, copy: Slot, error: Error)
    requires AllIn(s, dir) && x < |dir.Flat()| && FlatInjective(dir) && copy.Entry? && Updated(s, t, dir, x, copy, error)
    ensures Takes(s[dir.Flat()[x]], InUse) ==> error == NoError && t == s[dir.Flat()[x] := copy]
    ensures s[dir.Flat()[x]].Deleted? ==>
              && dir.Flat()[x] in t && t[dir.Flat()[x]] == Deleted
              && (error == NoError ==> exists y: nat ::
                x < y < |dir.Flat()| && Takes(s[dir.Flat()[y]], InUse) && t == s[dir.Flat()[y] := copy])
  {
    var y := FirstHalt(s, dir, InUse, x);
    if s[dir.Flat()[x]].Deleted? && y < |dir.Flat()| {
      assert y > x;
    }
  }

  lemma UpdatesItself(s: map<Pos, Slot>, t: map<Pos, Slot>, dir: Dir, x: nat, copy: Slot, error: Error)
    requires AllIn(s, dir) && x < |dir.Flat()| && Updated(s, t, dir, x, copy, error) && s[dir.Flat()[x]].Entry?
    ensures error == NoError && t == s[dir.Flat()[x] := copy]
  {}

  // The cursor of an open file is at its beginning.
  ghost predicate Rewound(h: Handle)
    reads h
  {
    h.currentCluster == 0 && h.previousCluster == 0
  }

  // Every open file that refers to slot p starts over.
  method Rewind(d: Drive, p: Pos)
    requires NoTwice(d.handles)
    modifies d.handles`currentCluster, d.handles`previousCluster
    ensures forall x :: x in d.handles && x.At(p) ==> Rewound(x)
    ensures forall x :: x in d.handles && !x.At(p) ==>
      x.currentCluster == old(x.currentCluster) && x.previousCluster == old(x.previousCluster)
    ensures Opens(d.handles) == old(Opens(d.handles))
  {
    var k := 0;
    while k < |d.handles|
      invariant 0 <= k <= |d.handles|
      invariant forall i :: 0 <= i < k && d.handles[i].At(p) ==> Rewound(d.handles[i])
      invariant forall i :: 0 <= i < |d.handles| && (i >= k || !d.handles[i].At(p)) ==>
                  && d.handles[i].currentCluster == old(d.handles[i].currentCluster)
                  && d.handles[i].previousCluster == old(d.handles[i].previousCluster)
    {
      var x := d.handles[k];
      if x.dirCluster == p.cluster && x.dirIndex == p.index {
        x.currentCluster := 0;
        x.previousCluster := 0;
      }
      k := k + 1;
    }
  }

  // The new table and slot of a truncated file, whose slot is the one with flat index x.
  method ReleaseFile(d: Drive, h: Handle, attr: bv8, ghost a: State, ghost o: Owner, ghost j: nat, ghost dir: Dir, ghost x: nat)
    requires d.Mounted() && d.CountOk() && d.cache.Valid() && d.cache.readOnly == d.readOnly && !d.readOnly
    requires a.Ok() && a.v.fat == d.Fat() && a.v.slots == d.slots && DirOf(a, o, j, dir) && IsDir(d, dir) && Present(d, dir)
    requires x < |dir.Flat()| && h.At(dir.Flat()[x]) && d.slots[dir.Flat()[x]] == EntryCopy(h) && h.attr & ATTR_DIR_NAME == 0
    modifies d.fat, d`freeCount, d`slots, d.cache`number, d.cache`dirty, h`first, h`size, h`attr
    ensures d.CountOk() && d.cache.Valid()
    ensures d.Fat() == if old(h.first) == 0 then old(d.Fat()) else Released(old(d.Fat()), old(h.first))
    ensures d.slots == old(d.slots)[dir.Flat()[x] := Entry(h.name, attr, 0, 0)] && EntryCopy(h) == d.slots[dir.Flat()[x]]
    ensures h.At(dir.Flat()[x]) && Opens(d.handles) == old(Opens(d.handles))
  {
    hide Layout, DirOf, FreesExactly, ChainOf, FreeCells, IsChain, DropsFreedSector, DirIn, IsDir, Released;
    ghost var p := dir.Flat()[x];
    IsDirIn(d, dir, a.v.fat);
    ReleasedNothing(d.Fat());
    var _ := ReleaseChain(d, h.first);
    DirStays(d, a, o, j, dir, p);
    MarkEmpty(d, h, attr, dir, x);
  }

  // The file of a handle is empty, and its entry says so.
  method MarkEmpty(d: Drive, h: Handle, attr: bv8, ghost dir: Dir, ghost x: nat)
    requires d.Mounted() && !d.readOnly && IsDir(d, dir) && Present(d, dir)
    requires x < |dir.Flat()| && h.At(dir.Flat()[x]) && d.slots[dir.Flat()[x]].Entry?
    modifies d`slots, h`first, h`size, h`attr
    ensures d.slots == old(d.slots)[dir.Flat()[x] := Entry(h.name, attr, 0, 0)] && EntryCopy(h) == d.slots[dir.Flat()[x]]
    ensures h.At(dir.Flat()[x]) && Opens(d.handles) == old(Opens(d.handles))
  {
    hide Updated, IsDir;
    h.first := 0;
    h.size := 0;
    h.attr := attr;
    ghost var s := d.slots;
    var e := UpdateEntry(d, h, dir, x);
    UpdatesItself(s, d.slots, dir, x, EntryCopy(h), e);
  }

  lemma ReleasedNothing(f: Fat)
    ensures Released(f, 0) == f
  {}

  lemma IsDirIn(d: Drive, dir: Dir, f: Fat)
    requires d.Mounted() && IsDir(d, dir) && f == d.Fat()
    ensures DirIn(d, f, dir)
  {}

  // A directory keeps its chain when the chain of a file is released.
  lemma DirStays(d: Drive, a: State, o: Owner, j: nat, dir: Dir, p: Pos)
    requires d.Mounted() && a.Ok() && DirOf(a, o, j, dir) && DirIn(d, a.v.fat, dir) && |a.v.fat| == d.fat.Length
    requires p in a.v.slots && a.v.slots[p].Entry? && !IsDirectory(a.v.slots[p])
    requires d.Fat() == Released(a.v.fat, a.v.slots[p].first)
    ensures IsDir(d, dir)
  {
    FileIsNoOwner(a, o, j, dir, p);
    hide Layout, DirOf, IsChain, Released;
    ReleasedNothing(a.v.fat);
    ChainFreed(a, d.Fat(), p);
    HomeStays(d, a, o, j, dir, p);
  }

  // ... and its cursors.
  method Overwrite(d: Drive, h: Handle, attr: bv8, ghost a: State, ghost o: Owner, ghost j: nat, ghost dir: Dir, ghost x: nat)
    requires d.Mounted() && d.CountOk() && d.cache.Valid() && d.cache.readOnly == d.readOnly && !d.readOnly && NoTwice(d.handles)
    requires a.Ok() && a.v.fat == d.Fat() && a.v.slots == d.slots && DirOf(a, o, j, dir) && IsDir(d, dir) && Present(d, dir)
    requires x < |dir.Flat()| && h.At(dir.Flat()[x]) && d.slots[dir.Flat()[x]] == EntryCopy(h) && h.attr & ATTR_DIR_NAME == 0
    modifies d.fat, d`freeCount, d`slots, d.cache`number, d.cache`dirty
    modifies h`first, h`size, h`attr, d.handles`currentCluster, d.handles`previousCluster
    ensures d.CountOk() && d.cache.Valid()
    ensures d.Fat() == if old(h.first) == 0 then old(d.Fat()) else Released(old(d.Fat()), old(h.first))
    ensures d.slots == old(d.slots)[dir.Flat()[x] := Entry(h.name, attr, 0, 0)] && EntryCopy(h) == d.slots[dir.Flat()[x]]
    ensures Opens(d.handles) == old(Opens(d.handles))
    ensures forall y :: y in d.handles && y.At(dir.Flat()[x]) ==> Rewound(y)
    ensures forall y :: y in d.handles && !y.At(dir.Flat()[x]) ==>
      y.currentCluster == old(y.currentCluster) && y.previousCluster == old(y.previousCluster)
    ensures forall y :: y in d.handles && y != h ==> EntryCopy(y) == old(EntryCopy(y))
  {
    hide Layout, DirOf, FreeCells, IsDir, Present, Opens;
    ReleaseFile(d, h, attr, a, o, j, dir, x);
    Rewind(d, Pos(h.dirCluster, h.dirIndex));
  }

  lemma VacatedShown(d: Drive, v: Volume, p: Pos, attr: bv8)
    requires d.Mounted() && v.aside == None && p in v.slots && v.slots[p].Entry? && v.slots[p].attr & ATTR_DIR_NAME == 0
    requires d.slots == v.slots[p := Entry(v.slots[p].name, attr, 0, 0)]
    requires d.Fat() == if v.slots[p].first == 0 then v.fat else Released(v.fat, v.slots[p].first)
    requires v.root == d.rootCluster && v.perCluster == d.SlotsPerCluster() && v.opens == Opens(d.handles)
    ensures Vacated(v, View(d), p, d.slots[p])
  {}

  /**
   * The overwriting branch of MFS_Create_file: exactly the chain of the file is freed, and every file
   * open on the slot starts over, however many there are. Their copies of the entry keep their first cluster.
   */
  method Truncate(d: Drive, h: Handle, p: Pos, attr: bv8, ghost r: Run, ghost o: Owner, ghost j: nat, ghost dir: Dir)
    returns (ghost own': map<Owner, seq<nat>>, ghost r': Run)
    requires Shows(d, r) && r.Last().v.aside == None && NoTwice(d.handles)
    requires d.CountOk() && d.cache.Valid() && d.cache.readOnly == d.readOnly && !d.readOnly
    requires p in d.slots && d.slots[p] == EntryCopy(h) && h.attr & ATTR_DIR_NAME == 0 && attr & ATTR_DIR_NAME == 0
    requires h.At(p) && p in dir.Flat() && DirOf(r.Last(), o, j, dir) && IsDir(d, dir) && Present(d, dir)
    modifies d.fat, d`freeCount, d`slots, d.cache`number, d.cache`dirty
    modifies h`first, h`size, h`attr, d.handles`currentCluster, d.handles`previousCluster
    ensures d.CountOk() && d.cache.Valid() && GoesOn(d, r, r', own') && own' == r.Last().own - {At(p)}
    ensures FreesExactly(old(d.Fat()), d.Fat(), ChainOf(r.Last().own, At(p)))
    ensures d.slots == old(d.slots)[p := Entry(h.name, attr, 0, 0)] && EntryCopy(h) == d.slots[p]
    ensures forall x :: x in d.handles && x.At(p) ==> Rewound(x)
    ensures forall x :: x in d.handles && !x.At(p) ==>
      x.currentCluster == old(x.currentCluster) && x.previousCluster == old(x.previousCluster)
    ensures forall x :: x in d.handles && x != h ==> EntryCopy(x) == old(EntryCopy(x))
  {
    hide View, Layout, Step, FreesExactly, Sparing, Vacated, ChainOf, FreeCells, DirOf, IsChain, IsDir, Present, Opens;
    ghost var v := r.Last().v;
    AllParts(d, v);
    ghost var x: nat :| x < |dir.Flat()| && dir.Flat()[x] == p;
    Overwrite(d, h, attr, r.Last(), o, j, dir, x);
    own' := r.Last().own - {At(p)};
    VacatedShown(d, v, p, attr);
    r' := VacateRun(r, View(d), p, d.slots[p]);
  }

  // The attributes a new file can be given.
  const FILE_ATTRS: bv8 := 0x2F

  function CreateAttr(attr: bv8): (r: bv8)
    ensures r & ATTR_DIR_NAME == 0 && r & ATTR_ARCHIVE != 0
    ensures r & ATTR_VOLUME_NAME == attr & ATTR_VOLUME_NAME && r & ATTR_READ_ONLY == attr & ATTR_READ_ONLY
    ensures r & 0x06 == attr & 0x06 && r & 0xC0 == 0   // hidden and system; the two bits that mean nothing
  {
    (attr & FILE_ATTRS) | ATTR_ARCHIVE
  }

  // A handle for the entry of slot p, with its cursor at the beginning.
  method OpenAt(d: Drive, p: Pos, alloc: bool, ghost r: Run) returns (h: Handle?, ghost r': Run)
    requires Shows(d, r) && r.Last().v.aside == None && NoTwice(d.handles)
    requires p in d.slots && Live(d.slots[p])
    modifies d`handles
    ensures h == null <==> !alloc
    ensures h == null ==> d.handles == old(d.handles) && r' == r
    ensures h != null ==>
              && fresh(h) && d.handles == old(d.handles) + [h] && NoTwice(d.handles)
              && h.valid && h.At(p) && Rewound(h) && EntryCopy(h) == d.slots[p]
              && GoesOn(d, r, r', r.Last().own) && r'.Last().v == r.Last().v.(opens := r'.Last().v.opens)
  {
    hide Layout, Sparing;
    r' := r;
    h := GetHandle(d, d.slots[p], alloc);
    if h != null {
      h.dirCluster := p.cluster;
      h.dirIndex := p.index;
      h.currentCluster := 0;
      h.previousCluster := 0;
      assert Opens(d.handles) == old(Opens(d.handles)) + [p];
      r' := OpenedRun(r, View(d), p);
    }
  }

  lemma OpenedRun(r: Run, w: Volume, p: Pos) returns (r': Run)
    requires r.Valid() && r.Last().Ok() && p in r.Last().v.slots && Live(r.Last().v.slots[p])
    requires w == r.Last().v.(opens := r.Last().v.opens + [p])
    ensures From(r', r.states[0], State(w, r.Last().own)) && r'.Last().Ok() && (Sparing(r) ==> Sparing(r'))
  {
    hide Layout, Sparing;
    var b := State(w, r.Last().own);
    assert Step(r.Last(), Open(p), b);
    StepKeeps(r.Last(), Open(p), b);
    SparingThen(r, Open(p), b);
    r' := Then(r, Open(p), b);
  }

  // An open of an entry that has just been made.
  method OpenNew(d: Drive, p: Pos, alloc: bool, ghost s: map<Pos, Slot>, ghost entry: Slot,
                 ghost r: Run, ghost o: Owner, ghost j: nat, ghost dir: Dir)
    returns (error: Error, h: Handle?, ghost r': Run)
    requires Shows(d, r) && r.Last().v.aside == None && NoTwice(d.handles)
    requires NewEntry(s, d.slots, p, entry) && Live(entry) && DirShown(d, r, o, j, dir)
    modifies d`handles
    ensures error == (if alloc then NoError else InsufficientMemory) && (h == null <==> !alloc)
    ensures h == null ==> d.handles == old(d.handles) && r' == r
    ensures h != null ==>
              && fresh(h) && d.handles == old(d.handles) + [h] && NoTwice(d.handles)
              && h.valid && h.At(p) && Rewound(h) && EntryCopy(h) == entry
              && GoesOn(d, r, r', r.Last().own) && DirShown(d, r', o, j, dir)
  {
    hide View, Layout, Step, Sparing, NewEntry, DirOf, IsDir, Present, SameLive;
    EntryThere(s, d.slots, p, entry);
    ShownParts(d, r, o, j, dir);
    h, r' := OpenAt(d, p, alloc, r);
    error := if h == null then InsufficientMemory else NoError;
    if h != null {
      OpenKeepsDir(r.Last(), r'.Last(), o, j, dir);
    }
  }

  // An open of a file that was there: it is empty now, and so are the cursors of all that are open on it.
  ghost predicate Emptied(d: Drive, p: Pos, h: Handle, attr: bv8)
    reads d, d.handles, h
  {
    && p in d.slots && d.slots[p] == EntryCopy(h) && h.first == 0 && h.size == 0 && h.attr == attr
    && h in d.handles && forall x :: x in d.handles && x.At(p) ==> Rewound(x)
  }

  lemma OpenKeepsDir(a: State, b: State, o: Owner, j: nat, dir: Dir)
    requires DirOf(a, o, j, dir) && b.own == a.own && b.v == a.v.(opens := b.v.opens)
    ensures DirOf(b, o, j, dir)
  {}

  // Opening an entry that was there: it is truncated, if there is memory for the handle.
  method OpenOld(d: Drive, p: Pos, attr: bv8, alloc: bool, ghost r: Run, ghost o: Owner, ghost j: nat, ghost dir: Dir)
    returns (h: Handle?, ghost own': map<Owner, seq<nat>>, ghost r': Run)
    requires Shows(d, r) && r.Last().v.aside == None && NoTwice(d.handles)
    requires d.CountOk() && d.cache.Valid() && d.cache.readOnly == d.readOnly && !d.readOnly
    requires p in d.slots && d.slots[p].Entry? && d.slots[p].attr & ATTR_DIR_NAME == 0 && attr & ATTR_DIR_NAME == 0
    requires p in dir.Flat() && DirOf(r.Last(), o, j, dir) && IsDir(d, dir) && Present(d, dir)
    modifies d.fat, d`freeCount, d`slots, d.cache`number, d.cache`dirty, d`handles
    modifies d.handles`currentCluster, d.handles`previousCluster
    ensures d.CountOk() && d.cache.Valid() && NoTwice(d.handles) && GoesOn(d, r, r', own')
    ensures h == null <==> !alloc
    ensures !alloc ==> own' == r.Last().own && View(d) == old(View(d)) && d.handles == old(d.handles) && d.slots == old(d.slots)
    ensures !alloc ==> d.Fat() == old(d.Fat())
    ensures alloc ==>
              && fresh(h) && d.handles == old(d.handles) + [h] && h.valid && h.At(p)
              && own' == r.Last().own - {At(p)} && FreesExactly(old(d.Fat()), d.Fat(), ChainOf(r.Last().own, At(p)))
              && d.slots == old(d.slots)[p := Entry(old(d.slots)[p].name, attr, 0, 0)] && Emptied(d, p, h, attr)
    ensures forall x :: x in old(d.handles) ==> EntryCopy(x) == old(EntryCopy(x)) && (!x.At(p) ==>
      x.currentCluster == old(x.currentCluster))
  {
    hide View, Layout, Step, FreesExactly, Sparing, FreeCells, IsChain;
    own' := r.Last().own;
    h, r' := OpenAt(d, p, alloc, r);
    if h != null {
      OpenKeepsDir(r.Last(), r'.Last(), o, j, dir);
      own', r' := Truncate(d, h, p, attr, r', o, j, dir);
    }
  }

  lemma SaneShows(d: Drive, own: map<Owner, seq<nat>>) returns (r: Run)
    requires Sane(d, own)
    ensures r == Here(State(View(d), own)) && Shows(d, r) && r.Last().own == own && Sparing(r) && r.Last().v.aside == None
  {
    r := Here(State(View(d), own));
  }

  lemma ShownIsView(d: Drive, r: Run)
    requires d.Mounted() && r.Valid() && Shows(d, r) && r.Last().v.aside == None
    ensures r.Last().v == View(d)
  {}

  // How a creation by path ends without an entry to open; attr are the attributes asked for.
  ghost predicate Refused(d: Drive, path: seq<nat>, t: Target, attr: bv8, overwrite: bool)
    reads d
  {
    path == [] || SlaveChecks(d.readOnly, t, attr) != NoError
    || (t.lookup.Some? && (t.lookup.value !in d.slots || !d.slots[t.lookup.value].Entry?
                           || !ExistsChecks(d.slots[t.lookup.value].attr, attr, overwrite).1))
  }

  ghost function RefusalError(d: Drive, path: seq<nat>, t: Target, attr: bv8, overwrite: bool): Error
    reads d
  {
    if path == [] then InvalidParameter
    else if SlaveChecks(d.readOnly, t, attr) != NoError then SlaveChecks(d.readOnly, t, attr)
    else if t.lookup.Some? && t.lookup.value in d.slots && d.slots[t.lookup.value].Entry? then
      ExistsChecks(d.slots[t.lookup.value].attr, attr, overwrite).0
    else NoError
  }

  lemma CreatedBits(attributes: bv8, found: bv8)
    ensures CreateAttr(attributes) & ATTR_VOLUME_NAME == attributes & ATTR_VOLUME_NAME
    ensures CreateAttr(attributes) & ATTR_DIR_NAME == 0
    ensures found & ATTR_VOLUME_NAME != attributes & ATTR_VOLUME_NAME
            <==> (found & ATTR_VOLUME_NAME != 0) != (attributes & ATTR_VOLUME_NAME != 0)
  {}

  /**
   * A creation is refused without a path, on a read-only drive, in no directory or under no valid name; for a
   * label, outside the root or beside another one; and where an entry is that is a directory, read-only, or a
   * label where none is asked for, or the other way round.
   */
  lemma RefusedMeans(d: Drive, path: seq<nat>, t: Target, attributes: bv8)
    requires t.lookup.Some? ==> t.lookup.value in d.slots && d.slots[t.lookup.value].Entry?
    ensures var early := path == [] || d.readOnly || t.dirCluster == CLUSTER_INVALID || !t.valid;
            var asLabel := attributes & ATTR_VOLUME_NAME != 0;
            var badLabel := asLabel && (t.dirCluster != 0 || t.labelled);
            var kind := t.lookup.Some? && (d.slots[t.lookup.value].attr & ATTR_DIR_NAME != 0
                                           || (d.slots[t.lookup.value].attr & ATTR_VOLUME_NAME != 0) != asLabel);
            var protected := t.lookup.Some? && d.slots[t.lookup.value].attr & ATTR_READ_ONLY != 0;
            var error := RefusalError(d, path, t, CreateAttr(attributes), true);
            && (Refused(d, path, t, CreateAttr(attributes), true) <==> early || badLabel || kind || protected)
            && (early ==> match error
                          case InvalidParameter => path == [] || !t.valid
                          case WriteProtected => d.readOnly
                          case PathNotFound => t.dirCluster == CLUSTER_INVALID
                          case _ => false)
            && (!early && badLabel ==> error == if t.dirCluster != 0 then AccessDenied else AlreadyAssigned)
            && (!early && !badLabel && kind ==> error == WriteFault)
            && (!early && !badLabel && !kind && protected ==> error == AccessDenied)
  {
    hide CreateAttr;
    CreatedBits(attributes, if t.lookup.Some? then d.slots[t.lookup.value].attr else 0);
  }

  ghost predicate TargetsIfAny(d: Drive, own: map<Owner, seq<nat>>, t: Target, o: Owner, j: nat, dir: Dir)
    requires d.Mounted()
    reads d, d.fat, d.handles
  {
    t.dirCluster != CLUSTER_INVALID && t.valid ==> Targets(d, State(View(d), own), t, o, j, dir)
  }

  lemma CheckFacts(readOnly: bool, t: Target, attr: bv8)
    ensures SlaveChecks(readOnly, t, attr) == NoError ==> !readOnly && t.dirCluster != CLUSTER_INVALID && t.valid
    ensures forall found: bv8 :: ExistsChecks(found, attr, true).1 ==>
              && ExistsChecks(found, attr, true).0 == FileExists && found & ATTR_DIR_NAME == attr & ATTR_DIR_NAME
              && found & ATTR_VOLUME_NAME == attr & ATTR_VOLUME_NAME
  {}

  // What an open of an entry that was there leaves.
  ghost predicate Reopened(s: map<Pos, Slot>, f: Fat, d: Drive, own: map<Owner, seq<nat>>, own': map<Owner, seq<nat>>,
      p: Pos, attr: bv8, h: Handle)
    requires d.Mounted()
    reads d, d.fat, d.handles, h
  {
    && h.valid && h.At(p) && own' == own - {At(p)} && FreesExactly(f, d.Fat(), ChainOf(own, At(p)))
    && p in s && s[p].Entry? && d.slots == s[p := Entry(s[p].name, attr, 0, 0)] && Emptied(d, p, h, attr)
  }

  // A new entry was made, under its name and with all that this takes; an open file refers to it.
  ghost predicate NewlyMade(s: map<Pos, Slot>, w: map<Pos, Slot>, f: Fat, g: Fat, dir: Dir, pr: Progress, t: Target,
                            entry: Slot, h: Handle?)
    requires entry.Entry?
    reads h
  {
    exists p: Pos ::
      && NewEntry(s, w, p, entry) && Created(s, dir, pr, !t.shortOk, t.name, entry, Some(p)) && Took(s, w, f, g, dir, pr)
      && (h != null ==> h.At(p))
  }

  // The entry that MFS_Create_entry_slave hands out is opened: an old one (FileExists) is truncated.
  method OpenEntry(d: Drive, e: Error, p: Pos, attr: bv8, alloc: bool, ghost r: Run, ghost o: Owner, ghost j: nat, ghost dir: Dir)
    returns (error: Error, h: Handle?, ghost own': map<Owner, seq<nat>>, ghost r': Run)
    requires Shows(d, r) && r.Last().v.aside == None && NoTwice(d.handles)
    requires d.CountOk() && d.cache.Valid() && d.cache.readOnly == d.readOnly && !d.readOnly
    requires attr & ATTR_DIR_NAME == 0 && p in d.slots && Live(d.slots[p])
    requires e == FileExists ==>
               d.slots[p].attr & ATTR_DIR_NAME == 0 && p in dir.Flat() && DirOf(r.Last(), o, j, dir) && IsDir(d, dir)
                   && Present(d, dir)
    modifies d.fat, d`freeCount, d`slots, d.cache`number, d.cache`dirty, d`handles
    modifies d.handles`currentCluster, d.handles`previousCluster
    ensures d.CountOk() && d.cache.Valid() && NoTwice(d.handles) && GoesOn(d, r, r', own')
    ensures (h == null <==> !alloc) && error == if alloc then NoError else InsufficientMemory
    ensures !alloc ==> own' == r.Last().own && View(d) == old(View(d)) && d.handles == old(d.handles) && d.slots == old(d.slots)
    ensures !alloc ==> d.Fat() == old(d.Fat())
    ensures alloc ==> fresh(h) && d.handles == old(d.handles) + [h]
    ensures alloc && e == FileExists ==> Reopened(old(d.slots), old(d.Fat()), d, r.Last().own, own', p, attr, h)
    ensures alloc && e != FileExists ==>
              && own' == r.Last().own && d.slots == old(d.slots) && d.Fat() == old(d.Fat())
              && h.valid && h.At(p) && Rewound(h) && EntryCopy(h) == d.slots[p]
    ensures forall x :: x in old(d.handles) ==> EntryCopy(x) == old(EntryCopy(x))
  {
    hide View, Layout, Step, FreesExactly, Sparing, FreeCells, IsChain, DirOf, IsDir, Present, ChainOf, Emptied;
    own' := r.Last().own;
    if e == FileExists {
      h, own', r' := OpenOld(d, p, attr, alloc, r, o, j, dir);
    } else {
      h, r' := OpenAt(d, p, alloc, r);
    }
    error := if h == null then InsufficientMemory else NoError;
  }

  lemma RefusedTells(d: Drive, path: seq<nat>, t: Target, attr: bv8)
    ensures var error := RefusalError(d, path, t, attr, true);
            if path == [] then Refused(d, path, t, attr, true) && error == InvalidParameter
            else if SlaveChecks(d.readOnly, t, attr) != NoError then
              Refused(d, path, t, attr, true) && error == SlaveChecks(d.readOnly, t, attr)
            else if !t.lookup.Some? then !Refused(d, path, t, attr, true)
            else t.lookup.value in d.slots && d.slots[t.lookup.value].Entry? ==>
              var found := ExistsChecks(d.slots[t.lookup.value].attr, attr, true);
              (Refused(d, path, t, attr, true) <==> !found.1) && error == found.0
    ensures d.readOnly ==> SlaveChecks(d.readOnly, t, attr) == WriteProtected
  {}

  lemma TargetKnown(d: Drive, own: map<Owner, seq<nat>>, t: Target, o: Owner, j: nat, dir: Dir)
    requires d.Mounted() && TargetsIfAny(d, own, t, o, j, dir)
    ensures t.dirCluster != CLUSTER_INVALID && t.valid ==> Targets(d, State(View(d), own), t, o, j, dir)
  {}

  /**
   * MFS_Create_file: opens a new entry, or truncates an old one of the same kind that is not read-only
   * and opens it. A volume label is created, but not opened.
   */
  method CreateFile(d: Drive, path: seq<nat>, attributes: bv8, t: Target, alloc: bool,
                    ghost own: map<Owner, seq<nat>>, ghost o: Owner, ghost j: nat, ghost dir: Dir)
    returns (error: Error, h: Handle?, ghost own': map<Owner, seq<nat>>, ghost r: Run, ghost pr: Progress)
    requires Sane(d, own) && TargetsIfAny(d, own, t, o, j, dir)
    modifies d.fat, d`freeCount, d`nextFree, d`slots, d.cache`number, d.cache`dirty, d`handles
    modifies d.handles`currentCluster, d.handles`previousCluster
    ensures Sane(d, own') && From(r, State(old(View(d)), own), State(View(d), own')) && Sparing(r)
    ensures old(Refused(d, path, t, CreateAttr(attributes), true)) ==>
              && error == old(RefusalError(d, path, t, CreateAttr(attributes), true))
              && h == null && own' == own && View(d) == old(View(d))
    ensures !old(Refused(d, path, t, CreateAttr(attributes), true)) && t.lookup.Some? ==>
              var p, attr := t.lookup.value, CreateAttr(attributes);
              if attr & ATTR_VOLUME_NAME != 0 then error == FileExists && h == null && View(d) == old(View(d))
              else if !alloc then error == InsufficientMemory && h == null && View(d) == old(View(d))
              else
                && error == NoError && h != null && d.handles == old(d.handles) + [h]
                && Reopened(old(d.slots), old(d.Fat()), d, own, own', p, attr, h)
    ensures !old(Refused(d, path, t, CreateAttr(attributes), true)) && t.lookup == None ==>
              var entry := Entry(t.alias, CreateAttr(attributes), 0, 0);
              var outcome := Outcome(old(d.slots), old(d.Fat()), dir, !t.shortOk, PieceCount(|t.name|));
              if outcome != NoError then
                && error == outcome && h == null && d.handles == old(d.handles)
                && own' == GrownBy(own, o, pr.added) && forall q: Pos :: SameLive(old(d.slots), d.slots, q)
              else
                && error == (if entry.attr & ATTR_VOLUME_NAME != 0 || alloc then NoError else InsufficientMemory)
                && NewlyMade(old(d.slots), d.slots, old(d.Fat()), d.Fat(), dir, pr, t, entry, h)
                && (h != null <==> alloc && entry.attr & ATTR_VOLUME_NAME == 0)
                && (h != null ==> h.valid && Rewound(h) && EntryCopy(h) == entry && d.handles == old(d.handles) + [h])
    ensures h != null ==> fresh(h)
    ensures forall x :: x in old(d.handles) ==> EntryCopy(x) == old(EntryCopy(x))
  {
    hide View, Layout, Step, FreesExactly, Sparing, FreeCells, IsChain, NewEntry, Created, Targets, ChainOf,
         OpensLive, Emptied, CreateAttr, DirOf, IsDir, Present, Outcome, DirShown, Longer, Reopened, StaysInside, DirIn,
         SameLive, Took, NoTwice, IsName, Local, Opens, EntryCopy, Rewound, Refused,
         RefusalError, SlaveChecks, ExistsChecks, TargetsIfAny;
    error, h, own', pr := NoError, null, own, Nothing;
    r := SaneShows(d, own);
    RefusedTells(d, path, t, CreateAttr(attributes));
    if path == [] {
      error := InvalidParameter;
      return;
    }
    if d.readOnly {
      error := WriteProtected;
      return;
    }
    var attr := CreateAttr(attributes);
    CheckFacts(d.readOnly, t, attr);
    TargetKnown(d, own, t, o, j, dir);
    var at;
    error, at, own', r, pr := EntrySlave(d, attr, t, true, r, o, j, dir);
    if at.Some? && attr & ATTR_VOLUME_NAME == 0 {
      if error == FileExists {
        TargetShows(d, r.Last(), t, o, j, dir);
      } else {
        EntryThere(old(d.slots), d.slots, at.value, Entry(t.alias, attr, 0, 0));
      }
      error, h, own', r := OpenEntry(d, error, at.value, attr, alloc, r, o, j, dir);
    }
    ShownIsView(d, r);
  }

  // How MFS_Create_new_file ends.
  ghost function NewFileError(s: map<Pos, Slot>, f: Fat, readOnly: bool, path: seq<nat>, t: Target, alloc: bool,
      dir: Dir): Error {
    if readOnly then WriteProtected
    else if path == [] then InvalidParameter
    else if t.dirCluster == CLUSTER_INVALID then PathNotFound
    else if !t.valid then InvalidParameter
    else if t.lookup.Some? then FileExists
    else
      var outcome := Outcome(s, f, dir, !t.shortOk, PieceCount(|t.name|));
      if outcome == NoError && !alloc then InsufficientMemory else outcome
  }

  // Every error code names something that is the case.
  lemma NewFileReasons(s: map<Pos, Slot>, f: Fat, readOnly: bool, path: seq<nat>, t: Target, alloc: bool, dir: Dir)
    ensures match NewFileError(s, f, readOnly, path, t, alloc, dir)
            case NoError => alloc && path != [] && !readOnly && t.lookup == None
            case WriteProtected => readOnly
            case InvalidParameter => path == [] || !t.valid
            case PathNotFound => t.dirCluster == CLUSTER_INVALID
            case FileExists => t.lookup.Some?
            case InsufficientMemory => !alloc
            case RootDirFull => dir.FixedRoot()
            case DiskFull => !dir.FixedRoot()
            case _ => false
  {}

  lemma LivesAs(alias: seq<nat>, attributes: bv8)
    ensures Live(Entry(alias, CreateAttr(attributes & !ATTR_VOLUME_NAME), 0, 0))
  {}

  // Without the label bit, the checks before the creation are these.
  lemma NewFileChecks(s: map<Pos, Slot>, f: Fat, readOnly: bool, path: seq<nat>, t: Target, alloc: bool, dir: Dir, attributes: bv8)
    ensures var attr := CreateAttr(attributes & !ATTR_VOLUME_NAME);
            var outcome := Outcome(s, f, dir, !t.shortOk, PieceCount(|t.name|));
            !readOnly && path != [] ==>
              NewFileError(s, f, readOnly, path, t, alloc, dir) ==
                if SlaveChecks(readOnly, t, attr) != NoError then SlaveChecks(readOnly, t, attr)
                else if t.lookup.Some? then FileExists
                else if outcome == NoError && !alloc then InsufficientMemory else outcome
    ensures t.lookup.Some? && SlaveChecks(readOnly, t, CreateAttr(attributes & !ATTR_VOLUME_NAME)) == NoError ==>
              forall found: bv8, attr: bv8 :: ExistsChecks(found, attr, false) == (FileExists, false)
    ensures t.dirCluster == CLUSTER_INVALID || !t.valid ==>
              SlaveChecks(readOnly, t, CreateAttr(attributes & !ATTR_VOLUME_NAME)) != NoError
    ensures SlaveChecks(readOnly, t, CreateAttr(attributes & !ATTR_VOLUME_NAME)) !in {RootDirFull, DiskFull}
  {
    hide Outcome;
  }

  // MFS_Create_new_file: a new entry, opened; an old one is never touched.
  method CreateNewFile(d: Drive, path: seq<nat>, attributes: bv8, t: Target, alloc: bool,
                       ghost own: map<Owner, seq<nat>>, ghost o: Owner, ghost j: nat, ghost dir: Dir)
    returns (error: Error, h: Handle?, ghost own': map<Owner, seq<nat>>, ghost r: Run, ghost pr: Progress)
    requires Sane(d, own) && TargetsIfAny(d, own, t, o, j, dir)
    modifies d.fat, d`freeCount, d`nextFree, d`slots, d`handles
    ensures d.nextFree == old(d.nextFree) || d.nextFree >= CLUSTER_MIN_GOOD
    ensures Sane(d, own') && From(r, State(old(View(d)), own), State(View(d), own')) && Sparing(r)
    ensures path == [] || t.lookup.Some? || d.readOnly || t.dirCluster == CLUSTER_INVALID || !t.valid ==>
              h == null && own' == own && View(d) == old(View(d))
    ensures error == NewFileError(old(d.slots), old(d.Fat()), d.readOnly, path, t, alloc, dir)
    ensures error == NoError ==>
              path != [] && t.lookup == None && !d.readOnly && t.dirCluster != CLUSTER_INVALID && t.valid && alloc
    ensures !d.readOnly && path != [] && t.dirCluster != CLUSTER_INVALID && t.valid && t.lookup.Some? ==> error == FileExists
    ensures d.readOnly ==> error == WriteProtected
    ensures (error == NoError <==> h != null) && (h != null ==> fresh(h))
    ensures pr.added == [] ==> d.Fat() == old(d.Fat())
    ensures error in {RootDirFull, DiskFull} ==> own' == GrownBy(own, o, pr.added) && forall q: Pos :: SameLive(old(d.slots), d.slots, q)
    ensures h != null ==> Home(d, own', o, j, Longer(dir, pr.added))
    ensures h != null ==>
              var entry := Entry(t.alias, CreateAttr(attributes & !ATTR_VOLUME_NAME), 0, 0);
              exists p: Pos :: NewEntry(old(d.slots), d.slots, p, entry) && h.At(p)
                && Created(old(d.slots), dir, pr, !t.shortOk, t.name, entry, Some(p))
                && Took(old(d.slots), d.slots, old(d.Fat()), d.Fat(), dir, pr)
                && h.valid && Rewound(h) && EntryCopy(h) == entry && d.handles == old(d.handles) + [h]
  {
    hide View, Layout, Step, Sparing, FreeCells, IsChain, NewEntry, Created, Targets, DirShown, Longer, Outcome,
         OpensLive, SameLive, DirOf, IsDir, Present, Took, NoTwice, Opens, Home, Local, IsName, SlaveChecks, ExistsChecks, GrownBy,
         CreateAttr;
    error, h, own', pr := NoError, null, own, Nothing;
    r := SaneShows(d, own);
    if d.readOnly {
      error := WriteProtected;
      return;
    }
    if path == [] {
      error := InvalidParameter;
      return;
    }
    NewFileChecks(d.slots, d.Fat(), d.readOnly, path, t, alloc, dir, attributes);
    hide NewFileError;
    var attr := CreateAttr(attributes & !ATTR_VOLUME_NAME);
    LivesAs(t.alias, attributes);
    var at;
    error, at, own', r, pr := EntrySlave(d, attr, t, false, r, o, j, dir);
    if error == NoError && at.Some? {
      error, h, r := OpenNew(d, at.value, alloc, old(d.slots), Entry(t.alias, attr, 0, 0), r, o, j, Longer(dir, pr.added));
    }
    ShownIsView(d, r);
    if h != null {
      ShownHome(d, r, o, j, Longer(dir, pr.added));
    }
  }

  lemma ShownHome(d: Drive, r: Run, o: Owner, j: nat, dir: Dir)
    requires d.Mounted() && r.Valid() && DirShown(d, r, o, j, dir) && r.Last().v == View(d)
    ensures Home(d, r.Last().own, o, j, dir)
  {}

  // Closing a file: its handle leaves the list.
  method CloseFile(d: Drive, h: Handle, ghost i: nat, ghost own: map<Owner, seq<nat>>) returns (ghost r: Run)
    requires Sane(d, own) && i < |d.handles| && d.handles[i] == h
    modifies d`handles, h
    ensures Sane(d, own) && From(r, State(old(View(d)), own), State(View(d), own)) && Sparing(r)
    ensures h !in d.handles && d.handles == old(d.handles)[..i] + old(d.handles)[i + 1..]
    ensures View(d) == old(View(d)).(opens := Opens(d.handles))
  {
    hide Layout, Sparing;
    r := SaneShows(d, own);
    FreeHandle(d, h, i);
    ghost var b := State(View(d), own);
    assert b.v == r.Last().v.(opens := Opens(d.handles));
    assert Step(r.Last(), Close(i), b);
    StepKeeps(r.Last(), Close(i), b);
    SparingThen(r, Close(i), b);
    r := Then(r, Close(i), b);
  }

  // ---- the cluster a write begins in ----

  // The chain of the file of slot p ends in cluster c.
  ghost predicate EndsIn(own: map<Owner, seq<nat>>, p: Pos, c: nat) {
    At(p) in own && |own[At(p)]| > 0 && Cluster.Last(own[At(p)]) == c
  }

  /**
   * MFS_Write, up to the first sector: a cursor that is past the end gets a new cluster behind the old
   * last one, one at the beginning gets the first cluster of the handle's copy of the entry, or a free
   * one if the copy has none. The copy is not on the disk yet.
   */
  method WriteCursor(d: Drive, h: Handle, ghost own: map<Owner, seq<nat>>, ghost p: Pos) returns (error: Error)
    requires d.Mounted() && d.CountOk() && !d.readOnly && Layout(View(d), own)
    requires h.currentCluster == CLUSTER_EOF ==> EndsIn(own, p, h.previousCluster)
    modifies d.fat, d`freeCount, d`nextFree, h`first, h`currentCluster, h`previousCluster
    ensures d.CountOk() && h.previousCluster == if old(h.currentCluster) == 0 then 0 else old(h.previousCluster)
    ensures old(h.currentCluster) == 0 && old(h.first) != 0 ==>
              error == NoError && h.currentCluster == h.first == old(h.first) && d.Fat() == old(d.Fat())
    ensures old(h.currentCluster) == 0 && old(h.first) == 0 ==>
              if error == NoError then
                && Unused(old(d.Fat()), h.first) && IsNextFree(old(d.Fat()), old(d.nextFree), h.first)
                && h.currentCluster == h.first && d.Fat() == old(d.Fat())[h.first := CLUSTER_EOF]
              else
                && error == DiskFull && d.Fat() == old(d.Fat()) && h.first == 0
                && IsNextFree(d.Fat(), old(d.nextFree), CLUSTER_INVALID)
    ensures old(h.currentCluster) == CLUSTER_EOF ==>
              if FreeCells(old(d.Fat())) == {} then error == DiskFull && d.Fat() == old(d.Fat())
              else error == NoError && Extends(old(d.Fat()), d.Fat(), h.previousCluster, [h.currentCluster])
    ensures old(h.currentCluster) != 0 && old(h.currentCluster) != CLUSTER_EOF ==>
              && error == (if old(h.currentCluster) > d.LastCluster() then DiskFull else NoError)
              && d.Fat() == old(d.Fat()) && h.currentCluster == old(h.currentCluster)
  {
    error := NoError;
    if h.currentCluster == 0 {
      h.previousCluster := 0;
      h.currentCluster := h.first;
      if h.currentCluster == 0 {
        var next := FindUnused(d, d.nextFree);
        if next != CLUSTER_INVALID {
          h.first := next;
          error := d.PutFat(next, CLUSTER_EOF);
          if error == NoError {
            h.currentCluster := next;
          }
        } else {
          error := DiskFull;
        }
      }
    } else if h.currentCluster == CLUSTER_EOF {
      ghost var ch := own[At(p)];
      TrailOfSuffix(d.Fat(), ch, |ch| - 1);
      var added;
      error, added := AddCluster(d, h.previousCluster, ch[|ch| - 1..]);
      if error == NoError {
        h.currentCluster := added.value;
      }
    } else if h.currentCluster > d.LastCluster() {
      error := DiskFull;
    }
  }

  // Appending a cluster to an open file is a step of the volume.
  method AppendCluster(d: Drive, h: Handle, ghost own: map<Owner, seq<nat>>, ghost p: Pos)
    returns (error: Error, ghost own': map<Owner, seq<nat>>, ghost r: Run)
    requires Sane(d, own) && !d.readOnly && h.currentCluster == CLUSTER_EOF && EndsIn(own, p, h.previousCluster)
    requires p in d.slots && !IsDirectory(d.slots[p])
    modifies d.fat, d`freeCount, d`nextFree, h`first, h`currentCluster, h`previousCluster
    ensures Sane(d, own') && From(r, State(old(View(d)), own), State(View(d), own')) && Sparing(r)
    ensures error == if FreeCells(old(d.Fat())) == {} then DiskFull else NoError
    ensures own' == if error == NoError then Grow(own, At(p), [h.currentCluster]) else own
    ensures d.slots == old(d.slots)
  {
    hide Layout, Sparing, Extends, FreeCells;
    r := SaneShows(d, own);
    own' := own;
    error := WriteCursor(d, h, own, p);
    assert Opens(d.handles) == old(Opens(d.handles));
    if error == NoError {
      own' := Grow(own, At(p), [h.currentCluster]);
      var l, b := Extend(At(p), [h.currentCluster]), State(View(d), own');
      assert Step(r.Last(), l, b);
      StepKeeps(r.Last(), l, b);
      SparingThen(r, l, b);
      r := Then(r, l, b);
    }
  }

  // MFS_Extend_chain on a whole file is a step of the volume, however many clusters are asked for.
  method ExtendFile(d: Drive, p: Pos, n: nat, ghost own: map<Owner, seq<nat>>)
    returns (error: Error, ghost links: seq<nat>, ghost own': map<Owner, seq<nat>>, ghost r: Run)
    requires Sane(d, own) && !d.readOnly && n > 0 && At(p) in own && p in d.slots && Owning(d.slots[p])
              && !IsDirectory(d.slots[p])
    modifies d.fat, d`freeCount, d`nextFree
    ensures Sane(d, own') && From(r, State(old(View(d)), own), State(View(d), own')) && Sparing(r)
    ensures own' == Grow(own, At(p), links) && NextFit(old(d.Fat()), Cluster.Last(own[At(p)]), links)
    ensures var free := |FreeCells(old(d.Fat()))|;
            && |links| == (if n <= free then n else free)
            && error == if n <= free || (free > 0 && n == free + 1) then NoError else DiskFull
  {
    hide View, Layout, Sparing, FreeCells, NextFit, IsChain, Extends, Trail, Step;
    r := SaneShows(d, own);
    ghost var v := r.Last().v;
    AllParts(d, v);
    OwnTrail(v, own, p);
    var added;
    error, added, links := ExtendChain(d, d.slots[p].first, n, own[At(p)]);
    own' := Grow(own, At(p), links);
    NewParts(d, v);
    ExtendIsStep(v, own, View(d), p, links);
    var l, b := Extend(At(p), links), State(View(d), own');
    StepKeeps(r.Last(), l, b);
    SparingThen(r, l, b);
    r := Then(r, l, b);
  }

  // The chain of an entry can be walked from its first cluster.
  lemma OwnTrail(v: Volume, own: map<Owner, seq<nat>>, p: Pos)
    requires Layout(v, own) && At(p) in own && p in v.slots
    ensures v.slots[p].Entry? && Good(v.fat, v.slots[p].first) && |own[At(p)]| > 0
    ensures Trail(v.fat, v.slots[p].first, own[At(p)]) && v.fat[Cluster.Last(own[At(p)])] == CLUSTER_EOF
  {
    TrailOfSuffix(v.fat, own[At(p)], 0);
    assert own[At(p)][0..] == own[At(p)];
  }

  lemma ExtendIsStep(v: Volume, own: map<Owner, seq<nat>>, w: Volume, p: Pos, links: seq<nat>)
    requires At(p) in own && |own[At(p)]| > 0 && p in v.slots && !IsDirectory(v.slots[p])
    requires w == v.(fat := w.fat) && Extends(v.fat, w.fat, Cluster.Last(own[At(p)]), links)
    ensures Step(State(v, own), Extend(At(p), links), State(w, Grow(own, At(p), links)))
  {}

  // ---- the first write ----

  // The state in which the cluster of e is set aside.
  ghost function FirstAside(a: State, e: Slot): State
    requires e.Entry? && Good(a.v.fat, e.first)
  {
    State(a.v.(fat := a.v.fat[e.first := CLUSTER_EOF], aside := Some(e)), a.own[Aside := [e.first]])
  }

  lemma AsideRun(r: Run, e: Slot) returns (r': Run)
    requires r.Valid() && r.Last().Ok() && r.Last().v.aside == None
    requires Owning(e) && !IsDirectory(e) && Unused(r.Last().v.fat, e.first)
    ensures From(r', r.states[0], FirstAside(r.Last(), e)) && r'.Last().Ok() && (Sparing(r) ==> Sparing(r'))
    ensures Aside !in r.Last().own
  {
    hide Layout, Sparing;
    var a, b := r.Last(), FirstAside(r.Last(), e);
    assert Aside in a.own <==> Owns(a.v, Aside) by {
      OwnersOf(a);
    }
    assert Step(a, Reserve(e), b);
    StepKeeps(a, Reserve(e), b);
    SparingThen(r, Reserve(e), b);
    r' := Then(r, Reserve(e), b);
  }

  lemma OwnersOf(a: State)
    requires a.Ok()
    ensures forall o :: o in a.own <==> Owns(a.v, o)
  {}

  // The cluster set aside is given to the entry of slot p, which owned nothing.
  lemma GivenRun(r: Run, w: Volume, p: Pos, e: Slot) returns (r': Run)
    requires r.Valid() && r.Last().Ok() && r.Last().v.aside == Some(e) && Aside in r.Last().own
    requires LiveAt(r.Last().v.slots, p) && !Owning(r.Last().v.slots[p]) && Live(e)
    requires w == r.Last().v.(aside := None, slots := r.Last().v.slots[p := e])
    ensures From(r', r.states[0], State(w, (r.Last().own - {Aside})[At(p) := AsideChain(r.Last().own)])) && r'.Last().Ok()
    ensures Sparing(r) ==> Sparing(r')
  {
    var a, b := r.Last(), State(w, Handed(r.Last().own, Aside, At(p)));
    assert InDirectory(a.v, a.own, p);
    hide Layout, Sparing, InDirectory;
    assert Step(a, Attach(p, e), b);
    StepKeeps(a, Attach(p, e), b);
    SparingThen(r, Attach(p, e), b);
    r' := Then(r, Attach(p, e), b);
  }

  // A directory keeps its chain when a free cluster is taken.
  lemma HomeKeeps(d: Drive, f: Fat, dir: Dir, c: nat)
    requires d.Mounted() && Unused(f, c) && d.Fat() == f[c := CLUSTER_EOF] && DirIn(d, f, dir)
    ensures IsDir(d, dir)
  {
    if !dir.FixedRoot() {
      forall i | 0 <= i < |dir.clusters|
        ensures dir.clusters[i] != c
      {
        assert i < |dir.clusters| - 1 ==> f[dir.clusters[i]] == dir.clusters[i + 1];
      }
      ChainFrame(f, d.Fat(), dir.clusters);
    }
  }

  lemma SearchFails(f: Fat, start: nat, c: nat)
    ensures IsNextFree(f, start, CLUSTER_INVALID) <==> start < CLUSTER_MIN_GOOD || FreeCells(f) == {}
    ensures IsNextFree(f, start, c) && Unused(f, c) ==> start >= CLUSTER_MIN_GOOD && c in FreeCells(f)
  {
    forall k: nat
      ensures Unused(f, k) <==> k in FreeCells(f)
    {}
  }

  // The first cluster of an empty file, which only the open copy of its entry names so far.
  method TakeFirst(d: Drive, h: Handle, size: nat, ghost own: map<Owner, seq<nat>>, ghost dir: Dir, ghost p: Pos)
      returns (error: Error)
    requires d.Mounted() && d.CountOk() && !d.readOnly && Layout(View(d), own) && IsDir(d, dir)
    requires h.first == 0 && h.currentCluster == 0
    modifies d.fat, d`freeCount, d`nextFree, h`first, h`size, h`currentCluster, h`previousCluster
    ensures d.CountOk() && Opens(d.handles) == old(Opens(d.handles)) && IsDir(d, dir)
    ensures error == if old(d.nextFree) < CLUSTER_MIN_GOOD || FreeCells(old(d.Fat())) == {} then DiskFull else NoError
    ensures error == NoError ==>
              && Unused(old(d.Fat()), h.first) && h.currentCluster == h.first && d.Fat() == old(d.Fat())[h.first := CLUSTER_EOF]
              && EntryCopy(h) == Entry(old(h.name), old(h.attr), h.first, size)
    ensures error != NoError ==> d.Fat() == old(d.Fat())
  {
    hide Layout, FreeCells, IsNextFree, IsChain, View;
    error := WriteCursor(d, h, own, p);
    SearchFails(old(d.Fat()), old(d.nextFree), h.first);
    if error == NoError {
      HomeKeeps(d, old(d.Fat()), dir, h.first);
      h.size := size;
    }
  }

  // Writing a file is nothing to its directory.
  lemma DirWritten(a: State, b: State, o: Owner, j: nat, dir: Dir, p: Pos)
    requires DirOf(a, o, j, dir) && p in a.v.slots && !IsDirectory(a.v.slots[p])
    requires b.v == a.v.(fat := b.v.fat, slots := b.v.slots)
              && (forall q :: q in a.v.slots && q != p ==> q in b.v.slots && b.v.slots[q] == a.v.slots[q])
    requires forall q: Owner :: q in a.own && q != At(p) ==> q in b.own && b.own[q] == a.own[q]
    ensures DirOf(b, o, j, dir)
  {}

  // The open copy of the entry of slot p names a cluster that the slot does not name yet.
  ghost predicate Unsaved(d: Drive, r: Run, h: Handle, p: Pos, own: map<Owner, seq<nat>>)
    requires d.Mounted()
    reads d, d.fat, d.handles, h
  {
    && Shows(d, r) && r.Last().v.aside == Some(EntryCopy(h)) && r.Last().own == own[Aside := [h.first]]
    && Aside !in own && Live(EntryCopy(h)) && h.At(p) && LiveAt(d.slots, p) && d.slots[p].first == 0
  }

  /**
   * Saving the entry of an open file that has been given its first cluster: the cluster that was nobody's is
   * the file's.
   */
  method SaveEntry(d: Drive, h: Handle, p: Pos, ghost r: Run,
                   ghost own: map<Owner, seq<nat>>, ghost dir: Dir, ghost x: nat)
    returns (error: Error, ghost own': map<Owner, seq<nat>>, ghost r': Run)
    requires d.Mounted() && !d.readOnly && Unsaved(d, r, h, p, own)
    requires IsDir(d, dir) && Present(d, dir) && x < |dir.Flat()| && dir.Flat()[x] == p
    modifies d`slots
    ensures error == NoError && own' == own[At(p) := [h.first]] && d.slots == old(d.slots)[p := EntryCopy(h)]
    ensures Shows(d, r') && From(r', r.states[0], State(View(d), own')) && (Sparing(r) ==> Sparing(r'))
  {
    hide Layout, Sparing, View, Updated, IsDir;
    ghost var v := r.Last().v;
    AllParts(d, v);
    error := UpdateEntry(d, h, dir, x);
    UpdatesItself(old(d.slots), d.slots, dir, x, EntryCopy(h), error);
    NewSlots(d, v.(aside := None));
    r' := GivenRun(r, View(d), p, EntryCopy(h));
    own' := own[At(p) := [h.first]];
    assert own[Aside := [h.first]] - {Aside} == own;
  }

  lemma UnsavedIsSane(d: Drive, r: Run, h: Handle, p: Pos, own: map<Owner, seq<nat>>)
    requires d.Mounted() && Unsaved(d, r, h, p, own) && h.attr & ATTR_DIR_NAME == 0
    ensures Layout(View(d), own)
  {
    hide Layout;
    ForgetHand(r.Last().v, r.Last().own);
    assert r.Last().own - {Aside} == own && r.Last().v.(aside := None) == View(d);
  }

  /**
   * The first write to an empty file: it takes one cluster, which was free. The cluster is nobody's until the
   * entry is saved, at once or when the file is closed.
   */
  method FirstWrite(d: Drive, h: Handle, p: Pos, size: nat, ghost own: map<Owner, seq<nat>>, ghost dir: Dir)
    returns (error: Error, ghost r: Run)
    requires Sane(d, own) && !d.readOnly && h in d.handles
    requires p in d.slots && d.slots[p] == EntryCopy(h) && h.attr & ATTR_DIR_NAME == 0 && h.first == 0 && h.currentCluster == 0
    requires h.At(p) && p in dir.Flat() && IsDir(d, dir)
    modifies d.fat, d`freeCount, d`nextFree, h`first, h`size, h`currentCluster, h`previousCluster
    ensures Sane(d, own) && r.Valid() && r.states[0] == State(old(View(d)), own) && Sparing(r)
    ensures error == if old(d.nextFree) < CLUSTER_MIN_GOOD || FreeCells(old(d.Fat())) == {} then DiskFull else NoError
    ensures error == NoError ==>
              && Unused(old(d.Fat()), h.first) && h.currentCluster == h.first && d.Fat() == old(d.Fat())[h.first := CLUSTER_EOF]
              && EntryCopy(h) == Entry(old(h.name), old(h.attr), h.first, size) && Unsaved(d, r, h, p, own)
    ensures error != NoError ==> d.Fat() == old(d.Fat()) && r.Last() == State(View(d), own)
    ensures IsDir(d, dir) && Opens(d.handles) == old(Opens(d.handles))
  {
    hide Layout, Sparing, FreeCells, Step, IsDir, View, IsChain;
    r := SaneShows(d, own);
    ghost var v := r.Last().v;
    AllParts(d, v);
    error := TakeFirst(d, h, size, own, dir, p);
    NewParts(d, v);
    if error == NoError {
      r := AsideRun(r, EntryCopy(h));
      UnsavedIsSane(d, r, h, p, own);
    }
  }

  /**
   * What truncation leaves behind: a file that was open on the slot writes next into an unused cluster
   * exactly if its copy of the entry names one, such as the first cluster of the chain just freed.
   */
  method WriteAfterTruncate(d: Drive, h: Handle, x: Handle, p: Pos, attr: bv8,
                            ghost r: Run, ghost o: Owner, ghost j: nat, ghost dir: Dir) returns (error: Error)
    requires Shows(d, r) && r.Last().v.aside == None && NoTwice(d.handles)
    requires d.CountOk() && d.cache.Valid() && d.cache.readOnly == d.readOnly && !d.readOnly
    requires p in d.slots && d.slots[p] == EntryCopy(h) && h.attr & ATTR_DIR_NAME == 0 && attr & ATTR_DIR_NAME == 0
    requires h != x && h.At(p) && x in d.handles && x.At(p)
    requires p in dir.Flat() && DirOf(r.Last(), o, j, dir) && IsDir(d, dir) && Present(d, dir)
    modifies d.fat, d`freeCount, d`nextFree, d`slots, d.cache`number, d.cache`dirty
    modifies h`first, h`size, h`attr, x`first, d.handles`currentCluster, d.handles`previousCluster
    ensures error == NoError ==>
              (Unused(d.Fat(), x.currentCluster) <==>
                Unused(old(d.Fat()), old(x.first)) || old(x.first) in ChainOf(r.Last().own, At(p)))
    ensures old(x.first) != 0 ==> error == NoError && x.currentCluster == old(x.first)
    ensures old(x.first) == old(h.first) != 0 ==> Unused(d.Fat(), x.currentCluster)
  {
    hide Layout, DirOf, IsDir, Present, Sparing, IsChain, FreeCells, View, FreesExactly, IsNextFree;
    ghost var f, c := d.Fat(), x.first;
    AllParts(d, r.Last().v);
    ghost var own, r' := Truncate(d, h, p, attr, r, o, j, dir);
    assert EntryCopy(x).first == c && Rewound(x);
    ghost var g := d.Fat();
    UnusedAfter(r.Last(), f, g, p, c);
    FirstIsInChain(r.Last(), p);
    ShownIsView(d, r');
    error := WriteCursor(d, x, own, p);
  }

  lemma UnusedAfter(a: State, f: Fat, g: Fat, p: Pos, c: nat)
    requires a.Ok() && |a.v.fat| == |f| && FreesExactly(f, g, ChainOf(a.own, At(p)))
    ensures Unused(g, c) <==> Unused(f, c) || c in ChainOf(a.own, At(p))
  {
    assert At(p) in a.own <==> Owns(a.v, At(p));
  }

  lemma FirstIsInChain(a: State, p: Pos)
    requires a.Ok() && p in a.v.slots
    ensures Owning(a.v.slots[p]) ==> a.v.slots[p].first in ChainOf(a.own, At(p))
  {
    assert At(p) in a.own <==> Owns(a.v, At(p));
    assert At(p) in a.own ==> a.own[At(p)][0] == a.v.slots[p].first;
  }
}
