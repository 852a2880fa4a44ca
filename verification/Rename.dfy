/**
 * Renaming (mfs/source/generic/mfs_rename.c:48-222): to another directory, or within one.
 */
module Renames {
  import opened MfsTypes
  import opened FatChain
  import opened Drives
  import opened Cluster
  import opened DirSlots
  import opened DirSearch
  import opened LongName
  import opened DirEntry
  import opened LfnEnding
  import opened DirGrowth
  import opened LfnRemoval
  import opened Volumes
  import opened Runs
  import opened Handles
  import opened Files
  import opened Subdirs

  // ---- the files of a volume, as a collection ----

  // What a rename must not lose: first cluster, size and attributes.
  datatype File = File(first: nat, size: nat, attr: bv8)

  function FileOf(s: Slot): File
    requires s.Entry?
  {
    File(s.first, s.size, s.attr)
  }

  ghost function LiveSet(slots: map<Pos, Slot>): set<Pos> {
    set p | p in slots && Live(slots[p])
  }

  ghost function Gather(slots: map<Pos, Slot>, ps: set<Pos>): multiset<File>
    requires forall p :: p in ps ==> p in slots && slots[p].Entry?
    decreases |ps|
  {
    if ps == {} then multiset{}
    else
      var p :| p in ps;
      Gather(slots, ps - {p}) + multiset{FileOf(slots[p])}
  }

  // The collection of (first cluster, size, attributes) over the live entries.
  ghost function FilesOf(slots: map<Pos, Slot>): multiset<File> {
    Gather(slots, LiveSet(slots))
  }

  // Any entry can be counted last.
  lemma {:induction false} GatherRemove(slots: map<Pos, Slot>, ps: set<Pos>, x: Pos)
    requires (forall p :: p in ps ==> p in slots && slots[p].Entry?) && x in ps
    ensures Gather(slots, ps) == Gather(slots, ps - {x}) + multiset{FileOf(slots[x])}
    decreases |ps|
  {
    var p :| p in ps && Gather(slots, ps) == Gather(slots, ps - {p}) + multiset{FileOf(slots[p])};
    if p != x {
      GatherRemove(slots, ps - {p}, x);
      GatherRemove(slots, ps - {x}, p);
      assert ps - {p} - {x} == ps - {x} - {p};
    }
  }

  lemma {:induction false} GatherSame(s: map<Pos, Slot>, t: map<Pos, Slot>, ps: set<Pos>)
    requires forall p :: p in ps ==> p in s && p in t && s[p].Entry? && t[p].Entry? && FileOf(s[p]) == FileOf(t[p])
    ensures Gather(s, ps) == Gather(t, ps)
    decreases |ps|
  {
    if ps != {} {
      var p :| p in ps;
      GatherSame(s, t, ps - {p});
      GatherRemove(s, ps, p);
      GatherRemove(t, ps, p);
    }
  }

  // The entry of slot p has become that of slot q, under another name; nothing else has changed hands.
  ghost predicate Renamed(s: map<Pos, Slot>, t: map<Pos, Slot>, p: Pos, q: Pos) {
    && LiveAt(s, p) && LiveAt(t, q) && FileOf(t[q]) == FileOf(s[p])
    && (q != p ==> !LiveAt(s, q) && !LiveAt(t, p))
    && forall x: Pos :: x != p && x != q ==> SameLive(s, t, x)
  }

  /**
   * A rename conserves files: the same collection of (first cluster, size, attributes).
   */
  lemma RenameConserves(s: map<Pos, Slot>, t: map<Pos, Slot>, p: Pos, q: Pos)
    requires Renamed(s, t, p, q)
    ensures FilesOf(t) == FilesOf(s)
  {
    var rest := LiveSet(s) - {p};
    forall x: Pos
      ensures x in rest <==> x in LiveSet(t) - {q}
      ensures x in rest ==> t[x] == s[x]
    {
      assert x != p && x != q ==> SameLive(s, t, x);
    }
    assert rest == LiveSet(t) - {q};
    GatherRemove(s, LiveSet(s), p);
    GatherRemove(t, LiveSet(t), q);
    GatherSame(s, t, rest);
  }

  lemma {:induction false} GatherHolds(slots: map<Pos, Slot>, ps: set<Pos>, file: File)
    requires forall p :: p in ps ==> p in slots && slots[p].Entry?
    ensures file in Gather(slots, ps) <==> exists p :: p in ps && FileOf(slots[p]) == file
    decreases |ps|
  {
    if ps != {} {
      var p :| p in ps;
      GatherRemove(slots, ps, p);
      GatherHolds(slots, ps - {p}, file);
    }
  }

  /**
   * What it means to have the same collection: for every live entry there is one with its first cluster, size
   * and attributes.
   */
  lemma SameCollection(s: map<Pos, Slot>, t: map<Pos, Slot>, p: Pos) returns (q: Pos)
    requires FilesOf(s) == FilesOf(t) && LiveAt(s, p)
    ensures LiveAt(t, q) && t[q].first == s[p].first && t[q].size == s[p].size && t[q].attr == s[p].attr
  {
    GatherHolds(s, LiveSet(s), FileOf(s[p]));
    GatherHolds(t, LiveSet(t), FileOf(s[p]));
    assert p in LiveSet(s);
    q :| q in LiveSet(t) && FileOf(t[q]) == FileOf(s[p]);
  }

  // ---- the chain changes hands ----

  ghost function Passed(own: map<Owner, seq<nat>>, p: Pos, q: Pos): map<Owner, seq<nat>> {
    Handed(Handed(own, At(p), Aside), Aside, At(q))
  }

  // The entry of slot p goes into slot q, where an entry that owns nothing has just been made, under that one's name.
  ghost predicate Passes(v: Volume, w: Volume, p: Pos, q: Pos, e: Slot) {
    && v.aside == None && p != q && LiveAt(v.slots, p) && LiveAt(v.slots, q) && !Owning(v.slots[q])
    && Live(e) && FileOf(e) == FileOf(v.slots[p])
    && w == v.(slots := v.slots[q := e][p := Deleted])
  }

  lemma TakeInHand(a: State, w: Volume, p: Pos, q: Pos, e: Slot) returns (m: State)
    requires a.Ok() && Passes(a.v, w, p, q, e)
    ensures m == State(a.v.(aside := Some(a.v.slots[p]), slots := a.v.slots[p := Deleted]), Handed(a.own, At(p), Aside))
    ensures Step(a, Detach(p, Deleted), m) && m.Ok()
  {
    m := State(a.v.(aside := Some(a.v.slots[p]), slots := a.v.slots[p := Deleted]), Handed(a.own, At(p), Aside));
    StepKeeps(a, Detach(p, Deleted), m);
  }

  lemma PutDown(a: State, m: State, w: Volume, p: Pos, q: Pos, e: Slot)
    requires a.Ok() && Passes(a.v, w, p, q, e) && m.Ok()
    requires m == State(a.v.(aside := Some(a.v.slots[p]), slots := a.v.slots[p := Deleted]), Handed(a.own, At(p), Aside))
    ensures Step(m, Attach(q, e), State(w, Passed(a.own, p, q)))
  {
    assert InDirectory(m.v, m.own, q);
    assert w.slots == m.v.slots[q := e];
  }

  lemma PassRun(r: Run, w: Volume, p: Pos, q: Pos, e: Slot) returns (r': Run)
    requires r.Valid() && r.Last().Ok() && Passes(r.Last().v, w, p, q, e)
    ensures From(r', r.states[0], State(w, Passed(r.Last().own, p, q))) && r'.Last().Ok()
    ensures Sparing(r) && p !in r.Last().v.opens ==> Sparing(r')
  {
    hide Layout, Step, Sparing, Passes, Handed;
    var a := r.Last();
    var m := TakeInHand(a, w, p, q, e);
    PutDown(a, m, w, p, q, e);
    var b := State(w, Passed(a.own, p, q));
    StepKeeps(m, Attach(q, e), b);
    r' := Then(Then(r, Detach(p, Deleted), m), Attach(q, e), b);
    if p !in a.v.opens {
      SparingThen(r, Detach(p, Deleted), m);
      SparingThen(Then(r, Detach(p, Deleted), m), Attach(q, e), b);
    }
  }

  // ... and the pieces of the old name go.
  lemma MoveRun(r: Run, m: Volume, w: Volume, p: Pos, q: Pos, e: Slot) returns (r': Run)
    requires r.Valid() && r.Last().Ok() && Passes(r.Last().v, m, p, q, e)
    requires w == m.(slots := w.slots) && OnlyPiecesGone(m.slots, w.slots)
    ensures From(r', r.states[0], State(w, Passed(r.Last().own, p, q))) && r'.Last().Ok()
    ensures Sparing(r) && p !in r.Last().v.opens ==> Sparing(r')
  {
    hide Layout, Step, Sparing, Passes, Passed, OnlyPiecesGone;
    r' := PassRun(r, m, p, q, e);
    StrikeStep(r'.Last(), w);
    StepKeeps(r'.Last(), Rewrite, State(w, r'.Last().own));
    SparingThen(r', Rewrite, State(w, r'.Last().own));
    r' := Then(r', Rewrite, State(w, r'.Last().own));
  }

  // Deleting pieces leaves every live entry.
  lemma PiecesLive(s: map<Pos, Slot>, t: map<Pos, Slot>)
    requires OnlyPiecesGone(s, t)
    ensures forall x: Pos :: SameLive(s, t, x)
    ensures forall x: Pos :: x in s && s[x].Deleted? ==> x in t && t[x] == Deleted
    ensures forall x: Pos :: x in s && s[x].Entry? ==> x in t && t[x] == s[x]
  {}

  lemma MoveIsRename(s: map<Pos, Slot>, m: map<Pos, Slot>, m': map<Pos, Slot>, t: map<Pos, Slot>, p: Pos, q: Pos,
                     entry: Slot, e: Slot)
    requires LiveAt(s, p) && entry.Entry? && NewEntry(s, m, q, entry) && Live(e) && FileOf(e) == FileOf(s[p])
    requires m' == m[q := e][p := Deleted] && forall x: Pos :: SameLive(m', t, x)
    ensures p != q && Renamed(s, t, p, q)
  {
    assert p != q;
    assert SameLive(m', t, q) && SameLive(m', t, p);
    forall x: Pos | x != p && x != q
      ensures SameLive(s, t, x)
    {
      assert SameLive(s, m, x) && SameLive(m', t, x);
    }
  }

  // ---- moving ----

  // Where a rename finds the old entry: at flat index x of directory dir, which is owner o's.
  datatype Source = Source(o: Owner, dir: Dir, x: nat)

  // Two directories that begin with different clusters share none.
  lemma DirsApart(a: State, so: Owner, sdir: Dir, o: Owner, dir: Dir)
    requires a.Ok() && DirOf(a, so, 0, sdir) && DirOf(a, o, 0, dir) && |sdir.clusters| > 0 && |dir.clusters| > 0
    requires sdir.clusters[0] != dir.clusters[0]
    ensures forall c :: c in sdir.clusters ==> c !in dir.clusters
    ensures !sdir.FixedRoot() && !dir.FixedRoot() ==> so != o
  {
    hide Placed, Shown, HasSlots;
    forall c | c in sdir.clusters
      ensures c !in dir.clusters
    {
      if !sdir.FixedRoot() && !dir.FixedRoot() {
        assert c in Cells(a.own[so]) && Cells(a.own[so]) !! Cells(a.own[o]);
        assert c in Cells(dir.clusters) <==> c in dir.clusters;
      } else if !sdir.FixedRoot() {
        assert Heads(a.v.fat, EntryOf(a.v, so).first, a.own[so]);
      } else {
        assert Heads(a.v.fat, EntryOf(a.v, o).first, a.own[o]);
      }
    }
  }

  // A directory stays what it was when an entry is made in another one.
  lemma OtherDirStays(d: Drive, a: State, b: State, so: Owner, sdir: Dir, o: Owner, dir: Dir, added: seq<nat>)
    requires d.Mounted() && a.Ok() && b.Ok() && DirOf(a, so, 0, sdir) && DirIn(d, a.v.fat, sdir)
              && DirOf(a, o, 0, dir) && |dir.clusters| > 0
    requires sdir.clusters[0] != dir.clusters[0] && b.own == GrownBy(a.own, o, added) && b.v.fat == d.Fat()
    requires Local(a.v.fat, b.v.fat, a.v.slots, b.v.slots, dir, added) && AllIn(a.v.slots, sdir)
    ensures IsDir(d, sdir) && SameIn(a.v.slots, b.v.slots, sdir)
    ensures forall k :: 0 <= k < |sdir.Flat()| ==> sdir.Flat()[k].cluster !in dir.clusters && sdir.Flat()[k].cluster !in added
  {
    ThereStill(a, b, so, sdir, o, dir, added);
    DirChain(d, a, b, so, sdir, o, dir, added);
    hide Layout, DirOf, GrownBy, IsChain;
    DirectoryUsed(a, so, sdir);
    DirsApart(a, so, sdir, o, dir);
    forall k | 0 <= k < |sdir.Flat()|
      ensures sdir.Flat()[k].cluster !in dir.clusters && sdir.Flat()[k].cluster !in added
    {
      var j := SlotBefore(sdir, k);
    }
  }

  lemma ThereStill(a: State, b: State, so: Owner, sdir: Dir, o: Owner, dir: Dir, added: seq<nat>)
    requires a.Ok() && DirOf(a, so, 0, sdir) && DirOf(a, o, 0, dir) && |dir.clusters| > 0 && |sdir.clusters| > 0
    requires sdir.clusters[0] != dir.clusters[0] && AllIn(a.v.slots, sdir)
    requires Local(a.v.fat, b.v.fat, a.v.slots, b.v.slots, dir, added)
    ensures SameIn(a.v.slots, b.v.slots, sdir)
  {
    hide Layout, DirOf, IsChain, Unused;
    DirsApart(a, so, sdir, o, dir);
    DirectoryUsed(a, so, sdir);
    forall k | 0 <= k < |sdir.Flat()|
      ensures sdir.Flat()[k] in b.v.slots && b.v.slots[sdir.Flat()[k]] == a.v.slots[sdir.Flat()[k]]
    {
      var j := SlotBefore(sdir, k);
    }
  }

  lemma DirChain(d: Drive, a: State, b: State, so: Owner, sdir: Dir, o: Owner, dir: Dir, added: seq<nat>)
    requires d.Mounted() && a.Ok() && b.Ok() && DirOf(a, so, 0, sdir) && DirIn(d, a.v.fat, sdir)
    requires DirOf(a, o, 0, dir) && |dir.clusters| > 0 && sdir.clusters[0] != dir.clusters[0]
    requires b.own == GrownBy(a.own, o, added) && b.v.fat == d.Fat() && (dir.FixedRoot() ==> added == [])
    ensures IsDir(d, sdir)
  {
    DirsApart(a, so, sdir, o, dir);
    if !sdir.FixedRoot() {
      assert b.own[so] == a.own[so] == sdir.clusters;
      HeadsThere(b, so);
    }
  }

  lemma HeadsThere(b: State, o: Owner)
    requires b.Ok() && o in b.own
    ensures IsChain(b.v.fat, b.own[o])
  {
    assert Heads(b.v.fat, EntryOf(b.v, o).first, b.own[o]);
  }

  lemma DirectoryUsed(a: State, o: Owner, dir: Dir)
    requires a.Ok() && DirOf(a, o, 0, dir)
    ensures forall c :: c in dir.clusters ==> !Unused(a.v.fat, c)
  {
    forall c | c in dir.clusters && Unused(a.v.fat, c)
      ensures false
    {
      DirectoryClusters(a, o, 0, dir, c);
    }
  }

  // The old entry is copied over the new one, which keeps its name, and is deleted.
  method CopyOver(d: Drive, source: Pos, at: Pos, entry: Slot)
    requires at in d.slots && d.slots[at].Entry? && entry.Entry? && source in d.slots
    modifies d`slots
    ensures d.slots == old(d.slots)[at := entry.(name := old(d.slots)[at].name)][source := Deleted]
  {
    d.slots := d.slots[at := entry.(name := d.slots[at].name)];
    d.slots := d.slots[source := Deleted];
  }

  lemma MovePasses(s: map<Pos, Slot>, v: Volume, w: Volume, p: Pos, q: Pos, name: seq<nat>, entry: Slot)
    requires LiveAt(s, p) && s[p] == entry && NewEntry(s, v.slots, q, Entry(name, entry.attr, 0, 0)) && v.aside == None
    requires |name| > 0 ==> name[0] != DOT
    requires w == v.(slots := v.slots[q := entry.(name := name)][p := Deleted])
    ensures Passes(v, w, p, q, entry.(name := name))
  {
    assert p != q && SameLive(s, v.slots, p);
  }

  lemma SourceThere(s: map<Pos, Slot>, m: map<Pos, Slot>, p: Pos, q: Pos, entry: Slot)
    requires LiveAt(s, p) && NewEntry(s, m, q, entry) && Live(entry)
    ensures p != q && LiveAt(m, p) && m[p] == s[p] && LiveAt(m, q)
  {
    assert p != q ==> SameLive(s, m, p);
  }

  // The new entry in slot q takes over what the old one has.
  method TakeOver(d: Drive, source: Pos, previous: nat, q: Pos, entry: Slot, ghost name: seq<nat>,
                  ghost s: map<Pos, Slot>, ghost r: Run, ghost dir: Dir, ghost x: nat)
    returns (error: Error, ghost r': Run)
    requires Shows(d, r) && r.Last().v.aside == None && !d.readOnly
    requires LiveAt(s, source) && s[source] == entry && (|name| > 0 ==> name[0] != DOT)
    requires NewEntry(s, d.slots, q, Entry(name, entry.attr, 0, 0))
    requires IsDir(d, dir) && Present(d, dir) && Found(dir, x, source, previous)
    modifies d`slots
    ensures Shows(d, r') && r'.states[0] == r.states[0] && r'.Last().v.aside == None && r'.Last().v.opens == r.Last().v.opens
    ensures Renamed(s, d.slots, source, q) && d.slots[q] == entry.(name := name) && source in d.slots
            && d.slots[source] == Deleted
    ensures r'.Last().own == Passed(r.Last().own, source, q)
    ensures Sparing(r) && source !in r.Last().v.opens ==> Sparing(r')
    ensures var copied := old(d.slots)[q := entry.(name := name)][source := Deleted];
            AllIn(copied, dir) && Stripped(d.slots, error) == Strip(copied, dir, d.rootCluster, previous, x, false, false)
  {
    hide Layout, Sparing, NewEntry, SameLive, Step, View, Passed, Renamed, Passes, Strip, OnlyPiecesGone;
    ghost var v, m := r.Last().v, d.slots;
    AllParts(d, v);
    SourceThere(s, m, source, q, Entry(name, entry.attr, 0, 0));
    EntryThere(s, m, q, Entry(name, entry.attr, 0, 0));
    CopyOver(d, source, q, entry);
    ghost var copied, marked := View(d), d.slots;
    NewSlots(d, v);
    MovePasses(s, v, copied, source, q, name, entry);
    error := RemoveLfn(d, source.cluster, source.index, previous, dir, x);
    StripsPieces(marked, dir, d.rootCluster, previous, x, false, false);
    NewSlots(d, v);
    r' := MoveRun(r, copied, View(d), source, q, entry.(name := name));
    PiecesLive(marked, d.slots);
    MoveIsRename(s, m, marked, d.slots, source, q, Entry(name, entry.attr, 0, 0), entry.(name := name));
  }

  // What removing the old name reports, when the old entry is marked.
  ghost function RemovalError(s: map<Pos, Slot>, source: Pos, src: Source, root: nat, previous: nat): Error
    requires AllIn(s, src.dir) && src.x < |src.dir.Flat()|
  {
    Strip(s[source := Deleted], src.dir, root, previous, src.x, false, false).error
  }

  // The old directory's slots are the same whether the new entry is there or not.
  lemma RemovalSame(s: map<Pos, Slot>, m: map<Pos, Slot>, source: Pos, q: Pos, e: Slot, src: Source, root: nat, previous: nat)
    requires AllIn(s, src.dir) && src.x < |src.dir.Flat()| && src.dir.Flat()[src.x] == source && SameIn(s, m, src.dir)
    requires q != source && forall k :: 0 <= k < |src.dir.Flat()| ==> src.dir.Flat()[k] != q
    requires AllIn(m[q := e][source := Deleted], src.dir)
    ensures Strip(m[q := e][source := Deleted], src.dir, root, previous, src.x, false, false).error
            == RemovalError(s, source, src, root, previous)
  {
    var t := m[q := e][source := Deleted];
    assert SameIn(s[source := Deleted], t, src.dir);
    SameStrip(s[source := Deleted], t, src.dir, root, previous, src.x, false, false);
  }

  // The old entry as it was found.
  ghost predicate FoundAt(d: Drive, a: State, source: Pos, previous: nat, sourceDir: nat, src: Source)
    requires d.Mounted()
  {
    && LiveAt(a.v.slots, source) && DirOf(a, src.o, 0, src.dir) && DirIn(d, a.v.fat, src.dir) && AllIn(a.v.slots, src.dir)
    && Found(src.dir, src.x, source, previous) && src.dir.clusters[0] == sourceDir
  }

  lemma FoundShows(d: Drive, a: State, source: Pos, previous: nat, sourceDir: nat, src: Source)
    requires d.Mounted() && a.v.fat == d.Fat() && a.v.slots == d.slots && FoundAt(d, a, source, previous, sourceDir, src)
    ensures LiveAt(d.slots, source) && IsDir(d, src.dir) && Present(d, src.dir) && Found(src.dir, src.x, source, previous)
    ensures src.x < |src.dir.Flat()| && src.dir.Flat()[src.x] == source && source.index < src.dir.perCluster
    ensures src.dir.clusters[0] == sourceDir && AllIn(d.slots, src.dir) && source in d.slots && d.slots[source].Entry?
  {
    var j := SlotBefore(src.dir, src.x);
  }

  // What removing the old name reports, told by the slots before.
  lemma RemovalTold(d: Drive, a: State, source: Pos, previous: nat, sourceDir: nat, src: Source)
    requires d.Mounted() && a.Ok() && a.v.fat == d.Fat() && a.v.slots == d.slots && a.v.root == d.rootCluster
    requires FoundAt(d, a, source, previous, sourceDir, src)
    ensures src.x < |src.dir.Flat()| && FlatInjective(src.dir) && RootFirst(src.dir, d.rootCluster)
    ensures EndsAs(d.slots, src.dir, d.rootCluster, src.x, RemovalError(d.slots, source, src, d.rootCluster, previous))
  {
    FoundShows(d, a, source, previous, sourceDir, src);
    HomeRootFirst(a, src.o, src.dir);
    DirInjective(d, src.dir);
    hide Layout, Strip, Found, FlatInjective, RootFirst, HeadsMarked, Ends, DirOf, IsDir, FreeCells;
    if HeadsMarked(d.slots, src.dir) {
      RemovalEnds(d.slots, src.dir, d.rootCluster, previous, src.x, source);
    }
  }

  // The old directory after the new entry is made elsewhere, at q.
  lemma SourceStays(d: Drive, a: State, b: State, source: Pos, previous: nat, sourceDir: nat, src: Source, t: Target,
                    o: Owner, dir: Dir, pr: Progress, entry: Slot, q: Pos)
    requires d.Mounted() && a.Ok() && b.Ok() && b.v.fat == d.Fat() && b.v.slots == d.slots && |a.v.fat| == d.fat.Length
    requires FoundAt(d, a, source, previous, sourceDir, src) && Targets(d, a, t, o, 0, dir) && sourceDir != t.dirCluster
    requires b.own == GrownBy(a.own, o, pr.added) && Local(a.v.fat, b.v.fat, a.v.slots, b.v.slots, dir, pr.added)
    requires entry.Entry? && Created(a.v.slots, dir, pr, !t.shortOk, t.name, entry, Some(q))
    ensures IsDir(d, src.dir) && Present(d, src.dir) && Found(src.dir, src.x, source, previous)
            && SameIn(a.v.slots, d.slots, src.dir)
    ensures forall k :: 0 <= k < |src.dir.Flat()| ==> src.dir.Flat()[k] != q
  {
    OtherDirStays(d, a, b, src.o, src.dir, o, dir, pr.added);
    InLonger(dir, pr.added, Cluster.Last(pr.at));
  }

  lemma CreatedInside(s: map<Pos, Slot>, dir: Dir, pr: Progress, long: bool, name: seq<nat>, entry: Slot, p: Pos)
    requires entry.Entry? && Created(s, dir, pr, long, name, entry, Some(p))
    ensures p.cluster in dir.clusters || p.cluster in pr.added
  {
    InLonger(dir, pr.added, Cluster.Last(pr.at));
  }

  // An entry with the new name was made in the other directory; it took over what the old one has, and the old
  // one went with the pieces before it.
  ghost predicate MadeThere(s: map<Pos, Slot>, w: map<Pos, Slot>, f: Fat, g: Fat, root: nat, t: Target, p: Pos,
                            previous: nat, src: Source, dir: Dir, pr: Progress, error: Error, q: Pos)
    requires p in s && s[p].Entry?
  {
    exists m: map<Pos, Slot> ::
      && Took(s, m, f, g, dir, pr) && Created(s, dir, pr, !t.shortOk, t.name, Entry(t.alias, s[p].attr, 0, 0), Some(q))
      && Leaving(m[q := s[p].(name := t.alias)][p := Deleted], w, root, previous, src, error)
  }

  ghost predicate Leaving(s: map<Pos, Slot>, w: map<Pos, Slot>, root: nat, previous: nat, src: Source, error: Error) {
    && AllIn(s, src.dir) && src.x < |src.dir.Flat()|
    && Stripped(w, error) == Strip(s, src.dir, root, previous, src.x, false, false)
  }

  lemma ThereNow(s: map<Pos, Slot>, m: map<Pos, Slot>, w: map<Pos, Slot>, f: Fat, g: Fat, root: nat, t: Target, p: Pos,
                 previous: nat, src: Source, dir: Dir, pr: Progress, error: Error, q: Pos)
    requires p in s && s[p].Entry? && Took(s, m, f, g, dir, pr)
    requires Created(s, dir, pr, !t.shortOk, t.name, Entry(t.alias, s[p].attr, 0, 0), Some(q))
    requires var copied := m[q := s[p].(name := t.alias)][p := Deleted];
             AllIn(copied, src.dir) && src.x < |src.dir.Flat()|
             && Stripped(w, error) == Strip(copied, src.dir, root, previous, src.x, false, false)
    ensures MadeThere(s, w, f, g, root, t, p, previous, src, dir, pr, error, q)
  {}

  // The second half of a move: the new entry, in slot q, takes over what the old one has, and the old one goes.
  method MoveOver(d: Drive, t: Target, source: Pos, previous: nat, entry: Slot, q: Pos, ghost sourceDir: nat, ghost src: Source,
                  ghost a: State, ghost r: Run, ghost o: Owner, ghost dir: Dir, ghost pr: Progress)
    returns (error: Error, ghost r': Run)
    requires Shows(d, r) && r.Last().v.aside == None && !d.readOnly && a.Ok() && |a.v.fat| == d.fat.Length && a.v.root == d.rootCluster
    requires FoundAt(d, a, source, previous, sourceDir, src) && Targets(d, a, t, o, 0, dir) && sourceDir != t.dirCluster
    requires source in a.v.slots && a.v.slots[source] == entry && entry.Entry? && (|t.alias| > 0 ==> t.alias[0] != DOT)
    requires r.Last().own == GrownBy(a.own, o, pr.added) && Local(a.v.fat, d.Fat(), a.v.slots, d.slots, dir, pr.added)
    requires Took(a.v.slots, d.slots, a.v.fat, d.Fat(), dir, pr) && NewEntry(a.v.slots, d.slots, q, Entry(t.alias, entry.attr, 0, 0))
    requires Created(a.v.slots, dir, pr, !t.shortOk, t.name, Entry(t.alias, entry.attr, 0, 0), Some(q))
    modifies d`slots
    ensures Shows(d, r') && r'.states[0] == r.states[0] && r'.Last().v.aside == None
    ensures AllIn(a.v.slots, src.dir) && src.x < |src.dir.Flat()|
    ensures error == RemovalError(a.v.slots, source, src, d.rootCluster, previous)
    ensures Renamed(a.v.slots, d.slots, source, q) && d.slots[q] == entry.(name := t.alias)
    ensures source in d.slots && d.slots[source] == Deleted && r'.Last().own == Passed(r.Last().own, source, q)
    ensures Sparing(r) && source !in r.Last().v.opens ==> Sparing(r')
    ensures q != source && (q.cluster in dir.clusters || q.cluster in pr.added)
    ensures MadeThere(a.v.slots, d.slots, a.v.fat, d.Fat(), d.rootCluster, t, source, previous, src, dir, pr, error, q)
  {
    hide Layout, Sparing, Targets, Created, NewEntry, SameLive, Took, Local, Step, View, FreeCells, GrownBy, Passed,
         Outcome, Renamed, Passes, FoundAt, Strip, RemovalError, IsDir, Present, SameIn, Found, DirShown, EndsAs,
         FlatInjective, RootFirst, Opens, NoTwice, IsName, LiveAt, MadeThere;
    ghost var v, m := r.Last().v, d.slots;
    AllParts(d, v);
    FoundLive(d, a, source, previous, sourceDir, src);
    SourceThere(a.v.slots, m, source, q, Entry(t.alias, entry.attr, 0, 0));
    SourceStays(d, a, r.Last(), source, previous, sourceDir, src, t, o, dir, pr, Entry(t.alias, entry.attr, 0, 0), q);
    CreatedInside(a.v.slots, dir, pr, !t.shortOk, t.name, Entry(t.alias, entry.attr, 0, 0), q);
    error, r' := TakeOver(d, source, previous, q, entry, t.alias, a.v.slots, r, src.dir, src.x);
    RemovalSame(a.v.slots, m, source, q, entry.(name := t.alias), src, d.rootCluster, previous);
    ThereNow(a.v.slots, m, d.slots, a.v.fat, d.Fat(), d.rootCluster, t, source, previous, src, dir, pr, error, q);
  }

  lemma FoundLive(d: Drive, a: State, source: Pos, previous: nat, sourceDir: nat, src: Source)
    requires d.Mounted() && FoundAt(d, a, source, previous, sourceDir, src)
    ensures LiveAt(a.v.slots, source) && AllIn(a.v.slots, src.dir)
    ensures src.x < |src.dir.Flat()| && src.dir.Flat()[src.x] == source
  {
    FoundInside(src.dir, src.x, source, previous);
  }

  // MFS_Rename_file, to another directory: the entry is made there, copied over, and deleted here.
  method Move(d: Drive, t: Target, source: Pos, previous: nat, ghost sourceDir: nat, ghost src: Source,
              ghost r: Run, ghost o: Owner, ghost dir: Dir)
    returns (error: Error, at: Option<Pos>, ghost r': Run, ghost pr: Progress)
    requires Shows(d, r) && r.Last().v.aside == None && d.CountOk() && !d.readOnly
    requires Targets(d, r.Last(), t, o, 0, dir) && t.lookup == None && (|t.alias| > 0 ==> t.alias[0] != DOT)
    requires FoundAt(d, r.Last(), source, previous, sourceDir, src) && sourceDir != t.dirCluster
    modifies d.fat, d`freeCount, d`nextFree, d`slots
    ensures d.CountOk() && Shows(d, r') && r'.states[0] == r.states[0] && r'.Last().v.aside == None
    ensures AllIn(old(d.slots), src.dir) && src.x < |src.dir.Flat()|
    ensures var made := Outcome(old(d.slots), old(d.Fat()), dir, !t.shortOk, PieceCount(|t.name|));
            && (at.Some? <==> made == NoError)
            && error == if made != NoError then made else RemovalError(old(d.slots), source, src, d.rootCluster, previous)
    ensures at.Some? ==> EndsAs(old(d.slots), src.dir, d.rootCluster, src.x, error)
    ensures at.Some? ==>
              && Renamed(old(d.slots), d.slots, source, at.value)
              && d.slots[at.value] == old(d.slots)[source].(name := t.alias)
              && source in d.slots && d.slots[source] == Deleted
              && r'.Last().own == Passed(GrownBy(r.Last().own, o, pr.added), source, at.value)
    ensures at == None ==>
              && r'.Last().own == GrownBy(r.Last().own, o, pr.added)
              && forall q: Pos :: SameLive(old(d.slots), d.slots, q)
    ensures Sparing(r) && (at.Some? ==> source !in r.Last().v.opens) ==> Sparing(r')
    ensures dir.FixedRoot() ==> pr.added == []
    ensures at.Some? ==> at.value != source && (at.value.cluster in dir.clusters || at.value.cluster in pr.added)
    ensures at.Some? ==>
              && source in old(d.slots) && old(d.slots)[source].Entry?
              && MadeThere(old(d.slots), d.slots, old(d.Fat()), d.Fat(), d.rootCluster, t, source, previous, src, dir, pr, error,
                           at.value)
  {
    hide Layout, Sparing, Targets, Created, NewEntry, SameLive, Took, Local, Step, View, FreeCells, GrownBy, Passed,
         Outcome, Renamed, Passes, FoundAt, Strip, RemovalError, IsDir, Present, SameIn, Found, DirShown, EndsAs,
         FlatInjective, RootFirst, Opens, NoTwice, IsName, LiveAt, MadeThere;
    ghost var a := r.Last();
    ghost var s := d.slots;
    AllParts(d, a.v);
    FoundShows(d, a, source, previous, sourceDir, src);
    RemovalTold(d, a, source, previous, sourceDir, src);
    var entry := d.slots[source];
    ghost var own';
    error, at, own', r', pr := CreateAt(d, t, entry.attr, r, o, 0, dir);
    if error == NoError {
      AllParts(d, r'.Last().v);
      error, r' := MoveOver(d, t, source, previous, entry, at.value, sourceDir, src, a, r', o, dir, pr);
    }
  }

  // ---- renaming in place ----

  // The entry of slot p is in hand, its slot deleted, and so are some pieces.
  ghost predicate PickedUp(v: Volume, w: Volume, p: Pos) {
    && v.aside == None && LiveAt(v.slots, p) && OnlyPiecesGone(v.slots[p := Deleted], w.slots)
    && w == v.(aside := Some(v.slots[p]), slots := w.slots)
  }

  lemma PickUpRun(r: Run, w: Volume, p: Pos) returns (r': Run)
    requires r.Valid() && r.Last().Ok() && PickedUp(r.Last().v, w, p)
    ensures From(r', r.states[0], State(w, Handed(r.Last().own, At(p), Aside))) && r'.Last().Ok()
    ensures Sparing(r) && p !in r.Last().v.opens ==> Sparing(r')
  {
    hide Layout, Sparing, OnlyPiecesGone;
    var a := r.Last();
    var m := State(a.v.(aside := Some(a.v.slots[p]), slots := a.v.slots[p := Deleted]), Handed(a.own, At(p), Aside));
    assert Step(a, Detach(p, Deleted), m);
    StrikeStep(m, w);
    hide Step;
    StepKeeps(a, Detach(p, Deleted), m);
    StepKeeps(m, Rewrite, State(w, m.own));
    r' := Then(Then(r, Detach(p, Deleted), m), Rewrite, State(w, m.own));
    if p !in a.v.opens {
      SparingThen(r, Detach(p, Deleted), m);
      SparingThen(Then(r, Detach(p, Deleted), m), Rewrite, State(w, m.own));
    }
  }

  lemma DirAfterPickUp(a: State, b: State, p: Pos, o: Owner, j: nat, dir: Dir)
    requires a.Ok() && PickedUp(a.v, b.v, p) && b.own == Handed(a.own, At(p), Aside)
    requires DirOf(a, o, j, dir) && o != At(p)
    ensures DirOf(b, o, j, dir) && (!dir.FixedRoot() ==> o != Aside && ChainOf(b.own, o) == ChainOf(a.own, o))
  {
    assert Aside in a.own <==> Owns(a.v, Aside);
    assert o in a.own <==> Owns(a.v, o);
  }

  // Deleting an entry and its pieces leaves the directory itself as it was.
  lemma TargetAfterPickUp(d: Drive, a: State, b: State, p: Pos, t: Target, o: Owner, j: nat, dir: Dir)
    requires d.Mounted() && a.Ok() && PickedUp(a.v, b.v, p) && b.own == Handed(a.own, At(p), Aside)
    requires Targets(d, a, t.(shortOk := true), o, j, dir) && t.lookup == None && o != At(p)
    requires !t.shortOk ==> StaysInside(b.v.slots, dir, PieceCount(|t.name|))
    ensures Targets(d, b, t, o, j, dir) && (!dir.FixedRoot() ==> o != Aside && ChainOf(b.own, o) == ChainOf(a.own, o))
  {
    DirAfterPickUp(a, b, p, o, j, dir);
    hide Layout, DirOf, IsChain, IsName, ChainOf, Handed, StaysInside;
  }

  // What is put down in slot q is what was picked up.
  lemma PutDownRun(r: Run, w: Volume, q: Pos, e: Slot) returns (r': Run)
    requires r.Valid() && r.Last().Ok() && r.Last().v.aside.Some? && r.Last().v.aside.value.Entry?
    requires LiveAt(r.Last().v.slots, q) && !Owning(r.Last().v.slots[q])
    requires Live(e) && Live(r.Last().v.aside.value) && FileOf(e) == FileOf(r.Last().v.aside.value)
    requires w == r.Last().v.(aside := None, slots := r.Last().v.slots[q := e])
    ensures From(r', r.states[0], State(w, Handed(r.Last().own, Aside, At(q)))) && r'.Last().Ok()
    ensures Sparing(r) ==> Sparing(r')
  {
    var a, b := r.Last(), State(w, Handed(r.Last().own, Aside, At(q)));
    assert InDirectory(a.v, a.own, q);
    assert Step(a, Attach(q, e), b);
    hide Layout, Step, Sparing;
    StepKeeps(a, Attach(q, e), b);
    SparingThen(r, Attach(q, e), b);
    r' := Then(r, Attach(q, e), b);
  }

  lemma PickedUpLive(s: map<Pos, Slot>, m: map<Pos, Slot>, p: Pos)
    requires LiveAt(s, p) && OnlyPiecesGone(s[p := Deleted], m)
    ensures p in m && m[p] == Deleted && !LiveAt(m, p) && forall x: Pos :: x != p ==> SameLive(s, m, x)
  {}

  lemma InPlaceIsRename(s: map<Pos, Slot>, m: map<Pos, Slot>, n: map<Pos, Slot>, t: map<Pos, Slot>, p: Pos, q: Pos,
                        entry: Slot, e: Slot)
    requires LiveAt(s, p) && !LiveAt(m, p) && forall x: Pos :: x != p ==> SameLive(s, m, x)
    requires NewEntry(m, n, q, entry) && Live(e) && FileOf(e) == FileOf(s[p]) && t == n[q := e]
    ensures Renamed(s, t, p, q)
  {
    assert q != p ==> SameLive(s, m, q) && SameLive(m, n, p);
    forall x: Pos | x != p && x != q
      ensures SameLive(s, t, x)
    {
      assert SameLive(s, m, x) && SameLive(m, n, x);
    }
  }

  lemma LostOnly(s: map<Pos, Slot>, m: map<Pos, Slot>, n: map<Pos, Slot>, p: Pos)
    requires !LiveAt(m, p) && (forall x: Pos :: x != p ==> SameLive(s, m, x)) && forall x: Pos :: SameLive(m, n, x)
    ensures !LiveAt(n, p) && forall x: Pos :: x != p ==> SameLive(s, n, x)
  {
    assert SameLive(m, n, p);
    forall x: Pos | x != p
      ensures SameLive(s, n, x)
    {
      assert SameLive(s, m, x) && SameLive(m, n, x);
    }
  }

  // The entry leaves its slot, and pieces theirs: those that the removal finds from the slot with flat index x on.
  method PickUp(d: Drive, source: Pos, parent: nat, index: nat, previous: nat, ghost dir: Dir, ghost x: nat, ghost r: Run)
    returns (error: Error, ghost r': Run)
    requires Shows(d, r) && r.Last().v.aside == None && LiveAt(d.slots, source)
    requires IsDir(d, dir) && Present(d, dir) && x < |dir.Flat()| && dir.Flat()[x] == Pos(parent, index)
    requires previous == CLUSTER_INVALID || previous in dir.clusters
    modifies d`slots
    ensures Present(d, dir) && OnlyPiecesGone(old(d.slots)[source := Deleted], d.slots)
    ensures d.readOnly ==> error == WriteProtected && d.slots == old(d.slots)[source := Deleted]
    ensures !d.readOnly ==>
              Stripped(d.slots, error) == Strip(old(d.slots)[source := Deleted], dir, d.rootCluster, previous, x, false, false)
    ensures Shows(d, r') && PickedUp(r.Last().v, r'.Last().v, source)
    ensures r'.states[0] == r.states[0] && r'.Last().own == Handed(r.Last().own, At(source), Aside)
    ensures r'.Last().v.aside == Some(old(d.slots)[source])
    ensures Sparing(r) && source !in r.Last().v.opens ==> Sparing(r')
  {
    hide Layout, Sparing, Step, View, Handed, Strip;
    ghost var v, entry := r.Last().v, d.slots[source];
    AllParts(d, v);
    d.slots := d.slots[source := Deleted];
    ghost var marked := d.slots;
    error := RemoveLfn(d, parent, index, previous, dir, x);
    StripsPieces(marked, dir, d.rootCluster, previous, x, false, false);
    ghost var w := v.(aside := Some(entry), slots := d.slots);
    NewSlots(d, w);
    r' := PickUpRun(r, w, source);
  }

  // The chain that a rename in place hands on.
  ghost function PickedAndPut(own: map<Owner, seq<nat>>, p: Pos, q: Pos, o: Owner, added: seq<nat>): map<Owner, seq<nat>> {
    Handed(GrownBy(Handed(own, At(p), Aside), o, added), Aside, At(q))
  }

  // Back from the hand into slot q, under the name that is there.
  method PutBack(d: Drive, q: Pos, entry: Slot, ghost name: seq<nat>, ghost s: map<Pos, Slot>,
                 ghost r: Run) returns (ghost r': Run)
    requires Shows(d, r) && r.Last().v.aside == Some(entry) && Live(entry) && (|name| > 0 ==> name[0] != DOT)
    requires NewEntry(s, d.slots, q, Entry(name, entry.attr, 0, 0))
    modifies d`slots
    ensures Shows(d, r') && r'.states[0] == r.states[0] && r'.Last().v.aside == None
    ensures d.slots == old(d.slots)[q := entry.(name := name)]
    ensures r'.Last().own == Handed(r.Last().own, Aside, At(q)) && (Sparing(r) ==> Sparing(r'))
  {
    hide Layout, Sparing, Step, View, Handed, SameLive;
    ghost var v := r.Last().v;
    AllParts(d, v);
    d.slots := d.slots[q := entry.(name := d.slots[q].name)];
    ghost var w := v.(aside := None, slots := d.slots);
    NewSlots(d, w);
    r' := PutDownRun(r, w, q, entry.(name := name));
  }

  // Slot p is the first free slot of a directory.
  ghost predicate FirstFreeSlot(s: map<Pos, Slot>, dir: Dir, p: Pos) {
    exists y: nat :: FreeIn(s, dir, y) && UsedRange(s, dir, 0, y) && dir.Flat()[y] == p
  }

  lemma ShortPlace(s: map<Pos, Slot>, dir: Dir, pr: Progress, name: seq<nat>, entry: Slot, p: Pos)
    requires entry.Entry? && Created(s, dir, pr, false, name, entry, Some(p)) && |pr.at| == |pr.contents|
    requires exists x: nat :: FreeIn(s, dir, x)
    ensures FirstFreeSlot(s, dir, p)
  {
    assert pr.at[0] == Cluster.Last(pr.at);
    assert dir.clusters + [] == dir.clusters;
  }

  // An entry with the new name was made in slots s, and took over what entry e has.
  ghost predicate MadeAnew(s: map<Pos, Slot>, w: map<Pos, Slot>, f: Fat, g: Fat, t: Target, e: Slot, dir: Dir, pr: Progress, q: Pos)
    requires e.Entry?
  {
    exists m: map<Pos, Slot> ::
      && Took(s, m, f, g, dir, pr) && Created(s, dir, pr, !t.shortOk, t.name, Entry(t.alias, e.attr, 0, 0), Some(q))
      && w == m[q := e.(name := t.alias)]
  }

  // The entry in hand is made again under its new name, or not at all.
  method MakeAgain(d: Drive, t: Target, source: Pos, entry: Slot, ghost s: map<Pos, Slot>,
                   ghost r: Run, ghost o: Owner, ghost j: nat, ghost dir: Dir)
    returns (error: Error, at: Option<Pos>, ghost r': Run, ghost pr: Progress)
    requires Shows(d, r) && r.Last().v.aside == Some(entry) && d.CountOk() && !d.readOnly
    requires Targets(d, r.Last(), t, o, j, dir) && t.lookup == None && (|t.alias| > 0 ==> t.alias[0] != DOT)
    requires LiveAt(s, source) && s[source] == entry && !LiveAt(d.slots, source) && forall x: Pos ::
      x != source ==> SameLive(s, d.slots, x)
    modifies d.fat, d`freeCount, d`nextFree, d`slots
    ensures d.CountOk() && Shows(d, r') && r'.states[0] == r.states[0]
    ensures error == Outcome(old(d.slots), old(d.Fat()), dir, !t.shortOk, PieceCount(|t.name|))
            && (at.Some? <==> error == NoError)
    ensures at.Some? ==>
              && Renamed(s, d.slots, source, at.value) && at.value in d.slots && d.slots[at.value] == entry.(name := t.alias)
              && r'.Last().v.aside == None && r'.Last().own == Handed(GrownBy(r.Last().own, o, pr.added), Aside, At(at.value))
    ensures at.Some? && t.shortOk && (exists x: nat :: FreeIn(old(d.slots), dir, x))
            ==> FirstFreeSlot(old(d.slots), dir, at.value)
    ensures at == None ==>
              && r'.Last().v.aside == Some(entry) && !LiveAt(d.slots, source)
              && forall x: Pos :: x != source ==> SameLive(s, d.slots, x)
    ensures (Sparing(r) ==> Sparing(r')) && (dir.FixedRoot() ==> pr.added == [])
    ensures at.Some? ==> MadeAnew(old(d.slots), d.slots, old(d.Fat()), d.Fat(), t, entry, dir, pr, at.value)
  {
    hide Layout, Sparing, Targets, Created, NewEntry, SameLive, Took, Local, Step, View, FreeCells, Handed, GrownBy,
         Outcome, Renamed, DirShown, FirstFreeSlot, FreeIn;
    ghost var m, f := d.slots, d.Fat();
    ghost var own';
    error, at, own', r', pr := CreateAt(d, t, entry.attr, r, o, j, dir);
    if error == NoError {
      ghost var n := d.slots;
      WrittenAs(m, n, f, d.Fat(), dir, pr);
      if t.shortOk && exists x: nat :: FreeIn(m, dir, x) {
        ShortPlace(m, dir, pr, t.name, Entry(t.alias, entry.attr, 0, 0), at.value);
      }
      r' := PutBack(d, at.value, entry, t.alias, m, r');
      InPlaceIsRename(s, m, n, d.slots, source, at.value, Entry(t.alias, entry.attr, 0, 0), entry.(name := t.alias));
    } else {
      LostOnly(s, m, d.slots, source);
    }
  }

  lemma WrittenAs(s: map<Pos, Slot>, t: map<Pos, Slot>, f: Fat, g: Fat, dir: Dir, pr: Progress)
    requires Took(s, t, f, g, dir, pr)
    ensures |pr.at| == |pr.contents|
  {}

  // What a rename in place removes: it counts from the first cluster of the directory, with the index of the
  // old entry in its own cluster.
  ghost function Removed(s: map<Pos, Slot>, source: Pos, dir: Dir, root: nat, previous: nat): Stripped
    requires AllIn(s, dir) && source.index < |dir.Flat()|
  {
    Strip(s[source := Deleted], dir, root, previous, source.index, false, false)
  }

  /**
   * Told by the slots before: removing the old name fails exactly for an entry in the first slot of any cluster
   * of a directory other than the root. Otherwise the pieces go that lie before its index in the first cluster.
   */
  lemma RemovedInPlace(s: map<Pos, Slot>, source: Pos, dir: Dir, root: nat, previous: nat)
    requires AllIn(s, dir) && HeadsMarked(s, dir) && FlatInjective(dir) && RootFirst(dir, root)
    requires |dir.clusters| > 0 && source.index < dir.perCluster && source.index < |dir.Flat()|
    requires source in s && s[source].Entry?
    ensures var removed := Removed(s, source, dir, root, previous);
            var m := OwnCount(s, dir, source.index);
            && (removed.error == NoError <==> !AtBeginning(dir, root, source.index))
            && (m > 0 ==> removed.slots == Gone(s[source := Deleted], dir, source.index - m, source.index))
  {
    hide Strip, FlatInjective, RootFirst, HeadsMarked, Gone;
    MarkedHeads(s, dir, source);
    MarkedCount(s, dir, source, source.index);
    FirstClusterEnds(s[source := Deleted], dir, root, previous, source.index);
  }

  /**
   * Whose pieces those are: if the entry lies beyond the first cluster, a name that ends before its index in the
   * first cluster goes, and the entry's own pieces stay, like everything else from that index on.
   */
  lemma WrongPiecesGo(s: map<Pos, Slot>, source: Pos, dir: Dir, root: nat, previous: nat, m: nat)
    requires AllIn(s, dir) && FlatInjective(dir) && RootFirst(dir, root) && |dir.clusters| > 0
    requires source.index < dir.perCluster && source.index < |dir.Flat()| && OwnPieces(s, dir, source.index, m)
    requires source in s && s[source].Entry?
    ensures var removed := Removed(s, source, dir, root, previous);
            && removed == Stripped(Gone(s[source := Deleted], dir, source.index - m, source.index), NoError)
            && forall w: nat :: source.index <= w < |dir.Flat()| && dir.Flat()[w] != source ==>
                 dir.Flat()[w] in removed.slots && removed.slots[dir.Flat()[w]] == s[dir.Flat()[w]]
  {
    var t := s[source := Deleted];
    assert OwnPieces(t, dir, source.index, m);
    AllPassableThere(dir, root, previous, source.index, m);
    hide Strip, AllPassable, RootFirst, OwnPieces;
    OwnPiecesGo(t, dir, root, previous, source.index, m, false, false);
    forall w: nat | source.index <= w < |dir.Flat()| && dir.Flat()[w] != source
      ensures Gone(t, dir, source.index - m, source.index)[dir.Flat()[w]] == s[dir.Flat()[w]]
    {
      assert forall k :: 0 <= k < source.index ==> dir.Flat()[k] != dir.Flat()[w];
    }
  }

  // How a rename in place ends, behind its checks.
  ghost function InPlaceOutcome(s: map<Pos, Slot>, f: Fat, root: nat, t: Target, source: Pos, previous: nat,
      src: Source, dir: Dir): Error
    requires AllIn(s, src.dir) && source.index < |src.dir.Flat()|
  {
    var removed := Removed(s, source, src.dir, root, previous);
    if removed.error != NoError then removed.error else Outcome(removed.slots, f, dir, !t.shortOk, PieceCount(|t.name|))
  }

  // A rename in place may rely on this: the old entry lies in the cluster its new one is looked for from.
  ghost predicate PlacedAgain(d: Drive, a: State, t: Target, source: Pos, previous: nat, sourceDir: nat, src: Source,
                              o: Owner, j: nat, dir: Dir)
    requires d.Mounted()
  {
    && FoundAt(d, a, source, previous, sourceDir, src) && Targets(d, a, t.(shortOk := true), o, j, dir) && o != At(source)
    && t.lookup == None && t.dirCluster == source.cluster && source.index < |src.dir.Flat()|
    && (!t.shortOk ==> StaysInside(Removed(a.v.slots, source, src.dir, d.rootCluster, previous).slots, dir, PieceCount(|t.name|)))
  }

  lemma PlacedShows(d: Drive, a: State, t: Target, source: Pos, previous: nat, sourceDir: nat, src: Source,
                    o: Owner, j: nat, dir: Dir)
    requires d.Mounted() && a.v.fat == d.Fat() && a.v.slots == d.slots
              && PlacedAgain(d, a, t, source, previous, sourceDir, src, o, j, dir)
    ensures LiveAt(d.slots, source) && IsDir(d, src.dir) && Present(d, src.dir) && AllIn(d.slots, src.dir)
    ensures source.index < |src.dir.Flat()| && src.dir.Flat()[source.index] == Pos(sourceDir, source.index)
    ensures previous == CLUSTER_INVALID || previous in src.dir.clusters
    ensures source.index < |dir.Flat()| && dir.Flat()[source.index] == source && FlatInjective(dir)
    ensures Targets(d, a, t.(shortOk := true), o, j, dir) && o != At(source) && t.lookup == None
    ensures !t.shortOk ==> StaysInside(Removed(a.v.slots, source, src.dir, d.rootCluster, previous).slots, dir,
            PieceCount(|t.name|))
  {
    FoundShows(d, a, source, previous, sourceDir, src);
    FirstClusterAt(src.dir, source.index);
    var k := SlotBefore(src.dir, src.x);
    assert dir.perCluster == src.dir.perCluster;
    FirstClusterAt(dir, source.index);
    DirInjective(d, dir);
  }

  // The slot that was given up is free, and it is the first free one exactly if those before it are in use.
  lemma FreedSlot(m: map<Pos, Slot>, dir: Dir, source: Pos, f: Fat)
    requires source.index < |dir.Flat()| && dir.Flat()[source.index] == source && source in m && m[source] == Deleted
              && FlatInjective(dir)
    ensures FreeIn(m, dir, source.index) && forall n: nat :: Outcome(m, f, dir, false, n) == NoError
    ensures forall p: Pos :: FirstFreeSlot(m, dir, p) ==> (p == source <==> UsedRange(m, dir, 0, source.index))
  {
    assert FreeIn(m, dir, source.index);
    forall p: Pos | FirstFreeSlot(m, dir, p)
      ensures p == source <==> UsedRange(m, dir, 0, source.index)
    {
      var y: nat :| FreeIn(m, dir, y) && UsedRange(m, dir, 0, y) && dir.Flat()[y] == p;
      assert y < source.index || y == source.index;
    }
  }

  // A rename in place ends without an error, told by the slots before.
  ghost predicate InPlaceEnds(s: map<Pos, Slot>, f: Fat, root: nat, t: Target, source: Pos, previous: nat,
                              src: Source, dir: Dir)
    requires AllIn(s, src.dir) && source.index < |src.dir.Flat()|
  {
    && !AtBeginning(src.dir, root, source.index)
    && (t.shortOk || Outcome(Removed(s, source, src.dir, root, previous).slots, f, dir, true, PieceCount(|t.name|)) == NoError)
  }

  lemma InPlaceTold(d: Drive, a: State, t: Target, source: Pos, previous: nat, sourceDir: nat, src: Source,
                    o: Owner, j: nat, dir: Dir)
    requires d.Mounted() && a.Ok() && a.v.fat == d.Fat() && a.v.slots == d.slots && a.v.root == d.rootCluster
    requires PlacedAgain(d, a, t, source, previous, sourceDir, src, o, j, dir)
    ensures AllIn(d.slots, src.dir) && source.index < |src.dir.Flat()|
    ensures HeadsMarked(d.slots, src.dir) ==>
              (InPlaceOutcome(d.slots, d.Fat(), d.rootCluster, t, source, previous, src, dir) == NoError
               <==> InPlaceEnds(d.slots, d.Fat(), d.rootCluster, t, source, previous, src, dir))
  {
    FoundShows(d, a, source, previous, sourceDir, src);
    RemovalTold(d, a, source, previous, sourceDir, src);
    PlacedShows(d, a, t, source, previous, sourceDir, src, o, j, dir);
    hide Strip, FlatInjective, RootFirst, HeadsMarked, FoundAt, PlacedAgain, Outcome, AtBeginning;
    if HeadsMarked(d.slots, src.dir) {
      RemovedInPlace(d.slots, source, src.dir, d.rootCluster, previous);
      StripsPieces(d.slots[source := Deleted], src.dir, d.rootCluster, previous, source.index, false, false);
      FreedSlot(Removed(d.slots, source, src.dir, d.rootCluster, previous).slots, dir, source, d.Fat());
    }
  }

  /**
   * MFS_Rename_file, within one directory: the entry is deleted first and made again, from the cluster
   * on where it was. If removing the pieces of its old name fails or the new name finds no place, the entry
   * is lost: its chain is nobody's. A short new name always finds a place, since the old slot is free.
   */
  method InPlace(d: Drive, t: Target, source: Pos, previous: nat, sourceDir: nat, ghost src: Source,
                 ghost r: Run, ghost o: Owner, ghost j: nat, ghost dir: Dir)
    returns (error: Error, at: Option<Pos>, ghost r': Run, ghost pr: Progress)
    requires Shows(d, r) && r.Last().v.aside == None && d.CountOk() && !d.readOnly && (|t.alias| > 0 ==> t.alias[0] != DOT)
    requires PlacedAgain(d, r.Last(), t, source, previous, sourceDir, src, o, j, dir)
    modifies d.fat, d`freeCount, d`nextFree, d`slots
    ensures d.CountOk() && Shows(d, r') && r'.states[0] == r.states[0]
    ensures AllIn(old(d.slots), src.dir) && source.index < |src.dir.Flat()|
    ensures error == InPlaceOutcome(old(d.slots), old(d.Fat()), d.rootCluster, t, source, previous, src, dir)
            && (at.Some? <==> error == NoError)
    ensures HeadsMarked(old(d.slots), src.dir) ==>
              (error == NoError <==> InPlaceEnds(old(d.slots), old(d.Fat()), d.rootCluster, t, source, previous, src, dir))
    ensures var removed := Removed(old(d.slots), source, src.dir, d.rootCluster, previous);
            t.shortOk ==>
              && error == removed.error
              && (at.Some? ==> (at.value == source <==> UsedRange(removed.slots, dir, 0, source.index)))
    ensures at.Some? ==>
              && Renamed(old(d.slots), d.slots, source, at.value)
              && d.slots[at.value] == old(d.slots)[source].(name := t.alias) && r'.Last().v.aside == None
              && r'.Last().own == PickedAndPut(r.Last().own, source, at.value, o, pr.added)
    ensures at == None ==>
              && r'.Last().v.aside == Some(old(d.slots)[source]) && !LiveAt(d.slots, source)
              && forall x: Pos :: x != source ==> SameLive(old(d.slots), d.slots, x)
    ensures Sparing(r) && source !in r.Last().v.opens ==> Sparing(r')
    ensures dir.FixedRoot() ==> pr.added == []
    ensures at.Some? ==>
              && source in old(d.slots) && old(d.slots)[source].Entry?
              && MadeAnew(Removed(old(d.slots), source, src.dir, d.rootCluster, previous).slots, d.slots, old(d.Fat()), d.Fat(), t,
                          old(d.slots)[source], dir, pr, at.value)
  {
    hide Layout, Sparing, Targets, Created, NewEntry, SameLive, Took, Local, Step, View, FreeCells, Handed, GrownBy,
         Outcome, Renamed, PickedUp, PlacedAgain, Strip, OnlyPiecesGone, FirstFreeSlot, StaysInside, IsDir, UsedRange,
         FlatInjective, HeadsMarked, InPlaceEnds, Removed, FreeIn, MadeAnew;
    AllParts(d, r.Last().v);
    InPlaceTold(d, r.Last(), t, source, previous, sourceDir, src, o, j, dir);
    PlacedShows(d, r.Last(), t, source, previous, sourceDir, src, o, j, dir);
    var entry := d.slots[source];
    at, pr := None, Nothing;
    error, r' := TakeOld(d, t, source, previous, sourceDir, src, r, o, j, dir);
    if error == NoError {
      error, at, r', pr := MakeAgain(d, t, source, entry, old(d.slots), r', o, j, dir);
    }
  }

  // First half: the old entry is in hand, its pieces are gone.
  method TakeOld(d: Drive, t: Target, source: Pos, previous: nat, sourceDir: nat, ghost src: Source,
                 ghost r: Run, ghost o: Owner, ghost j: nat, ghost dir: Dir)
    returns (error: Error, ghost r': Run)
    requires Shows(d, r) && r.Last().v.aside == None && !d.readOnly
    requires PlacedAgain(d, r.Last(), t, source, previous, sourceDir, src, o, j, dir)
    modifies d`slots
    ensures AllIn(old(d.slots), src.dir) && source.index < |src.dir.Flat()| && LiveAt(old(d.slots), source)
    ensures Stripped(d.slots, error) == Removed(old(d.slots), source, src.dir, d.rootCluster, previous)
    ensures Shows(d, r') && r'.states[0] == r.states[0] && r'.Last().own == Handed(r.Last().own, At(source), Aside)
    ensures r'.Last().v.aside == Some(old(d.slots)[source]) && !LiveAt(d.slots, source)
    ensures forall x: Pos :: x != source ==> SameLive(old(d.slots), d.slots, x)
    ensures Sparing(r) && source !in r.Last().v.opens ==> Sparing(r')
    ensures error == NoError ==> Targets(d, r'.Last(), t, o, j, dir) && t.lookup == None
    ensures FreeIn(d.slots, dir, source.index) && forall n: nat :: Outcome(d.slots, d.Fat(), dir, false, n) == NoError
    ensures forall p: Pos :: FirstFreeSlot(d.slots, dir, p) ==> (p == source <==> UsedRange(d.slots, dir, 0, source.index))
  {
    hide Layout, Sparing, Targets, SameLive, Step, View, Handed, Outcome, PickedUp, PlacedAgain, Strip, OnlyPiecesGone,
         FirstFreeSlot, StaysInside, IsDir, UsedRange, FlatInjective;
    ghost var s, a := d.slots, r.Last();
    AllParts(d, a.v);
    PlacedShows(d, a, t, source, previous, sourceDir, src, o, j, dir);
    error, r' := PickUp(d, source, sourceDir, source.index, previous, src.dir, source.index, r);
    PickedUpLive(s, d.slots, source);
    FreedSlot(d.slots, dir, source, d.Fat());
    if error == NoError {
      AllParts(d, r'.Last().v);
      TargetAfterPickUp(d, a, r'.Last(), source, t, o, j, dir);
    }
  }

  // ---- the whole rename ----

  lemma SameFiles(s: map<Pos, Slot>, t: map<Pos, Slot>)
    requires forall x: Pos :: SameLive(s, t, x)
    ensures FilesOf(t) == FilesOf(s)
  {
    forall x: Pos
      ensures x in LiveSet(s) <==> x in LiveSet(t)
      ensures x in LiveSet(s) ==> t[x] == s[x]
    {
      assert SameLive(s, t, x);
    }
    assert LiveSet(s) == LiveSet(t);
    GatherSame(s, t, LiveSet(s));
  }

  // Losing an entry loses one file.
  lemma LostFile(s: map<Pos, Slot>, t: map<Pos, Slot>, p: Pos)
    requires LiveAt(s, p) && !LiveAt(t, p) && forall x: Pos :: x != p ==> SameLive(s, t, x)
    ensures FilesOf(s) == FilesOf(t) + multiset{FileOf(s[p])} && FilesOf(t) != FilesOf(s)
  {
    forall x: Pos
      ensures x in LiveSet(s) - {p} <==> x in LiveSet(t)
      ensures x in LiveSet(t) ==> t[x] == s[x]
    {
      assert x != p ==> SameLive(s, t, x);
    }
    assert LiveSet(t) == LiveSet(s) - {p};
    GatherRemove(s, LiveSet(s), p);
    GatherSame(s, t, LiveSet(t));
    assert |FilesOf(s)| == |FilesOf(t)| + 1;
  }

  // The file keeps its chain, unless it is the very directory that grew.
  lemma ChainUntouched(v: Volume, own: map<Owner, seq<nat>>, p: Pos, q: Pos, o: Owner, added: seq<nat>)
    requires Owners(v, own) && v.aside == None && !(q != p && q in v.slots && Owning(v.slots[q]))
    requires added != [] ==> o != At(p) && o != Aside
    ensures ChainOf(PickedAndPut(own, p, q, o, added), At(q)) == ChainOf(own, At(p))
    ensures p != q ==> ChainOf(Passed(GrownBy(own, o, added), p, q), At(q)) == ChainOf(own, At(p))
  {
    assert Aside in own <==> Owns(v, Aside);
    assert At(q) in own <==> Owns(v, At(q));
  }

  // A rename in place is never denied.
  lemma NeverDenied(s: map<Pos, Slot>, f: Fat, root: nat, t: Target, sourceDir: nat, p: Pos, previous: nat, src: Source, dir: Dir)
    requires AllIn(s, src.dir) && p.index < |src.dir.Flat()| && src.x < |src.dir.Flat()|
    ensures RenameOutcome(s, f, root, t, sourceDir, p, previous, src, dir) != AccessDenied
  {
    hide Strip;
    StripsPieces(s[p := Deleted], src.dir, root, previous, p.index, false, false);
    StripsPieces(s[p := Deleted], src.dir, root, previous, src.x, false, false);
  }

  // The checks of MFS_Rename_file; source is what looking up the old name finds, dotted whether either
  // name begins with a dot.
  ghost function RenameChecks(d: Drive, paths: bool, t: Target, sourceDir: nat, dotted: bool, source: Option<Pos>): Error
    requires source.Some? ==> source.value in d.slots && d.slots[source.value].Entry?
    reads d
  {
    if !paths then InvalidParameter
    else if d.readOnly then WriteProtected
    else if t.dirCluster == CLUSTER_INVALID || sourceDir == CLUSTER_INVALID then PathNotFound
    else if dotted then InvalidParameter
    else if t.lookup.Some? then FileExists
    else if source == None then FileNotFound
    else if d.slots[source.value].attr & ATTR_VOLUME_NAME != 0 then WriteFault
    else if sourceDir != t.dirCluster && d.slots[source.value].attr & ATTR_READ_ONLY != 0 then AccessDenied
    else NoError
  }

  // Every error code names something that is the case.
  lemma RenameReasons(d: Drive, paths: bool, t: Target, sourceDir: nat, dotted: bool, source: Option<Pos>)
    requires source.Some? ==> source.value in d.slots && d.slots[source.value].Entry?
    ensures match RenameChecks(d, paths, t, sourceDir, dotted, source)
            case NoError => paths && !d.readOnly && !dotted && source.Some? && t.lookup == None
            case InvalidParameter => !paths || dotted
            case WriteProtected => d.readOnly
            case PathNotFound => t.dirCluster == CLUSTER_INVALID || sourceDir == CLUSTER_INVALID
            case FileExists => t.lookup.Some?
            case FileNotFound => source == None
            case WriteFault => source.Some? && d.slots[source.value].attr & ATTR_VOLUME_NAME != 0
            case AccessDenied => source.Some? && sourceDir != t.dirCluster && d.slots[source.value].attr & ATTR_READ_ONLY != 0
            case _ => false
  {}

  // The creation of a rename in place begins in the cluster where the old entry was found.
  ghost function MadeFrom(t: Target, sourceDir: nat, source: Pos): Target {
    if sourceDir == t.dirCluster then t.(dirCluster := source.cluster) else t
  }

  // What a rename that passes its checks may rely on.
  ghost predicate Renameable(d: Drive, a: State, t: Target, sourceDir: nat, source: Pos, previous: nat, src: Source,
                             o: Owner, j: nat, dir: Dir)
    requires d.Mounted()
  {
    && (|t.alias| > 0 ==> t.alias[0] != DOT) && source.index < |src.dir.Flat()| && AllIn(a.v.slots, src.dir)
    && if sourceDir == t.dirCluster then PlacedAgain(d, a, MadeFrom(t, sourceDir, source), source, previous, sourceDir,
       src, o, j, dir)
       else FoundAt(d, a, source, previous, sourceDir, src) && Targets(d, a, t, o, j, dir) && j == 0
  }

  // How a rename ends, behind its checks.
  ghost function RenameOutcome(s: map<Pos, Slot>, f: Fat, root: nat, t: Target, sourceDir: nat, source: Pos, previous: nat,
                               src: Source, dir: Dir): Error
    requires AllIn(s, src.dir) && source.index < |src.dir.Flat()| && src.x < |src.dir.Flat()|
  {
    if sourceDir == t.dirCluster then InPlaceOutcome(s, f, root, t, source, previous, src, dir)
    else
      var made := Outcome(s, f, dir, !t.shortOk, PieceCount(|t.name|));
      if made != NoError then made else RemovalError(s, source, src, root, previous)
  }

  // A rename ends without an error behind its checks, told by the slots before.
  ghost predicate RenameEnds(s: map<Pos, Slot>, f: Fat, root: nat, t: Target, sourceDir: nat, source: Pos, previous: nat,
                             src: Source, dir: Dir)
    requires AllIn(s, src.dir) && source.index < |src.dir.Flat()| && src.x < |src.dir.Flat()|
  {
    if sourceDir == t.dirCluster then InPlaceEnds(s, f, root, t, source, previous, src, dir)
    else Outcome(s, f, dir, !t.shortOk, PieceCount(|t.name|)) == NoError && Ends(s, src.dir, root, src.x)
  }

  lemma RenameTold(d: Drive, a: State, t: Target, sourceDir: nat, source: Pos, previous: nat, src: Source,
                   o: Owner, j: nat, dir: Dir)
    requires d.Mounted() && a.Ok() && a.v.fat == d.Fat() && a.v.slots == d.slots && a.v.root == d.rootCluster
    requires Renameable(d, a, t, sourceDir, source, previous, src, o, j, dir)
    ensures AllIn(d.slots, src.dir) && source.index < |src.dir.Flat()| && src.x < |src.dir.Flat()|
    ensures HeadsMarked(d.slots, src.dir) ==>
              (RenameOutcome(d.slots, d.Fat(), d.rootCluster, t, sourceDir, source, previous, src, dir) == NoError
               <==> RenameEnds(d.slots, d.Fat(), d.rootCluster, t, sourceDir, source, previous, src, dir))
  {
    FoundShows(d, a, source, previous, sourceDir, src);
    RemovalTold(d, a, source, previous, sourceDir, src);
    if sourceDir == t.dirCluster {
      InPlaceTold(d, a, MadeFrom(t, sourceDir, source), source, previous, sourceDir, src, o, j, dir);
    }
  }

  lemma AfterMove(v: Volume, own: map<Owner, seq<nat>>, s: map<Pos, Slot>, t: map<Pos, Slot>, p: Pos,
                  at: Option<Pos>, o: Owner, added: seq<nat>)
    requires Layout(v, own) && v.slots == s && v.aside == None
    requires at.Some? ==> Renamed(s, t, p, at.value) && p in t && t[p] == Deleted
    requires at == None ==> forall q: Pos :: SameLive(s, t, q)
    ensures FilesOf(t) == FilesOf(s)
    ensures at.Some? && (added != [] ==> o != At(p) && o != Aside) ==>
              ChainOf(Passed(GrownBy(own, o, added), p, at.value), At(at.value)) == ChainOf(own, At(p))
  {
    if at.Some? {
      RenameConserves(s, t, p, at.value);
      if added != [] ==> o != At(p) && o != Aside {
        ChainUntouched(v, own, p, at.value, o, added);
      }
    } else {
      SameFiles(s, t);
    }
  }

  lemma AfterInPlace(v: Volume, own: map<Owner, seq<nat>>, s: map<Pos, Slot>, t: map<Pos, Slot>, p: Pos,
                     at: Option<Pos>, o: Owner, added: seq<nat>)
    requires Layout(v, own) && v.slots == s && v.aside == None && LiveAt(s, p)
    requires at.Some? ==> Renamed(s, t, p, at.value)
    requires at == None ==> !LiveAt(t, p) && forall x: Pos :: x != p ==> SameLive(s, t, x)
    ensures FilesOf(t) == FilesOf(s) <==> at.Some?
    ensures at.Some? && (added != [] ==> o != At(p) && o != Aside) ==>
              ChainOf(PickedAndPut(own, p, at.value, o, added), At(at.value)) == ChainOf(own, At(p))
  {
    if at.Some? {
      RenameConserves(s, t, p, at.value);
      if added != [] ==> o != At(p) && o != Aside {
        ChainUntouched(v, own, p, at.value, o, added);
      }
    } else {
      LostFile(s, t, p);
    }
  }

  // After a rename, the open files are on live slots exactly if the old slot is not open or is the new one.
  lemma OpensAfterRename(v: Volume, w: Volume, p: Pos, q: Pos)
    requires OpensLive(v) && w.opens == v.opens && Renamed(v.slots, w.slots, p, q)
    ensures OpensLive(w) <==> p !in v.opens || q == p
  {
    forall i | 0 <= i < |v.opens|
      ensures v.opens[i] != p ==> LiveAt(w.slots, v.opens[i])
      ensures v.opens[i] == p ==> (LiveAt(w.slots, p) <==> q == p)
    {
      assert v.opens[i] != p && v.opens[i] != q ==> SameLive(v.slots, w.slots, v.opens[i]);
    }
    if p in v.opens {
      var i :| 0 <= i < |v.opens| && v.opens[i] == p;
      assert w.opens[i] == p;
    }
  }

  // The entry in hand is lost: the next operation finds a volume in order exactly if no live entry lies in its
  // clusters, so always after the loss of a file.
  ghost predicate Leaves(d: Drive, own: map<Owner, seq<nat>>)
    reads d, d.fat, d.cache, d.cache.buffer, d.handles
  {
    Sane(d, own - {Aside}) <==> NoneLive(d.slots, AsideChain(own))
  }

  lemma AfterLoss(d: Drive, r: Run)
    requires Shows(d, r) && r.Last().v.aside.Some? && d.CountOk() && NoTwice(d.handles)
    requires d.cache.Valid() && d.cache.readOnly == d.readOnly
    ensures Leaves(d, r.Last().own)
    ensures !IsDirectory(r.Last().v.aside.value) ==> Sane(d, r.Last().own - {Aside})
  {
    hide Layout, NoneLive;
    ForgetHand(r.Last().v, r.Last().own);
    assert View(d) == r.Last().v.(aside := None);
  }

  // What a rename of the entry of slot p that passes its checks makes of the slots s, and reports: the outcome
  // told above. It is lost exactly if a rename in place ends with an error.
  ghost predicate RenameDone(s: map<Pos, Slot>, f: Fat, w: map<Pos, Slot>, root: nat, t: Target, sourceDir: nat, p: Pos,
                             previous: nat, src: Source, dir: Dir, error: Error, at: Option<Pos>) {
    && AllIn(s, src.dir) && p.index < |src.dir.Flat()| && src.x < |src.dir.Flat()| && LiveAt(s, p)
    && error == RenameOutcome(s, f, root, t, sourceDir, p, previous, src, dir)
    && (HeadsMarked(s, src.dir) ==>
         (error == NoError <==> RenameEnds(s, f, root, t, sourceDir, p, previous, src, dir)))
    && (at.Some? <==> if sourceDir == t.dirCluster then error == NoError
                      else Outcome(s, f, dir, !t.shortOk, PieceCount(|t.name|)) == NoError)
    && (FilesOf(w) == FilesOf(s) <==> !Loses(t, sourceDir, error))
    && (at.Some? ==> Renamed(s, w, p, at.value) && w[at.value] == s[p].(name := t.alias))
    && (at.Some? && sourceDir != t.dirCluster ==> at.value != p && p in w && w[p] == Deleted)
    && (at.Some? && sourceDir == t.dirCluster && t.shortOk ==>
         (at.value == p <==> UsedRange(Removed(s, p, src.dir, root, previous).slots, dir, 0, p.index)))
  }

  predicate Loses(t: Target, sourceDir: nat, error: Error) {
    sourceDir == t.dirCluster && error != NoError
  }

  // Where the new name lies: it was created in the other directory, and the old one went after that, or in the
  // slots that were left when the old one had gone.
  ghost predicate NewName(s: map<Pos, Slot>, f: Fat, w: map<Pos, Slot>, g: Fat, root: nat, t: Target, sourceDir: nat, p: Pos,
                          previous: nat, src: Source, dir: Dir, pr: Progress, error: Error, q: Pos) {
    && p in s && s[p].Entry? && AllIn(s, src.dir) && p.index < |src.dir.Flat()|
    && if sourceDir != t.dirCluster then MadeThere(s, w, f, g, root, t, p, previous, src, dir, pr, error, q)
       else MadeAnew(Removed(s, p, src.dir, root, previous).slots, w, f, g, t.(dirCluster := p.cluster), s[p], dir, pr, q)
  }

  // Behind the checks: a move, or a rename in place.
  method RenameEntry(d: Drive, t: Target, sourceDir: nat, p: Pos, previous: nat, ghost src: Source,
                     ghost own: map<Owner, seq<nat>>, ghost o: Owner, ghost j: nat, ghost dir: Dir)
    returns (error: Error, at: Option<Pos>, ghost r: Run, ghost pr: Progress)
    requires Sane(d, own) && !d.readOnly && t.lookup == None
    requires Renameable(d, State(View(d), own), t, sourceDir, p, previous, src, o, j, dir)
    modifies d.fat, d`freeCount, d`nextFree, d`slots
    ensures d.CountOk() && Shows(d, r) && r.states[0] == State(old(View(d)), own)
    ensures RenameDone(old(d.slots), old(d.Fat()), d.slots, d.rootCluster, t, sourceDir, p, previous, src, dir, error, at)
    ensures r.Last().v.aside == if Loses(t, sourceDir, error) then Some(old(d.slots)[p]) else None
    ensures at.Some? && (pr.added == [] || o != At(p)) ==> ChainOf(r.Last().own, At(at.value)) == ChainOf(own, At(p))
    ensures p !in Opens(d.handles) ==> Sparing(r)
    ensures at.Some? ==>
              NewName(old(d.slots), old(d.Fat()), d.slots, d.Fat(), d.rootCluster, t, sourceDir, p, previous, src, dir, pr, error,
                      at.value)
  {
    hide Layout, Sparing, Targets, SameLive, Step, View, FreeCells, GrownBy, Passed, PickedAndPut, FoundAt, PlacedAgain,
         Renamed, FilesOf, Outcome, RemovalError, Strip, UsedRange, RenameDone, RenameEnds, HeadsMarked, EndsAs, InPlaceEnds,
         InPlaceOutcome, Removed, RenameOutcome, Renameable, ChainOf, Opens, NoTwice, LiveAt, AllIn, Sane, MadeThere, MadeAnew;
    SaneParts(d, own);
    r := SaneShows(d, own);
    ghost var v := r.Last().v;
    AllParts(d, v);
    RenameOwner(d, r.Last(), t, sourceDir, p, previous, src, o, j, dir);
    RenameTold(d, r.Last(), t, sourceDir, p, previous, src, o, j, dir);
    if sourceDir != t.dirCluster {
      error, at, r, pr := Move(d, t, p, previous, sourceDir, src, r, o, dir);
      MoveDone(v, own, d.slots, d.rootCluster, t, sourceDir, p, previous, src, o, dir, pr.added, error, at);
    } else {
      error, at, r, pr := InPlace(d, t.(dirCluster := p.cluster), p, previous, sourceDir, src, r, o, j, dir);
      InPlaceDone(v, own, d.slots, d.rootCluster, t, sourceDir, p, previous, src, o, dir, pr.added, error, at);
    }
  }

  lemma MoveDone(v: Volume, own: map<Owner, seq<nat>>, w: map<Pos, Slot>, root: nat, t: Target, sourceDir: nat, p: Pos,
                 previous: nat, src: Source, o: Owner, dir: Dir, added: seq<nat>, error: Error, at: Option<Pos>)
    requires Layout(v, own) && v.aside == None
    requires AllIn(v.slots, src.dir) && p.index < |src.dir.Flat()| && src.x < |src.dir.Flat()| && LiveAt(v.slots, p)
    requires sourceDir != t.dirCluster
    requires HeadsMarked(v.slots, src.dir) ==>
               (RenameOutcome(v.slots, v.fat, root, t, sourceDir, p, previous, src, dir) == NoError
                <==> RenameEnds(v.slots, v.fat, root, t, sourceDir, p, previous, src, dir))
    requires var made := Outcome(v.slots, v.fat, dir, !t.shortOk, PieceCount(|t.name|));
             && (at.Some? <==> made == NoError)
             && error == if made != NoError then made else RemovalError(v.slots, p, src, root, previous)
    requires at.Some? ==>
               && Renamed(v.slots, w, p, at.value) && w[at.value] == v.slots[p].(name := t.alias)
               && at.value != p && p in w && w[p] == Deleted
    requires at == None ==> forall q: Pos :: SameLive(v.slots, w, q)
    ensures RenameDone(v.slots, v.fat, w, root, t, sourceDir, p, previous, src, dir, error, at)
    ensures at.Some? && (added != [] ==> o != At(p) && o != Aside) ==>
              ChainOf(Passed(GrownBy(own, o, added), p, at.value), At(at.value)) == ChainOf(own, At(p))
  {
    hide Layout, HeadsMarked, RenameEnds, Renamed, SameLive, Outcome, FilesOf, Passed, GrownBy, ChainOf, RemovalError;
    AfterMove(v, own, v.slots, w, p, at, o, added);
  }

  lemma InPlaceDone(v: Volume, own: map<Owner, seq<nat>>, w: map<Pos, Slot>, root: nat, t: Target, sourceDir: nat, p: Pos,
                    previous: nat, src: Source, o: Owner, dir: Dir, added: seq<nat>, error: Error, at: Option<Pos>)
    requires Layout(v, own) && v.aside == None
    requires AllIn(v.slots, src.dir) && p.index < |src.dir.Flat()| && src.x < |src.dir.Flat()| && LiveAt(v.slots, p)
    requires sourceDir == t.dirCluster && (at.Some? <==> error == NoError)
    requires HeadsMarked(v.slots, src.dir) ==>
               (RenameOutcome(v.slots, v.fat, root, t, sourceDir, p, previous, src, dir) == NoError
                <==> RenameEnds(v.slots, v.fat, root, t, sourceDir, p, previous, src, dir))
    requires error == InPlaceOutcome(v.slots, v.fat, root, t.(dirCluster := p.cluster), p, previous, src, dir)
    requires at.Some? ==> Renamed(v.slots, w, p, at.value) && w[at.value] == v.slots[p].(name := t.alias)
    requires at.Some? && t.shortOk ==>
               (at.value == p <==> UsedRange(Removed(v.slots, p, src.dir, root, previous).slots, dir, 0, p.index))
    requires at == None ==> !LiveAt(w, p) && forall q: Pos :: q != p ==> SameLive(v.slots, w, q)
    ensures RenameDone(v.slots, v.fat, w, root, t, sourceDir, p, previous, src, dir, error, at)
    ensures at.Some? && (added != [] ==> o != At(p) && o != Aside) ==>
              ChainOf(PickedAndPut(own, p, at.value, o, added), At(at.value)) == ChainOf(own, At(p))
  {
    hide Layout, RenameEnds, HeadsMarked, FilesOf, Renamed, UsedRange, Removed, Outcome, LiveAt, SameLive, PickedAndPut, ChainOf;
    AfterInPlace(v, own, v.slots, w, p, at, o, added);
  }

  lemma RenameOwner(d: Drive, a: State, t: Target, sourceDir: nat, p: Pos, previous: nat, src: Source, o: Owner, j: nat, dir: Dir)
    requires d.Mounted() && a.Ok() && a.v.aside == None && Renameable(d, a, t, sourceDir, p, previous, src, o, j, dir)
    ensures LiveAt(a.v.slots, p) && src.x < |src.dir.Flat()| && AllIn(a.v.slots, src.dir) && p.index < |src.dir.Flat()|
    ensures (!dir.FixedRoot() ==> o != Aside) && (|t.alias| > 0 ==> t.alias[0] != DOT)
    ensures if sourceDir != t.dirCluster then j == 0 && FoundAt(d, a, p, previous, sourceDir, src) && Targets(d, a, t, o, j, dir)
            else PlacedAgain(d, a, t.(dirCluster := p.cluster), p, previous, sourceDir, src, o, j, dir)
  {
    assert Aside in a.own <==> Owns(a.v, Aside);
  }

  lemma DoneUndenied(s: map<Pos, Slot>, f: Fat, w: map<Pos, Slot>, root: nat, t: Target, sourceDir: nat, p: Pos,
                     previous: nat, src: Source, dir: Dir, error: Error, at: Option<Pos>)
    requires RenameDone(s, f, w, root, t, sourceDir, p, previous, src, dir, error, at)
    ensures error != AccessDenied
  {
    hide RenameOutcome, HeadsMarked, RenameEnds, FilesOf, Renamed, UsedRange, Removed;
    NeverDenied(s, f, root, t, sourceDir, p, previous, src, dir);
  }

  lemma RenameLeaves(d: Drive, r: Run)
    requires Shows(d, r) && d.CountOk() && NoTwice(d.handles) && d.cache.Valid() && d.cache.readOnly == d.readOnly
    ensures if r.Last().v.aside == None then Sane(d, r.Last().own)
            else Leaves(d, r.Last().own) && (!IsDirectory(r.Last().v.aside.value) ==> Sane(d, r.Last().own - {Aside}))
  {
    if r.Last().v.aside == None {
      ShownIsView(d, r);
    } else {
      AfterLoss(d, r);
    }
  }

  lemma OpensAfter(d: Drive, v: Volume, t: Target, sourceDir: nat, p: Pos, previous: nat, src: Source, dir: Dir,
                   error: Error, at: Option<Pos>)
    requires d.Mounted() && v.opens == Opens(d.handles) && at.Some?
    requires RenameDone(v.slots, v.fat, d.slots, d.rootCluster, t, sourceDir, p, previous, src, dir, error, at)
    ensures OpensLive(v) ==> (OpensLive(View(d)) <==> p !in Opens(d.handles) || at.value == p)
  {
    if OpensLive(v) {
      OpensAfterRename(v, View(d), p, at.value);
    }
  }

  lemma ShowsRun(d: Drive, r: Run)
    requires Shows(d, r)
    ensures r.Valid()
  {}

  // The same, with what the next operation finds.
  method RenameFound(d: Drive, t: Target, sourceDir: nat, p: Pos, previous: nat, ghost src: Source,
                     ghost own: map<Owner, seq<nat>>, ghost o: Owner, ghost j: nat, ghost dir: Dir)
    returns (error: Error, at: Option<Pos>, ghost own': map<Owner, seq<nat>>, ghost r: Run, ghost pr: Progress)
    requires Sane(d, own) && !d.readOnly && t.lookup == None
    requires Renameable(d, State(View(d), own), t, sourceDir, p, previous, src, o, j, dir)
    modifies d.fat, d`freeCount, d`nextFree, d`slots
    ensures d.CountOk() && Shows(d, r) && r.states[0] == State(old(View(d)), own) && own' == r.Last().own
    ensures RenameDone(old(d.slots), old(d.Fat()), d.slots, d.rootCluster, t, sourceDir, p, previous, src, dir, error, at)
    ensures if Loses(t, sourceDir, error) then r.Last().v.aside == Some(old(d.slots)[p]) && Leaves(d, own')
            else r.Last().v.aside == None && Sane(d, own')
    ensures r.Last().v.aside.Some? && !IsDirectory(r.Last().v.aside.value) ==> Sane(d, own' - {Aside})
    ensures at.Some? && (pr.added == [] || o != At(p)) ==> ChainOf(own', At(at.value)) == ChainOf(own, At(p))
    ensures p !in Opens(d.handles) ==> Sparing(r)
    ensures old(OpensLive(View(d))) && at.Some? ==> (OpensLive(View(d)) <==> p !in Opens(d.handles) || at.value == p)
    ensures error != AccessDenied
    ensures at.Some? ==>
              NewName(old(d.slots), old(d.Fat()), d.slots, d.Fat(), d.rootCluster, t, sourceDir, p, previous, src, dir, pr, error,
                      at.value)
  {
    hide *;
    SaneParts(d, own);
    ghost var v := View(d);
    AllParts(d, v);
    error, at, r, pr := RenameEntry(d, t, sourceDir, p, previous, src, own, o, j, dir);
    ShowsRun(d, r);
    own' := r.Last().own;
    DoneUndenied(v.slots, v.fat, d.slots, d.rootCluster, t, sourceDir, p, previous, src, dir, error, at);
    RenameLeaves(d, r);
    if at.Some? {
      OpensAfter(d, v, t, sourceDir, p, previous, src, dir, error, at);
    }
  }

  /**
   * MFS_Rename_file. The volume keeps the collection of its files in all cases but one: a rename within
   * one directory loses the file exactly if removing its old name fails, or if its new name finds no place
   * then. A file that is renamed keeps its chain.
   */
  method RenameFile(d: Drive, paths: bool, t: Target, sourceDir: nat, dotted: bool, source: Option<Pos>, previous: nat,
                    ghost src: Source, ghost own: map<Owner, seq<nat>>, ghost o: Owner, ghost j: nat, ghost dir: Dir)
    returns (error: Error, at: Option<Pos>, ghost own': map<Owner, seq<nat>>, ghost r: Run, ghost pr: Progress)
    requires Sane(d, own) && (source.Some? ==> source.value in d.slots && d.slots[source.value].Entry?)
    requires RenameChecks(d, paths, t, sourceDir, dotted, source) == NoError ==>
               Renameable(d, State(View(d), own), t, sourceDir, source.value, previous, src, o, j, dir)
    modifies d.fat, d`freeCount, d`nextFree, d`slots
    ensures d.CountOk() && Shows(d, r) && r.states[0] == State(old(View(d)), own) && own' == r.Last().own
    ensures !paths || d.readOnly || dotted || source == None || t.lookup.Some?
            || t.dirCluster == CLUSTER_INVALID || sourceDir == CLUSTER_INVALID ==>
              error != NoError && at == None && View(d) == old(View(d))
    ensures source.Some? && old(d.slots[source.value].attr & ATTR_VOLUME_NAME != 0) ==>
              error != NoError && at == None && View(d) == old(View(d))
    ensures source.Some? && sourceDir != t.dirCluster && old(d.slots[source.value].attr & ATTR_READ_ONLY != 0) ==>
              error != NoError && at == None && View(d) == old(View(d))
    ensures sourceDir == t.dirCluster ==> error != AccessDenied
    ensures old(RenameChecks(d, paths, t, sourceDir, dotted, source)) != NoError ==>
              && error == old(RenameChecks(d, paths, t, sourceDir, dotted, source)) && at == None
              && View(d) == old(View(d)) && FilesOf(d.slots) == FilesOf(old(d.slots)) && Sane(d, own')
    ensures paths && !d.readOnly && !dotted && source.Some? && t.lookup == None
            && t.dirCluster != CLUSTER_INVALID && sourceDir != CLUSTER_INVALID
            && old(d.slots[source.value].attr & ATTR_VOLUME_NAME == 0)
            && (sourceDir == t.dirCluster || old(d.slots[source.value].attr & ATTR_READ_ONLY == 0)) ==>
              && source.Some?
              && RenameDone(old(d.slots), old(d.Fat()), d.slots, d.rootCluster, t, sourceDir, source.value, previous, src, dir,
                            error, at)
              && (if Loses(t, sourceDir, error) then r.Last().v.aside == Some(old(d.slots)[source.value]) && Leaves(d, own')
                  else r.Last().v.aside == None && Sane(d, own'))
    ensures r.Last().v.aside.Some? && !IsDirectory(r.Last().v.aside.value) ==> Sane(d, own' - {Aside})
    ensures at.Some? && (pr.added == [] || o != At(source.value)) ==>
              ChainOf(own', At(at.value)) == ChainOf(own, At(source.value))
    ensures at.Some? ==>
              && source.Some?
              && NewName(old(d.slots), old(d.Fat()), d.slots, d.Fat(), d.rootCluster, t, sourceDir, source.value, previous, src, dir,
                         pr, error, at.value)
    ensures (source.Some? ==> source.value !in Opens(d.handles)) ==> Sparing(r)
    ensures old(OpensLive(View(d))) && at.Some? ==>
              (OpensLive(View(d)) <==> source.value !in Opens(d.handles) || at.value == source.value)
  {
    hide Layout, Sparing, Renameable, Step, View, FreeCells, FilesOf, Opens, OpensLive, RenameDone, ChainOf, IsDirectory,
         Leaves, NoTwice, NewName;
    error, at, pr, own' := NoError, None, Nothing, own;
    r := SaneShows(d, own);
    if !paths {
      error := InvalidParameter;
    } else if d.readOnly {
      error := WriteProtected;
    } else if t.dirCluster == CLUSTER_INVALID {
      error := PathNotFound;
    } else if sourceDir == CLUSTER_INVALID {
      error := PathNotFound;
    } else if dotted {
      error := InvalidParameter;
    } else if t.lookup.Some? {
      error := FileExists;
    } else if source == None {
      error := FileNotFound;
    } else if d.slots[source.value].attr & ATTR_VOLUME_NAME != 0 {
      error := WriteFault;
    } else if sourceDir != t.dirCluster && d.slots[source.value].attr & ATTR_READ_ONLY != 0 {
      error := AccessDenied;
    } else {
      error, at, own', r, pr := RenameFound(d, t, sourceDir, source.value, previous, src, own, o, j, dir);
    }
  }

  /**
   * The loss that every such rename suffers: an entry in the first slot of any cluster of a directory that
   * is not the root.
   */
  lemma LostAtBoundary(s: map<Pos, Slot>, f: Fat, root: nat, t: Target, source: Pos, previous: nat, src: Source, dir: Dir)
    requires AllIn(s, src.dir) && src.x < |src.dir.Flat()| && src.dir.Flat()[src.x] == source && source.index == 0
    requires |src.dir.clusters| > 0 && src.dir.clusters[0] != 0 && src.dir.clusters[0] != root
    ensures InPlaceOutcome(s, f, root, t, source, previous, src, dir) == InvalidClusterNumber
  {
    var j := SlotBefore(src.dir, src.x);
    FirstClusterAt(src.dir, 0);
  }
}
