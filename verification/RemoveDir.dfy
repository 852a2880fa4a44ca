/**
 * Removing a subdirectory (mfs/source/generic/mfs_directory.c:199-277).
 */
module Removals {
  import opened MfsTypes
  import opened FatChain
  import opened Drives
  import opened Cluster
  import opened DirSlots
  import opened DirEntry
  import opened LfnEnding
  import opened LfnRemoval
  import opened Volumes
  import opened Runs
  import opened Handles
  import opened Files
  import opened Subdirs
  import opened Renames

  // ---- whether the directory is empty ----

  // Something is in use behind "." and "..", before a never used slot.
  ghost predicate Occupied(s: map<Pos, Slot>, inner: Dir)
    requires AllIn(s, inner) && 2 <= |inner.Flat()|
  {
    var y := FirstHalt(s, inner, InUse, 2);
    y < |inner.Flat()| && Takes(s[inner.Flat()[y]], InUse)
  }

  // The entry names cluster 0, as ".." does below the root, on a drive without a fixed root.
  ghost predicate NamesNothing(d: Drive, inner: Dir)
    requires d.Mounted()
  {
    inner.FixedRoot() && inner.perCluster == 0 && SectorsOf(d, 0) == 0
  }

  method IsOccupied(d: Drive, first: nat, ghost inner: Dir) returns (occupied: bool)
    requires d.Mounted() && NamesDir(d, inner) && inner.clusters[0] == first
    ensures occupied <==> AllIn(d.slots, inner) && 2 <= |inner.Flat()| && Occupied(d.slots, inner)
  {
    if first == 0 && d.rootEntries / d.entriesPerSector == 0 {
      var index, noSector;
      occupied, index, noSector := ScanCluster(d, InUse, 0, 2, 0, 0);
      NoSlots();
      return;
    }
    FirstClusterAt(inner, 2);
    ghost var j := SlotBefore(inner, 2);
    var c, i, previous;
    ghost var j', k;
    occupied, c, i, previous, j', k := FindSlot(d, InUse, first, 2, CLUSTER_INVALID, inner, j, 2);
  }

  lemma NoSlots()
    ensures Dir([0], 0).Flat() == []
  {
    ZeroPerCluster([0]);
  }

  // The directory that an entry names: the fixed root or a chain, with its slots, or nothing.
  ghost predicate NamesDir(d: Drive, inner: Dir)
    requires d.Mounted()
    reads d, d.fat
  {
    NamesNothing(d, inner) || (IsDir(d, inner) && Present(d, inner) && 2 < inner.perCluster)
  }

  // No live entry but that of slot p lies in the clusters ch.
  ghost predicate NoneIn(s: map<Pos, Slot>, p: Pos, ch: seq<nat>) {
    forall q: Pos :: q != p && LiveAt(s, q) ==> q.cluster !in ch
  }

  /**
   * What the search means: in a directory without gaps it finds nothing exactly if no slot behind the first
   * two is in use.
   */
  lemma SearchTells(s: map<Pos, Slot>, inner: Dir)
    requires AllIn(s, inner) && 2 <= |inner.Flat()| && Compact(s, inner)
    ensures Occupied(s, inner) <==> exists k :: 2 <= k < |inner.Flat()| && Takes(s[inner.Flat()[k]], InUse)
  {
    var y := FirstHalt(s, inner, InUse, 2);
    forall k | 2 <= k < |inner.Flat()| && Takes(s[inner.Flat()[k]], InUse)
      ensures Occupied(s, inner)
    {
      assert k < y ==> Skips(s[inner.Flat()[k]], InUse);
    }
  }

  /**
   * ... and a directory without gaps in which it finds nothing holds nothing live, if the slots of "." and ".."
   * do not.
   */
  lemma EmptyMeans(a: State, p: Pos, inner: Dir)
    requires a.Ok() && At(p) in a.own && inner == Dir(a.own[At(p)], a.v.perCluster) && AllIn(a.v.slots, inner)
    requires 2 <= |inner.Flat()| && Compact(a.v.slots, inner) && !Occupied(a.v.slots, inner)
    ensures NoneIn(a.v.slots, p, a.own[At(p)])
            <==> forall k :: 0 <= k < 2 && inner.Flat()[k] != p ==> !LiveAt(a.v.slots, inner.Flat()[k])
  {
    hide Compact, Occupied;
    SearchTells(a.v.slots, inner);
    assert Heads(a.v.fat, EntryOf(a.v, At(p)).first, a.own[At(p)]);
    forall q: Pos | q != p && LiveAt(a.v.slots, q) && q.cluster in a.own[At(p)]
      ensures exists k :: 0 <= k < 2 && inner.Flat()[k] == q
    {
      assert InDirectory(a.v, a.own, q);
      InPositions(a.own[At(p)], a.v.perCluster, q);
      var k :| 0 <= k < |inner.Flat()| && inner.Flat()[k] == q;
      assert Takes(a.v.slots[inner.Flat()[k]], InUse);
    }
    forall k | 0 <= k < 2
      ensures inner.Flat()[k].cluster in a.own[At(p)]
    {
      InPositions(a.own[At(p)], a.v.perCluster, inner.Flat()[k]);
    }
  }

  // ---- the removal itself ----

  // The checks of MFS_Remove_subdir: found is what the path comes to, current the first cluster of the
  // current directory.
  function RemoveChecks(path: seq<nat>, found: Option<Slot>, current: nat, occupied: bool): Error
    requires found.Some? ==> found.value.Entry?
  {
    if path == [] then InvalidParameter
    else if found == None then PathNotFound
    else if found.value.attr & ATTR_DIR_NAME == 0 then WriteFault
    else if found.value.first == current then AttemptToRemoveCurrentDir
    else if occupied then FileExists
    else NoError
  }

  // What is known of the entry and of the directory it names.
  ghost predicate Removable(d: Drive, own: map<Owner, seq<nat>>, lookup: Option<Pos>, previous: nat, src: Source, inner: Dir)
    requires d.Mounted()
    reads d, d.fat, d.handles
  {
    lookup.Some? ==>
      && lookup.value in d.slots && d.slots[lookup.value].Entry?
      && Home(d, own, src.o, 0, src.dir) && Found(src.dir, src.x, lookup.value, previous)
      && (IsDirectory(d.slots[lookup.value]) ==>
           NamesDir(d, inner) && inner.clusters[0] == d.slots[lookup.value].first)
  }

  ghost function ChecksOn(d: Drive, path: seq<nat>, lookup: Option<Pos>, current: nat, inner: Dir): Error
    requires lookup.Some? ==> lookup.value in d.slots && d.slots[lookup.value].Entry?
    reads d
  {
    RemoveChecks(path, if lookup.Some? then Some(d.slots[lookup.value]) else None, current,
                 AllIn(d.slots, inner) && 2 <= |inner.Flat()| && Occupied(d.slots, inner))
  }

  // The entry is marked, its pieces are, and, if all went well, the chain is released.
  method RemoveFound(d: Drive, p: Pos, first: nat, previous: nat, ghost dir: Dir, ghost x: nat) returns (error: Error)
    requires d.Mounted() && d.CountOk() && d.cache.Valid() && d.cache.readOnly == d.readOnly
    requires IsDir(d, dir) && Present(d, dir) && Found(dir, x, p, previous)
    modifies d.fat, d`freeCount, d`slots, d.cache`number, d.cache`dirty
    ensures d.CountOk() && d.cache.Valid()
    ensures d.readOnly ==> error == WriteProtected && d.slots == old(d.slots)[p := Deleted]
    ensures !d.readOnly ==> AllIn(old(d.slots), dir) && Stripped(d.slots, error) == Deleting(old(d.slots), p, dir, d.rootCluster, previous, x)
    ensures d.Fat() == if error == NoError then Released(old(d.Fat()), first) else old(d.Fat())
    ensures OnlyPiecesGone(old(d.slots)[p := Deleted], d.slots)
    ensures error in {NoError, WriteProtected, InvalidClusterNumber, FailedToDeleteLfn}
  {
    hide Strip, FreeCells, DropsFreedSector, IsChain;
    d.slots := d.slots[p := Deleted];
    ghost var marked := d.slots;
    error := RemoveLfn(d, p.cluster, p.index, previous, dir, x);
    StripsPieces(marked, dir, d.rootCluster, previous, x, false, false);
    if error == NoError {
      var _ := ReleaseChain(d, first);
    }
  }

  // The entry of slot p is gone, and every other live entry is what it was.
  ghost predicate OnlyGone(s: map<Pos, Slot>, t: map<Pos, Slot>, p: Pos) {
    !LiveAt(t, p) && forall q: Pos :: q != p ==> SameLive(s, t, q)
  }

  lemma MarkedGone(s: map<Pos, Slot>, t: map<Pos, Slot>, p: Pos)
    requires p in s && s[p].Entry? && OnlyPiecesGone(s[p := Deleted], t)
    ensures OnlyGone(s, t, p) && p in t && t[p] == Deleted
  {}

  // ---- a live entry ----

  // The chain in hand is given up.
  lemma DiscardRun(r: Run, w: Volume, p: Pos, own: map<Owner, seq<nat>>) returns (r': Run)
    requires r.Valid() && r.Last().Ok() && r.Last().v.aside.Some? && Aside !in own
    requires r.Last().own == Handed(own, At(p), Aside) && FreesExactly(r.Last().v.fat, w.fat, ChainOf(own, At(p)))
    requires w == r.Last().v.(aside := None, fat := w.fat) && NoneIn(r.Last().v.slots, p, ChainOf(own, At(p)))
              && !LiveAt(r.Last().v.slots, p)
    ensures From(r', r.states[0], State(w, own - {At(p)})) && r'.Last().Ok() && (Sparing(r) ==> Sparing(r'))
  {
    hide FreesExactly, Layout, Sparing;
    var a, b := r.Last(), State(w, own - {At(p)});
    assert AsideChain(a.own) == ChainOf(own, At(p)) && a.own - {Aside} == own - {At(p)};
    hide Handed;
    assert Step(a, Discard, b);
    hide Step;
    StepKeeps(a, Discard, b);
    SparingThen(r, Discard, b);
    r' := Then(r, Discard, b);
  }

  // An entry in a freed cluster is in no directory: the volume is out of order.
  lemma LeftBehind(w: Volume, own: map<Owner, seq<nat>>, q: Pos)
    requires LiveAt(w.slots, q) && Unused(w.fat, q.cluster)
    ensures !Layout(w, own)
  {
    if Layout(w, own) {
      assert InDirectory(w, own, q);
      var o :| o in own && IsDirectory(EntryOf(w, o)) && q.cluster in own[o];
      UnusedOutside(w, own, q.cluster);
      assert false;
    }
  }

  lemma NoneLeft(s: map<Pos, Slot>, t: map<Pos, Slot>, p: Pos, ch: seq<nat>)
    requires OnlyGone(s, t, p)
    ensures NoneIn(s, p, ch) <==> NoneIn(t, p, ch)
  {
    forall q: Pos | q != p
      ensures LiveAt(s, q) <==> LiveAt(t, q)
    {
      assert SameLive(s, t, q);
    }
  }

  // How the volume stands after a live entry was removed: out of order exactly if something was left in it.
  lemma AfterRelease(a: State, w: Volume, p: Pos)
    requires a.Ok() && a.v.aside == None && LiveAt(a.v.slots, p) && OnlyGone(a.v.slots, w.slots, p)
    requires FreesExactly(a.v.fat, w.fat, ChainOf(a.own, At(p))) && !NoneIn(a.v.slots, p, ChainOf(a.own, At(p)))
    ensures forall own: map<Owner, seq<nat>> :: !Layout(w, own)
  {
    var q: Pos :| q != p && LiveAt(a.v.slots, q) && q.cluster in ChainOf(a.own, At(p));
    assert SameLive(a.v.slots, w.slots, q);
    assert At(p) in a.own <==> Owns(a.v, At(p));
    assert Unused(w.fat, q.cluster);
    forall own: map<Owner, seq<nat>>
      ensures !Layout(w, own)
    {
      LeftBehind(w, own, q);
    }
  }

  // ---- "." and ".." ----

  // The entry of a slot that owns nothing is marked.
  lemma DotRun(a: State, w: Volume, p: Pos)
    requires p in a.v.slots && a.v.slots[p].Dot() && OnlyPiecesGone(a.v.slots[p := Deleted], w.slots)
              && w == a.v.(slots := w.slots)
    ensures Step(a, Rewrite, State(w, a.own))
  {}

  // A chain that some owner has is freed: the volume is out of order.
  lemma SharedChain(v: Volume, own: map<Owner, seq<nat>>, w: Volume, ch: seq<nat>)
    requires Layout(v, own) && w == v.(fat := w.fat) && FreesExactly(v.fat, w.fat, ch)
    ensures Layout(w, own) <==> forall o :: o in own ==> Cells(own[o]) !! Cells(ch)
  {
    if forall o :: o in own ==> Cells(own[o]) !! Cells(ch) {
      OwnersApart(v, own, w, ch);
    } else {
      var o :| o in own && !(Cells(own[o]) !! Cells(ch));
      var c :| c in Cells(own[o]) && c in Cells(ch);
      assert Heads(v.fat, EntryOf(v, o).first, own[o]);
      assert Unused(w.fat, c);
      if Layout(w, own) {
        UnusedOutside(w, own, c);
        assert false;
      }
    }
  }

  lemma OwnersApart(v: Volume, own: map<Owner, seq<nat>>, w: Volume, ch: seq<nat>)
    requires Layout(v, own) && w == v.(fat := w.fat) && FreesExactly(v.fat, w.fat, ch)
    requires forall o :: o in own ==> Cells(own[o]) !! Cells(ch)
    ensures Layout(w, own)
  {
    hide FreesExactly, Placed;
    forall o | o in own
      ensures Heads(w.fat, EntryOf(w, o).first, own[o])
    {
      ReleaseKeepsOther(v.fat, w.fat, ch, own[o]);
    }
    assert forall o: Owner :: EntryOf(w, o) == EntryOf(v, o);
    SamePlaces(v, own, w);
    forall o | o in own && IsDirectory(EntryOf(w, o))
      ensures HasSlots(w, own[o])
    {
      assert HasSlots(v, own[o]);
    }
  }

  lemma SamePlaces(v: Volume, own: map<Owner, seq<nat>>, w: Volume)
    requires Placed(v, own) && w == v.(fat := w.fat)
    ensures Placed(w, own)
  {
    forall p | p in w.slots && Live(w.slots[p])
      ensures InDirectory(w, own, p)
    {
      assert InDirectory(v, own, p);
      if p.cluster != 0 {
        var o :| o in own && IsDirectory(EntryOf(v, o)) && p.cluster in own[o];
        assert EntryOf(w, o) == EntryOf(v, o);
      }
    }
  }

  // However one looks at it, if it is the chain of an entry that is still there.
  lemma OrphanedOwner(w: Volume, own: map<Owner, seq<nat>>, o: Owner)
    requires Owns(w, o) && Unused(w.fat, EntryOf(w, o).first)
    ensures !Layout(w, own)
  {
    if o in own {
      UnusedHeadsNone(w.fat, EntryOf(w, o).first, own[o]);
    }
  }

  lemma UnusedHeadsNone(f: Fat, c: nat, ch: seq<nat>)
    requires Unused(f, c)
    ensures !Heads(f, c, ch)
  {
    if |ch| > 1 && ch[0] == c && Good(f, ch[1]) {
      assert f[ch[0]] != ch[1];
    }
  }

  /**
   * "." is refused, and lost: it lies in the first slot of its directory, and the search for its pieces fails
   * there. Nothing else changes.
   */
  lemma DotIsLost(s: map<Pos, Slot>, dir: Dir, root: nat, previous: nat)
    requires AllIn(s, dir) && 0 < |dir.Flat()| && dir.clusters[0] != 0 && dir.clusters[0] != root
    ensures Deleting(s, dir.Flat()[0], dir, root, previous, 0) == Stripped(s[dir.Flat()[0] := Deleted], InvalidClusterNumber)
  {
    var j := SlotBefore(dir, 0);
    FirstClusterAt(dir, 0);
  }

  // ---- the operation ----

  // A slot behind the first two is in use.
  ghost predicate HoldsMore(s: map<Pos, Slot>, inner: Dir) {
    exists k: nat :: 2 <= k < |inner.Flat()| && UsedAt(s, inner.Flat()[k])
  }

  ghost predicate UsedAt(s: map<Pos, Slot>, p: Pos) {
    p in s && (s[p].Entry? || s[p].Piece?)
  }

  lemma OccupiedMeans(s: map<Pos, Slot>, inner: Dir)
    requires AllIn(s, inner) && 2 <= |inner.Flat()|
    ensures Occupied(s, inner) ==> HoldsMore(s, inner)
    ensures Compact(s, inner) && HoldsMore(s, inner) ==> Occupied(s, inner)
  {
    if Compact(s, inner) && HoldsMore(s, inner) {
      var k: nat :| 2 <= k < |inner.Flat()| && UsedAt(s, inner.Flat()[k]);
      hide Compact, Occupied;
      assert Takes(s[inner.Flat()[k]], InUse);
      SearchTells(s, inner);
    }
    if Occupied(s, inner) {
      assert UsedAt(s, inner.Flat()[FirstHalt(s, inner, InUse, 2)]);
    }
  }

  // The path names a directory other than the current one.
  ghost predicate NamesOther(d: Drive, path: seq<nat>, lookup: Option<Pos>, current: nat)
    requires lookup.Some? ==> lookup.value in d.slots && d.slots[lookup.value].Entry?
    reads d`slots
  {
    path != [] && lookup.Some? && d.slots[lookup.value].attr & ATTR_DIR_NAME != 0 && d.slots[lookup.value].first != current
  }

  lemma ChecksTell(d: Drive, path: seq<nat>, lookup: Option<Pos>, current: nat, inner: Dir)
    requires lookup.Some? ==> lookup.value in d.slots && d.slots[lookup.value].Entry?
    ensures !NamesOther(d, path, lookup, current) ==> ChecksOn(d, path, lookup, current, inner) !in {NoError, FileExists}
    ensures AllIn(d.slots, inner) && Compact(d.slots, inner) && HoldsMore(d.slots, inner) ==>
              ChecksOn(d, path, lookup, current, inner) != NoError
    ensures !HoldsMore(d.slots, inner) && NamesOther(d, path, lookup, current) ==>
              ChecksOn(d, path, lookup, current, inner) == NoError
    ensures ChecksOn(d, path, lookup, current, inner) == FileExists ==> HoldsMore(d.slots, inner)
  {
    hide Occupied, Compact;
    if AllIn(d.slots, inner) && 2 <= |inner.Flat()| {
      OccupiedMeans(d.slots, inner);
    }
  }

  // Every error code names something that is the case.
  lemma RemovalReasons(d: Drive, path: seq<nat>, lookup: Option<Pos>, current: nat, inner: Dir)
    requires lookup.Some? ==> lookup.value in d.slots && d.slots[lookup.value].Entry?
    ensures match ChecksOn(d, path, lookup, current, inner)
            case NoError => NamesOther(d, path, lookup, current)
            case InvalidParameter => path == []
            case PathNotFound => lookup == None
            case WriteFault => lookup.Some? && d.slots[lookup.value].attr & ATTR_DIR_NAME == 0
            case AttemptToRemoveCurrentDir => lookup.Some? && d.slots[lookup.value].first == current
            case FileExists => HoldsMore(d.slots, inner)
            case _ => false
  {
    ChecksTell(d, path, lookup, current, inner);
    hide Occupied;
  }

  // A directory without gaps in which nothing lives behind its first two slots, nor in them, but its own entry.
  ghost predicate Hollow(s: map<Pos, Slot>, p: Pos, inner: Dir) {
    && AllIn(s, inner) && 2 <= |inner.Flat()| && Compact(s, inner) && !HoldsMore(s, inner)
    && forall k :: 0 <= k < 2 && inner.Flat()[k] != p ==> !LiveAt(s, inner.Flat()[k])
  }

  // Nothing but the entry itself lies in its clusters then.
  lemma HollowHoldsNone(d: Drive, own: map<Owner, seq<nat>>, p: Pos, inner: Dir)
    requires Sane(d, own) && LiveAt(d.slots, p) && IsDirectory(d.slots[p])
    requires NamesDir(d, inner) && inner.clusters[0] == d.slots[p].first && Hollow(d.slots, p, inner)
    ensures NoneIn(d.slots, p, ChainOf(own, At(p)))
  {
    var v := View(d);
    assert At(p) in own <==> Owns(v, At(p));
    if At(p) in own {
      assert Heads(v.fat, EntryOf(v, At(p)).first, own[At(p)]);
      OccupiedMeans(d.slots, inner);
      ChainUnique(v.fat, inner.clusters, own[At(p)]);
      EmptyMeans(State(v, own), p, inner);
    }
  }


  // Cluster c is the first one of what owner o stands for.
  ghost predicate HeadsAt(v: Volume, o: Owner, c: nat) {
    EntryOf(v, o).Entry? && EntryOf(v, o).first == c
  }

  // What a removal leaves of a volume v when it ends with an error behind its checks, or without one.
  ghost predicate AfterRemoval(v: Volume, own: map<Owner, seq<nat>>, w: Volume, p: Pos, inner: Dir, error: Error,
      own': map<Owner, seq<nat>>)
    requires p in v.slots && v.slots[p].Entry? && |inner.clusters| > 0
  {
    if Live(v.slots[p]) then
      && OnlyGone(v.slots, w.slots, p)
      && if error != NoError then
           && w.fat == v.fat && own' == Handed(own, At(p), Aside) && Layout(w.(aside := Some(v.slots[p])), own')
           && (Layout(w, own - {At(p)}) <==> NoneIn(v.slots, p, ChainOf(own, At(p))))
         else
           && FreesExactly(v.fat, w.fat, ChainOf(own, At(p)))
           && if NoneIn(v.slots, p, ChainOf(own, At(p))) then own' == own - {At(p)} && Layout(w, own')
              else forall any: map<Owner, seq<nat>> :: !Layout(w, any)
    else
      && (forall q: Pos :: SameLive(v.slots, w.slots, q)) && own' == own
      && if error != NoError || inner.FixedRoot() then w.fat == v.fat && Layout(w, own)
         else
           && FreesExactly(v.fat, w.fat, inner.clusters)
           && (Layout(w, own) <==> forall o :: o in own ==> Cells(own[o]) !! Cells(inner.clusters))
           && ((exists o :: o in own && HeadsAt(v, o, inner.clusters[0])) ==>
                forall any: map<Owner, seq<nat>> :: !Layout(w, any))
  }

  lemma LiveAfter(a: State, w: Volume, p: Pos, inner: Dir, error: Error) returns (own': map<Owner, seq<nat>>, r: Run)
    requires a.Ok() && a.v.aside == None && LiveAt(a.v.slots, p) && w == a.v.(fat := w.fat, slots := w.slots)
    requires OnlyPiecesGone(a.v.slots[p := Deleted], w.slots) && |inner.clusters| > 0
    requires w.fat == if error == NoError then Released(a.v.fat, a.v.slots[p].first) else a.v.fat
    ensures AfterRemoval(a.v, a.own, w, p, inner, error, own')
    ensures error != NoError ==> From(r, a, State(w.(aside := Some(a.v.slots[p])), own'))
    ensures error == NoError && NoneIn(a.v.slots, p, ChainOf(a.own, At(p))) ==> From(r, a, State(w, own'))
    ensures r.Valid() && r.states[0] == a && (p !in a.v.opens ==> Sparing(r))
  {
    assert Sparing(Here(a));
    hide Step, Sparing, FreesExactly, NoneIn, OnlyPiecesGone;
    MarkedGone(a.v.slots, w.slots, p);
    hide OnlyGone;
    assert Aside !in a.own by {
      assert Aside in a.own <==> Owns(a.v, Aside);
    }
    hide Layout, Handed;
    var e := a.v.slots[p];
    assert PickedUp(a.v, a.v.(aside := Some(e), slots := w.slots), p);
    r := PickUpRun(Here(a), a.v.(aside := Some(e), slots := w.slots), p);
    own' := r.Last().own;
    if error == NoError {
      ChainFreed(a, w.fat, p);
      NoneLeft(a.v.slots, w.slots, p, ChainOf(a.own, At(p)));
      if NoneIn(a.v.slots, p, ChainOf(a.own, At(p))) {
        GoneIsGone(a.v.slots, w.slots, p);
        r := DiscardRun(r, w, p, a.own);
        own' := a.own - {At(p)};
      } else {
        AfterRelease(a, w, p);
      }
    } else {
      LeakedAfter(a, w, r.Last(), p);
    }
  }

  // The chain in hand is forgotten.
  lemma LeakedAfter(a: State, w: Volume, b: State, p: Pos)
    requires b.Ok() && b.v == w.(aside := b.v.aside) && b.v.aside.Some? && w.aside == None && Aside !in a.own
    requires b.own == Handed(a.own, At(p), Aside) && OnlyGone(a.v.slots, w.slots, p)
    ensures Layout(w, a.own - {At(p)}) <==> NoneIn(a.v.slots, p, ChainOf(a.own, At(p)))
  {
    hide Layout, OnlyGone;
    var ch := ChainOf(a.own, At(p));
    ForgetHand(b.v, b.own);
    assert b.v.(aside := None) == w;
    assert b.own - {Aside} == a.own - {At(p)} && AsideChain(b.own) == ch;
    NoneLeft(a.v.slots, w.slots, p, ch);
    GoneIsGone(a.v.slots, w.slots, p);
  }

  lemma GoneIsGone(s: map<Pos, Slot>, t: map<Pos, Slot>, p: Pos)
    requires OnlyGone(s, t, p)
    ensures !LiveAt(t, p)
  {}

  lemma DotAfter(a: State, w: Volume, p: Pos, inner: Dir, error: Error)
    requires a.Ok() && p in a.v.slots && a.v.slots[p].Dot() && w == a.v.(fat := w.fat, slots := w.slots)
    requires OnlyPiecesGone(a.v.slots[p := Deleted], w.slots) && |inner.clusters| > 0 && a.v.slots[p].first == inner.clusters[0]
    requires inner.FixedRoot() || IsChain(a.v.fat, inner.clusters)
    requires w.fat == if error == NoError then Released(a.v.fat, a.v.slots[p].first) else a.v.fat
    ensures AfterRemoval(a.v, a.own, w, p, inner, error, a.own)
    ensures error != NoError || inner.FixedRoot() ==> Step(a, Rewrite, State(w, a.own))
  {
    var m := a.v.(slots := w.slots);
    hide OnlyPiecesGone, SameLive, Step, Layout, IsChain, Released, FreesExactly, Heads, HeadsAt, Cells;
    DotRun(a, m, p);
    StepKeeps(a, Rewrite, State(m, a.own));
    DotLive(a.v.slots, w.slots, p);
    if error != NoError || inner.FixedRoot() {
      assert w == m by {
        ReleasedNothing(a.v.fat);
      }
    } else {
      ReleaseWellFormed(a.v.fat, inner.clusters);
      FirstIsFreed(a.v.fat, w.fat, inner.clusters);
      SharedChain(m, a.own, w, inner.clusters);
      forall o, any: map<Owner, seq<nat>> | o in a.own && HeadsAt(a.v, o, inner.clusters[0])
        ensures !Layout(w, any)
      {
        StillOwns(a, w, o, inner.clusters[0]);
        OrphanedOwner(w, any, o);
      }
    }
  }

  lemma FirstIsFreed(f: Fat, g: Fat, ch: seq<nat>)
    requires IsChain(f, ch) && FreesExactly(f, g, ch)
    ensures Unused(g, ch[0])
  {}

  lemma StillOwns(a: State, w: Volume, o: Owner, c: nat)
    requires a.Ok() && o in a.own && HeadsAt(a.v, o, c) && w.root == a.v.root && w.aside == a.v.aside
    requires forall q: Pos :: SameLive(a.v.slots, w.slots, q)
    ensures Owns(w, o) && EntryOf(w, o).first == c
  {
    assert o in a.own <==> Owns(a.v, o);
    if o.At? {
      assert SameLive(a.v.slots, w.slots, o.p);
    }
  }

  lemma DotLive(s: map<Pos, Slot>, t: map<Pos, Slot>, p: Pos)
    requires p in s && s[p].Dot() && OnlyPiecesGone(s[p := Deleted], t)
    ensures forall q: Pos :: SameLive(s, t, q)
  {}

  // What the drive shows after a removal, with the entry in hand if its chain has leaked.
  ghost function Remains(v: Volume, w: Volume, p: Pos, error: Error): Volume
    requires p in v.slots
  {
    if error != NoError && Live(v.slots[p]) then w.(aside := Some(v.slots[p])) else w
  }

  // Whether a chain was freed that no entry in hand stands for.
  ghost predicate Through(v: Volume, p: Pos, inner: Dir, error: Error)
    requires p in v.slots
  {
    error == NoError && !Live(v.slots[p]) && !inner.FixedRoot()
  }

  // What the removal of slot p's entry makes of a volume, and reports.
  ghost predicate Removes(v: Volume, own: map<Owner, seq<nat>>, w: Volume, own': map<Owner, seq<nat>>, error: Error, p: Pos,
                          src: Source, inner: Dir, readOnly: bool, previous: nat) {
    && AllIn(v.slots, src.dir) && src.x < |src.dir.Flat()| && |inner.clusters| > 0 && p in v.slots && v.slots[p].Entry?
    && (if readOnly then error == WriteProtected && w.slots == v.slots[p := Deleted]
        else Stripped(w.slots, error) == Deleting(v.slots, p, src.dir, v.root, previous, src.x))
    && (!readOnly ==> EndsAs(v.slots, src.dir, v.root, src.x, error))
    && AfterRemoval(v, own, w, p, inner, error, own')
  }

  // A run leads to what is left, unless a chain was freed that its owner keeps.
  ghost predicate LeadsTo(r: Run, v: Volume, own: map<Owner, seq<nat>>, w: Volume, own': map<Owner, seq<nat>>,
      error: Error, p: Pos, inner: Dir)
    requires p in v.slots
  {
    && r.Valid() && r.states[0] == State(v, own)
    && (!Through(v, p, inner, error) && Layout(Remains(v, w, p, error), own') ==>
      r.Last() == State(Remains(v, w, p, error), own'))
  }

  lemma LiveLeads(a: State, w: Volume, p: Pos, inner: Dir, error: Error) returns (own': map<Owner, seq<nat>>, r: Run)
    requires a.Ok() && a.v.aside == None && LiveAt(a.v.slots, p) && w == a.v.(fat := w.fat, slots := w.slots)
    requires OnlyPiecesGone(a.v.slots[p := Deleted], w.slots) && |inner.clusters| > 0
    requires w.fat == if error == NoError then Released(a.v.fat, a.v.slots[p].first) else a.v.fat
    ensures AfterRemoval(a.v, a.own, w, p, inner, error, own') && LeadsTo(r, a.v, a.own, w, own', error, p, inner)
    ensures p !in a.v.opens ==> r.Valid() && Sparing(r)
  {
    hide Layout, Step, Sparing, NoneIn, OnlyGone, OnlyPiecesGone, FreesExactly, Handed, ChainOf;
    own', r := LiveAfter(a, w, p, inner, error);
  }

  lemma DotLeads(a: State, w: Volume, p: Pos, inner: Dir, error: Error) returns (r: Run)
    requires a.Ok() && p in a.v.slots && a.v.slots[p].Dot() && w == a.v.(fat := w.fat, slots := w.slots)
    requires OnlyPiecesGone(a.v.slots[p := Deleted], w.slots) && |inner.clusters| > 0 && a.v.slots[p].first == inner.clusters[0]
    requires inner.FixedRoot() || IsChain(a.v.fat, inner.clusters)
    requires w.fat == if error == NoError then Released(a.v.fat, a.v.slots[p].first) else a.v.fat
    ensures AfterRemoval(a.v, a.own, w, p, inner, error, a.own) && LeadsTo(r, a.v, a.own, w, a.own, error, p, inner)
    ensures r.Valid() && Sparing(r)
  {
    DotAfter(a, w, p, inner, error);
    r := Here(a);
    assert Sparing(r);
    hide Layout, Step, AfterRemoval, Sparing, IsChain;
    if error != NoError || inner.FixedRoot() {
      SparingThen(r, Rewrite, State(w, a.own));
      r := Then(r, Rewrite, State(w, a.own));
    }
  }

  lemma DirClusters(d: Drive, dir: Dir)
    requires d.Mounted() && NamesDir(d, dir)
    ensures |dir.clusters| > 0 && (dir.FixedRoot() || IsChain(d.Fat(), dir.clusters))
  {}

  // Behind the checks.
  method RemoveBehind(d: Drive, p: Pos, first: nat, previous: nat,
                      ghost own: map<Owner, seq<nat>>, ghost src: Source, ghost inner: Dir)
    returns (error: Error, ghost own': map<Owner, seq<nat>>, ghost r: Run)
    requires Sane(d, own) && Removable(d, own, Some(p), previous, src, inner) && IsDirectory(d.slots[p])
              && first == d.slots[p].first
    modifies d.fat, d`freeCount, d`slots, d.cache`number, d.cache`dirty
    ensures d.CountOk() && d.cache.Valid() && Opens(d.handles) == old(Opens(d.handles))
    ensures Removes(old(View(d)), own, View(d), own', error, p, src, inner, d.readOnly, previous)
    ensures LeadsTo(r, old(View(d)), own, View(d), own', error, p, inner)
    ensures r.Valid() && (p !in Opens(d.handles) ==> Sparing(r)) && error != FileExists
  {
    ghost var a := State(View(d), own);
    DirClusters(d, inner);
    hide Layout, Sparing, View, FreeCells, IsChain, AfterRemoval, DirOf, Released, OnlyPiecesGone, Strip, LeadsTo,
        Opens, Deleting, EndsAs;
    AllParts(d, a.v);
    DeletingEnds(d, own, src.o, src.dir, src.x, p, previous);
    error := RemoveFound(d, p, first, previous, src.dir, src.x);
    NewParts(d, a.v);
    if Live(a.v.slots[p]) {
      own', r := LiveLeads(a, View(d), p, inner, error);
    } else {
      own' := own;
      r := DotLeads(a, View(d), p, inner, error);
    }
  }

  // A hollow directory is gone with exactly its clusters, and the volume is in order.
  ghost predicate HollowGone(v: Volume, own: map<Owner, seq<nat>>, w: Volume, own': map<Owner, seq<nat>>, p: Pos, inner: Dir) {
    LiveAt(v.slots, p) && Hollow(v.slots, p, inner) ==>
      own' == own - {At(p)} && Layout(w, own') && FreesExactly(v.fat, w.fat, ChainOf(own, At(p)))
  }

  lemma HollowGoes(v: Volume, own: map<Owner, seq<nat>>, w: Volume, own': map<Owner, seq<nat>>, error: Error, p: Pos,
                   src: Source, inner: Dir, readOnly: bool, previous: nat)
    requires Removes(v, own, w, own', error, p, src, inner, readOnly, previous) && error == NoError
    requires LiveAt(v.slots, p) && Hollow(v.slots, p, inner) ==> NoneIn(v.slots, p, ChainOf(own, At(p)))
    ensures HollowGone(v, own, w, own', p, inner)
  {}

  lemma HollowTells(d: Drive, own: map<Owner, seq<nat>>, p: Pos, previous: nat, src: Source, inner: Dir)
    requires Sane(d, own) && Removable(d, own, Some(p), previous, src, inner) && IsDirectory(d.slots[p])
    ensures LiveAt(View(d).slots, p) && Hollow(View(d).slots, p, inner) ==> NoneIn(View(d).slots, p, ChainOf(own, At(p)))
  {
    if LiveAt(d.slots, p) && Hollow(d.slots, p, inner) {
      HollowHoldsNone(d, own, p, inner);
    }
  }

  method RemoveUnoccupied(d: Drive, p: Pos, first: nat, previous: nat,
                          ghost own: map<Owner, seq<nat>>, ghost src: Source, ghost inner: Dir)
    returns (error: Error, ghost own': map<Owner, seq<nat>>, ghost r: Run)
    requires Sane(d, own) && Removable(d, own, Some(p), previous, src, inner) && IsDirectory(d.slots[p])
              && first == d.slots[p].first
    modifies d.fat, d`freeCount, d`slots, d.cache`number, d.cache`dirty
    ensures d.CountOk() && d.cache.Valid() && Opens(d.handles) == old(Opens(d.handles))
    ensures Removes(old(View(d)), own, View(d), own', error, p, src, inner, d.readOnly, previous)
    ensures LeadsTo(r, old(View(d)), own, View(d), own', error, p, inner)
    ensures r.Valid() && (p !in Opens(d.handles) ==> Sparing(r)) && error != FileExists
    ensures error == NoError ==> HollowGone(old(View(d)), own, View(d), own', p, inner)
  {
    hide *;
    SaneParts(d, own);
    HollowTells(d, own, p, previous, src, inner);
    error, own', r := RemoveBehind(d, p, first, previous, own, src, inner);
    if error == NoError {
      HollowGoes(old(View(d)), own, View(d), own', error, p, src, inner, d.readOnly, previous);
    }
  }

  /**
   * MFS_Remove_subdir: the entry, the pieces of its name and exactly the clusters of an empty directory
   * are given up; the clusters leak exactly if the drive is read-only or removing the pieces fails. The
   * search looks behind "." and ".." only: whatever lives in their slots is lost with the directory, and the
   * volume is out of order then. Through a "." or ".." entry, the chain that it names is freed while its
   * owner keeps it.
   */
  method RemoveSubdir(d: Drive, path: seq<nat>, lookup: Option<Pos>, previous: nat, current: nat,
                      ghost own: map<Owner, seq<nat>>, ghost src: Source, ghost inner: Dir)
    returns (error: Error, ghost own': map<Owner, seq<nat>>, ghost r: Run)
    requires Sane(d, own) && Removable(d, own, lookup, previous, src, inner)
    modifies d.fat, d`freeCount, d`slots, d.cache`number, d.cache`dirty
    ensures d.CountOk() && d.cache.Valid() && Opens(d.handles) == old(Opens(d.handles))
    ensures !old(NamesOther(d, path, lookup, current))
            || old(AllIn(d.slots, inner) && Compact(d.slots, inner) && HoldsMore(d.slots, inner)) ==>
              error != NoError && own' == own && View(d) == old(View(d))
    ensures error == FileExists ==> old(HoldsMore(d.slots, inner))
    ensures old(ChecksOn(d, path, lookup, current, inner)) != NoError ==>
              && error == old(ChecksOn(d, path, lookup, current, inner)) && own' == own && View(d) == old(View(d)) && Sane(d, own)
              && From(r, State(View(d), own), State(View(d), own))
    ensures old(NamesOther(d, path, lookup, current)) && (!old(HoldsMore(d.slots, inner)) || old(ChecksOn(d, path, lookup, current, inner)) == NoError) ==>
              && Removes(old(View(d)), own, View(d), own', error, lookup.value, src, inner, d.readOnly, previous)
              && LeadsTo(r, old(View(d)), own, View(d), own', error, lookup.value, inner)
    ensures old(NamesOther(d, path, lookup, current)) && error == NoError ==>
              HollowGone(old(View(d)), own, View(d), own', lookup.value, inner)
    ensures r.Valid() && ((lookup.Some? ==> lookup.value !in Opens(d.handles)) ==> Sparing(r))
  {
    hide Layout, Sparing, View, FreeCells, Occupied, DirOf, Removes, LeadsTo, Opens, HoldsMore, Compact, HollowGone,
         NamesDir, Home, Found, FirstHalt;
    ChecksTell(d, path, lookup, current, inner);
    error, own' := NoError, own;
    r := SaneShows(d, own);
    if path == [] {
      error := InvalidParameter;
    } else if lookup == None {
      error := PathNotFound;
    } else if d.slots[lookup.value].attr & ATTR_DIR_NAME != 0 {
      var first := d.slots[lookup.value].first;
      if first != current {
        var occupied := IsOccupied(d, first, inner);
        if !occupied {
          error, own', r := RemoveUnoccupied(d, lookup.value, first, previous, own, src, inner);
        } else {
          error := FileExists;
        }
      } else {
        error := AttemptToRemoveCurrentDir;
      }
    } else {
      error := WriteFault;
    }
  }
}
