/**
 * A file's whole life: what creating, writing, closing and deleting it leave behind.
 */
module Lifetimes {
  import opened MfsTypes
  import opened FatChain
  import opened Drives
  import opened Cluster
  import opened DirSlots
  import opened DirEntry
  import opened DirGrowth
  import opened LongName
  import opened LfnEnding
  import opened LfnRemoval
  import opened Volumes
  import opened Runs
  import opened Handles
  import opened Files

  // A cluster taken and given back leaves the table as it was.
  lemma TakenAndFreed(f: Fat, g: Fat, c: nat)
    requires Unused(f, c) && FreesExactly(f[c := CLUSTER_EOF], g, [c])
    ensures g == f
  {
    assert [c][0] == c;
    forall k: nat | k < |f|
      ensures g[k] == f[k]
    {
      assert k != c ==> k !in [c];
    }
  }

  // A slot that was not live is open to nobody but the file just opened on it.
  lemma OpenOnce(v: Volume, p: Pos)
    requires OpensLive(v) && !LiveAt(v.slots, p)
    ensures p !in v.opens
  {}

  lemma NotRefused(attributes: bv8)
    requires attributes & ATTR_READ_ONLY == 0
    ensures CreateAttr(attributes & !ATTR_VOLUME_NAME) & NO_DELETE == 0
  {}

  lemma TheSlot(s: map<Pos, Slot>, t: map<Pos, Slot>, h: Handle, p: Pos, q: Pos, entry: Slot)
    requires NewEntry(s, t, q, entry) && h.At(q) && h.At(p)
    ensures p == q && p in t && t[p] == entry && !LiveAt(s, p)
  {}

  lemma ShorterList(d: Drive, n: nat, p: Pos)
    requires n < |d.handles| && p !in Opens(d.handles)[..n]
    ensures p !in Opens(d.handles[..n])
  {
    assert Opens(d.handles[..n]) == Opens(d.handles)[..n] by {
      forall i | 0 <= i < n
        ensures Opens(d.handles[..n])[i] == Opens(d.handles)[i]
      {
        assert d.handles[..n][i] == d.handles[i];
      }
    }
  }

  lemma StillHome(d: Drive, v: Volume, own: map<Owner, seq<nat>>, o: Owner, dir: Dir)
    requires d.Mounted() && DirOf(State(v, own), o, 0, dir) && IsDir(d, dir) && Present(d, dir)
    requires View(d) == v.(opens := Opens(d.handles))
    ensures Home(d, own, o, 0, dir)
  {
    OpenKeepsDir(State(v, own), State(View(d), own), o, 0, dir);
  }

  // Close and delete a file of slot p that nobody else has open.
  method CloseAndDelete(d: Drive, h: Handle, p: Pos, previous: nat, ghost own: map<Owner, seq<nat>>, ghost o: Owner,
      ghost dir: Dir, ghost x: nat)
    returns (ghost own': map<Owner, seq<nat>>, ghost r: Run)
    requires Sane(d, own) && !d.readOnly && |d.handles| > 0 && d.handles[|d.handles| - 1] == h
    requires p in d.slots && d.slots[p].Entry? && d.slots[p].attr & NO_DELETE == 0
    requires p !in Opens(d.handles)[..|d.handles| - 1] && Home(d, own, o, 0, dir) && Found(dir, x, p, previous)
    modifies d.fat, d`freeCount, d`slots, d`handles, h, d.cache`number, d.cache`dirty
    ensures Sane(d, own') && From(r, State(old(View(d)), own), State(View(d), own')) && Sparing(r)
    ensures FreesExactly(old(d.Fat()), d.Fat(), ChainOf(own, At(p)))
    ensures OnlyPiecesGone(old(d.slots)[p := Deleted], d.slots) && d.handles == old(d.handles)[..|old(d.handles)| - 1]
  {
    hide View, Layout, Sparing, FreesExactly, FreeCells, IsChain, Strip, ChainOf, DirOf, IsDir, OnlyPiecesGone, Found,
         Sane, EndsAs;
    SaneParts(d, own);
    ghost var n, v, s := |d.handles| - 1, View(d), d.slots;
    FoundInside(dir, x, p, previous);
    ShorterList(d, n, p);
    r := CloseFile(d, h, n, own);
    SaneParts(d, own);
    StillHome(d, v, own, o, dir);
    assert Present(d, dir);
    ghost var closed := State(View(d), own);
    var e;
    ghost var next;
    e, own', next := DeleteFile(d, [0], Some(p), FileNotFound, previous, own, o, dir, x);
    StripsPieces(s[p := Deleted], dir, d.rootCluster, previous, x, false, false);
    r := NextRun(r, next, State(v, own), closed, State(View(d), own'));
  }

  lemma OneChain(own: map<Owner, seq<nat>>, p: Pos, c: nat)
    ensures ChainOf(own[At(p) := [c]], At(p)) == [c]
  {}

  // Write one cluster and save the entry.
  method WriteAndSave(d: Drive, h: Handle, p: Pos, size: nat, ghost own: map<Owner, seq<nat>>, ghost o: Owner, ghost dir: Dir)
    returns (error: Error, ghost own': map<Owner, seq<nat>>, ghost r: Run)
    requires Sane(d, own) && !d.readOnly && h in d.handles
    requires p in d.slots && d.slots[p] == EntryCopy(h) && h.attr & ATTR_DIR_NAME == 0 && h.first == 0 && h.currentCluster == 0
    requires h.At(p) && p in dir.Flat() && Home(d, own, o, 0, dir)
    modifies d.fat, d`freeCount, d`nextFree, d`slots, h`first, h`size, h`currentCluster, h`previousCluster
    ensures Sane(d, own') && From(r, State(old(View(d)), own), State(View(d), own')) && Sparing(r)
    ensures error == if old(d.nextFree) < CLUSTER_MIN_GOOD || FreeCells(old(d.Fat())) == {} then DiskFull else NoError
    ensures error == NoError ==>
              && Unused(old(d.Fat()), h.first) && d.Fat() == old(d.Fat())[h.first := CLUSTER_EOF]
              && d.slots == old(d.slots)[p := EntryCopy(h)] && own' == own[At(p) := [h.first]] && Home(d, own', o, 0, dir)
    ensures error != NoError ==> own' == own && d.Fat() == old(d.Fat()) && d.slots == old(d.slots)
    ensures Opens(d.handles) == old(Opens(d.handles))
  {
    hide View, Layout, Sparing, FreeCells, IsChain, DirOf, IsDir, Present, Unused, Unsaved, Sane, Home, AllIn, NoTwice,
         Shows;
    SaneParts(d, own);
    ghost var a := State(View(d), own);
    AllParts(d, a.v);
    HomeShows(d, own, o, 0, dir);
    own' := own;
    error, r := FirstWrite(d, h, p, size, own, dir);
    SaneParts(d, own);
    NewParts(d, a.v);
    if error == NoError {
      own', r := SaveAgain(d, h, p, r, own, a, o, dir);
    }
  }

  method SaveAgain(d: Drive, h: Handle, p: Pos, ghost r: Run, ghost own: map<Owner, seq<nat>>, ghost a: State, ghost o: Owner,
                   ghost dir: Dir)
    returns (ghost own': map<Owner, seq<nat>>, ghost r': Run)
    requires d.Mounted() && !d.readOnly && d.CountOk() && d.cache.Valid() && d.cache.readOnly == d.readOnly && NoTwice(d.handles)
    requires Unsaved(d, r, h, p, own) && IsDir(d, dir) && AllIn(d.slots, dir) && p in dir.Flat()
    requires DirOf(a, o, 0, dir) && a.own == own && View(d) == a.v.(fat := d.Fat()) && a.v.slots == d.slots
    requires p in d.slots && !IsDirectory(d.slots[p])
    modifies d`slots
    ensures Sane(d, own') && From(r', r.states[0], State(View(d), own')) && (Sparing(r) ==> Sparing(r'))
    ensures own' == own[At(p) := [h.first]] && d.slots == old(d.slots)[p := EntryCopy(h)] && Home(d, own', o, 0, dir)
  {
    hide Layout, Sparing, FreeCells, IsChain, DirOf, IsDir, Present, Unused, Unsaved, Sane, Home, AllIn, NoTwice, Shows;
    ghost var x: nat :| x < |dir.Flat()| && dir.Flat()[x] == p;
    PresentAgain(d, dir);
    var error;
    error, own', r' := SaveEntry(d, h, p, r, own, dir, x);
    SavedIsSane(d, r', own');
    SavedHome(d, a, own', o, dir, p, EntryCopy(h), [h.first]);
  }

  lemma PresentAgain(d: Drive, dir: Dir)
    requires AllIn(d.slots, dir)
    ensures Present(d, dir)
  {}

  // The directory is where it was when the entry of slot p is saved.
  lemma SavedHome(d: Drive, a: State, own: map<Owner, seq<nat>>, o: Owner, dir: Dir, p: Pos, e: Slot, ch: seq<nat>)
    requires d.Mounted() && DirOf(a, o, 0, dir) && AllIn(a.v.slots, dir) && IsDir(d, dir)
    requires p in a.v.slots && !IsDirectory(a.v.slots[p]) && View(d) == a.v.(fat := d.Fat(), slots := d.slots)
    requires d.slots == a.v.slots[p := e] && own == a.own[At(p) := ch]
    ensures Home(d, own, o, 0, dir)
  {
    hide IsDir, View;
    DirWritten(a, State(View(d), own), o, 0, dir, p);
  }

  lemma SavedIsSane(d: Drive, r: Run, own: map<Owner, seq<nat>>)
    requires Shows(d, r) && r.Last() == State(View(d), own) && d.CountOk() && NoTwice(d.handles)
    requires d.cache.Valid() && d.cache.readOnly == d.readOnly
    ensures Sane(d, own)
  {}

  // Find the entry of slot p again, close and delete the file.
  method FindCloseDelete(d: Drive, h: Handle, p: Pos, c0: nat, ghost own: map<Owner, seq<nat>>, ghost o: Owner, ghost dir: Dir)
    returns (ghost own': map<Owner, seq<nat>>, ghost r: Run)
    requires Sane(d, own) && !d.readOnly && |d.handles| > 0 && d.handles[|d.handles| - 1] == h
    requires p in d.slots && d.slots[p].Entry? && d.slots[p].attr & NO_DELETE == 0
    requires p !in Opens(d.handles)[..|d.handles| - 1] && Home(d, own, o, 0, dir) && p in dir.Flat() && dir.clusters[0] == c0
    modifies d.fat, d`freeCount, d`slots, d`handles, h, d.cache`number, d.cache`dirty
    ensures Sane(d, own') && From(r, State(old(View(d)), own), State(View(d), own')) && Sparing(r)
    ensures FreesExactly(old(d.Fat()), d.Fat(), ChainOf(own, At(p)))
    ensures OnlyPiecesGone(old(d.slots)[p := Deleted], d.slots) && d.handles == old(d.handles)[..|old(d.handles)| - 1]
  {
    hide View, Layout, Sparing, FreesExactly, FreeCells, IsChain, ChainOf, DirOf, IsDir, OnlyPiecesGone, Found, Sane;
    SaneParts(d, own);
    ghost var x: nat :| x < |dir.Flat()| && dir.Flat()[x] == p;
    var previous := Locate(d, c0, p, dir, x);
    own', r := CloseAndDelete(d, h, p, previous, own, o, dir, x);
  }

  // Write one cluster, close, delete.
  method WriteCloseDelete(d: Drive, h: Handle, p: Pos, size: nat, c0: nat, ghost own: map<Owner, seq<nat>>,
      ghost o: Owner, ghost dir: Dir)
    returns (error: Error, ghost own': map<Owner, seq<nat>>, ghost r: Run)
    requires Sane(d, own) && !d.readOnly && |d.handles| > 0 && d.handles[|d.handles| - 1] == h && At(p) !in own && h.At(p)
    requires p in d.slots && d.slots[p] == EntryCopy(h) && h.attr & NO_DELETE == 0 && h.first == 0 && h.currentCluster == 0
    requires p !in Opens(d.handles)[..|d.handles| - 1] && Home(d, own, o, 0, dir) && p in dir.Flat() && dir.clusters[0] == c0
    modifies d.fat, d`freeCount, d`nextFree, d`slots, d`handles, h, d.cache`number, d.cache`dirty
    ensures Sane(d, own') && From(r, State(old(View(d)), own), State(View(d), own')) && Sparing(r)
    ensures error == if old(d.nextFree) < CLUSTER_MIN_GOOD || FreeCells(old(d.Fat())) == {} then DiskFull else NoError
    ensures d.Fat() == old(d.Fat()) && (error == NoError ==> OnlyPiecesGone(old(d.slots)[p := Deleted], d.slots))
    ensures d.handles == old(d.handles)[..|old(d.handles)| - 1]
  {
    hide View, Layout, Sparing, FreesExactly, FreeCells, IsChain, OnlyPiecesGone, DirOf, IsDir, Present, Found,
         ChainOf, OpensLive, Live, Unused, Sane, Home, Shows, NoTwice, AllIn;
    SaneParts(d, own);
    ghost var f, s, a := d.Fat(), d.slots, State(View(d), own);
    NoDeleteBits(h.attr);
    error, own', r := WriteAndSave(d, h, p, size, own, o, dir);
    ghost var b := State(View(d), own');
    ghost var next;
    if error == NoError {
      ghost var c := h.first;
      assert d.slots[p := Deleted] == s[p := Deleted];
      OneChain(own, p, c);
      own', next := FindCloseDelete(d, h, p, c0, own', o, dir);
      TakenAndFreed(f, d.Fat(), c);
    } else {
      next := CloseFile(d, h, |d.handles| - 1, own');
    }
    r := NextRun(r, next, a, b, State(View(d), own'));
  }

  lemma TheEntry(d: Drive, s: map<Pos, Slot>, dir: Dir, pr: Progress, t: Target, h: Handle, p: Pos, entry: Slot)
    requires h.At(p) && entry.Entry?
    requires exists q: Pos :: NewEntry(s, d.slots, q, entry) && h.At(q) && Created(s, dir, pr, !t.shortOk, t.name, entry, Some(q))
    ensures NewEntry(s, d.slots, p, entry) && p in d.slots && d.slots[p] == entry && !LiveAt(s, p)
    ensures p in Longer(dir, pr.added).Flat() && Created(s, dir, pr, !t.shortOk, t.name, entry, Some(p))
  {
    var q: Pos :| NewEntry(s, d.slots, q, entry) && h.At(q) && Created(s, dir, pr, !t.shortOk, t.name, entry, Some(q));
    TheSlot(s, d.slots, h, p, q, entry);
    CreatedIn(s, dir, pr, !t.shortOk, t.name, entry, p);
  }

  // An entry without a first cluster owns no chain.
  lemma NoChainYet(d: Drive, own: map<Owner, seq<nat>>, p: Pos)
    requires Sane(d, own) && p in d.slots && d.slots[p].Entry? && d.slots[p].first == 0
    ensures At(p) !in own
  {
    assert At(p) in own <==> Owns(View(d), At(p));
  }

  lemma LifeLeaves(s: map<Pos, Slot>, m: map<Pos, Slot>, t: map<Pos, Slot>, p: Pos, entry: Slot)
    requires NewEntry(s, m, p, entry) && OnlyPiecesGone(m[p := Deleted], t)
    ensures forall q: Pos :: SameLive(s, t, q)
  {
    forall q: Pos
      ensures SameLive(s, t, q)
    {
      assert q != p ==> SameLive(s, m, q);
    }
  }

  // The entry lies in the directory, as long as it is then.
  lemma CreatedIn(s: map<Pos, Slot>, dir: Dir, pr: Progress, long: bool, name: seq<nat>, entry: Slot, p: Pos)
    requires entry.Entry? && Created(s, dir, pr, long, name, entry, Some(p))
    ensures p in Longer(dir, pr.added).Flat()
  {}

  /**
   * A new file that is written to, closed and deleted leaves nothing behind: the table is what it was,
   * unless the directory had to grow, and so are the live entries and the list of open files. This is what
   * happens exactly if the file could be created with one of the free clusters set aside.
   */
  method Lifetime(d: Drive, path: seq<nat>, attributes: bv8, t: Target, size: nat,
                  ghost own: map<Owner, seq<nat>>, ghost o: Owner, ghost dir: Dir)
    returns (done: bool, ghost pr: Progress, ghost own': map<Owner, seq<nat>>, ghost r: Run)
    requires Sane(d, own) && TargetsIfAny(d, own, t, o, 0, dir) && OpensLive(View(d)) && attributes & ATTR_READ_ONLY == 0
    modifies d.fat, d`freeCount, d`nextFree, d`slots, d`handles, d.cache`number, d.cache`dirty
    ensures Sane(d, own') && From(r, State(old(View(d)), own), State(View(d), own')) && Sparing(r)
    ensures old(d.nextFree) >= CLUSTER_MIN_GOOD ==>
              (done <==> && NewFileError(old(d.slots), old(d.Fat()), d.readOnly, path, t, true, dir) == NoError
                         && TakesToo(old(d.slots), old(d.Fat()), dir, !t.shortOk, PieceCount(|t.name|)))
    ensures done ==> d.handles == old(d.handles) && forall q: Pos :: SameLive(old(d.slots), d.slots, q)
    ensures pr.added == [] ==> d.Fat() == old(d.Fat())
    ensures done ==> Grew(old(d.Fat()), d.Fat(), dir, pr.added)
  {
    hide View, Layout, Sparing, FreeCells, IsChain, NewEntry, Created, Targets, OpensLive, SameLive, DirOf, IsDir, Present,
         OnlyPiecesGone, NewFileError, TakesToo, Took, Grew, Sane;
    SaneParts(d, own);
    ghost var s, before, f := d.slots, View(d), d.Fat();
    AllParts(d, before);
    var error, h;
    error, h, own', r, pr := CreateNewFile(d, path, attributes, t, true, own, o, 0, dir);
    done := false;
    if h != null {
      var p := Pos(h.dirCluster, h.dirIndex);
      NotRefused(attributes);
      ghost var m, entry, now, b := d.slots, EntryCopy(h), Longer(dir, pr.added), State(View(d), own');
      TheEntry(d, s, dir, pr, t, h, p, entry);
      StartsThere(d, before, own, t, o, dir, pr.added);
      OneIsLeft(d, s, m, f, dir, pr, t, entry, p);
      OpenOnce(before, p);
      NoChainYet(d, own', p);
      var e;
      ghost var next;
      e, own', next := WriteCloseDelete(d, h, p, size, t.dirCluster, own', o, now);
      if e == NoError {
        LifeLeaves(s, m, d.slots, p, entry);
      }
      done := e == NoError;
      r := NextRun(r, next, State(before, own), b, State(View(d), own'));
    }
  }

  // Whether a cluster is left after the creation.
  lemma OneIsLeft(d: Drive, s: map<Pos, Slot>, m: map<Pos, Slot>, f: Fat, dir: Dir, pr: Progress, t: Target, entry: Slot, p: Pos)
    requires d.Mounted() && IsDir(d, Longer(dir, pr.added)) && AllIn(s, dir) && entry.Entry? && IsName(t.name)
    requires Created(s, dir, pr, !t.shortOk, t.name, entry, Some(p)) && Took(s, m, f, d.Fat(), dir, pr)
    ensures FreeCells(d.Fat()) != {} <==> TakesToo(s, f, dir, !t.shortOk, PieceCount(|t.name|))
    ensures Grew(f, d.Fat(), dir, pr.added)
  {
    hide Located, IsDir, TakesToo, FreeCells;
    LeavesOne(s, m, f, d.Fat(), d, dir, pr, !t.shortOk, PieceCount(|t.name|));
  }

  lemma StartsThere(d: Drive, v: Volume, own: map<Owner, seq<nat>>, t: Target, o: Owner, dir: Dir, added: seq<nat>)
    requires d.Mounted() && Targets(d, State(v, own), t, o, 0, dir)
    ensures Longer(dir, added).clusters[0] == t.dirCluster && AllIn(v.slots, dir) && IsName(t.name)
  {}
}
