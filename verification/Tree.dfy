/**
 * Which entries can be reached from the root directory, and what moving one does to that
 * (mfs/source/generic/mfs_rename.c:134-175).
 */
module Trees {
  import opened MfsTypes
  import opened FatChain
  import opened Drives
  import opened DirSlots
  import opened DirEntry
  import LongName
  import opened Volumes
  import opened Runs
  import opened Files
  import opened Renames

  // ---- trees of entries ----

  // Every live entry with the entry of the directory that it lies in; None is the root directory.
  type Tree = map<Pos, Option<Pos>>

  // The root is n steps up from p, or fewer.
  ghost predicate Reached(t: Tree, p: Pos, n: nat)
    decreases n
  {
    p in t && (t[p] == None || (n > 0 && Reached(t, t[p].value, n - 1)))
  }

  ghost predicate AllReached(t: Tree) {
    forall p :: p in t ==> exists n: nat :: Reached(t, p, n)
  }

  // Entry x is p, or lies below it, n levels down.
  ghost predicate Below(t: Tree, x: Pos, p: Pos, n: nat)
    decreases n
  {
    x == p || (n > 0 && x in t && t[x].Some? && Below(t, t[x].value, p, n - 1))
  }

  ghost predicate Under(t: Tree, x: Pos, p: Pos) {
    exists n: nat :: Below(t, x, p, n)
  }

  // Entry p becomes q, in the directory of entry target; what lay in p lies in q.
  ghost predicate Moved(t: Tree, u: Tree, p: Pos, q: Pos, target: Option<Pos>) {
    && p in t && q !in t && p != q && (target.Some? ==> target.value in t)
    && u.Keys == t.Keys - {p} + {q}
    && (forall x :: x in t && x != p ==> u[x] == Became(t[x], p, q))
    && u[q] == Became(target, p, q)
  }

  ghost function Became(h: Option<Pos>, p: Pos, q: Pos): Option<Pos> {
    if h == Some(p) then Some(q) else h
  }

  // What does not lie below p is reached as before.
  lemma {:induction false} StillReached(t: Tree, u: Tree, p: Pos, q: Pos, target: Option<Pos>, x: Pos, n: nat)
    requires Moved(t, u, p, q, target) && Reached(t, x, n) && !Under(t, x, p)
    ensures Reached(u, x, n)
    decreases n
  {
    assert Below(t, p, p, 0);
    if t[x].Some? {
      NotUnderHolder(t, x, p);
      StillReached(t, u, p, q, target, t[x].value, n - 1);
    }
  }

  lemma NotUnderHolder(t: Tree, x: Pos, p: Pos)
    requires x in t && t[x].Some? && !Under(t, x, p)
    ensures !Under(t, t[x].value, p)
  {
    forall n: nat | Below(t, t[x].value, p, n)
      ensures Below(t, x, p, n + 1)
    {}
  }

  lemma {:induction false} ReachedLonger(t: Tree, x: Pos, n: nat, m: nat)
    requires Reached(t, x, n) && n <= m
    ensures Reached(t, x, m)
    decreases n
  {
    if t[x].Some? {
      ReachedLonger(t, t[x].value, n - 1, m - 1);
    }
  }

  // With q in reach, so is all the rest.
  lemma {:induction false} RestReached(t: Tree, u: Tree, p: Pos, q: Pos, target: Option<Pos>, x: Pos, n: nat, m: nat)
    requires Moved(t, u, p, q, target) && Reached(t, x, n) && x != p && Reached(u, q, m)
    ensures Reached(u, x, n + m)
    decreases n
  {
    if t[x] == Some(p) {
      ReachedLonger(u, q, m, n + m - 1);
    } else if t[x].Some? {
      RestReached(t, u, p, q, target, t[x].value, n - 1, m);
    }
  }

  lemma NewReached(t: Tree, u: Tree, p: Pos, q: Pos, target: Option<Pos>) returns (m: nat)
    requires AllReached(t) && Moved(t, u, p, q, target) && (target.Some? ==> !Under(t, target.value, p))
    ensures Reached(u, q, m)
  {
    assert Below(t, p, p, 0);
    if target == None {
      m := 0;
    } else {
      var n: nat :| Reached(t, target.value, n);
      StillReached(t, u, p, q, target, target.value, n);
      m := n + 1;
    }
  }

  // A directory that was moved below itself hangs on nothing but itself.
  lemma {:induction false} NeverReached(t: Tree, u: Tree, p: Pos, q: Pos, target: Option<Pos>, x: Pos, k: nat, n: nat)
    requires Moved(t, u, p, q, target) && target.Some? && Under(t, target.value, p)
    requires x == q || (x in t && x != p && Below(t, x, p, k))
    ensures !Reached(u, x, n)
    decreases n
  {
    if n > 0 {
      if x == q {
        if target.value != p {
          var k': nat :| Below(t, target.value, p, k');
          NeverReached(t, u, p, q, target, target.value, k', n - 1);
        } else {
          NeverReached(t, u, p, q, target, q, 0, n - 1);
        }
      } else if t[x].value == p {
        NeverReached(t, u, p, q, target, q, 0, n - 1);
      } else if t[x].value in t {
        NeverReached(t, u, p, q, target, t[x].value, k - 1, n - 1);
      }
    }
  }

  /**
   * Moving an entry keeps everything in reach of the root exactly if the new directory is not the entry
   * that is moved and does not lie below it.
   */
  lemma MoveKeepsReach(t: Tree, u: Tree, p: Pos, q: Pos, target: Option<Pos>)
    requires AllReached(t) && Moved(t, u, p, q, target)
    ensures AllReached(u) <==> target == None || !Under(t, target.value, p)
  {
    if target == None || !Under(t, target.value, p) {
      var m := NewReached(t, u, p, q, target);
      forall x | x in u
        ensures exists n: nat :: Reached(u, x, n)
      {
        if x == q {
          assert Reached(u, x, m);
        } else {
          var n: nat :| Reached(t, x, n);
          RestReached(t, u, p, q, target, x, n, m);
        }
      }
    } else {
      forall n: nat
        ensures !Reached(u, q, n)
      {
        NeverReached(t, u, p, q, target, q, 0, n);
      }
    }
  }

  // ---- the tree of a volume ----

  ghost predicate InRootDir(own: map<Owner, seq<nat>>, p: Pos) {
    p.cluster == 0 || (Root in own && p.cluster in own[Root])
  }

  // The directory of entry q holds slot p.
  ghost predicate Holds(v: Volume, own: map<Owner, seq<nat>>, q: Pos, p: Pos) {
    At(q) in own && IsDirectory(EntryOf(v, At(q))) && p.cluster in own[At(q)]
  }

  ghost function HolderOf(v: Volume, own: map<Owner, seq<nat>>, p: Pos): Option<Pos> {
    if InRootDir(own, p) then None
    else if exists q :: Holds(v, own, q, p) then
      var q :| Holds(v, own, q, p);
      Some(q)
    else None
  }

  ghost function TreeOf(v: Volume, own: map<Owner, seq<nat>>): Tree {
    map p | p in v.slots && Live(v.slots[p]) :: HolderOf(v, own, p)
  }

  lemma OneHolder(v: Volume, own: map<Owner, seq<nat>>, q: Pos, p: Pos)
    requires Layout(v, own) && Holds(v, own, q, p)
    ensures HolderOf(v, own, p) == Some(q) && !InRootDir(own, p)
  {
    hide Placed, Shown, Owners;
    assert Heads(v.fat, EntryOf(v, At(q)).first, own[At(q)]);
    var c := p.cluster;
    assert c in Cells(own[At(q)]);
    forall o | o in own && o != At(q)
      ensures c !in own[o]
    {
      assert c in Cells(own[o]) <==> c in own[o];
    }
  }

  // In a volume at rest every live entry lies in the root directory or in that of an entry.
  lemma SomeHolder(v: Volume, own: map<Owner, seq<nat>>, p: Pos)
    requires Layout(v, own) && v.aside == None && LiveAt(v.slots, p) && !InRootDir(own, p)
    ensures exists q :: Holds(v, own, q, p)
  {
    assert InDirectory(v, own, p);
    var o :| o in own && IsDirectory(EntryOf(v, o)) && p.cluster in own[o];
    assert o in own <==> Owns(v, o);
    assert o.At?;
    assert Holds(v, own, o.p, p);
  }

  // The entry that stands for the directory of owner o, if it is not the root.
  ghost function EntryFor(o: Owner, dir: Dir): Option<Pos> {
    if o.At? && !dir.FixedRoot() then Some(o.p) else None
  }

  // What a move does to a volume.
  ghost predicate MovesEntry(v: Volume, own: map<Owner, seq<nat>>, w: Volume, own': map<Owner, seq<nat>>, p: Pos, q: Pos,
                             o: Owner, dir: Dir, added: seq<nat>) {
    && Layout(v, own) && Layout(w, own') && v.aside == None && w.aside == None && w.root == v.root
    && Renamed(v.slots, w.slots, p, q) && p != q && own' == Passed(GrownBy(own, o, added), p, q)
    && DirOf(State(v, own), o, 0, dir) && (dir.FixedRoot() ==> added == []) && (q.cluster in dir.clusters || q.cluster in added)
  }

  // Who owns what after a move: chains only grow, and that of p is q's.
  lemma MapsMoved(own: map<Owner, seq<nat>>, own': map<Owner, seq<nat>>, p: Pos, q: Pos, o: Owner, added: seq<nat>, r: Owner)
    requires own' == Passed(GrownBy(own, o, added), p, q) && Aside !in own && At(q) !in own && p != q
    ensures r in own && r != At(p) ==> r in own' && own[r] <= own'[r]
    ensures At(p) in own ==> At(q) in own' && own[At(p)] <= own'[At(q)]
    ensures o in own && (r == if o == At(p) then At(q) else o) ==> r in own' && own'[r] == own[o] + added
  {}

  lemma OwnersMoved(v: Volume, own: map<Owner, seq<nat>>, w: Volume, own': map<Owner, seq<nat>>, p: Pos, q: Pos,
                    o: Owner, dir: Dir, added: seq<nat>)
    requires MovesEntry(v, own, w, own', p, q, o, dir, added)
    ensures Aside !in own && At(q) !in own
    ensures forall r :: r in own && r != At(p) ==> r in own' && own[r] <= own'[r]
    ensures At(p) in own ==> At(q) in own' && own[At(p)] <= own'[At(q)]
    ensures !dir.FixedRoot() ==> o in own && (var r := if o == At(p) then At(q) else o; r in own' && q.cluster in own'[r])
  {
    hide Whole, Placed, Shown, Apart, Passed, GrownBy;
    assert Aside in own <==> Owns(v, Aside);
    assert At(q) in own <==> Owns(v, At(q));
    hide Layout, Renamed;
    forall r
      ensures r in own && r != At(p) ==> r in own' && own[r] <= own'[r]
    {
      MapsMoved(own, own', p, q, o, added, r);
    }
    MapsMoved(own, own', p, q, o, added, if o == At(p) then At(q) else o);
  }

  lemma EntriesMoved(v: Volume, own: map<Owner, seq<nat>>, w: Volume, own': map<Owner, seq<nat>>, p: Pos, q: Pos,
                     o: Owner, dir: Dir, added: seq<nat>, y: Pos)
    requires MovesEntry(v, own, w, own', p, q, o, dir, added) && At(y) in own
    ensures LiveAt(v.slots, y) && y != q && IsDirectory(EntryOf(w, At(if y == p then q else y))) == IsDirectory(EntryOf(v, At(y)))
  {
    hide Whole, Placed, Shown, Apart;
    assert At(y) in own <==> Owns(v, At(y));
    assert y != p && y != q ==> SameLive(v.slots, w.slots, y);
  }

  // Who held x holds it still, or p's successor does.
  lemma HoldsMoved(v: Volume, own: map<Owner, seq<nat>>, w: Volume, own': map<Owner, seq<nat>>, p: Pos, q: Pos,
                   o: Owner, dir: Dir, added: seq<nat>, x: Pos, y: Pos)
    requires MovesEntry(v, own, w, own', p, q, o, dir, added) && Holds(v, own, y, x)
    ensures Holds(w, own', if y == p then q else y, x)
  {
    OwnersMoved(v, own, w, own', p, q, o, dir, added);
    EntriesMoved(v, own, w, own', p, q, o, dir, added, y);
    hide MovesEntry, IsDirectory;
    assert own[At(y)] <= own'[At(if y == p then q else y)];
  }

  lemma InRootMoved(v: Volume, own: map<Owner, seq<nat>>, w: Volume, own': map<Owner, seq<nat>>, p: Pos, q: Pos,
                    o: Owner, dir: Dir, added: seq<nat>, x: Pos)
    requires MovesEntry(v, own, w, own', p, q, o, dir, added) && InRootDir(own, x)
    ensures InRootDir(own', x)
  {
    OwnersMoved(v, own, w, own', p, q, o, dir, added);
    hide MovesEntry;
  }

  lemma HolderMoved(v: Volume, own: map<Owner, seq<nat>>, w: Volume, own': map<Owner, seq<nat>>, p: Pos, q: Pos,
                    o: Owner, dir: Dir, added: seq<nat>, x: Pos)
    requires MovesEntry(v, own, w, own', p, q, o, dir, added) && LiveAt(v.slots, x) && x != p
    ensures HolderOf(w, own', x) == Became(HolderOf(v, own, x), p, q)
  {
    MovesParts(v, own, w, own', p, q, o, dir, added);
    if InRootDir(own, x) {
      InRootMoved(v, own, w, own', p, q, o, dir, added, x);
      hide MovesEntry, Layout, InRootDir;
    } else {
      hide MovesEntry, Layout, InRootDir, LiveAt, HolderOf, Holds;
      SomeHolder(v, own, x);
      var y :| Holds(v, own, y, x);
      OneHolder(v, own, y, x);
      HoldsMoved(v, own, w, own', p, q, o, dir, added, x, y);
      OneHolder(w, own', if y == p then q else y, x);
    }
  }

  lemma MovesParts(v: Volume, own: map<Owner, seq<nat>>, w: Volume, own': map<Owner, seq<nat>>, p: Pos, q: Pos,
                   o: Owner, dir: Dir, added: seq<nat>)
    requires MovesEntry(v, own, w, own', p, q, o, dir, added)
    ensures Layout(v, own) && Layout(w, own') && v.aside == None && w.aside == None
  {}

  lemma NewHolder(v: Volume, own: map<Owner, seq<nat>>, w: Volume, own': map<Owner, seq<nat>>, p: Pos, q: Pos,
                  o: Owner, dir: Dir, added: seq<nat>)
    requires MovesEntry(v, own, w, own', p, q, o, dir, added)
    ensures HolderOf(w, own', q) == Became(EntryFor(o, dir), p, q)
  {
    OwnersMoved(v, own, w, own', p, q, o, dir, added);
    if !dir.FixedRoot() && o.At? {
      EntriesMoved(v, own, w, own', p, q, o, dir, added, o.p);
      OneHolder(w, own', if o.p == p then q else o.p, q);
    } else {
      assert InRootDir(own', q);
    }
  }

  lemma InTree(v: Volume, own: map<Owner, seq<nat>>, x: Pos)
    ensures x in TreeOf(v, own) <==> LiveAt(v.slots, x)
    ensures x in TreeOf(v, own) ==> TreeOf(v, own)[x] == HolderOf(v, own, x)
  {}

  lemma StaysInTree(v: Volume, own: map<Owner, seq<nat>>, w: Volume, own': map<Owner, seq<nat>>, p: Pos, q: Pos, x: Pos)
    requires Renamed(v.slots, w.slots, p, q) && p != q
    ensures x in TreeOf(w, own') <==> x == q || (x in TreeOf(v, own) && x != p)
  {
    InTree(v, own, x);
    InTree(w, own', x);
    assert x != p && x != q ==> SameLive(v.slots, w.slots, x);
  }

  lemma MoveOnTree(v: Volume, own: map<Owner, seq<nat>>, w: Volume, own': map<Owner, seq<nat>>, p: Pos, q: Pos,
                   o: Owner, dir: Dir, added: seq<nat>)
    requires MovesEntry(v, own, w, own', p, q, o, dir, added)
    ensures Moved(TreeOf(v, own), TreeOf(w, own'), p, q, EntryFor(o, dir))
  {
    hide TreeOf, HolderOf, Layout, DirOf, Passed, GrownBy;
    var t, u := TreeOf(v, own), TreeOf(w, own');
    NewHolder(v, own, w, own', p, q, o, dir, added);
    InTree(v, own, p);
    InTree(v, own, q);
    InTree(w, own', q);
    TargetInTree(v, own, w, own', p, q, o, dir, added);
    forall x: Pos
      ensures x in u <==> x == q || (x in t && x != p)
      ensures x in t && x != p ==> u[x] == Became(t[x], p, q)
    {
      StaysInTree(v, own, w, own', p, q, x);
      InTree(v, own, x);
      InTree(w, own', x);
      if x in t && x != p {
        HolderMoved(v, own, w, own', p, q, o, dir, added, x);
      }
    }
    IsMoved(t, u, p, q, EntryFor(o, dir));
  }

  lemma IsMoved(t: Tree, u: Tree, p: Pos, q: Pos, target: Option<Pos>)
    requires p in t && q !in t && p != q && q in u && u[q] == Became(target, p, q)
    requires target.Some? ==> target.value in t
    requires forall x: Pos :: x in u <==> x == q || (x in t && x != p)
    requires forall x: Pos :: x in t && x != p ==> u[x] == Became(t[x], p, q)
    ensures Moved(t, u, p, q, target)
  {
    assert u.Keys == t.Keys - {p} + {q};
  }

  lemma TargetInTree(v: Volume, own: map<Owner, seq<nat>>, w: Volume, own': map<Owner, seq<nat>>, p: Pos, q: Pos,
                     o: Owner, dir: Dir, added: seq<nat>)
    requires MovesEntry(v, own, w, own', p, q, o, dir, added)
    ensures EntryFor(o, dir).Some? ==> EntryFor(o, dir).value in TreeOf(v, own)
  {
    if EntryFor(o, dir).Some? {
      OwnersMoved(v, own, w, own', p, q, o, dir, added);
      EntriesMoved(v, own, w, own', p, q, o, dir, added, o.p);
      InTree(v, own, o.p);
    }
  }

  /**
   * Moving an entry to another directory, seen on the tree: everything stays in reach of the root exactly if
   * the entry was not moved into itself or below.
   */
  method MoveInTree(d: Drive, t: Target, source: Pos, previous: nat, ghost sourceDir: nat, ghost src: Source,
                    ghost own: map<Owner, seq<nat>>, ghost o: Owner, ghost dir: Dir)
    returns (error: Error, at: Option<Pos>, ghost own': map<Owner, seq<nat>>)
    requires Sane(d, own) && !d.readOnly
    requires Targets(d, State(View(d), own), t, o, 0, dir) && t.lookup == None && (|t.alias| > 0 ==> t.alias[0] != DOT)
    requires FoundAt(d, State(View(d), own), source, previous, sourceDir, src) && sourceDir != t.dirCluster
    modifies d.fat, d`freeCount, d`nextFree, d`slots
    ensures Sane(d, own') && (at.Some? <==> Outcome(old(d.slots), old(d.Fat()), dir, !t.shortOk, LongName.PieceCount(|t.name|)) == NoError)
    ensures at.Some? && AllReached(TreeOf(old(View(d)), own)) ==>
              var target := EntryFor(o, dir);
              (AllReached(TreeOf(View(d), own')) <==> target == None || !Under(TreeOf(old(View(d)), own), target.value, source))
  {
    hide Layout, Targets, FoundAt, Outcome, Passed, GrownBy, Renamed, TreeOf, AllReached, Under, DirOf, Sparing;
    ghost var r := SaneShows(d, own);
    ghost var v := r.Last().v;
    TargetShows(d, r.Last(), t, o, 0, dir);
    ghost var r', pr;
    error, at, r', pr := Move(d, t, source, previous, sourceDir, src, r, o, dir);
    ShownIsView(d, r');
    own' := r'.Last().own;
    if at.Some? {
      assert MovesEntry(v, own, View(d), own', source, at.value, o, dir, pr.added);
      MoveOnTree(v, own, View(d), own', source, at.value, o, dir, pr.added);
      if AllReached(TreeOf(v, own)) {
        MoveKeepsReach(TreeOf(v, own), TreeOf(View(d), own'), source, at.value, EntryFor(o, dir));
      }
    }
  }
}
