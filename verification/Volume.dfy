/**
 * What a whole volume keeps: every live entry names no cluster or heads a whole chain, and no two
 * chains share a cluster. The operations of the file system are made of a few kinds of steps, and each
 * of them keeps this.
 */
module Volumes {
  import opened MfsTypes
  import opened FatChain
  import opened Cluster
  import opened DirSlots
  import opened DirEntry

  // aside is an entry an operation has in hand: a cluster reserved for a new directory or file, or the
  // copy of an entry that is being moved or deleted. opens are the slots of the open files.
  datatype Volume = Volume(fat: Fat, slots: map<Pos, Slot>, root: nat, perCluster: nat, aside: Option<Slot>, opens: seq<Pos>)

  // What can own a chain: the root directory (unless it is the fixed one), an entry, the entry in hand.
  datatype Owner = Root | At(p: Pos) | Aside

  predicate Live(s: Slot) {
    s.Entry? && !s.Dot()
  }

  predicate Owning(s: Slot) {
    Live(s) && s.first != 0
  }

  predicate IsDirectory(s: Slot) {
    s.Entry? && s.attr & ATTR_DIR_NAME != 0
  }

  // The entry that stands for an owner.
  ghost function EntryOf(v: Volume, o: Owner): Slot {
    match o
    case Root => Entry([], ATTR_DIR_NAME, v.root, 0)
    case At(p) => if p in v.slots then v.slots[p] else NeverUsed
    case Aside => if v.aside.Some? then v.aside.value else NeverUsed
  }

  ghost predicate Owns(v: Volume, o: Owner) {
    Owning(EntryOf(v, o))
  }

  // ---- the invariant; own maps every owner to its chain ----

  ghost predicate Owners(v: Volume, own: map<Owner, seq<nat>>) {
    forall o :: o in own <==> Owns(v, o)
  }

  ghost predicate Whole(v: Volume, own: map<Owner, seq<nat>>)
    requires Owners(v, own)
  {
    forall o :: o in own ==> Heads(v.fat, EntryOf(v, o).first, own[o])
  }

  ghost predicate Apart(own: map<Owner, seq<nat>>) {
    forall o, q :: o in own && q in own && o != q ==> Cells(own[o]) !! Cells(own[q])
  }

  // A slot of the fixed root, or of some directory's chain.
  ghost predicate InDirectory(v: Volume, own: map<Owner, seq<nat>>, p: Pos) {
    p.cluster == 0 || (p.index < v.perCluster && exists o :: o in own && IsDirectory(EntryOf(v, o)) && p.cluster in own[o])
  }

  ghost predicate Placed(v: Volume, own: map<Owner, seq<nat>>) {
    forall p :: p in v.slots && Live(v.slots[p]) ==> InDirectory(v, own, p)
  }

  ghost predicate HasSlots(v: Volume, clusters: seq<nat>) {
    forall c, i :: c in clusters && 0 <= i < v.perCluster ==> Pos(c, i) in v.slots
  }

  ghost predicate Shown(v: Volume, own: map<Owner, seq<nat>>) {
    forall o :: o in own && IsDirectory(EntryOf(v, o)) ==> HasSlots(v, own[o])
  }

  ghost predicate Layout(v: Volume, own: map<Owner, seq<nat>>) {
    Owners(v, own) && Whole(v, own) && Apart(own) && Placed(v, own) && Shown(v, own)
  }

  // ---- what stays outside ----

  ghost predicate Outside(own: map<Owner, seq<nat>>, c: nat) {
    forall o :: o in own ==> c !in own[o]
  }

  // No used cell drops out of the chains, and a cell outside them keeps its value or is unused.
  ghost predicate Kept(v: Volume, own: map<Owner, seq<nat>>, w: Volume, own': map<Owner, seq<nat>>) {
    && |w.fat| == |v.fat|
    && forall c: nat :: Good(w.fat, c) && w.fat[c] != CLUSTER_UNUSED && Outside(own', c) ==>
      Outside(own, c) && w.fat[c] == v.fat[c]
  }

  // An unused cell is in no chain.
  lemma UnusedOutside(v: Volume, own: map<Owner, seq<nat>>, c: nat)
    requires Layout(v, own) && Unused(v.fat, c)
    ensures Outside(own, c)
  {
    forall o | o in own
      ensures c !in own[o]
    {
      var ch := own[o];
      forall i | 0 <= i < |ch|
        ensures ch[i] != c
      {
        assert i < |ch| - 1 ==> v.fat[ch[i]] == ch[i + 1];
      }
    }
  }

  // No live entry lies in a cluster outside the chains.
  lemma OutsideEmpty(v: Volume, own: map<Owner, seq<nat>>, c: nat, p: Pos)
    requires Layout(v, own) && Outside(own, c) && c != 0 && p in v.slots && p.cluster == c
    ensures !Live(v.slots[p])
  {}

  // ---- extending a chain ----

  // The chain behind tail grows by links; the new clusters are cleared if it is a directory's.
  ghost predicate Extended(v: Volume, w: Volume, tail: nat, links: seq<nat>, directory: bool) {
    && Extends(v.fat, w.fat, tail, links)
    && w == v.(fat := w.fat, slots := if directory then ClearedAll(v.slots, links, v.perCluster) else v.slots)
  }

  lemma {:induction false} ClearingUnused(v: Volume, own: map<Owner, seq<nat>>, w: Volume, cs: seq<nat>)
    requires Layout(v, own) && (forall i :: 0 <= i < |cs| ==> Unused(v.fat, cs[i]))
    requires w.slots == ClearedAll(v.slots, cs, v.perCluster) && w.perCluster == v.perCluster
    ensures forall p: Pos :: Live(EntryOf(w, At(p))) || Live(EntryOf(v, At(p))) ==> EntryOf(w, At(p)) == EntryOf(v, At(p))
    ensures v.slots.Keys <= w.slots.Keys && HasSlots(w, cs)
  {
    forall p: Pos
      ensures p in v.slots ==> p in w.slots
      ensures Live(EntryOf(w, At(p))) || Live(EntryOf(v, At(p))) ==> EntryOf(w, At(p)) == EntryOf(v, At(p))
      ensures p.cluster in cs && p.index < v.perCluster ==> p in w.slots
    {
      InPositions(cs, v.perCluster, p);
      if p in v.slots && p.cluster in cs {
        UnusedOutside(v, own, p.cluster);
        OutsideEmpty(v, own, p.cluster, p);
      }
    }
  }

  ghost function Grow(own: map<Owner, seq<nat>>, o: Owner, links: seq<nat>): map<Owner, seq<nat>>
    requires o in own
  {
    own[o := own[o] + links]
  }

  lemma WholeAfterExtend(v: Volume, own: map<Owner, seq<nat>>, w: Volume, o: Owner, links: seq<nat>)
    requires Owners(v, own) && Whole(v, own) && Apart(own) && o in own && Extends(v.fat, w.fat, Last(own[o]), links)
    requires forall q :: q in own ==> EntryOf(w, q) == EntryOf(v, q)
    ensures forall q :: q in own ==> Heads(w.fat, EntryOf(w, q).first, Grow(own, o, links)[q])
    ensures Apart(Grow(own, o, links))
  {
    var own' := Grow(own, o, links);
    forall q | q in own
      ensures Heads(w.fat, EntryOf(w, q).first, own'[q])
      ensures q != o ==> Cells(own[q]) !! Cells(links)
    {
      if q == o {
        ExtendKeepsChain(v.fat, w.fat, own[o], links);
      } else {
        TailNotIn(v, own, o, q);
        ExtendKeepsOther(v.fat, w.fat, Last(own[o]), links, own[q]);
      }
    }
    hide IsChain, Extends, Cells;
    assert Cells(own'[o]) == Cells(own[o]) + Cells(links) by {
      CellsJoin(own[o], links);
    }
  }

  lemma TailNotIn(v: Volume, own: map<Owner, seq<nat>>, o: Owner, q: Owner)
    requires Owners(v, own) && Whole(v, own) && Apart(own) && o in own && q in own && q != o
    ensures |own[o]| > 0 && Last(own[o]) !in own[q]
  {
    assert Heads(v.fat, EntryOf(v, o).first, own[o]);
    assert Last(own[o]) in Cells(own[o]);
    assert Last(own[o]) in Cells(own[q]) <==> Last(own[o]) in own[q];
  }

  lemma CellsJoin(a: seq<nat>, b: seq<nat>)
    ensures Cells(a + b) == Cells(a) + Cells(b)
  {
    forall c
      ensures c in Cells(a + b) <==> c in Cells(a) + Cells(b)
    {
      if c in Cells(a) {
        var i :| 0 <= i < |a| && a[i] == c;
        assert (a + b)[i] == c;
      }
      if c in Cells(b) {
        var i :| 0 <= i < |b| && b[i] == c;
        assert (a + b)[|a| + i] == c;
      }
    }
  }

  lemma PlacedAfterExtend(v: Volume, own: map<Owner, seq<nat>>, w: Volume, o: Owner, links: seq<nat>)
    requires Placed(v, own) && o in own && w.perCluster == v.perCluster
    requires forall q :: q in own ==> EntryOf(w, q) == EntryOf(v, q)
    requires forall p: Pos :: Live(EntryOf(w, At(p))) ==> EntryOf(w, At(p)) == EntryOf(v, At(p))
    ensures Placed(w, Grow(own, o, links))
  {
    forall p | p in w.slots && Live(w.slots[p])
      ensures InDirectory(w, Grow(own, o, links), p)
    {
      assert EntryOf(w, At(p)) == EntryOf(v, At(p));
      if p.cluster != 0 {
        var q :| q in own && IsDirectory(EntryOf(v, q)) && p.cluster in own[q];
        assert q in Grow(own, o, links);
      }
    }
  }

  lemma KeptByExtend(v: Volume, own: map<Owner, seq<nat>>, w: Volume, o: Owner, links: seq<nat>)
    requires o in own && |own[o]| > 0 && Extends(v.fat, w.fat, Last(own[o]), links)
    ensures Kept(v, own, w, Grow(own, o, links))
  {
    var own' := Grow(own, o, links);
    forall c: nat | Good(w.fat, c) && w.fat[c] != CLUSTER_UNUSED && Outside(own', c)
      ensures Outside(own, c) && w.fat[c] == v.fat[c]
    {
      assert c !in own'[o];
      assert Last(own[o]) in own'[o];
      forall q | q in own
        ensures c !in own[q]
      {
        assert q in own';
      }
    }
  }

  lemma SameEntries(v: Volume, own: map<Owner, seq<nat>>, w: Volume)
    requires Owners(v, own) && w.root == v.root && w.aside == v.aside
    requires forall p: Pos :: Live(EntryOf(w, At(p))) || Live(EntryOf(v, At(p))) ==> EntryOf(w, At(p)) == EntryOf(v, At(p))
    ensures Owners(w, own) && forall o :: o in own ==> EntryOf(w, o) == EntryOf(v, o)
  {
    forall o: Owner
      ensures Owns(w, o) <==> Owns(v, o)
      ensures Owns(v, o) ==> EntryOf(w, o) == EntryOf(v, o)
    {
      if o.At? {
        assert Live(EntryOf(v, At(o.p))) ==> EntryOf(w, o) == EntryOf(v, o);
      }
    }
  }

  lemma ExtendKeeps(v: Volume, own: map<Owner, seq<nat>>, w: Volume, o: Owner, links: seq<nat>)
    requires Layout(v, own) && o in own && Extended(v, w, Last(own[o]), links, IsDirectory(EntryOf(v, o)))
    ensures Layout(w, Grow(own, o, links)) && Kept(v, own, w, Grow(own, o, links))
  {
    var own' := Grow(own, o, links);
    if IsDirectory(EntryOf(v, o)) {
      ClearingUnused(v, own, w, links);
    }
    SameEntries(v, own, w);
    WholeAfterExtend(v, own, w, o, links);
    PlacedAfterExtend(v, own, w, o, links);
    KeptByExtend(v, own, w, o, links);
    forall q | q in own' && IsDirectory(EntryOf(w, q))
      ensures HasSlots(w, own'[q])
    {
      assert HasSlots(v, own[q]);
    }
  }

  // ---- rewriting slots that own nothing ----

  ghost predicate SameOwner(s: Slot, t: Slot) {
    if Owning(s) then Live(t) && t.first == s.first && IsDirectory(t) == IsDirectory(s) else !Owning(t)
  }

  ghost predicate Rewritten(v: Volume, own: map<Owner, seq<nat>>, w: Volume) {
    && w == v.(slots := w.slots) && w.slots.Keys == v.slots.Keys
    && forall p :: p in v.slots && w.slots[p] != v.slots[p] ==>
         && SameOwner(v.slots[p], w.slots[p]) && (Live(v.slots[p]) ==> Live(w.slots[p]))
         && (Live(w.slots[p]) ==> InDirectory(v, own, p))
  }

  lemma RewriteKeeps(v: Volume, own: map<Owner, seq<nat>>, w: Volume)
    requires Layout(v, own) && Rewritten(v, own, w)
    ensures Layout(w, own) && Kept(v, own, w, own)
  {
    forall o: Owner
      ensures Owns(w, o) <==> Owns(v, o)
      ensures Owns(v, o) ==> EntryOf(w, o).first == EntryOf(v, o).first && IsDirectory(EntryOf(w, o)) == IsDirectory(EntryOf(v, o))
    {
      if o.At? && o.p in v.slots {
        assert o.p in w.slots;
      }
    }
    forall p | p in w.slots && Live(w.slots[p])
      ensures InDirectory(w, own, p)
    {
      assert InDirectory(v, own, p);
    }
  }

  // ---- setting a cluster aside ----

  ghost predicate Reserved(v: Volume, w: Volume, s: Slot) {
    && v.aside == None && Owning(s) && Unused(v.fat, s.first)
    && w == v.(aside := Some(s), fat := v.fat[s.first := CLUSTER_EOF],
               slots := if IsDirectory(s) then ClearedAll(v.slots, [s.first], v.perCluster) else v.slots)
  }

  lemma ReserveWhole(v: Volume, own: map<Owner, seq<nat>>, w: Volume, s: Slot)
    requires Layout(v, own) && Reserved(v, w, s)
    requires forall o :: o in own ==> EntryOf(w, o) == EntryOf(v, o)
    ensures forall o :: o in own ==> Heads(w.fat, EntryOf(w, o).first, own[o]) && s.first !in own[o]
    ensures Heads(w.fat, s.first, [s.first])
  {
    UnusedOutside(v, own, s.first);
    forall o | o in own
      ensures Heads(w.fat, EntryOf(w, o).first, own[o])
    {
      ChainFrame(v.fat, w.fat, own[o]);
    }
  }

  lemma ReserveSame(v: Volume, own: map<Owner, seq<nat>>, w: Volume, s: Slot)
    requires Layout(v, own) && Reserved(v, w, s)
    ensures Aside !in own && forall o: Owner :: (Owns(w, o) <==>
      o == Aside || Owns(v, o)) && (Owns(v, o) ==> EntryOf(w, o) == EntryOf(v, o))
    ensures forall p: Pos :: Live(EntryOf(w, At(p))) || Live(EntryOf(v, At(p))) ==> EntryOf(w, At(p)) == EntryOf(v, At(p))
    ensures v.slots.Keys <= w.slots.Keys && (IsDirectory(s) ==> HasSlots(w, [s.first]))
  {
    if IsDirectory(s) {
      ClearingUnused(v, own, w, [s.first]);
    }
    SameEntries(v, own, w.(aside := None));
    assert Aside in own <==> Owns(v, Aside);
    forall o: Owner
      ensures o != Aside ==> EntryOf(w.(aside := None), o) == EntryOf(w, o)
      ensures (Owns(w, o) <==> o == Aside || Owns(v, o)) && (Owns(v, o) ==> EntryOf(w, o) == EntryOf(v, o))
    {
      assert o in own <==> Owns(w.(aside := None), o);
    }
  }

  lemma ReserveKeeps(v: Volume, own: map<Owner, seq<nat>>, w: Volume, s: Slot)
    requires Layout(v, own) && Reserved(v, w, s)
    ensures Layout(w, own[Aside := [s.first]]) && Kept(v, own, w, own[Aside := [s.first]])
  {
    ReserveSame(v, own, w, s);
    ReserveWhole(v, own, w, s);
    PlacedAfterReserve(v, own, w, s);
    KeptByReserve(v, own, w, s);
    ReserveParts(v, own, w, s);
  }

  lemma ReserveParts(v: Volume, own: map<Owner, seq<nat>>, w: Volume, s: Slot)
    requires Owners(v, own) && Apart(own) && Shown(v, own) && Aside !in own && Reserved(v, w, s)
    requires forall o: Owner :: (Owns(w, o) <==> o == Aside || Owns(v, o)) && (Owns(v, o) ==> EntryOf(w, o) == EntryOf(v, o))
    requires forall o :: o in own ==> s.first !in own[o]
    requires v.slots.Keys <= w.slots.Keys && (IsDirectory(s) ==> HasSlots(w, [s.first]))
    ensures Owners(w, own[Aside := [s.first]]) && Apart(own[Aside := [s.first]]) && Shown(w, own[Aside := [s.first]])
  {
    var own' := own[Aside := [s.first]];
    forall o | o in own' && IsDirectory(EntryOf(w, o))
      ensures HasSlots(w, own'[o])
    {
      assert o != Aside ==> HasSlots(v, own[o]);
    }
    forall o | o in own
      ensures Cells(own[o]) !! Cells([s.first])
    {
      assert Cells([s.first]) == {s.first} by {
        assert [s.first][0] == s.first;
      }
    }
  }

  lemma PlacedAfterReserve(v: Volume, own: map<Owner, seq<nat>>, w: Volume, s: Slot)
    requires Placed(v, own) && Aside !in own && w.perCluster == v.perCluster
    requires forall q :: q in own ==> EntryOf(w, q) == EntryOf(v, q)
    requires forall p: Pos :: Live(EntryOf(w, At(p))) ==> EntryOf(w, At(p)) == EntryOf(v, At(p))
    requires s.Entry?
    ensures Placed(w, own[Aside := [s.first]])
  {
    forall p | p in w.slots && Live(w.slots[p])
      ensures InDirectory(w, own[Aside := [s.first]], p)
    {
      assert EntryOf(w, At(p)) == EntryOf(v, At(p));
      if p.cluster != 0 {
        var q :| q in own && IsDirectory(EntryOf(v, q)) && p.cluster in own[q];
        assert q in own[Aside := [s.first]];
      }
    }
  }

  lemma KeptByReserve(v: Volume, own: map<Owner, seq<nat>>, w: Volume, s: Slot)
    requires Reserved(v, w, s) && Aside !in own
    ensures Kept(v, own, w, own[Aside := [s.first]])
  {
    var own' := own[Aside := [s.first]];
    forall c: nat | Good(w.fat, c) && w.fat[c] != CLUSTER_UNUSED && Outside(own', c)
      ensures Outside(own, c) && w.fat[c] == v.fat[c]
    {
      assert c !in own'[Aside] && c != s.first;
      forall q | q in own
        ensures c !in own[q]
      {
        assert q in own';
      }
    }
  }

  // ---- handing a chain from one owner to another ----

  ghost function Handed(own: map<Owner, seq<nat>>, o: Owner, q: Owner): map<Owner, seq<nat>> {
    if o in own then (own - {o})[q := own[o]] else own
  }

  // What owner o had is owner q's now.
  ghost predicate HandedOver(v: Volume, own: map<Owner, seq<nat>>, w: Volume, o: Owner, q: Owner) {
    && w == v.(slots := w.slots, aside := w.aside) && w.slots.Keys == v.slots.Keys
    && o != q && q !in own && !Owns(w, o) && SameOwner(EntryOf(v, o), EntryOf(w, q))
    && (forall r: Owner :: r != o && r != q ==> EntryOf(w, r) == EntryOf(v, r))
    && (forall p: Pos :: Live(EntryOf(w, At(p))) ==> Live(EntryOf(v, At(p))) || InDirectory(v, own, p))
  }

  ghost predicate HandedFrom(v: Volume, own: map<Owner, seq<nat>>, w: Volume, own': map<Owner, seq<nat>>, r: Owner, r0: Owner) {
    r in own' && r0 in own && own'[r] == own[r0] && SameOwner(EntryOf(v, r0), EntryOf(w, r))
  }

  lemma HandOne(v: Volume, own: map<Owner, seq<nat>>, w: Volume, o: Owner, q: Owner, r: Owner)
    requires Owners(v, own) && HandedOver(v, own, w, o, q)
    ensures r in Handed(own, o, q) <==> Owns(w, r)
    ensures r in Handed(own, o, q) ==> r != o && HandedFrom(v, own, w, Handed(own, o, q), r, if r == q then o else r)
  {
    hide Live, InDirectory;
    assert o in own <==> Owns(v, o);
    assert r in own <==> Owns(v, r);
  }

  lemma HandKeeps(v: Volume, own: map<Owner, seq<nat>>, w: Volume, o: Owner, q: Owner)
    requires Layout(v, own) && HandedOver(v, own, w, o, q)
    ensures Layout(w, Handed(own, o, q)) && Kept(v, own, w, Handed(own, o, q))
  {
    var own' := Handed(own, o, q);
    HandPlaced(v, own, w, o, q);
    HandOutside(own, o, q);
    hide Handed, EntryOf, IsChain, Cells, InDirectory, Outside, Placed, HasSlots, Live, IsDirectory;
    forall r: Owner
      ensures r in own' <==> Owns(w, r)
      ensures r in own' ==> r != o && HandedFrom(v, own, w, own', r, if r == q then o else r)
      ensures r in own' ==> Heads(w.fat, EntryOf(w, r).first, own'[r])
      ensures r in own' && IsDirectory(EntryOf(w, r)) ==> HasSlots(w, own'[r])
    {
      HandOne(v, own, w, o, q, r);
      if r in own' {
        HandShown(v, own, w, own', r, if r == q then o else r);
      }
    }
    assert Apart(own') by {
      forall r, t | r in own' && t in own' && r != t
        ensures Cells(own'[r]) !! Cells(own'[t])
      {
        assert HandedFrom(v, own, w, own', r, if r == q then o else r);
        assert HandedFrom(v, own, w, own', t, if t == q then o else t);
      }
    }
  }

  lemma HandShown(v: Volume, own: map<Owner, seq<nat>>, w: Volume, own': map<Owner, seq<nat>>, r: Owner, r0: Owner)
    requires Layout(v, own) && HandedFrom(v, own, w, own', r, r0)
    requires w.slots.Keys == v.slots.Keys && w.fat == v.fat && w.perCluster == v.perCluster
    ensures Heads(w.fat, EntryOf(w, r).first, own'[r]) && (IsDirectory(EntryOf(w, r)) ==> HasSlots(w, own'[r]))
  {
    assert IsDirectory(EntryOf(v, r0)) ==> HasSlots(v, own[r0]);
  }

  lemma HandOutside(own: map<Owner, seq<nat>>, o: Owner, q: Owner)
    requires q !in own
    ensures forall c: nat :: Outside(Handed(own, o, q), c) ==> Outside(own, c)
  {
    var own' := Handed(own, o, q);
    forall c: nat | Outside(own', c)
      ensures Outside(own, c)
    {
      forall r | r in own
        ensures c !in own[r]
      {
        assert (if r == o then q else r) in own';
      }
    }
  }

  lemma HandPlaced(v: Volume, own: map<Owner, seq<nat>>, w: Volume, o: Owner, q: Owner)
    requires Owners(v, own) && Placed(v, own) && HandedOver(v, own, w, o, q)
    ensures Placed(w, Handed(own, o, q))
  {
    var own' := Handed(own, o, q);
    forall p | p in w.slots && Live(w.slots[p])
      ensures InDirectory(w, own', p)
    {
      assert Live(EntryOf(w, At(p)));
      assert InDirectory(v, own, p);
      if p.cluster != 0 {
        var r :| r in own && IsDirectory(EntryOf(v, r)) && p.cluster in own[r];
        assert (if r == o then q else r) in own';
      }
    }
  }

  // The entry in hand goes into slot p.
  ghost predicate Attached(v: Volume, own: map<Owner, seq<nat>>, w: Volume, p: Pos, e: Slot) {
    && v.aside.Some? && p in v.slots && !Owning(v.slots[p]) && InDirectory(v, own, p)
    && SameOwner(v.aside.value, e) && Live(e) && w == v.(aside := None, slots := v.slots[p := e])
  }

  lemma AttachKeeps(v: Volume, own: map<Owner, seq<nat>>, w: Volume, p: Pos, e: Slot)
    requires Layout(v, own) && Attached(v, own, w, p, e)
    ensures Layout(w, Handed(own, Aside, At(p))) && Kept(v, own, w, Handed(own, Aside, At(p)))
  {
    assert At(p) !in own && EntryOf(w, At(p)) == e;
    HandKeeps(v, own, w, Aside, At(p));
  }

  // The entry of slot p is taken in hand, and e, which owns nothing, is left there.
  ghost predicate Detached(v: Volume, w: Volume, p: Pos, e: Slot) {
    && v.aside == None && p in v.slots && !Owning(e) && (Live(e) ==> Live(v.slots[p])) && w.aside.Some?
    && SameOwner(v.slots[p], w.aside.value) && w == v.(aside := w.aside, slots := v.slots[p := e])
  }

  lemma DetachKeeps(v: Volume, own: map<Owner, seq<nat>>, w: Volume, p: Pos, e: Slot)
    requires Layout(v, own) && Detached(v, w, p, e)
    ensures Layout(w, Handed(own, At(p), Aside)) && Kept(v, own, w, Handed(own, At(p), Aside))
  {
    assert Aside !in own && EntryOf(w, At(p)) == e;
    HandKeeps(v, own, w, At(p), Aside);
  }

  // ---- giving a chain up ----

  ghost function AsideChain(own: map<Owner, seq<nat>>): seq<nat> {
    if Aside in own then own[Aside] else []
  }

  // The chain in hand is freed; no live entry lies in its clusters.
  ghost predicate Discarded(v: Volume, own: map<Owner, seq<nat>>, w: Volume) {
    && FreesExactly(v.fat, w.fat, AsideChain(own)) && w == v.(aside := None, fat := w.fat)
    && forall p :: p in v.slots && p.cluster in AsideChain(own) ==> !Live(v.slots[p])
  }

  lemma DiscardWhole(v: Volume, own: map<Owner, seq<nat>>, w: Volume)
    requires Layout(v, own) && Discarded(v, own, w)
    ensures forall o :: o in own && o != Aside ==> Heads(w.fat, EntryOf(w, o).first, own[o])
  {
    forall o | o in own && o != Aside
      ensures Heads(w.fat, EntryOf(w, o).first, own[o])
    {
      assert Cells(own[o]) !! Cells(AsideChain(own));
      ReleaseKeepsOther(v.fat, w.fat, AsideChain(own), own[o]);
    }
  }

  lemma DiscardPlaced(v: Volume, own: map<Owner, seq<nat>>, w: Volume)
    requires Layout(v, own) && Discarded(v, own, w)
    ensures Placed(w, own - {Aside})
  {
    hide FreesExactly, Heads, HasSlots, Cells;
    forall p | p in w.slots && Live(w.slots[p])
      ensures InDirectory(w, own - {Aside}, p)
    {
      assert InDirectory(v, own, p);
      if p.cluster != 0 {
        var r :| r in own && IsDirectory(EntryOf(v, r)) && p.cluster in own[r];
        assert r != Aside && r in own - {Aside};
      }
    }
  }

  lemma DiscardKeeps(v: Volume, own: map<Owner, seq<nat>>, w: Volume)
    requires Layout(v, own) && Discarded(v, own, w)
    ensures Layout(w, own - {Aside}) && Kept(v, own, w, own - {Aside})
  {
    hide FreesExactly, IsChain, Cells, InDirectory, Placed;
    var own' := own - {Aside};
    DiscardWhole(v, own, w);
    DiscardPlaced(v, own, w);
    forall o: Owner
      ensures o in own' <==> Owns(w, o)
    {
      assert o != Aside ==> EntryOf(w, o) == EntryOf(v, o);
    }
    forall o | o in own' && IsDirectory(EntryOf(w, o))
      ensures HasSlots(w, own'[o])
    {
      assert HasSlots(v, own[o]);
    }
    KeptByDiscard(v, own, w);
  }

  lemma KeptByDiscard(v: Volume, own: map<Owner, seq<nat>>, w: Volume)
    requires FreesExactly(v.fat, w.fat, AsideChain(own))
    ensures Kept(v, own, w, own - {Aside})
  {
    forall c: nat | Good(w.fat, c) && w.fat[c] != CLUSTER_UNUSED && Outside(own - {Aside}, c)
      ensures Outside(own, c) && w.fat[c] == v.fat[c]
    {
      forall q | q in own
        ensures c !in own[q]
      {
        assert q != Aside ==> q in own - {Aside};
      }
    }
  }

  // The chain of a file holds no slots of live entries.
  lemma FileHoldsNone(v: Volume, own: map<Owner, seq<nat>>, p: Pos)
    requires Layout(v, own) && !IsDirectory(EntryOf(v, Aside))
    requires p in v.slots && Live(v.slots[p])
    ensures p.cluster !in AsideChain(own)
  {
    if p.cluster != 0 {
      var r :| r in own && IsDirectory(EntryOf(v, r)) && p.cluster in own[r];
      assert p.cluster in Cells(own[r]);
      assert p.cluster in AsideChain(own) <==> p.cluster in Cells(AsideChain(own));
    }
  }

  // No live entry lies in the clusters ch.
  ghost predicate NoneLive(slots: map<Pos, Slot>, ch: seq<nat>) {
    forall p :: p in slots && Live(slots[p]) ==> p.cluster !in ch
  }

  /**
   * An entry in hand that is forgotten leaks its chain; the volume is in order without it exactly if no live
   * entry lies there, so always if it was not a directory's.
   */
  lemma ForgetHand(v: Volume, own: map<Owner, seq<nat>>)
    requires Layout(v, own) && v.aside.Some?
    ensures Layout(v.(aside := None), own - {Aside}) <==> NoneLive(v.slots, AsideChain(own))
    ensures !IsDirectory(v.aside.value) ==> NoneLive(v.slots, AsideChain(own))
  {
    if NoneLive(v.slots, AsideChain(own)) {
      Forgotten(v, own);
    } else {
      var p :| p in v.slots && Live(v.slots[p]) && p.cluster in AsideChain(own);
      NotForgotten(v, own, p);
    }
    if !IsDirectory(v.aside.value) {
      forall p | p in v.slots && Live(v.slots[p])
        ensures p.cluster !in AsideChain(own)
      {
        FileHoldsNone(v, own, p);
      }
    }
  }

  lemma NotForgotten(v: Volume, own: map<Owner, seq<nat>>, p: Pos)
    requires Layout(v, own) && p in v.slots && Live(v.slots[p]) && p.cluster in AsideChain(own)
    ensures !Placed(v.(aside := None), own - {Aside})
  {
    var w, own' := v.(aside := None), own - {Aside};
    assert Heads(v.fat, EntryOf(v, Aside).first, own[Aside]);
    assert p.cluster in Cells(own[Aside]);
    forall r | r in own'
      ensures p.cluster !in own'[r]
    {
      assert r in own && r != Aside;
      assert p.cluster in Cells(own[r]) <==> p.cluster in own[r];
    }
    assert !InDirectory(w, own', p);
  }

  lemma Forgotten(v: Volume, own: map<Owner, seq<nat>>)
    requires Layout(v, own) && NoneLive(v.slots, AsideChain(own))
    ensures Layout(v.(aside := None), own - {Aside})
  {
    var w, own' := v.(aside := None), own - {Aside};
    ForgottenPlaced(v, own);
    hide InDirectory, Placed, NoneLive, Cells, Live, IsChain;
    assert Owners(w, own') by {
      forall o: Owner
        ensures o in own' <==> Owns(w, o)
      {
        assert o != Aside ==> EntryOf(w, o) == EntryOf(v, o);
      }
    }
    forall o | o in own'
      ensures Heads(w.fat, EntryOf(w, o).first, own'[o])
      ensures IsDirectory(EntryOf(w, o)) ==> HasSlots(w, own'[o])
    {
      assert EntryOf(w, o) == EntryOf(v, o);
      assert IsDirectory(EntryOf(v, o)) ==> HasSlots(v, own[o]);
    }
  }

  lemma ForgottenPlaced(v: Volume, own: map<Owner, seq<nat>>)
    requires Layout(v, own) && NoneLive(v.slots, AsideChain(own))
    ensures Placed(v.(aside := None), own - {Aside})
  {
    var w, own' := v.(aside := None), own - {Aside};
    hide Owners, Whole, Apart, Shown;
    forall p | p in w.slots && Live(w.slots[p])
      ensures InDirectory(w, own', p)
    {
      assert InDirectory(v, own, p);
      if p.cluster != 0 {
        var r :| r in own && IsDirectory(EntryOf(v, r)) && p.cluster in own[r];
        assert r in own' && EntryOf(w, r) == EntryOf(v, r);
      }
    }
  }
}
