/**
 * Runs of the file system as sequences of the steps of a volume, and what holds over every run.
 */
module Runs {
  import opened MfsTypes
  import opened FatChain
  import opened Cluster
  import opened DirSlots
  import opened DirEntry
  import opened LfnRemoval
  import opened Volumes

  datatype State = State(v: Volume, own: map<Owner, seq<nat>>) {
    ghost predicate Ok() {
      Layout(v, own)
    }
  }

  datatype Label =
    | Extend(o: Owner, links: seq<nat>)
    | Rewrite
    | Reserve(s: Slot)
    | Attach(p: Pos, e: Slot)
    | Detach(p: Pos, e: Slot)
    | Discard
    | Open(p: Pos)
    | Close(i: nat)

  ghost predicate Step(a: State, l: Label, b: State) {
    match l
    case Extend(o, links) =>
      o in a.own && |a.own[o]| > 0 && b.own == Grow(a.own, o, links)
      && Extended(a.v, b.v, Last(a.own[o]), links, IsDirectory(EntryOf(a.v, o)))
    case Rewrite => b.own == a.own && Rewritten(a.v, a.own, b.v)
    case Reserve(s) => Reserved(a.v, b.v, s) && b.own == a.own[Aside := [s.first]]
    case Attach(p, e) => Attached(a.v, a.own, b.v, p, e) && b.own == Handed(a.own, Aside, At(p))
    case Detach(p, e) => Detached(a.v, b.v, p, e) && b.own == Handed(a.own, At(p), Aside)
    case Discard => Discarded(a.v, a.own, b.v) && b.own == a.own - {Aside}
    case Open(p) => p in a.v.slots && Live(a.v.slots[p]) && b.own == a.own && b.v == a.v.(opens := a.v.opens + [p])
    case Close(i) => i < |a.v.opens| && b.own == a.own && b.v == a.v.(opens := a.v.opens[..i] + a.v.opens[i + 1..])
  }

  lemma OpensDoNotMatter(v: Volume, own: map<Owner, seq<nat>>, w: Volume)
    requires Layout(v, own) && w == v.(opens := w.opens)
    ensures Layout(w, own)
  {
    forall o: Owner
      ensures EntryOf(w, o) == EntryOf(v, o)
    {}
    forall p | InDirectory(v, own, p)
      ensures InDirectory(w, own, p)
    {
      if p.cluster != 0 {
        var o :| o in own && IsDirectory(EntryOf(v, o)) && p.cluster in own[o];
        assert IsDirectory(EntryOf(w, o));
      }
    }
    forall o | o in own && IsDirectory(EntryOf(w, o))
      ensures HasSlots(w, own[o])
    {
      assert HasSlots(v, own[o]);
    }
  }

  lemma StepKeeps(a: State, l: Label, b: State)
    requires a.Ok() && Step(a, l, b)
    ensures b.Ok() && Kept(a.v, a.own, b.v, b.own)
  {
    match l
    case Extend(o, links) => ExtendKeeps(a.v, a.own, b.v, o, links);
    case Rewrite => RewriteKeeps(a.v, a.own, b.v);
    case Reserve(s) => ReserveKeeps(a.v, a.own, b.v, s);
    case Attach(p, e) => AttachKeeps(a.v, a.own, b.v, p, e);
    case Detach(p, e) => DetachKeeps(a.v, a.own, b.v, p, e);
    case Discard => DiscardKeeps(a.v, a.own, b.v);
    case Open(p) => OpensDoNotMatter(a.v, a.own, b.v);
    case Close(i) => OpensDoNotMatter(a.v, a.own, b.v);
  }

  // ---- runs ----

  datatype Run = Run(states: seq<State>, labels: seq<Label>) {
    ghost predicate Valid() {
      && |states| == |labels| + 1
      && forall i :: 0 <= i < |labels| ==> Step(states[i], labels[i], states[i + 1])
    }

    ghost function Last(): State
      requires |states| == |labels| + 1
    {
      states[|labels|]
    }
  }

  ghost predicate From(r: Run, a: State, b: State) {
    r.Valid() && r.states[0] == a && r.Last() == b
  }

  /**
   * Over every run, every live entry's first cluster is 0 or heads a whole chain, the chains are pairwise
   * disjoint, and every cell outside all chains keeps its value or is unused.
   */
  lemma {:induction false} RunKeeps(r: Run, i: nat)
    requires r.Valid() && i <= |r.labels| && r.states[0].Ok()
    ensures r.states[i].Ok() && Kept(r.states[0].v, r.states[0].own, r.states[i].v, r.states[i].own)
  {
    if i > 0 {
      RunKeeps(r, i - 1);
      StepKeeps(r.states[i - 1], r.labels[i - 1], r.states[i]);
    }
  }

  // Every cluster that was free and is not any more is in a chain.
  ghost predicate NoLeak(f: Fat, g: Fat, own': map<Owner, seq<nat>>) {
    forall c: nat :: Unused(f, c) && Good(g, c) && g[c] != CLUSTER_UNUSED ==> !Outside(own', c)
  }

  // No run leaks a cluster.
  lemma RunLeaksNothing(r: Run)
    requires r.Valid() && r.states[0].Ok()
    ensures NoLeak(r.states[0].v.fat, r.Last().v.fat, r.Last().own)
  {
    RunKeeps(r, |r.labels|);
  }

  // What Ok says of one entry, spelled out: its chain is in range, acyclic and ended by EOF, and shares
  // no cluster with the chain of another entry or of the root directory.
  lemma EveryFileIsWhole(a: State, p: Pos, q: Pos) returns (ch: seq<nat>)
    requires a.Ok() && p in a.v.slots && Live(a.v.slots[p])
    ensures if a.v.slots[p].first == 0 then ch == [] else Heads(a.v.fat, a.v.slots[p].first, ch) && Distinct(ch)
    ensures forall other: seq<nat> :: q in a.v.slots && Live(a.v.slots[q]) && q != p && Heads(a.v.fat, a.v.slots[q].first, other) && a.v.slots[q].first != 0
              ==> Cells(ch) !! Cells(other)
    ensures forall root: seq<nat> :: a.v.root != 0 && Heads(a.v.fat, a.v.root, root) ==> Cells(ch) !! Cells(root)
  {
    ch := if At(p) in a.own then a.own[At(p)] else [];
    assert At(p) in a.own <==> Owns(a.v, At(p));
    if At(p) in a.own {
      ChainDistinct(a.v.fat, ch);
      forall o, other: seq<nat> | o in a.own && o != At(p) && Heads(a.v.fat, EntryOf(a.v, o).first, other)
        ensures Cells(ch) !! Cells(other)
      {
        ChainUnique(a.v.fat, other, a.own[o]);
      }
      assert Root in a.own <==> Owns(a.v, Root);
      assert At(q) in a.own <==> Owns(a.v, At(q));
    }
  }

  // ---- open files ----

  ghost predicate OpensLive(v: Volume) {
    forall i :: 0 <= i < |v.opens| ==> v.opens[i] in v.slots && Live(v.slots[v.opens[i]])
  }

  // A step that takes no entry away from under an open file.
  ghost predicate SparesOpen(a: State, l: Label) {
    l.Detach? ==> Live(l.e) || l.p !in a.v.opens
  }

  lemma StepKeepsOpens(a: State, l: Label, b: State)
    requires a.Ok() && Step(a, l, b) && OpensLive(a.v) && SparesOpen(a, l)
    ensures OpensLive(b.v)
  {
    if l.Extend? && IsDirectory(EntryOf(a.v, l.o)) {
      ClearingUnused(a.v, a.own, b.v, l.links);
      OpensStay(a.v, b.v);
    } else if l.Reserve? && IsDirectory(l.s) {
      ClearingUnused(a.v, a.own, b.v, [l.s.first]);
      OpensStay(a.v, b.v);
    }
  }

  lemma OpensStay(v: Volume, w: Volume)
    requires OpensLive(v) && w.opens == v.opens && v.slots.Keys <= w.slots.Keys
    requires forall p: Pos :: Live(EntryOf(w, At(p))) || Live(EntryOf(v, At(p))) ==> EntryOf(w, At(p)) == EntryOf(v, At(p))
    ensures OpensLive(w)
  {
    forall i | 0 <= i < |w.opens|
      ensures w.opens[i] in w.slots && Live(w.slots[w.opens[i]])
    {
      assert EntryOf(w, At(v.opens[i])) == EntryOf(v, At(v.opens[i]));
    }
  }

  /**
   * Over every run in which no entry is taken away while it is open (renaming an open file does that),
   * every open file's slot holds a live entry: none is ever marked deleted.
   */
  lemma {:induction false} NoOpenFileDeleted(r: Run, i: nat)
    requires r.Valid() && i <= |r.labels| && r.states[0].Ok() && OpensLive(r.states[0].v)
    requires forall j :: 0 <= j < |r.labels| ==> SparesOpen(r.states[j], r.labels[j])
    ensures OpensLive(r.states[i].v)
  {
    if i > 0 {
      NoOpenFileDeleted(r, i - 1);
      RunKeeps(r, i - 1);
      StepKeepsOpens(r.states[i - 1], r.labels[i - 1], r.states[i]);
    }
  }

  // ---- building runs ----

  ghost function Here(a: State): (r: Run)
    ensures From(r, a, a)
  {
    Run([a], [])
  }

  ghost function Then(r: Run, l: Label, b: State): (r': Run)
    requires r.Valid() && Step(r.Last(), l, b)
    ensures From(r', r.states[0], b) && r'.labels == r.labels + [l]
  {
    Run(r.states + [b], r.labels + [l])
  }

  // Runs one after the other.
  lemma JoinRuns(r: Run, s: Run) returns (t: Run)
    requires r.Valid() && s.Valid() && r.states[|r.labels|] == s.states[0]
    ensures From(t, r.states[0], s.states[|s.labels|])
    ensures t.labels == r.labels + s.labels && t.states == r.states + s.states[1..]
  {
    t := Run(r.states + s.states[1..], r.labels + s.labels);
    forall i | 0 <= i < |t.labels|
      ensures Step(t.states[i], t.labels[i], t.states[i + 1])
    {
      if i < |r.labels| {
        assert t.states[i] == r.states[i] && t.states[i + 1] == r.states[i + 1];
      } else {
        var j := i - |r.labels|;
        assert t.states[i] == s.states[j] && t.states[i + 1] == s.states[j + 1];
      }
    }
  }

  // ---- a creation is a run ----

  // dir is the fixed root, or the directory of owner o from its j-th cluster on.
  ghost predicate DirOf(a: State, o: Owner, j: nat, dir: Dir) {
    dir.FixedRoot() || (o in a.own && IsDirectory(EntryOf(a.v, o)) && dir.perCluster == a.v.perCluster
                        && j < |a.own[o]| && dir.clusters == a.own[o][j..])
  }

  // What MFS_Create_directory_entry does to a volume.
  ghost predicate Creates(v: Volume, w: Volume, dir: Dir, pr: Progress) {
    && w == v.(fat := w.fat, slots := w.slots)
    && Wrote(v.slots, w.slots, dir, pr) && Grew(v.fat, w.fat, dir, pr.added)
    && forall i :: 0 <= i < |pr.contents| ==> !Owning(pr.contents[i])
  }

  ghost function GrownBy(own: map<Owner, seq<nat>>, o: Owner, added: seq<nat>): map<Owner, seq<nat>> {
    if added != [] && o in own then Grow(own, o, added) else own
  }

  // Half way: the directory has grown, nothing is written yet.
  ghost function HalfWay(v: Volume, w: Volume, pr: Progress): Volume {
    v.(fat := w.fat, slots := ClearedAll(v.slots, pr.added, v.perCluster))
  }

  lemma BeforeIs(a: State, w: Volume, o: Owner, j: nat, dir: Dir, pr: Progress, p: Pos)
    requires DirOf(a, o, j, dir) && Creates(a.v, w, dir, pr)
    ensures var m := HalfWay(a.v, w, pr);
            && (p in w.slots <==> p in m.slots)
            && (p in m.slots ==> m.slots[p] == Before(a.v.slots, dir, pr.added, p))
  {
    InPositions(pr.added, a.v.perCluster, p);
  }

  lemma InLonger(dir: Dir, added: seq<nat>, k: nat)
    requires k < |Longer(dir, added).Flat()|
    ensures Longer(dir, added).Flat()[k].cluster in dir.clusters || Longer(dir, added).Flat()[k].cluster in added
    ensures Longer(dir, added).Flat()[k].index < dir.perCluster
  {
    var all := Longer(dir, added);
    var x, i := ClusterOfPosition(all.clusters, all.perCluster, k);
    assert if x < |dir.clusters| then all.clusters[x] == dir.clusters[x] else all.clusters[x] == added[x - |dir.clusters|];
  }

  // A slot that a creation changed was free, holds what was written, and lies in the directory.
  lemma ChangedSlot(a: State, w: Volume, o: Owner, j: nat, dir: Dir, pr: Progress, p: Pos)
    requires DirOf(a, o, j, dir) && Creates(a.v, w, dir, pr)
    requires p in w.slots && w.slots[p] != Before(a.v.slots, dir, pr.added, p)
    ensures Before(a.v.slots, dir, pr.added, p).Free() && !Owning(w.slots[p])
    ensures (p.cluster in dir.clusters || p.cluster in pr.added) && p.index < dir.perCluster
  {
    var flat := Longer(dir, pr.added).Flat();
    var x :| 0 <= x < |pr.at| && pr.at[x] < |flat| && flat[pr.at[x]] == p;
    InLonger(dir, pr.added, pr.at[x]);
  }

  lemma WithinOwner(a: State, m: Volume, o: Owner, j: nat, dir: Dir, added: seq<nat>, p: Pos)
    requires DirOf(a, o, j, dir) && (dir.FixedRoot() ==> added == [])
    requires !dir.FixedRoot() ==> EntryOf(m, o) == EntryOf(a.v, o)
    requires (p.cluster in dir.clusters || p.cluster in added) && p.index < dir.perCluster && m.perCluster == a.v.perCluster
    ensures InDirectory(m, GrownBy(a.own, o, added), p)
  {
    if !dir.FixedRoot() {
      var own' := GrownBy(a.own, o, added);
      assert o in own' && p.cluster in own'[o];
    }
  }

  lemma CreationRewrites(a: State, w: Volume, o: Owner, j: nat, dir: Dir, pr: Progress)
    requires DirOf(a, o, j, dir) && Creates(a.v, w, dir, pr)
    requires !dir.FixedRoot() ==> EntryOf(HalfWay(a.v, w, pr), o) == EntryOf(a.v, o)
    ensures Step(State(HalfWay(a.v, w, pr), GrownBy(a.own, o, pr.added)), Rewrite, State(w, GrownBy(a.own, o, pr.added)))
  {
    var m, own' := HalfWay(a.v, w, pr), GrownBy(a.own, o, pr.added);
    hide Wrote, InDirectory, GrownBy;
    forall p: Pos
      ensures p in w.slots <==> p in m.slots
      ensures p in m.slots && w.slots[p] != m.slots[p] ==>
        !Owning(m.slots[p]) && !Live(m.slots[p]) && !Owning(w.slots[p]) && InDirectory(m, own', p)
    {
      BeforeIs(a, w, o, j, dir, pr, p);
      if p in m.slots && w.slots[p] != m.slots[p] {
        ChangedSlot(a, w, o, j, dir, pr, p);
        WithinOwner(a, m, o, j, dir, pr.added, p);
      }
    }
  }

  // The directory grows, and then its slots are rewritten.
  lemma CreationRun(r: Run, w: Volume, o: Owner, j: nat, dir: Dir, pr: Progress) returns (r': Run)
    requires r.Valid() && r.Last().Ok() && DirOf(r.Last(), o, j, dir) && Creates(r.Last().v, w, dir, pr)
    ensures From(r', r.states[0], State(w, GrownBy(r.Last().own, o, pr.added))) && r'.Last().Ok()
    ensures Sparing(r) ==> Sparing(r')
  {
    hide Creates, DirOf, Step, Layout, HalfWay, GrownBy, Sparing;
    var a := r.Last();
    var m := State(HalfWay(a.v, w, pr), GrownBy(a.own, o, pr.added));
    r' := r;
    if pr.added != [] {
      GrowthStep(a, w, o, j, dir, pr);
      StepKeeps(a, Extend(o, pr.added), m);
      r' := Then(r, Extend(o, pr.added), m);
      SparingThen(r, Extend(o, pr.added), m);
    } else {
      NothingCleared(a.v, w, dir, pr);
    }
    CreationRewrites(a, w, o, j, dir, pr);
    StepKeeps(m, Rewrite, State(w, m.own));
    SparingThen(r', Rewrite, State(w, m.own));
    r' := Then(r', Rewrite, State(w, m.own));
  }

  lemma NothingCleared(v: Volume, w: Volume, dir: Dir, pr: Progress)
    requires pr.added == [] && Creates(v, w, dir, pr)
    ensures HalfWay(v, w, pr) == v
    ensures forall own, o :: GrownBy(own, o, pr.added) == own
  {
    assert ClearedAll(v.slots, [], v.perCluster) == v.slots;
  }

  lemma GrowthStep(a: State, w: Volume, o: Owner, j: nat, dir: Dir, pr: Progress)
    requires a.Ok() && DirOf(a, o, j, dir) && Creates(a.v, w, dir, pr) && pr.added != []
    ensures Step(a, Extend(o, pr.added), State(HalfWay(a.v, w, pr), GrownBy(a.own, o, pr.added)))
    ensures EntryOf(HalfWay(a.v, w, pr), o) == EntryOf(a.v, o)
  {
    var m := HalfWay(a.v, w, pr);
    assert Cluster.Last(dir.clusters) == Cluster.Last(a.own[o]);
    ClearingUnused(a.v, a.own, m, pr.added);
    SameEntries(a.v, a.own, m);
  }

  // ---- giving up the chain of a file is a run ----

  // The file of slot p loses its chain, and e is left in its slot.
  ghost predicate Vacated(v: Volume, w: Volume, p: Pos, e: Slot) {
    && v.aside == None && p in v.slots && Live(v.slots[p]) && !IsDirectory(v.slots[p]) && !Owning(e)
    && w == v.(fat := if v.slots[p].first == 0 then v.fat else Released(v.fat, v.slots[p].first), slots := v.slots[p := e])
  }

  lemma VacateDetach(a: State, w: Volume, p: Pos, e: Slot) returns (m: State)
    requires a.Ok() && Vacated(a.v, w, p, e)
    ensures m == State(a.v.(aside := Some(a.v.slots[p]), slots := w.slots), Handed(a.own, At(p), Aside))
    ensures Step(a, Detach(p, e), m) && m.Ok()
  {
    m := State(a.v.(aside := Some(a.v.slots[p]), slots := w.slots), Handed(a.own, At(p), Aside));
    StepKeeps(a, Detach(p, e), m);
  }

  ghost function ChainOf(own: map<Owner, seq<nat>>, o: Owner): seq<nat> {
    if o in own then own[o] else []
  }

  lemma HandedAside(v: Volume, own: map<Owner, seq<nat>>, p: Pos)
    requires Owners(v, own) && v.aside == None
    ensures AsideChain(Handed(own, At(p), Aside)) == ChainOf(own, At(p))
    ensures Handed(own, At(p), Aside) - {Aside} == own - {At(p)}
  {
    assert Aside in own <==> Owns(v, Aside);
  }

  // Releasing the chain of an entry frees exactly its cells.
  lemma ChainFreed(a: State, g: Fat, p: Pos)
    requires a.Ok() && p in a.v.slots && Live(a.v.slots[p])
    requires g == if a.v.slots[p].first == 0 then a.v.fat else Released(a.v.fat, a.v.slots[p].first)
    ensures FreesExactly(a.v.fat, g, ChainOf(a.own, At(p)))
  {
    assert At(p) in a.own <==> Owns(a.v, At(p));
    if At(p) in a.own {
      ReleaseWellFormed(a.v.fat, a.own[At(p)]);
    }
  }

  lemma VacateFrees(a: State, w: Volume, p: Pos, e: Slot)
    requires a.Ok() && Vacated(a.v, w, p, e)
    ensures FreesExactly(a.v.fat, w.fat, ChainOf(a.own, At(p)))
  {
    ChainFreed(a, w.fat, p);
  }

  lemma VacateDiscard(a: State, m: State, w: Volume, p: Pos, e: Slot)
    requires a.Ok() && Vacated(a.v, w, p, e) && m.Ok()
    requires m == State(a.v.(aside := Some(a.v.slots[p]), slots := w.slots), Handed(a.own, At(p), Aside))
    ensures Step(m, Discard, State(w, a.own - {At(p)}))
  {
    VacateFrees(a, w, p, e);
    HandedAside(a.v, a.own, p);
    hide FreesExactly;
    forall q | q in m.v.slots && Live(m.v.slots[q])
      ensures q.cluster !in AsideChain(m.own)
    {
      FileHoldsNone(m.v, m.own, q);
    }
    hide Layout;
    assert Discarded(m.v, m.own, w);
  }

  lemma VacateRun(r: Run, w: Volume, p: Pos, e: Slot) returns (r': Run)
    requires r.Valid() && r.Last().Ok() && Vacated(r.Last().v, w, p, e)
    ensures From(r', r.states[0], State(w, r.Last().own - {At(p)})) && r'.Last().Ok()
    ensures r'.labels == r.labels + [Detach(p, e), Discard]
    ensures Sparing(r) && (Live(e) || p !in r.Last().v.opens) ==> Sparing(r')
    ensures FreesExactly(r.Last().v.fat, w.fat, ChainOf(r.Last().own, At(p)))
  {
    hide Layout, Vacated, Step;
    var a := r.Last();
    var m := VacateDetach(a, w, p, e);
    VacateFrees(a, w, p, e);
    VacateDiscard(a, m, w, p, e);
    StepKeeps(m, Discard, State(w, a.own - {At(p)}));
    r' := Then(Then(r, Detach(p, e), m), Discard, State(w, a.own - {At(p)}));
    if Sparing(r) && (Live(e) || p !in a.v.opens) {
      SparingThen(r, Detach(p, e), m);
      SparingThen(Then(r, Detach(p, e), m), Discard, State(w, a.own - {At(p)}));
    }
  }

  // Deleting pieces is a step that rewrites.
  lemma StrikeStep(a: State, w: Volume)
    requires w == a.v.(slots := w.slots) && OnlyPiecesGone(a.v.slots, w.slots)
    ensures Step(a, Rewrite, State(w, a.own))
  {}

  // A run that takes no entry away from under an open file.
  ghost predicate Sparing(r: Run)
    requires r.Valid()
  {
    forall i :: 0 <= i < |r.labels| ==> SparesOpen(r.states[i], r.labels[i])
  }

  lemma SparingThen(r: Run, l: Label, b: State)
    requires r.Valid() && Step(r.Last(), l, b) && SparesOpen(r.Last(), l)
    ensures Sparing(r) ==> Sparing(Then(r, l, b))
  {}

  // Two operations one after the other are one run.
  lemma NextRun(r: Run, s: Run, a: State, b: State, c: State) returns (t: Run)
    requires From(r, a, b) && From(s, b, c) && Sparing(r) && Sparing(s)
    ensures From(t, a, c) && Sparing(t)
  {
    t := JoinRuns(r, s);
    forall i | 0 <= i < |t.labels|
      ensures SparesOpen(t.states[i], t.labels[i])
    {
      if i < |r.labels| {
        assert t.states[i] == r.states[i];
      } else {
        assert t.states[i] == s.states[i - |r.labels|];
      }
    }
  }
}
