/**
 * The list of open files (mfs/source/generic/mfs_handle.c:46-131).
 */
module Handles {
  import opened MfsTypes
  import opened Drives

  // The slots the open files refer to, in the order of the list.
  ghost function Opens(hs: seq<Handle>): (ps: seq<Pos>)
    reads hs
    ensures |ps| == |hs| && forall i :: 0 <= i < |hs| ==> hs[i].At(ps[i])
  {
    seq(|hs|, i requires 0 <= i < |hs| reads hs => Pos(hs[i].dirCluster, hs[i].dirIndex))
  }

  // A linked list holds each handle once.
  ghost predicate NoTwice(hs: seq<Handle>) {
    forall i, j :: 0 <= i < j < |hs| ==> hs[i] != hs[j]
  }

  // MFS_Get_handle; alloc tells whether there was memory for it.
  method GetHandle(d: Drive, entry: Slot, alloc: bool) returns (h: Handle?)
    requires entry.Entry?
    modifies d`handles
    ensures h == null <==> !alloc
    ensures d.handles == if h == null then old(d.handles) else old(d.handles) + [h]
    ensures h != null ==>
              && fresh(h) && h.valid && h.At(Pos(0, 0)) && h.currentCluster == h.previousCluster == 0
              && Entry(h.name, h.attr, h.first, h.size) == entry
  {
    h := null;
    if alloc {
      h := new Handle(entry);
      d.handles := d.handles + [h];
    }
  }

  function Unlinked(hs: seq<Handle>, h: Handle): (r: seq<Handle>)
    ensures h !in hs ==> r == hs
  {
    if hs == [] then [] else if hs[0] == h then hs[1..] else [hs[0]] + Unlinked(hs[1..], h)
  }

  lemma {:induction false} UnlinkedAt(hs: seq<Handle>, i: nat)
    requires i < |hs| && NoTwice(hs)
    ensures Unlinked(hs, hs[i]) == hs[..i] + hs[i + 1..]
    decreases |hs|
  {
    if i > 0 {
      assert hs[1..][i - 1] == hs[i] && hs[0] != hs[i];
      UnlinkedAt(hs[1..], i - 1);
      assert hs[1..][..i - 1] == hs[1..i] && hs[1..][i..] == hs[i + 1..];
      assert hs[..i] == [hs[0]] + hs[1..i];
    }
  }

  // MFS_Free_handle: the handle leaves the list, the others stay in order.
  method FreeHandle(d: Drive, h: Handle?, ghost i: nat)
    requires NoTwice(d.handles) && (h != null ==> i < |d.handles| && d.handles[i] == h)
    modifies d`handles, h
    ensures h == null ==> d.handles == old(d.handles)
    ensures h != null ==>
              && d.handles == old(d.handles)[..i] + old(d.handles)[i + 1..] && h !in d.handles
              && Opens(d.handles) == old(Opens(d.handles))[..i] + old(Opens(d.handles))[i + 1..]
              && h.valid == !old(h.valid)
  {
    if h != null {
      UnlinkedAt(d.handles, i);
      d.handles := Unlinked(d.handles, h);
      h.valid := !h.valid;
    }
  }

  ghost predicate FirstOpen(hs: seq<Handle>, k: nat, p: Pos)
    requires k < |hs|
    reads hs
  {
    hs[k].At(p) && forall x :: 0 <= x < k ==> !hs[x].At(p)
  }

  // MFS_Find_handle: the first open file that refers to the slot, or null if none does.
  method FindHandle(d: Drive, cluster: nat, index: nat) returns (h: Handle?)
    ensures h == null <==> Pos(cluster, index) !in Opens(d.handles)
    ensures h != null ==> exists k :: 0 <= k < |d.handles| && d.handles[k] == h && FirstOpen(d.handles, k, Pos(cluster, index))
  {
    var k := 0;
    h := null;
    while k < |d.handles|
      invariant 0 <= k <= |d.handles|
      invariant forall x :: 0 <= x < k ==> !d.handles[x].At(Pos(cluster, index))
    {
      if d.handles[k].dirCluster == cluster && d.handles[k].dirIndex == index {
        h := d.handles[k];
        assert Opens(d.handles)[k] == Pos(cluster, index);
        return;
      }
      k := k + 1;
    }
  }
}
