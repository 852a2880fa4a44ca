/**
 * The file allocation table as a value, and what a well-formed cluster chain in it is.
 */
module FatChain {
  import opened MfsTypes

  // Cell c of the table is what MFS_get_cluster_from_fat reads for cluster c; cells 0 and 1 are no clusters.
  type Fat = f: seq<nat> | CLUSTER_MIN_GOOD <= |f| <= CLUSTER_MAX_GOOD + 1 witness [0, 0]

  predicate Good(f: Fat, c: nat) {
    CLUSTER_MIN_GOOD <= c < |f|
  }

  predicate Unused(f: Fat, c: nat) {
    Good(f, c) && f[c] == CLUSTER_UNUSED
  }

  ghost function FreeCells(f: Fat): set<nat> {
    set c | 0 <= c < |f| && Unused(f, c)
  }

  ghost function UsedCells(f: Fat): set<nat> {
    set c | 0 <= c < |f| && Good(f, c) && f[c] != CLUSTER_UNUSED
  }

  // In range, linked cell by cell, and ended by EOF.
  ghost predicate IsChain(f: Fat, ch: seq<nat>) {
    && |ch| > 0
    && (forall i :: 0 <= i < |ch| ==> Good(f, ch[i]))
    && (forall i :: 0 <= i < |ch| - 1 ==> f[ch[i]] == ch[i + 1])
    && f[ch[|ch| - 1]] == CLUSTER_EOF
  }

  ghost predicate Heads(f: Fat, c: nat, ch: seq<nat>) {
    IsChain(f, ch) && ch[0] == c
  }

  ghost function Cells(ch: seq<nat>): set<nat> {
    set i | 0 <= i < |ch| :: ch[i]
  }

  ghost predicate Distinct(s: seq<nat>) {
    forall i, j :: 0 <= i < j < |s| ==> s[i] != s[j]
  }

  // An EOF-terminated chain is acyclic.
  lemma {:induction false} NoRepeat(f: Fat, ch: seq<nat>, i: nat, j: nat)
    requires IsChain(f, ch) && i < j < |ch|
    ensures ch[i] != ch[j]
    decreases |ch| - j
  {
    assert f[ch[i]] == ch[i + 1];
    if j + 1 < |ch| {
      assert f[ch[j]] == ch[j + 1];
      NoRepeat(f, ch, i + 1, j + 1);
    }
  }

  lemma ChainDistinct(f: Fat, ch: seq<nat>)
    requires IsChain(f, ch)
    ensures Distinct(ch)
  {
    forall i, j | 0 <= i < j < |ch|
      ensures ch[i] != ch[j]
    {
      NoRepeat(f, ch, i, j);
    }
  }

  // A head has one chain.
  lemma {:induction false} ChainUnique(f: Fat, a: seq<nat>, b: seq<nat>)
    requires IsChain(f, a) && IsChain(f, b) && a[0] == b[0]
    ensures a == b
    decreases |a|
  {
    assert |a| > 1 ==> f[a[0]] == a[1];
    assert |b| > 1 ==> f[b[0]] == b[1];
    if |a| > 1 {
      assert IsChain(f, a[1..]) && IsChain(f, b[1..]);
      ChainUnique(f, a[1..], b[1..]);
      assert a == [a[0]] + a[1..] && b == [b[0]] + b[1..];
    }
  }

  // Every suffix of a chain is a chain.
  lemma SuffixIsChain(f: Fat, ch: seq<nat>, i: nat)
    requires IsChain(f, ch) && i < |ch|
    ensures IsChain(f, ch[i..])
  {}

  // A chain depends on its own cells only.
  lemma ChainFrame(f: Fat, g: Fat, ch: seq<nat>)
    requires IsChain(f, ch) && |g| == |f|
    requires forall i :: 0 <= i < |ch| ==> g[ch[i]] == f[ch[i]]
    ensures IsChain(g, ch)
  {}

  lemma {:induction false} CellsCount(s: seq<nat>)
    requires Distinct(s)
    ensures |Cells(s)| == |s|
    decreases |s|
  {
    if s != [] {
      var t := s[..|s| - 1];
      CellsCount(t);
      assert Cells(s) == Cells(t) + {s[|s| - 1]};
    }
  }

  lemma FreeAfterPut(f: Fat, c: nat, v: nat)
    requires Good(f, c)
    ensures FreeCells(f[c := v]) == if v == CLUSTER_UNUSED then FreeCells(f) + {c} else FreeCells(f) - {c}
    ensures UsedCells(f[c := v]) == if v == CLUSTER_UNUSED then UsedCells(f) - {c} else UsedCells(f) + {c}
  {}

  ghost function FreeBelow(f: Fat, n: nat): set<nat>
    requires n <= |f|
  {
    set c | 0 <= c < n && Unused(f, c)
  }

  lemma FreeBelowNext(f: Fat, n: nat)
    requires n < |f|
    ensures |FreeBelow(f, n + 1)| == |FreeBelow(f, n)| + (if Unused(f, n) then 1 else 0)
  {
    assert FreeBelow(f, n + 1) == if Unused(f, n) then FreeBelow(f, n) + {n} else FreeBelow(f, n);
  }

  lemma {:induction false} FreeBelowBound(f: Fat, n: nat)
    requires n <= |f|
    ensures |FreeBelow(f, n)| <= n
  {
    if n == 0 {
      assert FreeBelow(f, n) == {};
    } else {
      FreeBelowBound(f, n - 1);
      FreeBelowNext(f, n - 1);
    }
  }

  // A free count always fits the 32-bit counter and is never the unknown marker.
  lemma FreeBound(f: Fat)
    ensures |FreeCells(f)| < FSI_UNKNOWN
  {
    assert FreeCells(f) == FreeBelow(f, |f|);
    FreeBelowBound(f, |f|);
  }
}
