/**
 * The drive structure (mfs/source/include/mfs_prv.h:195-258) and the access to its file allocation
 * table (mfs/source/generic/mfs_fat.c:225-466, mfs/source/generic/mfs_cluster.c:38-64).
 */
module Drives {
  import opened MfsTypes
  import opened FatChain
  import opened DataSector

  // An open file: MFS_HANDLE, with the fields of its copy of the directory entry that the model uses.
  class Handle {
    var dirCluster: nat
    var dirIndex: nat
    var currentCluster: nat
    var previousCluster: nat
    var name: seq<nat>      // DIR_ENTRY.NAME
    var first: nat          // DIR_ENTRY first cluster
    var size: nat           // DIR_ENTRY.FILE_SIZE
    var attr: bv8           // DIR_ENTRY.ATTRIBUTE
    var valid: bool

    constructor (entry: Slot)
      requires entry.Entry?
      ensures dirCluster == dirIndex == currentCluster == previousCluster == 0
      ensures name == entry.name && first == entry.first && size == entry.size && attr == entry.attr && valid
    {
      dirCluster, dirIndex, currentCluster, previousCluster := 0, 0, 0, 0;
      name, first, size, attr, valid := entry.name, entry.first, entry.size, entry.attr, true;
    }

    ghost predicate At(p: Pos)
      reads this
    {
      dirCluster == p.cluster && dirIndex == p.index
    }
  }

  class Drive {
    const readOnly: bool
    const sectorsPerCluster: nat
    const entriesPerSector: nat
    const dataStart: nat       // DATA_START_SECTOR
    const rootEntries: nat     // BPB.ROOT_ENTRIES
    const rootCluster: nat     // BPB32.ROOT_CLUSTER, 0 unless the table is FAT32
    const fat: array<nat>      // one cell per cluster, LAST_CLUSTER + 1 of them
    const cache: DataCache
    var freeCount: nat         // FREE_COUNT
    var nextFree: nat          // NEXT_FREE_CLUSTER
    var slots: map<Pos, Slot>  // the directory slots on the disk, seen through the directory sector buffer
    var handles: seq<Handle>   // HANDLE_LIST

    constructor (table: array<nat>, cache: DataCache, readOnly: bool, sectorsPerCluster: nat, entriesPerSector: nat,
                 dataStart: nat, rootEntries: nat, rootCluster: nat)
      ensures fat == table && this.cache == cache && this.readOnly == readOnly
      ensures this.sectorsPerCluster == sectorsPerCluster && this.entriesPerSector == entriesPerSector
      ensures this.dataStart == dataStart && this.rootEntries == rootEntries && this.rootCluster == rootCluster
      ensures freeCount == FSI_UNKNOWN && slots == map[] && handles == []
    {
      fat, this.cache, this.readOnly := table, cache, readOnly;
      this.sectorsPerCluster, this.entriesPerSector := sectorsPerCluster, entriesPerSector;
      this.dataStart, this.rootEntries, this.rootCluster := dataStart, rootEntries, rootCluster;
      freeCount, nextFree := FSI_UNKNOWN, FSI_UNKNOWN;
      slots, handles := map[], [];
    }

    // What mounting establishes: a table of a legal size, clusters of one or more sectors, all of them
    // on a device whose sector numbers fit 32 bits, and several slots per sector (sixteen at least, in fact).
    ghost predicate Mounted() {
      && CLUSTER_MIN_GOOD < fat.Length <= CLUSTER_MAX_GOOD + 1
      && 0 < sectorsPerCluster && 2 < entriesPerSector
      && FirstSector(fat.Length) <= MAX_UINT_32
    }

    function LastCluster(): (last: nat)
      requires fat.Length > 0
    {
      fat.Length - 1
    }

    // CLUSTER_TO_SECTOR
    function FirstSector(c: nat): int {
      (c - CLUSTER_MIN_GOOD) * sectorsPerCluster + dataStart
    }

    // How many slots the search reads in a directory cluster and in the fixed root.
    function SlotsPerCluster(): nat {
      sectorsPerCluster * entriesPerSector
    }

    // ... of which the search leaves those out that do not fill a sector.
    function RootSlots(): (n: nat)
      requires entriesPerSector > 0
      ensures n <= rootEntries < n + entriesPerSector
    {
      rootEntries / entriesPerSector * entriesPerSector
    }

    ghost predicate InCluster(s: nat, c: nat) {
      FirstSector(c) <= s < FirstSector(c) + sectorsPerCluster
    }

    lemma ClusterSectors(c: nat)
      requires Mounted() && CLUSTER_MIN_GOOD <= c < fat.Length
      ensures FirstSector(c) + sectorsPerCluster <= MAX_UINT_32
      ensures 0 <= FirstSector(c)
    {
      assert FirstSector(c) + sectorsPerCluster == FirstSector(c + 1);
      MulMonotone(c + 1 - CLUSTER_MIN_GOOD, fat.Length - CLUSTER_MIN_GOOD, sectorsPerCluster);
      MulMonotone(0, c - CLUSTER_MIN_GOOD, sectorsPerCluster);
    }

    /**
     * The clusters lie one behind the other from the beginning of the data area on.
     */
    lemma ClustersTile(c: nat)
      ensures FirstSector(CLUSTER_MIN_GOOD) == dataStart
      ensures FirstSector(c + 1) == FirstSector(c) + sectorsPerCluster
    {}

    // The cluster that sector s of the data area lies in.
    function ClusterOf(s: nat): (c: nat)
      requires 0 < sectorsPerCluster && dataStart <= s
      ensures c >= 2
    {
      2 + (s - dataStart) / sectorsPerCluster
    }

    /**
     * A sector lies in exactly one cluster if it is one of the data area, which the clusters of the table
     * fill, and in none otherwise.
     */
    lemma SectorInOneCluster(s: nat, c: nat)
      requires Mounted()
      ensures CLUSTER_MIN_GOOD <= c ==> (InCluster(s, c) <==> dataStart <= s && c == ClusterOf(s))
      ensures dataStart <= s ==>
                (CLUSTER_MIN_GOOD <= ClusterOf(s) < fat.Length <==> s < dataStart + (fat.Length - 2) * sectorsPerCluster)
    {
      if CLUSTER_MIN_GOOD <= c {
        var q := c - CLUSTER_MIN_GOOD;
        MulMonotone(0, q, sectorsPerCluster);
        if dataStart <= s {
          InBlock(s - dataStart, q, sectorsPerCluster);
        }
      }
      if dataStart <= s {
        BelowBlock(s - dataStart, fat.Length - 2, sectorsPerCluster);
      }
    }

    // Where x lies among blocks of n.
    static lemma InBlock(x: nat, q: nat, n: nat)
      requires n > 0
      ensures q * n <= x < q * n + n <==> q == x / n
    {
      BelowBlock(x, q, n);
      BelowBlock(x, q + 1, n);
      assert (q + 1) * n == q * n + n;
    }

    static lemma BelowBlock(x: nat, q: nat, n: nat)
      requires n > 0
      ensures x < q * n <==> x / n < q
    {
      var k, r := x / n, x % n;
      assert x == k * n + r;
      if k < q {
        MulMonotone(k + 1, q, n);
        assert (k + 1) * n == k * n + n;
      } else {
        MulMonotone(q, k, n);
      }
    }

    static lemma MulMonotone(x: int, y: int, n: nat)
      requires x <= y
      ensures x * n <= y * n
    {
      assert y * n - x * n == (y - x) * n;
    }

    // The file allocation table as a value.
    ghost function Fat(): (f: Fat)
      requires Mounted()
      reads fat
    {
      fat[..]
    }

    // FREE_COUNT is unknown or right.
    ghost predicate CountOk()
      requires Mounted()
      reads this`freeCount, fat
    {
      freeCount == FSI_UNKNOWN || freeCount == |FreeCells(Fat())|
    }

    // MFS_get_cluster_from_fat
    method GetCluster(c: nat) returns (error: Error, value: nat)
      requires Mounted()
      ensures Good(Fat(), c) ==> error == NoError && value == Fat()[c]
      ensures !Good(Fat(), c) ==> error == InvalidClusterNumber && value == CLUSTER_EOF
    {
      error, value := NoError, CLUSTER_EOF;
      if c > LastCluster() {
        error := InvalidClusterNumber;
      } else if c < CLUSTER_MIN_GOOD {
        error := InvalidClusterNumber;
      } else {
        value := fat[c];
      }
    }

    // MFS_Increment_free_clusters and MFS_Decrement_free_clusters
    method IncrementFree()
      modifies this`freeCount
      ensures freeCount == if readOnly || old(freeCount) == FSI_UNKNOWN then old(freeCount) else old(freeCount) + 1
    {
      if readOnly {
        return;
      }
      if freeCount != FSI_UNKNOWN {
        freeCount := freeCount + 1;
      }
    }

    method DecrementFree()
      requires !readOnly && freeCount != FSI_UNKNOWN ==> freeCount > 0
      modifies this`freeCount
      ensures freeCount == if readOnly || old(freeCount) == FSI_UNKNOWN then old(freeCount) else old(freeCount) - 1
    {
      if readOnly {
        return;
      }
      if freeCount != FSI_UNKNOWN {
        freeCount := freeCount - 1;
      }
    }

    /**
     * MFS_Put_fat: writes one cell, and moves the free count with every change between used and
     * unused, so that a right count stays right.
     */
    method PutFat(c: nat, code: nat) returns (error: Error)
      requires Mounted() && CountOk()
      modifies fat, this`freeCount
      ensures CountOk()
      ensures error == if readOnly then WriteProtected else if Good(old(Fat()), c) then NoError else InvalidClusterNumber
      ensures Fat() == if error == NoError then old(Fat())[c := code] else old(Fat())
    {
      if readOnly {
        return WriteProtected;
      }
      error := NoError;
      if c > LastCluster() {
        error := InvalidClusterNumber;
      } else if c < CLUSTER_MIN_GOOD {
        error := InvalidClusterNumber;
      } else {
        var previous := fat[c];
        FreeAfterPut(Fat(), c, code);
        FreeBound(Fat());
        FreeBound(Fat()[c := code]);
        fat[c] := code;
        assert Fat() == old(Fat())[c := code];
        if code == CLUSTER_UNUSED && previous != CLUSTER_UNUSED {
          IncrementFree();
        } else if code != CLUSTER_UNUSED && previous == CLUSTER_UNUSED {
          assert c in FreeCells(old(Fat()));
          DecrementFree();
        }
      }
    }
  }
}
