/**
 * Constants of mfs/source/include/mfs_prv.h and mfs.h, error codes, and the 32-byte directory slot.
 */
module MfsTypes {

  const CLUSTER_UNUSED: nat := 0
  const CLUSTER_INVALID: nat := 1
  const CLUSTER_MIN_GOOD: nat := 2
  const CLUSTER_MAX_GOOD: nat := 0xFFFFFEF
  const CLUSTER_EOF: nat := 0xFFFFFFF
  const FSI_UNKNOWN: nat := 0xFFFF_FFFF
  const MAX_UINT_32: nat := 0xFFFF_FFFF

  datatype Error =
    | NoError
    | InvalidParameter
    | FileNotFound
    | PathNotFound
    | AccessDenied
    | InvalidHandle
    | InsufficientMemory
    | WriteProtected
    | WriteFault
    | ReadFault
    | SharingViolation
    | FileExists
    | DiskFull
    | RootDirFull
    | LostChain
    | InvalidClusterNumber
    | FailedToDeleteLfn
    | CannotCreateDirectory
    | AlreadyAssigned
    | AttemptToRemoveCurrentDir

  datatype Option<+T> = None | Some(value: T)

  const ATTR_READ_ONLY: bv8 := 0x01
  const ATTR_VOLUME_NAME: bv8 := 0x08
  const ATTR_DIR_NAME: bv8 := 0x10
  const ATTR_ARCHIVE: bv8 := 0x20

  const LFN_END: nat := 0x40
  const DOT: nat := 46
  const CHARS_PER_PIECE: nat := 13

  // Where a slot lies: a directory cluster (0 is the fixed root) and the index inside it.
  datatype Pos = Pos(cluster: nat, index: nat)

  // A directory slot, told apart by its first name byte and its attribute byte.
  datatype Slot =
    | NeverUsed
    | Deleted
    | Piece(id: nat, checksum: nat, units: seq<nat>)
    | Entry(name: seq<nat>, attr: bv8, first: nat, size: nat)
  {
    predicate Free() {
      NeverUsed? || Deleted?
    }

    // "." and "..", which name a directory's own and its parent's first cluster.
    predicate Dot() {
      Entry? && attr & ATTR_DIR_NAME != 0 && |name| > 0 && name[0] == DOT
    }
  }

  // What a cell can hold besides a cluster number lies outside the range of those.
  lemma CodesApart()
    ensures CLUSTER_UNUSED < CLUSTER_INVALID < CLUSTER_MIN_GOOD == 2
    ensures CLUSTER_MAX_GOOD + 0x10 == CLUSTER_EOF == 0x1000_0000 - 1
    ensures FSI_UNKNOWN == MAX_UINT_32 == 0x1_0000_0000 - 1
  {}

  /**
   * The attribute byte: bit 0 is the read-only bit, bit 3 marks a volume label, bit 4 a directory and
   * bit 5 is the archive bit.
   */
  lemma AttributeBits(attr: bv8)
    ensures attr & ATTR_READ_ONLY != 0 <==> attr & 1 == 1
    ensures attr & ATTR_VOLUME_NAME != 0 <==> (attr >> 3) & 1 == 1
    ensures attr & ATTR_DIR_NAME != 0 <==> (attr >> 4) & 1 == 1
    ensures attr & ATTR_ARCHIVE != 0 <==> (attr >> 5) & 1 == 1
  {}
}
