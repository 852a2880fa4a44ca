/**
 * The one-sector write-back data cache of a drive (mfs/source/generic/mfs_data_sector.c) over its
 * device, and its refinement of a disk without a cache.
 */
module DataSector {
  import opened MfsTypes

  type Sector = seq<bv8>

  // The device as the cache sees it: sectors are written and read whole.
  class DataCache {
    const sectorSize: nat
    const readOnly: bool
    var disk: seq<Sector>
    var number: nat        // DATA_SECTOR_NUMBER
    var dirty: bool        // DATA_SECTOR_DIRTY
    const buffer: array<bv8>   // DATA_SECTOR_PTR

    constructor (contents: seq<Sector>, sectorSize: nat, readOnly: bool)
      requires |contents| <= MAX_UINT_32 && forall s :: 0 <= s < |contents| ==> |contents[s]| == sectorSize
      ensures Valid() && fresh(buffer) && Coherent()
      ensures disk == contents && Simple() == contents && number == MAX_UINT_32 && this.readOnly == readOnly
              && this.sectorSize == sectorSize
    {
      this.sectorSize, this.readOnly := sectorSize, readOnly;
      disk, number, dirty := contents, MAX_UINT_32, false;
      buffer := new bv8[sectorSize];
    }

    ghost predicate Valid()
      reads this, buffer
    {
      && buffer.Length == sectorSize
      && |disk| <= MAX_UINT_32
      && (forall s :: 0 <= s < |disk| ==> |disk[s]| == sectorSize)
      && (number < |disk| || number == MAX_UINT_32)
      && (dirty ==> number < |disk|)
    }

    // The disk that a reader through the cache sees.
    ghost function Simple(): (d: seq<Sector>)
      requires Valid()
      reads this, buffer
      ensures |d| == |disk|
    {
      if dirty then disk[number := buffer[..]] else disk
    }

    // A clean valid buffer holds the bytes on the device.
    ghost predicate Coherent()
      requires Valid()
      reads this, buffer
    {
      number < |disk| && !dirty ==> buffer[..] == disk[number]
    }

    // MFS_Flush_data_sector_buffer; deviceOk is whether the device takes the write.
    method Flush(deviceOk: bool) returns (error: Error)
      requires Valid()
      modifies this`disk, this`dirty
      ensures Valid() && number == old(number)
      ensures dirty == (old(dirty) && (readOnly || !deviceOk))
      ensures error == if old(dirty) && !readOnly && !deviceOk then WriteFault else NoError
      ensures disk == if old(dirty) && !readOnly && deviceOk then old(Simple()) else old(disk)
      ensures Simple() == old(Simple()) && (old(Coherent()) ==> Coherent())
    {
      error := NoError;
      if readOnly {
        return;
      }
      if dirty {
        if deviceOk {
          disk := disk[number := buffer[..]];
        } else {
          error := WriteFault;
        }
        if error == NoError {
          dirty := false;
        }
      }
    }

    // MFS_Invalidate_data_sector.
    method Invalidate() returns (error: Error)
      requires Valid()
      modifies this`number, this`dirty
      ensures Valid() && error == NoError
      ensures !readOnly ==> number == MAX_UINT_32 && !dirty
      ensures readOnly ==> number == old(number) && dirty == old(dirty)
    {
      if !readOnly {
        number := MAX_UINT_32;
        dirty := false;
      }
      error := NoError;
    }

    /**
     * MFS_Read_data_sector. The flush result is dropped (mfs_data_sector.c:133), so bytes waiting
     * in the buffer survive a move to another sector exactly when the drive is writable and the
     * device takes the write, or when writing them would have changed nothing.
     */
    method ReadSector(s: nat, hwRead: bool, writeOk: bool, readOk: bool) returns (error: Error)
      requires Valid() && s < |disk|
      modifies this, buffer
      ensures Valid()
      ensures error == if s != old(number) && hwRead && !readOk then ReadFault else NoError
      ensures error == NoError ==> number == s
      ensures s == old(number) ==> Same(old(disk), s, old(dirty)) && buffer[..] == old(buffer[..])
      ensures s != old(number) && hwRead && readOk ==> buffer[..] == disk[s]
      ensures s != old(number) && !hwRead ==> buffer[..] == old(buffer[..])
      ensures s != old(number) && !(readOnly && old(dirty)) ==> !dirty
      ensures disk == if s != old(number) && old(dirty) && !readOnly && writeOk then old(Simple()) else old(disk)
      ensures s != old(number) ==>
                (disk == old(Simple()) <==> !old(dirty) || (writeOk && !readOnly) || old(Simple()) == old(disk))
    {
      error := NoError;
      if s != number {
        var _ := Flush(writeOk);
        var _ := Invalidate();
        if hwRead {
          if readOk {
            var sector := disk[s];
            forall i | 0 <= i < buffer.Length {
              buffer[i] := sector[i];
            }
          } else {
            error := ReadFault;
          }
        } else {
          error := NoError;
        }
        if error == NoError {
          number := s;
        }
      }
    }

    ghost predicate Same(disk0: seq<Sector>, number0: nat, dirty0: bool)
      reads this
    {
      disk == disk0 && number == number0 && dirty == dirty0
    }

    /**
     * The write step of MFS_Write: bring the sector in (or claim the buffer for it), copy bytes into
     * the buffer, mark it dirty, and flush it at once under the write-through policy. Without the
     * device read, the bytes around the copy are whatever the buffer held before.
     */
    method Store(s: nat, at: nat, bytes: seq<bv8>, hwRead: bool, writeThrough: bool)
      requires Valid() && Coherent() && s < |disk| && at + |bytes| <= sectorSize && !readOnly
      modifies this, buffer
      ensures Valid() && Coherent() && number == s
      ensures var base := if hwRead || s == old(number) then old(Simple())[s] else old(buffer[..]);
              Simple() == old(Simple())[s := Splice(base, at, bytes)] && buffer[..] == Splice(base, at, bytes)
      ensures dirty == !writeThrough
      ensures disk == if writeThrough then Simple() else if s == old(number) then old(disk) else old(Simple())
    {
      var _ := ReadSector(s, hwRead, true, true);
      ghost var base := buffer[..];
      assert base == if hwRead || s == old(number) then old(Simple())[s] else old(buffer[..]);
      forall i | at <= i < at + |bytes| {
        buffer[i] := bytes[i - at];
      }
      dirty := true;
      assert buffer[..] == Splice(base, at, bytes);
      if writeThrough {
        var _ := Flush(true);
      }
    }

    /**
     * The loops of MFS_Read and MFS_Write over whole sectors go to the device past the buffer. Such a read
     * returns what a disk without a cache holds exactly if the sector is not the buffered one waiting to be
     * written, or does not differ from it.
     */
    method DirectRead(s: nat) returns (data: Sector)
      requires Valid() && s < |disk|
      ensures data == disk[s]
      ensures data == Simple()[s] <==> !dirty || s != number || disk[s] == buffer[..]
    {
      data := disk[s];
    }

    /**
     * Such a write is that write on the disk without a cache exactly if the sector is not the buffered one,
     * or the buffer holds the same bytes: a dirty buffer covers the new bytes up, and a clean one is out of date.
     */
    method DirectWrite(s: nat, data: Sector)
      requires Valid() && Coherent() && s < |disk| && |data| == sectorSize
      modifies this`disk
      ensures Valid() && disk == old(disk)[s := data]
      ensures Coherent() && Simple() == old(Simple())[s := data] <==> s != number || buffer[..] == data
    {
      assert !dirty && s == number ==> disk[s := data][s] == data;
      disk := disk[s := data];
      assert dirty && s == number ==> Simple()[s] == buffer[..];
    }
  }

  ghost function Splice(base: Sector, at: nat, bytes: seq<bv8>): (r: Sector)
    requires at + |bytes| <= |base|
    ensures |r| == |base|
  {
    base[..at] + bytes + base[at + |bytes|..]
  }

  // ---- any run of accesses on a writable drive whose device does not fail ----

  datatype Access =
    | Load(s: nat)
    | Write(s: nat, at: nat, bytes: seq<bv8>, hwRead: bool, writeThrough: bool)
    | Flush
    | DirectLoad(s: nat)
    | DirectStore(s: nat, data: Sector)

  // The disk without a cache, and what the accesses before have left: the bytes of the sector that went
  // through the buffer last, and whether they have not been written yet.
  datatype Plain = Plain(disk: seq<Sector>, scratch: Sector, number: nat, waiting: bool)

  predicate Fits(a: Access, sectors: nat, size: nat) {
    match a
    case Load(s) => s < sectors
    case Write(s, at, bytes, _, _) => s < sectors && at + |bytes| <= size
    case Flush => true
    case DirectLoad(s) => s < sectors
    case DirectStore(s, data) => s < sectors && |data| == size
  }

  predicate AllFit(accesses: seq<Access>, sectors: nat, size: nat) {
    forall i :: 0 <= i < |accesses| ==> Fits(accesses[i], sectors, size)
  }

  ghost predicate Formatted(p: Plain, size: nat) {
    |p.scratch| == size && forall s :: 0 <= s < |p.disk| ==> |p.disk[s]| == size
  }

  // A direct access meets the buffered sector: a read while it waits, or a write.
  predicate Meets(p: Plain, a: Access) {
    (a.DirectLoad? && p.waiting && a.s == p.number) || (a.DirectStore? && a.s == p.number)
  }

  // ... which is what the two direct accesses ask about.
  lemma MeetsBuffered(c: DataCache, a: Access)
    requires c.Valid()
    ensures match a
            case DirectLoad(s) => Meets(AsPlain(c), a) <==> c.dirty && s == c.number
            case DirectStore(s, _) => Meets(AsPlain(c), a) <==> s == c.number
            case _ => !Meets(AsPlain(c), a)
  {}

  // One access on the disk without a cache.
  ghost function Apply(p: Plain, a: Access, size: nat): (q: Plain)
    requires Formatted(p, size) && Fits(a, |p.disk|, size)
    ensures |q.disk| == |p.disk| && Formatted(q, size)
  {
    match a
    case Load(s) => if s == p.number then p else Plain(p.disk, p.disk[s], s, false)
    case Write(s, at, bytes, hwRead, writeThrough) =>
      var sector := Splice(if hwRead || s == p.number then p.disk[s] else p.scratch, at, bytes);
      Plain(p.disk[s := sector], sector, s, !writeThrough)
    case Flush => p.(waiting := false)
    case DirectLoad(s) => p
    case DirectStore(s, data) => p.(disk := p.disk[s := data])
  }

  // ... after the first n accesses.
  ghost function Uncached(p: Plain, accesses: seq<Access>, n: nat, size: nat): (q: Plain)
    requires Formatted(p, size) && AllFit(accesses, |p.disk|, size) && n <= |accesses|
    ensures |q.disk| == |p.disk| && Formatted(q, size)
  {
    if n == 0 then p
    else Apply(Uncached(p, accesses, n - 1, size), accesses[n - 1], size)
  }

  // No direct access meets the buffered sector.
  ghost predicate NoneMeets(p: Plain, accesses: seq<Access>, size: nat)
    requires Formatted(p, size) && AllFit(accesses, |p.disk|, size)
  {
    forall i :: 0 <= i < |accesses| ==> !Meets(Uncached(p, accesses, i, size), accesses[i])
  }

  // Every byte that is written reads back, no other sector changes, and the other bytes of the sector are
  // kept exactly if it was read, was the buffered one, or agrees with that one.
  lemma WriteReadsBack(p: Plain, s: nat, at: nat, bytes: seq<bv8>, hwRead: bool, writeThrough: bool, size: nat, k: nat)
    requires Formatted(p, size) && s < |p.disk| && at + |bytes| <= size && k < size
    ensures var q := Apply(p, Write(s, at, bytes, hwRead, writeThrough), size);
            && (at <= k < at + |bytes| ==> q.disk[s][k] == bytes[k - at])
            && (!(at <= k < at + |bytes|) ==>
                 (q.disk[s][k] == p.disk[s][k] <==> hwRead || s == p.number || p.scratch[k] == p.disk[s][k]))
            && forall other :: 0 <= other < |p.disk| && other != s ==> q.disk[other] == p.disk[other]
  {}

  /**
   * The last write of MFS_Write reads its sector only if the file goes on behind the written bytes. start
   * is the place in the file where the sector begins. No byte of the file but the written ones changes.
   */
  lemma TailKeepsFile(p: Plain, s: nat, bytes: seq<bv8>, start: nat, fileSize: nat, writeThrough: bool, size: nat, k: nat)
    requires Formatted(p, size) && s < |p.disk| && |bytes| <= size && |bytes| <= k < size && start + k < fileSize
    ensures Apply(p, Write(s, 0, bytes, start + |bytes| < fileSize, writeThrough), size).disk[s][k] == p.disk[s][k]
  {
    WriteReadsBack(p, s, 0, bytes, start + |bytes| < fileSize, writeThrough, size, k);
  }

  // A load as access i returns what the uncached disk then holds.
  ghost predicate LoadRight(load: Sector, p: Plain, accesses: seq<Access>, i: nat, size: nat)
    requires Formatted(p, size) && AllFit(accesses, |p.disk|, size) && i < |accesses|
  {
    accesses[i].Load? || accesses[i].DirectLoad? ==> load == Uncached(p, accesses, i, size).disk[accesses[i].s]
  }

  // A cache as a disk without one.
  ghost function AsPlain(c: DataCache): Plain
    requires c.Valid()
    reads c, c.buffer
  {
    Plain(c.Simple(), c.buffer[..], c.number, c.dirty)
  }

  method Perform(c: DataCache, a: Access) returns (load: Sector)
    requires c.Valid() && c.Coherent() && !c.readOnly && Fits(a, |c.disk|, c.sectorSize) && !Meets(AsPlain(c), a)
    modifies c, c.buffer
    ensures c.Valid() && c.Coherent() && |c.disk| == old(|c.disk|)
    ensures AsPlain(c) == Apply(old(AsPlain(c)), a, c.sectorSize)
    ensures a.Load? || a.DirectLoad? ==> load == old(c.Simple())[a.s]
  {
    load := [];
    match a {
      case Load(s) =>
        var _ := c.ReadSector(s, true, true, true);
        load := c.buffer[..];
      case Write(s, at, bytes, hwRead, writeThrough) =>
        c.Store(s, at, bytes, hwRead, writeThrough);
      case Flush =>
        var _ := c.Flush(true);
      case DirectLoad(s) =>
        load := c.DirectRead(s);
      case DirectStore(s, data) =>
        c.DirectWrite(s, data);
    }
  }

  // What the first n accesses of a run have loaded.
  ghost predicate AllRight(loads: seq<Sector>, p: Plain, accesses: seq<Access>, n: nat, size: nat)
    requires Formatted(p, size) && AllFit(accesses, |p.disk|, size)
  {
    |loads| == n <= |accesses| && forall i :: 0 <= i < n ==> LoadRight(loads[i], p, accesses, i, size)
  }

  lemma NextAccess(p: Plain, q: Plain, accesses: seq<Access>, i: nat, size: nat)
    requires Formatted(p, size) && AllFit(accesses, |p.disk|, size) && NoneMeets(p, accesses, size) && i < |accesses|
    requires q == Uncached(p, accesses, i, size)
    ensures !Meets(q, accesses[i]) && Fits(accesses[i], |p.disk|, size)
  {}

  lemma NextRight(loads: seq<Sector>, load: Sector, p: Plain, q: Plain, accesses: seq<Access>, i: nat, size: nat)
    requires Formatted(p, size) && AllFit(accesses, |p.disk|, size) && i < |accesses| && AllRight(loads, p, accesses, i, size)
    requires q == Uncached(p, accesses, i, size)
              && (accesses[i].Load? || accesses[i].DirectLoad? ==> load == q.disk[accesses[i].s])
    ensures AllRight(loads + [load], p, accesses, i + 1, size)
    ensures Uncached(p, accesses, i + 1, size) == Apply(q, accesses[i], size)
  {}

  /**
   * Every load in a run returns the bytes that an uncached disk would hold at that point, and the device
   * overlaid with the dirty sector is the uncached disk throughout, as long as no direct access meets the
   * buffered sector.
   */
  method Run(c: DataCache, accesses: seq<Access>) returns (loads: seq<Sector>)
    requires c.Valid() && c.Coherent() && !c.readOnly && AllFit(accesses, |c.disk|, c.sectorSize)
    requires NoneMeets(AsPlain(c), accesses, c.sectorSize)
    modifies c, c.buffer
    ensures c.Valid() && c.Coherent()
    ensures AsPlain(c) == Uncached(old(AsPlain(c)), accesses, |accesses|, c.sectorSize)
    ensures AllRight(loads, old(AsPlain(c)), accesses, |accesses|, c.sectorSize)
  {
    loads := [];
    ghost var plain0, size := AsPlain(c), c.sectorSize;
    assert Uncached(plain0, accesses, 0, size) == plain0 && AllRight(loads, plain0, accesses, 0, size);
    hide Uncached, AllRight, NoneMeets, Meets, Apply;
    for i := 0 to |accesses|
      invariant c.Valid() && c.Coherent() && |c.disk| == |plain0.disk|
      invariant AsPlain(c) == Uncached(plain0, accesses, i, size)
      invariant AllRight(loads, plain0, accesses, i, size)
    {
      ghost var plain := AsPlain(c);
      NextAccess(plain0, plain, accesses, i, size);
      var load := Perform(c, accesses[i]);
      NextRight(loads, load, plain0, plain, accesses, i, size);
      loads := loads + [load];
    }
  }

  // After a final flush the device itself is the uncached disk.
  method RunAndFlush(c: DataCache, accesses: seq<Access>)
    requires c.Valid() && c.Coherent() && !c.readOnly && AllFit(accesses, |c.disk|, c.sectorSize)
    requires NoneMeets(AsPlain(c), accesses, c.sectorSize)
    modifies c, c.buffer
    ensures c.Valid() && c.disk == Uncached(old(AsPlain(c)), accesses, |accesses|, c.sectorSize).disk
  {
    var _ := Run(c, accesses);
    var _ := c.Flush(true);
  }
}
