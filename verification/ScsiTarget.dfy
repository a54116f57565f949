/** src/scsi.c: one target with its sector buffer, updated in place. */
module ScsiTarget {
  import opened Burst
  import opened ScsiDisk

  class Target {
    const image: array<bv8>
    const data: array<bv8>
    const blocksize: nat
    const readonly: bool
    var lba: nat
    var blockcounter: nat
    var lastlba: nat
    var size: nat
    var limit: nat
    var disk: bool
    var phase: Phase
    var sense: Sense
    /** The state of the model this object is in. */
    ghost var s: Scsi

    ghost predicate Valid()
      reads this, image, data
    {
      image != data && Mounted(s) && image[..] == s.image && data[..] == s.data && Registers()
    }

    ghost predicate Registers()
      reads this
    {
      blocksize == s.blocksize && readonly == s.readonly && lba == s.lba && blockcounter == s.count &&
      lastlba == s.lastlba && size == s.size && limit == s.limit &&
        disk == s.disk && phase == s.phase && sense == s.sense
    }

    /** scsi_read_sector */
    method ReadNext()
      requires Valid()
      modifies this, data
      ensures Valid() && s == ReadBlock(old(s))
    {
      hide Mounted, Off, Store;
      MountedMeans(s);
      OffRoom(lba, blocksize, image.Length);
      s := ReadBlock(s);
      if blockcounter == 0 {
        phase := STATUS;
        return;
      }
      var offset := Off(lba, blocksize);
      if offset < image.Length {
        ImageRead(offset);
        size, limit := blocksize, blocksize;
        lba := (lba + 1) % U32;
        blockcounter := blockcounter - 1;
      } else {
        sense := INVALID_LBA(lba);
        phase := STATUS;
      }
    }

    /** File_Read into the sector buffer. */
    method ImageRead(offset: nat)
      requires image != data && offset + blocksize <= image.Length && blocksize <= data.Length
      modifies data
      ensures data[..] == Store(old(data[..]), 0, image[offset..offset + blocksize])
    {
      forall k | 0 <= k < blocksize {
        data[k] := image[offset + k];
      }
    }

    /** SCSI_ReadSector */
    method Read(cdb: seq<bv8>)
      requires Valid() && |cdb| >= 10
      modifies this, data
      ensures Valid() && s == ReadSector(old(s), cdb)
    {
      hide Off, GetOffset, GetCount, ReadBlock;
      lastlba := lba;
      lba := GetOffset(cdb);
      blockcounter := GetCount(cdb);
      size, limit, disk, sense := 0, 0, true, NO_SENSE;
      phase := if blockcounter != 0 then DATA_IN else STATUS;
      s := s.(lastlba := lastlba, lba := lba, count := blockcounter, size := 0,
        limit := 0, disk := true, sense := NO_SENSE,
              phase := phase);
      ReadNext();
    }

    /** SCSIdisk_Send_Data */
    method Send() returns (val: bv8)
      requires Valid() && 0 < size <= limit
      modifies this, data
      ensures Valid() && (val, s) == SendData(old(s))
    {
      hide Off, ReadBlock;
      val := data[limit - size];
      size := size - 1;
      s := s.(size := size);
      if size == 0 {
        if disk {
          ReadNext();
        } else {
          phase := STATUS;
          s := s.(phase := STATUS);
        }
      }
    }

    /** scsi_write_sector, with the image writable. */
    method WriteNext()
      requires Valid()
      modifies this, image
      ensures Valid() && s == WriteBlock(old(s))
    {
      hide Mounted, Off, Store;
      MountedMeans(s);
      OffRoom(lba, blocksize, image.Length);
      s := WriteBlock(s);
      var offset := Off(lba, blocksize);
      if offset < image.Length {
        ImageWrite(offset);
        size, limit := 0, blocksize;
        lba := (lba + 1) % U32;
        phase := if blockcounter == 1 then STATUS else phase;
        blockcounter := if blockcounter > 0 then blockcounter - 1 else U32 - 1;
      } else {
        sense := INVALID_LBA(lba);
        phase := STATUS;
      }
    }

    /** File_Write of the sector buffer. */
    method ImageWrite(offset: nat)
      requires image != data && offset + blocksize <= image.Length && blocksize <= data.Length
      modifies image
      ensures image[..] == Store(old(image[..]), offset, data[..blocksize])
    {
      forall k | 0 <= k < blocksize {
        image[offset + k] := data[k];
      }
    }

    /** SCSI_WriteSector */
    method Write(cdb: seq<bv8>)
      requires Valid() && |cdb| >= 10
      modifies this
      ensures Valid() && s == WriteSector(old(s), cdb)
    {
      hide Off, GetOffset, GetCount;
      ghost var r := WriteSector(s, cdb);
      lastlba := lba;
      lba := GetOffset(cdb);
      blockcounter := GetCount(cdb);
      if readonly {
        sense, phase := WRITE_PROTECT, STATUS;
      } else {
        size, limit, disk, sense := 0, blocksize, true, NO_SENSE;
        phase := if blockcounter != 0 then DATA_OUT else STATUS;
      }
      s := r;
    }

    /** SCSIdisk_Receive_Data */
    method Receive(val: bv8)
      requires Valid() && size < data.Length
      modifies this, data, image
      ensures Valid() && s == ReceiveData(old(s), val)
    {
      hide Off, WriteBlock;
      data[size] := val;
      size := size + 1;
      s := s.(data := s.data[size - 1 := val], size := size);
      if size == limit {
        if disk {
          WriteNext();
        } else {
          phase := STATUS;
          s := s.(phase := STATUS);
        }
      }
    }
  }

  lemma MountedMeans(s: Scsi)
    requires Mounted(s)
    ensures s.blocksize > 0 && |s.image| % s.blocksize == 0 && |s.data| >= s.blocksize && s.limit <= |s.data|
  {
  }
}
