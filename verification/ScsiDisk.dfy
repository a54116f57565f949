/** The sector buffer of src/scsi.c on values: READ and WRITE turn blocks into a stream of bytes and back. */
module ScsiDisk {
  import opened Burst

  const U32 := 0x1_0000_0000

  datatype Phase = DATA_OUT | DATA_IN | COMMAND | STATUS | MSG_OUT | MSG_IN

  /** Sense data; anything but NO_SENSE comes with the check condition status. */
  datatype Sense = NO_SENSE | INVALID_LBA(info: nat) | WRITE_PROTECT

  /** One target, the sector buffer (data, size, limit, disk) and the bus phase. */
  datatype Scsi = Scsi(image: seq<bv8>, blocksize: nat, readonly: bool, lba: nat, count: nat, lastlba: nat,
                       data: seq<bv8>, size: nat, limit: nat, disk: bool, phase: Phase, sense: Sense)

  /** The image is made of whole blocks, fewer than 2^32; a block fits the buffer. */
  predicate Mounted(s: Scsi) {
    s.blocksize > 0 && |s.image| % s.blocksize == 0 && |s.image| / s.blocksize < U32 && |s.data| >= s.blocksize &&
    s.lba < U32 && s.limit <= |s.data|
  }

  function Off(lba: nat, bs: nat): nat {
    lba * bs
  }

  lemma OffNext(lba: nat, bs: nat)
    ensures Off(lba + 1, bs) == Off(lba, bs) + bs && Off(0, bs) == 0
  {
  }

  /** A block that starts inside the image lies inside it, and its number is below the number of blocks. */
  lemma OffRoom(lba: nat, bs: nat, n: nat)
    requires bs > 0 && n % bs == 0
    ensures Off(lba, bs) < n <==> lba < n / bs
    ensures Off(lba, bs) < n ==> Off(lba, bs) + bs <= n
    ensures Off(n / bs, bs) == n
  {
    var q := n / bs;
    assert n == bs * q + n % bs;
    if lba < q {
      OffMonotone(lba + 1, q, bs);
      OffNext(lba, bs);
    } else {
      OffMonotone(q, lba, bs);
    }
  }

  lemma OffMonotone(a: nat, b: nat, bs: nat)
    requires a <= b
    ensures Off(a, bs) <= Off(b, bs)
  {
  }

  // ---------------------------------------------------------- commands

  function Int16(cdb: seq<bv8>, i: nat): nat
    requires i + 2 <= |cdb|
  {
    (cdb[i] as nat) * 0x100 + (cdb[i + 1] as nat)
  }

  /** SCSI_GetOffset */
  function GetOffset(cdb: seq<bv8>): (r: nat)
    requires |cdb| >= 10
    ensures r < U32
  {
    if cdb[0] < 0x20 then ((cdb[1] as nat) * 0x1_0000 + Int16(cdb, 2)) % 0x20_0000
    else Int16(cdb, 2) * 0x1_0000 + Int16(cdb, 4)
  }

  /** SCSI_GetCount: in a six byte command 0 stands for 256. */
  function GetCount(cdb: seq<bv8>): nat
    requires |cdb| >= 10
  {
    if cdb[0] < 0x20 then if cdb[4] == 0 then 0x100 else cdb[4] as nat
    else Int16(cdb, 7)
  }

  // ---------------------------------------------------------- reading

  /** scsi_read_sector */
  function ReadBlock(s: Scsi): (r: Scsi)
    requires Mounted(s)
    ensures Mounted(r)
  {
    var a := Off(s.lba, s.blocksize);
    OffRoom(s.lba, s.blocksize, |s.image|);
    if s.count == 0 then s.(phase := STATUS)
    else if a < |s.image| then
      s.(data := Store(s.data, 0, s.image[a..a + s.blocksize]), size := s.blocksize, limit := s.blocksize,
         lba := (s.lba + 1) % U32, count := s.count - 1)
    else s.(sense := INVALID_LBA(s.lba), phase := STATUS)
  }

  /** SCSI_ReadSector */
  function ReadSector(s: Scsi, cdb: seq<bv8>): (r: Scsi)
    requires Mounted(s) && |cdb| >= 10
    ensures Mounted(r)
  {
    var n := GetCount(cdb);
    ReadBlock(s.(lastlba := s.lba, lba := GetOffset(cdb), count := n, size := 0,
      limit := 0, disk := true, sense := NO_SENSE,
                 phase := if n != 0 then DATA_IN else STATUS))
  }

  /** SCSIdisk_Send_Data: the next byte, and the next block when the buffer is empty. */
  function SendData(s: Scsi): (r: (bv8, Scsi))
    requires Mounted(s) && 0 < s.size <= s.limit
    ensures Mounted(r.1)
  {
    var t := s.(size := s.size - 1);
    (s.data[s.limit - s.size], if t.size > 0 then t else if s.disk then ReadBlock(t) else t.(phase := STATUS))
  }

  /** count blocks from lba on, as far as the image goes. */
  function Blocks(image: seq<bv8>, bs: nat, lba: nat, count: nat): seq<bv8>
    requires bs > 0 && |image| % bs == 0
    decreases count
  {
    OffRoom(lba, bs, |image|);
    if count == 0 || Off(lba, bs) >= |image| then []
    else image[Off(lba, bs)..Off(lba, bs) + bs] + Blocks(image, bs, lba + 1, count - 1)
  }

  lemma {:induction false} BlocksAre(image: seq<bv8>, bs: nat, lba: nat, count: nat)
    requires bs > 0 && |image| % bs == 0 && Off(lba + count, bs) <= |image|
    ensures Off(lba, bs) <= Off(lba + count, bs)
    ensures Blocks(image, bs, lba, count) == image[Off(lba, bs)..Off(lba + count, bs)]
    decreases count
  {
    hide Off;
    OffMonotone(lba, lba + count, bs);
    if count > 0 {
      OffNext(lba, bs);
      OffMonotone(lba + 1, lba + count, bs);
      OffRoom(lba, bs, |image|);
      BlocksAre(image, bs, lba + 1, count - 1);
    }
  }

  /** In the data in phase of a READ there is a byte to send. */
  predicate Sending(s: Scsi) {
    Mounted(s) && s.disk && (s.phase == DATA_IN ==> 0 < s.size <= s.limit)
  }

  /** Every byte the target will still send. */
  function Stream(s: Scsi): seq<bv8>
    requires Sending(s)
  {
    if s.phase != DATA_IN then []
    else s.data[s.limit - s.size..s.limit] + Blocks(s.image, s.blocksize, s.lba, s.count)
  }

  /** How many blocks the image has. */
  function Size(s: Scsi): nat
    requires s.blocksize > 0
  {
    |s.image| / s.blocksize
  }

  /** What the sense data will be after count blocks from lba on. */
  function SenseAfter(sense: Sense, lba: nat, count: nat, blocks: nat): Sense {
    if count == 0 || lba + count <= blocks then sense
    else INVALID_LBA(if lba < blocks then blocks else lba)
  }

  /** The sense data when the stream has ended. */
  function Outcome(s: Scsi): Sense
    requires Sending(s)
  {
    if s.phase != DATA_IN then s.sense else SenseAfter(s.sense, s.lba, s.count, Size(s))
  }

  lemma BlockInside(s: Scsi)
    requires Mounted(s)
    ensures Off(s.lba, s.blocksize) < |s.image| <==> s.lba < Size(s)
    ensures s.lba < Size(s) ==> Off(s.lba, s.blocksize) + s.blocksize <= |s.image| && (s.lba + 1) % U32 == s.lba + 1
  {
    hide Off;
    OffRoom(s.lba, s.blocksize, |s.image|);
  }

  lemma BlocksStep(s: Scsi)
    requires Mounted(s)
    ensures s.count == 0 || s.lba >= Size(s) ==> Blocks(s.image, s.blocksize, s.lba, s.count) == []
    ensures s.count > 0 && s.lba < Size(s) ==>
      Off(s.lba, s.blocksize) + s.blocksize <= |s.image| &&
      Blocks(s.image, s.blocksize, s.lba, s.count) ==
        s.image[Off(s.lba, s.blocksize)..Off(s.lba, s.blocksize) + s.blocksize] +
        Blocks(s.image, s.blocksize, s.lba + 1, s.count - 1)
  {
    hide Off, Size;
    BlockInside(s);
  }

  lemma ReadBlockStream(s: Scsi)
    requires Mounted(s) && s.disk && s.phase == DATA_IN && s.size == 0
    ensures Sending(ReadBlock(s)) && Stream(ReadBlock(s)) == Blocks(s.image, s.blocksize, s.lba, s.count)
    ensures ReadBlock(s).phase == (if Stream(ReadBlock(s)) == [] then STATUS else DATA_IN)
    ensures Outcome(ReadBlock(s)) == SenseAfter(s.sense, s.lba, s.count, Size(s))
  {
    hide Off, Size, Blocks, Store;
    BlockInside(s);
    BlocksStep(s);
    SizeKept(s);
    var r := ReadBlock(s);
    if s.count > 0 && s.lba < Size(s) {
      var block := s.image[Off(s.lba, s.blocksize)..Off(s.lba, s.blocksize) + s.blocksize];
      StoredFirst(s.data, block);
      assert r.data[0..s.blocksize] == block;
    }
  }

  lemma StoredFirst(data: seq<bv8>, block: seq<bv8>)
    requires |block| <= |data|
    ensures Store(data, 0, block)[0..|block|] == block
  {
  }

  lemma SizeKept(s: Scsi)
    requires Mounted(s)
    ensures Size(ReadBlock(s)) == Size(s)
  {
  }

  /** READ: the stream is the blocks asked for, as far as the image goes. */
  lemma ReadSectorStream(s: Scsi, cdb: seq<bv8>)
    requires Mounted(s) && |cdb| >= 10
    ensures var r := ReadSector(s, cdb);
      Sending(r) && Stream(r) == Blocks(s.image, s.blocksize, GetOffset(cdb), GetCount(cdb)) && r.image == s.image &&
      r.phase == (if Stream(r) == [] then STATUS else DATA_IN) &&
      Outcome(r) == SenseAfter(NO_SENSE, GetOffset(cdb), GetCount(cdb), Size(s))
  {
    hide Off, GetOffset, GetCount, Outcome, Stream, Sending, ReadBlock;
    var n := GetCount(cdb);
    var t := s.(lastlba := s.lba, lba := GetOffset(cdb), count := n, size := 0,
      limit := 0, disk := true, sense := NO_SENSE,
                phase := if n != 0 then DATA_IN else STATUS);
    if n != 0 {
      ReadBlockStream(t);
    } else {
      ReadNothing(t);
    }
    ReadKeeps(t);
  }

  lemma ReadNothing(t: Scsi)
    requires Mounted(t) && t.disk && t.count == 0 && t.phase == STATUS
    ensures Sending(ReadBlock(t)) && Stream(ReadBlock(t)) == [] && ReadBlock(t).phase == STATUS
    ensures Outcome(ReadBlock(t)) == t.sense && Blocks(t.image, t.blocksize, t.lba, 0) == []
  {
  }

  lemma ReadKeeps(s: Scsi)
    requires Mounted(s)
    ensures ReadBlock(s).image == s.image && ReadBlock(s).blocksize == s.blocksize && ReadBlock(s).disk == s.disk
  {
  }

  /** Each byte sent is the first of the stream, and the phase changes with its last byte. */
  lemma SendDataStream(s: Scsi)
    requires Sending(s) && s.phase == DATA_IN
    ensures var r := SendData(s);
      Stream(s) != [] && r.0 == Stream(s)[0] && Sending(r.1) && Stream(r.1) == Stream(s)[1..] &&
      r.1.phase == (if Stream(r.1) == [] then STATUS else DATA_IN) && Outcome(r.1) == Outcome(s) && r.1.image == s.image
  {
    hide Off, Blocks, ReadBlock, Size, SenseAfter;
    var t := s.(size := s.size - 1);
    assert s.data[s.limit - s.size..s.limit] == [s.data[s.limit - s.size]] + t.data[t.limit - t.size..t.limit];
    if t.size == 0 {
      assert Size(t) == Size(s) by { SameSize(s, t); }
      ReadBlockStream(t);
      ReadKeeps(t);
    } else {
      assert Size(t) == Size(s) by { SameSize(s, t); }
    }
  }

  lemma SameSize(s: Scsi, t: Scsi)
    requires s.blocksize > 0 && s.image == t.image && s.blocksize == t.blocksize
    ensures Size(s) == Size(t)
  {
  }

  // ---------------------------------------------------------- writing

  /** scsi_write_sector, writing to the image itself. */
  function WriteBlock(s: Scsi): (r: Scsi)
    requires Mounted(s)
    ensures Mounted(r)
  {
    var a := Off(s.lba, s.blocksize);
    OffRoom(s.lba, s.blocksize, |s.image|);
    if a < |s.image| then
      s.(image := Store(s.image, a, s.data[..s.blocksize]), size := 0, limit := s.blocksize, lba := (s.lba + 1) % U32,
         count := if s.count > 0 then s.count - 1 else U32 - 1, phase := if s.count == 1 then STATUS else s.phase)
    else s.(sense := INVALID_LBA(s.lba), phase := STATUS)
  }

  /** SCSI_WriteSector */
  function WriteSector(s: Scsi, cdb: seq<bv8>): (r: Scsi)
    requires Mounted(s) && |cdb| >= 10
    ensures Mounted(r)
  {
    var t := s.(lastlba := s.lba, lba := GetOffset(cdb), count := GetCount(cdb));
    if s.readonly then t.(sense := WRITE_PROTECT, phase := STATUS)
    else
      t.(size := 0, limit := s.blocksize, disk := true, sense := NO_SENSE,
         phase := if t.count != 0 then DATA_OUT else STATUS)
  }

  /** SCSIdisk_Receive_Data */
  function ReceiveData(s: Scsi, val: bv8): (r: Scsi)
    requires Mounted(s) && s.size < |s.data|
    ensures Mounted(r)
  {
    var t := s.(data := s.data[s.size := val], size := s.size + 1);
    if t.size != t.limit then t else if t.disk then WriteBlock(t) else t.(phase := STATUS)
  }

  /** In the data out phase of a WRITE the buffer has room. */
  predicate Receiving(s: Scsi) {
    Mounted(s) && s.disk && (s.phase == DATA_OUT ==> s.size < s.limit == s.blocksize && s.count > 0)
  }

  /** How many blocks are taken: a block past the end is received before it is refused. */
  function Taken(lba: nat, count: nat, blocks: nat): nat {
    if lba + count <= blocks then count else if lba < blocks then blocks - lba + 1 else 1
  }

  /** How many bytes the target will still take. */
  function Capacity(s: Scsi): int
    requires Receiving(s)
  {
    if s.phase != DATA_OUT then 0 else Off(Taken(s.lba, s.count, Size(s)), s.blocksize) - s.size
  }

  /** The image with what waits in the buffer put where it will go. */
  function Ahead(s: Scsi): (r: seq<bv8>)
    requires Receiving(s)
    ensures |r| == |s.image|
  {
    BlockInside(s);
    if s.phase == DATA_OUT && s.lba < Size(s) then Store(s.image, Off(s.lba, s.blocksize), s.data[..s.size])
    else s.image
  }

  lemma SizeAfterWrite(s: Scsi)
    requires Mounted(s)
    ensures Size(WriteBlock(s)) == Size(s) && WriteBlock(s).blocksize == s.blocksize && WriteBlock(s).disk == s.disk
  {
  }

  lemma TakenStep(lba: nat, count: nat, blocks: nat)
    requires count > 0
    ensures Taken(lba, count, blocks) > 0
    ensures lba < blocks && count > 1 ==> Taken(lba, count, blocks) == Taken(lba + 1, count - 1, blocks) + 1
    ensures count == 1 || lba >= blocks ==> Taken(lba, count, blocks) == 1
  {
  }

  /** The full buffer is written, or refused past the end. */
  lemma WriteBlockFull(s: Scsi)
    requires Mounted(s) && s.disk && s.phase == DATA_OUT && s.size == s.limit == s.blocksize && s.count > 0
    ensures var r := WriteBlock(s);
      Receiving(r) && (r.phase == DATA_OUT || r.phase == STATUS) &&
      Capacity(r) == Off(Taken(s.lba, s.count, Size(s)), s.blocksize) - s.blocksize
    ensures s.lba < Size(s) ==>
      Off(s.lba, s.blocksize) + s.blocksize <= |s.image| && WriteBlock(s).sense == s.sense &&
      Ahead(WriteBlock(s)) == Store(s.image, Off(s.lba, s.blocksize), s.data[..s.blocksize]) &&
      (WriteBlock(s).phase == DATA_OUT ==>
        WriteBlock(s).lba == s.lba + 1 && WriteBlock(s).count == s.count - 1 && WriteBlock(s).size == 0)
    ensures s.lba >= Size(s) ==> Ahead(WriteBlock(s)) == s.image && WriteBlock(s).phase == STATUS
  {
    hide Off, Size, Taken;
    BlockInside(s);
    SizeAfterWrite(s);
    TakenStep(s.lba, s.count, Size(s));
    OffNext(0, s.blocksize);
    if s.count > 1 && s.lba < Size(s) {
      OffNext(Taken(s.lba + 1, s.count - 1, Size(s)), s.blocksize);
      var r := WriteBlock(s);
      BlockInside(r);
      StoreNothing(r.image, Off(r.lba, r.blocksize));
      assert r.data[..0] == [];
    }
  }

  lemma StoreNothing(image: seq<bv8>, a: nat)
    ensures a <= |image| ==> Store(image, a, []) == image
  {
  }

  lemma StoreOne(image: seq<bv8>, a: nat, data: seq<bv8>, n: nat, val: bv8)
    requires n < |data| && a + n + 1 <= |image|
    ensures Store(image, a, data[n := val][..n + 1]) == Store(Store(image, a, data[..n]), a + n, [val])
  {
  }

  lemma StoreTwo(image: seq<bv8>, a: nat, b: seq<bv8>, c: seq<bv8>)
    requires a + |b| + |c| <= |image|
    ensures Store(Store(image, a, b), a + |b|, c) == Store(image, a, b + c)
  {
  }

  /** Where the next byte goes. */
  function Place(s: Scsi): nat {
    Off(s.lba, s.blocksize) + s.size
  }

  /** Each byte received takes its place in the image; the capacity goes down by one, and the phase ends with it. */
  lemma ReceiveDataImage(s: Scsi, val: bv8)
    requires Receiving(s) && s.phase == DATA_OUT
    ensures var r := ReceiveData(s, val);
      Receiving(r) && Capacity(r) == Capacity(s) - 1 && Capacity(s) > 0 &&
      (r.phase == DATA_OUT <==> Capacity(r) > 0) && (r.phase == DATA_OUT || r.phase == STATUS)
    ensures var r := ReceiveData(s, val);
      if s.lba < Size(s) then Place(s) < |s.image| && Ahead(r) == Store(Ahead(s), Place(s), [val]) && r.sense == s.sense
      else Ahead(r) == Ahead(s)
    ensures var r := ReceiveData(s, val);
      r.phase == DATA_OUT ==>
        Size(r) == Size(s) && Place(r) == Place(s) + 1 && r.lba + r.count == s.lba + s.count &&
          r.blocksize == s.blocksize
  {
    hide Off, Size, Taken, WriteBlock, Store;
    var t := s.(data := s.data[s.size := val], size := s.size + 1);
    SameSize(s, t);
    BlockInside(s);
    BlockInside(t);
    if s.lba < Size(s) {
      StoreOne(s.image, Off(s.lba, s.blocksize), s.data, s.size, val);
    }
    TakenStep(s.lba, s.count, Size(s));
    TakenCapacity(s);
    if t.size == t.limit {
      WriteBlockFull(t);
      SizeAfterWrite(t);
      CapacityPhase(WriteBlock(t));
      OffNext(s.lba, s.blocksize);
    } else {
      TakenCapacity(t);
    }
  }

  lemma TakenCapacity(s: Scsi)
    requires Receiving(s) && s.phase == DATA_OUT
    ensures Capacity(s) > 0
  {
    hide Off;
    TakenStep(s.lba, s.count, Size(s));
    OffMonotone(1, Taken(s.lba, s.count, Size(s)), s.blocksize);
    OffNext(0, s.blocksize);
  }

  lemma CapacityIsNat(s: Scsi)
    requires Receiving(s)
    ensures Capacity(s) >= 0
  {
    hide Receiving;
    if s.phase == DATA_OUT {
      TakenCapacity(s);
    } else {
      NoCapacity(s);
    }
  }

  lemma NoCapacity(s: Scsi)
    requires Receiving(s) && s.phase != DATA_OUT
    ensures Capacity(s) == 0
  {
    hide Receiving, Taken, Off;
  }

  lemma CapacityPhase(s: Scsi)
    requires Receiving(s)
    ensures s.phase == DATA_OUT <==> Capacity(s) > 0
  {
    if s.phase == DATA_OUT {
      TakenCapacity(s);
    }
  }

  /** The bytes b received one after the other. */
  function Feed(s: Scsi, b: seq<bv8>): (r: Scsi)
    requires Receiving(s) && |b| <= Capacity(s)
    ensures Receiving(r)
    decreases |b|
  {
    hide Capacity, Receiving, ReceiveData;
    if b == [] then s
    else
      FeedStep(s, b);
      Feed(ReceiveData(s, b[0]), b[1..])
  }

  lemma FeedStep(s: Scsi, b: seq<bv8>)
    requires Receiving(s) && 0 < |b| <= Capacity(s)
    ensures s.phase == DATA_OUT && s.size < |s.data| && Mounted(s)
    ensures var r := ReceiveData(s, b[0]);
      Receiving(r) && Capacity(r) == Capacity(s) - 1
  {
    hide ReceiveData, Off, Size, Taken;
    ReceiveDataImage(s, b[0]);
  }

  /** The image with b from a on, as far as the image goes. */
  function StoreInside(image: seq<bv8>, a: nat, b: seq<bv8>): (r: seq<bv8>)
    ensures |r| == |image|
  {
    if a >= |image| then image else Store(image, a, b[..Min(|b|, |image| - a)])
  }

  lemma InsideTwo(image: seq<bv8>, a: nat, val: bv8, c: seq<bv8>)
    ensures a < |image| ==> StoreInside(Store(image, a, [val]), a + 1, c) == StoreInside(image, a, [val] + c)
    ensures a >= |image| ==> StoreInside(image, a, [val] + c) == image == StoreInside(image, a + 1, c)
  {
    if a < |image| {
      var n := Min(|c|, |image| - a - 1);
      assert ([val] + c)[..n + 1] == [val] + c[..n];
      if a + 1 < |image| {
        StoreTwo(image, a, [val], c[..n]);
      } else {
        assert c[..0] == [] && [val] + [] == [val];
      }
    }
  }

  lemma InsideAll(image: seq<bv8>, a: nat, b: seq<bv8>)
    requires a + |b| <= |image|
    ensures StoreInside(image, a, b) == Store(image, a, b)
  {
    assert b[..|b|] == b;
    StoreNothing(image, a);
    if a == |image| {
      assert b == [];
    }
  }

  /** A byte that completes a block past the end is refused; no other byte changes the sense. */
  lemma ReceiveSense(s: Scsi, val: bv8)
    requires Receiving(s) && s.phase == DATA_OUT
    ensures var r := ReceiveData(s, val);
      r.sense == (if r.phase != DATA_OUT && s.lba >= Size(s) then INVALID_LBA(s.lba) else s.sense) &&
      (r.phase == DATA_OUT ==> r.lba == s.lba || (r.lba == s.lba + 1 && s.lba < Size(s))) &&
      (r.phase != DATA_OUT && s.lba < Size(s) ==> s.count == 1) && |r.image| == |s.image|
  {
    hide Off, Store;
    var t := s.(data := s.data[s.size := val], size := s.size + 1);
    BlockInside(s);
    if s.size + 1 == s.limit && s.lba >= Size(s) {
      PastEnd(t);
    }
  }

  lemma PastEnd(t: Scsi)
    requires Mounted(t) && t.lba >= Size(t)
    ensures WriteBlock(t) == t.(sense := INVALID_LBA(t.lba), phase := STATUS) && Off(t.lba, t.blocksize) >= |t.image|
  {
    hide Off;
    OffRoom(t.lba, t.blocksize, |t.image|);
  }

  /** The bytes received are the bytes on the disk as far as the image goes; the phase ends with the last byte that is
      taken, and with the sense of the first block past the end if there is one. */
  lemma {:induction false} FeedImage(s: Scsi, b: seq<bv8>)
    requires Receiving(s) && s.phase == DATA_OUT && |b| <= Capacity(s)
    ensures var r := Feed(s, b);
      Ahead(r) == StoreInside(Ahead(s), Place(s), b) && Capacity(r) == Capacity(s) - |b| &&
      (r.phase == DATA_OUT <==> Capacity(r) > 0) &&
      (r.phase != DATA_OUT ==> r.image == Ahead(r) && r.phase == STATUS) &&
      r.sense == if |b| == Capacity(s) then SenseAfter(s.sense, s.lba, s.count, Size(s)) else s.sense
    decreases |b|
  {
    hide ReceiveData, Off, Size, Taken, Capacity, Store, Receiving, StoreInside, SenseAfter, Place;
    if b == [] {
      NothingInside(s);
      CapacityPhase(s);
      AheadIs(s);
    } else {
      FeedStep(s, b);
      ReceiveDataImage(s, b[0]);
      ReceiveSense(s, b[0]);
      var r := ReceiveData(s, b[0]);
      assert b == [b[0]] + b[1..];
      InsideTwo(Ahead(s), Place(s), b[0], b[1..]);
      PlaceAt(s);
      SenseSteps(s.sense, s.lba, s.count, Size(s));
      if r.phase == DATA_OUT {
        FeedImage(r, b[1..]);
      } else {
        assert Capacity(r) == 0 by { NoCapacity(r); }
        assert b == [b[0]] && b[1..] == [];
        InsideTwo(Ahead(s), Place(s), b[0], []);
        OneInside(Ahead(s), Place(s), b[0]);
        AheadIs(r);
      }
    }
  }

  lemma NothingInside(s: Scsi)
    requires Receiving(s)
    ensures StoreInside(Ahead(s), Place(s), []) == Ahead(s)
  {
    hide Off;
    StoreNothing(Ahead(s), Place(s));
  }

  lemma OneInside(image: seq<bv8>, a: nat, val: bv8)
    ensures a < |image| ==> StoreInside(image, a, [val]) == Store(image, a, [val])
    ensures a >= |image| ==> StoreInside(image, a, [val]) == image
  {
    assert [val][..1] == [val];
  }

  /** The next byte goes into the image exactly when its block does. */
  lemma PlaceAt(s: Scsi)
    requires Receiving(s) && s.phase == DATA_OUT
    ensures (s.lba < Size(s) <==> Place(s) < |s.image|) && s.count > 0
  {
    hide Off;
    OffRoom(s.lba, s.blocksize, |s.image|);
  }

  lemma SenseSteps(sense: Sense, lba: nat, count: nat, blocks: nat)
    ensures lba < blocks && count > 0 ==>
      SenseAfter(sense, lba + 1, count - 1, blocks) == SenseAfter(sense, lba, count, blocks)
    ensures lba < blocks && count == 1 ==> SenseAfter(sense, lba, count, blocks) == sense
    ensures lba >= blocks && count > 0 ==> SenseAfter(sense, lba, count, blocks) == INVALID_LBA(lba)
  {
  }

  lemma AheadIs(s: Scsi)
    requires Receiving(s)
    ensures s.phase != DATA_OUT ==> s.image == Ahead(s)
  {
  }

  /** WRITE then READ: what was sent to the target comes back, and nothing else on the disk has changed. */
  lemma WriteThenRead(s: Scsi, w: seq<bv8>, rd: seq<bv8>, b: seq<bv8>)
    requires Mounted(s) && !s.readonly && |w| >= 10 && |rd| >= 10
    requires GetOffset(rd) == GetOffset(w) && GetCount(rd) == GetCount(w) > 0
    requires GetOffset(w) + GetCount(w) <= Size(s) && |b| == Off(GetCount(w), s.blocksize)
    ensures Receiving(WriteSector(s, w)) && Capacity(WriteSector(s, w)) == |b|
    ensures var r := Feed(WriteSector(s, w), b);
      r.phase == STATUS && r.sense == NO_SENSE && Off(GetOffset(w), s.blocksize) + |b| <= |s.image| &&
      r.image == Store(s.image, Off(GetOffset(w), s.blocksize), b) &&
      Sending(ReadSector(r, rd)) && Stream(ReadSector(r, rd)) == b
  {
    hide Off, GetOffset, GetCount, ReceiveData, Blocks, ReadSector, WriteSector, Store,
      StoreInside, SenseAfter, Taken, Feed, Stream, Ahead,
         Receiving, Sending, Capacity, Place, Size;
    var t := WriteSector(s, w);
    var lba, n := GetOffset(w), GetCount(w);
    WriteStarts(s, w);
    TakesAll(s, w);
    FeedImage(t, b);
    var r := Feed(t, b);
    FeedKeeps(t, b);
    StartsAhead(s, w);
    InsideAll(s.image, Off(lba, s.blocksize), b);
    NoneLeft(t, b);
    ReadBack(s, r, rd, lba, n, b);
  }

  lemma NoneLeft(t: Scsi, b: seq<bv8>)
    requires Receiving(t) && t.phase == DATA_OUT && |b| == Capacity(t)
    ensures Feed(t, b).phase == STATUS
  {
    hide Feed, Receiving, Capacity;
    FeedImage(t, b);
  }

  /** Reading n blocks that have just been written. */
  lemma ReadBack(s: Scsi, r: Scsi, rd: seq<bv8>, lba: nat, n: nat, b: seq<bv8>)
    requires Mounted(s) && Mounted(r) && |rd| >= 10 && GetOffset(rd) == lba && GetCount(rd) == n &&
      |b| == Off(n, s.blocksize)
    requires Off(lba, s.blocksize) + |b| <= |s.image| && r.image == Store(s.image, Off(lba, s.blocksize), b)
    requires r.blocksize == s.blocksize
    ensures Sending(ReadSector(r, rd)) && Stream(ReadSector(r, rd)) == b
  {
    hide Off, GetOffset, GetCount, Blocks, ReadSector, Store, Sending, Stream;
    ReadSectorStream(r, rd);
    OffSum(lba, n, s.blocksize);
    BlocksAre(r.image, s.blocksize, lba, n);
    Stored(s.image, Off(lba, s.blocksize), b);
  }

  lemma Stored(image: seq<bv8>, a: nat, b: seq<bv8>)
    requires a + |b| <= |image|
    ensures Store(image, a, b)[a..a + |b|] == b
  {
  }

  lemma OffSum(a: nat, b: nat, bs: nat)
    ensures Off(a + b, bs) == Off(a, bs) + Off(b, bs)
  {
  }

  lemma WriteStarts(s: Scsi, w: seq<bv8>)
    requires Mounted(s) && !s.readonly && |w| >= 10 && GetCount(w) > 0
    ensures var t := WriteSector(s, w);
      Receiving(t) && t.phase == DATA_OUT && t.lba == GetOffset(w) && t.count == GetCount(w) && t.size == 0 &&
      t.blocksize == s.blocksize && t.image == s.image && Size(t) == Size(s) && t.sense == NO_SENSE &&
      Capacity(t) == Off(Taken(GetOffset(w), GetCount(w), Size(s)), s.blocksize) &&
        Place(t) == Off(GetOffset(w), s.blocksize)
  {
    hide GetCount, GetOffset, Off, Taken;
  }

  lemma StartsAhead(s: Scsi, w: seq<bv8>)
    requires Mounted(s) && !s.readonly && |w| >= 10 && GetCount(w) > 0
    ensures Receiving(WriteSector(s, w)) && Ahead(WriteSector(s, w)) == s.image
  {
    hide GetCount, GetOffset, Off, Size;
    WriteStarts(s, w);
    var t := WriteSector(s, w);
    assert t.data[..0] == [];
    BlockInside(t);
    StoreNothing(t.image, Off(t.lba, t.blocksize));
  }

  /** A command inside the image takes all its blocks. */
  lemma TakesAll(s: Scsi, w: seq<bv8>)
    requires Mounted(s) && |w| >= 10 && GetOffset(w) + GetCount(w) <= Size(s)
    ensures Taken(GetOffset(w), GetCount(w), Size(s)) == GetCount(w)
    ensures SenseAfter(NO_SENSE, GetOffset(w), GetCount(w), Size(s)) == NO_SENSE
    ensures Off(GetOffset(w), s.blocksize) + Off(GetCount(w), s.blocksize) <= |s.image|
  {
    hide GetCount, GetOffset;
    OffSum(GetOffset(w), GetCount(w), s.blocksize);
    OffMonotone(GetOffset(w) + GetCount(w), Size(s), s.blocksize);
    OffRoom(0, s.blocksize, |s.image|);
  }

  lemma {:induction false} FeedKeeps(s: Scsi, b: seq<bv8>)
    requires Receiving(s) && |b| <= Capacity(s)
    ensures var r := Feed(s, b);
      r.blocksize == s.blocksize && |r.image| == |s.image| && Mounted(r) && r.readonly == s.readonly
    decreases |b|
  {
    hide Capacity, Off;
    if b != [] {
      FeedStep(s, b);
      FeedKeeps(ReceiveData(s, b[0]), b[1..]);
    }
  }
}
