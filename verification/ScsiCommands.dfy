/** READ and WRITE as a driver writes them: the bytes of the six and ten byte commands, and what the target makes of
    them. */
module ScsiCommands {
  import opened Burst
  import opened ScsiDisk
  import opened EspModel
  import opened EspTheorems

  /** n blocks from block lba on; unit, flags, group and control are not looked at. */
  datatype Command =
    | Six(op: nat, unit: nat, lba: nat, n: nat, control: nat)
    | Ten(op: nat, flags: nat, lba: nat, group: nat, n: nat, control: nat)

  predicate Legal(c: Command) {
    match c
    case Six(op, unit, lba, n, _) => op < 0x20 && unit < 8 && lba < 0x20_0000 && 1 <= n <= 256
    case Ten(op, _, lba, _, n, _) => 0x20 <= op && lba < 0x1_0000_0000 && n < 0x1_0000
  }

  /** Byte k of a number, byte 0 being the lowest. */
  function ByteOf(x: nat, k: nat): nat {
    if k == 0 then x % 0x100 else ByteOf(x / 0x100, k - 1)
  }

  /** The command block, highest byte first; 256 blocks of a short command are written as 0. */
  function Cdb(c: Command): (b: seq<nat>)
    ensures |b| == if c.Six? then 6 else 10
  {
    match c
    case Six(op, unit, lba, n, control) =>
      [op, unit * 0x20 + lba / 0x1_0000, ByteOf(lba, 1), ByteOf(lba, 0), ByteOf(n, 0), control]
    case Ten(op, flags, lba, group, n, control) =>
      [op, flags, ByteOf(lba, 3), ByteOf(lba, 2), ByteOf(lba, 1), ByteOf(lba, 0), group, ByteOf(n, 1), ByteOf(n, 0),
       control]
  }

  /** The buffer of the command holds c. */
  predicate Holds(cdb: seq<bv8>, c: Command) {
    |cdb| >= 10 && Legal(c) && forall i :: 0 <= i < |Cdb(c)| ==> cdb[i] as nat == Cdb(c)[i]
  }

  lemma ByteUp(x: nat, k: nat)
    ensures ByteOf(x, k + 1) == ByteOf(x / 0x100, k) && ByteOf(x, 0) == x % 0x100
  {
  }

  lemma Int16Of(cdb: seq<bv8>, i: nat, x: nat)
    requires i + 2 <= |cdb| && cdb[i] as nat == ByteOf(x, 1) && cdb[i + 1] as nat == ByteOf(x, 0)
    ensures Int16(cdb, i) == x % 0x1_0000
  {
    hide ByteOf;
    ByteUp(x, 0);
    ByteUp(x / 0x100, 0);
    Split(x);
  }

  lemma Split(x: nat)
    ensures x % 0x1_0000 == x / 0x100 % 0x100 * 0x100 + x % 0x100
    ensures x == x / 0x1_0000 * 0x1_0000 + x % 0x1_0000
    ensures x / 0x100 / 0x100 == x / 0x1_0000
  {
  }

  lemma Short(b: bv8)
    ensures b < 0x20 <==> b as nat < 0x20
    ensures b == 0 <==> b as nat == 0
  {
  }

  /** The target finds in the command what the driver has put there. */
  lemma Decoded(cdb: seq<bv8>, c: Command)
    requires Holds(cdb, c)
    ensures |cdb| >= 10 && GetOffset(cdb) == c.lba && GetCount(cdb) == c.n
  {
    hide ByteOf, Holds, Int16, GetOffset, GetCount, Cdb;
    Bytes10(cdb, c);
    Fields(cdb);
    if c.Six? {
      Int16Of(cdb, 2, c.lba);
      SixFields(cdb[1] as nat, Int16(cdb, 2), cdb[4] as nat, c);
    } else {
      TenOffset(cdb, c.lba);
      Int16Of(cdb, 7, c.n);
      TenCount(c);
    }
  }

  lemma SixFields(high: nat, low: nat, last: nat, c: Command)
    requires c.Six? && Legal(c) && low == c.lba % 0x1_0000 && last == ByteOf(c.n, 0)
    requires high == c.unit * 0x20 + c.lba / 0x1_0000
    ensures (high * 0x1_0000 + low) % 0x20_0000 == c.lba && (if last == 0 then 256 else last) == c.n
  {
    SixOffset(c.unit, c.lba);
    ByteUp(c.n, 0);
  }

  lemma TenCount(c: Command)
    requires c.Ten? && Legal(c)
    ensures c.n % 0x1_0000 == c.n
  {
  }

  /** Where the target looks. */
  lemma Fields(cdb: seq<bv8>)
    requires |cdb| >= 10
    ensures cdb[0] as nat < 0x20 ==>
      GetOffset(cdb) == (cdb[1] as nat * 0x1_0000 + Int16(cdb, 2)) % 0x20_0000 &&
      GetCount(cdb) == if cdb[4] as nat == 0 then 256 else cdb[4] as nat
    ensures cdb[0] as nat >= 0x20 ==>
      GetOffset(cdb) == Int16(cdb, 2) * 0x1_0000 + Int16(cdb, 4) && GetCount(cdb) == Int16(cdb, 7)
  {
    hide Int16;
    Short(cdb[0]);
    Short(cdb[4]);
  }

  lemma Bytes10(cdb: seq<bv8>, c: Command)
    requires Holds(cdb, c)
    ensures |cdb| >= 10 && Legal(c) && cdb[0] as nat == c.op
    ensures c.Six? ==>
      cdb[1] as nat == c.unit * 0x20 + c.lba / 0x1_0000 && cdb[2] as nat == ByteOf(c.lba, 1) &&
      cdb[3] as nat == ByteOf(c.lba, 0) && cdb[4] as nat == ByteOf(c.n, 0)
    ensures c.Ten? ==>
      cdb[2] as nat == ByteOf(c.lba, 3) && cdb[3] as nat == ByteOf(c.lba, 2) && cdb[4] as nat == ByteOf(c.lba, 1) &&
      cdb[5] as nat == ByteOf(c.lba, 0) && cdb[7] as nat == ByteOf(c.n, 1) && cdb[8] as nat == ByteOf(c.n, 0)
  {
    hide ByteOf;
    var b := Cdb(c);
    assert cdb[0] as nat == b[0] && cdb[1] as nat == b[1] && cdb[2] as nat == b[2] && cdb[3] as nat == b[3];
    assert cdb[4] as nat == b[4];
    if c.Ten? {
      assert cdb[5] as nat == b[5] && cdb[7] as nat == b[7] && cdb[8] as nat == b[8];
    }
  }

  lemma SixOffset(unit: nat, lba: nat)
    requires unit < 8 && lba < 0x20_0000
    ensures var high := unit * 0x20 + lba / 0x1_0000;
      high < 0x100 && (high * 0x1_0000 + lba % 0x1_0000) % 0x20_0000 == lba
  {
    Split(lba);
    assert (unit * 0x20 + lba / 0x1_0000) * 0x1_0000 + lba % 0x1_0000 == unit * 0x20_0000 + lba;
  }

  lemma TenOffset(cdb: seq<bv8>, lba: nat)
    requires |cdb| >= 10 && lba < 0x1_0000_0000
    requires cdb[2] as nat == ByteOf(lba, 3) && cdb[3] as nat == ByteOf(lba, 2)
    requires cdb[4] as nat == ByteOf(lba, 1) && cdb[5] as nat == ByteOf(lba, 0)
    ensures Int16(cdb, 2) * 0x1_0000 + Int16(cdb, 4) == lba
  {
    hide ByteOf, Int16;
    Int16Of(cdb, 4, lba);
    ByteUp(lba, 1);
    ByteUp(lba, 2);
    ByteUp(lba / 0x100, 0);
    ByteUp(lba / 0x100, 1);
    Split(lba);
    Int16Of(cdb, 2, lba / 0x1_0000);
  }

  // ---------------------------------------------------------- the blocks of the image

  /** The bytes from a to b, as far as there are any. */
  function Piece(image: seq<bv8>, a: nat, b: nat): seq<bv8>
    requires a <= b
  {
    image[Min(a, |image|)..Min(b, |image|)]
  }

  lemma {:induction false} BlocksPiece(image: seq<bv8>, bs: nat, lba: nat, n: nat)
    requires bs > 0 && |image| % bs == 0
    ensures Off(lba, bs) <= Off(lba + n, bs)
    ensures Blocks(image, bs, lba, n) == Piece(image, Off(lba, bs), Off(lba + n, bs))
    decreases n
  {
    hide Off;
    OffMonotone(lba, lba + n, bs);
    if n > 0 {
      OffRoom(lba, bs, |image|);
      OffNext(lba, bs);
      OffMonotone(lba + 1, lba + n, bs);
      BlocksPiece(image, bs, lba + 1, n - 1);
    }
  }

  /** READ: what the target will send is the piece of the image that the command names. */
  lemma ReadCommand(s: Scsi, cdb: seq<bv8>, c: Command)
    requires Mounted(s) && Holds(cdb, c)
    ensures var r := ReadSector(s, cdb);
      Sending(r) && Off(c.lba, s.blocksize) <= Off(c.lba + c.n, s.blocksize) &&
      Stream(r) == Piece(s.image, Off(c.lba, s.blocksize), Off(c.lba + c.n, s.blocksize))
  {
    hide Off, Blocks, Stream, Sending, ReadSector, Piece, Holds, Legal, GetOffset, GetCount;
    Decoded(cdb, c);
    ReadSectorStream(s, cdb);
    BlocksPiece(s.image, s.blocksize, c.lba, c.n);
  }

  /** WRITE: the bytes sent take the place in the image that the command names. */
  lemma WriteCommand(s: Scsi, cdb: seq<bv8>, c: Command, b: seq<bv8>)
    requires Mounted(s) && !s.readonly && Holds(cdb, c) && c.n > 0
    requires c.lba + c.n <= Size(s) && |b| == Off(c.n, s.blocksize)
    ensures Receiving(WriteSector(s, cdb)) && Capacity(WriteSector(s, cdb)) == |b|
    ensures var r := Feed(WriteSector(s, cdb), b);
      Off(c.lba, s.blocksize) + |b| <= |s.image| && r.image == Store(s.image, Off(c.lba, s.blocksize), b) &&
      r.phase == STATUS && r.sense == NO_SENSE
  {
    hide Off, GetOffset, GetCount, WriteSector, Feed, Receiving, Capacity, Store, Stream, Sending, ReadSector, Size,
      Holds, Legal;
    Decoded(cdb, c);
    WriteThenRead(s, cdb, cdb, b);
  }

  /** What one command has written another reads back, whatever the forms of the two. */
  lemma WriteThenReadCommands(s: Scsi, w: seq<bv8>, rd: seq<bv8>, c: Command, d: Command, b: seq<bv8>)
    requires Mounted(s) && !s.readonly && Holds(w, c) && Holds(rd, d) && c.lba == d.lba && c.n == d.n > 0
    requires c.lba + c.n <= Size(s) && |b| == Off(c.n, s.blocksize)
    ensures Receiving(WriteSector(s, w)) && Capacity(WriteSector(s, w)) == |b|
    ensures var r := ReadSector(Feed(WriteSector(s, w), b), rd); Sending(r) && Stream(r) == b
  {
    hide Off, GetOffset, GetCount, WriteSector, Feed, Receiving, Capacity, Store, Stream, Sending, ReadSector, Size,
      Holds, Legal;
    Decoded(w, c);
    Decoded(rd, d);
    WriteThenRead(s, w, rd, b);
  }

  // ---------------------------------------------------------- to memory and from memory

  /** Of the bytes from a to b, as many as there are and as the counter allows. */
  function Asked(image: seq<bv8>, a: nat, b: nat, counter: nat): seq<bv8>
    requires a <= b
  {
    var p := Piece(image, a, b);
    p[..Min(counter, |p|)]
  }

  /** READ, from the bytes of the command to memory, over every run. */
  lemma ReadCommandEndToEnd(s: Scsi, cdb: seq<bv8>, c: Command, m: Machine, steps: seq<Step>)
    requires Mounted(s) && Holds(cdb, c) && m.scsi == ReadSector(s, cdb) && m.fifo == [] && m.dmaMode
    requires Shape(m.f) && m.f.size == 0 && m.io == TRANSFERRING && !m.tc
    requires Sending(m.scsi) && Runnable(m, steps)
    ensures Off(c.lba, s.blocksize) <= Off(c.lba + c.n, s.blocksize)
    ensures var r, cs, got := RunSteps(m, steps), Chunks(m, steps), Flat(Takes(m, steps));
      var want := Asked(s.image, Off(c.lba, s.blocksize), Off(c.lba + c.n, s.blocksize), m.counter);
      Fit(cs, |m.mem|) && r.mem == PutAll(m.mem, cs) && (Plain(steps) ==> got == Bytes(cs)) &&
      got + Residual(r.f) <= want && |got| + r.f.size + r.counter == m.counter &&
      (r.counter == 0 || r.scsi.phase != DATA_IN ==> got + Residual(r.f) == want)
  {
    hide Off, GetOffset, GetCount, Blocks, ReadSector, Sending, Piece, Holds, Legal, Runnable, RunSteps, Chunks, Takes,
      Flat, Residual, PutAll, Bytes, Plain, Stores, Size, SenseAfter;
    Decoded(cdb, c);
    ReadEndToEnd(s, cdb, m, steps);
    BlocksPiece(s.image, s.blocksize, c.lba, c.n);
  }

  /** WRITE, from memory to the place in the image that the command names, over every run. */
  lemma WriteCommandEndToEnd(s: Scsi, cdb: seq<bv8>, c: Command, m: Machine, steps: seq<Step>)
    requires Mounted(s) && !s.readonly && Holds(cdb, c) && c.n > 0
    requires m.scsi == WriteSector(s, cdb) && m.fifo == [] && m.dmaMode && m.io == TRANSFERRING && !m.tc
    requires Shape(m.f) && m.f.size == 0
    requires Receiving(m.scsi) && RunnableOut(m, steps)
    ensures var r, cs := RunOut(m, steps), Loads(m, steps);
      Receiving(r.scsi) && Shape(r.f) && r.f.size <= |Bytes(cs)| && FromMemory(cs, m.mem) && r.mem == m.mem &&
      var g := Given(cs, r.f);
      Bytes(cs) == g + Residual(r.f) && |g| + r.counter == m.counter &&
      Ahead(r.scsi) == StoreInside(s.image, Off(c.lba, s.blocksize), g) &&
      (r.scsi.phase == STATUS ==> r.scsi.image == Ahead(r.scsi)) &&
      (c.lba + c.n <= Size(s) ==> (r.scsi.phase == STATUS <==> |g| == Off(c.n, s.blocksize)))
  {
    hide Off, GetOffset, GetCount, WriteSector, Receiving, Holds, Legal, RunnableOut, RunOut, Loads, Residual, Bytes,
      Given, FromMemory, StoreInside, Ahead, Taken, SenseAfter, Size;
    Decoded(cdb, c);
    WriteEndToEnd(s, cdb, m, steps);
    if c.lba + c.n <= Size(s) {
      TakesAll(s, cdb);
    }
  }
}
