/**
 The SCSI path from disk to memory and back on values: the transfer counter and FIFO of the ESP
 (src/esp.c), its I/O handler, and the SCSI channel of src/dma.c between them and memory.
 */
module EspModel {
  import opened Burst
  import opened ScsiDisk

  const ESP_FIFO := 16

  datatype Io = TRANSFERRING | FLUSHING | DONE

  /** f is the burst FIFO of the channel, fifo the one of the ESP; tc the transfer complete bit, service the
      bus service interrupt; armed tells whether the handler will be called again. */
  datatype Machine = Machine(scsi: Scsi, counter: nat, fifo: seq<bv8>, dmaMode: bool, io: Io, tc: bool, service: bool,
                             armed: bool, ch: Channel, f: Fifo, mem: seq<bv8>)

  // ---------------------------------------------------------- bytes from the device

  predicate Ready(m: Machine) {
    (m.counter > 0 && m.scsi.phase == DATA_IN) || m.fifo != []
  }

  /** What the ESP can send before it is not ready. */
  function Supply(m: Machine): seq<bv8>
    requires Sending(m.scsi)
  {
    m.fifo + Stream(m.scsi)[..Min(m.counter, |Stream(m.scsi)|)]
  }

  /** ESP_Send_Data */
  function SendByte(m: Machine): (r: (bv8, Machine))
    requires Sending(m.scsi) && Ready(m)
    ensures Mounted(r.1.scsi)
  {
    if m.fifo != [] then (m.fifo[0], m.(fifo := m.fifo[1..]))
    else
      var s := SendData(m.scsi);
      (s.0, m.(counter := m.counter - 1, scsi := s.1))
  }

  lemma ReadyIs(m: Machine)
    requires Sending(m.scsi)
    ensures Ready(m) <==> Supply(m) != []
  {
    hide Stream, Sending;
    if m.scsi.phase == DATA_IN {
      SendDataStream(m.scsi);
    } else {
      NothingToSend(m.scsi);
    }
  }

  lemma NothingToSend(s: Scsi)
    requires Sending(s) && s.phase != DATA_IN
    ensures Stream(s) == []
  {
  }

  lemma SendByteSupply(m: Machine)
    requires Sending(m.scsi) && Ready(m)
    ensures var r := SendByte(m);
      Sending(r.1.scsi) && Supply(m) != [] && r.0 == Supply(m)[0] && Supply(r.1) == Supply(m)[1..] &&
      r.1 == m.(counter := r.1.counter, scsi := r.1.scsi, fifo := r.1.fifo) &&
      m.counter + |Stream(r.1.scsi)| == r.1.counter + |Stream(m.scsi)| && |r.1.fifo| <= |m.fifo| &&
      Outcome(r.1.scsi) == Outcome(m.scsi)
  {
    hide Stream, Sending, SendData, Outcome;
    if m.fifo == [] {
      SendDataStream(m.scsi);
    }
  }

  /** n bytes sent one after the other. */
  function SendBytes(m: Machine, n: nat): (r: Machine)
    requires Sending(m.scsi) && n <= |Supply(m)|
    ensures Sending(r.scsi)
    decreases n
  {
    hide Supply, Sending, SendByte;
    if n == 0 then m
    else
      SendFirst(m);
      SendBytes(SendByte(m).1, n - 1)
  }

  lemma SendFirst(m: Machine)
    requires Sending(m.scsi) && Supply(m) != []
    ensures Ready(m)
    ensures var r := SendByte(m).1; Sending(r.scsi) && Supply(r) == Supply(m)[1..]
  {
    hide SendByte, Sending, Supply, Ready;
    ReadyIs(m);
    SendByteSupply(m);
  }

  lemma {:induction false} SendBytesSupply(m: Machine, n: nat)
    requires Sending(m.scsi) && n <= |Supply(m)|
    ensures var r := SendBytes(m, n);
      Supply(r) == Supply(m)[n..] && r == m.(counter := r.counter, scsi := r.scsi, fifo := r.fifo) &&
      m.counter + |Stream(r.scsi)| == r.counter + |Stream(m.scsi)| && |r.fifo| <= |m.fifo| &&
      Outcome(r.scsi) == Outcome(m.scsi)
    decreases n
  {
    hide Supply, Sending, SendByte, Stream, Outcome, Ready;
    if n > 0 {
      ReadyIs(m);
      SendByteSupply(m);
      SendBytesSupply(SendByte(m).1, n - 1);
    }
  }

  // ---------------------------------------------------------- bytes to the device

  /** What the ESP takes before it is not ready (ESP_Receive_Ready). */
  function Accepts(m: Machine): nat
    requires Receiving(m.scsi)
  {
    if m.dmaMode && m.scsi.phase == DATA_OUT then
      (TakenCapacity(m.scsi); Min(m.counter, Capacity(m.scsi)))
    else 0
  }

  /** ESP_Receive_Data for one byte after the other. */
  function GiveBytes(m: Machine, b: seq<bv8>): (r: Machine)
    requires Receiving(m.scsi) && |b| <= m.counter && |b| <= Capacity(m.scsi)
    ensures Receiving(r.scsi)
  {
    m.(counter := m.counter - |b|, scsi := Feed(m.scsi, b))
  }

  // ---------------------------------------------------------- the SCSI channel

  /** dma_interrupt: at the limit the channel is complete; it goes on with start and stop when chaining. */
  function Interrupt(ch: Channel): Channel {
    if ch.next != ch.limit then ch
    else if ch.supdate then ch.(complete := true, next := ch.start, limit := ch.stop, supdate := false)
    else ch.(complete := true, enabled := false)
  }

  /** The source aborts on other alignments (dma.c:395-399); the buffer lies in memory. */
  predicate Usable(m: Machine) {
    m.ch.enabled ==> m.ch.limit % BURST == 0 && m.ch.next % 4 == 0 && m.ch.limit <= |m.mem|
  }

  /** What one call moves between the FIFO and memory, and from which address on. */
  datatype Chunk = Chunk(at: nat, bytes: seq<bv8>)

  function Nothing(m: Machine): Chunk {
    Chunk(0, [])
  }

  /** dma_esp_write_memory */
  function DmaWrite(m: Machine): (r: Machine)
    requires Sending(m.scsi) && Shape(m.f) && Usable(m)
    ensures Sending(r.scsi) && Shape(r.f)
  {
    if !m.ch.enabled then m
    else
      var p := Pump(m.ch.next, m.ch.limit, m.f, Supply(m));
      var n := SendBytes(m, p.used);
      n.(f := p.f, mem := Put(m.mem, WriteChunk(m)), ch := Interrupt(m.ch.(next := p.next)))
  }

  function WriteChunk(m: Machine): (c: Chunk)
    requires Sending(m.scsi) && Shape(m.f) && Usable(m)
    ensures c.bytes != [] ==> c.at + |c.bytes| <= |m.mem|
  {
    if !m.ch.enabled then Nothing(m) else Chunk(m.ch.next, Pump(m.ch.next, m.ch.limit, m.f, Supply(m)).out)
  }

  /** Memory with a chunk stored. */
  function Put(mem: seq<bv8>, c: Chunk): (r: seq<bv8>)
    requires c.bytes != [] ==> c.at + |c.bytes| <= |mem|
    ensures |r| == |mem|
  {
    if c.bytes == [] then mem else Store(mem, c.at, c.bytes)
  }

  /** What memory still holds for the device. */
  function Pending(m: Machine): seq<bv8>
    requires Usable(m)
  {
    if m.ch.enabled && m.ch.next < m.ch.limit then m.mem[m.ch.next..m.ch.limit] else []
  }

  /** dma_esp_read_memory */
  function DmaRead(m: Machine): (r: Machine)
    requires Receiving(m.scsi) && Shape(m.f) && Usable(m)
    ensures Receiving(r.scsi) && Shape(r.f)
  {
    if !m.ch.enabled then m
    else
      var p := Push(m.f, Pending(m), Accepts(m));
      GiveOk(m, p.out);
      GiveBytes(m, p.out).(f := p.f, ch := Interrupt(m.ch.(next := m.ch.next + p.used)))
  }

  lemma GiveOk(m: Machine, b: seq<bv8>)
    requires Receiving(m.scsi) && |b| <= Accepts(m)
    ensures |b| <= m.counter && |b| <= Capacity(m.scsi)
  {
    hide Capacity, Receiving;
    CapacityIsNat(m.scsi);
  }

  function ReadChunk(m: Machine): Chunk
    requires Receiving(m.scsi) && Shape(m.f) && Usable(m)
  {
    if !m.ch.enabled then Nothing(m)
    else Chunk(m.ch.next, Pending(m)[..Push(m.f, Pending(m), Accepts(m)).used])
  }

  // ---------------------------------------------------------- the ESP I/O handler

  /** esp_dma_write_memory without DMA mode: the ESP FIFO is filled. */
  function FillFifo(m: Machine): (r: Machine)
    requires Sending(m.scsi) && |m.fifo| <= ESP_FIFO
    ensures Sending(r.scsi) && r == m.(fifo := r.fifo, scsi := r.scsi, counter := r.counter)
    decreases ESP_FIFO - |m.fifo|
  {
    if |m.fifo| < ESP_FIFO && m.counter > 0 && m.scsi.phase == DATA_IN then
      var s := SendData(m.scsi);
      SendDataStream(m.scsi);
      hide Sending, SendData, Stream;
      FillFifo(m.(fifo := m.fifo + [s.0], scsi := s.1, counter := m.counter - 1))
    else m
  }

  /** The ESP FIFO is emptied into the target first (esp.c:403-406). */
  function EmptyFifo(m: Machine): (r: Machine)
    requires Receiving(m.scsi)
    ensures Receiving(r.scsi)
    decreases |m.fifo|
  {
    if m.fifo != [] && m.counter > 0 && m.scsi.phase == DATA_OUT then
      ReceiveDataImage(m.scsi, m.fifo[0]);
      EmptyFifo(m.(fifo := m.fifo[1..], scsi := ReceiveData(m.scsi, m.fifo[0]), counter := m.counter - 1))
    else m
  }

  /** esp_transfer_done: the counter has run out, or the phase has changed. */
  predicate Over(m: Machine, expected: Phase) {
    m.counter == 0 || m.scsi.phase != expected
  }

  function TransferDone(m: Machine, expected: Phase): Machine {
    if m.counter == 0 then m.(service := true, tc := true)
    else if m.scsi.phase != expected then m.(service := true)
    else m
  }

  /** esp_fifo_write: a full FIFO loses its last byte. */
  function WriteFifo(fifo: seq<bv8>, val: bv8): (r: seq<bv8>)
    requires |fifo| <= ESP_FIFO
    ensures 0 < |r| <= ESP_FIFO && r[|r| - 1] == val
  {
    if |fifo| < ESP_FIFO then fifo + [val] else fifo[..ESP_FIFO - 1] + [val]
  }

  /** esp_fifo_read: an empty FIFO passes bytes of the target on when DMA mode is off. */
  function ReadFifo(m: Machine): (r: (bv8, Machine))
    requires Sending(m.scsi)
  {
    if m.fifo != [] then (m.fifo[0], m.(fifo := m.fifo[1..]))
    else if m.io == TRANSFERRING && !m.dmaMode && m.counter > 0 && m.scsi.phase == DATA_IN then
      var s := SendData(m.scsi);
      var n := m.(counter := m.counter - 1, scsi := s.1);
      (s.0, TransferDone(n, DATA_IN).(io := if Over(n, DATA_IN) then DONE else TRANSFERRING))
    else (0, m)
  }

  /** Programmed or not, reading takes the bytes in the order in which the ESP can send them. */
  lemma ReadFifoSupply(m: Machine)
    requires Sending(m.scsi) && (m.fifo != [] || (m.io == TRANSFERRING && !m.dmaMode))
    ensures var r := ReadFifo(m);
      Sending(r.1.scsi) &&
      if Supply(m) == [] then r == (0, m) else r.0 == Supply(m)[0] && Supply(r.1) == Supply(m)[1..]
  {
    hide Sending, Stream, SendData;
    ReadyIs(m);
    if Ready(m) {
      SendByteSupply(m);
    }
  }

  /** ESP_IO_Handler while the target is sending. */
  function TickIn(m: Machine): (r: Machine)
    requires Sending(m.scsi) && Shape(m.f) && |m.fifo| <= ESP_FIFO && Usable(m)
    ensures Sending(r.scsi) && Shape(r.f)
  {
    hide DmaWrite, FillFifo, Sending, Shape;
    match m.io
    case TRANSFERRING =>
      if m.scsi.phase == DATA_IN then
        var n := if m.dmaMode then DmaWrite(m) else FillFifo(m);
        TransferDone(n, DATA_IN).(io := if Over(n, DATA_IN) then FLUSHING else TRANSFERRING, armed := true)
      else TransferDone(m, DATA_IN).(armed := false)
    case FLUSHING => DmaWrite(m).(armed := false)
    case DONE => m.(armed := false)
  }

  /** ESP_IO_Handler while the target is receiving; the state stays as it is when the transfer is over. */
  function TickOut(m: Machine): (r: Machine)
    requires Receiving(m.scsi) && Shape(m.f) && Usable(m) && m.io == TRANSFERRING
    ensures Receiving(r.scsi) && Shape(r.f)
  {
    hide DmaRead, EmptyFifo, Receiving, Shape;
    if m.scsi.phase == DATA_OUT then
      EmptyFifoKeeps(m);
      var e := EmptyFifo(m);
      var n := if m.dmaMode then DmaRead(e) else e;
      TransferDone(n, DATA_OUT).(armed := !Over(n, DATA_OUT))
    else TransferDone(m, DATA_IN).(armed := false)
  }

  lemma {:induction false} EmptyFifoKeeps(m: Machine)
    requires Receiving(m.scsi)
    ensures var r := EmptyFifo(m); r == m.(fifo := r.fifo, scsi := r.scsi, counter := r.counter)
    decreases |m.fifo|
  {
    hide Receiving, ReceiveData;
    if m.fifo != [] && m.counter > 0 && m.scsi.phase == DATA_OUT {
      ReceiveDataImage(m.scsi, m.fifo[0]);
      SpaceLeft(m.scsi);
      EmptyFifoKeeps(m.(fifo := m.fifo[1..], scsi := ReceiveData(m.scsi, m.fifo[0]), counter := m.counter - 1));
    }
  }

  lemma SpaceLeft(s: Scsi)
    requires Receiving(s) && s.phase == DATA_OUT
    ensures s.size < |s.data| && Mounted(s)
  {
  }
}

/** What every run of the I/O handler delivers. */
module EspTheorems {
  import opened Burst
  import opened ScsiDisk
  import opened EspModel

  /** Between the calls of the handler the guest loads the registers of the channel with what it likes, flushes the
      FIFO of the channel, or initialises it. */
  datatype Step = Tick | Program(ch: Channel) | Flushing | Initialise(offset: nat)

  function Bytes(cs: seq<Chunk>): seq<bv8> {
    if cs == [] then [] else Bytes(cs[..|cs| - 1]) + cs[|cs| - 1].bytes
  }

  lemma BytesAppend(cs: seq<Chunk>, c: Chunk)
    ensures Bytes(cs + [c]) == Bytes(cs) + c.bytes
  {
    assert (cs + [c])[..|cs|] == cs;
  }

  /** Memory with the chunks stored one after the other. */
  function PutAll(mem: seq<bv8>, cs: seq<Chunk>): (r: seq<bv8>)
    requires forall i :: 0 <= i < |cs| ==> cs[i].bytes != [] ==> cs[i].at + |cs[i].bytes| <= |mem|
    ensures |r| == |mem|
  {
    if cs == [] then mem else Put(PutAll(mem, cs[..|cs| - 1]), cs[|cs| - 1])
  }

  predicate Fit(cs: seq<Chunk>, size: nat) {
    forall i :: 0 <= i < |cs| ==> cs[i].bytes != [] ==> cs[i].at + |cs[i].bytes| <= size
  }

  lemma PutAllAppend(mem: seq<bv8>, cs: seq<Chunk>, c: Chunk)
    requires Fit(cs, |mem|) && (c.bytes != [] ==> c.at + |c.bytes| <= |mem|)
    ensures Fit(cs + [c], |mem|) && PutAll(mem, cs + [c]) == Put(PutAll(mem, cs), c)
  {
    assert (cs + [c])[..|cs|] == cs;
  }

  // ---------------------------------------------------------- from the disk to memory

  predicate In(m: Machine) {
    Sending(m.scsi) && Shape(m.f) && m.dmaMode && m.fifo == [] && Usable(m)
  }

  /** The chunk a tick stores. */
  function TickChunk(m: Machine): (c: Chunk)
    requires In(m)
    ensures c.bytes != [] ==> c.at + |c.bytes| <= |m.mem|
  {
    if m.io == FLUSHING || (m.io == TRANSFERRING && m.scsi.phase == DATA_IN) then WriteChunk(m) else Nothing(m)
  }

  /** want is what was asked for; start the memory at the beginning; cs what has been stored since; got what has left
      the FIFO since. */
  predicate Reading(m: Machine, want: seq<bv8>, count: nat, start: seq<bv8>, cs: seq<Chunk>, got: seq<bv8>) {
    Sending(m.scsi) && Shape(m.f) && m.dmaMode && m.fifo == [] && |m.mem| == |start| &&
    Fit(cs, |start|) && m.mem == PutAll(start, cs) &&
    got + Residual(m.f) + Supply(m) == want && m.counter + |got| + m.f.size == count &&
    (m.tc ==> m.counter == 0) && (m.io != TRANSFERRING ==> Supply(m) == [])
  }

  lemma DmaWriteMoves(m: Machine)
    requires In(m)
    ensures var r := DmaWrite(m);
      r == m.(counter := r.counter, scsi := r.scsi, ch := r.ch, f := r.f, mem := r.mem) &&
      r.mem == Put(m.mem, WriteChunk(m)) && Sending(r.scsi) &&
      Residual(m.f) + Supply(m) == WriteChunk(m).bytes + Residual(r.f) + Supply(r) &&
      m.counter + |Supply(r)| == r.counter + |Supply(m)| && |Supply(r)| <= |Supply(m)| &&
        Outcome(r.scsi) == Outcome(m.scsi)
  {
    hide Pump, SendBytes, Sending, Stream, Shape, Residual, Outcome, Interrupt, Conserved;
    if m.ch.enabled {
      var src := Supply(m);
      var p := Pump(m.ch.next, m.ch.limit, m.f, src);
      PumpConserves(m.ch.next, m.ch.limit, m.f, src);
      SendBytesSupply(m, p.used);
      Regroup(Residual(m.f), src, p.used, p.out, Residual(p.f));
    } else {
      assert [] + Residual(m.f) == Residual(m.f);
    }
  }

  lemma Regroup(waiting: seq<bv8>, src: seq<bv8>, used: nat, out: seq<bv8>, left: seq<bv8>)
    requires used <= |src| && Conserved(waiting, src[..used], out, left)
    ensures waiting + src == out + left + src[used..]
  {
    assert src == src[..used] + src[used..];
    assert waiting + (src[..used] + src[used..]) == (waiting + src[..used]) + src[used..];
  }

  lemma SupplyEnds(m: Machine)
    requires Sending(m.scsi) && m.fifo == []
    ensures m.counter == 0 || m.scsi.phase != DATA_IN <==> Supply(m) == []
  {
    hide Sending, Stream;
    ReadyIs(m);
  }

  lemma DoneKeeps(m: Machine)
    ensures var r := TransferDone(m, DATA_IN);
      r == m.(service := r.service, tc := r.tc) && (r.tc <==> m.counter == 0 || m.tc)
  {
  }

  lemma MoveReading(m: Machine, want: seq<bv8>, count: nat, start: seq<bv8>, cs: seq<Chunk>, got: seq<bv8>)
    requires In(m) && Reading(m, want, count, start, cs, got)
    ensures var r, c := DmaWrite(m), WriteChunk(m);
      r == m.(counter := r.counter, scsi := r.scsi, ch := r.ch, f := r.f, mem := r.mem) &&
      Sending(r.scsi) && Shape(r.f) && |r.mem| == |start| && r.fifo == [] &&
      Fit(cs + [c], |start|) && r.mem == PutAll(start, cs + [c]) &&
      got + c.bytes + Residual(r.f) + Supply(r) == want && r.counter + |got + c.bytes| + r.f.size == count &&
      Outcome(r.scsi) == Outcome(m.scsi) && (Supply(m) == [] ==> Supply(r) == [] && r.counter == m.counter)
    ensures m.counter == 0 ==> DmaWrite(m).counter == 0
  {
    hide DmaWrite, Sending, Stream, Supply, Shape, Residual, Outcome, Put, PutAll, Fit, Usable, WriteChunk;
    var c := WriteChunk(m);
    FitMeans(m, cs);
    PutAllAppend(start, cs, c);
    SupplyEnds(m);
    DmaWriteMoves(m);
    var n := DmaWrite(m);
    assert got + Residual(m.f) + Supply(m) == got + (Residual(m.f) + Supply(m));
    assert got + (c.bytes + Residual(n.f) + Supply(n)) == got + c.bytes + Residual(n.f) + Supply(n);
  }

  /** One tick: what was asked for is what has been stored, what waits and what is still to come. */
  lemma TickReading(m: Machine, want: seq<bv8>, count: nat, start: seq<bv8>, cs: seq<Chunk>, got: seq<bv8>)
    requires In(m) && Reading(m, want, count, start, cs, got)
    ensures var r := TickIn(m);
      Reading(r, want, count, start, cs + [TickChunk(m)], got + TickChunk(m).bytes) &&
      Outcome(r.scsi) == Outcome(m.scsi)
    ensures m.io == TRANSFERRING ==> (TickIn(m).tc <==> TickIn(m).counter == 0)
    ensures m.io != TRANSFERRING ==> TickIn(m).tc == m.tc && TickIn(m).counter == m.counter && TickIn(m).io == m.io
  {
    hide DmaWrite, Sending, Stream, Supply, Shape, Residual, Outcome, PutAll, Fit, Usable, WriteChunk, TransferDone;
    var c := TickChunk(m);
    SupplyEnds(m);
    if m.io == FLUSHING || (m.io == TRANSFERRING && m.scsi.phase == DATA_IN) {
      MoveReading(m, want, count, start, cs, got);
      var n := DmaWrite(m);
      SupplyEnds(n);
      DoneKeeps(n);
      SupplySame(n, TickIn(m));
    } else {
      FitMeans(m, cs);
      PutAllAppend(start, cs, c);
      DoneKeeps(m);
      SupplySame(m, TickIn(m));
      PutNothing(m.mem, c);
      assert got + c.bytes == got;
    }
  }

  // ---------------------------------------------------------- flushing and initialising

  /** Does dma_esp_flush_buffer store a long word? */
  predicate Flushes(m: Machine) {
    m.ch.enabled && m.ch.next < m.ch.limit
  }

  function FlushChunk(m: Machine): (c: Chunk)
    requires Shape(m.f) && Usable(m)
    ensures c.bytes != [] ==> c.at + |c.bytes| <= |m.mem|
  {
    if Flushes(m) then Chunk(m.ch.next, Flush(m.f).1) else Nothing(m)
  }

  /** The bytes of the FIFO that a flush stores; it fills the long word up with zeroes. */
  function FlushTake(m: Machine): (b: seq<bv8>)
    requires Shape(m.f)
  {
    if Flushes(m) then Residual(m.f)[..Min(4, m.f.size)] else []
  }

  /** dma_esp_flush_buffer on the way to memory */
  function FlushStep(m: Machine): (r: Machine)
    requires Shape(m.f) && Usable(m)
    ensures Shape(r.f) && |r.mem| == |m.mem|
  {
    if !m.ch.enabled then m
    else if Flushes(m) then
      m.(f := Flush(m.f).0, mem := Put(m.mem, FlushChunk(m)), ch := Interrupt(m.ch.(next := m.ch.next + 4)))
    else m.(ch := Interrupt(m.ch))
  }

  /** dma_initialize_buffer: what waits is lost, and the FIFO starts at a long word. */
  function Initialised(m: Machine, offset: nat): (r: Machine)
    requires Shape(m.f) && offset < BURST
    ensures Shape(r.f)
  {
    m.(f := Fifo(m.f.buf, 0, offset))
  }

  lemma FlushPads(m: Machine)
    requires Shape(m.f) && Usable(m)
    ensures var c, b, r := FlushChunk(m), FlushTake(m), FlushStep(m);
      Residual(m.f) == b + Residual(r.f) && |b| <= |c.bytes| && c.bytes == b + Zeroes(|c.bytes| - |b|) &&
      (|b| < |c.bytes| ==> r.f.size == 0)
  {
    if Flushes(m) && m.f.size >= 4 {
      DropResidual(m.f, 4);
      assert Residual(m.f)[..4] == Residual(m.f)[..4] + Zeroes(0);
    }
  }

  lemma FlushReading(m: Machine, want: seq<bv8>, count: nat, start: seq<bv8>, cs: seq<Chunk>, got: seq<bv8>)
    requires Usable(m) && Reading(m, want, count, start, cs, got)
    ensures var r := FlushStep(m);
      Reading(r, want, count, start, cs + [FlushChunk(m)], got + FlushTake(m)) && r.scsi == m.scsi &&
      r.tc == m.tc && r.counter == m.counter && r.io == m.io
  {
    hide Sending, Stream, Supply, Shape, Residual, Put, PutAll, Fit, Usable, FlushTake, FlushChunk, Flush;
    var c, b, r := FlushChunk(m), FlushTake(m), FlushStep(m);
    FitMeans(m, cs);
    PutAllAppend(start, cs, c);
    FlushPads(m);
    FlushPuts(m);
    SupplySame(m, r);
    assert got + (b + Residual(r.f)) + Supply(r) == got + b + Residual(r.f) + Supply(r);
  }

  lemma FlushPuts(m: Machine)
    requires Shape(m.f) && Usable(m)
    ensures var r := FlushStep(m); r.mem == Put(m.mem, FlushChunk(m)) && r == m.(f := r.f, mem := r.mem, ch := r.ch)
  {
    hide Flush, Interrupt;
  }

  lemma InitialiseReading(m: Machine, offset: nat, want: seq<bv8>, count: nat, start: seq<bv8>,
                          cs: seq<Chunk>, got: seq<bv8>)
    requires offset < BURST && Reading(m, want, count, start, cs, got)
    ensures Reading(Initialised(m, offset), want, count, start, cs + [Nothing(m)], got + Residual(m.f))
  {
    hide Sending, Stream, Supply, Put, PutAll, Fit;
    var r := Initialised(m, offset);
    FitMeans(m, cs);
    PutAllAppend(start, cs, Nothing(m));
    PutNothing(m.mem, Nothing(m));
    SupplySame(m, r);
    assert Residual(r.f) == [];
    assert got + Residual(m.f) + [] + Supply(r) == got + Residual(m.f) + Supply(m);
  }

  lemma ProgramReading(m: Machine, ch: Channel, want: seq<bv8>, count: nat, start: seq<bv8>,
                       cs: seq<Chunk>, got: seq<bv8>)
    requires Reading(m, want, count, start, cs, got)
    ensures Reading(m.(ch := ch), want, count, start, cs + [Nothing(m)], got + [])
  {
    hide Sending, Stream, Supply, Residual, Put, PutAll, Fit;
    FitMeans(m, cs);
    PutAllAppend(start, cs, Nothing(m));
    PutNothing(m.mem, Nothing(m));
    SupplySame(m, m.(ch := ch));
    assert got + [] == got;
  }

  lemma FitMeans(m: Machine, cs: seq<Chunk>)
    requires Fit(cs, |m.mem|)
    ensures forall i :: 0 <= i < |cs| ==> cs[i].bytes != [] ==> cs[i].at + |cs[i].bytes| <= |m.mem|
  {
  }

  lemma PutNothing(mem: seq<bv8>, c: Chunk)
    requires c.bytes == []
    ensures Put(mem, c) == mem
  {
  }

  lemma SupplySame(m: Machine, n: Machine)
    requires Sending(m.scsi) && n.scsi == m.scsi && n.fifo == m.fifo && n.counter == m.counter
    ensures Supply(n) == Supply(m)
  {
  }

  // ---------------------------------------------------------- runs

  /** At every tick and flush the registers of an enabled channel are aligned and its buffer lies in memory. */
  predicate Able(m: Machine, st: Step) {
    match st
    case Program(_) => true
    case Initialise(offset) => offset < BURST && Quad(offset)
    case _ => Usable(m)
  }

  predicate Primed(m: Machine) {
    Sending(m.scsi) && Shape(m.f) && m.dmaMode && m.fifo == []
  }

  function After(m: Machine, st: Step): (r: Machine)
    requires Primed(m) && Able(m, st)
    ensures Primed(r)
  {
    hide Sending, Shape, TickIn;
    match st
    case Tick => TickFrame(m); TickIn(m)
    case Program(ch) => m.(ch := ch)
    case Flushing => FlushPuts(m); FlushStep(m)
    case Initialise(offset) => Initialised(m, offset)
  }

  /** What a step stores in memory. */
  function StepChunk(m: Machine, st: Step): (c: Chunk)
    requires Primed(m) && Able(m, st)
  {
    match st
    case Tick => TickChunk(m)
    case Flushing => FlushChunk(m)
    case _ => Nothing(m)
  }

  /** What leaves the FIFO, into memory or for good. */
  function StepTake(m: Machine, st: Step): seq<bv8>
    requires Primed(m) && Able(m, st)
  {
    match st
    case Tick => TickChunk(m).bytes
    case Flushing => FlushTake(m)
    case Initialise(_) => Residual(m.f)
    case Program(_) => []
  }

  lemma StepReading(m: Machine, st: Step, want: seq<bv8>, count: nat, start: seq<bv8>, cs: seq<Chunk>, got: seq<bv8>)
    requires Primed(m) && Able(m, st) && Reading(m, want, count, start, cs, got)
    ensures var r := After(m, st);
      Reading(r, want, count, start, cs + [StepChunk(m, st)], got + StepTake(m, st)) &&
      Outcome(r.scsi) == Outcome(m.scsi)
    ensures m.io == TRANSFERRING && st.Tick? ==> (After(m, st).tc <==> After(m, st).counter == 0)
    ensures m.io != TRANSFERRING || !st.Tick? ==>
      After(m, st).tc == m.tc && After(m, st).counter == m.counter && After(m, st).io == m.io
  {
    hide Reading, TickIn, Outcome, TickChunk, FlushTake, FlushChunk, FlushStep, Residual, Shape, Sending, Usable;
    match st
    case Tick => TickReading(m, want, count, start, cs, got);
    case Flushing => FlushReading(m, want, count, start, cs, got);
    case Initialise(offset) => InitialiseReading(m, offset, want, count, start, cs, got);
    case Program(ch) => ProgramReading(m, ch, want, count, start, cs, got);
  }

  predicate Runnable(m: Machine, steps: seq<Step>)
    requires Primed(m)
    decreases |steps|
  {
    steps == [] || (Able(m, steps[0]) && Runnable(After(m, steps[0]), steps[1..]))
  }

  lemma TickFrame(m: Machine)
    requires In(m)
    ensures var r := TickIn(m); Sending(r.scsi) && Shape(r.f) && r.dmaMode && r.fifo == [] && |r.mem| == |m.mem|
  {
    hide DmaWrite, Sending, Shape, Stream, Outcome, Supply, Residual;
    DmaWriteMoves(m);
    DmaWriteFifo(m);
  }

  lemma DmaWriteFifo(m: Machine)
    requires In(m)
    ensures DmaWrite(m).fifo == [] && DmaWrite(m).dmaMode && |DmaWrite(m).mem| == |m.mem|
  {
    hide SendBytes, Sending, Stream, Shape, Residual, Outcome, Interrupt, Supply, Pump;
    if m.ch.enabled {
      SendBytesSupply(m, Pump(m.ch.next, m.ch.limit, m.f, Supply(m)).used);
    }
  }

  function RunSteps(m: Machine, steps: seq<Step>): (r: Machine)
    requires Primed(m) && Runnable(m, steps)
    ensures Primed(r)
    decreases |steps|
  {
    if steps == [] then m else RunSteps(After(m, steps[0]), steps[1..])
  }

  /** What each step of a run stores. */
  function Chunks(m: Machine, steps: seq<Step>): (cs: seq<Chunk>)
    requires Primed(m) && Runnable(m, steps)
    ensures |cs| == |steps|
    decreases |steps|
  {
    if steps == [] then [] else [StepChunk(m, steps[0])] + Chunks(After(m, steps[0]), steps[1..])
  }

  /** What leaves the FIFO in each step. */
  function Takes(m: Machine, steps: seq<Step>): (bs: seq<seq<bv8>>)
    requires Primed(m) && Runnable(m, steps)
    ensures |bs| == |steps|
    decreases |steps|
  {
    if steps == [] then [] else [StepTake(m, steps[0])] + Takes(After(m, steps[0]), steps[1..])
  }

  function Flat(bs: seq<seq<bv8>>): seq<bv8> {
    if bs == [] then [] else bs[0] + Flat(bs[1..])
  }

  lemma {:induction false} RunReading(m: Machine, want: seq<bv8>, count: nat,
    start: seq<bv8>, cs: seq<Chunk>, got: seq<bv8>, steps: seq<Step>)
    requires Primed(m) && Reading(m, want, count, start, cs, got) && Runnable(m, steps)
    ensures var r := RunSteps(m, steps);
      Reading(r, want, count, start, cs + Chunks(m, steps), got + Flat(Takes(m, steps))) &&
      Outcome(r.scsi) == Outcome(m.scsi)
    ensures (m.tc <==> m.counter == 0) || (m.io == TRANSFERRING && Tick in steps) ==>
      (RunSteps(m, steps).tc <==> RunSteps(m, steps).counter == 0)
    decreases |steps|
  {
    hide Reading, After, Able, Outcome, StepChunk, StepTake, Primed;
    if steps == [] {
      assert cs + [] == cs && got + [] == got;
    } else {
      var st := steps[0];
      var n, c, b := After(m, st), StepChunk(m, st), StepTake(m, st);
      StepReading(m, st, want, count, start, cs, got);
      RunReading(n, want, count, start, cs + [c], got + b, steps[1..]);
      assert cs + [c] + Chunks(n, steps[1..]) == cs + ([c] + Chunks(n, steps[1..]));
      var bs := Takes(n, steps[1..]);
      assert ([b] + bs)[1..] == bs;
      assert got + b + Flat(bs) == got + (b + Flat(bs));
    }
  }

  lemma TickAligned(m: Machine)
    requires In(m) && ToMemory(m.f)
    ensures ToMemory(TickIn(m).f)
  {
    hide Pump, SendBytes, Sending, Stream, Residual, Outcome, Supply;
    if m.ch.enabled {
      assert Quad(m.ch.limit - m.ch.next);
      PumpAligned(m.ch.next, m.ch.limit, m.f, Supply(m));
    }
  }

  /** In every run whole long words leave the FIFO, so that what waits starts at one. */
  lemma {:induction false} RunAligned(m: Machine, steps: seq<Step>)
    requires Primed(m) && Runnable(m, steps) && ToMemory(m.f)
    ensures ToMemory(RunSteps(m, steps).f)
    decreases |steps|
  {
    hide TickIn, Sending, Flush, Usable;
    if steps != [] {
      match steps[0] {
        case Tick => TickAligned(m);
        case Flushing => FlushConserves(m.f);
        case _ =>
      }
      RunAligned(After(m, steps[0]), steps[1..]);
    }
  }

  /** What a step stores is what leaves the FIFO.  Only a flush adds to it, zeroes behind the last bytes of the FIFO,
      and only initialising stores nothing of it. */
  predicate Stores(st: Step, c: Chunk, b: seq<bv8>) {
    match st
    case Flushing => |b| <= |c.bytes| <= 4 && c.bytes == b + Zeroes(|c.bytes| - |b|)
    case Initialise(_) => c.bytes == []
    case _ => c.bytes == b
  }

  lemma {:induction false} RunStores(m: Machine, steps: seq<Step>)
    requires Primed(m) && Runnable(m, steps)
    ensures forall k :: 0 <= k < |steps| ==> Stores(steps[k], Chunks(m, steps)[k], Takes(m, steps)[k])
    decreases |steps|
  {
    hide After, TickChunk, FlushTake, FlushChunk, Shape, Sending, Residual, Usable, FlushStep;
    if steps != [] {
      RunStores(After(m, steps[0]), steps[1..]);
      if steps[0].Flushing? {
        FlushPads(m);
        FlushSize(m);
      }
    }
  }

  lemma FlushSize(m: Machine)
    requires Shape(m.f) && Usable(m)
    ensures |FlushChunk(m).bytes| <= 4
  {
  }

  /** The channel is neither flushed nor initialised. */
  predicate Plain(steps: seq<Step>) {
    forall k :: 0 <= k < |steps| ==> steps[k].Tick? || steps[k].Program?
  }

  lemma {:induction false} BytesFront(c: Chunk, cs: seq<Chunk>)
    ensures Bytes([c] + cs) == c.bytes + Bytes(cs)
    decreases |cs|
  {
    if cs == [] {
      BytesAppend([], c);
      assert [] + [c] == [c] + cs;
    } else {
      var n := |cs| - 1;
      BytesFront(c, cs[..n]);
      var head := cs[..n];
      assert cs == head + [cs[n]] && [c] + cs == ([c] + head) + [cs[n]];
      hide Bytes;
      BytesAppend(head, cs[n]);
      BytesAppend([c] + head, cs[n]);
      assert c.bytes + Bytes(head) + cs[n].bytes == c.bytes + (Bytes(head) + cs[n].bytes);
    }
  }

  /** Then all that leaves the FIFO is stored as it is. */
  lemma {:induction false} PlainStores(m: Machine, steps: seq<Step>)
    requires Primed(m) && Runnable(m, steps) && Plain(steps)
    ensures Flat(Takes(m, steps)) == Bytes(Chunks(m, steps))
    decreases |steps|
  {
    hide After, TickChunk, Primed, Able;
    if steps != [] {
      var n, c, b := After(m, steps[0]), StepChunk(m, steps[0]), StepTake(m, steps[0]);
      PlainStores(n, steps[1..]);
      BytesFront(c, Chunks(n, steps[1..]));
      assert ([b] + Takes(n, steps[1..]))[1..] == Takes(n, steps[1..]);
    }
  }

  /** READ, from the command to memory: over any ticks of the handler and any loading, flushing and initialising of the
      channel, what has left the FIFO and what waits in it is a beginning of the blocks asked for, as far as the disk
      goes, and no more than the transfer counter allows. */
  lemma ReadEndToEnd(s: Scsi, cdb: seq<bv8>, m: Machine, steps: seq<Step>)
    requires Mounted(s) && |cdb| >= 10 && m.scsi == ReadSector(s, cdb) && m.fifo == [] && m.dmaMode
    requires Shape(m.f) && m.f.size == 0 && m.io == TRANSFERRING && !m.tc
    requires Sending(m.scsi) && Runnable(m, steps)
    ensures var want, r, cs, bs := Wanted(s, cdb, m.counter), RunSteps(m, steps), Chunks(m, steps), Takes(m, steps);
      var got := Flat(bs);
      Fit(cs, |m.mem|) && r.mem == PutAll(m.mem, cs) &&
      (forall k :: 0 <= k < |steps| ==> Stores(steps[k], cs[k], bs[k])) && (Plain(steps) ==> got == Bytes(cs)) &&
      got + Residual(r.f) <= want && |got| + r.f.size + r.counter == m.counter &&
      (r.counter == 0 || r.scsi.phase != DATA_IN ==> got + Residual(r.f) == want) &&
      (r.scsi.phase != DATA_IN ==> r.scsi.sense == SenseAfter(NO_SENSE, GetOffset(cdb), GetCount(cdb), Size(s)))
    ensures Tick in steps ==> (RunSteps(m, steps).tc <==> RunSteps(m, steps).counter == 0)
  {
    hide ReadSector, Sending, Stream, Supply, Residual, Outcome, PutAll, Bytes, Usable, RunSteps, Chunks, Takes, Flat,
      GetOffset, GetCount, Size, Runnable, Blocks, Stores, Plain;
    ReadSectorStream(s, cdb);
    StartReading(m);
    RunReading(m, Supply(m), m.counter, m.mem, [], [], steps);
    var r, cs, got := RunSteps(m, steps), Chunks(m, steps), Flat(Takes(m, steps));
    assert [] + cs == cs && [] + got == got;
    RunStores(m, steps);
    if Plain(steps) {
      PlainStores(m, steps);
    }
    SupplyEnds(r);
    assert got + Residual(r.f) + [] == got + Residual(r.f);
    SenseOf(r.scsi);
    SupplyIs(m);
  }

  /** The bytes a READ asks for: the blocks that exist, up to the transfer counter. */
  function Wanted(s: Scsi, cdb: seq<bv8>, counter: nat): seq<bv8>
    requires Mounted(s) && |cdb| >= 10
  {
    var b := Blocks(s.image, s.blocksize, GetOffset(cdb), GetCount(cdb));
    b[..Min(counter, |b|)]
  }

  /** Inside the image these are its bytes from block lba on. */
  lemma WantedInside(s: Scsi, cdb: seq<bv8>, counter: nat)
    requires Mounted(s) && |cdb| >= 10 && GetOffset(cdb) + GetCount(cdb) <= Size(s)
    ensures var a, n := Off(GetOffset(cdb), s.blocksize), Off(GetCount(cdb), s.blocksize);
      a + n <= |s.image| && Wanted(s, cdb, counter) == s.image[a..a + Min(counter, n)]
  {
    hide Off, GetOffset, GetCount, Blocks, Size;
    var lba, n := GetOffset(cdb), GetCount(cdb);
    OffSum(lba, n, s.blocksize);
    SizeOff(s, lba + n);
    BlocksAre(s.image, s.blocksize, lba, n);
  }

  lemma SizeOff(s: Scsi, blocks: nat)
    requires Mounted(s) && blocks <= Size(s)
    ensures Off(blocks, s.blocksize) <= |s.image|
  {
    OffRoom(0, s.blocksize, |s.image|);
    OffMonotone(blocks, Size(s), s.blocksize);
  }

  lemma StartReading(m: Machine)
    requires Sending(m.scsi) && Shape(m.f) && m.f.size == 0 && m.dmaMode &&
      m.fifo == [] && !m.tc && m.io == TRANSFERRING
    ensures Reading(m, Supply(m), m.counter, m.mem, [], [])
  {
    hide Stream, Sending;
    assert [] + Residual(m.f) + Supply(m) == Supply(m);
  }

  lemma SupplyIs(m: Machine)
    requires Sending(m.scsi) && m.fifo == []
    ensures Supply(m) == Stream(m.scsi)[..Min(m.counter, |Stream(m.scsi)|)]
  {
    hide Stream, Sending;
  }

  lemma SenseOf(s: Scsi)
    requires Sending(s)
    ensures s.phase != DATA_IN ==> Outcome(s) == s.sense
  {
  }

  // ---------------------------------------------------------- progress

  /** A call takes all the device can send, or it fills the memory up to the limit. */
  lemma DmaWriteProgress(m: Machine)
    requires In(m) && m.ch.enabled && m.ch.next <= m.ch.limit
    ensures Supply(DmaWrite(m)) == [] || DmaWrite(m).ch.complete
  {
    hide Pump, SendBytes, Sending, Stream, Shape, Residual, Outcome, Supply;
    var src := Supply(m);
    var p := Pump(m.ch.next, m.ch.limit, m.f, src);
    PumpExhausts(m.ch.next, m.ch.limit, m.f, src);
    SendBytesSupply(m, p.used);
    SupplySame(SendBytes(m, p.used), DmaWrite(m));
  }

  // ---------------------------------------------------------- one buffer

  /** The channel is neither loaded nor initialised. */
  predicate OneBuffer(steps: seq<Step>) {
    forall k :: 0 <= k < |steps| ==> steps[k].Tick? || steps[k].Flushing?
  }

  /** The chunks follow one another from address a on. */
  predicate Contiguous(a: nat, cs: seq<Chunk>) {
    forall i :: 0 <= i < |cs| ==> cs[i].bytes != [] ==> cs[i].at == a + |Bytes(cs[..i])|
  }

  lemma ContiguousInit(mem: seq<bv8>, a: nat, cs: seq<Chunk>)
    requires cs != [] && Fit(cs, |mem|) && Contiguous(a, cs)
    ensures var n := |cs| - 1;
      Fit(cs[..n], |mem|) && Contiguous(a, cs[..n]) &&
      (cs[n].bytes != [] ==> cs[n].at == a + |Bytes(cs[..n])| && cs[n].at + |cs[n].bytes| <= |mem|)
  {
    hide Bytes;
    var n := |cs| - 1;
    assert forall i :: 0 <= i < n ==> cs[..n][..i] == cs[..i];
  }

  lemma {:induction false} ContiguousPut(mem: seq<bv8>, a: nat, cs: seq<Chunk>)
    requires Fit(cs, |mem|) && Contiguous(a, cs) && a <= |mem|
    ensures a + |Bytes(cs)| <= |mem| && PutAll(mem, cs) == Store(mem, a, Bytes(cs))
    decreases |cs|
  {
    hide Contiguous, Store;
    if cs != [] {
      var n := |cs| - 1;
      ContiguousInit(mem, a, cs);
      ContiguousPut(mem, a, cs[..n]);
      if cs[n].bytes != [] {
        StoreTwo(mem, a, Bytes(cs[..n]), cs[n].bytes);
      } else {
        assert Bytes(cs[..n]) + cs[n].bytes == Bytes(cs[..n]);
      }
    } else {
      StoreNothing(mem, a);
    }
  }

  predicate Filling(m: Machine, a: nat, cs: seq<Chunk>) {
    Contiguous(a, cs) && !m.ch.supdate && (m.ch.enabled ==> m.ch.next == a + |Bytes(cs)|)
  }

  lemma FillingTick(m: Machine)
    requires In(m) && !m.ch.supdate
    ensures var r, c := TickIn(m), TickChunk(m);
      !r.ch.supdate && (r.ch.enabled ==> m.ch.enabled && r.ch.next == m.ch.next + |c.bytes|)
    ensures TickChunk(m).bytes != [] ==> m.ch.enabled && TickChunk(m).at == m.ch.next
  {
    hide Pump, SendBytes, Sending, Stream, Shape, Residual, Outcome, Supply, Usable;
    if m.ch.enabled {
      SendBytesSupply(m, Pump(m.ch.next, m.ch.limit, m.f, Supply(m)).used);
    }
  }

  lemma FillingStep(m: Machine, a: nat, cs: seq<Chunk>, st: Step)
    requires Primed(m) && Able(m, st) && (st.Tick? || st.Flushing?) && Filling(m, a, cs)
    ensures Filling(After(m, st), a, cs + [StepChunk(m, st)])
  {
    hide Shape, Sending, Usable, TickIn, TickChunk, Bytes, Flush, Residual;
    var c, more := StepChunk(m, st), cs + [StepChunk(m, st)];
    BytesAppend(cs, c);
    if st.Tick? {
      FillingTick(m);
    }
    forall i | 0 <= i < |more| && more[i].bytes != [] ensures more[i].at == a + |Bytes(more[..i])| {
      if i < |cs| {
        assert more[..i] == cs[..i] && more[i] == cs[i];
      } else {
        assert more[..i] == cs;
      }
    }
  }

  lemma {:induction false} FillingRun(m: Machine, a: nat, cs: seq<Chunk>, steps: seq<Step>)
    requires Primed(m) && Runnable(m, steps) && Filling(m, a, cs) && OneBuffer(steps)
    ensures Filling(RunSteps(m, steps), a, cs + Chunks(m, steps))
    decreases |steps|
  {
    hide Primed, Able, After, Filling, StepChunk;
    if steps == [] {
      assert cs + [] == cs;
    } else {
      var n, c := After(m, steps[0]), StepChunk(m, steps[0]);
      FillingStep(m, a, cs, steps[0]);
      FillingRun(n, a, cs + [c], steps[1..]);
      assert cs + [c] + Chunks(n, steps[1..]) == cs + ([c] + Chunks(n, steps[1..]));
    }
  }

  /** Into one buffer: memory from its start on holds what has been stored, and nothing else has changed. */
  lemma ReadIntoOneBuffer(m: Machine, steps: seq<Step>)
    requires Sending(m.scsi) && Shape(m.f) && m.f.size == 0 && m.dmaMode &&
      m.fifo == [] && !m.tc && m.io == TRANSFERRING
    requires Runnable(m, steps) && OneBuffer(steps) && !m.ch.supdate && m.ch.next <= |m.mem|
    ensures var got := Bytes(Chunks(m, steps));
      m.ch.next + |got| <= |m.mem| && RunSteps(m, steps).mem == Store(m.mem, m.ch.next, got)
  {
    hide Sending, Shape, After, Able, Runnable, RunSteps, Chunks, Takes, Flat, Supply, Residual;
    StartReading(m);
    RunReading(m, Supply(m), m.counter, m.mem, [], [], steps);
    FillingRun(m, m.ch.next, [], steps);
    var cs := Chunks(m, steps);
    assert [] + cs == cs;
    ContiguousPut(m.mem, m.ch.next, cs);
  }

  predicate AllFlushing(steps: seq<Step>) {
    forall k :: 0 <= k < |steps| ==> steps[k].Flushing?
  }

  /** Ticks, and then flushes. */
  predicate Drains(steps: seq<Step>) {
    AllFlushing(steps) || (steps[0].Tick? && Drains(steps[1..]))
  }

  lemma {:induction false} DrainsOne(steps: seq<Step>)
    requires Drains(steps)
    ensures OneBuffer(steps)
  {
    if !AllFlushing(steps) {
      DrainsOne(steps[1..]);
      assert forall k :: 0 < k < |steps| ==> steps[k] == steps[1..][k - 1];
    }
  }

  lemma ZeroesJoin(b: seq<bv8>, z: nat, n: nat)
    ensures b + Zeroes(z) + Zeroes(n) == b + Zeroes(z + n)
  {
  }

  /** got is left with zeroes behind it, and only zeroes when the FIFO is empty. */
  predicate Padded(left: seq<bv8>, got: seq<bv8>, f: Fifo) {
    |left| <= |got| && got == left + Zeroes(|got| - |left|) && (|left| < |got| ==> f.size == 0)
  }

  lemma PaddedFront(b: seq<bv8>, left: seq<bv8>, got: seq<bv8>, f: Fifo)
    requires Padded(left, got, f)
    ensures Padded(b + left, b + got, f)
  {
    assert b + (left + Zeroes(|got| - |left|)) == b + left + Zeroes(|got| - |left|);
  }

  lemma PaddedFlush(b: seq<bv8>, c: seq<bv8>, got: seq<bv8>, f: Fifo)
    requires |b| <= |c| && c == b + Zeroes(|c| - |b|) && Padded([], got, f) && f.size == 0
    ensures Padded(b, c + got, f)
  {
    ZeroesJoin(b, |c| - |b|, |got|);
    assert got == Zeroes(|got|);
  }

  /** What is stored is what has left the FIFO, with zeroes only behind its last bytes. */
  lemma {:induction false} DrainStores(m: Machine, steps: seq<Step>)
    requires Primed(m) && Runnable(m, steps) && Drains(steps)
    ensures Padded(Flat(Takes(m, steps)), Bytes(Chunks(m, steps)), RunSteps(m, steps).f)
    ensures AllFlushing(steps) && m.f.size == 0 ==> Flat(Takes(m, steps)) == [] && RunSteps(m, steps).f.size == 0
    decreases |steps|
  {
    hide Primed, Bytes, Able, After, StepChunk, StepTake, Padded;
    if steps == [] {
      assert Padded([], Bytes([]), m.f) by { PaddedNone(m.f); }
    } else {
      var n, c, b, rest := After(m, steps[0]), StepChunk(m, steps[0]), StepTake(m, steps[0]), steps[1..];
      assert AllFlushing(steps) ==> AllFlushing(rest);
      DrainStores(n, rest);
      BytesFront(c, Chunks(n, rest));
      assert ([b] + Takes(n, rest))[1..] == Takes(n, rest);
      var left, got, f := Flat(Takes(n, rest)), Bytes(Chunks(n, rest)), RunSteps(n, rest).f;
      DrainStep(m, steps[0]);
      if c.bytes == b {
        PaddedFront(b, left, got, f);
      } else {
        PaddedFlush(b, c.bytes, got, f);
        assert b + left == b;
      }
    }
  }

  lemma DrainStep(m: Machine, st: Step)
    requires Primed(m) && Able(m, st)
    ensures var n, c, b := After(m, st), StepChunk(m, st), StepTake(m, st);
      (st.Tick? ==> c.bytes == b) &&
      (st.Flushing? ==>
         |b| + n.f.size == m.f.size && |b| <= |c.bytes| && c.bytes == b + Zeroes(|c.bytes| - |b|) &&
         (|b| < |c.bytes| ==> n.f.size == 0) && (|b| == |c.bytes| ==> c.bytes == b))
  {
    hide Sending, Shape, Usable, TickIn, TickChunk, FlushStep, FlushTake, FlushChunk, Residual, Zeroes;
    if st.Flushing? {
      FlushPads(m);
      NoZeroes(StepTake(m, st));
    }
  }

  lemma PaddedNone(f: Fifo)
    ensures Padded([], Bytes([]), f)
  {
    NoZeroes([]);
  }

  lemma NoZeroes(b: seq<bv8>)
    ensures b + Zeroes(0) == b
  {
  }

  /** A buffer that is filled by ticks and then flushed: memory holds a beginning of what was asked for, all of it once
      the counter is 0 and the FIFO empty, and behind it nothing but the zeroes of the last long words. */
  lemma ReadThenFlush(m: Machine, steps: seq<Step>)
    requires Sending(m.scsi) && Shape(m.f) && m.f.size == 0 && m.dmaMode &&
      m.fifo == [] && !m.tc && m.io == TRANSFERRING
    requires Runnable(m, steps) && Drains(steps) && !m.ch.supdate && m.ch.next <= |m.mem|
    ensures var r, left, got := RunSteps(m, steps), Flat(Takes(m, steps)), Bytes(Chunks(m, steps));
      m.ch.next + |got| <= |m.mem| && r.mem == Store(m.mem, m.ch.next, got) &&
      Padded(left, got, r.f) && left <= Supply(m) && (r.counter == 0 && r.f.size == 0 ==> left == Supply(m))
  {
    hide Sending, Shape, After, Able, Runnable, RunSteps, Chunks, Takes, Flat, Supply, Residual, Padded, Drains;
    StartReading(m);
    DrainsOne(steps);
    ReadIntoOneBuffer(m, steps);
    DrainStores(m, steps);
    RunReading(m, Supply(m), m.counter, m.mem, [], [], steps);
    var r, left := RunSteps(m, steps), Flat(Takes(m, steps));
    assert [] + left == left;
    SupplyEnds(r);
    assert left + Residual(r.f) + Supply(r) == left + (Residual(r.f) + Supply(r));
    if r.f.size == 0 {
      assert left + Residual(r.f) + Supply(r) == left + Supply(r);
    }
  }

  // ---------------------------------------------------------- from memory to the disk

  predicate Out(m: Machine) {
    Receiving(m.scsi) && Shape(m.f) && m.dmaMode && m.fifo == [] && m.io == TRANSFERRING && Usable(m)
  }

  function TickLoad(m: Machine): Chunk
    requires Out(m)
  {
    if m.scsi.phase == DATA_OUT then ReadChunk(m) else Nothing(m)
  }

  /** The part of the bytes read that has reached the device. */
  function Given(cs: seq<Chunk>, f: Fifo): (g: seq<bv8>)
    requires f.size <= |Bytes(cs)|
  {
    Bytes(cs)[..|Bytes(cs)| - f.size]
  }

  lemma {:induction false} FeedAppend(s: Scsi, a: seq<bv8>, b: seq<bv8>)
    requires Receiving(s) && |a| <= Capacity(s) && |b| <= Capacity(Feed(s, a))
    ensures |a + b| <= Capacity(s) && Feed(s, a + b) == Feed(Feed(s, a), b)
    decreases |a|
  {
    hide Capacity, Receiving, ReceiveData;
    if a == [] {
      assert a + b == b;
    } else {
      FeedStep(s, a);
      FeedAppend(ReceiveData(s, a[0]), a[1..], b);
      assert (a + b)[1..] == a[1..] + b;
    }
  }

  /** s is the target at the beginning. */
  predicate Writing(m: Machine, s: Scsi, count: nat, start: seq<bv8>, cs: seq<Chunk>) {
    Receiving(s) && Receiving(m.scsi) && Shape(m.f) && m.dmaMode &&
      m.fifo == [] && m.io == TRANSFERRING && m.mem == start &&
    m.f.size <= |Bytes(cs)| && Bytes(cs) == Given(cs, m.f) + Residual(m.f) &&
    |Given(cs, m.f)| <= Capacity(s) && m.scsi == Feed(s, Given(cs, m.f)) &&
    m.counter + |Given(cs, m.f)| == count && (m.tc ==> m.counter == 0)
  }

  lemma DmaReadMoves(m: Machine)
    requires Out(m) && m.scsi.phase == DATA_OUT
    ensures var r, c := DmaRead(m), ReadChunk(m);
      r == m.(counter := r.counter, scsi := r.scsi, ch := r.ch, f := r.f) && Receiving(r.scsi) && Shape(r.f) &&
      r.f.size <= m.f.size + |c.bytes| &&
      var g := (Residual(m.f) + c.bytes)[..m.f.size + |c.bytes| - r.f.size];
      Residual(m.f) + c.bytes == g + Residual(r.f) && |g| <= Capacity(m.scsi) && r.scsi == Feed(m.scsi, g) &&
      r.counter + |g| == m.counter
  {
    hide Push, Receiving, Shape, Residual, Interrupt, Conserved, Capacity, Usable, Accepts;
    if m.ch.enabled {
      var bytes := Pending(m);
      var p := Push(m.f, bytes, Accepts(m));
      PushConserves(m.f, bytes, Accepts(m));
      GiveOk(m, p.out);
      GivenIs(Residual(m.f), bytes[..p.used], p.out, Residual(p.f));
    } else {
      GivenIs(Residual(m.f), [], [], Residual(m.f));
      NoneGiven(m.scsi);
    }
  }

  lemma GivenIs(waiting: seq<bv8>, taken: seq<bv8>, out: seq<bv8>, left: seq<bv8>)
    ensures Conserved(waiting, taken, out, left) <==> waiting + taken == out + left
    ensures waiting + taken == out + left ==>
      |left| <= |waiting + taken| && (waiting + taken)[..|waiting| + |taken| - |left|] == out
  {
  }

  lemma NoneGiven(s: Scsi)
    requires Receiving(s) && s.phase == DATA_OUT
    ensures Capacity(s) > 0 && Feed(s, []) == s
  {
    TakenCapacity(s);
  }

  lemma GivenMore(cs: seq<Chunk>, c: Chunk, f: Fifo, f': Fifo, g: seq<bv8>)
    requires Shape(f) && Shape(f') && f.size <= |Bytes(cs)| && Bytes(cs) == Given(cs, f) + Residual(f)
    requires Residual(f) + c.bytes == g + Residual(f')
    ensures f'.size <= |Bytes(cs + [c])| && Given(cs + [c], f') == Given(cs, f) + g
    ensures Bytes(cs + [c]) == Given(cs + [c], f') + Residual(f')
  {
    hide Residual, Bytes;
    BytesAppend(cs, c);
    var g0 := Given(cs, f);
    assert Bytes(cs) + c.bytes == g0 + (Residual(f) + c.bytes);
    assert g0 + (g + Residual(f')) == (g0 + g) + Residual(f');
  }

  lemma MoveWriting(m: Machine, s: Scsi, count: nat, start: seq<bv8>, cs: seq<Chunk>)
    requires Out(m) && Writing(m, s, count, start, cs) && m.scsi.phase == DATA_OUT
    ensures Writing(DmaRead(m), s, count, start, cs + [ReadChunk(m)])
  {
    hide DmaRead, Receiving, Shape, Residual, Capacity, Usable, ReadChunk, Bytes, Given;
    var c, n := ReadChunk(m), DmaRead(m);
    DmaReadMoves(m);
    var g := (Residual(m.f) + c.bytes)[..m.f.size + |c.bytes| - n.f.size];
    FeedAppend(s, Given(cs, m.f), g);
    GivenMore(cs, c, m.f, n.f, g);
  }

  lemma TickWriting(m: Machine, s: Scsi, count: nat, start: seq<bv8>, cs: seq<Chunk>)
    requires Out(m) && Writing(m, s, count, start, cs)
    ensures Writing(TickOut(m), s, count, start, cs + [TickLoad(m)])
    ensures TickOut(m).tc <==> TickOut(m).counter == 0
  {
    hide DmaRead, Receiving, Shape, Residual, Capacity, Usable, ReadChunk, Bytes, Given, EmptyFifo;
    var c := TickLoad(m);
    var r := TickOut(m);
    if m.scsi.phase == DATA_OUT {
      EmptyFifoNone(m);
      MoveWriting(m, s, count, start, cs);
    } else {
      GivenMore(cs, c, m.f, m.f, []);
      assert Residual(m.f) + [] == [] + Residual(m.f);
      assert Given(cs, m.f) + [] == Given(cs, m.f);
    }
  }

  lemma EmptyFifoNone(m: Machine)
    requires Receiving(m.scsi) && m.fifo == []
    ensures EmptyFifo(m) == m
  {
  }

  /** At every tick the registers of an enabled channel are aligned and its buffer lies in memory.  A flush does nothing
      in this direction, and the channel is initialised only while nothing waits in it. */
  predicate RunnableOut(m: Machine, steps: seq<Step>)
    requires Receiving(m.scsi) && Shape(m.f) && m.io == TRANSFERRING && m.dmaMode && m.fifo == []
    decreases |steps|
  {
    steps == [] ||
    match steps[0]
    case Program(ch) => RunnableOut(m.(ch := ch), steps[1..])
    case Flushing => RunnableOut(m, steps[1..])
    case Initialise(offset) =>
      offset < BURST && Quad(offset) && m.f.size == 0 && RunnableOut(Initialised(m, offset), steps[1..])
    case Tick => Usable(m) && (TickOutFrame(m); RunnableOut(TickOut(m), steps[1..]))
  }

  lemma TickOutFrame(m: Machine)
    requires Out(m)
    ensures var r := TickOut(m);
      Receiving(r.scsi) && Shape(r.f) && r.io == TRANSFERRING && r.dmaMode && r.fifo == []
  {
    hide DmaRead, Receiving, Shape, Residual, EmptyFifo, Capacity, ReadChunk;
    if m.scsi.phase == DATA_OUT {
      EmptyFifoNone(m);
      DmaReadMoves(m);
    }
  }

  function RunOut(m: Machine, steps: seq<Step>): Machine
    requires Receiving(m.scsi) && Shape(m.f) && m.io == TRANSFERRING &&
      m.dmaMode && m.fifo == [] && RunnableOut(m, steps)
    decreases |steps|
  {
    if steps == [] then m
    else
      match steps[0]
      case Program(ch) => RunOut(m.(ch := ch), steps[1..])
      case Flushing => RunOut(m, steps[1..])
      case Initialise(offset) => RunOut(Initialised(m, offset), steps[1..])
      case Tick => TickOutFrame(m); RunOut(TickOut(m), steps[1..])
  }

  /** What the ticks of a run read from memory. */
  function Loads(m: Machine, steps: seq<Step>): seq<Chunk>
    requires Receiving(m.scsi) && Shape(m.f) && m.io == TRANSFERRING &&
      m.dmaMode && m.fifo == [] && RunnableOut(m, steps)
    decreases |steps|
  {
    if steps == [] then []
    else
      match steps[0]
      case Program(ch) => Loads(m.(ch := ch), steps[1..])
      case Flushing => Loads(m, steps[1..])
      case Initialise(offset) => Loads(Initialised(m, offset), steps[1..])
      case Tick => TickOutFrame(m); [TickLoad(m)] + Loads(TickOut(m), steps[1..])
  }

  /** A chunk is a piece of memory. */
  predicate FromMemory(cs: seq<Chunk>, mem: seq<bv8>) {
    forall i :: 0 <= i < |cs| ==> cs[i].bytes != [] ==>
      cs[i].at + |cs[i].bytes| <= |mem| && cs[i].bytes == mem[cs[i].at..cs[i].at + |cs[i].bytes|]
  }

  lemma TickLoadFrom(m: Machine)
    requires Out(m)
    ensures FromMemory([TickLoad(m)], m.mem)
  {
    hide Push, Accepts;
  }

  lemma {:induction false} RunWriting(m: Machine, s: Scsi, count: nat, cs: seq<Chunk>, steps: seq<Step>)
    requires Writing(m, s, count, m.mem, cs) && RunnableOut(m, steps) && FromMemory(cs, m.mem)
    ensures var r := RunOut(m, steps);
      Writing(r, s, count, m.mem, cs + Loads(m, steps)) && FromMemory(cs + Loads(m, steps), m.mem)
    ensures (m.tc <==> m.counter == 0) || Tick in steps ==>
      (RunOut(m, steps).tc <==> RunOut(m, steps).counter == 0)
    decreases |steps|
  {
    hide TickOut, Receiving, Shape, Residual, Capacity, Usable, TickLoad, Bytes, Given, FromMemory;
    if steps == [] {
      assert cs + [] == cs;
    } else if steps[0].Program? {
      RunWriting(m.(ch := steps[0].ch), s, count, cs, steps[1..]);
    } else if steps[0].Flushing? {
      RunWriting(m, s, count, cs, steps[1..]);
    } else if steps[0].Initialise? {
      InitialiseWriting(m, s, count, cs, steps[0].offset);
      RunWriting(Initialised(m, steps[0].offset), s, count, cs, steps[1..]);
    } else {
      TickOutFrame(m);
      TickWriting(m, s, count, m.mem, cs);
      TickLoadFrom(m);
      MoreFrom(cs, TickLoad(m), m.mem);
      var n := TickOut(m);
      RunWriting(n, s, count, cs + [TickLoad(m)], steps[1..]);
      assert cs + [TickLoad(m)] + Loads(n, steps[1..]) == cs + ([TickLoad(m)] + Loads(n, steps[1..]));
    }
  }

  lemma InitialiseWriting(m: Machine, s: Scsi, count: nat, cs: seq<Chunk>, offset: nat)
    requires Writing(m, s, count, m.mem, cs) && m.f.size == 0 && offset < BURST
    ensures Writing(Initialised(m, offset), s, count, m.mem, cs)
  {
    hide Receiving, Capacity, Bytes;
    assert Residual(Initialised(m, offset).f) == Residual(m.f);
  }

  lemma MoreFrom(cs: seq<Chunk>, c: Chunk, mem: seq<bv8>)
    requires FromMemory(cs, mem) && FromMemory([c], mem)
    ensures FromMemory(cs + [c], mem)
  {
    assert [c][0] == c;
  }

  /** WRITE, from memory to the disk: what has been read from memory is what is on the disk (or in its sector
      buffer), as far as the image goes, followed by what waits in the FIFO; memory is not touched.  The target takes
      the blocks inside the image and one past it, and then refuses. */
  lemma WriteEndToEnd(s: Scsi, cdb: seq<bv8>, m: Machine, steps: seq<Step>)
    requires Mounted(s) && !s.readonly && |cdb| >= 10 && GetCount(cdb) > 0
    requires m.scsi == WriteSector(s, cdb) && m.fifo == [] && m.dmaMode && m.io == TRANSFERRING && !m.tc
    requires Shape(m.f) && m.f.size == 0
    requires Receiving(m.scsi) && RunnableOut(m, steps)
    ensures var r, cs := RunOut(m, steps), Loads(m, steps);
      var all := Off(Taken(GetOffset(cdb), GetCount(cdb), Size(s)), s.blocksize);
      Receiving(r.scsi) && Shape(r.f) && r.f.size <= |Bytes(cs)| && FromMemory(cs, m.mem) && r.mem == m.mem &&
      var g := Given(cs, r.f);
      Bytes(cs) == g + Residual(r.f) && |g| + r.counter == m.counter && |g| <= all &&
      Ahead(r.scsi) == StoreInside(s.image, Off(GetOffset(cdb), s.blocksize), g) &&
      (r.scsi.phase == STATUS <==> |g| == all) && (r.scsi.phase == STATUS ==> r.scsi.image == Ahead(r.scsi)) &&
      r.scsi.sense == if |g| == all then SenseAfter(NO_SENSE, GetOffset(cdb), GetCount(cdb), Size(s)) else NO_SENSE
    ensures Tick in steps ==> (RunOut(m, steps).tc <==> RunOut(m, steps).counter == 0)
  {
    hide WriteSector, Receiving, Residual, Capacity, Usable, RunOut, Loads, Off, GetOffset, GetCount, Size, RunnableOut,
      Bytes, Given, StoreInside,
         Ahead, Feed, Taken, SenseAfter;
    WriteStarts(s, cdb);
    StartsAhead(s, cdb);
    StartWriting(m);
    RunWriting(m, m.scsi, m.counter, [], steps);
    var r, cs := RunOut(m, steps), Loads(m, steps);
    assert [] + cs == cs;
    FeedImage(m.scsi, Given(cs, r.f));
    PhaseOf(r.scsi);
  }

  /** Inside the image all blocks are taken, and every byte given is in its place. */
  lemma WriteInside(s: Scsi, cdb: seq<bv8>, g: seq<bv8>)
    requires Mounted(s) && |cdb| >= 10 && GetOffset(cdb) + GetCount(cdb) <= Size(s) &&
      |g| <= Off(GetCount(cdb), s.blocksize)
    ensures Taken(GetOffset(cdb), GetCount(cdb), Size(s)) == GetCount(cdb) &&
      Off(GetOffset(cdb), s.blocksize) + |g| <= |s.image|
    ensures StoreInside(s.image, Off(GetOffset(cdb), s.blocksize), g)
            == Store(s.image, Off(GetOffset(cdb), s.blocksize), g)
    ensures SenseAfter(NO_SENSE, GetOffset(cdb), GetCount(cdb), Size(s)) == NO_SENSE
  {
    hide GetOffset, GetCount, Off, Store, StoreInside, Taken, SenseAfter, Size;
    TakesAll(s, cdb);
    InsideAll(s.image, Off(GetOffset(cdb), s.blocksize), g);
  }

  lemma PhaseOf(s: Scsi)
    requires Receiving(s)
    ensures s.phase == DATA_OUT <==> Capacity(s) > 0
  {
    CapacityPhase(s);
  }

  lemma StartWriting(m: Machine)
    requires Receiving(m.scsi) && Shape(m.f) && m.f.size == 0 && m.dmaMode &&
      m.fifo == [] && !m.tc && m.io == TRANSFERRING
    requires Capacity(m.scsi) >= 0
    ensures Writing(m, m.scsi, m.counter, m.mem, []) && FromMemory([], m.mem)
  {
    hide Receiving, Capacity;
    assert Bytes([]) == [];
  }
}
