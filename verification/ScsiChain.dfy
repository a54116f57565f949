/** src/esp.c and the SCSI channel of src/dma.c: registers, FIFOs and memory, updated in place. */
module ScsiChain {
  import opened Burst
  import opened ScsiDisk
  import opened ScsiTarget
  import opened EspModel
  import opened EspTheorems
  import Out = ScsiChainOut

  /** One byte more in the FIFO. */
  function Added(f: Fifo, b: bv8): (r: Fifo)
    requires Shape(f) && f.lim < BURST
    ensures Shape(r)
  {
    Fifo(f.buf[f.lim := b], f.size + 1, f.lim + 1)
  }

  lemma FillOne(f: Fifo, src: seq<bv8>)
    requires Shape(f) && f.lim < BURST && src != []
    ensures Fill(Added(f, src[0]), src[1..]) == Fill(f, src)
    ensures Min(BURST - f.lim, |src|) == Min(BURST - f.lim - 1, |src| - 1) + 1
  {
    var n := Min(BURST - f.lim, |src|);
    var x, y := f.buf[f.lim := src[0]], f.buf;
    assert x[..f.lim + 1] + src[1..][..n - 1] + x[f.lim + n..] == y[..f.lim] + src[..n] + y[f.lim + n..];
  }

  /** Taking one byte into the FIFO does not change where the loop ends. */
  lemma PumpOne(next: nat, limit: nat, f: Fifo, src: seq<bv8>)
    requires Shape(f) && f.lim < BURST && src != [] && next <= limit
    ensures var p, r := Pump(next, limit, f, src), Pump(next, limit, Added(f, src[0]), src[1..]);
      p == Pumped(r.next, r.f, r.used + 1, r.out)
  {
    hide Fill, Drop, Residual, Room, Added;
    FillOne(f, src);
    var n := Min(BURST - f.lim, |src|);
    assert src[1..][n - 1..] == src[n..];
    AddedLim(f, src[0]);
  }

  lemma AddedLim(f: Fifo, b: bv8)
    requires Shape(f) && f.lim < BURST
    ensures Added(f, b).lim == f.lim + 1 && Added(f, b).size == f.size + 1
  {
  }

  /** A full FIFO: as much as there is room for is stored, and the loop stops or goes on. */
  lemma PumpFull(next: nat, limit: nat, f: Fifo, src: seq<bv8>)
    requires Shape(f) && f.lim == BURST && next <= limit
    ensures var p, k := Pump(next, limit, f, src), Room(f, next, limit);
      if k < f.size then p == Pumped(next + k, Drop(f, k), 0, Residual(f)[..k])
      else
        var r := Pump(next + k, limit, Drop(f, k), src);
        p == Pumped(r.next, r.f, r.used, Residual(f) + r.out)
  {
    hide Drop, Residual, Room;
    FillFull(f, src);
    assert src[0..] == src;
  }

  lemma FillFull(f: Fifo, src: seq<bv8>)
    requires Shape(f) && f.lim == BURST
    ensures Fill(f, src) == f && Min(BURST - f.lim, |src|) == 0
  {
    assert f.buf[..f.lim] + src[..0] + f.buf[f.lim..] == f.buf;
  }

  lemma PumpShort(next: nat, limit: nat, f: Fifo, src: seq<bv8>)
    requires Shape(f) && f.lim < BURST && src == []
    ensures Pump(next, limit, f, src) == Pumped(next, f, 0, [])
  {
    hide Fill;
    FillNothing(f);
  }

  lemma FillNothing(f: Fifo)
    requires Shape(f)
    ensures Fill(f, []) == f
  {
    assert f.buf[..f.lim] + [][..0] + f.buf[f.lim..] == f.buf;
  }

  class Chain {
    const target: Target
    const mem: array<bv8>
    const fifo: array<bv8>
    const buf: array<bv8>
    var fifoflags: nat
    var counter: nat
    var dmaMode: bool
    var io: Io
    var tc: bool
    var service: bool
    var armed: bool
    var ch: Channel
    var bufSize: nat
    var bufLimit: nat
    /** The state of the model this object is in. */
    ghost var w: Machine

    ghost predicate Esp()
      reads this`fifoflags, this`counter, this`dmaMode, this`io, this`tc, this`service, this`armed, this`w, fifo
    {
      fifo.Length == ESP_FIFO && fifoflags <= ESP_FIFO && fifo[..fifoflags] == w.fifo && counter == w.counter &&
      dmaMode == w.dmaMode && io == w.io && tc == w.tc && service == w.service && armed == w.armed
    }

    ghost predicate Dma()
      reads this`ch, this`bufSize, this`bufLimit, this`w, buf
    {
      buf.Length == BURST && ch == w.ch && w.f == Fifo(buf[..], bufSize, bufLimit)
    }

    ghost predicate Apart() {
      mem != fifo && mem != buf && fifo != buf && target.image != target.data &&
      target.image !in {mem, fifo, buf} && target.data !in {mem, fifo, buf}
    }

    ghost predicate Valid()
      reads this, mem, fifo, buf, target, target.image, target.data
    {
      Apart() && target.Valid() && target.s == w.scsi && mem[..] == w.mem && Esp() && Dma()
    }

    constructor (t: Target, memory: array<bv8>)
      requires t.Valid() && memory != t.image && memory != t.data
      ensures Valid() && target == t && mem == memory && fresh(fifo) && fresh(buf)
      ensures w == Machine(t.s, 0, [], false, DONE, false, false, false, Channel(false, false, false, 0, 0, 0, 0),
                           Fifo(seq(BURST, _ => 0), 0, 0), memory[..])
    {
      target, mem := t, memory;
      fifo := new bv8[ESP_FIFO](_ => 0);
      buf := new bv8[BURST](_ => 0);
      fifoflags, counter, bufSize, bufLimit := 0, 0, 0, 0;
      dmaMode, io, tc, service, armed := false, DONE, false, false, false;
      ch := Channel(false, false, false, 0, 0, 0, 0);
      w := Machine(t.s, 0, [], false, DONE, false, false, false, Channel(false, false, false, 0, 0, 0, 0),
                   Fifo(seq(BURST, _ => 0), 0, 0), memory[..]);
      new;
      assert buf[..] == seq(BURST, _ => 0);
    }

    /** The bytes of the ESP FIFO move up (esp.c:437-438). */
    method ShiftFifo()
      requires fifo.Length == ESP_FIFO
      modifies fifo
      ensures forall j :: 0 <= j < ESP_FIFO - 1 ==> fifo[j] == old(fifo[j + 1])
    {
      for i := 0 to ESP_FIFO - 1
        invariant forall j :: 0 <= j < i ==> fifo[j] == old(fifo[j + 1])
        invariant forall j :: i <= j < ESP_FIFO ==> fifo[j] == old(fifo[j])
      {
        fifo[i] := fifo[i + 1];
      }
      fifo[ESP_FIFO - 1] := 0;
    }

    /** The part of esp_fifo_read for a FIFO that is not empty. */
    method FifoShift() returns (val: bv8)
      requires Esp() && fifoflags > 0
      modifies this`fifoflags, this`w, fifo
      ensures Esp() && val == old(w).fifo[0] && w == old(w).(fifo := old(w).fifo[1..])
    {
      val := fifo[0];
      ghost var was := fifo[..];
      ShiftFifo();
      fifoflags := fifoflags - 1;
      assert fifo[..fifoflags] == was[..fifoflags + 1][1..];
      w := w.(fifo := w.fifo[1..]);
    }

    /** ESP_Send_Ready */
    method SendReady() returns (b: bool)
      requires Esp() && target.Valid() && target.s == w.scsi
      ensures b == Ready(w)
    {
      b := (counter > 0 && target.phase == DATA_IN) || fifoflags > 0;
    }

    /** A byte of the target, counted. */
    method SendFromTarget() returns (val: bv8)
      requires Apart() && Esp() && target.Valid() && target.s == w.scsi && Sending(w.scsi) && w.counter > 0
      requires w.scsi.phase == DATA_IN
      modifies this`counter, this`w, target, target.data
      ensures Esp() && target.Valid() && target.s == w.scsi
      ensures var r := SendData(old(w).scsi); val == r.0 && w == old(w).(counter := old(w).counter - 1, scsi := r.1)
    {
      hide Mounted, SendData;
      counter := counter - 1;
      val := target.Send();
      w := w.(counter := counter, scsi := target.s);
    }

    /** ESP_Send_Data */
    method SendByteUp() returns (val: bv8)
      requires Valid() && Sending(w.scsi) && Ready(w)
      modifies this`fifoflags, this`counter, this`w, fifo, target, target.data
      ensures Valid() && (val, w) == SendByte(old(w))
    {
      hide Mounted, SendData, Esp, Sending, Target.Valid;
      EspMeans();
      if fifoflags > 0 {
        val := FifoShift();
      } else {
        SendByteIs(w);
        val := SendFromTarget();
      }
    }

    lemma EspMeans()
      requires Esp()
      ensures fifoflags == |w.fifo| <= ESP_FIFO && counter == w.counter && dmaMode == w.dmaMode && io == w.io &&
              armed == w.armed
    {
    }

    /** dma.c:418-420, with the byte at hand. */
    method FillStore(val: bv8)
      requires Valid() && Shape(w.f) && w.f.lim < BURST
      modifies this`bufSize, this`bufLimit, this`w, buf
      ensures Valid() && w == old(w).(f := Added(old(w).f, val))
    {
      hide Mounted, Sending;
      ghost var was := buf[..];
      buf[bufLimit] := val;
      assert buf[..] == was[bufLimit := val];
      bufLimit := bufLimit + 1;
      bufSize := bufSize + 1;
      w := w.(f := Added(w.f, val));
    }

    method FillByte(ghost m: Machine, ghost n: nat)
      requires Valid() && Sending(w.scsi) && Shape(w.f) && Ready(w) && w.f.lim < BURST && ch.next <= ch.limit
      requires Sending(m.scsi) && Shape(m.f) && n <= |Supply(m)| && Sent(w, m, n)
      requires Advanced(Pump(ch.next, ch.limit, m.f, Supply(m)), Pump(ch.next, ch.limit, w.f, Supply(w)), n)
      modifies this`fifoflags, this`counter, this`bufSize, this`bufLimit, this`w, fifo, buf, target, target.data
      ensures Valid() && Sending(w.scsi) && Shape(w.f) && n + 1 <= |Supply(m)| && Sent(w, m, n + 1)
      ensures Advanced(Pump(ch.next, ch.limit, m.f, Supply(m)), Pump(ch.next, ch.limit, w.f, Supply(w)), n + 1)
      ensures w.f.lim == old(w).f.lim + 1 && w.f.size == old(w).f.size + 1
    {
      hide Sending, Supply, Pump, Shape, Mounted, SendByte, Residual, Sent, Ready, Added, Valid;
      ghost var before := w;
      SentOne(m, n, before);
      PumpOne(ch.next, ch.limit, before.f, Supply(before));
      AddedLim(before.f, Supply(before)[0]);
      var val := SendByteUp();
      SupplyOf(w, Added(before.f, val));
      FillStore(val);
    }

    /** The inner loop at dma.c:417-421: bytes from the ESP until the FIFO is full or the ESP is not ready. */
    method FillBurst() returns (ghost n: nat)
      requires Valid() && Sending(w.scsi) && Shape(w.f) && ch.next <= ch.limit
      modifies this`fifoflags, this`counter, this`bufSize, this`bufLimit, this`w, fifo, buf, target, target.data
      ensures Valid() && Sending(w.scsi) && Shape(w.f) && (w.f.lim == BURST || Supply(w) == [])
      ensures n <= |Supply(old(w))| && Sent(w, old(w), n) && w.f.lim - w.f.size == old(w).f.lim - old(w).f.size
      ensures Advanced(Pump(ch.next, ch.limit, old(w).f, Supply(old(w))), Pump(ch.next, ch.limit, w.f, Supply(w)), n)
    {
      hide Sending, Supply, Pump, Shape, Mounted, Sent, Ready, Valid;
      ghost var m := w;
      n := 0;
      SentNone(m);
      Looking();
      var ready := SendReady();
      while bufLimit < BURST && ready
        invariant Valid() && Sending(w.scsi) && Shape(w.f) && ready == Ready(w) && bufLimit == w.f.lim
        invariant n <= |Supply(m)| && Sent(w, m, n) && w.f.lim - w.f.size == m.f.lim - m.f.size
        invariant Advanced(Pump(ch.next, ch.limit, m.f, Supply(m)), Pump(ch.next, ch.limit, w.f, Supply(w)), n)
        decreases BURST - bufLimit
      {
        FillByte(m, n);
        n := n + 1;
        Looking();
        ready := SendReady();
      }
      ReadyIs(w);
      ShapeLim(w.f);
    }

    /** put_long of dma_getlong: four bytes of the FIFO to memory, in the same order. */
    method PutLong(at: nat, pos: nat)
      requires mem != buf && buf.Length == BURST && pos + 4 <= BURST && at + 4 <= mem.Length
      modifies mem
      ensures mem[..] == Store(old(mem[..]), at, buf[pos..pos + 4])
    {
      mem[at] := buf[pos];
      mem[at + 1] := buf[pos + 1];
      mem[at + 2] := buf[pos + 2];
      mem[at + 3] := buf[pos + 3];
    }

    /** The inner loop at dma.c:432-436. */
    method StoreLongs(ghost f: Fifo)
      requires mem != buf && ToMemory(f) && f.lim == BURST && f.size == bufSize && buf[..] == f.buf
      requires ch.next <= ch.limit <= mem.Length && Quad(ch.limit - ch.next)
      modifies this`bufSize, this`ch, mem
      ensures var k := Room(f, old(ch).next, old(ch).limit);
        bufSize == f.size - k && ch == old(ch).(next := old(ch).next + k) &&
        mem[..] == Store(old(mem[..]), old(ch).next, Residual(f)[..k])
    {
      hide Store, Quad, Residual;
      ghost var next, limit, start, done := ch.next, ch.limit, mem[..], 0;
      StoreNothing(start, next);
      assert Residual(f)[..0] == [];
      SizeQuad(f);
      Quads();
      while ch.next < ch.limit && bufSize > 0
        invariant bufSize + done == f.size && done <= Room(f, next, limit) && Quad(done)
        invariant ch == old(ch).(next := next + done)
        invariant mem[..] == Store(start, next, Residual(f)[..done])
        decreases bufSize
      {
        LongFits(f, next, limit, done);
        PutLong(ch.next, BURST - bufSize);
        LongStored(start, next, f, done);
        QuadSum(done, 4);
        done := done + 4;
        ch := ch.(next := ch.next + 4);
        bufSize := bufSize - 4;
      }
    }

    method EmptyParts()
      requires mem != buf && Dma() && mem[..] == w.mem && ToMemory(w.f) && w.f.lim == BURST
      requires ch.next <= ch.limit <= mem.Length && Quad(ch.limit - ch.next)
      modifies this`bufSize, this`bufLimit, this`ch, this`w, mem
      ensures Dma() && mem[..] == w.mem && Emptying(old(w)) && w == Emptied(old(w))
    {
      hide Store, Quad, Residual, Room, ToMemory, Emptied, Emptying, Drop;
      EmptiedIs(w);
      ghost var m := w;
      StoreLongs(w.f);
      bufLimit := if bufSize == 0 then 0 else bufLimit;
      w := Emptied(m);
    }

    /** A full FIFO goes to memory as far as there is room; an empty one starts again (dma.c:432-442). */
    method EmptyBurst()
      requires Valid() && ToMemory(w.f) && w.f.lim == BURST &&
        ch.next <= ch.limit <= mem.Length && Quad(ch.limit - ch.next)
      modifies this`bufSize, this`bufLimit, this`ch, this`w, mem
      ensures Valid() && Emptying(old(w)) && w == Emptied(old(w))
    {
      hide Quad, ToMemory, Emptied, Emptying, Dma, Target.Valid, Mounted;
      DmaMeans();
      EmptiedIs(w);
      EmptyParts();
    }

    lemma DmaMeans()
      requires Dma()
      ensures buf.Length == BURST && ch == w.ch && w.f == Fifo(buf[..], bufSize, bufLimit)
    {
    }

    /** dma_interrupt, the interrupt line apart */
    method DmaInterrupt()
      requires Dma()
      modifies this`ch, this`w
      ensures Dma() && w == old(w).(ch := Interrupt(old(w).ch))
    {
      if ch.next == ch.limit {
        ch := ch.(complete := true);
        if ch.supdate {
          ch := ch.(next := ch.start, limit := ch.stop, supdate := false);
        } else {
          ch := ch.(enabled := false);
        }
      }
      w := w.(ch := ch);
    }

    /** One turn of the loop of dma_esp_write_memory (dma.c:406-444). */
    method WriteTurn(ghost m: Machine, ghost n: nat, ghost out: seq<bv8>) returns (stop: bool,
      ghost n': nat, ghost out': seq<bv8>)
      requires Valid() && Sending(w.scsi) && Shape(w.f) && ToMemory(w.f) && Midway(w, m, n, out)
      requires ch.next <= ch.limit <= mem.Length && Quad(ch.limit - ch.next) && Usable(m) && m.ch.enabled
      modifies this`fifoflags, this`counter, this`bufSize, this`bufLimit,
        this`ch, this`w, mem, fifo, buf, target, target.data
      ensures Valid() && Sending(w.scsi) && (stop ==> Finished(w, m))
      ensures !stop ==> Midway(w, m, n', out') && Shape(w.f) && ToMemory(w.f)
      ensures !stop ==> Quad(ch.limit - ch.next) && old(ch).next < ch.next
      ensures ch.next <= ch.limit == old(ch).limit
    {
      hide Valid, Sending, Supply, Sent, ToMemory, Midway, Finished, Shape, Advanced, Emptied, Emptying, Pump;
      Registers();
      ghost var w0 := w;
      var k := FillBurst();
      Registers();
      FilledMidway(w, w0, m, n, out, k);
      StillToMemory(w0.f, w.f);
      n', out' := n + k, out;
      if bufLimit < BURST {
        ShortFinish(w, m, n', out);
        return true, n', out;
      }
      ghost var w1 := w;
      ShapeLim(w1.f);
      EmptyBurst();
      Registers();
      if bufSize > 0 {
        FullFinish(w1, m, n', out);
        return true, n', out;
      }
      EmptiedMidway(w1, m, n', out);
      return false, n', out + Residual(w1.f);
    }

    /** The loop of dma_esp_write_memory (dma.c:406-444). */
    method WriteLoop()
      requires Valid() && Sending(w.scsi) && Shape(w.f) && ToMemory(w.f) && Usable(w) && ch.enabled
      modifies this`fifoflags, this`counter, this`bufSize, this`bufLimit,
        this`ch, this`w, mem, fifo, buf, target, target.data
      ensures Valid() && Sending(w.scsi) && Finished(w, old(w))
    {
      hide Valid, Sending, Supply, ToMemory, Midway, Finished, Shape, Usable, Quad;
      ghost var m, n, out := w, 0, [];
      Registers();
      MidwayStart(m);
      UsableMeans(m);
      var stop := false;
      while !stop && ch.next <= ch.limit
        invariant Valid() && Sending(w.scsi) && (stop ==> Finished(w, m)) && ch.limit == m.ch.limit
        invariant !stop ==> Midway(w, m, n, out) && Shape(w.f) && ToMemory(w.f) && Quad(ch.limit - ch.next)
        decreases !stop, ch.limit - ch.next
      {
        stop, n, out := WriteTurn(m, n, out);
      }
      if !stop {
        Registers();
        PastFinish(w, m, n, out);
      }
    }

    /** dma_esp_write_memory, without bus errors and with the floppy not selected */
    method WriteMemory()
      requires Valid() && Sending(w.scsi) && Shape(w.f) && ToMemory(w.f) && Usable(w)
      modifies this`fifoflags, this`counter, this`bufSize, this`bufLimit,
        this`ch, this`w, mem, fifo, buf, target, target.data
      ensures Valid() && w == DmaWrite(old(w)) && Sending(w.scsi)
    {
      hide Sending, Supply, ToMemory, Finished, Shape, Pump, Interrupt, Target.Valid;
      FinishedMeans(w);
      if !ch.enabled {
        return;
      }
      WriteLoop();
      DmaInterrupt();
    }

    /** dma.c:472-477: zeroes behind the last bytes of the FIFO. */
    method ZeroFill()
      requires Dma() && ToMemory(w.f)
      modifies this`bufSize, this`bufLimit, buf
      ensures Fifo(buf[..], bufSize, bufLimit) == Topped(w.f)
    {
      hide Zeroes, Fill, Quad;
      if bufSize < 4 {
        ghost var f, n := w.f, 0;
        ZeroRoom(f);
        ZeroNone(f);
        while bufSize < 4
          invariant n <= 4 - f.size && bufSize == f.size + n && bufLimit == f.lim + n
          invariant Fifo(buf[..], bufSize, bufLimit) == Fill(f, Zeroes(n))
          decreases 4 - bufSize
        {
          ZeroOne(f, n);
          buf[bufLimit] := 0;
          bufLimit := bufLimit + 1;
          bufSize := bufSize + 1;
          n := n + 1;
        }
      }
    }

    /** The FIFO without its first long word. */
    method DropLong(ghost g: Fifo)
      requires buf.Length == BURST && g == Fifo(buf[..], bufSize, bufLimit) && Shape(g) && bufSize >= 4
      modifies this`bufSize, this`bufLimit
      ensures Fifo(buf[..], bufSize, bufLimit) == Drop(g, 4)
    {
      bufSize := bufSize - 4;
      if bufSize == 0 {
        bufLimit := bufSize;
      }
    }

    /** dma.c:471-484: one long word to memory. */
    method FlushLong()
      requires mem != buf && Dma() && mem[..] == w.mem && Shape(w.f) && ToMemory(w.f)
      requires ch.next + 4 <= ch.limit <= mem.Length
      modifies this`bufSize, this`bufLimit, this`ch, this`w, mem, buf
      ensures Dma() && mem[..] == w.mem
      ensures var m := old(w);
        w == m.(f := Flush(m.f).0, mem := Store(m.mem, m.ch.next, Flush(m.f).1), ch := m.ch.(next := m.ch.next + 4))
    {
      hide ToMemory, Topped, Store, Flush, Drop;
      ghost var m := w;
      FlushIs(m.f);
      ZeroFill();
      ghost var g := Topped(m.f);
      ShapeLim(g);
      PutLong(ch.next, bufLimit - bufSize);
      ch := ch.(next := ch.next + 4);
      DropLong(g);
      w := w.(f := Drop(g, 4), mem := mem[..], ch := ch);
    }

    /** dma_esp_flush_buffer on the way to memory, without bus errors */
    method FlushBuffer()
      requires Valid() && Shape(w.f) && ToMemory(w.f) && Usable(w)
      modifies this`bufSize, this`bufLimit, this`ch, this`w, mem, buf
      ensures Valid() && w == FlushStep(old(w))
    {
      hide ToMemory, Interrupt, Flush, Target.Valid, Store, Shape, FlushStep, Usable, Mounted;
      FlushSteps(w);
      if !ch.enabled {
        return;
      }
      if ch.next < ch.limit {
        FlushLong();
      }
      DmaInterrupt();
    }

    // -------------------------------------------------------- from memory to the device

    /** dma_putlong of get_long: four bytes of memory to the FIFO, in the same order. */
    method LoadLong(at: nat, pos: nat)
      requires mem != buf && buf.Length == BURST && pos + 4 <= BURST && at + 4 <= mem.Length
      modifies buf
      ensures buf[..] == Store(old(buf[..]), pos, mem[at..at + 4])
    {
      buf[pos] := mem[at];
      buf[pos + 1] := mem[at + 1];
      buf[pos + 2] := mem[at + 2];
      buf[pos + 3] := mem[at + 3];
    }

    /** The inner loop at dma.c:519-524. */
    method LoadLoop(ghost m: Machine) returns (ghost done: nat)
      requires mem != buf && mem[..] == m.mem && Usable(m) && ToDevice(m.f) &&
        ch == m.ch && ch.enabled && ch.next < ch.limit
      requires buf.Length == BURST && buf[..] == m.f.buf && bufSize == m.f.size && bufLimit == m.f.lim
      modifies this`bufSize, this`bufLimit, this`ch, buf
      ensures done == Min(BURST - m.f.lim, |Pending(m)|) && ch == m.ch.(next := m.ch.next + done)
      ensures bufLimit == m.f.lim + done && bufSize == m.f.size + done && m.f.lim + done <= BURST
      ensures buf[..] == Store(m.f.buf, m.f.lim, Pending(m)[..done])
    {
      hide Store, Quad, Residual, Fill;
      UsableMeans(m);
      done := 0;
      StoreNothing(buf[..], m.f.lim);
      assert Pending(m)[..0] == [];
      Quads();
      while ch.next < ch.limit && bufLimit < BURST
        invariant done <= Min(BURST - m.f.lim, |Pending(m)|) && Quad(done) && ch == m.ch.(next := m.ch.next + done)
        invariant bufLimit == m.f.lim + done && bufSize == m.f.size + done
        invariant buf[..] == Store(m.f.buf, m.f.lim, Pending(m)[..done])
        decreases BURST - bufLimit
      {
        LoadFits(m, done);
        LoadLong(ch.next, bufLimit);
        StoreTwo(m.f.buf, m.f.lim, Pending(m)[..done], mem[ch.next..ch.next + 4]);
        QuadSum(done, 4);
        done := done + 4;
        ch := ch.(next := ch.next + 4);
        bufLimit := bufLimit + 4;
        bufSize := bufSize + 4;
      }
      LoadAll(m, done);
    }

    method LoadLongs()
      requires mem != buf && Dma() && mem[..] == w.mem && Usable(w) && ToDevice(w.f) && ch.enabled && ch.next < ch.limit
      modifies this`bufSize, this`bufLimit, this`ch, this`w, buf
      ensures Dma() && Usable(old(w)) && Shape(old(w).f) && w == Out.Loaded(old(w))
    {
      hide Store, Quad, Residual, Fill, Usable, Pending;
      ghost var m := w;
      FillStore0(m.f, Pending(m));
      Out.LoadedIs(m);
      ghost var n := LoadLoop(m);
      w := Out.Loaded(m);
    }

    method LoadBurst()
      requires Valid() && Usable(w) && Shape(w.f) && ToDevice(w.f) && ch.enabled && ch.next < ch.limit
      modifies this`bufSize, this`bufLimit, this`ch, this`w, buf
      ensures Valid() && w == Out.Loaded(old(w))
    {
      hide Quad, ToDevice, Dma, Target.Valid, Mounted, Out.Loaded, Usable, Shape;
      DmaMeans();
      Out.LoadedIs(w);
      LoadLongs();
    }

    /** ESP_Receive_Ready */
    method ReceiveReady() returns (b: bool)
      requires target.Valid() && target.s == w.scsi && counter == w.counter && dmaMode == w.dmaMode && Receiving(w.scsi)
      ensures b == (Accepts(w) > 0)
    {
      hide Mounted;
      Out.AcceptsPositive(w);
      b := dmaMode && counter > 0 && target.phase == DATA_OUT;
    }

    /** The inner loop at dma.c:541-544. */
    method GiveLoop(ghost m: Machine) returns (ghost given: nat)
      requires Apart() && Esp() && target.Valid() && target.s == w.scsi && Receiving(w.scsi) && w == m
      requires Dma() && Shape(m.f)
      modifies this`counter, this`bufSize, this`w, target, target.data, target.image
      ensures Esp() && target.Valid() && target.s == w.scsi && given == Min(m.f.size, Accepts(m)) &&
        bufSize == m.f.size - given
      ensures |Residual(m.f)[..given]| <= m.counter && |Residual(m.f)[..given]| <= Capacity(m.scsi)
      ensures w == GiveBytes(m, Residual(m.f)[..given])
    {
      hide Receiving, Capacity, Feed, Accepts, Residual, Shape, Target.Valid, Mounted, ReceiveData, Esp;
      given := 0;
      assert Residual(m.f)[..0] == [];
      Out.FeedNothing(m.scsi);
      EspMeans();
      ShapeLim(m.f);
      var ready := ReceiveReady();
      while bufSize > 0 && ready
        invariant Esp() && target.Valid() && target.s == w.scsi && Receiving(w.scsi)
        invariant given <= m.f.size && given <= Accepts(m) && bufSize == m.f.size - given && ready == (Accepts(w) > 0)
        invariant Accepts(w) == Accepts(m) - given
        invariant |Residual(m.f)[..given]| <= m.counter && |Residual(m.f)[..given]| <= Capacity(m.scsi)
        invariant w == GiveBytes(m, Residual(m.f)[..given])
        decreases bufSize
      {
        GiveOne(m, given);
        given := given + 1;
        EspMeans();
        ready := ReceiveReady();
      }
    }

    /** One turn of it. */
    method GiveOne(ghost m: Machine, ghost given: nat)
      requires Apart() && Esp() && target.Valid() && target.s == w.scsi && Receiving(w.scsi) && Receiving(m.scsi)
      requires Shape(m.f) && buf.Length == BURST && buf[..] == m.f.buf && bufLimit == m.f.lim
      requires given < m.f.size && given < Accepts(m) && bufSize == m.f.size - given
      requires |Residual(m.f)[..given]| <= m.counter && |Residual(m.f)[..given]| <= Capacity(m.scsi)
      requires w == GiveBytes(m, Residual(m.f)[..given])
      modifies this`counter, this`bufSize, this`w, target, target.data, target.image
      ensures Esp() && target.Valid() && target.s == w.scsi && Receiving(w.scsi) && bufSize == m.f.size - given - 1
      ensures |Residual(m.f)[..given + 1]| <= m.counter && |Residual(m.f)[..given + 1]| <= Capacity(m.scsi)
      ensures w == GiveBytes(m, Residual(m.f)[..given + 1]) && Accepts(w) == Accepts(m) - given - 1
    {
      hide Receiving, Capacity, Feed, Accepts, Residual, Target.Valid, Mounted, ReceiveData, Esp;
      GiveNext(m, given);
      GiveByte(buf[bufLimit - bufSize]);
      bufSize := bufSize - 1;
    }

    /** ESP_Receive_Data */
    method GiveByte(val: bv8)
      requires Apart() && Esp() && target.Valid() && target.s == w.scsi && w.counter > 0 && Mounted(w.scsi) &&
        w.scsi.size < |w.scsi.data|
      modifies this`counter, this`w, target, target.data, target.image
      ensures Esp() && target.Valid() && target.s == w.scsi
      ensures w == old(w).(counter := old(w).counter - 1, scsi := ReceiveData(old(w).scsi, val))
    {
      hide ReceiveData;
      counter := counter - 1;
      target.Receive(val);
      w := w.(counter := counter, scsi := target.s);
    }

    /** A full FIFO goes to the target as far as it takes bytes; an empty one starts again (dma.c:541-551). */
    method GiveBurst()
      requires Valid() && Shape(w.f) && Receiving(w.scsi)
      modifies this`counter, this`bufSize, this`bufLimit, this`w, target, target.data, target.image
      ensures Valid() && w == Out.Unloaded(old(w))
    {
      hide Receiving, Capacity, Feed, Accepts, Residual, Shape, Target.Valid, Mounted, Drop, GiveBytes, Esp;
      ghost var m := w;
      Out.UnloadedIs(m);
      var given := GiveLoop(m);
      GivenFrame(m, Residual(m.f)[..given]);
      Out.DropIs(m.f, given);
      DropBuf(m.f, given);
      GiveEnd(m);
    }

    method GiveEnd(ghost m: Machine)
      requires Apart() && mem[..] == m.mem && Esp() && target.Valid() &&
        target.s == w.scsi && Shape(m.f) && Receiving(m.scsi)
      requires var r := Out.Unloaded(m); w == r.(f := m.f) && bufSize == r.f.size
      requires ch == m.ch && bufLimit == m.f.lim && buf.Length == BURST && buf[..] == m.f.buf
      modifies this`bufLimit, this`w
      ensures Valid() && w == Out.Unloaded(m)
    {
      hide Receiving, Capacity, Feed, Accepts, Residual, Target.Valid, Mounted, GiveBytes;
      Out.UnloadedIs(m);
      if bufSize == 0 {
        bufLimit := 0;
      }
      w := Out.Unloaded(m);
    }

    /** One turn of the loop of dma_esp_read_memory (dma.c:516-553). */
    method ReadTurn(ghost m: Machine, ghost used: nat, ghost out: seq<bv8>) returns (stop: bool,
      ghost used': nat, ghost out': seq<bv8>)
      requires Valid() && Out.Midway(w, m, used, out) && ToDevice(w.f) && ch.next < ch.limit
      modifies this`counter, this`bufSize, this`bufLimit, this`ch, this`w, buf, target, target.data, target.image
      ensures Valid() && Receiving(w.scsi) && (stop ==> Out.Finished(w, m))
      ensures !stop ==> Out.Midway(w, m, used', out') && ToDevice(w.f)
      ensures !stop ==> ch.limit == old(ch).limit
      ensures !stop ==> ch.next > old(ch).next || (ch.next == old(ch).next && bufLimit < old(bufLimit))
    {
      hide Valid, Receiving, ToDevice, Out.Midway, Out.Finished, Shape, Usable, Accepts, Fill, Out.Loaded, Out.Unloaded;
      Registers();
      MidwayMeans(w, m, used, out);
      ghost var w0 := w;
      Out.LoadedIs(w0);
      LoadBurst();
      Registers();
      used', out' := used, out;
      if bufLimit < BURST {
        Out.ShortFinish(w0, m, used, out);
        return true, used, out;
      }
      ghost var w1 := w;
      ShapeLim(w1.f);
      Out.FullStep(w0, m, used, out);
      Out.UnloadedIs(w1);
      GiveBurst();
      Registers();
      if bufSize > 0 {
        return true, used, out;
      }
      return false, used + (w1.ch.next - w0.ch.next), out + Residual(w1.f);
    }

    /** The loop of dma_esp_read_memory (dma.c:516-553). */
    method ReadLoop()
      requires Valid() && Receiving(w.scsi) && Shape(w.f) && ToDevice(w.f) && Usable(w) && ch.enabled
      modifies this`counter, this`bufSize, this`bufLimit, this`ch, this`w, buf, target, target.data, target.image
      ensures Valid() && Receiving(w.scsi) && Out.Finished(w, old(w))
    {
      hide Valid, Receiving, ToDevice, Out.Midway, Out.Finished, Shape, Usable;
      ghost var m, used, out := w, 0, [];
      Registers();
      Out.MidwayStart(m);
      var stop := false;
      while !stop && ch.next < ch.limit
        invariant Valid() && Receiving(w.scsi) && (stop ==> Out.Finished(w, m))
        invariant !stop ==> Out.Midway(w, m, used, out) && ToDevice(w.f)
        decreases !stop, ch.limit - ch.next, bufLimit
      {
        stop, used, out := ReadTurn(m, used, out);
      }
      if !stop {
        Registers();
        Out.LimitFinish(w, m, used, out);
      }
    }

    /** dma_esp_read_memory, without bus errors and with the floppy not selected */
    method ReadMemory()
      requires Valid() && Receiving(w.scsi) && Shape(w.f) && ToDevice(w.f) && Usable(w)
      modifies this`counter, this`bufSize, this`bufLimit, this`ch, this`w, buf, target, target.data, target.image
      ensures Valid() && w == DmaRead(old(w)) && Receiving(w.scsi)
    {
      hide Receiving, ToDevice, Out.Finished, Shape, Push, Interrupt, Target.Valid;
      ReadFinished(w);
      if !ch.enabled {
        return;
      }
      ReadLoop();
      DmaInterrupt();
    }

    // -------------------------------------------------------- the ESP I/O handler

    /** esp_fifo_write */
    method FifoWrite(val: bv8)
      requires Esp()
      modifies this`fifoflags, this`w, fifo
      ensures |old(w).fifo| <= ESP_FIFO && Esp() && w == old(w).(fifo := WriteFifo(old(w).fifo, val))
    {
      ghost var was := fifo[..];
      if fifoflags < ESP_FIFO {
        fifoflags := fifoflags + 1;
      }
      fifo[fifoflags - 1] := val;
      LastWritten(was, fifoflags - 1, val);
      assert fifo[..] == was[fifoflags - 1 := val];
      assert fifo[..fifoflags] == fifo[..][..fifoflags];
      assert w.fifo[..fifoflags - 1] == was[..fifoflags - 1];
      w := w.(fifo := WriteFifo(w.fifo, val));
    }

    static lemma LastWritten(b: seq<bv8>, n: nat, val: bv8)
      requires n < |b|
      ensures b[n := val][..n + 1] == b[..n] + [val]
    {
    }

    /** esp_fifo_read */
    method FifoRead() returns (val: bv8)
      requires Valid() && Sending(w.scsi)
      modifies this`fifoflags, this`counter, this`tc, this`service, this`io, this`armed, this`w,
        fifo, target, target.data
      ensures Valid() && (val, w) == ReadFifo(old(w))
    {
      hide Mounted, SendData, Esp, Sending, Target.Valid;
      EspMeans();
      PhaseSeen();
      if fifoflags > 0 {
        val := FifoShift();
      } else if io == TRANSFERRING && !dmaMode && counter > 0 && target.phase == DATA_IN {
        val := SendFromTarget();
        var done := Done(DATA_IN);
        Settle(if done then EspModel.DONE else TRANSFERRING, armed);
      } else {
        val := 0;
      }
    }

    /** The ESP FIFO is filled from the target (esp.c:383-386). */
    method FillEspFifo()
      requires Valid() && Sending(w.scsi)
      modifies this`fifoflags, this`counter, this`w, fifo, target, target.data
      ensures Valid() && |old(w).fifo| <= ESP_FIFO && w == FillFifo(old(w)) && Sending(w.scsi)
    {
      hide SendData, Mounted, Esp, Target.Valid, Dma;
      EspMeans();
      PhaseSeen();
      while fifoflags < ESP_FIFO && counter > 0 && target.phase == DATA_IN
        invariant Valid() && Sending(w.scsi) && fifoflags == |w.fifo| <= ESP_FIFO && counter == w.counter
        invariant target.phase == w.scsi.phase
        invariant |old(w).fifo| <= ESP_FIFO && FillFifo(w) == FillFifo(old(w))
        decreases ESP_FIFO - fifoflags
      {
        SendDataStream(w.scsi);
        FillOneByte();
        EspMeans();
        PhaseSeen();
      }
      PhaseSeen();
    }

    method FillOneByte()
      requires Valid() && Sending(w.scsi) && |w.fifo| < ESP_FIFO && w.counter > 0 && w.scsi.phase == DATA_IN
      modifies this`fifoflags, this`counter, this`w, fifo, target, target.data
      ensures Valid()
      ensures var r := SendData(old(w).scsi);
        w == old(w).(fifo := old(w).fifo + [r.0], scsi := r.1, counter := old(w).counter - 1)
    {
      hide SendData, Mounted, Sending, Target.Valid, Esp;
      EspMeans();
      var val := SendFromTarget();
      EspMeans();
      FifoWrite(val);
    }

    /** The ESP FIFO is emptied into the target (esp.c:403-406). */
    method EmptyEspFifo()
      requires Valid() && Receiving(w.scsi)
      modifies this`fifoflags, this`counter, this`w, fifo, target, target.data, target.image
      ensures Valid() && w == EmptyFifo(old(w)) && Receiving(w.scsi)
    {
      hide ReceiveData, Mounted, Esp, Target.Valid, Dma;
      EspMeans();
      PhaseSeen();
      while fifoflags > 0 && counter > 0 && target.phase == DATA_OUT
        invariant Valid() && Receiving(w.scsi) && fifoflags == |w.fifo| && counter == w.counter
        invariant target.phase == w.scsi.phase
        invariant EmptyFifo(w) == EmptyFifo(old(w))
        decreases fifoflags
      {
        ReceiveDataImage(w.scsi, w.fifo[0]);
        EmptyOneByte();
        EspMeans();
        PhaseSeen();
      }
    }

    method EmptyOneByte()
      requires Valid() && Receiving(w.scsi) && w.fifo != [] && w.counter > 0 && w.scsi.phase == DATA_OUT
      modifies this`fifoflags, this`counter, this`w, fifo, target, target.data, target.image
      ensures Valid()
      ensures old(w).scsi.size < |old(w).scsi.data| && Mounted(old(w).scsi) &&
        w == old(w).(fifo := old(w).fifo[1..], scsi := ReceiveData(old(w).scsi, old(w).fifo[0]),
          counter := old(w).counter - 1)
    {
      hide ReceiveData, Mounted, Receiving, Target.Valid, Esp;
      EspMeans();
      SpaceLeft(w.scsi);
      var val := FifoShift();
      GiveByte(val);
    }

    lemma PhaseSeen()
      requires Valid()
      ensures target.phase == w.scsi.phase
    {
    }

    method DoneFlags(over: bool)
      requires Esp()
      modifies this`tc, this`service, this`w
      ensures Esp() && w == old(w).(tc := old(w).tc || old(w).counter == 0, service := old(w).service || over)
    {
      service := service || over;
      tc := tc || counter == 0;
      w := w.(service := service, tc := tc);
    }

    /** esp_transfer_done */
    method Done(expected: Phase) returns (done: bool)
      requires Valid()
      modifies this`tc, this`service, this`w
      ensures Valid() && w == TransferDone(old(w), expected) && done == Over(old(w), expected)
    {
      hide Target.Valid, Mounted, Esp;
      PhaseSeen();
      EspMeans();
      done := counter == 0 || target.phase != expected;
      DoneFlags(done);
    }

    method SettleEsp(state: Io, again: bool)
      requires Esp()
      modifies this`io, this`armed, this`w
      ensures Esp() && w == old(w).(io := state, armed := again)
    {
      io, armed := state, again;
      w := w.(io := state, armed := again);
    }

    /** What the handler leaves for the next call. */
    method Settle(state: Io, again: bool)
      requires Valid()
      modifies this`io, this`armed, this`w
      ensures Valid() && w == old(w).(io := state, armed := again)
    {
      hide Target.Valid, Mounted, Esp;
      SettleEsp(state, again);
    }

    lemma Visible()
      requires Valid()
      ensures io == w.io && dmaMode == w.dmaMode && |w.fifo| <= ESP_FIFO && target.phase == w.scsi.phase
    {
    }

    /** ESP_IO_Handler while the target sends, or has sent its last byte. */
    method HandlerIn()
      requires Valid() && Sending(w.scsi) && Shape(w.f) && ToMemory(w.f) && Usable(w)
      modifies this, mem, fifo, buf, target, target.data
      ensures Valid() && |old(w).fifo| <= ESP_FIFO && w == TickIn(old(w))
    {
      hide Valid, Sending, Shape, ToMemory, Usable, DmaWrite, FillFifo, TransferDone, Over;
      Visible();
      if io == TRANSFERRING {
        if target.phase == DATA_IN {
          if dmaMode {
            WriteMemory();
          } else {
            FillEspFifo();
          }
          var done := Done(DATA_IN);
          Settle(if done then FLUSHING else TRANSFERRING, true);
        } else {
          var _ := Done(DATA_IN);
          DoneIo(old(w), DATA_IN);
          Settle(TRANSFERRING, false);
        }
      } else if io == FLUSHING {
        WriteMemory();
        FlushIo(old(w));
        Settle(FLUSHING, false);
      } else {
        Settle(DONE, false);
      }
    }

    /** ESP_IO_Handler while the target receives. */
    method HandlerOut()
      requires Valid() && Receiving(w.scsi) && Shape(w.f) && ToDevice(w.f) && Usable(w) && io == TRANSFERRING
      modifies this, fifo, buf, target, target.data, target.image
      ensures Valid() && old(w).io == TRANSFERRING && w == TickOut(old(w))
    {
      hide Valid, Receiving, Shape, ToDevice, Usable, DmaRead, EmptyFifo, TransferDone, Over;
      Visible();
      if target.phase == DATA_OUT {
        EmptyFifoKeeps(w);
        ghost var m := w;
        EmptyEspFifo();
        EmptyUsable(m);
        if dmaMode {
          ReadIo(w);
          ReadMemory();
        }
        ghost var n := w;
        var done := Done(DATA_OUT);
        DoneIo(n, DATA_OUT);
        Settle(TRANSFERRING, !done);
      } else {
        var _ := Done(DATA_IN);
        DoneIo(old(w), DATA_IN);
        Settle(TRANSFERRING, false);
      }
    }

    lemma Registers()
      requires Valid()
      ensures ch == w.ch && bufLimit == w.f.lim && bufSize == w.f.size && mem.Length == |w.mem|
    {
    }

    lemma Looking()
      requires Valid()
      ensures Esp() && target.Valid() && target.s == w.scsi && bufLimit == w.f.lim
    {
    }
  }

  lemma SizeQuad(f: Fifo)
    requires ToMemory(f) && f.lim == BURST
    ensures Quad(f.size)
  {
  }

  /** There is room for a long word in front of the limit, and a long word left in the FIFO. */
  lemma LongFits(f: Fifo, next: nat, limit: nat, done: nat)
    requires ToMemory(f) && f.lim == BURST && next <= limit && Quad(limit - next) && Quad(done)
    requires done < f.size && next + done < limit
    ensures done + 4 <= f.size && next + done + 4 <= limit && done + 4 <= Room(f, next, limit) && Quad(4)
  {
  }

  lemma LongStored(start: seq<bv8>, next: nat, f: Fifo, done: nat)
    requires Shape(f) && f.lim == BURST && done + 4 <= f.size && next + done + 4 <= |start|
    ensures var pos := BURST - (f.size - done);
      Store(Store(start, next, Residual(f)[..done]), next + done, f.buf[pos..pos + 4]) ==
      Store(start, next, Residual(f)[..done + 4])
  {
    hide Store;
    var pos := BURST - (f.size - done);
    StoreTwo(start, next, Residual(f)[..done], f.buf[pos..pos + 4]);
    assert Residual(f) == f.buf[BURST - f.size..];
    Pieces(f.buf, BURST - f.size, done, 4);
  }

  lemma Pieces(s: seq<bv8>, a: nat, n: nat, k: nat)
    requires a + n + k <= |s|
    ensures s[a..][..n + k] == s[a..][..n] + s[a + n..a + n + k]
  {
  }

  /** A full FIFO and an aligned channel in front of its limit. */
  predicate Emptying(m: Machine) {
    ToMemory(m.f) && m.f.lim == BURST && m.ch.next <= m.ch.limit <= |m.mem| && Quad(m.ch.limit - m.ch.next)
  }

  /** What fits has been stored. */
  function Emptied(m: Machine): Machine
    requires Emptying(m)
  {
    var k := Room(m.f, m.ch.next, m.ch.limit);
    m.(f := Drop(m.f, k), ch := m.ch.(next := m.ch.next + k), mem := Store(m.mem, m.ch.next, Residual(m.f)[..k]))
  }

  lemma EmptiedIs(m: Machine)
    requires ToMemory(m.f) && m.f.lim == BURST && m.ch.next <= m.ch.limit <= |m.mem| && Quad(m.ch.limit - m.ch.next)
    ensures Emptying(m) && Shape(m.f)
    ensures var r, k := Emptied(m), Room(m.f, m.ch.next, m.ch.limit);
      k <= m.f.size && m.ch.next + k <= |m.mem| && r == m.(f := r.f, ch := r.ch, mem := r.mem) &&
      r.f == (if m.f.size - k == 0 then Fifo(m.f.buf, 0, 0) else Fifo(m.f.buf, m.f.size - k, m.f.lim)) &&
      r.ch == m.ch.(next := m.ch.next + k) && r.mem == Store(m.mem, m.ch.next, Residual(m.f)[..k])
  {
    hide Store, Quad;
  }

  /** In the middle of the loop: w is m after n bytes have been sent and `out` has been stored, and what the loop
      still does completes what it does from m. */
  predicate Midway(w: Machine, m: Machine, n: nat, out: seq<bv8>) {
    Sending(m.scsi) && Shape(m.f) && Sending(w.scsi) && Shape(w.f) && n <= |Supply(m)| &&
    (out != [] ==> m.ch.next + |out| <= |m.mem|) &&
    w == SendBytes(m, n).(f := w.f, ch := m.ch.(next := m.ch.next + |out|), mem := Put(m.mem, Chunk(m.ch.next, out))) &&
    Resumed(Pump(m.ch.next, m.ch.limit, m.f, Supply(m)), Pump(w.ch.next, w.ch.limit, w.f, Supply(w)), n, out)
  }

  predicate Resumed(p: Pumped, r: Pumped, n: nat, out: seq<bv8>) {
    p == Pumped(r.next, r.f, n + r.used, out + r.out)
  }

  /** The loop started in m is over. */
  predicate Finished(w: Machine, m: Machine) {
    Sending(m.scsi) && Shape(m.f) && Usable(m) && w.(ch := Interrupt(w.ch)) == DmaWrite(m)
  }

  lemma FinishedMeans(m: Machine)
    requires Sending(m.scsi) && Shape(m.f) && Usable(m)
    ensures forall w :: Finished(w, m) ==> w.(ch := Interrupt(w.ch)) == DmaWrite(m)
    ensures !m.ch.enabled ==> DmaWrite(m) == m
  {
    hide Sending, Pump, Interrupt;
  }

  lemma UsableMeans(m: Machine)
    requires Usable(m) && m.ch.enabled
    ensures Quad(m.ch.limit - m.ch.next) && m.ch.limit <= |m.mem|
  {
    BurstQuad(m.ch.limit, m.ch.next);
  }

  lemma FlushSteps(m: Machine)
    requires ToMemory(m.f) && Usable(m)
    ensures Shape(m.f) && (!m.ch.enabled ==> FlushStep(m) == m)
    ensures m.ch.enabled ==>
      if m.ch.next < m.ch.limit then
        m.ch.next + 4 <= m.ch.limit <= |m.mem| &&
        FlushStep(m) == m.(f := Flush(m.f).0, mem := Store(m.mem, m.ch.next, Flush(m.f).1),
                           ch := Interrupt(m.ch.(next := m.ch.next + 4)))
      else FlushStep(m) == m.(ch := Interrupt(m.ch))
  {
    hide Flush, Store, Interrupt;
  }

  lemma ZeroNone(f: Fifo)
    requires Shape(f)
    ensures Fill(f, Zeroes(0)) == f
  {
    assert Zeroes(0) == [];
    FillNothing(f);
  }

  lemma ZeroOne(f: Fifo, n: nat)
    requires Shape(f) && f.lim + n < BURST
    ensures var g := Fill(f, Zeroes(n));
      Fill(f, Zeroes(n + 1)) == Fifo(g.buf[g.lim := 0], g.size + 1, g.lim + 1)
  {
    var g, h := Fill(f, Zeroes(n)), Fill(f, Zeroes(n + 1));
    assert h.buf == g.buf[g.lim := 0];
  }

  lemma BurstQuad(a: nat, b: nat)
    requires a % BURST == 0 && b % 4 == 0
    ensures Quad(a - b)
  {
  }

  lemma StillToMemory(f: Fifo, g: Fifo)
    requires ToMemory(f) && Shape(g) && g.lim - g.size == f.lim - f.size
    ensures ToMemory(g)
  {
  }

  lemma MidwayStart(m: Machine)
    requires Sending(m.scsi) && Shape(m.f)
    ensures Midway(m, m, 0, [])
  {
    hide Sending, Supply, Pump, Shape;
    var p := Pump(m.ch.next, m.ch.limit, m.f, Supply(m));
    assert [] + p.out == p.out;
  }

  /** FIFO, channel and memory do not matter to the ESP. */
  lemma {:induction false} SendBytesFrame(m: Machine, n: nat, f: Fifo, ch: Channel, mem: seq<bv8>)
    requires Sending(m.scsi) && n <= |Supply(m)|
    ensures var v := m.(f := f, ch := ch, mem := mem);
      Supply(v) == Supply(m) && SendBytes(v, n) == SendBytes(m, n).(f := f, ch := ch, mem := mem)
    decreases n
  {
    hide Sending, SendByte, Ready, Stream;
    var v := m.(f := f, ch := ch, mem := mem);
    if n > 0 {
      SendFirst(m);
      SendByteFrame(m, f, ch, mem);
      SendFirst(v);
      SendBytesFrame(SendByte(m).1, n - 1, f, ch, mem);
    }
  }

  lemma SendByteFrame(m: Machine, f: Fifo, ch: Channel, mem: seq<bv8>)
    requires Sending(m.scsi) && Ready(m)
    ensures var v := m.(f := f, ch := ch, mem := mem);
      Ready(v) && SendByte(v) == (SendByte(m).0, SendByte(m).1.(f := f, ch := ch, mem := mem))
  {
    hide Sending, SendData;
  }

  lemma {:induction false} SendBytesSum(m: Machine, n: nat, k: nat)
    requires Sending(m.scsi) && n <= |Supply(m)| && k <= |Supply(SendBytes(m, n))|
    ensures n + k <= |Supply(m)| && SendBytes(m, n + k) == SendBytes(SendBytes(m, n), k)
    decreases n
  {
    hide Sending, SendByte, Ready, Supply;
    if n > 0 {
      SendFirst(m);
      SendBytesSum(SendByte(m).1, n - 1, k);
    }
  }

  lemma FilledMidway(w: Machine, w0: Machine, m: Machine, n: nat, out: seq<bv8>, k: nat)
    requires Midway(w0, m, n, out) && Sending(w0.scsi) && k <= |Supply(w0)| && Sent(w, w0, k)
    requires Sending(w.scsi) && Shape(w.f) && Shape(w0.f)
    requires Advanced(Pump(w0.ch.next, w0.ch.limit, w0.f, Supply(w0)), Pump(w0.ch.next, w0.ch.limit, w.f, Supply(w)), k)
    ensures Midway(w, m, n + k, out) && w.ch == w0.ch && |w.mem| == |w0.mem|
  {
    hide Sending, Supply, Pump, Shape, SendBytes, Put;
    var v := SendBytes(m, n);
    SendBytesSupply(m, n);
    SendBytesFrame(v, 0, w0.f, w0.ch, w0.mem);
    SendBytesFrame(v, k, w0.f, w0.ch, w0.mem);
    SendBytesSum(m, n, k);
  }

  lemma ShortFinish(w: Machine, m: Machine, n: nat, out: seq<bv8>)
    requires Midway(w, m, n, out) && Usable(m) && m.ch.enabled && w.f.lim < BURST && Supply(w) == [] && Sending(w.scsi)
    ensures Finished(w, m)
  {
    hide Sending, Supply, Pump, SendBytes, Interrupt, Put;
    PumpShort(w.ch.next, w.ch.limit, w.f, []);
    assert out + [] == out;
  }

  lemma PastFinish(w: Machine, m: Machine, n: nat, out: seq<bv8>)
    requires Midway(w, m, n, out) && Usable(m) && m.ch.enabled && w.ch.next > w.ch.limit
    ensures Finished(w, m)
  {
    hide Sending, Supply, SendBytes, Interrupt, Put;
    assert out + [] == out;
  }

  lemma PutMore(mem: seq<bv8>, at: nat, out: seq<bv8>, more: seq<bv8>)
    requires out != [] ==> at + |out| <= |mem|
    requires at + |out| + |more| <= |mem|
    ensures Store(Put(mem, Chunk(at, out)), at + |out|, more) == Put(mem, Chunk(at, out + more))
  {
    hide Store;
    if out == [] {
      assert out + more == more;
      if more == [] {
        StoreNothing(mem, at);
      }
    } else {
      StoreTwo(mem, at, out, more);
    }
  }

  lemma FullFinish(w: Machine, m: Machine, n: nat, out: seq<bv8>)
    requires Midway(w, m, n, out) && Usable(m) && m.ch.enabled && Emptying(w) && Emptied(w).f.size > 0
    ensures Finished(Emptied(w), m) &&
      Emptied(w).ch.next <= Emptied(w).ch.limit == w.ch.limit && Emptied(w).scsi == w.scsi
  {
    hide Sending, Supply, Pump, SendBytes, Interrupt, Put, Store, Residual, Quad;
    PumpFull(w.ch.next, w.ch.limit, w.f, Supply(w));
    PutMore(m.mem, m.ch.next, out, Residual(w.f)[..Room(w.f, w.ch.next, w.ch.limit)]);
  }

  lemma EmptiedMidway(w: Machine, m: Machine, n: nat, out: seq<bv8>)
    requires Midway(w, m, n, out) && Emptying(w) && Emptied(w).f.size == 0
    ensures Shape(w.f) && Midway(Emptied(w), m, n, out + Residual(w.f)) &&
      ToMemory(Emptied(w).f) && Sending(Emptied(w).scsi)
    ensures Shape(Emptied(w).f)
    ensures var r := Emptied(w);
      w.ch.next < r.ch.next <= r.ch.limit == w.ch.limit && Quad(r.ch.limit - r.ch.next)
  {
    hide Sending, Supply, Pump, SendBytes, Interrupt, Put, Store, Residual, Quad;
    var k := Room(w.f, w.ch.next, w.ch.limit);
    RoomQuad(w.f, w.ch.next, w.ch.limit);
    PumpFull(w.ch.next, w.ch.limit, w.f, Supply(w));
    assert Residual(w.f)[..k] == Residual(w.f);
    PutMore(m.mem, m.ch.next, out, Residual(w.f));
    var r := Emptied(w);
    SupplyAgain(w, r);
    var q := Pump(r.ch.next, r.ch.limit, r.f, Supply(r));
    assert out + (Residual(w.f) + q.out) == out + Residual(w.f) + q.out;
  }

  lemma SupplyAgain(w: Machine, r: Machine)
    requires Sending(w.scsi) && r.scsi == w.scsi && r.fifo == w.fifo && r.counter == w.counter
    ensures Sending(r.scsi) && Supply(r) == Supply(w)
  {
  }

  /** r is what is left of p when n bytes have been taken. */
  predicate Advanced(p: Pumped, r: Pumped, n: nat) {
    p == Pumped(r.next, r.f, n + r.used, r.out)
  }

  /** w is m after n bytes have been sent, the FIFO apart. */
  predicate Sent(w: Machine, m: Machine, n: nat)
    requires Sending(m.scsi) && n <= |Supply(m)|
  {
    w == SendBytes(m, n).(f := w.f)
  }

  lemma SendByteIs(m: Machine)
    requires Sending(m.scsi) && Ready(m) && m.fifo == []
    ensures m.counter > 0 && m.scsi.phase == DATA_IN && Mounted(m.scsi) && 0 < m.scsi.size <= m.scsi.limit
    ensures var s := SendData(m.scsi); SendByte(m) == (s.0, m.(counter := m.counter - 1, scsi := s.1))
  {
    hide SendData, Mounted;
  }

  lemma FillStore0(f: Fifo, bytes: seq<bv8>)
    requires Shape(f)
    ensures var n := Min(BURST - f.lim, |bytes|);
      Fill(f, bytes) == Fifo(Store(f.buf, f.lim, bytes[..n]), f.size + n, f.lim + n)
  {
  }

  lemma LoadFits(m: Machine, done: nat)
    requires Usable(m) && m.ch.enabled && m.ch.next < m.ch.limit && ToDevice(m.f) && Quad(done)
    requires m.ch.next + done < m.ch.limit && m.f.lim + done < BURST
    ensures m.ch.next + done + 4 <= m.ch.limit && m.f.lim + done + 4 <= BURST && done + 4 <= |Pending(m)| && Quad(4)
    ensures Pending(m)[..done + 4] == Pending(m)[..done] + m.mem[m.ch.next + done..m.ch.next + done + 4]
  {
  }

  lemma LoadAll(m: Machine, done: nat)
    requires Usable(m) && m.ch.enabled && m.ch.next < m.ch.limit && ToDevice(m.f)
    requires done <= Min(BURST - m.f.lim, |Pending(m)|) && (m.ch.next + done >= m.ch.limit || m.f.lim + done >= BURST)
    ensures done == Min(BURST - m.f.lim, |Pending(m)|)
  {
  }

  lemma GiveNext(m: Machine, given: nat)
    requires Receiving(m.scsi) && Shape(m.f) && given < m.f.size && given < Accepts(m)
    ensures var b := Residual(m.f)[..given];
      given + 1 <= m.counter && given + 1 <= Capacity(m.scsi) && |b| <= Capacity(m.scsi) &&
      Residual(m.f)[..given + 1] == b + [m.f.buf[m.f.lim - (m.f.size - given)]] &&
      var r := GiveBytes(m, b);
      r.counter > 0 && Receiving(r.scsi) && Mounted(r.scsi) && r.scsi.size < |r.scsi.data| &&
      var v := GiveBytes(m, Residual(m.f)[..given + 1]);
      v == r.(counter := r.counter - 1, scsi := ReceiveData(r.scsi, m.f.buf[m.f.lim - (m.f.size - given)])) &&
      Accepts(v) == Accepts(m) - given - 1
  {
    hide Receiving, Capacity, Accepts, ReceiveData, Mounted;
    var b, val := Residual(m.f)[..given], m.f.buf[m.f.lim - (m.f.size - given)];
    assert Residual(m.f)[..given + 1] == b + [val];
    Out.GiveMore(m, b, val);
    Out.AcceptsLess(m, b + [val]);
  }

  lemma GivenFrame(m: Machine, b: seq<bv8>)
    requires Receiving(m.scsi) && |b| <= m.counter && |b| <= Capacity(m.scsi)
    ensures var r := GiveBytes(m, b); r == m.(counter := m.counter - |b|, scsi := r.scsi) && r.scsi == Feed(m.scsi, b)
  {
  }

  lemma DropBuf(f: Fifo, k: nat)
    requires Shape(f) && k <= f.size
    ensures Drop(f, k).buf == f.buf && |f.buf| == BURST
  {
  }

  lemma MidwayMeans(w: Machine, m: Machine, used: nat, out: seq<bv8>)
    requires Out.Midway(w, m, used, out)
    ensures Usable(w) && Shape(w.f) && w.ch.enabled && Receiving(w.scsi)
  {
    hide Receiving, Push, Accepts, Shape, Usable;
  }

  lemma ReadFinished(m: Machine)
    requires Receiving(m.scsi) && Shape(m.f) && Usable(m)
    ensures forall w :: Out.Finished(w, m) ==> w.(ch := Interrupt(w.ch)) == DmaRead(m)
    ensures !m.ch.enabled ==> DmaRead(m) == m
  {
    hide Receiving, Push, Interrupt;
  }

  lemma EmptyUsable(m: Machine)
    requires Usable(m) && Receiving(m.scsi)
    ensures Usable(EmptyFifo(m))
  {
    hide Receiving;
    EmptyFifoKeeps(m);
  }

  lemma DoneIo(m: Machine, expected: Phase)
    ensures TransferDone(m, expected).io == m.io
  {
  }

  lemma FlushIo(m: Machine)
    requires Sending(m.scsi) && Shape(m.f) && Usable(m)
    ensures DmaWrite(m).io == m.io
  {
    hide Sending, Shape, Pump, Interrupt, SendBytes;
    if m.ch.enabled {
      SendBytesSupply(m, Pump(m.ch.next, m.ch.limit, m.f, Supply(m)).used);
    }
  }

  lemma ReadIo(m: Machine)
    requires Receiving(m.scsi) && Shape(m.f) && Usable(m)
    ensures DmaRead(m).io == m.io
  {
    hide Receiving, Shape, Push, Interrupt, Feed;
  }

  lemma ShapeLim(f: Fifo)
    requires Shape(f)
    ensures f.lim <= BURST && f.size <= f.lim
  {
  }

  lemma SentNone(m: Machine)
    requires Sending(m.scsi)
    ensures Sent(m, m, 0)
  {
    hide Sending, Supply;
  }

  /** The FIFO does not matter to the ESP. */
  lemma SupplyOf(m: Machine, f: Fifo)
    requires Sending(m.scsi)
    ensures var n := m.(f := f);
      Supply(n) == Supply(m) && Ready(n) == Ready(m) &&
      (Ready(m) ==> SendByte(n) == (SendByte(m).0, SendByte(m).1.(f := f)))
  {
    hide Sending, Stream, SendData;
  }

  lemma {:induction false} SendBytesOne(m: Machine, n: nat)
    requires Sending(m.scsi) && n < |Supply(m)|
    ensures Ready(SendBytes(m, n)) && SendBytes(m, n + 1) == SendByte(SendBytes(m, n)).1
    decreases n
  {
    hide Sending, Supply, SendByte, Ready;
    SendFirst(m);
    if n > 0 {
      SendBytesOne(SendByte(m).1, n - 1);
    }
  }

  /** One byte more has been sent, whatever the FIFO of the channel. */
  ghost predicate SentMore(r: (bv8, Machine), m: Machine, n: nat, w: Machine)
    requires Sending(m.scsi) && Sending(w.scsi)
  {
    n + 1 <= |Supply(m)| && Supply(w) != [] && Sending(r.1.scsi) && r.0 == Supply(w)[0] &&
    Supply(r.1) == Supply(w)[1..] && r.1.f == w.f && forall f :: Sent(r.1.(f := f), m, n + 1)
  }

  lemma SentOne(m: Machine, n: nat, w: Machine)
    requires Sending(m.scsi) && n <= |Supply(m)| && Sent(w, m, n) && Sending(w.scsi) && Ready(w)
    ensures SentMore(SendByte(w), m, n, w)
  {
    hide Sending, Supply, SendByte, Ready, SendBytes, Stream, Outcome;
    var v := SendBytes(m, n);
    SupplyOf(v, w.f);
    SendByteSupply(w);
    SendBytesSupply(m, n);
    SendBytesOne(m, n);
  }
}
