/** Chained buffers of the SCSI channel (dma_interrupt in src/dma.c): where the bytes of a transfer go, or come from,
    when the second buffer follows the first without the guest. */
module DmaChaining {
  import opened Burst
  import opened ScsiDisk
  import opened EspModel
  import opened EspTheorems

  /** A first buffer from next to limit, and a second one from start to stop. */
  predicate Chained(ch: Channel) {
    ch.enabled && ch.supdate && ch.next < ch.limit && ch.start < ch.stop
  }

  function First(ch: Channel): nat
    requires Chained(ch)
  {
    ch.limit - ch.next
  }

  function Both(ch: Channel): nat
    requires Chained(ch)
  {
    ch.limit - ch.next + (ch.stop - ch.start)
  }

  /** The registers after n bytes. */
  function Passed(ch: Channel, n: nat): Channel
    requires Chained(ch)
  {
    if n < First(ch) then ch.(next := ch.next + n)
    else if n < Both(ch) then
      ch.(next := ch.start + (n - First(ch)), limit := ch.stop, supdate := false, complete := true)
    else ch.(next := ch.stop, limit := ch.stop, supdate := false, complete := true, enabled := false)
  }

  /** The address of byte n. */
  function Where(ch: Channel, n: nat): nat
    requires Chained(ch)
  {
    if n < First(ch) then ch.next + n else ch.start + (n - First(ch))
  }

  /** Each chunk is in its place, and none reaches over the end of the first buffer. */
  predicate Placed(ch: Channel, cs: seq<Chunk>)
    requires Chained(ch)
  {
    forall i :: 0 <= i < |cs| && cs[i].bytes != [] ==>
      var n := |Bytes(cs[..i])|;
      cs[i].at == Where(ch, n) && (n < First(ch) ==> n + |cs[i].bytes| <= First(ch))
  }

  /** cs has passed through the channel, which was ch at the beginning and is now. */
  predicate Progress(ch: Channel, now: Channel, cs: seq<Chunk>)
    requires Chained(ch)
  {
    Placed(ch, cs) && |Bytes(cs)| <= Both(ch) && now == Passed(ch, |Bytes(cs)|)
  }

  /** What one step may do: pass a chunk from next on, not beyond the limit, and look for the limit. */
  predicate Passes(now: Channel, c: Chunk, r: Channel) {
    (c.bytes != [] ==> now.enabled && c.at == now.next && now.next + |c.bytes| <= now.limit) &&
    (r == Interrupt(now.(next := now.next + |c.bytes|)) || (c.bytes == [] && r == now)) &&
    (!now.enabled ==> r == now)
  }

  lemma ChannelStep(ch: Channel, n: nat, c: Chunk, r: Channel)
    requires Chained(ch) && n <= Both(ch) && Passes(Passed(ch, n), c, r)
    ensures n + |c.bytes| <= Both(ch) && r == Passed(ch, n + |c.bytes|)
    ensures c.bytes != [] ==> c.at == Where(ch, n) && (n < First(ch) ==> n + |c.bytes| <= First(ch))
  {
  }

  lemma PlacedMore(ch: Channel, cs: seq<Chunk>, c: Chunk)
    requires Chained(ch) && Placed(ch, cs)
    requires var n := |Bytes(cs)|;
      c.bytes != [] ==> c.at == Where(ch, n) && (n < First(ch) ==> n + |c.bytes| <= First(ch))
    ensures Placed(ch, cs + [c])
  {
    hide Bytes, Where, First;
    var more := cs + [c];
    forall i | 0 <= i < |more| && more[i].bytes != []
      ensures var n := |Bytes(more[..i])|;
        more[i].at == Where(ch, n) && (n < First(ch) ==> n + |more[i].bytes| <= First(ch))
    {
      if i < |cs| {
        assert more[..i] == cs[..i] && more[i] == cs[i];
      } else {
        assert more[..i] == cs;
      }
    }
  }

  lemma ProgressStep(ch: Channel, now: Channel, cs: seq<Chunk>, c: Chunk, r: Channel)
    requires Chained(ch) && Progress(ch, now, cs) && Passes(now, c, r)
    ensures Progress(ch, r, cs + [c])
  {
    hide Bytes, Passes, Placed, Where, First, Both, Passed;
    ChannelStep(ch, |Bytes(cs)|, c, r);
    PlacedMore(ch, cs, c);
    BytesAppend(cs, c);
  }

  // ---------------------------------------------------------- from the device to memory

  lemma TickPasses(m: Machine)
    requires In(m)
    ensures Passes(m.ch, TickChunk(m), TickIn(m).ch)
  {
    hide Pump, SendBytes, Sending, Stream, Shape, Residual, Outcome, Supply, Usable, Interrupt;
    if m.ch.enabled {
      SendBytesSupply(m, Pump(m.ch.next, m.ch.limit, m.f, Supply(m)).used);
    }
  }

  lemma FlushPasses(m: Machine)
    requires Shape(m.f) && Usable(m)
    ensures Passes(m.ch, FlushChunk(m), FlushStep(m).ch)
  {
    hide Flush, Interrupt, Put, Shape;
    if Flushes(m) {
      LongFits(m.ch.next, m.ch.limit);
    }
  }

  lemma LongFits(next: nat, limit: nat)
    requires next < limit && limit % BURST == 0 && next % 4 == 0
    ensures next + 4 <= limit
  {
  }

  lemma StepPasses(m: Machine, st: Step)
    requires Primed(m) && Able(m, st) && (st.Tick? || st.Flushing?)
    ensures Passes(m.ch, StepChunk(m, st), After(m, st).ch)
  {
    hide Sending, Shape, Usable, TickIn, TickChunk, FlushStep, FlushChunk, Passes;
    if st.Tick? {
      TickPasses(m);
    } else {
      FlushPasses(m);
    }
  }

  lemma {:induction false} RunProgress(ch: Channel, m: Machine, cs: seq<Chunk>, steps: seq<Step>)
    requires Chained(ch) && Primed(m) && Runnable(m, steps) && OneBuffer(steps) && Progress(ch, m.ch, cs)
    ensures Progress(ch, RunSteps(m, steps).ch, cs + Chunks(m, steps))
    decreases |steps|
  {
    hide Primed, Able, After, StepChunk, Progress, Passes;
    if steps == [] {
      assert cs + [] == cs;
    } else {
      var n, c := After(m, steps[0]), StepChunk(m, steps[0]);
      StepPasses(m, steps[0]);
      ProgressStep(ch, m.ch, cs, c, n.ch);
      RunProgress(ch, n, cs + [c], steps[1..]);
      assert cs + [c] + Chunks(n, steps[1..]) == cs + ([c] + Chunks(n, steps[1..]));
    }
  }

  /** Memory with got in the first buffer and, as far as it does not fit there, in the second. */
  function InBuffers(mem: seq<bv8>, ch: Channel, got: seq<bv8>): (r: seq<bv8>)
    requires Chained(ch) && |got| <= Both(ch) && ch.limit <= |mem| && ch.stop <= |mem|
    ensures |r| == |mem|
  {
    var n := Min(First(ch), |got|);
    Store(Store(mem, ch.next, got[..n]), ch.start, got[n..])
  }

  lemma {:induction false} PutBuffers(mem: seq<bv8>, ch: Channel, cs: seq<Chunk>)
    requires Chained(ch) && Placed(ch, cs) && Fit(cs, |mem|) && |Bytes(cs)| <= Both(ch)
    requires ch.limit <= |mem| && ch.stop <= |mem|
    ensures PutAll(mem, cs) == InBuffers(mem, ch, Bytes(cs))
    decreases |cs|
  {
    hide Bytes, Store, InBuffers, Placed, Fit;
    if cs == [] {
      NothingPut(mem, ch);
    } else {
      var n := |cs| - 1;
      var init, c := cs[..n], cs[n];
      assert cs == init + [c];
      BytesAppend(init, c);
      InitPlaced(ch, cs, |mem|);
      PutBuffers(mem, ch, init);
      PutAllAppend(mem, init, c);
      if c.bytes == [] {
        assert Bytes(init) + c.bytes == Bytes(init);
      } else {
        OneMore(mem, ch, Bytes(init), c);
      }
    }
  }

  lemma NothingPut(mem: seq<bv8>, ch: Channel)
    requires Chained(ch) && ch.limit <= |mem| && ch.stop <= |mem|
    ensures Bytes([]) == [] && InBuffers(mem, ch, []) == mem && PutAll(mem, []) == mem
  {
    StoreNothing(mem, ch.next);
    StoreNothing(mem, ch.start);
    var none: seq<bv8> := [];
    assert none[..0] == none && none[0..] == none;
  }

  lemma InitPlaced(ch: Channel, cs: seq<Chunk>, size: nat)
    requires Chained(ch) && cs != [] && Placed(ch, cs) && Fit(cs, size)
    ensures var n := |cs| - 1;
      Placed(ch, cs[..n]) && Fit(cs[..n], size) &&
      (cs[n].bytes != [] ==>
         cs[n].at + |cs[n].bytes| <= size && cs[n].at == Where(ch, |Bytes(cs[..n])|) &&
         (|Bytes(cs[..n])| < First(ch) ==> |Bytes(cs[..n])| + |cs[n].bytes| <= First(ch)))
  {
    hide Bytes, Where, First;
    var n := |cs| - 1;
    assert forall i :: 0 <= i < n ==> cs[..n][..i] == cs[..i];
  }

  /** One more chunk in its place. */
  lemma OneMore(mem: seq<bv8>, ch: Channel, got: seq<bv8>, c: Chunk)
    requires Chained(ch) && ch.limit <= |mem| && ch.stop <= |mem| && |got| + |c.bytes| <= Both(ch) && c.bytes != []
    requires c.at == Where(ch, |got|) && (|got| < First(ch) ==> |got| + |c.bytes| <= First(ch))
    ensures c.at + |c.bytes| <= |mem|
    ensures Store(InBuffers(mem, ch, got), c.at, c.bytes) == InBuffers(mem, ch, got + c.bytes)
  {
    hide Store;
    var n, all := First(ch), got + c.bytes;
    if |got| < n {
      assert got[..|got|] == got && got[|got|..] == [] && all[..|all|] == all && all[|all|..] == [];
      StoreTwo(mem, ch.next, got, c.bytes);
      StoreNothing(Store(mem, ch.next, got), ch.start);
      StoreNothing(Store(mem, ch.next, all), ch.start);
    } else {
      assert all[..n] == got[..n] && all[n..] == got[n..] + c.bytes;
      StoreTwo(Store(mem, ch.next, got[..n]), ch.start, got[n..], c.bytes);
    }
  }

  /** READ into two chained buffers, by ticks and flushes: what is stored fills the first buffer and then the second
      one, nothing else changes, and the channel stands where it ends: still in the first, in the second and complete,
      or complete and disabled at its stop. */
  lemma ReadIntoChain(m: Machine, steps: seq<Step>)
    requires Primed(m) && m.f.size == 0 && !m.tc && m.io == TRANSFERRING
    requires Runnable(m, steps) && OneBuffer(steps) && Chained(m.ch) && m.ch.limit <= |m.mem| && m.ch.stop <= |m.mem|
    ensures var r, got, ch := RunSteps(m, steps), Bytes(Chunks(m, steps)), m.ch;
      var n, all := ch.limit - ch.next, ch.limit - ch.next + (ch.stop - ch.start);
      |got| <= all &&
      r.mem == (if |got| <= n then Store(m.mem, ch.next, got)
                else Store(Store(m.mem, ch.next, got[..n]), ch.start, got[n..])) &&
      (|got| < n ==> r.ch == ch.(next := ch.next + |got|)) &&
      (n <= |got| < all ==>
         r.ch == ch.(next := ch.start + (|got| - n), limit := ch.stop, supdate := false, complete := true)) &&
      (|got| == all ==>
         r.ch == ch.(next := ch.stop, limit := ch.stop, supdate := false, complete := true, enabled := false))
  {
    hide Able, After, Runnable, RunSteps, Chunks, Takes, Flat, Supply, Residual, Bytes, Placed, Store, Sending, Shape,
      PutAll, Fit, OneBuffer, InBuffers;
    StartReading(m);
    RunReading(m, Supply(m), m.counter, m.mem, [], [], steps);
    StartProgress(m.ch);
    RunProgress(m.ch, m, [], steps);
    var cs := Chunks(m, steps);
    assert [] + cs == cs;
    PutBuffers(m.mem, m.ch, cs);
    InBuffersIs(m.mem, m.ch, Bytes(cs));
  }

  lemma InBuffersIs(mem: seq<bv8>, ch: Channel, got: seq<bv8>)
    requires Chained(ch) && |got| <= Both(ch) && ch.limit <= |mem| && ch.stop <= |mem|
    ensures var n := First(ch);
      InBuffers(mem, ch, got) ==
        if |got| <= n then Store(mem, ch.next, got) else Store(Store(mem, ch.next, got[..n]), ch.start, got[n..])
  {
    hide Store;
    if |got| <= First(ch) {
      assert got[..|got|] == got && got[|got|..] == [];
      StoreNothing(Store(mem, ch.next, got), ch.start);
    }
  }

  lemma StartProgress(ch: Channel)
    requires Chained(ch)
    ensures Progress(ch, ch, []) && Bytes([]) == []
  {
  }

  // ---------------------------------------------------------- from memory to the device

  lemma LoadPasses(m: Machine)
    requires Out(m)
    ensures Passes(m.ch, TickLoad(m), TickOut(m).ch)
  {
    hide Push, Receiving, Shape, Residual, Interrupt, Capacity, Accepts, EmptyFifo;
    if m.scsi.phase == DATA_OUT {
      EmptyFifoNone(m);
    }
  }

  lemma {:induction false} LoadProgress(ch: Channel, m: Machine, cs: seq<Chunk>, steps: seq<Step>)
    requires Receiving(m.scsi) && Shape(m.f) && m.io == TRANSFERRING && m.dmaMode && m.fifo == []
    requires Chained(ch) && RunnableOut(m, steps) && OneBuffer(steps) && Progress(ch, m.ch, cs)
    ensures Progress(ch, RunOut(m, steps).ch, cs + Loads(m, steps))
    decreases |steps|
  {
    hide Receiving, Shape, TickOut, TickLoad, Usable, Progress, Passes;
    if steps == [] {
      assert cs + [] == cs;
    } else if steps[0].Flushing? {
      LoadProgress(ch, m, cs, steps[1..]);
    } else {
      TickOutFrame(m);
      LoadPasses(m);
      var n, c := TickOut(m), TickLoad(m);
      ProgressStep(ch, m.ch, cs, c, n.ch);
      LoadProgress(ch, n, cs + [c], steps[1..]);
      assert cs + [c] + Loads(n, steps[1..]) == cs + ([c] + Loads(n, steps[1..]));
    }
  }

  /** The bytes of both buffers. */
  function Buffers(mem: seq<bv8>, ch: Channel): (b: seq<bv8>)
    requires Chained(ch) && ch.limit <= |mem| && ch.stop <= |mem|
    ensures |b| == Both(ch)
  {
    mem[ch.next..ch.limit] + mem[ch.start..ch.stop]
  }

  lemma {:induction false} LoadedBytes(mem: seq<bv8>, ch: Channel, cs: seq<Chunk>)
    requires Chained(ch) && Placed(ch, cs) && FromMemory(cs, mem) && |Bytes(cs)| <= Both(ch)
    requires ch.limit <= |mem| && ch.stop <= |mem|
    ensures Bytes(cs) == Buffers(mem, ch)[..|Bytes(cs)|]
    decreases |cs|
  {
    hide Bytes, Placed, FromMemory, Buffers, Where;
    if cs == [] {
      StartProgress(ch);
    } else {
      var n := |cs| - 1;
      var init, c := cs[..n], cs[n];
      assert cs == init + [c];
      BytesAppend(init, c);
      InitFrom(cs, mem);
      InitPlaced(ch, cs, |mem|);
      LoadedBytes(mem, ch, init);
      if c.bytes != [] {
        PieceOf(mem, ch, |Bytes(init)|, c);
      }
      var all, k, l := Buffers(mem, ch), |Bytes(init)|, |c.bytes|;
      assert all[..k + l] == all[..k] + all[k..k + l];
    }
  }

  lemma InitFrom(cs: seq<Chunk>, mem: seq<bv8>)
    requires cs != [] && FromMemory(cs, mem)
    ensures Fit(cs, |mem|) && FromMemory(cs[..|cs| - 1], mem)
    ensures var c := cs[|cs| - 1]; c.bytes != [] ==> c.at + |c.bytes| <= |mem| && c.bytes == mem[c.at..c.at + |c.bytes|]
  {
  }

  lemma PieceOf(mem: seq<bv8>, ch: Channel, n: nat, c: Chunk)
    requires Chained(ch) && ch.limit <= |mem| && ch.stop <= |mem| && n + |c.bytes| <= Both(ch)
    requires c.at == Where(ch, n) && (n < First(ch) ==> n + |c.bytes| <= First(ch))
    requires c.at + |c.bytes| <= |mem| && c.bytes == mem[c.at..c.at + |c.bytes|]
    ensures Buffers(mem, ch)[n..n + |c.bytes|] == c.bytes
  {
    var a, b, k, f := mem[ch.next..ch.limit], mem[ch.start..ch.stop], |c.bytes|, First(ch);
    if n < f {
      Halves(a, b, n, k);
      Inner(mem, ch.next, ch.limit, n, k);
    } else {
      Halves(a, b, n, k);
      Inner(mem, ch.start, ch.stop, n - f, k);
    }
  }

  lemma Halves(a: seq<bv8>, b: seq<bv8>, n: nat, k: nat)
    ensures n + k <= |a| ==> (a + b)[n..n + k] == a[n..n + k]
    ensures |a| <= n && n + k <= |a| + |b| ==> (a + b)[n..n + k] == b[n - |a|..n - |a| + k]
  {
  }

  lemma Inner(mem: seq<bv8>, lo: nat, hi: nat, n: nat, k: nat)
    requires lo <= hi <= |mem| && lo + n + k <= hi
    ensures mem[lo..hi][n..n + k] == mem[lo + n..lo + n + k]
  {
    var s, a, b := mem[lo..hi], mem[lo..hi][n..n + k], mem[lo + n..lo + n + k];
    forall i | 0 <= i < k ensures a[i] == b[i] {
      assert s[n + i] == mem[lo + n + i];
    }
  }

  /** WRITE from two chained buffers: what is loaded is a beginning of the first buffer followed by the second one, and
      the channel stands where it ends. */
  lemma WriteFromChain(m: Machine, steps: seq<Step>)
    requires Receiving(m.scsi) && Shape(m.f) && m.io == TRANSFERRING && m.dmaMode && m.fifo == [] && !m.tc
    requires m.f.size == 0 && RunnableOut(m, steps) && OneBuffer(steps)
    requires Chained(m.ch) && m.ch.limit <= |m.mem| && m.ch.stop <= |m.mem|
    ensures var r, got, ch := RunOut(m, steps), Bytes(Loads(m, steps)), m.ch;
      var n, all := ch.limit - ch.next, ch.limit - ch.next + (ch.stop - ch.start);
      |got| <= all && got == (m.mem[ch.next..ch.limit] + m.mem[ch.start..ch.stop])[..|got|] &&
      (|got| < n ==> r.ch == ch.(next := ch.next + |got|)) &&
      (n <= |got| < all ==>
         r.ch == ch.(next := ch.start + (|got| - n), limit := ch.stop, supdate := false, complete := true)) &&
      (|got| == all ==>
         r.ch == ch.(next := ch.stop, limit := ch.stop, supdate := false, complete := true, enabled := false))
  {
    hide RunnableOut, RunOut, Loads, Residual, Bytes, Placed, Receiving, Shape, Capacity, FromMemory, Writing;
    CapacityIsNat(m.scsi);
    StartWriting(m);
    RunWriting(m, m.scsi, m.counter, [], steps);
    StartProgress(m.ch);
    LoadProgress(m.ch, m, [], steps);
    var cs := Loads(m, steps);
    assert [] + cs == cs;
    LoadedBytes(m.mem, m.ch, cs);
  }
}
