/** The registers of the ESP the guest sees during a transfer (src/esp.c): its FIFO, the bus service interrupt, and
    whether the handler goes on. */
module EspSignals {
  import opened Burst
  import opened ScsiDisk
  import opened EspModel
  import opened EspTheorems

  // ---------------------------------------------------------- the FIFO

  /** Bytes written to the FIFO one after the other. */
  function WriteAll(fifo: seq<bv8>, b: seq<bv8>): (r: seq<bv8>)
    requires |fifo| <= ESP_FIFO
    ensures |r| <= ESP_FIFO
    decreases |b|
  {
    if b == [] then fifo else WriteAll(WriteFifo(fifo, b[0]), b[1..])
  }

  /** The first bytes stay in order; once the FIFO is full the last place holds the last byte. */
  lemma {:induction false} WritesKept(fifo: seq<bv8>, b: seq<bv8>)
    requires |fifo| <= ESP_FIFO
    ensures WriteAll(fifo, b) == Left(fifo, b)
    decreases |b|
  {
    if b == [] {
      assert fifo + b == fifo;
    } else {
      WritesKept(WriteFifo(fifo, b[0]), b[1..]);
      hide WriteAll;
      WriteFirst(fifo, b);
    }
  }

  /** What the bytes leave behind: all of them, or the first fifteen and the last. */
  function Left(fifo: seq<bv8>, b: seq<bv8>): seq<bv8> {
    if |fifo + b| <= ESP_FIFO || b == [] then fifo + b else (fifo + b)[..ESP_FIFO - 1] + [b[|b| - 1]]
  }

  lemma WriteFirst(fifo: seq<bv8>, b: seq<bv8>)
    requires |fifo| <= ESP_FIFO && b != []
    ensures Left(WriteFifo(fifo, b[0]), b[1..]) == Left(fifo, b)
  {
    var more := b[1..];
    assert fifo + b == (fifo + [b[0]]) + more;
    if |fifo| == ESP_FIFO {
      var next := WriteFifo(fifo, b[0]);
      assert (next + more)[..ESP_FIFO - 1] == fifo[..ESP_FIFO - 1] == (fifo + b)[..ESP_FIFO - 1];
      assert next + [] == next;
    }
  }

  /** One byte more in the FIFO. */
  lemma FilledOne(m: Machine)
    requires Sending(m.scsi) && m.counter > 0 && m.scsi.phase == DATA_IN
    ensures Mounted(m.scsi) && 0 < m.scsi.size <= m.scsi.limit
    ensures var s := SendData(m.scsi);
      var n := m.(fifo := m.fifo + [s.0], scsi := s.1, counter := m.counter - 1);
      Sending(n.scsi) && Supply(n) == Supply(m) && n.fifo <= Supply(m)
  {
    hide Stream, SendData;
    SendDataStream(m.scsi);
    var s, all := SendData(m.scsi), Stream(m.scsi);
    assert m.fifo + [s.0] + all[1..][..Min(m.counter - 1, |all[1..]|)] == m.fifo + all[..Min(m.counter, |all|)];
  }

  /** Filling the FIFO does not change what the ESP can send; the FIFO holds the first sixteen bytes of it. */
  lemma {:induction false} FillFifoSupply(m: Machine)
    requires Sending(m.scsi) && |m.fifo| <= ESP_FIFO
    ensures var r := FillFifo(m);
      Supply(r) == Supply(m) && r.fifo == Supply(m)[..Min(ESP_FIFO, |Supply(m)|)] &&
      r.counter + |r.fifo| == m.counter + |m.fifo|
    decreases ESP_FIFO - |m.fifo|
  {
    hide Sending, SendData, Supply, Stream;
    FifoFirst(m);
    if |m.fifo| < ESP_FIFO && m.counter > 0 && m.scsi.phase == DATA_IN {
      FilledOne(m);
      var s := SendData(m.scsi);
      FillFifoSupply(m.(fifo := m.fifo + [s.0], scsi := s.1, counter := m.counter - 1));
    }
  }

  lemma FifoFirst(m: Machine)
    requires Sending(m.scsi)
    ensures m.fifo <= Supply(m)
    ensures m.counter == 0 || m.scsi.phase != DATA_IN ==> Supply(m) == m.fifo
  {
    hide Sending, Stream;
    if m.scsi.phase != DATA_IN {
      NothingToSend(m.scsi);
    }
  }

  lemma FeedFirst(s: Scsi, val: bv8, b: seq<bv8>)
    requires Receiving(s) && s.phase == DATA_OUT && s.size < |s.data| && Mounted(s)
    requires Receiving(ReceiveData(s, val)) && |b| <= Capacity(ReceiveData(s, val)) == Capacity(s) - 1
    ensures Feed(s, [val] + b) == Feed(ReceiveData(s, val), b)
  {
    hide Receiving, Capacity, ReceiveData;
    assert ([val] + b)[1..] == b;
  }

  /** r is m with the first k bytes of the FIFO given to the target. */
  predicate Gives(m: Machine, r: Machine, k: nat)
    requires Receiving(m.scsi)
  {
    k <= |m.fifo| && k <= Capacity(m.scsi) && r.fifo == m.fifo[k..] && r.scsi == Feed(m.scsi, m.fifo[..k]) &&
    r.counter == m.counter - k
  }

  lemma GivesMore(m: Machine, n: Machine, r: Machine, k: nat)
    requires Receiving(m.scsi) && Receiving(n.scsi) && m.fifo != [] && m.counter > 0 && m.scsi.phase == DATA_OUT
    requires m.scsi.size < |m.scsi.data| && Mounted(m.scsi) && n.scsi == ReceiveData(m.scsi, m.fifo[0])
    requires Capacity(n.scsi) == Capacity(m.scsi) - 1 && n.fifo == m.fifo[1..] && n.counter == m.counter - 1
    requires Gives(n, r, k)
    ensures Gives(m, r, k + 1)
  {
    hide Receiving, Capacity, ReceiveData, Feed;
    FeedFirst(m.scsi, m.fifo[0], n.fifo[..k]);
    assert m.fifo[..k + 1] == [m.fifo[0]] + n.fifo[..k];
  }

  /** Emptying it gives its bytes to the target, in order, as far as counter and target take them. */
  lemma {:induction false} EmptyFifoGives(m: Machine)
    requires Receiving(m.scsi)
    ensures var r := EmptyFifo(m);
      |r.fifo| <= |m.fifo| && Gives(m, r, |m.fifo| - |r.fifo|) &&
      (r.fifo == [] || r.counter == 0 || r.scsi.phase != DATA_OUT)
    decreases |m.fifo|
  {
    hide Receiving, Capacity, ReceiveData, Feed, EmptyFifo, Gives;
    EmptyFifoStep(m);
    if m.fifo != [] && m.counter > 0 && m.scsi.phase == DATA_OUT {
      var n := m.(fifo := m.fifo[1..], scsi := ReceiveData(m.scsi, m.fifo[0]), counter := m.counter - 1);
      EmptyFifoGives(n);
      GivesMore(m, n, EmptyFifo(n), |n.fifo| - |EmptyFifo(n).fifo|);
    } else {
      GivesNothing(m);
    }
  }

  lemma GivesNothing(m: Machine)
    requires Receiving(m.scsi)
    ensures Gives(m, m, 0)
  {
    hide Receiving, Capacity, Feed;
    CapacityIsNat(m.scsi);
    FeedNothing(m.scsi);
    assert m.fifo[..0] == [] && m.fifo[0..] == m.fifo;
  }

  lemma EmptyFifoStep(m: Machine)
    requires Receiving(m.scsi)
    ensures if m.fifo != [] && m.counter > 0 && m.scsi.phase == DATA_OUT then
        m.scsi.size < |m.scsi.data| && Mounted(m.scsi) &&
        var t := ReceiveData(m.scsi, m.fifo[0]);
        Receiving(t) && Capacity(t) == Capacity(m.scsi) - 1 &&
        EmptyFifo(m) == EmptyFifo(m.(fifo := m.fifo[1..], scsi := t, counter := m.counter - 1))
      else EmptyFifo(m) == m
  {
    hide Receiving, Capacity, ReceiveData;
    if m.fifo != [] && m.counter > 0 && m.scsi.phase == DATA_OUT {
      TakenCapacity(m.scsi);
      FeedStep(m.scsi, [m.fifo[0]]);
    }
  }

  lemma FeedNothing(s: Scsi)
    requires Receiving(s) && Capacity(s) >= 0
    ensures Feed(s, []) == s
  {
  }

  // ---------------------------------------------------------- the end of a transfer from the disk

  /** The interrupt is raised exactly when nothing is left to send, and until then the handler will be called. */
  predicate Signalled(m: Machine)
    requires Sending(m.scsi)
  {
    (m.service <==> Supply(m) == []) && (Supply(m) != [] ==> m.armed && m.io == TRANSFERRING)
  }

  lemma TickSignals(m: Machine)
    requires Primed(m) && Usable(m) && Signalled(m)
    ensures Sending(TickIn(m).scsi) && Signalled(TickIn(m))
  {
    hide DmaWrite, Sending, Shape, Supply, Residual, Outcome, Usable, WriteChunk;
    DmaWriteMoves(m);
    DmaWriteFifo(m);
    SupplyEnds(m);
    SupplyEnds(DmaWrite(m));
    var r := TickIn(m);
    if m.io == FLUSHING || (m.io == TRANSFERRING && m.scsi.phase == DATA_IN) {
      SupplySame(DmaWrite(m), r);
    } else {
      SupplySame(m, r);
    }
  }

  lemma StepSignals(m: Machine, st: Step)
    requires Primed(m) && Able(m, st) && Signalled(m)
    ensures Signalled(After(m, st))
  {
    hide TickIn, Sending, Shape, Supply, Usable, FlushStep;
    match st
    case Tick => TickSignals(m);
    case Flushing => FlushPuts(m); SupplySame(m, After(m, st));
    case _ => SupplySame(m, After(m, st));
  }

  lemma {:induction false} RunSignals(m: Machine, steps: seq<Step>)
    requires Primed(m) && Runnable(m, steps) && Signalled(m)
    ensures Signalled(RunSteps(m, steps))
    decreases |steps|
  {
    hide Primed, Able, After, Signalled;
    if steps != [] {
      StepSignals(m, steps[0]);
      RunSignals(After(m, steps[0]), steps[1..]);
    }
  }

  /** READ over every run: bus service is raised exactly when the counter has run out or the target has left the data
      phase, and before that the handler goes on. */
  lemma ReadSignals(m: Machine, steps: seq<Step>)
    requires Primed(m) && Runnable(m, steps) && m.armed && !m.service && m.io == TRANSFERRING
    requires m.counter > 0 && m.scsi.phase == DATA_IN
    ensures var r := RunSteps(m, steps);
      var over := r.counter == 0 || r.scsi.phase != DATA_IN;
      (r.service <==> over) && (!over ==> r.armed && r.io == TRANSFERRING)
  {
    hide Runnable, RunSteps, Supply, Sending, Shape;
    SupplyEnds(m);
    RunSignals(m, steps);
    SupplyEnds(RunSteps(m, steps));
  }

  // ---------------------------------------------------------- the end of a transfer to the disk

  predicate SignalledOut(m: Machine) {
    (m.service <==> Over(m, DATA_OUT)) && (m.armed <== !Over(m, DATA_OUT)) && m.scsi.phase != DATA_IN
  }

  lemma TickOutSignals(m: Machine)
    requires Out(m) && SignalledOut(m)
    ensures SignalledOut(TickOut(m))
  {
    hide DmaRead, Receiving, Shape, Residual, Capacity, Usable, ReadChunk, EmptyFifo;
    if m.scsi.phase == DATA_OUT {
      EmptyFifoNone(m);
      DmaReadMoves(m);
      var n := DmaRead(m);
      FedPhase(m.scsi, (Residual(m.f) + ReadChunk(m).bytes)[..m.f.size + |ReadChunk(m).bytes| - n.f.size]);
    }
  }

  lemma FedPhase(s: Scsi, b: seq<bv8>)
    requires Receiving(s) && s.phase == DATA_OUT && |b| <= Capacity(s)
    ensures Feed(s, b).phase != DATA_IN
  {
    hide Feed, Receiving, Capacity;
    FeedImage(s, b);
  }

  lemma {:induction false} RunOutSignals(m: Machine, steps: seq<Step>)
    requires Receiving(m.scsi) && Shape(m.f) && m.io == TRANSFERRING && m.dmaMode && m.fifo == []
    requires RunnableOut(m, steps) && SignalledOut(m)
    ensures SignalledOut(RunOut(m, steps))
    decreases |steps|
  {
    hide Receiving, Shape, TickOut, Usable;
    if steps != [] {
      match steps[0] {
        case Tick =>
          TickOutFrame(m);
          TickOutSignals(m);
          RunOutSignals(TickOut(m), steps[1..]);
        case Flushing => RunOutSignals(m, steps[1..]);
        case Program(ch) => RunOutSignals(m.(ch := ch), steps[1..]);
        case Initialise(offset) => RunOutSignals(Initialised(m, offset), steps[1..]);
      }
    }
  }

  /** A call on an enabled channel gives all that counter and target take, or loads the memory up to the limit. */
  lemma DmaReadProgress(m: Machine)
    requires Out(m) && m.scsi.phase == DATA_OUT && m.ch.enabled && m.ch.next <= m.ch.limit
    ensures var r := DmaRead(m); r.counter == 0 || r.scsi.phase != DATA_OUT || r.ch.complete
  {
    hide Push, Receiving, Shape, Residual, Capacity, Feed, Conserved;
    var bytes := Pending(m);
    var p := Push(m.f, bytes, Accepts(m));
    PushExhausts(m.f, bytes, Accepts(m));
    GiveOk(m, p.out);
    TakenCapacity(m.scsi);
    if p.used < |bytes| && |p.out| < m.counter {
      assert |p.out| == Capacity(m.scsi);
      FeedImage(m.scsi, p.out);
    }
  }

  /** WRITE over every run: the same. */
  lemma WriteSignals(m: Machine, steps: seq<Step>)
    requires Receiving(m.scsi) && Shape(m.f) && m.io == TRANSFERRING && m.dmaMode && m.fifo == []
    requires RunnableOut(m, steps) && m.armed && !m.service && m.counter > 0 && m.scsi.phase == DATA_OUT
    ensures var r := RunOut(m, steps);
      var over := r.counter == 0 || r.scsi.phase != DATA_OUT;
      (r.service <==> over) && (!over ==> r.armed)
  {
    hide RunnableOut, RunOut, Receiving, Shape;
    RunOutSignals(m, steps);
  }
}
