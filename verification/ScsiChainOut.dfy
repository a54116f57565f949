/** Steps of dma_esp_read_memory against the model: from memory to the device. */
module ScsiChainOut {
  import opened Burst
  import opened ScsiDisk
  import opened EspModel
  import opened EspTheorems

  /** The FIFO with what it has room for loaded, and the channel moved on. */
  function Loaded(m: Machine): Machine
    requires Shape(m.f) && Usable(m)
  {
    m.(f := Fill(m.f, Pending(m)), ch := m.ch.(next := m.ch.next + Min(BURST - m.f.lim, |Pending(m)|)))
  }

  /** The device has been given what it takes of the FIFO. */
  function Unloaded(m: Machine): Machine
    requires Shape(m.f) && Receiving(m.scsi)
  {
    var k := Min(m.f.size, Accepts(m));
    GiveOk(m, Residual(m.f)[..k]);
    GiveBytes(m, Residual(m.f)[..k]).(f := Drop(m.f, k))
  }

  lemma {:induction false} FeedCapacity(s: Scsi, b: seq<bv8>)
    requires Receiving(s) && |b| <= Capacity(s)
    ensures Capacity(Feed(s, b)) == Capacity(s) - |b|
    ensures Feed(s, b).phase == DATA_OUT <==> Capacity(s) > |b|
    decreases |b|
  {
    hide Capacity, Receiving, ReceiveData;
    if b == [] {
      CapacityPhase(s);
    } else {
      FeedStep(s, b);
      FeedCapacity(ReceiveData(s, b[0]), b[1..]);
    }
  }

  lemma AcceptsLess(m: Machine, b: seq<bv8>)
    requires Receiving(m.scsi) && |b| <= Accepts(m)
    ensures |b| <= m.counter && |b| <= Capacity(m.scsi)
    ensures var r := GiveBytes(m, b); Receiving(r.scsi) && Accepts(r) == Accepts(m) - |b|
  {
    hide Receiving, Capacity;
    GiveOk(m, b);
    FeedCapacity(m.scsi, b);
    CapacityPhase(m.scsi);
  }

  /** One more byte given. */
  lemma GiveMore(m: Machine, b: seq<bv8>, val: bv8)
    requires Receiving(m.scsi) && |b| < Accepts(m)
    ensures |b| + 1 <= m.counter && |b| + 1 <= Capacity(m.scsi)
    ensures var r := GiveBytes(m, b);
      r.scsi.phase == DATA_OUT && r.counter > 0 && Receiving(r.scsi) && Mounted(r.scsi) &&
        r.scsi.size < |r.scsi.data| &&
      GiveBytes(m, b + [val]) == r.(counter := r.counter - 1, scsi := ReceiveData(r.scsi, val))
  {
    hide Receiving, Capacity, ReceiveData;
    AcceptsLess(m, b);
    GiveOk(m, b + [val]);
    var r := GiveBytes(m, b);
    FeedCapacity(m.scsi, b);
    SpaceLeft(r.scsi);
    FeedAppend(m.scsi, b, [val]);
    FeedStep(r.scsi, [val]);
    assert [val][1..] == [];
  }

  lemma AcceptsPositive(m: Machine)
    requires Receiving(m.scsi)
    ensures Accepts(m) > 0 <==> m.dmaMode && m.counter > 0 && m.scsi.phase == DATA_OUT
  {
    hide Receiving, Capacity;
    CapacityPhase(m.scsi);
  }

  // ---------------------------------------------------------- the loop

  predicate Resumed(p: Pushed, r: Pushed, used: nat, out: seq<bv8>) {
    p == Pushed(used + r.used, r.f, out + r.out)
  }

  /** In the middle of the loop: `used` bytes have been loaded and `out` has been given since m. */
  predicate Midway(w: Machine, m: Machine, used: nat, out: seq<bv8>) {
    Receiving(m.scsi) && Receiving(w.scsi) && Shape(m.f) && Shape(w.f) && Usable(m) && Usable(w) && m.ch.enabled &&
    |out| <= Accepts(m) && (GiveOk(m, out); w == GiveBytes(m, out).(f := w.f, ch := m.ch.(next := m.ch.next + used))) &&
    Resumed(Push(m.f, Pending(m), Accepts(m)), Push(w.f, Pending(w), Accepts(w)), used, out)
  }

  predicate Finished(w: Machine, m: Machine) {
    Receiving(m.scsi) && Shape(m.f) && Usable(m) && w.(ch := Interrupt(w.ch)) == DmaRead(m)
  }

  lemma MidwayStart(m: Machine)
    requires Receiving(m.scsi) && Shape(m.f) && Usable(m) && m.ch.enabled
    ensures Midway(m, m, 0, [])
  {
    hide Receiving, Push, Shape, Usable, Pending, Accepts;
    GiveOk(m, []);
    FeedNothing(m.scsi);
    var p := Push(m.f, Pending(m), Accepts(m));
    assert [] + p.out == p.out;
  }

  lemma FeedNothing(s: Scsi)
    requires Receiving(s)
    ensures 0 <= Capacity(s) && Feed(s, []) == s
  {
    CapacityIsNat(s);
  }

  lemma LimitFinish(w: Machine, m: Machine, used: nat, out: seq<bv8>)
    requires Midway(w, m, used, out) && w.ch.next >= w.ch.limit
    ensures Finished(w, m)
  {
    hide Receiving, Shape, Interrupt, Accepts;
    assert out + [] == out;
  }

  lemma LoadedIs(w: Machine)
    requires Shape(w.f) && Usable(w) && w.ch.enabled && w.ch.next < w.ch.limit
    ensures var r := Loaded(w);
      r == w.(f := r.f, ch := r.ch) && Shape(r.f) && Usable(w) && r.ch == w.ch.(next := r.ch.next) &&
      w.ch.next <= r.ch.next <= w.ch.limit && Pending(w)[r.ch.next - w.ch.next..] == w.mem[r.ch.next..w.ch.limit]
  {
    hide Fill, Shape;
  }

  /** The FIFO has not been filled: the limit is reached. */
  lemma ShortFinish(w: Machine, m: Machine, used: nat, out: seq<bv8>)
    requires Midway(w, m, used, out) && w.ch.next < w.ch.limit && Loaded(w).f.lim < BURST
    ensures Finished(Loaded(w), m) && Loaded(w).scsi == w.scsi
  {
    hide Receiving, Shape, Fill, Interrupt, Accepts;
    var n := Min(BURST - w.f.lim, |Pending(w)|);
    assert out + [] == out;
    assert m.ch.next + used + n == m.ch.next + (used + n);
  }

  /** What the loop does with a FIFO that is full after loading. */
  lemma PushLoaded(w: Machine, room: nat)
    requires Shape(w.f) && Usable(w) && w.ch.enabled && w.ch.next < w.ch.limit && Loaded(w).f.lim == BURST
    ensures var v, p := Loaded(w), Push(w.f, Pending(w), room);
      var n, k := v.ch.next - w.ch.next, Min(v.f.size, room);
      Shape(v.f) && 0 <= n <= |Pending(w)| && (n > 0 || w.f.lim == BURST) &&
      if k < v.f.size then p == Pushed(n, Drop(v.f, k), Residual(v.f)[..k])
      else
        var r := Push(Drop(v.f, k), Pending(w)[n..], room - k);
        p == Pushed(n + r.used, r.f, Residual(v.f) + r.out)
  {
    hide Fill, Shape, Drop, Residual, Push, Pending, Min;
    PendingSome(w);
    PushOne(w.f, Pending(w), room);
  }

  lemma PendingSome(w: Machine)
    requires Usable(w) && w.ch.enabled && w.ch.next < w.ch.limit
    ensures Pending(w) != []
  {
  }

  /** One turn of the loop, when it fills the FIFO. */
  lemma PushOne(f: Fifo, bytes: seq<bv8>, room: nat)
    requires Shape(f) && bytes != [] && Fill(f, bytes).lim == BURST
    ensures var g, n := Fill(f, bytes), Min(BURST - f.lim, |bytes|);
      var k, p := Min(g.size, room), Push(f, bytes, room);
      Shape(g) && 0 <= n <= |bytes| && (n > 0 || f.lim == BURST) &&
      if k < g.size then p == Pushed(n, Drop(g, k), Residual(g)[..k])
      else
        var r := Push(Drop(g, k), bytes[n..], room - k);
        p == Pushed(n + r.used, r.f, Residual(g) + r.out)
  {
    hide Drop, Residual;
  }

  lemma UnloadedIs(v: Machine)
    requires Shape(v.f) && Receiving(v.scsi)
    ensures var r, k := Unloaded(v), Min(v.f.size, Accepts(v));
      r == v.(f := r.f, counter := r.counter, scsi := r.scsi) &&
        r.f == Drop(v.f, k) && Shape(r.f) && Receiving(r.scsi) &&
      k <= v.counter && k <= Capacity(v.scsi) && r.scsi == Feed(v.scsi, Residual(v.f)[..k]) &&
        r.counter == v.counter - k &&
      Accepts(r) == Accepts(v) - k
  {
    hide Receiving, Shape, Accepts, Capacity, Drop, Residual;
    var k := Min(v.f.size, Accepts(v));
    GiveOk(v, Residual(v.f)[..k]);
    AcceptsLess(v, Residual(v.f)[..k]);
    AcceptsSame(GiveBytes(v, Residual(v.f)[..k]), Unloaded(v));
  }

  lemma LoadedAligned(w: Machine, k: nat)
    requires ToDevice(w.f) && Usable(w) && w.ch.enabled && w.ch.next < w.ch.limit
    ensures var v := Loaded(w);
      Shape(v.f) && ToDevice(v.f) && Usable(v) && v.ch.enabled && (k <= v.f.size ==> ToDevice(Drop(v.f, k))) &&
      v.ch.next - w.ch.next <= |Pending(w)| && Pending(v) == Pending(w)[v.ch.next - w.ch.next..]
  {
    hide Fill;
    UsableQuad(w);
    FillQuad(w.f, Pending(w), k);
    var v := Loaded(w);
    var n := Min(BURST - w.f.lim, |Pending(w)|);
    AlignedNext(w.ch.next, n);
    if v.ch.next < v.ch.limit {
      assert Pending(v) == Pending(w)[n..];
    } else {
      assert Pending(w)[n..] == [];
    }
  }

  lemma AlignedNext(next: nat, n: nat)
    requires next % 4 == 0 && Quad(n)
    ensures (next + n) % 4 == 0
  {
  }

  lemma PendingSame(v: Machine, r: Machine)
    requires Usable(v) && r.ch == v.ch && r.mem == v.mem
    ensures Usable(r) && Pending(r) == Pending(v)
  {
  }

  /** What the device is given of the full FIFO. */
  function GivenNow(v: Machine): seq<bv8>
    requires Shape(v.f) && Receiving(v.scsi)
  {
    Residual(v.f)[..Min(v.f.size, Accepts(v))]
  }

  /** The machine after a full FIFO has gone to the device, counted from m. */
  lemma StepMachine(w: Machine, m: Machine, used: nat, out: seq<bv8>)
    requires Midway(w, m, used, out) && w.ch.next < w.ch.limit && Loaded(w).f.lim == BURST
    ensures var v := Loaded(w);
      Receiving(v.scsi) && Shape(v.f) &&
      var r, given, n := Unloaded(v), GivenNow(v), v.ch.next - w.ch.next;
      Receiving(r.scsi) && Shape(r.f) && n >= 0 && |out + given| <= Accepts(m) &&
      |out + given| <= m.counter && |out + given| <= Capacity(m.scsi) &&
      r == GiveBytes(m, out + given).(f := r.f, ch := m.ch.(next := m.ch.next + (used + n)))
  {
    hide Receiving, Accepts, Residual, Feed, Capacity, Push, Usable, Pending, Loaded, Unloaded, Shape, Drop, Resumed;
    LoadedIs(w);
    var v := Loaded(w);
    AcceptsSame(w, v);
    UnloadedIs(v);
    var given := GivenNow(v);
    GiveOk(v, given);
    GiveOk(m, out);
    GivenTwice(v, m, out, given);
    assert m.ch.next + used + (v.ch.next - w.ch.next) == m.ch.next + (used + (v.ch.next - w.ch.next));
  }

  /** What the loop has still to do then. */
  lemma StepPush(w: Machine, m: Machine, used: nat, out: seq<bv8>)
    requires Midway(w, m, used, out) && w.ch.next < w.ch.limit && Loaded(w).f.lim == BURST && ToDevice(w.f)
    requires Receiving(Loaded(w).scsi) && Shape(Loaded(w).f) && Receiving(Unloaded(Loaded(w)).scsi) &&
      Shape(Unloaded(Loaded(w)).f)
    ensures var v := Loaded(w);
      var r, given, n := Unloaded(v), GivenNow(v), v.ch.next - w.ch.next;
      var p := Push(m.f, Pending(m), Accepts(m));
      n >= 0 && Usable(r) && (n > 0 || w.f.lim == BURST) &&
      r.f.size == v.f.size - |given| && (r.f.size == 0 ==> given == Residual(v.f) && r.f.lim == 0) &&
      if r.f.size > 0 then p == Pushed(used + n, r.f, out + given)
      else Resumed(p, Push(r.f, Pending(r), Accepts(r)), used + n, out + given)
  {
    hide Receiving, Accepts, Residual, Feed, Capacity, Push, Usable, Pending,
      Loaded, Unloaded, Shape, Drop, ToDevice, Fill;
    LoadedIs(w);
    var v := Loaded(w);
    AcceptsSame(w, v);
    var n, k := v.ch.next - w.ch.next, Min(v.f.size, Accepts(v));
    LoadedAligned(w, k);
    UnloadedIs(v);
    PushLoaded(w, Accepts(w));
    var r := Unloaded(v);
    PendingSame(v, r);
    DropIs(v.f, k);
    if r.f.size == 0 {
      PushSum(Push(r.f, Pending(r), Accepts(r)).out, out, Residual(v.f));
    }
  }

  /** The full FIFO goes to the device; the loop stops or goes on. */
  lemma FullStep(w: Machine, m: Machine, used: nat, out: seq<bv8>)
    requires Midway(w, m, used, out) && w.ch.next < w.ch.limit && Loaded(w).f.lim == BURST && ToDevice(w.f)
    ensures var v := Loaded(w);
      Receiving(v.scsi) && Shape(v.f) && ToDevice(Unloaded(v).f) &&
        Receiving(Unloaded(v).scsi) && Shape(Unloaded(v).f) &&
      var n := v.ch.next - w.ch.next;
      if Unloaded(v).f.size > 0 then Finished(Unloaded(v), m)
      else
        n >= 0 && Midway(Unloaded(v), m, used + n, out + Residual(v.f)) &&
        (n > 0 || (w.f.lim == BURST && Unloaded(v).f.lim == 0))
  {
    hide Receiving, Accepts, Residual, Feed, Capacity, Push, Usable, Pending,
      Loaded, Unloaded, Shape, Drop, ToDevice, GivenNow;
    StepMachine(w, m, used, out);
    StepPush(w, m, used, out);
    StepAligned(w, m, used, out);
  }

  lemma StepAligned(w: Machine, m: Machine, used: nat, out: seq<bv8>)
    requires Midway(w, m, used, out) && w.ch.next < w.ch.limit && Loaded(w).f.lim == BURST && ToDevice(w.f)
    requires Receiving(Loaded(w).scsi) && Shape(Loaded(w).f)
    ensures ToDevice(Unloaded(Loaded(w)).f)
  {
    hide Receiving, Accepts, Residual, Feed, Capacity, Push, Usable, Pending,
      Loaded, Unloaded, Shape, Drop, ToDevice, Resumed;
    var v := Loaded(w);
    LoadedAligned(w, Min(v.f.size, Accepts(v)));
    UnloadedIs(v);
  }

  lemma DropIs(f: Fifo, k: nat)
    requires Shape(f) && k <= f.size
    ensures Drop(f, k).size == f.size - k && (k == f.size ==> Drop(f, k).lim == 0)
  {
  }

  lemma PushSum(a: seq<bv8>, b: seq<bv8>, c: seq<bv8>)
    ensures b + (c + a) == b + c + a
  {
  }

  lemma UsableQuad(w: Machine)
    requires Usable(w) && w.ch.enabled && w.ch.next < w.ch.limit
    ensures Quad(|Pending(w)|)
  {
  }

  lemma AcceptsSame(w: Machine, v: Machine)
    requires Receiving(w.scsi) && v.scsi == w.scsi && v.counter == w.counter && v.dmaMode == w.dmaMode
    ensures Accepts(v) == Accepts(w)
  {
  }

  /** Giving in two parts. */
  lemma GivenTwice(w: Machine, m: Machine, out: seq<bv8>, given: seq<bv8>)
    requires Receiving(m.scsi) && Receiving(w.scsi) && |out| <= Accepts(m) && |given| <= Accepts(w)
    requires |out| <= m.counter && |out| <= Capacity(m.scsi)
    requires w.scsi == GiveBytes(m, out).scsi && w.counter == GiveBytes(m, out).counter && w.dmaMode == m.dmaMode
    ensures |out + given| <= Accepts(m) && |out + given| <= m.counter && |out + given| <= Capacity(m.scsi)
    ensures |given| <= w.counter && |given| <= Capacity(w.scsi)
    ensures GiveBytes(m, out + given).scsi == GiveBytes(w, given).scsi
    ensures GiveBytes(m, out + given).counter == GiveBytes(w, given).counter
  {
    hide Receiving, Feed, Capacity, Accepts;
    AcceptsLess(m, out);
    AcceptsSame(w, GiveBytes(m, out));
    GiveOk(w, given);
    GiveOk(m, out + given);
    FeedAppend(m.scsi, out, given);
  }
}
