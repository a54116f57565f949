/**
 The burst FIFO of a DMA channel (src/dma.c) on values.  Sixteen bytes collect on their way between a
 device and memory; what does not fit stays in the FIFO, and the next call goes on with it.
 */
module Burst {

  const BURST := 16

  /** The registers of a channel; enabled, supdate and complete are bits of its csr. */
  datatype Channel = Channel(enabled: bool, supdate: bool, complete: bool, next: nat, limit: nat, start: nat, stop: nat)

  /** size bytes wait in front of position lim. */
  datatype Fifo = Fifo(buf: seq<bv8>, size: nat, lim: nat)

  predicate Quad(n: int) {
    n % 4 == 0
  }

  predicate Shape(f: Fifo) {
    |f.buf| == BURST && f.size <= f.lim <= BURST && (f.lim == BURST ==> f.size > 0)
  }

  function Residual(f: Fifo): (r: seq<bv8>)
    requires Shape(f)
    ensures |r| == f.size
  {
    f.buf[f.lim - f.size..f.lim]
  }

  /** On the way to memory the waiting bytes start at a long word. */
  predicate ToMemory(f: Fifo) {
    Shape(f) && Quad(f.lim - f.size)
  }

  /** On the way to the device whole long words have been loaded. */
  predicate ToDevice(f: Fifo) {
    Shape(f) && Quad(f.lim)
  }

  function Min(a: nat, b: nat): nat {
    if a < b then a else b
  }

  /** mem with bytes written from address a on. */
  function Store(mem: seq<bv8>, a: nat, bytes: seq<bv8>): (r: seq<bv8>)
    requires a + |bytes| <= |mem|
    ensures |r| == |mem|
  {
    mem[..a] + bytes + mem[a + |bytes|..]
  }

  lemma QuadSum(a: int, b: int)
    requires Quad(a) && Quad(b)
    ensures Quad(a + b) && Quad(a - b)
  {
  }

  lemma Quads()
    ensures Quad(0) && Quad(BURST)
  {
  }

  // ---------------------------------------------------------- device to memory

  /** Bytes go in until the FIFO is full. */
  function Fill(f: Fifo, src: seq<bv8>): (r: Fifo)
    requires Shape(f)
    ensures f.lim <= r.lim && r.lim - f.lim == Min(BURST - f.lim, |src|) && r.lim - r.size == f.lim - f.size
    ensures Shape(r)
  {
    var n := Min(BURST - f.lim, |src|);
    Fifo(f.buf[..f.lim] + src[..n] + f.buf[f.lim + n..], f.size + n, f.lim + n)
  }

  lemma FillResidual(f: Fifo, src: seq<bv8>)
    requires Shape(f)
    ensures Residual(Fill(f, src)) == Residual(f) + src[..Min(BURST - f.lim, |src|)]
  {
    var n, r := Min(BURST - f.lim, |src|), Fill(f, src);
    assert r.buf[r.lim - r.size..r.lim] == f.buf[f.lim - f.size..f.lim] + src[..n];
  }

  /** The FIFO after its first k bytes have left it; an empty one starts again at position 0. */
  function Drop(f: Fifo, k: nat): (r: Fifo)
    requires Shape(f) && k <= f.size
    ensures Shape(r) && r.size == f.size - k && r.lim == (if k == f.size then 0 else f.lim)
  {
    if k == f.size then Fifo(f.buf, 0, 0) else Fifo(f.buf, f.size - k, f.lim)
  }

  lemma DropResidual(f: Fifo, k: nat)
    requires Shape(f) && k <= f.size
    ensures Residual(Drop(f, k)) == Residual(f)[k..] && Residual(f) == Residual(f)[..k] + Residual(Drop(f, k))
  {
  }

  /** The channel has come to `next`, `used` bytes of the source were taken, and out was stored. */
  datatype Pumped = Pumped(next: nat, f: Fifo, used: nat, out: seq<bv8>)

  /** How much of the FIFO there is room for in memory. */
  function Room(f: Fifo, next: nat, limit: nat): (k: nat)
    requires next <= limit
    ensures k <= f.size && next + k <= limit
  {
    Min(f.size, limit - next)
  }

  /** The loop at dma.c:406-444. */
  function Pump(next: nat, limit: nat, f: Fifo, src: seq<bv8>): (r: Pumped)
    requires Shape(f)
    ensures Shape(r.f) && r.used <= |src| && r.next == next + |r.out| && (r.next == next || r.next <= limit)
    decreases if next <= limit then limit - next + 1 else 0
  {
    hide Fill, Drop, Residual;
    if next > limit then Pumped(next, f, 0, [])
    else
      var g, n := Fill(f, src), Min(BURST - f.lim, |src|);
      if g.lim < BURST then Pumped(next, g, n, [])
      else
        var k := Room(g, next, limit);
        if k < g.size then Pumped(next + k, Drop(g, k), n, Residual(g)[..k])
        else
          var r := Pump(next + k, limit, Drop(g, k), src[n..]);
          Pumped(r.next, r.f, n + r.used, Residual(g) + r.out)
  }

  lemma RoomQuad(f: Fifo, next: nat, limit: nat)
    requires ToMemory(f) && f.lim == BURST && next <= limit && Quad(limit - next)
    ensures Quad(Room(f, next, limit)) && Quad(limit - next - Room(f, next, limit))
    ensures ToMemory(Drop(f, Room(f, next, limit)))
  {
    hide Quad;
    Quads();
    QuadSum(BURST, BURST - f.size);
    QuadSum(limit - next, Room(f, next, limit));
    QuadSum(f.lim - f.size, Room(f, next, limit));
  }

  /** Whole long words are stored, and what waits starts at a long word again. */
  lemma {:induction false} PumpAligned(next: nat, limit: nat, f: Fifo, src: seq<bv8>)
    requires ToMemory(f) && Quad(limit - next)
    ensures var r := Pump(next, limit, f, src); ToMemory(r.f) && Quad(limit - r.next)
    decreases if next <= limit then limit - next + 1 else 0
  {
    hide Quad, Fill, Drop, Residual, Room;
    if next <= limit {
      var g, n := Fill(f, src), Min(BURST - f.lim, |src|);
      if g.lim == BURST {
        var k := Room(g, next, limit);
        RoomQuad(g, next, limit);
        if k == g.size {
          PumpAligned(next + k, limit, Drop(g, k), src[n..]);
        }
      }
    }
  }

  /** Nothing is lost, doubled or reordered: what waited and what was taken is what went out and what waits. */
  predicate Conserved(waiting: seq<bv8>, taken: seq<bv8>, out: seq<bv8>, left: seq<bv8>) {
    waiting + taken == out + left
  }

  lemma ConservedNone(waiting: seq<bv8>, src: seq<bv8>)
    ensures Conserved(waiting, src[..0], [], waiting)
  {
  }

  lemma ConservedFill(f: Fifo, src: seq<bv8>, k: nat)
    requires Shape(f)
    ensures var n, g := Min(BURST - f.lim, |src|), Fill(f, src);
      k <= g.size ==> Conserved(Residual(f), src[..n], Residual(g)[..k], Residual(Drop(g, k)))
    ensures Conserved(Residual(f), src[..Min(BURST - f.lim, |src|)], [], Residual(Fill(f, src)))
  {
    hide Residual, Fill, Drop;
    FillResidual(f, src);
    var g := Fill(f, src);
    if k <= g.size {
      DropResidual(g, k);
    }
  }

  lemma ConservedChain(f: Fifo, src: seq<bv8>, used: nat, out: seq<bv8>, left: seq<bv8>)
    requires Shape(f)
    requires var n, g := Min(BURST - f.lim, |src|), Fill(f, src);
      n + used <= |src| && Conserved(Residual(Drop(g, g.size)), src[n..][..used], out, left)
    ensures var n, g := Min(BURST - f.lim, |src|), Fill(f, src);
      Conserved(Residual(f), src[..n + used], Residual(g) + out, left)
  {
    hide Residual, Fill, Drop, Conserved;
    FillResidual(f, src);
    var n, g := Min(BURST - f.lim, |src|), Fill(f, src);
    assert Residual(Drop(g, g.size)) == [];
    Chained(Residual(f), src, n, used, Residual(g), out, left);
  }

  lemma Chained(waiting: seq<bv8>, src: seq<bv8>, n: nat, used: nat, head: seq<bv8>, out: seq<bv8>, left: seq<bv8>)
    requires n + used <= |src| && head == waiting + src[..n] && Conserved([], src[n..][..used], out, left)
    ensures Conserved(waiting, src[..n + used], head + out, left)
  {
    var taken := src[n..][..used];
    assert src[..n + used] == src[..n] + taken;
    assert taken == out + left by { assert [] + taken == taken; }
    assert waiting + (src[..n] + (out + left)) == (waiting + src[..n]) + out + left;
  }

  /** What waited and what was taken from the device is what was stored and what waits. */
  lemma {:induction false} PumpConserves(next: nat, limit: nat, f: Fifo, src: seq<bv8>)
    requires Shape(f)
    ensures var r := Pump(next, limit, f, src); Conserved(Residual(f), src[..r.used], r.out, Residual(r.f))
    decreases if next <= limit then limit - next + 1 else 0
  {
    hide Fill, Drop, Residual, Room, Conserved;
    if next > limit {
      ConservedNone(Residual(f), src);
    } else {
      var g, n := Fill(f, src), Min(BURST - f.lim, |src|);
      var k := Room(g, next, limit);
      ConservedFill(f, src, k);
      if g.lim == BURST && k == g.size {
        var rest := Pump(next + k, limit, Drop(g, k), src[n..]);
        PumpConserves(next + k, limit, Drop(g, k), src[n..]);
        ConservedChain(f, src, rest.used, rest.out, Residual(rest.f));
      }
    }
  }

  /** The loop stops only because the device has no more, or because memory has no more room. */
  lemma {:induction false} PumpExhausts(next: nat, limit: nat, f: Fifo, src: seq<bv8>)
    requires Shape(f) && next <= limit
    ensures var r := Pump(next, limit, f, src);
      (r.f.lim < BURST && r.used == |src|) || (r.f.lim == BURST && r.next == limit)
    decreases limit - next
  {
    hide Fill, Residual, Drop;
    var g, n := Fill(f, src), Min(BURST - f.lim, |src|);
    if g.lim == BURST {
      var k := Room(g, next, limit);
      if k == g.size {
        PumpExhausts(next + k, limit, Drop(g, k), src[n..]);
      }
    }
  }

  function Zeroes(n: nat): (z: seq<bv8>)
    ensures |z| == n
  {
    seq(n, _ => 0)
  }

  /** The FIFO with zeroes behind its last bytes when they are no long word. */
  function Topped(f: Fifo): (r: Fifo)
    requires Shape(f)
    ensures Shape(r)
  {
    if f.size < 4 then Fill(f, Zeroes(4 - f.size)) else f
  }

  /** dma_esp_flush_buffer: one long word to memory, filled up with zeroes. */
  function Flush(f: Fifo): (r: (Fifo, seq<bv8>))
    requires Shape(f)
    ensures Shape(r.0) && |r.1| == 4
  {
    if f.size < 4 then (Fifo(Topped(f).buf, 0, 0), Residual(f) + Zeroes(4 - f.size))
    else (Drop(f, 4), Residual(f)[..4])
  }

  lemma FlushConserves(f: Fifo)
    requires ToMemory(f)
    ensures ToMemory(Flush(f).0)
    ensures Flush(f).1 + Residual(Flush(f).0) == Residual(f) + Zeroes(if f.size < 4 then 4 - f.size else 0)
  {
    hide Residual;
    Quads();
    if f.size >= 4 {
      DropResidual(f, 4);
    } else {
      assert Residual(Flush(f).0) == [];
    }
  }

  /** At a long word there is room to top it up. */
  lemma ZeroRoom(f: Fifo)
    requires ToMemory(f) && f.size < 4
    ensures f.lim + 4 - f.size <= BURST
  {
  }

  /** What goes to memory is the first long word of the FIFO topped up. */
  lemma FlushIs(f: Fifo)
    requires ToMemory(f)
    ensures var g := Topped(f);
      4 <= g.size && Flush(f) == (Drop(g, 4), g.buf[g.lim - g.size..g.lim - g.size + 4])
  {
    if f.size < 4 {
      ZeroRoom(f);
      var z := Zeroes(4 - f.size);
      FillResidual(f, z);
      assert z[..4 - f.size] == z;
      var g := Topped(f);
      assert g.size == 4 && Residual(g) == Residual(f) + z;
    } else {
      assert Residual(f)[..4] == f.buf[f.lim - f.size..f.lim - f.size + 4];
    }
  }

  // ---------------------------------------------------------- memory to device

  /** used bytes were read from memory, and the device was given out. */
  datatype Pushed = Pushed(used: nat, f: Fifo, out: seq<bv8>)

  /** The loop at dma.c:516-553; bytes is what memory holds from next to limit, room what the device takes. */
  function Push(f: Fifo, bytes: seq<bv8>, room: nat): (r: Pushed)
    requires Shape(f)
    ensures Shape(r.f) && |r.out| <= room && r.used <= |bytes|
    decreases |bytes|, f.size
  {
    hide Fill, Residual, Drop;
    if bytes == [] then Pushed(0, f, [])
    else
      var g, n := Fill(f, bytes), Min(BURST - f.lim, |bytes|);
      if g.lim < BURST then Pushed(n, g, [])
      else
        var k := Min(g.size, room);
        if k < g.size then Pushed(n, Drop(g, k), Residual(g)[..k])
        else
          var r := Push(Drop(g, k), bytes[n..], room - k);
          Pushed(n + r.used, r.f, Residual(g) + r.out)
  }

  lemma FillQuad(f: Fifo, bytes: seq<bv8>, k: nat)
    requires ToDevice(f) && Quad(|bytes|)
    ensures var n, g := Min(BURST - f.lim, |bytes|), Fill(f, bytes);
      ToDevice(g) && Quad(n) && Quad(|bytes[n..]|) && (k <= g.size ==> ToDevice(Drop(g, k)))
  {
    hide Quad, Fill;
    Quads();
    var n := Min(BURST - f.lim, |bytes|);
    QuadSum(BURST, f.lim);
    QuadSum(f.lim, n);
    QuadSum(|bytes|, n);
  }

  lemma {:induction false} PushAligned(f: Fifo, bytes: seq<bv8>, room: nat)
    requires ToDevice(f) && Quad(|bytes|)
    ensures var r := Push(f, bytes, room); ToDevice(r.f) && Quad(r.used)
    decreases |bytes|, f.size
  {
    hide Quad, Fill, Residual, Drop;
    Quads();
    if bytes != [] {
      var g, n := Fill(f, bytes), Min(BURST - f.lim, |bytes|);
      var k := Min(g.size, room);
      FillQuad(f, bytes, k);
      if g.lim == BURST && k == g.size {
        PushAligned(Drop(g, k), bytes[n..], room - k);
        QuadSum(n, Push(Drop(g, k), bytes[n..], room - k).used);
      }
    }
  }

  /** What waited and what was read from memory is what the device was given and what waits. */
  lemma {:induction false} PushConserves(f: Fifo, bytes: seq<bv8>, room: nat)
    requires Shape(f)
    ensures var r := Push(f, bytes, room); Conserved(Residual(f), bytes[..r.used], r.out, Residual(r.f))
    decreases |bytes|, f.size
  {
    hide Fill, Residual, Drop, Conserved;
    if bytes == [] {
      ConservedNone(Residual(f), bytes);
    } else {
      var g, n := Fill(f, bytes), Min(BURST - f.lim, |bytes|);
      var k := Min(g.size, room);
      ConservedFill(f, bytes, k);
      if g.lim == BURST && k == g.size {
        var rest := Push(Drop(g, k), bytes[n..], room - k);
        PushConserves(Drop(g, k), bytes[n..], room - k);
        ConservedChain(f, bytes, rest.used, rest.out, Residual(rest.f));
      }
    }
  }

  /** The loop stops only at the limit, or because the device takes no more. */
  lemma {:induction false} PushExhausts(f: Fifo, bytes: seq<bv8>, room: nat)
    requires Shape(f)
    ensures var r := Push(f, bytes, room); r.used == |bytes| || (r.f.lim == BURST && |r.out| == room)
    decreases |bytes|, f.size
  {
    hide Fill, Residual, Drop;
    if bytes != [] {
      var g, n := Fill(f, bytes), Min(BURST - f.lim, |bytes|);
      if g.lim == BURST {
        var k := Min(g.size, room);
        if k == g.size {
          PushExhausts(Drop(g, k), bytes[n..], room - k);
        }
      }
    }
  }
}
