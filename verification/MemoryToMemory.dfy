/** Memory to memory DMA (src/dma.c): sixteen bytes a turn through a buffer
    that is used again when the source is at its end. */
module MemoryToMemory {
  import opened Burst
  import opened ScsiDisk
  import opened EspModel

  /** rd is the channel M2R, wr the channel R2M. */
  datatype Copy = Copy(rd: Channel, wr: Channel, buf: seq<bv8>, mem: seq<bv8>)

  predicate Fits(c: Copy) {
    |c.buf| == BURST && (c.rd.next < c.rd.limit ==> c.rd.next + BURST <= |c.mem|) &&
    (c.wr.next < c.wr.limit ==> c.wr.next + BURST <= |c.mem|)
  }

  /** dma_m2m_write_memory */
  function WriteMemory(c: Copy): Copy
    requires Fits(c)
  {
    if c.wr.next < c.wr.limit then
      var more := c.rd.next < c.rd.limit;
      var buf := if more then c.mem[c.rd.next..c.rd.next + BURST] else c.buf;
      Copy(if more then Interrupt(c.rd.(next := c.rd.next + BURST)) else c.rd,
           Interrupt(c.wr.(next := c.wr.next + BURST)), buf, Store(c.mem, c.wr.next, buf))
    else c.(wr := Interrupt(c.wr))
  }

  /** DMA_M2M_IO_Handler */
  function Handler(c: Copy): Copy
    requires Fits(c)
  {
    if c.wr.enabled then WriteMemory(c) else c
  }

  // ---------------------------------------------------------- a whole transfer

  /** A source of n and a destination of m bytes, whole turns both, apart from each other, without chaining. */
  predicate Transfer(c: Copy, n: nat, m: nat) {
    |c.buf| == BURST && n > 0 && m > 0 && n % BURST == 0 && m % BURST == 0 &&
    c.rd.limit == c.rd.next + n <= |c.mem| && c.wr.limit == c.wr.next + m <= |c.mem| &&
    (c.rd.limit <= c.wr.next || c.wr.limit <= c.rd.next) &&
    c.wr.enabled && c.rd.enabled && !c.rd.supdate && !c.wr.supdate
  }

  /** Byte i of a destination: the source, and then its last sixteen bytes again and again. */
  function Byte(src: seq<bv8>, i: nat): bv8
    requires |src| >= BURST
  {
    if i < |src| then src[i] else src[|src| - BURST + (i - |src|) % BURST]
  }

  function Copied(src: seq<bv8>, k: nat): (r: seq<bv8>)
    requires |src| >= BURST
    ensures |r| == k
  {
    seq(k, i requires 0 <= i < k => Byte(src, i))
  }

  predicate Midway(c: Copy, s: Copy, n: nat, m: nat, k: nat) {
    Transfer(s, n, m) && k * BURST <= m && |c.buf| == BURST &&
    var src, done := s.mem[s.rd.next..s.rd.limit], k * BURST;
    c.mem == Store(s.mem, s.wr.next, Copied(src, done)) &&
    c.wr == Advanced(s.wr, done) && c.rd == Advanced(s.rd, Min(done, n)) &&
    (k > 0 ==> c.buf == Copied(src, done)[done - BURST..])
  }

  /** A channel after so many bytes. */
  function Advanced(ch: Channel, done: nat): Channel {
    if done > 0 && ch.next + done == ch.limit then ch.(next := ch.next + done, complete := true, enabled := false)
    else ch.(next := ch.next + done)
  }

  lemma WholeTurns(n: nat, done: nat)
    requires n % BURST == 0 && done % BURST == 0
    ensures done < n ==> done + BURST <= n
  {
  }

  /** Past the source every byte is the one sixteen before it. */
  lemma ByteAgain(src: seq<bv8>, i: nat)
    requires |src| >= BURST && i >= |src|
    ensures Byte(src, i) == Byte(src, i - BURST)
  {
    if i - BURST >= |src| {
      Again(i - |src|);
    }
  }

  lemma Again(x: nat)
    requires x >= BURST
    ensures (x - BURST) % BURST == x % BURST
  {
  }

  /** The bytes a turn stores. */
  function TurnBytes(src: seq<bv8>, done: nat): (r: seq<bv8>)
    requires |src| >= BURST && |src| % BURST == 0 && done % BURST == 0
    ensures |r| == BURST
  {
    WholeTurns(|src|, done);
    if done < |src| then src[done..done + BURST] else Copied(src, done)[done - BURST..]
  }

  lemma TurnByte(src: seq<bv8>, done: nat, i: nat)
    requires |src| >= BURST && |src| % BURST == 0 && done % BURST == 0 && done <= i < done + BURST
    ensures TurnBytes(src, done)[i - done] == Byte(src, i)
  {
    WholeTurns(|src|, done);
    if done >= |src| {
      ByteAgain(src, i);
    }
  }

  lemma CopiedTurn(src: seq<bv8>, done: nat)
    requires |src| >= BURST && |src| % BURST == 0 && done % BURST == 0
    ensures Copied(src, done + BURST) == Copied(src, done) + TurnBytes(src, done)
  {
    hide Byte, TurnBytes;
    var more, both := Copied(src, done + BURST), Copied(src, done) + TurnBytes(src, done);
    forall i: nat | i < |more| ensures more[i] == both[i] {
      if i >= done {
        TurnByte(src, done, i);
      }
    }
  }

  lemma TurnStores(mem: seq<bv8>, at: nat, src: seq<bv8>, done: nat)
    requires |src| >= BURST && |src| % BURST == 0 && done % BURST == 0 && at + done + BURST <= |mem|
    ensures Store(Store(mem, at, Copied(src, done)), at + done, TurnBytes(src, done))
            == Store(mem, at, Copied(src, done + BURST))
    ensures Copied(src, done + BURST)[done..] == TurnBytes(src, done)
  {
    hide Store, Copied, TurnBytes;
    CopiedTurn(src, done);
    StoreTwo(mem, at, Copied(src, done), TurnBytes(src, done));
  }

  lemma AdvancedTurn(ch: Channel, done: nat)
    requires ch.next + done < ch.limit && !ch.supdate
    ensures Advanced(ch, done) == ch.(next := ch.next + done)
    ensures Interrupt(ch.(next := ch.next + done + BURST)) == Advanced(ch, done + BURST)
  {
  }

  lemma MidwayFacts(c: Copy, s: Copy, n: nat, m: nat, k: nat)
    requires Midway(c, s, n, m, k) && (k + 1) * BURST <= m
    ensures Transfer(s, n, m) && |c.buf| == BURST && c.wr.enabled && Fits(c) && |c.mem| == |s.mem|
    ensures var src, done := s.mem[s.rd.next..s.rd.limit], k * BURST;
      |src| == n >= BURST && done % BURST == 0 && done + BURST <= m &&
      c.wr == s.wr.(next := s.wr.next + done) && c.wr.next < c.wr.limit &&
        c.mem == Store(s.mem, s.wr.next, Copied(src, done)) &&
      (done < n ==> done + BURST <= n && c.rd == s.rd.(next := s.rd.next + done) && c.rd.next < c.rd.limit) &&
      (done >= n ==> done > 0 && c.rd == Advanced(s.rd, n) && c.rd.next == c.rd.limit && c.buf == TurnBytes(src, done))
  {
    hide Store, Copied, Advanced, Interrupt;
    var done := k * BURST;
    WholeTurns(n, done);
    WholeTurns(n, 0);
    AdvancedTurn(s.wr, done);
    if done < n {
      AdvancedTurn(s.rd, done);
    } else {
      AdvancedEnd(s.rd, n);
    }
  }

  lemma AdvancedEnd(ch: Channel, n: nat)
    requires ch.limit == ch.next + n
    ensures Advanced(ch, n).next == ch.limit == Advanced(ch, n).limit
  {
  }

  /** What the handler makes of it, part by part. */
  lemma HandlerParts(c: Copy)
    requires Fits(c) && c.wr.enabled && c.wr.next < c.wr.limit
    ensures var r, more := Handler(c), c.rd.next < c.rd.limit;
      |r.buf| == BURST && r.buf == (if more then c.mem[c.rd.next..c.rd.next + BURST] else c.buf) &&
      r.rd == (if more then Interrupt(c.rd.(next := c.rd.next + BURST)) else c.rd) &&
      r.wr == Interrupt(c.wr.(next := c.wr.next + BURST)) && r.mem == Store(c.mem, c.wr.next, r.buf)
  {
    hide Store, Interrupt;
  }

  lemma Turn(c: Copy, s: Copy, n: nat, m: nat, k: nat)
    requires Midway(c, s, n, m, k) && (k + 1) * BURST <= m
    ensures c.wr.enabled && Fits(c) && Midway(Handler(c), s, n, m, k + 1)
  {
    hide Store, Copied, Interrupt, Advanced, TurnBytes, Handler;
    MidwayFacts(c, s, n, m, k);
    HandlerParts(c);
    var src, done := s.mem[s.rd.next..s.rd.limit], k * BURST;
    TurnStores(s.mem, s.wr.next, src, done);
    AdvancedTurn(s.wr, done);
    if done < n {
      AdvancedTurn(s.rd, done);
      TurnReads(s, n, m, done);
    }
  }

  /** The source is read as it was at the beginning. */
  lemma TurnReads(s: Copy, n: nat, m: nat, done: nat)
    requires Transfer(s, n, m) && done % BURST == 0 && done < n && done + BURST <= m
    ensures var src, a := s.mem[s.rd.next..s.rd.limit], s.rd.next + done;
      a + BURST <= |s.mem| && Store(s.mem, s.wr.next, Copied(src, done))[a..a + BURST] == TurnBytes(src, done)
  {
    hide Store, Copied, TurnBytes;
    var src := s.mem[s.rd.next..s.rd.limit];
    TurnIs(src, done);
    SourceApart(s.mem, s.wr.next, Copied(src, done), s.rd.next + done, s.wr.limit, s.rd.next);
    assert s.mem[s.rd.next + done..s.rd.next + done + BURST] == src[done..done + BURST];
  }

  lemma TurnIs(src: seq<bv8>, done: nat)
    requires |src| >= BURST && |src| % BURST == 0 && done % BURST == 0 && done < |src|
    ensures done + BURST <= |src| && TurnBytes(src, done) == src[done..done + BURST]
  {
    WholeTurns(|src|, done);
  }

  /** What is stored in the destination does not touch the source. */
  lemma SourceApart(mem: seq<bv8>, at: nat, out: seq<bv8>, a: nat, limit: nat, first: nat)
    requires at + |out| <= limit <= |mem| && first <= a && a + BURST <= |mem| && (a + BURST <= at || limit <= first)
    ensures Store(mem, at, out)[a..a + BURST] == mem[a..a + BURST]
  {
  }

  /** The handler run k times. */
  function Turns(c: Copy, k: nat): (r: Copy)
    requires Runs(c, k)
    decreases k
  {
    if k == 0 then c else Turns(Handler(c), k - 1)
  }

  predicate Runs(c: Copy, k: nat)
    decreases k
  {
    k > 0 ==> Fits(c) && Runs(Handler(c), k - 1)
  }

  lemma {:induction false} TurnsMidway(c: Copy, s: Copy, n: nat, m: nat, k: nat, j: nat)
    requires Midway(c, s, n, m, j) && (j + k) * BURST <= m
    ensures Runs(c, k) && Midway(Turns(c, k), s, n, m, j + k)
    decreases k
  {
    hide Midway, Handler, Fits;
    if k > 0 {
      Turn(c, s, n, m, j);
      TurnsMidway(Handler(c), s, n, m, k - 1, j + 1);
    }
  }

  /** Run to completion: the destination holds the source while it lasts and its last sixteen bytes over and over after
      that, nothing else has changed, and both the destination and a source no longer than it are complete. */
  lemma TransferCompletes(s: Copy, n: nat, m: nat)
    requires Transfer(s, n, m)
    ensures Runs(s, m / BURST)
    ensures var r, src := Turns(s, m / BURST), s.mem[s.rd.next..s.rd.limit];
      r.mem == Store(s.mem, s.wr.next, Copied(src, m)) &&
      r.wr.next == r.wr.limit && r.wr.complete && !r.wr.enabled &&
      (n <= m ==> r.rd.next == r.rd.limit && r.rd.complete && !r.rd.enabled) &&
        (n > m ==> r.rd.next == s.rd.next + m) &&
      Fits(r) && Handler(r) == r
  {
    hide Store, Copied, Turns, Runs, Midway;
    MidwayStart(s, n, m);
    TurnsMidway(s, s, n, m, m / BURST, 0);
    MidwayEnd(Turns(s, m / BURST), s, n, m);
  }

  lemma MidwayStart(s: Copy, n: nat, m: nat)
    requires Transfer(s, n, m)
    ensures Midway(s, s, n, m, 0)
  {
    assert Copied(s.mem[s.rd.next..s.rd.limit], 0) == [];
    assert Store(s.mem, s.wr.next, []) == s.mem;
  }

  lemma MidwayEnd(r: Copy, s: Copy, n: nat, m: nat)
    requires Midway(r, s, n, m, m / BURST)
    ensures var src := s.mem[s.rd.next..s.rd.limit];
      r.mem == Store(s.mem, s.wr.next, Copied(src, m)) &&
      r.wr.next == r.wr.limit && r.wr.complete && !r.wr.enabled &&
      (n <= m ==> r.rd.next == r.rd.limit && r.rd.complete && !r.rd.enabled) &&
        (n > m ==> r.rd.next == s.rd.next + m) &&
      Fits(r) && Handler(r) == r
  {
    hide Store, Copied;
    WholeTurns(n, m);
  }

  /** The first bytes of the destination are the source's. */
  lemma CopiedPrefix(src: seq<bv8>, k: nat)
    requires |src| >= BURST
    ensures k <= |src| ==> Copied(src, k) == src[..k]
    ensures k > |src| ==> Copied(src, k)[..|src|] == src
  {
  }

  class M2M {
    const mem: array<bv8>
    const buffer: array<bv8>
    var rd: Channel
    var wr: Channel

    ghost predicate Valid()
      reads this, mem, buffer
    {
      mem != buffer && buffer.Length == BURST
    }

    ghost function Model(): Copy
      reads this, mem, buffer
    {
      Copy(rd, wr, buffer[..], mem[..])
    }

    constructor (memory: array<bv8>, from: Channel, to: Channel)
      ensures Valid() && fresh(buffer) && mem == memory && rd == from && wr == to
    {
      mem := memory;
      buffer := new bv8[BURST](_ => 0);
      rd, wr := from, to;
    }

    /** dma_interrupt */
    static method AtLimit(ch: Channel) returns (r: Channel)
      ensures r == Interrupt(ch)
    {
      r := ch;
      if r.next == r.limit {
        r := r.(complete := true);
        if r.supdate {
          r := r.(next := r.start, limit := r.stop, supdate := false);
        } else {
          r := r.(enabled := false);
        }
      }
    }

    /** Refill the buffer (dma.c:937-944). */
    method Refill()
      requires Valid() && rd.next + BURST <= mem.Length
      modifies this`rd, buffer
      ensures buffer[..] == mem[old(rd).next..old(rd).next + BURST] && rd == old(rd).(next := old(rd).next + BURST)
    {
      var size := 0;
      while size < BURST
        invariant 0 <= size <= BURST && rd == old(rd).(next := old(rd).next + size)
        invariant buffer[..size] == mem[old(rd).next..old(rd).next + size]
      {
        buffer[size] := mem[rd.next];
        size := size + 1;
        rd := rd.(next := rd.next + 1);
        assert buffer[..size] == mem[old(rd).next..old(rd).next + size];
      }
      assert buffer[..] == buffer[..BURST];
    }

    /** Write the buffer (dma.c:957-963). */
    method Unload()
      requires Valid() && wr.next + BURST <= mem.Length
      modifies this`wr, mem
      ensures mem[..] == Store(old(mem[..]), old(wr).next, buffer[..]) && wr == old(wr).(next := old(wr).next + BURST)
    {
      hide Store;
      var size := BURST;
      ghost var start, at := mem[..], wr.next;
      StoreNothing(start, at);
      assert buffer[..0] == [];
      while size > 0
        invariant 0 <= size <= BURST && wr == old(wr).(next := at + BURST - size)
        invariant mem[..] == Store(start, at, buffer[..BURST - size])
      {
        StoreTwo(start, at, buffer[..BURST - size], [buffer[BURST - size]]);
        assert buffer[..BURST - size + 1] == buffer[..BURST - size] + [buffer[BURST - size]];
        ghost var was := mem[..];
        mem[wr.next] := buffer[BURST - size];
        StoreIs(was, wr.next, buffer[BURST - size]);
        assert mem[..] == Store(was, wr.next, [buffer[BURST - size]]);
        size := size - 1;
        wr := wr.(next := wr.next + 1);
      }
      assert buffer[..BURST] == buffer[..];
    }

    /** DMA_M2M_IO_Handler, without bus errors */
    method IoHandler() returns (again: bool)
      requires Valid() && Fits(Model())
      modifies this`rd, this`wr, mem, buffer
      ensures Valid() && Model() == Handler(old(Model())) && again == old(wr).enabled
    {
      hide Store, Interrupt;
      again := wr.enabled;
      if again {
        if wr.next < wr.limit {
          if rd.next < rd.limit {
            Refill();
            rd := AtLimit(rd);
          }
          Unload();
        }
        wr := AtLimit(wr);
      }
    }
  }

  lemma StoreIs(mem: seq<bv8>, at: nat, b: bv8)
    requires at < |mem|
    ensures Store(mem, at, [b]) == mem[at := b]
  {
  }
}
