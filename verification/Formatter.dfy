/**
 The formatter of the optical disk controller (src/mo.c) on values: the head moves one sector a tick, and the
 formatter waits for its sector to come by.  pos and tgt count sectors from track 0; sector ids are compared
 as track and sector, so the order of ids is the order of these numbers.
 */
module FormatterModel {

  const SEC_PER_TRACK := 16
  const TRACK_OFFSET := 4096
  const TRACK_LIMIT := 19819 - TRACK_OFFSET
  const TIMEOUT_COUNT := 32

  datatype Mode = IDLE | READ | WRITE | ERASE | VERIFY

  datatype Interrupt = OPER_COMPL | TIMEOUT

  /** incr is the sector increment; count the sectors to do, which goes below zero when a command starts with 0;
      touched the logical sectors accessed so far. */
  datatype Fmt = Fmt(pos: nat, tgt: nat, incr: nat, count: int, timerOn: bool, timer: nat, mode: Mode,
                     writeTiming: bool, ints: seq<Interrupt>, touched: seq<nat>)

  const FIRST := TRACK_OFFSET * SEC_PER_TRACK
  const LAST := (TRACK_OFFSET + TRACK_LIMIT) * SEC_PER_TRACK

  /** get_logical_sector; it aborts on other tracks. */
  predicate OnDisk(p: nat) {
    FIRST <= p < LAST
  }

  function Logical(p: nat): nat
    requires OnDisk(p)
  {
    p - FIRST
  }

  /** fmt_sector_done */
  function SectorDone(s: Fmt): Fmt
  {
    var t := s.(tgt := s.tgt + s.incr, count := s.count - 1);
    if t.count == 0 then t.(mode := IDLE, ints := t.ints + [OPER_COMPL]) else t
  }

  /** fmt_match_id of another sector: the timer of the wait. */
  function Missed(s: Fmt): Fmt {
    if !s.timerOn then s
    else if s.timer + 1 > TIMEOUT_COUNT || s.pos > s.tgt then s.(timer := 0, mode := IDLE, ints := s.ints + [TIMEOUT])
    else s.(timer := s.timer + 1)
  }

  /** fmt_io: a matching sector is accessed; in write mode the first sector that comes by only fills the buffer. */
  function Io(s: Fmt): Fmt
    requires s.mode != IDLE && s.pos == s.tgt ==> OnDisk(s.pos)
  {
    if s.mode == IDLE then s
    else
      var m := if s.pos == s.tgt then s.(timer := 0) else Missed(s);
      if s.pos == s.tgt && (s.mode == WRITE ==> s.writeTiming) then
        SectorDone(m.(touched := m.touched + [Logical(s.pos)]))
      else if s.mode == WRITE then m.(writeTiming := true)
      else m
  }

  /** One tick of mo_spiraling_operation for the selected drive. */
  function Tick(s: Fmt): Fmt
    requires s.mode != IDLE && s.pos == s.tgt ==> OnDisk(s.pos)
  {
    Io(s).(pos := s.pos + 1)
  }

  predicate Runs(s: Fmt, n: nat)
    decreases n
  {
    n > 0 ==> (s.mode != IDLE && s.pos == s.tgt ==> OnDisk(s.pos)) && Runs(Tick(s), n - 1)
  }

  function Ticks(s: Fmt, n: nat): (r: Fmt)
    requires Runs(s, n)
    ensures r.pos == s.pos + n
    decreases n
  {
    if n == 0 then s else Ticks(Tick(s), n - 1)
  }

  lemma {:induction false} TicksSum(s: Fmt, m: nat, n: nat)
    requires Runs(s, m) && Runs(Ticks(s, m), n)
    ensures Runs(s, m + n) && Ticks(s, m + n) == Ticks(Ticks(s, m), n)
    decreases m
  {
    hide Tick;
    if m > 0 {
      TicksSum(Tick(s), m - 1, n);
    }
  }

  // ---------------------------------------------------------- the walk

  /** Sectors first, first + k, first + 2k, ... */
  function Every(first: nat, k: nat, n: nat): (r: seq<nat>)
    ensures |r| == n
    decreases n
  {
    if n == 0 then [] else [first] + Every(first + k, k, n - 1)
  }

  lemma {:induction false} EveryAt(first: nat, k: nat, n: nat, i: nat)
    requires i < n
    ensures Every(first, k, n)[i] == first + i * k
    decreases n
  {
    if i > 0 {
      EveryAt(first + k, k, n - 1, i - 1);
      assert first + k + (i - 1) * k == first + i * k;
    } else {
      assert 0 * k == 0;
    }
  }

  /** The wait for a sector g ticks away. */
  lemma {:induction false} Wait(s: Fmt, g: nat)
    requires s.mode != IDLE && s.tgt == s.pos + g && (s.timerOn ==> s.timer + g <= TIMEOUT_COUNT)
    ensures Runs(s, g)
    ensures Ticks(s, g) == s.(pos := s.tgt, timer := if s.timerOn then s.timer + g else s.timer,
                              writeTiming := s.writeTiming || (s.mode == WRITE && g > 0))
    decreases g
  {
    if g > 0 {
      Wait(Tick(s), g - 1);
    }
  }

  /** How far away the sector may be: in write mode at least one other sector has to come by first. */
  predicate InReach(s: Fmt) {
    s.pos <= s.tgt && (s.timerOn ==> s.timer + (s.tgt - s.pos) <= TIMEOUT_COUNT) &&
    (s.mode == WRITE && !s.writeTiming ==> s.pos < s.tgt)
  }

  /** The ticks a transfer takes. */
  function Duration(s: Fmt): int
    requires s.count > 0
  {
    s.tgt - s.pos + 1 + (s.count - 1) * s.incr
  }

  predicate TargetsOnDisk(s: Fmt)
    requires s.count > 0
  {
    FIRST <= s.tgt && s.tgt + (s.count - 1) * s.incr < LAST
  }

  /** The formatter when the sector it waits for has gone by. */
  function Reached(s: Fmt): Fmt
    requires OnDisk(s.tgt)
  {
    var m := s.(pos := s.tgt + 1, tgt := s.tgt + s.incr, timer := 0, count := s.count - 1,
                writeTiming := s.writeTiming || s.mode == WRITE, touched := s.touched + [Logical(s.tgt)]);
    if m.count == 0 then m.(mode := IDLE, ints := m.ints + [OPER_COMPL]) else m
  }

  lemma Reach(s: Fmt)
    requires s.mode != IDLE && InReach(s) && OnDisk(s.tgt)
    ensures var g := s.tgt - s.pos; Runs(s, g + 1) && Ticks(s, g + 1) == Reached(s)
  {
    hide Runs, Ticks, Tick, Reached;
    var g := s.tgt - s.pos;
    Wait(s, g);
    Hit(Ticks(s, g));
    SameReached(s, Ticks(s, g));
    TicksSum(s, g, 1);
  }

  /** The tick at which the sector is under the head. */
  lemma Hit(w: Fmt)
    requires w.mode != IDLE && w.pos == w.tgt && OnDisk(w.pos) && (w.mode == WRITE ==> w.writeTiming)
    ensures Runs(w, 1) && Ticks(w, 1) == Reached(w)
  {
    hide Logical, Runs, Ticks, OnDisk;
    OneTick(w);
  }

  lemma SameReached(s: Fmt, w: Fmt)
    requires OnDisk(s.tgt) && w == s.(pos := s.tgt, timer := w.timer, writeTiming := w.writeTiming)
    requires w.writeTiming == s.writeTiming || s.mode == WRITE
    ensures Reached(s) == Reached(w)
  {
  }

  /** From its first sector on the formatter touches exactly every incr-th sector, each once and in order; then it is
      idle, has raised operation complete, and no timeout. */
  lemma {:induction false} Walk(s: Fmt)
    requires s.mode != IDLE && s.count > 0 && InReach(s) &&
      (s.count == 1 || 1 <= s.incr < SEC_PER_TRACK) && TargetsOnDisk(s)
    ensures var d := Duration(s);
      d > 0 && Runs(s, d) &&
      var r := Ticks(s, d);
      r.touched == s.touched + Every(s.tgt - FIRST, s.incr, s.count) && r.ints == s.ints + [OPER_COMPL] &&
      r.mode == IDLE && r.count == 0 && r.timer == 0
    decreases s.count
  {
    hide Runs, Ticks, Every;
    var g := s.tgt - s.pos;
    Bound(s.count - 1, s.incr);
    Reach(s);
    var t := Reached(s);
    EveryStep(s.tgt - FIRST, s.incr, s.count);
    LessOne(s.count - 1, s.incr);
    if s.count > 1 {
      Walk(t);
      TicksSum(s, g + 1, Duration(t));
      assert s.touched + [s.tgt - FIRST] + Every(t.tgt - FIRST, t.incr, t.count)
          == s.touched + ([s.tgt - FIRST] + Every(t.tgt - FIRST, t.incr, t.count));
    }
  }

  lemma LessOne(n: nat, k: nat)
    ensures n == 0 ==> n * k == 0
    ensures n > 0 ==> n * k == k + (n - 1) * k
  {
  }

  lemma EveryStep(first: nat, k: nat, n: nat)
    requires n > 0
    ensures Every(first, k, n) == [first] + Every(first + k, k, n - 1)
    ensures n == 1 ==> Every(first, k, n) == [first]
  {
  }

  lemma Bound(n: nat, k: nat)
    ensures n * k >= 0
  {
  }

  lemma OneTick(w: Fmt)
    requires w.mode != IDLE && w.pos == w.tgt ==> OnDisk(w.pos)
    ensures Runs(w, 1) && Ticks(w, 1) == Tick(w)
  {
    assert Runs(Tick(w), 0) && Ticks(Tick(w), 0) == Tick(w);
  }

  /** An idle formatter touches nothing and raises nothing, however far the head goes on. */
  lemma {:induction false} IdleStays(s: Fmt, n: nat)
    requires s.mode == IDLE
    ensures Runs(s, n) && Ticks(s, n) == s.(pos := s.pos + n)
    decreases n
  {
    if n > 0 {
      IdleStays(Tick(s), n - 1);
    }
  }

  // ---------------------------------------------------------- and otherwise

  /** Behind the head and without the timer the sector never comes by: the formatter waits for ever. */
  lemma {:induction false} BehindForever(s: Fmt, n: nat)
    requires s.mode != IDLE && s.pos > s.tgt && !s.timerOn
    ensures Runs(s, n)
    ensures Ticks(s, n) == s.(pos := s.pos + n, writeTiming := s.writeTiming || (s.mode == WRITE && n > 0))
    decreases n
  {
    if n > 0 {
      BehindForever(Tick(s), n - 1);
    }
  }

  /** With the timer a sector behind the head is a timeout at once. */
  lemma BehindTimesOut(s: Fmt)
    requires s.mode != IDLE && s.pos > s.tgt && s.timerOn
    ensures Tick(s).mode == IDLE && Tick(s).ints == s.ints + [TIMEOUT] && Tick(s).touched == s.touched
  {
  }

  /** With the timer a sector too far ahead is a timeout after 32 sectors at most. */
  lemma {:induction false} TooFarTimesOut(s: Fmt)
    requires s.mode != IDLE && s.pos < s.tgt && s.timerOn && s.timer <= TIMEOUT_COUNT
    requires s.timer + (s.tgt - s.pos) > TIMEOUT_COUNT
    ensures var n := TIMEOUT_COUNT - s.timer + 1;
      Runs(s, n) && var r := Ticks(s, n); r.mode == IDLE && r.ints == s.ints + [TIMEOUT] && r.touched == s.touched
    decreases TIMEOUT_COUNT - s.timer
  {
    if s.timer == TIMEOUT_COUNT {
      OneTick(s);
    } else {
      TooFarTimesOut(Tick(s));
    }
  }

  /** A write that finds its sector under the head passes it by. */
  lemma WritePassesBy(s: Fmt)
    requires s.mode == WRITE && !s.writeTiming && s.pos == s.tgt && OnDisk(s.pos)
    ensures Runs(s, 1) && Ticks(s, 1) == s.(pos := s.pos + 1, timer := 0, writeTiming := true)
  {
    OneTick(s);
  }

  /** With the timer it then times out. */
  lemma WriteTooEarly(s: Fmt)
    requires s.mode == WRITE && !s.writeTiming && s.pos == s.tgt && s.timerOn && OnDisk(s.pos)
    ensures Runs(s, 2) && var r := Ticks(s, 2); r.mode == IDLE && r.ints == s.ints + [TIMEOUT] && r.touched == s.touched
  {
    var t := Tick(s);
    BehindTimesOut(t);
    OneTick(t);
  }

  ghost predicate Completes(s: Fmt) {
    exists n: nat :: Runs(s, n) && Ticks(s, n).ints == [OPER_COMPL]
  }

  /** With the timer and without it: a sector to do, the first one in reach, and for more than one an increment, is
      exactly what a transfer takes. */
  lemma CompletesIff(s: Fmt)
    requires s.mode != IDLE && s.ints == [] && (s.timerOn ==> s.timer <= TIMEOUT_COUNT)
    requires s.count > 0 ==> s.incr < SEC_PER_TRACK && TargetsOnDisk(s)
    ensures s.count > 0 && InReach(s) && (s.count == 1 || s.incr > 0) <==> Completes(s)
  {
    hide Completes, Runs, Ticks, Tick;
    assert [] + [TIMEOUT] == [TIMEOUT];
    if s.count <= 0 {
      CountedOut(s);
    } else if InReach(s) && (s.count == 1 || s.incr > 0) {
      Walk(s);
      assert [] + [OPER_COMPL] == [OPER_COMPL];
      DoesComplete(s, Duration(s));
    } else if InReach(s) {
      Bound(s.count - 1, s.incr);
      Reach(s);
      BehindNever(s, s.tgt - s.pos + 1);
    } else if s.pos > s.tgt {
      NoTicks(s);
      BehindNever(s, 0);
    } else if s.pos == s.tgt {
      Bound(s.count - 1, s.incr);
      WritePassesBy(s);
      BehindNever(s, 1);
    } else {
      TooFarTimesOut(s);
      NeverCompletes(s, TIMEOUT_COUNT - s.timer + 1);
    }
  }

  /** Counting down from zero or below does not come to zero. */
  lemma CountedOut(s: Fmt)
    requires s.count <= 0 && OPER_COMPL !in s.ints
    ensures !Completes(s)
  {
    forall n: nat | Runs(s, n) ensures Ticks(s, n).ints != [OPER_COMPL] {
      NotRaised(s, n);
      assert OPER_COMPL in [OPER_COMPL];
    }
  }

  lemma {:induction false} NotRaised(s: Fmt, n: nat)
    requires s.count <= 0 && OPER_COMPL !in s.ints && Runs(s, n)
    ensures OPER_COMPL !in Ticks(s, n).ints
    decreases n
  {
    if n > 0 {
      NotRaised(Tick(s), n - 1);
    }
  }

  lemma NoTicks(s: Fmt)
    ensures Runs(s, 0) && Ticks(s, 0) == s
  {
  }

  /** Once the head is past the sector the transfer does not complete, with the timer or without it. */
  lemma BehindNever(s: Fmt, m: nat)
    requires Runs(s, m) && s.ints == []
    requires var r := Ticks(s, m); r.mode != IDLE && r.pos > r.tgt && r.ints == []
    ensures !Completes(s)
  {
    hide Runs, Ticks, Tick;
    var r := Ticks(s, m);
    if r.timerOn {
      BehindTimesOut(r);
      OneTick(r);
      TicksSum(s, m, 1);
      assert [] + [TIMEOUT] == [TIMEOUT];
      NeverCompletes(s, m + 1);
    } else {
      forall n: nat | Runs(s, n) ensures Ticks(s, n).ints != [OPER_COMPL] {
        if n >= m {
          BehindForever(r, n - m);
          TicksSum(s, m, n - m);
        } else {
          RunsOn(s, n, m - n);
          IntsGrow(Ticks(s, n), m - n);
          TicksSum(s, n, m - n);
        }
      }
      assert !Completes(s) by { NeverRaised(s); }
    }
  }

  lemma NeverRaised(s: Fmt)
    requires forall n: nat :: Runs(s, n) ==> Ticks(s, n).ints != [OPER_COMPL]
    ensures !Completes(s)
  {
  }

  lemma DoesComplete(s: Fmt, d: nat)
    requires Runs(s, d) && Ticks(s, d).ints == [OPER_COMPL]
    ensures Completes(s)
  {
  }

  lemma NeverCompletes(s: Fmt, m: nat)
    requires Runs(s, m) && s.ints == [] && Ticks(s, m).mode == IDLE && Ticks(s, m).ints == [TIMEOUT]
    ensures !Completes(s)
  {
    hide Runs, Ticks;
    forall n: nat | Runs(s, n) ensures Ticks(s, n).ints != [OPER_COMPL] {
      NeverComplete(s, m, n);
    }
  }

  /** Once the timeout has been raised it stays raised, and before it there is nothing. */
  lemma NeverComplete(s: Fmt, m: nat, n: nat)
    requires Runs(s, m) && Runs(s, n) && s.ints == [] && Ticks(s, m).mode == IDLE && Ticks(s, m).ints == [TIMEOUT]
    ensures Ticks(s, n).ints != [OPER_COMPL]
  {
    hide Runs, Ticks, Tick;
    if n >= m {
      IdleStays(Ticks(s, m), n - m);
      TicksSum(s, m, n - m);
    } else {
      RunsOn(s, n, m - n);
      IntsGrow(Ticks(s, n), m - n);
      TicksSum(s, n, m - n);
      NotComplete(Ticks(s, n).ints);
    }
  }

  lemma NotComplete(ints: seq<Interrupt>)
    requires ints <= [TIMEOUT]
    ensures ints != [OPER_COMPL]
  {
    assert |ints| == 1 ==> ints[0] == [TIMEOUT][0];
  }

  lemma {:induction false} RunsOn(s: Fmt, n: nat, k: nat)
    requires Runs(s, n + k) && Runs(s, n)
    ensures Runs(Ticks(s, n), k)
    decreases n
  {
    hide Tick;
    if n > 0 {
      RunsOn(Tick(s), n - 1, k);
    }
  }

  lemma {:induction false} IntsGrow(s: Fmt, n: nat)
    requires Runs(s, n)
    ensures s.ints <= Ticks(s, n).ints
    decreases n
  {
    if n > 0 {
      IntsGrow(Tick(s), n - 1);
    }
  }
}

/** The registers of the formatter and the position of the drive, changed in place. */
module Formatter {
  import opened FormatterModel

  const SECTORSIZE := 1296

  /** The image with one sector replaced. */
  function Put(image: seq<bv8>, sector: nat, bytes: seq<bv8>): (r: seq<bv8>)
    requires sector * SECTORSIZE + |bytes| <= |image|
    ensures |r| == |image|
  {
    image[..sector * SECTORSIZE] + bytes + image[sector * SECTORSIZE + |bytes|..]
  }

  function Sector(image: seq<bv8>, sector: nat): (r: seq<bv8>)
    requires sector * SECTORSIZE + SECTORSIZE <= |image|
    ensures |r| == SECTORSIZE
  {
    image[sector * SECTORSIZE..sector * SECTORSIZE + SECTORSIZE]
  }

  /** Does this tick access the sector under the head? */
  predicate Accesses(s: Fmt) {
    s.mode != IDLE && s.pos == s.tgt && (s.mode == WRITE ==> s.writeTiming)
  }

  class MoFormatter {
    const image: array<bv8>
    const buffer: array<bv8>
    var tracknumh: nat
    var tracknuml: nat
    var sectorNum: nat
    var sectorCount: int
    var sectorIncrement: nat
    var sectTimer: bool
    var sectorTimer: nat
    var fmtMode: Mode
    var writeTiming: bool
    var headPos: nat
    var secOffset: nat
    var operCompl: bool
    var timeout: bool
    /** The state of the model this object is in. */
    ghost var w: Fmt

    ghost predicate Valid()
      reads this
    {
      image != buffer && buffer.Length == SECTORSIZE && Registers() && Position() && Flags()
    }

    ghost predicate Registers()
      reads this
    {
      tracknumh < 0x100 && tracknuml < 0x100 && sectorNum < SEC_PER_TRACK && sectorIncrement < SEC_PER_TRACK &&
      w.tgt == (tracknumh * 0x100 + tracknuml) * SEC_PER_TRACK + sectorNum && w.incr == sectorIncrement &&
      w.count == sectorCount && w.timerOn == sectTimer && w.timer == sectorTimer && w.mode == fmtMode &&
      w.writeTiming == writeTiming
    }

    /** A bit is set exactly when its interrupt has been raised. */
    ghost predicate Flags()
      reads this`operCompl, this`timeout, this`w
    {
      (OPER_COMPL in w.ints <==> operCompl) && (TIMEOUT in w.ints <==> timeout)
    }

    ghost predicate Position()
      reads this
    {
      secOffset < SEC_PER_TRACK && w.pos == headPos * SEC_PER_TRACK + secOffset
    }

    constructor (disk: array<bv8>)
      ensures Valid() && fresh(buffer) && image == disk && w == Fmt(0, 0, 0, 0, false, 0, IDLE, false, [], [])
    {
      image := disk;
      buffer := new bv8[SECTORSIZE](_ => 0);
      tracknumh, tracknuml, sectorNum, sectorCount, sectorIncrement := 0, 0, 0, 0, 0;
      sectTimer, sectorTimer, fmtMode, writeTiming := false, 0, IDLE, false;
      headPos, secOffset, operCompl, timeout := 0, 0, false, false;
      w := Fmt(0, 0, 0, 0, false, 0, IDLE, false, [], []);
    }

    method Advance()
      requires Registers() && w.tgt + w.incr < 0x10000 * SEC_PER_TRACK
      modifies this`tracknumh, this`tracknuml, this`sectorNum, this`w
      ensures Registers() && w == old(w).(tgt := old(w).tgt + old(w).incr)
    {
      ghost var t := w.tgt + w.incr;
      NextSector(tracknumh, tracknuml, sectorNum, sectorIncrement);
      var track := tracknumh * 0x100 + tracknuml;
      sectorNum := sectorNum + sectorIncrement;
      track := (track + sectorNum / SEC_PER_TRACK) % 0x10000;
      sectorNum := sectorNum % SEC_PER_TRACK;
      tracknumh := track / 0x100 % 0x100;
      tracknuml := track % 0x100;
      w := w.(tgt := t);
    }

    /** fmt_sector_done */
    method SectorIsDone()
      requires Registers() && Flags() && w.tgt + w.incr < 0x10000 * SEC_PER_TRACK
      modifies this`tracknumh, this`tracknuml, this`sectorNum, this`sectorCount, this`fmtMode, this`operCompl, this`w
      ensures Registers() && Flags() && w == SectorDone(old(w))
    {
      hide SectorDone;
      DoneIs(w);
      ghost var r := SectorDone(w);
      Advance();
      sectorCount := sectorCount - 1;
      if sectorCount == 0 {
        fmtMode := IDLE;
        operCompl := true;
      }
      w := r;
    }

    /** fmt_match_id, for full ids */
    method MatchId(sectorId: nat) returns (match_: bool)
      requires Registers() && Flags() && Position() && sectorId == headPos * 0x100 + secOffset
      modifies this`sectorTimer, this`fmtMode, this`timeout, this`w
      ensures Registers() && Flags() && match_ == (old(w).pos == old(w).tgt)
      ensures w == if match_ then old(w).(timer := 0) else Missed(old(w))
    {
      var fmtId := tracknumh * 0x1_0000 + tracknuml * 0x100 + sectorNum;
      SameOrder(headPos, secOffset, tracknumh * 0x100 + tracknuml, sectorNum);
      match_ := sectorId == fmtId;
      if match_ {
        sectorTimer := 0;
        w := w.(timer := 0);
      } else {
        ghost var m := Missed(w);
        if sectTimer {
          sectorTimer := sectorTimer + 1;
          if sectorTimer > TIMEOUT_COUNT || sectorId > fmtId {
            sectorTimer := 0;
            fmtMode := IDLE;
            timeout := true;
          }
        }
        w := m;
      }
    }

    /** mo_read_sector and mo_verify_sector: the sector to the ECC buffer. */
    method ReadSector(sector: nat)
      requires image != buffer && buffer.Length == SECTORSIZE && sector * SECTORSIZE + SECTORSIZE <= image.Length
      modifies buffer
      ensures buffer[..] == Sector(image[..], sector)
    {
      var at := sector * SECTORSIZE;
      forall k | 0 <= k < SECTORSIZE {
        buffer[k] := image[at + k];
      }
    }

    /** mo_write_sector, of a complete ECC buffer. */
    method WriteSector(sector: nat)
      requires image != buffer && buffer.Length == SECTORSIZE && sector * SECTORSIZE + SECTORSIZE <= image.Length
      modifies image
      ensures image[..] == Put(old(image[..]), sector, buffer[..])
    {
      var at := sector * SECTORSIZE;
      forall k | 0 <= k < SECTORSIZE {
        image[at + k] := buffer[k];
      }
    }

    /** mo_erase_sector */
    method EraseSector(sector: nat)
      requires sector * SECTORSIZE + SECTORSIZE <= image.Length
      modifies image
      ensures image[..] == Put(old(image[..]), sector, seq(SECTORSIZE, _ => 0xFF))
    {
      var at := sector * SECTORSIZE;
      forall k | 0 <= k < SECTORSIZE {
        image[at + k] := 0xFF;
      }
    }

    /** get_logical_sector */
    method LogicalSector(sectorId: nat) returns (sector: nat)
      requires Position() && sectorId == headPos * 0x100 + secOffset && OnDisk(w.pos)
      ensures sector == Logical(w.pos)
    {
      IdParts(headPos, secOffset);
      var tracknum := sectorId / 0x100 - TRACK_OFFSET;
      sector := tracknum * SEC_PER_TRACK + sectorId % 0x10;
    }

    /** The access of the current mode, to a sector whose id has matched. */
    method Access(sectorId: nat)
      requires Valid() && sectorId == headPos * 0x100 + secOffset && fmtMode != IDLE && OnDisk(w.pos)
      requires Logical(w.pos) * SECTORSIZE + SECTORSIZE <= image.Length && w.tgt == w.pos
      modifies this, image, buffer
      ensures Valid() && w == SectorDone(old(w).(touched := old(w).touched + [Logical(old(w).pos)]))
      ensures old(w).mode == WRITE ==> image[..] == Put(old(image[..]), Logical(old(w).pos), old(buffer[..]))
      ensures old(w).mode == ERASE ==>
        image[..] == Put(old(image[..]), Logical(old(w).pos), seq(SECTORSIZE, _ => 0xFF)) &&
          buffer[..] == old(buffer[..])
      ensures old(w).mode == READ || old(w).mode == VERIFY ==>
        image[..] == old(image[..]) && buffer[..] == Sector(old(image[..]), Logical(old(w).pos))
    {
      hide Put, Sector;
      var sector := LogicalSector(sectorId);
      match fmtMode {
        case READ => ReadSector(sector);
        case VERIFY => ReadSector(sector);
        case WRITE => WriteSector(sector);
        case ERASE => EraseSector(sector);
      }
      w := w.(touched := w.touched + [sector]);
      SectorIsDone();
    }

    /** fmt_io */
    method FormatterIo(sectorId: nat)
      requires Valid() && sectorId == headPos * 0x100 + secOffset
      requires fmtMode != IDLE && w.pos == w.tgt ==>
        OnDisk(w.pos) && Logical(w.pos) * SECTORSIZE + SECTORSIZE <= image.Length
      modifies this, image, buffer
      ensures Valid() && w == Io(old(w))
      ensures !Accesses(old(w)) ==> image[..] == old(image[..]) && buffer[..] == old(buffer[..])
      ensures Accesses(old(w)) ==> OnDisk(old(w).pos) && Logical(old(w).pos) * SECTORSIZE + SECTORSIZE <= image.Length
      ensures Accesses(old(w)) && old(w).mode == ERASE ==>
        image[..] == Put(old(image[..]), Logical(old(w).pos), seq(SECTORSIZE, _ => 0xFF))
      ensures Accesses(old(w)) && old(w).mode == WRITE ==>
        image[..] == Put(old(image[..]), Logical(old(w).pos), old(buffer[..]))
      ensures Accesses(old(w)) && (old(w).mode == READ || old(w).mode == VERIFY) ==>
        image[..] == old(image[..]) && buffer[..] == Sector(old(image[..]), Logical(old(w).pos))
    {
      hide Put, Sector;
      if fmtMode == IDLE {
        return;
      }
      var writing := fmtMode == WRITE;
      var matched := MatchId(sectorId);
      if writing {
        if matched && writeTiming {
          Access(sectorId);
        } else {
          writeTiming := true;
          w := w.(writeTiming := true);
        }
      } else if matched {
        Access(sectorId);
      }
    }

    /** The turn of mo_spiraling_operation for the selected drive. */
    method Spiral()
      requires Valid()
      requires fmtMode != IDLE && w.pos == w.tgt ==>
        OnDisk(w.pos) && Logical(w.pos) * SECTORSIZE + SECTORSIZE <= image.Length
      modifies this, image, buffer
      ensures Valid() && w == Tick(old(w))
      ensures !Accesses(old(w)) ==> image[..] == old(image[..]) && buffer[..] == old(buffer[..])
      ensures Accesses(old(w)) ==> OnDisk(old(w).pos) && Logical(old(w).pos) * SECTORSIZE + SECTORSIZE <= image.Length
      ensures Accesses(old(w)) && old(w).mode == ERASE ==>
        image[..] == Put(old(image[..]), Logical(old(w).pos), seq(SECTORSIZE, _ => 0xFF))
      ensures Accesses(old(w)) && old(w).mode == WRITE ==>
        image[..] == Put(old(image[..]), Logical(old(w).pos), old(buffer[..]))
      ensures Accesses(old(w)) && (old(w).mode == READ || old(w).mode == VERIFY) ==>
        image[..] == old(image[..]) && buffer[..] == Sector(old(image[..]), Logical(old(w).pos))
    {
      hide Io, Put, Sector, Logical, OnDisk;
      IoPos(w);
      FormatterIo(headPos * 0x100 + secOffset);
      secOffset := secOffset + 1;
      headPos := headPos + secOffset / SEC_PER_TRACK;
      secOffset := secOffset % SEC_PER_TRACK;
      w := w.(pos := w.pos + 1);
    }
  }

  lemma NextSector(h: nat, l: nat, sec: nat, k: nat)
    requires h < 0x100 && l < 0x100 && sec < SEC_PER_TRACK &&
      (h * 0x100 + l) * SEC_PER_TRACK + sec + k < 0x10000 * SEC_PER_TRACK
    ensures var track := (h * 0x100 + l + (sec + k) / SEC_PER_TRACK) % 0x10000;
      var th, tl := track / 0x100 % 0x100, track % 0x100;
      th * 0x100 + tl == track &&
        (th * 0x100 + tl) * SEC_PER_TRACK + (sec + k) % SEC_PER_TRACK == (h * 0x100 + l) * SEC_PER_TRACK + sec + k
  {
    var up := (sec + k) / SEC_PER_TRACK;
    assert sec + k == up * SEC_PER_TRACK + (sec + k) % SEC_PER_TRACK;
    var track := h * 0x100 + l + up;
    assert track < 0x10000;
  }

  lemma DoneIs(s: Fmt)
    ensures var r := SectorDone(s);
      r.tgt == s.tgt + s.incr && r.count == s.count - 1 && r.mode == (if s.count == 1 then IDLE else s.mode) &&
      r.ints == (if s.count == 1 then s.ints + [OPER_COMPL] else s.ints) && r.incr == s.incr &&
        r.timerOn == s.timerOn &&
      r.timer == s.timer && r.writeTiming == s.writeTiming && r.pos == s.pos && r.touched == s.touched
  {
  }

  lemma IdParts(a: nat, b: nat)
    requires b < SEC_PER_TRACK
    ensures (a * 0x100 + b) / 0x100 == a && (a * 0x100 + b) % 0x10 == b
  {
  }

  lemma IoPos(s: Fmt)
    requires s.mode != IDLE && s.pos == s.tgt ==> OnDisk(s.pos)
    ensures Io(s).pos == s.pos
  {
  }

  /** Sector ids are ordered as sectors are on the disk. */
  lemma SameOrder(a: nat, b: nat, c: nat, d: nat)
    requires b < SEC_PER_TRACK && d < SEC_PER_TRACK
    ensures a * 0x100 + b == c * 0x100 + d <==> a * SEC_PER_TRACK + b == c * SEC_PER_TRACK + d
    ensures a * 0x100 + b > c * 0x100 + d <==> a * SEC_PER_TRACK + b > c * SEC_PER_TRACK + d
  {
  }
}
