/** What holds after every run of the injector: the FIFO, the modifier masks and the floors. */
module CtlPacing {
  import opened Numbers
  import opened CtlModel

  // ---------------------------------------------------------- vocabulary

  function Cmds(log: seq<Entry>): (s: seq<Cmd>)
    ensures |s| == |log|
  {
    seq(|log|, i requires 0 <= i < |log| => log[i].cmd)
  }

  /** The acknowledgements due for these commands. */
  function Acks(cs: seq<Cmd>): seq<nat> {
    if cs == [] then []
    else Acks(cs[..|cs| - 1]) + if cs[|cs| - 1].seqno == 0 then [] else [cs[|cs| - 1].seqno]
  }

  /** The modifier mask in force after these commands. */
  function MaskAfter(cs: seq<Cmd>): bv8 {
    if cs == [] then 0 else NewMask(MaskAfter(cs[..|cs| - 1]), cs[|cs| - 1])
  }

  /** When the press of d still in force was sent, or 0. */
  function DownSince(log: seq<Entry>, d: Device): nat {
    if log == [] then 0
    else
      var e := log[|log| - 1];
      if e.cmd.verb == RELEASE then 0
      else if DeviceOf(e.cmd) == d then if e.cmd.b != 0 then e.start else 0
      else DownSince(log[..|log| - 1], d)
  }

  /** When the last report had been sent, or 0. */
  function LastReport(log: seq<Entry>): nat {
    if log == [] then 0
    else if IsReport(log[|log| - 1].cmd) then log[|log| - 1].done
    else LastReport(log[..|log| - 1])
  }

  predicate IsRelease(c: Cmd) {
    c.b == 0 && !DeviceOf(c).NoDevice?
  }

  // ---------------------------------------------------------- the invariants

  /** What was accepted is what was applied, in order and once, followed by what waits; every applied
      command has its acknowledgement. */
  predicate Fifo(w: World) {
    w.accepted == Cmds(w.log) + w.queue && w.oks == Acks(Cmds(w.log)) && |w.queue| < QUEUE
  }

  /** Every report carried the mask of the commands up to it. */
  predicate Masks(w: World) {
    w.pad.mods == MaskAfter(Cmds(w.log)) &&
    forall i {:trigger w.log[i]} :: 0 <= i < |w.log| ==> w.log[i].mods == MaskAfter(Cmds(w.log)[..i + 1])
  }

  /** Two reports are at least the later one's gap floor apart. */
  predicate Gapped(cfg: Config, log: seq<Entry>) {
    forall i, j :: 0 <= i < j < |log| && IsReport(log[i].cmd) && IsReport(log[j].cmd) ==>
      log[j].start >= log[i].done + GapFloor(cfg, log[j].cmd)
  }

  /** No release follows its press by less than the hold floor. */
  predicate Dwelt(cfg: Config, log: seq<Entry>) {
    forall j {:trigger log[j]} :: 0 <= j < |log| && IsRelease(log[j].cmd) ==>
      var down := DownSince(log[..j], DeviceOf(log[j].cmd));
      down != 0 ==> log[j].start >= down + HoldFloor(cfg, log[j].cmd)
  }

  /** The time stamps the floors are checked against are those of the log. */
  ghost predicate Stamped(env: Env, w: World) {
    Tables(w.pad) && w.pad.reportLast == LastReport(w.log) && w.pad.reportLast <= LastRead(env, w.ticks) &&
    w.pad.waitSince <= LastRead(env, w.ticks) &&
    (forall d: Device :: DownStamp(w.pad, d) <= LastRead(env, w.ticks)) &&
    (forall d: Device :: !d.NoDevice? && DownSince(w.log, d) != 0 ==> DownStamp(w.pad, d) == DownSince(w.log, d)) &&
    (forall i :: 0 <= i < |w.log| && IsReport(w.log[i].cmd) ==>
      w.log[i].done <= w.pad.reportLast && w.pad.reportLast != 0)
  }

  ghost predicate Paced(cfg: Config, env: Env, w: World) {
    Stamped(env, w) && Gapped(cfg, w.log) && Dwelt(cfg, w.log)
  }

  /** The time of a press has been read off the clock. */
  predicate Timed(log: seq<Entry>) {
    forall i :: 0 <= i < |log| && ReadsPress(log[i].cmd) ==> log[i].start > 0
  }

  ghost predicate Inv(cfg: Config, env: Env, w: World) {
    Fifo(w) && Masks(w) && Paced(cfg, env, w) && Timed(w.log)
  }

  // ---------------------------------------------------------- arrivals, checks and ticks

  lemma PushFifo(w: World, c: Cmd)
    requires Fifo(w)
    ensures Fifo(Push(w, c)) && Push(w, c).log == w.log && Push(w, c).pad == w.pad && Push(w, c).ticks == w.ticks
  {
    assert Cmds(w.log) + w.queue + [c] == Cmds(w.log) + (w.queue + [c]);
  }

  lemma {:induction false} ArriveFifo(w: World, batch: seq<Cmd>)
    requires Fifo(w)
    ensures Fifo(Arrive(w, batch))
    decreases |batch|
  {
    hide Fifo;
    if batch != [] {
      PushFifo(w, batch[0]);
      ArriveFifo(Push(w, batch[0]), batch[1..]);
    }
  }

  lemma {:induction false} ArriveAllFifo(w: World, batches: seq<seq<Cmd>>)
    requires Fifo(w)
    ensures Fifo(ArriveAll(w, batches))
    decreases |batches|
  {
    hide Fifo, Arrive;
    if batches != [] {
      ArriveFifo(w, batches[0]);
      ArriveAllFifo(Arrive(w, batches[0]), batches[1..]);
    }
  }

  lemma ReadLater(env: Env, i: nat, j: nat)
    requires Clock(env) && i <= j
    ensures LastRead(env, i) <= LastRead(env, j)
    ensures i < j ==> LastRead(env, i) <= env.clock(i) <= LastRead(env, j) && 0 < env.clock(i) < U64
  {
  }

  /** A world that differs in what the invariants of the log do not depend on. */
  lemma PacedSame(cfg: Config, env: Env, w: World, r: World)
    requires Paced(cfg, env, w) && Clock(env) && r.log == w.log && r.ticks >= w.ticks
    requires r.pad.btnDown == w.pad.btnDown && r.pad.keyDown == w.pad.keyDown && r.pad.modDown == w.pad.modDown
    requires r.pad.reportLast == w.pad.reportLast && r.pad.waitSince <= LastRead(env, r.ticks)
    ensures Paced(cfg, env, r)
  {
    hide LastRead, Clock, Gapped, Dwelt, LastReport, DownSince;
    ReadLater(env, w.ticks, r.ticks);
    assert forall d: Device :: DownStamp(r.pad, d) == DownStamp(w.pad, d);
  }

  /** A floor that has not held the command back has been met at some reading of the check. */
  lemma SinceIs(now: nat, t: nat)
    requires t <= now < U64
    ensures Since(now, t) == now - t
  {
  }

  lemma GapMet(cfg: Config, env: Env, w: World, c: Cmd)
    requires Clock(env) && w.pad.reportLast <= LastRead(env, w.ticks) && w.pad.reportLast != 0
    ensures var v := CheckGap(cfg, env, w, c);
      v.held == (GapFloor(cfg, c) > 0 && env.clock(w.ticks) < w.pad.reportLast + GapFloor(cfg, c)) &&
      (!v.held ==> LastRead(env, v.w.ticks) >= w.pad.reportLast + GapFloor(cfg, c)) &&
      (v.held ==> v.w.ticks > w.ticks)
  {
    ReadLater(env, w.ticks, w.ticks + 1);
    SinceIs(env.clock(w.ticks), w.pad.reportLast);
  }

  lemma HoldMet(cfg: Config, env: Env, w: World, c: Cmd)
    requires Clock(env) && IsRelease(c)
    requires DownStamp(w.pad, DeviceOf(c)) <= LastRead(env, w.ticks) && DownStamp(w.pad, DeviceOf(c)) != 0
    ensures var v, down := CheckHold(cfg, env, w, c), DownStamp(w.pad, DeviceOf(c));
      v.held == (HoldFloor(cfg, c) > 0 && env.clock(w.ticks) < down + HoldFloor(cfg, c)) &&
      (!v.held ==> LastRead(env, v.w.ticks) >= down + HoldFloor(cfg, c)) &&
      (v.held ==> v.w.ticks > w.ticks)
  {
    hide DeviceOf, DownStamp;
    ReadLater(env, w.ticks, w.ticks + 1);
    SinceIs(env.clock(w.ticks), DownStamp(w.pad, DeviceOf(c)));
  }

  lemma SettleWait(cfg: Config, env: Env, w: World, c: Cmd)
    requires Clock(env) && w.pad.waitSince <= LastRead(env, w.ticks)
    ensures CheckSettle(cfg, env, w, c).w.pad.waitSince <= LastRead(env, CheckSettle(cfg, env, w, c).w.ticks)
  {
    hide UseTablet, Converged;
    ReadLater(env, w.ticks, w.ticks + 1);
  }

  /** Both floors are behind a command that has passed the check. */
  lemma CheckMet(cfg: Config, env: Env, w: World, c: Cmd)
    requires Clock(env) && w.pad.reportLast <= LastRead(env, w.ticks) && w.pad.waitSince <= LastRead(env, w.ticks)
    requires DownStamp(w.pad, DeviceOf(c)) <= LastRead(env, w.ticks)
    ensures var v, down := Check(cfg, env, w, c), DownStamp(w.pad, DeviceOf(c));
      v.w.pad.waitSince <= LastRead(env, v.w.ticks) &&
      (!v.held && w.pad.reportLast != 0 ==> LastRead(env, v.w.ticks) >= w.pad.reportLast + GapFloor(cfg, c)) &&
      (!v.held && IsRelease(c) && down != 0 ==> LastRead(env, v.w.ticks) >= down + HoldFloor(cfg, c))
  {
    hide CheckGap, CheckHold, CheckSettle, Clock, LastRead, GapFloor, HoldFloor, DownStamp, DeviceOf;
    var g := CheckGap(cfg, env, w, c);
    GapKeeps(cfg, env, w, c);
    ReadLater(env, w.ticks, g.w.ticks);
    if w.pad.reportLast != 0 {
      GapMet(cfg, env, w, c);
    }
    var h := CheckHold(cfg, env, g.w, c);
    HoldKeeps(cfg, env, g.w, c);
    ReadLater(env, g.w.ticks, h.w.ticks);
    if IsRelease(c) && DownStamp(w.pad, DeviceOf(c)) != 0 {
      HoldMet(cfg, env, g.w, c);
    }
    SettleKeeps(cfg, env, h.w, c);
    ReadLater(env, h.w.ticks, CheckSettle(cfg, env, h.w, c).w.ticks);
    SettleWait(cfg, env, h.w, c);
  }

  // ---------------------------------------------------------- applying

  lemma MotionKeeps(cfg: Config, env: Env, w: World, c: Cmd)
    ensures var r := MoveAbs(cfg, env, w, c);
      r.log == w.log && r.ticks == w.ticks && r.pad.mods == w.pad.mods && r.pad.reportLast == w.pad.reportLast &&
      r.pad.waitSince == w.pad.waitSince &&
      r.pad.btnDown == w.pad.btnDown && r.pad.keyDown == w.pad.keyDown && r.pad.modDown == w.pad.modDown
    ensures var r := MoveRel(cfg, env, w, c);
      r.log == w.log && r.ticks == w.ticks && r.pad.mods == w.pad.mods && r.pad.reportLast == w.pad.reportLast &&
      r.pad.waitSince == w.pad.waitSince &&
      r.pad.btnDown == w.pad.btnDown && r.pad.keyDown == w.pad.keyDown && r.pad.modDown == w.pad.modDown
  {
    hide Clamp, UseTablet, Slams;
  }

  /** How many clock readings are taken before a command is sent. */
  function SentAt(w: World, c: Cmd): nat {
    if ReadsPress(c) then w.ticks + 1 else w.ticks
  }

  lemma ApplyEntry(cfg: Config, env: Env, w: World, c: Cmd)
    requires Tables(w.pad)
    ensures var r, sent := ApplyCmd(cfg, env, w, c), SentAt(w, c);
      r.ticks == (if IsReport(c) then sent + 1 else sent) &&
      r.log == w.log + [Entry(c, r.pad.mods, LastRead(env, sent), LastRead(env, r.ticks))] &&
      r.pad.reportLast == (if IsReport(c) then env.clock(sent) else w.pad.reportLast)
  {
    hide MoveAbs, MoveRel, Edge, LastRead, DeviceOf;
    MotionKeeps(cfg, env, w, c);
    EdgeKeeps(w.pad, c, env.clock(w.ticks));
    if c.verb == MOVEA || c.verb == MOVEP {
      MotionDevice(c);
    }
  }

  lemma MotionDevice(c: Cmd)
    requires c.verb == MOVEA || c.verb == MOVEP
    ensures DeviceOf(c) == NoDevice && !IsReport(c)
  {
  }

  lemma ApplyMask(cfg: Config, env: Env, w: World, c: Cmd)
    requires Tables(w.pad)
    ensures var r := ApplyCmd(cfg, env, w, c);
      r.pad.mods == NewMask(w.pad.mods, c) && r.pad.waitSince == w.pad.waitSince
  {
    hide MoveAbs, MoveRel, Edge, LastRead, DeviceOf, ModIndex, Byte;
    MotionKeeps(cfg, env, w, c);
    EdgeKeeps(w.pad, c, env.clock(w.ticks));
    EdgeMask(w.pad, c, env.clock(w.ticks));
  }

  lemma EdgeKeeps(p: Pad, c: Cmd, t: nat)
    requires Tables(p)
    ensures Edge(p, c, t).reportLast == p.reportLast && Edge(p, c, t).waitSince == p.waitSince
  {
    hide ModIndex, Byte, NewMask;
  }

  /** What ctl_apply remembers and records. */
  lemma ApplyNotes(cfg: Config, env: Env, w: World, c: Cmd)
    requires Tables(w.pad) && Clock(env)
    ensures var r := ApplyCmd(cfg, env, w, c);
      r.ticks >= w.ticks && r.pad.waitSince == w.pad.waitSince && r.pad.mods == NewMask(w.pad.mods, c) &&
      |r.log| == |w.log| + 1 && r.log[..|w.log|] == w.log &&
      var e := r.log[|w.log|];
      e.cmd == c && e.mods == r.pad.mods && LastRead(env, w.ticks) <= e.start <= e.done == LastRead(env, r.ticks) &&
      r.pad.reportLast == (if IsReport(c) then e.done else w.pad.reportLast) && (IsReport(c) ==> e.done > 0) &&
      (ReadsPress(c) ==> e.start > 0)
  {
    hide DeviceOf, ApplyCmd, NewMask, Clock;
    ApplyEntry(cfg, env, w, c);
    ApplyMask(cfg, env, w, c);
    ReadLater(env, w.ticks, SentAt(w, c));
    ReadLater(env, SentAt(w, c), SentAt(w, c) + 1);
  }

  lemma EdgeMask(p: Pad, c: Cmd, t: nat)
    requires Tables(p)
    ensures Edge(p, c, t).mods == NewMask(p.mods, c)
  {
    hide ModIndex, Byte;
  }

  /** The dwell tables after a command, for every device. */
  lemma EdgeStamp(p: Pad, c: Cmd, t: nat, d: Device)
    requires Tables(p)
    ensures DownStamp(Edge(p, c, t), d) ==
      if c.verb == RELEASE then 0
      else if DeviceOf(c) == d && !d.NoDevice? then
        (if c.b != 0 then t else if c.verb == BTN then DownStamp(p, d) else 0)
      else DownStamp(p, d)
  {
    hide ModIndex, Byte, NewMask;
  }

  lemma ApplyStamps(cfg: Config, env: Env, w: World, c: Cmd, d: Device)
    requires Tables(w.pad) && Clock(env)
    ensures var r := ApplyCmd(cfg, env, w, c);
      |r.log| == |w.log| + 1 &&
      var e := r.log[|w.log|];
      DownStamp(r.pad, d) ==
        if c.verb == RELEASE then 0
        else if DeviceOf(c) == d && !d.NoDevice? then
          (if c.b != 0 then e.start else if c.verb == BTN then DownStamp(w.pad, d) else 0)
        else DownStamp(w.pad, d)
  {
    hide MoveAbs, MoveRel, Edge, Clock, ModIndex, Byte;
    MotionKeeps(cfg, env, w, c);
    EdgeStamp(w.pad, c, env.clock(w.ticks), d);
  }

  // ---------------------------------------------------------- one command

  lemma CmdsAppend(log: seq<Entry>, more: seq<Entry>)
    requires |more| == |log| + 1 && more[..|log|] == log
    ensures Cmds(more) == Cmds(log) + [more[|log|].cmd]
    ensures Cmds(more)[..|log|] == Cmds(log)
  {
  }

  lemma TakeFifo(cfg: Config, env: Env, w: World, c: Cmd)
    requires Tables(w.pad) && Clock(env) && Fifo(w) && w.queue != [] && c == w.queue[0]
    ensures Fifo(Take(cfg, env, w, c))
  {
    hide ApplyCmd, NewMask, Clock, LastRead, IsReport, Tables, NewMask;
    var w1 := w.(queue := w.queue[1..], pad := w.pad.(waitSince := 0));
    assert Tables(w1.pad) by { WaitTables(w.pad); }
    ApplyNotes(cfg, env, w1, c);
    ApplyKeeps(cfg, env, w1, c);
    var r := Take(cfg, env, w, c);
    CmdsAppend(w.log, r.log);
    assert Cmds(w.log) + w.queue == Cmds(r.log) + w.queue[1..];
    AcksAppend(Cmds(w.log), c);
  }

  lemma WaitTables(p: Pad)
    requires Tables(p)
    ensures Tables(p.(waitSince := 0))
  {
  }

  lemma AcksAppend(cs: seq<Cmd>, c: Cmd)
    ensures Acks(cs + [c]) == Acks(cs) + if c.seqno == 0 then [] else [c.seqno]
  {
    assert (cs + [c])[..|cs|] == cs;
  }

  lemma TakeMasks(cfg: Config, env: Env, w: World, c: Cmd)
    requires Tables(w.pad) && Clock(env) && Masks(w) && w.queue != []
    ensures Masks(Take(cfg, env, w, c))
  {
    hide ApplyCmd, NewMask, Clock, LastRead, IsReport, Tables;
    var w1 := w.(queue := w.queue[1..], pad := w.pad.(waitSince := 0));
    assert Tables(w1.pad) by { WaitTables(w.pad); }
    ApplyNotes(cfg, env, w1, c);
    var r := Take(cfg, env, w, c);
    CmdsAppend(w.log, r.log);
    MasksAppend(w.log, r.log);
  }

  lemma TakeTimed(cfg: Config, env: Env, w: World, c: Cmd)
    requires Tables(w.pad) && Clock(env) && Timed(w.log) && w.queue != []
    ensures Timed(Take(cfg, env, w, c).log)
  {
    hide ApplyCmd, NewMask, Clock, LastRead, IsReport, Tables, ReadsPress;
    var w1 := w.(queue := w.queue[1..], pad := w.pad.(waitSince := 0));
    assert Tables(w1.pad) by { WaitTables(w.pad); }
    ApplyNotes(cfg, env, w1, c);
    var r := Take(cfg, env, w, c);
    assert forall i :: 0 <= i < |w.log| ==> r.log[i] == w.log[i];
  }

  /** Every report of this log carries the mask of the commands up to it. */
  predicate Carried(log: seq<Entry>) {
    forall i {:trigger log[i]} :: 0 <= i < |log| ==> log[i].mods == MaskAfter(Cmds(log)[..i + 1])
  }

  lemma MasksAppend(log: seq<Entry>, more: seq<Entry>)
    requires |more| == |log| + 1 && more[..|log|] == log
    requires Carried(log) && more[|log|].mods == MaskAfter(Cmds(more))
    ensures Carried(more)
  {
    hide MaskAfter;
    forall i | 0 <= i < |more|
      ensures more[i].mods == MaskAfter(Cmds(more)[..i + 1])
    {
      if i < |log| {
        assert more[i] == log[i];
        assert Cmds(more)[..i + 1] == Cmds(log)[..i + 1];
      } else {
        assert Cmds(more)[..i + 1] == Cmds(more);
      }
    }
  }

  lemma GappedAppend(cfg: Config, log: seq<Entry>, more: seq<Entry>, last: nat)
    requires Gapped(cfg, log) && |more| == |log| + 1 && more[..|log|] == log
    requires forall i :: 0 <= i < |log| && IsReport(log[i].cmd) ==> log[i].done <= last && last != 0
    requires last != 0 ==> more[|log|].start >= last + GapFloor(cfg, more[|log|].cmd)
    ensures Gapped(cfg, more)
  {
    hide IsReport, GapFloor;
    assert forall i :: 0 <= i < |log| ==> more[i] == log[i];
  }

  lemma DweltAppend(cfg: Config, log: seq<Entry>, more: seq<Entry>)
    requires Dwelt(cfg, log) && |more| == |log| + 1 && more[..|log|] == log
    requires var e := more[|log|];
      IsRelease(e.cmd) && DownSince(log, DeviceOf(e.cmd)) != 0 ==>
        e.start >= DownSince(log, DeviceOf(e.cmd)) + HoldFloor(cfg, e.cmd)
    ensures Dwelt(cfg, more)
  {
    hide IsRelease, DeviceOf, HoldFloor, DownSince;
    forall j | 0 <= j < |more| && IsRelease(more[j].cmd) && DownSince(more[..j], DeviceOf(more[j].cmd)) != 0
      ensures more[j].start >= DownSince(more[..j], DeviceOf(more[j].cmd)) + HoldFloor(cfg, more[j].cmd)
    {
      if j < |log| {
        assert more[..j] == log[..j] && more[j] == log[j];
      }
    }
  }

  lemma StampedAppend(env: Env, w: World, r: World, e: Entry)
    requires Stamped(env, w) && Clock(env) && r.ticks >= w.ticks && Tables(r.pad)
    requires |r.log| == |w.log| + 1 && r.log[..|w.log|] == w.log && r.log[|w.log|] == e
    requires LastRead(env, w.ticks) <= e.start <= e.done == LastRead(env, r.ticks) && r.pad.waitSince == 0
    requires r.pad.reportLast == (if IsReport(e.cmd) then e.done else w.pad.reportLast) &&
      (IsReport(e.cmd) ==> e.done > 0)
    requires forall d ::
      DownStamp(r.pad, d) ==
        if e.cmd.verb == RELEASE then 0
        else if DeviceOf(e.cmd) == d && !d.NoDevice? then
          (if e.cmd.b != 0 then e.start else if e.cmd.verb == BTN then DownStamp(w.pad, d) else 0)
        else DownStamp(w.pad, d)
    ensures Stamped(env, r)
  {
    hide Clock, LastRead, IsReport, DeviceOf, DownStamp, Tables;
    ReadLater(env, w.ticks, r.ticks);
    assert LastReport(r.log) == r.pad.reportLast;
    forall i | 0 <= i < |r.log| &&
      IsReport(r.log[i].cmd) ensures r.log[i].done <= r.pad.reportLast && r.pad.reportLast != 0 {
      if i < |w.log| {
        assert r.log[i] == w.log[i];
      }
    }
  }

  lemma TakePaced(cfg: Config, env: Env, w: World, c: Cmd)
    requires Paced(cfg, env, w) && Clock(env) && w.queue != []
    requires w.pad.reportLast != 0 ==> LastRead(env, w.ticks) >= w.pad.reportLast + GapFloor(cfg, c)
    requires IsRelease(c) && DownStamp(w.pad, DeviceOf(c)) != 0 ==>
      LastRead(env, w.ticks) >= DownStamp(w.pad, DeviceOf(c)) + HoldFloor(cfg, c)
    ensures Paced(cfg, env, Take(cfg, env, w, c))
  {
    hide ApplyCmd, NewMask, Clock, LastRead, IsReport, Tables, Gapped, Dwelt, GapFloor,
      HoldFloor, DownStamp, DeviceOf, DownSince, LastReport;
    var w1 := w.(queue := w.queue[1..], pad := w.pad.(waitSince := 0));
    assert Tables(w1.pad) by { WaitTables(w.pad); }
    WaitStamps(w.pad);
    ApplyNotes(cfg, env, w1, c);
    ApplyKeeps(cfg, env, w1, c);
    var r := Take(cfg, env, w, c);
    var e := r.log[|w.log|];
    forall d: Device
      ensures DownStamp(r.pad, d) ==
        if e.cmd.verb == RELEASE then 0
        else if DeviceOf(e.cmd) == d && !d.NoDevice? then
          (if e.cmd.b != 0 then e.start else if e.cmd.verb == BTN then DownStamp(w.pad, d) else 0)
        else DownStamp(w.pad, d)
    {
      ApplyStamps(cfg, env, w1, c, d);
    }
    StampedAppend(env, w, r, e);
    GappedAppend(cfg, w.log, r.log, w.pad.reportLast);
    DweltAppend(cfg, w.log, r.log);
  }

  lemma WaitStamps(p: Pad)
    ensures forall d: Device :: DownStamp(p.(waitSince := 0), d) == DownStamp(p, d)
  {
  }

  // ---------------------------------------------------------- a pass, a run

  lemma CheckInv(cfg: Config, env: Env, w: World, c: Cmd)
    requires Inv(cfg, env, w) && Clock(env)
    ensures Inv(cfg, env, Check(cfg, env, w, c).w)
    ensures var v := Check(cfg, env, w, c);
      !v.held ==>
        (v.w.pad.reportLast != 0 ==> LastRead(env, v.w.ticks) >= v.w.pad.reportLast + GapFloor(cfg, c)) &&
        (IsRelease(c) && DownStamp(v.w.pad, DeviceOf(c)) != 0 ==>
           LastRead(env, v.w.ticks) >= DownStamp(v.w.pad, DeviceOf(c)) + HoldFloor(cfg, c))
  {
    hide Check, Clock, LastRead, GapFloor, HoldFloor, DeviceOf, Gapped, Dwelt, DownSince, LastReport;
    CheckKeeps(cfg, env, w, c);
    CheckMet(cfg, env, w, c);
    PacedSame(cfg, env, w, Check(cfg, env, w, c).w);
  }

  lemma TickInv(cfg: Config, env: Env, w: World)
    requires Inv(cfg, env, w) && Clock(env)
    ensures Inv(cfg, env, PtrTick(cfg, env, w))
  {
    hide PtrTick, Clock, LastRead, Gapped, Dwelt, DownSince, LastReport;
    TickKeeps(cfg, env, w);
    ReadLater(env, w.ticks, PtrTick(cfg, env, w).ticks);
    PacedSame(cfg, env, w, PtrTick(cfg, env, w));
  }

  lemma ArriveInv(cfg: Config, env: Env, w: World, batch: seq<Cmd>)
    requires Inv(cfg, env, w) && Clock(env)
    ensures Inv(cfg, env, Arrive(w, batch))
  {
    hide Arrive, Clock, LastRead, Gapped, Dwelt, DownSince, LastReport, Fifo;
    ArriveFifo(w, batch);
    PacedSame(cfg, env, w, Arrive(w, batch));
  }

  lemma ArriveAllInv(cfg: Config, env: Env, w: World, batches: seq<seq<Cmd>>)
    requires Inv(cfg, env, w) && Clock(env)
    ensures Inv(cfg, env, ArriveAll(w, batches))
  {
    hide ArriveAll, Clock, LastRead, Gapped, Dwelt, DownSince, LastReport, Fifo;
    ArriveAllFifo(w, batches);
    PacedSame(cfg, env, w, ArriveAll(w, batches));
  }

  lemma TakeInv(cfg: Config, env: Env, w: World, c: Cmd)
    requires Inv(cfg, env, w) && Clock(env) && w.queue != [] && c == w.queue[0]
    requires w.pad.reportLast != 0 ==> LastRead(env, w.ticks) >= w.pad.reportLast + GapFloor(cfg, c)
    requires IsRelease(c) && DownStamp(w.pad, DeviceOf(c)) != 0 ==>
      LastRead(env, w.ticks) >= DownStamp(w.pad, DeviceOf(c)) + HoldFloor(cfg, c)
    ensures Inv(cfg, env, Take(cfg, env, w, c))
  {
    hide Take, Clock, LastRead, Gapped, Dwelt, DownSince, LastReport, Fifo, Masks, DeviceOf, GapFloor, HoldFloor;
    TakeFifo(cfg, env, w, c);
    TakeMasks(cfg, env, w, c);
    TakeTimed(cfg, env, w, c);
    TakePaced(cfg, env, w, c);
  }

  lemma InvTables(cfg: Config, env: Env, w: World)
    requires Inv(cfg, env, w)
    ensures Tables(w.pad)
  {
  }

  lemma {:induction false} DrainInv(cfg: Config, env: Env, w: World, batches: seq<seq<Cmd>>)
    requires Inv(cfg, env, w) && Clock(env)
    ensures Tables(w.pad) && Inv(cfg, env, Drain(cfg, env, w, batches))
    decreases |w.queue| + Total(batches)
  {
    hide Inv, Take, Check, PtrTick, Clock, LastRead, GapFloor, HoldFloor, DeviceOf, Tables;
    InvTables(cfg, env, w);
    var w1, rest := Arrive(w, Batch(batches)), Later(batches);
    TotalIs(batches);
    TotalIs(rest);
    ArriveInv(cfg, env, w, Batch(batches));
    if w1.queue == [] {
      TickInv(cfg, env, w1);
      ArriveAllInv(cfg, env, PtrTick(cfg, env, w1), rest);
    } else {
      var c := w1.queue[0];
      var v := Check(cfg, env, w1, c);
      CheckInv(cfg, env, w1, c);
      CheckKeeps(cfg, env, w1, c);
      if v.held {
        TickInv(cfg, env, v.w);
        ArriveAllInv(cfg, env, PtrTick(cfg, env, v.w), rest);
      } else {
        var w2 := Arrive(v.w, Batch(rest));
        ArriveInv(cfg, env, v.w, Batch(rest));
        InvTables(cfg, env, w2);
        assert w2.queue[0] == c by { assert w2.queue[..|w1.queue|] == w1.queue; }
        TakeInv(cfg, env, w2, c);
        TakeTables(cfg, env, w2, c);
        DrainInv(cfg, env, Take(cfg, env, w2, c), Later(rest));
      }
    }
  }

  lemma {:induction false} RunInv(cfg: Config, env: Env, w: World, passes: seq<seq<seq<Cmd>>>)
    requires Inv(cfg, env, w) && Clock(env)
    ensures Tables(w.pad) && Inv(cfg, env, Run(cfg, env, w, passes))
    decreases |passes|
  {
    hide Inv, Drain, Tables, Clock;
    InvTables(cfg, env, w);
    if passes != [] {
      DrainInv(cfg, env, w, passes[0]);
      RunInv(cfg, env, Drain(cfg, env, w, passes[0]), passes[1..]);
    }
  }

  lemma StartInv(cfg: Config, env: Env, gx: int, gy: int)
    ensures Inv(cfg, env, Start(gx, gy))
  {
    var w := Start(gx, gy);
    assert Cmds(w.log) == [];
  }

  /** Every run from the start: a FIFO, the right masks, and both floors kept. */
  lemma EveryRun(cfg: Config, env: Env, gx: int, gy: int, passes: seq<seq<seq<Cmd>>>)
    requires Clock(env)
    ensures Tables(Start(gx, gy).pad)
    ensures var w := Run(cfg, env, Start(gx, gy), passes);
      w.accepted == Cmds(w.log) + w.queue && w.oks == Acks(Cmds(w.log)) && |w.queue| < QUEUE &&
      Masks(w) && Gapped(cfg, w.log) && Dwelt(cfg, w.log) && Timed(w.log)
  {
    hide Run, Clock, Masks, Gapped, Dwelt, Stamped, Start;
    StartInv(cfg, env, gx, gy);
    InvTables(cfg, env, Start(gx, gy));
    RunInv(cfg, env, Start(gx, gy), passes);
  }

  /** A deferred command carries the mask of the commands that arrived before it, not of a later time. */
  lemma ReportsCarryArrivalMask(cfg: Config, env: Env, gx: int, gy: int, passes: seq<seq<seq<Cmd>>>, i: nat)
    requires Clock(env) && Tables(Start(gx, gy).pad)
    requires i < |Run(cfg, env, Start(gx, gy), passes).log|
    ensures var w := Run(cfg, env, Start(gx, gy), passes);
      i < |w.accepted| && w.log[i].cmd == w.accepted[i] && w.log[i].mods == MaskAfter(w.accepted[..i + 1])
  {
    hide Run, Clock, Gapped, Dwelt, Start, MaskAfter, Acks;
    EveryRun(cfg, env, gx, gy, passes);
    var w := Run(cfg, env, Start(gx, gy), passes);
    assert Cmds(w.log)[..i + 1] == w.accepted[..i + 1];
    assert w.log[i].cmd == Cmds(w.log)[i];
  }
}

/** How long the floors and the pointer can hold the head of the queue back. */
module CtlWaiting {
  import opened CtlModel
  import opened CtlPacing

  /** The larger of the two floors of c; only a release has a hold floor. */
  function Floor(cfg: Config, c: Cmd): nat {
    if IsRelease(c) && HoldFloor(cfg, c) > GapFloor(cfg, c) then HoldFloor(cfg, c) else GapFloor(cfg, c)
  }

  /** c has been at the head since time t0, and the pointer has been waited for since waitSince. */
  ghost predicate Waiting(cfg: Config, env: Env, w: World, c: Cmd, t0: nat, delta: nat) {
    var now := LastRead(env, w.ticks);
    w.queue != [] && w.queue[0] == c && w.pad.reportLast <= t0 <= now && DownStamp(w.pad, DeviceOf(c)) <= t0 &&
    w.pad.waitSince <= t0 + Floor(cfg, c) + 2 * delta && w.pad.waitSince <= now &&
    now <= t0 + Floor(cfg, c) + delta + (if w.pad.waitSince == 0 then 0 else cfg.settle + 2 * delta)
  }

  /** Why a command is held: a floor counted from t0, or the pointer. */
  lemma HeldReason(cfg: Config, env: Env, w: World, c: Cmd, t0: nat)
    requires Clock(env) && t0 <= LastRead(env, w.ticks) && w.pad.reportLast <= t0 && DownStamp(w.pad, DeviceOf(c)) <= t0
    requires w.pad.waitSince <= LastRead(env, w.ticks) && Check(cfg, env, w, c).held
    ensures var v := Check(cfg, env, w, c);
      v.w.ticks > w.ticks && v.w.pad.waitSince <= LastRead(env, v.w.ticks) &&
      (w.pad.waitSince != 0 ==> v.w.pad.waitSince == w.pad.waitSince) &&
      (LastRead(env, w.ticks) < t0 + Floor(cfg, c) ||
       (v.w.pad.waitSince != 0 && LastRead(env, w.ticks) < v.w.pad.waitSince + cfg.settle))
  {
    hide CheckGap, CheckHold, CheckSettle, Clock, LastRead, GapFloor, HoldFloor, DownStamp, DeviceOf;
    var g := CheckGap(cfg, env, w, c);
    GapKeeps(cfg, env, w, c);
    GapReason(cfg, env, w, c);
    ReadLater(env, w.ticks, g.w.ticks);
    if g.held {
    } else {
      var h := CheckHold(cfg, env, g.w, c);
      HoldKeeps(cfg, env, g.w, c);
      HoldReason(cfg, env, g.w, c);
      ReadLater(env, g.w.ticks, h.w.ticks);
      if !h.held {
        SettleReason(cfg, env, h.w, c);
      }
    }
  }

  lemma GapReason(cfg: Config, env: Env, w: World, c: Cmd)
    requires Clock(env) && w.pad.reportLast <= LastRead(env, w.ticks)
    ensures CheckGap(cfg, env, w, c).held ==>
      CheckGap(cfg, env, w, c).w.ticks > w.ticks && LastRead(env, w.ticks) < w.pad.reportLast + GapFloor(cfg, c)
  {
    if w.pad.reportLast != 0 {
      GapMet(cfg, env, w, c);
      ReadLater(env, w.ticks, w.ticks + 1);
    }
  }

  lemma HoldReason(cfg: Config, env: Env, w: World, c: Cmd)
    requires Clock(env) && DownStamp(w.pad, DeviceOf(c)) <= LastRead(env, w.ticks)
    ensures CheckHold(cfg, env, w, c).held ==>
      IsRelease(c) && CheckHold(cfg, env, w, c).w.ticks > w.ticks &&
      LastRead(env, w.ticks) < DownStamp(w.pad, DeviceOf(c)) + HoldFloor(cfg, c)
  {
    hide DeviceOf;
    if IsRelease(c) && DownStamp(w.pad, DeviceOf(c)) != 0 {
      HoldMet(cfg, env, w, c);
      ReadLater(env, w.ticks, w.ticks + 1);
    }
  }

  lemma SettleReason(cfg: Config, env: Env, w: World, c: Cmd)
    requires Clock(env) && w.pad.waitSince <= LastRead(env, w.ticks)
    ensures var v := CheckSettle(cfg, env, w, c);
      v.held ==>
        v.w.ticks > w.ticks && v.w.pad.waitSince <= LastRead(env, v.w.ticks) && v.w.pad.waitSince != 0 &&
        (w.pad.waitSince != 0 ==> v.w.pad.waitSince == w.pad.waitSince) &&
        LastRead(env, w.ticks) < v.w.pad.waitSince + cfg.settle
  {
    hide UseTablet, Converged;
    ReadLater(env, w.ticks, w.ticks + 1);
    var now := env.clock(w.ticks);
    SinceIs(now, if w.pad.waitSince == 0 then now else w.pad.waitSince);
  }

  // ---------------------------------------------------------- passes

  lemma {:induction false} LogGrows(cfg: Config, env: Env, w: World, batches: seq<seq<Cmd>>)
    requires Tables(w.pad) && Clock(env)
    ensures |Drain(cfg, env, w, batches).log| >= |w.log|
    decreases |w.queue| + Total(batches)
  {
    hide Take, Check, PtrTick, Clock, Tables;
    var w1, rest := Arrive(w, Batch(batches)), Later(batches);
    TotalIs(batches);
    TotalIs(rest);
    TickKeeps(cfg, env, w1);
    if w1.queue != [] {
      var c := w1.queue[0];
      var v := Check(cfg, env, w1, c);
      CheckKeeps(cfg, env, w1, c);
      TickKeeps(cfg, env, v.w);
      CheckTables(cfg, env, w1, c);
      if !v.held {
        var w2 := Arrive(v.w, Batch(rest));
        TakeTables(cfg, env, w2, c);
        TakeLogs(cfg, env, w2, c);
        LogGrows(cfg, env, Take(cfg, env, w2, c), Later(rest));
      }
    }
  }

  lemma CheckTables(cfg: Config, env: Env, w: World, c: Cmd)
    requires Tables(w.pad)
    ensures Tables(Check(cfg, env, w, c).w.pad)
  {
    hide Check;
    CheckKeeps(cfg, env, w, c);
  }

  lemma TakeLogs(cfg: Config, env: Env, w: World, c: Cmd)
    requires Tables(w.pad) && Clock(env) && w.queue != []
    ensures |Take(cfg, env, w, c).log| == |w.log| + 1
  {
    hide ApplyCmd, Clock, Tables;
    var w1 := w.(queue := w.queue[1..], pad := w.pad.(waitSince := 0));
    assert Tables(w1.pad) by { WaitTables(w.pad); }
    ApplyNotes(cfg, env, w1, c);
  }

  /** A pass that leaves the log as it is leaves the head waiting. */
  lemma WaitingPass(cfg: Config, env: Env, w: World, batches: seq<seq<Cmd>>, c: Cmd, t0: nat, delta: nat)
    requires Tables(w.pad) && Clock(env) && Waiting(cfg, env, w, c, t0, delta)
    requires var r := Drain(cfg, env, w, batches);
      |r.log| == |w.log| && LastRead(env, r.ticks) <= LastRead(env, w.ticks) + delta
    ensures Waiting(cfg, env, Drain(cfg, env, w, batches), c, t0, delta)
  {
    hide Take, Check, PtrTick, Clock, Tables, LastRead, DownStamp, DeviceOf, Floor;
    var w1, rest := Arrive(w, Batch(batches)), Later(batches);
    assert w1.queue[0] == c by { assert w1.queue[..|w.queue|] == w.queue; }
    var v := Check(cfg, env, w1, c);
    CheckKeeps(cfg, env, w1, c);
    CheckTables(cfg, env, w1, c);
    if !v.held {
      var w2 := Arrive(v.w, Batch(rest));
      TakeTables(cfg, env, w2, c);
      TakeLogs(cfg, env, w2, c);
      LogGrows(cfg, env, Take(cfg, env, w2, c), Later(rest));
      assert false;
    } else {
      HeldReason(cfg, env, w1, c, t0);
      TickKeeps(cfg, env, v.w);
      var r1 := PtrTick(cfg, env, v.w);
      ReadLater(env, v.w.ticks, r1.ticks);
      ReadLater(env, w.ticks, v.w.ticks);
      ArriveAllQueue(r1, rest);
      SameStamps(r1.pad, w.pad);
    }
  }

  lemma SameStamps(p: Pad, q: Pad)
    requires p.btnDown == q.btnDown && p.keyDown == q.keyDown && p.modDown == q.modDown
    ensures forall d: Device :: DownStamp(p, d) == DownStamp(q, d)
  {
  }

  lemma {:induction false} ArriveAllQueue(w: World, batches: seq<seq<Cmd>>)
    requires w.queue != []
    ensures ArriveAll(w, batches).queue != [] && ArriveAll(w, batches).queue[0] == w.queue[0]
    decreases |batches|
  {
    if batches != [] {
      var r := Arrive(w, batches[0]);
      assert r.queue[0] == w.queue[0] by { assert r.queue[..|w.queue|] == w.queue; }
      ArriveAllQueue(r, batches[1..]);
    }
  }

  /** Each pass ends at most delta after the one before. */
  ghost predicate Steady(cfg: Config, env: Env, w: World, passes: seq<seq<seq<Cmd>>>, delta: nat)
    requires Tables(w.pad)
    decreases |passes|
  {
    passes == [] ||
    (LastRead(env, Drain(cfg, env, w, passes[0]).ticks) <= LastRead(env, w.ticks) + delta &&
     Steady(cfg, env, Drain(cfg, env, w, passes[0]), passes[1..], delta))
  }

  lemma {:induction false} RunGrows(cfg: Config, env: Env, w: World, passes: seq<seq<seq<Cmd>>>)
    requires Tables(w.pad) && Clock(env)
    ensures |Run(cfg, env, w, passes).log| >= |w.log|
    decreases |passes|
  {
    hide Drain, Tables, Clock;
    if passes != [] {
      LogGrows(cfg, env, w, passes[0]);
      RunGrows(cfg, env, Drain(cfg, env, w, passes[0]), passes[1..]);
    }
  }

  lemma {:induction false} WaitingRun(cfg: Config, env: Env, w: World,
    passes: seq<seq<seq<Cmd>>>, c: Cmd, t0: nat, delta: nat)
    requires Tables(w.pad) && Clock(env) && Waiting(cfg, env, w, c, t0, delta) && Steady(cfg, env, w, passes, delta)
    requires |Run(cfg, env, w, passes).log| == |w.log|
    ensures Waiting(cfg, env, Run(cfg, env, w, passes), c, t0, delta)
    decreases |passes|
  {
    hide Drain, Tables, Clock, Waiting;
    if passes != [] {
      LogGrows(cfg, env, w, passes[0]);
      RunGrows(cfg, env, Drain(cfg, env, w, passes[0]), passes[1..]);
      WaitingPass(cfg, env, w, passes[0], c, t0, delta);
      WaitingRun(cfg, env, Drain(cfg, env, w, passes[0]), passes[1..], c, t0, delta);
    }
  }

  /** A command at the head at time t0 is applied within the larger floor plus the settle window, give or
      take three times the distance of two passes, whatever else arrives. */
  lemma HeldBounded(cfg: Config, env: Env, gx: int, gy: int, before: seq<seq<seq<Cmd>>>,
    after: seq<seq<seq<Cmd>>>, delta: nat)
    requires Clock(env) && Tables(Start(gx, gy).pad)
    requires var w := Run(cfg, env, Start(gx, gy), before);
      w.queue != [] && Steady(cfg, env, w, after, delta) && |Run(cfg, env, w, after).log| == |w.log|
    ensures var w := Run(cfg, env, Start(gx, gy), before);
      var r := Run(cfg, env, w, after);
      r.queue != [] && r.queue[0] == w.queue[0] &&
      LastRead(env, r.ticks) <= LastRead(env, w.ticks) + Floor(cfg, w.queue[0]) + cfg.settle + 3 * delta
  {
    hide Run, Drain, Tables, Clock, Start, LastRead, Floor, DownStamp, DeviceOf, Steady, Fifo, Masks, Gapped, Dwelt;
    StartInv(cfg, env, gx, gy);
    RunInv(cfg, env, Start(gx, gy), before);
    var w := Run(cfg, env, Start(gx, gy), before);
    var c, t0 := w.queue[0], LastRead(env, w.ticks);
    assert DownStamp(w.pad, DeviceOf(c)) <= t0;
    assert Waiting(cfg, env, w, c, t0, delta);
    WaitingRun(cfg, env, w, after, c, t0, delta);
  }
}
