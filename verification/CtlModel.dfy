/**
 The input injector of src/ctlsock.c on values: the command queue, the floors that hold its head
 back, what applying a command sends to the guest, and the dead-reckoned pointer.  Class Injector in
 module CtlSock keeps the same state in a ring and in arrays, and is proved equal to this model.

 The clock and the answer to "is the tablet enabled" are functions of how often they were asked.
 */
module CtlModel {
  import opened Numbers

  const QUEUE := 256

  datatype Verb = NOP | MOVEA | MOVEP | BTN | KEY | MOD | RELEASE | NET | FBSYNC

  /** seqno 0 is not acknowledged. */
  datatype Cmd = Cmd(seqno: nat, verb: Verb, a: int, b: int)

  datatype Route = AUTO | TABLET | KMS

  /** All times in milliseconds. */
  datatype Config = Config(route: Route, step: nat, settle: nat, rate: nat, btnHold: nat, btnGap: nat,
                           keyHold: nat, keyGap: nat, width: nat, height: nat)

  predicate Configured(cfg: Config) {
    1 <= cfg.step <= 63 && cfg.width > 0 && cfg.height > 0
  }

  datatype Env = Env(clock: nat -> nat, tablet: nat -> bool)

  /** SDL_GetTicks never runs backwards and is not zero when the injector runs. */
  ghost predicate Clock(env: Env) {
    forall i, j :: 0 <= i <= j ==> 0 < env.clock(i) <= env.clock(j) < U64
  }

  datatype Pad = Pad(
    mods: bv8, left: int, right: int,
    tgtX: int, tgtY: int, curX: int, curY: int, homed: bool, haveTarget: bool, homeLeft: nat,
    waitSince: nat, lastReport: nat, reportLast: nat,
    btnDown: seq<nat>, keyDown: seq<nat>, modDown: seq<nat>)

  predicate Tables(p: Pad) {
    |p.btnDown| == 4 && |p.keyDown| == 256 && |p.modDown| == 8
  }

  /** One applied command: the modifier mask sent with it, the last clock reading before it was sent
      and the first one after. */
  datatype Entry = Entry(cmd: Cmd, mods: bv8, start: nat, done: nat)

  /** ticks and looks count the clock readings and the tablet queries; gx, gy is where the guest's
      pointer is; oks the acknowledgements; accepted and rejected what the producer offered. */
  datatype World = World(queue: seq<Cmd>, pad: Pad, ticks: nat, looks: nat, gx: int, gy: int,
                         log: seq<Entry>, oks: seq<nat>, accepted: seq<Cmd>, rejected: seq<Cmd>)

  // ---------------------------------------------------------- the producer

  /** ctl_push: a full ring rejects. */
  function Push(w: World, c: Cmd): World {
    if |w.queue| < QUEUE - 1 then w.(queue := w.queue + [c], accepted := w.accepted + [c])
    else w.(rejected := w.rejected + [c])
  }

  function Arrive(w: World, batch: seq<Cmd>): (r: World)
    ensures |r.queue| <= |w.queue| + |batch| && |w.queue| <= |r.queue| && r.queue[..|w.queue|] == w.queue
    ensures r == w.(queue := r.queue, accepted := r.accepted, rejected := r.rejected)
    decreases |batch|
  {
    if batch == [] then w else Arrive(Push(w, batch[0]), batch[1..])
  }

  // ---------------------------------------------------------- the floors

  /** An unsigned 64-bit difference. */
  function Since(now: nat, t: nat): nat {
    (now - t) % U64
  }

  function LastRead(env: Env, ticks: nat): nat {
    if ticks == 0 then 0 else env.clock(ticks - 1)
  }

  predicate IsReport(c: Cmd) {
    c.verb == KEY || c.verb == MOD || c.verb == RELEASE || (c.verb == BTN && c.a != 3)
  }

  function GapFloor(cfg: Config, c: Cmd): nat {
    match c.verb
    case KEY => cfg.keyGap
    case MOD => cfg.keyGap
    case RELEASE => cfg.keyGap
    case BTN => if c.a != 3 then cfg.btnGap else 0
    case _ => 0
  }

  function ModIndex(bit: bv8): (i: nat)
    ensures i < 8
  {
    if bit & 1 != 0 then 0 else if bit & 2 != 0 then 1 else if bit & 4 != 0 then 2 else if bit & 8 != 0 then 3
    else if bit & 16 != 0 then 4 else if bit & 32 != 0 then 5 else if bit & 64 != 0 then 6
    else if bit & 128 != 0 then 7 else 0
  }

  function Byte(a: int): bv8 {
    (a % 256) as bv8
  }

  /** What a press and its release have in common. */
  datatype Device = Button(n: nat) | Key(code: nat) | Modifier(index: nat) | NoDevice

  function DeviceOf(c: Cmd): Device {
    match c.verb
    case BTN => if 1 <= c.a <= 3 then Button(c.a) else NoDevice
    case KEY => Key(c.a % 256)
    case MOD => Modifier(ModIndex(Byte(c.a)))
    case _ => NoDevice
  }

  function HoldFloor(cfg: Config, c: Cmd): nat {
    if c.verb == BTN then cfg.btnHold else cfg.keyHold
  }

  /** When the device went down, as the injector remembers it. */
  function DownStamp(p: Pad, d: Device): nat {
    match d
    case Button(n) => if n < |p.btnDown| then p.btnDown[n] else 0
    case Key(n) => if n < |p.keyDown| then p.keyDown[n] else 0
    case Modifier(n) => if n < |p.modDown| then p.modDown[n] else 0
    case NoDevice => 0
  }

  datatype Verdict = Verdict(held: bool, w: World)

  function CheckGap(cfg: Config, env: Env, w: World, c: Cmd): Verdict {
    if GapFloor(cfg, c) > 0 && w.pad.reportLast != 0 then
      Verdict(Since(env.clock(w.ticks), w.pad.reportLast) < GapFloor(cfg, c), w.(ticks := w.ticks + 1))
    else Verdict(false, w)
  }

  /** A release waits for its own press. */
  function CheckHold(cfg: Config, env: Env, w: World, c: Cmd): Verdict {
    var down := DownStamp(w.pad, DeviceOf(c));
    if c.b != 0 || DeviceOf(c).NoDevice? || HoldFloor(cfg, c) == 0 ||
      (down == 0 && c.verb != BTN) then Verdict(false, w)
    else Verdict(down != 0 && Since(env.clock(w.ticks), down) < HoldFloor(cfg, c), w.(ticks := w.ticks + 1))
  }

  predicate UseTablet(cfg: Config, env: Env, w: World) {
    match cfg.route
    case AUTO => env.tablet(w.looks)
    case TABLET => true
    case KMS => false
  }

  predicate Converged(p: Pad) {
    !p.haveTarget || (p.homed && p.homeLeft == 0 && p.curX == p.tgtX && p.curY == p.tgtY)
  }

  function Look(w: World): World {
    w.(looks := w.looks + 1)
  }

  /** A button edge waits for the pointer, for a bounded time. */
  function CheckSettle(cfg: Config, env: Env, w: World, c: Cmd): Verdict {
    if c.verb != BTN then Verdict(false, w)
    else if UseTablet(cfg, env, w) || Converged(w.pad) then Verdict(false, Look(w))
    else
      var now := env.clock(w.ticks);
      var since := if w.pad.waitSince == 0 then now else w.pad.waitSince;
      Verdict(Since(now, since) < cfg.settle, Look(w).(ticks := w.ticks + 1, pad := w.pad.(waitSince := since)))
  }

  /** Is the head of the queue held back in this pass? */
  function Check(cfg: Config, env: Env, w: World, c: Cmd): Verdict {
    var g := CheckGap(cfg, env, w, c);
    if g.held then g
    else
      var h := CheckHold(cfg, env, g.w, c);
      if h.held then h else CheckSettle(cfg, env, h.w, c)
  }

  // ---------------------------------------------------------- applying

  function Clamp(v: int, lo: int, hi: int): int {
    if v < lo then lo else if v > hi then hi else v
  }

  /** A relative report of at most 63 counts an axis; the guest adds it and stops at the edges. */
  function MouseMove(cfg: Config, w: World, dx: int, dy: int): World {
    w.(gx := Clamp(w.gx + Clamp(dx, -63, 63), 0, cfg.width - 1),
      gy := Clamp(w.gy + Clamp(dy, -63, 63), 0, cfg.height - 1))
  }

  function Slams(cfg: Config): nat {
    (if cfg.width > cfg.height then cfg.width else cfg.height) / 63 + 2
  }

  function MoveAbs(cfg: Config, env: Env, w: World, c: Cmd): World {
    var p := w.pad.(tgtX := Clamp(c.a, 0, cfg.width - 1), tgtY := Clamp(c.b, 0, cfg.height - 1), haveTarget := true);
    if UseTablet(cfg, env, w) then
      Look(w).(pad := p.(curX := p.tgtX, curY := p.tgtY), gx := p.tgtX, gy := p.tgtY)
    else if !p.homed && p.homeLeft == 0 then Look(w).(pad := p.(homeLeft := Slams(cfg)))
    else Look(w).(pad := p)
  }

  function MoveRel(cfg: Config, env: Env, w: World, c: Cmd): World {
    if UseTablet(cfg, env, w) then Look(w)
    else
      var x, y := Clamp(w.pad.curX + c.a, 0, cfg.width - 1), Clamp(w.pad.curY + c.b, 0, cfg.height - 1);
      MouseMove(cfg, Look(w).(pad := w.pad.(curX := x, curY := y, tgtX := x, tgtY := y)), c.a, c.b)
  }

  /** The press or release as the dwell tables, the mask and the levels remember it; t is the time of a press. */
  function Edge(p: Pad, c: Cmd, t: nat): Pad
    requires Tables(p)
  {
    match c.verb
    case BTN =>
      p.(btnDown := if c.b != 0 && 1 <= c.a <= 3 then p.btnDown[c.a := t] else p.btnDown,
         left := if c.a == 1 then c.b else p.left, right := if c.a == 2 then c.b else p.right)
    case KEY => p.(keyDown := p.keyDown[c.a % 256 := if c.b != 0 then t else 0])
    case MOD =>
      p.(modDown := p.modDown[ModIndex(Byte(c.a)) := if c.b != 0 then t else 0], mods := NewMask(p.mods, c))
    case RELEASE =>
      p.(mods := 0, left := 0, right := 0, keyDown := seq(256, _ => 0), modDown := seq(8, _ => 0),
        btnDown := seq(4, _ => 0))
    case _ => p
  }

  /** The modifier mask after one command. */
  function NewMask(m: bv8, c: Cmd): bv8 {
    match c.verb
    case MOD => if c.b != 0 then m | Byte(c.a) else m & !Byte(c.a)
    case RELEASE => 0
    case _ => m
  }

  predicate ReadsPress(c: Cmd) {
    c.b != 0 && !DeviceOf(c).NoDevice?
  }

  /** ctl_apply: a press ticks the clock before it is sent, and every report after. */
  function ApplyCmd(cfg: Config, env: Env, w: World, c: Cmd): World
    requires Tables(w.pad)
  {
    if c.verb == MOVEA then Note(env, MoveAbs(cfg, env, w, c), c, w.ticks)
    else if c.verb == MOVEP then Note(env, MoveRel(cfg, env, w, c), c, w.ticks)
    else
      var sent := if ReadsPress(c) then w.ticks + 1 else w.ticks;
      var p := Edge(w.pad, c, env.clock(w.ticks));
      if IsReport(c) then
        var l := if c.verb == BTN then Look(w) else w;
        Note(env, l.(pad := p.(reportLast := env.clock(sent)), ticks := sent + 1), c, sent)
      else Note(env, w.(pad := p, ticks := sent), c, sent)
  }

  /** The command was sent when `sent` clock readings had been taken. */
  function Note(env: Env, w: World, c: Cmd, sent: nat): World {
    w.(log := w.log + [Entry(c, w.pad.mods, LastRead(env, sent), LastRead(env, w.ticks))])
  }

  /** ctl_reply */
  function Reply(w: World, c: Cmd): World {
    if c.seqno == 0 then w else w.(oks := w.oks + [c.seqno])
  }

  // ---------------------------------------------------------- the pointer

  /** Where one tick of the dead reckoning engine brings an unconverged pointer. */
  function Move(cfg: Config, w: World): World {
    var p := w.pad;
    if p.homeLeft > 0 then
      var p1 := p.(homeLeft := p.homeLeft - 1);
      MouseMove(cfg, w.(pad := if p.homeLeft == 1 then p1.(curX := 0, curY := 0, homed := true) else p1), -63, -63)
    else
      var dx := Clamp(p.tgtX - p.curX, -(cfg.step as int), cfg.step);
      var dy := Clamp(p.tgtY - p.curY, -(cfg.step as int), cfg.step);
      if dx == 0 && dy == 0 then w
      else MouseMove(cfg, w.(pad := p.(curX := p.curX + dx, curY := p.curY + dy)), dx, dy)
  }

  /** Does the rate limit let this tick report? */
  predicate Effective(cfg: Config, env: Env, w: World) {
    cfg.rate == 0 || Since(env.clock(w.ticks), w.pad.lastReport) >= cfg.rate
  }

  function Limit(cfg: Config, env: Env, w: World): World {
    if cfg.rate == 0 then w
    else if !Effective(cfg, env, w) then w.(ticks := w.ticks + 1)
    else w.(ticks := w.ticks + 1, pad := w.pad.(lastReport := env.clock(w.ticks)))
  }

  /** ctl_ptr_tick */
  function PtrTick(cfg: Config, env: Env, w: World): World {
    if UseTablet(cfg, env, w) then Look(w)
    else if UseTablet(cfg, env, Look(w)) || Converged(w.pad) then Look(Look(w))
    else if !Effective(cfg, env, w) then Limit(cfg, env, Look(Look(w)))
    else Move(cfg, Limit(cfg, env, Look(Look(w))))
  }

  // ---------------------------------------------------------- a drain pass

  /** batches[k] is what the producer pushes before the consumer takes the lock for the k-th time. */
  function Batch(batches: seq<seq<Cmd>>): seq<Cmd> {
    if batches == [] then [] else batches[0]
  }

  function Later(batches: seq<seq<Cmd>>): seq<seq<Cmd>> {
    if batches == [] then [] else batches[1..]
  }

  function Total(batches: seq<seq<Cmd>>): nat {
    if batches == [] then 0 else |batches[0]| + Total(batches[1..])
  }

  lemma TotalIs(batches: seq<seq<Cmd>>)
    ensures Total(batches) == |Batch(batches)| + Total(Later(batches))
  {
  }

  function ArriveAll(w: World, batches: seq<seq<Cmd>>): (r: World)
    ensures r == w.(queue := r.queue, accepted := r.accepted, rejected := r.rejected)
    decreases |batches|
  {
    if batches == [] then w else ArriveAll(Arrive(w, batches[0]), batches[1..])
  }

  /** The head leaves the queue and is applied and acknowledged. */
  function Take(cfg: Config, env: Env, w: World, c: Cmd): World
    requires Tables(w.pad) && w.queue != []
  {
    Reply(ApplyCmd(cfg, env, w.(queue := w.queue[1..], pad := w.pad.(waitSince := 0)), c), c)
  }

  lemma EdgeTables(p: Pad, c: Cmd, t: nat)
    requires Tables(p)
    ensures Tables(Edge(p, c, t))
  {
    hide ModIndex, Byte, NewMask;
  }

  /** What applying a command leaves alone. */
  lemma ApplyKeeps(cfg: Config, env: Env, w: World, c: Cmd)
    requires Tables(w.pad)
    ensures var r := ApplyCmd(cfg, env, w, c);
      Tables(r.pad) && r.queue == w.queue && r.accepted == w.accepted && r.rejected == w.rejected && r.oks == w.oks
  {
    hide DeviceOf, Edge, Clamp, UseTablet;
    EdgeTables(w.pad, c, env.clock(w.ticks));
  }

  lemma TakeTables(cfg: Config, env: Env, w: World, c: Cmd)
    requires Tables(w.pad) && w.queue != []
    ensures Tables(Take(cfg, env, w, c).pad) && Take(cfg, env, w, c).queue == w.queue[1..]
  {
    hide ModIndex, Byte, NewMask, ApplyCmd;
    ApplyKeeps(cfg, env, w.(queue := w.queue[1..], pad := w.pad.(waitSince := 0)), c);
  }

  lemma GapKeeps(cfg: Config, env: Env, w: World, c: Cmd)
    ensures var v := CheckGap(cfg, env, w, c); v.w == w.(ticks := v.w.ticks) && v.w.ticks >= w.ticks
  {
  }

  lemma HoldKeeps(cfg: Config, env: Env, w: World, c: Cmd)
    ensures var v := CheckHold(cfg, env, w, c); v.w == w.(ticks := v.w.ticks) && v.w.ticks >= w.ticks
  {
    hide ModIndex, Byte;
  }

  lemma SettleKeeps(cfg: Config, env: Env, w: World, c: Cmd)
    ensures var v := CheckSettle(cfg, env, w, c);
      v.w == w.(ticks := v.w.ticks, looks := v.w.looks, pad := w.pad.(waitSince := v.w.pad.waitSince)) &&
      v.w.ticks >= w.ticks
  {
    hide Converged, UseTablet;
  }

  lemma CheckKeeps(cfg: Config, env: Env, w: World, c: Cmd)
    ensures var v := Check(cfg, env, w, c);
      v.w == w.(ticks := v.w.ticks, looks := v.w.looks, pad := w.pad.(waitSince := v.w.pad.waitSince)) &&
      v.w.ticks >= w.ticks
  {
    hide CheckGap, CheckHold, CheckSettle;
    var g := CheckGap(cfg, env, w, c);
    GapKeeps(cfg, env, w, c);
    HoldKeeps(cfg, env, g.w, c);
    SettleKeeps(cfg, env, CheckHold(cfg, env, g.w, c).w, c);
  }

  lemma TickKeeps(cfg: Config, env: Env, w: World)
    ensures var r := PtrTick(cfg, env, w);
      r == w.(ticks := r.ticks, looks := r.looks, gx := r.gx, gy := r.gy,
              pad := w.pad.(curX := r.pad.curX, curY := r.pad.curY, homed := r.pad.homed, homeLeft := r.pad.homeLeft,
                            lastReport := r.pad.lastReport)) &&
      r.ticks >= w.ticks
  {
    hide Clamp, UseTablet, Since;
  }

  /** CtlSock_Drain; batches the pass does not come to arrive before the next one. */
  function Drain(cfg: Config, env: Env, w: World, batches: seq<seq<Cmd>>): (r: World)
    requires Tables(w.pad)
    ensures Tables(r.pad)
    decreases |w.queue| + Total(batches)
  {
    hide Check, Take, PtrTick;
    var w1, rest := Arrive(w, Batch(batches)), Later(batches);
    TotalIs(batches);
    TotalIs(rest);
    TickKeeps(cfg, env, w1);
    if w1.queue == [] then ArriveAll(PtrTick(cfg, env, w1), rest)
    else
      var c := w1.queue[0];
      CheckKeeps(cfg, env, w1, c);
      var v := Check(cfg, env, w1, c);
      TickKeeps(cfg, env, v.w);
      if v.held then ArriveAll(PtrTick(cfg, env, v.w), rest)
      else
        var w2 := Arrive(v.w, Batch(rest));
        TakeTables(cfg, env, w2, c);
        Drain(cfg, env, Take(cfg, env, w2, c), Later(rest))
  }

  /** A run of the program: one drain pass after the other. */
  function Run(cfg: Config, env: Env, w: World, passes: seq<seq<seq<Cmd>>>): (r: World)
    requires Tables(w.pad)
    ensures Tables(r.pad)
    decreases |passes|
  {
    if passes == [] then w else Run(cfg, env, Drain(cfg, env, w, passes[0]), passes[1..])
  }

  /** The state CtlSock_Init leaves, for a guest pointer anywhere. */
  function Start(gx: int, gy: int): World {
    World([], Pad(0, 0, 0, 0, 0, 0, 0, false, false, 0, 0, 0, 0,
                  seq(4, _ => 0), seq(256, _ => 0), seq(8, _ => 0)), 0, 0, gx, gy, [], [], [], [])
  }
}
