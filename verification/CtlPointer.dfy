/** The dead-reckoned pointer of src/ctlsock.c, on either route, against a guest that adds counts and stops
    at the edges of the screen. */
module CtlPointer {
  import opened Numbers
  import opened CtlModel

  function Abs(x: int): nat {
    if x < 0 then -x else x
  }

  function Max(x: int, y: int): int {
    if x > y then x else y
  }

  /** n counts at most `step` at a time. */
  function Steps(n: nat, step: nat): nat
    requires step > 0
  {
    (n + step - 1) / step
  }

  lemma StepsLess(n: nat, step: nat)
    requires step > 0 && n > 0
    ensures Steps(n, step) > 0
    ensures Steps(if n > step then n - step else 0, step) == Steps(n, step) - 1
  {
    if n > step {
      Quotients(n - 1, n - 1, step);
    } else {
      Quotient(n + step - 1, step, 1);
      Quotient(step - 1, step, 0);
    }
  }

  lemma StepsMonotone(m: nat, n: nat, step: nat)
    requires step > 0
    ensures m <= n ==> Steps(m, step) <= Steps(n, step)
  {
    if m <= n {
      Quotients(m + step - 1, n + step - 1, step);
    }
  }

  predicate OnScreen(cfg: Config, x: int, y: int) {
    0 <= x < cfg.width && 0 <= y < cfg.height
  }

  /** The believed position is the guest's, once homed and where a tablet move has put it; while the slams go on,
      those still to send are enough. */
  predicate Believed(cfg: Config, w: World) {
    var p := w.pad;
    OnScreen(cfg, w.gx, w.gy) && (p.haveTarget ==> OnScreen(cfg, p.tgtX, p.tgtY)) && (p.homed ==> p.homeLeft == 0) &&
    (p.homeLeft > 0 ==> w.gx <= 63 * p.homeLeft && w.gy <= 63 * p.homeLeft) &&
    (Placed(p) ==> p.curX == w.gx && p.curY == w.gy) &&
    (Placed(p) && !p.homed ==> p.tgtX == p.curX && p.tgtY == p.curY)
  }

  /** The pointer has been brought somewhere, by homing or by the tablet. */
  predicate Placed(p: Pad) {
    p.homed || (p.haveTarget && p.homeLeft == 0)
  }

  /** The origin is known, or the slams that find it are under way. */
  predicate Grounded(p: Pad) {
    p.haveTarget ==> p.homed || p.homeLeft > 0
  }

  /** How many reports it takes to converge. */
  function Ticks(cfg: Config, p: Pad): nat
    requires cfg.step > 0
  {
    if !p.haveTarget then 0
    else if p.homed then Steps(Max(Abs(p.tgtX - p.curX), Abs(p.tgtY - p.curY)), cfg.step)
    else p.homeLeft + Steps(Max(Abs(p.tgtX), Abs(p.tgtY)), cfg.step)
  }

  lemma TicksZero(cfg: Config, w: World)
    requires Configured(cfg) && Believed(cfg, w) && Grounded(w.pad)
    ensures Ticks(cfg, w.pad) == 0 <==> Converged(w.pad)
    ensures Ticks(cfg, w.pad) == 0 && w.pad.haveTarget ==> w.gx == w.pad.tgtX && w.gy == w.pad.tgtY
  {
    var n := Max(Abs(w.pad.tgtX - w.pad.curX), Abs(w.pad.tgtY - w.pad.curY));
    if n > 0 {
      StepsLess(n, cfg.step);
    }
  }

  /** One axis of one report: believed and guest move alike, and the distance shrinks by a full step or to nothing. */
  lemma AxisStep(cur: int, tgt: int, step: nat, width: nat)
    requires 1 <= step <= 63 && 0 <= cur < width && 0 <= tgt < width
    ensures var d := Clamp(tgt - cur, -(step as int), step);
      Clamp(cur + Clamp(d, -63, 63), 0, width - 1) == cur + d && 0 <= cur + d < width && (d == 0 <==> cur == tgt) &&
      Abs(tgt - (cur + d)) == (if Abs(tgt - cur) > step then Abs(tgt - cur) - step else 0)
  {
  }

  lemma ReckonStep(cfg: Config, w: World)
    requires Configured(cfg) && Believed(cfg, w) && w.pad.homed && w.pad.haveTarget && !Converged(w.pad)
    ensures var r, p := Move(cfg, w), w.pad;
      var n := Max(Abs(p.tgtX - p.curX), Abs(p.tgtY - p.curY));
      Believed(cfg, r) && r.pad.homed && r.pad.haveTarget && n > 0 &&
      Max(Abs(r.pad.tgtX - r.pad.curX), Abs(r.pad.tgtY - r.pad.curY)) == if n > cfg.step then n - cfg.step else 0
  {
    hide Clamp;
    AxisStep(w.pad.curX, w.pad.tgtX, cfg.step, cfg.width);
    AxisStep(w.pad.curY, w.pad.tgtY, cfg.step, cfg.height);
  }

  /** One effective report brings the pointer exactly one report closer and keeps the belief. */
  lemma MoveCloser(cfg: Config, w: World)
    requires Configured(cfg) && Believed(cfg, w) && Grounded(w.pad) && !Converged(w.pad)
    ensures Believed(cfg, Move(cfg, w)) && Grounded(Move(cfg, w).pad) && Ticks(cfg, w.pad) > 0
    ensures Ticks(cfg, Move(cfg, w).pad) == Ticks(cfg, w.pad) - 1
  {
    hide Move, Steps;
    var p := w.pad;
    if p.homeLeft > 0 {
      HomeStep(cfg, w);
    } else {
      ReckonStep(cfg, w);
      StepsLess(Max(Abs(p.tgtX - p.curX), Abs(p.tgtY - p.curY)), cfg.step);
    }
  }

  lemma HomeStep(cfg: Config, w: World)
    requires Configured(cfg) && Believed(cfg, w) && w.pad.homeLeft > 0
    ensures Believed(cfg, Move(cfg, w)) && Grounded(Move(cfg, w).pad) && Move(cfg, w).pad.homeLeft == w.pad.homeLeft - 1
    ensures Move(cfg, w).pad.homed == (w.pad.homeLeft == 1) && Move(cfg, w).pad.haveTarget == w.pad.haveTarget
    ensures w.pad.haveTarget ==> Ticks(cfg, Move(cfg, w).pad) == Ticks(cfg, w.pad) - 1
  {
  }

  // ---------------------------------------------------------- commands

  lemma SlamsEnough(cfg: Config)
    requires Configured(cfg)
    ensures 63 * Slams(cfg) >= cfg.width + 64 && 63 * Slams(cfg) >= cfg.height + 64
  {
    var m := if cfg.width > cfg.height then cfg.width else cfg.height;
    assert 63 * (m / 63) >= m - 62;
  }

  /** Before the origin is known a tablet move must stay where the slams still to send can bring the guest home. */
  predicate WithinSlams(cfg: Config, w: World, x: int, y: int) {
    w.pad.homeLeft > 0 ==> x <= 63 * w.pad.homeLeft && y <= 63 * w.pad.homeLeft
  }

  /** The 63 counts a report can carry make no difference after the stop at the edges. */
  predicate CarriesAll(cfg: Config, w: World, dx: int, dy: int) {
    Clamp(w.pad.curX + dx, 0, cfg.width - 1) == Clamp(w.pad.curX + Clamp(dx, -63, 63), 0, cfg.width - 1) &&
    Clamp(w.pad.curY + dy, 0, cfg.height - 1) == Clamp(w.pad.curY + Clamp(dy, -63, 63), 0, cfg.height - 1)
  }

  /** What a motion command must meet for the belief to survive it. */
  predicate Safe(cfg: Config, env: Env, w: World, c: Cmd) {
    match c.verb
    case MOVEA => UseTablet(cfg, env, w) ==>
      WithinSlams(cfg, w, Clamp(c.a, 0, cfg.width - 1), Clamp(c.b, 0, cfg.height - 1))
    case MOVEP =>
      UseTablet(cfg, env, w) ||
      (var r := MouseMove(cfg, w, c.a, c.b);
       (Placed(w.pad) ==> CarriesAll(cfg, w, c.a, c.b)) && WithinSlams(cfg, w, r.gx, r.gy))
    case _ => true
  }

  /** On the mouse route every absolute move keeps the belief, on the tablet route those within reach of the slams. */
  lemma MoveAbsBelievedIff(cfg: Config, env: Env, w: World, c: Cmd)
    requires Configured(cfg) && Believed(cfg, w) && c.verb == MOVEA
    ensures Believed(cfg, MoveAbs(cfg, env, w, c)) <==> Safe(cfg, env, w, c)
    ensures !UseTablet(cfg, env, w) ==> Grounded(MoveAbs(cfg, env, w, c).pad)
  {
    hide Slams;
    SlamsEnough(cfg);
  }

  /** A relative move keeps the belief exactly when the truncation to 63 counts makes no difference at the edges
      and the slams still to send stay enough. */
  lemma MoveRelBelievedIff(cfg: Config, env: Env, w: World, c: Cmd)
    requires Configured(cfg) && Believed(cfg, w) && c.verb == MOVEP
    ensures Believed(cfg, MoveRel(cfg, env, w, c)) <==> Safe(cfg, env, w, c)
    ensures w.pad.homed && -63 <= c.a <= 63 && -63 <= c.b <= 63 ==> Safe(cfg, env, w, c)
  {
    hide UseTablet;
  }

  predicate Motion(c: Cmd) {
    c.verb == MOVEA || c.verb == MOVEP
  }

  /** What the pointer engine reads and writes, the clock of its rate limit apart. */
  predicate SamePointer(w: World, r: World) {
    r.gx == w.gx && r.gy == w.gy && r.pad.tgtX == w.pad.tgtX && r.pad.tgtY == w.pad.tgtY &&
    r.pad.curX == w.pad.curX && r.pad.curY == w.pad.curY && r.pad.homed == w.pad.homed &&
    r.pad.haveTarget == w.pad.haveTarget && r.pad.homeLeft == w.pad.homeLeft
  }

  lemma EdgePointer(p: Pad, c: Cmd, t: nat)
    requires Tables(p)
    ensures var q := Edge(p, c, t);
      q.tgtX == p.tgtX && q.tgtY == p.tgtY && q.curX == p.curX && q.curY == p.curY && q.homed == p.homed &&
      q.haveTarget == p.haveTarget && q.homeLeft == p.homeLeft
  {
    hide ModIndex, Byte, NewMask;
  }

  lemma TakePointer(cfg: Config, env: Env, w: World, c: Cmd)
    requires Tables(w.pad) && w.queue != []
    ensures !Motion(c) ==> SamePointer(w, Take(cfg, env, w, c))
    ensures c.verb == MOVEA ==> SamePointer(MoveAbs(cfg, env, w, c), Take(cfg, env, w, c))
    ensures c.verb == MOVEP ==> SamePointer(MoveRel(cfg, env, w, c), Take(cfg, env, w, c))
  {
    hide ApplyCmd, MoveAbs, MoveRel;
    var v := w.(queue := w.queue[1..], pad := w.pad.(waitSince := 0));
    assert Tables(v.pad);
    if Motion(c) {
      MotionPointer(cfg, env, w, v, c);
    } else {
      ReportPointer(cfg, env, v, c);
    }
  }

  lemma MotionPointer(cfg: Config, env: Env, w: World, v: World, c: Cmd)
    requires Tables(v.pad) && Motion(c) && SamePointer(w, v) && v.looks == w.looks
    ensures c.verb == MOVEA ==> SamePointer(MoveAbs(cfg, env, w, c), ApplyCmd(cfg, env, v, c))
    ensures c.verb == MOVEP ==> SamePointer(MoveRel(cfg, env, w, c), ApplyCmd(cfg, env, v, c))
    ensures ApplyCmd(cfg, env, v, c).looks == v.looks + 1
  {
    hide Clamp, Slams;
  }

  lemma ReportPointer(cfg: Config, env: Env, v: World, c: Cmd)
    requires Tables(v.pad) && !Motion(c)
    ensures SamePointer(v, ApplyCmd(cfg, env, v, c))
  {
    hide Edge, DeviceOf;
    EdgePointer(v.pad, c, env.clock(v.ticks));
  }

  lemma CheckPointer(cfg: Config, env: Env, w: World, c: Cmd)
    ensures SamePointer(w, Check(cfg, env, w, c).w)
  {
    hide Check;
    CheckKeeps(cfg, env, w, c);
  }

  // ---------------------------------------------------------- passes and runs

  predicate NoneMoving(cs: seq<Cmd>) {
    forall i :: 0 <= i < |cs| ==> !Motion(cs[i])
  }

  predicate NoMoves(batches: seq<seq<Cmd>>) {
    forall k :: 0 <= k < |batches| ==> NoneMoving(batches[k])
  }

  lemma {:induction false} ArriveMoves(w: World, batch: seq<Cmd>)
    ensures NoneMoving(w.queue) && NoneMoving(batch) ==> NoneMoving(Arrive(w, batch).queue)
    decreases |batch|
  {
    hide Motion;
    if batch != [] {
      ArriveMoves(Push(w, batch[0]), batch[1..]);
    }
  }

  lemma {:induction false} ArriveAllMoves(w: World, batches: seq<seq<Cmd>>)
    ensures NoneMoving(w.queue) && NoMoves(batches) ==> NoneMoving(ArriveAll(w, batches).queue)
    decreases |batches|
  {
    hide NoneMoving;
    if batches != [] {
      ArriveMoves(w, batches[0]);
      ArriveAllMoves(Arrive(w, batches[0]), batches[1..]);
    }
  }

  lemma HeadMoves(cs: seq<Cmd>)
    requires cs != [] && NoneMoving(cs)
    ensures !Motion(cs[0]) && NoneMoving(cs[1..])
  {
  }

  lemma BatchMoves(batches: seq<seq<Cmd>>)
    requires NoMoves(batches)
    ensures NoneMoving(Batch(batches)) && NoMoves(Later(batches))
  {
    hide NoneMoving;
    assert NoneMoving([]) by { NoneOfNothing(); }
  }

  lemma NoneOfNothing()
    ensures NoneMoving([])
  {
  }

  lemma SameBelief(cfg: Config, w: World, r: World)
    requires SamePointer(w, r)
    ensures Believed(cfg, w) <==> Believed(cfg, r)
    ensures Converged(w.pad) <==> Converged(r.pad)
    ensures Grounded(w.pad) <==> Grounded(r.pad)
  {
  }

  lemma SameTicks(cfg: Config, w: World, r: World)
    requires SamePointer(w, r) && cfg.step > 0
    ensures Ticks(cfg, w.pad) == Ticks(cfg, r.pad)
  {
    hide Steps;
  }

  lemma SameMove(cfg: Config, w: World, r: World)
    requires SamePointer(w, r)
    ensures SamePointer(Move(cfg, w), Move(cfg, r))
  {
    hide Clamp;
  }

  lemma ArrivePointer(w: World, batch: seq<Cmd>, batches: seq<seq<Cmd>>)
    ensures SamePointer(w, Arrive(w, batch)) && SamePointer(w, ArriveAll(w, batches))
  {
    hide Arrive, ArriveAll;
  }

  lemma LimitPointer(cfg: Config, env: Env, w: World)
    ensures SamePointer(w, Limit(cfg, env, w))
  {
    hide Effective;
  }

  lemma CheckTable(cfg: Config, env: Env, w: World, c: Cmd)
    requires Tables(w.pad)
    ensures Tables(Check(cfg, env, w, c).w.pad)
  {
    hide Check;
    CheckKeeps(cfg, env, w, c);
  }

  // ---------------------------------------------------------- one tick

  /** The tick takes the mouse route and the rate limit lets it report. */
  predicate Reports(cfg: Config, env: Env, w: World) {
    !UseTablet(cfg, env, w) && !UseTablet(cfg, env, Look(w)) && Effective(cfg, env, Look(Look(w)))
  }

  function Advanced(cfg: Config, w: World, reports: bool): World {
    if reports && !Converged(w.pad) then Move(cfg, w) else w
  }

  lemma TickPointer(cfg: Config, env: Env, w: World)
    ensures SamePointer(Advanced(cfg, w, Reports(cfg, env, w)), PtrTick(cfg, env, w))
  {
    hide Move, Limit, Converged, UseTablet;
    var v := Look(Look(w));
    LimitPointer(cfg, env, v);
    SameBelief(cfg, w, v);
    SameMove(cfg, w, Limit(cfg, env, v));
  }

  /** With a rate limit a tick by mouse reports if the clock has come that far since the last report, and then remembers
      the time. */
  lemma TickRate(cfg: Config, env: Env, w: World)
    requires !UseTablet(cfg, env, w) && !UseTablet(cfg, env, Look(w)) && !Converged(w.pad) && cfg.rate > 0
    requires w.pad.lastReport <= env.clock(w.ticks) < U64
    ensures var r := PtrTick(cfg, env, w);
      if env.clock(w.ticks) >= w.pad.lastReport + cfg.rate then
        SamePointer(Move(cfg, w), r) && r.pad.lastReport == env.clock(w.ticks)
      else SamePointer(w, r) && r.pad.lastReport == w.pad.lastReport
  {
    hide Move, Converged, UseTablet;
    var v := Look(Look(w));
    SameMove(cfg, w, Limit(cfg, env, v));
    MoveStamp(cfg, Limit(cfg, env, v));
    Elapsed(env.clock(w.ticks), w.pad.lastReport);
  }

  lemma MoveStamp(cfg: Config, w: World)
    ensures Move(cfg, w).pad.lastReport == w.pad.lastReport
  {
    hide Clamp;
  }

  lemma Elapsed(now: nat, t: nat)
    requires t <= now < U64
    ensures Since(now, t) == now - t
  {
  }

  /** Ticks keep the belief on both routes. */
  lemma MoveBelieved(cfg: Config, w: World)
    requires Configured(cfg) && Believed(cfg, w)
    ensures Believed(cfg, Advanced(cfg, w, true))
  {
    hide Move;
    if !Converged(w.pad) {
      if Grounded(w.pad) {
        MoveCloser(cfg, w);
      } else {
        ParkedStays(cfg, w);
      }
    }
  }

  /** Where a tablet move has put the pointer there is nothing to send. */
  lemma ParkedStays(cfg: Config, w: World)
    requires Believed(cfg, w) && !Grounded(w.pad)
    ensures Move(cfg, w) == w
  {
  }

  lemma TickBelieved(cfg: Config, env: Env, w: World)
    requires Configured(cfg) && Believed(cfg, w)
    ensures Believed(cfg, PtrTick(cfg, env, w))
  {
    hide Advanced, PtrTick, Believed, SamePointer, Reports;
    TickPointer(cfg, env, w);
    MoveBelieved(cfg, w);
    SameBelief(cfg, Advanced(cfg, w, Reports(cfg, env, w)), PtrTick(cfg, env, w));
    assert Advanced(cfg, w, false) == w by { NotAdvanced(cfg, w); }
  }

  lemma NotAdvanced(cfg: Config, w: World)
    ensures Advanced(cfg, w, false) == w
  {
  }

  lemma TakeBelievedIff(cfg: Config, env: Env, w: World, c: Cmd)
    requires Configured(cfg) && Believed(cfg, w) && Tables(w.pad) && w.queue != []
    ensures Believed(cfg, Take(cfg, env, w, c)) <==> Safe(cfg, env, w, c)
  {
    hide Believed, Take, MoveAbs, MoveRel, Tables, SamePointer;
    TakePointer(cfg, env, w, c);
    if c.verb == MOVEA {
      MoveAbsBelievedIff(cfg, env, w, c);
      SameBelief(cfg, MoveAbs(cfg, env, w, c), Take(cfg, env, w, c));
    } else if c.verb == MOVEP {
      MoveRelBelievedIff(cfg, env, w, c);
      SameBelief(cfg, MoveRel(cfg, env, w, c), Take(cfg, env, w, c));
    } else {
      SameBelief(cfg, w, Take(cfg, env, w, c));
    }
  }

  // ---------------------------------------------------------- every run

  /** Every motion command that this pass applies is safe where it is applied. */
  predicate SafePass(cfg: Config, env: Env, w: World, batches: seq<seq<Cmd>>)
    requires Tables(w.pad)
    decreases |w.queue| + Total(batches)
  {
    hide Check, Take, Safe;
    var w1, rest := Arrive(w, Batch(batches)), Later(batches);
    TotalIs(batches);
    TotalIs(rest);
    w1.queue == [] ||
    (var c := w1.queue[0];
     CheckKeeps(cfg, env, w1, c);
     var v := Check(cfg, env, w1, c);
     v.held ||
     (var w2 := Arrive(v.w, Batch(rest));
      TakeTables(cfg, env, w2, c);
      Safe(cfg, env, w2, c) && SafePass(cfg, env, Take(cfg, env, w2, c), Later(rest))))
  }

  lemma {:induction false} DrainBelieved(cfg: Config, env: Env, w: World, batches: seq<seq<Cmd>>)
    requires Configured(cfg) && Believed(cfg, w) && Tables(w.pad) && SafePass(cfg, env, w, batches)
    ensures Believed(cfg, Drain(cfg, env, w, batches))
    decreases |w.queue| + Total(batches)
  {
    hide Believed, Take, Check, PtrTick, Tables, Safe, Configured, SamePointer;
    var w1, rest := Arrive(w, Batch(batches)), Later(batches);
    TotalIs(batches);
    TotalIs(rest);
    ArrivePointer(w, Batch(batches), []);
    SameBelief(cfg, w, w1);
    if w1.queue == [] {
      TickBelieved(cfg, env, w1);
      TickKeeps(cfg, env, w1);
      ArrivePointer(PtrTick(cfg, env, w1), [], rest);
      SameBelief(cfg, PtrTick(cfg, env, w1), Drain(cfg, env, w, batches));
    } else {
      var c := w1.queue[0];
      var v := Check(cfg, env, w1, c);
      CheckKeeps(cfg, env, w1, c);
      CheckPointer(cfg, env, w1, c);
      SameBelief(cfg, w1, v.w);
      if v.held {
        TickBelieved(cfg, env, v.w);
        TickKeeps(cfg, env, v.w);
        ArrivePointer(PtrTick(cfg, env, v.w), [], rest);
        SameBelief(cfg, PtrTick(cfg, env, v.w), Drain(cfg, env, w, batches));
      } else {
        var w2 := Arrive(v.w, Batch(rest));
        ArrivePointer(v.w, Batch(rest), []);
        SameBelief(cfg, v.w, w2);
        CheckTable(cfg, env, w1, c);
        TakeTables(cfg, env, w2, c);
        TakeBelievedIff(cfg, env, w2, c);
        DrainBelieved(cfg, env, Take(cfg, env, w2, c), Later(rest));
      }
    }
  }

  predicate SafeRun(cfg: Config, env: Env, w: World, passes: seq<seq<seq<Cmd>>>)
    requires Tables(w.pad)
    decreases |passes|
  {
    passes == [] || (SafePass(cfg, env, w, passes[0]) && SafeRun(cfg, env, Drain(cfg, env, w, passes[0]), passes[1..]))
  }

  /** From the start, wherever the guest's pointer is, and however the routes change: once the pointer has been placed,
      the believed position is the guest's. */
  lemma {:induction false} RunBelieved(cfg: Config, env: Env, w: World, passes: seq<seq<seq<Cmd>>>)
    requires Configured(cfg) && Believed(cfg, w) && Tables(w.pad) && SafeRun(cfg, env, w, passes)
    ensures var r := Run(cfg, env, w, passes);
      Believed(cfg, r) && (Placed(r.pad) ==> r.pad.curX == r.gx && r.pad.curY == r.gy)
    decreases |passes|
  {
    hide Drain, Tables, SafePass, Configured;
    if passes != [] {
      DrainBelieved(cfg, env, w, passes[0]);
      RunBelieved(cfg, env, Drain(cfg, env, w, passes[0]), passes[1..]);
    }
  }

  lemma StartBelieved(cfg: Config, gx: int, gy: int)
    requires Configured(cfg) && OnScreen(cfg, gx, gy)
    ensures Believed(cfg, Start(gx, gy)) && Grounded(Start(gx, gy).pad) && Tables(Start(gx, gy).pad)
  {
  }

  /** A click by mouse is never early: a button edge that passes the check finds the guest's pointer on the target,
      or the pointer has been waited for as long as the settle window. */
  lemma ClickLands(cfg: Config, env: Env, w: World, c: Cmd)
    requires Configured(cfg) && !UseTablet(cfg, env, w) && Believed(cfg, w) && c.verb == BTN && w.pad.haveTarget
    requires !Check(cfg, env, w, c).held
    ensures var v := Check(cfg, env, w, c).w;
      (w.gx == w.pad.tgtX && w.gy == w.pad.tgtY) ||
      (v.ticks > w.ticks && Since(env.clock(v.ticks - 1), v.pad.waitSince) >= cfg.settle)
  {
    hide CheckGap, CheckHold, DeviceOf;
    GapKeeps(cfg, env, w, c);
    HoldKeeps(cfg, env, CheckGap(cfg, env, w, c).w, c);
  }

  // ---------------------------------------------------------- passes without motion

  /** Does the tick at the end of this pass report? */
  predicate PassReports(cfg: Config, env: Env, w: World, batches: seq<seq<Cmd>>)
    requires Tables(w.pad)
    decreases |w.queue| + Total(batches)
  {
    hide Check, Take, Reports;
    var w1, rest := Arrive(w, Batch(batches)), Later(batches);
    TotalIs(batches);
    TotalIs(rest);
    if w1.queue == [] then Reports(cfg, env, w1)
    else
      var c := w1.queue[0];
      CheckKeeps(cfg, env, w1, c);
      var v := Check(cfg, env, w1, c);
      if v.held then Reports(cfg, env, v.w)
      else
        var w2 := Arrive(v.w, Batch(rest));
        TakeTables(cfg, env, w2, c);
        PassReports(cfg, env, Take(cfg, env, w2, c), Later(rest))
  }

  /** A pass without motion commands moves the pointer by one report, or not at all. */
  lemma {:induction false} DrainPointer(cfg: Config, env: Env, w: World, batches: seq<seq<Cmd>>)
    requires Tables(w.pad) && NoneMoving(w.queue) && NoMoves(batches)
    ensures SamePointer(Advanced(cfg, w, PassReports(cfg, env, w, batches)), Drain(cfg, env, w, batches))
    ensures NoneMoving(Drain(cfg, env, w, batches).queue)
    decreases |w.queue| + Total(batches)
  {
    hide Take, Check, PtrTick, Tables, NoneMoving, NoMoves, Reports, Advanced, SamePointer;
    var w1, rest := Arrive(w, Batch(batches)), Later(batches);
    BatchMoves(batches);
    BatchMoves(rest);
    TotalIs(batches);
    TotalIs(rest);
    ArrivePointer(w, Batch(batches), []);
    ArriveMoves(w, Batch(batches));
    if w1.queue == [] {
      LastTick(cfg, env, w, w1, rest);
    } else {
      var c := w1.queue[0];
      var v := Check(cfg, env, w1, c);
      CheckKeeps(cfg, env, w1, c);
      CheckPointer(cfg, env, w1, c);
      SameTrans(w, w1, v.w);
      if v.held {
        LastTick(cfg, env, w, v.w, rest);
      } else {
        var w2 := Arrive(v.w, Batch(rest));
        ArrivePointer(v.w, Batch(rest), []);
        ArriveMoves(v.w, Batch(rest));
        assert w2.queue[0] == c by { assert w2.queue[..|v.w.queue|] == v.w.queue; }
        CheckTable(cfg, env, w1, c);
        TakeTables(cfg, env, w2, c);
        HeadMoves(w2.queue);
        TakePointer(cfg, env, w2, c);
        var w3 := Take(cfg, env, w2, c);
        SameTrans(w, v.w, w2);
        SameTrans(w, w2, w3);
        DrainPointer(cfg, env, w3, Later(rest));
        var reports := PassReports(cfg, env, w3, Later(rest));
        SameAdvanced(cfg, w, w3, reports);
        SameTrans(Advanced(cfg, w, reports), Advanced(cfg, w3, reports), Drain(cfg, env, w3, Later(rest)));
      }
    }
  }

  lemma LastTick(cfg: Config, env: Env, w: World, v: World, rest: seq<seq<Cmd>>)
    requires SamePointer(w, v) && NoneMoving(v.queue) && NoMoves(rest)
    ensures var r := ArriveAll(PtrTick(cfg, env, v), rest);
      SamePointer(Advanced(cfg, w, Reports(cfg, env, v)), r) && NoneMoving(r.queue)
  {
    hide PtrTick, NoneMoving, NoMoves, Reports, Advanced, SamePointer;
    var t := PtrTick(cfg, env, v);
    TickPointer(cfg, env, v);
    TickKeeps(cfg, env, v);
    ArrivePointer(t, [], rest);
    ArriveAllMoves(t, rest);
    SameAdvanced(cfg, w, v, Reports(cfg, env, v));
    SameTrans(Advanced(cfg, w, Reports(cfg, env, v)), Advanced(cfg, v, Reports(cfg, env, v)), t);
    SameTrans(Advanced(cfg, w, Reports(cfg, env, v)), t, ArriveAll(t, rest));
  }

  lemma SameTrans(u: World, v: World, w: World)
    requires SamePointer(u, v) && SamePointer(v, w)
    ensures SamePointer(u, w)
  {
  }

  lemma SameAdvanced(cfg: Config, w: World, r: World, reports: bool)
    requires SamePointer(w, r)
    ensures SamePointer(Advanced(cfg, w, reports), Advanced(cfg, r, reports))
  {
    hide Move;
    SameMove(cfg, w, r);
  }

  /** How many passes of a run report. */
  function Reporting(cfg: Config, env: Env, w: World, passes: seq<seq<seq<Cmd>>>): (n: nat)
    requires Tables(w.pad)
    ensures n <= |passes|
    decreases |passes|
  {
    hide PassReports, Drain;
    if passes == [] then 0
    else
      (if PassReports(cfg, env, w, passes[0]) then 1 else 0) +
      Reporting(cfg, env, Drain(cfg, env, w, passes[0]), passes[1..])
  }

  /** n reports of the pointer engine. */
  function Moved(cfg: Config, w: World, n: nat): World
    decreases n
  {
    if n == 0 then w else Moved(cfg, Advanced(cfg, w, true), n - 1)
  }

  lemma {:induction false} SameMoved(cfg: Config, w: World, r: World, n: nat)
    requires SamePointer(w, r)
    ensures SamePointer(Moved(cfg, w, n), Moved(cfg, r, n))
    decreases n
  {
    hide Advanced, SamePointer;
    if n > 0 {
      SameAdvanced(cfg, w, r, true);
      SameMoved(cfg, Advanced(cfg, w, true), Advanced(cfg, r, true), n - 1);
    }
  }

  /** Whatever else is queued and applied: the pointer after a run without
      motion is where its reports have brought it. */
  lemma {:induction false} RunPointer(cfg: Config, env: Env, w: World, passes: seq<seq<seq<Cmd>>>)
    requires Tables(w.pad) && NoneMoving(w.queue) && forall k :: 0 <= k < |passes| ==> NoMoves(passes[k])
    ensures SamePointer(Moved(cfg, w, Reporting(cfg, env, w, passes)), Run(cfg, env, w, passes))
    decreases |passes|
  {
    hide Drain, Tables, NoneMoving, NoMoves, PassReports, Advanced, SamePointer;
    if passes == [] {
      assert SamePointer(w, w) by { SameSelf(w); }
    } else {
      var v, reports := Drain(cfg, env, w, passes[0]), PassReports(cfg, env, w, passes[0]);
      DrainPointer(cfg, env, w, passes[0]);
      RunPointer(cfg, env, v, passes[1..]);
      var n := Reporting(cfg, env, v, passes[1..]);
      SameMoved(cfg, Advanced(cfg, w, reports), v, n);
      NotAdvanced(cfg, w);
      SameTrans(Moved(cfg, Advanced(cfg, w, reports), n), Moved(cfg, v, n), Run(cfg, env, v, passes[1..]));
    }
  }

  lemma SameSelf(w: World)
    ensures SamePointer(w, w)
  {
  }

  // ---------------------------------------------------------- a fixed target

  /** Each report is one report less to send, and the last one puts the guest's pointer on the target. */
  lemma {:induction false} MovedCloser(cfg: Config, w: World, n: nat)
    requires Configured(cfg) && Believed(cfg, w) && Grounded(w.pad)
    ensures var r := Moved(cfg, w, n);
      Believed(cfg, r) && Grounded(r.pad) && r.pad.haveTarget == w.pad.haveTarget &&
      r.pad.tgtX == w.pad.tgtX && r.pad.tgtY == w.pad.tgtY &&
      Ticks(cfg, r.pad) == if Ticks(cfg, w.pad) <= n then 0 else Ticks(cfg, w.pad) - n
    decreases n
  {
    hide Believed, Ticks, Move, Converged, Grounded;
    if n > 0 {
      TicksZero(cfg, w);
      if !Converged(w.pad) {
        MoveCloser(cfg, w);
        MoveTarget(cfg, w);
      }
      MovedCloser(cfg, Advanced(cfg, w, true), n - 1);
    }
  }

  lemma MoveTarget(cfg: Config, w: World)
    ensures var r := Move(cfg, w);
      r.pad.haveTarget == w.pad.haveTarget && r.pad.tgtX == w.pad.tgtX && r.pad.tgtY == w.pad.tgtY
  {
    hide Clamp;
  }

  /** While no motion is commanded, every pass that reports takes one report off what is left, at any report rate and on
      any route: after exactly Ticks such passes the guest's pointer is on the target, and it stays. */
  lemma FixedTargetReached(cfg: Config, env: Env, w: World, passes: seq<seq<seq<Cmd>>>)
    requires Configured(cfg) && Believed(cfg, w) && Grounded(w.pad) && Tables(w.pad)
    requires NoneMoving(w.queue) && forall k :: 0 <= k < |passes| ==> NoMoves(passes[k])
    ensures var r, n := Run(cfg, env, w, passes), Reporting(cfg, env, w, passes);
      Believed(cfg, r) && r.pad.haveTarget == w.pad.haveTarget &&
      r.pad.tgtX == w.pad.tgtX && r.pad.tgtY == w.pad.tgtY &&
      Ticks(cfg, r.pad) == (if Ticks(cfg, w.pad) <= n then 0 else Ticks(cfg, w.pad) - n) &&
      (Converged(r.pad) <==> Ticks(cfg, w.pad) <= n) &&
      (w.pad.haveTarget && Ticks(cfg, w.pad) <= n ==> r.gx == w.pad.tgtX && r.gy == w.pad.tgtY)
  {
    hide Believed, Tables, NoneMoving, NoMoves, Ticks, Converged, Grounded, Run, Reporting, Moved;
    var r, m := Run(cfg, env, w, passes), Moved(cfg, w, Reporting(cfg, env, w, passes));
    RunPointer(cfg, env, w, passes);
    MovedCloser(cfg, w, Reporting(cfg, env, w, passes));
    SameBelief(cfg, m, r);
    SameTicks(cfg, m, r);
    TicksZero(cfg, r);
  }

  /** Inside the screen a coordinate is itself, outside it the nearest edge. */
  predicate Nearest(v: int, size: nat, x: int) {
    if v < 0 then x == 0 else if v >= size then x == size - 1 else x == v
  }

  /** An absolute move by mouse: once the reports it takes have gone out, the guest's pointer is at its coordinates, or
      at the edges next to them; by tablet it is there at once. */
  lemma MoveArrives(cfg: Config, env: Env, w: World, c: Cmd, passes: seq<seq<seq<Cmd>>>)
    requires Configured(cfg) && Believed(cfg, w) && Tables(w.pad) && w.queue != [] && c.verb == MOVEA
    requires NoneMoving(w.queue[1..]) && forall k :: 0 <= k < |passes| ==> NoMoves(passes[k])
    ensures Tables(Take(cfg, env, w, c).pad)
    ensures var v := Take(cfg, env, w, c);
      UseTablet(cfg, env, w) ==> Nearest(c.a, cfg.width, v.gx) && Nearest(c.b, cfg.height, v.gy)
    ensures var v := Take(cfg, env, w, c);
      var r := Run(cfg, env, v, passes);
      !UseTablet(cfg, env, w) && Ticks(cfg, v.pad) <= Reporting(cfg, env, v, passes) ==>
        Nearest(c.a, cfg.width, r.gx) && Nearest(c.b, cfg.height, r.gy)
  {
    hide Take, Run, Believed, Grounded, Tables, NoneMoving, NoMoves, Ticks, Reporting, SamePointer, MoveAbs;
    var v := Take(cfg, env, w, c);
    TakeTables(cfg, env, w, c);
    TakePointer(cfg, env, w, c);
    MoveAbsBelievedIff(cfg, env, w, c);
    SameBelief(cfg, MoveAbs(cfg, env, w, c), v);
    MoveAim(cfg, env, w, v, c);
    if !UseTablet(cfg, env, w) {
      TakeQueue(cfg, env, w, c);
      FixedTargetReached(cfg, env, v, passes);
    }
  }

  lemma MoveAim(cfg: Config, env: Env, w: World, v: World, c: Cmd)
    requires Configured(cfg) && SamePointer(MoveAbs(cfg, env, w, c), v)
    ensures v.pad.haveTarget && Nearest(c.a, cfg.width, v.pad.tgtX) && Nearest(c.b, cfg.height, v.pad.tgtY)
    ensures if UseTablet(cfg, env, w) then v.gx == v.pad.tgtX && v.gy == v.pad.tgtY
      else Grounded(MoveAbs(cfg, env, w, c).pad)
  {
    SlamsEnough(cfg);
  }

  lemma TakeQueue(cfg: Config, env: Env, w: World, c: Cmd)
    requires Tables(w.pad) && w.queue != []
    ensures Take(cfg, env, w, c).queue == w.queue[1..]
  {
    hide ApplyCmd;
    var w1 := w.(queue := w.queue[1..], pad := w.pad.(waitSince := 0));
    assert Tables(w1.pad);
    ApplyKeeps(cfg, env, w1, c);
  }

  /** A relative move by mouse of at most 63 counts an axis moves the guest's pointer by them, as far as the edges. */
  lemma RelativeMoves(cfg: Config, env: Env, w: World, c: Cmd)
    requires Configured(cfg) && Tables(w.pad) && w.queue != [] && c.verb == MOVEP && !UseTablet(cfg, env, w)
    requires -63 <= c.a <= 63 && -63 <= c.b <= 63
    ensures var r := Take(cfg, env, w, c); Nearest(w.gx + c.a, cfg.width, r.gx) && Nearest(w.gy + c.b, cfg.height, r.gy)
  {
    hide Take;
    TakePointer(cfg, env, w, c);
  }

  lemma {:induction false} MovedNowhere(cfg: Config, w: World, n: nat)
    requires Believed(cfg, w) && !Grounded(w.pad)
    ensures Moved(cfg, w, n) == w
    decreases n
  {
    hide Believed, Grounded, Move, Converged;
    if n > 0 {
      ParkedStays(cfg, w);
      MovedNowhere(cfg, w, n - 1);
    }
  }

  /** A pointer that only a tablet has placed is on its target and yet never taken for settled, however long nothing
      moves it. */
  lemma ParkedNeverSettles(cfg: Config, env: Env, w: World, passes: seq<seq<seq<Cmd>>>)
    requires Believed(cfg, w) && !Grounded(w.pad) && Tables(w.pad)
    requires NoneMoving(w.queue) && forall k :: 0 <= k < |passes| ==> NoMoves(passes[k])
    ensures var r := Run(cfg, env, w, passes);
      SamePointer(w, r) && r.gx == r.pad.tgtX && r.gy == r.pad.tgtY && !Converged(r.pad)
  {
    hide Tables, NoneMoving, NoMoves, Run, Reporting, Moved;
    RunPointer(cfg, env, w, passes);
    MovedNowhere(cfg, w, Reporting(cfg, env, w, passes));
  }

  /** An absolute move leaves such a pointer exactly when the tablet takes it and no slam has been ordered. */
  lemma ParksIff(cfg: Config, env: Env, w: World, c: Cmd)
    requires Configured(cfg) && Believed(cfg, w)
    ensures !Grounded(MoveAbs(cfg, env, w, c).pad) <==>
      UseTablet(cfg, env, w) && !w.pad.homed && w.pad.homeLeft == 0
  {
    hide Clamp;
    SlamsEnough(cfg);
  }

  /** Without a rate limit every pass on the mouse route reports. */
  lemma {:induction false} PassReportsAlways(cfg: Config, env: Env, w: World, batches: seq<seq<Cmd>>)
    requires Tables(w.pad) && cfg.route == KMS && cfg.rate == 0
    ensures PassReports(cfg, env, w, batches)
    decreases |w.queue| + Total(batches)
  {
    hide Take, Check, Tables;
    var w1, rest := Arrive(w, Batch(batches)), Later(batches);
    TotalIs(batches);
    TotalIs(rest);
    if w1.queue != [] {
      var c := w1.queue[0];
      CheckKeeps(cfg, env, w1, c);
      CheckTable(cfg, env, w1, c);
      var v := Check(cfg, env, w1, c);
      if !v.held {
        var w2 := Arrive(v.w, Batch(rest));
        TakeTables(cfg, env, w2, c);
        PassReportsAlways(cfg, env, Take(cfg, env, w2, c), Later(rest));
      }
    }
  }

  /** The bound: the slams that are left, and the way across the screen in steps. */
  lemma TicksBound(cfg: Config, w: World)
    requires Configured(cfg) && Believed(cfg, w)
    ensures Ticks(cfg, w.pad) <= w.pad.homeLeft + Steps(Max(cfg.width, cfg.height) - 1, cfg.step)
  {
    StepsMonotone(Max(Abs(w.pad.tgtX - w.pad.curX), Abs(w.pad.tgtY - w.pad.curY)),
      Max(cfg.width, cfg.height) - 1, cfg.step);
    StepsMonotone(Max(Abs(w.pad.tgtX), Abs(w.pad.tgtY)), Max(cfg.width, cfg.height) - 1, cfg.step);
  }

  // ---------------------------------------------------------- a lost origin

  /** What n of the slams that are left do, whether they are enough or not. */
  lemma {:induction false} HomingMoved(cfg: Config, w: World, n: nat)
    requires w.pad.haveTarget && !w.pad.homed && n <= w.pad.homeLeft && OnScreen(cfg, w.gx, w.gy)
    ensures var r := Moved(cfg, w, n);
      r.gx == Max(0, w.gx - 63 * n) && r.gy == Max(0, w.gy - 63 * n) && r.pad.homeLeft == w.pad.homeLeft - n &&
      (n > 0 && n == w.pad.homeLeft ==> r.pad.homed && r.pad.curX == 0 && r.pad.curY == 0)
    decreases n
  {
    if n > 0 {
      SlamOnce(cfg, w);
      if n > 1 {
        HomingMoved(cfg, Advanced(cfg, w, true), n - 1);
      }
    }
  }

  lemma SlamOnce(cfg: Config, w: World)
    requires w.pad.haveTarget && !w.pad.homed && w.pad.homeLeft > 0 && OnScreen(cfg, w.gx, w.gy)
    ensures var r := Advanced(cfg, w, true);
      r.gx == Max(0, w.gx - 63) && r.gy == Max(0, w.gy - 63) && r.pad.homeLeft == w.pad.homeLeft - 1 &&
      r.pad.haveTarget && r.pad.homed == (w.pad.homeLeft == 1) &&
      (w.pad.homeLeft == 1 ==> r.pad.curX == 0 && r.pad.curY == 0)
  {
  }

  /** The injector believes in the corner when the slams are over; it is right exactly when they were enough. */
  lemma HomingFindsIff(cfg: Config, env: Env, w: World, passes: seq<seq<seq<Cmd>>>)
    requires Tables(w.pad) && NoneMoving(w.queue) && forall k :: 0 <= k < |passes| ==> NoMoves(passes[k])
    requires w.pad.haveTarget && !w.pad.homed && OnScreen(cfg, w.gx, w.gy)
    requires Reporting(cfg, env, w, passes) == w.pad.homeLeft > 0
    ensures var r := Run(cfg, env, w, passes);
      r.pad.homed && r.pad.curX == 0 && r.pad.curY == 0 &&
      r.gx == Max(0, w.gx - 63 * w.pad.homeLeft) && r.gy == Max(0, w.gy - 63 * w.pad.homeLeft) &&
      (r.pad.curX == r.gx && r.pad.curY == r.gy <==> WithinSlams(cfg, w, w.gx, w.gy))
  {
    hide Run, Reporting, Moved, NoneMoving, NoMoves, Tables;
    RunPointer(cfg, env, w, passes);
    HomingMoved(cfg, w, w.pad.homeLeft);
  }

  /** Passes in which nothing arrives. */
  function Idle(n: nat): (passes: seq<seq<seq<Cmd>>>) {
    seq(n, _ => [])
  }

  lemma {:induction false} IdleReports(cfg: Config, env: Env, w: World, n: nat)
    requires Tables(w.pad) && w.queue == [] && cfg.rate == 0 && forall k :: k >= w.looks ==> !env.tablet(k)
    requires cfg.route != TABLET
    ensures Reporting(cfg, env, w, Idle(n)) == n
    decreases n
  {
    hide PtrTick;
    if n > 0 {
      assert Idle(n)[1..] == Idle(n - 1) && Idle(n)[0] == [];
      var r := PtrTick(cfg, env, w);
      TickKeeps(cfg, env, w);
      LooksGrow(cfg, env, w);
      assert Drain(cfg, env, w, []) == r;
      IdleReports(cfg, env, r, n - 1);
    }
  }

  lemma LooksGrow(cfg: Config, env: Env, w: World)
    ensures PtrTick(cfg, env, w).looks >= w.looks
    ensures !UseTablet(cfg, env, w) ==> PtrTick(cfg, env, w).looks == w.looks + 2
  {
    hide Move, Effective, Converged;
    MoveLooks(cfg, Limit(cfg, env, Look(Look(w))));
  }

  lemma MoveLooks(cfg: Config, w: World)
    ensures Move(cfg, w).looks == w.looks
  {
  }

  /** One absolute move in a pass on an empty queue without a rate limit: it is applied, then the engine ticks. */
  lemma MovePass(cfg: Config, env: Env, w: World, c: Cmd)
    requires Tables(w.pad) && w.queue == [] && c.verb == MOVEA && cfg.rate == 0
    requires !UseTablet(cfg, env, Look(w)) && !UseTablet(cfg, env, Look(Look(w)))
    ensures var r, m := Drain(cfg, env, w, [[c]]), MoveAbs(cfg, env, w, c);
      r.queue == [] && r.looks == w.looks + 3 && SamePointer(Advanced(cfg, m, true), r)
  {
    hide Take, PtrTick, MoveAbs, Advanced, SamePointer, Drain;
    var v := w.(queue := [c], accepted := w.accepted + [c]);
    MoveDrained(cfg, env, w, c);
    var t := Take(cfg, env, v, c);
    TakePointer(cfg, env, v, c);
    TakeLooks(cfg, env, v, c);
    SameAbs(cfg, env, w, v, c);
    SameTrans(MoveAbs(cfg, env, w, c), MoveAbs(cfg, env, v, c), t);
    TickPointer(cfg, env, t);
    TickKeeps(cfg, env, t);
    LooksGrow(cfg, env, t);
    SameAdvanced(cfg, MoveAbs(cfg, env, w, c), t, true);
    SameTrans(Advanced(cfg, MoveAbs(cfg, env, w, c), true), Advanced(cfg, t, true), PtrTick(cfg, env, t));
  }

  lemma MoveDrained(cfg: Config, env: Env, w: World, c: Cmd)
    requires Tables(w.pad) && w.queue == [] && Motion(c)
    ensures var v := w.(queue := [c], accepted := w.accepted + [c]);
      SamePointer(w, v) && Tables(Take(cfg, env, v, c).pad) &&
        Drain(cfg, env, w, [[c]]) == PtrTick(cfg, env, Take(cfg, env, v, c))
  {
    hide Take, PtrTick;
    var v := w.(queue := [c], accepted := w.accepted + [c]);
    var batches := [[c]];
    assert batches[1..] == [] && batches[0][1..] == [] && w.queue + [c] == [c];
    assert Arrive(w, [c]) == v;
    assert Check(cfg, env, v, c) == Verdict(false, v);
    TakeTables(cfg, env, v, c);
    TakeLooks(cfg, env, v, c);
  }

  lemma TakeLooks(cfg: Config, env: Env, w: World, c: Cmd)
    requires Tables(w.pad) && w.queue != [] && Motion(c)
    ensures Take(cfg, env, w, c).looks == w.looks + 1 && Take(cfg, env, w, c).queue == w.queue[1..]
  {
    hide ApplyCmd;
    var v := w.(queue := w.queue[1..], pad := w.pad.(waitSince := 0));
    assert Tables(v.pad);
    MotionPointer(cfg, env, v, v, c);
    ApplyKeeps(cfg, env, v, c);
  }

  lemma SameAbs(cfg: Config, env: Env, w: World, v: World, c: Cmd)
    requires SamePointer(w, v) && w.looks == v.looks
    ensures SamePointer(MoveAbs(cfg, env, w, c), MoveAbs(cfg, env, v, c))
    ensures SamePointer(MoveRel(cfg, env, w, c), MoveRel(cfg, env, v, c))
  {
    hide Clamp, Slams;
  }

  lemma {:induction false} RunAppend(cfg: Config, env: Env, w: World, a: seq<seq<seq<Cmd>>>, b: seq<seq<seq<Cmd>>>)
    requires Tables(w.pad)
    ensures Run(cfg, env, w, a + b) == Run(cfg, env, Run(cfg, env, w, a), b)
    decreases |a|
  {
    hide Drain, Tables;
    if a == [] {
      assert a + b == b;
    } else {
      assert (a + b)[0] == a[0] && (a + b)[1..] == a[1..] + b;
      RunAppend(cfg, env, Drain(cfg, env, w, a[0]), a[1..], b);
    }
  }

  /** The screen of the NeXT, and a tablet that answers only when it is asked for the sixth time. */
  const SCREEN := Config(AUTO, 16, 1200, 0, 400, 40, 40, 40, 1120, 832)

  function Flicker(): Env {
    Env(_ => 1, k => k == 5)
  }

  /** A target, a pass, a target in the far corner while the tablet is on, and 16 passes more. */
  function FlickerRun(): seq<seq<seq<Cmd>>> {
    [[[Cmd(1, MOVEA, 500, 500)]], [], [[Cmd(2, MOVEA, 1119, 831)]]] + Idle(16)
  }

  /** A route change in the middle of homing: wherever the guest's pointer
      was at the start, the slams end 48 pixels from the
      corner, and the injector believes in the corner. */
  lemma RouteChangeLosesOrigin(gx: int, gy: int)
    requires OnScreen(SCREEN, gx, gy)
    ensures Clock(Flicker()) && Tables(Start(gx, gy).pad)
    ensures !SafeRun(SCREEN, Flicker(), Start(gx, gy), FlickerRun())
    ensures var r := Run(SCREEN, Flicker(), Start(gx, gy), FlickerRun());
      r.pad.homed && r.pad.curX == 0 && r.pad.curY == 0 && r.gx == 48 && r.gy == 0
  {
    hide Drain, Run, Reporting, Idle, Tables, SafeRun;
    var cfg, env, w := SCREEN, Flicker(), Start(gx, gy);
    StartBelieved(cfg, gx, gy);
    var v := Run(cfg, env, w, FlickerRun()[..3]);
    FirstPasses(gx, gy);
    assert FlickerRun()[..3] + Idle(16) == FlickerRun();
    RunAppend(cfg, env, w, FlickerRun()[..3], Idle(16));
    IdleReports(cfg, env, v, 16);
    IdleMoves(16);
    HomingFindsIff(cfg, env, v, Idle(16));
    var r := Run(cfg, env, w, FlickerRun());
    if SafeRun(cfg, env, w, FlickerRun()) {
      RunBelieved(cfg, env, w, FlickerRun());
      assert false;
    }
  }

  lemma IdleMoves(n: nat)
    ensures forall k :: 0 <= k < |Idle(n)| ==> NoMoves(Idle(n)[k])
    ensures NoneMoving([])
  {
  }

  /** After the second of the targets the guest is in the far corner with 16 slams to go. */
  lemma FirstPasses(gx: int, gy: int)
    requires OnScreen(SCREEN, gx, gy) && Tables(Start(gx, gy).pad)
    ensures var r := Run(SCREEN, Flicker(), Start(gx, gy), FlickerRun()[..3]);
      r.queue == [] && r.looks == 8 && r.pad.haveTarget && !r.pad.homed && r.pad.homeLeft == 16 &&
      r.gx == 1056 && r.gy == 768
  {
    hide Drain, Tables, PtrTick;
    var cfg, env, w := SCREEN, Flicker(), Start(gx, gy);
    var c, d := Cmd(1, MOVEA, 500, 500), Cmd(2, MOVEA, 1119, 831);
    assert FlickerRun()[..3] == [[[c]], [], [[d]]];
    MovePass(cfg, env, w, c);
    var w1 := Drain(cfg, env, w, [[c]]);
    TickPointer(cfg, env, w1);
    LooksGrow(cfg, env, w1);
    TickKeeps(cfg, env, w1);
    var w2 := Drain(cfg, env, w1, []);
    assert w2 == PtrTick(cfg, env, w1) by { IdlePass(cfg, env, w1); }
    MovePass(cfg, env, w2, d);
    var passes := [[[c]], [], [[d]]];
    assert passes[1..] == [[], [[d]]] && passes[1..][1..] == [[[d]]] && passes[1..][1..][1..] == [];
  }

  lemma IdlePass(cfg: Config, env: Env, w: World)
    requires Tables(w.pad) && w.queue == []
    ensures Drain(cfg, env, w, []) == PtrTick(cfg, env, w)
  {
  }

  // ---------------------------------------------------------- a drifting pointer

  /** One relative move in a pass on an empty queue: it is applied, and then there is nothing left to converge to. */
  lemma RelPass(cfg: Config, env: Env, w: World, c: Cmd)
    requires Tables(w.pad) && w.queue == [] && c.verb == MOVEP && cfg.route == KMS && w.pad.homed && w.pad.homeLeft == 0
    ensures SamePointer(MoveRel(cfg, env, w, c), Drain(cfg, env, w, [[c]]))
  {
    hide Take, PtrTick, MoveAbs, SamePointer, Drain, Clamp;
    var v, m := w.(queue := [c], accepted := w.accepted + [c]), MoveRel(cfg, env, w, c);
    MoveDrained(cfg, env, w, c);
    var t := Take(cfg, env, v, c);
    TakePointer(cfg, env, v, c);
    SameAbs(cfg, env, w, v, c);
    SameTrans(m, MoveRel(cfg, env, v, c), t);
    SameBelief(cfg, m, t);
    TickPointer(cfg, env, t);
    SameTrans(m, t, PtrTick(cfg, env, t));
  }

  const MOUSE := Config(KMS, 16, 1200, 0, 400, 40, 40, 40, 1120, 832)

  /** A target in the corner, the 18 passes that bring the pointer there, and 64 counts to the right. */
  function DriftRun(): seq<seq<seq<Cmd>>> {
    [[[Cmd(1, MOVEA, 0, 0)]]] + Idle(18) + [[[Cmd(2, MOVEP, 64, 0)]]]
  }

  /** Sixty-four counts from the corner: wherever the guest's pointer was at the start, the belief is one count off. */
  lemma MoveRelDrifts(gx: int, gy: int)
    requires OnScreen(MOUSE, gx, gy)
    ensures Clock(Flicker()) && Tables(Start(gx, gy).pad)
    ensures var r := Run(MOUSE, Flicker(), Start(gx, gy), DriftRun());
      r.pad.homed && r.pad.curX == 64 && r.gx == 63
  {
    hide Drain, Run, Idle, Tables, MoveRel;
    var cfg, env, w, c := MOUSE, Flicker(), Start(gx, gy), Cmd(2, MOVEP, 64, 0);
    StartBelieved(cfg, gx, gy);
    var first := [[[Cmd(1, MOVEA, 0, 0)]]];
    RunAppend(cfg, env, w, first + Idle(18), [[[c]]]);
    RunAppend(cfg, env, w, first, Idle(18));
    InCorner(gx, gy);
    var v := Run(cfg, env, w, first + Idle(18));
    RunOne(cfg, env, v, [[c]]);
    RelPass(cfg, env, v, c);
    DriftOne(v);
  }

  lemma RunOne(cfg: Config, env: Env, w: World, batches: seq<seq<Cmd>>)
    requires Tables(w.pad)
    ensures Run(cfg, env, w, [batches]) == Drain(cfg, env, w, batches)
  {
    hide Drain;
    assert [batches][1..] == [];
  }

  lemma DriftOne(v: World)
    requires v.pad.homed && v.pad.curX == 0 && v.gx == 0
    ensures var m := MoveRel(MOUSE, Flicker(), v, Cmd(2, MOVEP, 64, 0)); m.pad.homed && m.pad.curX == 64 && m.gx == 63
  {
  }

  lemma InCorner(gx: int, gy: int)
    requires OnScreen(MOUSE, gx, gy) && Tables(Start(gx, gy).pad)
    ensures var v := Run(MOUSE, Flicker(), Run(MOUSE, Flicker(), Start(gx, gy), [[[Cmd(1, MOVEA, 0, 0)]]]), Idle(18));
      v.queue == [] && v.pad.homed && v.pad.homeLeft == 0 && v.pad.curX == 0 && v.gx == 0
  {
    hide Drain, Run, Idle, Tables, Reporting, PtrTick;
    var cfg, env, w, c := MOUSE, Flicker(), Start(gx, gy), Cmd(1, MOVEA, 0, 0);
    RunOne(cfg, env, w, [[c]]);
    MovePass(cfg, env, w, c);
    StartBelieved(cfg, gx, gy);
    var v := Drain(cfg, env, w, [[c]]);
    HomingStarted(cfg, env, w, c);
    IdleMoves(18);
    IdleMouse(v, 18);
    HomingFindsIff(cfg, env, v, Idle(18));
    RunPointer(cfg, env, v, Idle(18));
    HomingMoved(cfg, v, 18);
  }

  lemma HomingStarted(cfg: Config, env: Env, w: World, c: Cmd)
    requires cfg == MOUSE && OnScreen(cfg, w.gx, w.gy) && !w.pad.homed && w.pad.homeLeft == 0 && c.verb == MOVEA
    ensures var v := Advanced(cfg, MoveAbs(cfg, env, w, c), true);
      v.pad.haveTarget && !v.pad.homed && v.pad.homeLeft == 18 && OnScreen(cfg, v.gx, v.gy) &&
      v.gx <= 1056 && v.gy <= 768
  {
  }

  lemma {:induction false} IdleMouse(w: World, n: nat)
    requires Tables(w.pad) && w.queue == []
    ensures Reporting(MOUSE, Flicker(), w, Idle(n)) == n && Run(MOUSE, Flicker(), w, Idle(n)).queue == []
    decreases n
  {
    hide PtrTick;
    if n > 0 {
      assert Idle(n)[1..] == Idle(n - 1) && Idle(n)[0] == [];
      var r := PtrTick(MOUSE, Flicker(), w);
      TickKeeps(MOUSE, Flicker(), w);
      IdlePass(MOUSE, Flicker(), w);
      IdleMouse(r, n - 1);
    }
  }
}
