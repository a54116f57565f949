/** How sharp the bound on waiting is (src/ctlsock.c): when the floors and the settle window alone are enough, and a run
    that needs two milliseconds less than the bound. */
module CtlLateness {
  import opened Numbers
  import opened CtlModel
  import opened CtlPacing
  import opened CtlWaiting
  import opened CtlPointer

  /** The world in which the settle window is looked at. */
  function Paced(cfg: Config, env: Env, w: World, c: Cmd): World {
    CheckHold(cfg, env, CheckGap(cfg, env, w, c).w, c).w
  }

  /** Once its floor is over a command is held exactly when it is a button edge behind an unsettled pointer and its
      settle window, which opens at the first such pass, has not closed.  A window that was open when the floor was
      over makes floor and window enough. */
  lemma PastFloorHeldIff(cfg: Config, env: Env, w: World, c: Cmd, t0: nat)
    requires Clock(env) && w.pad.reportLast <= t0 && DownStamp(w.pad, DeviceOf(c)) <= t0
    requires t0 + Floor(cfg, c) <= LastRead(env, w.ticks) && w.pad.waitSince <= LastRead(env, w.ticks)
    ensures Check(cfg, env, w, c).held <==>
      c.verb == BTN && !UseTablet(cfg, env, w) && !Converged(w.pad) && cfg.settle > 0 &&
      (w.pad.waitSince == 0 || env.clock(Paced(cfg, env, w, c).ticks) < w.pad.waitSince + cfg.settle)
    ensures t0 + Floor(cfg, c) + cfg.settle <= LastRead(env, w.ticks) && 0 < w.pad.waitSince <= t0 + Floor(cfg, c) ==>
      !Check(cfg, env, w, c).held
  {
    hide CheckGap, CheckHold, Clock, LastRead, GapFloor, HoldFloor, DownStamp, DeviceOf, UseTablet, Converged;
    var g := CheckGap(cfg, env, w, c);
    GapKeeps(cfg, env, w, c);
    GapReason(cfg, env, w, c);
    ReadLater(env, w.ticks, g.w.ticks);
    HoldKeeps(cfg, env, g.w, c);
    HoldReason(cfg, env, g.w, c);
    var h := Paced(cfg, env, w, c);
    ReadLater(env, g.w.ticks, h.ticks);
    Reading(env, h.ticks);
    var now := env.clock(h.ticks);
    SinceIs(now, if w.pad.waitSince == 0 then now else w.pad.waitSince);
    LooksSame(cfg, env, w, h);
  }

  /** After a tablet has gone, a button edge waits for the whole settle window though the guest's pointer is on its
      target all the time. */
  lemma ParkedClickWaits(cfg: Config, env: Env, w: World, passes: seq<seq<seq<Cmd>>>, c: Cmd, t0: nat)
    requires Clock(env) && Believed(cfg, w) && !Grounded(w.pad) && Tables(w.pad)
    requires NoneMoving(w.queue) && forall k :: 0 <= k < |passes| ==> NoMoves(passes[k])
    requires var r := Run(cfg, env, w, passes);
      r.pad.reportLast <= t0 && DownStamp(r.pad, DeviceOf(c)) <= t0 &&
      t0 + Floor(cfg, c) <= LastRead(env, r.ticks) && r.pad.waitSince <= LastRead(env, r.ticks)
    ensures var r := Run(cfg, env, w, passes);
      r.gx == r.pad.tgtX && r.gy == r.pad.tgtY &&
      (Check(cfg, env, r, c).held <==>
        c.verb == BTN && !UseTablet(cfg, env, r) && cfg.settle > 0 &&
        (r.pad.waitSince == 0 || env.clock(Paced(cfg, env, r, c).ticks) < r.pad.waitSince + cfg.settle))
  {
    hide Run, Check, Believed, Grounded, Tables, NoneMoving, NoMoves, Clock, LastRead, Floor, DownStamp, Paced;
    ParkedNeverSettles(cfg, env, w, passes);
    PastFloorHeldIff(cfg, env, Run(cfg, env, w, passes), c, t0);
  }

  lemma Reading(env: Env, i: nat)
    requires Clock(env)
    ensures LastRead(env, i) <= env.clock(i) < U64
  {
  }

  lemma LooksSame(cfg: Config, env: Env, w: World, h: World)
    requires w.looks == h.looks
    ensures UseTablet(cfg, env, w) == UseTablet(cfg, env, h)
  {
  }

  // ---------------------------------------------------------- a late run

  const LATE := Config(KMS, 16, 1200, 1, 400, 40, 40, 40, 1120, 832)

  /** The clock when it is read for the i-th time. */
  function Read(i: nat): nat {
    if i < 3 then 1000 else if i < 6 then 1039 else if i < 8 then 2039 else if i < 11 then 3039
    else if i < 13 then 3500 else if i < 18 then 4238 else 5238
  }

  function Watch(): Env {
    Env(Read, _ => false)
  }

  lemma WatchIsClock()
    ensures Clock(Watch())
  {
  }

  const PRESS := Cmd(3, BTN, 1, 1)

  /** A key and a target are applied in the first pass; the button edge arrives at its end. */
  function Before(): seq<seq<seq<Cmd>>> {
    [[[Cmd(1, KEY, 65, 1), Cmd(2, MOVEA, 1000, 800)], [], [], [], [], [PRESS]]]
  }

  /** The button edge is at the head, and the pointer is being homed. */
  predicate Stuck(w: World, ticks: nat, since: nat, left: nat) {
    Tables(w.pad) && w.queue == [PRESS] && |w.log| == 2 && w.ticks == ticks && w.pad.waitSince == since &&
    w.pad.reportLast == 1000 && w.pad.haveTarget && !w.pad.homed && w.pad.homeLeft >= left
  }

  lemma StuckPass(w: World, ticks: nat, since: nat, left: nat, held: nat, since': nat)
    requires Stuck(w, ticks, since, left) && left > 1
    requires var v := Check(LATE, Watch(), w, PRESS); v.held && v.w.ticks == held && v.w.pad.waitSince == since'
    ensures Stuck(Drain(LATE, Watch(), w, []), held + 1, since', left - 1)
  {
    hide Check, PtrTick, Watch, Tables;
    var v := Check(LATE, Watch(), w, PRESS);
    CheckKeeps(LATE, Watch(), w, PRESS);
    CheckTable(LATE, Watch(), w, PRESS);
    TickKeeps(LATE, Watch(), v.w);
    StuckTick(v.w);
    assert Drain(LATE, Watch(), w, []) == PtrTick(LATE, Watch(), v.w);
  }

  lemma StuckTick(w: World)
    requires Tables(w.pad) && w.pad.haveTarget && !w.pad.homed && w.pad.homeLeft > 1
    ensures var r := PtrTick(LATE, Watch(), w);
      Tables(r.pad) && r.ticks == w.ticks + 1 && !r.pad.homed && r.pad.homeLeft >= w.pad.homeLeft - 1
  {
    hide Watch, Clamp;
  }

  lemma StuckGap(w: World, ticks: nat, left: nat)
    requires Stuck(w, ticks, 0, left) && left > 1 && Read(ticks) < 1040 && 1000 <= Read(ticks)
    ensures Stuck(Drain(LATE, Watch(), w, []), ticks + 2, 0, left - 1)
  {
    StuckPass(w, ticks, 0, left, ticks + 1, 0);
  }

  lemma StuckSettle(w: World, ticks: nat, since: nat, left: nat, since': nat)
    requires Stuck(w, ticks, since, left) && left > 1 && 1040 <= Read(ticks)
    requires since' == (if since == 0 then Read(ticks + 1) else since) && since' <= Read(ticks + 1) < since' + 1200
    ensures Stuck(Drain(LATE, Watch(), w, []), ticks + 3, since', left - 1)
  {
    StuckPass(w, ticks, since, left, ticks + 2, since');
  }

  /** A head that nothing holds is applied, and the pass goes on. */
  lemma HeadApplied(w: World, c: Cmd, more: seq<seq<Cmd>>)
    requires Tables(w.pad) && w.queue != [] && w.queue[0] == c && !Check(LATE, Watch(), w, c).held
    requires Check(LATE, Watch(), w, c).w == w
    ensures Tables(Take(LATE, Watch(), w, c).pad)
    ensures Drain(LATE, Watch(), w, [[], []] + more) == Drain(LATE, Watch(), Take(LATE, Watch(), w, c), more)
  {
    hide Check, Take, PtrTick, Tables;
    var batches := [[], []] + more;
    assert batches[1..][1..] == more && batches[0] == [] && batches[1..][0] == [];
    TakeTables(LATE, Watch(), w, c);
  }

  lemma FirstPass(gx: int, gy: int)
    requires OnScreen(LATE, gx, gy) && Tables(Start(gx, gy).pad)
    ensures Stuck(Run(LATE, Watch(), Start(gx, gy), Before()), 3, 0, 18)
  {
    hide Take, PtrTick, Drain, Watch;
    var key, move := Cmd(1, KEY, 65, 1), Cmd(2, MOVEA, 1000, 800);
    var w := Start(gx, gy).(queue := [key, move], accepted := [key, move]);
    FirstArrive(Start(gx, gy), key, move);
    HeadApplied(w, key, [[], [], [], [PRESS]]);
    var k := Take(LATE, Watch(), w, key);
    KeyTaken(w, key, move);
    assert [[], []] + [[], [], [], [PRESS]] == [[], [], [], [], [], [PRESS]];
    HeadApplied(k, move, [[], [PRESS]]);
    assert [[], []] + [[], [PRESS]] == [[], [], [], [PRESS]];
    MoveTaken(k, move);
    PressArrives(Take(LATE, Watch(), k, move));
    var passes := Before();
    assert passes[1..] == [];
  }

  lemma FirstArrive(w: World, c: Cmd, d: Cmd)
    requires w.queue == [] && w.accepted == [] && Tables(w.pad)
    ensures var v := w.(queue := [c, d], accepted := [c, d]);
      Drain(LATE, Watch(), w, [[c, d], [], [], [], [], [PRESS]])
      == Drain(LATE, Watch(), v, [[], [], [], [], [], [PRESS]])
  {
    hide Drain, Watch, Tables, Arrive;
    var v := w.(queue := [c, d], accepted := [c, d]);
    var a, b := [[c, d], [], [], [], [], [PRESS]], [[], [], [], [], [], [PRESS]];
    assert a[1..] == b[1..] && a[0] == [c, d] && b[0] == [];
    ArriveTwo(w, c, d);
    SameArrival(w, v, a, b);
  }

  lemma ArriveTwo(w: World, c: Cmd, d: Cmd)
    requires w.queue == [] && w.accepted == []
    ensures var v := w.(queue := [c, d], accepted := [c, d]); Arrive(w, [c, d]) == v == Arrive(v, [])
  {
    var one := w.(queue := [c], accepted := [c]);
    assert [c, d][1..] == [d] && [d][1..] == [] && [c] + [d] == [c, d] && [] + [c] == [c];
    assert Push(w, c) == one;
    assert Arrive(w, [c, d]) == Arrive(one, [d]);
    assert Arrive(one, [d]) == w.(queue := [c, d], accepted := [c, d]);
  }

  /** A pass sees its world only through what has arrived first. */
  lemma SameArrival(w: World, v: World, a: seq<seq<Cmd>>, b: seq<seq<Cmd>>)
    requires Tables(w.pad) && Tables(v.pad) && Arrive(w, Batch(a)) == Arrive(v, Batch(b)) && Later(a) == Later(b)
    ensures Drain(LATE, Watch(), w, a) == Drain(LATE, Watch(), v, b)
  {
    hide Check, Take, PtrTick, Watch, Tables, Arrive, Batch, Later;
  }

  lemma KeyTaken(w: World, c: Cmd, d: Cmd)
    requires Tables(w.pad) && w.queue == [c, d] && w.log == [] && w.ticks == 0 &&
      w.pad.waitSince == 0 && !w.pad.haveTarget
    requires !w.pad.homed && w.pad.homeLeft == 0 && c == Cmd(1, KEY, 65, 1)
    ensures var r := Take(LATE, Watch(), w, c);
      Tables(r.pad) && r.queue == [d] && |r.log| == 1 && r.ticks == 2 &&
        r.pad.reportLast == 1000 && r.pad.waitSince == 0 &&
      !r.pad.homed && r.pad.homeLeft == 0 && r.looks == w.looks
  {
    TakeTables(LATE, Watch(), w, c);
  }

  lemma MoveTaken(w: World, c: Cmd)
    requires Tables(w.pad) && w.queue == [c] && |w.log| == 1 && w.ticks == 2 &&
      w.pad.reportLast == 1000 && c.verb == MOVEA
    requires !w.pad.homed && w.pad.homeLeft == 0
    ensures var r := Take(LATE, Watch(), w, c);
      Tables(r.pad) && r.queue == [] && |r.log| == 2 && r.ticks == 2 &&
        r.pad.reportLast == 1000 && r.pad.waitSince == 0 &&
      !r.pad.homed && r.pad.homeLeft == 19 && r.pad.haveTarget
  {
    hide Clamp, Watch;
    TakeTables(LATE, Watch(), w, c);
  }

  lemma PressArrives(w: World)
    requires Tables(w.pad) && w.queue == [] && |w.log| == 2 && w.ticks == 2 && w.pad.reportLast == 1000
    requires w.pad.waitSince == 0 && w.pad.haveTarget && !w.pad.homed && w.pad.homeLeft == 19
    ensures Stuck(Drain(LATE, Watch(), w, [[], [PRESS]]), 3, 0, 18)
  {
    hide PtrTick, Watch;
    var batches := [[], [PRESS]];
    assert batches[1..] == [[PRESS]] && batches[1..][1..] == [] && [PRESS][1..] == [];
    var t := PtrTick(LATE, Watch(), w);
    TickKeeps(LATE, Watch(), w);
    StuckTick(w);
    assert t.queue + [PRESS] == [PRESS];
    assert Arrive(t, [PRESS]) == Push(t, PRESS);
    assert Drain(LATE, Watch(), w, batches) == ArriveAll(t, [[PRESS]]);
  }

  /** Passes at most a second apart, and the edge is still held two milliseconds before the bound; the floor and the
      window ran out 2998 milliseconds earlier. */
  lemma HeldPastFloorAndWindow(gx: int, gy: int)
    requires OnScreen(LATE, gx, gy)
    ensures Clock(Watch()) && Tables(Start(gx, gy).pad)
    ensures var w := Run(LATE, Watch(), Start(gx, gy), Before());
      var r := Run(LATE, Watch(), w, Idle(6));
      w.queue == [PRESS] && r.queue == [PRESS] && |r.log| == |w.log| && Steady(LATE, Watch(), w, Idle(6), 1000) &&
      LastRead(Watch(), w.ticks) + Floor(LATE, PRESS) + LATE.settle == 2240 &&
      LastRead(Watch(), r.ticks) == 5238 == 2240 + 3 * 1000 - 2
  {
    hide Run, Drain, Tables, Stuck, Idle, Steady, Watch, Read;
    WatchIsClock();
    StartBelieved(LATE, gx, gy);
    FirstPass(gx, gy);
    var w := Run(LATE, Watch(), Start(gx, gy), Before());
    StuckMeans(w, 3, 0, 18);
    LateGaps(w);
    var w2 := Drain(LATE, Watch(), Drain(LATE, Watch(), w, []), []);
    LateWindow(w2);
    var r := Run(LATE, Watch(), w, Idle(6));
    StuckMeans(r, 19, 3039, 12);
    ReadingsAt();
  }

  lemma ReadingsAt()
    ensures LastRead(Watch(), 3) == 1000 && LastRead(Watch(), 19) == 5238 && Floor(LATE, PRESS) == 40
  {
  }

  lemma StuckMeans(w: World, ticks: nat, since: nat, left: nat)
    requires Stuck(w, ticks, since, left)
    ensures Tables(w.pad) && w.ticks == ticks && w.queue == [PRESS] && |w.log| == 2
  {
  }

  /** A pass of at most a second in front of others. */
  lemma PassInFront(w: World, n: nat, ticks: nat, ticks': nat)
    requires Tables(w.pad) && w.ticks == ticks > 0 && Drain(LATE, Watch(), w, []).ticks == ticks' > 0 && n > 0
    requires Read(ticks' - 1) <= Read(ticks - 1) + 1000
    ensures var v := Drain(LATE, Watch(), w, []);
      Run(LATE, Watch(), w, Idle(n)) == Run(LATE, Watch(), v, Idle(n - 1)) &&
      (Steady(LATE, Watch(), w, Idle(n), 1000) <==> Steady(LATE, Watch(), v, Idle(n - 1), 1000))
  {
    hide Drain, Tables, Read;
    assert Idle(n)[0] == [] && Idle(n)[1..] == Idle(n - 1);
  }

  /** Twice the gap floor holds the edge, the second time in a pass of a second. */
  lemma LateGaps(w: World)
    requires Tables(w.pad) && Stuck(w, 3, 0, 18)
    ensures var v := Drain(LATE, Watch(), Drain(LATE, Watch(), w, []), []);
      Stuck(v, 7, 0, 16) && Run(LATE, Watch(), w, Idle(6)) == Run(LATE, Watch(), v, Idle(4)) &&
      (Steady(LATE, Watch(), w, Idle(6), 1000) <==> Steady(LATE, Watch(), v, Idle(4), 1000))
  {
    hide Run, Drain, Tables, Stuck, Idle, Steady, Watch;
    var w1 := Drain(LATE, Watch(), w, []);
    StuckGap(w, 3, 18);
    StuckGap(w1, 5, 17);
    StuckMeans(w, 3, 0, 18);
    StuckMeans(w1, 5, 0, 17);
    StuckMeans(Drain(LATE, Watch(), w1, []), 7, 0, 16);
    PassInFront(w, 6, 3, 5);
    PassInFront(w1, 5, 5, 7);
  }

  /** The window opens a second later, and four passes meet it open. */
  lemma LateWindow(w: World)
    requires Tables(w.pad) && Stuck(w, 7, 0, 16)
    ensures Stuck(Run(LATE, Watch(), w, Idle(4)), 19, 3039, 12) && Steady(LATE, Watch(), w, Idle(4), 1000)
  {
    hide Run, Drain, Tables, Stuck, Idle, Steady, Watch;
    var w1 := Drain(LATE, Watch(), w, []);
    StuckSettle(w, 7, 0, 16, 3039);
    var w2 := Drain(LATE, Watch(), w1, []);
    StuckSettle(w1, 10, 3039, 15, 3039);
    var w3 := Drain(LATE, Watch(), w2, []);
    StuckSettle(w2, 13, 3039, 14, 3039);
    var w4 := Drain(LATE, Watch(), w3, []);
    StuckSettle(w3, 16, 3039, 13, 3039);
    StuckMeans(w, 7, 0, 16);
    StuckMeans(w1, 10, 3039, 15);
    StuckMeans(w2, 13, 3039, 14);
    StuckMeans(w3, 16, 3039, 13);
    StuckMeans(w4, 19, 3039, 12);
    PassInFront(w, 4, 7, 10);
    PassInFront(w1, 3, 10, 13);
    PassInFront(w2, 2, 13, 16);
    PassInFront(w3, 1, 16, 19);
    RunNone(w4);
  }

  lemma RunNone(w: World)
    requires Tables(w.pad)
    ensures Run(LATE, Watch(), w, Idle(0)) == w && Steady(LATE, Watch(), w, Idle(0), 1000)
  {
  }
}
