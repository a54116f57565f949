/** src/ctlsock.c: the command ring, the dwell tables and the pointer state, updated in place. */
module CtlSock {
  import opened CtlModel
  import opened CtlPacing
  import opened CtlPointer

  /** The commands between head and tail of a ring with one slot always empty. */
  function Slots(q: seq<Cmd>, head: nat, tail: nat): seq<Cmd>
    requires |q| == QUEUE && head < QUEUE && tail < QUEUE
  {
    if head <= tail then q[head..tail] else q[head..] + q[..tail]
  }

  function After(i: nat): nat {
    if i + 1 >= QUEUE then 0 else i + 1
  }

  lemma SlotsLength(q: seq<Cmd>, head: nat, tail: nat)
    requires |q| == QUEUE && head < QUEUE && tail < QUEUE
    ensures |Slots(q, head, tail)| < QUEUE
    ensures Slots(q, head, tail) == [] <==> head == tail
    ensures |Slots(q, head, tail)| == QUEUE - 1 <==> After(tail) == head
  {
  }

  lemma SlotsPush(q: seq<Cmd>, head: nat, tail: nat, c: Cmd)
    requires |q| == QUEUE && head < QUEUE && tail < QUEUE && After(tail) != head
    ensures Slots(q[tail := c], head, After(tail)) == Slots(q, head, tail) + [c]
  {
  }

  lemma SlotsPop(q: seq<Cmd>, head: nat, tail: nat)
    requires |q| == QUEUE && head < QUEUE && tail < QUEUE && head != tail
    ensures Slots(q, head, tail) != [] && Slots(q, head, tail)[0] == q[head]
    ensures Slots(q, After(head), tail) == Slots(q, head, tail)[1..]
  {
    if head < tail {
      assert q[head..tail][1..] == q[head + 1..tail];
    } else if head + 1 < QUEUE {
      DropFront(q[head..], q[..tail]);
      assert q[head..][1..] == q[head + 1..];
    } else {
      assert q[head..] == [q[head]];
    }
  }

  lemma DropFront(a: seq<Cmd>, b: seq<Cmd>)
    requires a != []
    ensures (a + b)[1..] == a[1..] + b
  {
  }

  class Injector {
    const cfg: Config
    const env: Env
    const q: array<Cmd>
    var head: nat
    var tail: nat
    var mods: bv8
    var left: int
    var right: int
    var tgtX: int
    var tgtY: int
    var curX: int
    var curY: int
    var homed: bool
    var haveTarget: bool
    var homeLeft: nat
    var waitSince: nat
    var lastReport: nat
    var reportLast: nat
    const btnDownAt: array<nat>
    const keyDownAt: array<nat>
    const modDownAt: array<nat>
    var ticks: nat
    var looks: nat
    /** The state of the model this object is in. */
    ghost var w: World

    ghost predicate Pointing()
      reads this
    {
      tgtX == w.pad.tgtX && tgtY == w.pad.tgtY && curX == w.pad.curX && curY == w.pad.curY && homed == w.pad.homed &&
      haveTarget == w.pad.haveTarget && homeLeft == w.pad.homeLeft && lastReport == w.pad.lastReport
    }

    ghost predicate Timed()
      reads this
    {
      ticks == w.ticks && looks == w.looks && waitSince == w.pad.waitSince && reportLast == w.pad.reportLast &&
      mods == w.pad.mods && left == w.pad.left && right == w.pad.right
    }

    ghost predicate Tabled()
      reads this, btnDownAt, keyDownAt, modDownAt
    {
      btnDownAt.Length == 4 && keyDownAt.Length == 256 && modDownAt.Length == 8 &&
      btnDownAt[..] == w.pad.btnDown && keyDownAt[..] == w.pad.keyDown && modDownAt[..] == w.pad.modDown
    }

    ghost predicate Queued()
      reads this, q
    {
      q.Length == QUEUE && head < QUEUE && tail < QUEUE && Slots(q[..], head, tail) == w.queue
    }

    ghost predicate Valid()
      reads this, q, btnDownAt, keyDownAt, modDownAt
    {
      Pointing() && Timed() && Tabled() && Queued()
    }

    constructor (config: Config, environment: Env, ghost x: int, ghost y: int)
      ensures Valid() && w == Start(x, y) && cfg == config && env == environment
      ensures fresh(q) && fresh(btnDownAt) && fresh(keyDownAt) && fresh(modDownAt)
    {
      cfg, env := config, environment;
      q := new Cmd[QUEUE](_ => Cmd(0, NOP, 0, 0));
      head, tail := 0, 0;
      mods, left, right, tgtX, tgtY, curX, curY := 0, 0, 0, 0, 0, 0, 0;
      homed, haveTarget, homeLeft, waitSince, lastReport, reportLast := false, false, 0, 0, 0, 0;
      btnDownAt := new nat[4](_ => 0);
      keyDownAt := new nat[256](_ => 0);
      modDownAt := new nat[8](_ => 0);
      ticks, looks := 0, 0;
      w := Start(x, y);
      new;
      assert btnDownAt[..] == seq(4, _ => 0);
      assert keyDownAt[..] == seq(256, _ => 0);
      assert modDownAt[..] == seq(8, _ => 0);
    }

    /** ctl_push */
    method PushCmd(c: Cmd) returns (ok: bool)
      requires Valid()
      modifies this`tail, this`w, q
      ensures Valid() && w == Push(old(w), c)
      ensures ok <==> |old(w).queue| < QUEUE - 1
    {
      hide Slots;
      SlotsLength(q[..], head, tail);
      var next := tail + 1;
      if next >= QUEUE {
        next := 0;
      }
      ok := false;
      w := Push(w, c);
      if next != head {
        SlotsPush(q[..], head, tail, c);
        ghost var was := q[..];
        q[tail] := c;
        assert q[..] == was[tail := c];
        tail := next;
        ok := true;
      }
    }

    method PushAll(batch: seq<Cmd>)
      requires Valid()
      modifies this`tail, this`w, q
      ensures Valid() && w == Arrive(old(w), batch)
    {
      hide Push, Valid;
      for k := 0 to |batch|
        invariant Valid() && Arrive(w, batch[k..]) == Arrive(old(w), batch)
      {
        assert batch[k..][0] == batch[k] && batch[k..][1..] == batch[k + 1..];
        var _ := PushCmd(batch[k]);
      }
    }

    /** SDL_GetTicks */
    method Now() returns (t: nat)
      requires Timed()
      modifies this`ticks, this`w
      ensures t == env.clock(old(ticks)) && Timed() && w == old(w).(ticks := old(ticks) + 1)
    {
      t := env.clock(ticks);
      ticks := ticks + 1;
      w := w.(ticks := ticks);
    }

    /** ctl_use_tablet */
    method TabletInUse() returns (b: bool)
      requires Timed()
      modifies this`looks, this`w
      ensures Timed() && w == Look(old(w)) && b == UseTablet(cfg, env, old(w))
    {
      match cfg.route {
        case KMS => b := false;
        case TABLET => b := true;
        case AUTO => b := env.tablet(looks);
      }
      looks := looks + 1;
      w := Look(w);
    }

    /** ctl_ptr_settled */
    method PtrSettled() returns (b: bool)
      requires Timed() && Pointing()
      modifies this`looks, this`w
      ensures Timed() && Pointing() && w == Look(old(w))
      ensures b == (UseTablet(cfg, env, old(w)) || Converged(old(w).pad))
    {
      hide UseTablet;
      var t := TabletInUse();
      if t {
        return true;
      }
      if !haveTarget {
        return true;
      }
      b := homed && homeLeft == 0 && curX == tgtX && curY == tgtY;
    }

    /** ctlsock.c:683-702 */
    method MovePointer()
      requires Pointing()
      modifies this`w, this`homeLeft, this`curX, this`curY, this`homed
      ensures Pointing() && w == Move(cfg, old(w))
    {
      hide Clamp;
      w := Move(cfg, w);
      if homeLeft > 0 {
        homeLeft := homeLeft - 1;
        if homeLeft == 0 {
          curX, curY, homed := 0, 0, true;
        }
        return;
      }
      var step := cfg.step as int;
      var dx, dy := Clamp(tgtX - curX, -step, step), Clamp(tgtY - curY, -step, step);
      if dx == 0 && dy == 0 {
        return;
      }
      curX, curY := curX + dx, curY + dy;
    }

    /** ctlsock.c:676-682: does the rate limit let this tick report? */
    method RateAllows() returns (go: bool)
      requires Pointing() && Timed()
      modifies this`ticks, this`lastReport, this`w
      ensures Pointing() && Timed() && w == Limit(cfg, env, old(w)) && go == Effective(cfg, env, old(w))
    {
      hide Since;
      go := true;
      if cfg.rate > 0 {
        var now := Now();
        go := Since(now, lastReport) >= cfg.rate;
        if go {
          lastReport := now;
          w := w.(pad := w.pad.(lastReport := now));
        }
      }
    }

    /** ctl_ptr_tick */
    method Tick()
      requires Pointing() && Timed()
      modifies this`ticks, this`looks, this`lastReport, this`w, this`homeLeft, this`curX, this`curY, this`homed
      ensures Pointing() && Timed() && w == PtrTick(cfg, env, old(w))
    {
      hide Move, Limit, UseTablet, Converged, Since;
      var t := TabletInUse();
      if t {
        return;
      }
      var s := PtrSettled();
      if s {
        return;
      }
      var go := RateAllows();
      if go {
        MoveFrame(cfg, w);
        MovePointer();
      }
    }

    /** The gap floors (ctlsock.c:885-888 and 913-916). */
    method HeldByGap(c: Cmd) returns (held: bool)
      requires Timed()
      modifies this`ticks, this`w
      ensures Timed() && Verdict(held, w) == CheckGap(cfg, env, old(w), c)
    {
      hide Since;
      held := false;
      if (c.verb == KEY || c.verb == MOD || c.verb == RELEASE) && cfg.keyGap > 0 && reportLast != 0 {
        var now := Now();
        held := Since(now, reportLast) < cfg.keyGap;
      }
      if c.verb == BTN && c.a != 3 && cfg.btnGap > 0 && reportLast != 0 {
        var now := Now();
        held := Since(now, reportLast) < cfg.btnGap;
      }
    }

    /** The hold floors (ctlsock.c:893-904 and 917-923). */
    method HeldByDwell(c: Cmd) returns (held: bool)
      requires Timed() && Tabled()
      modifies this`ticks, this`w
      ensures Timed() && Tabled() && Verdict(held, w) == CheckHold(cfg, env, old(w), c)
    {
      hide Since, ModIndex, Byte;
      held := false;
      if c.verb == KEY && c.b == 0 && cfg.keyHold > 0 {
        var down := keyDownAt[c.a % 256];
        if down != 0 {
          var now := Now();
          held := Since(now, down) < cfg.keyHold;
        }
      }
      if c.verb == MOD && c.b == 0 && cfg.keyHold > 0 {
        var down := modDownAt[ModIndex(Byte(c.a))];
        if down != 0 {
          var now := Now();
          held := Since(now, down) < cfg.keyHold;
        }
      }
      if c.verb == BTN && c.b == 0 && 1 <= c.a <= 3 && cfg.btnHold > 0 {
        var down := btnDownAt[c.a];
        var now := Now();
        held := down != 0 && Since(now, down) < cfg.btnHold;
      }
    }

    /** A button edge behind an unconverged pointer (ctlsock.c:927-936). */
    method HeldByPointer(c: Cmd) returns (held: bool)
      requires Timed() && Pointing()
      modifies this`ticks, this`looks, this`waitSince, this`w
      ensures Timed() && Pointing() && Verdict(held, w) == CheckSettle(cfg, env, old(w), c)
    {
      hide Since, Converged, UseTablet;
      held := false;
      if c.verb == BTN {
        var settled := PtrSettled();
        if !settled {
          var now := Now();
          if waitSince == 0 {
            waitSince := now;
          }
          w := w.(pad := w.pad.(waitSince := waitSince));
          held := Since(now, waitSince) < cfg.settle;
        }
      }
    }

    /** Is the head of the queue held back? */
    method Held(c: Cmd) returns (held: bool)
      requires Valid()
      modifies this`ticks, this`looks, this`waitSince, this`w
      ensures Valid() && Verdict(held, w) == Check(cfg, env, old(w), c)
    {
      hide CheckGap, CheckHold, CheckSettle, Slots;
      GapKeeps(cfg, env, w, c);
      held := HeldByGap(c);
      if !held {
        HoldKeeps(cfg, env, w, c);
        held := HeldByDwell(c);
        if !held {
          SettleKeeps(cfg, env, w, c);
          held := HeldByPointer(c);
        }
      }
    }

    /** The MOVEA branch of ctl_apply. */
    method ApplyMoveAbs(c: Cmd)
      requires Timed() && Pointing()
      modifies this`looks, this`tgtX, this`tgtY, this`haveTarget, this`curX, this`curY, this`homeLeft, this`w
      ensures Timed() && Pointing() && w == MoveAbs(cfg, env, old(w), c)
    {
      hide Clamp, UseTablet, MoveAbs, Slams;
      ghost var r := MoveAbs(cfg, env, w, c);
      MoveAbsFields(cfg, env, w, c);
      var x, y := Clamp(c.a, 0, cfg.width - 1), Clamp(c.b, 0, cfg.height - 1);
      var t := TabletInUse();
      if t {
        curX, curY := x, y;
      } else if !homed && homeLeft == 0 {
        homeLeft := Slams(cfg);
      }
      tgtX, tgtY, haveTarget := x, y, true;
      w := r;
    }

    /** The MOVEP branch of ctl_apply. */
    method ApplyMoveRel(c: Cmd)
      requires Timed() && Pointing()
      modifies this`looks, this`tgtX, this`tgtY, this`curX, this`curY, this`w
      ensures Timed() && Pointing() && w == MoveRel(cfg, env, old(w), c)
    {
      hide Clamp, UseTablet, MoveRel;
      ghost var r := MoveRel(cfg, env, w, c);
      MoveRelFields(cfg, env, w, c);
      var t := TabletInUse();
      if !t {
        curX := Clamp(curX + c.a, 0, cfg.width - 1);
        curY := Clamp(curY + c.b, 0, cfg.height - 1);
        tgtX, tgtY := curX, curY;
      }
      w := r;
    }

    /** The BTN branch of ctl_apply: one report for both buttons, whichever route. */
    method ApplyButton(c: Cmd)
      requires Timed() && Tabled() && c.verb == BTN
      modifies this`ticks, this`looks, this`left, this`right, this`reportLast, this`w, btnDownAt
      ensures Timed() && Tabled() && w == ApplyCmd(cfg, env, old(w), c)
    {
      hide ApplyCmd, UseTablet;
      ghost var r := ApplyCmd(cfg, env, w, c);
      ButtonFields(cfg, env, w, c);
      if 1 <= c.a <= 3 && c.b != 0 {
        var now := Now();
        btnDownAt[c.a] := now;
      }
      if c.a != 3 {
        var _ := TabletInUse();
        var now := Now();
        reportLast := now;
      }
      left := if c.a == 1 then c.b else left;
      right := if c.a == 2 then c.b else right;
      w := r;
    }

    /** The KEY branch of ctl_apply. */
    method ApplyKey(c: Cmd)
      requires Timed() && Tabled() && c.verb == KEY
      modifies this`ticks, this`reportLast, this`w, keyDownAt
      ensures Timed() && Tabled() && w == ApplyCmd(cfg, env, old(w), c)
    {
      hide ApplyCmd;
      ghost var r := ApplyCmd(cfg, env, w, c);
      KeyFields(cfg, env, w, c);
      var down := 0;
      if c.b != 0 {
        down := Now();
      }
      keyDownAt[c.a % 256] := down;
      var now := Now();
      reportLast := now;
      w := r;
    }

    /** The MOD branch of ctl_apply: the mask changes before the edge is sent. */
    method ApplyModifier(c: Cmd)
      requires Timed() && Tabled() && c.verb == MOD
      modifies this`ticks, this`mods, this`reportLast, this`w, modDownAt
      ensures Timed() && Tabled() && w == ApplyCmd(cfg, env, old(w), c)
    {
      hide ApplyCmd, ModIndex, Byte, NewMask;
      ghost var r := ApplyCmd(cfg, env, w, c);
      ModifierFields(cfg, env, w, c);
      var down := 0;
      if c.b != 0 {
        down := Now();
      }
      modDownAt[ModIndex(Byte(c.a))] := down;
      var now := Now();
      mods := NewMask(mods, c);
      reportLast := now;
      w := r;
    }

    /** The RELEASE branch of ctl_apply. */
    method ApplyRelease(c: Cmd)
      requires Timed() && Tabled() && c.verb == RELEASE
      modifies this`ticks, this`mods, this`left, this`right, this`reportLast, this`w, btnDownAt, keyDownAt, modDownAt
      ensures Timed() && Tabled() && w == ApplyCmd(cfg, env, old(w), c)
    {
      hide ApplyCmd;
      ghost var r := ApplyCmd(cfg, env, w, c);
      ReleaseFields(cfg, env, w, c);
      var now := Now();
      mods, left, right, reportLast := 0, 0, 0, now;
      w := r;
      ZeroFill(keyDownAt);
      ZeroFill(modDownAt);
      ZeroFill(btnDownAt);
    }

    method ApplyMotion(c: Cmd)
      requires Valid() && Motion(c)
      modifies this`looks, this`tgtX, this`tgtY, this`haveTarget, this`curX, this`curY, this`homeLeft, this`w
      ensures Valid() && Tables(old(w).pad) && w == ApplyCmd(cfg, env, old(w), c)
    {
      hide ApplyCmd, MoveAbs, MoveRel, Slots;
      MotionKeeps(cfg, env, w, c);
      MotionQueue(cfg, env, w, c);
      MotionNoted(cfg, env, w, c);
      ghost var n := ticks;
      if c.verb == MOVEA {
        ApplyMoveAbs(c);
      } else {
        ApplyMoveRel(c);
      }
      w := Note(env, w, c, n);
    }

    method ApplyReport(c: Cmd)
      requires Valid() && IsReportVerb(c)
      modifies this`ticks, this`looks, this`mods, this`left, this`right,
        this`reportLast, this`w, btnDownAt, keyDownAt, modDownAt
      ensures Valid() && Tables(old(w).pad) && w == ApplyCmd(cfg, env, old(w), c)
    {
      hide ApplyCmd, Slots;
      ApplyKeeps(cfg, env, w, c);
      ApplyFrame(cfg, env, w, c);
      if c.verb == BTN {
        ApplyButton(c);
      } else if c.verb == KEY {
        ApplyKey(c);
      } else if c.verb == MOD {
        ApplyModifier(c);
      } else {
        ApplyRelease(c);
      }
    }

    /** ctl_apply */
    method Apply(c: Cmd)
      requires Valid()
      modifies this, btnDownAt, keyDownAt, modDownAt
      ensures Valid() && Tables(old(w).pad) && w == ApplyCmd(cfg, env, old(w), c)
      ensures head == old(head) && tail == old(tail)
    {
      hide ApplyCmd, Slots;
      if c.verb == MOVEA || c.verb == MOVEP {
        ApplyMotion(c);
      } else if IsReportVerb(c) {
        ApplyReport(c);
      } else {
        ApplyKeeps(cfg, env, w, c);
        ApplyFrame(cfg, env, w, c);
        w := ApplyCmd(cfg, env, w, c);
      }
    }

    /** CtlSock_Drain, with what the producer pushes whenever the lock is free. */
    method DrainQueue(batches: seq<seq<Cmd>>)
      requires Valid()
      modifies this, q, btnDownAt, keyDownAt, modDownAt
      ensures Valid() && Tables(old(w).pad) && w == Drain(cfg, env, old(w), batches)
    {
      hide Arrive, Check, Take, PtrTick, Slots, ApplyCmd, Total;
      ghost var goal := Drain(cfg, env, w, batches);
      var rest := batches;
      while true
        invariant Valid() && Drain(cfg, env, w, rest) == goal
        decreases |w.queue| + Total(rest)
      {
        ghost var w0 := w;
        TotalIs(rest);
        PushAll(Batch(rest));
        rest := Later(rest);
        SlotsLength(q[..], head, tail);
        if head == tail {
          assert goal == ArriveAll(PtrTick(cfg, env, w), rest);
          break;
        }
        SlotsPop(q[..], head, tail);
        var c := q[head];
        CheckKeeps(cfg, env, w, c);
        var held := Held(c);
        if held {
          assert goal == ArriveAll(PtrTick(cfg, env, w), rest);
          break;
        }
        TotalIs(rest);
        ghost var w1 := w;
        PushAll(Batch(rest));
        rest := Later(rest);
        assert w.queue[0] == c by { assert w.queue[..|w1.queue|] == w1.queue; }
        TakeTables(cfg, env, w, c);
        TakeHead(c);
      }
      TickKeeps(cfg, env, w);
      Tick();
      PushRest(rest);
    }

    /** ctlsock.c:937-943 */
    method TakeHead(c: Cmd)
      requires Valid() && w.queue != [] && w.queue[0] == c
      modifies this, btnDownAt, keyDownAt, modDownAt
      ensures Valid() && Tables(old(w).pad) && w == Take(cfg, env, old(w), c)
    {
      hide ApplyCmd, Slots;
      SlotsLength(q[..], head, tail);
      SlotsPop(q[..], head, tail);
      waitSince := 0;
      head := if head + 1 >= QUEUE then 0 else head + 1;
      w := w.(queue := w.queue[1..], pad := w.pad.(waitSince := 0));
      Apply(c);
      w := Reply(w, c);
    }

    method PushRest(batches: seq<seq<Cmd>>)
      requires Valid()
      modifies this`tail, this`w, q
      ensures Valid() && w == ArriveAll(old(w), batches)
    {
      hide Arrive, Valid;
      for k := 0 to |batches|
        invariant Valid() && ArriveAll(w, batches[k..]) == ArriveAll(old(w), batches)
      {
        assert batches[k..][0] == batches[k] && batches[k..][1..] == batches[k + 1..];
        PushAll(batches[k]);
      }
    }

    /** memset */
    static method ZeroFill(a: array<nat>)
      modifies a
      ensures a[..] == seq(a.Length, _ => 0)
    {
      forall k | 0 <= k < a.Length {
        a[k] := 0;
      }
    }
  }

  /** What a command other than a motion leaves alone. */
  lemma ApplyFrame(cfg: Config, env: Env, w: World, c: Cmd)
    requires Tables(w.pad) && !Motion(c)
    ensures var r, p, q := ApplyCmd(cfg, env, w, c), w.pad, ApplyCmd(cfg, env, w, c).pad;
      q.tgtX == p.tgtX && q.tgtY == p.tgtY && q.curX == p.curX && q.curY == p.curY && q.homed == p.homed &&
      q.haveTarget == p.haveTarget && q.homeLeft == p.homeLeft && q.lastReport == p.lastReport
    ensures var r, p, q := ApplyCmd(cfg, env, w, c), w.pad, ApplyCmd(cfg, env, w, c).pad;
      c.verb == NOP || c.verb == NET || c.verb == FBSYNC ==>
        r.ticks == w.ticks && r.looks == w.looks && q == p
  {
    hide DeviceOf, Edge, Note;
    EdgePointer(w.pad, c, env.clock(w.ticks));
    EdgeOther(w.pad, c, env.clock(w.ticks));
    NoteFrame(env, w, c);
    assert c.verb == NOP || c.verb == NET || c.verb == FBSYNC ==> DeviceOf(c) == NoDevice by { hide *; OtherDevice(c); }
  }

  lemma EdgeOther(p: Pad, c: Cmd, t: nat)
    requires Tables(p)
    ensures Edge(p, c, t).lastReport == p.lastReport
    ensures c.verb == NOP || c.verb == NET || c.verb == FBSYNC ==> Edge(p, c, t) == p
  {
    hide ModIndex, Byte, NewMask;
  }

  lemma OtherDevice(c: Cmd)
    ensures c.verb == NOP || c.verb == NET || c.verb == FBSYNC ==> DeviceOf(c) == NoDevice
  {
  }

  lemma NoteFrame(env: Env, w: World, c: Cmd)
    ensures forall v: World, n: nat :: Note(env, v, c, n) == v.(log := Note(env, v, c, n).log)
  {
  }

  lemma MoveAbsFields(cfg: Config, env: Env, w: World, c: Cmd)
    ensures var r, p, q, t := MoveAbs(cfg, env, w, c), w.pad, MoveAbs(cfg, env, w, c).pad, UseTablet(cfg, env, w);
      r.ticks == w.ticks && r.looks == w.looks + 1 && q.waitSince == p.waitSince && q.reportLast == p.reportLast &&
      q.mods == p.mods && q.left == p.left && q.right == p.right && q.haveTarget && q.lastReport == p.lastReport &&
      q.tgtX == Clamp(c.a, 0, cfg.width - 1) && q.tgtY == Clamp(c.b, 0, cfg.height - 1) && q.homed == p.homed &&
      q.curX == (if t then q.tgtX else p.curX) && q.curY == (if t then q.tgtY else p.curY) &&
      q.homeLeft == (if !t && !p.homed && p.homeLeft == 0 then Slams(cfg) else p.homeLeft)
  {
    hide Clamp, Slams;
  }

  lemma MoveRelFields(cfg: Config, env: Env, w: World, c: Cmd)
    ensures var r, p, q, t := MoveRel(cfg, env, w, c), w.pad, MoveRel(cfg, env, w, c).pad, UseTablet(cfg, env, w);
      r.ticks == w.ticks && r.looks == w.looks + 1 && q.waitSince == p.waitSince && q.reportLast == p.reportLast &&
      q.mods == p.mods && q.left == p.left && q.right == p.right && q.haveTarget == p.haveTarget &&
      q.lastReport == p.lastReport && q.homed == p.homed && q.homeLeft == p.homeLeft &&
      q.curX == (if t then p.curX else Clamp(p.curX + c.a, 0, cfg.width - 1)) &&
        q.tgtX == (if t then p.tgtX else q.curX) &&
      q.curY == (if t then p.curY else Clamp(p.curY + c.b, 0, cfg.height - 1)) &&
        q.tgtY == (if t then p.tgtY else q.curY)
  {
    hide Clamp;
  }

  lemma ButtonFields(cfg: Config, env: Env, w: World, c: Cmd)
    requires Tables(w.pad) && c.verb == BTN
    ensures var r, p, q := ApplyCmd(cfg, env, w, c), w.pad, ApplyCmd(cfg, env, w, c).pad;
      var press := c.b != 0 && 1 <= c.a <= 3;
      var sent := if press then w.ticks + 1 else w.ticks;
      r.ticks == (if c.a != 3 then sent + 1 else sent) && r.looks == (if c.a != 3 then w.looks + 1 else w.looks) &&
      q.waitSince == p.waitSince && q.reportLast == (if c.a != 3 then env.clock(sent) else p.reportLast) &&
      q.mods == p.mods && q.left == (if c.a == 1 then c.b else p.left) &&
        q.right == (if c.a == 2 then c.b else p.right) &&
      q.btnDown == (if press then p.btnDown[c.a := env.clock(w.ticks)] else p.btnDown) &&
      q.keyDown == p.keyDown && q.modDown == p.modDown
  {
  }

  lemma KeyFields(cfg: Config, env: Env, w: World, c: Cmd)
    requires Tables(w.pad) && c.verb == KEY
    ensures var r, p, q := ApplyCmd(cfg, env, w, c), w.pad, ApplyCmd(cfg, env, w, c).pad;
      var sent := if c.b != 0 then w.ticks + 1 else w.ticks;
      r.ticks == sent + 1 && r.looks == w.looks && q.waitSince == p.waitSince && q.reportLast == env.clock(sent) &&
      q.mods == p.mods && q.left == p.left && q.right == p.right &&
      q.keyDown == p.keyDown[c.a % 256 := if c.b != 0 then env.clock(w.ticks) else 0] &&
      q.btnDown == p.btnDown && q.modDown == p.modDown
  {
  }

  lemma ModifierFields(cfg: Config, env: Env, w: World, c: Cmd)
    requires Tables(w.pad) && c.verb == MOD
    ensures var r, p, q := ApplyCmd(cfg, env, w, c), w.pad, ApplyCmd(cfg, env, w, c).pad;
      var sent := if c.b != 0 then w.ticks + 1 else w.ticks;
      r.ticks == sent + 1 && r.looks == w.looks && q.waitSince == p.waitSince && q.reportLast == env.clock(sent) &&
      q.mods == NewMask(p.mods, c) && q.left == p.left && q.right == p.right &&
      q.modDown == p.modDown[ModIndex(Byte(c.a)) := if c.b != 0 then env.clock(w.ticks) else 0] &&
      q.btnDown == p.btnDown && q.keyDown == p.keyDown
  {
    hide ModIndex, Byte, NewMask;
  }

  lemma ReleaseFields(cfg: Config, env: Env, w: World, c: Cmd)
    requires Tables(w.pad) && c.verb == RELEASE
    ensures var r, p, q := ApplyCmd(cfg, env, w, c), w.pad, ApplyCmd(cfg, env, w, c).pad;
      r.ticks == w.ticks + 1 && r.looks == w.looks && q.waitSince == p.waitSince &&
        q.reportLast == env.clock(w.ticks) &&
      q.mods == 0 && q.left == 0 && q.right == 0 &&
      q.btnDown == seq(4, _ => 0) && q.keyDown == seq(256, _ => 0) && q.modDown == seq(8, _ => 0)
  {
  }

  predicate IsReportVerb(c: Cmd) {
    c.verb == BTN || c.verb == KEY || c.verb == MOD || c.verb == RELEASE
  }

  lemma MotionQueue(cfg: Config, env: Env, w: World, c: Cmd)
    ensures MoveAbs(cfg, env, w, c).queue == w.queue && MoveRel(cfg, env, w, c).queue == w.queue
  {
    hide Clamp, UseTablet, Slams;
  }

  lemma MotionNoted(cfg: Config, env: Env, w: World, c: Cmd)
    requires Tables(w.pad) && Motion(c)
    ensures ApplyCmd(cfg, env, w, c) ==
      Note(env, if c.verb == MOVEA then MoveAbs(cfg, env, w, c) else MoveRel(cfg, env, w, c), c, w.ticks)
  {
    hide MoveAbs, MoveRel, Note;
  }

  lemma MoveFrame(cfg: Config, w: World)
    ensures var r := Move(cfg, w);
      r.ticks == w.ticks && r.looks == w.looks && r.pad.waitSince == w.pad.waitSince &&
      r.pad.reportLast == w.pad.reportLast && r.pad.mods == w.pad.mods && r.pad.left == w.pad.left &&
        r.pad.right == w.pad.right
  {
    hide Clamp;
  }
}
