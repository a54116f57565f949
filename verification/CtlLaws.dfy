/** The laws of the injector's output in the terms of its input: what every report carries, and how far apart reports
    are, over every run (src/ctlsock.c). */
module CtlLaws {
  import opened CtlModel
  import opened CtlPacing

  // ---------------------------------------------------------- the modifier mask

  /** One of the eight modifiers. */
  predicate OneBit(bit: bv8) {
    bit == 1 || bit == 2 || bit == 4 || bit == 8 || bit == 16 || bit == 32 || bit == 64 || bit == 128
  }

  predicate Has(m: bv8, bit: bv8) {
    m & bit != 0
  }

  /** The command says something about the modifier. */
  predicate Concerns(c: Cmd, bit: bv8) {
    c.verb == RELEASE || (c.verb == MOD && Has(Byte(c.a), bit))
  }

  /** The last of the commands that says something about the modifier is its press. */
  predicate HeldDown(cs: seq<Cmd>, bit: bv8) {
    exists k :: 0 <= k < |cs| && cs[k].verb == MOD && cs[k].b != 0 && Has(Byte(cs[k].a), bit) &&
      forall j :: k < j < |cs| ==> !Concerns(cs[j], bit)
  }

  lemma MaskStep(m: bv8, c: Cmd, bit: bv8)
    requires OneBit(bit)
    ensures Has(NewMask(m, c), bit) <==>
      if c.verb == RELEASE then false
      else if c.verb == MOD && Has(Byte(c.a), bit) then c.b != 0
      else Has(m, bit)
  {
    hide Byte, Has, OneBit, NewMask;
    var x := Byte(c.a);
    NewMaskIs(m, c, x);
    MaskBits(m, x, bit);
  }

  lemma NewMaskIs(m: bv8, c: Cmd, x: bv8)
    requires x == Byte(c.a)
    ensures NewMask(m, c) ==
      if c.verb == RELEASE then 0
      else if c.verb == MOD then if c.b != 0 then m | x else m & !x
      else m
  {
    hide Byte;
  }

  /** The byte of the command is its argument modulo 256. */
  lemma ByteIs(a: int)
    ensures Byte(a) as int == a % 256
  {
    var x := ByteFor(a % 256);
    Back(x);
  }

  /** Every number below 256 is the value of a byte. */
  lemma {:induction false} ByteFor(n: nat) returns (x: bv8)
    requires n < 256
    ensures x as nat == n
  {
    if n == 0 {
      x := 0;
    } else {
      var y := ByteFor(n - 1);
      Next(y);
      x := y + 1;
    }
  }

  lemma Next(y: bv8)
    requires y as nat < 255
    ensures (y + 1) as nat == y as nat + 1
  {
  }

  lemma Back(x: bv8)
    ensures (x as nat) as bv8 == x
  {
  }

  lemma MaskBits(m: bv8, x: bv8, bit: bv8)
    requires OneBit(bit)
    ensures Has(m | x, bit) <==> Has(m, bit) || Has(x, bit)
    ensures Has(m & !x, bit) <==> Has(m, bit) && !Has(x, bit)
    ensures !Has(0, bit)
  {
  }

  lemma {:induction false} MaskIs(cs: seq<Cmd>, bit: bv8)
    requires OneBit(bit)
    ensures Has(MaskAfter(cs), bit) <==> HeldDown(cs, bit)
    decreases |cs|
  {
    hide Has, OneBit, Byte, NewMask;
    if cs == [] {
      MaskBits(0, 0, bit);
    } else {
      var n := |cs| - 1;
      var init, c := cs[..n], cs[n];
      MaskIs(init, bit);
      MaskStep(MaskAfter(init), c, bit);
      HeldStep(cs, bit);
    }
  }

  lemma HeldStep(cs: seq<Cmd>, bit: bv8)
    requires cs != []
    ensures var n := |cs| - 1;
      HeldDown(cs, bit) <==>
        if Concerns(cs[n], bit) then cs[n].verb == MOD && cs[n].b != 0 else HeldDown(cs[..n], bit)
  {
    hide Has, Byte;
    var n := |cs| - 1;
    if !Concerns(cs[n], bit) && HeldDown(cs[..n], bit) {
      var k :| 0 <= k < n && cs[..n][k].verb == MOD && cs[..n][k].b != 0 && Has(Byte(cs[..n][k].a), bit) &&
        forall j :: k < j < n ==> !Concerns(cs[..n][j], bit);
      assert cs[k] == cs[..n][k];
      forall j | k < j < |cs| ensures !Concerns(cs[j], bit) {
        if j < n {
          assert cs[j] == cs[..n][j];
        }
      }
    }
    if HeldDown(cs, bit) {
      var k :| 0 <= k < |cs| && cs[k].verb == MOD && cs[k].b != 0 && Has(Byte(cs[k].a), bit) &&
        forall j :: k < j < |cs| ==> !Concerns(cs[j], bit);
      if k < n {
        assert cs[..n][k] == cs[k];
        assert forall j :: k < j < n ==> cs[..n][j] == cs[j];
      }
    }
  }

  /** Over every run: entry i carries a modifier exactly if, of the first i + 1 commands accepted, the last one that is
      a release of everything or concerns the modifier is its press. */
  lemma ModifierHeldIff(cfg: Config, env: Env, gx: int, gy: int, passes: seq<seq<seq<Cmd>>>, i: nat, bit: bv8)
    requires Clock(env) && Tables(Start(gx, gy).pad) && OneBit(bit)
    requires i < |Run(cfg, env, Start(gx, gy), passes).log|
    ensures var w := Run(cfg, env, Start(gx, gy), passes);
      i < |w.accepted| && w.log[i].cmd == w.accepted[i] &&
      (Has(w.log[i].mods, bit) <==> HeldDown(w.accepted[..i + 1], bit))
  {
    hide Run, Clock, Start, MaskAfter, HeldDown, Has, OneBit, Tables;
    ReportsCarryArrivalMask(cfg, env, gx, gy, passes, i);
    var w := Run(cfg, env, Start(gx, gy), passes);
    MaskIs(w.accepted[..i + 1], bit);
  }

  // ---------------------------------------------------------- the floors

  /** The command goes out on the keyboard's or the mouse's one-report register; the middle button does not. */
  predicate Sends(c: Cmd) {
    c.verb == KEY || c.verb == MOD || c.verb == RELEASE || (c.verb == BTN && c.a != 3)
  }

  /** The slot in which a modifier press is remembered: its lowest bit, and that of 1 for none. */
  function LowestBit(x: bv8): bv8 {
    if x == 0 then 1 else x & (!x + 1)
  }

  /** c is a key, modifier or button edge of the same device as d. */
  predicate SameDevice(c: Cmd, d: Cmd) {
    c.verb == d.verb &&
    match c.verb
    case KEY => c.a % 256 == d.a % 256
    case MOD => LowestBit(Byte(c.a)) == LowestBit(Byte(d.a))
    case BTN => c.a == d.a && 1 <= c.a <= 3
    case _ => false
  }

  /** Entry k is the press that entry j releases. */
  predicate Releases(log: seq<Entry>, k: nat, j: nat)
    requires k < j < |log|
  {
    log[k].cmd.b != 0 && log[j].cmd.b == 0 && SameDevice(log[k].cmd, log[j].cmd) &&
    forall i :: k < i < j ==> log[i].cmd.verb != RELEASE && !SameDevice(log[i].cmd, log[j].cmd)
  }

  lemma LowestBits(x: bv8, y: bv8)
    ensures LowestBit(x) == LowestBit(y) <==> ModIndex(x) == ModIndex(y)
  {
    LowestIs(x);
    LowestIs(y);
  }

  lemma LowestIs(x: bv8)
    ensures var i, b := ModIndex(x), LowestBit(x);
      (i == 0 <==> b == 1) && (i == 1 <==> b == 2) && (i == 2 <==> b == 4) && (i == 3 <==> b == 8) &&
      (i == 4 <==> b == 16) && (i == 5 <==> b == 32) && (i == 6 <==> b == 64) && (i == 7 <==> b == 128)
  {
  }

  lemma SameDeviceIs(c: Cmd, d: Cmd)
    ensures SameDevice(c, d) <==> DeviceOf(c) == DeviceOf(d) && !DeviceOf(c).NoDevice?
  {
    hide ModIndex, LowestBit, Byte;
    LowestBits(Byte(c.a), Byte(d.a));
  }

  lemma {:induction false} DownSincePress(log: seq<Entry>, k: nat, j: nat, n: nat)
    requires k < j < |log| && Releases(log, k, j) && k < n <= j
    ensures DownSince(log[..n], DeviceOf(log[j].cmd)) == log[k].start
    decreases n
  {
    hide DeviceOf, SameDevice;
    var e := log[n - 1];
    assert log[..n][n - 1] == e && log[..n][..n - 1] == log[..n - 1];
    SameDeviceIs(e.cmd, log[j].cmd);
    SameDeviceIs(log[k].cmd, log[j].cmd);
    if n > k + 1 {
      DownSincePress(log, k, j, n - 1);
      Symmetric(log, k, j);
    } else {
      NoRelease(log[k].cmd, log[j].cmd);
    }
  }

  lemma NoRelease(c: Cmd, d: Cmd)
    requires SameDevice(c, d)
    ensures c.verb != RELEASE && (c.b != 0 ==> ReadsPress(c)) && (d.b == 0 ==> IsRelease(d))
  {
    hide ModIndex, LowestBit, Byte;
  }

  lemma Symmetric(log: seq<Entry>, k: nat, j: nat)
    requires k < j < |log| && Releases(log, k, j)
    ensures !DeviceOf(log[j].cmd).NoDevice?
  {
    hide DeviceOf, SameDevice;
    SameDeviceIs(log[k].cmd, log[j].cmd);
  }

  /** Over every run: a key, modifier or release-all is sent the key gap after every report before it, a left or right
      button edge the button gap; and a release is sent the key or button hold after its own press. */
  lemma FloorsKept(cfg: Config, env: Env, gx: int, gy: int, passes: seq<seq<seq<Cmd>>>, i: nat, j: nat)
    requires Clock(env) && Tables(Start(gx, gy).pad)
    requires i < j < |Run(cfg, env, Start(gx, gy), passes).log|
    ensures var log := Run(cfg, env, Start(gx, gy), passes).log;
      Sends(log[i].cmd) && Sends(log[j].cmd) ==>
        log[j].start >= log[i].done + if log[j].cmd.verb == BTN then cfg.btnGap else cfg.keyGap
    ensures var log := Run(cfg, env, Start(gx, gy), passes).log;
      Releases(log, i, j) ==>
        log[j].start >= log[i].start + if log[j].cmd.verb == BTN then cfg.btnHold else cfg.keyHold
  {
    hide Run, Clock, Start, Tables, Masks, Acks, DeviceOf, SameDevice, DownSince;
    EveryRun(cfg, env, gx, gy, passes);
    var log := Run(cfg, env, Start(gx, gy), passes).log;
    if Releases(log, i, j) {
      DownSincePress(log, i, j, j);
      NoRelease(log[i].cmd, log[j].cmd);
      assert log[i].start > 0;
      assert IsRelease(log[j].cmd);
    }
  }
}

/** Two more laws over every run: the buttons as they are reported, and what a button edge has waited for. */
module CtlButtons {
  import opened CtlModel
  import opened CtlPacing

  /** The last entry that concerns button n is its press. */
  predicate Pressed(log: seq<Entry>, n: nat) {
    exists k :: 0 <= k < |log| && log[k].cmd.verb == BTN && log[k].cmd.a == n && log[k].cmd.b != 0 &&
      forall j :: k < j < |log| ==> !AboutButton(log[j].cmd, n)
  }

  predicate AboutButton(c: Cmd, n: nat) {
    c.verb == RELEASE || (c.verb == BTN && c.a == n)
  }

  /** The levels are those of the log; and the pointer has been waited for since the last command, at the earliest. */
  predicate Kept(env: Env, w: World) {
    (w.pad.left != 0 <==> Pressed(w.log, 1)) && (w.pad.right != 0 <==> Pressed(w.log, 2)) &&
    (w.log != [] ==>
       var done := w.log[|w.log| - 1].done;
       done <= LastRead(env, w.ticks) && (w.pad.waitSince == 0 || w.pad.waitSince >= done))
  }

  lemma PressedAppend(log: seq<Entry>, e: Entry, n: nat)
    ensures Pressed(log + [e], n) <==>
      if AboutButton(e.cmd, n) then e.cmd.verb == BTN && e.cmd.b != 0 else Pressed(log, n)
  {
    var more, m := log + [e], |log|;
    assert more[m] == e;
    if !AboutButton(e.cmd, n) && Pressed(log, n) {
      var k :| 0 <= k < m && log[k].cmd.verb == BTN && log[k].cmd.a == n && log[k].cmd.b != 0 &&
        forall j :: k < j < m ==> !AboutButton(log[j].cmd, n);
      assert more[k] == log[k];
      assert forall j :: k < j < m ==> more[j] == log[j];
    }
    if Pressed(more, n) {
      var k :| 0 <= k < |more| && more[k].cmd.verb == BTN && more[k].cmd.a == n && more[k].cmd.b != 0 &&
        forall j :: k < j < |more| ==> !AboutButton(more[j].cmd, n);
      if k < m {
        assert log[k] == more[k];
        assert forall j :: k < j < m ==> more[j] == log[j];
      }
    }
  }

  lemma SameKept(env: Env, w: World, r: World)
    requires Kept(env, w) && Clock(env) && r.log == w.log && r.pad.left == w.pad.left && r.pad.right == w.pad.right
    requires r.ticks >= w.ticks && (r.pad.waitSince == w.pad.waitSince || r.pad.waitSince >= LastRead(env, w.ticks))
    ensures Kept(env, r)
  {
    hide Pressed, LastRead, Clock;
    ReadLater(env, w.ticks, r.ticks);
  }

  lemma CheckWait(cfg: Config, env: Env, w: World, c: Cmd)
    requires Clock(env)
    ensures var v := Check(cfg, env, w, c).w;
      v.pad.waitSince == w.pad.waitSince || v.pad.waitSince >= LastRead(env, w.ticks)
  {
    hide CheckGap, CheckHold, UseTablet, Converged, Clock, LastRead;
    var g := CheckGap(cfg, env, w, c);
    GapKeeps(cfg, env, w, c);
    var h := CheckHold(cfg, env, g.w, c);
    HoldKeeps(cfg, env, g.w, c);
    ReadLater(env, w.ticks, h.w.ticks);
    ReadLater(env, h.w.ticks, h.w.ticks + 1);
  }

  lemma ApplyLevels(cfg: Config, env: Env, w: World, c: Cmd)
    requires Tables(w.pad)
    ensures var r := ApplyCmd(cfg, env, w, c);
      r.pad.left == (if c.verb == RELEASE then 0 else if c.verb == BTN && c.a == 1 then c.b else w.pad.left) &&
      r.pad.right == (if c.verb == RELEASE then 0 else if c.verb == BTN && c.a == 2 then c.b else w.pad.right)
  {
    hide LastRead, DeviceOf, NewMask, Clamp, UseTablet, Slams, ModIndex, Byte;
  }

  lemma TakeKept(cfg: Config, env: Env, w: World, c: Cmd)
    requires Tables(w.pad) && Clock(env) && w.queue != [] && Kept(env, w)
    ensures Kept(env, Take(cfg, env, w, c))
  {
    hide ApplyCmd, NewMask, Clock, LastRead, IsReport, Tables, ReadsPress, Pressed;
    var w1 := w.(queue := w.queue[1..], pad := w.pad.(waitSince := 0));
    assert Tables(w1.pad) by { WaitTables(w.pad); }
    ApplyNotes(cfg, env, w1, c);
    ApplyLevels(cfg, env, w1, c);
    var r := Take(cfg, env, w, c);
    var e := r.log[|w.log|];
    assert r.log == w.log + [e];
    PressedAppend(w.log, e, 1);
    PressedAppend(w.log, e, 2);
  }

  lemma {:induction false} DrainKept(cfg: Config, env: Env, w: World, batches: seq<seq<Cmd>>)
    requires Clock(env) && Tables(w.pad) && Kept(env, w)
    ensures Kept(env, Drain(cfg, env, w, batches))
    decreases |w.queue| + Total(batches)
  {
    hide Take, Check, PtrTick, Tables, Clock, Kept, LastRead;
    var w1, rest := Arrive(w, Batch(batches)), Later(batches);
    TotalIs(batches);
    TotalIs(rest);
    SameKept(env, w, w1);
    if w1.queue == [] {
      TickKeeps(cfg, env, w1);
      SameKept(env, w1, Drain(cfg, env, w, batches));
    } else {
      var c := w1.queue[0];
      var v := Check(cfg, env, w1, c);
      CheckKeeps(cfg, env, w1, c);
      CheckWait(cfg, env, w1, c);
      SameKept(env, w1, v.w);
      if v.held {
        TickKeeps(cfg, env, v.w);
        SameKept(env, v.w, Drain(cfg, env, w, batches));
      } else {
        var w2 := Arrive(v.w, Batch(rest));
        SameKept(env, v.w, w2);
        CheckTables(w1.pad, v.w.pad);
        TakeTables(cfg, env, w2, c);
        TakeKept(cfg, env, w2, c);
        DrainKept(cfg, env, Take(cfg, env, w2, c), Later(rest));
      }
    }
  }

  lemma CheckTables(p: Pad, q: Pad)
    requires Tables(p) && q == p.(waitSince := q.waitSince)
    ensures Tables(q)
  {
  }

  lemma {:induction false} RunKept(cfg: Config, env: Env, w: World, passes: seq<seq<seq<Cmd>>>)
    requires Clock(env) && Tables(w.pad) && Kept(env, w)
    ensures Kept(env, Run(cfg, env, w, passes))
    decreases |passes|
  {
    hide Drain, Tables, Clock, Kept;
    if passes != [] {
      DrainKept(cfg, env, w, passes[0]);
      RunKept(cfg, env, Drain(cfg, env, w, passes[0]), passes[1..]);
    }
  }

  /** Over every run: a button level is up exactly when the last command applied about the button is its press. */
  lemma ButtonHeldIff(cfg: Config, env: Env, gx: int, gy: int, passes: seq<seq<seq<Cmd>>>)
    requires Clock(env) && Tables(Start(gx, gy).pad)
    ensures var w := Run(cfg, env, Start(gx, gy), passes);
      (w.pad.left != 0 <==> Pressed(w.log, 1)) && (w.pad.right != 0 <==> Pressed(w.log, 2))
  {
    hide Run, Clock, Pressed, LastRead;
    assert Kept(env, Start(gx, gy)) by { StartKept(env, gx, gy); }
    RunKept(cfg, env, Start(gx, gy), passes);
  }

  /** Over every run: a button edge by mouse that goes through behind an unsettled pointer has been waiting for the
      whole settle window since the last command before it. */
  lemma UnsettledEdgeWaited(cfg: Config, env: Env, gx: int, gy: int, passes: seq<seq<seq<Cmd>>>, c: Cmd)
    requires Clock(env) && Tables(Start(gx, gy).pad) && c.verb == BTN
    requires var w := Run(cfg, env, Start(gx, gy), passes);
      w.log != [] && !UseTablet(cfg, env, w) && !Converged(w.pad) && !Check(cfg, env, w, c).held
    ensures var w := Run(cfg, env, Start(gx, gy), passes);
      LastRead(env, Check(cfg, env, w, c).w.ticks) >= w.log[|w.log| - 1].done + cfg.settle
  {
    hide Run, Clock, Pressed, LastRead, Start, Tables, CheckGap, CheckHold, UseTablet, Converged, Since;
    assert Kept(env, Start(gx, gy)) by { StartKept(env, gx, gy); }
    RunKept(cfg, env, Start(gx, gy), passes);
    var w := Run(cfg, env, Start(gx, gy), passes);
    var g := CheckGap(cfg, env, w, c);
    GapKeeps(cfg, env, w, c);
    var h := CheckHold(cfg, env, g.w, c);
    HoldKeeps(cfg, env, g.w, c);
    ReadLater(env, w.ticks, h.w.ticks);
    ReadLater(env, h.w.ticks, h.w.ticks + 1);
    SameLooks(cfg, env, w, h.w);
    RunWaited(cfg, env, gx, gy, passes);
    SinceIs(env.clock(h.w.ticks), if w.pad.waitSince == 0 then env.clock(h.w.ticks) else w.pad.waitSince);
    NowIs(env, h.w.ticks);
  }

  lemma SameLooks(cfg: Config, env: Env, w: World, h: World)
    requires h.looks == w.looks
    ensures UseTablet(cfg, env, h) == UseTablet(cfg, env, w)
  {
  }

  lemma NowIs(env: Env, i: nat)
    ensures LastRead(env, i + 1) == env.clock(i)
  {
  }

  lemma StartKept(env: Env, gx: int, gy: int)
    ensures Kept(env, Start(gx, gy))
  {
  }

  /** The stamp is never in the future. */
  lemma RunWaited(cfg: Config, env: Env, gx: int, gy: int, passes: seq<seq<seq<Cmd>>>)
    requires Clock(env)
    ensures var w := Run(cfg, env, Start(gx, gy), passes); w.pad.waitSince <= LastRead(env, w.ticks)
  {
    hide Run, Clock, Masks, Gapped, Dwelt, Fifo, LastRead;
    StartInv(cfg, env, gx, gy);
    RunInv(cfg, env, Start(gx, gy), passes);
  }

  // ---------------------------------------------------------- the queue

  /** Of the commands that arrive together the first ones that fit are queued and accepted, the others rejected. */
  lemma {:induction false} ArrivalsFit(w: World, batch: seq<Cmd>)
    requires |w.queue| < QUEUE
    ensures var r := Arrive(w, batch);
      var n := if |w.queue| + |batch| < QUEUE then |batch| else QUEUE - 1 - |w.queue|;
      r.queue == w.queue + batch[..n] && r.accepted == w.accepted + batch[..n] && r.rejected == w.rejected + batch[n..]
    decreases |batch|
  {
    if batch != [] {
      var v, n := Push(w, batch[0]), if |w.queue| + |batch| < QUEUE then |batch| else QUEUE - 1 - |w.queue|;
      ArrivalsFit(v, batch[1..]);
      if n > 0 {
        AcceptOne(w.queue, batch, n);
        AcceptOne(w.accepted, batch, n);
        assert batch[1..][n - 1..] == batch[n..];
      } else {
        assert batch[1..][..0] == [] && batch[..0] == [] && batch[1..][0..] == batch[1..] && batch[0..] == batch;
        assert w.rejected + [batch[0]] + batch[1..] == w.rejected + batch;
        assert w.queue + [] == w.queue && w.accepted + [] == w.accepted;
      }
    } else {
      assert batch[..0] == [] && batch[0..] == [];
      assert w.queue + [] == w.queue && w.accepted + [] == w.accepted && w.rejected + [] == w.rejected;
    }
  }

  lemma AcceptOne(s: seq<Cmd>, batch: seq<Cmd>, n: nat)
    requires 0 < n <= |batch|
    ensures s + [batch[0]] + batch[1..][..n - 1] == s + batch[..n]
  {
  }
}
