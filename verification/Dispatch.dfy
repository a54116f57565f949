/** CycInt_AddCycles on agendas: which events run, in which order, and that it ends. */
module Dispatch {
  import opened Agenda

  /** What the handler of event i does when it runs as the n-th one of the call. */
  type Script = (nat, nat) -> seq<Op>

  function ApplyAll(a: Agenda, cfg: Config, ops: seq<Op>): (b: Agenda)
    requires Ok(a) && forall k :: 0 <= k < |ops| ==> IsEvent(ops[k].i)
    ensures Ok(b) && b.now == a.now
    decreases |ops|
  {
    if ops == [] then a
    else
      ApplyOk(a, cfg, ops[0]);
      ApplyAll(Apply(a, cfg, ops[0]), cfg, ops[1..])
  }

  predicate Wellformed(ops: seq<Op>) {
    forall k :: 0 <= k < |ops| ==> IsEvent(ops[k].i)
  }

  /** The condition of the loop at cycInt.c:117: the head of the list, or the sentinel, is due. */
  predicate Due(a: Agenda)
    requires Ok(a)
  {
    a.cyc != [] && a.time[a.cyc[0]] <= a.now
  }

  /** Unlink the head of the cycle list. */
  function Pop(a: Agenda): Agenda
    requires a.cyc != []
  {
    a.(cyc := a.cyc[1..])
  }

  lemma PopOk(a: Agenda)
    requires Ok(a) && a.cyc != []
    ensures Ok(Pop(a)) && a.cyc[0] !in Pop(a).cyc && a.cyc[0] !in Pop(a).tim
    ensures forall k :: 0 <= k < |Pop(a).cyc| ==> a.time[a.cyc[0]] <= a.time[Pop(a).cyc[k]]
  {
    var r := a.cyc[1..];
    assert forall k :: 0 <= k < |r| ==> r[k] == a.cyc[k + 1];
  }

  /** One turn of the loop: unlink the head and run its handler. */
  function Serve(a: Agenda, cfg: Config, ops: seq<Op>): (b: Agenda)
    requires Ok(a) && a.cyc != [] && Wellformed(ops)
    ensures Ok(b) && b.now == a.now
  {
    PopOk(a);
    ApplyAll(Pop(a), cfg, ops)
  }

  datatype Served = Served(i: nat, deadline: nat)

  /** The loop started in a with n handlers already run serves exactly `trace` and stops in b. */
  predicate Runs(a: Agenda, cfg: Config, h: Script, n: nat, trace: seq<Served>, b: Agenda)
    requires Ok(a)
    decreases |trace|
  {
    if trace == [] then !Due(a) && b == a
    else
      Due(a) && trace[0] == Served(a.cyc[0], a.time[a.cyc[0]]) && Wellformed(h(a.cyc[0], n)) &&
      Runs(Serve(a, cfg, h(a.cyc[0], n)), cfg, h, n + 1, trace[1..], b)
  }

  /** From a after n handlers, the first loop comes to m after serving `trace`. */
  predicate Leads(a: Agenda, cfg: Config, h: Script, n: nat, trace: seq<Served>, m: Agenda)
    requires Ok(a) && Ok(m)
    decreases |trace|
  {
    if trace == [] then m == a
    else
      Due(a) && trace[0] == Served(a.cyc[0], a.time[a.cyc[0]]) && Wellformed(h(a.cyc[0], n)) &&
      Leads(Serve(a, cfg, h(a.cyc[0], n)), cfg, h, n + 1, trace[1..], m)
  }

  lemma LeadsCons(a: Agenda, cfg: Config, h: Script, n: nat, rest: seq<Served>, m: Agenda)
    requires Ok(a) && Ok(m) && Due(a) && a.cyc[0] < |a.time| && Wellformed(h(a.cyc[0], n))
    requires Leads(Serve(a, cfg, h(a.cyc[0], n)), cfg, h, n + 1, rest, m)
    ensures Leads(a, cfg, h, n, [Served(a.cyc[0], a.time[a.cyc[0]])] + rest, m)
  {
    hide Ok, Serve, Wellformed;
    assert ([Served(a.cyc[0], a.time[a.cyc[0]])] + rest)[1..] == rest;
  }

  // ---------------------------------------------------------- handlers that move deadlines forward

  /** While an event with deadline t is being served, nothing is put into the cycle list at or before t. */
  predicate Forward(t: nat, e: Effect) {
    e.InCycles? ==> e.t > t
  }

  predicate ForwardAll(a: Agenda, cfg: Config, ops: seq<Op>, t: nat)
    requires Ok(a)
    decreases |ops|
  {
    ops == [] ||
    (IsEvent(ops[0].i) && Forward(t, Resolve(a, cfg, ops[0])) &&
     (ApplyOk(a, cfg, ops[0]); ForwardAll(Apply(a, cfg, ops[0]), cfg, ops[1..], t)))
  }

  /** The k-th handler of the call, run in m. */
  predicate ForwardServe(m: Agenda, cfg: Config, h: Script, k: nat)
    requires Ok(m)
  {
    Due(m) ==> (PopOk(m); ForwardAll(Pop(m), cfg, h(m.cyc[0], k), m.time[m.cyc[0]]))
  }

  /** Every handler moves deadlines forward in the state in which the loop comes to run it. */
  ghost predicate ForwardRun(a: Agenda, cfg: Config, h: Script, n: nat)
    requires Ok(a)
  {
    forall trace, m :: Ok(m) && Leads(a, cfg, h, n, trace, m) ==> ForwardServe(m, cfg, h, n + |trace|)
  }

  lemma ForwardNow(a: Agenda, cfg: Config, h: Script, n: nat)
    requires Ok(a) && ForwardRun(a, cfg, h, n)
    ensures ForwardServe(a, cfg, h, n)
  {
    hide Ok, ForwardServe;
    assert Leads(a, cfg, h, n, [], a);
  }

  lemma ForwardNext(a: Agenda, cfg: Config, h: Script, n: nat)
    requires Ok(a) && ForwardRun(a, cfg, h, n) && Due(a) && Wellformed(h(a.cyc[0], n))
    ensures ForwardRun(Serve(a, cfg, h(a.cyc[0], n)), cfg, h, n + 1)
  {
    hide Ok, ForwardServe, Leads, Serve, Wellformed;
    var b := Serve(a, cfg, h(a.cyc[0], n));
    forall rest, m | Ok(m) && Leads(b, cfg, h, n + 1, rest, m)
      ensures ForwardServe(m, cfg, h, n + 1 + |rest|)
    {
      HeadInTable(a);
      LeadsCons(a, cfg, h, n, rest, m);
      var trace := [Served(a.cyc[0], a.time[a.cyc[0]])] + rest;
      assert n + |trace| == n + 1 + |rest|;
    }
  }

  lemma HeadInTable(a: Agenda)
    requires Ok(a) && a.cyc != []
    ensures IsEvent(a.cyc[0]) && a.cyc[0] < |a.time|
  {
  }

  lemma {:induction false} ForwardWellformed(a: Agenda, cfg: Config, ops: seq<Op>, t: nat)
    requires Ok(a) && ForwardAll(a, cfg, ops, t)
    ensures Wellformed(ops)
    decreases |ops|
  {
    hide Ok, Forward, Resolve, Apply;
    if ops != [] {
      ApplyOk(a, cfg, ops[0]);
      ForwardWellformed(Apply(a, cfg, ops[0]), cfg, ops[1..], t);
    }
  }

  /** What is in the list afterwards was in it with the same deadline, or has a deadline after t. */
  predicate Onward(ids: seq<nat>, time: seq<nat>, ids': seq<nat>, time': seq<nat>, t: nat) {
    |time| == |time'| == NUM_EVENTS && Events(ids) && Events(ids') &&
    forall j :: j in ids' ==> IsEvent(j) && ((j in ids && time'[j] == time[j]) || time'[j] > t)
  }

  lemma {:induction false} ForwardOnward(p: Agenda, a: Agenda, cfg: Config, ops: seq<Op>, t: nat)
    requires Ok(p) && Ok(a) && Wellformed(ops) && ForwardAll(a, cfg, ops, t) && Onward(p.cyc, p.time, a.cyc, a.time, t)
    ensures var b := ApplyAll(a, cfg, ops); Onward(p.cyc, p.time, b.cyc, b.time, t)
    decreases |ops|
  {
    hide Ok, Resolve, Apply, Requeue;
    if ops != [] {
      ApplyOk(a, cfg, ops[0]);
      OkEvents(Apply(a, cfg, ops[0]));
      ForwardOnward(p, Apply(a, cfg, ops[0]), cfg, ops[1..], t);
    }
  }

  lemma ServeOnward(a: Agenda, cfg: Config, h: Script, n: nat)
    requires Ok(a) && Due(a) && ForwardServe(a, cfg, h, n)
    ensures Wellformed(h(a.cyc[0], n)) && |a.time| == NUM_EVENTS && IsEvent(a.cyc[0])
    ensures var b := Serve(a, cfg, h(a.cyc[0], n));
      Onward(a.cyc[1..], a.time, b.cyc, b.time, a.time[a.cyc[0]])
  {
    hide Ok, ForwardAll;
    PopOk(a);
    OkEvents(a);
    OkEvents(Pop(a));
    ForwardWellformed(Pop(a), cfg, h(a.cyc[0], n), a.time[a.cyc[0]]);
    HeadInTable(a);
    ForwardOnward(Pop(a), Pop(a), cfg, h(a.cyc[0], n), a.time[a.cyc[0]]);
  }

  /** No event of the list has a deadline before t. */
  predicate NotBefore(ids: seq<nat>, time: seq<nat>, t: nat) {
    forall j :: j in ids ==> j < |time| && time[j] >= t
  }

  lemma OnwardNotBefore(ids: seq<nat>, time: seq<nat>, ids': seq<nat>, time': seq<nat>, t: nat)
    requires Onward(ids, time, ids', time', t) && NotBefore(ids, time, t)
    ensures NotBefore(ids', time', t)
  {
  }

  lemma TailNotBefore(ids: seq<nat>, time: seq<nat>)
    requires IsList(ids, time) && ids != []
    ensures NotBefore(ids[1..], time, time[ids[0]])
  {
    forall j | j in ids[1..]
      ensures j < |time| && time[j] >= time[ids[0]]
    {
      var k :| 0 <= k < |ids[1..]| && ids[1..][k] == j;
      assert ids[k + 1] == j;
    }
  }

  lemma CycList(a: Agenda)
    requires Ok(a)
    ensures IsList(a.cyc, a.time)
  {
  }

  /** Serving an event keeps every remaining deadline at or after its own. */
  lemma ServeKeepsOrder(a: Agenda, cfg: Config, h: Script, n: nat)
    requires Ok(a) && Due(a) && ForwardServe(a, cfg, h, n)
    ensures Wellformed(h(a.cyc[0], n)) && a.cyc[0] < |a.time|
    ensures var b := Serve(a, cfg, h(a.cyc[0], n)); NotBefore(b.cyc, b.time, a.time[a.cyc[0]])
  {
    hide Ok, ForwardServe, Serve, IsList, Onward, NotBefore;
    ServeOnward(a, cfg, h, n);
    var b := Serve(a, cfg, h(a.cyc[0], n));
    CycList(a);
    TailNotBefore(a.cyc, a.time);
    OnwardNotBefore(a.cyc[1..], a.time, b.cyc, b.time, a.time[a.cyc[0]]);
  }
}

/** How late a list is, so that one served event outweighs all that its handler can queue behind it. */
module Lateness {
  import opened Agenda
  import opened Dispatch

  function Power(n: nat): (p: nat)
    ensures p > 0
  {
    if n == 0 then 1 else (NUM_EVENTS + 1) * Power(n - 1)
  }

  /** The weight of a deadline that is due at c; a deadline one later weighs less than its twentieth part. */
  function Weight(t: nat, c: nat): nat {
    if t > c then 0 else Power(c - t + 1)
  }

  lemma {:induction false} PowerMonotone(m: nat, n: nat)
    requires m <= n
    ensures Power(m) <= Power(n)
    decreases n
  {
    if m < n {
      PowerMonotone(m, n - 1);
    }
  }

  lemma WeightLess(t: nat, u: nat, c: nat)
    requires t < u && t <= c
    ensures Weight(u, c) <= Weight(t + 1, c) && NUM_EVENTS * Weight(t + 1, c) < Weight(t, c)
  {
    hide Power;
    if u <= c {
      PowerMonotone(c - u + 1, c - t);
    }
    PowerStep(c - t);
  }

  lemma PowerStep(n: nat)
    ensures Power(n + 1) == NUM_EVENTS * Power(n) + Power(n) && Power(n) > 0
  {
  }

  /** The weights of the first n events that are in the list. */
  function LateTo(ids: seq<nat>, time: seq<nat>, c: nat, n: nat): nat
    requires |time| == NUM_EVENTS && n <= NUM_EVENTS
  {
    if n == 0 then 0 else LateTo(ids, time, c, n - 1) + if n - 1 in ids then Weight(time[n - 1], c) else 0
  }

  function Late(ids: seq<nat>, time: seq<nat>, c: nat): nat
    requires |time| == NUM_EVENTS
  {
    LateTo(ids, time, c, NUM_EVENTS)
  }

  lemma {:induction false} LateOnward(ids: seq<nat>, time: seq<nat>,
    ids': seq<nat>, time': seq<nat>, t: nat, c: nat, n: nat)
    requires Onward(ids, time, ids', time', t) && t <= c && n <= NUM_EVENTS
    ensures LateTo(ids', time', c, n) <= LateTo(ids, time, c, n) + n * Weight(t + 1, c)
    decreases n
  {
    hide Weight;
    if n > 0 {
      LateOnward(ids, time, ids', time', t, c, n - 1);
      if n - 1 in ids' && time'[n - 1] > t {
        WeightLess(t, time'[n - 1], c);
      }
      assert n * Weight(t + 1, c) == (n - 1) * Weight(t + 1, c) + Weight(t + 1, c);
    }
  }

  lemma {:induction false} LatePop(ids: seq<nat>, time: seq<nat>, c: nat, n: nat)
    requires |time| == NUM_EVENTS && n <= NUM_EVENTS && ids != [] && Distinct(ids) && ids[0] < NUM_EVENTS
    ensures LateTo(ids, time, c, n) == LateTo(ids[1..], time, c, n) + if ids[0] < n then Weight(time[ids[0]], c) else 0
    decreases n
  {
    hide Weight;
    if n > 0 {
      LatePop(ids, time, c, n - 1);
      TailIn(ids, n - 1);
    }
  }

  lemma TailIn(ids: seq<nat>, j: nat)
    requires ids != [] && Distinct(ids)
    ensures j in ids[1..] <==> j in ids && j != ids[0]
  {
    if j in ids && j != ids[0] {
      var k :| 0 <= k < |ids| && ids[k] == j;
      assert ids[1..][k - 1] == j;
    }
  }

  /** A list whose head has been served, and on which everything else has
      stayed or fallen behind the head, is less late. */
  lemma LateDrops(ids: seq<nat>, time: seq<nat>, ids': seq<nat>, time': seq<nat>, c: nat)
    requires IsList(ids, time) && ids != [] && time[ids[0]] <= c && Onward(ids[1..], time, ids', time', time[ids[0]])
    ensures Late(ids', time', c) < Late(ids, time, c)
  {
    hide LateTo, Weight;
    var t := time[ids[0]];
    LateOnward(ids[1..], time, ids', time', t, c, NUM_EVENTS);
    LatePop(ids, time, c, NUM_EVENTS);
    WeightLess(t, t + 1, c);
  }
}

/** The dispatch loop ends, runs nothing early, runs in deadline order, and leaves nothing due. */
module DispatchTheorems {
  import opened Numbers
  import opened Agenda
  import opened Dispatch
  import opened Lateness

  function LateIn(a: Agenda): nat
    requires Ok(a)
  {
    Late(a.cyc, a.time, a.now)
  }

  /** Each turn of the loop makes the whole agenda less late: the loop ends. */
  lemma ServeLessLate(a: Agenda, cfg: Config, h: Script, n: nat)
    requires Ok(a) && Due(a) && ForwardServe(a, cfg, h, n)
    ensures Wellformed(h(a.cyc[0], n))
    ensures LateIn(Serve(a, cfg, h(a.cyc[0], n))) < LateIn(a)
  {
    hide Ok, ForwardServe, Serve, Onward, IsList, Late;
    ServeOnward(a, cfg, h, n);
    var b := Serve(a, cfg, h(a.cyc[0], n));
    CycList(a);
    LateDrops(a.cyc, a.time, b.cyc, b.time, a.now);
  }

  function DueTime(a: Agenda): (t: nat)
    requires Ok(a) && Due(a)
    ensures t <= a.now
  {
    a.time[a.cyc[0]]
  }

  predicate NonDecreasing(trace: seq<Served>) {
    forall j, k :: 0 <= j < k < |trace| ==> trace[j].deadline <= trace[k].deadline
  }

  lemma InFront(first: Served, rest: seq<Served>)
    requires NonDecreasing(rest) && forall k :: 0 <= k < |rest| ==> first.deadline <= rest[k].deadline
    ensures NonDecreasing([first] + rest)
  {
  }

  /** Dispatch correctness: nothing before its deadline, in deadline order, nothing due left behind. */
  lemma {:induction false} RunsInOrder(a: Agenda, cfg: Config, h: Script, n: nat, trace: seq<Served>, b: Agenda, t: nat)
    requires Ok(a) && NotBefore(a.cyc, a.time, t) && ForwardRun(a, cfg, h, n) && Runs(a, cfg, h, n, trace, b)
    ensures Ok(b) && b.now == a.now && !Due(b)
    ensures forall k :: 0 <= k < |trace| ==> t <= trace[k].deadline <= a.now
    ensures NonDecreasing(trace)
    decreases |trace|
  {
    hide Ok, ForwardRun, ForwardServe, Serve;
    if trace != [] {
      ForwardNow(a, cfg, h, n);
      ServeKeepsOrder(a, cfg, h, n);
      ForwardNext(a, cfg, h, n);
      var d := DueTime(a);
      assert a.cyc[0] in a.cyc;
      var rest := trace[1..];
      RunsInOrder(Serve(a, cfg, h(a.cyc[0], n)), cfg, h, n + 1, rest, b, d);
      assert trace == [trace[0]] + rest;
      InFront(trace[0], rest);
    }
  }

  // ---------------------------------------------------------- periodic events do not drift

  /** The deadlines at which event i was served. */
  function Services(trace: seq<Served>, i: nat): seq<nat> {
    if trace == [] then []
    else (if trace[0].i == i then [trace[0].deadline] else []) + Services(trace[1..], i)
  }

  /** The operation moves the deadline of i on by p cycles. */
  predicate Rearms(cfg: Config, op: Op, i: nat, p: nat) {
    op.i == i &&
    match op
    case UpdateCycles(_, c) => c == p
    case UpdateCycleTime(_, ct, fast) => Delay(cfg, ct, fast) * cfg.freq == p
    case UpdateTime(_, slow, _, _) => !cfg.realtime && slow * cfg.freq == p
    case _ => false
  }

  /** One operation moves i on, and the others leave it. */
  predicate RearmsOnce(cfg: Config, ops: seq<Op>, i: nat, p: nat) {
    ops != [] &&
    if ops[0].i == i then Rearms(cfg, ops[0], i, p) && Leaves(ops[1..], i) else RearmsOnce(cfg, ops[1..], i, p)
  }

  /** i re-arms itself by p and nobody else touches it. */
  ghost predicate PeriodicScript(cfg: Config, h: Script, i: nat, p: nat) {
    (forall n: nat :: RearmsOnce(cfg, h(i, n), i, p)) &&
    (forall j: nat, n: nat :: j != i ==> Leaves(h(j, n), i))
  }

  predicate Leaves(ops: seq<Op>, i: nat) {
    forall k :: 0 <= k < |ops| ==> ops[k].i != i
  }

  /** The k-th of the times t, t+p, t+2p, ... */
  function Nth(t: nat, k: nat, p: nat): nat {
    t + k * p
  }

  predicate Arithmetic(s: seq<nat>, t: nat, p: nat) {
    forall k :: 0 <= k < |s| ==> s[k] == Nth(t, k, p)
  }

  lemma NthShift(t: nat, j: nat, k: nat, p: nat)
    ensures Nth(Nth(t, j, p), k, p) == Nth(t, j + k, p)
    ensures Nth(t, 0, p) == t && Nth(t, 1, p) == t + p
  {
    assert j * p + k * p == (j + k) * p;
  }

  predicate Pending(a: Agenda, i: nat, t: nat) {
    |a.time| == NUM_EVENTS && IsEvent(i) && i in a.cyc && a.time[i] == t
  }

  lemma {:induction false} LeavesPending(a: Agenda, cfg: Config, ops: seq<Op>, i: nat, t: nat)
    requires Ok(a) && Wellformed(ops) && Leaves(ops, i) && Pending(a, i, t)
    ensures Pending(ApplyAll(a, cfg, ops), i, t)
    decreases |ops|
  {
    hide Ok, Resolve, Apply, Requeue;
    if ops != [] {
      ApplyOk(a, cfg, ops[0]);
      OkEvents(a);
      OkEvents(Apply(a, cfg, ops[0]));
      LeavesPending(Apply(a, cfg, ops[0]), cfg, ops[1..], i, t);
    }
  }

  lemma ServeOther(a: Agenda, cfg: Config, ops: seq<Op>, i: nat, t: nat)
    requires Ok(a) && a.cyc != [] && a.cyc[0] != i && Wellformed(ops) && Leaves(ops, i) && Pending(a, i, t)
    ensures Pending(Serve(a, cfg, ops), i, t)
  {
    hide Ok;
    PopOk(a);
    var k :| 0 <= k < |a.cyc| && a.cyc[k] == i;
    assert Pop(a).cyc[k - 1] == i;
    LeavesPending(Pop(a), cfg, ops, i, t);
  }

  /** The event has been taken out, and its deadline is where it was. */
  lemma {:induction false} RearmedPending(a: Agenda, cfg: Config, ops: seq<Op>, i: nat, t: nat, p: nat)
    requires Ok(a) && Wellformed(ops) && RearmsOnce(cfg, ops, i, p) && IsEvent(i) && |a.time| == NUM_EVENTS
    requires a.time[i] == t && t + p < U64
    ensures Pending(ApplyAll(a, cfg, ops), i, t + p)
    decreases |ops|
  {
    hide Ok, Apply, Requeue, Pending, Leaves;
    var op, rest := ops[0], ops[1..];
    ApplyOk(a, cfg, op);
    var b := Apply(a, cfg, op);
    OkEvents(b);
    if op.i == i {
      RearmedTo(a, cfg, op, p);
      assert Pending(b, i, t + p) by { PendingIs(b, i); }
      LeavesPending(b, cfg, rest, i, t + p);
    } else {
      RearmedPending(b, cfg, rest, i, t, p);
    }
  }

  lemma RearmedTo(a: Agenda, cfg: Config, op: Op, p: nat)
    requires Ok(a) && IsEvent(op.i) && Rearms(cfg, op, op.i, p) && a.time[op.i] + p < U64
    ensures Resolve(a, cfg, op) == InCycles(a.time[op.i] + p)
  {
  }

  lemma PendingIs(a: Agenda, i: nat)
    requires |a.time| == NUM_EVENTS && IsEvent(i) && i in a.cyc
    ensures Pending(a, i, a.time[i])
  {
  }

  lemma ServePeriodic(a: Agenda, cfg: Config, ops: seq<Op>, i: nat, t: nat, p: nat)
    requires Ok(a) && a.cyc != [] && a.cyc[0] == i && Pending(a, i, t) && t + p < U64
    requires Wellformed(ops) && RearmsOnce(cfg, ops, i, p)
    ensures Pending(Serve(a, cfg, ops), i, t + p)
  {
    hide Ok, RearmsOnce;
    PopOk(a);
    RearmedPending(Pop(a), cfg, ops, i, t, p);
  }

  /** Within one call. */
  lemma {:induction false} PeriodicRun(a: Agenda, cfg: Config, h: Script, n: nat, trace: seq<Served>, b: Agenda,
                                       i: nat, t: nat, p: nat)
    requires Ok(a) && Pending(a, i, t) && PeriodicScript(cfg, h, i, p) && a.now + p < U64
    requires Runs(a, cfg, h, n, trace, b)
    ensures Arithmetic(Services(trace, i), t, p)
    ensures Pending(b, i, Nth(t, |Services(trace, i)|, p))
    decreases |trace|
  {
    hide Ok, Serve, Pending, Arithmetic, Nth, RearmsOnce;
    NthShift(t, 0, 0, p);
    if trace == [] {
      NoServices(t, p);
    } else {
      var ops := h(a.cyc[0], n);
      var rest := Services(trace[1..], i);
      if a.cyc[0] == i {
        PendingTime(a, i, t);
        ServePeriodic(a, cfg, ops, i, t, p);
        PeriodicRun(Serve(a, cfg, ops), cfg, h, n + 1, trace[1..], b, i, t + p, p);
        ArithmeticCons(rest, t, p);
        NthShift(t, 1, |rest|, p);
      } else {
        assert Services(trace, i) == rest;
        ServeOther(a, cfg, ops, i, t);
        PeriodicRun(Serve(a, cfg, ops), cfg, h, n + 1, trace[1..], b, i, t, p);
      }
    }
  }

  lemma PendingTime(a: Agenda, i: nat, t: nat)
    requires Pending(a, i, t)
    ensures |a.time| == NUM_EVENTS && IsEvent(i) && a.time[i] == t
  {
  }

  lemma ArithmeticCons(s: seq<nat>, t: nat, p: nat)
    requires Arithmetic(s, t + p, p)
    ensures Arithmetic([t] + s, t, p)
  {
    hide Nth;
    NthShift(t, 0, 0, p);
    forall k | 0 <= k < |s| + 1 ensures ([t] + s)[k] == Nth(t, k, p) {
      if k > 0 {
        NthShift(t, 1, k - 1, p);
      }
    }
  }

  lemma ArithmeticConcat(s: seq<nat>, r: seq<nat>, t: nat, p: nat)
    requires Arithmetic(s, t, p) && Arithmetic(r, Nth(t, |s|, p), p)
    ensures Arithmetic(s + r, t, p)
  {
    hide Nth;
    forall k | 0 <= k < |s + r| ensures (s + r)[k] == Nth(t, k, p) {
      if k >= |s| {
        NthShift(t, |s|, k - |s|, p);
      }
    }
  }

  /** One call of CycInt_AddCycles with its handlers, and the agenda of the next one. */
  datatype Call = Call(cycles: nat, h: Script, trace: seq<Served>, after: Agenda, next: Agenda)

  /** Between the calls anything may happen that leaves the deadline of i. */
  ghost predicate Calls(a: Agenda, cfg: Config, calls: seq<Call>, i: nat, p: nat)
    requires Ok(a)
    decreases |calls|
  {
    calls == [] ||
    (var c := calls[0];
     a.now + c.cycles + p < U64 && PeriodicScript(cfg, c.h, i, p) &&
     Runs(a.(now := a.now + c.cycles), cfg, c.h, 0, c.trace, c.after) &&
     Ok(c.next) && Keeps(c.after, c.next, i) && Calls(c.next, cfg, calls[1..], i, p))
  }

  ghost predicate Keeps(a: Agenda, b: Agenda, i: nat) {
    forall t :: Pending(a, i, t) ==> Pending(b, i, t)
  }

  function AllServices(calls: seq<Call>, i: nat): seq<nat> {
    if calls == [] then [] else Services(calls[0].trace, i) + AllServices(calls[1..], i)
  }

  /** However late and however irregular the calls: the k-th deadline of the event is t + k*p. */
  lemma {:induction false} PeriodicCalls(a: Agenda, cfg: Config, calls: seq<Call>, i: nat, t: nat, p: nat)
    requires Ok(a) && Pending(a, i, t) && Calls(a, cfg, calls, i, p)
    ensures Arithmetic(AllServices(calls, i), t, p)
    decreases |calls|
  {
    hide Ok, Pending, Services, Arithmetic, PeriodicScript, Nth;
    if calls == [] {
      assert Arithmetic([], t, p) by { NoServices(t, p); }
    } else {
      var c := calls[0];
      var b := a.(now := a.now + c.cycles);
      AdvanceOk(a, c.cycles);
      PendingAdvance(a, c.cycles, i, t);
      PeriodicRun(b, cfg, c.h, 0, c.trace, c.after, i, t, p);
      var s := Services(c.trace, i);
      PeriodicCalls(c.next, cfg, calls[1..], i, Nth(t, |s|, p), p);
      ArithmeticConcat(s, AllServices(calls[1..], i), t, p);
    }
  }

  lemma NoServices(t: nat, p: nat)
    ensures Arithmetic([], t, p)
  {
  }

  lemma AdvanceOk(a: Agenda, cycles: nat)
    requires Ok(a) && a.now + cycles < U64
    ensures Ok(a.(now := a.now + cycles))
  {
  }

  lemma PendingAdvance(a: Agenda, cycles: nat, i: nat, t: nat)
    requires Pending(a, i, t)
    ensures Pending(a.(now := a.now + cycles), i, t)
  {
  }

  lemma {:induction false} RunsNow(a: Agenda, cfg: Config, h: Script, n: nat, trace: seq<Served>, b: Agenda)
    requires Ok(a) && Runs(a, cfg, h, n, trace, b)
    ensures b.now == a.now
    decreases |trace|
  {
    hide Ok, Serve;
    if trace != [] {
      RunsNow(Serve(a, cfg, h(a.cyc[0], n)), cfg, h, n + 1, trace[1..], b);
    }
  }
}

/** The second half of CycInt_AddCycles: time events, ordered by signed differences to the clock. */
module TimeDispatch {
  import opened Numbers
  import opened Agenda
  import opened Dispatch
  import opened Lateness
  import opened DispatchTheorems

  /** How far the head of the time list lies ahead of the last clock reading. */
  function Ahead(a: Agenda): int
    requires Ok(a) && a.tim != []
  {
    Signed(a.time[a.tim[0]] - a.clock)
  }

  predicate TimeDue(a: Agenda)
    requires Ok(a)
  {
    a.tim != [] && Ahead(a) <= 0
  }

  /** Where the next check is set (cycInt.c:124-143). */
  function NextCheck(a: Agenda, cfg: Config): Agenda
    requires Ok(a)
  {
    var d := if a.tim != [] && 0 < Ahead(a) < CHECK_INTERVAL then Ahead(a) else CHECK_INTERVAL;
    a.(check := (a.now + d * cfg.freq) % U64)
  }

  /** Time deadlines are below 2^63, so that signed differences order them. */
  predicate Near(a: Agenda) {
    |a.time| == NUM_EVENTS && Events(a.tim) && a.clock < HALF &&
    forall k :: 0 <= k < |a.tim| ==> a.time[a.tim[k]] < HALF
  }

  lemma NearAt(a: Agenda, i: nat)
    requires Near(a) && i in a.tim
    ensures i < NUM_EVENTS && a.time[i] < HALF
  {
    var k :| 0 <= k < |a.tim| && a.tim[k] == i;
  }

  lemma NearDue(a: Agenda)
    requires Ok(a) && Near(a)
    ensures TimeDue(a) <==> a.tim != [] && a.time[a.tim[0]] <= a.clock
  {
    if a.tim != [] {
      var t := a.time[a.tim[0]];
      if t >= a.clock {
        assert (t - a.clock) % U64 == t - a.clock;
      } else {
        assert (t - a.clock) % U64 == t - a.clock + U64;
      }
    }
  }

  function PopTime(a: Agenda): Agenda
    requires a.tim != []
  {
    a.(tim := a.tim[1..])
  }

  lemma PopTimeOk(a: Agenda)
    requires Ok(a) && a.tim != []
    ensures Ok(PopTime(a)) && a.tim[0] !in PopTime(a).tim
  {
    var r := a.tim[1..];
    assert forall k :: 0 <= k < |r| ==> r[k] == a.tim[k + 1];
  }

  function ServeTime(a: Agenda, cfg: Config, ops: seq<Op>): (b: Agenda)
    requires Ok(a) && a.tim != [] && Wellformed(ops)
    ensures Ok(b) && b.now == a.now
  {
    PopTimeOk(a);
    ApplyAll(PopTime(a), cfg, ops)
  }

  predicate RunsTime(a: Agenda, cfg: Config, h: Script, n: nat, trace: seq<Served>, b: Agenda)
    requires Ok(a)
    decreases |trace|
  {
    if trace == [] then !TimeDue(a) && b == NextCheck(a, cfg)
    else
      TimeDue(a) && trace[0] == Served(a.tim[0], a.time[a.tim[0]]) && Wellformed(h(a.tim[0], n)) &&
      RunsTime(ServeTime(a, cfg, h(a.tim[0], n)), cfg, h, n + 1, trace[1..], b)
  }

  /** From a after n handlers, the second loop comes to m after serving `trace`. */
  predicate LeadsTime(a: Agenda, cfg: Config, h: Script, n: nat, trace: seq<Served>, m: Agenda)
    requires Ok(a) && Ok(m)
    decreases |trace|
  {
    if trace == [] then m == a
    else
      TimeDue(a) && trace[0] == Served(a.tim[0], a.time[a.tim[0]]) && Wellformed(h(a.tim[0], n)) &&
      LeadsTime(ServeTime(a, cfg, h(a.tim[0], n)), cfg, h, n + 1, trace[1..], m)
  }

  lemma LeadsTimeCons(a: Agenda, cfg: Config, h: Script, n: nat, rest: seq<Served>, m: Agenda)
    requires Ok(a) && Ok(m) && TimeDue(a) && a.tim[0] < |a.time| && Wellformed(h(a.tim[0], n))
    requires LeadsTime(ServeTime(a, cfg, h(a.tim[0], n)), cfg, h, n + 1, rest, m)
    ensures LeadsTime(a, cfg, h, n, [Served(a.tim[0], a.time[a.tim[0]])] + rest, m)
  {
    hide Ok, ServeTime, Wellformed;
    assert ([Served(a.tim[0], a.time[a.tim[0]])] + rest)[1..] == rest;
  }

  // ---------------------------------------------------------- handlers that move deadlines forward

  /** No clock reading above c, and no time deadline that is not near. */
  predicate Calm(a: Agenda, cfg: Config, c: nat, op: Op)
    requires Ok(a)
  {
    IsEvent(op.i) && (op.UpdateTime? ==> op.clock <= c) &&
    (Resolve(a, cfg, op).InTime? ==> Resolve(a, cfg, op).t < HALF)
  }

  /** While an event with deadline t is being served, nothing is put into the time list at or before t. */
  predicate ForwardTimeAll(a: Agenda, cfg: Config, c: nat, ops: seq<Op>, t: nat)
    requires Ok(a)
    decreases |ops|
  {
    ops == [] ||
    (Calm(a, cfg, c, ops[0]) && (Resolve(a, cfg, ops[0]).InTime? ==> Resolve(a, cfg, ops[0]).t > t) &&
     (ApplyOk(a, cfg, ops[0]); ForwardTimeAll(Apply(a, cfg, ops[0]), cfg, c, ops[1..], t)))
  }

  predicate ForwardTimeServe(m: Agenda, cfg: Config, h: Script, k: nat, c: nat)
    requires Ok(m)
  {
    TimeDue(m) ==> (PopTimeOk(m); ForwardTimeAll(PopTime(m), cfg, c, h(m.tim[0], k), m.time[m.tim[0]]))
  }

  /** Every handler does so in the state in which the loop comes to run it. */
  ghost predicate ForwardTimeRun(a: Agenda, cfg: Config, h: Script, n: nat, c: nat)
    requires Ok(a)
  {
    forall trace, m :: Ok(m) && LeadsTime(a, cfg, h, n, trace, m) ==> ForwardTimeServe(m, cfg, h, n + |trace|, c)
  }

  lemma ForwardTimeNow(a: Agenda, cfg: Config, h: Script, n: nat, c: nat)
    requires Ok(a) && ForwardTimeRun(a, cfg, h, n, c)
    ensures ForwardTimeServe(a, cfg, h, n, c)
  {
    hide Ok, ForwardTimeServe;
    assert LeadsTime(a, cfg, h, n, [], a);
  }

  lemma ForwardTimeNext(a: Agenda, cfg: Config, h: Script, n: nat, c: nat)
    requires Ok(a) && ForwardTimeRun(a, cfg, h, n, c) && TimeDue(a) && Wellformed(h(a.tim[0], n))
    ensures ForwardTimeRun(ServeTime(a, cfg, h(a.tim[0], n)), cfg, h, n + 1, c)
  {
    hide Ok, ForwardTimeServe, LeadsTime, ServeTime, Wellformed, Ahead;
    var b := ServeTime(a, cfg, h(a.tim[0], n));
    forall rest, m | Ok(m) && LeadsTime(b, cfg, h, n + 1, rest, m)
      ensures ForwardTimeServe(m, cfg, h, n + 1 + |rest|, c)
    {
      TimeHead(a);
      LeadsTimeCons(a, cfg, h, n, rest, m);
      var trace := [Served(a.tim[0], a.time[a.tim[0]])] + rest;
      assert n + |trace| == n + 1 + |rest|;
    }
  }

  lemma TimeHead(a: Agenda)
    requires Ok(a) && a.tim != []
    ensures IsEvent(a.tim[0]) && a.tim[0] < |a.time| && IsList(a.tim, a.time)
  {
  }

  lemma {:induction false} ForwardTimeWellformed(a: Agenda, cfg: Config, c: nat, ops: seq<Op>, t: nat)
    requires Ok(a) && ForwardTimeAll(a, cfg, c, ops, t)
    ensures Wellformed(ops)
    decreases |ops|
  {
    hide Ok, Resolve, Apply;
    if ops != [] {
      ApplyOk(a, cfg, ops[0]);
      ForwardTimeWellformed(Apply(a, cfg, ops[0]), cfg, c, ops[1..], t);
    }
  }

  lemma NearStep(a: Agenda, cfg: Config, c: nat, op: Op)
    requires Ok(a) && Near(a) && a.clock <= c < HALF && Calm(a, cfg, c, op)
    ensures Near(Apply(a, cfg, op)) && Apply(a, cfg, op).clock <= c
  {
    hide Ok, Resolve, Requeue;
    ApplyOk(a, cfg, op);
    OkEvents(a);
    var b := Apply(a, cfg, op);
    OkEvents(b);
    RequeueOk(a, op.i, Resolve(a, cfg, op));
    forall k | 0 <= k < |b.tim| ensures b.time[b.tim[k]] < HALF {
      assert b.tim[k] in b.tim;
      if b.tim[k] != op.i {
        NearAt(a, b.tim[k]);
      }
    }
  }

  lemma {:induction false} ForwardTimeOnward(p: Agenda, a: Agenda, cfg: Config, c: nat, ops: seq<Op>, t: nat)
    requires Ok(p) && Ok(a) && Wellformed(ops) && ForwardTimeAll(a, cfg, c, ops, t) && Near(a) && a.clock <= c < HALF
    requires Onward(p.tim, p.time, a.tim, a.time, t)
    ensures var b := ApplyAll(a, cfg, ops); Onward(p.tim, p.time, b.tim, b.time, t) && Near(b) && b.clock <= c
    decreases |ops|
  {
    hide Ok, Resolve, Apply, Requeue, Near;
    if ops != [] {
      ApplyOk(a, cfg, ops[0]);
      NearStep(a, cfg, c, ops[0]);
      OkEvents(Apply(a, cfg, ops[0]));
      ForwardTimeOnward(p, Apply(a, cfg, ops[0]), cfg, c, ops[1..], t);
    }
  }

  lemma PopNear(a: Agenda)
    requires Near(a) && a.tim != []
    ensures Near(PopTime(a))
  {
  }

  /** How late the time events are for a bound c on the clock readings of the call. */
  function LateTimes(a: Agenda, c: nat): nat
    requires Ok(a)
  {
    Late(a.tim, a.time, c)
  }

  lemma ServeTimeOnward(a: Agenda, cfg: Config, h: Script, n: nat, c: nat)
    requires Ok(a) && Near(a) && a.clock <= c < HALF && TimeDue(a) && ForwardTimeServe(a, cfg, h, n, c)
    ensures Wellformed(h(a.tim[0], n)) && IsEvent(a.tim[0]) && |a.time| == NUM_EVENTS
    ensures var t, b := a.time[a.tim[0]], ServeTime(a, cfg, h(a.tim[0], n));
      t <= a.clock && Near(b) && b.clock <= c && Onward(a.tim[1..], a.time, b.tim, b.time, t)
  {
    hide Ok, ForwardTimeAll, Near, Ahead;
    NearDue(a);
    PopTimeOk(a);
    TimeHead(a);
    PopNear(a);
    OkEvents(a);
    OkEvents(PopTime(a));
    var p, t, ops := PopTime(a), a.time[a.tim[0]], h(a.tim[0], n);
    ForwardTimeWellformed(p, cfg, c, ops, t);
    ForwardTimeOnward(p, p, cfg, c, ops, t);
  }

  /** One turn of the loop at cycInt.c:126-141: later deadlines only, and less lateness overall. */
  lemma ServeTimeProgress(a: Agenda, cfg: Config, h: Script, n: nat, c: nat)
    requires Ok(a) && Near(a) && a.clock <= c < HALF && TimeDue(a) && ForwardTimeServe(a, cfg, h, n, c)
    ensures Wellformed(h(a.tim[0], n)) && a.tim[0] < |a.time|
    ensures var t, b := a.time[a.tim[0]], ServeTime(a, cfg, h(a.tim[0], n));
      t <= a.clock && Near(b) && b.clock <= c && NotBefore(b.tim, b.time, t) && LateTimes(b, c) < LateTimes(a, c)
  {
    hide Ok, ForwardTimeServe, Near, Ahead, Late, NotBefore, Onward, ServeTime, IsList;
    ServeTimeOnward(a, cfg, h, n, c);
    TimeHead(a);
    var t, b := a.time[a.tim[0]], ServeTime(a, cfg, h(a.tim[0], n));
    TailNotBefore(a.tim, a.time);
    OnwardNotBefore(a.tim[1..], a.time, b.tim, b.time, t);
    LateDrops(a.tim, a.time, b.tim, b.time, c);
  }

  /** Time events are served in deadline order, none before its time, and none is left due. */
  lemma {:induction false} RunsTimeInOrder(a: Agenda, cfg: Config, h: Script,
    n: nat, trace: seq<Served>, b: Agenda, c: nat, t: nat)
    requires Ok(a) && Near(a) && a.clock <= c < HALF && ForwardTimeRun(a, cfg, h, n, c)
    requires NotBefore(a.tim, a.time, t) && RunsTime(a, cfg, h, n, trace, b)
    ensures Ok(b) && !TimeDue(b) && Near(b) && a.now == b.now
    ensures forall k :: 0 <= k < |trace| ==> t <= trace[k].deadline <= c
    ensures NonDecreasing(trace)
    decreases |trace|
  {
    hide Ok, ForwardTimeRun, ForwardTimeServe, ServeTime, Near, LateTimes;
    if trace == [] {
      NextCheckOk(a, cfg);
    } else {
      ForwardTimeNow(a, cfg, h, n, c);
      ServeTimeProgress(a, cfg, h, n, c);
      ForwardTimeNext(a, cfg, h, n, c);
      assert a.tim[0] in a.tim;
      var d, rest := trace[0].deadline, trace[1..];
      RunsTimeInOrder(ServeTime(a, cfg, h(a.tim[0], n)), cfg, h, n + 1, rest, b, c, d);
      assert trace == [trace[0]] + rest;
      InFront(trace[0], rest);
    }
  }

  lemma NextCheckOk(a: Agenda, cfg: Config)
    requires Ok(a)
    ensures Ok(NextCheck(a, cfg)) && (TimeDue(NextCheck(a, cfg)) <==> TimeDue(a)) &&
      (Near(NextCheck(a, cfg)) <==> Near(a))
  {
  }

  // ---------------------------------------------------------- time events of cycle handlers

  predicate CalmAll(a: Agenda, cfg: Config, ops: seq<Op>)
    requires Ok(a)
    decreases |ops|
  {
    ops == [] ||
    (Calm(a, cfg, HALF - 1, ops[0]) && (ApplyOk(a, cfg, ops[0]); CalmAll(Apply(a, cfg, ops[0]), cfg, ops[1..])))
  }

  predicate CalmServe(m: Agenda, cfg: Config, h: Script, k: nat)
    requires Ok(m)
  {
    Due(m) ==> (PopOk(m); CalmAll(Pop(m), cfg, h(m.cyc[0], k)))
  }

  /** The cycle handlers of a call read the clock and arm time events below 2^63. */
  ghost predicate CalmRun(a: Agenda, cfg: Config, h: Script, n: nat)
    requires Ok(a)
  {
    forall trace, m :: Ok(m) && Leads(a, cfg, h, n, trace, m) ==> CalmServe(m, cfg, h, n + |trace|)
  }

  lemma {:induction false} CalmNear(a: Agenda, cfg: Config, ops: seq<Op>)
    requires Ok(a) && Wellformed(ops) && CalmAll(a, cfg, ops) && Near(a)
    ensures Near(ApplyAll(a, cfg, ops))
    decreases |ops|
  {
    hide Ok, Resolve, Apply;
    if ops != [] {
      ApplyOk(a, cfg, ops[0]);
      NearStep(a, cfg, HALF - 1, ops[0]);
      CalmNear(Apply(a, cfg, ops[0]), cfg, ops[1..]);
    }
  }

  lemma CalmServed(m: Agenda, cfg: Config, h: Script, k: nat)
    requires Ok(m) && Due(m) && CalmServe(m, cfg, h, k) && Wellformed(h(m.cyc[0], k)) && Near(m)
    ensures Near(Serve(m, cfg, h(m.cyc[0], k)))
  {
    hide Ok, CalmAll;
    PopOk(m);
    CalmNear(Pop(m), cfg, h(m.cyc[0], k));
  }
}

/** Periodic time events keep their pace exactly while they are served at most half a period late. */
module CatchUp {
  import opened Numbers
  import opened Agenda
  import opened Dispatch
  import opened DispatchTheorems
  import opened TimeDispatch

  /** The catch-up rule keeps the old deadline exactly when the clock is at most half a delay past it. */
  lemma CatchUpIff(time: nat, clock: nat, delay: nat)
    requires time < U64 && clock < U64
    ensures Rebase(time, clock, delay) == time <==> (clock - time) % U64 <= delay / 2
  {
  }

  /** CycInt_UpdateTimeEvent in realtime mode, with p microseconds for the delay. */
  predicate RearmsTime(cfg: Config, op: Op, i: nat, p: nat) {
    cfg.realtime && op.UpdateTime? && op.i == i && Delay(cfg, op.slow, op.fast) == p
  }

  /** One operation moves i on, and the others leave it. */
  predicate RearmsTimeOnce(cfg: Config, ops: seq<Op>, i: nat, p: nat) {
    ops != [] &&
    if ops[0].i == i then RearmsTime(cfg, ops[0], i, p) && Leaves(ops[1..], i)
    else RearmsTimeOnce(cfg, ops[1..], i, p)
  }

  ghost predicate TimeScript(cfg: Config, h: Script, i: nat, p: nat) {
    (forall n: nat :: RearmsTimeOnce(cfg, h(i, n), i, p)) &&
    (forall j: nat, n: nat :: j != i ==> Leaves(h(j, n), i))
  }

  /** What the handler reads off the clock to re-arm i. */
  function Reading(cfg: Config, ops: seq<Op>, i: nat, p: nat): nat
    requires RearmsTimeOnce(cfg, ops, i, p)
  {
    if ops[0].i == i then ops[0].clock else Reading(cfg, ops[1..], i, p)
  }

  predicate InTimes(a: Agenda, i: nat, t: nat) {
    |a.time| == NUM_EVENTS && IsEvent(i) && i in a.tim && a.time[i] == t
  }

  /** Handlers run at or after the deadline they are served for, within the capacity of the counters. */
  ghost predicate Clocked(cfg: Config, h: Script, n: nat, trace: seq<Served>, i: nat, p: nat)
    requires TimeScript(cfg, h, i, p)
    decreases |trace|
  {
    trace == [] ||
    ((trace[0].i == i ==> trace[0].deadline <= Reading(cfg, h(i, n), i, p) < U64 - p) &&
     Clocked(cfg, h, n + 1, trace[1..], i, p))
  }

  /** And at most half a period after it. */
  ghost predicate Punctual(cfg: Config, h: Script, n: nat, trace: seq<Served>, i: nat, p: nat)
    requires TimeScript(cfg, h, i, p)
    decreases |trace|
  {
    trace == [] ||
    ((trace[0].i == i ==> Reading(cfg, h(i, n), i, p) <= trace[0].deadline + p / 2) &&
     Punctual(cfg, h, n + 1, trace[1..], i, p))
  }

  // ---------------------------------------------------------- one service

  lemma {:induction false} LeavesInTimes(a: Agenda, cfg: Config, ops: seq<Op>, i: nat, t: nat)
    requires Ok(a) && Wellformed(ops) && Leaves(ops, i) && InTimes(a, i, t)
    ensures InTimes(ApplyAll(a, cfg, ops), i, t)
    decreases |ops|
  {
    hide Ok, Resolve, Apply, Requeue;
    if ops != [] {
      ApplyOk(a, cfg, ops[0]);
      OkEvents(Apply(a, cfg, ops[0]));
      LeavesInTimes(Apply(a, cfg, ops[0]), cfg, ops[1..], i, t);
    }
  }

  /** Served at clock c for deadline t, the event comes back p after whichever the rule takes. */
  lemma {:induction false} RearmedInTimes(a: Agenda, cfg: Config, ops: seq<Op>, i: nat, t: nat, p: nat)
    requires Ok(a) && Wellformed(ops) && RearmsTimeOnce(cfg, ops, i, p) && IsEvent(i) && |a.time| == NUM_EVENTS
    requires a.time[i] == t && t <= Reading(cfg, ops, i, p) < U64 - p
    ensures var c := Reading(cfg, ops, i, p); InTimes(ApplyAll(a, cfg, ops), i, if c <= t + p / 2 then t + p else c + p)
    decreases |ops|
  {
    hide Ok, Apply, Requeue, InTimes, Leaves;
    var op, rest, c := ops[0], ops[1..], Reading(cfg, ops, i, p);
    ApplyOk(a, cfg, op);
    var b := Apply(a, cfg, op);
    OkEvents(b);
    if op.i == i {
      RearmedAt(a, cfg, op, p);
      assert InTimes(b, i, if c <= t + p / 2 then t + p else c + p) by { InTimesIs(b, i); }
      LeavesInTimes(b, cfg, rest, i, if c <= t + p / 2 then t + p else c + p);
    } else {
      RearmedInTimes(b, cfg, rest, i, t, p);
    }
  }

  lemma RearmedAt(a: Agenda, cfg: Config, op: Op, p: nat)
    requires Ok(a) && IsEvent(op.i) && RearmsTime(cfg, op, op.i, p) && a.time[op.i] <= op.clock < U64 - p
    ensures Resolve(a, cfg, op) == InTime(if op.clock <= a.time[op.i] + p / 2 then a.time[op.i] + p else op.clock + p)
  {
    hide Delay, Rebase;
    RebaseIs(a.time[op.i], op.clock, p);
    NoWrap(op.clock);
    var base := if op.clock <= a.time[op.i] + p / 2 then a.time[op.i] else op.clock;
    NoWrap(base + p);
  }

  lemma NoWrap(x: nat)
    requires x < U64
    ensures x % U64 == x
  {
  }

  lemma RebaseIs(time: nat, clock: nat, p: nat)
    requires time <= clock < U64
    ensures Rebase(time, clock, p) == if clock <= time + p / 2 then time else clock
  {
    NoWrap(clock - time);
  }

  lemma InTimesIs(a: Agenda, i: nat)
    requires |a.time| == NUM_EVENTS && IsEvent(i) && i in a.tim
    ensures InTimes(a, i, a.time[i])
  {
  }

  lemma ServeInTimes(a: Agenda, cfg: Config, ops: seq<Op>, i: nat, t: nat, p: nat)
    requires Ok(a) && a.tim != [] && a.tim[0] == i && InTimes(a, i, t)
    requires Wellformed(ops) && RearmsTimeOnce(cfg, ops, i, p) && t <= Reading(cfg, ops, i, p) < U64 - p
    ensures var c := Reading(cfg, ops, i, p);
      InTimes(ServeTime(a, cfg, ops), i, if c <= t + p / 2 then t + p else c + p)
  {
    hide Ok, RearmsTimeOnce, Reading;
    PopTimeOk(a);
    RearmedInTimes(PopTime(a), cfg, ops, i, t, p);
  }

  lemma ServeOtherTime(a: Agenda, cfg: Config, ops: seq<Op>, i: nat, t: nat)
    requires Ok(a) && a.tim != [] && a.tim[0] != i && Wellformed(ops) && Leaves(ops, i) && InTimes(a, i, t)
    ensures InTimes(ServeTime(a, cfg, ops), i, t)
  {
    hide Ok;
    PopTimeOk(a);
    var k :| 0 <= k < |a.tim| && a.tim[k] == i;
    assert PopTime(a).tim[k - 1] == i;
    LeavesInTimes(PopTime(a), cfg, ops, i, t);
  }

  // ---------------------------------------------------------- one call, and all calls

  /** The deadlines of i that were served, and the one that is pending. */
  function Deadlines(trace: seq<Served>, i: nat, last: nat): (s: seq<nat>)
    ensures s != []
  {
    Services(trace, i) + [last]
  }

  /** A series goes on evenly across a joint exactly when both parts are even. */
  lemma Joined(s: seq<nat>, r: seq<nat>, t: nat, p: nat)
    requires r != []
    ensures Arithmetic(s + r, t, p) <==> Arithmetic(s + [r[0]], t, p) && Arithmetic(r, r[0], p)
  {
    hide Nth;
    if Arithmetic(s + r, t, p) {
      assert r[0] == (s + r)[|s|];
      forall k | 0 <= k < |s| + 1 ensures (s + [r[0]])[k] == Nth(t, k, p) {
        assert (s + [r[0]])[k] == (s + r)[k];
      }
      forall k | 0 <= k < |r| ensures r[k] == Nth(r[0], k, p) {
        assert r[k] == (s + r)[|s| + k];
        NthShift(t, |s|, k, p);
      }
    }
    if Arithmetic(s + [r[0]], t, p) && Arithmetic(r, r[0], p) {
      assert r[0] == (s + [r[0]])[|s|];
      forall k | 0 <= k < |s + r| ensures (s + r)[k] == Nth(t, k, p) {
        if k < |s| {
          assert (s + r)[k] == (s + [r[0]])[k];
        } else {
          NthShift(t, |s|, k - |s|, p);
        }
      }
    }
  }

  lemma Two(t: nat, u: nat, p: nat)
    ensures Arithmetic([t] + [u], t, p) <==> u == t + p
  {
    NthShift(t, 0, 0, p);
    assert ([t] + [u])[0] == t && ([t] + [u])[1] == u;
  }

  lemma One(t: nat, p: nat)
    ensures Arithmetic([t], t, p)
  {
  }

  /** Within one call: the deadlines of the event are p apart exactly when each service is punctual. */
  lemma {:induction false} PaceOfRun(a: Agenda, cfg: Config, h: Script, n: nat, trace: seq<Served>, b: Agenda,
                                     i: nat, t: nat, p: nat)
    requires Ok(a) && InTimes(a, i, t) && TimeScript(cfg, h, i, p) && RunsTime(a, cfg, h, n, trace, b)
    requires Clocked(cfg, h, n, trace, i, p)
    ensures |b.time| == NUM_EVENTS && IsEvent(i) && InTimes(b, i, b.time[i])
    ensures var s := Deadlines(trace, i, b.time[i]);
      s[0] == t && (Arithmetic(s, t, p) <==> Punctual(cfg, h, n, trace, i, p))
    decreases |trace|
  {
    hide Ok, ServeTime, Arithmetic, RearmsTimeOnce, Reading, TimeDue;
    if trace == [] {
      One(t, p);
      assert Deadlines(trace, i, b.time[i]) == [t];
    } else {
      var ops := h(a.tim[0], n);
      var m := ServeTime(a, cfg, ops);
      if a.tim[0] == i {
        var c := Reading(cfg, ops, i, p);
        var u := if c <= t + p / 2 then t + p else c + p;
        ServeInTimes(a, cfg, ops, i, t, p);
        PaceOfRun(m, cfg, h, n + 1, trace[1..], b, i, u, p);
        var r := Deadlines(trace[1..], i, b.time[i]);
        Joined([t], r, t, p);
        Two(t, u, p);
        assert Deadlines(trace, i, b.time[i]) == [t] + r;
      } else {
        ServeOtherTime(a, cfg, ops, i, t);
        PaceOfRun(m, cfg, h, n + 1, trace[1..], b, i, t, p);
        assert Services(trace, i) == Services(trace[1..], i);
      }
    }
  }

  /** One turn of the second loop with its handlers. */
  datatype Round = Round(start: Agenda, h: Script, trace: seq<Served>, after: Agenda)

  /** Between the rounds anything may happen that leaves the deadline of i. */
  ghost predicate Rounds(a: Agenda, cfg: Config, rounds: seq<Round>, i: nat, p: nat)
    decreases |rounds|
  {
    rounds == [] ||
    (var r := rounds[0];
     Ok(r.start) && KeepsTime(a, r.start, i) && TimeScript(cfg, r.h, i, p) &&
     RunsTime(r.start, cfg, r.h, 0, r.trace, r.after) && Clocked(cfg, r.h, 0, r.trace, i, p) &&
     Rounds(r.after, cfg, rounds[1..], i, p))
  }

  ghost predicate KeepsTime(a: Agenda, b: Agenda, i: nat) {
    forall t :: InTimes(a, i, t) ==> InTimes(b, i, t)
  }

  ghost predicate AllPunctual(a: Agenda, cfg: Config, rounds: seq<Round>, i: nat, p: nat)
    requires Rounds(a, cfg, rounds, i, p)
    decreases |rounds|
  {
    rounds == [] ||
    (Punctual(cfg, rounds[0].h, 0, rounds[0].trace, i, p) && AllPunctual(rounds[0].after, cfg, rounds[1..], i, p))
  }

  /** The deadlines of i over all rounds, the one pending after them included. */
  function AllDeadlines(a: Agenda, rounds: seq<Round>, i: nat): (s: seq<nat>)
    ensures s != []
    decreases |rounds|
  {
    if rounds == [] then [if i < |a.time| then a.time[i] else 0]
    else Services(rounds[0].trace, i) + AllDeadlines(rounds[0].after, rounds[1..], i)
  }

  /** Realtime mode: over any rounds of the time loop the deadlines of a periodic event are exactly p apart if and only
      if the event was never served more than half a period late. */
  lemma {:induction false} NoDriftIff(a: Agenda, cfg: Config, rounds: seq<Round>, i: nat, t: nat, p: nat)
    requires InTimes(a, i, t) && Rounds(a, cfg, rounds, i, p)
    ensures AllDeadlines(a, rounds, i)[0] == t
    ensures Arithmetic(AllDeadlines(a, rounds, i), t, p) <==> AllPunctual(a, cfg, rounds, i, p)
    decreases |rounds|
  {
    hide Ok, RunsTime, TimeScript, Punctual, Clocked, Arithmetic, Services;
    if rounds == [] {
      One(t, p);
    } else {
      var r := rounds[0];
      PaceOfRun(r.start, cfg, r.h, 0, r.trace, r.after, i, t, p);
      var u := r.after.time[i];
      NoDriftIff(r.after, cfg, rounds[1..], i, u, p);
      Joined(Services(r.trace, i), AllDeadlines(r.after, rounds[1..], i), t, p);
      FirstOf(Services(r.trace, i), AllDeadlines(r.after, rounds[1..], i));
    }
  }

  lemma FirstOf(s: seq<nat>, r: seq<nat>)
    requires r != []
    ensures (s + r)[0] == (s + [r[0]])[0]
  {
  }
}

/** When an event is due that has been added, and in which call it is served. */
module Arming {
  import opened Numbers
  import opened Agenda
  import opened Dispatch
  import opened DispatchTheorems
  import opened TimeDispatch
  import opened CatchUp

  /** i waits for cycle t. */
  predicate DueAtCycle(a: Agenda, i: nat, t: nat) {
    Pending(a, i, t) && i !in a.tim
  }

  /** i waits for microsecond t. */
  predicate DueAtTime(a: Agenda, i: nat, t: nat) {
    InTimes(a, i, t) && i !in a.cyc
  }

  /** While nothing wraps, an added event is due its delay after the cycle counter, an updated one its delay after its
      old deadline. */
  lemma ArmedCycles(a: Agenda, cfg: Config, i: nat, delay: nat)
    requires Ok(a) && IsEvent(i)
    ensures |a.time| == NUM_EVENTS
    ensures a.now + delay < U64 ==> DueAtCycle(Apply(a, cfg, AddCycles(i, delay)), i, a.now + delay)
    ensures a.time[i] + delay < U64 ==> DueAtCycle(Apply(a, cfg, UpdateCycles(i, delay)), i, a.time[i] + delay)
  {
    hide Ok, Apply;
    OkEvents(a);
    ArmedIs(a, cfg, AddCycles(i, delay));
    ArmedIs(a, cfg, UpdateCycles(i, delay));
  }

  /** The same with a delay in microseconds; in realtime mode a fast delay counts, unless it is 0. */
  lemma ArmedCycleTime(a: Agenda, cfg: Config, i: nat, slow: nat, fast: nat, cycles: nat)
    requires Ok(a) && IsEvent(i) && cycles == (if cfg.realtime && fast > 0 then fast else slow) * cfg.freq
    ensures |a.time| == NUM_EVENTS
    ensures a.now + cycles < U64 ==> DueAtCycle(Apply(a, cfg, AddCycleTime(i, slow, fast)), i, a.now + cycles)
    ensures a.time[i] + cycles < U64 ==>
      DueAtCycle(Apply(a, cfg, UpdateCycleTime(i, slow, fast)), i, a.time[i] + cycles)
  {
    hide Ok, Apply;
    OkEvents(a);
    ArmedIs(a, cfg, AddCycleTime(i, slow, fast));
    ArmedIs(a, cfg, UpdateCycleTime(i, slow, fast));
  }

  /** In realtime mode a time event is due its delay after the clock; otherwise it is a cycle event. */
  lemma ArmedTime(a: Agenda, cfg: Config, i: nat, slow: nat, fast: nat, clock: nat, cycles: nat)
    requires Ok(a) && IsEvent(i) && cycles == slow * cfg.freq
    ensures |a.time| == NUM_EVENTS
    ensures var d := if fast > 0 then fast else slow;
      cfg.realtime && clock + d < U64 ==> DueAtTime(Apply(a, cfg, AddTime(i, slow, fast, clock)), i, clock + d)
    ensures !cfg.realtime && a.now + cycles < U64 ==>
      DueAtCycle(Apply(a, cfg, AddTime(i, slow, fast, clock)), i, a.now + cycles)
    ensures !cfg.realtime && a.time[i] + cycles < U64 ==>
      DueAtCycle(Apply(a, cfg, UpdateTime(i, slow, fast, clock)), i, a.time[i] + cycles)
  {
    hide Ok, Apply, Resolve;
    OkEvents(a);
    TimeResolved(a, cfg, i, slow, fast, clock, cycles);
    ArmedIs(a, cfg, AddTime(i, slow, fast, clock));
    ArmedIs(a, cfg, UpdateTime(i, slow, fast, clock));
  }

  lemma TimeResolved(a: Agenda, cfg: Config, i: nat, slow: nat, fast: nat, clock: nat, cycles: nat)
    requires Ok(a) && IsEvent(i) && cycles == slow * cfg.freq
    ensures |a.time| == NUM_EVENTS
    ensures cfg.realtime ==>
      Resolve(a, cfg, AddTime(i, slow, fast, clock)) == InTime((clock + if fast > 0 then fast else slow) % U64)
    ensures !cfg.realtime ==>
      Resolve(a, cfg, AddTime(i, slow, fast, clock)) == InCycles((a.now + cycles) % U64) &&
      Resolve(a, cfg, UpdateTime(i, slow, fast, clock)) == InCycles((a.time[i] + cycles) % U64)
  {
    hide Ok, Rebase;
    OkEvents(a);
  }

  lemma ArmedIs(a: Agenda, cfg: Config, op: Op)
    requires Ok(a) && IsEvent(op.i)
    ensures var e := Resolve(a, cfg, op);
      (e.InCycles? ==> DueAtCycle(Apply(a, cfg, op), op.i, e.t)) &&
      (e.InTime? ==> DueAtTime(Apply(a, cfg, op), op.i, e.t))
  {
    hide Ok, Apply, Requeue, Resolve;
    ApplyOk(a, cfg, op);
    OkEvents(a);
    OkEvents(Apply(a, cfg, op));
  }

  // ---------------------------------------------------------- in which call it is served

  /** Nobody but the handler of i touches i. */
  ghost predicate LeftAlone(h: Script, i: nat) {
    forall j: nat, n: nat :: j != i ==> Leaves(h(j, n), i)
  }

  lemma HeadFirst(a: Agenda, i: nat, t: nat)
    requires Ok(a) && Pending(a, i, t)
    ensures a.cyc != [] && a.cyc[0] < |a.time| && a.time[a.cyc[0]] <= t
  {
    var k :| 0 <= k < |a.cyc| && a.cyc[k] == i;
    if k > 0 {
      assert a.time[a.cyc[0]] <= a.time[a.cyc[k]];
    }
  }

  /** One call serves the event exactly if the counter has reached its deadline. */
  lemma {:induction false} ServedIffDue(a: Agenda, cfg: Config, h: Script, n: nat, trace: seq<Served>, b: Agenda,
                                        i: nat, t: nat)
    requires Ok(a) && Pending(a, i, t) && LeftAlone(h, i) && Runs(a, cfg, h, n, trace, b)
    ensures Services(trace, i) != [] <==> t <= a.now
    ensures if t <= a.now then Services(trace, i)[0] == t else Pending(b, i, t)
    decreases |trace|
  {
    hide Ok, Serve, Pending;
    HeadFirst(a, i, t);
    PendingTime(a, i, t);
    if trace != [] {
      var ops := h(a.cyc[0], n);
      if a.cyc[0] != i {
        ServeOther(a, cfg, ops, i, t);
        ServedIffDue(Serve(a, cfg, ops), cfg, h, n + 1, trace[1..], b, i, t);
      }
    }
  }

  /** Calls between which nobody touches i. */
  ghost predicate CallsAlone(a: Agenda, cfg: Config, calls: seq<Call>, i: nat)
    requires Ok(a)
    decreases |calls|
  {
    calls == [] ||
    (var c := calls[0];
     a.now + c.cycles < U64 && LeftAlone(c.h, i) &&
     Runs(a.(now := a.now + c.cycles), cfg, c.h, 0, c.trace, c.after) &&
     Ok(c.next) && Keeps(c.after, c.next, i) && CallsAlone(c.next, cfg, calls[1..], i))
  }

  /** The cycle counter in call k. */
  function Counter(a: Agenda, calls: seq<Call>, k: nat): nat
    requires k < |calls|
  {
    (if k == 0 then a.now else calls[k - 1].next.now) + calls[k].cycles
  }

  lemma CounterStep(a: Agenda, calls: seq<Call>)
    requires calls != []
    ensures Counter(a, calls, 0) == a.now + calls[0].cycles
    ensures forall j :: 0 <= j < |calls| - 1 ==>
      Counter(calls[0].next, calls[1..], j) == Counter(a, calls, j + 1)
  {
  }

  /** The first call whose counter has reached the deadline serves the event, with this deadline, and none before. */
  lemma {:induction false} ServedInTime(a: Agenda, cfg: Config, calls: seq<Call>, i: nat, t: nat, k: nat)
    requires Ok(a) && Pending(a, i, t) && CallsAlone(a, cfg, calls, i) && k < |calls|
    requires forall j :: 0 <= j < k ==> Counter(a, calls, j) < t
    ensures Services(calls[k].trace, i) != [] <==> t <= Counter(a, calls, k)
    ensures t <= Counter(a, calls, k) ==> Services(calls[k].trace, i)[0] == t
    decreases k
  {
    hide Ok, Pending, Services, LeftAlone, Runs, Counter;
    var c := calls[0];
    var b := a.(now := a.now + c.cycles);
    AdvanceOk(a, c.cycles);
    PendingAdvance(a, c.cycles, i, t);
    ServedIffDue(b, cfg, c.h, 0, c.trace, c.after, i, t);
    CounterStep(a, calls);
    if k > 0 {
      assert Counter(a, calls, 0) < t;
      assert forall j :: 0 <= j < k - 1 ==> Counter(c.next, calls[1..], j) == Counter(a, calls, j + 1);
      ServedInTime(c.next, cfg, calls[1..], i, t, k - 1);
    }
  }

  /** An event added with a delay of c cycles is served by the first call in which the counter has come c cycles
      further, and by none before. */
  lemma AddedIsServed(a: Agenda, cfg: Config, calls: seq<Call>, i: nat, c: nat, k: nat)
    requires Ok(a) && IsEvent(i) && a.now + c < U64 && Ok(Apply(a, cfg, AddCycles(i, c)))
    requires CallsAlone(Apply(a, cfg, AddCycles(i, c)), cfg, calls, i) && k < |calls|
    requires forall j :: 0 <= j < k ==> Counter(a, calls, j) < a.now + c
    ensures Services(calls[k].trace, i) != [] <==> a.now + c <= Counter(a, calls, k)
    ensures a.now + c <= Counter(a, calls, k) ==> Services(calls[k].trace, i)[0] == a.now + c
  {
    hide Ok, Services, CallsAlone;
    var b := Apply(a, cfg, AddCycles(i, c));
    ArmedCycles(a, cfg, i, c);
    ApplyOk(a, cfg, AddCycles(i, c));
    assert forall j :: 0 <= j < k ==> Counter(b, calls, j) == Counter(a, calls, j);
    ServedInTime(b, cfg, calls, i, a.now + c, k);
  }

  // ---------------------------------------------------------- time events, and the next look at the clock

  lemma TimeHeadFirst(a: Agenda, i: nat, t: nat)
    requires Ok(a) && InTimes(a, i, t)
    ensures a.tim != [] && a.tim[0] < |a.time| && a.time[a.tim[0]] <= t
  {
    var k :| 0 <= k < |a.tim| && a.tim[k] == i;
    if k > 0 {
      assert a.time[a.tim[0]] <= a.time[a.tim[k]];
    }
  }

  lemma CheckOnly(a: Agenda, cfg: Config, i: nat, t: nat)
    requires Ok(a) && InTimes(a, i, t)
    ensures InTimes(NextCheck(a, cfg), i, t) && NextCheck(a, cfg).clock == a.clock
  {
  }

  lemma TimeIs(a: Agenda, i: nat, t: nat)
    requires InTimes(a, i, t)
    ensures i < |a.time| && a.time[i] == t
  {
  }

  /** The time loop serves the event at its deadline, or the clock, when it was last read, had not come to it. */
  lemma {:induction false} ServedIffTime(a: Agenda, cfg: Config, h: Script, n: nat, trace: seq<Served>, b: Agenda,
                                         c: nat, i: nat, t: nat)
    requires Ok(a) && Near(a) && a.clock <= c < HALF && ForwardTimeRun(a, cfg, h, n, c)
    requires InTimes(a, i, t) && LeftAlone(h, i) && RunsTime(a, cfg, h, n, trace, b)
    ensures if Services(trace, i) != [] then Services(trace, i)[0] == t <= c else InTimes(b, i, t) && b.clock < t
    decreases |trace|
  {
    hide Ok, ServeTime, InTimes, Near, TimeDue, Ahead, ForwardTimeRun, ForwardTimeServe;
    TimeHeadFirst(a, i, t);
    NearDue(a);
    if trace == [] {
      CheckOnly(a, cfg, i, t);
    } else {
      var ops := h(a.tim[0], n);
      ForwardTimeNow(a, cfg, h, n, c);
      ServeTimeOnward(a, cfg, h, n, c);
      if a.tim[0] != i {
        ForwardTimeNext(a, cfg, h, n, c);
        ServeOtherTime(a, cfg, ops, i, t);
        ServedIffTime(ServeTime(a, cfg, ops), cfg, h, n + 1, trace[1..], b, c, i, t);
      } else {
        TimeIs(a, i, t);
      }
    }
  }

  lemma {:induction false} CheckSet(a: Agenda, cfg: Config, h: Script, n: nat, trace: seq<Served>, b: Agenda)
    requires Ok(a) && RunsTime(a, cfg, h, n, trace, b)
    ensures Ok(b) && b == NextCheck(b, cfg)
    decreases |trace|
  {
    hide Ok, ServeTime, Ahead;
    if trace == [] {
      NextCheckOk(a, cfg);
      SameAhead(a, NextCheck(a, cfg));
    } else {
      CheckSet(ServeTime(a, cfg, h(a.tim[0], n)), cfg, h, n + 1, trace[1..], b);
    }
  }

  lemma SameAhead(a: Agenda, b: Agenda)
    requires Ok(a) && Ok(b) && a.tim == b.tim && a.time == b.time && a.clock == b.clock
    ensures a.tim != [] ==> Ahead(a) == Ahead(b)
  {
  }

  lemma AheadIs(a: Agenda)
    requires Ok(a) && Near(a) && a.tim != [] && !TimeDue(a)
    ensures a.tim[0] < |a.time| && Ahead(a) == a.time[a.tim[0]] - a.clock > 0 && InTimes(a, a.tim[0], a.time[a.tim[0]])
  {
    NearDue(a);
    NearAt(a, a.tim[0]);
    var d := a.time[a.tim[0]] - a.clock;
    assert d % U64 == d;
  }

  lemma Sooner(d: nat, e: nat, f: nat)
    requires d <= e
    ensures d * f <= e * f
  {
  }

  /** Looking for time events again comes in time for each of them: when the nearest one is due at this speed, or after
      CHECK_INTERVAL microseconds if that is earlier. */
  lemma CheckInTime(a: Agenda, cfg: Config, h: Script, n: nat, trace: seq<Served>, b: Agenda, c: nat, t: nat)
    requires Ok(a) && Near(a) && a.clock <= c < HALF && ForwardTimeRun(a, cfg, h, n, c)
    requires NotBefore(a.tim, a.time, t) && RunsTime(a, cfg, h, n, trace, b)
    requires b.now + 100 * cfg.freq < U64
    ensures b.now <= b.check <= b.now + 100 * cfg.freq
    ensures forall i: nat, u: nat :: InTimes(b, i, u) ==> u > b.clock && b.check <= b.now + (u - b.clock) * cfg.freq
    ensures b.check < b.now + 100 * cfg.freq ==>
      exists i: nat, u: nat :: InTimes(b, i, u) && u > b.clock && b.check == b.now + (u - b.clock) * cfg.freq
  {
    hide Ok, Near, TimeDue, ForwardTimeRun, NotBefore, InTimes, RunsTime, Ahead;
    RunsTimeInOrder(a, cfg, h, n, trace, b, c, t);
    CheckSet(a, cfg, h, n, trace, b);
    var d := 100;
    if b.tim != [] {
      AheadIs(b);
      if Ahead(b) < 100 {
        d := Ahead(b);
      }
    }
    Sooner(d, 100, cfg.freq);
    NoWrap(b.now + d * cfg.freq);
    assert b.check == b.now + d * cfg.freq;
    hide NextCheck;
    forall i: nat, u: nat | InTimes(b, i, u) ensures u > b.clock && b.check <= b.now + (u - b.clock) * cfg.freq {
      TimeHeadFirst(b, i, u);
      Sooner(d, u - b.clock, cfg.freq);
    }
  }

  /** A time event that is added as the nearest one, less than the interval ahead, is looked for when it is due. */
  lemma AddedIsLookedFor(a: Agenda, cfg: Config, i: nat, slow: nat, fast: nat, clock: nat)
    requires Ok(a) && IsEvent(i) && cfg.realtime
    ensures var d, b := if fast > 0 then fast else slow, Apply(a, cfg, AddTime(i, slow, fast, clock));
      d < 100 && b.tim != [] && b.tim[0] == i && a.now + d * cfg.freq < U64 ==> b.check == a.now + d * cfg.freq
  {
    hide Ok, Resolve, Requeue;
    var d := if fast > 0 then fast else slow;
    if a.now + d * cfg.freq < U64 {
      NoWrap(a.now + d * cfg.freq);
    }
  }
}
