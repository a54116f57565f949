/**
 The event scheduler of src/cycInt.c on values: two lists of event numbers, one in cycle time and
 one in microseconds, each sorted by deadline, over one table of deadlines.  Module Scheduler
 threads the lists through the source's array of records.
 */
module Agenda {
  import opened Numbers

  const NUM_EVENTS := 20
  const NEVER := U64 - 1

  const CHECK_INTERVAL := 100

  /** now is nCyclesMainCounter, check nCheckCycles, clock nTimeNow; time[0] is the sentinel's. */
  datatype Agenda = Agenda(now: nat, check: nat, clock: nat, time: seq<nat>, cyc: seq<nat>, tim: seq<nat>)

  datatype Config = Config(realtime: bool, freq: nat)

  predicate IsEvent(i: nat) {
    1 <= i < NUM_EVENTS
  }

  predicate Events(ids: seq<nat>) {
    forall k :: 0 <= k < |ids| ==> IsEvent(ids[k])
  }

  predicate Distinct(ids: seq<nat>) {
    forall j, k :: 0 <= j < k < |ids| ==> ids[j] != ids[k]
  }

  predicate Disjoint(ids: seq<nat>, js: seq<nat>) {
    forall k :: 0 <= k < |ids| ==> ids[k] !in js
  }

  predicate Table(time: seq<nat>) {
    |time| == NUM_EVENTS && time[0] == NEVER && forall k :: 0 <= k < NUM_EVENTS ==> time[k] < U64
  }

  predicate Sorted(ids: seq<nat>, time: seq<nat>)
    requires Table(time) && Events(ids)
  {
    forall j, k :: 0 <= j < k < |ids| ==> time[ids[j]] <= time[ids[k]]
  }

  predicate IsList(ids: seq<nat>, time: seq<nat>) {
    Table(time) && Events(ids) && Distinct(ids) && Sorted(ids, time)
  }

  predicate Ok(a: Agenda) {
    a.now < U64 && a.check < U64 && a.clock < U64 &&
    IsList(a.cyc, a.time) && IsList(a.tim, a.time) && Disjoint(a.cyc, a.tim)
  }

  // ---------------------------------------------------------- list surgery

  function Index(ids: seq<nat>, i: nat): (k: nat)
    requires i in ids
    ensures k < |ids| && ids[k] == i
  {
    if ids[0] == i then 0 else 1 + Index(ids[1..], i)
  }

  function Without(ids: seq<nat>, i: nat): seq<nat> {
    if i in ids then var k := Index(ids, i); ids[..k] + ids[k + 1..] else ids
  }

  /** How many leading events are due strictly before t. */
  function Place(ids: seq<nat>, time: seq<nat>, t: nat): (k: nat)
    requires Table(time) && Events(ids)
    ensures k <= |ids|
    ensures forall j :: 0 <= j < k ==> time[ids[j]] < t
    ensures k < |ids| ==> time[ids[k]] >= t
  {
    if ids == [] || time[ids[0]] >= t then 0
    else
      assert Events(ids[1..]) by { TailEvents(ids); }
      1 + Place(ids[1..], time, t)
  }

  lemma TailEvents(ids: seq<nat>)
    requires Events(ids) && ids != []
    ensures Events(ids[1..])
  {
  }

  /** In front of the first event that is not earlier. */
  function Insert(ids: seq<nat>, time: seq<nat>, i: nat): seq<nat>
    requires Table(time) && Events(ids) && IsEvent(i)
  {
    var k := Place(ids, time, time[i]);
    ids[..k] + [i] + ids[k..]
  }

  lemma WithoutIs(ids: seq<nat>, i: nat)
    requires Events(ids) && Distinct(ids)
    ensures Events(Without(ids, i)) && Distinct(Without(ids, i)) && i !in Without(ids, i)
    ensures forall j :: j in Without(ids, i) <==> j in ids && j != i
  {
    if i in ids {
      CutOut(ids, Index(ids, i));
    }
  }

  lemma CutOut(ids: seq<nat>, k: nat)
    requires Events(ids) && Distinct(ids) && k < |ids|
    ensures var r := ids[..k] + ids[k + 1..];
      Events(r) && Distinct(r) && ids[k] !in r && forall j :: j in r <==> j in ids && j != ids[k]
  {
    var r := ids[..k] + ids[k + 1..];
    assert forall m :: 0 <= m < |r| ==> r[m] == ids[if m < k then m else m + 1];
    forall j | j in ids && j != ids[k] ensures j in r {
      var m :| 0 <= m < |ids| && ids[m] == j;
      assert r[if m < k then m else m - 1] == j;
    }
  }

  lemma WithoutSorted(ids: seq<nat>, time: seq<nat>, i: nat)
    requires IsList(ids, time)
    ensures IsList(Without(ids, i), time)
  {
    WithoutIs(ids, i);
  }

  lemma InsertMembers(ids: seq<nat>, time: seq<nat>, i: nat)
    requires Table(time) && Events(ids) && IsEvent(i)
    ensures forall j :: j in Insert(ids, time, i) <==> j in ids || j == i
  {
    var k := Place(ids, time, time[i]);
    var r := Insert(ids, time, i);
    forall j | j in ids ensures j in r {
      var m :| 0 <= m < |ids| && ids[m] == j;
      assert r[if m < k then m else m + 1] == j;
    }
    assert r[k] == i;
  }

  lemma InsertIs(ids: seq<nat>, time: seq<nat>, i: nat)
    requires IsList(ids, time) && IsEvent(i) && i !in ids
    ensures IsList(Insert(ids, time, i), time)
    ensures forall j :: j in Insert(ids, time, i) <==> j in ids || j == i
  {
    InsertMembers(ids, time, i);
    var k := Place(ids, time, time[i]);
    var r := Insert(ids, time, i);
    hide Place, Insert, Sorted, Distinct;
    assert |r| == |ids| + 1;
    forall p, q | 0 <= p < q < |r| ensures time[r[p]] <= time[r[q]] && r[p] != r[q] {
      InsertPair(ids, time, i, k, p, q);
    }
    assert Distinct(r) by { DistinctIs(r); }
    assert Sorted(r, time) by { SortedIs(r, time); }
  }

  /** The event comes behind the earlier ones and in front of those with the same deadline. */
  lemma InsertedAt(ids: seq<nat>, time: seq<nat>, i: nat)
    requires Table(time) && Events(ids) && IsEvent(i)
    ensures exists k | 0 <= k <= |ids| ::
      Insert(ids, time, i) == ids[..k] + [i] + ids[k..] &&
      (forall j :: 0 <= j < k ==> time[ids[j]] < time[i]) && (k < |ids| ==> time[i] <= time[ids[k]])
  {
    var k := Place(ids, time, time[i]);
    assert Insert(ids, time, i) == ids[..k] + [i] + ids[k..];
  }

  lemma DistinctIs(r: seq<nat>)
    requires forall p, q :: 0 <= p < q < |r| ==> r[p] != r[q]
    ensures Distinct(r)
  {
  }

  lemma SortedIs(r: seq<nat>, time: seq<nat>)
    requires Table(time) && Events(r) && forall p, q :: 0 <= p < q < |r| ==> time[r[p]] <= time[r[q]]
    ensures Sorted(r, time)
  {
  }

  lemma InsertPair(ids: seq<nat>, time: seq<nat>, i: nat, k: nat, p: nat, q: nat)
    requires IsList(ids, time) && IsEvent(i) && i !in ids && k <= |ids| && p < q <= |ids|
    requires forall m :: 0 <= m < k ==> time[ids[m]] < time[i]
    requires k < |ids| ==> time[ids[k]] >= time[i]
    ensures var r := ids[..k] + [i] + ids[k..];
      r[p] < NUM_EVENTS && r[q] < NUM_EVENTS && time[r[p]] <= time[r[q]] && r[p] != r[q]
  {
    var r := ids[..k] + [i] + ids[k..];
    assert r[p] == if p < k then ids[p] else if p == k then i else ids[p - 1];
    assert r[q] == if q < k then ids[q] else if q == k then i else ids[q - 1];
    if p < k < q {
      assert ids[p] != ids[q - 1] && time[ids[p]] <= time[ids[q - 1]];
    }
  }

  /** Changing the deadline of an event outside a list does not disturb the list. */
  lemma RetimeOutside(ids: seq<nat>, time: seq<nat>, i: nat, t: nat)
    requires IsList(ids, time) && IsEvent(i) && i !in ids && t < U64
    ensures IsList(ids, time[i := t])
  {
  }

  // ---------------------------------------------------------- the operations of cycInt.c

  /** CycInt_RemovePendingEvent */
  function Drop(a: Agenda, i: nat): Agenda {
    a.(cyc := Without(a.cyc, i), tim := Without(a.tim, i))
  }

  function ToCycles(a: Agenda, i: nat, t: nat): Agenda
    requires Ok(a) && IsEvent(i) && t < U64
  {
    DropOk(a, i, t);
    var b := Drop(a, i);
    b.(time := b.time[i := t], cyc := Insert(b.cyc, b.time[i := t], i))
  }

  function ToTime(a: Agenda, i: nat, t: nat): Agenda
    requires Ok(a) && IsEvent(i) && t < U64
  {
    DropOk(a, i, t);
    var b := Drop(a, i);
    b.(time := b.time[i := t], tim := Insert(b.tim, b.time[i := t], i))
  }

  lemma DropOk(a: Agenda, i: nat, t: nat)
    requires Ok(a) && IsEvent(i) && t < U64
    ensures Ok(Drop(a, i)) && i !in Drop(a, i).cyc && i !in Drop(a, i).tim
    ensures IsList(Drop(a, i).cyc, a.time[i := t]) && IsList(Drop(a, i).tim, a.time[i := t])
  {
    WithoutIs(a.cyc, i);
    WithoutIs(a.tim, i);
    WithoutSorted(a.cyc, a.time, i);
    WithoutSorted(a.tim, a.time, i);
    RetimeOutside(Without(a.cyc, i), a.time, i, t);
    RetimeOutside(Without(a.tim, i), a.time, i, t);
  }

  lemma ToCyclesOk(a: Agenda, i: nat, t: nat)
    requires Ok(a) && IsEvent(i) && t < U64
    ensures Ok(ToCycles(a, i, t))
    ensures forall j :: j in ToCycles(a, i, t).cyc <==> j in a.cyc || j == i
    ensures forall j :: j in ToCycles(a, i, t).tim <==> j in a.tim && j != i
  {
    DropOk(a, i, t);
    WithoutIs(a.cyc, i);
    WithoutIs(a.tim, i);
    InsertIs(Without(a.cyc, i), a.time[i := t], i);
  }

  lemma ToTimeOk(a: Agenda, i: nat, t: nat)
    requires Ok(a) && IsEvent(i) && t < U64
    ensures Ok(ToTime(a, i, t))
    ensures forall j :: j in ToTime(a, i, t).tim <==> j in a.tim || j == i
    ensures forall j :: j in ToTime(a, i, t).cyc <==> j in a.cyc && j != i
  {
    DropOk(a, i, t);
    WithoutIs(a.cyc, i);
    WithoutIs(a.tim, i);
    InsertIs(Without(a.tim, i), a.time[i := t], i);
  }

  datatype Op =
    | AddCycles(i: nat, cycles: nat)
    | UpdateCycles(i: nat, cycles: nat)
    | AddTime(i: nat, slow: nat, fast: nat, clock: nat)
    | UpdateTime(i: nat, slow: nat, fast: nat, clock: nat)
    | AddCycleTime(i: nat, cycleTime: nat, fast: nat)
    | UpdateCycleTime(i: nat, cycleTime: nat, fast: nat)
    | Remove(i: nat)

  /** Where an operation puts its event. */
  datatype Effect = InCycles(t: nat) | InTime(t: nat) | Nowhere

  /** Realtime mode prefers the fast delay if there is one. */
  function Delay(cfg: Config, slow: nat, fast: nat): nat {
    if cfg.realtime && fast != 0 then fast else slow
  }

  /** The catch-up rule at cycInt.c:224-226, in unsigned 64-bit arithmetic. */
  function Rebase(time: nat, clock: nat, delay: nat): nat
    requires time < U64 && clock < U64
  {
    if (clock - time) % U64 > delay / 2 then clock else time
  }

  function Resolve(a: Agenda, cfg: Config, op: Op): (e: Effect)
    requires Ok(a) && IsEvent(op.i)
    ensures !e.Nowhere? ==> e.t < U64
  {
    match op
    case AddCycles(i, c) => InCycles((a.now + c) % U64)
    case UpdateCycles(i, c) => InCycles((a.time[i] + c) % U64)
    case AddTime(i, slow, fast, clock) =>
      if cfg.realtime then InTime((clock + Delay(cfg, slow, fast)) % U64)
      else InCycles((a.now + slow * cfg.freq) % U64)
    case UpdateTime(i, slow, fast, clock) =>
      if cfg.realtime then
        InTime((Rebase(a.time[i], clock % U64, Delay(cfg, slow, fast)) + Delay(cfg, slow, fast)) % U64)
      else InCycles((a.time[i] + slow * cfg.freq) % U64)
    case AddCycleTime(i, ct, fast) => InCycles((a.now + Delay(cfg, ct, fast) * cfg.freq) % U64)
    case UpdateCycleTime(i, ct, fast) => InCycles((a.time[i] + Delay(cfg, ct, fast) * cfg.freq) % U64)
    case Remove(_) => Nowhere
  }

  function Requeue(a: Agenda, i: nat, e: Effect): Agenda
    requires Ok(a) && IsEvent(i) && (!e.Nowhere? ==> e.t < U64)
  {
    match e
    case InCycles(t) => ToCycles(a, i, t)
    case InTime(t) => ToTime(a, i, t)
    case Nowhere => Drop(a, i)
  }

  /** One operation; adding a near time event also moves the next check, updating one reads the clock. */
  function Apply(a: Agenda, cfg: Config, op: Op): Agenda
    requires Ok(a) && IsEvent(op.i)
  {
    var b := Requeue(a, op.i, Resolve(a, cfg, op));
    match op
    case AddTime(i, slow, fast, clock) =>
      var d := Delay(cfg, slow, fast);
      if cfg.realtime && d < CHECK_INTERVAL && b.tim != [] && b.tim[0] == i
      then b.(check := (a.now + d * cfg.freq) % U64) else b
    case UpdateTime(i, slow, fast, clock) => if cfg.realtime then b.(clock := clock % U64) else b
    case _ => b
  }

  lemma RequeueOk(a: Agenda, i: nat, e: Effect)
    requires Ok(a) && IsEvent(i) && (!e.Nowhere? ==> e.t < U64)
    ensures var b := Requeue(a, i, e);
      Ok(b) && b.now == a.now && b.check == a.check && b.clock == a.clock &&
      b.time == (if e.Nowhere? then a.time else a.time[i := e.t]) &&
      (i in b.cyc <==> e.InCycles?) && (i in b.tim <==> e.InTime?)
    ensures forall j :: j != i ==>
      (j in Requeue(a, i, e).cyc <==> j in a.cyc) && (j in Requeue(a, i, e).tim <==> j in a.tim)
  {
    OkEvents(a);
    hide Without, Insert;
    WithoutIs(a.cyc, i);
    WithoutIs(a.tim, i);
    match e
    case InCycles(t) => ToCyclesOk(a, i, t);
    case InTime(t) => ToTimeOk(a, i, t);
    case Nowhere => DropOk(a, i, 0);
  }

  /** Every operation keeps both lists sorted, free of repetition and disjoint, and moves exactly its own event. */
  lemma ApplyOk(a: Agenda, cfg: Config, op: Op)
    requires Ok(a) && IsEvent(op.i)
    ensures var b := Apply(a, cfg, op); var e := Resolve(a, cfg, op);
      Ok(b) && b.now == a.now &&
      b.time == (if e.Nowhere? then a.time else a.time[op.i := e.t]) &&
      (op.i in b.cyc <==> e.InCycles?) && (op.i in b.tim <==> e.InTime?)
    ensures forall j :: j != op.i ==>
      (j in Apply(a, cfg, op).cyc <==> j in a.cyc) && (j in Apply(a, cfg, op).tim <==> j in a.tim)
    ensures var b := Requeue(a, op.i, Resolve(a, cfg, op));
      Apply(a, cfg, op).cyc == b.cyc && Apply(a, cfg, op).tim == b.tim
  {
    hide Resolve, Requeue, IsList, Disjoint;
    RequeueOk(a, op.i, Resolve(a, cfg, op));
  }

  lemma OkEvents(a: Agenda)
    requires Ok(a)
    ensures Events(a.cyc) && Events(a.tim) && Distinct(a.cyc) && Distinct(a.tim) && |a.time| == NUM_EVENTS
  {
  }
}
