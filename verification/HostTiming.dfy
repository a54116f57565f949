/** src/timing.c on values: microseconds from the cycle counter or from the
    host's counter, and the change between them. */
module TimingModel {
  import opened Numbers

  /** cycleDivisor and perfDivisor: counts per microsecond; host(n) is the n-th reading of the host's counter. */
  datatype Config = Config(cd: nat, pd: nat, host: nat -> nat)

  /** The host's counter does not run backwards. */
  ghost predicate Counter(cfg: Config) {
    cfg.cd > 0 && cfg.pd > 0 && forall i, j :: 0 <= i <= j ==> cfg.host(i) <= cfg.host(j)
  }

  /** The static variables of timing.c, the cycle counter, and how many readings of the host have passed. */
  datatype State = State(cycles: nat, cycleStart: nat, perfStart: nat, pause: nat, isRealtime: bool, seen: nat)

  function CycleElapsed(s: State): nat {
    (s.cycles - s.cycleStart) % U64
  }

  function CycleTime(cfg: Config, s: State): nat
    requires cfg.cd > 0
  {
    CycleElapsed(s) / cfg.cd
  }

  /** Timing_GetRealTime at reading n, for an integer frequency. */
  function RealTime(cfg: Config, s: State, n: nat): nat
    requires cfg.pd > 0
  {
    ((cfg.host(n) - s.perfStart) % U64) / cfg.pd
  }

  /** The cycle counter origin that makes the time t now. */
  function Origin(cfg: Config, s: State, t: nat): nat {
    (s.cycles - t * cfg.cd) % U64
  }

  /** Timing_GetTime answers t when the CPU is in `realtime` state; on the way to real time it has waited until
      a reading of the host's counter has come to t. */
  predicate Sampled(cfg: Config, s: State, realtime: bool, t: nat, r: State)
    requires cfg.cd > 0 && cfg.pd > 0
  {
    r == s.(cycleStart := r.cycleStart, isRealtime := realtime, seen := r.seen) &&
    if s.isRealtime then
      t == RealTime(cfg, s, s.seen) && r.seen == s.seen + 1 &&
      r.cycleStart == if realtime then s.cycleStart else Origin(cfg, s, t)
    else
      t == CycleTime(cfg, s) && r.cycleStart == s.cycleStart &&
      if realtime then r.seen > s.seen && RealTime(cfg, s, r.seen - 1) >= t else r.seen == s.seen
  }

  datatype Step =
    | Cycles(n: nat)                          // the CPU runs
    | Idle(n: nat)                            // the host's counter runs
    | Sample(realtime: bool, t: nat)          // Timing_GetTime
    | Stop                                    // Timing_Pause(true)
    | Resume                                  // Timing_Pause(false)

  function Unpaused(cfg: Config, s: State): State {
    s.(perfStart := (s.perfStart + cfg.host(s.seen) - s.pause) % U64, seen := s.seen + 1)
  }

  function Paused(cfg: Config, s: State): State {
    s.(pause := cfg.host(s.seen), seen := s.seen + 1)
  }

  /** One step within the capacity of the 64-bit counters; only a paused clock is resumed. */
  predicate Next(cfg: Config, s: State, paused: bool, st: Step, r: State)
    requires cfg.cd > 0 && cfg.pd > 0
  {
    cfg.host(r.seen) < HALF &&
    match st
    case Cycles(n) => CycleElapsed(s) + n < U64 && r == s.(cycles := s.cycles + n)
    case Idle(n) => r == s.(seen := s.seen + n)
    case Sample(realtime, t) => t * cfg.cd < U64 && Sampled(cfg, s, realtime, t, r)
    case Stop => r == Paused(cfg, s)
    case Resume => paused && r == Unpaused(cfg, s)
  }

  predicate PausedAfter(paused: bool, st: Step) {
    st.Stop? || (paused && !st.Resume?)
  }

  function LastAfter(last: nat, st: Step): nat {
    if st.Sample? then st.t else last
  }

  /** last is the time answered last; the clock stands at it or later. */
  predicate Inv(cfg: Config, s: State, last: nat, paused: bool)
    requires cfg.cd > 0 && cfg.pd > 0
  {
    s.cycleStart < U64 && s.perfStart <= cfg.host(s.seen) && s.perfStart < U64 && last * cfg.cd < U64 &&
    (paused ==> s.perfStart <= s.pause <= cfg.host(s.seen)) &&
    if s.isRealtime then RealTime(cfg, s, s.seen) >= last else CycleTime(cfg, s) >= last
  }

  /** The clock as it stood at the pause is not behind the time answered last. */
  predicate Ahead(cfg: Config, s: State, last: nat)
    requires cfg.pd > 0
  {
    s.isRealtime ==> (s.pause - s.perfStart) / cfg.pd >= last
  }

  // ---------------------------------------------------------- each step

  /** No wrap on the host's side. */
  lemma RealIs(cfg: Config, s: State, n: nat)
    requires cfg.pd > 0 && s.perfStart <= cfg.host(n) < HALF
    ensures RealTime(cfg, s, n) == (cfg.host(n) - s.perfStart) / cfg.pd
  {
  }

  lemma Positive(cfg: Config)
    requires Counter(cfg)
    ensures cfg.cd > 0 && cfg.pd > 0
  {
  }

  lemma HostLater(cfg: Config, i: nat, j: nat)
    requires Counter(cfg) && i <= j
    ensures cfg.host(i) <= cfg.host(j)
  {
  }

  lemma RealLater(cfg: Config, s: State, i: nat, j: nat)
    requires Counter(cfg) && i <= j && s.perfStart <= cfg.host(i) && cfg.host(j) < HALF
    ensures s.perfStart <= cfg.host(j) && RealTime(cfg, s, i) <= RealTime(cfg, s, j)
  {
    HostLater(cfg, i, j);
    RealIs(cfg, s, i);
    RealIs(cfg, s, j);
    Quotients(cfg.host(i) - s.perfStart, cfg.host(j) - s.perfStart, cfg.pd);
  }

  /** At the change to cycle time the new origin gives exactly the time just answered. */
  lemma OriginIs(cfg: Config, s: State, t: nat)
    requires cfg.cd > 0 && t * cfg.cd < U64
    ensures var r := s.(cycleStart := Origin(cfg, s, t)); CycleElapsed(r) == t * cfg.cd && CycleTime(cfg, r) == t
  {
    var x := t * cfg.cd;
    Wrap(s.cycles, x);
    QuotientOf(t, cfg.cd);
  }

  lemma Wrap(c: nat, x: nat)
    requires x < U64
    ensures (c - (c - x) % U64) % U64 == x
  {
  }

  /** A pause and its end take nothing away and add nothing: the clock goes on where it stood at the pause. */
  lemma UnpauseResumes(cfg: Config, s: State)
    requires Counter(cfg) && s.perfStart <= s.pause <= cfg.host(s.seen) < HALF
    ensures var r := Unpaused(cfg, s);
      r.perfStart <= cfg.host(s.seen) && r.perfStart == s.perfStart + cfg.host(s.seen) - s.pause &&
      RealTime(cfg, r, s.seen) == (s.pause - s.perfStart) / cfg.pd
  {
    HostLater(cfg, s.seen, s.seen);
    RealIs(cfg, Unpaused(cfg, s), s.seen);
  }

  /** Every step keeps the clock at or after the last answer; a resume does if the clock was not behind at the pause. */
  lemma NextKeeps(cfg: Config, s: State, last: nat, paused: bool, st: Step, r: State)
    requires Counter(cfg) && Inv(cfg, s, last, paused) && Next(cfg, s, paused, st, r)
    requires st.Resume? ==> Ahead(cfg, s, last)
    ensures Inv(cfg, r, LastAfter(last, st), PausedAfter(paused, st)) && LastAfter(last, st) >= last
  {
    hide RealTime, CycleTime, Origin;
    match st {
      case Cycles(n) => CyclesKeep(cfg, s, n);
      case Idle(n) =>
        RealLater(cfg, s, s.seen, s.seen + n);
        HostLater(cfg, s.seen, r.seen);
        SameReal(cfg, s, r, r.seen);
        SameCycle(cfg, s, r);
      case Sample(realtime, t) =>
        HostLater(cfg, s.seen, r.seen);
        if s.isRealtime {
          RealLater(cfg, s, s.seen, r.seen);
          OriginIs(cfg, s, t);
          SameReal(cfg, s, r, r.seen);
          OriginSmall(cfg, s, t);
          SameCycle(cfg, s.(cycleStart := Origin(cfg, s, t)), r);
        } else {
          SampleCycle(cfg, s, realtime, t, r);
        }
      case Stop =>
        RealLater(cfg, s, s.seen, r.seen);
        HostLater(cfg, s.seen, r.seen);
        SameReal(cfg, s, r, r.seen);
        SameCycle(cfg, s, r);
      case Resume =>
        ResumeKeeps(cfg, s);
        SameCycle(cfg, s, r);
    }
  }

  lemma OriginSmall(cfg: Config, s: State, t: nat)
    ensures Origin(cfg, s, t) < U64
  {
  }

  lemma SameReal(cfg: Config, s: State, r: State, n: nat)
    requires cfg.pd > 0 && r.perfStart == s.perfStart
    ensures RealTime(cfg, r, n) == RealTime(cfg, s, n)
  {
  }

  lemma SameCycle(cfg: Config, s: State, r: State)
    requires cfg.cd > 0 && r.cycles == s.cycles
    ensures r.cycleStart == s.cycleStart ==> CycleTime(cfg, r) == CycleTime(cfg, s)
  {
  }

  lemma CyclesKeep(cfg: Config, s: State, n: nat)
    requires Counter(cfg) && CycleElapsed(s) + n < U64
    ensures CycleTime(cfg, s.(cycles := s.cycles + n)) >= CycleTime(cfg, s)
    ensures RealTime(cfg, s.(cycles := s.cycles + n), s.seen) == RealTime(cfg, s, s.seen)
  {
    var r := s.(cycles := s.cycles + n);
    Carry(s.cycles - s.cycleStart, n);
    Quotients(CycleElapsed(s), CycleElapsed(r), cfg.cd);
  }

  lemma Carry(x: int, n: nat)
    requires x % U64 + n < U64
    ensures (x + n) % U64 == x % U64 + n
  {
  }

  lemma SampleCycle(cfg: Config, s: State, realtime: bool, t: nat, r: State)
    requires Counter(cfg) && s.perfStart <= cfg.host(s.seen) && !s.isRealtime && Sampled(cfg, s, realtime, t, r)
    requires cfg.host(r.seen) < HALF
    ensures t == CycleTime(cfg, s) && r.perfStart == s.perfStart && r.perfStart <= cfg.host(r.seen)
    ensures realtime ==> RealTime(cfg, r, r.seen) >= t
    ensures !realtime ==> CycleTime(cfg, r) == t
    ensures r.cycleStart == s.cycleStart
  {
    hide RealTime, CycleTime;
    RealLater(cfg, s, s.seen, r.seen);
    SameCycle(cfg, s, r);
    if realtime {
      HostLater(cfg, s.seen, r.seen - 1);
      RealLater(cfg, s, r.seen - 1, r.seen);
      SameReal(cfg, s, r, r.seen);
    }
  }

  lemma ResumeKeeps(cfg: Config, s: State)
    requires Counter(cfg) && s.perfStart <= s.pause <= cfg.host(s.seen) && cfg.host(s.seen + 1) < HALF
    ensures var r := Unpaused(cfg, s);
      r.perfStart <= cfg.host(r.seen) && r.perfStart < U64 &&
      RealTime(cfg, r, r.seen) >= (s.pause - s.perfStart) / cfg.pd &&
      r.cycles == s.cycles && r.cycleStart == s.cycleStart && r.isRealtime == s.isRealtime
  {
    hide RealTime, Unpaused;
    HostLater(cfg, s.seen, s.seen + 1);
    UnpauseResumes(cfg, s);
    var r := Unpaused(cfg, s);
    UnpausedIs(cfg, s);
    RealLater(cfg, r, s.seen, r.seen);
  }

  lemma UnpausedIs(cfg: Config, p: State)
    ensures var r := Unpaused(cfg, p);
      r.seen == p.seen + 1 && r.cycles == p.cycles && r.cycleStart == p.cycleStart &&
        r.isRealtime == p.isRealtime && r.perfStart < U64
  {
  }

  // ---------------------------------------------------------- every run

  ghost predicate Run(cfg: Config, s: State, paused: bool, steps: seq<Step>, states: seq<State>)
    requires cfg.cd > 0 && cfg.pd > 0
    decreases |steps|
  {
    |states| == |steps| &&
    (steps != [] ==>
       Next(cfg, s, paused, steps[0], states[0]) &&
       Run(cfg, states[0], PausedAfter(paused, steps[0]), steps[1..], states[1..]))
  }

  /** Each resume of the run finds a clock that was not behind the last answer when it was paused. */
  predicate Guarded(cfg: Config, s: State, last: nat, steps: seq<Step>, states: seq<State>)
    requires cfg.pd > 0 && |states| == |steps|
    decreases |steps|
  {
    steps == [] ||
    ((steps[0].Resume? ==> Ahead(cfg, s, last)) &&
     Guarded(cfg, states[0], LastAfter(last, steps[0]), steps[1..], states[1..]))
  }

  /** No time is asked for between a pause and its end. */
  predicate Unasked(paused: bool, steps: seq<Step>)
    decreases |steps|
  {
    steps == [] || ((paused ==> !steps[0].Sample?) && Unasked(PausedAfter(paused, steps[0]), steps[1..]))
  }

  /** The times answered along a run. */
  function Answers(steps: seq<Step>): seq<nat> {
    if steps == [] then []
    else (if steps[0].Sample? then [steps[0].t] else []) + Answers(steps[1..])
  }

  predicate NonDecreasing(ts: seq<nat>) {
    forall i, j :: 0 <= i < j < |ts| ==> ts[i] <= ts[j]
  }

  /** Time never runs backwards along a guarded run. */
  lemma {:induction false} GuardedIsMonotone(cfg: Config, s: State, last: nat, paused: bool,
                                             steps: seq<Step>, states: seq<State>)
    requires Counter(cfg) && Inv(cfg, s, last, paused) && Run(cfg, s, paused, steps, states)
    requires Guarded(cfg, s, last, steps, states)
    ensures NonDecreasing([last] + Answers(steps))
    decreases |steps|
  {
    hide Inv, Next, Counter, Ahead;
    if steps == [] {
      assert [last] + [] == [last];
    } else {
      NextKeeps(cfg, s, last, paused, steps[0], states[0]);
      var now := LastAfter(last, steps[0]);
      GuardedIsMonotone(cfg, states[0], now, PausedAfter(paused, steps[0]), steps[1..], states[1..]);
      var rest := Answers(steps[1..]);
      if steps[0].Sample? {
        InFront(last, [now] + rest);
        assert [last] + Answers(steps) == [last] + ([now] + rest);
      } else {
        assert Answers(steps) == rest;
      }
    }
  }

  /** A run is guarded when nobody asks for the time during a pause. */
  lemma {:induction false} UnaskedIsGuarded(cfg: Config, s: State, last: nat, paused: bool,
                                            steps: seq<Step>, states: seq<State>)
    requires Counter(cfg) && Inv(cfg, s, last, paused) && Run(cfg, s, paused, steps, states)
    requires Unasked(paused, steps) && (paused ==> Ahead(cfg, s, last))
    ensures Guarded(cfg, s, last, steps, states)
    decreases |steps|
  {
    hide Inv, Next, Counter, Ahead;
    if steps != [] {
      ResumesPaused(cfg, s, paused, steps[0], states[0]);
      NextKeeps(cfg, s, last, paused, steps[0], states[0]);
      AheadKept(cfg, s, last, paused, steps[0], states[0]);
      var now := LastAfter(last, steps[0]);
      UnaskedIsGuarded(cfg, states[0], now, PausedAfter(paused, steps[0]), steps[1..], states[1..]);
    }
  }

  lemma ResumesPaused(cfg: Config, s: State, paused: bool, st: Step, r: State)
    requires Counter(cfg) && Next(cfg, s, paused, st, r)
    ensures st.Resume? ==> paused
  {
  }

  lemma AheadKept(cfg: Config, s: State, last: nat, paused: bool, st: Step, r: State)
    requires Counter(cfg) && Inv(cfg, s, last, paused) && Next(cfg, s, paused, st, r)
    requires paused ==> Ahead(cfg, s, last) && !st.Sample?
    ensures PausedAfter(paused, st) ==> Ahead(cfg, r, LastAfter(last, st))
  {
    hide CycleTime, Origin;
    if st.Stop? {
      HostLater(cfg, s.seen, r.seen);
      RealIs(cfg, s, s.seen);
    }
  }

  /** Time never runs backwards: whatever the cycles, the host's counter, the changes of mode and the pauses, as long as
      nobody asks for the time during a pause. */
  lemma TimeIsMonotone(cfg: Config, cycles: nat, steps: seq<Step>, states: seq<State>)
    requires Counter(cfg) && cfg.host(1) < HALF && Run(cfg, Reset(cfg, cycles), false, steps, states)
    requires Unasked(false, steps)
    ensures NonDecreasing(Answers(steps))
  {
    hide Inv, Counter;
    ResetInv(cfg, cycles);
    UnaskedIsGuarded(cfg, Reset(cfg, cycles), 0, false, steps, states);
    GuardedIsMonotone(cfg, Reset(cfg, cycles), 0, false, steps, states);
    var ts := [0] + Answers(steps);
    assert forall i :: 0 <= i < |Answers(steps)| ==> Answers(steps)[i] == ts[i + 1];
  }

  lemma InFront(last: nat, ts: seq<nat>)
    requires NonDecreasing(ts) && ts != [] && last <= ts[0]
    ensures NonDecreasing([last] + ts)
  {
    var us := [last] + ts;
    forall i, j | 0 <= i < j < |us| ensures us[i] <= us[j] {
      if i == 0 && j > 1 {
        assert ts[0] <= ts[j - 1];
      }
    }
  }

  /** Timing_Reset */
  function Reset(cfg: Config, cycles: nat): State {
    State(cycles, 0, cfg.host(0), cfg.host(0), false, 1)
  }

  lemma ResetInv(cfg: Config, cycles: nat)
    requires Counter(cfg) && cfg.host(1) < HALF
    ensures Inv(cfg, Reset(cfg, cycles), 0, false)
  {
    HostLater(cfg, 0, 1);
  }

  // ---------------------------------------------------------- asked during a pause

  /** A host that has given the same readings so far. */
  ghost predicate Agrees(cfg: Config, other: Config, seen: nat) {
    other.cd == cfg.cd && other.pd == cfg.pd && forall i :: 0 <= i <= seen ==> other.host(i) == cfg.host(i)
  }

  /** After this resume, and with every later one guarded, time does not run backwards, whatever the host's counter does
      from now on. */
  ghost predicate ResumeSafe(cfg: Config, s: State, last: nat) {
    forall other, steps, states |
        Agrees(cfg, other, s.seen) && Counter(other) && Run(other, s, true, [Resume] + steps, states) &&
        Guarded(other, states[0], last, steps, states[1..]) ::
      NonDecreasing([last] + Answers(steps))
  }

  /** A resume is safe exactly when the clock was not behind the last answer when it was paused. */
  lemma ResumeSafeIff(cfg: Config, s: State, last: nat)
    requires Counter(cfg) && Inv(cfg, s, last, true) && cfg.host(s.seen) < HALF
    ensures ResumeSafe(cfg, s, last) <==> Ahead(cfg, s, last)
  {
    hide Inv, Counter, Ahead;
    Positive(cfg);
    if Ahead(cfg, s, last) {
      forall other, steps, states | Agrees(cfg, other, s.seen) && Counter(other) &&
          Run(other, s, true, [Resume] + steps, states) && Guarded(other, states[0], last, steps, states[1..])
        ensures NonDecreasing([last] + Answers(steps))
      {
        AgreeInv(cfg, other, s, last);
        var all := [Resume] + steps;
        assert all[1..] == steps;
        GuardedIsMonotone(other, s, last, true, all, states);
        assert Answers(all) == Answers(steps);
      }
    } else {
      BackwardRun(cfg, s, last);
    }
  }

  lemma AgreeInv(cfg: Config, other: Config, s: State, last: nat)
    requires cfg.cd > 0 && cfg.pd > 0 && Agrees(cfg, other, s.seen) && Inv(cfg, s, last, true)
    ensures Inv(other, s, last, true) && (Ahead(cfg, s, last) <==> Ahead(other, s, last))
  {
  }

  /** The readings so far, and the last of them for ever. */
  function Frozen(cfg: Config, seen: nat): Config {
    Config(cfg.cd, cfg.pd, (i: nat) => if i <= seen then cfg.host(i) else cfg.host(seen))
  }

  lemma FrozenAgrees(cfg: Config, seen: nat)
    requires Counter(cfg)
    ensures var other := Frozen(cfg, seen); Counter(other) && Agrees(cfg, other, seen)
  {
  }

  /** Resumed and asked at once, a frozen host answers what it was at the pause. */
  lemma FrozenAnswer(cfg: Config, s: State, t: nat)
    requires Counter(cfg) && s.perfStart <= s.pause <= cfg.host(s.seen) < HALF && s.isRealtime
    requires t == (s.pause - s.perfStart) / cfg.pd && t * cfg.cd < U64
    ensures var other := Frozen(cfg, s.seen);
      var r := Unpaused(other, s);
      Next(other, s, true, Resume, r) && Next(other, r, false, Sample(true, t), r.(seen := r.seen + 1))
  {
    hide RealTime;
    var other := Frozen(cfg, s.seen);
    FrozenAgrees(cfg, s.seen);
    var r := Unpaused(other, s);
    UnpauseResumes(other, s);
    RealIs(other, r, s.seen);
    RealIs(other, r, r.seen);
  }

  /** Otherwise a host whose counter stands still, asked at once, answers what it was at the pause. */
  lemma BackwardRun(cfg: Config, s: State, last: nat)
    requires Counter(cfg) && Inv(cfg, s, last, true) && cfg.host(s.seen) < HALF && !Ahead(cfg, s, last)
    ensures !ResumeSafe(cfg, s, last)
  {
    hide Counter, RealTime, CycleTime, Next;
    Positive(cfg);
    var other := Frozen(cfg, s.seen);
    var t := (s.pause - s.perfStart) / cfg.pd;
    var r := Unpaused(other, s);
    var q := r.(seen := r.seen + 1);
    FrozenAgrees(cfg, s.seen);
    Products(cfg.cd, t, last);
    FrozenAnswer(cfg, s, t);
    RunTwo(other, s, Resume, r, Sample(true, t), q);
    NotSafe(cfg, other, s, last, t, [r, q]);
  }

  lemma NotSafe(cfg: Config, other: Config, s: State, last: nat, t: nat, states: seq<State>)
    requires Agrees(cfg, other, s.seen) && cfg.pd > 0 && Counter(other) && other.cd > 0 && t < last
    requires |states| == 2 && Run(other, s, true, [Resume, Sample(true, t)], states)
    ensures !ResumeSafe(cfg, s, last)
  {
    hide Counter, Next, Run;
    var steps := [Sample(true, t)];
    assert [Resume] + steps == [Resume, Sample(true, t)];
    assert steps[1..] == [];
    assert Guarded(other, states[0], last, steps, states[1..]);
    assert Answers(steps) == [t];
    var ts := [last] + Answers(steps);
    assert ts[1] == t < last == ts[0];
    assert !NonDecreasing(ts);
  }

  lemma RunTwo(cfg: Config, s: State, a: Step, r: State, b: Step, q: State)
    requires cfg.cd > 0 && cfg.pd > 0 && Next(cfg, s, true, a, r) && Next(cfg, r, PausedAfter(true, a), b, q)
    ensures Run(cfg, s, true, [a, b], [r, q])
  {
    hide Next;
    assert Run(cfg, r, PausedAfter(true, a), [b], [q]) by {
      assert [b][1..] == [] && [q][1..] == [];
    }
    assert [a, b][1..] == [b] && [r, q][1..] == [q];
  }

  /** A counter of one count a microsecond, read once a millisecond. */
  function Clockwork(): Config {
    Config(25, 1, (n: nat) => n * 1000)
  }

  /** From reset into real time, a pause at 2000 us, a question at 5000 us, and the end of the pause. */
  const ASKED := [Sample(true, 0), Stop, Idle(2), Sample(true, 5000), Resume, Sample(true, 3000)]

  const VISITED := [
    State(0, 0, 0, 0, true, 2), State(0, 0, 0, 2000, true, 3), State(0, 0, 0, 2000, true, 5),
    State(0, 0, 0, 2000, true, 6), State(0, 0, 4000, 2000, true, 7), State(0, 0, 4000, 2000, true, 8)]

  /** Such a run from reset, in which time goes back from 5000 us to 3000 us. */
  lemma SampledWhilePaused()
    ensures Counter(Clockwork()) && Run(Clockwork(), Reset(Clockwork(), 0), false, ASKED, VISITED)
    ensures Answers(ASKED) == [0, 5000, 3000]
  {
    var cfg := Clockwork();
    assert Counter(cfg);
    RunFrom(cfg, Reset(cfg, 0), 0);
    assert ASKED[0..] == ASKED && VISITED[0..] == VISITED;
    AnswersFrom(0);
  }

  /** The state and the pause before the k-th step. */
  lemma {:induction false} RunFrom(cfg: Config, s: State, k: nat)
    requires cfg == Clockwork() && k <= 6 && s == if k == 0 then Reset(cfg, 0) else VISITED[k - 1]
    ensures Run(cfg, s, 2 <= k <= 4, ASKED[k..], VISITED[k..])
    decreases 6 - k
  {
    if k < 6 {
      assert ASKED[k..][1..] == ASKED[k + 1..] && VISITED[k..][1..] == VISITED[k + 1..];
      StepAt(k);
      RunFrom(cfg, VISITED[k], k + 1);
    }
  }

  lemma StepAt(k: nat)
    requires k < 6
    ensures var cfg := Clockwork();
      var s := if k == 0 then Reset(cfg, 0) else VISITED[k - 1];
      Next(cfg, s, 2 <= k <= 4, ASKED[k], VISITED[k]) && PausedAfter(2 <= k <= 4, ASKED[k]) == (2 <= k + 1 <= 4)
  {
    assert |ASKED| == 6 && |VISITED| == 6;
  }

  lemma {:induction false} AnswersFrom(k: nat)
    requires k <= 6
    ensures Answers(ASKED[k..]) == if k == 0 then [0, 5000, 3000] else if k <= 3 then [5000, 3000]
      else if k <= 5 then [3000] else []
    decreases 6 - k
  {
    if k < 6 {
      assert ASKED[k..][1..] == ASKED[k + 1..] && ASKED[k..][0] == ASKED[k];
      AnswersFrom(k + 1);
    }
  }
}

/** The static variables of timing.c, changed in place. */
module HostTiming {
  import opened Numbers
  import opened TimingModel

  class Timing {
    const cfg: Config
    var cycles: nat
    var cycleCounterStart: nat
    var perfCounterStart: nat
    var pauseTimeStamp: nat
    var currentIsRealtime: bool
    /** How many readings of the host's counter have passed. */
    var seen: nat

    ghost function Model(): State
      reads this
    {
      State(cycles, cycleCounterStart, perfCounterStart, pauseTimeStamp, currentIsRealtime, seen)
    }

    /** Timing_Reset */
    constructor (config: Config, cyclesNow: nat)
      requires Counter(config) && config.host(1) < HALF
      ensures cfg == config && Model() == Reset(config, cyclesNow) && Inv(config, Model(), 0, false)
    {
      cfg := config;
      cycles := cyclesNow;
      cycleCounterStart := 0;
      perfCounterStart := config.host(0);
      pauseTimeStamp := config.host(0);
      currentIsRealtime := false;
      seen := 1;
      new;
      ResetInv(cfg, cyclesNow);
    }

    /** host_get_counter */
    method HostCounter() returns (c: nat)
      modifies this`seen
      ensures c == cfg.host(old(seen)) && seen == old(seen) + 1
    {
      c := cfg.host(seen);
      seen := seen + 1;
    }

    /** Timing_GetRealTime */
    method GetRealTime() returns (rt: nat)
      requires cfg.pd > 0
      modifies this`seen
      ensures rt == RealTime(cfg, old(Model()), old(seen)) && seen == old(seen) + 1
    {
      var c := HostCounter();
      rt := ((c - perfCounterStart) % U64) / cfg.pd;
    }

    /** Timing_Pause */
    method Pause(pause: bool)
      modifies this
      ensures Model() == if pause then Paused(cfg, old(Model())) else Unpaused(cfg, old(Model()))
    {
      if pause {
        pauseTimeStamp := HostCounter();
      } else {
        var c := HostCounter();
        perfCounterStart := (perfCounterStart + c - pauseTimeStamp) % U64;
      }
    }

    /** host_sleep_us: at least so many microseconds pass; waking counts as a reading. */
    method Sleep(us: nat, ghost m: nat)
      requires Counter(cfg) && 0 < seen <= m && cfg.host(m) >= cfg.host(seen - 1) + us * cfg.pd
      modifies this`seen
      ensures old(seen) < seen <= m + 1 && cfg.host(seen - 1) >= cfg.host(old(seen) - 1) + us * cfg.pd
    {
      var target := cfg.host(seen - 1) + us * cfg.pd;
      while cfg.host(seen) < target
        invariant old(seen) <= seen <= m
        decreases m - seen
      {
        seen := seen + 1;
      }
      seen := seen + 1;
    }

    /** timing.c:95-96: ask until real time has come to t. */
    method Spin(t: nat, ghost m: nat)
      requires Counter(cfg) && seen <= m && Reaches(cfg, Model(), t, m) && t < HALF
      modifies this`seen
      ensures old(seen) < seen <= m + 1 && RealTime(cfg, Model(), seen - 1) >= t
    {
      var rt := GetRealTime();
      while rt < t
        invariant old(seen) < seen <= m + 1 && rt == RealTime(cfg, Model(), seen - 1)
        decreases m + 1 - seen
      {
        SpinGoesOn(cfg, Model(), t, m);
        rt := GetRealTime();
      }
    }

    /** Switching from cycle time to real time: wait until real time is there as well (timing.c:88-97). */
    method WaitFor(hostTime: nat, ghost m: nat)
      requires Counter(cfg) && seen < m && hostTime < HALF && Reaches(cfg, Model(), hostTime, m)
      modifies this`seen
      ensures seen > old(seen) && RealTime(cfg, old(Model()), seen - 1) >= hostTime
    {
      hide RealTime, Counter, Reaches;
      assert cfg.pd > 0 by { Positive(cfg); }
      ghost var s := Model();
      var now := GetRealTime();
      var realTimeOffset := Signed(hostTime - now);
      OffsetIs(cfg, s, hostTime, s.seen, m);
      if realTimeOffset > 0 {
        if realTimeOffset > 10000 {
          Sleep(realTimeOffset, m);
          Woken(cfg, s, hostTime, s.seen, seen - 1, m);
        } else {
          ReachesLater(cfg, s, Model(), hostTime, m);
          Spin(hostTime, m);
          Later(cfg, s, Model());
        }
      }
    }

    /** Timing_GetTime; realtime tells whether the CPU state asks for real time.  When that begins, m is a reading
        by which real time has come to where cycle time stands. */
    method GetTime(realtime: bool, ghost m: nat) returns (hostTime: nat)
      requires Counter(cfg) && perfCounterStart <= cfg.host(seen)
      requires !currentIsRealtime && realtime ==>
        seen < m && CycleTime(cfg, Model()) < HALF && Reaches(cfg, Model(), CycleTime(cfg, Model()), m)
      modifies this
      ensures Sampled(cfg, old(Model()), realtime, hostTime, Model())
    {
      hide RealTime, Counter, Reaches;
      assert cfg.cd > 0 && cfg.pd > 0 by { Positive(cfg); }
      if currentIsRealtime {
        hostTime := GetRealTime();
      } else {
        hostTime := ((cycles - cycleCounterStart) % U64) / cfg.cd;
      }
      if currentIsRealtime != realtime {
        if currentIsRealtime {
          cycleCounterStart := (cycles - hostTime * cfg.cd) % U64;
        } else {
          WaitFor(hostTime, m);
        }
        currentIsRealtime := realtime;
      }
    }
  }

  lemma ReachesLater(cfg: Config, s: State, r: State, t: nat, m: nat)
    requires Counter(cfg) && Reaches(cfg, s, t, m) && r == s.(seen := r.seen) && s.seen <= r.seen
    ensures Reaches(cfg, r, t, m)
  {
  }

  /** At reading m, within the capacity of the counters, it is later than t. */
  predicate Reaches(cfg: Config, s: State, t: nat, m: nat)
  {
    cfg.host(m) < HALF && s.perfStart <= cfg.host(s.seen) && cfg.host(m) >= s.perfStart + (t + 1) * cfg.pd
  }

  lemma Later(cfg: Config, s: State, r: State)
    requires cfg.pd > 0 && r == s.(seen := r.seen) && r.seen > 0
    ensures RealTime(cfg, r, r.seen - 1) == RealTime(cfg, s, r.seen - 1)
  {
  }

  lemma SpinGoesOn(cfg: Config, s: State, t: nat, m: nat)
    requires Counter(cfg) && 0 < s.seen <= m + 1 && cfg.host(m) < HALF && s.perfStart <= cfg.host(s.seen - 1)
    requires cfg.host(m) >= s.perfStart + (t + 1) * cfg.pd && RealTime(cfg, s, s.seen - 1) < t
    ensures s.seen <= m
  {
    hide RealTime, Counter;
    if s.seen == m + 1 {
      Positive(cfg);
      RealIs(cfg, s, m);
      var d := cfg.host(m) - s.perfStart;
      Quotients((t + 1) * cfg.pd, d, cfg.pd);
      QuotientOf(t + 1, cfg.pd);
    }
  }

  lemma OffsetIs(cfg: Config, s: State, t: nat, n: nat, m: nat)
    requires Counter(cfg) && s.seen <= n <= m && Reaches(cfg, s, t, m) && t < HALF
    ensures RealTime(cfg, s, n) < HALF && Signed(t - RealTime(cfg, s, n)) == t - RealTime(cfg, s, n)
    ensures t > RealTime(cfg, s, n) ==> cfg.host(m) >= cfg.host(n) + (t - RealTime(cfg, s, n)) * cfg.pd
  {
    hide RealTime;
    HostLater(cfg, s.seen, n);
    HostLater(cfg, n, m);
    RealIs(cfg, s, n);
    Missing(cfg.host(n) - s.perfStart, cfg.host(m) - s.perfStart, cfg.pd, t);
    SignedIs(t, RealTime(cfg, s, n));
  }

  /** What is missing from e to t divisions is there by the time of t + 1 divisions. */
  lemma Missing(e: nat, f: nat, d: nat, t: nat)
    requires d > 0 && f >= (t + 1) * d
    ensures e / d <= e && (t > e / d ==> f >= e + (t - e / d) * d)
  {
    var q := e / d;
    assert e == d * q + e % d;
    Products(q, 1, d);
    if t > q {
      Distributes(t, q, d);
      assert (t + 1) * d == t * d + d;
    }
  }

  lemma SignedIs(t: nat, q: nat)
    requires t < HALF && q < HALF
    ensures Signed(t - q) == t - q
  {
  }

  lemma Woken(cfg: Config, s: State, t: nat, n: nat, k: nat, m: nat)
    requires Counter(cfg) && s.seen <= n <= k <= m && Reaches(cfg, s, t, m) && t > RealTime(cfg, s, n)
    requires cfg.host(k) >= cfg.host(n) + (t - RealTime(cfg, s, n)) * cfg.pd
    ensures RealTime(cfg, s, k) >= t
  {
    hide RealTime;
    HostLater(cfg, s.seen, n);
    HostLater(cfg, n, k);
    HostLater(cfg, k, m);
    RealIs(cfg, s, n);
    RealIs(cfg, s, k);
    Slept(cfg.host(n) - s.perfStart, cfg.host(k) - s.perfStart, cfg.pd, t);
  }

  /** Counting on from e by what is missing to t divisions gets there. */
  lemma Slept(e: nat, f: nat, d: nat, t: nat)
    requires d > 0 && t > e / d && f >= e + (t - e / d) * d
    ensures f / d >= t
  {
    var q := e / d;
    assert e == d * q + e % d;
    Distributes(t, q, d);
    Quotients(t * d, f, d);
    QuotientOf(t, d);
  }

  lemma Distributes(t: nat, q: nat, d: nat)
    requires t >= q
    ensures (t - q) * d == t * d - d * q
  {
  }
}
