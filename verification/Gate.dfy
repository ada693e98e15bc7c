/**
 Admission to the warehouse (backend/warehouse_gate.py): a bounded semaphore, the
 in-flight gauge and the circuit breaker, driven by entering and leaving a slot. The
 class runs one statement at a time; the step system interleaves any number of callers.
 */
module Gate {
  import opened Breaker
  import opened Sequences
  import opened Wrappers

  /** How the body of a `with warehouse_slot()` block ended. `Busy` is the gate's own
      shed raised by a nested slot. */
  datatype Outcome = Fine | Busy | Broken

  datatype Entry = Entered | Unavailable | Shed

  datatype Stats = Stats(admitted: nat, shed: nat, inFlight: int, peak: int)

  function Counted(s: Stats): Stats
  {
    s.(admitted := s.admitted + 1, inFlight := s.inFlight + 1, peak := if s.inFlight + 1 > s.peak then s.inFlight + 1 else s.peak)
  }

  /** What leaving a slot tells the breaker: the warehouse's own outcome, nothing of a shed. */
  function Verdict(o: Outcome, now: Time): Option<Event>
  {
    match o
    case Fine => Some(Success)
    case Busy => None
    case Broken => Some(Failure(now))
  }

  /** The answer to a caller that meets a breaker in `mode` and `free` permits. */
  function Answer(mode: Mode, free: int): Entry
  {
    if mode == Open then Unavailable else if free <= 0 then Shed else Entered
  }

  function Noted(s: Stats, e: Entry): Stats
  {
    match e
    case Entered => Counted(s)
    case Unavailable => s
    case Shed => s.(shed := s.shed + 1)
  }

  class WarehouseGate {
    const slots: nat
    const breaker: CircuitBreaker
    var free: nat
    var stats: Stats

    constructor (slots: nat, breaker: CircuitBreaker)
      ensures this.slots == slots && this.breaker == breaker && free == slots && stats == Stats(0, 0, 0, 0)
    {
      this.slots, this.breaker, free := slots, breaker, slots;
      stats := Stats(0, 0, 0, 0);
    }

    /** `__enter__`: a caller that is turned away by the breaker or shed takes no slot. */
    method Enter(now: Time) returns (e: Entry)
      modifies this`free, this`stats, breaker`mode
      ensures breaker.Current() == Breaker.Step(breaker.config, old(breaker.Current()), Check(now))
      ensures e == Answer(breaker.mode, old(free))
      ensures free == old(free) - if e == Entered then 1 else 0
      ensures stats == Noted(old(stats), e)
    {
      var admitted := breaker.Check(now);
      if !admitted {
        return Unavailable;
      }
      if free == 0 {
        stats := stats.(shed := stats.shed + 1);
        return Entry.Shed;
      }
      free := free - 1;
      stats := stats.(admitted := stats.admitted + 1, inFlight := stats.inFlight + 1);
      if stats.inFlight > stats.peak {
        stats := stats.(peak := stats.inFlight);
      }
      e := Entered;
    }

    /** `__exit__`: the slot comes back and the breaker hears of the warehouse's own
        outcome, not of a shed. */
    method Exit(o: Outcome, now: Time)
      requires free < slots
      modifies this`free, this`stats, breaker
      ensures free == old(free) + 1 && stats == old(stats).(inFlight := old(stats).inFlight - 1)
      ensures breaker.Current() == match Verdict(o, now)
                                   case Some(e) => Breaker.Step(breaker.config, old(breaker.Current()), e)
                                   case None => old(breaker.Current())
    {
      stats := stats.(inFlight := stats.inFlight - 1);
      free := free + 1;
      match o
      case Fine => breaker.RecordSuccess();
      case Busy =>
      case Broken => breaker.RecordFailure(now);
    }

    /** One statement from end to end gives back what it took. */
    method RunStatement(o: Outcome, start: Time, end: Time) returns (e: Entry)
      requires free <= slots
      modifies this`free, this`stats, breaker
      ensures free == old(free) && stats.inFlight == old(stats).inFlight
      ensures e == Entered ==> stats.admitted == old(stats).admitted + 1 && stats.shed == old(stats).shed
      ensures e == Shed ==> stats.shed == old(stats).shed + 1 && stats.admitted == old(stats).admitted
      ensures e == Unavailable ==> stats == old(stats)
      ensures e != Entered ==> breaker.Current() == Breaker.Step(breaker.config, old(breaker.Current()), Check(start))
    {
      e := Enter(start);
      if e == Entered {
        Exit(o, end);
      }
    }
  }

  // ---------------------------------------------------------------------------
  // Any interleaving
  // ---------------------------------------------------------------------------

  /** Where a caller stands. */
  datatype Pc =
    | Fresh
    | Asked
    | TurnedAway
    | TimedOut
    | WasShed
    | Holding
    | Running
    | Leaving(outcome: Outcome)
    | Released(outcome: Outcome)
    | Done(outcome: Outcome)

  /** One call on the breaker and who made it; -1 is the administrator. */
  datatype Record = Record(caller: int, event: Event)

  datatype Params = Params(slots: nat, breaker: Config)

  /** `drift` is the number of callers that were counted when the counters were last
      zeroed. */
  datatype System = System(free: int, stats: Stats, callers: seq<Pc>, history: seq<Record>, drift: nat)

  datatype Move =
    | Arrive
    | Ask(i: nat, now: Time)
    | Acquire(i: nat)
    | GiveUp(i: nat)
    | CountShed(i: nat)
    | CountIn(i: nat)
    | Leave(i: nat, outcome: Outcome)
    | FreeSlot(i: nat)
    | Report(i: nat, now: Time)
    | ZeroStats
    | ResetByAdmin

  function Events(history: seq<Record>): (events: seq<Event>)
    ensures |events| == |history| && forall k | 0 <= k < |events| :: events[k] == history[k].event
  {
    seq(|history|, k requires 0 <= k < |history| => history[k].event)
  }

  ghost predicate Enabled(s: System, m: Move)
  {
    match m
    case Arrive => true
    case Ask(i, _) => i < |s.callers| && s.callers[i] == Fresh
    case Acquire(i) => i < |s.callers| && s.callers[i] == Asked && s.free > 0
    case GiveUp(i) => i < |s.callers| && s.callers[i] == Asked && s.free <= 0
    case CountShed(i) => i < |s.callers| && s.callers[i] == TimedOut
    case CountIn(i) => i < |s.callers| && s.callers[i] == Holding
    case Leave(i, _) => i < |s.callers| && s.callers[i] == Running
    case FreeSlot(i) => i < |s.callers| && s.callers[i].Leaving?
    case Report(i, _) => i < |s.callers| && s.callers[i].Released?
    case ZeroStats => true
    case ResetByAdmin => true
  }

  /** `__exit__`'s last statement. */
  function Reported(history: seq<Record>, i: nat, o: Outcome, now: Time): seq<Record>
  {
    match Verdict(o, now)
    case Some(e) => history + [Record(i, e)]
    case None => history
  }

  ghost function Apply(p: Params, s: System, m: Move): System
    requires Enabled(s, m)
  {
    match m
    case Arrive => s.(callers := s.callers + [Fresh])
    case Ask(i, now) =>
      var history := s.history + [Record(i, Check(now))];
      s.(history := history, callers := s.callers[i := if After(p.breaker, Events(history)).mode == Open then TurnedAway else Asked])
    case Acquire(i) => s.(free := s.free - 1, callers := s.callers[i := Holding])
    case GiveUp(i) => s.(callers := s.callers[i := TimedOut])
    case CountShed(i) => s.(stats := s.stats.(shed := s.stats.shed + 1), callers := s.callers[i := WasShed])
    case CountIn(i) => s.(stats := Counted(s.stats), callers := s.callers[i := Running])
    case Leave(i, o) => s.(stats := s.stats.(inFlight := s.stats.inFlight - 1), callers := s.callers[i := Leaving(o)])
    case FreeSlot(i) => s.(free := s.free + 1, callers := s.callers[i := Released(s.callers[i].outcome)])
    case Report(i, now) => s.(history := Reported(s.history, i, s.callers[i].outcome, now), callers := s.callers[i := Done(s.callers[i].outcome)])
    case ZeroStats => s.(stats := Stats(0, 0, 0, 0), drift := |InFlight(s.callers)|)
    case ResetByAdmin => s.(history := s.history + [Record(-1, Reset)])
  }

  predicate Holds(pc: Pc)
  {
    pc.Holding? || pc.Running? || pc.Leaving?
  }

  ghost function Holders(callers: seq<Pc>): set<nat>
  {
    set i: nat | i < |callers| && Holds(callers[i])
  }

  ghost function InFlight(callers: seq<Pc>): set<nat>
  {
    set i: nat | i < |callers| && callers[i] == Running
  }

  lemma MemberChange(S: set<nat>, i: nat, now: bool)
    ensures |if now then S + {i} else S - {i}| == |S| + (if now then 1 else 0) - (if i in S then 1 else 0)
  {
    if i in S {
      assert S + {i} == S;
    } else {
      assert S - {i} == S;
    }
  }

  lemma HoldersChange(callers: seq<Pc>, i: nat, pc: Pc)
    requires i < |callers|
    ensures |Holders(callers[i := pc])| == |Holders(callers)| + (if Holds(pc) then 1 else 0) - (if Holds(callers[i]) then 1 else 0)
  {
    assert Holders(callers[i := pc]) == if Holds(pc) then Holders(callers) + {i} else Holders(callers) - {i};
    MemberChange(Holders(callers), i, Holds(pc));
  }

  lemma InFlightChange(callers: seq<Pc>, i: nat, pc: Pc)
    requires i < |callers|
    ensures |InFlight(callers[i := pc])| ==
            |InFlight(callers)| + (if pc == Running then 1 else 0) - (if callers[i] == Running then 1 else 0)
  {
    assert InFlight(callers[i := pc]) == if pc == Running then InFlight(callers) + {i} else InFlight(callers) - {i};
    MemberChange(InFlight(callers), i, pc == Running);
  }

  lemma RunningHold(callers: seq<Pc>)
    ensures |InFlight(callers)| <= |Holders(callers)|
  {
    assert Holders(callers) == InFlight(callers) + (Holders(callers) - InFlight(callers));
  }

  /** Permits are conserved, and the gauge is off by exactly the drift. */
  ghost predicate Conserved(p: Params, s: System)
  {
    && s.free >= 0 && s.free + |Holders(s.callers)| == p.slots
    && s.stats.inFlight + s.drift == |InFlight(s.callers)|
    && s.stats.inFlight <= s.stats.peak && 0 <= s.stats.peak <= p.slots
  }

  /** An outcome on the breaker's record is that of a caller that ran, and each such
      caller has one. */
  predicate Concludes(e: Event, o: Outcome)
  {
    (e == Success && o == Fine) || (e.Failure? && o == Broken)
  }

  predicate IsOutcome(e: Event)
  {
    e == Success || e.Failure?
  }

  ghost predicate HasReport(history: seq<Record>, i: int)
  {
    exists k :: 0 <= k < |history| && history[k].caller == i && IsOutcome(history[k].event)
  }

  ghost predicate ReportsMatch(s: System)
  {
    && (forall k | 0 <= k < |s.history| && IsOutcome(s.history[k].event) ::
          0 <= s.history[k].caller < |s.callers| && s.callers[s.history[k].caller].Done?
          && Concludes(s.history[k].event, s.callers[s.history[k].caller].outcome))
    && (forall j, k | 0 <= j < k < |s.history| && IsOutcome(s.history[j].event) && IsOutcome(s.history[k].event) ::
          s.history[j].caller != s.history[k].caller)
    && (forall i | 0 <= i < |s.callers| && s.callers[i].Done? && s.callers[i].outcome != Busy :: HasReport(s.history, i))
  }

  lemma ConservedStep(p: Params, s: System, m: Move)
    requires Conserved(p, s) && Enabled(s, m)
    ensures Conserved(p, Apply(p, s, m))
  {
    var s' := Apply(p, s, m);
    match m
    case Arrive =>
      assert Holders(s'.callers) == Holders(s.callers) && InFlight(s'.callers) == InFlight(s.callers);
    case ZeroStats =>
    case ResetByAdmin =>
    case _ =>
      HoldersChange(s.callers, m.i, s'.callers[m.i]);
      InFlightChange(s.callers, m.i, s'.callers[m.i]);
      RunningHold(s'.callers);
  }

  lemma MatchReport(p: Params, s: System, i: nat, now: Time)
    requires ReportsMatch(s) && Enabled(s, Report(i, now))
    ensures ReportsMatch(Apply(p, s, Report(i, now)))
  {
    var s' := Apply(p, s, Report(i, now));
    forall k | 0 <= k < |s'.callers| && s'.callers[k].Done? && s'.callers[k].outcome != Busy ensures HasReport(s'.history, k) {
      if k == i {
        assert s'.history[|s.history|].caller == i;
      } else {
        ReportKept(s.history, s'.history, k);
      }
    }
  }

  lemma ReportKept(history: seq<Record>, more: seq<Record>, i: int)
    requires history <= more && HasReport(history, i)
    ensures HasReport(more, i)
  {
    var k :| 0 <= k < |history| && history[k].caller == i && IsOutcome(history[k].event);
    assert more[k] == history[k];
  }

  /** Records that are no outcomes, and moves that conclude no caller. */
  lemma MatchSilent(s: System, s': System, more: seq<Record>)
    requires ReportsMatch(s) && s'.history == s.history + more && |s.callers| <= |s'.callers|
    requires forall k | 0 <= k < |more| :: !IsOutcome(more[k].event)
    requires forall i | 0 <= i < |s.callers| && s.callers[i].Done? :: s'.callers[i] == s.callers[i]
    requires forall i | 0 <= i < |s'.callers| && s'.callers[i].Done? :: i < |s.callers| && s.callers[i] == s'.callers[i]
    ensures ReportsMatch(s')
  {
    forall i | 0 <= i < |s'.callers| && s'.callers[i].Done? && s'.callers[i].outcome != Busy ensures HasReport(s'.history, i) {
      ReportKept(s.history, s'.history, i);
    }
  }

  lemma MatchStep(p: Params, s: System, m: Move)
    requires ReportsMatch(s) && Enabled(s, m)
    ensures ReportsMatch(Apply(p, s, m))
  {
    var s' := Apply(p, s, m);
    match m
    case Report(i, now) => MatchReport(p, s, i, now);
    case Ask(i, now) => MatchSilent(s, s', [Record(i, Check(now))]);
    case ResetByAdmin => MatchSilent(s, s', [Record(-1, Reset)]);
    case _ =>
      assert s.history + [] == s.history;
      MatchSilent(s, s', []);
  }

  function Initial(p: Params): System
  {
    System(p.slots, Stats(0, 0, 0, 0), [], [], 0)
  }

  /** The state after a run of the system from `s`. */
  ghost predicate Runs(p: Params, s: System, moves: seq<Move>, end: System)
    decreases |moves|
  {
    if moves == [] then s == end
    else Enabled(s, moves[0]) && Runs(p, Apply(p, s, moves[0]), moves[1..], end)
  }

  lemma {:induction false} InvRuns(p: Params, s: System, moves: seq<Move>, end: System)
    requires Conserved(p, s) && ReportsMatch(s) && Runs(p, s, moves, end)
    ensures Conserved(p, end) && ReportsMatch(end)
    decreases |moves|
  {
    if moves != [] {
      ConservedStep(p, s, moves[0]);
      MatchStep(p, s, moves[0]);
      InvRuns(p, Apply(p, s, moves[0]), moves[1..], end);
    }
  }

  /** In every interleaving: permits are conserved, so no more statements run than there
      are slots; the gauge is the number of running statements less the drift; and the
      breaker hears exactly once of every caller whose statement ended on its own and
      never of one that was turned away, shed, or ended by a nested shed. */
  lemma GateIsSafe(p: Params, moves: seq<Move>, s: System)
    requires Runs(p, Initial(p), moves, s)
    ensures 0 <= s.free && s.free + |Holders(s.callers)| == p.slots
    ensures s.stats.inFlight + s.drift == |InFlight(s.callers)| <= |Holders(s.callers)|
    ensures s.stats.inFlight <= s.stats.peak <= p.slots
    ensures ReportsMatch(s)
  {
    assert Holders([]) == {} && InFlight([]) == {};
    InvRuns(p, Initial(p), moves, s);
    RunningHold(s.callers);
  }

  /** A caller that was turned away or shed has told the breaker nothing. */
  lemma ShedIsSilent(p: Params, moves: seq<Move>, s: System, k: nat)
    requires Runs(p, Initial(p), moves, s) && k < |s.history| && 0 <= s.history[k].caller < |s.callers|
    requires s.callers[s.history[k].caller] in {TurnedAway, TimedOut, WasShed, Done(Busy)}
    ensures s.history[k].event.Check? || s.history[k].event.Reset?
  {
    GateIsSafe(p, moves, s);
  }

  /** When every caller is through, every slot is free again and the gauge reads minus the
      drift. */
  lemma AllGivenBack(p: Params, moves: seq<Move>, s: System)
    requires Runs(p, Initial(p), moves, s) && forall i | 0 <= i < |s.callers| :: !Holds(s.callers[i])
    ensures s.free == p.slots && s.stats.inFlight + s.drift == 0
  {
    GateIsSafe(p, moves, s);
    assert Holders(s.callers) == {};
  }

  lemma {:induction false} DriftStays(p: Params, s: System, moves: seq<Move>, end: System)
    requires Runs(p, s, moves, end) && ZeroStats !in moves
    ensures end.drift == s.drift
    decreases |moves|
  {
    if moves != [] {
      assert moves[0] != ZeroStats;
      DriftStays(p, Apply(p, s, moves[0]), moves[1..], end);
    }
  }

  /** Zeroing the counters leaves the gauge true for as long as they are not zeroed again
      if and only if no statement was running at that moment. */
  lemma ZeroingKeepsGauge(p: Params, before: seq<Move>, s: System, moves: seq<Move>, end: System)
    requires Runs(p, Initial(p), before, s) && Runs(p, Apply(p, s, ZeroStats), moves, end) && ZeroStats !in moves
    ensures end.stats.inFlight == |InFlight(end.callers)| <==> InFlight(s.callers) == {}
  {
    assert Holders([]) == {} && InFlight([]) == {};
    InvRuns(p, Initial(p), before, s);
    ConservedStep(p, s, ZeroStats);
    InvRuns(p, Apply(p, s, ZeroStats), moves, end);
    DriftStays(p, Apply(p, s, ZeroStats), moves, end);
  }

  /** The highest the gauge stands during a run. */
  ghost function Highest(p: Params, s: System, moves: seq<Move>): int
    decreases |moves|
  {
    if moves == [] || !Enabled(s, moves[0]) then s.stats.inFlight
    else
      var rest := Highest(p, Apply(p, s, moves[0]), moves[1..]);
      if s.stats.inFlight > rest then s.stats.inFlight else rest
  }

  lemma {:induction false} PeakGrows(p: Params, s: System, moves: seq<Move>, end: System)
    requires Runs(p, s, moves, end) && ZeroStats !in moves && s.stats.inFlight <= s.stats.peak
    ensures end.stats.peak == if Highest(p, s, moves) > s.stats.peak then Highest(p, s, moves) else s.stats.peak
    decreases |moves|
  {
    if moves != [] {
      assert moves[0] != ZeroStats;
      PeakGrows(p, Apply(p, s, moves[0]), moves[1..], end);
      HighestFromStart(p, Apply(p, s, moves[0]), moves[1..]);
    }
  }

  lemma HighestFromStart(p: Params, s: System, moves: seq<Move>)
    ensures Highest(p, s, moves) >= s.stats.inFlight
  {
  }

  function Increment(m: Move): (nat, nat)
  {
    match m
    case CountIn(_) => (1, 0)
    case CountShed(_) => (0, 1)
    case _ => (0, 0)
  }

  /** How many callers a run counts in, and how many as shed. */
  function Tally(moves: seq<Move>): (nat, nat)
  {
    if moves == [] then (0, 0)
    else
      var first, rest := Increment(moves[0]), Tally(moves[1..]);
      (first.0 + rest.0, first.1 + rest.1)
  }

  lemma {:induction false} TallyGrows(p: Params, s: System, moves: seq<Move>, end: System)
    requires Runs(p, s, moves, end) && ZeroStats !in moves
    ensures end.stats.admitted == s.stats.admitted + Tally(moves).0 && end.stats.shed == s.stats.shed + Tally(moves).1
    decreases |moves|
  {
    if moves != [] {
      assert moves[0] != ZeroStats;
      TallyGrows(p, Apply(p, s, moves[0]), moves[1..], end);
    }
  }

  /** The counters say what has happened since. */
  ghost predicate CountersTell(p: Params, s: System, moves: seq<Move>, end: System)
  {
    end.stats.peak == Highest(p, s, moves) && (end.stats.admitted, end.stats.shed) == Tally(moves)
  }

  lemma CountersSince(p: Params, s: System, moves: seq<Move>, end: System)
    requires s.stats == Stats(0, 0, 0, 0) && Runs(p, s, moves, end) && ZeroStats !in moves
    ensures CountersTell(p, s, moves, end)
  {
    PeakGrows(p, s, moves, end);
    HighestFromStart(p, s, moves);
    TallyGrows(p, s, moves, end);
  }

  /** From the start, and from any zeroing of the counters, until they are zeroed again: the
      peak is the highest the gauge has stood, and the other two counters are the numbers of
      callers admitted and shed. */
  lemma CountersAreTrue(p: Params, s: System, moves: seq<Move>, fromStart: System, fromZero: System)
    requires ZeroStats !in moves && Runs(p, Initial(p), moves, fromStart) && Runs(p, Apply(p, s, ZeroStats), moves, fromZero)
    ensures CountersTell(p, Initial(p), moves, fromStart) && CountersTell(p, Apply(p, s, ZeroStats), moves, fromZero)
  {
    CountersSince(p, Initial(p), moves, fromStart);
    CountersSince(p, Apply(p, s, ZeroStats), moves, fromZero);
  }

  // ---------------------------------------------------------------------------
  // The steps of one caller, uninterrupted, are the methods
  // ---------------------------------------------------------------------------

  lemma RunsOne(p: Params, s: System, m: Move)
    requires Enabled(s, m)
    ensures Runs(p, s, [m], Apply(p, s, m))
  {
  }

  lemma {:induction false} RunsJoin(p: Params, s: System, first: seq<Move>, mid: System, second: seq<Move>, end: System)
    requires Runs(p, s, first, mid) && Runs(p, mid, second, end)
    ensures Runs(p, s, first + second, end)
    decreases |first|
  {
    if first == [] {
      assert first + second == second;
    } else {
      RunsJoin(p, Apply(p, s, first[0]), first[1..], mid, second, end);
      assert (first + second)[1..] == first[1..] + second;
    }
  }

  lemma RunsMore(p: Params, s: System, moves: seq<Move>, mid: System, m: Move)
    requires Runs(p, s, moves, mid) && Enabled(mid, m)
    ensures Runs(p, s, moves + [m], Apply(p, mid, m))
  {
    RunsOne(p, mid, m);
    RunsJoin(p, s, moves, mid, [m], Apply(p, mid, m));
  }

  /** The mode in which the breaker answers somebody who asks now. */
  function ModeAt(p: Params, s: System, now: Time): Mode
  {
    After(p.breaker, Events(s.history) + [Check(now)]).mode
  }

  /** Where a caller stands that got this answer. */
  function Placed(e: Entry): Pc
  {
    match e
    case Entered => Running
    case Unavailable => TurnedAway
    case Shed => WasShed
  }

  lemma AskRuns(p: Params, s: System, now: Time) returns (moves: seq<Move>, end: System)
    ensures Runs(p, s, moves, end)
    ensures end == s.(history := s.history + [Record(|s.callers|, Check(now))],
                      callers := s.callers + [if ModeAt(p, s, now) == Open then TurnedAway else Asked])
  {
    var i := |s.callers|;
    RunsOne(p, s, Arrive);
    var mid := Apply(p, s, Arrive);
    RunsMore(p, s, [Arrive], mid, Ask(i, now));
    moves, end := [Arrive] + [Ask(i, now)], Apply(p, mid, Ask(i, now));
    assert Events(s.history + [Record(i, Check(now))]) == Events(s.history) + [Check(now)];
    assert (s.callers + [Fresh])[i := if ModeAt(p, s, now) == Open then TurnedAway else Asked]
        == s.callers + [if ModeAt(p, s, now) == Open then TurnedAway else Asked];
  }

  /** A caller that comes in undisturbed gets the answer of `Enter`, takes a permit if it is
      admitted and leaves the counters as `Enter` does. */
  lemma AloneIsEnter(p: Params, s: System, now: Time) returns (moves: seq<Move>, end: System)
    ensures Runs(p, s, moves, end)
    ensures var e := Answer(ModeAt(p, s, now), s.free);
            end == System(s.free - (if e == Entered then 1 else 0), Noted(s.stats, e), s.callers + [Placed(e)],
                          s.history + [Record(|s.callers|, Check(now))], s.drift)
  {
    var i, e := |s.callers|, Answer(ModeAt(p, s, now), s.free);
    var asked, mid := AskRuns(p, s, now);
    if e == Unavailable {
      moves, end := asked, mid;
    } else {
      var m, n := if e == Shed then GiveUp(i) else Acquire(i), if e == Shed then CountShed(i) else CountIn(i);
      RunsMore(p, s, asked, mid, m);
      RunsMore(p, s, asked + [m], Apply(p, mid, m), n);
      moves, end := asked + [m] + [n], Apply(p, Apply(p, mid, m), n);
    }
  }

  /** A caller that leaves undisturbed does what `Exit` does. */
  lemma AloneIsExit(p: Params, s: System, i: nat, o: Outcome, now: Time) returns (moves: seq<Move>, end: System)
    requires i < |s.callers| && s.callers[i] == Running
    ensures Runs(p, s, moves, end)
    ensures end == s.(free := s.free + 1, stats := s.stats.(inFlight := s.stats.inFlight - 1),
                      callers := s.callers[i := Done(o)], history := Reported(s.history, i, o, now))
  {
    RunsOne(p, s, Leave(i, o));
    var left := Apply(p, s, Leave(i, o));
    RunsMore(p, s, [Leave(i, o)], left, FreeSlot(i));
    var freed := Apply(p, left, FreeSlot(i));
    RunsMore(p, s, [Leave(i, o)] + [FreeSlot(i)], freed, Report(i, now));
    moves, end := [Leave(i, o)] + [FreeSlot(i)] + [Report(i, now)], Apply(p, freed, Report(i, now));
  }

  /** A caller gives up waiting only while every slot is held. */
  lemma ShedOnlyWhenFull(p: Params, moves: seq<Move>, s: System, i: nat)
    requires Runs(p, Initial(p), moves, s) && Enabled(s, GiveUp(i))
    ensures |Holders(s.callers)| == p.slots
  {
    GateIsSafe(p, moves, s);
  }

  lemma ResetCloses(p: Params, s: System, now: Time)
    ensures ModeAt(p, Apply(p, s, ResetByAdmin), now) == Closed
  {
    var reset := Events(s.history) + [Reset];
    assert Events(s.history + [Record(-1, Reset)]) == reset;
    assert Init(reset) == Events(s.history) && Init(reset + [Check(now)]) == reset;
    assert After(p.breaker, reset).mode == Closed;
  }

  /** After the administrator's reset the next caller that asks gets through. */
  lemma ResetLetsIn(p: Params, s: System, now: Time) returns (moves: seq<Move>, end: System)
    ensures Runs(p, s, moves, end)
    ensures end.callers == s.callers + [Asked] && end.history == s.history + [Record(-1, Reset), Record(|s.callers|, Check(now))]
  {
    RunsOne(p, s, ResetByAdmin);
    var mid := Apply(p, s, ResetByAdmin);
    var more;
    more, end := AskRuns(p, mid, now);
    moves := [ResetByAdmin] + more;
    RunsJoin(p, s, [ResetByAdmin], mid, more, end);
    ResetCloses(p, s, now);
    assert mid.history + [Record(|s.callers|, Check(now))] == s.history + [Record(-1, Reset), Record(|s.callers|, Check(now))];
  }
}
