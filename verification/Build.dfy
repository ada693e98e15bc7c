/**
 Submitting build jobs (backend/build_service.py): the per-table reservation, the daily
 budget and the release on a status poll. Each critical section of the source is one
 function on the shared state; the class performs them in place, and the step system
 interleaves any number of submitters, pollers and runs.
 */
module Build {
  import opened Sequences

  type Table = string
  type RunId = string
  type Day = int

  const NO_DAY: Day := -1

  /** An entry of `_build_locks`: the placeholder, or the run that took its place. */
  datatype Slot = Reserved | Run(id: RunId)

  datatype Limits = Limits(maxInFlight: nat, maxPerDay: nat)

  datatype Shared = Shared(locks: map<Table, Slot>, used: nat, day: Day)

  datatype Admission = Admitted | AtCapacity | InProgress(slot: Slot)

  // ---------------------------------------------------------------------------
  // The critical sections
  // ---------------------------------------------------------------------------

  function Admit(c: Limits, s: Shared, t: Table): Admission
  {
    if t in s.locks then InProgress(s.locks[t])
    else if |s.locks| >= c.maxInFlight then AtCapacity
    else Admitted
  }

  /** `_reserve_budget`: a new day starts from zero, whether or not the charge succeeds. */
  function Charge(c: Limits, s: Shared, today: Day): (Shared, bool)
  {
    var rolled := if s.day != today then s.(day := today, used := 0) else s;
    if rolled.used >= c.maxPerDay then (rolled, false) else (rolled.(used := rolled.used + 1), true)
  }

  function Refund(s: Shared): Shared
  {
    if s.used > 0 then s.(used := s.used - 1) else s
  }

  function Drop(s: Shared, t: Table): Shared
  {
    if t in s.locks && s.locks[t] == Reserved then s.(locks := s.locks - {t}) else s
  }

  function Swap(s: Shared, t: Table, id: RunId): Shared
  {
    s.(locks := s.locks[t := Run(id)])
  }

  /** The locks that a finished run does not hold. */
  function Others(locks: map<Table, Slot>, id: RunId): map<Table, Slot>
  {
    map t | t in locks && locks[t] != Run(id) :: locks[t]
  }

  /** What the workspace answers to `runs/submit`: it may refuse, or start a run and lose
      the reply on the way back. */
  datatype Reply = Started(id: RunId) | Refused | ReplyLost(id: RunId)

  datatype Outcome = Launched(id: RunId) | Rejected(why: Admission) | OverBudget | Failed

  /** The module's state, changed one critical section at a time. */
  class BuildService {
    const limits: Limits
    var locks: map<Table, Slot>
    var used: nat
    var day: Day

    constructor (limits: Limits)
      ensures this.limits == limits && State() == Shared(map[], 0, NO_DAY)
    {
      this.limits := limits;
      locks, used, day := map[], 0, NO_DAY;
    }

    ghost function State(): Shared
      reads this
    {
      Shared(locks, used, day)
    }

    method TryReserve(t: Table) returns (a: Admission)
      modifies `locks
      ensures a == Admit(limits, old(State()), t)
      ensures a.InProgress? <==> t in old(locks)
      ensures a.InProgress? ==> a.slot == old(locks)[t]
      ensures a == AtCapacity <==> t !in old(locks) && |old(locks)| >= limits.maxInFlight
      ensures locks == if a == Admitted then old(locks)[t := Reserved] else old(locks)
    {
      if t !in locks && |locks| >= limits.maxInFlight {
        return AtCapacity;
      }
      if t in locks {
        return InProgress(locks[t]);
      }
      locks := locks[t := Reserved];
      a := Admitted;
    }

    method ReserveBudget(today: Day) returns (ok: bool)
      modifies `used, `day
      ensures (State(), ok) == Charge(limits, old(State()), today)
    {
      if day != today {
        day, used := today, 0;
      }
      if used >= limits.maxPerDay {
        return false;
      }
      used := used + 1;
      ok := true;
    }

    method RefundBudget()
      modifies `used
      ensures State() == Refund(old(State()))
    {
      if used > 0 {
        used := used - 1;
      }
    }

    method DropReservation(t: Table)
      modifies `locks
      ensures State() == Drop(old(State()), t)
    {
      if t in locks && locks[t] == Reserved {
        locks := locks - {t};
      }
    }

    /** `get_build_status` on a run that has ended. */
    method ReleaseRun(id: RunId)
      modifies `locks
      ensures locks == Others(old(locks), id)
    {
      var toRemove := set t | t in locks && locks[t] == Run(id);
      ghost var all := toRemove;
      while toRemove != {}
        invariant toRemove <= all
        invariant locks == old(locks) - (all - toRemove)
      {
        var t :| t in toRemove;
        locks := locks - {t};
        toRemove := toRemove - {t};
      }
    }

    /** One submission on its own. A rejected one changes nothing, a failed one leaves the
        locks as they were and gives its charge back, and a launched one holds its table. */
    method SubmitBuildJob(t: Table, today: Day, reply: Reply) returns (r: Outcome)
      modifies this
      ensures r.Rejected? <==> Admit(limits, old(State()), t) != Admitted
      ensures r.Rejected? ==> State() == old(State()) && r.why == Admit(limits, old(State()), t)
      ensures r.OverBudget? ==> limits.maxPerDay == 0 || (old(day) == today && old(used) >= limits.maxPerDay)
      ensures r.OverBudget? || r.Failed? ==> locks == old(locks)
      ensures r.OverBudget? || r.Failed? ==> day == today && used == if old(day) == today then old(used) else 0
      ensures r.Launched? ==> reply == Started(r.id) && locks == old(locks)[t := Run(r.id)]
      ensures r.Launched? ==> day == today && used == 1 + (if old(day) == today then old(used) else 0) <= limits.maxPerDay
    {
      var a := TryReserve(t);
      if a != Admitted {
        return Rejected(a);
      }
      var ok := ReserveBudget(today);
      if !ok {
        DropReservation(t);
        return OverBudget;
      }
      if reply.Started? {
        locks := locks[t := Run(reply.id)];
        return Launched(reply.id);
      }
      RefundBudget();
      DropReservation(t);
      r := Failed;
    }
  }

  // ---------------------------------------------------------------------------
  // Any interleaving
  // ---------------------------------------------------------------------------

  /** Where a submission stands. `day` is the day it was charged on. */
  datatype Pc =
    | Calling
    | Holding
    | Charged(day: Day)
    | Swapping(day: Day, id: RunId)
    | Refunding(day: Day)
    | Dropping
    | Ended(day: Day, id: RunId)
    | GaveUp

  datatype Submitter = Submitter(table: Table, pc: Pc)

  /** `running` are the runs the workspace executes, `issued` the ids it has handed out,
      `lost` the runs whose reply never arrived, and `stale` the effective refunds since
      the last reset of charges made before it. */
  datatype System = System(
    shared: Shared,
    calls: seq<Submitter>,
    running: map<RunId, Table>,
    issued: set<RunId>,
    lost: set<RunId>,
    stale: nat,
    today: Day)

  datatype Step =
    | Call(t: Table)
    | TakeSlot(i: nat)
    | TakeBudget(i: nat)
    | Post(i: nat, reply: Reply)
    | PutRun(i: nat)
    | GiveBack(i: nat)
    | Release(i: nat)
    | Finish(id: RunId)
    | Poll(id: RunId)
    | Midnight(day: Day)

  predicate Enabled(s: System, step: Step)
  {
    match step
    case Call(_) => true
    case TakeSlot(i) => i < |s.calls| && s.calls[i].pc == Calling
    case TakeBudget(i) => i < |s.calls| && s.calls[i].pc == Holding
    case Post(i, reply) => i < |s.calls| && s.calls[i].pc.Charged? && (reply == Refused || reply.id !in s.issued)
    case PutRun(i) => i < |s.calls| && s.calls[i].pc.Swapping?
    case GiveBack(i) => i < |s.calls| && s.calls[i].pc.Refunding?
    case Release(i) => i < |s.calls| && s.calls[i].pc.Dropping?
    case Finish(id) => id in s.running
    case Poll(id) => id in s.issued && id !in s.running
    case Midnight(day) => day > s.today
  }

  function Move(calls: seq<Submitter>, i: nat, pc: Pc): seq<Submitter>
    requires i < |calls|
  {
    calls[i := Submitter(calls[i].table, pc)]
  }

  function Posted(s: System, i: nat, reply: Reply): System
    requires Enabled(s, Post(i, reply))
  {
    var t, day := s.calls[i].table, s.calls[i].pc.day;
    match reply
    case Refused => s.(calls := Move(s.calls, i, Refunding(day)))
    case Started(id) => s.(calls := Move(s.calls, i, Swapping(day, id)), running := s.running[id := t], issued := s.issued + {id})
    case ReplyLost(id) =>
      s.(calls := Move(s.calls, i, Refunding(day)), running := s.running[id := t], issued := s.issued + {id}, lost := s.lost + {id})
  }

  function Apply(c: Limits, s: System, step: Step): System
    requires Enabled(s, step)
  {
    match step
    case Call(t) => s.(calls := s.calls + [Submitter(t, Calling)])
    case TakeSlot(i) =>
      if Admit(c, s.shared, s.calls[i].table) == Admitted
      then s.(shared := s.shared.(locks := s.shared.locks[s.calls[i].table := Reserved]), calls := Move(s.calls, i, Holding))
      else s.(calls := Move(s.calls, i, GaveUp))
    case TakeBudget(i) =>
      var (shared, ok) := Charge(c, s.shared, s.today);
      s.(shared := shared, calls := Move(s.calls, i, if ok then Charged(s.today) else Dropping),
         stale := if s.shared.day != s.today then 0 else s.stale)
    case Post(i, reply) => Posted(s, i, reply)
    case PutRun(i) =>
      s.(shared := Swap(s.shared, s.calls[i].table, s.calls[i].pc.id), calls := Move(s.calls, i, Ended(s.calls[i].pc.day, s.calls[i].pc.id)))
    case GiveBack(i) =>
      s.(shared := Refund(s.shared), calls := Move(s.calls, i, Dropping),
         stale := if s.shared.used > 0 && s.calls[i].pc.day != s.shared.day then s.stale + 1 else s.stale)
    case Release(i) =>
      s.(shared := Drop(s.shared, s.calls[i].table), calls := Move(s.calls, i, GaveUp))
    case Finish(id) => s.(running := s.running - {id})
    case Poll(id) => s.(shared := s.shared.(locks := Others(s.shared.locks, id)))
    case Midnight(day) => s.(today := day)
  }

  function Initial(today: Day): System
  {
    System(Shared(map[], 0, NO_DAY), [], map[], {}, {}, 0, today)
  }

  /** The state after a run of the system from `s`. */
  ghost predicate Runs(c: Limits, s: System, steps: seq<Step>, end: System)
    decreases |steps|
  {
    if steps == [] then s == end
    else Enabled(s, steps[0]) && Runs(c, Apply(c, s, steps[0]), steps[1..], end)
  }

  // ---------------------------------------------------------------------------
  // Who holds which table
  // ---------------------------------------------------------------------------

  predicate Owns(pc: Pc)
  {
    pc.Holding? || pc.Charged? || pc.Swapping? || pc.Refunding? || pc.Dropping?
  }

  /** The placeholder of a table belongs to exactly one submission. */
  ghost predicate OwnersPlaced(locks: map<Table, Slot>, calls: seq<Submitter>)
  {
    && (forall i | 0 <= i < |calls| && Owns(calls[i].pc) :: calls[i].table in locks && locks[calls[i].table] == Reserved)
    && (forall i, j | 0 <= i < j < |calls| && Owns(calls[i].pc) && Owns(calls[j].pc) :: calls[i].table != calls[j].table)
  }

  ghost predicate HasOwner(calls: seq<Submitter>, t: Table)
  {
    exists i :: 0 <= i < |calls| && calls[i].table == t && Owns(calls[i].pc)
  }

  ghost predicate HasLaunched(calls: seq<Submitter>, t: Table, id: RunId)
  {
    exists i :: 0 <= i < |calls| && calls[i].table == t && calls[i].pc.Ended? && calls[i].pc.id == id
  }

  /** Every entry is the placeholder of a pending submission or the run of a launched one. */
  ghost predicate EntriesExplained(locks: map<Table, Slot>, calls: seq<Submitter>)
  {
    forall t | t in locks :: if locks[t] == Reserved then HasOwner(calls, t) else HasLaunched(calls, t, locks[t].id)
  }

  lemma OwnersMove(locks: map<Table, Slot>, calls: seq<Submitter>, i: nat, pc: Pc)
    requires OwnersPlaced(locks, calls) && i < |calls| && (Owns(pc) ==> Owns(calls[i].pc))
    ensures OwnersPlaced(locks, Move(calls, i, pc))
  {
  }

  lemma EntriesMove(locks: map<Table, Slot>, calls: seq<Submitter>, i: nat, pc: Pc)
    requires EntriesExplained(locks, calls) && i < |calls| && !calls[i].pc.Ended?
    requires Owns(calls[i].pc) ==> Owns(pc) || calls[i].table !in locks
    ensures EntriesExplained(locks, Move(calls, i, pc))
  {
    var moved := Move(calls, i, pc);
    forall t | t in locks ensures if locks[t] == Reserved then HasOwner(moved, t) else HasLaunched(moved, t, locks[t].id) {
      if locks[t] == Reserved {
        var k :| 0 <= k < |calls| && calls[k].table == t && Owns(calls[k].pc);
        assert moved[k].table == t && Owns(moved[k].pc);
      } else {
        var k :| 0 <= k < |calls| && calls[k].table == t && calls[k].pc.Ended? && calls[k].pc.id == locks[t].id;
        assert moved[k] == calls[k];
      }
    }
  }

  lemma EntriesAfterSlot(locks: map<Table, Slot>, calls: seq<Submitter>, i: nat)
    requires EntriesExplained(locks, calls) && i < |calls| && calls[i].pc == Calling
    ensures EntriesExplained(locks[calls[i].table := Reserved], Move(calls, i, Holding))
  {
    EntriesMove(locks, calls, i, Holding);
    assert Move(calls, i, Holding)[i].table == calls[i].table;
  }

  lemma EntriesAfterSwap(locks: map<Table, Slot>, calls: seq<Submitter>, i: nat, day: Day, id: RunId)
    requires EntriesExplained(locks, calls) && i < |calls| && Owns(calls[i].pc)
    ensures EntriesExplained(locks[calls[i].table := Run(id)], Move(calls, i, Ended(day, id)))
  {
    var t := calls[i].table;
    assert EntriesExplained(locks - {t}, calls);
    EntriesMove(locks - {t}, calls, i, Ended(day, id));
    assert Move(calls, i, Ended(day, id))[i].table == t;
    assert locks[t := Run(id)] == (locks - {t})[t := Run(id)];
  }

  lemma EntriesAfterDrop(locks: map<Table, Slot>, calls: seq<Submitter>, i: nat, pc: Pc)
    requires EntriesExplained(locks, calls) && i < |calls| && Owns(calls[i].pc)
    ensures EntriesExplained(locks - {calls[i].table}, Move(calls, i, pc))
  {
    assert EntriesExplained(locks - {calls[i].table}, calls);
    EntriesMove(locks - {calls[i].table}, calls, i, pc);
  }

  lemma EntriesAfterCall(locks: map<Table, Slot>, calls: seq<Submitter>, call: Submitter)
    requires EntriesExplained(locks, calls)
    ensures EntriesExplained(locks, calls + [call])
  {
    var more := calls + [call];
    forall t | t in locks ensures if locks[t] == Reserved then HasOwner(more, t) else HasLaunched(more, t, locks[t].id) {
      if locks[t] == Reserved {
        var k :| 0 <= k < |calls| && calls[k].table == t && Owns(calls[k].pc);
        assert more[k] == calls[k];
      } else {
        var k :| 0 <= k < |calls| && calls[k].table == t && calls[k].pc.Ended? && calls[k].pc.id == locks[t].id;
        assert more[k] == calls[k];
      }
    }
  }

  // ---------------------------------------------------------------------------
  // What the workspace is running
  // ---------------------------------------------------------------------------

  /** The table's slot stands for the run: the entry is the run, or its owner is about to
      put it there. */
  ghost predicate Tracks(locks: map<Table, Slot>, calls: seq<Submitter>, t: Table, id: RunId)
  {
    t in locks && (locks[t] == Run(id) || exists i :: 0 <= i < |calls| && calls[i].table == t && calls[i].pc.Swapping? && calls[i].pc.id == id)
  }

  ghost predicate RunsTracked(s: System)
  {
    forall id | id in s.running && id !in s.lost :: Tracks(s.shared.locks, s.calls, s.running[id], id)
  }

  ghost predicate IdsIssued(s: System)
  {
    && s.running.Keys <= s.issued && s.lost <= s.issued
    && (forall t | t in s.shared.locks && s.shared.locks[t].Run? :: s.shared.locks[t].id in s.issued - s.lost)
    && (forall i | 0 <= i < |s.calls| && s.calls[i].pc.Swapping? :: s.calls[i].pc.id in s.issued - s.lost)
  }

  /** A move that is not a swap loses no run. */
  lemma TracksMove(locks: map<Table, Slot>, calls: seq<Submitter>, i: nat, pc: Pc, t: Table, id: RunId)
    requires Tracks(locks, calls, t, id) && i < |calls| && !calls[i].pc.Swapping?
    ensures Tracks(locks, Move(calls, i, pc), t, id)
  {
    if locks[t] != Run(id) {
      var k :| 0 <= k < |calls| && calls[k].table == t && calls[k].pc.Swapping? && calls[k].pc.id == id;
      assert Move(calls, i, pc)[k] == calls[k];
    }
  }

  /** Taking away or replacing an owner's entry loses no run but the owner's. */
  lemma TracksElsewhere(locks: map<Table, Slot>, more: map<Table, Slot>, calls: seq<Submitter>, i: nat, t: Table, id: RunId)
    requires OwnersPlaced(locks, calls) && i < |calls| && Owns(calls[i].pc)
    requires Tracks(locks, calls, t, id) && more - {calls[i].table} == locks - {calls[i].table}
    requires calls[i].pc.Swapping? ==> calls[i].pc.id != id
    ensures t != calls[i].table && Tracks(more, calls, t, id)
  {
    if locks[t] != Run(id) {
      var k :| 0 <= k < |calls| && calls[k].table == t && calls[k].pc.Swapping? && calls[k].pc.id == id;
      assert k != i;
      assert t != calls[i].table;
    }
    assert t in more - {calls[i].table} && (more - {calls[i].table})[t] == (locks - {calls[i].table})[t];
  }

  // ---------------------------------------------------------------------------
  // The budget
  // ---------------------------------------------------------------------------

  predicate LiveOn(pc: Pc, day: Day)
  {
    (pc.Charged? || pc.Swapping? || pc.Refunding? || pc.Ended?) && pc.day == day
  }

  /** The submissions charged on a day and not refunded. */
  ghost function Live(calls: seq<Submitter>, day: Day): set<int>
  {
    set i | 0 <= i < |calls| && LiveOn(calls[i].pc, day)
  }

  ghost predicate DaysPassed(calls: seq<Submitter>, day: Day)
  {
    forall i, d: Day | 0 <= i < |calls| && LiveOn(calls[i].pc, d) :: d <= day
  }

  /** The counter is never above the live charges of its day, and below them by no more
      than the refunds of older charges. */
  ghost predicate Balanced(c: Limits, s: System)
  {
    && s.shared.used <= c.maxPerDay
    && s.shared.used <= |Live(s.calls, s.shared.day)| <= s.shared.used + s.stale
    && s.shared.day <= s.today && DaysPassed(s.calls, s.shared.day)
  }

  lemma LiveKept(calls: seq<Submitter>, i: nat, pc: Pc, day: Day)
    requires i < |calls| && (LiveOn(pc, day) <==> LiveOn(calls[i].pc, day))
    ensures Live(Move(calls, i, pc), day) == Live(calls, day)
  {
  }

  lemma BalancedMove(c: Limits, s: System, s': System, i: nat, pc: Pc)
    requires Balanced(c, s) && i < |s.calls| && forall d: Day :: LiveOn(pc, d) <==> LiveOn(s.calls[i].pc, d)
    requires s'.calls == Move(s.calls, i, pc) && s'.today == s.today && s'.stale == s.stale
    requires s'.shared.used == s.shared.used && s'.shared.day == s.shared.day
    ensures Balanced(c, s')
  {
    LiveKept(s.calls, i, pc, s.shared.day);
  }

  lemma BalancedCharge(c: Limits, s: System, i: nat)
    requires Balanced(c, s) && Enabled(s, TakeBudget(i))
    ensures Balanced(c, Apply(c, s, TakeBudget(i)))
  {
    var s' := Apply(c, s, TakeBudget(i));
    if s.shared.day != s.today {
      assert Live(s.calls, s.today) == {};
    }
    if s'.calls[i].pc.Charged? {
      LiveMore(s.calls, i, s.today);
    } else {
      LiveKept(s.calls, i, Dropping, s.today);
    }
  }

  lemma LiveMore(calls: seq<Submitter>, i: nat, day: Day)
    requires i < |calls| && calls[i].pc == Holding
    ensures |Live(Move(calls, i, Charged(day)), day)| == |Live(calls, day)| + 1
  {
    assert Live(Move(calls, i, Charged(day)), day) == Live(calls, day) + {i};
  }

  lemma LiveLess(calls: seq<Submitter>, i: nat, day: Day)
    requires i < |calls| && calls[i].pc == Refunding(day)
    ensures |Live(calls, day)| > 0 && |Live(Move(calls, i, Dropping), day)| == |Live(calls, day)| - 1
  {
    assert Live(Move(calls, i, Dropping), day) == Live(calls, day) - {i} && i in Live(calls, day);
  }

  lemma BalancedRefund(c: Limits, s: System, i: nat)
    requires Balanced(c, s) && Enabled(s, GiveBack(i))
    ensures Balanced(c, Apply(c, s, GiveBack(i)))
  {
    var s' := Apply(c, s, GiveBack(i));
    if s.calls[i].pc.day == s.shared.day {
      LiveLess(s.calls, i, s.shared.day);
    } else {
      LiveKept(s.calls, i, Dropping, s.shared.day);
    }
  }

  lemma BalancedCall(c: Limits, s: System, t: Table)
    requires Balanced(c, s)
    ensures Balanced(c, Apply(c, s, Call(t)))
  {
    var s' := Apply(c, s, Call(t));
    assert Live(s'.calls, s.shared.day) == Live(s.calls, s.shared.day);
    forall i, d: Day | 0 <= i < |s'.calls| && LiveOn(s'.calls[i].pc, d) ensures d <= s.shared.day {
      assert i < |s.calls|;
    }
  }

  lemma BalancedStep(c: Limits, s: System, step: Step)
    requires Balanced(c, s) && Enabled(s, step)
    ensures Balanced(c, Apply(c, s, step))
  {
    var s' := Apply(c, s, step);
    match step
    case Call(t) => BalancedCall(c, s, t);
    case TakeSlot(i) => BalancedMove(c, s, s', i, s'.calls[i].pc);
    case TakeBudget(i) => BalancedCharge(c, s, i);
    case Post(i, _) => BalancedMove(c, s, s', i, s'.calls[i].pc);
    case PutRun(i) => BalancedMove(c, s, s', i, s'.calls[i].pc);
    case GiveBack(i) => BalancedRefund(c, s, i);
    case Release(i) => BalancedMove(c, s, s', i, s'.calls[i].pc);
    case Finish(_) =>
    case Poll(_) =>
    case Midnight(_) =>
  }

  // ---------------------------------------------------------------------------
  // Every step keeps the invariant
  // ---------------------------------------------------------------------------

  ghost predicate Placed(c: Limits, s: System)
  {
    |s.shared.locks| <= c.maxInFlight && OwnersPlaced(s.shared.locks, s.calls) && EntriesExplained(s.shared.locks, s.calls)
  }

  lemma FewerLocks(more: map<Table, Slot>, fewer: map<Table, Slot>)
    requires fewer.Keys <= more.Keys
    ensures |fewer| <= |more|
  {
    assert |fewer.Keys| <= |more.Keys| by {
      assert more.Keys == fewer.Keys + (more.Keys - fewer.Keys);
    }
  }

  lemma PlacedMove(c: Limits, s: System, s': System, i: nat, pc: Pc)
    requires Placed(c, s) && i < |s.calls| && !s.calls[i].pc.Ended? && (Owns(pc) <==> Owns(s.calls[i].pc))
    requires s'.calls == Move(s.calls, i, pc) && s'.shared.locks == s.shared.locks
    ensures Placed(c, s')
  {
    OwnersMove(s.shared.locks, s.calls, i, pc);
    EntriesMove(s.shared.locks, s.calls, i, pc);
  }

  lemma PlacedSlot(c: Limits, s: System, i: nat)
    requires Placed(c, s) && Enabled(s, TakeSlot(i))
    ensures Placed(c, Apply(c, s, TakeSlot(i)))
  {
    var s' := Apply(c, s, TakeSlot(i));
    if Admit(c, s.shared, s.calls[i].table) == Admitted {
      EntriesAfterSlot(s.shared.locks, s.calls, i);
      assert s'.shared.locks.Keys == s.shared.locks.Keys + {s.calls[i].table};
    } else {
      PlacedMove(c, s, s', i, GaveUp);
    }
  }

  lemma PlacedSwap(c: Limits, s: System, i: nat)
    requires Placed(c, s) && Enabled(s, PutRun(i))
    ensures Placed(c, Apply(c, s, PutRun(i)))
  {
    var s' := Apply(c, s, PutRun(i));
    EntriesAfterSwap(s.shared.locks, s.calls, i, s.calls[i].pc.day, s.calls[i].pc.id);
    FewerLocks(s.shared.locks, s'.shared.locks);
    OwnersMove(s.shared.locks, s.calls, i, s'.calls[i].pc);
  }

  lemma PlacedDrop(c: Limits, s: System, i: nat)
    requires Placed(c, s) && Enabled(s, Release(i))
    ensures Placed(c, Apply(c, s, Release(i)))
  {
    var s' := Apply(c, s, Release(i));
    EntriesAfterDrop(s.shared.locks, s.calls, i, GaveUp);
    FewerLocks(s.shared.locks, s'.shared.locks);
    OwnersMove(s.shared.locks, s.calls, i, GaveUp);
  }

  lemma PlacedPoll(c: Limits, s: System, id: RunId)
    requires Placed(c, s) && Enabled(s, Poll(id))
    ensures Placed(c, Apply(c, s, Poll(id)))
  {
    FewerLocks(s.shared.locks, Others(s.shared.locks, id));
  }

  lemma PlacedStep(c: Limits, s: System, step: Step)
    requires Placed(c, s) && Enabled(s, step)
    ensures Placed(c, Apply(c, s, step))
  {
    var s' := Apply(c, s, step);
    match step
    case Call(t) => EntriesAfterCall(s.shared.locks, s.calls, Submitter(t, Calling));
    case TakeSlot(i) => PlacedSlot(c, s, i);
    case TakeBudget(i) => PlacedMove(c, s, s', i, s'.calls[i].pc);
    case Post(i, _) => PlacedMove(c, s, s', i, s'.calls[i].pc);
    case PutRun(i) => PlacedSwap(c, s, i);
    case GiveBack(i) => PlacedMove(c, s, s', i, s'.calls[i].pc);
    case Release(i) => PlacedDrop(c, s, i);
    case Finish(_) =>
    case Poll(id) => PlacedPoll(c, s, id);
    case Midnight(_) =>
  }

  lemma IdsStep(c: Limits, s: System, step: Step)
    requires IdsIssued(s) && Enabled(s, step)
    ensures IdsIssued(Apply(c, s, step))
  {
  }

  lemma RunsTrackedSlot(c: Limits, s: System, i: nat)
    requires RunsTracked(s) && Enabled(s, TakeSlot(i))
    ensures RunsTracked(Apply(c, s, TakeSlot(i)))
  {
    var s' := Apply(c, s, TakeSlot(i));
    forall id | id in s.running && id !in s.lost ensures Tracks(s'.shared.locks, s'.calls, s.running[id], id) {
      TracksMove(s.shared.locks, s.calls, i, s'.calls[i].pc, s.running[id], id);
    }
  }

  lemma RunsTrackedMove(c: Limits, s: System, s': System, i: nat, pc: Pc)
    requires RunsTracked(s) && i < |s.calls| && !s.calls[i].pc.Swapping?
    requires s'.calls == Move(s.calls, i, pc) && s'.shared.locks == s.shared.locks && s'.lost == s.lost && s'.running == s.running
    ensures RunsTracked(s')
  {
    forall id | id in s.running && id !in s.lost ensures Tracks(s.shared.locks, s'.calls, s.running[id], id) {
      TracksMove(s.shared.locks, s.calls, i, pc, s.running[id], id);
    }
  }

  lemma RunsTrackedPost(c: Limits, s: System, i: nat, reply: Reply)
    requires RunsTracked(s) && IdsIssued(s) && Placed(c, s) && Enabled(s, Post(i, reply))
    ensures RunsTracked(Apply(c, s, Post(i, reply)))
  {
    var s' := Apply(c, s, Post(i, reply));
    var t := s.calls[i].table;
    forall id | id in s'.running && id !in s'.lost ensures Tracks(s.shared.locks, s'.calls, s'.running[id], id) {
      if id in s.issued || reply == Refused {
        TracksMove(s.shared.locks, s.calls, i, s'.calls[i].pc, s.running[id], id);
      } else {
        assert s'.calls[i].table == t && s'.calls[i].pc.id == id;
      }
    }
  }

  /** Entry `i` is swapped or dropped: the other runs keep their tables. */
  lemma RunsTrackedAway(c: Limits, s: System, s': System, i: nat, pc: Pc, id: RunId)
    requires RunsTracked(s) && Placed(c, s) && i < |s.calls| && Owns(s.calls[i].pc)
    requires s.calls[i].pc.Swapping? ==> s.calls[i].pc.id != id
    requires s'.calls == Move(s.calls, i, pc)
    requires s'.shared.locks - {s.calls[i].table} == s.shared.locks - {s.calls[i].table}
    requires id in s.running && id !in s.lost
    ensures Tracks(s'.shared.locks, s'.calls, s.running[id], id)
  {
    var t := s.running[id];
    TracksElsewhere(s.shared.locks, s'.shared.locks, s.calls, i, t, id);
    if s'.shared.locks[t] != Run(id) {
      var k :| 0 <= k < |s.calls| && s.calls[k].table == t && s.calls[k].pc.Swapping? && s.calls[k].pc.id == id;
      assert s'.calls[k] == s.calls[k];
    }
  }

  lemma RunsTrackedSwap(c: Limits, s: System, i: nat)
    requires RunsTracked(s) && Placed(c, s) && Enabled(s, PutRun(i))
    requires s.calls[i].pc.id in s.running ==> s.running[s.calls[i].pc.id] == s.calls[i].table
    ensures RunsTracked(Apply(c, s, PutRun(i)))
  {
    var s' := Apply(c, s, PutRun(i));
    forall id | id in s.running && id !in s.lost ensures Tracks(s'.shared.locks, s'.calls, s.running[id], id) {
      if id != s.calls[i].pc.id {
        RunsTrackedAway(c, s, s', i, s'.calls[i].pc, id);
      }
    }
  }

  lemma RunsTrackedDrop(c: Limits, s: System, i: nat)
    requires RunsTracked(s) && Placed(c, s) && Enabled(s, Release(i))
    ensures RunsTracked(Apply(c, s, Release(i)))
  {
    var s' := Apply(c, s, Release(i));
    forall id | id in s.running && id !in s.lost ensures Tracks(s'.shared.locks, s'.calls, s.running[id], id) {
      RunsTrackedAway(c, s, s', i, s'.calls[i].pc, id);
    }
  }

  lemma RunsTrackedPoll(c: Limits, s: System, done: RunId)
    requires RunsTracked(s) && Enabled(s, Poll(done)) && Placed(c, s)
    ensures RunsTracked(Apply(c, s, Poll(done)))
  {
    var more := Others(s.shared.locks, done);
    forall id | id in s.running && id !in s.lost ensures Tracks(more, s.calls, s.running[id], id) {
      var t := s.running[id];
      if s.shared.locks[t] != Run(id) {
        var k :| 0 <= k < |s.calls| && s.calls[k].table == t && s.calls[k].pc.Swapping? && s.calls[k].pc.id == id;
        assert s.shared.locks[t] == Reserved;
      }
    }
  }

  lemma RunsTrackedCall(c: Limits, s: System, t: Table)
    requires RunsTracked(s)
    ensures RunsTracked(Apply(c, s, Call(t)))
  {
    var s' := Apply(c, s, Call(t));
    forall id | id in s.running && id !in s.lost ensures Tracks(s.shared.locks, s'.calls, s.running[id], id) {
      if s.shared.locks[s.running[id]] != Run(id) {
        var k :| 0 <= k < |s.calls| && s.calls[k].table == s.running[id] && s.calls[k].pc.Swapping? && s.calls[k].pc.id == id;
        assert s'.calls[k] == s.calls[k];
      }
    }
  }

  /** A pending swap is for the table its run works on. */
  ghost predicate SwapsMatch(s: System)
  {
    && forall i | 0 <= i < |s.calls| && s.calls[i].pc.Swapping? && s.calls[i].pc.id in s.running ::
         s.running[s.calls[i].pc.id] == s.calls[i].table
  }

  lemma SwapsMatchStep(c: Limits, s: System, step: Step)
    requires SwapsMatch(s) && IdsIssued(s) && Enabled(s, step)
    ensures SwapsMatch(Apply(c, s, step))
  {
  }

  lemma RunsTrackedStep(c: Limits, s: System, step: Step)
    requires RunsTracked(s) && IdsIssued(s) && SwapsMatch(s) && Placed(c, s) && Enabled(s, step)
    ensures RunsTracked(Apply(c, s, step))
  {
    var s' := Apply(c, s, step);
    match step
    case Call(t) => RunsTrackedCall(c, s, t);
    case TakeSlot(i) => RunsTrackedSlot(c, s, i);
    case TakeBudget(i) => RunsTrackedMove(c, s, s', i, s'.calls[i].pc);
    case Post(i, reply) => RunsTrackedPost(c, s, i, reply);
    case PutRun(i) => RunsTrackedSwap(c, s, i);
    case GiveBack(i) => RunsTrackedMove(c, s, s', i, s'.calls[i].pc);
    case Release(i) => RunsTrackedDrop(c, s, i);
    case Finish(_) =>
    case Poll(id) => RunsTrackedPoll(c, s, id);
    case Midnight(_) =>
  }

  ghost predicate Inv(c: Limits, s: System)
  {
    Placed(c, s) && Balanced(c, s) && IdsIssued(s) && SwapsMatch(s) && RunsTracked(s)
  }

  lemma InvStep(c: Limits, s: System, step: Step)
    requires Inv(c, s) && Enabled(s, step)
    ensures Inv(c, Apply(c, s, step))
  {
    PlacedStep(c, s, step);
    BalancedStep(c, s, step);
    IdsStep(c, s, step);
    SwapsMatchStep(c, s, step);
    RunsTrackedStep(c, s, step);
  }

  lemma {:induction false} InvRuns(c: Limits, s: System, steps: seq<Step>, end: System)
    requires Inv(c, s) && Runs(c, s, steps, end)
    ensures Inv(c, end)
    decreases |steps|
  {
    if steps != [] {
      InvStep(c, s, steps[0]);
      InvRuns(c, Apply(c, s, steps[0]), steps[1..], end);
    }
  }

  // ---------------------------------------------------------------------------
  // What the protocol guarantees
  // ---------------------------------------------------------------------------

  /** The runs the workspace executes and whose launch was confirmed. */
  ghost function Confirmed(s: System): map<RunId, Table>
  {
    map id | id in s.running && id !in s.lost :: s.running[id]
  }

  ghost predicate OneRunPerTable(running: map<RunId, Table>)
  {
    forall a, b | a in running && b in running && running[a] == running[b] :: a == b
  }

  lemma ConfirmedOnce(c: Limits, s: System, a: RunId, b: RunId)
    requires Inv(c, s) && a in Confirmed(s) && b in Confirmed(s) && s.running[a] == s.running[b]
    ensures a == b
  {
    var t := s.running[a];
    assert Tracks(s.shared.locks, s.calls, t, a) && Tracks(s.shared.locks, s.calls, t, b);
    if s.shared.locks[t] == Reserved {
      var i :| 0 <= i < |s.calls| && s.calls[i].table == t && s.calls[i].pc.Swapping? && s.calls[i].pc.id == a;
      var j :| 0 <= j < |s.calls| && s.calls[j].table == t && s.calls[j].pc.Swapping? && s.calls[j].pc.id == b;
      assert i == j;
    } else {
      forall i | 0 <= i < |s.calls| && s.calls[i].table == t ensures !s.calls[i].pc.Swapping? {
      }
    }
  }

  lemma {:induction false} RunsFewerThanTables(running: map<RunId, Table>, ids: set<RunId>, tables: set<Table>)
    requires OneRunPerTable(running) && forall id | id in ids :: id in running && running[id] in tables
    ensures |ids| <= |tables|
    decreases ids
  {
    if ids != {} {
      var id :| id in ids;
      RunsFewerThanTables(running, ids - {id}, tables - {running[id]});
    }
  }

  /** What holds in every state of every run. */
  ghost predicate Safe(c: Limits, s: System)
  {
    // At most so many builds, and at most one of each table, are reserved or running.
    && |s.shared.locks| <= c.maxInFlight
    && OneRunPerTable(Confirmed(s)) && |Confirmed(s)| <= |s.shared.locks|
    && (forall id | id in Confirmed(s) :: s.running[id] in s.shared.locks)
    // A placeholder has exactly one owner; a run's entry was put there by its submission.
    && OwnersPlaced(s.shared.locks, s.calls) && EntriesExplained(s.shared.locks, s.calls)
    // The counter, the ceiling and the live charges of the day.
    && s.shared.used <= c.maxPerDay
    && s.shared.used <= |Live(s.calls, s.shared.day)| <= s.shared.used + s.stale
  }

  /** In every interleaving of submissions, polls and runs. */
  lemma AlwaysSafe(c: Limits, today: Day, steps: seq<Step>, s: System)
    requires today > NO_DAY && Runs(c, Initial(today), steps, s)
    ensures Safe(c, s)
  {
    assert Live([], NO_DAY) == {};
    InvRuns(c, Initial(today), steps, s);
    forall a, b | a in Confirmed(s) && b in Confirmed(s) && s.running[a] == s.running[b] ensures a == b {
      ConfirmedOnce(c, s, a, b);
    }
    RunsFewerThanTables(Confirmed(s), Confirmed(s).Keys, s.shared.locks.Keys);
  }

  /** The table's placeholder is still there and nobody else owns it. */
  ghost predicate StaysReserved(s: System, s': System, t: Table)
  {
    && t in s'.shared.locks && s'.shared.locks[t] == Reserved
    && forall i | 0 <= i < |s'.calls| && s'.calls[i].table == t :: Owns(s'.calls[i].pc) <==> i < |s.calls| && Owns(s.calls[i].pc)
  }

  /** A placeholder goes only when its own submission replaces it by its run or drops it, and
      until then it stays that submission's. */
  lemma OnlyOwnersRelease(c: Limits, s: System, step: Step, t: Table)
    requires Placed(c, s) && Enabled(s, step) && t in s.shared.locks && s.shared.locks[t] == Reserved
    ensures ((step.PutRun? || step.Release?) && s.calls[step.i].table == t && Owns(s.calls[step.i].pc))
            || StaysReserved(s, Apply(c, s, step), t)
  {
    assert HasOwner(s.calls, t);
    var s' := Apply(c, s, step);
    if step.TakeSlot? || step.TakeBudget? || step.Post? || step.GiveBack? || step.Release? || step.PutRun? {
      if s.calls[step.i].table != t || (Owns(s.calls[step.i].pc) && Owns(s'.calls[step.i].pc)) {
        MoveStaysReserved(s, s', step.i, s'.calls[step.i].pc, t);
      }
    }
  }

  lemma MoveStaysReserved(s: System, s': System, i: nat, pc: Pc, t: Table)
    requires t in s'.shared.locks && s'.shared.locks[t] == Reserved && i < |s.calls| && s'.calls == Move(s.calls, i, pc)
    requires s.calls[i].table != t || (Owns(s.calls[i].pc) && Owns(pc))
    ensures StaysReserved(s, s', t)
  {
  }

  /** A submission that ended without a run leaves no entry: with nothing pending for the
      table and nothing launched, the table is free. */
  lemma NothingLeftBehind(c: Limits, today: Day, steps: seq<Step>, s: System, t: Table)
    requires today > NO_DAY && Runs(c, Initial(today), steps, s)
    requires forall i | 0 <= i < |s.calls| && s.calls[i].table == t :: s.calls[i].pc == Calling || s.calls[i].pc == GaveUp
    ensures t !in s.shared.locks
  {
    AlwaysSafe(c, today, steps, s);
  }

  /** A refund keeps the counter equal to the live charges exactly when it gives back a
      charge of the counter's own day, or there is nothing to take. */
  lemma RefundBalances(c: Limits, s: System, i: nat)
    requires Balanced(c, s) && s.shared.used == |Live(s.calls, s.shared.day)| && Enabled(s, GiveBack(i))
    ensures var s' := Apply(c, s, GiveBack(i));
            s'.shared.used == |Live(s'.calls, s'.shared.day)| <==> s.calls[i].pc.day == s.shared.day || s.shared.used == 0
  {
    var s' := Apply(c, s, GiveBack(i));
    if s.calls[i].pc.day == s.shared.day {
      LiveLess(s.calls, i, s.shared.day);
    } else {
      LiveKept(s.calls, i, Dropping, s.shared.day);
    }
  }

  /** Between two resets of the counter, `stale` counts one by one the refunds that take a
      charge of another day off it. */
  lemma StaleIsCounted(c: Limits, s: System, step: Step)
    requires Enabled(s, step)
    ensures var s' := Apply(c, s, step);
            s'.stale == if s'.shared.day != s.shared.day then 0
                        else if step.GiveBack? && s'.shared.used < s.shared.used && s.calls[step.i].pc.day != s.shared.day then s.stale + 1
                        else s.stale
  {
  }

  // ---------------------------------------------------------------------------
  // What it does not guarantee
  // ---------------------------------------------------------------------------

  lemma {:induction false} RunsExtend(c: Limits, s: System, steps: seq<Step>, end: System, step: Step)
    requires Runs(c, s, steps, end) && Enabled(end, step)
    ensures Runs(c, s, steps + [step], Apply(c, end, step))
    decreases |steps|
  {
    if steps == [] {
      assert Runs(c, Apply(c, s, step), [], Apply(c, end, step));
      assert ([step])[1..] == [];
    } else {
      RunsExtend(c, Apply(c, s, steps[0]), steps[1..], end, step);
      assert (steps + [step])[1..] == steps[1..] + [step];
    }
  }

  /** The states that some interleaving reaches. */
  ghost predicate Reachable(c: Limits, s: System)
  {
    exists steps, today: Day :: today > NO_DAY && Runs(c, Initial(today), steps, s)
  }

  lemma Extend(c: Limits, s: System, step: Step) returns (s': System)
    requires Reachable(c, s) && Enabled(s, step)
    ensures Reachable(c, s') && s' == Apply(c, s, step)
  {
    var steps, today: Day :| today > NO_DAY && Runs(c, Initial(today), steps, s);
    RunsExtend(c, Initial(today), steps, s, step);
    s' := Apply(c, s, step);
  }

  lemma Begin(c: Limits, today: Day) returns (s: System)
    requires today > NO_DAY
    ensures Reachable(c, s) && s == Initial(today)
  {
    s := Initial(today);
    assert Runs(c, s, [], s);
  }

  lemma ChargedOnce(c: Limits) returns (s: System)
    requires c.maxInFlight > 0 && c.maxPerDay > 0
    ensures Reachable(c, s)
    ensures s == System(Shared(map["a" := Reserved], 1, 0), [Submitter("a", Charged(0))], map[], {}, {}, 0, 0)
  {
    s := Begin(c, 0);
    s := Extend(c, s, Call("a"));
    s := Extend(c, s, TakeSlot(0));
    s := Extend(c, s, TakeBudget(0));
  }

  // A refund of yesterday's charge lets one build too many through.

  /** A submission of yesterday still holds its charge, and `k` builds have been launched
      and finished today. */
  ghost predicate Spent(s: System, k: nat)
  {
    && s.shared == Shared(map["a" := Reserved], if k == 0 then 1 else k, if k == 0 then 0 else 1)
    && s.today == 1 && s.running == map[] && (forall id | id in s.issued :: |id| < k)
    && |s.calls| == k + 1 && s.calls[0] == Submitter("a", Charged(0))
    && forall i | 1 <= i <= k :: s.calls[i].pc.Ended? && s.calls[i].pc.day == 1
  }

  /** One more build is charged. */
  lemma ChargeOne(c: Limits, s: System, k: nat) returns (s': System)
    requires c.maxInFlight >= 2 && k < c.maxPerDay && Reachable(c, s) && Spent(s, k)
    ensures Reachable(c, s')
    ensures s' == s.(shared := Shared(map["a" := Reserved, "b" := Reserved], k + 1, 1),
                     calls := s.calls + [Submitter("b", Charged(1))], stale := s'.stale)
  {
    s' := Extend(c, s, Call("b"));
    s' := Extend(c, s', TakeSlot(k + 1));
    s' := Extend(c, s', TakeBudget(k + 1));
  }

  /** And launched. */
  lemma LaunchOne(c: Limits, s: System, k: nat) returns (s': System)
    requires c.maxInFlight >= 2 && k < c.maxPerDay && Reachable(c, s) && Spent(s, k)
    ensures Reachable(c, s')
    ensures s' == s.(shared := Shared(map["a" := Reserved, "b" := Run(Name(k))], k + 1, 1), running := map[Name(k) := "b"],
                     issued := s.issued + {Name(k)}, calls := s.calls + [Submitter("b", Ended(1, Name(k)))], stale := s'.stale)
  {
    assert |Name(k)| == k;
    s' := ChargeOne(c, s, k);
    s' := Extend(c, s', Post(k + 1, Started(Name(k))));
    s' := Extend(c, s', PutRun(k + 1));
  }

  lemma {:induction false} SpendMany(c: Limits, k: nat) returns (s: System)
    requires c.maxInFlight >= 2 && k <= c.maxPerDay && c.maxPerDay > 0
    ensures Reachable(c, s) && Spent(s, k)
  {
    if k == 0 {
      s := ChargedOnce(c);
      s := Extend(c, s, Midnight(1));
    } else {
      s := SpendMany(c, k - 1);
      s := LaunchOne(c, s, k - 1);
      var id := Name(k - 1);
      assert |id| == k - 1;
      s := Extend(c, s, Finish(id));
      s := Extend(c, s, Poll(id));
      assert s.running == map[] && s.shared.locks == map["a" := Reserved];
    }
  }

  function UpTo(n: nat): (numbers: set<int>)
    ensures |numbers| == n && forall i :: i in numbers <==> 1 <= i <= n
  {
    if n == 0 then {} else UpTo(n - 1) + {n}
  }

  /** Yesterday's charge is refunded when the budget of today is spent. */
  lemma RefundStale(c: Limits) returns (s: System)
    requires c.maxInFlight >= 2 && c.maxPerDay > 0
    ensures Reachable(c, s) && s.shared == Shared(map["a" := Reserved], c.maxPerDay - 1, 1) && s.today == 1
    ensures |s.calls| == c.maxPerDay + 1 && s.calls[0].pc == Dropping
    ensures forall i | 1 <= i <= c.maxPerDay :: s.calls[i].pc.Ended? && s.calls[i].pc.day == 1
  {
    s := SpendMany(c, c.maxPerDay);
    s := Extend(c, s, Post(0, Refused));
    s := Extend(c, s, GiveBack(0));
  }

  lemma LiveMany(calls: seq<Submitter>, n: nat)
    requires |calls| == n + 1 && !LiveOn(calls[0].pc, 1) && forall i | 1 <= i <= n :: LiveOn(calls[i].pc, 1)
    ensures |Live(calls, 1)| == n
  {
    assert Live(calls, 1) == UpTo(n);
  }

  /** And one more submission is charged. */
  lemma ChargeOver(c: Limits) returns (s: System)
    requires c.maxInFlight >= 2 && c.maxPerDay > 0
    ensures Reachable(c, s) && s.shared.day == 1 && |s.calls| == c.maxPerDay + 2
    ensures s.calls[0].pc == Dropping && forall i | 1 <= i <= c.maxPerDay + 1 :: LiveOn(s.calls[i].pc, 1)
  {
    s := RefundStale(c);
    s := Extend(c, s, Call("b"));
    s := Extend(c, s, TakeSlot(c.maxPerDay + 1));
    s := Extend(c, s, TakeBudget(c.maxPerDay + 1));
  }

  lemma StaleRefundOverspends(c: Limits) returns (s: System)
    requires c.maxInFlight >= 2 && c.maxPerDay > 0
    ensures Reachable(c, s) && |Live(s.calls, s.shared.day)| == c.maxPerDay + 1
  {
    s := ChargeOver(c);
    LiveMany(s.calls, c.maxPerDay + 1);
  }

  /** Every charge that is not yet settled is of the counter's own day. */
  ghost predicate Fresh(s: System)
  {
    s.stale == 0 && forall i | 0 <= i < |s.calls| && (s.calls[i].pc.Charged? || s.calls[i].pc.Refunding?) :: s.calls[i].pc.day == s.shared.day
  }

  lemma TwoEntries(locks: map<Table, Slot>, a: Table, b: Table)
    requires a in locks && b in locks && a != b
    ensures |locks| >= 2
  {
    FewerLocks(locks, map[a := Reserved, b := Reserved]);
    assert |map[a := Reserved, b := Reserved].Keys| == 2;
  }

  /** Two submissions cannot both own a placeholder when one build is allowed. */
  lemma LoneOwner(c: Limits, s: System, i: nat, j: nat)
    requires Placed(c, s) && c.maxInFlight <= 1 && i < |s.calls| && j < |s.calls| && Owns(s.calls[i].pc) && Owns(s.calls[j].pc)
    ensures i == j
  {
    if s.calls[i].table != s.calls[j].table {
      TwoEntries(s.shared.locks, s.calls[i].table, s.calls[j].table);
    }
  }

  lemma OwnersNeedRoom(c: Limits, s: System, i: nat)
    requires Placed(c, s) && i < |s.calls| && Owns(s.calls[i].pc)
    ensures c.maxInFlight >= 1
  {
    FewerLocks(s.shared.locks, map[s.calls[i].table := Reserved]);
  }

  lemma FreshStep(c: Limits, s: System, step: Step)
    requires Inv(c, s) && c.maxInFlight <= 1 && Fresh(s) && Enabled(s, step)
    ensures Fresh(Apply(c, s, step))
  {
    if step.TakeBudget? {
      forall j | 0 <= j < |s.calls| && (s.calls[j].pc.Charged? || s.calls[j].pc.Refunding?) ensures false {
        LoneOwner(c, s, step.i, j);
      }
    }
  }

  /** With no budget, or no room for a single build, nothing is ever charged. */
  ghost predicate Barren(s: System)
  {
    s.running == map[] && forall i | 0 <= i < |s.calls| :: s.calls[i].pc in {Calling, Holding, Dropping, GaveUp}
  }

  lemma BarrenStep(c: Limits, s: System, step: Step)
    requires Inv(c, s) && (c.maxInFlight == 0 || c.maxPerDay == 0) && Barren(s) && Enabled(s, step)
    ensures Barren(Apply(c, s, step))
  {
    if step.TakeBudget? {
      OwnersNeedRoom(c, s, step.i);
    }
  }

  lemma {:induction false} FreshRuns(c: Limits, s: System, steps: seq<Step>, end: System)
    requires Inv(c, s) && c.maxInFlight <= 1 && Fresh(s) && Runs(c, s, steps, end)
    ensures Fresh(end)
    decreases |steps|
  {
    if steps != [] {
      InvStep(c, s, steps[0]);
      FreshStep(c, s, steps[0]);
      FreshRuns(c, Apply(c, s, steps[0]), steps[1..], end);
    }
  }

  lemma {:induction false} BarrenRuns(c: Limits, s: System, steps: seq<Step>, end: System)
    requires Inv(c, s) && (c.maxInFlight == 0 || c.maxPerDay == 0) && Barren(s) && Runs(c, s, steps, end)
    ensures Barren(end)
    decreases |steps|
  {
    if steps != [] {
      InvStep(c, s, steps[0]);
      BarrenStep(c, s, steps[0]);
      BarrenRuns(c, Apply(c, s, steps[0]), steps[1..], end);
    }
  }

  lemma InitialInv(c: Limits, today: Day)
    requires today > NO_DAY
    ensures Inv(c, Initial(today)) && Fresh(Initial(today)) && Barren(Initial(today))
  {
    assert Live([], NO_DAY) == {};
  }

  /** No more charges of the counter's day are live than the ceiling allows. */
  ghost predicate WithinBudget(c: Limits)
  {
    forall s | Reachable(c, s) :: |Live(s.calls, s.shared.day)| <= c.maxPerDay
  }

  /** The daily ceiling binds the live charges of the day if and only if at most one build
      is in flight at a time, or nothing may be charged at all. */
  lemma BudgetBindsIff(c: Limits)
    ensures WithinBudget(c) <==> c.maxInFlight <= 1 || c.maxPerDay == 0
  {
    if c.maxInFlight <= 1 || c.maxPerDay == 0 {
      forall s | Reachable(c, s) ensures |Live(s.calls, s.shared.day)| <= c.maxPerDay {
        var steps, today: Day :| today > NO_DAY && Runs(c, Initial(today), steps, s);
        InitialInv(c, today);
        InvRuns(c, Initial(today), steps, s);
        if c.maxPerDay == 0 {
          BarrenRuns(c, Initial(today), steps, s);
          assert Live(s.calls, s.shared.day) == {};
        } else {
          FreshRuns(c, Initial(today), steps, s);
        }
      }
    } else {
      var s := StaleRefundOverspends(c);
    }
  }

  // A lost reply lets one table be built twice at once.

  lemma ReplyLostOnce(c: Limits) returns (s: System)
    requires c.maxInFlight > 0 && c.maxPerDay > 0
    ensures Reachable(c, s)
    ensures s == System(Shared(map[], 0, 0), [Submitter("a", GaveUp)], map["7" := "a"], {"7"}, {"7"}, 0, 0)
  {
    s := ChargedOnce(c);
    s := Extend(c, s, Post(0, ReplyLost("7")));
    s := Extend(c, s, GiveBack(0));
    s := Extend(c, s, Release(0));
  }

  /** A run whose reply was lost keeps running after its reservation is dropped, and the
      same table can be built again beside it. */
  lemma LostReplyRunsTwice(c: Limits) returns (s: System)
    requires c.maxInFlight > 0 && c.maxPerDay > 0
    ensures Reachable(c, s) && "7" in s.running && "8" in s.running && s.running["7"] == s.running["8"]
  {
    s := ReplyLostOnce(c);
    s := Extend(c, s, Call("a"));
    s := Extend(c, s, TakeSlot(1));
    s := Extend(c, s, TakeBudget(1));
    s := Extend(c, s, Post(1, Started("8")));
  }

  /** No table is built twice at once, by a workspace whose replies may (`lossy`) or may not
      get lost. */
  ghost predicate BuiltOnce(c: Limits, lossy: bool)
  {
    forall s | Reachable(c, s) && (lossy || s.lost == {}) :: OneRunPerTable(s.running)
  }

  /** Every reachable state has one run per table if and only if no reply is lost, or no
      build is ever allowed. */
  lemma BuiltOnceIff(c: Limits, lossy: bool)
    ensures BuiltOnce(c, lossy) <==> !lossy || c.maxInFlight == 0 || c.maxPerDay == 0
  {
    if !lossy || c.maxInFlight == 0 || c.maxPerDay == 0 {
      forall s | Reachable(c, s) && (lossy || s.lost == {}) ensures OneRunPerTable(s.running) {
        var steps, today: Day :| today > NO_DAY && Runs(c, Initial(today), steps, s);
        if s.lost == {} {
          AlwaysSafe(c, today, steps, s);
          assert Confirmed(s) == s.running;
        } else {
          InitialInv(c, today);
          BarrenRuns(c, Initial(today), steps, s);
        }
      }
    } else {
      var s := LostReplyRunsTwice(c);
      assert !OneRunPerTable(s.running);
    }
  }
}
