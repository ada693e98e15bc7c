/**
 The circuit breaker in front of the warehouse (backend/circuit_breaker.py). The class
 updates its three fields in place; the functions below it read the same state off the
 history of calls, and the two are proved to agree over every history.
 */
module Breaker {
  import opened Sequences

  type Time = real

  datatype Mode = Closed | Open | HalfOpen

  datatype Config = Config(threshold: int, recovery: Time)

  datatype State = State(mode: Mode, failures: nat, lastFailure: Time)

  /** A call on the breaker, with the clock it read. */
  datatype Event = Check(now: Time) | Success | Failure(now: Time) | Reset

  function Initial(): State
  {
    State(Closed, 0, 0.0)
  }

  /** Reading the state may itself move OPEN on to HALF_OPEN. */
  function Observe(c: Config, s: State, now: Time): State
  {
    if s.mode == Open && now - s.lastFailure >= c.recovery then s.(mode := HalfOpen) else s
  }

  function Step(c: Config, s: State, e: Event): State
  {
    match e
    case Check(now) => Observe(c, s, now)
    case Success => State(Closed, 0, s.lastFailure)
    case Failure(now) => State(if s.failures + 1 >= c.threshold then Open else s.mode, s.failures + 1, now)
    case Reset => State(Closed, 0, s.lastFailure)
  }

  class CircuitBreaker {
    const config: Config
    var mode: Mode
    var failureCount: nat
    var lastFailureTime: Time

    constructor (config: Config)
      ensures this.config == config && Current() == Initial()
    {
      this.config := config;
      mode, failureCount, lastFailureTime := Closed, 0, 0.0;
    }

    ghost function Current(): State
      reads this
    {
      State(mode, failureCount, lastFailureTime)
    }

    method ReadState(now: Time) returns (m: Mode)
      modifies `mode
      ensures Current() == Observe(config, old(Current()), now) && m == mode
    {
      if mode == Open && now - lastFailureTime >= config.recovery {
        mode := HalfOpen;
      }
      m := mode;
    }

    /** `check`: the caller is turned away only by OPEN. */
    method Check(now: Time) returns (admitted: bool)
      modifies `mode
      ensures Current() == Step(config, old(Current()), Event.Check(now)) && (admitted <==> mode != Open)
    {
      var current := ReadState(now);
      admitted := current != Open;
    }

    method RecordSuccess()
      modifies `mode, `failureCount
      ensures Current() == Step(config, old(Current()), Success)
    {
      failureCount := 0;
      mode := Closed;
    }

    method RecordFailure(now: Time)
      modifies this
      ensures Current() == Step(config, old(Current()), Failure(now))
    {
      failureCount := failureCount + 1;
      lastFailureTime := now;
      if failureCount >= config.threshold {
        mode := Open;
      }
    }

    method ResetBreaker()
      modifies `mode, `failureCount
      ensures Current() == Step(config, old(Current()), Reset)
    {
      failureCount := 0;
      mode := Closed;
    }
  }

  // ---------------------------------------------------------------------------
  // The state as a function of the history
  // ---------------------------------------------------------------------------

  function After(c: Config, history: seq<Event>): State
  {
    if history == [] then Initial() else Step(c, After(c, Init(history)), Last(history))
  }

  predicate Closes(e: Event)
  {
    e == Success || e == Reset
  }

  /** The failures since the last success or reset. */
  function Streak(history: seq<Event>): nat
  {
    if history == [] || Closes(Last(history)) then 0
    else Streak(Init(history)) + if Last(history).Failure? then 1 else 0
  }

  /** `i` is the latest failure of the history. */
  ghost predicate LatestFailure(history: seq<Event>, i: int)
  {
    0 <= i < |history| && history[i].Failure? && forall j | i < j < |history| :: !history[j].Failure?
  }

  /** Somebody asked once the recovery time had passed since the latest failure. */
  ghost predicate Probed(c: Config, history: seq<Event>)
  {
    exists i, j :: LatestFailure(history, i) && i < j < |history| && history[j].Check? && history[j].now - history[i].now >= c.recovery
  }

  /** What the breaker should be, in terms of what it was told. */
  ghost function Expected(c: Config, history: seq<Event>): Mode
  {
    if Streak(history) < c.threshold then Closed else if Probed(c, history) then HalfOpen else Open
  }

  lemma LatestFailureKept(history: seq<Event>, i: int)
    requires history != [] && !Last(history).Failure?
    ensures LatestFailure(history, i) <==> LatestFailure(Init(history), i)
  {
    if LatestFailure(Init(history), i) {
      assert Init(history)[i] == history[i];
      forall j | i < j < |history| ensures !history[j].Failure? {
        if j < |history| - 1 {
          assert history[j] == Init(history)[j];
        }
      }
    }
    if LatestFailure(history, i) {
      assert i != |history| - 1;
    }
  }

  lemma {:induction false} FailureTimeAfter(c: Config, history: seq<Event>)
    ensures After(c, history).failures == Streak(history)
    ensures Streak(history) > 0 ==> exists i :: LatestFailure(history, i)
    ensures forall i | LatestFailure(history, i) :: After(c, history).lastFailure == history[i].now
  {
    if history != [] {
      FailureTimeAfter(c, Init(history));
      if Last(history).Failure? {
        assert LatestFailure(history, |history| - 1);
      } else if i :| LatestFailure(Init(history), i) {
        LatestFailureKept(history, i);
      }
      forall i | LatestFailure(history, i) ensures After(c, history).lastFailure == history[i].now {
        if Last(history).Failure? {
          assert i == |history| - 1;
        } else {
          LatestFailureKept(history, i);
          assert history[i] == Init(history)[i];
        }
      }
    }
  }

  lemma ProbedByCheck(c: Config, history: seq<Event>, i: int)
    requires history != [] && Last(history).Check? && LatestFailure(history, i)
    ensures Probed(c, history) <==> Probed(c, Init(history)) || Last(history).now - history[i].now >= c.recovery
  {
    LatestFailureKept(history, i);
    var before := Init(history);
    if Probed(c, before) {
      var k, j :| LatestFailure(before, k) && k < j < |before| && before[j].Check? && before[j].now - before[k].now >= c.recovery;
      LatestFailureKept(history, k);
      assert history[j] == before[j] && history[k] == before[k];
    }
    if Probed(c, history) {
      var k, j :| LatestFailure(history, k) && k < j < |history| && history[j].Check? && history[j].now - history[k].now >= c.recovery;
      assert k == i;
      if j < |history| - 1 {
        assert before[j] == history[j] && before[i] == history[i];
      }
    }
  }

  lemma FailureUnprobes(c: Config, history: seq<Event>)
    requires history != [] && Last(history).Failure?
    ensures !Probed(c, history)
  {
    forall i | LatestFailure(history, i) ensures i == |history| - 1 {
    }
  }

  /** Over every history, and whatever the clock does, the breaker is CLOSED exactly while
      the streak is below the threshold, and otherwise HALF_OPEN exactly when it has been
      asked after the recovery time. */
  lemma {:induction false} BreakerIsExpected(c: Config, history: seq<Event>)
    requires c.threshold >= 1
    ensures After(c, history).mode == Expected(c, history)
  {
    if history != [] {
      BreakerIsExpected(c, Init(history));
      FailureTimeAfter(c, Init(history));
      FailureTimeAfter(c, history);
      if Last(history).Failure? {
        FailureUnprobes(c, history);
      } else if Last(history).Check? && Streak(history) > 0 {
        var i :| LatestFailure(history, i);
        LatestFailureKept(history, i);
        ProbedByCheck(c, history, i);
      }
    }
  }

  /** CLOSED exactly below the threshold holds from the start if and only if the threshold
      is at least one. */
  lemma ClosedBelowThreshold(c: Config)
    ensures c.threshold >= 1 <==>
            forall history :: After(c, history).mode == Closed <==> After(c, history).failures < c.threshold
  {
    if c.threshold >= 1 {
      forall history ensures After(c, history).mode == Closed <==> After(c, history).failures < c.threshold {
        BreakerIsExpected(c, history);
        FailureTimeAfter(c, history);
      }
    } else {
      assert After(c, []) == Initial();
    }
  }

  /** A caller is turned away exactly while the streak is at the threshold and nobody, this
      caller included, has asked after the recovery time since the latest failure. */
  lemma RejectedExactly(c: Config, history: seq<Event>, now: Time)
    requires c.threshold >= 1
    ensures After(c, history + [Check(now)]).mode == Open <==>
              Streak(history) >= c.threshold && !Probed(c, history + [Check(now)])
  {
    assert Init(history + [Check(now)]) == history;
    BreakerIsExpected(c, history + [Check(now)]);
  }

  /** HALF_OPEN lets every caller through, however many ask, until an outcome is recorded;
      the first failure recorded then opens the breaker again. */
  lemma {:induction false} HalfOpenAdmitsAll(c: Config, history: seq<Event>, asks: seq<Event>, now: Time)
    requires c.threshold >= 1 && After(c, history).mode == HalfOpen
    requires forall k | 0 <= k < |asks| :: asks[k].Check?
    ensures After(c, history + asks).mode == HalfOpen
    ensures After(c, history + asks + [Failure(now)]).mode == Open
    decreases |asks|
  {
    var all := history + asks;
    if asks == [] {
      assert all == history;
    } else {
      assert Init(all) == history + Init(asks) && Last(all) == Last(asks);
      HalfOpenAdmitsAll(c, history, Init(asks), now);
    }
    assert Init(all + [Failure(now)]) == all;
    BreakerIsExpected(c, all);
    FailureTimeAfter(c, all);
  }
}
