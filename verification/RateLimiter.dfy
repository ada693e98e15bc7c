/**
 The sliding-window rate limiter (backend/main.py, `RateLimitMiddleware`). The class keeps
 an ordered dictionary of request times per user; the lemmas speak of whole runs of
 requests and of the times a user was really admitted at.
 */
module RateLimiter {
  import opened Sequences

  type Key = string
  type Time = real

  const MAX_TRACKED_USERS := 10_000

  datatype Config = Config(maxRequests: int, window: Time, maxTracked: nat)

  /** An ordered dictionary, oldest first. */
  datatype State = State(order: seq<Key>, entries: map<Key, seq<Time>>)

  datatype Request = Request(user: Key, now: Time)

  /** The entries still inside the window. */
  function Recent(c: Config, times: seq<Time>, now: Time): seq<Time>
  {
    if times == [] then []
    else Recent(c, times[..|times| - 1], now) + if now - times[|times| - 1] < c.window then [times[|times| - 1]] else []
  }

  predicate EvictsOldest(c: Config, s: State)
  {
    |s.order| > c.maxTracked
  }

  function Evict(c: Config, s: State): State
  {
    if EvictsOldest(c, s) then State(s.order[1..], s.entries - {s.order[0]}) else s
  }

  function Known(s: State, user: Key): seq<Time>
  {
    if user in s.entries then s.entries[user] else []
  }

  function Put(s: State, user: Key, times: seq<Time>): State
  {
    State(if user in s.entries then s.order else s.order + [user], s.entries[user := times])
  }

  function ToEnd(s: State, user: Key): State
  {
    s.(order := Without(s.order, user) + [user])
  }

  function Admits(c: Config, s: State, r: Request): bool
  {
    |Recent(c, Known(Evict(c, s), r.user), r.now)| < c.maxRequests
  }

  function Step(c: Config, s: State, r: Request): State
  {
    var kept := Evict(c, s);
    var recent := Recent(c, Known(kept, r.user), r.now);
    if |recent| < c.maxRequests then ToEnd(Put(kept, r.user, recent + [r.now]), r.user) else Put(kept, r.user, recent)
  }

  class RateLimitMiddleware {
    const config: Config
    var order: seq<Key>
    var requests: map<Key, seq<Time>>

    constructor (maxRequests: int, window: Time)
      ensures config == Config(maxRequests, window, MAX_TRACKED_USERS) && Current() == State([], map[])
    {
      config := Config(maxRequests, window, MAX_TRACKED_USERS);
      order, requests := [], map[];
    }

    ghost function Current(): State
      reads this
    {
      State(order, requests)
    }

    method Prune(times: seq<Time>, now: Time) returns (entries: seq<Time>)
      ensures entries == Recent(config, times, now)
    {
      entries := [];
      for i := 0 to |times|
        invariant entries == Recent(config, times[..i], now)
      {
        assert times[..i + 1][..i] == times[..i];
        if now - times[i] < config.window {
          entries := entries + [times[i]];
        }
      }
      assert times[..|times|] == times;
    }

    /** The critical section of `dispatch`. */
    method Dispatch(user: Key, now: Time) returns (admitted: bool)
      modifies this
      ensures Current() == Step(config, old(Current()), Request(user, now))
      ensures admitted == Admits(config, old(Current()), Request(user, now))
    {
      if |order| > config.maxTracked {
        order, requests := order[1..], requests - {order[0]};
      }
      var entries := Prune(if user in requests then requests[user] else [], now);
      admitted := |entries| < config.maxRequests;
      if admitted {
        entries := entries + [now];
      }
      if user !in requests {
        order := order + [user];
      }
      requests := requests[user := entries];
      if admitted {
        order := Without(order, user) + [user];
      }
    }
  }

  // ---------------------------------------------------------------------------
  // Runs
  // ---------------------------------------------------------------------------

  function After(c: Config, run: seq<Request>): State
  {
    if run == [] then State([], map[]) else Step(c, After(c, Init(run)), Last(run))
  }

  /** The last request of the run pushed the user's history out. */
  predicate Forgotten(c: Config, run: seq<Request>, user: Key)
    requires run != []
  {
    var s := After(c, Init(run));
    EvictsOldest(c, s) && s.order[0] == user
  }

  /** The times at which the user was admitted since its history was last pushed out. */
  function Log(c: Config, run: seq<Request>, user: Key): seq<Time>
    decreases |run|, 1
  {
    if run == [] then [] else Kept(c, run, user) + Gain(c, After(c, Init(run)), Last(run), user)
  }

  /** What the last request of the run leaves of the log before it. */
  function Kept(c: Config, run: seq<Request>, user: Key): seq<Time>
    requires run != []
    decreases |run|, 0
  {
    if Forgotten(c, run, user) then [] else Log(c, Init(run), user)
  }

  /** What one request adds to the user's admissions. */
  function Gain(c: Config, s: State, r: Request, user: Key): seq<Time>
  {
    if r.user == user && Admits(c, s, r) then [r.now] else []
  }

  /** All times at which the user was admitted. */
  function Admissions(c: Config, run: seq<Request>, user: Key): seq<Time>
  {
    if run == [] then [] else Admissions(c, Init(run), user) + Gain(c, After(c, Init(run)), Last(run), user)
  }

  ghost predicate ClockMonotone(run: seq<Request>)
  {
    forall i, j | 0 <= i < j < |run| :: run[i].now <= run[j].now
  }

  // ---------------------------------------------------------------------------
  // The dictionary stays small
  // ---------------------------------------------------------------------------

  ghost predicate ValidState(c: Config, s: State)
  {
    Lists(s.order, s.entries.Keys) && |s.order| <= c.maxTracked + 1
  }

  lemma EvictKeepsValid(c: Config, s: State)
    requires ValidState(c, s)
    ensures ValidState(c, Evict(c, s)) && |Evict(c, s).order| <= c.maxTracked
  {
    if EvictsOldest(c, s) {
      assert s.order == [s.order[0]] + s.order[1..];
      assert (s.entries - {s.order[0]}).Keys == s.entries.Keys - {s.order[0]};
    }
  }

  lemma PutKeepsValid(c: Config, s: State, user: Key, times: seq<Time>)
    requires ValidState(c, s) && |s.order| <= c.maxTracked
    ensures ValidState(c, Put(s, user, times))
  {
    if user !in s.entries {
      ListsAdd(s.order, s.entries.Keys, user);
    }
    assert s.entries[user := times].Keys == s.entries.Keys + {user};
  }

  lemma ToEndKeepsValid(c: Config, s: State, user: Key)
    requires ValidState(c, s) && user in s.entries
    ensures ValidState(c, ToEnd(s, user))
  {
    WithoutMember(s.order, user);
    ListsAdd(Without(s.order, user), s.entries.Keys - {user}, user);
    assert s.entries.Keys - {user} + {user} == s.entries.Keys;
  }

  lemma StepKeepsValid(c: Config, s: State, r: Request)
    requires ValidState(c, s)
    ensures ValidState(c, Step(c, s, r))
  {
    var kept := Evict(c, s);
    EvictKeepsValid(c, s);
    var recent := Recent(c, Known(kept, r.user), r.now);
    PutKeepsValid(c, kept, r.user, recent);
    PutKeepsValid(c, kept, r.user, recent + [r.now]);
    ToEndKeepsValid(c, Put(kept, r.user, recent + [r.now]), r.user);
  }

  /** At most one user more than the bound is ever tracked. */
  lemma {:induction false} TrackedUsersBounded(c: Config, run: seq<Request>)
    ensures ValidState(c, After(c, run))
  {
    if run != [] {
      TrackedUsersBounded(c, Init(run));
      StepKeepsValid(c, After(c, Init(run)), Last(run));
    }
  }

  // ---------------------------------------------------------------------------
  // The dictionary is in the order of last admission
  // ---------------------------------------------------------------------------

  /** The last request of the run was one of the user's, and was admitted. */
  predicate JustAdmitted(c: Config, run: seq<Request>, user: Key)
    requires run != []
  {
    Last(run).user == user && Admits(c, After(c, Init(run)), Last(run))
  }

  /** The position in the run of the user's last admitted request, or -1. */
  function LastAdmitted(c: Config, run: seq<Request>, user: Key): (k: int)
    ensures -1 <= k < |run|
  {
    if run == [] then -1 else if JustAdmitted(c, run, user) then |run| - 1 else LastAdmitted(c, Init(run), user)
  }

  /** The users stand in the order in which they were last admitted. */
  ghost predicate ByAdmission(c: Config, run: seq<Request>, order: seq<Key>)
  {
    && (forall i | 0 <= i < |order| :: LastAdmitted(c, run, order[i]) >= 0)
    && (forall i, j | 0 <= i < j < |order| :: LastAdmitted(c, run, order[i]) < LastAdmitted(c, run, order[j]))
  }

  lemma {:induction false} WithoutKeepsOrder(c: Config, run: seq<Request>, order: seq<Key>, user: Key)
    requires ByAdmission(c, run, order)
    ensures ByAdmission(c, run, Without(order, user)) && user !in Without(order, user)
    ensures forall u :: u in Without(order, user) ==> u in order
  {
    if order != [] {
      var rest := order[1..];
      assert forall i | 0 <= i < |rest| :: rest[i] == order[i + 1];
      WithoutKeepsOrder(c, run, rest, user);
      if order[0] != user {
        forall j | 0 <= j < |Without(rest, user)|
          ensures LastAdmitted(c, run, order[0]) < LastAdmitted(c, run, Without(rest, user)[j])
        {
          assert Without(rest, user)[j] in Without(rest, user);
          var k :| 0 <= k < |rest| && rest[k] == Without(rest, user)[j];
          assert order[k + 1] == rest[k];
        }
      }
    }
  }

  lemma EvictKeepsOrder(c: Config, run: seq<Request>, s: State)
    requires ByAdmission(c, run, s.order)
    ensures ByAdmission(c, run, Evict(c, s).order)
  {
    if EvictsOldest(c, s) {
      assert forall i | 0 <= i < |s.order| - 1 :: Evict(c, s).order[i] == s.order[i + 1];
    }
  }

  /** A request that is not admitted, or another user's, leaves the last admission as it was. */
  lemma OrderLater(c: Config, run: seq<Request>, order: seq<Key>)
    requires run != [] && ByAdmission(c, Init(run), order) && forall u | u in order :: !JustAdmitted(c, run, u)
    ensures ByAdmission(c, run, order)
  {
    forall i | 0 <= i < |order| ensures LastAdmitted(c, run, order[i]) == LastAdmitted(c, Init(run), order[i]) {
      assert order[i] in order;
    }
  }

  /** The user just admitted comes last. */
  lemma OrderAppend(c: Config, run: seq<Request>, order: seq<Key>, user: Key)
    requires run != [] && ByAdmission(c, Init(run), order) && user !in order && JustAdmitted(c, run, user)
    ensures ByAdmission(c, run, order + [user])
  {
    OrderLater(c, run, order);
    forall i | 0 <= i < |order| ensures LastAdmitted(c, run, order[i]) < |run| - 1 {
      assert order[i] in order && LastAdmitted(c, run, order[i]) == LastAdmitted(c, Init(run), order[i]);
    }
  }

  /** A user who is not tracked is admitted. */
  lemma UnknownAdmitted(c: Config, s: State, r: Request)
    requires c.maxRequests >= 1 && r.user !in Evict(c, s).entries
    ensures Admits(c, s, r)
  {
  }

  lemma StepOrder(c: Config, run: seq<Request>)
    requires c.maxRequests >= 1 && run != [] && ValidState(c, After(c, Init(run))) && ByAdmission(c, Init(run), After(c, Init(run)).order)
    ensures ByAdmission(c, run, After(c, run).order)
  {
    var s, r := After(c, Init(run)), Last(run);
    var kept := Evict(c, s);
    EvictKeepsValid(c, s);
    EvictKeepsOrder(c, Init(run), s);
    if Admits(c, s, r) {
      WithoutKeepsOrder(c, Init(run), kept.order, r.user);
      if r.user !in kept.entries {
        WithoutLast(kept.order, r.user);
        OrderAppend(c, run, kept.order, r.user);
      } else {
        OrderAppend(c, run, Without(kept.order, r.user), r.user);
      }
    } else {
      OrderLater(c, run, kept.order);
    }
  }

  /** After every run the dictionary lists the tracked users in the order of their last
      admitted requests. */
  lemma {:induction false} OrderedByAdmission(c: Config, run: seq<Request>)
    requires c.maxRequests >= 1
    ensures ByAdmission(c, run, After(c, run).order)
  {
    if run != [] {
      OrderedByAdmission(c, Init(run));
      TrackedUsersBounded(c, Init(run));
      StepOrder(c, run);
    }
  }

  /** So the user who is pushed out is the one whose last admission is the longest ago. */
  lemma PushedOutIsOldest(c: Config, run: seq<Request>, user: Key)
    requires c.maxRequests >= 1 && run != []
    ensures Forgotten(c, run, user) <==>
              var s := After(c, Init(run));
              && EvictsOldest(c, s) && user in s.entries
              && forall u | u in s.entries && u != user :: LastAdmitted(c, Init(run), user) < LastAdmitted(c, Init(run), u)
  {
    var s := After(c, Init(run));
    OrderedByAdmission(c, Init(run));
    TrackedUsersBounded(c, Init(run));
    if EvictsOldest(c, s) {
      var oldest := s.order[0];
      assert oldest in s.order;
      forall u | u in s.entries && u != oldest ensures LastAdmitted(c, Init(run), oldest) < LastAdmitted(c, Init(run), u) {
        var j :| 0 <= j < |s.order| && s.order[j] == u;
      }
    }
  }

  // ---------------------------------------------------------------------------
  // The entries stand for the admissions
  // ---------------------------------------------------------------------------

  lemma {:induction false} RecentLater(c: Config, times: seq<Time>, now: Time, later: Time)
    requires now <= later
    ensures Recent(c, Recent(c, times, now), later) == Recent(c, times, later)
  {
    if times != [] {
      var init, last := times[..|times| - 1], times[|times| - 1];
      RecentLater(c, init, now, later);
      if now - last < c.window {
        RecentAppend(c, Recent(c, init, now), last, later);
      } else {
        assert Recent(c, times, now) == Recent(c, init, now);
      }
    }
  }

  lemma RecentAppend(c: Config, times: seq<Time>, t: Time, now: Time)
    ensures Recent(c, times + [t], now) == Recent(c, times, now) + if now - t < c.window then [t] else []
  {
    assert (times + [t])[..|times|] == times;
  }

  /** From `since` on, the entries and the log have the same recent part. */
  ghost predicate SameRecent(c: Config, entries: seq<Time>, log: seq<Time>, since: Time)
  {
    forall now: Time | now >= since :: Recent(c, entries, now) == Recent(c, log, now)
  }

  lemma SameRecentLater(c: Config, entries: seq<Time>, log: seq<Time>, since: Time, now: Time, more: seq<Time>)
    requires SameRecent(c, entries, log, since) && since <= now && (more == [] || more == [now])
    ensures SameRecent(c, Recent(c, entries, now) + more, log + more, now)
  {
    var pruned := Recent(c, entries, now);
    forall later: Time | later >= now ensures Recent(c, pruned + more, later) == Recent(c, log + more, later) {
      RecentLater(c, entries, now, later);
      if more == [] {
        assert pruned + more == pruned && log + more == log;
      } else {
        RecentAppend(c, pruned, now, later);
        RecentAppend(c, log, now, later);
      }
    }
  }

  /** What the dictionary knows of the user is its log, as far as the window reaches. */
  ghost predicate Faithful(c: Config, run: seq<Request>, user: Key, since: Time)
  {
    SameRecent(c, Known(After(c, run), user), Log(c, run, user), since)
  }

  ghost predicate NotAfter(run: seq<Request>, since: Time)
  {
    forall i | 0 <= i < |run| :: run[i].now <= since
  }

  /** What the step knows of the user before it prunes. */
  lemma EvictFaithful(c: Config, run: seq<Request>, user: Key, since: Time)
    requires run != [] && ValidState(c, After(c, Init(run))) && Faithful(c, Init(run), user, since)
    ensures SameRecent(c, Known(Evict(c, After(c, Init(run))), user), Kept(c, run, user), since)
  {
    var s := After(c, Init(run));
    if EvictsOldest(c, s) {
      if s.order[0] == user {
        assert user !in Evict(c, s).entries;
      } else {
        assert Known(Evict(c, s), user) == Known(s, user);
      }
    }
  }

  lemma StepFaithful(c: Config, run: seq<Request>, user: Key)
    requires run != []
    requires SameRecent(c, Known(Evict(c, After(c, Init(run))), user), Kept(c, run, user), Last(run).now)
    ensures Faithful(c, run, user, Last(run).now)
  {
    var s, r := After(c, Init(run)), Last(run);
    var kept := Evict(c, s);
    if r.user == user {
      SameRecentLater(c, Known(kept, user), Kept(c, run, user), r.now, r.now, Gain(c, s, r, user));
      assert Known(After(c, run), user) == Recent(c, Known(kept, user), r.now) + Gain(c, s, r, user);
    } else {
      assert Known(After(c, run), user) == Known(kept, user);
      assert Kept(c, run, user) + [] == Kept(c, run, user);
    }
  }

  lemma ClockShorter(run: seq<Request>)
    requires run != [] && ClockMonotone(run)
    ensures ClockMonotone(Init(run)) && NotAfter(Init(run), Last(run).now)
  {
  }

  lemma {:induction false} EntriesAreLog(c: Config, run: seq<Request>, user: Key, since: Time)
    requires ClockMonotone(run) && NotAfter(run, since)
    ensures Faithful(c, run, user, since)
    decreases |run|
  {
    if run != [] {
      TrackedUsersBounded(c, Init(run));
      ClockShorter(run);
      EntriesAreLog(c, Init(run), user, Last(run).now);
      EvictFaithful(c, run, user, Last(run).now);
      StepFaithful(c, run, user);
    }
  }

  /** A request is admitted exactly when fewer than the maximum were admitted within the
      window before it, since the user was last pushed out. */
  lemma AdmittedExactly(c: Config, run: seq<Request>, r: Request)
    requires ClockMonotone(run + [r])
    ensures Admits(c, After(c, run), r) <==> |Recent(c, Kept(c, run + [r], r.user), r.now)| < c.maxRequests
  {
    var all := run + [r];
    assert Init(all) == run && all[|run|] == r;
    forall i, j | 0 <= i < j < |run| ensures run[i].now <= run[j].now {
      assert all[i] == run[i] && all[j] == run[j];
    }
    forall i | 0 <= i < |run| ensures run[i].now <= r.now {
      assert all[i] == run[i];
    }
    TrackedUsersBounded(c, run);
    EntriesAreLog(c, run, r.user, r.now);
    EvictFaithful(c, all, r.user, r.now);
  }

  // ---------------------------------------------------------------------------
  // Every window
  // ---------------------------------------------------------------------------

  /** The times in the half-open window that starts at `start`. */
  function Within(c: Config, times: seq<Time>, start: Time): seq<Time>
  {
    if times == [] then []
    else
      var last := times[|times| - 1];
      Within(c, times[..|times| - 1], start) + if start <= last < start + c.window then [last] else []
  }

  lemma {:induction false} WindowIsRecent(c: Config, times: seq<Time>, start: Time, now: Time)
    requires start <= now < start + c.window
    ensures |Within(c, times, start)| <= |Recent(c, times, now)|
  {
    if times != [] {
      WindowIsRecent(c, times[..|times| - 1], start, now);
    }
  }

  lemma WindowGrows(c: Config, log: seq<Time>, now: Time, start: Time)
    requires |Recent(c, log, now)| < c.maxRequests && |Within(c, log, start)| <= c.maxRequests
    ensures |Within(c, log + [now], start)| <= c.maxRequests
  {
    assert (log + [now])[..|log|] == log;
    if start <= now < start + c.window {
      WindowIsRecent(c, log, start, now);
    }
  }

  /** No window of the configured length holds more admissions than the maximum, counting
      from the last time the user was pushed out. */
  lemma {:induction false} WindowBounded(c: Config, run: seq<Request>, user: Key, start: Time)
    requires ClockMonotone(run)
    ensures |Within(c, Log(c, run, user), start)| <= if c.maxRequests > 0 then c.maxRequests else 0
    decreases |run|
  {
    if run != [] {
      var r := Last(run);
      WindowBounded(c, Init(run), user, start);
      assert run == Init(run) + [r];
      if Gain(c, After(c, Init(run)), r, user) == [] {
        assert Log(c, run, user) == Kept(c, run, user);
      } else {
        AdmittedExactly(c, Init(run), r);
        WindowGrows(c, Kept(c, run, user), r.now, start);
      }
    }
  }

  /** The user's history was never pushed out in the course of the run. */
  ghost predicate NeverForgotten(c: Config, run: seq<Request>, user: Key)
  {
    run == [] || (!Forgotten(c, run, user) && NeverForgotten(c, Init(run), user))
  }

  lemma {:induction false} LogIsAdmissions(c: Config, run: seq<Request>, user: Key)
    requires NeverForgotten(c, run, user)
    ensures Log(c, run, user) == Admissions(c, run, user)
  {
    if run != [] {
      LogIsAdmissions(c, Init(run), user);
    }
  }

  /** So a user who is never pushed out is never admitted more often than the maximum in
      any window. */
  lemma LimitHolds(c: Config, run: seq<Request>, user: Key, start: Time)
    requires ClockMonotone(run) && NeverForgotten(c, run, user) && c.maxRequests >= 0
    ensures |Within(c, Admissions(c, run, user), start)| <= c.maxRequests
  {
    LogIsAdmissions(c, run, user);
    WindowBounded(c, run, user, start);
  }

  // ---------------------------------------------------------------------------
  // Exactly when the limit holds
  // ---------------------------------------------------------------------------

  function Quota(c: Config): nat
  {
    if c.maxRequests > 0 then c.maxRequests else 0
  }

  /** No user is admitted more often than the maximum in any window. */
  ghost predicate LimitKept(c: Config, run: seq<Request>)
  {
    forall user, start :: |Within(c, Admissions(c, run, user), start)| <= Quota(c)
  }

  ghost function Users(run: seq<Request>): set<Key>
  {
    set i | 0 <= i < |run| :: run[i].user
  }

  lemma UsersShorter(run: seq<Request>)
    requires run != []
    ensures Users(run) == Users(Init(run)) + {Last(run).user}
  {
    forall u | u in Users(Init(run)) ensures u in Users(run) {
      var i :| 0 <= i < |run| - 1 && Init(run)[i].user == u;
      assert run[i].user == u;
    }
  }

  lemma {:induction false} TrackedAreUsers(c: Config, run: seq<Request>)
    ensures After(c, run).entries.Keys <= Users(run)
  {
    if run != [] {
      TrackedAreUsers(c, Init(run));
      UsersShorter(run);
    }
  }

  lemma RoomForUsers(c: Config, run: seq<Request>)
    requires |Users(run)| <= c.maxTracked
    ensures !EvictsOldest(c, After(c, run))
  {
    TrackedAreUsers(c, run);
    TrackedUsersBounded(c, run);
    ListLength(After(c, run).order, After(c, run).entries.Keys);
    SubsetSize(After(c, run).entries.Keys, Users(run));
  }

  /** With room for every user nobody is pushed out, whatever the clock does. */
  lemma {:induction false} NobodyForgotten(c: Config, run: seq<Request>, user: Key)
    requires |Users(run)| <= c.maxTracked
    ensures NeverForgotten(c, run, user)
  {
    if run != [] {
      UsersShorter(run);
      SubsetSize(Users(Init(run)), Users(run));
      NobodyForgotten(c, Init(run), user);
      RoomForUsers(c, Init(run));
    }
  }

  lemma {:induction false} NothingWithin(c: Config, times: seq<Time>, start: Time)
    requires c.window <= 0.0
    ensures Within(c, times, start) == []
  {
    if times != [] {
      NothingWithin(c, times[..|times| - 1], start);
    }
  }

  lemma {:induction false} NothingAdmitted(c: Config, run: seq<Request>, user: Key)
    requires c.maxRequests <= 0
    ensures Admissions(c, run, user) == []
  {
    if run != [] {
      NothingAdmitted(c, Init(run), user);
    }
  }

  /** A limiter that admits nobody, or whose windows are empty, keeps its limit. */
  lemma TrivialLimit(c: Config, run: seq<Request>)
    requires c.maxRequests <= 0 || c.window <= 0.0
    ensures LimitKept(c, run)
  {
    forall user, start ensures |Within(c, Admissions(c, run, user), start)| <= Quota(c) {
      if c.maxRequests <= 0 {
        NothingAdmitted(c, run, user);
      } else {
        NothingWithin(c, Admissions(c, run, user), start);
      }
    }
  }

  // Runs that break the limit.

  function Zeros(k: nat): (times: seq<Time>)
    ensures |times| == k
  {
    if k == 0 then [] else Zeros(k - 1) + [0.0]
  }

  lemma {:induction false} ZerosCount(c: Config, k: nat, now: Time)
    requires 0.0 <= now < c.window
    ensures Recent(c, Zeros(k), now) == Zeros(k) && Within(c, Zeros(k), 0.0) == Zeros(k)
  {
    if k > 0 {
      assert Zeros(k)[..k - 1] == Zeros(k - 1);
      ZerosCount(c, k - 1, now);
    }
  }

  lemma {:induction false} ZerosPass(c: Config, k: nat)
    ensures Recent(c, Zeros(k), c.window) == []
  {
    if k > 0 {
      assert Zeros(k)[..k - 1] == Zeros(k - 1);
      ZerosPass(c, k - 1);
    }
  }

  ghost predicate AtZero(run: seq<Request>)
  {
    forall i | 0 <= i < |run| :: run[i].now == 0.0
  }

  /** One request more. */
  lemma Ask(c: Config, run: seq<Request>, user: Key, now: Time, watched: Key) returns (next: seq<Request>)
    ensures After(c, next) == Step(c, After(c, run), Request(user, now))
    ensures Admissions(c, next, watched) == Admissions(c, run, watched) + Gain(c, After(c, run), Request(user, now), watched)
    ensures Users(next) == Users(run) + {user} && (AtZero(run) && now == 0.0 ==> AtZero(next))
  {
    next := run + [Request(user, now)];
    assert Init(next) == run;
    UsersShorter(next);
  }

  /** A fresh user is admitted and becomes the newest. */
  lemma FreshStep(c: Config, s: State, user: Key, now: Time)
    requires !EvictsOldest(c, s) && user !in s.entries && user !in s.order && c.maxRequests >= 1
    ensures Step(c, s, Request(user, now)) == State(s.order + [user], s.entries[user := [now]])
    ensures Admits(c, s, Request(user, now))
  {
    WithoutLast(s.order, user);
    assert [] + [now] == [now];
  }

  /** A lone user with room left is admitted. */
  lemma LoneStep(c: Config, times: seq<Time>, now: Time)
    requires c.maxTracked >= 1 && |Recent(c, times, now)| < c.maxRequests
    ensures var s := State([Name(0)], map[Name(0) := times]);
            && Step(c, s, Request(Name(0), now)) == State([Name(0)], map[Name(0) := Recent(c, times, now) + [now]])
            && Admits(c, s, Request(Name(0), now))
  {
    assert Without([Name(0)], Name(0)) == [];
    assert [] + [Name(0)] == [Name(0)];
  }

  lemma FirstAsk(c: Config) returns (run: seq<Request>)
    requires c.maxRequests >= 1
    ensures After(c, run) == State([Name(0)], map[Name(0) := [0.0]]) && Admissions(c, run, Name(0)) == [0.0]
    ensures AtZero(run) && Users(run) <= {Name(0)}
  {
    run := Ask(c, [], Name(0), 0.0, Name(0));
    FreshStep(c, State([], map[]), Name(0), 0.0);
    assert [] + [Name(0)] == [Name(0)];
  }

  lemma OneMoreZero(c: Config, k: nat)
    requires c.maxTracked >= 1 && c.window > 0.0 && k < c.maxRequests
    ensures var s := State([Name(0)], map[Name(0) := Zeros(k)]);
            && Step(c, s, Request(Name(0), 0.0)) == State([Name(0)], map[Name(0) := Zeros(k + 1)])
            && Admits(c, s, Request(Name(0), 0.0))
  {
    ZerosCount(c, k, 0.0);
    LoneStep(c, Zeros(k), 0.0);
  }

  /** The first user asks `k` times at time zero. */
  lemma {:induction false} FillQuota(c: Config, k: nat) returns (run: seq<Request>)
    requires c.maxTracked >= 1 && c.window > 0.0 && 1 <= k <= c.maxRequests
    ensures After(c, run) == State([Name(0)], map[Name(0) := Zeros(k)]) && Admissions(c, run, Name(0)) == Zeros(k)
    ensures AtZero(run) && Users(run) <= {Name(0)}
  {
    if k == 1 {
      run := FirstAsk(c);
      assert Zeros(1) == Zeros(0) + [0.0] == [0.0];
    } else {
      var before := FillQuota(c, k - 1);
      OneMoreZero(c, k - 1);
      run := Ask(c, before, Name(0), 0.0, Name(0));
    }
  }

  /** And then `j` others ask once each. */
  lemma {:induction false} OthersAsk(c: Config, j: nat) returns (run: seq<Request>)
    requires c.window > 0.0 && c.maxRequests >= 1 && 1 <= c.maxTracked && j <= c.maxTracked
    ensures After(c, run).order == Names(j + 1) && Admissions(c, run, Name(0)) == Zeros(c.maxRequests)
    ensures AtZero(run) && Users(run) <= Members(Names(j + 1))
  {
    if j == 0 {
      run := FillQuota(c, c.maxRequests);
      assert Names(1) == [] + [Name(0)] == [Name(0)];
    } else {
      var before := OthersAsk(c, j - 1);
      TrackedUsersBounded(c, before);
      NamesDiffer(j);
      FreshStep(c, After(c, before), Name(j), 0.0);
      assert Names(j)[0] == Name(0);
      MembersAppend(Names(j), Name(j));
      run := Ask(c, before, Name(j), 0.0, Name(0));
    }
  }

  /** With nobody to spare, a user is pushed out by its own next request. */
  lemma {:induction false} AskUntracked(c: Config, k: nat) returns (run: seq<Request>)
    requires c.maxTracked == 0 && c.maxRequests >= 1
    ensures Admissions(c, run, Name(0)) == Zeros(k) && AtZero(run) && Users(run) <= {Name(0)}
  {
    if k == 0 {
      run := [];
    } else {
      var before := AskUntracked(c, k - 1);
      var s := After(c, before);
      TrackedUsersBounded(c, before);
      EvictKeepsValid(c, s);
      assert Known(Evict(c, s), Name(0)) == [];
      run := Ask(c, before, Name(0), 0.0, Name(0));
    }
  }

  /** The first user fills its quota, as many others as can be tracked ask once, and the
      first user, whom that request pushes out, asks again. */
  lemma PushOut(c: Config) returns (run: seq<Request>)
    requires c.maxRequests >= 1 && c.window > 0.0 && c.maxTracked >= 1
    ensures Admissions(c, run, Name(0)) == Zeros(c.maxRequests) + [0.0]
    ensures AtZero(run) && Users(run) <= Members(Names(c.maxTracked + 1))
  {
    var before := OthersAsk(c, c.maxTracked);
    NamesDiffer(c.maxTracked + 1);
    assert Names(c.maxTracked + 1)[0] == Name(0);
    assert Known(Evict(c, After(c, before)), Name(0)) == [];
    run := Ask(c, before, Name(0), 0.0, Name(0));
  }

  lemma PushOutAnyway(c: Config) returns (run: seq<Request>)
    requires c.maxRequests >= 1 && c.window > 0.0
    ensures Admissions(c, run, Name(0)) == Zeros(c.maxRequests + 1)
    ensures AtZero(run) && |Users(run)| <= c.maxTracked + 1
  {
    if c.maxTracked == 0 {
      run := AskUntracked(c, c.maxRequests + 1);
      SubsetSize(Users(run), {Name(0)});
    } else {
      run := PushOut(c);
      NamesCount(c.maxTracked + 1);
      SubsetSize(Users(run), Members(Names(c.maxTracked + 1)));
    }
  }

  /** And is admitted once too often. */
  lemma PushedOutUserExceeds(c: Config) returns (run: seq<Request>)
    requires c.maxRequests >= 1 && c.window > 0.0
    ensures ClockMonotone(run) && |Users(run)| <= c.maxTracked + 1
    ensures |Within(c, Admissions(c, run, Name(0)), 0.0)| == c.maxRequests + 1
  {
    run := PushOutAnyway(c);
    ZerosCount(c, c.maxRequests + 1, 0.0);
  }

  lemma NamesCount(n: nat)
    requires n >= 1
    ensures |Members(Names(n))| == n && Name(0) in Members(Names(n))
  {
    NamesDiffer(n);
    ListLength(Names(n), Members(Names(n)));
    assert Names(n)[0] == Name(0);
  }

  /** The limit is kept in every run over at most `n` users with a clock that does not go
      back. */
  ghost predicate LimitOver(c: Config, n: nat)
  {
    forall run | ClockMonotone(run) && |Users(run)| <= n :: LimitKept(c, run)
  }

  /** The limit is guaranteed for `n` users if and only if so many are tracked, or the
      limiter admits nobody at all, or its windows are empty. */
  lemma LimitIffTracked(c: Config, n: nat)
    ensures LimitOver(c, n) <==> n <= c.maxTracked || c.maxRequests <= 0 || c.window <= 0.0
  {
    if n <= c.maxTracked || c.maxRequests <= 0 || c.window <= 0.0 {
      forall run | ClockMonotone(run) && |Users(run)| <= n ensures LimitKept(c, run) {
        if c.maxRequests <= 0 || c.window <= 0.0 {
          TrivialLimit(c, run);
        } else {
          forall user, start ensures |Within(c, Admissions(c, run, user), start)| <= Quota(c) {
            NobodyForgotten(c, run, user);
            LimitHolds(c, run, user, start);
          }
        }
      }
    } else {
      var run := PushedOutUserExceeds(c);
      assert !LimitKept(c, run);
    }
  }

  // ---------------------------------------------------------------------------
  // A clock that goes back
  // ---------------------------------------------------------------------------

  lemma OneRecent(c: Config, t: Time, now: Time)
    ensures |Recent(c, [t], now)| <= 1
  {
    RecentAppend(c, [], t, now);
    assert [] + [t] == [t];
  }

  /** The first user fills its quota at time zero and asks when the window has just passed. */
  lemma WindowPasses(c: Config) returns (run: seq<Request>)
    requires c.maxTracked >= 1 && c.maxRequests >= 2 && c.window > 0.0
    ensures After(c, run) == State([Name(0)], map[Name(0) := [c.window]])
    ensures Admissions(c, run, Name(0)) == Zeros(c.maxRequests) + [c.window] && Users(run) <= {Name(0)}
  {
    var before := FillQuota(c, c.maxRequests);
    ZerosPass(c, c.maxRequests);
    LoneStep(c, Zeros(c.maxRequests), c.window);
    assert [] + [c.window] == [c.window];
    run := Ask(c, before, Name(0), c.window, Name(0));
  }

  /** Its next request is made inside that window, and admitted. */
  lemma ClockBackExceeds(c: Config) returns (run: seq<Request>)
    requires c.maxTracked >= 1 && c.maxRequests >= 2 && c.window > 0.0
    ensures |Users(run)| <= 1
    ensures |Within(c, Admissions(c, run, Name(0)), 0.0)| == c.maxRequests + 1
  {
    var back := c.window / 2.0;
    var before := WindowPasses(c);
    OneRecent(c, c.window, back);
    LoneStep(c, [c.window], back);
    run := Ask(c, before, Name(0), back, Name(0));
    SubsetSize(Users(run), {Name(0)});
    ZerosCount(c, c.maxRequests, 0.0);
    WithinAppend(c, Zeros(c.maxRequests), c.window, 0.0);
    WithinAppend(c, Zeros(c.maxRequests) + [c.window], back, 0.0);
  }

  lemma WithinAppend(c: Config, times: seq<Time>, t: Time, start: Time)
    ensures Within(c, times + [t], start) == Within(c, times, start) + if start <= t < start + c.window then [t] else []
  {
    assert (times + [t])[..|times|] == times;
  }

  /** Any two admissions are a window apart. */
  ghost predicate Spaced(c: Config, times: seq<Time>)
  {
    forall i, j | 0 <= i < j < |times| :: times[j] - times[i] >= c.window
  }

  /** What the dictionary knows is exactly the last admission. */
  ghost predicate KnowsLast(c: Config, known: seq<Time>, times: seq<Time>)
  {
    Spaced(c, times) && known == if times == [] then [] else [times[|times| - 1]]
  }

  lemma SpacedAppend(c: Config, times: seq<Time>, now: Time)
    requires Spaced(c, times) && c.window > 0.0 && (times != [] ==> now - times[|times| - 1] >= c.window)
    ensures Spaced(c, times + [now])
  {
    forall i, j | 0 <= i < j < |times + [now]| ensures (times + [now])[j] - (times + [now])[i] >= c.window {
      if j == |times| && i < |times| - 1 {
        assert times[|times| - 1] - times[i] >= c.window;
      }
    }
  }

  /** One request of a user who is tracked. */
  lemma OneMoreAtATime(c: Config, s: State, times: seq<Time>, r: Request, user: Key)
    requires c.maxRequests == 1 && c.window > 0.0 && !EvictsOldest(c, s)
    requires KnowsLast(c, Known(s, user), times)
    ensures KnowsLast(c, Known(Step(c, s, r), user), times + Gain(c, s, r, user))
  {
    assert times + [] == times;
    if r.user == user {
      if times != [] {
        RecentAppend(c, [], times[|times| - 1], r.now);
        assert [] + [times[|times| - 1]] == [times[|times| - 1]];
      }
      if Admits(c, s, r) {
        SpacedAppend(c, times, r.now);
        assert [] + [r.now] == [r.now];
      }
    }
  }

  lemma LastStep(c: Config, run: seq<Request>, user: Key)
    requires run != []
    ensures After(c, run) == Step(c, After(c, Init(run)), Last(run))
    ensures Admissions(c, run, user) == Admissions(c, Init(run), user) + Gain(c, After(c, Init(run)), Last(run), user)
  {
  }

  lemma {:induction false} OneAtATime(c: Config, run: seq<Request>, user: Key, s: State, times: seq<Time>)
    requires c.maxRequests == 1 && c.window > 0.0 && |Users(run)| <= c.maxTracked
    requires s == After(c, run) && times == Admissions(c, run, user)
    ensures KnowsLast(c, Known(s, user), times)
    decreases |run|
  {
    if run != [] {
      var before, earlier := After(c, Init(run)), Admissions(c, Init(run), user);
      UsersShorter(run);
      SubsetSize(Users(Init(run)), Users(run));
      OneAtATime(c, Init(run), user, before, earlier);
      RoomForUsers(c, Init(run));
      OneMoreAtATime(c, before, earlier, Last(run), user);
      LastStep(c, run, user);
    }
  }

  lemma {:induction false} SpacedWindow(c: Config, times: seq<Time>, start: Time)
    requires Spaced(c, times)
    ensures |Within(c, times, start)| <= 1
    ensures Within(c, times, start) != [] ==> exists i :: 0 <= i < |times| && start <= times[i] < start + c.window
  {
    if times != [] {
      var init := times[..|times| - 1];
      SpacedWindow(c, init, start);
      if Within(c, init, start) != [] {
        var i :| 0 <= i < |init| && start <= init[i] < start + c.window;
        assert times[i] == init[i];
      }
    }
  }

  /** The limit is kept in every run over users that are all tracked, whatever the clock
      does. */
  ghost predicate LimitAnyClock(c: Config)
  {
    forall run | |Users(run)| <= c.maxTracked :: LimitKept(c, run)
  }

  lemma NobodyAsks(c: Config, run: seq<Request>)
    requires Users(run) == {}
    ensures LimitKept(c, run)
  {
    assert forall i | 0 <= i < |run| :: run[i].user in Users(run);
  }

  /** A clock that goes back breaks the limit if and only if there is a tracked user and more
      than one request is admitted at a time. */
  lemma AnyClockIffOne(c: Config)
    ensures LimitAnyClock(c) <==> c.maxRequests <= 1 || c.window <= 0.0 || c.maxTracked == 0
  {
    if c.maxTracked == 0 {
      forall run | |Users(run)| <= c.maxTracked ensures LimitKept(c, run) {
        NobodyAsks(c, run);
      }
    } else if c.maxRequests <= 1 || c.window <= 0.0 {
      forall run | |Users(run)| <= c.maxTracked ensures LimitKept(c, run) {
        if c.maxRequests <= 0 || c.window <= 0.0 {
          TrivialLimit(c, run);
        } else {
          forall user, start ensures |Within(c, Admissions(c, run, user), start)| <= Quota(c) {
            OneAtATime(c, run, user, After(c, run), Admissions(c, run, user));
            SpacedWindow(c, Admissions(c, run, user), start);
          }
        }
      }
    } else {
      var run := ClockBackExceeds(c);
      assert !LimitKept(c, run);
    }
  }
}
